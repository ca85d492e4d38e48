/** The JSON manifest and the digest sidecar of a source distribution. */
module SourceManifest {
  import opened Text
  import opened SourcePaths

  const SCHEMA := "connect.md/source-distribution"
  const ARCHIVE_FORMAT := "tar.gz"
  const MAX_SOURCE_FILES := 50_000
  const MAX_SOURCE_BYTES := 536_870_912
  const MAX_ARCHIVE_BYTES := 536_870_912
  const MAX_FILE_BYTES := 134_217_728

  datatype Json =
    | Null
    | Bool(b: bool)
    | Int(i: int)
    | Float(r: real)
    | Str(s: string)
    | Arr(items: seq<Json>)
    | Obj(fields: map<string, Json>)

  /** One file of the manifest; `mode` in octal digits. */
  datatype FileEntry = FileEntry(path: string, mode: string, size: nat, sha: string)

  datatype Manifest = Manifest(commit: string, archiveName: string, archiveSha: string, files: seq<FileEntry>)

  const EntryPath: FileEntry -> string := (e: FileEntry) => e.path
  const EntrySize: FileEntry -> nat := (e: FileEntry) => e.size

  predicate LowerHex(s: string, length: nat) {
    |s| == length && forall i :: 0 <= i < |s| ==> '0' <= s[i] <= '9' || 'a' <= s[i] <= 'f'
  }

  predicate Alphanumeric(c: char) {
    'A' <= c <= 'Z' || 'a' <= c <= 'z' || '0' <= c <= '9'
  }

  /** `_ARTIFACT_NAME_RE` and the suffix that goes with it. */
  predicate ArtifactName(name: string) {
    && 1 <= |name| <= 128 && Alphanumeric(name[0])
    && (forall i :: 0 <= i < |name| ==> Alphanumeric(name[i]) || name[i] in "._-")
    && EndsWith(name, ".tar.gz")
  }

  /** What Python finds equal to the integer 1. */
  predicate EqualsOne(v: Json) {
    v == Int(1) || v == Float(1.0) || v == Bool(true)
  }

  // ----- Writing -----

  function EntryJson(e: FileEntry): Json {
    Obj(map["bytes" := Int(e.size), "mode" := Str(e.mode), "path" := Str(e.path), "sha256" := Str(e.sha)])
  }

  function EntriesJson(files: seq<FileEntry>): (items: seq<Json>)
    ensures |items| == |files| && forall i :: 0 <= i < |files| ==> items[i] == EntryJson(files[i])
  {
    seq(|files|, i requires 0 <= i < |files| => EntryJson(files[i]))
  }

  /** A manifest whose file entries are not looked into. */
  datatype Header = Header(commit: string, archiveName: string, archiveSha: string, items: seq<Json>)

  function Envelope(h: Header, version: Json): Json {
    Obj(map["archive_format" := Str(ARCHIVE_FORMAT), "archive_name" := Str(h.archiveName),
      "archive_prefix" := Str(ARCHIVE_PREFIX),
            "archive_sha256" := Str(h.archiveSha), "commit" := Str(h.commit), "files" := Arr(h.items),
            "schema" := Str(SCHEMA), "schema_version" := version])
  }

  function HeaderOf(m: Manifest): Header {
    Header(m.commit, m.archiveName, m.archiveSha, EntriesJson(m.files))
  }

  /** `_manifest_payload`; the writer's `version` is `Int(1)`. */
  function Payload(m: Manifest, version: Json): Json {
    Envelope(HeaderOf(m), version)
  }

  // ----- What a manifest must satisfy -----

  predicate EntryOk(rules: Rules, e: FileEntry) {
    rules.allowed(e.path) && (e.mode == "100644" || e.mode == "100755") && e.size <= MAX_FILE_BYTES &&
      LowerHex(e.sha, 64)
  }

  predicate EachOk(rules: Rules, files: seq<FileEntry>) {
    forall i :: 0 <= i < |files| ==> EntryOk(rules, files[i])
  }

  predicate EntriesOk(rules: Rules, files: seq<FileEntry>) {
    && EachOk(rules, files)
    && StrictlySorted(rules, files, EntryPath) && NoCollision(rules, files, EntryPath) &&
      Total(files, EntrySize) <= MAX_SOURCE_BYTES
  }

  predicate HeaderOk(h: Header) {
    LowerHex(h.commit, 40) && LowerHex(h.archiveSha, 64) && ArtifactName(h.archiveName) &&
      0 < |h.items| <= MAX_SOURCE_FILES
  }

  predicate ManifestOk(rules: Rules, m: Manifest) {
    HeaderOk(HeaderOf(m)) && EntriesOk(rules, m.files)
  }

  /** The value is the payload of a manifest that satisfies every rule. */
  ghost predicate Describes(rules: Rules, v: Json, m: Manifest) {
    ManifestOk(rules, m) && exists version :: EqualsOne(version) && v == Payload(m, version)
  }

  lemma EnvelopeInjective(h1: Header, v1: Json, h2: Header, v2: Json)
    requires Envelope(h1, v1) == Envelope(h2, v2)
    ensures h1 == h2 && v1 == v2
  {
    var f1, f2 := Envelope(h1, v1).fields, Envelope(h2, v2).fields;
    assert f1["files"] == f2["files"] && f1["commit"] == f2["commit"] && f1["schema_version"] == f2["schema_version"];
    assert f1["archive_name"] == f2["archive_name"] && f1["archive_sha256"] == f2["archive_sha256"];
  }

  /** A value describes at most one manifest. */
  lemma DescribesOne(rules: Rules, v: Json, m1: Manifest, m2: Manifest)
    requires Describes(rules, v, m1) && Describes(rules, v, m2)
    ensures m1 == m2
  {
    var v1 :| EqualsOne(v1) && v == Payload(m1, v1);
    var v2 :| EqualsOne(v2) && v == Payload(m2, v2);
    EnvelopeInjective(HeaderOf(m1), v1, HeaderOf(m2), v2);
    EntriesInjective(m1.files, m2.files);
  }

  lemma EntriesInjective(a: seq<FileEntry>, b: seq<FileEntry>)
    requires EntriesJson(a) == EntriesJson(b)
    ensures a == b
  {
    assert |a| == |EntriesJson(a)| == |b|;
    forall i | 0 <= i < |a| ensures a[i] == b[i] {
      assert EntryJson(a[i]) == EntriesJson(a)[i] == EntryJson(b[i]);
      EntryInjective(a[i], b[i]);
    }
  }

  lemma EntryInjective(a: FileEntry, b: FileEntry)
    requires EntryJson(a) == EntryJson(b)
    ensures a == b
  {
    var f1, f2 := EntryJson(a).fields, EntryJson(b).fields;
    assert f1["bytes"] == f2["bytes"] && f1["mode"] == f2["mode"] && f1["path"] == f2["path"] &&
      f1["sha256"] == f2["sha256"];
  }

  // ----- Reading -----

  /** The checks on one entry. */
  function ReadEntry(rules: Rules, v: Json): (r: Option<FileEntry>)
    ensures r.Some? ==> EntryOk(rules, r.value) && v == EntryJson(r.value)
    ensures r.None? ==> forall e :: EntryOk(rules, e) ==> v != EntryJson(e)
  {
    if !v.Obj? || v.fields.Keys != {"bytes", "mode", "path", "sha256"} then None
    else
      var bytes, mode, path, sha := v.fields["bytes"], v.fields["mode"], v.fields["path"], v.fields["sha256"];
      if !path.Str? || !rules.allowed(path.s) then None
      else if !bytes.Int? || bytes.i < 0 || bytes.i > MAX_FILE_BYTES then None
      else if mode != Str("100644") && mode != Str("100755") then None
      else if !sha.Str? || !LowerHex(sha.s, 64) then None
      else
        var e := FileEntry(path.s, mode.s, bytes.i, sha.s);
        assert v.fields == EntryJson(e).fields;
        Some(e)
  }

  const MANIFEST_KEYS: set<string> := {
    "archive_format", "archive_name", "archive_prefix", "archive_sha256", "commit", "files", "schema", "schema_version"}

  /** The checks before the loop over the files. */
  function ReadHeader(v: Json): (r: Option<Header>)
    ensures r.Some? ==> HeaderOk(r.value) && v.Obj? && "schema_version" in v.fields
    ensures r.Some? ==> EqualsOne(v.fields["schema_version"]) && v == Envelope(r.value, v.fields["schema_version"])
    ensures r.None? ==> forall h, version :: HeaderOk(h) && EqualsOne(version) ==> v != Envelope(h, version)
  {
    if !v.Obj? || v.fields.Keys != MANIFEST_KEYS then None
    else
      var f := v.fields;
      if f["schema"] != Str(SCHEMA) || !EqualsOne(f["schema_version"]) then None
      else if f["archive_format"] != Str(ARCHIVE_FORMAT) || f["archive_prefix"] != Str(ARCHIVE_PREFIX) then None
      else if !f["commit"].Str? || !LowerHex(f["commit"].s, 40) then None
      else if !f["archive_sha256"].Str? || !LowerHex(f["archive_sha256"].s, 64) then None
      else if !f["archive_name"].Str? || !ArtifactName(f["archive_name"].s) then None
      else if !f["files"].Arr? || |f["files"].items| == 0 || |f["files"].items| > MAX_SOURCE_FILES then None
      else
        var h := Header(f["commit"].s, f["archive_name"].s, f["archive_sha256"].s, f["files"].items);
        assert f == Envelope(h, f["schema_version"]).fields;
        Some(h)
  }

  predicate Follows(rules: Rules, files: seq<FileEntry>, e: FileEntry) {
    && EntryOk(rules, e)
    && (|files| > 0 ==> rules.Less(files[|files| - 1].path, e.path))
    && rules.key(e.path) !in Keys(rules, files, EntryPath)
    && Total(files, EntrySize) + e.size <= MAX_SOURCE_BYTES
  }

  lemma EntriesPrefix(rules: Rules, files: seq<FileEntry>, k: nat)
    requires EntriesOk(rules, files) && k <= |files|
    ensures EntriesOk(rules, files[..k])
  {
    TotalPrefix(files, k, EntrySize);
  }

  /** The checks of one round, against what is required of the whole list. */
  lemma EntriesStep(rules: Rules, files: seq<FileEntry>, e: FileEntry)
    requires TotalOrder(rules) && EntriesOk(rules, files)
    ensures EntriesOk(rules, files + [e]) <==> Follows(rules, files, e)
  {
    AppendNoCollision(rules, files, e, EntryPath);
    AppendStrict(rules, files, e, EntryPath);
    AppendTotal(files, e, EntrySize);
    EachStep(rules, files, e);
  }

  lemma EachStep(rules: Rules, files: seq<FileEntry>, e: FileEntry)
    ensures EachOk(rules, files + [e]) <==> EachOk(rules, files) && EntryOk(rules, e)
  {
    var all := files + [e];
    assert all[|files|] == e && forall i :: 0 <= i < |files| ==> all[i] == files[i];
  }

  /** When a round fails, no list of entries would do. */
  lemma Stuck(rules: Rules, items: seq<Json>, k: nat, files: seq<FileEntry>)
    requires TotalOrder(rules) && k < |items| && EntriesOk(rules, files) && EntriesJson(files) == items[..k]
    requires ReadEntry(rules, items[k]).Some? ==> !Follows(rules, files, ReadEntry(rules, items[k]).value)
    ensures forall all :: EntriesOk(rules, all) ==> EntriesJson(all) != items
  {
    forall all | EntriesOk(rules, all) ensures EntriesJson(all) != items {
      if EntriesJson(all) == items {
        Unstuck(rules, items, k, files, all);
        assert false;
      }
    }
  }

  lemma Unstuck(rules: Rules, items: seq<Json>, k: nat, files: seq<FileEntry>, all: seq<FileEntry>)
    requires TotalOrder(rules) && k < |items| && EntriesOk(rules, files) && EntriesJson(files) == items[..k]
    requires EntriesOk(rules, all) && EntriesJson(all) == items
    ensures ReadEntry(rules, items[k]).Some? && Follows(rules, files, ReadEntry(rules, items[k]).value)
  {
    var e := all[k];
    ReadsBack(rules, e);
    JsonPrefix(all, k);
    EntriesInjective(all[..k], files);
    EntriesPrefix(rules, all, k + 1);
    assert all[..k + 1] == files + [e];
    EntriesStep(rules, files, e);
  }

  lemma ReadsBack(rules: Rules, e: FileEntry)
    requires EntryOk(rules, e)
    ensures ReadEntry(rules, EntryJson(e)) == Some(e)
  {
    var e' := ReadEntry(rules, EntryJson(e)).value;
    EntryInjective(e, e');
  }

  lemma JsonPrefix(files: seq<FileEntry>, k: nat)
    requires k <= |files|
    ensures EntriesJson(files[..k]) == EntriesJson(files)[..k]
  {
  }

  lemma Round(rules: Rules, items: seq<Json>, k: nat, files: seq<FileEntry>, e: FileEntry)
    requires TotalOrder(rules) && k < |items| && EntriesOk(rules, files) && EntriesJson(files) == items[..k]
    requires items[k] == EntryJson(e) && Follows(rules, files, e)
    ensures EntriesOk(rules, files + [e]) && EntriesJson(files + [e]) == items[..k + 1]
    ensures Keys(rules, files + [e], EntryPath) == Keys(rules, files, EntryPath) + {rules.key(e.path)}
    ensures Total(files + [e], EntrySize) == Total(files, EntrySize) + e.size
  {
    EntriesStep(rules, files, e);
    AppendNoCollision(rules, files, e, EntryPath);
    AppendTotal(files, e, EntrySize);
    assert EntriesJson(files + [e]) == EntriesJson(files) + [EntryJson(e)];
    assert items[..k + 1] == items[..k] + [items[k]];
  }

  /** The loop of `_read_manifest` over the file entries. */
  method ReadEntries(rules: Rules, items: seq<Json>) returns (r: Option<seq<FileEntry>>)
    requires TotalOrder(rules)
    ensures r.Some? ==> EntriesOk(rules, r.value) && EntriesJson(r.value) == items
    ensures r.None? ==> forall files :: EntriesOk(rules, files) ==> EntriesJson(files) != items
  {
    var files: seq<FileEntry> := [];
    var last: Option<string> := None;
    var seen: set<string> := {};
    var total := 0;
    for k := 0 to |items|
      invariant EntriesOk(rules, files) && EntriesJson(files) == items[..k]
      invariant last == if |files| == 0 then None else Some(files[|files| - 1].path)
      invariant seen == Keys(rules, files, EntryPath) && total == Total(files, EntrySize)
    {
      var entry := ReadEntry(rules, items[k]);
      if entry.None? {
        Stuck(rules, items, k, files);
        return None;
      }
      var e := entry.value;
      if (last.Some? && !rules.Less(last.value, e.path)) || rules.key(e.path) in seen ||
        total + e.size > MAX_SOURCE_BYTES {
        Stuck(rules, items, k, files);
        return None;
      }
      Round(rules, items, k, files, e);
      files := files + [e];
      last, seen, total := Some(e.path), seen + {rules.key(e.path)}, total + e.size;
    }
    assert items[..|items|] == items;
    return Some(files);
  }

  /** `_read_manifest`: accepts exactly the payloads of manifests that satisfy every rule. */
  method ReadManifest(rules: Rules, v: Json) returns (r: Option<Manifest>)
    requires TotalOrder(rules)
    ensures r.Some? ==> Describes(rules, v, r.value)
    ensures r.None? ==> forall m :: !Describes(rules, v, m)
  {
    var header := ReadHeader(v);
    if header.None? {
      return None;
    }
    var h := header.value;
    var files := ReadEntries(rules, h.items);
    if files.None? {
      forall m ensures !Describes(rules, v, m) {
        NoEntries(rules, v, h, m);
      }
      return None;
    }
    r := Some(Manifest(h.commit, h.archiveName, h.archiveSha, files.value));
    assert HeaderOf(r.value) == h;
    assert v == Payload(r.value, v.fields["schema_version"]);
  }

  lemma NoEntries(rules: Rules, v: Json, h: Header, m: Manifest)
    requires exists version :: v == Envelope(h, version)
    requires forall files :: EntriesOk(rules, files) ==> EntriesJson(files) != h.items
    ensures !Describes(rules, v, m)
  {
    if Describes(rules, v, m) {
      var v1 :| v == Envelope(h, v1);
      var v2 :| EqualsOne(v2) && v == Payload(m, v2);
      EnvelopeInjective(h, v1, HeaderOf(m), v2);
      assert false;
    }
  }
}
