/** `_verify_bytes` and `export_distribution`: a writer and a strict reader that agree. */
module SourceDistribution {
  import opened Text
  import opened SourcePaths
  import opened SourceManifest
  import opened SourceSidecar
  import opened SourceArchive

  datatype Artifacts = Artifacts(archive: Bytes, manifest: Bytes, digest: Bytes)

  /** What the caller insists on. */
  datatype Expected = Expected(commit: Option<string>, archiveSha: Option<string>, manifestSha: Option<string>)

  // ----- Verification -----

  /** A member and the manifest entry at its position. */
  predicate Agrees(c: Codec, f: File, e: FileEntry) {
    && f.path == e.path && f.mode >= 0 && Octal(REGULAR + f.mode) == e.mode
    && |f.data| == e.size && c.sha(f.data) == e.sha && !c.secret(f.data)
  }

  predicate AllAgree(c: Codec, files: seq<File>, entries: seq<FileEntry>) {
    |files| == |entries| && forall i :: 0 <= i < |files| ==> Agrees(c, files[i], entries[i])
  }

  predicate Insists(expected: Option<string>, length: nat, actual: string) {
    expected.Some? ==> LowerHex(expected.value, length) && actual == expected.value
  }

  predicate Bound(c: Codec, a: Artifacts, expected: Expected, m: Manifest) {
    var archiveSha, manifestSha := c.sha(a.archive), c.sha(a.manifest);
    && m.archiveSha == archiveSha
    && ReadSidecar(a.digest, m.archiveName, m.archiveName + MANIFEST_SUFFIX) == Some((archiveSha, manifestSha))
    && Insists(expected.commit, 40, m.commit) && Insists(expected.archiveSha, 64, archiveSha)
    && Insists(expected.manifestSha, 64, manifestSha)
  }

  /** The three artifacts form a distribution of the manifest. */
  ghost predicate Verified(rules: Rules, c: Codec, a: Artifacts, expected: Expected, m: Manifest) {
    && c.load(a.manifest).Some? && Describes(rules, c.load(a.manifest).value, m) && Bound(c, a, expected, m)
    && Unpacked(rules, c, a.archive).Some? && AllAgree(c, Unpacked(rules, c, a.archive).value, m.files)
  }

  /** `_verify_bytes` */
  method VerifyBytes(rules: Rules, c: Codec, a: Artifacts, expected: Expected) returns (r: Option<Manifest>)
    requires TotalOrder(rules)
    ensures r.Some? ==> Verified(rules, c, a, expected, r.value)
    ensures r.None? ==> forall m :: !Verified(rules, c, a, expected, m)
  {
    var value := c.load(a.manifest);
    if value.None? {
      return None;
    }
    var manifest := ReadManifest(rules, value.value);
    if manifest.None? {
      return None;
    }
    var m := manifest.value;
    forall m' | Verified(rules, c, a, expected, m') ensures m' == m {
      DescribesOne(rules, value.value, m, m');
    }
    if !Bound(c, a, expected, m) {
      return None;
    }
    var files := ArchiveMembers(rules, c, a.archive);
    if files.None? {
      return None;
    }
    var ok := CompareAll(c, files.value, m.files);
    if !ok {
      return None;
    }
    return Some(m);
  }

  /** The loop over members and entries in step. */
  method CompareAll(c: Codec, files: seq<File>, entries: seq<FileEntry>) returns (ok: bool)
    ensures ok <==> AllAgree(c, files, entries)
  {
    if |files| != |entries| {
      return false;
    }
    for k := 0 to |files|
      invariant forall i :: 0 <= i < k ==> Agrees(c, files[i], entries[i])
    {
      if !Agrees(c, files[k], entries[k]) {
        return false;
      }
    }
    return true;
  }

  /** Acceptance binds every octet: what the archive holds is, position by position, what the manifest lists,
      on strictly sorted, allowed paths that do not collide, within the bounds. */
  lemma VerifiedMeans(rules: Rules, c: Codec, a: Artifacts, expected: Expected, m: Manifest)
    requires Verified(rules, c, a, expected, m)
    ensures var files := Unpacked(rules, c, a.archive).value;
      && |files| == |m.files| && 0 < |files| <= MAX_SOURCE_FILES
      && (forall i :: 0 <= i < |files| ==>
           && rules.allowed(files[i].path) && files[i].path == m.files[i].path
           && (files[i].mode == PLAIN <==> m.files[i].mode == "100644") &&
             (files[i].mode == EXECUTABLE <==> m.files[i].mode == "100755")
           && |files[i].data| == m.files[i].size && c.sha(files[i].data) == m.files[i].sha && !c.secret(files[i].data))
      && StrictlySorted(rules, files, FilePath) && StrictlySorted(rules, m.files, EntryPath)
      && NoCollision(rules, files, FilePath) && Total(files, FileSize) == Total(m.files, EntrySize) <= MAX_SOURCE_BYTES
  {
    var members := c.unpack(a.archive).value;
    var files := FilesOf(rules, members);
    SameTotal(files, FileSize, m.files, EntrySize);
    OctalModes();
    forall i | 0 <= i < |files|
      ensures rules.allowed(files[i].path) && (files[i].mode == PLAIN || files[i].mode == EXECUTABLE) {
      assert MemberOk(rules, members[i]);
    }
  }

  /** One manifest, one content: two verified archives with the same manifest hold the same files, unless two
      different files have the same digest. */
  lemma ManifestDeterminesContent(rules: Rules, c: Codec, a: Artifacts, b: Artifacts, ea: Expected, eb: Expected,
                                  m: Manifest)
    requires Verified(rules, c, a, ea, m) && Verified(rules, c, b, eb, m)
    ensures var fa, fb := Unpacked(rules, c, a.archive).value, Unpacked(rules, c, b.archive).value;
      fa == fb || exists x, y :: x != y && c.sha(x) == c.sha(y)
  {
    var fa, fb := Unpacked(rules, c, a.archive).value, Unpacked(rules, c, b.archive).value;
    VerifiedMeans(rules, c, a, ea, m);
    VerifiedMeans(rules, c, b, eb, m);
    forall i | 0 <= i < |fa| ensures fa[i] == fb[i] || exists x, y :: x != y && c.sha(x) == c.sha(y) {
      SameOrCollides(c, fa[i], fb[i], m.files[i]);
    }
  }

  lemma SameOrCollides(c: Codec, f: File, g: File, e: FileEntry)
    requires Agrees(c, f, e) && Agrees(c, g, e) && (f.mode == PLAIN || f.mode == EXECUTABLE) &&
      (g.mode == PLAIN || g.mode == EXECUTABLE)
    ensures f == g || exists x, y :: x != y && c.sha(x) == c.sha(y)
  {
    OctalModes();
    if f.data != g.data {
      assert c.sha(f.data) == c.sha(g.data);
    }
  }

  // ----- Export -----

  function MemberFor(rules: Rules, t: Tracked): Member {
    Member(rules.prefix + t.path, true, t.mode % 4096, 0, 0, 0, "", "", |t.data|, t.data)
  }

  function MembersFor(rules: Rules, files: seq<Tracked>): (members: seq<Member>)
    ensures |members| == |files| && forall i :: 0 <= i < |files| ==> members[i] == MemberFor(rules, files[i])
  {
    seq(|files|, i requires 0 <= i < |files| => MemberFor(rules, files[i]))
  }

  function EntryFor(c: Codec, t: Tracked): FileEntry {
    FileEntry(t.path, Octal(t.mode), |t.data|, c.sha(t.data))
  }

  function EntriesFor(c: Codec, files: seq<Tracked>): (entries: seq<FileEntry>)
    ensures |entries| == |files| && forall i :: 0 <= i < |files| ==> entries[i] == EntryFor(c, files[i])
  {
    seq(|files|, i requires 0 <= i < |files| => EntryFor(c, files[i]))
  }

  /** `_build_archive` */
  function BuildArchive(rules: Rules, c: Codec, files: seq<Tracked>): Bytes {
    c.pack(MembersFor(rules, files))
  }

  function ManifestFor(rules: Rules, c: Codec, commit: string, name: string, files: seq<Tracked>): Manifest {
    Manifest(commit, name, c.sha(BuildArchive(rules, c, files)), EntriesFor(c, files))
  }

  ghost predicate Hashes(c: Codec) {
    forall data: Bytes :: LowerHex(c.sha(data), 64)
  }

  function Build(rules: Rules, c: Codec, commit: string, name: string, files: seq<Tracked>): Artifacts
    requires Hashes(c) && ArtifactName(name)
  {
    var archive := BuildArchive(rules, c, files);
    var manifest := c.dump(Payload(ManifestFor(rules, c, commit, name, files), Int(1)));
    SidecarRoundTrip(c.sha(archive), c.sha(manifest), name);
    Artifacts(archive, manifest, ToAscii(SidecarText(c.sha(archive), c.sha(manifest), name)))
  }

  /** Foreign code gives back what it was given, for what this program gives it. */
  ghost predicate RoundTrips(rules: Rules, c: Codec) {
    && (forall m :: ManifestOk(rules, m) ==> c.load(c.dump(Payload(m, Int(1)))) == Some(Payload(m, Int(1))))
    && (forall members :: EachMemberOk(rules, members) ==> c.unpack(c.pack(members)) == Some(members))
  }

  ghost predicate NoSecrets(c: Codec, listing: seq<Listed>) {
    forall i :: 0 <= i < |listing| ==> !c.secret(listing[i].blob)
  }

  /** The files of the tree, as an archive holds them. */
  function Stored(t: Tracked): File {
    File(t.path, t.mode % 4096, t.data)
  }

  ghost predicate Clears(rules: Rules, c: Codec, t: Tracked) {
    && rules.allowed(t.path) && (t.mode == REGULAR + PLAIN || t.mode == REGULAR + EXECUTABLE)
    && |t.data| <= MAX_FILE_BYTES && !c.secret(t.data)
  }

  lemma TreeClears(rules: Rules, c: Codec, listing: seq<Listed>, i: nat)
    requires TotalOrder(rules) && TreeOk(rules, listing) && NoSecrets(c, listing) && i < |Tree(rules, listing)|
    ensures Clears(rules, c, Tree(rules, listing)[i])
  {
    var files, all := Tree(rules, listing), TrackAll(listing);
    SortContents(rules, all, TrackedPath);
    assert files[i] in multiset(all);
    var k :| 0 <= k < |all| && all[k] == files[i];
    assert TrackedOk(rules, listing[k]);
  }

  lemma FileCarried(rules: Rules, c: Codec, t: Tracked)
    requires Hashes(c) && Clears(rules, c, t)
    ensures MemberOk(rules, MemberFor(rules, t)) && FileOf(rules, MemberFor(rules, t)) == Stored(t)
    ensures EntryOk(rules, EntryFor(c, t)) && Agrees(c, Stored(t), EntryFor(c, t))
  {
    OctalModes();
    assert (rules.prefix + t.path)[|rules.prefix|..] == t.path;
  }

  /** The archive of an accepted tree unpacks to the files of the tree. */
  lemma ArchiveCarries(rules: Rules, c: Codec, listing: seq<Listed>)
    requires TotalOrder(rules) && Hashes(c) && RoundTrips(rules, c) && TreeOk(rules, listing) && NoSecrets(c, listing)
    requires |BuildArchive(rules, c, Tree(rules, listing))| <= MAX_ARCHIVE_BYTES
    ensures var files, got := Tree(rules, listing), Unpacked(rules, c, BuildArchive(rules, c, Tree(rules, listing)));
      got.Some? && |got.value| == |files| && forall i :: 0 <= i < |files| ==> got.value[i] == Stored(files[i])
  {
    var files := Tree(rules, listing);
    var members := MembersFor(rules, files);
    TreeSorted(rules, listing);
    forall i | 0 <= i < |files| ensures MemberOk(rules, members[i]) && FileOf(rules, members[i]) == Stored(files[i]) {
      TreeClears(rules, c, listing, i);
      FileCarried(rules, c, files[i]);
    }
    var all := FilesOf(rules, members);
    SameChecks(rules, files, TrackedPath, TrackedSize, all, FilePath, FileSize);
  }

  lemma ManifestFine(rules: Rules, c: Codec, commit: string, name: string, listing: seq<Listed>)
    requires TotalOrder(rules) && Hashes(c) && TreeOk(rules, listing) && NoSecrets(c, listing) &&
      LowerHex(commit, 40) && ArtifactName(name)
    ensures ManifestOk(rules, ManifestFor(rules, c, commit, name, Tree(rules, listing)))
  {
    var files := Tree(rules, listing);
    var entries := EntriesFor(c, files);
    TreeSorted(rules, listing);
    forall i | 0 <= i < |files| ensures EntryOk(rules, entries[i]) {
      TreeClears(rules, c, listing, i);
      FileCarried(rules, c, files[i]);
    }
    SameChecks(rules, files, TrackedPath, TrackedSize, entries, EntryPath, EntrySize);
    assert |EntriesJson(entries)| == |files|;
  }

  function Exact(c: Codec, commit: string, a: Artifacts): Expected {
    Expected(Some(commit), Some(c.sha(a.archive)), Some(c.sha(a.manifest)))
  }

  /** Whatever tree the exporter accepts, the verifier accepts what the exporter writes, bound to the commit
      and to both digests. */
  lemma ExportVerifiable(rules: Rules, c: Codec, commit: string, name: string, listing: seq<Listed>)
    requires TotalOrder(rules) && Hashes(c) && RoundTrips(rules, c)
    requires TreeOk(rules, listing) && NoSecrets(c, listing) && LowerHex(commit, 40) && ArtifactName(name)
    requires |BuildArchive(rules, c, Tree(rules, listing))| <= MAX_ARCHIVE_BYTES
    ensures var files := Tree(rules, listing); var a := Build(rules, c, commit, name, files);
      Verified(rules, c, a, Exact(c, commit, a), ManifestFor(rules, c, commit, name, files))
  {
    var files := Tree(rules, listing);
    var a, m := Build(rules, c, commit, name, files), ManifestFor(rules, c, commit, name, files);
    ManifestFine(rules, c, commit, name, listing);
    assert Describes(rules, Payload(m, Int(1)), m);
    SidecarRoundTrip(c.sha(a.archive), c.sha(a.manifest), name);
    ArchiveCarries(rules, c, listing);
    var got := Unpacked(rules, c, a.archive).value;
    forall i | 0 <= i < |files| ensures Agrees(c, got[i], m.files[i]) {
      TreeClears(rules, c, listing, i);
      FileCarried(rules, c, files[i]);
    }
  }

  /** `export_distribution`: nothing is written that the verifier would not accept, and a clean tree is written. */
  method ExportDistribution(rules: Rules, c: Codec, commit: string, name: string, listing: seq<Listed>)
      returns (r: Option<Artifacts>)
    requires TotalOrder(rules) && Hashes(c)
    ensures r.Some? ==>
      ArtifactName(name) && TreeOk(rules, listing) && r.value == Build(rules, c, commit, name, Tree(rules, listing))
    ensures r.Some? ==> exists m :: Verified(rules, c, r.value, Exact(c, commit, r.value), m)
    ensures var fits := |BuildArchive(rules, c, Tree(rules, listing))| <= MAX_ARCHIVE_BYTES;
      RoundTrips(rules, c) && NoSecrets(c, listing) && fits ==>
      (r.Some? <==> ArtifactName(name) && LowerHex(commit, 40) && TreeOk(rules, listing))
  {
    if !ArtifactName(name) || !LowerHex(commit, 40) {
      return None;
    }
    var files := ParseTree(rules, listing);
    if files.None? {
      return None;
    }
    var a := Build(rules, c, commit, name, files.value);
    var verified := VerifyBytes(rules, c, a, Exact(c, commit, a));
    if verified.None? {
      if RoundTrips(rules, c) && NoSecrets(c, listing) && |a.archive| <= MAX_ARCHIVE_BYTES {
        ExportVerifiable(rules, c, commit, name, listing);
      }
      return None;
    }
    return Some(a);
  }
}
