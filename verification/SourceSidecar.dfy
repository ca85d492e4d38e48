/** The two-line digest sidecar of a source distribution, written and read back. */
module SourceSidecar {
  import opened Text
  import opened Utf8
  import opened SourceManifest

  /** `str.encode("ascii")` of ASCII text. */
  function ToAscii(s: string): (bytes: seq<Byte>)
    requires IsAscii(s)
    ensures |bytes| == |s| && forall i :: 0 <= i < |s| ==> bytes[i] == s[i] as int
  {
    seq(|s|, i requires 0 <= i < |s| => s[i] as int)
  }

  predicate IsAscii(s: string) {
    forall i :: 0 <= i < |s| ==> s[i] as int < 128
  }

  function FromAscii(bytes: seq<Byte>): (r: Option<string>)
    ensures r.Some? ==> IsAscii(r.value) && ToAscii(r.value) == bytes
    ensures r.None? ==> exists i :: 0 <= i < |bytes| && bytes[i] >= 128
  {
    if exists i :: 0 <= i < |bytes| && bytes[i] >= 128 then None
    else Some(seq(|bytes|, i requires 0 <= i < |bytes| => bytes[i] as char))
  }

  lemma AsciiRoundTrip(s: string)
    requires IsAscii(s)
    ensures FromAscii(ToAscii(s)) == Some(s)
  {
    var r := FromAscii(ToAscii(s));
    assert r.Some?;
    forall i | 0 <= i < |s| ensures r.value[i] == s[i] {
      assert r.value[i] as int == s[i] as int;
    }
    assert r.value == s;
  }

  /** The ASCII line boundaries of `str.splitlines`. */
  predicate IsBreak(c: char) {
    var n := c as int;
    0x0A <= n <= 0x0D || 0x1C <= n <= 0x1E
  }

  /** The next line break at or after `k`, or the end. */
  function NextBreak(s: string, k: nat): (r: nat)
    requires k <= |s|
    ensures k <= r <= |s| && (r < |s| ==> IsBreak(s[r])) && forall i :: k <= i < r ==> !IsBreak(s[i])
    decreases |s| - k
  {
    if k == |s| || IsBreak(s[k]) then k else NextBreak(s, k + 1)
  }

  /** `str.splitlines` on ASCII text. */
  function SplitLines(s: string): seq<string>
    decreases |s|
  {
    if |s| == 0 then []
    else
      var i := NextBreak(s, 0);
      if i == |s| then [s]
      else
        var after := if s[i] as int == 0x0D && i + 1 < |s| && s[i + 1] as int == 0x0A then i + 2 else i + 1;
        [s[..i]] + SplitLines(s[after..])
  }

  predicate Gap(s: string, k: nat) {
    k + 1 < |s| && s[k] == ' ' && s[k + 1] == ' '
  }

  function NextGap(s: string, k: nat): (r: nat)
    requires k <= |s|
    ensures k <= r <= |s| && (r < |s| ==> Gap(s, r)) && forall i :: k <= i < r ==> !Gap(s, i)
    decreases |s| - k
  {
    if k == |s| || Gap(s, k) then k else NextGap(s, k + 1)
  }

  /** `line.split("  ")` */
  function SplitFields(s: string): seq<string>
    decreases |s|
  {
    var i := NextGap(s, 0);
    if i == |s| then [s] else [s[..i]] + SplitFields(s[i + 2..])
  }

  /** One record: a digest and a name. */
  function ReadRecord(line: string): Option<(string, string)> {
    var parts := SplitFields(line);
    if |parts| == 2 && LowerHex(parts[0], 64) then Some((parts[0], parts[1])) else None
  }

  /** `_read_digest_sidecar` */
  function ReadSidecar(bytes: seq<Byte>, archiveName: string, manifestName: string): Option<(string, string)> {
    var text := FromAscii(bytes);
    if text.None? then None
    else
      var lines := SplitLines(text.value);
      if |lines| != 2 then None
      else
        var first, second := ReadRecord(lines[0]), ReadRecord(lines[1]);
        if first.None? || second.None? || first.value.1 != archiveName || second.value.1 != manifestName then None
        else Some((first.value.0, second.value.0))
  }

  const MANIFEST_SUFFIX := ".manifest.json"

  function Line(digest: string, name: string): string {
    digest + "  " + name
  }

  /** The sidecar that the exporter writes. */
  function SidecarText(archiveSha: string, manifestSha: string, name: string): string {
    Line(archiveSha, name) + "\n" + (Line(manifestSha, name + MANIFEST_SUFFIX) + "\n")
  }

  // ----- Reading what was written -----

  ghost predicate Plain(s: string) {
    IsAscii(s) && forall i :: 0 <= i < |s| ==> s[i] != ' ' && !IsBreak(s[i])
  }

  ghost predicate Unbroken(s: string) {
    IsAscii(s) && forall i :: 0 <= i < |s| ==> !IsBreak(s[i])
  }

  lemma RecordRoundTrip(digest: string, name: string)
    requires LowerHex(digest, 64) && Plain(name)
    ensures ReadRecord(Line(digest, name)) == Some((digest, name))
    ensures Unbroken(Line(digest, name))
  {
    var line := Line(digest, name);
    var i := NextGap(line, 0);
    assert Gap(line, |digest|);
    assert i == |digest|;
    assert line[..i] == digest && line[i + 2..] == name;
    assert NextGap(name, 0) == |name|;
    assert SplitFields(name) == [name];
    assert SplitFields(line) == [digest, name];
  }

  lemma FirstLine(line: string, rest: string)
    requires Unbroken(line)
    ensures SplitLines(line + "\n" + rest) == [line] + SplitLines(rest)
  {
    var s := line + "\n" + rest;
    assert s[|line|] == '\n';
    assert NextBreak(s, 0) == |line|;
    assert s[..|line|] == line && s[|line| + 1..] == rest;
  }

  /** Both digests are read back from what is written. */
  lemma SidecarRoundTrip(archiveSha: string, manifestSha: string, name: string)
    requires LowerHex(archiveSha, 64) && LowerHex(manifestSha, 64) && ArtifactName(name)
    ensures IsAscii(SidecarText(archiveSha, manifestSha, name))
    ensures ReadSidecar(ToAscii(SidecarText(archiveSha, manifestSha, name)), name,
      name + MANIFEST_SUFFIX) == Some((archiveSha, manifestSha))
  {
    var second := name + MANIFEST_SUFFIX;
    assert Plain(name) && Plain(MANIFEST_SUFFIX) && Plain(second);
    RecordRoundTrip(archiveSha, name);
    RecordRoundTrip(manifestSha, second);
    var l1, l2 := Line(archiveSha, name), Line(manifestSha, second);
    TwoLines(l1, l2);
    AsciiRoundTrip(l1 + "\n" + (l2 + "\n"));
  }

  lemma TwoLines(l1: string, l2: string)
    requires Unbroken(l1) && Unbroken(l2)
    ensures SplitLines(l1 + "\n" + (l2 + "\n")) == [l1, l2] && IsAscii(l1 + "\n" + (l2 + "\n"))
  {
    FirstLine(l1, l2 + "\n");
    FirstLine(l2, "");
    assert l2 + "\n" + "" == l2 + "\n";
    assert SplitLines("") == [];
    assert [l1] + ([l2] + []) == [l1, l2];
  }

  /** What is accepted says nothing else: two lines, each a digest, two spaces and the expected name. */
  lemma SidecarSound(bytes: seq<Byte>, archiveName: string, manifestName: string)
    requires ReadSidecar(bytes, archiveName, manifestName).Some?
    ensures var (x, y) := ReadSidecar(bytes, archiveName, manifestName).value;
      && LowerHex(x, 64) && LowerHex(y, 64)
      && SplitLines(FromAscii(bytes).value) == [Line(x, archiveName), Line(y, manifestName)]
  {
    var lines := SplitLines(FromAscii(bytes).value);
    RecordSound(lines[0]);
    RecordSound(lines[1]);
  }

  lemma RecordSound(line: string)
    requires ReadRecord(line).Some?
    ensures line == Line(ReadRecord(line).value.0, ReadRecord(line).value.1)
  {
    var i := NextGap(line, 0);
    assert line == line[..i] + "  " + line[i + 2..];
    var rest := line[i + 2..];
    assert NextGap(rest, 0) < |rest| ==> |SplitFields(rest)| >= 2;
  }
}
