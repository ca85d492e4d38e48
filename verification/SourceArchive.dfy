/** Export and verification of a source archive: the Git listing, the members of the archive, and the
    agreement of archive, manifest and sidecar. */
module SourceArchive {
  import opened Text
  import opened Utf8
  import opened SourcePaths
  import opened SourceManifest

  type Bytes = seq<Byte>

  /** A member as the tar reader reports it; `content` is what reading `size + 1` octets yields. */
  datatype Member = Member(
    name: string, regular: bool, mode: int, uid: int, gid: int, mtime: int, uname: string, gname: string, size: int,
      content: Bytes)

  /** A file with its permission bits. */
  datatype File = File(path: string, mode: int, data: Bytes)

  /** One record of the Git listing with the blob it names; `readable` when the record can be taken apart,
      its path is UTF-8 and the blob can be read. */
  datatype Listed = Listed(readable: bool, mode: nat, kind: string, id: string, path: string, blob: Bytes)

  datatype Tracked = Tracked(path: string, mode: nat, id: string, data: Bytes)

  /** Foreign code: SHA-256 in hexadecimal, JSON, gzip over tar, and the search for secrets. */
  datatype Codec = Codec(
    sha: Bytes -> string, dump: Json -> Bytes, load: Bytes -> Option<Json>,
    pack: seq<Member> -> Bytes, unpack: Bytes -> Option<seq<Member>>, secret: Bytes -> bool)

  const FilePath: File -> string := (f: File) => f.path
  const FileSize: File -> nat := (f: File) => |f.data|
  const TrackedPath: Tracked -> string := (t: Tracked) => t.path
  const TrackedSize: Tracked -> nat := (t: Tracked) => |t.data|
  const Itself: string -> string := (p: string) => p

  /** 0o644, 0o755, and with the type bits of a regular file in front. */
  const PLAIN := 420
  const EXECUTABLE := 493
  const REGULAR := 32768

  function OctalDigit(n: nat): char {
    '0' + (n % 8) as char
  }

  /** `f"{n:06o}"` for numbers of up to six digits. */
  function Octal(n: nat): string {
    [OctalDigit(n / 32768), OctalDigit(n / 4096), OctalDigit(n / 512), OctalDigit(n / 64), OctalDigit(n / 8),
      OctalDigit(n)]
  }

  lemma OctalModes()
    ensures Octal(REGULAR + PLAIN) == "100644" && Octal(REGULAR + EXECUTABLE) == "100755"
  {
  }

  // ----- The running checks of both readers -----

  /** No collision, and within the bounds. */
  predicate Fine<T>(rules: Rules, items: seq<T>, path: T -> string, size: T -> nat) {
    NoCollision(rules, items, path) && Total(items, size) <= MAX_SOURCE_BYTES && |items| <= MAX_SOURCE_FILES
  }

  /** The keys met in the first `k` items. */
  ghost function Seen<T>(rules: Rules, items: seq<T>, k: nat, path: T -> string): set<string>
    requires k <= |items|
  {
    if k == 0 then {} else Seen(rules, items, k - 1, path) + {rules.key(path(items[k - 1]))}
  }

  ghost function Counted<T>(items: seq<T>, k: nat, size: T -> nat): nat
    requires k <= |items|
  {
    if k == 0 then 0 else Counted(items, k - 1, size) + size(items[k - 1])
  }

  /** The first `k` items pass the checks made in their rounds. */
  ghost predicate Clean<T>(rules: Rules, items: seq<T>, k: nat, path: T -> string, size: T -> nat)
    requires k <= |items|
  {
    k > 0 ==>
      && Clean(rules, items, k - 1, path, size) && rules.key(path(items[k - 1])) !in Seen(rules, items, k - 1, path)
      && Counted(items, k, size) <= MAX_SOURCE_BYTES && k <= MAX_SOURCE_FILES
  }

  /** The running checks, round by round, are the checks on the whole. */
  lemma {:induction false} CleanIsFine<T>(rules: Rules, items: seq<T>, k: nat, path: T -> string, size: T -> nat)
    requires k <= |items|
    ensures Clean(rules, items, k, path, size) <==> Fine(rules, items[..k], path, size)
    ensures Seen(rules, items, k, path) == Keys(rules, items[..k], path) &&
      Counted(items, k, size) == Total(items[..k], size)
  {
    if k > 0 {
      CleanIsFine(rules, items, k - 1, path, size);
      assert items[..k] == items[..k - 1] + [items[k - 1]];
      FineStep(rules, items[..k - 1], items[k - 1], path, size);
    }
  }

  lemma FineStep<T>(rules: Rules, items: seq<T>, item: T, path: T -> string, size: T -> nat)
    ensures Keys(rules, items + [item], path) == Keys(rules, items, path) + {rules.key(path(item))}
    ensures Total(items + [item], size) == Total(items, size) + size(item)
    ensures Fine(rules, items + [item], path, size) <==>
      && Fine(rules, items, path, size) && rules.key(path(item)) !in Keys(rules, items, path)
      && Total(items, size) + size(item) <= MAX_SOURCE_BYTES && |items| + 1 <= MAX_SOURCE_FILES
  {
    AppendNoCollision(rules, items, item, path);
    AppendTotal(items, item, size);
  }

  lemma {:induction false} CleanEarlier<T>(rules: Rules, items: seq<T>, k: nat, n: nat, path: T -> string,
                                           size: T -> nat)
    requires k <= n <= |items| && Clean(rules, items, n, path, size)
    ensures Clean(rules, items, k, path, size)
  {
    if k < n {
      CleanEarlier(rules, items, k, n - 1, path, size);
    }
  }

  lemma Spoilt<T>(rules: Rules, items: seq<T>, k: nat, path: T -> string, size: T -> nat)
    requires k <= |items| && !Clean(rules, items, k, path, size)
    ensures !Clean(rules, items, |items|, path, size)
  {
    if Clean(rules, items, |items|, path, size) {
      CleanEarlier(rules, items, k, |items|, path, size);
    }
  }

  /** Failing in one round is failing. */
  lemma Refuse<T>(rules: Rules, items: seq<T>, k: nat, path: T -> string, size: T -> nat)
    requires k <= |items| && !Clean(rules, items, k, path, size)
    ensures !Fine(rules, items, path, size)
  {
    assert items[..|items|] == items;
    CleanIsFine(rules, items, |items|, path, size);
    Spoilt(rules, items, k, path, size);
  }

  lemma Finish<T>(rules: Rules, items: seq<T>, path: T -> string, size: T -> nat)
    requires Clean(rules, items, |items|, path, size)
    ensures Fine(rules, items, path, size)
  {
    assert items[..|items|] == items;
    CleanIsFine(rules, items, |items|, path, size);
  }

  // ----- The Git listing -----

  const ListedPath: Listed -> string := (l: Listed) => l.path
  const ListedSize: Listed -> nat := (l: Listed) => |l.blob|

  predicate TrackedOk(rules: Rules, l: Listed) {
    && l.readable && rules.allowed(l.path) && l.kind == "blob"
    && (l.mode == REGULAR + PLAIN || l.mode == REGULAR + EXECUTABLE) && |l.blob| <= MAX_FILE_BYTES
  }

  function Track(l: Listed): Tracked {
    Tracked(l.path, l.mode, l.id, l.blob)
  }

  function TrackAll(listing: seq<Listed>): (files: seq<Tracked>)
    ensures |files| == |listing| && forall i :: 0 <= i < |listing| ==> files[i] == Track(listing[i])
  {
    seq(|listing|, i requires 0 <= i < |listing| => Track(listing[i]))
  }

  predicate EachTrackedOk(rules: Rules, listing: seq<Listed>) {
    forall i :: 0 <= i < |listing| ==> TrackedOk(rules, listing[i])
  }

  /** The listings that `_parse_tree` accepts, without regard to their order. */
  predicate TreeOk(rules: Rules, listing: seq<Listed>) {
    EachTrackedOk(rules, listing) && Fine(rules, listing, ListedPath, ListedSize) && |listing| > 0
  }

  function Tree(rules: Rules, listing: seq<Listed>): seq<Tracked> {
    SortByPath(rules, TrackAll(listing), TrackedPath)
  }

  /** The first `k` records are in order and leave `files`, `seen` and `total`. */
  ghost predicate TrackedSoFar(rules: Rules, listing: seq<Listed>, k: nat, files: seq<Tracked>, seen: set<string>,
                               total: nat)
    requires k <= |listing|
  {
    && files == TrackAll(listing)[..k] && seen == Seen(rules, listing, k, ListedPath) &&
      total == Counted(listing, k, ListedSize)
    && EachTrackedOk(rules, listing[..k]) && Clean(rules, listing, k, ListedPath, ListedSize)
  }

  lemma TrackNothing(rules: Rules, listing: seq<Listed>)
    ensures TrackedSoFar(rules, listing, 0, [], {}, 0)
  {
  }

  lemma TrackMore(rules: Rules, listing: seq<Listed>, k: nat, files: seq<Tracked>, seen: set<string>, total: nat)
    requires k < |listing| && TrackedSoFar(rules, listing, k, files, seen, total)
    ensures var l := listing[k];
      if TrackedOk(rules, l) && rules.key(l.path) !in seen && total + |l.blob| <= MAX_SOURCE_BYTES &&
        |files| + 1 <= MAX_SOURCE_FILES
      then TrackedSoFar(rules, listing, k + 1, files + [Track(l)], seen + {rules.key(l.path)}, total + |l.blob|)
      else !TreeOk(rules, listing)
  {
    var all := TrackAll(listing);
    assert all[..k + 1] == all[..k] + [all[k]];
    assert listing[..k + 1] == listing[..k] + [listing[k]];
    if !Clean(rules, listing, k + 1, ListedPath, ListedSize) {
      Refuse(rules, listing, k + 1, ListedPath, ListedSize);
    }
  }

  lemma TrackedAll(rules: Rules, listing: seq<Listed>, files: seq<Tracked>, seen: set<string>, total: nat)
    requires TrackedSoFar(rules, listing, |listing|, files, seen, total)
    ensures files == TrackAll(listing) && (TreeOk(rules, listing) <==> |listing| > 0)
  {
    assert listing[..|listing|] == listing;
    Finish(rules, listing, ListedPath, ListedSize);
  }

  /** `_parse_tree` on the records of the listing: accepts a listing exactly when it is in order, and sorts it. */
  method ParseTree(rules: Rules, listing: seq<Listed>) returns (r: Option<seq<Tracked>>)
    ensures r.Some? <==> TreeOk(rules, listing)
    ensures r.Some? ==> r.value == Tree(rules, listing)
  {
    var files: seq<Tracked> := [];
    var seen: set<string> := {};
    var total: nat := 0;
    TrackNothing(rules, listing);
    for k := 0 to |listing|
      invariant TrackedSoFar(rules, listing, k, files, seen, total)
    {
      TrackMore(rules, listing, k, files, seen, total);
      if !TrackedOk(rules, listing[k]) || rules.key(listing[k].path) in seen {
        return None;
      }
      seen, total := seen + {rules.key(listing[k].path)}, total + |listing[k].blob|;
      if total > MAX_SOURCE_BYTES {
        return None;
      }
      files := files + [Track(listing[k])];
      if |files| > MAX_SOURCE_FILES {
        return None;
      }
    }
    TrackedAll(rules, listing, files, seen, total);
    if |files| == 0 {
      return None;
    }
    return Some(SortByPath(rules, files, TrackedPath));
  }

  /** The order of the listing does not matter, neither for acceptance nor for the result. */
  lemma ListingOrderIrrelevant(rules: Rules, listing: seq<Listed>, other: seq<Listed>)
    requires TotalOrder(rules) && multiset(listing) == multiset(other)
    ensures TreeOk(rules, listing) <==> TreeOk(rules, other)
    ensures TreeOk(rules, listing) ==> Tree(rules, listing) == Tree(rules, other)
  {
    TrackPermuted(listing, other);
    NoCollisionPermuted(rules, listing, other, ListedPath);
    TotalPermuted(listing, other, ListedSize);
    EachPermuted(rules, listing, other);
    EachPermuted(rules, other, listing);
    assert |multiset(listing)| == |listing| && |multiset(other)| == |other|;
    if TreeOk(rules, listing) {
      TreeSorted(rules, listing);
      TreeSorted(rules, other);
      SortedUnique(rules, Tree(rules, listing), Tree(rules, other), TrackedPath);
    }
  }

  lemma EachPermuted(rules: Rules, listing: seq<Listed>, other: seq<Listed>)
    requires multiset(listing) == multiset(other)
    ensures EachTrackedOk(rules, listing) ==> EachTrackedOk(rules, other)
  {
    if EachTrackedOk(rules, listing) {
      forall i | 0 <= i < |other| ensures TrackedOk(rules, other[i]) {
        assert other[i] in multiset(listing);
      }
    }
  }

  ghost predicate Images<A, B>(a: seq<A>, fa: seq<B>, f: A -> B) {
    |fa| == |a| && forall i :: 0 <= i < |a| ==> fa[i] == f(a[i])
  }

  lemma {:induction false} ImagesPermuted<A, B>(a: seq<A>, fa: seq<B>, b: seq<A>, fb: seq<B>, f: A -> B)
    requires Images(a, fa, f) && Images(b, fb, f) && multiset(a) == multiset(b)
    ensures multiset(fa) == multiset(fb)
    decreases |a|
  {
    if |a| == 0 {
      assert |multiset(b)| == 0;
    } else {
      assert a[0] in multiset(b);
      var k :| 0 <= k < |b| && b[k] == a[0];
      var a', fa', b', fb' := a[..0] + a[1..], fa[..0] + fa[1..], b[..k] + b[k + 1..], fb[..k] + fb[k + 1..];
      Removed(a, 0);
      Removed(b, k);
      Removed(fa, 0);
      Removed(fb, k);
      SameWithout(multiset(a'), multiset(b'), a[0]);
      ImagesWithout(a, fa, 0, f);
      ImagesWithout(b, fb, k, f);
      ImagesPermuted(a', fa', b', fb', f);
    }
  }

  lemma ImagesWithout<A, B>(a: seq<A>, fa: seq<B>, k: nat, f: A -> B)
    requires Images(a, fa, f) && k < |a|
    ensures Images(a[..k] + a[k + 1..], fa[..k] + fa[k + 1..], f) && fa[k] == f(a[k])
  {
  }

  lemma TrackPermuted(listing: seq<Listed>, other: seq<Listed>)
    requires multiset(listing) == multiset(other)
    ensures multiset(TrackAll(listing)) == multiset(TrackAll(other))
  {
    ImagesPermuted(listing, TrackAll(listing), other, TrackAll(other), Track);
  }

  /** Items that carry the same paths and sizes pass the same checks. */
  lemma {:induction false} SameChecks<A, B>(rules: Rules, a: seq<A>, pa: A -> string, sa: A -> nat, b: seq<B>,
                                            pb: B -> string, sb: B -> nat)
    requires |a| == |b| && forall i :: 0 <= i < |a| ==> pa(a[i]) == pb(b[i]) && sa(a[i]) == sb(b[i])
    ensures Fine(rules, a, pa, sa) ==> Fine(rules, b, pb, sb)
    ensures Total(a, sa) == Total(b, sb)
    ensures StrictlySorted(rules, a, pa) ==> StrictlySorted(rules, b, pb)
  {
    SameTotal(a, sa, b, sb);
    if Fine(rules, a, pa, sa) {
      forall i, j | 0 <= i < j < |b| ensures rules.key(pb(b[i])) != rules.key(pb(b[j])) {
        assert rules.key(pa(a[i])) != rules.key(pa(a[j]));
      }
    }
    if StrictlySorted(rules, a, pa) {
      forall i, j | 0 <= i < j < |b| ensures rules.Less(pb(b[i]), pb(b[j])) {
        assert rules.Less(pa(a[i]), pa(a[j]));
      }
    }
  }

  lemma {:induction false} SameTotal<A, B>(a: seq<A>, sa: A -> nat, b: seq<B>, sb: B -> nat)
    requires |a| == |b| && forall i :: 0 <= i < |a| ==> sa(a[i]) == sb(b[i])
    ensures Total(a, sa) == Total(b, sb)
  {
    if |a| > 0 {
      SameTotal(a[..|a| - 1], sa, b[..|b| - 1], sb);
    }
  }

  /** An accepted tree is strictly sorted and keeps the checks made on the listing. */
  lemma TreeSorted(rules: Rules, listing: seq<Listed>)
    requires TotalOrder(rules) && TreeOk(rules, listing)
    ensures var files := Tree(rules, listing);
      && multiset(files) == multiset(TrackAll(listing)) && StrictlySorted(rules, files, TrackedPath)
      && Fine(rules, files, TrackedPath, TrackedSize) && |files| == |listing|
  {
    var files, all := Tree(rules, listing), TrackAll(listing);
    SameChecks(rules, listing, ListedPath, ListedSize, all, TrackedPath, TrackedSize);
    SortContents(rules, all, TrackedPath);
    NoCollisionPermuted(rules, all, files, TrackedPath);
    TotalPermuted(all, files, TrackedSize);
    SortedApart(rules, files, TrackedPath);
    assert |multiset(files)| == |multiset(all)|;
  }

  // ----- The members of an archive -----

  predicate MemberOk(rules: Rules, m: Member) {
    && m.regular && rules.prefix <= m.name && rules.allowed(m.name[|rules.prefix|..])
    && (m.mode == PLAIN || m.mode == EXECUTABLE)
    && m.uid == 0 && m.gid == 0 && m.mtime == 0 && |m.uname| == 0 && |m.gname| == 0
    && 0 <= m.size <= MAX_FILE_BYTES && |m.content| == m.size
  }

  predicate EachMemberOk(rules: Rules, members: seq<Member>) {
    forall i :: 0 <= i < |members| ==> MemberOk(rules, members[i])
  }

  /** The file a member holds, with its name below the archive's prefix. */
  function FileOf(rules: Rules, m: Member): File {
    File(if |rules.prefix| <= |m.name| then m.name[|rules.prefix|..] else m.name, m.mode, m.content)
  }

  function FilesOf(rules: Rules, members: seq<Member>): (files: seq<File>)
    ensures |files| == |members| && forall i :: 0 <= i < |members| ==> files[i] == FileOf(rules, members[i])
  {
    seq(|members|, i requires 0 <= i < |members| => FileOf(rules, members[i]))
  }

  predicate MembersOk(rules: Rules, members: seq<Member>) {
    && EachMemberOk(rules, members) && |members| > 0
    && Fine(rules, FilesOf(rules, members), FilePath, FileSize) &&
      StrictlySorted(rules, FilesOf(rules, members), FilePath)
  }

  /** The files of an archive that passes every check. */
  ghost function Unpacked(rules: Rules, c: Codec, archive: Bytes): Option<seq<File>> {
    var members := c.unpack(archive);
    if |archive| <= MAX_ARCHIVE_BYTES && members.Some? && MembersOk(rules, members.value)
      then Some(FilesOf(rules, members.value)) else None
  }

  function PathsOf(files: seq<File>): (paths: seq<string>)
    ensures |paths| == |files| && forall i :: 0 <= i < |files| ==> paths[i] == files[i].path
  {
    seq(|files|, i requires 0 <= i < |files| => files[i].path)
  }

  /** Comparing the paths with their sorted form tells whether the files are strictly sorted. */
  lemma OrderCheck(rules: Rules, files: seq<File>)
    requires TotalOrder(rules) && NoCollision(rules, files, FilePath)
    ensures SortByPath(rules, PathsOf(files), Itself) == PathsOf(files) <==> StrictlySorted(rules, files, FilePath)
  {
    var paths := PathsOf(files);
    SortedFixed(rules, paths, Itself);
    SortedApart(rules, files, FilePath);
    if Sorted(rules, paths, Itself) {
      forall i, j | 0 <= i < j < |files| ensures rules.leq(FilePath(files[i]), FilePath(files[j])) {
        assert rules.leq(Itself(paths[i]), Itself(paths[j]));
      }
    }
  }

  /** One round of the loop: the member's file, unless a check fails. */
  method ReadMember(rules: Rules, m: Member, seen: set<string>, total: nat) returns (r: Option<File>)
    ensures r == if MemberOk(rules, m) && Admits(rules, FileOf(rules, m), seen, total) then Some(FileOf(rules, m))
      else None
  {
    if !MemberOk(rules, m) {
      return None;
    }
    var file := FileOf(rules, m);
    if rules.key(file.path) in seen || total + |file.data| > MAX_SOURCE_BYTES {
      return None;
    }
    return Some(file);
  }

  predicate Admits(rules: Rules, file: File, seen: set<string>, total: nat) {
    rules.key(file.path) !in seen && total + |file.data| <= MAX_SOURCE_BYTES
  }

  /** The first `k` members are in order and leave `files`, `seen` and `total`. */
  ghost predicate ReadSoFar(rules: Rules, members: seq<Member>, k: nat, files: seq<File>, seen: set<string>, total: nat)
    requires k <= |members|
  {
    var all := FilesOf(rules, members);
    && files == all[..k] && seen == Seen(rules, all, k, FilePath) && total == Counted(all, k, FileSize)
    && EachMemberOk(rules, members[..k]) && Clean(rules, all, k, FilePath, FileSize)
  }

  lemma ReadMore(rules: Rules, members: seq<Member>, k: nat, files: seq<File>, seen: set<string>, total: nat)
    requires k < |members| <= MAX_SOURCE_FILES && ReadSoFar(rules, members, k, files, seen, total)
    ensures var file := FileOf(rules, members[k]);
      if MemberOk(rules, members[k]) && Admits(rules, file, seen, total)
      then ReadSoFar(rules, members, k + 1, files + [file], seen + {rules.key(file.path)}, total + |file.data|)
      else !EachMemberOk(rules, members) || !Clean(rules, FilesOf(rules, members), |members|, FilePath, FileSize)
  {
    var all := FilesOf(rules, members);
    assert all[..k + 1] == all[..k] + [all[k]];
    assert members[..k + 1] == members[..k] + [members[k]];
    if !Admits(rules, all[k], seen, total) {
      Spoilt(rules, all, k + 1, FilePath, FileSize);
    }
  }

  lemma ReadNothing(rules: Rules, members: seq<Member>)
    ensures ReadSoFar(rules, members, 0, [], {}, 0)
  {
  }

  lemma ReadAll(rules: Rules, members: seq<Member>, files: seq<File>, seen: set<string>, total: nat)
    requires ReadSoFar(rules, members, |members|, files, seen, total)
    ensures EachMemberOk(rules, members) && Clean(rules, FilesOf(rules, members), |members|, FilePath, FileSize)
    ensures files == FilesOf(rules, members)
  {
    assert members[..|members|] == members;
  }

  /** The loop of `_archive_members`. */
  method ReadMembers(rules: Rules, members: seq<Member>) returns (r: Option<seq<File>>)
    requires |members| <= MAX_SOURCE_FILES
    ensures r.Some? <==>
      EachMemberOk(rules, members) && Clean(rules, FilesOf(rules, members), |members|, FilePath, FileSize)
    ensures r.Some? ==> r.value == FilesOf(rules, members)
  {
    var files: seq<File> := [];
    var seen: set<string> := {};
    var total: nat := 0;
    ReadNothing(rules, members);
    for k := 0 to |members|
      invariant ReadSoFar(rules, members, k, files, seen, total)
    {
      ReadMore(rules, members, k, files, seen, total);
      var file := ReadMember(rules, members[k], seen, total);
      if file.None? {
        return None;
      }
      files := files + [file.value];
      seen, total := seen + {rules.key(file.value.path)}, total + |file.value.data|;
    }
    ReadAll(rules, members, files, seen, total);
    return Some(files);
  }

  /** `_archive_members` */
  method ArchiveMembers(rules: Rules, c: Codec, archive: Bytes) returns (r: Option<seq<File>>)
    requires TotalOrder(rules)
    ensures r == Unpacked(rules, c, archive)
  {
    if |archive| > MAX_ARCHIVE_BYTES {
      return None;
    }
    var raw := c.unpack(archive);
    if raw.None? || |raw.value| == 0 || |raw.value| > MAX_SOURCE_FILES {
      return None;
    }
    r := ReadMembers(rules, raw.value);
    ghost var all := FilesOf(rules, raw.value);
    CleanIsFine(rules, all, |all|, FilePath, FileSize);
    assert all[..|all|] == all;
    if r.Some? {
      var paths := PathsOf(r.value);
      OrderCheck(rules, r.value);
      if paths != SortByPath(rules, paths, Itself) {
        return None;
      }
    }
  }
}
