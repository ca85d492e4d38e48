/** Where the paths that `_is_allowed_source_path` accepts lead, and what becomes of a verified archive when its
    members are written out. */
module SourceScope {
  import opened Text
  import opened SourcePaths
  import opened SourceManifest
  import opened SourceArchive
  import opened SourceDistribution

  // ----- Resolution -----

  predicate Special(part: string) {
    part == "" || part == "." || part == ".."
  }

  /** The directory or file that names lead to from the directory `at`, as a file system follows them. */
  function Resolve(at: seq<string>, parts: seq<string>): seq<string> {
    if |parts| == 0 then at
    else
      var before, last := Resolve(at, parts[..|parts| - 1]), parts[|parts| - 1];
      if last == "" || last == "." then before
      else if last != ".." then before + [last]
      else if |before| == 0 then []
      else before[..|before| - 1]
  }

  lemma {:induction false} ResolveShort(at: seq<string>, parts: seq<string>)
    ensures |Resolve(at, parts)| <= |at| + |parts|
    ensures |Resolve(at, parts)| == |at| + |parts| ==> forall part :: part in parts ==> !Special(part)
  {
    if |parts| > 0 {
      ResolveShort(at, parts[..|parts| - 1]);
      assert parts == parts[..|parts| - 1] + [parts[|parts| - 1]];
    }
  }

  lemma {:induction false} ResolveBelow(at: seq<string>, parts: seq<string>)
    requires forall part :: part in parts ==> !Special(part)
    ensures Resolve(at, parts) == at + parts
  {
    if |parts| > 0 {
      var init := parts[..|parts| - 1];
      assert parts == init + [parts[|parts| - 1]];
      assert parts[|parts| - 1] in parts;
      ResolveBelow(at, init);
    }
  }

  /** From every directory the path leads to the file its components name below it. */
  ghost predicate StaysBelow(path: string) {
    forall at :: Resolve(at, Components(path)) == at + Components(path)
  }

  lemma StaysBelowExactly(path: string)
    ensures StaysBelow(path) <==> forall part :: part in Components(path) ==> !Special(part)
  {
    var parts := Components(path);
    if forall part :: part in parts ==> !Special(part) {
      forall at ensures Resolve(at, parts) == at + parts {
        ResolveBelow(at, parts);
      }
    } else {
      ResolveShort([], parts);
    }
  }

  // ----- Components -----

  /** One more character. */
  lemma ComponentsMore(path: string, c: char)
    ensures var parts := Components(path);
      Components(path + [c]) == if c == '/' then parts + [""] else parts[..|parts| - 1] + [parts[|parts| - 1] + [c]]
  {
    assert (path + [c])[..|path|] == path;
  }

  lemma LastOf(a: seq<string>, b: seq<string>, part: string)
    requires |b| > 0
    ensures (a + b)[..|a + b| - 1] + [part] == a + (b[..|b| - 1] + [part]) && (a + b)[|a + b| - 1] == b[|b| - 1]
  {
  }

  lemma {:induction false} ComponentsConcat(path: string, rest: string)
    ensures Components(path + "/" + rest) == Components(path) + Components(rest)
  {
    if rest == "" {
      ComponentsMore(path, '/');
      assert path + "/" + rest == path + ['/'];
    } else {
      var init, c := rest[..|rest| - 1], rest[|rest| - 1];
      assert rest == init + [c];
      assert path + "/" + rest == (path + "/" + init) + [c];
      ComponentsConcat(path, init);
      ComponentsMore(path + "/" + init, c);
      ComponentsMore(init, c);
      var a, b := Components(path), Components(init);
      LastOf(a, b, b[|b| - 1] + [c]);
    }
  }

  lemma {:induction false} ComponentsPlain(path: string)
    requires '/' !in path
    ensures Components(path) == [path]
  {
    if path != "" {
      ComponentsPlain(path[..|path| - 1]);
      assert path == path[..|path| - 1] + [path[|path| - 1]];
    }
  }

  /** A slash at either end, or two in a row, leaves an empty component. */
  lemma EmptyComponent(path: string, i: nat)
    requires i <= |path| && (i == 0 || path[i - 1] == '/') && (i == |path| || path[i] == '/')
    ensures "" in Components(path)
  {
    var before, after := path[..i], path[i..];
    if i > 0 {
      assert before == path[..i - 1] + "/" + "";
      ComponentsConcat(path[..i - 1], "");
    }
    assert Components(before)[|Components(before)| - 1] == "";
    if i < |path| {
      assert path == before + "/" + path[i + 1..];
      ComponentsConcat(before, path[i + 1..]);
    } else {
      assert path == before;
    }
  }

  /** `_validate_relative_path` accepts exactly the short, printable, normalised paths that lead, from whatever
      directory, to the file below it that their components name. */
  lemma ValidExactly(u: Unicode, path: string)
    ensures ValidPath(u, path) <==>
      && |path| <= MAX_PATH_CHARS && '\\' !in path && (forall c :: c in path ==> !Control(c)) && u.nfc(path) == path
      && StaysBelow(path)
  {
    StaysBelowExactly(path);
    if forall part :: part in Components(path) ==> !Special(part) {
      if path == "" || path[0] == '/' {
        EmptyComponent(path, 0);
        assert false;
      }
      if path[|path| - 1] == '/' {
        EmptyComponent(path, |path|);
        assert false;
      }
      forall i | 0 < i < |path| ensures !(path[i - 1] == '/' && path[i] == '/') {
        if path[i - 1] == '/' && path[i] == '/' {
          EmptyComponent(path, i);
          assert false;
        }
      }
    }
  }

  // ----- Tables -----

  predicate InScope(path: string) {
    path in ALLOWED_SPECIAL_PATHS || path in ALLOWED_ROOT_FILES || StartsWithAny(path, ALLOWED_PREFIXES)
  }

  predicate Forbidden(u: Unicode, path: string) {
    var parts := Components(path);
    || StartsWithAny(u.fold(path), FORBIDDEN_PATH_PREFIXES)
    || (exists part :: part in parts && ForbiddenComponent(u.fold(part)))
    || ForbiddenName(u.fold(parts[|parts| - 1]))
  }

  predicate Ascii(s: string) {
    forall c :: c in s ==> (c as int) < 128
  }

  function LowerChar(c: char): char {
    if 'A' <= c <= 'Z' then (c as int + 32) as char else c
  }

  function Lower(s: string): (r: string)
    ensures |r| == |s| && forall i :: 0 <= i < |s| ==> r[i] == LowerChar(s[i])
  {
    seq(|s|, i requires 0 <= i < |s| => LowerChar(s[i]))
  }

  /** Case folding takes ASCII letters to lower case and keeps the other ASCII characters. */
  ghost predicate FoldsAscii(u: Unicode) {
    forall s :: Ascii(s) ==> u.fold(s) == Lower(s)
  }

  predicate Harmless(low: string) {
    !ForbiddenComponent(low) && !ForbiddenName(low)
  }

  /** How the names of files allowed at the root end, in lower case; no forbidden name or suffix ends so. */
  predicate EndsLikeRootFile(s: string) {
    |s| >= 3 &&
    var end := (s[|s| - 3], s[|s| - 2], s[|s| - 1]);
    || (end == ('o', 'r', 'e') && |s| != 11) || end == ('f', 'i', 'g') || end == ('p', 'l', 'e') ||
      end == ('t', 'e', 's')
    || end == ('.', 'm', 'd') || end == ('n', 's', 'e') || end == ('i', 'o', 'n') || end == ('a', 'm', 'l') ||
      end == ('t', 'x', 't')
  }

  lemma EarlyComponentsEndOtherwise(i: nat)
    requires i < 15
    ensures !EndsLikeRootFile(FORBIDDEN_COMPONENTS[i])
  {
  }

  lemma LateComponentsEndOtherwise(i: nat)
    requires 15 <= i < |FORBIDDEN_COMPONENTS|
    ensures !EndsLikeRootFile(FORBIDDEN_COMPONENTS[i])
  {
  }

  lemma NamesEndOtherwise(i: nat)
    requires i < |FORBIDDEN_NAMES|
    ensures !EndsLikeRootFile(FORBIDDEN_NAMES[i])
  {
  }

  lemma SuffixesEndOtherwise(i: nat, s: string)
    requires i < |FORBIDDEN_SUFFIXES| && EndsWith(s, FORBIDDEN_SUFFIXES[i])
    ensures !EndsLikeRootFile(s)
  {
  }

  lemma RootFileEnds(i: nat)
    requires i < |ALLOWED_ROOT_FILES|
    ensures EndsLikeRootFile(Lower(ALLOWED_ROOT_FILES[i]))
  {
  }

  predicate PlainChar(c: char) {
    '-' <= c <= 'z' && c != '/'
  }

  lemma RootFileChar(i: nat, k: nat)
    requires i < |ALLOWED_ROOT_FILES| && k < |ALLOWED_ROOT_FILES[i]|
    ensures PlainChar(ALLOWED_ROOT_FILES[i][k])
  {
  }

  lemma PrefixEndsInSlash(i: nat)
    requires i < |ALLOWED_PREFIXES|
    ensures |ALLOWED_PREFIXES[i]| > 0 && ALLOWED_PREFIXES[i][|ALLOWED_PREFIXES[i]| - 1] == '/'
  {
  }

  /** Of the root files only the example environment starts like an environment file, and none like the
      directories of the program's own state. */
  lemma RootFileStarts(i: nat)
    requires i < |ALLOWED_ROOT_FILES|
    ensures var low := Lower(ALLOWED_ROOT_FILES[i]);
      && |low| >= 3 && !(low[0] == '.' && low[1] == 'c')
      && (low[0] == '.' && low[1] == 'e' && low[2] == 'n' ==> i == 2)
  {
  }

  lemma StartsLike(low: string, state: string, environment: string)
    requires state == ".connectmd-" && environment == ".env."
    ensures state <= low ==> low[0] == '.' && low[1] == 'c'
    ensures environment <= low ==> low[0] == '.' && low[1] == 'e' && low[2] == 'n'
  {
  }

  lemma ExampleEnvironment(name: string, low: string)
    requires name == ALLOWED_ROOT_FILES[2] && low == ".env.example"
    ensures Lower(name) == low
  {
    assert name == low;
  }

  lemma EndsDecide(low: string)
    requires EndsLikeRootFile(low)
    ensures low !in FORBIDDEN_COMPONENTS && low !in FORBIDDEN_NAMES && !EndsWithAny(low, FORBIDDEN_SUFFIXES) &&
      low != ".env"
  {
    if i :| 0 <= i < |FORBIDDEN_COMPONENTS| && FORBIDDEN_COMPONENTS[i] == low {
      if i < 15 {
        EarlyComponentsEndOtherwise(i);
      } else {
        LateComponentsEndOtherwise(i);
      }
    }
    if i :| 0 <= i < |FORBIDDEN_NAMES| && FORBIDDEN_NAMES[i] == low {
      NamesEndOtherwise(i);
    }
    if i :| 0 <= i < |FORBIDDEN_SUFFIXES| && EndsWith(low, FORBIDDEN_SUFFIXES[i]) {
      SuffixesEndOtherwise(i, low);
    }
  }

  lemma RootFileHarmless(i: nat)
    requires i < |ALLOWED_ROOT_FILES|
    ensures Harmless(Lower(ALLOWED_ROOT_FILES[i]))
  {
    var low := Lower(ALLOWED_ROOT_FILES[i]);
    RootFileEnds(i);
    EndsDecide(low);
    RootFileStarts(i);
    StartsLike(low, ".connectmd-", ".env.");
    if ".env." <= low {
      ExampleEnvironment(ALLOWED_ROOT_FILES[i], ".env.example");
    }
  }

  lemma StorageUnlisted(i: nat, part: string)
    requires part == "storage" && i < |FORBIDDEN_COMPONENTS|
    ensures FORBIDDEN_COMPONENTS[i] != part
  {
  }

  lemma RootFileFolds(u: Unicode, path: string)
    requires FoldsAscii(u) && path in ALLOWED_ROOT_FILES
    ensures '/' !in path && '/' !in u.fold(path) && Harmless(u.fold(path))
  {
    var i :| 0 <= i < |ALLOWED_ROOT_FILES| && ALLOWED_ROOT_FILES[i] == path;
    forall k | 0 <= k < |path| ensures PlainChar(path[k]) {
      RootFileChar(i, k);
    }
    RootFileHarmless(i);
  }

  lemma MonacoHasSlash(low: string, i: nat)
    requires i < |FORBIDDEN_PATH_PREFIXES| && FORBIDDEN_PATH_PREFIXES[i] <= low
    ensures '/' in low && low[0] == 'a'
  {
    assert low[4] == '/';
  }

  lemma NotMonaco(low: string)
    requires |low| == 0 || low[0] != 'a'
    ensures !StartsWithAny(low, FORBIDDEN_PATH_PREFIXES)
  {
    if i :| 0 <= i < |FORBIDDEN_PATH_PREFIXES| && FORBIDDEN_PATH_PREFIXES[i] <= low {
      MonacoHasSlash(low, i);
    }
  }

  lemma PartsHarmless(u: Unicode, dir: string, rest: seq<string>, path: string)
    requires Components(path) == [dir] + rest && |rest| > 0 && forall part :: part in rest ==> Harmless(u.fold(part))
    requires !StartsWithAny(u.fold(path), FORBIDDEN_PATH_PREFIXES) && !ForbiddenComponent(u.fold(dir))
    ensures !Forbidden(u, path)
  {
    assert rest[|rest| - 1] in rest;
  }

  lemma PlainPathHarmless(u: Unicode, path: string)
    requires '/' !in path && '/' !in u.fold(path) && Harmless(u.fold(path))
    ensures !Forbidden(u, path)
  {
    ComponentsPlain(path);
    if i :| 0 <= i < |FORBIDDEN_PATH_PREFIXES| && FORBIDDEN_PATH_PREFIXES[i] <= u.fold(path) {
      MonacoHasSlash(u.fold(path), i);
    }
  }

  lemma TwoPartsHarmless(u: Unicode, dir: string, name: string, path: string)
    requires path == dir + "/" + name && '/' !in dir && '/' !in name && (|u.fold(path)| > 0 ==> u.fold(path)[0] != 'a')
    requires !ForbiddenComponent(u.fold(dir)) && Harmless(u.fold(name))
    ensures !Forbidden(u, path)
  {
    ComponentsPlain(dir);
    ComponentsPlain(name);
    ComponentsConcat(dir, name);
    NotMonaco(u.fold(path));
    PartsHarmless(u, dir, [name], path);
  }

  lemma StorageHarmless(dir: string)
    requires dir == "storage"
    ensures Ascii(dir) && '/' !in dir && Lower(dir) == dir && !ForbiddenComponent(dir)
  {
    StartsLike(dir, ".connectmd-", ".env.");
    if i :| 0 <= i < |FORBIDDEN_COMPONENTS| && FORBIDDEN_COMPONENTS[i] == dir {
      StorageUnlisted(i, dir);
    }
  }

  lemma SpecialAscii(path: string)
    requires path in ALLOWED_SPECIAL_PATHS
    ensures Ascii(path) && |path| > 0 && path[0] == 's' && path == "storage" + "/" + ALLOWED_ROOT_FILES[8]
  {
  }

  lemma SpecialAllowed(u: Unicode, path: string)
    requires FoldsAscii(u) && path in ALLOWED_SPECIAL_PATHS
    ensures !Forbidden(u, path)
  {
    SpecialAscii(path);
    var dir, name := "storage", ALLOWED_ROOT_FILES[8];
    StorageHarmless(dir);
    RootFileFolds(u, name);
    TwoPartsHarmless(u, dir, name, path);
  }

  /** The branches of `_is_allowed_source_path` come to one rule: a valid path that the tables list and do not
      forbid. The paths admitted by name, which the code lets pass unexamined, would pass. */
  lemma AllowedExactly(u: Unicode, path: string)
    requires FoldsAscii(u)
    ensures AllowedPath(u, path) <==> ValidPath(u, path) && InScope(path) && !Forbidden(u, path)
  {
    if path in ALLOWED_SPECIAL_PATHS {
      SpecialAllowed(u, path);
    } else if path in ALLOWED_ROOT_FILES {
      RootFileFolds(u, path);
      PlainPathHarmless(u, path);
    } else if i :| 0 <= i < |ALLOWED_PREFIXES| && ALLOWED_PREFIXES[i] <= path {
      PrefixEndsInSlash(i);
      assert path[|ALLOWED_PREFIXES[i]| - 1] == '/';
    }
  }

  // ----- Writing the members out -----

  /** Files by the names that lead to them; a directory is there when a file is below it. */
  type Disk = map<seq<string>, Bytes>

  const BASE := "connectmd-source"

  /** A file cannot be written below a file, nor where a directory is. */
  predicate Blocked(disk: Disk, place: seq<string>) {
    exists other :: other in disk && (other < place || place < other)
  }

  /** Where a path leads from the directory `top`. */
  function Place(top: seq<string>, path: string): seq<string> {
    Resolve(top, Components(path))
  }

  /** The disk after the files were written in their order, if each of them could be written. */
  function Extract(top: seq<string>, files: seq<File>): Option<Disk> {
    if |files| == 0 then Some(map[])
    else
      var before, last := Extract(top, files[..|files| - 1]), files[|files| - 1];
      if before.None? || Blocked(before.value, Place(top, last.path)) then None
      else Some(before.value[Place(top, last.path) := last.data])
  }

  lemma {:induction false} JoinConcat(a: seq<string>, b: seq<string>)
    requires |a| > 0 && |b| > 0
    ensures Join("/", a + b) == Join("/", a) + "/" + Join("/", b)
  {
    var init, last := b[..|b| - 1], b[|b| - 1];
    assert a + b == (a + init) + [last] && b == init + [last];
    JoinAppend("/", a + init, last);
    JoinAppend("/", init, last);
    if |init| > 0 {
      JoinConcat(a, init);
    } else {
      assert a + init == a;
    }
  }

  /** One path is below another as a file below a directory. */
  predicate Inside(p: string, q: string) {
    p + "/" <= q
  }

  lemma InsideExactly(p: string, q: string)
    ensures Components(p) < Components(q) <==> Inside(p, q)
  {
    var parts, more := Components(p), Components(q);
    if Inside(p, q) {
      var rest := q[|p| + 1..];
      assert q == p + "/" + rest;
      ComponentsConcat(p, rest);
    }
    if parts < more {
      assert more == parts + more[|parts|..];
      JoinConcat(parts, more[|parts|..]);
      ComponentsJoin(p);
      ComponentsJoin(q);
    }
  }

  /** The whole name of a member leads to where its path leads from the archive's own directory. */
  lemma MemberPlace(at: seq<string>, base: string, path: string)
    requires StaysBelow(path) && '/' !in base && !Special(base)
    ensures Resolve(at, Components(base + "/" + path)) == at + [base] + Components(path) == Place(at + [base], path)
  {
    ComponentsPlain(base);
    ComponentsConcat(base, path);
    StaysBelowExactly(path);
    ResolveBelow(at, [base] + Components(path));
  }

  lemma PrefixIsBase(base: string)
    requires base == BASE
    ensures ARCHIVE_PREFIX == base + "/" && '/' !in base && !Special(base)
  {
  }

  /** Unpacking an archive in the directory `at` writes below the archive's own directory there. */
  lemma ArchivePlace(at: seq<string>, path: string, base: string)
    requires StaysBelow(path) && base == BASE
    ensures Resolve(at, Components(ARCHIVE_PREFIX + path)) == Place(at + [base], path)
  {
    PrefixIsBase(base);
    MemberPlace(at, base, path);
  }

  /** Places coincide or lie one below the other exactly as the paths do. */
  lemma PlacesCompare(top: seq<string>, p: string, q: string)
    requires StaysBelow(p) && StaysBelow(q)
    ensures Place(top, p) == Place(top, q) <==> p == q
    ensures Place(top, p) < Place(top, q) <==> Inside(p, q)
  {
    InsideExactly(p, q);
    ComponentsJoin(p);
    ComponentsJoin(q);
    SameBelow(top, Components(p), Components(q));
  }

  lemma SameBelow(top: seq<string>, a: seq<string>, b: seq<string>)
    ensures top + a == top + b <==> a == b
    ensures top + a < top + b <==> a < b
  {
    assert (top + a)[|top|..] == a && (top + b)[|top|..] == b;
    if top + a < top + b {
      assert a == (top + b)[..|top + a|][|top|..];
    }
    if a < b {
      assert top + b == (top + a) + b[|a|..];
    }
  }

  /** Each path stays below and no path comes twice. */
  ghost predicate Apart(files: seq<File>) {
    && (forall i :: 0 <= i < |files| ==> StaysBelow(files[i].path))
    && forall i, j :: 0 <= i < j < |files| ==> files[i].path != files[j].path
  }

  /** No file's path is the directory of another's. */
  predicate NoneInside(files: seq<File>) {
    forall i, j :: 0 <= i < |files| && 0 <= j < |files| ==> !Inside(files[i].path, files[j].path)
  }

  /** The disk holds the files, each at its place, and no others. */
  ghost predicate Holds(disk: Disk, top: seq<string>, files: seq<File>) {
    && (forall i :: 0 <= i < |files| ==>
      Place(top, files[i].path) in disk && disk[Place(top, files[i].path)] == files[i].data)
    && forall place :: place in disk ==> exists i :: 0 <= i < |files| && place == Place(top, files[i].path)
  }

  lemma BlockedExactly(disk: Disk, top: seq<string>, files: seq<File>, path: string)
    requires Apart(files) && Holds(disk, top, files) && StaysBelow(path)
    ensures Blocked(disk, Place(top, path)) <==>
      exists i :: 0 <= i < |files| && (Inside(files[i].path, path) || Inside(path, files[i].path))
  {
    var here := Place(top, path);
    forall i | 0 <= i < |files|
      ensures Place(top, files[i].path) < here <==> Inside(files[i].path, path)
      ensures here < Place(top, files[i].path) <==> Inside(path, files[i].path)
    {
      PlacesCompare(top, files[i].path, path);
      PlacesCompare(top, path, files[i].path);
    }
  }

  lemma HoldsMore(disk: Disk, top: seq<string>, files: seq<File>, file: File)
    requires Holds(disk, top, files) && Apart(files + [file])
    ensures Holds(disk[Place(top, file.path) := file.data], top, files + [file])
  {
    var all, here := files + [file], Place(top, file.path);
    var next := disk[here := file.data];
    assert all[|files|] == file;
    forall i | 0 <= i < |all|
      ensures Place(top, all[i].path) in next && next[Place(top, all[i].path)] == all[i].data
    {
      if i < |files| {
        assert all[i].path != all[|files|].path;
        PlacesCompare(top, all[i].path, file.path);
      }
    }
    forall place | place in next ensures exists i :: 0 <= i < |all| && place == Place(top, all[i].path) {
      if place != here {
        var i :| 0 <= i < |files| && place == Place(top, files[i].path);
        assert all[i] == files[i];
      }
    }
  }

  lemma NoneInsideMore(init: seq<File>, last: File)
    requires NoneInside(init)
    ensures NoneInside(init + [last]) <==>
      !exists i :: 0 <= i < |init| && (Inside(init[i].path, last.path) || Inside(last.path, init[i].path))
  {
    var all := init + [last];
    assert all[|init|] == last && forall i :: 0 <= i < |init| ==> all[i] == init[i];
  }

  lemma NoneInsideLess(init: seq<File>, last: File)
    requires NoneInside(init + [last])
    ensures NoneInside(init)
  {
    var all := init + [last];
    forall i, j | 0 <= i < |init| && 0 <= j < |init| ensures !Inside(init[i].path, init[j].path) {
      assert !Inside(all[i].path, all[j].path);
    }
  }

  lemma ApartLess(init: seq<File>, last: File)
    requires Apart(init + [last])
    ensures Apart(init) && StaysBelow(last.path)
  {
    var all := init + [last];
    assert all[|init|] == last && forall i :: 0 <= i < |init| ==> all[i] == init[i];
  }

  lemma ExtractMore(top: seq<string>, init: seq<File>, last: File)
    ensures var before, all := Extract(top, init), Extract(top, init + [last]);
      if before.None? || Blocked(before.value, Place(top, last.path)) then all.None?
      else all == Some(before.value[Place(top, last.path) := last.data])
  {
    assert (init + [last])[..|init|] == init;
  }

  lemma {:induction false} ExtractMeans(top: seq<string>, files: seq<File>)
    requires Apart(files)
    ensures Extract(top, files).Some? <==> NoneInside(files)
    ensures Extract(top, files).Some? ==> Holds(Extract(top, files).value, top, files)
  {
    if |files| > 0 {
      var init, last := files[..|files| - 1], files[|files| - 1];
      assert files == init + [last];
      ApartLess(init, last);
      ExtractMeans(top, init);
      ExtractMore(top, init, last);
      if NoneInside(init) {
        BlockedExactly(Extract(top, init).value, top, init, last.path);
        HoldsMore(Extract(top, init).value, top, init, last);
        NoneInsideMore(init, last);
      } else if NoneInside(files) {
        NoneInsideLess(init, last);
      }
    }
  }

  lemma VerifiedApart(u: Unicode, files: seq<File>)
    requires StrictlySorted(SourceRules(u), files, FilePath)
    requires forall i :: 0 <= i < |files| ==> ValidPath(u, files[i].path)
    ensures Apart(files)
  {
    forall i | 0 <= i < |files| ensures StaysBelow(files[i].path) {
      ValidExactly(u, files[i].path);
    }
    forall i, j | 0 <= i < j < |files| ensures files[i].path != files[j].path {
      assert SourceRules(u).Less(FilePath(files[i]), FilePath(files[j]));
    }
  }

  /** A verified archive can be unpacked exactly when the manifest names no file as the directory of another; then
      the disk holds its files, each at its own path below `top` and with its own content, and no others. */
  lemma VerifiedExtracts(u: Unicode, c: Codec, a: Artifacts, expected: Expected, m: Manifest, top: seq<string>)
    requires Verified(SourceRules(u), c, a, expected, m)
    ensures var files := Unpacked(SourceRules(u), c, a.archive).value; var disk := Extract(top, files);
      && Apart(files) && (disk.Some? ==> Holds(disk.value, top, files))
      && (disk.Some? <==> forall e, f :: e in m.files && f in m.files ==> !Inside(e.path, f.path))
  {
    var rules := SourceRules(u);
    var files := Unpacked(rules, c, a.archive).value;
    VerifiedMeans(rules, c, a, expected, m);
    VerifiedApart(u, files);
    ExtractMeans(top, files);
    SamePaths(files, m.files);
  }

  lemma SamePaths(files: seq<File>, entries: seq<FileEntry>)
    requires |files| == |entries| && forall i :: 0 <= i < |files| ==> files[i].path == entries[i].path
    ensures NoneInside(files) <==> forall e, f :: e in entries && f in entries ==> !Inside(e.path, f.path)
  {
    if NoneInside(files) {
      forall e, f | e in entries && f in entries ensures !Inside(e.path, f.path) {
        var i :| 0 <= i < |entries| && entries[i] == e;
        var j :| 0 <= j < |entries| && entries[j] == f;
        assert !Inside(files[i].path, files[j].path);
      }
    } else {
      var i, j :| 0 <= i < |files| && 0 <= j < |files| && Inside(files[i].path, files[j].path);
      assert entries[i] in entries && entries[j] in entries;
    }
  }

  lemma TreeKeeps(rules: Rules, listing: seq<Listed>, i: nat)
    requires TotalOrder(rules) && i < |listing|
    ensures exists k :: 0 <= k < |Tree(rules, listing)| && Tree(rules, listing)[k].path == listing[i].path
  {
    var all := TrackAll(listing);
    SortContents(rules, all, TrackedPath);
    assert all[i] in multiset(Tree(rules, listing));
  }

  lemma ManifestKeeps(rules: Rules, c: Codec, commit: string, name: string, listing: seq<Listed>, i: nat)
    requires TotalOrder(rules) && i < |listing|
    ensures var m := ManifestFor(rules, c, commit, name, Tree(rules, listing));
      exists e :: e in m.files && e.path == listing[i].path
  {
    TreeKeeps(rules, listing, i);
    var files := Tree(rules, listing);
    var k :| 0 <= k < |files| && files[k].path == listing[i].path;
    assert EntriesFor(c, files)[k] in EntriesFor(c, files);
  }

  lemma ClashStops(u: Unicode, c: Codec, a: Artifacts, expected: Expected, m: Manifest, top: seq<string>, e: FileEntry,
                   f: FileEntry)
    requires Verified(SourceRules(u), c, a, expected, m) && e in m.files && f in m.files && Inside(e.path, f.path)
    ensures Extract(top, Unpacked(SourceRules(u), c, a.archive).value).None?
  {
    VerifiedExtracts(u, c, a, expected, m, top);
  }

  /** Neither the exporter nor the verifier minds a file that is the directory of another: what they accept then
      cannot be unpacked. */
  lemma ClashVerified(u: Unicode, c: Codec, commit: string, name: string, listing: seq<Listed>, i: nat, j: nat,
                      top: seq<string>)
    requires Hashes(c) && RoundTrips(SourceRules(u), c)
    requires TreeOk(SourceRules(u), listing) && NoSecrets(c, listing) && LowerHex(commit, 40) && ArtifactName(name)
    requires |BuildArchive(SourceRules(u), c, Tree(SourceRules(u), listing))| <= MAX_ARCHIVE_BYTES
    requires i < |listing| && j < |listing| && Inside(listing[i].path, listing[j].path)
    ensures var rules := SourceRules(u); var files := Tree(rules, listing); var a :=
      Build(rules, c, commit, name, files);
      && Verified(rules, c, a, Exact(c, commit, a), ManifestFor(rules, c, commit, name, files))
      && Extract(top, Unpacked(rules, c, a.archive).value).None?
  {
    SourceOrder(u);
    var rules := SourceRules(u);
    ExportVerifiable(rules, c, commit, name, listing);
    ManifestKeeps(rules, c, commit, name, listing, i);
    ManifestKeeps(rules, c, commit, name, listing, j);
    var a, m := Build(rules, c, commit, name, Tree(rules, listing)),
      ManifestFor(rules, c, commit, name, Tree(rules, listing));
    var e :| e in m.files && e.path == listing[i].path;
    var f :| f in m.files && f.path == listing[j].path;
    ClashStops(u, c, a, Exact(c, commit, a), m, top, e, f);
  }

  // ----- Such a listing -----

  ghost predicate KeepsAscii(u: Unicode) {
    forall s :: Ascii(s) ==> u.nfc(s) == s
  }

  lemma ComponentsLong(i: nat)
    requires i < |FORBIDDEN_COMPONENTS|
    ensures |FORBIDDEN_COMPONENTS[i]| > 1
  {
  }

  lemma NamesLong(i: nat)
    requires i < |FORBIDDEN_NAMES|
    ensures |FORBIDDEN_NAMES[i]| > 1
  {
  }

  lemma SuffixesLong(i: nat)
    requires i < |FORBIDDEN_SUFFIXES|
    ensures |FORBIDDEN_SUFFIXES[i]| > 1
  {
  }

  lemma ShortHarmless(part: string)
    requires |part| == 1
    ensures Harmless(part)
  {
    if i :| 0 <= i < |FORBIDDEN_COMPONENTS| && FORBIDDEN_COMPONENTS[i] == part {
      ComponentsLong(i);
    }
    if i :| 0 <= i < |FORBIDDEN_NAMES| && FORBIDDEN_NAMES[i] == part {
      NamesLong(i);
    }
    if i :| 0 <= i < |FORBIDDEN_SUFFIXES| && EndsWith(part, FORBIDDEN_SUFFIXES[i]) {
      SuffixesLong(i);
    }
  }

  lemma DocsUnlisted(i: nat, part: string)
    requires part == "docs" && i < |FORBIDDEN_COMPONENTS|
    ensures FORBIDDEN_COMPONENTS[i] != part
  {
  }

  lemma DocsHarmless(dir: string)
    requires dir == "docs"
    ensures |dir| == 4 && !Special(dir) && (forall c :: c in dir ==> 'b' <= c <= 'z') && !ForbiddenComponent(dir)
    ensures dir + "/" in ALLOWED_PREFIXES
  {
    StartsLike(dir, ".connectmd-", ".env.");
    if i :| 0 <= i < |FORBIDDEN_COMPONENTS| && FORBIDDEN_COMPONENTS[i] == dir {
      DocsUnlisted(i, dir);
    }
    assert dir + "/" == ALLOWED_PREFIXES[4];
  }

  /** Letters in lower case, one to a component. */
  predicate Letters(rest: string) {
    && |rest| <= 100 && (forall c :: c in rest ==> c == '/' || 'a' <= c <= 'z')
    && forall part :: part in Components(rest) ==> |part| == 1 && 'a' <= part[0] <= 'z'
  }

  lemma LettersFold(u: Unicode, s: string)
    requires FoldsAscii(u) && KeepsAscii(u) && forall c :: c in s ==> c == '/' || 'a' <= c <= 'z'
    ensures Ascii(s) && u.fold(s) == s && u.nfc(s) == s
  {
    assert forall k :: 0 <= k < |s| ==> s[k] in s;
    assert Lower(s) == s;
  }

  lemma LettersValid(u: Unicode, dir: string, rest: string, path: string)
    requires FoldsAscii(u) && KeepsAscii(u) && Letters(rest) && path == dir + "/" + rest
    requires 0 < |dir| <= 100 && !Special(dir) && forall c :: c in dir ==> 'a' <= c <= 'z'
    ensures ValidPath(u, path) && u.fold(path) == path && CollisionKey(u, path) == path &&
      Components(path) == [dir] + Components(rest)
  {
    LettersFold(u, path);
    ComponentsPlain(dir);
    ComponentsConcat(dir, rest);
    StaysBelowExactly(path);
    ValidExactly(u, path);
  }

  lemma LettersPart(u: Unicode, rest: string, part: string)
    requires FoldsAscii(u) && KeepsAscii(u) && Letters(rest) && part in Components(rest)
    ensures |part| == 1 && u.fold(part) == part
  {
    assert part == [part[0]];
    LettersFold(u, part);
  }

  lemma LettersUnforbidden(u: Unicode, dir: string, rest: string, path: string)
    requires FoldsAscii(u) && KeepsAscii(u) && Letters(rest) && Components(path) == [dir] + Components(rest)
    requires !StartsWithAny(u.fold(path), FORBIDDEN_PATH_PREFIXES) && !ForbiddenComponent(u.fold(dir))
    ensures !Forbidden(u, path)
  {
    forall part | part in Components(rest) ensures Harmless(u.fold(part)) {
      LettersPart(u, rest, part);
      ShortHarmless(part);
    }
    PartsHarmless(u, dir, Components(rest), path);
  }

  lemma LettersAllowed(u: Unicode, dir: string, rest: string, path: string)
    requires FoldsAscii(u) && KeepsAscii(u) && Letters(rest) && path == dir + "/" + rest
    requires 0 < |dir| <= 100 && !Special(dir) && (forall c :: c in dir ==> 'b' <= c <= 'z')
    requires !ForbiddenComponent(dir) && dir + "/" in ALLOWED_PREFIXES
    ensures AllowedPath(u, path) && CollisionKey(u, path) == path
  {
    LettersFold(u, dir);
    LettersValid(u, dir, rest, path);
    assert path[0] in dir;
    NotMonaco(path);
    LettersUnforbidden(u, dir, rest, path);
    PrefixInScope(dir + "/", path);
    AllowedExactly(u, path);
  }

  lemma PrefixInScope(prefix: string, path: string)
    requires prefix in ALLOWED_PREFIXES && prefix <= path
    ensures InScope(path)
  {
  }

  lemma LettersHere(a: string, b: string)
    requires a == "a" && b == "a/b"
    ensures Letters(a) && Letters(b) && Inside(a, b)
  {
    ComponentsPlain(a);
    ComponentsPlain("b");
    assert b == a + "/" + "b";
    ComponentsConcat(a, "b");
  }

  function Plain(path: string, id: string): Listed {
    Listed(true, REGULAR + PLAIN, "blob", id, path, [])
  }

  /** A listing with such a file that the checks accept. */
  lemma ClashListing(u: Unicode, id: string, p: string, q: string)
    requires FoldsAscii(u) && KeepsAscii(u) && p == "docs/a" && q == "docs/a/b"
    ensures TreeOk(SourceRules(u), [Plain(p, id), Plain(q, id)]) && Inside(p, q)
  {
    var dir, a, b := "docs", "a", "a/b";
    assert p == dir + "/" + a && q == dir + "/" + b;
    ClashIn(u, id, dir, a, b, p, q);
  }

  lemma ClashIn(u: Unicode, id: string, dir: string, a: string, b: string, p: string, q: string)
    requires FoldsAscii(u) && KeepsAscii(u) && dir == "docs" && a == "a" && b == "a/b" && p == dir + "/" + a &&
      q == dir + "/" + b
    ensures TreeOk(SourceRules(u), [Plain(p, id), Plain(q, id)])
  {
    LettersHere(a, b);
    DocsHarmless(dir);
    LettersAllowed(u, dir, a, p);
    LettersAllowed(u, dir, b, q);
    assert |p| < |q|;
    TwoListed(SourceRules(u), p, q, id);
  }

  lemma TwoListed(rules: Rules, p: string, q: string, id: string)
    requires rules.allowed(p) && rules.allowed(q) && rules.key(p) != rules.key(q)
    ensures TreeOk(rules, [Plain(p, id), Plain(q, id)])
  {
    var none: seq<Listed> := [];
    var x, y := Plain(p, id), Plain(q, id);
    AppendTotal(none, x, ListedSize);
    AppendTotal(none + [x], y, ListedSize);
    assert none + [x] + [y] == [x, y];
  }
}
