/** Paths of a source distribution: which are accepted, and the order in which they are listed. */
module SourcePaths {
  import opened Text
  import opened Utf8

  /** NFC normalisation and full case folding, as the Unicode tables define them. */
  datatype Unicode = Unicode(nfc: string -> string, fold: string -> string)

  const MAX_PATH_CHARS := 512
  const ARCHIVE_PREFIX := "connectmd-source/"

  const FORBIDDEN_SUFFIXES: seq<string> := [
    ".bak", ".crt", ".db", ".key", ".log", ".pem", ".pfx", ".p12", ".secret", ".secrets", ".sqlite", ".tar", ".tar.gz",
      ".tgz", ".zip"]

  const FORBIDDEN_COMPONENTS: seq<string> := [
    ".cache", ".connectmd", ".git", ".mypy_cache", ".next", ".pnpm-store", ".pytest_cache", ".ruff_cache", ".venv",
      "__pycache__",
    "backups", "build", "cache", "caches", "coverage", "data", "dist", "logs", "node_modules", ".eslintcache",
      ".nyc_output", ".turbo",
    ".vitest", "playwright-report", "receipts", "runtime", "secrets", "test-results", "temp", "tmp", "venv"]

  const FORBIDDEN_NAMES: seq<string> := [
    ".npmrc", ".pypirc", "credentials.json", "id_dsa", "id_ed25519", "id_rsa", "known_hosts", "service-account.json"]

  const ALLOWED_ROOT_FILES: seq<string> := [
    ".dockerignore", ".editorconfig", ".env.example", ".gitattributes", ".gitignore", "CHANGELOG.md",
      "CONTRIBUTING.md", "LICENSE",
    "README.md", "SECURITY.md", "VERSION", "compose.prod.yaml", "compose.yaml", "llms.txt"]

  const ALLOWED_PREFIXES: seq<string> := [
    ".github/", "audits/", "apps/", "deploy/", "docs/", "examples/", "infra/", "packages/", "scripts/",
      "surfaces/tanstack-start/", "tools/"]

  const ALLOWED_SPECIAL_PATHS: seq<string> := ["storage/README.md"]

  const FORBIDDEN_PATH_PREFIXES: seq<string> := ["apps/web/public/monaco/"]

  predicate EndsWith(s: string, suffix: string) {
    |suffix| <= |s| && s[|s| - |suffix|..] == suffix
  }

  predicate StartsWithAny(s: string, prefixes: seq<string>) {
    exists i :: 0 <= i < |prefixes| && prefixes[i] <= s
  }

  predicate EndsWithAny(s: string, suffixes: seq<string>) {
    exists i :: 0 <= i < |suffixes| && EndsWith(s, suffixes[i])
  }

  /** `path.split("/")` */
  function Components(path: string): (parts: seq<string>)
    ensures |parts| > 0
  {
    if |path| == 0 then [""]
    else
      var before, c := Components(path[..|path| - 1]), path[|path| - 1];
      if c == '/' then before + [""] else before[..|before| - 1] + [before[|before| - 1] + [c]]
  }

  /** Splitting loses nothing: the parts hold no slash and join to the path. */
  lemma {:induction false} ComponentsJoin(path: string)
    ensures Join("/", Components(path)) == path
    ensures forall part :: part in Components(path) ==> '/' !in part
  {
    if |path| > 0 {
      var init, c := path[..|path| - 1], path[|path| - 1];
      ComponentsJoin(init);
      var before := Components(init);
      assert path == init + [c];
      if c == '/' {
        JoinAppend("/", before, "");
      } else {
        JoinLonger("/", before, c);
        assert before[|before| - 1] in before;
      }
    } else {
      JoinOne("/", "");
    }
  }

  lemma JoinOne(separator: string, part: string)
    ensures Join(separator, [part]) == part
  {
    JoinAppend(separator, [], part);
    assert [] + [part] == [part];
  }

  lemma JoinLonger(separator: string, parts: seq<string>, c: char)
    requires |parts| > 0
    ensures Join(separator, parts[..|parts| - 1] + [parts[|parts| - 1] + [c]]) == Join(separator, parts) + [c]
  {
    var init, last := parts[..|parts| - 1], parts[|parts| - 1];
    assert parts == init + [last];
    JoinAppend(separator, init, last);
    JoinAppend(separator, init, last + [c]);
  }

  predicate Control(c: char) {
    (c as int) < 0x20 || c as int == 0x7F
  }

  /** `_validate_relative_path`, true when it does not raise. */
  predicate ValidPath(u: Unicode, path: string) {
    && 0 < |path| <= MAX_PATH_CHARS && '\\' !in path
    && path[0] != '/' && path[|path| - 1] != '/' &&
      !(exists i :: 0 < i < |path| && path[i - 1] == '/' && path[i] == '/')
    && (forall i :: 0 <= i < |path| ==> !Control(path[i]))
    && (forall part :: part in Components(path) ==> part != "" && part != "." && part != "..")
    && u.nfc(path) == path
  }

  predicate ForbiddenComponent(part: string) {
    part in FORBIDDEN_COMPONENTS || ".connectmd-" <= part
  }

  predicate ForbiddenName(name: string) {
    name in FORBIDDEN_NAMES || name == ".env" || (".env." <= name && name != ".env.example") ||
      EndsWithAny(name, FORBIDDEN_SUFFIXES)
  }

  /** `_is_allowed_source_path`, false also when validation raises. */
  predicate AllowedPath(u: Unicode, path: string) {
    ValidPath(u, path) &&
    if path in ALLOWED_SPECIAL_PATHS then true
    else if '/' !in path then path in ALLOWED_ROOT_FILES
    else
      var parts := Components(path);
      && StartsWithAny(path, ALLOWED_PREFIXES)
      && !StartsWithAny(u.fold(path), FORBIDDEN_PATH_PREFIXES)
      && (forall part :: part in parts ==> !ForbiddenComponent(u.fold(part)))
      && !ForbiddenName(u.fold(parts[|parts| - 1]))
  }

  /** The key under which two paths collide. */
  function CollisionKey(u: Unicode, path: string): string {
    u.fold(u.nfc(path))
  }

  /** What the reader and the writer need to know of paths: which are allowed, which collide, their order,
      and what archive members have in front. */
  datatype Rules = Rules(allowed: string -> bool, key: string -> string, leq: (string, string) -> bool,
                         prefix: string) {
    predicate Less(p: string, q: string) {
      leq(p, q) && p != q
    }
  }

  /** The rules of this repository. */
  function SourceRules(u: Unicode): Rules {
    Rules(p => AllowedPath(u, p), p => CollisionKey(u, p), (p, q) => PathLeq(p, q), ARCHIVE_PREFIX)
  }

  ghost predicate TotalOrder(rules: Rules) {
    && (forall p, q :: rules.leq(p, q) || rules.leq(q, p))
    && (forall p, q :: rules.leq(p, q) && rules.leq(q, p) ==> p == q)
    && (forall p, q, r :: rules.leq(p, q) && rules.leq(q, r) ==> rules.leq(p, r))
  }

  // ----- Lexicographic order of octets -----

  predicate Leq(a: seq<Byte>, b: seq<Byte>) {
    if |a| == 0 then true
    else if |b| == 0 then false
    else if a[0] == b[0] then Leq(a[1..], b[1..])
    else a[0] < b[0]
  }

  lemma {:induction false} LeqTotal(a: seq<Byte>, b: seq<Byte>)
    ensures Leq(a, b) || Leq(b, a)
    ensures Leq(a, b) && Leq(b, a) ==> a == b
    decreases |a|
  {
    if |a| > 0 && |b| > 0 && a[0] == b[0] {
      LeqTotal(a[1..], b[1..]);
      assert a == [a[0]] + a[1..] && b == [b[0]] + b[1..];
    }
  }

  lemma {:induction false} LeqTransitive(a: seq<Byte>, b: seq<Byte>, c: seq<Byte>)
    requires Leq(a, b) && Leq(b, c)
    ensures Leq(a, c)
    decreases |a|
  {
    if |a| > 0 && |b| > 0 && |c| > 0 && a[0] == b[0] == c[0] {
      LeqTransitive(a[1..], b[1..], c[1..]);
    }
  }

  // ----- Order of paths -----

  /** `_path_sort_key` compared. */
  predicate PathLeq(p: string, q: string) {
    Leq(Encode(p), Encode(q))
  }

  /** Different paths have different keys, so the listing order is a total order on paths. */
  lemma SourceOrder(u: Unicode)
    ensures TotalOrder(SourceRules(u))
  {
    forall p: string, q: string
      ensures (PathLeq(p, q) || PathLeq(q, p)) && (PathLeq(p, q) && PathLeq(q, p) ==> p == q) {
      LeqTotal(Encode(p), Encode(q));
      DecodeEncoded(p);
      DecodeEncoded(q);
    }
    forall p: string, q: string, r: string ensures PathLeq(p, q) && PathLeq(q, r) ==> PathLeq(p, r) {
      if PathLeq(p, q) && PathLeq(q, r) {
        LeqTransitive(Encode(p), Encode(q), Encode(r));
      }
    }
  }

  predicate Sorted<T>(rules: Rules, items: seq<T>, path: T -> string) {
    forall i, j :: 0 <= i < j < |items| ==> rules.leq(path(items[i]), path(items[j]))
  }

  predicate StrictlySorted<T>(rules: Rules, items: seq<T>, path: T -> string) {
    forall i, j :: 0 <= i < j < |items| ==> rules.Less(path(items[i]), path(items[j]))
  }

  predicate NoCollision<T>(rules: Rules, items: seq<T>, path: T -> string) {
    forall i, j :: 0 <= i < j < |items| ==> rules.key(path(items[i])) != rules.key(path(items[j]))
  }

  lemma SortedApart<T>(rules: Rules, items: seq<T>, path: T -> string)
    requires NoCollision(rules, items, path)
    ensures Sorted(rules, items, path) <==> StrictlySorted(rules, items, path)
  {
  }

  lemma AppendStrict<T>(rules: Rules, items: seq<T>, item: T, path: T -> string)
    requires TotalOrder(rules) && StrictlySorted(rules, items, path)
    ensures StrictlySorted(rules, items + [item], path) <==>
      (|items| > 0 ==> rules.Less(path(items[|items| - 1]), path(item)))
  {
    var all := items + [item];
    if |items| > 0 {
      if StrictlySorted(rules, all, path) {
        assert rules.Less(path(all[|items| - 1]), path(all[|items|]));
      }
      if rules.Less(path(items[|items| - 1]), path(item)) {
        forall i | 0 <= i < |items| ensures rules.Less(path(items[i]), path(item)) {
          if i < |items| - 1 {
            assert rules.Less(path(items[i]), path(items[|items| - 1]));
          }
        }
      }
    }
  }

  // ----- Sorting values that carry a path -----

  /** `item` goes after everything that is not above it, so equal keys keep their order. */
  function Insert<T>(rules: Rules, sorted: seq<T>, item: T, path: T -> string): seq<T> {
    if |sorted| == 0 || rules.leq(path(sorted[|sorted| - 1]), path(item)) then sorted + [item]
    else Insert(rules, sorted[..|sorted| - 1], item, path) + [sorted[|sorted| - 1]]
  }

  /** `sorted(items, key=...)` */
  function SortByPath<T>(rules: Rules, items: seq<T>, path: T -> string): seq<T> {
    if |items| == 0 then [] else Insert(rules, SortByPath(rules, items[..|items| - 1], path), items[|items| - 1], path)
  }

  lemma {:induction false} InsertContents<T>(rules: Rules, sorted: seq<T>, item: T, path: T -> string)
    ensures multiset(Insert(rules, sorted, item, path)) == multiset(sorted) + multiset{item}
  {
    if |sorted| > 0 {
      var init, last := sorted[..|sorted| - 1], sorted[|sorted| - 1];
      InsertContents(rules, init, item, path);
      assert sorted == init + [last];
    }
  }

  ghost predicate AllLeq<T>(rules: Rules, items: seq<T>, p: string, path: T -> string) {
    forall i :: 0 <= i < |items| ==> rules.leq(path(items[i]), p)
  }

  lemma {:induction false} InsertAllLeq<T>(rules: Rules, sorted: seq<T>, item: T, p: string, path: T -> string)
    requires AllLeq(rules, sorted, p, path) && rules.leq(path(item), p)
    ensures AllLeq(rules, Insert(rules, sorted, item, path), p, path)
  {
    if |sorted| > 0 {
      InsertAllLeq(rules, sorted[..|sorted| - 1], item, p, path);
    }
  }

  lemma AppendSorted<T>(rules: Rules, init: seq<T>, last: T, path: T -> string)
    ensures Sorted(rules, init + [last], path) <==> Sorted(rules, init, path) && AllLeq(rules, init, path(last), path)
  {
    var all := init + [last];
    if Sorted(rules, all, path) {
      forall i | 0 <= i < |init| ensures rules.leq(path(init[i]), path(last)) {
        assert rules.leq(path(all[i]), path(all[|init|]));
      }
      forall i, j | 0 <= i < j < |init| ensures rules.leq(path(init[i]), path(init[j])) {
        assert rules.leq(path(all[i]), path(all[j]));
      }
    }
  }

  lemma {:induction false} InsertSorted<T>(rules: Rules, sorted: seq<T>, item: T, path: T -> string)
    requires TotalOrder(rules) && Sorted(rules, sorted, path)
    ensures Sorted(rules, Insert(rules, sorted, item, path), path)
  {
    if |sorted| > 0 {
      var init, last := sorted[..|sorted| - 1], sorted[|sorted| - 1];
      assert sorted == init + [last];
      AppendSorted(rules, init, last, path);
      if rules.leq(path(last), path(item)) {
        forall i | 0 <= i < |sorted| ensures rules.leq(path(sorted[i]), path(item)) {
          if i < |init| {
            assert init[i] == sorted[i];
          }
        }
        AppendSorted(rules, sorted, item, path);
      } else {
        InsertSorted(rules, init, item, path);
        InsertAllLeq(rules, init, item, path(last), path);
        AppendSorted(rules, Insert(rules, init, item, path), last, path);
      }
    }
  }

  lemma {:induction false} SortContents<T>(rules: Rules, items: seq<T>, path: T -> string)
    requires TotalOrder(rules)
    ensures multiset(SortByPath(rules, items, path)) == multiset(items) &&
      Sorted(rules, SortByPath(rules, items, path), path)
  {
    if |items| > 0 {
      var init, last := items[..|items| - 1], items[|items| - 1];
      SortContents(rules, init, path);
      InsertContents(rules, SortByPath(rules, init, path), last, path);
      InsertSorted(rules, SortByPath(rules, init, path), last, path);
      assert items == init + [last];
    }
  }

  /** A strictly sorted list is the only strictly sorted arrangement of its elements. */
  lemma {:induction false} SortedUnique<T>(rules: Rules, a: seq<T>, b: seq<T>, path: T -> string)
    requires TotalOrder(rules) && StrictlySorted(rules, a, path) && StrictlySorted(rules, b, path) &&
      multiset(a) == multiset(b)
    ensures a == b
    decreases |a|
  {
    if |a| == 0 {
      assert |multiset(b)| == 0;
    } else {
      SameFirst(rules, a, b, path);
      SameRest(a, b);
      SortedUnique(rules, a[1..], b[1..], path);
      assert a == [a[0]] + a[1..] && b == [b[0]] + b[1..];
    }
  }

  lemma SameRest<T>(a: seq<T>, b: seq<T>)
    requires |a| > 0 && |b| > 0 && a[0] == b[0] && multiset(a) == multiset(b)
    ensures multiset(a[1..]) == multiset(b[1..])
  {
    assert a == [a[0]] + a[1..] && b == [b[0]] + b[1..];
    assert multiset(a[1..]) == multiset(a) - multiset{a[0]};
    assert multiset(b[1..]) == multiset(b) - multiset{b[0]};
  }

  lemma SameFirst<T>(rules: Rules, a: seq<T>, b: seq<T>, path: T -> string)
    requires TotalOrder(rules) && |a| > 0 && StrictlySorted(rules, a, path) && StrictlySorted(rules, b, path) &&
      multiset(a) == multiset(b)
    ensures |b| > 0 && a[0] == b[0]
  {
    assert a[0] in multiset(b);
    assert b[0] in multiset(a);
    FirstIsLeast(rules, a, b, path);
    FirstIsLeast(rules, b, a, path);
    FirstIsSame(rules, a, b, path);
  }

  lemma FirstIsLeast<T>(rules: Rules, a: seq<T>, b: seq<T>, path: T -> string)
    requires TotalOrder(rules) && |a| > 0 && |b| > 0 && StrictlySorted(rules, a, path) && b[0] in a
    ensures rules.leq(path(a[0]), path(b[0]))
  {
    var i :| 0 <= i < |a| && a[i] == b[0];
    assert i > 0 ==> rules.Less(path(a[0]), path(a[i]));
  }

  lemma FirstIsSame<T>(rules: Rules, a: seq<T>, b: seq<T>, path: T -> string)
    requires |a| > 0 && |b| > 0 && StrictlySorted(rules, a, path) && b[0] in a && path(a[0]) == path(b[0])
    ensures a[0] == b[0]
  {
    var i :| 0 <= i < |a| && a[i] == b[0];
    assert i == 0;
  }

  /** A list is its own sorted form exactly when it is sorted. */
  lemma SortedFixed<T>(rules: Rules, items: seq<T>, path: T -> string)
    requires TotalOrder(rules)
    ensures SortByPath(rules, items, path) == items <==> Sorted(rules, items, path)
  {
    SortContents(rules, items, path);
    if Sorted(rules, items, path) {
      SortKeeps(rules, items, path);
    }
  }

  lemma {:induction false} SortKeeps<T>(rules: Rules, items: seq<T>, path: T -> string)
    requires Sorted(rules, items, path)
    ensures SortByPath(rules, items, path) == items
  {
    if |items| > 0 {
      var init, last := items[..|items| - 1], items[|items| - 1];
      assert items == init + [last];
      AppendSorted(rules, init, last, path);
      SortKeeps(rules, init, path);
    }
  }

  // ----- Collisions and totals, one item at a time -----

  function Keys<T>(rules: Rules, items: seq<T>, path: T -> string): set<string> {
    set i | 0 <= i < |items| :: rules.key(path(items[i]))
  }

  lemma AppendNoCollision<T>(rules: Rules, items: seq<T>, item: T, path: T -> string)
    ensures NoCollision(rules, items + [item], path) <==>
      NoCollision(rules, items, path) && rules.key(path(item)) !in Keys(rules, items, path)
    ensures Keys(rules, items + [item], path) == Keys(rules, items, path) + {rules.key(path(item))}
  {
    var all := items + [item];
    assert forall i :: 0 <= i < |items| ==> all[i] == items[i];
    assert all[|items|] == item;
    if NoCollision(rules, all, path) {
      forall i | 0 <= i < |items| ensures rules.key(path(items[i])) != rules.key(path(item)) {
        assert rules.key(path(all[i])) != rules.key(path(all[|items|]));
      }
      forall i, j | 0 <= i < j < |items| ensures rules.key(path(items[i])) != rules.key(path(items[j])) {
        assert rules.key(path(all[i])) != rules.key(path(all[j]));
      }
    }
  }

  /** Without collisions there are as many keys as items. */
  lemma {:induction false} NoCollisionCounts<T>(rules: Rules, items: seq<T>, path: T -> string)
    ensures |Keys(rules, items, path)| <= |items|
    ensures NoCollision(rules, items, path) <==> |Keys(rules, items, path)| == |items|
  {
    if |items| > 0 {
      var init, last := items[..|items| - 1], items[|items| - 1];
      assert items == init + [last];
      AppendNoCollision(rules, init, last, path);
      NoCollisionCounts(rules, init, path);
    }
  }

  lemma NoCollisionPermuted<T>(rules: Rules, a: seq<T>, b: seq<T>, path: T -> string)
    requires multiset(a) == multiset(b)
    ensures NoCollision(rules, a, path) <==> NoCollision(rules, b, path)
  {
    NoCollisionCounts(rules, a, path);
    NoCollisionCounts(rules, b, path);
    KeysPermuted(rules, a, b, path);
    KeysPermuted(rules, b, a, path);
    assert Keys(rules, a, path) == Keys(rules, b, path);
    assert |multiset(a)| == |a| && |multiset(b)| == |b|;
  }

  lemma KeysPermuted<T>(rules: Rules, a: seq<T>, b: seq<T>, path: T -> string)
    requires multiset(a) == multiset(b)
    ensures Keys(rules, a, path) <= Keys(rules, b, path)
  {
    forall i | 0 <= i < |a| ensures rules.key(path(a[i])) in Keys(rules, b, path) {
      assert a[i] in multiset(b);
    }
  }

  function Total<T>(items: seq<T>, size: T -> nat): nat {
    if |items| == 0 then 0 else Total(items[..|items| - 1], size) + size(items[|items| - 1])
  }

  lemma AppendTotal<T>(items: seq<T>, item: T, size: T -> nat)
    ensures Total(items + [item], size) == Total(items, size) + size(item)
  {
    assert (items + [item])[..|items|] == items;
  }

  lemma {:induction false} TotalPrefix<T>(items: seq<T>, k: nat, size: T -> nat)
    requires k <= |items|
    ensures Total(items[..k], size) <= Total(items, size)
  {
    if k < |items| {
      TotalPrefix(items[..|items| - 1], k, size);
      assert items[..|items| - 1][..k] == items[..k];
    } else {
      assert items[..k] == items;
    }
  }

  lemma {:induction false} TotalWithout<T>(items: seq<T>, k: nat, size: T -> nat)
    requires k < |items|
    ensures Total(items, size) == Total(items[..k] + items[k + 1..], size) + size(items[k])
  {
    var rest := items[..k] + items[k + 1..];
    if k == |items| - 1 {
      assert rest == items[..k];
    } else {
      var init := items[..|items| - 1];
      TotalWithout(init, k, size);
      assert rest[..|rest| - 1] == init[..k] + init[k + 1..];
    }
  }

  lemma {:induction false} TotalPermuted<T>(a: seq<T>, b: seq<T>, size: T -> nat)
    requires multiset(a) == multiset(b)
    ensures Total(a, size) == Total(b, size)
    decreases |a|
  {
    if |a| == 0 {
      assert |multiset(b)| == 0;
    } else {
      var n, last := |a| - 1, a[|a| - 1];
      assert last in multiset(b);
      var k :| 0 <= k < |b| && b[k] == last;
      var init, rest := a[..n] + a[n + 1..], b[..k] + b[k + 1..];
      TotalWithout(a, n, size);
      TotalWithout(b, k, size);
      Removed(a, n);
      Removed(b, k);
      SameWithout(multiset(init), multiset(rest), last);
      TotalPermuted(init, rest, size);
    }
  }

  lemma Removed<T>(all: seq<T>, k: nat)
    requires k < |all|
    ensures multiset(all) == multiset(all[..k] + all[k + 1..]) + multiset{all[k]}
  {
    assert all == all[..k] + [all[k]] + all[k + 1..];
  }

  lemma SameWithout<T>(a: multiset<T>, b: multiset<T>, x: T)
    requires a + multiset{x} == b + multiset{x}
    ensures a == b
  {
    assert a == a + multiset{x} - multiset{x};
    assert b == b + multiset{x} - multiset{x};
  }
}
