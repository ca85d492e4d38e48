/** The streaming `strip` that the DOCX and OCR extractors share: content is kept under a byte
    budget, whitespace waits until later content makes it internal, and whitespace that cannot
    fit is remembered as a number only. */
module BoundedText {
  import opened Text
  import opened Utf8

  datatype Extracted = Fits(text: string) | Exceeds

  /** The unbounded meaning: strip the whole text, then measure it. */
  function Fit(text: string, maximum: nat): Extracted {
    if Size(Strip(text)) <= maximum then Fits(Strip(text)) else Exceeds
  }

  /** The whitespace at the end of `s` that later content would make internal. */
  ghost function Tail(s: string): (t: string)
    ensures LStrip(s) == Strip(s) + t && Blank(t)
    ensures Strip(s) == "" ==> t == ""
  {
    RStripShape(LStrip(s));
    LStripShape(s);
    LStrip(s)[|Strip(s)|..]
  }

  /** What the variables of a bounded reader hold after it has read `seen`. */
  ghost predicate Holds(seen: string, collected: string, used: nat, pending: string, pendingBytes: nat, maximum: nat) {
    && collected == Strip(seen)
    && used == Size(collected) <= maximum
    && pendingBytes == Size(Tail(seen))
    && pending == (if pendingBytes <= maximum - used then Tail(seen) else "")
  }

  lemma NothingHeld(maximum: nat)
    ensures Holds("", "", 0, "", 0, maximum) && Size("") == 0
  {
  }

  lemma TailUnique(s: string, core: string, t: string)
    requires LStrip(s) == core + t && Blank(t) && Trimmed(core)
    ensures Strip(s) == core && Tail(s) == t
  {
    RStripBlank(core, t);
    assert RStrip(core) == core;
  }

  /** How stripping proceeds chunk by chunk. `rest` is the chunk without the whitespace that still
      leads the text, `content` what remains of it after stripping the right end. */
  lemma StripExtends(seen: string, chunk: string, rest: string, content: string)
    requires rest == if Strip(seen) == "" then LStrip(chunk) else chunk
    requires content == RStrip(rest)
    ensures |content| <= |rest|
    ensures content == "" ==> Strip(seen + chunk) == Strip(seen) && Tail(seen + chunk) == Tail(seen) + rest
    ensures content != "" ==>
      Strip(seen + chunk) == Strip(seen) + Tail(seen) + content && Tail(seen + chunk) == rest[|content|..]
  {
    if Strip(seen) == "" {
      ExtendsBlank(seen, chunk);
    } else {
      ExtendsContent(seen, chunk);
    }
  }

  lemma ExtendsBlank(seen: string, chunk: string)
    requires Strip(seen) == ""
    ensures var rest := LStrip(chunk);
      |RStrip(rest)| <= |rest| && Strip(seen + chunk) == RStrip(rest) && Tail(seen + chunk) == rest[|RStrip(rest)|..]
    ensures RStrip(LStrip(chunk)) == "" ==> LStrip(chunk) == ""
  {
    StripBlankIsEmpty(seen);
    LStripBlank(seen, chunk);
    RStripShape(LStrip(chunk));
    LStripShape(chunk);
    var rest := LStrip(chunk);
    assert rest == RStrip(rest) + rest[|RStrip(rest)|..];
    assert RStrip(rest) == "" ==> rest == rest[|RStrip(rest)|..];
    TailUnique(seen + chunk, RStrip(rest), rest[|RStrip(rest)|..]);
  }

  lemma ExtendsContent(seen: string, chunk: string)
    requires Strip(seen) != ""
    ensures |RStrip(chunk)| <= |chunk|
    ensures RStrip(chunk) == "" ==> Strip(seen + chunk) == Strip(seen) && Tail(seen + chunk) == Tail(seen) + chunk
    ensures RStrip(chunk) != "" ==>
      && Strip(seen + chunk) == Strip(seen) + Tail(seen) + RStrip(chunk)
      && Tail(seen + chunk) == chunk[|RStrip(chunk)|..]
  {
    var _, _ := StripShape(seen);
    LStripKeeps(seen, chunk);
    RStripShape(chunk);
    ExtendsCore(seen + chunk, Strip(seen), Tail(seen), chunk, RStrip(chunk));
  }

  lemma ExtendsCore(longer: string, core: string, tail: string, chunk: string, content: string)
    requires LStrip(longer) == (core + tail) + chunk
    requires Trimmed(core) && core != "" && Blank(tail)
    requires |content| <= |chunk| && content == chunk[..|content|] && Blank(chunk[|content|..])
    requires content == "" || !IsSpace(content[|content| - 1])
    ensures content == "" ==> Strip(longer) == core && Tail(longer) == tail + chunk
    ensures content != "" ==> Strip(longer) == core + tail + content && Tail(longer) == chunk[|content|..]
  {
    var after := chunk[|content|..];
    assert chunk == content + after;
    if content == "" {
      assert (core + tail) + chunk == core + (tail + chunk);
      TailUnique(longer, core, tail + chunk);
    } else {
      assert (core + tail) + chunk == (core + tail + content) + after;
      TrimmedGrows(core, tail, content);
      TailUnique(longer, core + tail + content, after);
    }
  }

  lemma TrimmedGrows(core: string, tail: string, content: string)
    requires Trimmed(core) && core != ""
    requires content != "" && !IsSpace(content[|content| - 1])
    ensures Trimmed(core + tail + content)
  {
    var longer := core + tail + content;
    assert longer[0] == core[0] && longer[|longer| - 1] == content[|content| - 1];
  }

  lemma {:induction false} LStripKeeps(s: string, more: string)
    requires LStrip(s) != ""
    ensures LStrip(s + more) == LStrip(s) + more
  {
    if IsSpace(s[0]) {
      assert (s + more)[1..] == s[1..] + more;
      LStripKeeps(s[1..], more);
    }
  }

  /** A chunk with content: the budget is tested against exactly the stripped text so far. */
  lemma ContentStep(seen: string, chunk: string, content: string,
                    collected: string, used: nat, pending: string, pendingBytes: nat, maximum: nat)
    requires Holds(seen, collected, used, pending, pendingBytes, maximum)
    requires content == RStrip(if collected == "" then LStrip(chunk) else chunk) && content != ""
    ensures used + pendingBytes + Size(content) == Size(Strip(seen + chunk))
    ensures Size(Strip(seen + chunk)) <= maximum ==> collected + pending + content == Strip(seen + chunk)
  {
    StripExtends(seen, chunk, if collected == "" then LStrip(chunk) else chunk, content);
    SizeConcat(collected + Tail(seen), content);
    SizeConcat(collected, Tail(seen));
  }

  /** The trailing whitespace of a chunk joins what is pending, or replaces it after new content. */
  lemma TrailingStep(seen: string, chunk: string, rest: string, content: string, pending: string, pendingBytes: nat,
                     before: string, maximum: nat)
    requires rest == if Strip(seen) == "" then LStrip(chunk) else chunk
    requires content == RStrip(rest)
    requires Size(Strip(seen + chunk)) <= maximum
    requires before == if content == "" then Tail(seen) else ""
    requires pendingBytes == Size(before)
    requires pending == before || (pending == "" && pendingBytes > maximum - Size(Strip(seen + chunk)))
    ensures |content| <= |rest|
    ensures Tail(seen + chunk) == before + rest[|content|..]
    ensures Size(Tail(seen + chunk)) == pendingBytes + Size(rest[|content|..])
    ensures Size(Tail(seen + chunk)) <= maximum - Size(Strip(seen + chunk)) ==>
      pending + rest[|content|..] == Tail(seen + chunk)
  {
    StripExtends(seen, chunk, rest, content);
    if content == "" {
      assert rest[|content|..] == rest;
    } else {
      assert "" + rest[|content|..] == rest[|content|..];
    }
    SizeConcat(before, rest[|content|..]);
  }

  /** The body of both reading loops: content is charged together with the whitespace that it makes
      internal, and trailing whitespace waits while it could still fit. */
  method Absorb(chunk: string, collected: string, used: nat, pending: string, pendingBytes: nat, maximum: nat,
                ghost seen: string)
      returns (exceeds: bool, collected': string, used': nat, pending': string, pendingBytes': nat)
    requires Holds(seen, collected, used, pending, pendingBytes, maximum)
    ensures exceeds <==> Size(Strip(seen + chunk)) > maximum
    ensures !exceeds ==> Holds(seen + chunk, collected', used', pending', pendingBytes', maximum)
    ensures !exceeds ==> Size(collected') + Size(pending') <= maximum
  {
    exceeds, collected', used', pending', pendingBytes' := false, collected, used, pending, pendingBytes;
    var rest := if collected == "" then LStrip(chunk) else chunk;
    var content := RStrip(rest);
    StripExtends(seen, chunk, rest, content);
    ghost var before := if content == "" then Tail(seen) else "";
    if content != "" {
      ContentStep(seen, chunk, content, collected, used, pending, pendingBytes, maximum);
      used' := used + pendingBytes + Size(content);
      if used' > maximum {
        exceeds := true;
        return;
      }
      collected' := collected + pending + content;
      pending', pendingBytes' := "", 0;
    }
    var trailing := rest[|content|..];
    TrailingStep(seen, chunk, rest, content, pending', pendingBytes', before, maximum);
    pendingBytes' := pendingBytes' + Size(trailing);
    if pendingBytes' <= maximum - used' {
      pending' := pending' + trailing;
    } else {
      pending' := "";
    }
  }

  /** `_join`: stripping the separated concatenation of `parts` under a byte budget. `peak` is the
      most that was ever retained, in bytes. */
  method BoundedJoin(parts: seq<string>, separator: string, maximum: nat) returns (r: Extracted, ghost peak: nat)
    ensures r == Fit(Join(separator, parts), maximum)
    ensures peak <= maximum
  {
    var collected, pending := "", "";
    var used: nat, pendingBytes: nat := 0, 0;
    ghost var seen := "";
    peak := 0;
    NothingHeld(maximum);
    for index := 0 to |parts|
      invariant seen == Join(separator, parts[..index])
      invariant Holds(seen, collected, used, pending, pendingBytes, maximum)
      invariant Size(collected) + Size(pending) <= peak <= maximum
    {
      var chunk := (if index > 0 then separator else "") + parts[index];
      JoinStep(separator, parts, index, chunk, maximum);
      var exceeds;
      exceeds, collected, used, pending, pendingBytes :=
        Absorb(chunk, collected, used, pending, pendingBytes, maximum, seen);
      if exceeds {
        return Exceeds, peak;
      }
      seen := seen + chunk;
      peak := if peak < Size(collected) + Size(pending) then Size(collected) + Size(pending) else peak;
    }
    assert parts[..|parts|] == parts;
    r := Fits(collected);
  }

  lemma JoinStep(separator: string, parts: seq<string>, index: nat, chunk: string, maximum: nat)
    requires index < |parts|
    requires chunk == (if index > 0 then separator else "") + parts[index]
    ensures Join(separator, parts[..index]) + chunk == Join(separator, parts[..index + 1])
    ensures Size(Strip(Join(separator, parts[..index + 1]))) <= Size(Strip(Join(separator, parts)))
  {
    assert parts[..index + 1] == parts[..index] + [parts[index]];
    JoinAppend(separator, parts[..index], parts[index]);
    var rest := JoinPrefix(separator, parts, index + 1);
    StripSizeMonotone(Join(separator, parts[..index + 1]), rest);
  }

  lemma {:induction false} JoinPrefix(separator: string, parts: seq<string>, k: nat) returns (rest: string)
    requires 0 < k <= |parts|
    ensures Join(separator, parts) == Join(separator, parts[..k]) + rest
  {
    var n := |parts|;
    if k == n {
      assert parts[..k] == parts;
      rest := "";
    } else {
      rest := JoinPrefix(separator, parts[..n - 1], k);
      assert parts[..n - 1][..k] == parts[..k];
      rest := rest + separator + parts[n - 1];
    }
  }
}
