/** Python text: the whitespace that `strip` removes, `str.join`, and how much of a
    string survives stripping when more text is appended. */
module Text {

  datatype Option<+T> = None | Some(value: T)

  /** The code points for which Python's `str.isspace` holds. */
  predicate IsSpace(c: char) {
    var n := c as int;
    || 0x09 <= n <= 0x0D || 0x1C <= n <= 0x20 || n == 0x85 || n == 0xA0 || n == 0x1680
    || 0x2000 <= n <= 0x200A || n == 0x2028 || n == 0x2029 || n == 0x202F || n == 0x205F || n == 0x3000
  }

  ghost predicate Blank(s: string) {
    forall i :: 0 <= i < |s| ==> IsSpace(s[i])
  }

  function LStrip(s: string): string {
    if |s| > 0 && IsSpace(s[0]) then LStrip(s[1..]) else s
  }

  function RStrip(s: string): string {
    if |s| > 0 && IsSpace(s[|s| - 1]) then RStrip(s[..|s| - 1]) else s
  }

  function Strip(s: string): string {
    RStrip(LStrip(s))
  }

  function Join(separator: string, parts: seq<string>): string {
    if |parts| == 0 then ""
    else if |parts| == 1 then parts[0]
    else Join(separator, parts[..|parts| - 1]) + separator + parts[|parts| - 1]
  }

  /** A text with no whitespace at either end. */
  predicate Trimmed(s: string) {
    s == "" || (!IsSpace(s[0]) && !IsSpace(s[|s| - 1]))
  }

  lemma {:induction false} LStripShape(s: string)
    ensures |LStrip(s)| <= |s| && LStrip(s) == s[|s| - |LStrip(s)|..]
    ensures Blank(s[..|s| - |LStrip(s)|])
    ensures LStrip(s) == "" || !IsSpace(LStrip(s)[0])
  {
    if s != [] && IsSpace(s[0]) {
      LStripShape(s[1..]);
      var k := |s| - |LStrip(s)|;
      assert s[..k] == [s[0]] + s[1..][..k - 1];
      assert s[k..] == s[1..][k - 1..];
    } else {
      assert s[0..] == s;
    }
  }

  lemma {:induction false} RStripShape(s: string)
    ensures |RStrip(s)| <= |s| && RStrip(s) == s[..|RStrip(s)|]
    ensures Blank(s[|RStrip(s)|..])
    ensures RStrip(s) == "" || !IsSpace(RStrip(s)[|RStrip(s)| - 1])
  {
    if s != [] && IsSpace(s[|s| - 1]) {
      var t := s[..|s| - 1];
      RStripShape(t);
      var k := |RStrip(t)|;
      assert s[k..] == t[k..] + [s[|s| - 1]];
      assert s[..k] == t[..k];
    } else {
      assert s[..|s|] == s;
    }
  }

  /** Every text is its stripped form between two blanks. */
  lemma StripShape(s: string) returns (before: string, after: string)
    ensures s == before + Strip(s) + after
    ensures LStrip(s) == Strip(s) + after
    ensures Blank(before) && Blank(after) && Trimmed(Strip(s))
    ensures Strip(s) == "" ==> after == ""
  {
    LStripShape(s);
    var t := LStrip(s);
    RStripShape(t);
    before, after := s[..|s| - |t|], t[|RStrip(t)|..];
    assert Strip(s) == "" ==> t == after;
  }

  lemma {:induction false} LStripBlank(blank: string, s: string)
    requires Blank(blank)
    ensures LStrip(blank + s) == LStrip(s)
  {
    if blank == "" {
      assert blank + s == s;
    } else {
      assert (blank + s)[1..] == blank[1..] + s;
      LStripBlank(blank[1..], s);
    }
  }

  lemma {:induction false} RStripBlank(s: string, blank: string)
    requires Blank(blank)
    ensures RStrip(s + blank) == RStrip(s)
  {
    if blank == "" {
      assert s + blank == s;
    } else {
      assert (s + blank)[..|s + blank| - 1] == s + blank[..|blank| - 1];
      RStripBlank(s, blank[..|blank| - 1]);
    }
  }

  /** The stripped form is the only trimmed core between two blanks. */
  lemma StripUnique(before: string, core: string, after: string)
    requires Blank(before) && Blank(after) && Trimmed(core)
    ensures Strip(before + core + after) == core
  {
    assert before + core + after == before + (core + after);
    LStripBlank(before, core + after);
    if core == "" {
      assert core + after == after + "";
      LStripBlank(after, "");
    } else {
      assert LStrip(core + after) == core + after;
      RStripBlank(core, after);
    }
  }

  lemma StripTrimmed(s: string)
    requires Trimmed(s)
    ensures Strip(s) == s
  {
    assert s == "" + s + "";
    StripUnique("", s, "");
  }

  lemma StripIdempotent(s: string)
    ensures Strip(Strip(s)) == Strip(s)
  {
    var _, _ := StripShape(s);
    StripTrimmed(Strip(s));
  }

  lemma StripBlankIsEmpty(s: string)
    ensures Strip(s) == "" <==> Blank(s)
  {
    var before, after := StripShape(s);
    if Blank(s) {
      assert s == s + "" + "";
      StripUnique(s, "", "");
    }
  }

  /** A trimmed piece of a text lies inside its stripped form: stripping never cuts into it. */
  lemma TrimmedPieceSurvives(before: string, piece: string, after: string) returns (left: string, right: string)
    requires Trimmed(piece) && piece != ""
    ensures Strip(before + piece + after) == left + piece + right
  {
    var whole := before + piece + after;
    var b, a := StripShape(whole);
    left, right := PieceInside(before, piece, after, b, Strip(whole), a);
  }

  /** Blanks around a core cannot reach into a trimmed piece. */
  lemma PieceInside(before: string, piece: string, after: string, b: string, core: string, a: string)
      returns (left: string, right: string)
    requires Trimmed(piece) && piece != "" && Blank(b) && Blank(a)
    requires before + piece + after == b + core + a
    ensures core == left + piece + right
  {
    var whole := before + piece + after;
    var i, j := |before|, |before| + |piece| - 1;
    assert whole[i] == piece[0] && whole[j] == piece[|piece| - 1];
    assert forall k :: 0 <= k < |b| ==> whole[k] == b[k];
    assert forall k :: |b| + |core| <= k < |whole| ==> whole[k] == a[k - |b| - |core|];
    assert |b| <= i && j < |b| + |core|;
    var start := i - |b|;
    left, right := core[..start], core[start + |piece|..];
    assert forall k :: 0 <= k < |piece| ==> core[start + k] == whole[i + k] && whole[i + k] == piece[k];
    assert core[start..start + |piece|] == piece;
    assert core == left + core[start..start + |piece|] + right;
  }

  lemma {:induction false} JoinAppend(separator: string, parts: seq<string>, part: string)
    ensures Join(separator, parts + [part]) ==
            Join(separator, parts) + (if |parts| == 0 then "" else separator) + part
  {
    var longer := parts + [part];
    if parts != [] {
      assert longer[..|longer| - 1] == parts;
    }
  }

  /** Part `k` occurs whole inside the join. */
  lemma {:induction false} JoinContains(separator: string, parts: seq<string>, k: nat)
      returns (before: string, after: string)
    requires k < |parts|
    ensures Join(separator, parts) == before + parts[k] + after
  {
    var n := |parts|;
    if n == 1 {
      before, after := "", "";
    } else if k == n - 1 {
      before, after := Join(separator, parts[..n - 1]) + separator, "";
    } else {
      before, after := JoinContains(separator, parts[..n - 1], k);
      after := after + separator + parts[n - 1];
    }
  }
}
