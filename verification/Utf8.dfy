/** UTF-8 as defined by sections 3 and 4 of RFC 3629, and CPython's incremental decoder for it. */
module Utf8 {
  import opened Text

  type Byte = b: int | 0 <= b < 256

  /** Section 3 of RFC 3629. */
  function EncodeChar(c: char): seq<Byte> {
    var n := c as int;
    if n < 0x80 then [n]
    else if n < 0x800 then [0xC0 + n / 0x40, 0x80 + n % 0x40]
    else if n < 0x10000 then [0xE0 + n / 0x1000, 0x80 + n / 0x40 % 0x40, 0x80 + n % 0x40]
    else [0xF0 + n / 0x40000, 0x80 + n / 0x1000 % 0x40, 0x80 + n / 0x40 % 0x40, 0x80 + n % 0x40]
  }

  function Encode(s: string): seq<Byte> {
    if |s| == 0 then [] else Encode(s[..|s| - 1]) + EncodeChar(s[|s| - 1])
  }

  /** The octets a character takes. */
  function CharSize(c: char): nat {
    var n := c as int;
    if n < 0x80 then 1 else if n < 0x800 then 2 else if n < 0x10000 then 3 else 4
  }

  /** `len(s.encode("utf-8"))` */
  function Size(s: string): nat {
    if |s| == 0 then 0 else Size(s[..|s| - 1]) + CharSize(s[|s| - 1])
  }

  lemma {:induction false} SizeIsEncodedLength(s: string)
    ensures Size(s) == |Encode(s)|
  {
    if s != "" {
      SizeIsEncodedLength(s[..|s| - 1]);
    }
  }

  lemma {:induction false} EncodeConcat(a: string, b: string)
    ensures Encode(a + b) == Encode(a) + Encode(b)
  {
    if b == "" {
      assert a + b == a;
    } else {
      assert (a + b)[..|a + b| - 1] == a + b[..|b| - 1];
      EncodeConcat(a, b[..|b| - 1]);
    }
  }

  lemma {:induction false} SizeConcat(a: string, b: string)
    ensures Size(a + b) == Size(a) + Size(b)
  {
    if b == "" {
      assert a + b == a;
    } else {
      assert (a + b)[..|a + b| - 1] == a + b[..|b| - 1];
      SizeConcat(a, b[..|b| - 1]);
    }
  }

  /** A trimmed piece never outweighs the stripped text it occurs in. */
  lemma PieceSize(before: string, piece: string, after: string)
    requires Trimmed(piece)
    ensures Size(piece) <= Size(Strip(before + piece + after))
  {
    if piece != "" {
      var left, right := TrimmedPieceSurvives(before, piece, after);
      SizeConcat(left + piece, right);
      SizeConcat(left, piece);
    }
  }

  /** Stripping and measuring is monotone in the text read so far. */
  lemma StripSizeMonotone(s: string, more: string)
    ensures Size(Strip(s)) <= Size(Strip(s + more))
  {
    var before, after := StripShape(s);
    assert s + more == before + Strip(s) + (after + more);
    PieceSize(before, Strip(s), after + more);
  }

  // ----- Decoding -----

  predicate Continuation(b: Byte) {
    0x80 <= b < 0xC0
  }

  /** How many octets a sequence led by `b` has, 0 when no sequence starts with `b`. */
  function Width(b: Byte): nat {
    if b < 0x80 then 1
    else if 0xC2 <= b < 0xE0 then 2
    else if 0xE0 <= b < 0xF0 then 3
    else if 0xF0 <= b < 0xF5 then 4
    else 0
  }

  /** The second octets that section 4 of RFC 3629 allows after `first`. */
  predicate SecondAllowed(first: Byte, second: Byte) {
    && Continuation(second)
    && (first == 0xE0 ==> 0xA0 <= second)
    && (first == 0xED ==> second < 0xA0)
    && (first == 0xF0 ==> 0x90 <= second)
    && (first == 0xF4 ==> second < 0x90)
  }

  /** The payload bits of an octet above its marker `base`. */
  function Bits(b: Byte, base: int): int {
    b as int - base
  }

  datatype First = Char(c: char, width: nat) | Short | Bad

  /** The first character of `bs`: complete, cut short by the end of `bs`, or malformed. */
  function DecodeFirst(bs: seq<Byte>): (r: First)
    requires |bs| > 0
    ensures r.Char? ==> 1 <= r.width <= |bs|
  {
    var w := Width(bs[0]);
    if w == 0 then Bad
    else if w == 1 then Char(bs[0] as char, 1)
    else if |bs| == 1 then Short
    else if !SecondAllowed(bs[0], bs[1]) then Bad
    else if w == 2 then Char((Bits(bs[0], 0xC0) * 0x40 + Bits(bs[1], 0x80)) as char, 2)
    else if |bs| == 2 then Short
    else if !Continuation(bs[2]) then Bad
    else if w == 3 then
      Char((Bits(bs[0], 0xE0) * 0x1000 + Bits(bs[1], 0x80) * 0x40 + Bits(bs[2], 0x80)) as char, 3)
    else if |bs| == 3 then Short
    else if !Continuation(bs[3]) then Bad
    else
      Char((Bits(bs[0], 0xF0) * 0x40000 + Bits(bs[1], 0x80) * 0x1000 + Bits(bs[2], 0x80) * 0x40 +
        Bits(bs[3], 0x80)) as char, 4)
  }

  lemma DecodeFirstOfEncoded(c: char, rest: seq<Byte>)
    ensures EncodeChar(c) != []
    ensures DecodeFirst(EncodeChar(c) + rest) == Char(c, |EncodeChar(c)|)
  {
    var n := c as int;
    var bs := EncodeChar(c) + rest;
    if n < 0x80 {
    } else if n < 0x800 {
      assert bs[1] == 0x80 + n % 0x40;
    } else if n < 0x10000 {
      assert bs[1] == 0x80 + n / 0x40 % 0x40 && bs[2] == 0x80 + n % 0x40;
      assert n / 0x40 / 0x40 == n / 0x1000;
    } else {
      assert bs[1] == 0x80 + n / 0x1000 % 0x40 && bs[2] == 0x80 + n / 0x40 % 0x40 && bs[3] == 0x80 + n % 0x40;
      assert n / 0x1000 / 0x40 == n / 0x40000;
      assert n / 0x40 / 0x40 == n / 0x1000;
    }
  }

  /** Recovering three and four six-bit groups from the number they make up. */
  lemma Groups3(x: int, y: int, z: int)
    requires 0 <= x < 0x40 && 0 <= y < 0x40 && 0 <= z < 0x40
    ensures var n := x * 0x1000 + y * 0x40 + z;
      n / 0x1000 == x && n / 0x40 % 0x40 == y && n % 0x40 == z
  {
    var n := x * 0x1000 + y * 0x40 + z;
    assert n / 0x40 == x * 0x40 + y;
  }

  lemma Groups4(w: int, x: int, y: int, z: int)
    requires 0 <= w && 0 <= x < 0x40 && 0 <= y < 0x40 && 0 <= z < 0x40
    ensures var n := w * 0x40000 + x * 0x1000 + y * 0x40 + z;
      n / 0x40000 == w && n / 0x1000 % 0x40 == x && n / 0x40 % 0x40 == y && n % 0x40 == z
  {
    var n := w * 0x40000 + x * 0x1000 + y * 0x40 + z;
    assert n / 0x40 == w * 0x1000 + x * 0x40 + y;
    assert n / 0x1000 == w * 0x40 + x;
  }

  lemma EncodeOfDecodedFirst(bs: seq<Byte>)
    requires |bs| > 0 && DecodeFirst(bs).Char?
    ensures EncodeChar(DecodeFirst(bs).c) == bs[..DecodeFirst(bs).width]
  {
    var w := DecodeFirst(bs).width;
    var n := DecodeFirst(bs).c as int;
    if w == 1 {
      assert bs[..1] == [bs[0]];
    } else if w == 2 {
      assert n / 0x40 == Bits(bs[0], 0xC0);
      assert bs[..2] == [bs[0], bs[1]];
    } else if w == 3 {
      Groups3(Bits(bs[0], 0xE0), Bits(bs[1], 0x80), Bits(bs[2], 0x80));
      assert bs[..3] == [bs[0], bs[1], bs[2]];
    } else {
      Groups4(Bits(bs[0], 0xF0), Bits(bs[1], 0x80), Bits(bs[2], 0x80), Bits(bs[3], 0x80));
      assert bs[..4] == [bs[0], bs[1], bs[2], bs[3]];
    }
  }

  /** A complete or a malformed first character stays so whatever follows. */
  lemma DecodeFirstStable(a: seq<Byte>, b: seq<Byte>)
    requires |a| > 0 && !DecodeFirst(a).Short?
    ensures DecodeFirst(a + b) == DecodeFirst(a)
  {
    var c := a + b;
    assert forall i :: 0 <= i < |a| ==> c[i] == a[i];
  }

  datatype Decoded = Malformed | Decoded(text: string, rest: seq<Byte>)

  /** What the incremental decoder makes of the octets it holds: the complete characters, and the
      start of a sequence that it keeps for the next call. */
  function Decode(bs: seq<Byte>): Decoded
    decreases |bs|
  {
    if |bs| == 0 then Decoded([], [])
    else match DecodeFirst(bs)
      case Bad => Malformed
      case Short => Decoded("", bs)
      case Char(c, width) =>
        match Decode(bs[width..])
        case Malformed => Malformed
        case Decoded(text, rest) => Decoded([c] + text, rest)
  }

  lemma ConsAppend(c: char, s: string, t: string)
    ensures [c] + (s + t) == ([c] + s) + t
  {
  }

  /** Cutting the octets anywhere changes nothing: decoding a prefix, then what it left over
      together with the remaining octets, gives what one call on all of them gives. */
  lemma {:induction false} DecodeInTwoCalls(a: seq<Byte>, b: seq<Byte>)
    ensures Decode(a).Malformed? ==> Decode(a + b).Malformed?
    ensures Decode(a).Decoded? ==>
      Decode(a + b) == match Decode(Decode(a).rest + b)
        case Malformed => Malformed
        case Decoded(text, rest) => Decoded(Decode(a).text + text, rest)
    decreases |a|
  {
    if |a| == 0 {
      assert a + b == b;
      assert Decode(a).rest + b == b;
    } else {
      match DecodeFirst(a)
      case Bad => DecodeFirstStable(a, b);
      case Short =>
      case Char(c, width) =>
        DecodeFirstStable(a, b);
        assert (a + b)[width..] == a[width..] + b;
        var tail := a[width..];
        DecodeInTwoCalls(tail, b);
        if Decode(tail).Decoded? && Decode(Decode(tail).rest + b).Decoded? {
          ConsAppend(c, Decode(tail).text, Decode(Decode(tail).rest + b).text);
        }
    }
  }

  lemma {:induction false} DecodeEncoded(s: string)
    ensures Decode(Encode(s)) == Decoded(s, [])
  {
    if s != "" {
      var init, last := s[..|s| - 1], s[|s| - 1];
      DecodeEncoded(init);
      DecodeInTwoCalls(Encode(init), EncodeChar(last));
      DecodeEncodedChar(last);
      assert [] + EncodeChar(last) == EncodeChar(last);
      assert init + [last] == s;
    }
  }

  lemma DecodeEncodedChar(c: char)
    ensures Decode(EncodeChar(c)) == Decoded([c], [])
  {
    var e := EncodeChar(c);
    DecodeFirstOfEncoded(c, []);
    assert e + [] == e && e[|e|..] == [];
    assert [c] + "" == [c];
  }

  lemma EncodePrepend(c: char, s: string)
    ensures Encode([c] + s) == EncodeChar(c) + Encode(s)
  {
    EncodeConcat([c], s);
    assert [c][..0] == "";
    assert Encode("") + EncodeChar(c) == EncodeChar(c);
  }

  lemma {:induction false} EncodeDecoded(bs: seq<Byte>)
    requires Decode(bs).Decoded?
    ensures bs == Encode(Decode(bs).text) + Decode(bs).rest
    decreases |bs|
  {
    if bs != [] {
      match DecodeFirst(bs)
      case Short =>
      case Char(c, width) =>
        EncodeOfDecodedFirst(bs);
        EncodeDecoded(bs[width..]);
        var tail := Decode(bs[width..]);
        EncodePrepend(c, tail.text);
        SplitAt(bs, width, Encode(tail.text), tail.rest);
    }
  }

  lemma SplitAt(bs: seq<Byte>, k: nat, x: seq<Byte>, y: seq<Byte>)
    requires k <= |bs| && bs[k..] == x + y
    ensures bs == (bs[..k] + x) + y
  {
    assert bs == bs[..k] + bs[k..];
  }

  ghost predicate IsUtf8(bs: seq<Byte>, text: string) {
    Encode(text) == bs
  }

  /** A file is the encoding of a text exactly when the decoder, told that no octet follows,
      produces that text and keeps nothing back. */
  lemma DecodeExact(bs: seq<Byte>, text: string)
    ensures IsUtf8(bs, text) <==> Decode(bs) == Decoded(text, [])
  {
    if IsUtf8(bs, text) {
      DecodeEncoded(text);
    } else if Decode(bs) == Decoded(text, []) {
      EncodeDecoded(bs);
    }
  }
}
