/** Unpadded base64url text, section 5 of RFC 4648, and the padding that decoding puts back. */
module Base64Url {
  import opened Wrappers
  import opened Text

  const PAD: CodePoint := 61       // '='
  const DASH: CodePoint := 45
  const UNDERSCORE: CodePoint := 95

  type Sextet = n: nat | n < 64

  /** A-Z, a-z, 0-9, dash and underscore. */
  function Symbol(n: Sextet): (c: CodePoint)
    ensures ValueOf(c) == Some(n)
  {
    if n < 26 then 65 + n else if n < 52 then 97 + (n - 26) else if n < 62 then 48 + (n - 52)
    else if n == 62 then DASH else UNDERSCORE
  }

  function ValueOf(c: CodePoint): Option<Sextet> {
    if 65 <= c <= 90 then Some(c - 65)
    else if 97 <= c <= 122 then Some(c - 97 + 26)
    else if 48 <= c <= 57 then Some(c - 48 + 52)
    else if c == DASH then Some(62)
    else if c == UNDERSCORE then Some(63)
    else None
  }

  /** The padded form: four symbols for every three bytes, the last group filled up. */
  function Padded(b: Bytes): Text {
    if b == [] then []
    else if |b| == 1 then [Symbol(b[0] / 4), Symbol(b[0] % 4 * 16), PAD, PAD]
    else if |b| == 2 then [Symbol(b[0] / 4), Symbol(b[0] % 4 * 16 + b[1] / 16), Symbol(b[1] % 16 * 4), PAD]
    else [Symbol(b[0] / 4), Symbol(b[0] % 4 * 16 + b[1] / 16), Symbol(b[1] % 16 * 4 + b[2] / 64), Symbol(b[2] % 64)]
         + Padded(b[3..])
  }

  function Stripped(s: Text): Text {
    if s != [] && s[|s| - 1] == PAD then Stripped(s[..|s| - 1]) else s
  }

  function Encode(b: Bytes): Text { Stripped(Padded(b)) }

  function Pads(n: nat): Text { if n == 0 then [] else Pads(n - 1) + [PAD] }

  /** The remainder of `-n` by 4, rounding down: how many pads bring a length up to a multiple of four. */
  function PadCount(n: nat): (p: nat)
    ensures p < 4 && (n + p) % 4 == 0
  {
    if n % 4 == 0 then 0 else 4 - n % 4
  }

  function Repadded(s: Text): Text { s + Pads(PadCount(|s|)) }

  function Group(a: Sextet, b: Sextet, c: Sextet, d: Sextet): Bytes {
    [a * 4 + b / 16, b % 16 * 16 + c / 4, c % 4 * 64 + d]
  }

  /** Four symbols at a time; a last group may end in padding, whose spare bits are dropped. */
  function DecodePadded(s: Text): Option<Bytes> {
    if s == [] then Some([])
    else if |s| < 4 then None
    else
      var a, b := ValueOf(s[0]), ValueOf(s[1]);
      if a.None? || b.None? then None
      else if s[2..] == [PAD, PAD] then Some(Group(a.value, b.value, 0, 0)[..1])
      else
        var c := ValueOf(s[2]);
        if c.None? then None
        else if s[3..] == [PAD] then Some(Group(a.value, b.value, c.value, 0)[..2])
        else
          var d, rest := ValueOf(s[3]), DecodePadded(s[4..]);
          if d.None? || rest.None? then None else Some(Group(a.value, b.value, c.value, d.value) + rest.value)
  }

  function Decode(s: Text): Option<Bytes> { DecodePadded(Repadded(s)) }

  // ---------------------------------------------------------------- proofs

  lemma GroupOf(x: Byte, y: Byte, z: Byte)
    ensures Group(x / 4, x % 4 * 16 + y / 16, y % 16 * 4 + z / 64, z % 64) == [x, y, z]
  {
    assert (x % 4 * 16 + y / 16) / 16 == x % 4;
    assert (y % 16 * 4 + z / 64) / 4 == y % 16;
  }

  lemma SymbolIsPlain(n: Sextet)
    ensures Symbol(n) != PAD && Symbol(n) != 46
  {
  }

  lemma OneByte(x: Byte)
    ensures DecodePadded(Padded([x])) == Some([x])
  {
    GroupOf(x, 0, 0);
    var p := Padded([x]);
    assert p == [Symbol(x / 4), Symbol(x % 4 * 16), PAD, PAD] && p[2..] == [PAD, PAD];
    assert Group(x / 4, x % 4 * 16, 0, 0) == [x, 0, 0] && [x, 0, 0][..1] == [x];
  }

  lemma TwoBytes(x: Byte, y: Byte)
    ensures DecodePadded(Padded([x, y])) == Some([x, y])
  {
    GroupOf(x, y, 0);
    SymbolIsPlain(y % 16 * 4);
    var p := Padded([x, y]);
    assert p == [Symbol(x / 4), Symbol(x % 4 * 16 + y / 16), Symbol(y % 16 * 4), PAD];
    assert p[3..] == [PAD] && p[2..][0] != PAD;
    assert Group(x / 4, x % 4 * 16 + y / 16, y % 16 * 4, 0) == [x, y, 0] && [x, y, 0][..2] == [x, y];
  }

  lemma ThreeBytes(x: Byte, y: Byte, z: Byte, rest: Text)
    ensures var s := [Symbol(x / 4), Symbol(x % 4 * 16 + y / 16), Symbol(y % 16 * 4 + z / 64), Symbol(z % 64)] + rest;
            DecodePadded(s) == if DecodePadded(rest).None? then None else Some([x, y, z] + DecodePadded(rest).value)
  {
    GroupOf(x, y, z);
    SymbolIsPlain(y % 16 * 4 + z / 64);
    SymbolIsPlain(z % 64);
    var s := [Symbol(x / 4), Symbol(x % 4 * 16 + y / 16), Symbol(y % 16 * 4 + z / 64), Symbol(z % 64)] + rest;
    assert s[4..] == rest && s[2..][0] != PAD && s[3..][0] != PAD;
  }

  lemma {:induction false} DecodesPadded(b: Bytes)
    ensures DecodePadded(Padded(b)) == Some(b)
  {
    if b == [] {
    } else if |b| == 1 {
      OneByte(b[0]);
      assert b == [b[0]];
    } else if |b| == 2 {
      TwoBytes(b[0], b[1]);
      assert b == [b[0], b[1]];
    } else {
      DecodesPadded(b[3..]);
      ThreeBytes(b[0], b[1], b[2], Padded(b[3..]));
      PaddedOfThree(b);
      hide DecodePadded, Padded, Symbol;
      assert [b[0], b[1], b[2]] + b[3..] == b;
    }
  }

  lemma PaddedOfThree(b: Bytes)
    requires |b| > 2
    ensures Padded(b) == [Symbol(b[0] / 4), Symbol(b[0] % 4 * 16 + b[1] / 16), Symbol(b[1] % 16 * 4 + b[2] / 64),
                          Symbol(b[2] % 64)] + Padded(b[3..])
  {
  }

  /** The symbols of the unpadded form. */
  function Symbols(b: Bytes): Text {
    if b == [] then []
    else if |b| == 1 then [Symbol(b[0] / 4), Symbol(b[0] % 4 * 16)]
    else if |b| == 2 then [Symbol(b[0] / 4), Symbol(b[0] % 4 * 16 + b[1] / 16), Symbol(b[1] % 16 * 4)]
    else [Symbol(b[0] / 4), Symbol(b[0] % 4 * 16 + b[1] / 16), Symbol(b[1] % 16 * 4 + b[2] / 64), Symbol(b[2] % 64)]
         + Symbols(b[3..])
  }

  lemma {:induction false} SymbolsLength(b: Bytes)
    ensures |Symbols(b)| == (4 * |b| + 2) / 3
  {
    if |b| > 2 {
      SymbolsLength(b[3..]);
      assert |b[3..]| == |b| - 3;
      assert (4 * |b| + 2) / 3 == (4 * (|b| - 3) + 2) / 3 + 4;
    }
  }

  lemma {:induction false} SymbolsArePlain(b: Bytes)
    ensures forall c <- Symbols(b) :: c != PAD && c != 46
  {
    forall n: Sextet ensures Symbol(n) != PAD && Symbol(n) != 46 { SymbolIsPlain(n); }
    hide Symbol;
    if |b| > 2 { SymbolsArePlain(b[3..]); }
  }

  lemma PadsOf()
    ensures Pads(0) == [] && Pads(1) == [PAD] && Pads(2) == [PAD, PAD]
  {
  }

  lemma PadCounts(n: nat)
    ensures PadCount(n + 4) == PadCount(n) && PadCount(0) == 0 && PadCount(2) == 2 && PadCount(3) == 1
  {
  }

  lemma {:induction false} SymbolsArePadded(b: Bytes)
    ensures Padded(b) == Symbols(b) + Pads(PadCount(|Symbols(b)|))
  {
    PadsOf();
    hide Symbol, Pads, PadCount;
    if |b| > 2 {
      SymbolsArePadded(b[3..]);
      PadCounts(|Symbols(b[3..])|);
    } else {
      PadCounts(0);
    }
  }

  lemma {:induction false} StrippedOfPads(s: Text, n: nat)
    requires s == [] || s[|s| - 1] != PAD
    ensures Stripped(s + Pads(n)) == s
  {
    if n == 0 {
      assert s + Pads(0) == s;
    } else {
      StrippedOfPads(s, n - 1);
      assert (s + Pads(n))[..|s + Pads(n)| - 1] == s + Pads(n - 1);
    }
  }

  lemma EncodeIsSymbols(b: Bytes)
    ensures Encode(b) == Symbols(b)
  {
    SymbolsArePadded(b);
    SymbolsArePlain(b);
    if b != [] { assert Symbols(b)[|Symbols(b)| - 1] in Symbols(b); }
    StrippedOfPads(Symbols(b), PadCount(|Symbols(b)|));
  }

  /** Re-padding undoes the stripping, so decoding inverts encoding; the text has no dot and no padding. */
  lemma DecodesEncoded(b: Bytes)
    ensures Decode(Encode(b)) == Some(b)
    ensures |Encode(b)| == (4 * |b| + 2) / 3
    ensures forall c <- Encode(b) :: c != PAD && c != 46
  {
    EncodeIsSymbols(b);
    SymbolsLength(b);
    SymbolsArePlain(b);
    SymbolsArePadded(b);
    DecodesPadded(b);
    hide Symbols, Padded, DecodePadded, Encode, Pads;
  }

  lemma {:induction false} DecodedHasNoDot(s: Text)
    requires DecodePadded(s).Some?
    ensures forall c <- s :: c != 46
  {
    if s != [] {
      assert s == [s[0], s[1]] + s[2..];
      if s[2..] != [PAD, PAD] {
        assert s[2..] == [s[2]] + s[3..];
        if s[3..] != [PAD] {
          DecodedHasNoDot(s[4..]);
          assert s[3..] == [s[3]] + s[4..];
        }
      }
    }
  }

  /** Text that decodes has no dot. */
  lemma DecodableHasNoDot(s: Text)
    requires Decode(s).Some?
    ensures forall c <- s :: c != 46
  {
    DecodedHasNoDot(Repadded(s));
    assert forall c <- s :: c in Repadded(s);
    hide Decode, DecodePadded;
  }
}
