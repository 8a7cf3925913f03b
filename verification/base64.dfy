/** The encoder and decoder of base/base64.cc, against sections 3.5 and 4 of RFC 4648.  Shifts and
    masks are written as divisions, products and remainders; the bits that the code joins with an
    or are disjoint, so they are added. */
module Base64 {
  import opened Basics

  type Byte = x: int | 0 <= x < 256
  type Sextet = x: int | 0 <= x < 64

  const PAD := '='

  /** The alphabet in section 4 of RFC 4648. */
  function Digit(v: Sextet): char {
    if v < 26 then 'A' + v as char
    else if v < 52 then 'a' + (v - 26) as char
    else if v < 62 then '0' + (v - 52) as char
    else if v == 62 then '+'
    else '/'
  }

  const UPPER := "ABCDEFGHIJKLMNOPQRSTUVWXYZ"
  const LOWER := "abcdefghijklmnopqrstuvwxyz"
  const OTHERS := "0123456789+/"

  /** The digits are the table of the code. */
  lemma DigitIsInTable(v: Sextet)
    ensures |UPPER + LOWER + OTHERS| == 64 && Digit(v) == (UPPER + LOWER + OTHERS)[v]
  {
    if v < 26 {
      assert Digit(v) == UPPER[v];
    } else if v < 52 {
      assert Digit(v) == LOWER[v - 26];
    } else {
      assert Digit(v) == OTHERS[v - 52];
    }
  }

  function Value(c: char): Option<Sextet> {
    if 'A' <= c <= 'Z' then Some((c - 'A') as int)
    else if 'a' <= c <= 'z' then Some(26 + (c - 'a') as int)
    else if '0' <= c <= '9' then Some(52 + (c - '0') as int)
    else if c == '+' then Some(62)
    else if c == '/' then Some(63)
    else None
  }

  lemma DigitValue(v: Sextet)
    ensures Value(Digit(v)) == Some(v) && Digit(v) != PAD
  {
  }

  lemma ValueDigit(c: char)
    requires Value(c).Some?
    ensures Digit(Value(c).value) == c && c != PAD
  {
  }

  // ---------------------------------------------------------------- groups of 24 bits

  /** The four six-bit parts of three bytes. */
  function S0(b0: Byte): Sextet { b0 / 4 }

  function S1(b0: Byte, b1: Byte): Sextet { b0 % 4 * 16 + b1 / 16 }

  function S2(b1: Byte, b2: Byte): Sextet { b1 % 16 * 4 + b2 / 64 }

  function S3(b2: Byte): Sextet { b2 % 64 }

  /** The three eight-bit parts of four sextets. */
  function O0(v0: Sextet, v1: Sextet): Byte { v0 * 4 + v1 / 16 }

  function O1(v1: Sextet, v2: Sextet): Byte { v1 % 16 * 16 + v2 / 4 }

  function O2(v2: Sextet, v3: Sextet): Byte { v2 % 4 * 64 + v3 }

  lemma SextetsWriteTheBytes(b0: Byte, b1: Byte, b2: Byte)
    ensures ((S0(b0) * 64 + S1(b0, b1)) * 64 + S2(b1, b2)) * 64 + S3(b2) == b0 * 0x10000 + b1 * 0x100 + b2
  {
  }

  lemma OctetsWriteTheSextets(v0: Sextet, v1: Sextet, v2: Sextet, v3: Sextet)
    ensures O0(v0, v1) * 0x10000 + O1(v1, v2) * 0x100 + O2(v2, v3) == ((v0 * 64 + v1) * 64 + v2) * 64 + v3
  {
  }

  lemma OctetsOfSextets(b0: Byte, b1: Byte, b2: Byte)
    ensures O0(S0(b0), S1(b0, b1)) == b0 && O1(S1(b0, b1), S2(b1, b2)) == b1 && O2(S2(b1, b2), S3(b2)) == b2
  {
  }

  lemma SextetsOfOctets(v0: Sextet, v1: Sextet, v2: Sextet, v3: Sextet)
    ensures S0(O0(v0, v1)) == v0 && S1(O0(v0, v1), O1(v1, v2)) == v1
    ensures S2(O1(v1, v2), O2(v2, v3)) == v2 && S3(O2(v2, v3)) == v3
    ensures S1(O0(v0, v1), 0) == v1 / 16 * 16 && S2(O1(v1, v2), 0) == v2 / 4 * 4
  {
  }

  /** Section 4 of RFC 4648: full groups, then one or two left-over bytes completed with zero bits
      and marked with padding. */
  function Encode(b: seq<Byte>): string {
    if |b| == 0 then ""
    else if |b| == 1 then [Digit(S0(b[0])), Digit(S1(b[0], 0)), PAD, PAD]
    else if |b| == 2 then [Digit(S0(b[0])), Digit(S1(b[0], b[1])), Digit(S2(b[1], 0)), PAD]
    else [Digit(S0(b[0])), Digit(S1(b[0], b[1])), Digit(S2(b[1], b[2])), Digit(S3(b[2]))] + Encode(b[3..])
  }

  /** Section 10 of RFC 4648, and the last two digits of the alphabet. */
  lemma KnownEncodings()
    ensures Encode([102]) == "Zg==" && Encode([102, 111]) == "Zm8="
    ensures Encode([102, 111, 111, 98, 97, 114]) == "Zm9vYmFy"
    ensures Encode([0xFB, 0xFF, 0xBF]) == "+/+/"
  {
    assert [102, 111, 111, 98, 97, 114][3..] == [98, 97, 114];
  }

  function EncodedLength(n: nat): nat {
    (n + 2) / 3 * 4
  }

  lemma {:induction false} EncodeLength(b: seq<Byte>)
    ensures |Encode(b)| == EncodedLength(|b|)
  {
    if |b| >= 3 {
      EncodeLength(b[3..]);
      assert (|b| + 2) / 3 == (|b[3..]| + 2) / 3 + 1;
    }
  }

  lemma Keeps(x: nat, m: nat)
    requires x < m
    ensures x % m == x
  {
  }

  lemma LeftShift(x: int, shift: nat, kept: nat)
    requires (shift == 16 && kept == 4) || (shift == 4 && kept == 16)
    ensures x * shift % 64 == x % kept * shift
  {
  }

  /** A left shift under the mask of six bits. */
  function LeftBits(b: Byte, shift: nat): (v: Sextet) {
    (b as int) * shift % 64
  }

  /** A right shift under the mask that keeps a number below `kept`. */
  function RightBits(b: Byte, shift: nat, kept: nat): (v: nat)
    requires shift > 0 && kept > 0
    ensures v < kept
  {
    b / shift % kept
  }

  /** The second and the third character's bits, from the shifts and masks of the code. */
  function M1(b0: Byte, b1: Byte): Sextet {
    LeftShift(b0, 16, 4);
    LeftBits(b0, 16) + RightBits(b1, 16, 16)
  }

  function M2(b1: Byte, b2: Byte): Sextet {
    LeftShift(b1, 4, 16);
    LeftBits(b1, 4) + RightBits(b2, 64, 4)
  }

  lemma MasksCut(b0: Byte, b1: Byte, b2: Byte)
    ensures RightBits(b0, 4, 64) == S0(b0) && M1(b0, b1) == S1(b0, b1)
    ensures M2(b1, b2) == S2(b1, b2) && RightBits(b2, 1, 64) == S3(b2)
  {
    Keeps(b0 / 4, 64);
    Keeps(b1 / 16, 16);
    Keeps(b2 / 64, 4);
    LeftShift(b0, 16, 4);
    LeftShift(b1, 4, 16);
  }

  /** The next group of the encoding. */
  function NextGroup(b: seq<Byte>): (q: string)
    requires b != []
    ensures |q| == 4
  {
    [Digit(S0(b[0])),
     Digit(S1(b[0], if |b| > 1 then b[1] else 0)),
     if |b| > 1 then Digit(S2(b[1], if |b| > 2 then b[2] else 0)) else PAD,
     if |b| > 2 then Digit(S3(b[2])) else PAD]
  }

  lemma NextGroupFirst(b: seq<Byte>)
    requires b != []
    ensures Encode(b) == NextGroup(b) + Encode(if |b| > 3 then b[3..] else [])
  {
    hide Digit, S0, S1, S2, S3;
    assert |b| == 3 ==> b[3..] == [];
  }

  function FourChars(n: nat, v0: Sextet, v1: Sextet, v2: Sextet, v3: Sextet): (q: string)
    ensures |q| == 4
  {
    [Digit(v0), Digit(v1), if n > 1 then Digit(v2) else PAD, if n > 2 then Digit(v3) else PAD]
  }

  lemma NextGroupIs(b: seq<Byte>, b1: Byte, b2: Byte)
    requires b != [] && (if |b| > 1 then b1 == b[1] else b1 == 0) && (if |b| > 2 then b2 == b[2] else b2 == 0)
    ensures NextGroup(b) == FourChars(|b|, S0(b[0]), S1(b[0], b1), S2(b1, b2), S3(b2))
  {
    hide Digit, S0, S1, S2, S3;
  }

  /** The four characters that one turn of the loop writes with its shifts and masks. */
  function Quad(b: seq<Byte>): (q: string)
    requires b != []
    ensures q == NextGroup(b)
  {
    hide *;
    var b1: Byte, b2: Byte := if |b| > 1 then b[1] else 0, if |b| > 2 then b[2] else 0;
    MasksCut(b[0], b1, b2);
    NextGroupIs(b, b1, b2);
    FourChars(|b|, RightBits(b[0], 4, 64), M1(b[0], b1), M2(b1, b2), RightBits(b2, 1, 64))
  }

  /** Without the next byte the bits are those of the left shift alone. */
  lemma WithoutNext(b: Byte)
    ensures M1(b, 0) == LeftBits(b, 16) && M2(b, 0) == LeftBits(b, 4)
  {
  }

  lemma QuadIs(b: seq<Byte>)
    requires b != []
    ensures var q := Quad(b);
            && q[0] == Digit(RightBits(b[0], 4, 64))
            && q[1] == Digit(if |b| > 1 then M1(b[0], b[1]) else LeftBits(b[0], 16))
            && q[2] == (if |b| > 2 then Digit(M2(b[1], b[2])) else if |b| > 1 then Digit(LeftBits(b[1], 4)) else PAD)
            && q[3] == if |b| > 2 then Digit(RightBits(b[2], 1, 64)) else PAD
  {
    hide Digit, M1, M2, LeftBits, RightBits;
    WithoutNext(b[0]);
    if |b| > 1 {
      WithoutNext(b[1]);
    }
  }

  lemma QuadAt(input: seq<Byte>, i: nat)
    requires i < |input|
    ensures var (q, n) := (Quad(input[i..]), |input| - i);
            && q[0] == Digit(RightBits(input[i], 4, 64))
            && q[1] == Digit(if n > 1 then M1(input[i], input[i + 1]) else LeftBits(input[i], 16))
            && q[2] == (if n > 2 then Digit(M2(input[i + 1], input[i + 2]))
                        else if n > 1 then Digit(LeftBits(input[i + 1], 4)) else PAD)
            && q[3] == if n > 2 then Digit(RightBits(input[i + 2], 1, 64)) else PAD
  {
    hide Digit, Quad, M1, M2, LeftBits, RightBits;
    QuadIs(input[i..]);
  }

  lemma AddedBits(b0: Byte, b1: Byte)
    ensures M1(b0, b1) == LeftBits(b0, 16) + RightBits(b1, 16, 16)
    ensures M2(b0, b1) == LeftBits(b0, 4) + RightBits(b1, 64, 4)
  {
  }

  /** One turn of the loop: four characters for up to three bytes. */
  method EncodeQuad(input: seq<Byte>, start: nat, temp: array<char>, destIx: nat) returns (i: nat)
    requires start < |input| && destIx + 4 <= temp.Length
    modifies temp
    ensures i == if start + 3 < |input| then start + 3 else |input|
    ensures forall k :: 0 <= k < 4 ==> temp[destIx + k] == Quad(input[start..])[k]
    ensures temp[..destIx] == old(temp[..destIx])
  {
    hide Digit, Quad, M1, M2, LeftBits, RightBits;
    i := start;
    var len := |input|;
    QuadAt(input, start);
    var c: int := RightBits(input[i], 4, 64);
    temp[destIx] := Digit(c);

    c := LeftBits(input[i], 16);
    i := i + 1;
    if i < len {
      AddedBits(input[i - 1], input[i]);
      c := c + RightBits(input[i], 16, 16);
    }
    temp[destIx + 1] := Digit(c);

    if i < len {
      c := LeftBits(input[i], 4);
      i := i + 1;
      if i < len {
        AddedBits(input[i - 1], input[i]);
        c := c + RightBits(input[i], 64, 4);
      }
      temp[destIx + 2] := Digit(c);
    } else {
      temp[destIx + 2] := PAD;
    }

    if i < len {
      c := RightBits(input[i], 1, 64);
      temp[destIx + 3] := Digit(c);
      i := i + 1;
    } else {
      temp[destIx + 3] := PAD;
    }
  }

  /** The encoding loop: it fills exactly the characters it reserved. */
  method Base64Encode(input: seq<Byte>) returns (output: string)
    ensures output == Encode(input) && |output| == EncodedLength(|input|)
  {
    var len := |input|;
    var temp := new char[(len + 2) / 3 * 4];
    var i, destIx := 0, 0;
    ghost var turn := 0;
    hide Encoding, Quad, Encode;
    EncodeLength(input);
    EncodingStarts(input);
    assert temp[..0] == "";
    while i < len
      invariant i <= len && destIx == 4 * turn <= temp.Length
      invariant Encoding(input, temp[..destIx], i, turn)
    {
      TurnInBounds(input, temp[..destIx], i, turn);
      ghost var before, start := temp[..destIx], i;
      i := EncodeQuad(input, i, temp, destIx);
      turn := turn + 1;
      destIx := destIx + 4;
      assert temp[..destIx][..destIx - 4] == temp[..destIx - 4];
      EncodingContinues(input, before, temp[..destIx], start, i, turn - 1);
    }
    EncodingEnds(input, temp[..destIx], turn);
    output := temp[..destIx];
  }

  /** `out` holds the characters of the first `turn` groups, and the bytes from i on are left. */
  ghost predicate Encoding(input: seq<Byte>, out: string, i: nat, turn: nat) {
    && i <= |input| && |out| == 4 * turn
    && (if i < |input| then i == 3 * turn else turn == (|input| + 2) / 3)
    && out + Encode(input[i..]) == Encode(input)
  }

  lemma EncodingStarts(input: seq<Byte>)
    ensures Encoding(input, "", 0, 0)
  {
    assert input[0..] == input;
    assert "" + Encode(input) == Encode(input);
  }

  lemma TurnInBounds(input: seq<Byte>, out: string, i: nat, turn: nat)
    requires i < |input| && Encoding(input, out, i, turn)
    ensures 4 * turn + 4 <= (|input| + 2) / 3 * 4
  {
    TurnBound(|input|, turn);
  }

  lemma EncodingContinues(input: seq<Byte>, out: string, longer: string, i: nat, j: nat, turn: nat)
    requires i < |input| && Encoding(input, out, i, turn)
    requires j == if i + 3 < |input| then i + 3 else |input|
    requires |longer| == 4 * turn + 4 && longer[..4 * turn] == out
    requires forall k :: 0 <= k < 4 ==> longer[4 * turn + k] == Quad(input[i..])[k]
    ensures Encoding(input, longer, j, turn + 1)
  {
    var rest := input[i..];
    TurnBound(|input|, turn);
    assert longer[4 * turn..] == Quad(rest);
    hide Quad, Encode;
    EncodeTurn(out, longer, rest, Encode(input));
    assert input[j..] == if |rest| > 3 then rest[3..] else [];
  }

  lemma EncodingEnds(input: seq<Byte>, out: string, turn: nat)
    requires Encoding(input, out, |input|, turn)
    ensures out == Encode(input)
  {
    assert input[|input|..] == [];
    assert out + "" == out;
  }

  lemma TurnBound(len: nat, turn: nat)
    requires 3 * turn < len
    ensures turn < (len + 2) / 3 && (3 * turn + 3 >= len ==> turn + 1 == (len + 2) / 3)
  {
  }

  lemma EncodeTurn(done: string, longer: string, rest: seq<Byte>, all: string)
    requires rest != [] && done + Encode(rest) == all
    requires |longer| == |done| + 4 && longer[..|done|] == done && longer[|done|..] == Quad(rest)
    ensures longer + Encode(if |rest| > 3 then rest[3..] else []) == all
  {
    NextGroupFirst(rest);
    hide Quad, NextGroup, Encode;
    assert longer == done + Quad(rest);
    Associative(done, Quad(rest), Encode(if |rest| > 3 then rest[3..] else []));
  }

  // ---------------------------------------------------------------- decoding

  /** The number of trailing pads, counted up to three. */
  function Padding(s: string): (p: nat)
    ensures p <= 3 && p <= |s|
    ensures forall i :: |s| - p <= i < |s| ==> s[i] == PAD
  {
    var n := |s|;
    if n >= 1 && s[n - 1] == PAD then
      if n >= 2 && s[n - 2] == PAD then
        if n >= 3 && s[n - 3] == PAD then 3 else 2
      else 1
    else 0
  }

  /** A pad stands for zero bits. */
  function Bits(c: char): Sextet {
    if Value(c).Some? then Value(c).value else 0
  }

  /** The number that the characters write in base 64. */
  function Accum(s: string): nat {
    if s == "" then 0 else Accum(s[..|s| - 1]) * 64 + Bits(s[|s| - 1])
  }

  function Three(q: string): (b: seq<Byte>)
    requires |q| == 4
    ensures |b| == 3
  {
    [O0(Bits(q[0]), Bits(q[1])), O1(Bits(q[1]), Bits(q[2])), O2(Bits(q[2]), Bits(q[3]))]
  }

  /** The bytes that the code cuts from its accumulator. */
  function ThreeOf(n: nat): (b: seq<Byte>)
    ensures |b| == 3
  {
    [n / 0x10000 % 256, n / 0x100 % 256, n % 256]
  }

  function Raw(s: string): (b: seq<Byte>)
    requires |s| % 4 == 0
    ensures |b| == |s| / 4 * 3
  {
    if s == "" then [] else Three(s[..4]) + Raw(s[4..])
  }

  /** The length is a multiple of four, and pads occur only in the run that ends the text. */
  predicate Accepted(s: string) {
    |s| % 4 == 0 && GoodUpTo(s, |s|)
  }

  predicate GoodChar(s: string, i: nat)
    requires i < |s|
  {
    Value(s[i]).Some? || (s[i] == PAD && i >= |s| - Padding(s))
  }

  predicate GoodUpTo(s: string, n: nat)
    requires n <= |s|
  {
    forall i :: 0 <= i < n ==> GoodChar(s, i)
  }

  lemma GoodStep(s: string, i: nat)
    requires i < |s| && GoodUpTo(s, i)
    ensures GoodUpTo(s, i + 1) <==> GoodChar(s, i)
    ensures !GoodChar(s, i) ==> !Accepted(s)
  {
  }

  function OutLength(s: string): int {
    |s| / 4 * 3 - Padding(s)
  }

  function Decode(s: string): Option<seq<Byte>> {
    if Accepted(s) then Some(Raw(s)[..OutLength(s)]) else None
  }

  /** Digits, then `pads` pads. */
  predicate IsPaddedText(s: string, pads: nat) {
    && pads <= |s|
    && (forall i :: 0 <= i < |s| - pads ==> Value(s[i]).Some?)
    && (forall i :: |s| - pads <= i < |s| ==> s[i] == PAD)
  }

  /** Exactly the texts of whole groups that are digits and up to two pads are accepted, and each pad
      is one byte less. */
  lemma AcceptsPaddedTexts(s: string)
    requires Padding(s) <= 2
    ensures Decode(s).Some? <==> |s| % 4 == 0 && exists pads :: 0 <= pads <= 2 && IsPaddedText(s, pads)
    ensures Decode(s).Some? ==> IsPaddedText(s, Padding(s)) && |Decode(s).value| == |s| / 4 * 3 - Padding(s)
  {
    hide Raw;
    if Decode(s).Some? {
      forall i | 0 <= i < |s| - Padding(s)
        ensures Value(s[i]).Some?
      {
        assert GoodChar(s, i);
      }
      assert IsPaddedText(s, Padding(s));
    }
    if |s| % 4 == 0 && exists pads :: 0 <= pads <= 2 && IsPaddedText(s, pads) {
      var pads :| 0 <= pads <= 2 && IsPaddedText(s, pads);
      assert forall i :: 0 <= i < |s| - pads ==> s[i] != PAD;
      assert forall i :: 0 <= i < |s| ==> GoodChar(s, i);
    }
  }

  lemma BytesOf(n: int, b0: Byte, b1: Byte, b2: Byte)
    requires n == b0 * 0x10000 + b1 * 0x100 + b2
    ensures n / 0x10000 % 256 == b0 && n / 0x100 % 256 == b1 && n % 256 == b2
  {
    assert n / 0x100 == b0 * 0x100 + b1;
  }

  lemma AccumOfFour(q: string)
    requires |q| == 4
    ensures Accum(q) == ((Bits(q[0]) * 64 + Bits(q[1])) * 64 + Bits(q[2])) * 64 + Bits(q[3])
  {
    assert q[..1][..0] == "" && q[..2][..1] == q[..1] && q[..3][..2] == q[..2];
    assert Accum(q[..1]) == Bits(q[0]);
    assert Accum(q[..2]) == Accum(q[..1]) * 64 + Bits(q[1]);
    assert Accum(q[..3]) == Accum(q[..2]) * 64 + Bits(q[2]);
  }

  lemma AccumFour(q: string)
    requires |q| == 4
    ensures ThreeOf(Accum(q)) == Three(q)
  {
    AccumOfFour(q);
    hide Bits, Accum;
    OctetsWriteTheSextets(Bits(q[0]), Bits(q[1]), Bits(q[2]), Bits(q[3]));
    BytesOf(Accum(q), O0(Bits(q[0]), Bits(q[1])), O1(Bits(q[1]), Bits(q[2])), O2(Bits(q[2]), Bits(q[3])));
  }

  lemma AfterThree(a: seq<Byte>, b: seq<Byte>, i: nat)
    requires |a| == 3
    ensures (a + b)[..3] == a
    ensures i + 3 <= |b| ==> (a + b)[3 + i..3 + i + 3] == b[i..i + 3]
  {
  }

  lemma AfterFour(s: string, i: nat)
    requires 4 + i + 4 <= |s|
    ensures s[4..][i..i + 4] == s[4 + i..4 + i + 4]
  {
  }

  lemma {:induction false} RawGroup(s: string, g: nat)
    requires |s| % 4 == 0 && 4 * g + 4 <= |s|
    ensures Raw(s)[3 * g..3 * g + 3] == Three(s[4 * g..4 * g + 4])
    decreases g
  {
    hide Three;
    assert Raw(s) == Three(s[..4]) + Raw(s[4..]);
    AfterThree(Three(s[..4]), Raw(s[4..]), if g > 0 then 3 * (g - 1) else 0);
    if g > 0 {
      RawGroup(s[4..], g - 1);
      AfterFour(s, 4 * (g - 1));
    } else {
      assert s[0..4] == s[..4] && Raw(s)[0..3] == Raw(s)[..3];
    }
  }

  /** One group of four characters is complete: up to three bytes are written, the first of them
      without asking for room.  A store keeps the low eight bits. */
  method DecodeGroup(accum: nat, out: array<Byte>, at: nat) returns (j: nat)
    requires at < out.Length
    modifies out
    ensures j == if at + 3 <= out.Length then at + 3 else out.Length
    ensures out[at..j] == ThreeOf(accum)[..j - at] && out[..at] == old(out[..at])
  {
    j := at;
    out[j] := accum / 0x10000 % 256;
    j := j + 1;
    if j < out.Length {
      out[j] := accum / 0x100 % 256;
      j := j + 1;
    }
    if j < out.Length {
      out[j] := accum % 256;
      j := j + 1;
    }
  }

  /** The decoding loop.  The first store of a group is not guarded, so the text must not end in
      three pads; then every store is in bounds and exactly the reserved bytes are written. */
  method Base64Decode(s: string) returns (output: Option<seq<Byte>>)
    requires Padding(s) <= 2
    ensures output == Decode(s)
  {
    var n := |s|;
    if n % 4 != 0 {
      return None;
    }
    var padding := Padding(s);
    var outLen := n / 4 * 3 - padding;
    var out := new Byte[outLen];
    var j, accum: nat := 0, 0;
    ghost var g := 0;
    DecodingStarts(s, out[..]);
    hide Decoding, Written, Raw, Accum, Value, Padding, OutLength;
    for i := 0 to n
      invariant GoodUpTo(s, i)
      invariant Decoding(s, out[..], i, j, accum, g)
    {
      var ok, v := DecodeChar(s[i], i >= n - padding);
      GoodStep(s, i);
      if !ok {
        return None;
      }
      j, accum, g := AddSextet(s, i, v, out, j, accum, g);
    }
    DecodingEnds(s, out[..], j, accum, g);
    output := Some(out[..]);
  }

  /** The first g groups are written and the rest of s[..i] is in the accumulator. */
  ghost predicate Decoding(s: string, out: seq<Byte>, i: nat, j: nat, accum: nat, g: nat) {
    && |s| % 4 == 0 && 4 * g <= i <= |s| && i < 4 * g + 4
    && Written(s, out, j, g)
    && accum == Accum(s[4 * g..i]) < Power64(i - 4 * g)
  }

  lemma DecodingStarts(s: string, out: seq<Byte>)
    requires |s| % 4 == 0 && |out| == |s| / 4 * 3 - Padding(s)
    ensures Decoding(s, out, 0, 0, 0, 0)
  {
    assert s[0..0] == "" && out[..0] == Raw(s)[..0];
  }

  lemma DecodingEnds(s: string, out: seq<Byte>, j: nat, accum: nat, g: nat)
    requires Decoding(s, out, |s|, j, accum, g)
    ensures out == Raw(s)[..OutLength(s)]
  {
    hide Written, Raw, Accum, Power64, OutLength;
    AllGroups(|s|, g);
    WrittenAll(s, out, j);
  }

  lemma AllGroups(n: nat, g: nat)
    requires n % 4 == 0 && 4 * g <= n < 4 * g + 4
    ensures g == n / 4
  {
  }

  /** One turn of the loop, after the character has been recognised. */
  method AddSextet(ghost s: string, i: nat, v: Sextet, out: array<Byte>, at: nat, before: nat, ghost g: nat)
    returns (j: nat, accum: nat, ghost h: nat)
    requires Padding(s) <= 2 && i < |s| && v == Bits(s[i])
    requires Decoding(s, out[..], i, at, before, g)
    modifies out
    ensures Decoding(s, out[..], i + 1, j, accum, h)
  {
    AccumMore(s, i, g);
    hide Accum, Power64, Written, ThreeOf, Three, Padding, Bits;
    j, accum, h := at, before * 64 + v, g;
    if (i + 1) % 4 == 0 {
      j := StoreGroup(s, g, accum, out, at);
      accum, h := 0, g + 1;
      assert s[4 * h..i + 1] == "";
    }
  }

  lemma AccumMore(s: string, i: nat, g: nat)
    requires 4 * g <= i < |s| && i < 4 * g + 4 && Accum(s[4 * g..i]) < Power64(i - 4 * g)
    ensures Accum(s[4 * g..i + 1]) == Accum(s[4 * g..i]) * 64 + Bits(s[i]) < Power64(i + 1 - 4 * g)
    ensures (i + 1) % 4 == 0 <==> i == 4 * g + 3
    ensures i == 4 * g + 3 ==> ThreeOf(Accum(s[4 * g..i + 1])) == Three(s[4 * g..4 * g + 4])
  {
    var q := s[4 * g..i + 1];
    assert q[..|q| - 1] == s[4 * g..i] && q[|q| - 1] == s[i];
    AccumStep(q);
    GroupEnds(g, i - 4 * g);
    assert i == 4 * g + 3 ==> q == s[4 * g..4 * g + 4];
  }

  method DecodeChar(c: char, padAllowed: bool) returns (ok: bool, value: Sextet)
    ensures ok <==> Value(c).Some? || (c == PAD && padAllowed)
    ensures ok ==> value == Bits(c)
  {
    ok, value := true, 0;
    if 'A' <= c <= 'Z' {
      value := (c - 'A') as int;
    } else if 'a' <= c <= 'z' {
      value := 26 + (c - 'a') as int;
    } else if '0' <= c <= '9' {
      value := 52 + (c - '0') as int;
    } else if c == '+' {
      value := 62;
    } else if c == '/' {
      value := 63;
    } else if c != PAD || !padAllowed {
      ok := false;
    }
  }

  method StoreGroup(ghost s: string, ghost g: nat, accum: nat, out: array<Byte>, at: nat) returns (j: nat)
    requires |s| % 4 == 0 && 4 * g + 4 <= |s| && Padding(s) <= 2
    requires Written(s, out[..], at, g) && ThreeOf(accum) == Three(s[4 * g..4 * g + 4])
    modifies out
    ensures Written(s, out[..], j, g + 1)
  {
    ghost var before := out[..];
    GroupFits(|s|, Padding(s), g);
    j := DecodeGroup(accum, out, at);
    WrittenMore(s, before, out[..], g, j);
  }

  function Power64(k: nat): nat {
    if k == 0 then 1 else if k == 1 then 64 else if k == 2 then 0x1000 else if k == 3 then 0x40000 else 0x1000000
  }

  lemma AccumStep(q: string)
    requires 0 < |q| <= 4 && Accum(q[..|q| - 1]) < Power64(|q| - 1)
    ensures Accum(q) == Accum(q[..|q| - 1]) * 64 + Bits(q[|q| - 1]) < Power64(|q|)
    ensures |q| == 4 ==> ThreeOf(Accum(q)) == Three(q)
  {
    PowerStep(Accum(q[..|q| - 1]), Bits(q[|q| - 1]), |q| - 1);
    if |q| == 4 {
      AccumFour(q);
    }
  }

  lemma PowerStep(a: nat, v: Sextet, r: nat)
    requires r < 4 && a < Power64(r)
    ensures a * 64 + v < Power64(r + 1)
  {
  }

  lemma GroupEnds(g: nat, r: nat)
    requires r < 4
    ensures (4 * g + r + 1) % 4 == 0 <==> r == 3
  {
  }

  lemma GroupFits(n: nat, padding: nat, g: nat)
    requires n % 4 == 0 && padding <= 2 && 4 * g < n
    ensures 3 * g < n / 4 * 3 - padding
    ensures 3 * g + 3 <= n / 4 * 3 - padding || g + 1 == n / 4
  {
  }

  /** The first g groups have been decoded into `out`, as far as there is room. */
  ghost predicate Written(s: string, out: seq<Byte>, j: nat, g: nat)
    requires |s| % 4 == 0 && g <= |s| / 4
  {
    && |out| == OutLength(s)
    && j == (if 3 * g <= |out| then 3 * g else |out|)
    && out[..j] == Raw(s)[..j]
  }

  lemma WrittenMore(s: string, before: seq<Byte>, out: seq<Byte>, g: nat, j: nat)
    requires |s| % 4 == 0 && 4 * g + 4 <= |s| && Padding(s) <= 2
    requires Written(s, before, 3 * g, g) && 3 * g < |out| == |before| && out[..3 * g] == before[..3 * g]
    requires j == if 3 * g + 3 <= |out| then 3 * g + 3 else |out|
    requires out[3 * g..j] == Three(s[4 * g..4 * g + 4])[..j - 3 * g]
    ensures Written(s, out, j, g + 1)
  {
    RawGroup(s, g);
    hide Raw, Three;
    Glue(out, 3 * g, j, before[..3 * g], Three(s[4 * g..4 * g + 4])[..j - 3 * g]);
    Glue(Raw(s), 3 * g, j, before[..3 * g], Three(s[4 * g..4 * g + 4])[..j - 3 * g]);
  }

  lemma Glue(whole: seq<Byte>, i: nat, j: nat, first: seq<Byte>, second: seq<Byte>)
    requires i <= j <= |whole| && whole[..i] == first && whole[i..j] == second
    ensures whole[..j] == first + second
  {
  }

  lemma WrittenAll(s: string, out: seq<Byte>, j: nat)
    requires |s| % 4 == 0 && Written(s, out, j, |s| / 4)
    ensures out == Raw(s)[..OutLength(s)]
  {
    assert out[..j] == out;
  }

  // ---------------------------------------------------------------- round trips

  /** The text that encoding gives back: the last character before the padding loses the bits that
      no byte takes, two of them beside one pad and four beside two (section 3.5 of RFC 4648). */
  function Unused(s: string): nat {
    if Padding(s) == 0 then 1 else if Padding(s) == 1 then 4 else 16
  }

  predicate HasText(s: string) {
    s != "" && Padding(s) <= 2 && Padding(s) < |s|
  }

  function LastText(s: string): (i: nat)
    requires HasText(s)
    ensures i < |s|
  {
    |s| - 1 - Padding(s)
  }

  function Canonical(s: string): string {
    if HasText(s)
    then s[LastText(s) := Digit(Bits(s[LastText(s)]) / Unused(s) * Unused(s))]
    else s
  }

  lemma PaddingOfTail(q: string, r: string)
    requires |q| == 4 && |r| >= 4
    ensures Padding(q + r) == Padding(r)
  {
    var s := q + r;
    assert s[|s| - 1] == r[|r| - 1] && s[|s| - 2] == r[|r| - 2] && s[|s| - 3] == r[|r| - 3];
  }

  /** A group of four alphabet characters in front of more text is decoded on its own. */
  lemma DecodeCons(q: string, r: string)
    requires |q| == 4 && |r| >= 4 && |r| % 4 == 0 && Padding(r) <= 2
    requires AllDigits(q)
    ensures Accepted(q + r) <==> Accepted(r)
    ensures Accepted(r) ==> Decode(q + r) == Some(Three(q) + Decode(r).value)
  {
    var s := q + r;
    PaddingOfTail(q, r);
    assert s[..4] == q && s[4..] == r;
    assert forall i :: 0 <= i < |r| ==> (GoodChar(s, i + 4) <==> GoodChar(r, i));
    assert forall i :: 4 <= i < |s| ==> (GoodChar(s, i) <==> GoodChar(r, i - 4));
    if Accepted(r) {
      assert Raw(s) == Three(q) + Raw(r);
      assert Raw(s)[..OutLength(s)] == Three(q) + Raw(r)[..OutLength(r)];
    }
  }

  predicate AllDigits(q: string) {
    forall i :: 0 <= i < |q| ==> Value(q[i]).Some?
  }

  /** The group of digits for three bytes. */
  function Group(b0: Byte, b1: Byte, b2: Byte): (q: string)
    ensures |q| == 4
  {
    [Digit(S0(b0)), Digit(S1(b0, b1)), Digit(S2(b1, b2)), Digit(S3(b2))]
  }

  /** The four characters of a group write in base 64 the number that its three bytes write in
      base 256. */
  lemma GroupWritesTheNumber(b0: Byte, b1: Byte, b2: Byte)
    ensures Accum(Group(b0, b1, b2)) == b0 * 0x10000 + b1 * 0x100 + b2
  {
    var q := Group(b0, b1, b2);
    AccumOfFour(q);
    DigitValue(S0(b0));
    DigitValue(S1(b0, b1));
    DigitValue(S2(b1, b2));
    DigitValue(S3(b2));
    SextetsWriteTheBytes(b0, b1, b2);
  }

  lemma GroupRoundTrip(b0: Byte, b1: Byte, b2: Byte)
    ensures var q := Group(b0, b1, b2);
            && AllDigits(q) && Three(q) == [b0, b1, b2]
            && (b2 == 0 ==> Bits(q[3]) == 0) && (b1 == b2 == 0 ==> Bits(q[2]) == 0)
  {
    DigitValue(S0(b0));
    DigitValue(S1(b0, b1));
    DigitValue(S2(b1, b2));
    DigitValue(S3(b2));
    OctetsOfSextets(b0, b1, b2);
  }

  /** A last group of k + 1 digits, whose remaining digits would have been zero, and padding. */
  lemma DecodePadded(s: string, q: string, k: nat, b: seq<Byte>)
    requires 1 <= k <= 3 && |s| == |q| == 4 && AllDigits(q) && Three(q)[..k] == b
    requires forall i :: 0 <= i < 4 ==> s[i] == if i <= k then q[i] else PAD
    requires forall i :: k < i < 4 ==> Bits(q[i]) == 0
    ensures Padding(s) == 3 - k && Decode(s) == Some(b)
  {
    assert Bits(PAD) == 0;
    assert Three(s) == Three(q);
    assert forall i :: 0 <= i < 4 && s[i] == PAD ==> i > k;
    assert GoodChar(s, 0) && GoodChar(s, 1) && GoodChar(s, 2) && GoodChar(s, 3);
    RawFour(s);
    hide Three, Raw, Bits, Value, GoodChar;
  }

  lemma RawFour(s: string)
    requires |s| == 4
    ensures Raw(s) == Three(s)
  {
    assert s[..4] == s && s[4..] == "";
    assert Raw(s) == Three(s) + Raw("");
  }

  lemma DecodeShort(b: seq<Byte>)
    requires |b| <= 3
    ensures Padding(Encode(b)) <= 2 && Decode(Encode(b)) == Some(b)
  {
    hide S0, S1, S2, S3, O0, O1, O2, Digit, Value, Decode, Padding;
    var s := Encode(b);
    if |b| == 0 {
      DecodeEmpty();
    } else {
      var b1: Byte, b2: Byte := if |b| > 1 then b[1] else 0, if |b| > 2 then b[2] else 0;
      var q := Group(b[0], b1, b2);
      GroupRoundTrip(b[0], b1, b2);
      ShortGroup(b, q);
      DecodePadded(s, q, |b|, b);
    }
  }

  lemma ShortGroup(b: seq<Byte>, q: string)
    requires 1 <= |b| <= 3 && q == Group(b[0], if |b| > 1 then b[1] else 0, if |b| > 2 then b[2] else 0)
    ensures |Encode(b)| == 4 && forall i :: 0 <= i < 4 ==> Encode(b)[i] == if i <= |b| then q[i] else PAD
  {
    hide S0, S1, S2, S3, Digit;
    assert |b| == 3 ==> b[3..] == [];
  }

  lemma DecodeEmpty()
    ensures Padding("") == 0 && Decode("") == Some([])
  {
    assert Raw("")[..0] == [];
  }

  lemma EncodeLong(b: seq<Byte>)
    requires |b| > 3
    ensures Encode(b) == Group(b[0], b[1], b[2]) + Encode(b[3..])
  {
    hide Digit, S0, S1, S2, S3;
  }

  /** Decoding undoes encoding, for every byte string. */
  lemma {:induction false} DecodeUndoesEncode(b: seq<Byte>)
    ensures Padding(Encode(b)) <= 2 && Decode(Encode(b)) == Some(b)
    decreases |b|
  {
    if |b| <= 3 {
      DecodeShort(b);
    } else {
      DecodeUndoesEncode(b[3..]);
      EncodeLength(b[3..]);
      EncodeLong(b);
      assert b[..3] == [b[0], b[1], b[2]];
      GroupRoundTrip(b[0], b[1], b[2]);
      hide Group, Three, Decode, Padding, Encode, AllDigits;
      DecodeLong(b, Group(b[0], b[1], b[2]), Encode(b[3..]));
    }
  }

  lemma DecodeLong(b: seq<Byte>, q: string, r: string)
    requires |b| > 3 && |q| == 4 && AllDigits(q) && Three(q) == b[..3]
    requires |r| >= 4 && |r| % 4 == 0 && Padding(r) <= 2 && Decode(r) == Some(b[3..])
    ensures Padding(q + r) <= 2 && Decode(q + r) == Some(b)
  {
    PaddingOfTail(q, r);
    DecodeCons(q, r);
    assert b == b[..3] + b[3..];
  }

  lemma DigitsOfThree(q: string)
    requires |q| == 4 && AllDigits(q)
    ensures Group(Three(q)[0], Three(q)[1], Three(q)[2]) == q
  {
    SextetsOfOctets(Bits(q[0]), Bits(q[1]), Bits(q[2]), Bits(q[3]));
    ValueDigit(q[0]);
    ValueDigit(q[1]);
    ValueDigit(q[2]);
    ValueDigit(q[3]);
  }

  lemma DecodeFour(s: string)
    requires |s| == 4 && Accepted(s) && Padding(s) <= 2
    ensures Decode(s).value == Three(s)[..3 - Padding(s)]
    ensures forall i :: 0 <= i < 4 - Padding(s) ==> Value(s[i]).Some?
    ensures forall i :: 4 - Padding(s) <= i < 4 ==> s[i] == PAD
  {
    RawFour(s);
    assert GoodChar(s, 0) && GoodChar(s, 1) && GoodChar(s, 2) && GoodChar(s, 3);
    hide Raw, Three, Value;
  }

  lemma EncodeFull(s: string)
    requires |s| == 4 && Padding(s) == 0 && AllDigits(s)
    ensures Encode(Three(s)) == Canonical(s) == s
  {
    DigitsOfThree(s);
    ValueDigit(s[3]);
    hide Value, Digit, Bits, Three, Padding;
    EncodeGroup(Three(s)[0], Three(s)[1], Three(s)[2]);
    assert Three(s) == [Three(s)[0], Three(s)[1], Three(s)[2]];
    assert Canonical(s) == s[3 := s[3]];
  }

  lemma EncodeGroup(b0: Byte, b1: Byte, b2: Byte)
    ensures Encode([b0, b1, b2]) == Group(b0, b1, b2)
  {
    assert [b0, b1, b2][3..] == [];
    assert Encode([]) == "";
    assert Group(b0, b1, b2) + "" == Group(b0, b1, b2);
  }

  lemma EncodeShort(s: string)
    requires |s| == 4 && Accepted(s) && Padding(s) <= 2
    ensures Encode(Decode(s).value) == Canonical(s)
  {
    DecodeFour(s);
    hide Decode, Accepted, Three, Value, Encode, Canonical, Padding;
    if Padding(s) == 0 {
      assert Three(s)[..3] == Three(s);
      EncodeFull(s);
    } else if Padding(s) == 1 {
      EncodeTwo(s);
    } else {
      EncodeOne(s);
    }
  }

  /** One pad: two bytes, and two bits to spare in the third character. */
  lemma EncodeTwo(s: string)
    requires |s| == 4 && Accepted(s) && Padding(s) == 1
    ensures Encode(Three(s)[..2]) == Canonical(s)
  {
    assert GoodChar(s, 0) && GoodChar(s, 1) && GoodChar(s, 2);
    SextetsOfOctets(Bits(s[0]), Bits(s[1]), Bits(s[2]), 0);
    ValueDigit(s[0]);
    ValueDigit(s[1]);
  }

  /** Two pads: one byte, and four bits to spare in the second character. */
  lemma EncodeOne(s: string)
    requires |s| == 4 && Accepted(s) && Padding(s) == 2
    ensures Encode(Three(s)[..1]) == Canonical(s)
  {
    assert GoodChar(s, 0) && GoodChar(s, 1);
    SextetsOfOctets(Bits(s[0]), Bits(s[1]), 0, 0);
    ValueDigit(s[0]);
  }

  lemma CanonicalCons(q: string, r: string)
    requires |q| == 4 && |r| >= 4 && Padding(r) <= 2
    ensures Canonical(q + r) == q + Canonical(r)
  {
    PaddingOfTail(q, r);
    assert LastText(q + r) == 4 + LastText(r);
  }

  lemma {:induction false} EncodeUndoesDecode(s: string)
    requires Accepted(s) && Padding(s) <= 2
    ensures Encode(Decode(s).value) == Canonical(s)
    decreases |s|
  {
    if s == "" {
      assert Raw("")[..0] == [];
    } else if |s| == 4 {
      EncodeShort(s);
    } else {
      var q, r := s[..4], s[4..];
      assert s == q + r;
      PaddingOfTail(q, r);
      assert forall i :: 0 <= i < 4 ==> GoodChar(s, i) && q[i] == s[i];
      DecodeCons(q, r);
      EncodeUndoesDecode(r);
      DigitsOfThree(q);
      CanonicalCons(q, r);
      var b, y := Three(q), Decode(r).value;
      assert (b + y)[3..] == y;
    }
  }

  /** For every accepted text that does not end in three pads, encoding what was decoded changes at
      most the last character before the padding, and changes nothing exactly when the bits that no
      byte takes are zero. */
  lemma EncodeAfterDecode(s: string)
    requires Accepted(s) && Padding(s) <= 2
    ensures var t := Encode(Decode(s).value);
            && |t| == |s|
            && (forall i :: 0 <= i < |s| && i != |s| - 1 - Padding(s) ==> t[i] == s[i])
            && (t == s <==> s == "" || Bits(s[|s| - 1 - Padding(s)]) % Unused(s) == 0)
  {
    EncodeUndoesDecode(s);
    CanonicalChanges(s);
    hide Encode, Decode, Accepted, Canonical, Bits, Unused, Padding;
  }

  /** What clearing the unused bits changes. */
  lemma CanonicalChanges(s: string)
    requires Accepted(s) && Padding(s) <= 2
    ensures var t := Canonical(s);
            && |t| == |s|
            && (forall i :: 0 <= i < |s| && i != |s| - 1 - Padding(s) ==> t[i] == s[i])
            && (t == s <==> s == "" || Bits(s[|s| - 1 - Padding(s)]) % Unused(s) == 0)
  {
    assert s != "" ==> HasText(s);
    hide Accepted, Bits, Digit, Unused, Value;
    if s != "" {
      var i := LastText(s);
      LastIsDigit(s);
      UnusedIs(s);
      SameDigit(s[i], Unused(s));
      UpdateSame(s, i, Digit(Bits(s[i]) / Unused(s) * Unused(s)));
    }
  }

  lemma UpdateSame(s: string, i: nat, c: char)
    requires i < |s|
    ensures s[i := c] == s <==> c == s[i]
  {
    assert s[i := s[i]] == s;
  }

  lemma UnusedIs(s: string)
    ensures Unused(s) == 1 || Unused(s) == 4 || Unused(s) == 16
  {
  }

  lemma LastIsDigit(s: string)
    requires Accepted(s) && HasText(s)
    ensures Value(s[LastText(s)]).Some?
  {
    assert GoodChar(s, LastText(s));
  }

  /** Clearing the unused bits leaves a digit alone exactly when they are zero. */
  lemma SameDigit(c: char, unused: nat)
    requires Value(c).Some? && (unused == 1 || unused == 4 || unused == 16)
    ensures Digit(Bits(c) / unused * unused) == c <==> Bits(c) % unused == 0
  {
    var v := Bits(c);
    var cleared := v / unused * unused;
    ClearedIsSame(v, unused);
    ValueDigit(c);
    DigitValue(cleared);
    DigitValue(v);
    hide Digit, Value;
  }

  lemma ClearedIsSame(v: Sextet, unused: nat)
    requires unused == 1 || unused == 4 || unused == 16
    ensures v / unused * unused == v <==> v % unused == 0
  {
  }

  /** Text with unused bits that are not zero is accepted, and is not what the encoder writes. */
  lemma UnusedBitsAreLost()
    ensures Decode("QR==") == Some([65]) && Encode([65]) == "QQ=="
  {
    var s := "QR==";
    assert Padding(s) == 2 && Value('Q') == Some(16) && Value('R') == Some(17);
    assert Accepted(s);
    assert s[..4] == s && Raw(s[4..]) == [];
    assert Three(s)[0] == 65;
    assert Raw(s)[..1] == [65];
  }
}
