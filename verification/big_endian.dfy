/** Integers in network byte order: the two loops of base/big_endian.h and the cursors of
    base/big_endian.cc, for any width, signed or not. */
module BigEndian {
  import opened Basics

  type Byte = x: int | 0 <= x < 256

  /** An integer type of `width` bytes. */
  datatype Format = Format(width: nat, signed: bool)

  function Pow(w: nat): (p: nat)
    ensures p > 0
  {
    if w == 0 then 1 else 256 * Pow(w - 1)
  }

  function Low(f: Format): int
    requires f.width > 0
  {
    if f.signed then -128 * Pow(f.width - 1) else 0
  }

  predicate InRange(f: Format, v: int)
    requires f.width > 0
  {
    Low(f) <= v < Low(f) + Pow(f.width)
  }

  // ----- Meaning -----

  function Number(bytes: seq<Byte>): nat {
    if bytes == [] then 0 else Number(bytes[..|bytes| - 1]) * 256 + bytes[|bytes| - 1]
  }

  /** Two's complement: the first byte of a signed type carries the sign. */
  function Value(f: Format, bytes: seq<Byte>): int
    requires f.width > 0 && |bytes| == f.width
  {
    Number(bytes) - (if f.signed && bytes[0] >= 128 then Pow(f.width) else 0)
  }

  function Digits(v: int, w: nat): (bytes: seq<Byte>)
    ensures |bytes| == w
    decreases w
  {
    if w == 0 then [] else Digits(v / 256, w - 1) + [v % 256]
  }

  lemma {:induction false} NumberBounds(bytes: seq<Byte>)
    requires bytes != []
    ensures bytes[0] * Pow(|bytes| - 1) <= Number(bytes) < (bytes[0] + 1) * Pow(|bytes| - 1)
  {
    var n, first: int := |bytes|, bytes[0];
    if n == 1 {
      assert bytes[..n - 1] == [];
      assert Pow(n - 1) == 1;
    } else {
      assert bytes[..n - 1][0] == bytes[0];
      NumberBounds(bytes[..n - 1]);
      TimesPow(first, n - 1);
      TimesPow(first + 1, n - 1);
    }
  }

  lemma TimesPow(a: int, w: nat)
    requires w > 0
    ensures a * Pow(w) == 256 * (a * Pow(w - 1))
  {
  }

  lemma ValueInRange(f: Format, bytes: seq<Byte>)
    requires f.width > 0 && |bytes| == f.width
    ensures InRange(f, Value(f, bytes))
  {
    var p, first: int := Pow(f.width - 1), bytes[0];
    NumberBounds(bytes);
    Scale(0, first, p);
    Scale(first + 1, 256, p);
    if first >= 128 {
      Scale(128, first, p);
    } else {
      Scale(first + 1, 128, p);
    }
  }

  lemma Scale(a: int, b: int, p: nat)
    requires a <= b
    ensures a * p <= b * p
  {
  }

  lemma NumberOfDigits(v: int, w: nat)
    requires w > 0
    ensures Number(Digits(v, w)) == Number(Digits(v / 256, w - 1)) * 256 + v % 256
  {
    assert Digits(v, w)[..w - 1] == Digits(v / 256, w - 1);
  }

  lemma {:induction false} DigitsNumber(v: int, w: nat) returns (k: int)
    ensures v == Number(Digits(v, w)) + k * Pow(w)
    decreases w
  {
    if w == 0 {
      k := v;
    } else {
      k := DigitsNumber(v / 256, w - 1);
      NumberOfDigits(v, w);
      TimesPow(k, w);
      hide Digits, Number, Pow;
    }
  }

  /** Two numbers of one range that differ by a multiple of its length are equal. */
  lemma SameResidue(a: int, b: int, k: int, low: int, m: nat)
    requires low <= a < low + m && low <= b < low + m && a == b + k * m
    ensures k == 0 && a == b
  {
    if k >= 1 {
      Scale(1, k, m);
    } else if k <= -1 {
      Scale(k, -1, m);
    }
  }

  lemma ValueOfDigits(f: Format, v: int)
    requires f.width > 0 && InRange(f, v)
    ensures Value(f, Digits(v, f.width)) == v
  {
    var bytes := Digits(v, f.width);
    var k := DigitsNumber(v, f.width);
    ValueInRange(f, bytes);
    var borrow := if f.signed && bytes[0] >= 128 then 1 else 0;
    Distribute(k, borrow, Pow(f.width));
    SameResidue(v, Value(f, bytes), k + borrow, Low(f), Pow(f.width));
  }

  lemma {:induction false} DigitsOfNumber(bytes: seq<Byte>, k: int)
    ensures Digits(Number(bytes) + k * Pow(|bytes|), |bytes|) == bytes
  {
    var n := |bytes|;
    if n > 0 {
      var high, low := bytes[..n - 1], bytes[n - 1];
      TimesPow(k, n);
      var v := Number(bytes) + k * Pow(n);
      assert v == 256 * (Number(high) + k * Pow(n - 1)) + low;
      assert v / 256 == Number(high) + k * Pow(n - 1) && v % 256 == low;
      DigitsOfNumber(high, k);
      assert bytes == high + [low];
    }
  }

  lemma DigitsOfValue(f: Format, bytes: seq<Byte>)
    requires f.width > 0 && |bytes| == f.width
    ensures Digits(Value(f, bytes), f.width) == bytes
  {
    DigitsOfNumber(bytes, if f.signed && bytes[0] >= 128 then -1 else 0);
  }

  // ----- The loops -----

  /** Conversion of `x` to the type `f`: the one value of its range that differs from `x` by a
      multiple of `Pow(f.width)`. */
  function Convert(f: Format, x: int): (v: int)
    requires f.width > 0
    ensures InRange(f, v)
  {
    (x - Low(f)) % Pow(f.width) + Low(f)
  }

  lemma ConvertIs(f: Format, x: int, v: int, k: int)
    requires f.width > 0 && InRange(f, v) && x == v + k * Pow(f.width)
    ensures Convert(f, x) == v
  {
    var m := Pow(f.width);
    var q := (x - Low(f)) / m;
    Distribute(k, -q, m);
    SameResidue(Convert(f, x), v, k - q, Low(f), m);
  }

  /** A char is signed. */
  function AsChar(b: Byte): int {
    if b >= 128 then b - 256 else b
  }

  /** The bytes read so far, with the sign of the first one. */
  function Signed(bytes: seq<Byte>): int
    requires bytes != []
  {
    Number(bytes) - (if bytes[0] >= 128 then Pow(|bytes|) else 0)
  }

  lemma SignedOne(b: Byte)
    ensures Signed([b]) == AsChar(b)
  {
    assert [b][..|[b]| - 1] == [];
    assert Number([b]) == b;
    assert Pow(0) == 1 && Pow(1) == 256;
  }

  lemma SignedStep(bytes: seq<Byte>, b: Byte)
    requires bytes != []
    ensures Signed(bytes + [b]) == 256 * Signed(bytes) + b
  {
    assert (bytes + [b])[..|bytes|] == bytes;
  }

  lemma ConvertDiffers(f: Format, x: int) returns (k: int)
    requires f.width > 0
    ensures x == Convert(f, x) + k * Pow(f.width)
  {
    k := (x - Low(f)) / Pow(f.width);
  }

  /** One turn of the loop: the shift drops what leaves the type, and its low byte is then free. */
  lemma ShiftIn(f: Format, x: int, b: Byte)
    requires f.width > 1
    ensures Convert(f, 256 * Convert(f, x)) % 256 == 0
    ensures Convert(f, 256 * Convert(f, x)) + b == Convert(f, 256 * x + b)
  {
    var m, p := Pow(f.width), Pow(f.width - 1);
    assert m == 256 * p;
    var low := if f.signed then -128 * Pow(f.width - 2) else 0;
    assert Low(f) == 256 * low;
    var k := ConvertDiffers(f, x);
    var q := ConvertDiffers(f, 256 * Convert(f, x));
    var y, z := Convert(f, x), Convert(f, 256 * Convert(f, x));
    hide Convert, Pow, Low;
    TimesPow(q, f.width);
    FreeByte(z, y - q * p, low, p, b);
    Distribute(256 * k, q, m);
    ConvertIs(f, 256 * x + b, z + b, 256 * k + q);
  }

  lemma FreeByte(z: int, t: int, low: int, p: nat, b: Byte)
    requires z == 256 * t && 256 * low <= z < 256 * low + 256 * p
    ensures z % 256 == 0 && 256 * low <= z + b < 256 * low + 256 * p
  {
  }

  lemma SignedConverts(f: Format, bytes: seq<Byte>)
    requires f.width > 0 && |bytes| == f.width
    ensures Convert(f, Signed(bytes)) == Value(f, bytes)
  {
    ValueInRange(f, bytes);
    ConvertIs(f, Signed(bytes), Value(f, bytes), if !f.signed && bytes[0] >= 128 then -1 else 0);
  }

  method ReadBigEndian(buf: array<Byte>, ptr: nat, f: Format) returns (value: int)
    requires f.width > 0 && ptr + f.width <= buf.Length
    ensures value == Value(f, buf[ptr..ptr + f.width])
  {
    value := Convert(f, AsChar(buf[ptr]));
    ghost var bytes := buf[ptr..ptr + f.width];
    SignedOne(buf[ptr]);
    assert bytes[..1] == [buf[ptr]];
    for i := 1 to f.width
      invariant value == Convert(f, Signed(bytes[..i]))
    {
      ShiftIn(f, Signed(bytes[..i]), buf[ptr + i]);
      assert bytes[..i + 1] == bytes[..i] + [buf[ptr + i]];
      SignedStep(bytes[..i], buf[ptr + i]);
      value := Convert(f, value * 256);
      value := value + buf[ptr + i];
    }
    assert bytes[..f.width] == bytes;
    SignedConverts(f, bytes);
  }

  function Patch(memory: seq<Byte>, at: nat, bytes: seq<Byte>): (patched: seq<Byte>)
    requires at + |bytes| <= |memory|
    ensures |patched| == |memory|
  {
    memory[..at] + bytes + memory[at + |bytes|..]
  }

  lemma {:induction false} DigitsSplit(v: int, w: nat, i: nat, rest: int)
    requires i <= w && rest == Shifted(v, i)
    ensures Digits(v, w) == Digits(rest, w - i) + Digits(v, w)[w - i..]
    ensures i < w ==> Digits(v, w)[w - i - 1] == rest % 256
    decreases i
  {
    if i == 0 {
      assert Digits(v, w)[w..] == [];
    } else {
      DigitsSplit(v / 256, w - 1, i - 1, rest);
    }
  }

  function Shifted(v: int, i: nat): int
    decreases i
  {
    if i == 0 then v else Shifted(v / 256, i - 1)
  }

  lemma {:induction false} ShiftedStep(v: int, i: nat)
    ensures Shifted(v, i + 1) == Shifted(v, i) / 256
    decreases i
  {
    if i > 0 {
      ShiftedStep(v / 256, i - 1);
    }
  }

  method WriteBigEndian(buf: array<Byte>, ptr: nat, f: Format, value: int)
    requires f.width > 0 && ptr + f.width <= buf.Length
    modifies buf
    ensures buf[..] == Patch(old(buf[..]), ptr, Digits(value, f.width))
  {
    var val := value;
    ghost var before, digits := buf[..], Digits(value, f.width);
    for i := 0 to f.width
      invariant val == Shifted(value, i)
      invariant forall k :: 0 <= k < buf.Length ==>
                              buf[k] == if ptr + f.width - i <= k < ptr + f.width then digits[k - ptr] else before[k]
    {
      DigitsSplit(value, f.width, i, val);
      ShiftedStep(value, i);
      buf[ptr + f.width - i - 1] := val % 256;
      val := val / 256;
    }
    assert buf[..] == Patch(before, ptr, digits);
  }
}
