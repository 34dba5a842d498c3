/** The little-endian loads and stores of outheader/my_byteorder.h and outheader/byte_order_generic.h.
    Shifts of unsigned values are divisions and multiplications by powers of two, and every
    conversion to a narrower C type is written as a remainder. */
module ByteOrder {
  import opened Bytes

  const TWO_TO_8: int := 0x100
  const TWO_TO_16: int := 0x1_0000
  const TWO_TO_24: int := 0x100_0000
  const TWO_TO_32: int := 0x1_0000_0000
  const TWO_TO_40: int := 0x100_0000_0000
  const TWO_TO_48: int := 0x1_0000_0000_0000
  const TWO_TO_64: int := 0x1_0000_0000_0000_0000

  function U32(x: nat): nat { x % TWO_TO_32 }

  function U64(x: nat): nat { x % TWO_TO_64 }

  /** The C conversion to a two's complement type with 2 * half values. */
  function Signed(u: nat, half: nat): int
    requires u < 2 * half
  {
    if u < half then u else u - 2 * half
  }

  // ----- The reference: base-256 numerals, low octet first -----

  function Pow256(n: nat): (p: nat)
    ensures p > 0
  {
    if n == 0 then 1 else 256 * Pow256(n - 1)
  }

  function Value(a: bytes): nat {
    if a == [] then 0 else a[0] + 256 * Value(a[1..])
  }

  function Digits(v: nat, n: nat): (d: bytes)
    ensures |d| == n
  {
    if n == 0 then [] else [v % 256] + Digits(v / 256, n - 1)
  }

  lemma {:induction false} ValueBelow(a: bytes)
    ensures Value(a) < Pow256(|a|)
  {
    if a != [] {
      ValueBelow(a[1..]);
    }
  }

  lemma SplitRemainder(v: nat, p: nat)
    requires p > 0
    ensures v % (256 * p) == v % 256 + 256 * (v / 256 % p)
  {
    var q, r := v / 256, v % 256;
    var hi, lo := q / p, q % p;
    assert v == hi * (256 * p) + (256 * lo + r) by {
      assert q == hi * p + lo;
      assert hi * (256 * p) == 256 * (hi * p);
    }
    RemainderUnique(v, 256 * p, hi, 256 * lo + r);
  }

  lemma RemainderUnique(v: nat, m: nat, q: nat, r: nat)
    requires v == q * m + r && r < m
    ensures v % m == r
  {
    var d := v / m - q;
    assert v == (v / m) * m + v % m;
    assert d * m == r - v % m by {
      assert d * m == (v / m) * m - q * m;
    }
    MulBounds(d, m);
  }

  lemma MulBounds(d: int, m: nat)
    ensures d >= 1 ==> d * m >= m
    ensures d <= -1 ==> d * m + m <= 0
  {
    if d >= 1 {
      assert d * m == (d - 1) * m + m;
    } else if d <= -1 {
      assert d * m + m == (d + 1) * m;
    }
  }

  lemma {:induction false} ValueOfDigits(v: nat, n: nat)
    ensures Value(Digits(v, n)) == v % Pow256(n)
  {
    if n > 0 {
      var d := Digits(v, n);
      assert d[1..] == Digits(v / 256, n - 1);
      ValueOfDigits(v / 256, n - 1);
      SplitRemainder(v, Pow256(n - 1));
    }
  }

  lemma {:induction false} DigitsOfValue(a: bytes)
    ensures Digits(Value(a), |a|) == a
  {
    if a != [] {
      DigitsOfValue(a[1..]);
      assert Value(a) % 256 == a[0] && Value(a) / 256 == Value(a[1..]);
    }
  }

  /** Two octet strings of one length with the same value are the same string. */
  lemma ValueInjective(a: bytes, b: bytes)
    requires |a| == |b| && Value(a) == Value(b)
    ensures a == b
  {
    DigitsOfValue(a);
    DigitsOfValue(b);
  }

  // ----- Bitwise or, which sint3korr uses to join its fields -----

  function BitOr(x: nat, y: nat): nat
    decreases x + y
  {
    if x == 0 && y == 0 then 0
    else 2 * BitOr(x / 2, y / 2) + (if x % 2 == 1 || y % 2 == 1 then 1 else 0)
  }

  function Pow2(k: nat): nat {
    if k == 0 then 1 else 2 * Pow2(k - 1)
  }

  lemma {:induction false} OrWithZero(x: nat)
    ensures BitOr(x, 0) == x && BitOr(0, x) == x
  {
    if x > 0 {
      OrWithZero(x / 2);
    }
  }

  lemma OrOfEven(half: nat, low: nat)
    ensures BitOr(2 * half, low) == 2 * BitOr(half, low / 2) + low % 2
  {
  }

  lemma ProductsAssociate(a: nat, b: nat, c: nat)
    ensures a * (b * c) == b * (a * c) == (b * a) * c
  {
  }

  /** Fields that share no bit are joined by or exactly as by addition. */
  lemma {:induction false} OrIsSum(low: nat, high: nat, k: nat)
    requires low < Pow2(k)
    ensures BitOr(high * Pow2(k), low) == high * Pow2(k) + low
    decreases k
  {
    if k == 0 {
      OrWithZero(high);
    } else {
      var half := high * Pow2(k - 1);
      ProductsAssociate(high, 2, Pow2(k - 1));
      assert high * Pow2(k) == 2 * half;
      OrIsSum(low / 2, high, k - 1);
      hide Pow2, BitOr;
      OrOfEven(half, low);
    }
  }

  // ----- Loads -----

  function Uint2Korr(a: bytes): (r: nat)
    requires |a| >= 2
    ensures r == Value(a[..2])
  {
    Unfold2(a[..2]);
    (a[0] + a[1] * TWO_TO_8) % TWO_TO_16
  }

  function Uint3Korr(a: bytes): (r: nat)
    requires |a| >= 3
    ensures r == Value(a[..3])
  {
    Unfold3(a[..3]);
    U32(a[0] + U32(a[1] * TWO_TO_8) + U32(a[2] * TWO_TO_16))
  }

  function Uint4Korr(a: bytes): (r: nat)
    requires |a| >= 4
    ensures r == Value(a[..4]) && r < TWO_TO_32
  {
    Load4(a);
    U32(a[0] + U32(a[1] * TWO_TO_8) + U32(a[2] * TWO_TO_16) + U32(a[3] * TWO_TO_24))
  }

  function Uint5Korr(a: bytes): (r: nat)
    requires |a| >= 5
    ensures r == Value(a[..5])
  {
    Load5(a);
    U64(Uint4Korr(a) + U64(a[4] * TWO_TO_32))
  }

  function Uint6Korr(a: bytes): (r: nat)
    requires |a| >= 6
    ensures r == Value(a[..6])
  {
    Load6(a);
    U64(U64(Uint4Korr(a) + U64(a[4] * TWO_TO_32)) + U64(a[5] * TWO_TO_40))
  }

  function Uint8Korr(a: bytes): (r: nat)
    requires |a| >= 8
    ensures r == Value(a[..8])
  {
    Load8(a);
    U64(Uint4Korr(a) + U64(Uint4Korr(a[4..]) * TWO_TO_32))
  }

  lemma Load4(a: bytes)
    requires |a| >= 4
    ensures U32(a[0] + U32(a[1] * TWO_TO_8) + U32(a[2] * TWO_TO_16) + U32(a[3] * TWO_TO_24)) == Value(a[..4])
  {
    hide Value;
    Unfold4(a[..4]);
    Sum4(a[0], a[1], a[2], a[3]);
  }

  lemma Sum4(a: byte, b: byte, c: byte, d: byte)
    ensures U32(a + U32(b * TWO_TO_8) + U32(c * TWO_TO_16) + U32(d * TWO_TO_24))
         == a + b * TWO_TO_8 + c * TWO_TO_16 + d * TWO_TO_24
  {
  }

  lemma Load5(a: bytes)
    requires |a| >= 5
    ensures U64(Uint4Korr(a) + U64(a[4] * TWO_TO_32)) == Value(a[..5])
  {
    SplitAt4(a, 5);
    Unfold1(a[4..5]);
    hide Value, Uint4Korr;
  }

  lemma Load6(a: bytes)
    requires |a| >= 6
    ensures U64(U64(Uint4Korr(a) + U64(a[4] * TWO_TO_32)) + U64(a[5] * TWO_TO_40)) == Value(a[..6])
  {
    hide Value, Uint4Korr;
    SplitAt4(a, 6);
    Unfold2(a[4..6]);
    Sum6(Uint4Korr(a), a[4], a[5]);
  }

  lemma Sum6(low: nat, x: byte, y: byte)
    requires low < TWO_TO_32
    ensures U64(U64(low + U64(x * TWO_TO_32)) + U64(y * TWO_TO_40)) == low + TWO_TO_32 * (x + y * TWO_TO_8)
  {
  }

  lemma Load8(a: bytes)
    requires |a| >= 8
    ensures U64(Uint4Korr(a) + U64(Uint4Korr(a[4..]) * TWO_TO_32)) == Value(a[..8])
  {
    hide Value, Uint4Korr;
    SplitAt4(a, 8);
    assert a[4..][..4] == a[4..8];
  }

  lemma Unfold1(a: bytes)
    requires |a| == 1
    ensures Value(a) == a[0]
  {
  }

  lemma Unfold2(a: bytes)
    requires |a| == 2
    ensures Value(a) == a[0] + a[1] * TWO_TO_8
  {
    Unfold1(a[1..]);
  }

  lemma Unfold3(a: bytes)
    requires |a| == 3
    ensures Value(a) == a[0] + a[1] * TWO_TO_8 + a[2] * TWO_TO_16
  {
    Unfold2(a[1..]);
  }

  lemma Unfold4(a: bytes)
    requires |a| == 4
    ensures Value(a) == a[0] + a[1] * TWO_TO_8 + a[2] * TWO_TO_16 + a[3] * TWO_TO_24
  {
    Unfold3(a[1..]);
  }

  lemma {:induction false} ValueSplit(a: bytes, k: nat)
    requires k <= |a|
    ensures Value(a) == Value(a[..k]) + Pow256(k) * Value(a[k..])
  {
    if k == 0 {
      assert a[0..] == a;
    } else {
      ValueSplit(a[1..], k - 1);
      assert a[1..][..k - 1] == a[..k][1..] && a[1..][k - 1..] == a[k..];
      ProductsAssociate(256, Pow256(k - 1), Value(a[k..]));
    }
  }

  lemma SplitAt4(a: bytes, n: nat)
    requires 4 <= n <= |a|
    ensures Value(a[..n]) == Value(a[..4]) + TWO_TO_32 * Value(a[4..n])
  {
    ValueSplit(a[..n], 4);
    assert a[..n][..4] == a[..4] && a[..n][4..] == a[4..n];
    Powers256();
  }

  function Sint2Korr(a: bytes): (r: int)
    requires |a| >= 2
    ensures -0x8000 <= r < 0x8000 && r % TWO_TO_16 == Value(a[..2])
  {
    ValueBelow(a[..2]);
    Powers256();
    Signed(Uint2Korr(a), 0x8000)
  }

  function Sint4Korr(a: bytes): (r: int)
    requires |a| >= 4
    ensures -0x8000_0000 <= r < 0x8000_0000 && r % TWO_TO_32 == Value(a[..4])
  {
    Signed(Uint4Korr(a), 0x8000_0000)
  }

  function Sint8Korr(a: bytes): (r: int)
    requires |a| >= 8
    ensures -0x8000_0000_0000_0000 <= r < 0x8000_0000_0000_0000 && r % TWO_TO_64 == Value(a[..8])
  {
    ValueBelow(a[..8]);
    Powers256();
    Signed(Uint8Korr(a), 0x8000_0000_0000_0000)
  }

  /** The three octets joined by or, with the top octet all ones when the sign bit is set. */
  function Sint3Korr(a: bytes): int
    requires |a| >= 3
  {
    var low := BitOr(a[1] * TWO_TO_8, a[0]);
    var magnitude := BitOr(a[2] * TWO_TO_16, low);
    if a[2] / 128 % 2 == 1 then Signed(U32(BitOr(255 * TWO_TO_24, magnitude)), 0x8000_0000)
    else Signed(U32(magnitude), 0x8000_0000)
  }

  lemma Sint3IsTwosComplement(a: bytes)
    requires |a| >= 3
    ensures Uint3Korr(a) < TWO_TO_24
    ensures Sint3Korr(a) == Signed(Uint3Korr(a), 0x80_0000)
    ensures Sint3Korr(a) % TWO_TO_24 == Uint3Korr(a)
  {
    OrOfFields(a);
    SignExtend(Uint3Korr(a), a[2]);
  }

  lemma SignExtend(u: nat, top: byte)
    requires 128 * TWO_TO_16 * (top / 128) <= u < 128 * TWO_TO_16 * (top / 128 + 1)
    ensures u < TWO_TO_24
    ensures Signed(u, 0x80_0000) % TWO_TO_24 == u
    ensures Signed(u, 0x80_0000)
         == Signed(U32(if top / 128 % 2 == 1 then 255 * TWO_TO_24 + u else u), 0x8000_0000)
  {
  }

  lemma OrOfFields(a: bytes)
    requires |a| >= 3
    ensures BitOr(a[2] * TWO_TO_16, BitOr(a[1] * TWO_TO_8, a[0])) == Uint3Korr(a)
    ensures 128 * TWO_TO_16 * (a[2] / 128) <= Uint3Korr(a) < 128 * TWO_TO_16 * (a[2] / 128 + 1)
    ensures BitOr(255 * TWO_TO_24, Uint3Korr(a)) == 255 * TWO_TO_24 + Uint3Korr(a)
  {
    Powers2();
    Unfold3(a[..3]);
    hide BitOr, Value, Pow2;
    var low := a[1] * TWO_TO_8 + a[0];
    OrIsSum(a[0], a[1], 8);
    assert BitOr(a[1] * TWO_TO_8, a[0]) == low < TWO_TO_16;
    OrIsSum(low, a[2], 16);
    OrIsSum(Uint3Korr(a), 255, 24);
  }

  lemma Powers2()
    ensures Pow2(8) == TWO_TO_8 && Pow2(16) == TWO_TO_16 && Pow2(24) == TWO_TO_24
  {
    assert Pow2(4) == 16;
    assert Pow2(8) == 16 * Pow2(4);
    assert Pow2(12) == 16 * Pow2(8);
    assert Pow2(16) == 16 * Pow2(12);
    assert Pow2(20) == 16 * Pow2(16);
    assert Pow2(24) == 16 * Pow2(20);
  }

  // ----- Stores -----

  /** What `t` holds after the octets `d` were written at offset `at`. */
  function Overwritten(t: bytes, at: nat, d: bytes): (r: bytes)
    requires at + |d| <= |t|
  {
    t[..at] + d + t[at + |d|..]
  }

  method Int2Store(t: array<byte>, at: nat, a: nat)
    requires at + 2 <= t.Length && a < TWO_TO_16
    modifies t
    ensures t[..] == Overwritten(old(t[..]), at, Digits(a, 2))
  {
    hide Digits;
    DigitsUnfold(a);
    t[at] := a % 256;
    t[at + 1] := a / TWO_TO_8 % 256;
  }

  method Int3Store(t: array<byte>, at: nat, a: nat)
    requires at + 3 <= t.Length && a < TWO_TO_32
    modifies t
    ensures t[..] == Overwritten(old(t[..]), at, Digits(a, 3))
  {
    hide Digits;
    DigitsUnfold(a);
    t[at] := a % 256;
    t[at + 1] := a / TWO_TO_8 % 256;
    t[at + 2] := a / TWO_TO_16 % 256;
  }

  method Int4Store(t: array<byte>, at: nat, a: nat)
    requires at + 4 <= t.Length && a < TWO_TO_32
    modifies t
    ensures t[..] == Overwritten(old(t[..]), at, Digits(a, 4))
  {
    hide Digits;
    DigitsUnfold(a);
    t[at] := a % 256;
    t[at + 1] := a / TWO_TO_8 % 256;
    t[at + 2] := a / TWO_TO_16 % 256;
    t[at + 3] := a / TWO_TO_24 % 256;
  }

  method Int5Store(t: array<byte>, at: nat, a: nat)
    requires at + 5 <= t.Length && a < TWO_TO_64
    modifies t
    ensures t[..] == Overwritten(old(t[..]), at, Digits(a, 5))
  {
    hide Digits;
    DigitsUnfold(a);
    DigitsUnfoldHigh(a);
    t[at] := a % 256;
    t[at + 1] := a / TWO_TO_8 % 256;
    t[at + 2] := a / TWO_TO_16 % 256;
    t[at + 3] := a / TWO_TO_24 % 256;
    t[at + 4] := a / TWO_TO_32 % 256;
  }

  method Int6Store(t: array<byte>, at: nat, a: nat)
    requires at + 6 <= t.Length && a < TWO_TO_64
    modifies t
    ensures t[..] == Overwritten(old(t[..]), at, Digits(a, 6))
  {
    hide Digits;
    DigitsUnfold(a);
    DigitsUnfoldHigh(a);
    t[at] := a % 256;
    t[at + 1] := a / TWO_TO_8 % 256;
    t[at + 2] := a / TWO_TO_16 % 256;
    t[at + 3] := a / TWO_TO_24 % 256;
    t[at + 4] := a / TWO_TO_32 % 256;
    t[at + 5] := a / TWO_TO_40 % 256;
  }

  /** Written as two 32-bit halves. */
  method Int8Store(t: array<byte>, at: nat, a: nat)
    requires at + 8 <= t.Length && a < TWO_TO_64
    modifies t
    ensures t[..] == Overwritten(old(t[..]), at, Digits(a, 8))
  {
    hide Digits;
    Int4Store(t, at, U32(a));
    Int4Store(t, at + 4, U32(a / TWO_TO_32));
    DigitsHalves(a, 4);
  }

  lemma DigitsUnfold(a: nat)
    ensures Digits(a, 2) == [a % 256, a / TWO_TO_8 % 256]
    ensures Digits(a, 3) == Digits(a, 2) + [a / TWO_TO_16 % 256]
    ensures Digits(a, 4) == Digits(a, 3) + [a / TWO_TO_24 % 256]
  {
    assert a / 256 / 256 == a / TWO_TO_16;
    assert a / TWO_TO_16 / 256 == a / TWO_TO_24;
    DigitsSnoc(a, 1);
    DigitsSnoc(a, 2);
    DigitsSnoc(a, 3);
    assert Digits(a, 1) == [a % 256];
    Powers256();
  }

  lemma DigitsUnfoldHigh(a: nat)
    ensures Digits(a, 5) == Digits(a, 4) + [a / TWO_TO_32 % 256]
    ensures Digits(a, 6) == Digits(a, 5) + [a / TWO_TO_40 % 256]
  {
    DigitsSnoc(a, 4);
    DigitsSnoc(a, 5);
    Powers256();
  }

  /** The next higher octet of a numeral. */
  lemma {:induction false} DigitsSnoc(a: nat, n: nat)
    ensures Digits(a, n + 1) == Digits(a, n) + [a / Pow256(n) % 256]
  {
    if n > 0 {
      DigitsSnoc(a / 256, n - 1);
      DivideTwice(a, Pow256(n - 1));
    }
  }

  lemma DivideTwice(a: nat, p: nat)
    requires p > 0
    ensures a / 256 / p == a / (256 * p)
  {
    SplitRemainder(a, p);
    var m := 256 * p;
    var x, y := a / 256 / p, a / m;
    assert a == m * y + a % m;
    assert a / 256 == p * x + a / 256 % p;
    assert a == 256 * (a / 256) + a % 256;
    assert a == 256 * (p * x) + a % m;
    assert 256 * (p * x) == m * x;
    assert m * x == m * y;
    assert (y - x) * m == 0;
    MulBounds(y - x, m);
  }

  lemma DigitsHalves(a: nat, n: nat)
    requires a < TWO_TO_64 && n == 4
    ensures Digits(a, n + n) == Digits(U32(a), n) + Digits(U32(a / TWO_TO_32), n)
  {
    hide Digits, Value, Pow256;
    var low, high := Digits(U32(a), n), Digits(U32(a / TWO_TO_32), n);
    Powers256();
    DigitsBelow(U32(a), n);
    DigitsBelow(U32(a / TWO_TO_32), n);
    SplitAt4(low + high, n + n);
    assert (low + high)[..n] == low && (low + high)[n..n + n] == high && (low + high)[..n + n] == low + high;
    DigitsOfValue(low + high);
  }

  lemma DigitsBelow(a: nat, n: nat)
    requires a < Pow256(n)
    ensures Value(Digits(a, n)) == a
  {
    hide Digits, Value, Pow256;
    ValueOfDigits(a, n);
  }

  // ----- The laws of the family -----

  /** Loading what was stored gives the value back, reduced to the octets stored. */
  lemma LoadAfterStore(a: nat)
    ensures Uint2Korr(Digits(a, 2)) == a % TWO_TO_16
    ensures Uint3Korr(Digits(a, 3)) == a % TWO_TO_24
    ensures Uint4Korr(Digits(a, 4)) == a % TWO_TO_32
    ensures Uint5Korr(Digits(a, 5)) == a % TWO_TO_40
    ensures Uint6Korr(Digits(a, 6)) == a % TWO_TO_48
    ensures Uint8Korr(Digits(a, 8)) == a % TWO_TO_64
  {
    Powers256();
    ValueOfDigits(a, 2);
    ValueOfDigits(a, 3);
    ValueOfDigits(a, 4);
    ValueOfDigits(a, 5);
    ValueOfDigits(a, 6);
    ValueOfDigits(a, 8);
    TakeAll(Digits(a, 2));
    TakeAll(Digits(a, 3));
    TakeAll(Digits(a, 4));
    TakeAll(Digits(a, 5));
    TakeAll(Digits(a, 6));
    TakeAll(Digits(a, 8));
  }

  lemma TakeAll(a: bytes)
    ensures a[..|a|] == a
  {
  }

  lemma Powers256()
    ensures Pow256(1) == TWO_TO_8 && Pow256(2) == TWO_TO_16 && Pow256(3) == TWO_TO_24 && Pow256(4) == TWO_TO_32
    ensures Pow256(5) == TWO_TO_40 && Pow256(6) == TWO_TO_48 && Pow256(8) == TWO_TO_64
  {
    assert Pow256(4) == TWO_TO_16 * Pow256(2);
    assert Pow256(6) == TWO_TO_16 * Pow256(4);
    assert Pow256(8) == TWO_TO_16 * Pow256(6);
  }

  /** Storing what was loaded gives the octets back. */
  lemma StoreAfterLoad(a: bytes)
    ensures |a| >= 2 ==> Digits(Uint2Korr(a), 2) == a[..2]
    ensures |a| >= 3 ==> Digits(Uint3Korr(a), 3) == a[..3]
    ensures |a| >= 4 ==> Digits(Uint4Korr(a), 4) == a[..4]
    ensures |a| >= 5 ==> Digits(Uint5Korr(a), 5) == a[..5]
    ensures |a| >= 6 ==> Digits(Uint6Korr(a), 6) == a[..6]
    ensures |a| >= 8 ==> Digits(Uint8Korr(a), 8) == a[..8]
  {
    DigitsOfPrefix(a, 2);
    DigitsOfPrefix(a, 3);
    DigitsOfPrefix(a, 4);
    DigitsOfPrefix(a, 5);
    DigitsOfPrefix(a, 6);
    DigitsOfPrefix(a, 8);
  }

  lemma DigitsOfPrefix(a: bytes, n: nat)
    ensures n <= |a| ==> Digits(Value(a[..n]), n) == a[..n]
  {
    if n <= |a| {
      DigitsOfValue(a[..n]);
    }
  }

  const EIGHT_SPACES: bytes := [32, 32, 32, 32, 32, 32, 32, 32]

  /** The test on which the fast trimmer rests. */
  lemma EightSpacesTest(a: bytes)
    requires |a| == 8
    ensures Uint8Korr(a) == 0x2020_2020_2020_2020 <==> a == EIGHT_SPACES
  {
    TakeAll(a);
    EightSpacesValue();
    if Uint8Korr(a) == 0x2020_2020_2020_2020 {
      ValueInjective(a, EIGHT_SPACES);
    }
  }

  lemma EightSpacesValue()
    ensures Value(EIGHT_SPACES) == 0x2020_2020_2020_2020
  {
    ValueSplit(EIGHT_SPACES, 4);
    var four: bytes := [32, 32, 32, 32];
    assert EIGHT_SPACES[..4] == four && EIGHT_SPACES[4..] == four;
    Unfold4(four);
    Powers256();
  }
}
