/** Audit identifiers (`src/log/ulid.go`): 48 bits of time and 80 of randomness, packed
    by hand into 26 Crockford base-32 digits. */
module Ulid {
  import opened Strings

  const CROCKFORD := "0123456789ABCDEFGHJKMNPQRSTVWXYZ"

  /** Crockford's alphabet leaves out I, L, O and U, and ascends. */
  function Symbol(d: nat): char
    requires d < 32
  {
    if d < 10 then '0' + (d as char)
    else if d < 18 then 'A' + ((d - 10) as char)
    else if d < 20 then 'J' + ((d - 18) as char)
    else if d < 22 then 'M' + ((d - 20) as char)
    else if d < 27 then 'P' + ((d - 22) as char)
    else 'V' + ((d - 27) as char)
  }

  lemma SymbolIsCrockford(d: nat)
    requires d < 32
    ensures |CROCKFORD| == 32 && Symbol(d) == CROCKFORD[d]
  {}

  lemma SymbolsAscend(d: nat, e: nat)
    requires d < 32 && e < 32
    ensures Symbol(d) < Symbol(e) <==> d < e
    ensures Symbol(d) == Symbol(e) <==> d == e
  {}

  // --- The packing ---

  /** Five bytes into eight digits. */
  function Five(a: bv8, b: bv8, c: bv8, d: bv8, e: bv8): seq<bv8> {
    [(a & 248) >> 3,
     ((a & 7) << 2) | ((b & 192) >> 6),
     (b & 62) >> 1,
     ((b & 1) << 4) | ((c & 240) >> 4),
     ((c & 15) << 1) | ((d & 128) >> 7),
     (d & 124) >> 2,
     ((d & 3) << 3) | ((e & 224) >> 5),
     e & 31]
  }

  /** The two digits of the first byte. */
  function FirstTwo(a: bv8): seq<bv8> {
    [(a & 224) >> 5, a & 31]
  }

  /** All sixteen bytes into 26 digits: the first byte gives two, each five after it eight. */
  function Digits(b: seq<bv8>): seq<bv8>
    requires |b| == 16
  {
    FirstTwo(b[0]) + Five(b[1], b[2], b[3], b[4], b[5]) +
    Five(b[6], b[7], b[8], b[9], b[10]) + Five(b[11], b[12], b[13], b[14], b[15])
  }

  // --- Bytes as numbers ---

  function Bit(b: bv8, mask: bv8): nat {
    if b & mask != 0 then 1 else 0
  }

  /** The number a byte stands for. */
  function Number(b: bv8): nat {
    128 * Bit(b, 128) + 64 * Bit(b, 64) + 32 * Bit(b, 32) + 16 * Bit(b, 16) +
    8 * Bit(b, 8) + 4 * Bit(b, 4) + 2 * Bit(b, 2) + Bit(b, 1)
  }

  function Each<T>(f: bv8 -> T, bytes: seq<bv8>): (r: seq<T>)
    ensures |r| == |bytes| && forall i | 0 <= i < |r| :: r[i] == f(bytes[i])
  {
    seq(|bytes|, i requires 0 <= i < |bytes| => f(bytes[i]))
  }

  function Numbers(bytes: seq<bv8>): seq<nat> {
    Each(Number, bytes)
  }

  lemma EachConcat(f: bv8 -> nat, a: seq<bv8>, b: seq<bv8>)
    ensures Each(f, a + b) == Each(f, a) + Each(f, b)
  {}

  lemma EachOfFive(f: bv8 -> nat, a: bv8, b: bv8, c: bv8, d: bv8, e: bv8)
    ensures Each(f, [a, b, c, d, e]) == [f(a), f(b), f(c), f(d), f(e)]
  {}

  lemma EachOfEight(f: bv8 -> nat, x: seq<bv8>, n: seq<nat>)
    requires |x| == 8 && |n| == 8
    requires f(x[0]) == n[0] && f(x[1]) == n[1] && f(x[2]) == n[2] && f(x[3]) == n[3]
    requires f(x[4]) == n[4] && f(x[5]) == n[5] && f(x[6]) == n[6] && f(x[7]) == n[7]
    ensures Each(f, x) == n
  {}

  lemma HalvesAreUnique(h: nat, l: nat, h': nat, l': nat)
    requires 16 * h + l == 16 * h' + l' && l < 16 && l' < 16
    ensures h == h' && l == l'
  {}

  lemma FourDigitsAreUnique(a: nat, b: nat, c: nat, d: nat, a': nat, b': nat, c': nat, d': nat)
    requires a <= 1 && b <= 1 && c <= 1 && d <= 1 && a' <= 1 && b' <= 1 && c' <= 1 && d' <= 1
    requires 8 * a + 4 * b + 2 * c + d == 8 * a' + 4 * b' + 2 * c' + d'
    ensures a == a' && b == b' && c == c' && d == d'
  {}

  lemma EightDigitsAreUnique(a: nat, b: nat, c: nat, d: nat, e: nat, f: nat, g: nat, h: nat,
                             a': nat, b': nat, c': nat, d': nat, e': nat, f': nat, g': nat, h': nat)
    requires a <= 1 && b <= 1 && c <= 1 && d <= 1 && e <= 1 && f <= 1 && g <= 1 && h <= 1
    requires a' <= 1 && b' <= 1 && c' <= 1 && d' <= 1 && e' <= 1 && f' <= 1 && g' <= 1 && h' <= 1
    requires 128 * a + 64 * b + 32 * c + 16 * d + 8 * e + 4 * f + 2 * g + h ==
             128 * a' + 64 * b' + 32 * c' + 16 * d' + 8 * e' + 4 * f' + 2 * g' + h'
    ensures a == a' && b == b' && c == c' && d == d' && e == e' && f == f' && g == g' && h == h'
  {
    HalvesAreUnique(8 * a + 4 * b + 2 * c + d, 8 * e + 4 * f + 2 * g + h, 8 * a' + 4 * b' + 2 * c' + d', 8 * e' + 4 * f' + 2 * g' + h');
    FourDigitsAreUnique(a, b, c, d, a', b', c', d');
    FourDigitsAreUnique(e, f, g, h, e', f', g', h');
  }

  lemma SameBits(a: bv8, b: bv8)
    requires Bit(a, 128) == Bit(b, 128) && Bit(a, 64) == Bit(b, 64) && Bit(a, 32) == Bit(b, 32) && Bit(a, 16) == Bit(b, 16)
    requires Bit(a, 8) == Bit(b, 8) && Bit(a, 4) == Bit(b, 4) && Bit(a, 2) == Bit(b, 2) && Bit(a, 1) == Bit(b, 1)
    ensures a == b
  {}

  lemma NumberIsInjective(a: bv8, b: bv8)
    requires Number(a) == Number(b)
    ensures a == b
  {
    EightDigitsAreUnique(Bit(a, 128), Bit(a, 64), Bit(a, 32), Bit(a, 16), Bit(a, 8), Bit(a, 4), Bit(a, 2), Bit(a, 1),
                         Bit(b, 128), Bit(b, 64), Bit(b, 32), Bit(b, 16), Bit(b, 8), Bit(b, 4), Bit(b, 2), Bit(b, 1));
    SameBits(a, b);
  }

  // --- The digits of five bytes ---

  /** A five-bit digit with the given bits. */
  predicate HasBits(d: bv8, b16: nat, b8: nat, b4: nat, b2: nat, b1: nat) {
    && Bit(d, 128) == 0 && Bit(d, 64) == 0 && Bit(d, 32) == 0
    && Bit(d, 16) == b16 && Bit(d, 8) == b8 && Bit(d, 4) == b4 && Bit(d, 2) == b2 && Bit(d, 1) == b1
  }

  function Bits2(b: bv8, m: bv8, n: bv8): nat { 2 * Bit(b, m) + Bit(b, n) }

  function Bits3(b: bv8, m: bv8, n: bv8, o: bv8): nat { 4 * Bit(b, m) + Bits2(b, n, o) }

  function Bits4(b: bv8, m: bv8, n: bv8, o: bv8, p: bv8): nat { 8 * Bit(b, m) + Bits3(b, n, o, p) }

  function Bits5(b: bv8, m: bv8, n: bv8, o: bv8, p: bv8, q: bv8): nat { 16 * Bit(b, m) + Bits4(b, n, o, p, q) }

  lemma Digit0(a: bv8)
    ensures Number((a & 248) >> 3) == Bits5(a, 128, 64, 32, 16, 8)
  {
    var d := (a & 248) >> 3;
    assert HasBits(d, Bit(a, 128), Bit(a, 64), Bit(a, 32), Bit(a, 16), Bit(a, 8));
  }

  lemma Digit1(a: bv8, b: bv8)
    ensures Number(((a & 7) << 2) | ((b & 192) >> 6)) == 4 * Bits3(a, 4, 2, 1) + Bits2(b, 128, 64)
  {
    var d := ((a & 7) << 2) | ((b & 192) >> 6);
    assert HasBits(d, Bit(a, 4), Bit(a, 2), Bit(a, 1), Bit(b, 128), Bit(b, 64));
  }

  lemma Digit2(b: bv8)
    ensures Number((b & 62) >> 1) == Bits5(b, 32, 16, 8, 4, 2)
  {
    var d := (b & 62) >> 1;
    assert HasBits(d, Bit(b, 32), Bit(b, 16), Bit(b, 8), Bit(b, 4), Bit(b, 2));
  }

  lemma Digit3(b: bv8, c: bv8)
    ensures Number(((b & 1) << 4) | ((c & 240) >> 4)) == 16 * Bit(b, 1) + Bits4(c, 128, 64, 32, 16)
  {
    var d := ((b & 1) << 4) | ((c & 240) >> 4);
    assert HasBits(d, Bit(b, 1), Bit(c, 128), Bit(c, 64), Bit(c, 32), Bit(c, 16));
  }

  lemma Digit4(c: bv8, d: bv8)
    ensures Number(((c & 15) << 1) | ((d & 128) >> 7)) == 2 * Bits4(c, 8, 4, 2, 1) + Bit(d, 128)
  {
    var x := ((c & 15) << 1) | ((d & 128) >> 7);
    assert HasBits(x, Bit(c, 8), Bit(c, 4), Bit(c, 2), Bit(c, 1), Bit(d, 128));
  }

  lemma Digit5(d: bv8)
    ensures Number((d & 124) >> 2) == Bits5(d, 64, 32, 16, 8, 4)
  {
    var x := (d & 124) >> 2;
    assert HasBits(x, Bit(d, 64), Bit(d, 32), Bit(d, 16), Bit(d, 8), Bit(d, 4));
  }

  lemma Digit6(d: bv8, e: bv8)
    ensures Number(((d & 3) << 3) | ((e & 224) >> 5)) == 8 * Bits2(d, 2, 1) + Bits3(e, 128, 64, 32)
  {
    var x := ((d & 3) << 3) | ((e & 224) >> 5);
    assert HasBits(x, Bit(d, 2), Bit(d, 1), Bit(e, 128), Bit(e, 64), Bit(e, 32));
  }

  lemma Digit7(e: bv8)
    ensures Number(e & 31) == Bits5(e, 16, 8, 4, 2, 1)
  {
    assert HasBits(e & 31, Bit(e, 16), Bit(e, 8), Bit(e, 4), Bit(e, 2), Bit(e, 1));
  }

  // Where the digits cut each of the five bytes.

  lemma Cut0(b: bv8)
    ensures Number(b) == 8 * Bits5(b, 128, 64, 32, 16, 8) + Bits3(b, 4, 2, 1)
  {}

  lemma Cut1(b: bv8)
    ensures Number(b) == 64 * Bits2(b, 128, 64) + 2 * Bits5(b, 32, 16, 8, 4, 2) + Bit(b, 1)
  {}

  lemma Cut2(b: bv8)
    ensures Number(b) == 16 * Bits4(b, 128, 64, 32, 16) + Bits4(b, 8, 4, 2, 1)
  {}

  lemma Cut3(b: bv8)
    ensures Number(b) == 128 * Bit(b, 128) + 4 * Bits5(b, 64, 32, 16, 8, 4) + Bits2(b, 2, 1)
  {}

  lemma Cut4(b: bv8)
    ensures Number(b) == 32 * Bits3(b, 128, 64, 32) + Bits5(b, 16, 8, 4, 2, 1)
  {}

  /** The value of digits in a base, most significant first. */
  function Value(digits: seq<nat>, base: nat): nat {
    if digits == [] then 0 else Value(digits[..|digits| - 1], base) * base + digits[|digits| - 1]
  }

  lemma ValuePush(digits: seq<nat>, d: nat, base: nat)
    ensures Value(digits + [d], base) == Value(digits, base) * base + d
  {
    assert (digits + [d])[..|digits|] == digits;
  }

  lemma FiveBytes(a: nat, b: nat, c: nat, d: nat, e: nat)
    ensures Value([a, b, c, d, e], 256) == (((a * 256 + b) * 256 + c) * 256 + d) * 256 + e
  {
    assert [] + [a] == [a] && [a] + [b] == [a, b] && [a, b] + [c] == [a, b, c];
    assert [a, b, c] + [d] == [a, b, c, d] && [a, b, c, d] + [e] == [a, b, c, d, e];
    ValuePush([], a, 256);
    ValuePush([a], b, 256);
    ValuePush([a, b], c, 256);
    ValuePush([a, b, c], d, 256);
    ValuePush([a, b, c, d], e, 256);
  }

  lemma FourMoreDigits(digits: seq<nat>, a: nat, b: nat, c: nat, d: nat)
    ensures Value(digits + [a, b, c, d], 32) == (((Value(digits, 32) * 32 + a) * 32 + b) * 32 + c) * 32 + d
  {
    var x := digits + [a];
    var y := x + [b];
    var z := y + [c];
    assert digits + [a, b, c, d] == z + [d];
    ValuePush(digits, a, 32);
    ValuePush(x, b, 32);
    ValuePush(y, c, 32);
    ValuePush(z, d, 32);
  }

  lemma EightDigits(a: nat, b: nat, c: nat, d: nat, e: nat, f: nat, g: nat, h: nat)
    ensures Value([a, b, c, d, e, f, g, h], 32) ==
            (((((((a * 32 + b) * 32 + c) * 32 + d) * 32 + e) * 32 + f) * 32 + g) * 32) + h
  {
    FourMoreDigits([], a, b, c, d);
    FourMoreDigits([a, b, c, d], e, f, g, h);
    assert [] + [a, b, c, d] == [a, b, c, d];
    assert [a, b, c, d] + [e, f, g, h] == [a, b, c, d, e, f, g, h];
  }

  /** Forty bits grouped by eight and by five: the running values stay in step. */
  lemma Regroup(a: nat, b: nat, c: nat, d: nat, e: nat, a5: nat, a3: nat, b2: nat, b5: nat, b1: nat, c4: nat, c4': nat,
                d1: nat, d5: nat, d2: nat, e3: nat, e5: nat)
    requires a == 8 * a5 + a3 && b == 64 * b2 + 2 * b5 + b1 && c == 16 * c4 + c4' && d == 128 * d1 + 4 * d5 + d2 && e == 32 * e3 + e5
    ensures Value([a5, 4 * a3 + b2, b5, 16 * b1 + c4, 2 * c4' + d1, d5, 8 * d2 + e3, e5], 32) == Value([a, b, c, d, e], 256)
  {
    EightDigits(a5, 4 * a3 + b2, b5, 16 * b1 + c4, 2 * c4' + d1, d5, 8 * d2 + e3, e5);
    FiveBytes(a, b, c, d, e);
    InStep(a, b, c, d, e, a5, a3, b2, b5, b1, c4, c4', d1, d5, d2, e3, e5);
  }

  lemma InStep(a: nat, b: nat, c: nat, d: nat, e: nat, a5: nat, a3: nat, b2: nat, b5: nat, b1: nat, c4: nat, c4': nat,
               d1: nat, d5: nat, d2: nat, e3: nat, e5: nat)
    requires a == 8 * a5 + a3 && b == 64 * b2 + 2 * b5 + b1 && c == 16 * c4 + c4' && d == 128 * d1 + 4 * d5 + d2 && e == 32 * e3 + e5
    ensures (((((((a5 * 32 + (4 * a3 + b2)) * 32 + b5) * 32 + (16 * b1 + c4)) * 32 + (2 * c4' + d1)) * 32 + d5) * 32 + (8 * d2 + e3)) * 32) + e5 ==
            (((a * 256 + b) * 256 + c) * 256 + d) * 256 + e
  {
    var w2 := a * 256 + b;
    var w3 := w2 * 256 + c;
    var w4 := w3 * 256 + d;
    var y3 := ((a5 * 32 + (4 * a3 + b2)) * 32 + b5) * 32 + (16 * b1 + c4);
    assert y3 == 16 * w2 + c4;
    var y4 := y3 * 32 + (2 * c4' + d1);
    assert y4 == 2 * w3 + d1;
    var y6 := (y4 * 32 + d5) * 32 + (8 * d2 + e3);
    assert y6 == 8 * w4 + e3;
  }

  /** The digits of five bytes, as numbers. */
  function FiveNumbers(a: bv8, b: bv8, c: bv8, d: bv8, e: bv8): seq<nat> {
    [Bits5(a, 128, 64, 32, 16, 8), 4 * Bits3(a, 4, 2, 1) + Bits2(b, 128, 64), Bits5(b, 32, 16, 8, 4, 2),
     16 * Bit(b, 1) + Bits4(c, 128, 64, 32, 16), 2 * Bits4(c, 8, 4, 2, 1) + Bit(d, 128), Bits5(d, 64, 32, 16, 8, 4),
     8 * Bits2(d, 2, 1) + Bits3(e, 128, 64, 32), Bits5(e, 16, 8, 4, 2, 1)]
  }

  lemma FiveAreNumbers(a: bv8, b: bv8, c: bv8, d: bv8, e: bv8)
    ensures Numbers(Five(a, b, c, d, e)) == FiveNumbers(a, b, c, d, e)
  {
    Digit0(a);
    Digit1(a, b);
    Digit2(b);
    Digit3(b, c);
    Digit4(c, d);
    Digit5(d);
    Digit6(d, e);
    Digit7(e);
    EachOfEight(Number, Five(a, b, c, d, e), FiveNumbers(a, b, c, d, e));
  }

  lemma FiveNumbersPack(a: bv8, b: bv8, c: bv8, d: bv8, e: bv8)
    ensures Value(FiveNumbers(a, b, c, d, e), 32) == Value([Number(a), Number(b), Number(c), Number(d), Number(e)], 256)
  {
    Cut0(a);
    Cut1(b);
    Cut2(c);
    Cut3(d);
    Cut4(e);
    Regroup(Number(a), Number(b), Number(c), Number(d), Number(e),
            Bits5(a, 128, 64, 32, 16, 8), Bits3(a, 4, 2, 1), Bits2(b, 128, 64), Bits5(b, 32, 16, 8, 4, 2), Bit(b, 1),
            Bits4(c, 128, 64, 32, 16), Bits4(c, 8, 4, 2, 1), Bit(d, 128), Bits5(d, 64, 32, 16, 8, 4), Bits2(d, 2, 1),
            Bits3(e, 128, 64, 32), Bits5(e, 16, 8, 4, 2, 1));
  }

  /** Five bytes and their eight digits are the same number. */
  lemma FivePacks(a: bv8, b: bv8, c: bv8, d: bv8, e: bv8)
    ensures Value(Numbers(Five(a, b, c, d, e)), 32) == Value(Numbers([a, b, c, d, e]), 256)
  {
    FiveAreNumbers(a, b, c, d, e);
    FiveNumbersPack(a, b, c, d, e);
    EachOfFive(Number, a, b, c, d, e);
  }

  function Pow(base: nat, n: nat): nat {
    if n == 0 then 1 else Pow(base, n - 1) * base
  }

  lemma {:induction false} ValueConcat(a: seq<nat>, b: seq<nat>, base: nat)
    ensures Value(a + b, base) == Value(a, base) * Pow(base, |b|) + Value(b, base)
  {
    if b == [] {
      assert a + b == a;
    } else {
      var front, last := b[..|b| - 1], b[|b| - 1];
      ValueConcat(a, front, base);
      assert (a + b)[..|a + b| - 1] == a + front;
      Distribute(Value(a, base), Pow(base, |front|), Value(front, base), base, last);
    }
  }

  lemma Distribute(v: nat, p: nat, w: nat, base: nat, last: nat)
    ensures (v * p + w) * base + last == v * (p * base) + (w * base + last)
  {}

  // --- The whole identifier ---

  lemma TwoPack(f: bv8 -> nat, x: bv8, y: bv8, a: bv8)
    requires 32 * f(x) + f(y) == f(a)
    ensures Value(Each(f, [x, y]), 32) == Value(Each(f, [a]), 256)
  {
    assert Each(f, [x, y]) == [f(x)] + [f(y)] && Each(f, [a]) == [] + [f(a)] && [] + [f(x)] == [f(x)];
    ValuePush([f(x)], f(y), 32);
    ValuePush([], f(x), 32);
    ValuePush([], f(a), 256);
  }

  lemma FirstDigits(a: bv8)
    ensures 32 * Number((a & 224) >> 5) + Number(a & 31) == Number(a)
  {
    var d := (a & 224) >> 5;
    assert HasBits(d, 0, 0, Bit(a, 128), Bit(a, 64), Bit(a, 32));
    Digit7(a);
    Cut4(a);
  }

  lemma FirstPacks(a: bv8)
    ensures Value(Each(Number, FirstTwo(a)), 32) == Value(Each(Number, [a]), 256)
  {
    FirstDigits(a);
    TwoPack(Number, (a & 224) >> 5, a & 31, a);
  }

  lemma FiveFold()
    ensures Pow(32, 8) == Pow(256, 5)
  {
    assert Pow(32, 2) == 1024 && Pow(32, 4) == 1048576 && Pow(32, 6) == 1073741824 && Pow(32, 8) == 1099511627776;
    assert Pow(256, 2) == 65536 && Pow(256, 4) == 4294967296 && Pow(256, 5) == 1099511627776;
  }

  /** Appending five bytes and appending their digits shift a number equally far. */
  lemma AppendPacks(bytes: seq<nat>, digits: seq<nat>, more: seq<nat>, moreDigits: seq<nat>)
    requires Value(digits, 32) == Value(bytes, 256) && Value(moreDigits, 32) == Value(more, 256)
    requires |more| == 5 && |moreDigits| == 8
    ensures Value(digits + moreDigits, 32) == Value(bytes + more, 256)
  {
    FiveFold();
    ValueConcat(digits, moreDigits, 32);
    ValueConcat(bytes, more, 256);
  }

  /** The same, for the numbers that bytes stand for. */
  lemma AppendGroup(f: bv8 -> nat, bytes: seq<bv8>, digits: seq<bv8>, more: seq<bv8>, moreDigits: seq<bv8>)
    requires Value(Each(f, digits), 32) == Value(Each(f, bytes), 256) && Value(Each(f, moreDigits), 32) == Value(Each(f, more), 256)
    requires |more| == 5 && |moreDigits| == 8
    ensures Value(Each(f, digits + moreDigits), 32) == Value(Each(f, bytes + more), 256)
  {
    EachConcat(f, digits, moreDigits);
    EachConcat(f, bytes, more);
    AppendPacks(Each(f, bytes), Each(f, digits), Each(f, more), Each(f, moreDigits));
  }

  lemma AppendGroups(f: bv8 -> nat, b: seq<bv8>, two: seq<bv8>, x: seq<bv8>, y: seq<bv8>, z: seq<bv8>)
    requires |b| == 16 && |two| == 2 && |x| == 8 && |y| == 8 && |z| == 8
    requires Value(Each(f, two), 32) == Value(Each(f, [b[0]]), 256)
    requires Value(Each(f, x), 32) == Value(Each(f, [b[1], b[2], b[3], b[4], b[5]]), 256)
    requires Value(Each(f, y), 32) == Value(Each(f, [b[6], b[7], b[8], b[9], b[10]]), 256)
    requires Value(Each(f, z), 32) == Value(Each(f, [b[11], b[12], b[13], b[14], b[15]]), 256)
    ensures Value(Each(f, two + x + y + z), 32) == Value(Each(f, b), 256)
  {
    AppendGroup(f, [b[0]], two, [b[1], b[2], b[3], b[4], b[5]], x);
    assert b[..6] == [b[0]] + [b[1], b[2], b[3], b[4], b[5]];
    AppendGroup(f, b[..6], two + x, [b[6], b[7], b[8], b[9], b[10]], y);
    assert b[..11] == b[..6] + [b[6], b[7], b[8], b[9], b[10]];
    AppendGroup(f, b[..11], two + x + y, [b[11], b[12], b[13], b[14], b[15]], z);
    assert b == b[..11] + [b[11], b[12], b[13], b[14], b[15]];
  }

  /** The packing is the 26-digit base-32 expansion of the 128-bit big-endian number. */
  lemma DigitsAreExpansion(b: seq<bv8>)
    requires |b| == 16
    ensures |Digits(b)| == 26 && Value(Numbers(Digits(b)), 32) == Value(Numbers(b), 256)
  {
    FirstPacks(b[0]);
    FivePacks(b[1], b[2], b[3], b[4], b[5]);
    FivePacks(b[6], b[7], b[8], b[9], b[10]);
    FivePacks(b[11], b[12], b[13], b[14], b[15]);
    AppendGroups(Number, b, FirstTwo(b[0]), Five(b[1], b[2], b[3], b[4], b[5]),
                 Five(b[6], b[7], b[8], b[9], b[10]), Five(b[11], b[12], b[13], b[14], b[15]));
  }

  // --- Order ---

  predicate InRange(digits: seq<nat>, base: nat) {
    forall i | 0 <= i < |digits| :: digits[i] < base
  }

  lemma FiveInRange(a: bv8, b: bv8, c: bv8, d: bv8, e: bv8)
    ensures InRange(FiveNumbers(a, b, c, d, e), 32)
  {}

  lemma TwoInRange(a: bv8)
    ensures Number((a & 224) >> 5) < 32 && Number(a & 31) < 32
  {
    Digit7(a);
    var d := (a & 224) >> 5;
    assert HasBits(d, 0, 0, Bit(a, 128), Bit(a, 64), Bit(a, 32));
  }

  lemma GroupsInRange(f: bv8 -> nat, two: seq<bv8>, x: seq<bv8>, y: seq<bv8>, z: seq<bv8>)
    requires |two| == 2 && f(two[0]) < 32 && f(two[1]) < 32
    requires InRange(Each(f, x), 32) && InRange(Each(f, y), 32) && InRange(Each(f, z), 32)
    ensures InRange(Each(f, two + x + y + z), 32)
  {
    EachConcat(f, two + x + y, z);
    EachConcat(f, two + x, y);
    EachConcat(f, two, x);
  }

  lemma DigitsInRange(b: seq<bv8>)
    requires |b| == 16
    ensures InRange(Numbers(Digits(b)), 32)
  {
    TwoInRange(b[0]);
    FiveAreNumbers(b[1], b[2], b[3], b[4], b[5]);
    FiveAreNumbers(b[6], b[7], b[8], b[9], b[10]);
    FiveAreNumbers(b[11], b[12], b[13], b[14], b[15]);
    FiveInRange(b[1], b[2], b[3], b[4], b[5]);
    FiveInRange(b[6], b[7], b[8], b[9], b[10]);
    FiveInRange(b[11], b[12], b[13], b[14], b[15]);
    GroupsInRange(Number, FirstTwo(b[0]), Five(b[1], b[2], b[3], b[4], b[5]),
                  Five(b[6], b[7], b[8], b[9], b[10]), Five(b[11], b[12], b[13], b[14], b[15]));
  }

  function Text(digits: seq<nat>): string
    requires InRange(digits, 32)
  {
    if digits == [] then "" else [Symbol(digits[0])] + Text(digits[1..])
  }

  /** The identifier of sixteen bytes. */
  function Encode(b: seq<bv8>): string
    requires |b| == 16
  {
    DigitsInRange(b);
    Text(Numbers(Digits(b)))
  }

  lemma {:induction false} ValueBound(digits: seq<nat>, base: nat)
    requires InRange(digits, base)
    ensures Value(digits, base) < Pow(base, |digits|)
  {
    if digits != [] {
      var front := digits[..|digits| - 1];
      ValueBound(front, base);
      OneMoreBound(Value(front, base), Pow(base, |front|), base, digits[|digits| - 1]);
    }
  }

  lemma OneMoreBound(v: nat, p: nat, base: nat, d: nat)
    requires v < p && d < base
    ensures v * base + d < p * base
  {
    assert (v + 1) * base <= p * base;
  }

  lemma LeadingDigit(x: nat, y: nat, p: nat, v: nat, w: nat)
    requires v < p && w < p
    ensures x * p + v < y * p + w <==> x < y || (x == y && v < w)
  {
    if x < y { assert (x + 1) * p <= y * p; }
    if y < x { assert (y + 1) * p <= x * p; }
  }

  lemma ValueFront(x: nat, rest: seq<nat>, base: nat)
    ensures Value([x] + rest, base) == x * Pow(base, |rest|) + Value(rest, base)
  {
    ValueConcat([x], rest, base);
    ValuePush([], x, base);
    assert [] + [x] == [x];
  }

  /** Digit strings of one length sort as the numbers they stand for. */
  lemma {:induction false} TextOrder(d: seq<nat>, e: seq<nat>)
    requires |d| == |e| && InRange(d, 32) && InRange(e, 32)
    ensures Less(Text(d), Text(e)) <==> Value(d, 32) < Value(e, 32)
  {
    if d != [] {
      TextOrder(d[1..], e[1..]);
      assert d == [d[0]] + d[1..] && e == [e[0]] + e[1..];
      ValueFront(d[0], d[1..], 32);
      ValueFront(e[0], e[1..], 32);
      ValueBound(d[1..], 32);
      ValueBound(e[1..], 32);
      LeadingDigit(d[0], e[0], Pow(32, |d| - 1), Value(d[1..], 32), Value(e[1..], 32));
      SymbolsAscend(d[0], e[0]);
      assert Text(d)[1..] == Text(d[1..]) && Text(e)[1..] == Text(e[1..]);
    }
  }

  /** Lexical order of identifiers is numeric order of the 128-bit values. */
  lemma LexicalIsNumeric(x: seq<bv8>, y: seq<bv8>)
    requires |x| == 16 && |y| == 16
    ensures Less(Encode(x), Encode(y)) <==> Value(Numbers(x), 256) < Value(Numbers(y), 256)
  {
    DigitsInRange(x);
    DigitsInRange(y);
    DigitsAreExpansion(x);
    DigitsAreExpansion(y);
    TextOrder(Numbers(Digits(x)), Numbers(Digits(y)));
  }

  lemma LastDigit(v: nat, w: nat, base: nat, d: nat, e: nat)
    requires v * base + d == w * base + e && d < base && e < base
    ensures v == w && d == e
  {
    LeadingDigit(v, w, base, d, e);
    LeadingDigit(w, v, base, e, d);
  }

  lemma {:induction false} ValueIsInjective(a: seq<nat>, b: seq<nat>, base: nat)
    requires |a| == |b| && InRange(a, base) && InRange(b, base) && Value(a, base) == Value(b, base)
    ensures a == b
  {
    if a != [] {
      var n := |a| - 1;
      LastDigit(Value(a[..n], base), Value(b[..n], base), base, a[n], b[n]);
      ValueIsInjective(a[..n], b[..n], base);
      assert a == a[..n] + [a[n]] && b == b[..n] + [b[n]];
    }
  }

  lemma NumbersInRange(b: seq<bv8>)
    ensures InRange(Numbers(b), 256)
  {}

  /** Different bytes give different identifiers. */
  lemma EncodingIsInjective(x: seq<bv8>, y: seq<bv8>)
    requires |x| == 16 && |y| == 16 && Encode(x) == Encode(y)
    ensures x == y
  {
    LexicalIsNumeric(x, y);
    LexicalIsNumeric(y, x);
    LessIsStrict(Encode(x), Encode(y));
    NumbersInRange(x);
    NumbersInRange(y);
    ValueIsInjective(Numbers(x), Numbers(y), 256);
    forall i | 0 <= i < 16 ensures x[i] == y[i] {
      assert Numbers(x)[i] == Numbers(y)[i];
      NumberIsInjective(x[i], y[i]);
    }
  }

  // --- Time ---

  function Mask(n: nat, mask: bv8): bv8 {
    if n % 2 == 1 then mask else 0
  }

  /** The byte Go's conversion keeps of a number. */
  function Byte(n: nat): bv8 {
    Mask(n / 128, 128) | Mask(n / 64, 64) | Mask(n / 32, 32) | Mask(n / 16, 16) |
    Mask(n / 8, 8) | Mask(n / 4, 4) | Mask(n / 2, 2) | Mask(n, 1)
  }

  lemma ByteBits(a: bv8, b: bv8, c: bv8, d: bv8, e: bv8, f: bv8, g: bv8, h: bv8)
    requires (a == 0 || a == 128) && (b == 0 || b == 64) && (c == 0 || c == 32) && (d == 0 || d == 16)
    requires (e == 0 || e == 8) && (f == 0 || f == 4) && (g == 0 || g == 2) && (h == 0 || h == 1)
    ensures var x := a | b | c | d | e | f | g | h;
            x & 128 == a && x & 64 == b && x & 32 == c && x & 16 == d && x & 8 == e && x & 4 == f && x & 2 == g && x & 1 == h
  {}

  /** Halving again and again gives the binary digits. */
  lemma Halves(n: nat)
    ensures n / 4 == n / 2 / 2 && n / 8 == n / 4 / 2 && n / 16 == n / 8 / 2 && n / 32 == n / 16 / 2
    ensures n / 64 == n / 32 / 2 && n / 128 == n / 64 / 2 && n / 256 == n / 128 / 2
  {}

  lemma BinaryDigits(n: nat)
    ensures n % 256 == 128 * (n / 128 % 2) + 64 * (n / 64 % 2) + 32 * (n / 32 % 2) + 16 * (n / 16 % 2) +
                       8 * (n / 8 % 2) + 4 * (n / 4 % 2) + 2 * (n / 2 % 2) + n % 2
  {
    Halves(n);
    var a, b, c, d, e, f, g, h := n / 2, n / 4, n / 8, n / 16, n / 32, n / 64, n / 128, n / 256;
    assert n == 2 * a + n % 2 && a == 2 * b + a % 2 && b == 2 * c + b % 2 && c == 2 * d + c % 2;
    assert d == 2 * e + d % 2 && e == 2 * f + e % 2 && f == 2 * g + f % 2 && g == 2 * h + g % 2;
    assert n == 256 * h + n % 256;
  }

  lemma BitsOfByte(n: nat)
    ensures var x := Byte(n);
            && Bit(x, 128) == n / 128 % 2 && Bit(x, 64) == n / 64 % 2 && Bit(x, 32) == n / 32 % 2 && Bit(x, 16) == n / 16 % 2
            && Bit(x, 8) == n / 8 % 2 && Bit(x, 4) == n / 4 % 2 && Bit(x, 2) == n / 2 % 2 && Bit(x, 1) == n % 2
  {
    ByteBits(Mask(n / 128, 128), Mask(n / 64, 64), Mask(n / 32, 32), Mask(n / 16, 16),
             Mask(n / 8, 8), Mask(n / 4, 4), Mask(n / 2, 2), Mask(n, 1));
  }

  lemma NumberOfByte(n: nat)
    ensures Number(Byte(n)) == n % 256
  {
    BitsOfByte(n);
    BinaryDigits(n);
  }

  /** Six bytes of a number, big-endian, each taken by `byte`. */
  function SixBytes(byte: nat -> bv8, n: nat): seq<bv8> {
    var q1 := n / 256;
    var q2 := q1 / 256;
    var q3 := q2 / 256;
    var q4 := q3 / 256;
    [byte(q4 / 256), byte(q4), byte(q3), byte(q2), byte(q1), byte(n)]
  }

  /** The low 48 bits of a millisecond count. */
  function TimeBytes(ms: nat): seq<bv8> {
    SixBytes(Byte, ms)
  }

  lemma SixNumbers(f: bv8 -> nat, x: seq<bv8>, n: nat, q1: nat, q2: nat, q3: nat, q4: nat, q5: nat)
    requires |x| == 6 && f(x[0]) == q5 < 256 && f(x[1]) == q4 % 256 && f(x[2]) == q3 % 256 && f(x[3]) == q2 % 256
    requires f(x[4]) == q1 % 256 && f(x[5]) == n % 256
    requires q1 == n / 256 && q2 == q1 / 256 && q3 == q2 / 256 && q4 == q3 / 256 && q5 == q4 / 256
    ensures Value(Each(f, x), 256) == n
  {
    assert Each(f, x) == [q5, q4 % 256, q3 % 256, q2 % 256, q1 % 256] + [n % 256];
    FiveBytes(q5, q4 % 256, q3 % 256, q2 % 256, q1 % 256);
    ValuePush([q5, q4 % 256, q3 % 256, q2 % 256, q1 % 256], n % 256, 256);
    assert q4 == q5 * 256 + q4 % 256 && q3 == q4 * 256 + q3 % 256 && q2 == q3 * 256 + q2 % 256;
    assert q1 == q2 * 256 + q1 % 256 && n == q1 * 256 + n % 256;
  }

  const LIMIT_48 := 0x1_0000_0000_0000

  lemma SixBytesValue(f: bv8 -> nat, byte: nat -> bv8, n: nat)
    requires n < LIMIT_48 && forall m: nat :: f(byte(m)) == m % 256
    ensures Value(Each(f, SixBytes(byte, n)), 256) == n
  {
    var q1 := n / 256;
    var q2 := q1 / 256;
    var q3 := q2 / 256;
    var q4 := q3 / 256;
    SixNumbers(f, SixBytes(byte, n), n, q1, q2, q3, q4, q4 / 256);
  }

  lemma TimeBytesValue(ms: nat)
    requires ms < LIMIT_48
    ensures Value(Numbers(TimeBytes(ms)), 256) == ms
  {
    forall m: nat ensures Number(Byte(m)) == m % 256 { NumberOfByte(m); }
    SixBytesValue(Number, Byte, ms);
  }

  /** An identifier from an earlier millisecond sorts first, whatever its random part, until
      the 48 bits of time run out. */
  lemma EarlierSortsFirst(ms: nat, random: seq<bv8>, ms': nat, random': seq<bv8>)
    requires ms < ms' < LIMIT_48 && |random| == 10 && |random'| == 10
    ensures Less(Encode(TimeBytes(ms) + random), Encode(TimeBytes(ms') + random'))
  {
    TimeBytesValue(ms);
    TimeBytesValue(ms');
    StampedValue(TimeBytes(ms), random, ms);
    StampedValue(TimeBytes(ms'), random', ms');
    NumbersInRange(random);
    NumbersInRange(random');
    ValueBound(Numbers(random), 256);
    ValueBound(Numbers(random'), 256);
    LeadingDigit(ms, ms', Pow(256, 10), Value(Numbers(random), 256), Value(Numbers(random'), 256));
    LexicalIsNumeric(TimeBytes(ms) + random, TimeBytes(ms') + random');
  }

  lemma StampedValue(time: seq<bv8>, random: seq<bv8>, ms: nat)
    requires Value(Numbers(time), 256) == ms && |random| == 10
    ensures Value(Numbers(time + random), 256) == ms * Pow(256, 10) + Value(Numbers(random), 256)
  {
    EachConcat(Number, time, random);
    ValueConcat(Numbers(time), Numbers(random), 256);
  }

  lemma {:induction false} TextAt(digits: seq<nat>, i: nat)
    requires InRange(digits, 32) && i < |digits|
    ensures |Text(digits)| == |digits| && Text(digits)[i] == Symbol(digits[i])
  {
    if |digits| > 1 { TextAt(digits[1..], if i > 0 then i - 1 else 0); }
  }

  /** The symbol of a five-bit digit. */
  function Crockford(d: bv8): char {
    if Number(d) < |CROCKFORD| then CROCKFORD[Number(d)] else '?'
  }

  lemma EachOfGroups(symbol: bv8 -> char, two: seq<bv8>, x: seq<bv8>, y: seq<bv8>, z: seq<bv8>)
    ensures Each(symbol, two + x + y + z) == Each(symbol, two) + Each(symbol, x) + Each(symbol, y) + Each(symbol, z)
  {}

  lemma SymbolsAre(digits: seq<bv8>)
    requires InRange(Numbers(digits), 32)
    ensures Each(Crockford, digits) == Text(Numbers(digits))
  {
    var n := Numbers(digits);
    if n != [] {
      TextAt(n, 0);
      forall i | 0 <= i < |n| ensures Each(Crockford, digits)[i] == Text(n)[i] {
        TextAt(n, i);
        assert n[i] == Number(digits[i]);
        SymbolIsCrockford(n[i]);
      }
    }
  }

  /** `newULID`, with the clock and the random bytes as inputs. */
  method NewUlid(ms: nat, random: array<bv8>) returns (id: string)
    requires random.Length == 10
    ensures id == Encode(TimeBytes(ms) + random[..])
  {
    var b := Fill(Byte, ms, random);
    var dst := Pack(Crockford, b);
    DigitsInRange(b[..]);
    SymbolsAre(Digits(b[..]));
    id := dst[..];
  }

  method Fill(byte: nat -> bv8, ms: nat, random: array<bv8>) returns (b: array<bv8>)
    requires random.Length == 10
    ensures fresh(b) && b.Length == 16 && b[..] == SixBytes(byte, ms) + random[..]
  {
    b := new bv8[16];
    var q1 := ms / 256;
    var q2 := q1 / 256;
    var q3 := q2 / 256;
    var q4 := q3 / 256;
    b[0], b[1], b[2], b[3], b[4], b[5] := byte(q4 / 256), byte(q4), byte(q3), byte(q2), byte(q1), byte(ms);
    forall i | 0 <= i < 10 { b[6 + i] := random[i]; }
  }

  /** `t` is `s` with `c` written over it at `at`. */
  predicate Wrote(s: string, t: string, at: nat, c: string) {
    at + |c| <= |s| && t == s[..at] + c + s[at + |c|..]
  }

  lemma AllWritten(s0: string, s1: string, s2: string, s3: string, w: string, x: string, y: string, z: string)
    requires |s0| == 26 && |w| == 2 && |x| == 8 && |y| == 8 && |z| == 8 && s0[..2] == w
    requires Wrote(s0, s1, 2, x) && Wrote(s1, s2, 10, y) && Wrote(s2, s3, 18, z)
    ensures s3 == w + x + y + z
  {
    assert s1[..10] == w + x;
    assert s2[..18] == s1[..10] + y;
    assert s3 == s2[..18] + z;
  }

  lemma WroteOn(s: string, t: string, u: string, at: nat, c: string, d: string)
    requires Wrote(s, t, at, c) && Wrote(t, u, at + |c|, d)
    ensures Wrote(s, u, at, c + d)
  {
    assert t[..at + |c|] == s[..at] + c;
    assert t[at + |c| + |d|..] == s[at + |c| + |d|..];
  }

  method WriteFour(dst: array<char>, at: nat, c: string)
    requires at + 4 <= dst.Length && |c| == 4
    modifies dst
    ensures Wrote(old(dst[..]), dst[..], at, c)
  {
    dst[at], dst[at + 1], dst[at + 2], dst[at + 3] := c[0], c[1], c[2], c[3];
  }

  /** The assignments to eight neighbouring places. */
  method WriteEight(dst: array<char>, at: nat, c: string)
    requires at + 8 <= dst.Length && |c| == 8
    modifies dst
    ensures Wrote(old(dst[..]), dst[..], at, c)
  {
    ghost var s := dst[..];
    WriteFour(dst, at, c[..4]);
    ghost var t := dst[..];
    WriteFour(dst, at + 4, c[4..]);
    WroteOn(s, t, dst[..], at, c[..4], c[4..]);
    assert c[..4] + c[4..] == c;
  }

  /** The buffer filled from the symbols of the first byte and of three groups of five. */
  method Assemble(w: string, x: string, y: string, z: string) returns (dst: array<char>)
    requires |w| == 2 && |x| == 8 && |y| == 8 && |z| == 8
    ensures fresh(dst) && dst[..] == w + x + y + z
  {
    dst := new char[26];
    dst[0], dst[1] := w[0], w[1];
    ghost var s0 := dst[..];
    WriteEight(dst, 2, x);
    ghost var s1 := dst[..];
    WriteEight(dst, 10, y);
    ghost var s2 := dst[..];
    WriteEight(dst, 18, z);
    AllWritten(s0, s1, s2, dst[..], w, x, y, z);
  }

  /** All 26 digits, each by its own bit expression. */
  method Pack(symbol: bv8 -> char, b: array<bv8>) returns (dst: array<char>)
    requires b.Length == 16
    ensures fresh(dst) && dst[..] == Each(symbol, Digits(b[..]))
  {
    var w, x, y, z := FirstTwo(b[0]), Five(b[1], b[2], b[3], b[4], b[5]),
                      Five(b[6], b[7], b[8], b[9], b[10]), Five(b[11], b[12], b[13], b[14], b[15]);
    dst := Assemble(Each(symbol, w), Each(symbol, x), Each(symbol, y), Each(symbol, z));
    EachOfGroups(symbol, w, x, y, z);
  }
}
