/**
 * Pure semantics of nbon.h's `Reader`: the varint decoder that rebuilds
 * the groups most-significant first, nextInt / nextUInt with their casts,
 * nextFloat / nextDouble, binary blobs, and the recursive skipNext. As in
 * SbonSpec, every function returns the outcome together with the stream
 * position the C++ code leaves behind.
 *
 * nbon's writer is the one of the Writers module (least-significant group
 * first), so its varints are read back correctly only when their base-128
 * digits form a palindrome; the lemmas below say exactly that.
 */
module NbonSpec {
  import opened Wire
  import opened Scan
  import SbonSpec

  // ---------------------------------------------------------------------
  // nextLEB128

  /**
   * The do-while of nextLEB128 from the byte at `p` with `num` so far:
   * `num <<= 7; num += ch & 0x7f;` on uint64_t, each step reduced modulo
   * 2^64. There is no bound on the number of groups.
   */
  function Leb128From(d: seq<byte>, p: nat, num: nat): (r: Parsed<nat>)
    requires p <= |d|
    ensures p <= r.next <= |d|
    ensures r.res.Ok? ==> r.next > p && r.res.value < U64_LIMIT
    ensures r.res.Err? ==> r == Parsed(Err(ParseError(UnexpectedEof)), |d|)
    decreases |d| - p
  {
    if p == |d| then Parsed(Err(ParseError(UnexpectedEof)), p)
    else
      var acc := ((num * 0x80) % U64_LIMIT + d[p] % 0x80) % U64_LIMIT;
      if d[p] >= 0x80 then Leb128From(d, p + 1, acc) else Parsed(Ok(acc), p + 1)
  }

  function Leb128At(d: seq<byte>, p: nat): (r: Parsed<nat>)
    requires p <= |d|
    ensures p <= r.next <= |d|
    ensures r.res.Ok? ==> r.next > p && r.res.value < U64_LIMIT
    ensures r.res.Err? ==> r == Parsed(Err(ParseError(UnexpectedEof)), |d|)
  {
    Leb128From(d, p, 0)
  }

  /** What nextLEB128 returns for the bytes `writeLEB128(n)` emits. */
  function Decoded(n: nat): (r: nat)
    ensures r < U64_LIMIT
  {
    MsbValue(Varint(n)) % U64_LIMIT
  }

  /**
   * Reading a whole group sequence from any point of the loop: the groups
   * are taken as base-128 digits, the first one most significant, behind
   * what was accumulated already, all modulo 2^64.
   */
  lemma {:induction false} Leb128Groups(d: seq<byte>, p: nat, bs: seq<byte>, num: nat)
    requires GroupShape(bs) && At(d, p, bs)
    ensures Leb128From(d, p, num) == Parsed(Ok((num * Pow128(|bs|) + MsbValue(bs)) % U64_LIMIT), p + |bs|)
    decreases |bs|
  {
    AtFirst(d, p, bs);
    var g := bs[0] % 0x80;
    var rest := bs[1..];
    ModMulAdd(num * 0x80, 1, g);
    var acc := ((num * 0x80) % U64_LIMIT + g) % U64_LIMIT;
    assert acc == (num * 0x80 + g) % U64_LIMIT;
    assert MsbValue(bs) == g * Pow128(|rest|) + MsbValue(rest);
    if bs[0] >= 0x80 {
      assert GroupShape(rest) by {
        forall i | 0 <= i < |rest| - 1
          ensures rest[i] >= 0x80
        {
          assert rest[i] == bs[i + 1];
        }
      }
      Leb128Groups(d, p + 1, rest, acc);
      ModMulAdd(num * 0x80 + g, Pow128(|rest|), MsbValue(rest));
      DigitShift(num, g, Pow128(|rest|), MsbValue(rest));
    } else {
      assert |bs| == 1;
    }
  }

  /** `((x mod 2^64) * c + e) mod 2^64` is `(x * c + e) mod 2^64`. */
  lemma ModMulAdd(x: nat, c: nat, e: nat)
    ensures ((x % U64_LIMIT) * c + e) % U64_LIMIT == (x * c + e) % U64_LIMIT
  {
    var q, r := x / U64_LIMIT, x % U64_LIMIT;
    assert x * c == r * c + (q * c) * U64_LIMIT by {
      assert x == r + q * U64_LIMIT;
      MulAssocComm(q, U64_LIMIT, c);
    }
    ModAddMultiple(r * c + e, q * c);
  }

  lemma MulAssocComm(a: int, b: int, c: int)
    ensures (a + 0) * b * c == (a * c) * b
    ensures (a * b) * c == (a * c) * b
  {
    MulAssoc(a, b, c);
    MulAssoc(a, c, b);
  }

  lemma ModAddMultiple(y: nat, k: nat)
    ensures (y + k * U64_LIMIT) % U64_LIMIT == y % U64_LIMIT
  {
  }

  /** One more digit below `num`: `num * 128^(k+1) + g * 128^k + m == (num * 128 + g) * 128^k + m`. */
  lemma DigitShift(num: nat, g: nat, P: nat, m: nat)
    ensures num * (0x80 * P) + (g * P + m) == (num * 0x80 + g) * P + m
  {
    MulAssoc(num, 0x80, P);
  }

  /** nbon's nextLEB128 on what writeLEB128(n) wrote: the groups of n in reverse order, modulo 2^64. */
  lemma Leb128OfVarint(d: seq<byte>, p: nat, n: nat)
    requires At(d, p, Varint(n))
    ensures Leb128At(d, p) == Parsed(Ok(Decoded(n)), p + |Varint(n)|)
  {
    VarintShape(n);
    Leb128Groups(d, p, Varint(n), 0);
  }

  /** A single group is read back unchanged. */
  lemma Leb128SingleGroup(d: seq<byte>, p: nat, n: nat)
    requires n < 0x80 && At(d, p, Varint(n))
    ensures Leb128At(d, p) == Parsed(Ok(n), p + 1)
  {
    Leb128OfVarint(d, p, n);
  }

  /** 128 is written as 80 01 and read back as 1. */
  lemma Leb128Of128()
    ensures Varint(128) == [0x80, 0x01]
    ensures Decoded(128) == 1
    ensures Leb128At([0x80, 0x01], 0) == Parsed(Ok(1), 2)
  {
    Leb128OfVarint([0x80, 0x01], 0, 128);
  }

  /** writeInt(INT64_MIN)'s magnitude 2^63, written as nine 80 groups and 01, is read back as 1. */
  lemma DecodedTwoTo63()
    ensures Varint(I64_MAX + 1) == [0x80, 0x80, 0x80, 0x80, 0x80, 0x80, 0x80, 0x80, 0x80, 0x01]
    ensures Decoded(I64_MAX + 1) == 1
  {
    var z: seq<byte> := [0x80];
    assert Varint(0x80) == z + [0x01];
    assert Varint(0x4000) == z + Varint(0x80);
    assert Varint(0x20_0000) == z + Varint(0x4000);
    assert Varint(0x1000_0000) == z + Varint(0x20_0000);
    assert Varint(0x8_0000_0000) == z + Varint(0x1000_0000);
    assert Varint(0x400_0000_0000) == z + Varint(0x8_0000_0000);
    assert Varint(0x2_0000_0000_0000) == z + Varint(0x400_0000_0000);
    assert Varint(0x100_0000_0000_0000) == z + Varint(0x2_0000_0000_0000);
    assert Varint(0x8000_0000_0000_0000) == z + Varint(0x100_0000_0000_0000);
    ZeroGroups(Varint(I64_MAX + 1), 9);
  }

  /** Leading groups of zero payload add nothing when read most-significant first. */
  lemma {:induction false} ZeroGroups(bs: seq<byte>, k: nat)
    requires k <= |bs| && forall i :: 0 <= i < k ==> bs[i] == 0x80
    ensures MsbValue(bs) == MsbValue(bs[k..])
    decreases k
  {
    if k > 0 {
      ZeroGroups(bs[1..], k - 1);
      assert bs[1..][k - 1..] == bs[k..];
    }
  }

  // ---------------------------------------------------------------------
  // Which varints survive: the digit view.

  /** The base-128 digits of a group sequence, in stream order (least significant first as written). */
  function Digits(bs: seq<byte>): (ds: seq<nat>)
    ensures |ds| == |bs|
  {
    if bs == [] then [] else [bs[0] % 0x80] + Digits(bs[1..])
  }

  function Reverse(ds: seq<nat>): (r: seq<nat>)
    ensures |r| == |ds|
  {
    if ds == [] then [] else Reverse(ds[1..]) + [ds[0]]
  }

  /** The number a digit string stands for, its first digit least significant. */
  function DigitValue(ds: seq<nat>): nat
  {
    if ds == [] then 0 else ds[0] + 0x80 * DigitValue(ds[1..])
  }

  predicate SmallDigits(ds: seq<nat>)
  {
    forall i :: 0 <= i < |ds| ==> ds[i] < 0x80
  }

  lemma {:induction false} LsbDigits(bs: seq<byte>)
    ensures LsbValue(bs) == DigitValue(Digits(bs))
    ensures SmallDigits(Digits(bs))
    decreases |bs|
  {
    if bs != [] {
      LsbDigits(bs[1..]);
      var ds := Digits(bs);
      assert ds[1..] == Digits(bs[1..]);
    }
  }

  lemma {:induction false} MsbDigits(bs: seq<byte>)
    ensures MsbValue(bs) == DigitValue(Reverse(Digits(bs)))
    decreases |bs|
  {
    if bs != [] {
      MsbDigits(bs[1..]);
      assert Digits(bs)[1..] == Digits(bs[1..]);
      DigitValueSnoc(Reverse(Digits(bs[1..])), bs[0] % 0x80);
    }
  }

  lemma {:induction false} DigitValueSnoc(a: seq<nat>, x: nat)
    ensures DigitValue(a + [x]) == DigitValue(a) + x * Pow128(|a|)
    decreases |a|
  {
    if a != [] {
      assert (a + [x])[1..] == a[1..] + [x];
      DigitValueSnoc(a[1..], x);
      MulAssoc(0x80, x, Pow128(|a| - 1));
      MulAssoc(x, 0x80, Pow128(|a| - 1));
    }
  }

  lemma {:induction false} ReverseSmall(ds: seq<nat>)
    requires SmallDigits(ds)
    ensures SmallDigits(Reverse(ds))
    decreases |ds|
  {
    if ds != [] {
      ReverseSmall(ds[1..]);
    }
  }

  /** Two digit strings of one length stand for the same number only when they are equal. */
  lemma {:induction false} DigitValueUnique(a: seq<nat>, b: seq<nat>)
    requires |a| == |b| && SmallDigits(a) && SmallDigits(b)
    requires DigitValue(a) == DigitValue(b)
    ensures a == b
    decreases |a|
  {
    if a != [] {
      var x := DigitValue(a);
      assert x % 0x80 == a[0] && x % 0x80 == b[0];
      assert DigitValue(a[1..]) == DigitValue(b[1..]);
      DigitValueUnique(a[1..], b[1..]);
      assert a == [a[0]] + a[1..] && b == [b[0]] + b[1..];
    }
  }

  lemma {:induction false} DigitValueBound(ds: seq<nat>)
    requires SmallDigits(ds)
    ensures DigitValue(ds) < Pow128(|ds|)
    decreases |ds|
  {
    if ds != [] {
      DigitValueBound(ds[1..]);
    }
  }

  lemma {:induction false} Pow128Mono(j: nat, k: nat)
    requires j <= k
    ensures Pow128(j) <= Pow128(k)
    decreases k
  {
    if j < k {
      Pow128Mono(j, k - 1);
    }
  }

  lemma {:induction false} ReverseFirst(ds: seq<nat>)
    requires ds != []
    ensures Reverse(ds)[0] == ds[|ds| - 1]
    decreases |ds|
  {
    if |ds| > 1 {
      ReverseFirst(ds[1..]);
    }
  }

  /** The top digit of a ten-group number counts modulo 2 once the value is taken modulo 2^64 = 2 * 128^9. */
  lemma HighDigitMod(low: nat, h: nat)
    requires low < 0x8000_0000_0000_0000
    ensures (low + h * 0x8000_0000_0000_0000) % U64_LIMIT == low + (h % 2) * 0x8000_0000_0000_0000
  {
    var q := h / 2;
    assert h * 0x8000_0000_0000_0000 == (h % 2) * 0x8000_0000_0000_0000 + q * U64_LIMIT;
    ModAddMultiple(low + (h % 2) * 0x8000_0000_0000_0000, q);
  }

  /**
   * Ten digits whose reversal, read modulo 2^64, gives back their own value
   * form a palindrome: the nine low digits of the reversal must match, so
   * the first and last digit agree, and so does the tenth.
   */
  lemma TenDigitPalindrome(ds: seq<nat>)
    requires |ds| == 10 && SmallDigits(ds)
    requires DigitValue(Reverse(ds)) % U64_LIMIT == DigitValue(ds)
    ensures Reverse(ds) == ds
  {
    var a := Reverse(ds);
    ReverseSmall(ds);
    var low := a[..9];
    var cut := low + [a[9] % 2];
    assert a == low + [a[9]];
    DigitValueSnoc(low, a[9]);
    DigitValueSnoc(low, a[9] % 2);
    Pow128Ten();
    DigitValueBound(low);
    HighDigitMod(DigitValue(low), a[9]);
    DigitValueUnique(cut, ds);
    ReverseFirst(ds);
    assert a[9] == ds[0];
    assert forall i :: 0 <= i < 9 ==> a[i] == cut[i];
  }

  /**
   * Up to ten digits whose reversal, read modulo 2^64, gives back their own
   * value form a palindrome. Nine digits or fewer stay below 2^63, so no bit
   * is lost and the two digit strings are equal outright.
   */
  lemma ReversalFixed(ds: seq<nat>)
    requires |ds| <= 10 && SmallDigits(ds)
    requires DigitValue(Reverse(ds)) % U64_LIMIT == DigitValue(ds)
    ensures Reverse(ds) == ds
  {
    if |ds| <= 9 {
      ShortReversalFixed(ds);
    } else {
      TenDigitPalindrome(ds);
    }
  }

  lemma ShortReversalFixed(ds: seq<nat>)
    requires |ds| <= 9 && SmallDigits(ds)
    requires DigitValue(Reverse(ds)) % U64_LIMIT == DigitValue(ds)
    ensures Reverse(ds) == ds
  {
    var a := Reverse(ds);
    ReverseSmall(ds);
    assert DigitValue(a) < U64_LIMIT by {
      DigitValueBound(a);
      Pow128Mono(|ds|, 9);
      Pow128Ten();
    }
    SmallMod(DigitValue(a));
    DigitValueUnique(a, ds);
  }

  lemma SmallMod(x: nat)
    requires x < U64_LIMIT
    ensures x % U64_LIMIT == x
  {
  }

  /**
   * nbon reads back what its writer wrote, for any u64, if and only if the
   * base-128 digits of the value read the same in both directions.
   */
  lemma Leb128RoundTripIff(d: seq<byte>, p: nat, n: nat)
    requires n < U64_LIMIT && At(d, p, Varint(n))
    ensures Leb128At(d, p).res == Ok(n) <==> Reverse(Digits(Varint(n))) == Digits(Varint(n))
  {
    var bs := Varint(n);
    var ds := Digits(bs);
    Leb128OfVarint(d, p, n);
    VarintShape(n);
    LsbDigits(bs);
    MsbDigits(bs);
    assert Decoded(n) == DigitValue(Reverse(ds)) % U64_LIMIT;
    if Decoded(n) == n {
      Pow128Ten();
      VarintLength(n, 10);
      ReversalFixed(ds);
    }
  }

  // ---------------------------------------------------------------------
  // nextInt, nextUInt, nextFloat, nextDouble

  /**
   * nextInt(): next(), then a digit, or '+' and the varint cast to int64,
   * or '-' and the varint negated on uint64_t and cast to int64. There is
   * no range check.
   */
  function IntAt(d: seq<byte>, p: nat): (r: Parsed<int>)
    requires p <= |d|
    ensures p <= r.next <= |d|
    ensures r.res.Ok? ==> p < |d| && r.next > p && IsI64(r.res.value)
    ensures r.res.Ok? ==> IsDigit(d[p]) || d[p] == TagPlus || d[p] == TagMinus
  {
    var c := NextAt(d, p);
    if c.res.Err? then Parsed(Err(c.res.error), c.next)
    else if IsDigit(c.res.value) then Parsed(Ok(c.res.value - Digit0), c.next)
    else if c.res.value == TagPlus then
      var u := Leb128At(d, c.next);
      if u.res.Err? then Parsed(Err(u.res.error), u.next) else Parsed(Ok(SbonSpec.ToI64(u.res.value)), u.next)
    else if c.res.value == TagMinus then
      var u := Leb128At(d, c.next);
      if u.res.Err? then Parsed(Err(u.res.error), u.next) else Parsed(Ok(SbonSpec.ToI64(-(u.res.value as int))), u.next)
    else Parsed(Err(ParseError(NextIntExpected)), c.next)
  }

  /** nextUInt(): next(), then a digit or '+' and the varint; '-' is an error. */
  function UIntAt(d: seq<byte>, p: nat): (r: Parsed<nat>)
    requires p <= |d|
    ensures p <= r.next <= |d|
    ensures r.res.Ok? ==> p < |d| && r.next > p && IsU64(r.res.value)
    ensures r.res.Ok? ==> IsDigit(d[p]) || d[p] == TagPlus
  {
    var c := NextAt(d, p);
    if c.res.Err? then Parsed(Err(c.res.error), c.next)
    else if IsDigit(c.res.value) then Parsed(Ok(c.res.value - Digit0), c.next)
    else if c.res.value == TagPlus then Leb128At(d, c.next)
    else Parsed(Err(ParseError(NextUIntExpected)), c.next)
  }

  /** nextFloat(): the 'f' tag via get(), then four bytes via next(), least significant first. */
  function FloatAt(d: seq<byte>, p: nat): (r: Parsed<nat>)
    requires p <= |d|
    ensures p <= r.next <= |d|
    ensures r.res.Ok? ==> r.next == p + 5 && r.res.value < 0x1_0000_0000
  {
    var t := ExpectAt(d, p, TagFloat, NextFloatExpected);
    if t.res.Err? then Parsed(Err(t.res.error), t.next)
    else
      var x := LittleEndianAt(d, t.next, 4);
      if x.res.Ok? then FromLittleEndianBound(Span(d, t.next, t.next + 4)); Pow256Values(); x
      else x
  }

  function DoubleAt(d: seq<byte>, p: nat): (r: Parsed<nat>)
    requires p <= |d|
    ensures p <= r.next <= |d|
    ensures r.res.Ok? ==> r.next == p + 9 && r.res.value < U64_LIMIT
  {
    var t := ExpectAt(d, p, TagDouble, NextDoubleExpected);
    if t.res.Err? then Parsed(Err(t.res.error), t.next)
    else
      var x := LittleEndianAt(d, t.next, 8);
      if x.res.Ok? then FromLittleEndianBound(Span(d, t.next, t.next + 8)); Pow256Values(); x
      else x
  }

  /**
   * nextUInt on what writeUInt(n) wrote: 0..9 exactly, and otherwise what
   * nextLEB128 makes of the varint.
   */
  lemma UIntOfEncoded(d: seq<byte>, p: nat, n: nat)
    requires IsU64(n) && At(d, p, EncodeInteger(n))
    ensures UIntAt(d, p) == Parsed(Ok(if n <= 9 then n else Decoded(n)), p + |EncodeInteger(n)|)
  {
    AtFirst(d, p, EncodeInteger(n));
    if n > 9 {
      AtSplit(d, p, [TagPlus], Varint(n));
      Leb128OfVarint(d, p + 1, n);
    }
  }

  /**
   * nextInt on what writeInt(n) wrote: 0..9 exactly, and otherwise the
   * decoded magnitude with its sign, cast to int64.
   */
  lemma IntOfEncoded(d: seq<byte>, p: nat, n: int)
    requires IsI64(n) && At(d, p, EncodeInteger(n))
    ensures IntAt(d, p) == Parsed(Ok(
      if 0 <= n <= 9 then n
      else if n > 9 then SbonSpec.ToI64(Decoded(n))
      else SbonSpec.ToI64(-(Decoded(-n) as int))), p + |EncodeInteger(n)|)
  {
    AtFirst(d, p, EncodeInteger(n));
    if n > 9 {
      AtSplit(d, p, [TagPlus], Varint(n));
      Leb128OfVarint(d, p + 1, n);
    } else if n < 0 {
      AtSplit(d, p, [TagMinus], Varint(-n));
      Leb128OfVarint(d, p + 1, -n);
    }
  }

  /** Integers of at most one group, -127..127, round-trip through writeInt and nextInt. */
  lemma IntSmallRoundTrip(d: seq<byte>, p: nat, n: int)
    requires -0x80 < n < 0x80 && At(d, p, EncodeInteger(n))
    ensures IntAt(d, p) == Parsed(Ok(n), p + |EncodeInteger(n)|)
  {
    IntOfEncoded(d, p, n);
    if n > 9 {
      DecodedSmall(n);
      assert SbonSpec.InRange(SbonSpec.Signed(SbonSpec.W64), n);
    } else if n < 0 {
      DecodedSmall(-n);
      assert SbonSpec.InRange(SbonSpec.Signed(SbonSpec.W64), n);
    }
  }

  /** A value below 0x80 is one group, which decodes to itself. */
  lemma DecodedSmall(n: nat)
    requires n < 0x80
    ensures Decoded(n) == n
  {
    assert Varint(n) == [n];
    assert MsbValue([n]) == n % 0x80 * Pow128(0) + MsbValue([]);
  }

  /** writeUInt(128) is read back by nextUInt as 1. */
  lemma UInt128ReadsOne(d: seq<byte>, p: nat)
    requires At(d, p, EncodeInteger(128))
    ensures UIntAt(d, p) == Parsed(Ok(1), p + 3)
  {
    Leb128Of128();
    UIntOfEncoded(d, p, 128);
  }

  /** writeInt(INT64_MIN) is read back by nextInt as -1. */
  lemma IntMinReadsMinusOne(d: seq<byte>, p: nat)
    requires At(d, p, EncodeInteger(I64_MIN))
    ensures IntAt(d, p) == Parsed(Ok(-1), p + 11)
  {
    DecodedTwoTo63();
    NegativeEncoding(I64_MIN);
    IntOfEncoded(d, p, I64_MIN);
  }

  /** The float payload comes back as the same bit pattern, NaN included. */
  lemma FloatRoundTrip(d: seq<byte>, p: nat, bits: nat)
    requires bits < 0x1_0000_0000 && At(d, p, EncodeFloat(bits))
    ensures FloatAt(d, p) == Parsed(Ok(bits), p + 5)
  {
    AtSplit(d, p, [TagFloat], LittleEndian(bits, 4));
    AtFirst(d, p, EncodeFloat(bits));
    Pow256Values();
    LittleEndianAtRoundTrip(d, p + 1, bits, 4);
  }

  lemma DoubleRoundTrip(d: seq<byte>, p: nat, bits: nat)
    requires bits < U64_LIMIT && At(d, p, EncodeDouble(bits))
    ensures DoubleAt(d, p) == Parsed(Ok(bits), p + 9)
  {
    AtSplit(d, p, [TagDouble], LittleEndian(bits, 8));
    AtFirst(d, p, EncodeDouble(bits));
    Pow256Values();
    LittleEndianAtRoundTrip(d, p + 1, bits, 8);
  }

  // ---------------------------------------------------------------------
  // nextBinary / skipBinary

  /** A 'B' tag, the varint length read most-significant group first, then that many bytes. */
  function BinaryAt(d: seq<byte>, p: nat, tagMsg: Msg): (r: Parsed<seq<byte>>)
    requires p <= |d|
    ensures p <= r.next <= |d|
    ensures r.res.Ok? ==> r.next > p + 1
  {
    var t := ExpectAt(d, p, TagBinary, tagMsg);
    if t.res.Err? then Parsed(Err(t.res.error), t.next)
    else
      var size := Leb128At(d, t.next);
      if size.res.Err? then Parsed(Err(size.res.error), size.next)
      else TakeAt(d, size.next, size.res.value)
  }

  /** nextBinary on what writeBinary wrote takes as many bytes as the decoded length says. */
  lemma BinaryOfEncoded(d: seq<byte>, p: nat, data: seq<byte>, tagMsg: Msg)
    requires |data| < U64_LIMIT && At(d, p, EncodeBinary(data))
    ensures BinaryAt(d, p, tagMsg) == TakeAt(d, p + 1 + |Varint(|data|)|, Decoded(|data|))
  {
    BinaryLengthRead(d, p, data);
    BinaryAtParts(d, p, tagMsg, p + 1 + |Varint(|data|)|, Decoded(|data|));
  }

  /** The tag of a written blob, and its length as nextLEB128 reads it. */
  lemma BinaryLengthRead(d: seq<byte>, p: nat, data: seq<byte>)
    requires At(d, p, EncodeBinary(data))
    ensures p < |d| && d[p] == TagBinary && p + 1 + |Varint(|data|)| <= |d|
    ensures Leb128At(d, p + 1) == Parsed(Ok(Decoded(|data|)), p + 1 + |Varint(|data|)|)
  {
    BinaryLayout(d, p, data);
    Leb128OfVarint(d, p + 1, |data|);
  }

  /** Where the tag, the length and the payload of a written blob lie. */
  lemma BinaryLayout(d: seq<byte>, p: nat, data: seq<byte>)
    requires At(d, p, EncodeBinary(data))
    ensures p < |d| && d[p] == TagBinary
    ensures At(d, p + 1, Varint(|data|)) && At(d, p + 1 + |Varint(|data|)|, data)
    ensures |EncodeBinary(data)| == 1 + |Varint(|data|)| + |data|
  {
    AtSplit(d, p, [TagBinary] + Varint(|data|), data);
    AtSplit(d, p, [TagBinary], Varint(|data|));
    AtFirst(d, p, [TagBinary]);
  }

  lemma BinaryAtParts(d: seq<byte>, p: nat, tagMsg: Msg, q: nat, m: nat)
    requires p < |d| && d[p] == TagBinary && q <= |d| && Leb128At(d, p + 1) == Parsed(Ok(m), q)
    ensures BinaryAt(d, p, tagMsg) == TakeAt(d, q, m)
  {
  }

  /** A blob whose length reads back is returned exactly. */
  lemma BinaryRoundTrip(d: seq<byte>, p: nat, data: seq<byte>, tagMsg: Msg)
    requires |data| < U64_LIMIT && Decoded(|data|) == |data| && At(d, p, EncodeBinary(data))
    ensures BinaryAt(d, p, tagMsg) == Parsed(Ok(data), p + |EncodeBinary(data)|)
  {
    BinaryOfEncoded(d, p, data, tagMsg);
    AtSplit(d, p, [TagBinary] + Varint(|data|), data);
    AtSpan(d, p + 1 + |Varint(|data|)|, data);
  }

  /** A blob of 128 bytes has its length read as 1: nextBinary returns its first byte only. */
  lemma Binary128Misread(d: seq<byte>, p: nat, data: seq<byte>, tagMsg: Msg)
    requires |data| == 128 && At(d, p, EncodeBinary(data))
    ensures BinaryAt(d, p, tagMsg) == Parsed(Ok([data[0]]), p + 4)
  {
    Leb128Of128();
    BinaryOfEncoded(d, p, data, tagMsg);
    AtSplit(d, p, [TagBinary] + Varint(128), data);
    AtFirst(d, p + 3, data);
    assert Span(d, p + 3, p + 4) == [d[p + 3]];
  }

  // ---------------------------------------------------------------------
  // skipNext

  /** skipNext(): dispatch on nextType, then the matching next* or skip*; arrays and objects recurse. */
  function SkipNextAt(d: seq<byte>, p: nat): (r: Skipped)
    requires p <= |d|
    ensures p <= r.next <= |d|
    ensures r.res.Ok? ==> r.next > p && !r.locked
    decreases |d| - p, 2
  {
    var ty := TypeAt(d, p);
    if ty.Err? then Skipped(Err(ty.error), p, false)
    else if ty.value == TArray then SkipArrayAt(d, p)
    else if ty.value == TObject then SkipObjectAt(d, p)
    else Unlocked(SkipScalarAt(d, p, ty.value))
  }

  /** The call skipNext makes for each scalar type, its value dropped. */
  function SkipScalarAt(d: seq<byte>, p: nat, t: Type): (r: Parsed<()>)
    requires p <= |d|
    ensures p <= r.next <= |d|
    ensures r.res.Ok? ==> r.next > p
  {
    match t
    case TBool => Discard(BoolAt(d, p, NextBoolExpected))
    case TNil => ExpectAt(d, p, TagNull, SkipNilExpected)
    case TString => Discard(StringAt(d, p, SkipStringExpected))
    case TBinary => Discard(BinaryAt(d, p, SkipBinaryExpected))
    case TFloat => Discard(FloatAt(d, p))
    case TDouble => Discard(DoubleAt(d, p))
    case TInt => Discard(IntAt(d, p))
    case TUInt => Discard(UIntAt(d, p))
    case _ => Parsed(Err(LogicError), p)
  }

  /** nextArray with `arr.all(p.skipNext())`: '[', the values, ']'. */
  function SkipArrayAt(d: seq<byte>, p: nat): (r: Skipped)
    requires p <= |d|
    ensures p <= r.next <= |d|
    ensures r.res.Ok? ==> r.next > p && !r.locked
    decreases |d| - p, 1
  {
    var open := BracketAt(d, p, TagArray, NextArrayOpen);
    if open.res.Err? then Unlocked(open)
    else
      var body := SkipItemsAt(d, open.next);
      if body.res.Err? then Skipped(body.res, body.next, true)
      else Unlocked(BracketAt(d, body.next, TagArrayEnd, NextArrayClose))
  }

  /** nextObject with `obj.all(p.skipNext())`: '{', the members, '}'. */
  function SkipObjectAt(d: seq<byte>, p: nat): (r: Skipped)
    requires p <= |d|
    ensures p <= r.next <= |d|
    ensures r.res.Ok? ==> r.next > p && !r.locked
    decreases |d| - p, 1
  {
    var open := BracketAt(d, p, TagObject, NextObjectOpen);
    if open.res.Err? then Unlocked(open)
    else
      var body := SkipMembersAt(d, open.next);
      if body.res.Err? then Skipped(body.res, body.next, true)
      else Unlocked(BracketAt(d, body.next, TagObjectEnd, NextObjectClose))
  }

  /** `ArrayReader::all` with skipNext: values until the peek is ']' or end of stream. */
  function SkipItemsAt(d: seq<byte>, p: nat): (r: Parsed<()>)
    requires p <= |d|
    ensures p <= r.next <= |d|
    decreases |d| - p, 3
  {
    var c := PeekAt(d, p);
    if c.None? || c.value == TagArrayEnd then Parsed(Ok(()), p)
    else
      var e := SkipNextAt(d, p);
      if e.res.Err? then Parsed(e.res, e.next) else SkipItemsAt(d, e.next)
  }

  /** `ObjectReader::all` with skipNext: a key up to NUL, then its value, until '}' or end of stream. */
  function SkipMembersAt(d: seq<byte>, p: nat): (r: Parsed<()>)
    requires p <= |d|
    ensures p <= r.next <= |d|
    decreases |d| - p, 3
  {
    var c := PeekAt(d, p);
    if c.None? || c.value == TagObjectEnd then Parsed(Ok(()), p)
    else
      var k := CStringAt(d, p, ObjectNextEof);
      if k.res.Err? then Parsed(Err(k.res.error), k.next)
      else
        var e := SkipNextAt(d, k.next);
        if e.res.Err? then Parsed(e.res, e.next) else SkipMembersAt(d, e.next)
  }

  // ---------------------------------------------------------------------
  // What skipNext does on the bytes a writer produced.

  /**
   * The values skipNext gets through: every blob whose length reads back,
   * and no key whose first byte is '}'. Integers and floats need nothing:
   * nextInt has no range check and nextFloat no NaN check, and a varint is
   * consumed group by group whatever its value.
   */
  predicate Skippable(v: Value)
    decreases v, 0
  {
    match v
    case Bin(data) => Decoded(|data|) == |data|
    case Arr(items) => AllSkippable(items)
    case Obj(ms) => MembersSkippable(ms)
    case _ => true
  }

  predicate AllSkippable(items: seq<Value>)
    decreases items
  {
    items == [] || (Skippable(items[0]) && AllSkippable(items[1..]))
  }

  predicate MembersSkippable(ms: seq<Member>)
    decreases ms, 1
  {
    ms == [] || (MemberSkippable(ms[0]) && MembersSkippable(ms[1..]))
  }

  predicate MemberSkippable(m: Member)
    decreases m, 2
  {
    (m.key == [] || m.key[0] != TagObjectEnd) && Skippable(m.value)
  }

  /** skipNext consumes exactly one complete encoded value, recursing through arrays and objects. */
  lemma {:induction false} SkipEncoded(d: seq<byte>, p: nat, v: Value)
    requires WellFormed(v) && Skippable(v) && At(d, p, Encode(v))
    ensures SkipNextAt(d, p) == Skipped(Ok(()), p + |Encode(v)|, false)
    decreases v, 1
  {
    TypeOfEncoded(d, p, v);
    match v
    case Arr(items) => SkipArrayEncoded(d, p, items);
    case Obj(ms) => SkipObjectEncoded(d, p, ms);
    case _ => SkipScalarEncoded(d, p, v);
  }

  lemma SkipScalarEncoded(d: seq<byte>, p: nat, v: Value)
    requires !v.Arr? && !v.Obj?
    requires WellFormed(v) && Skippable(v) && At(d, p, Encode(v))
    ensures SkipScalarAt(d, p, TypeOf(v)) == Parsed(Ok(()), p + |Encode(v)|)
  {
    AtFirst(d, p, Encode(v));
    match v
    case Bool(b) =>
    case Null =>
    case Str(s) =>
      StringRoundTrip(d, p, s, SkipStringExpected);
    case Bin(data) =>
      BinaryRoundTrip(d, p, data, SkipBinaryExpected);
    case F32(bits) =>
      FloatRoundTrip(d, p, bits);
    case F64(bits) =>
      DoubleRoundTrip(d, p, bits);
    case Int(n) =>
      if n < 0 {
        IntOfEncoded(d, p, n);
      } else {
        UIntOfEncoded(d, p, n);
      }
  }

  lemma {:induction false} SkipArrayEncoded(d: seq<byte>, p: nat, items: seq<Value>)
    requires AllWellFormed(items) && AllSkippable(items) && At(d, p, Encode(Arr(items)))
    ensures SkipArrayAt(d, p) == Skipped(Ok(()), p + |Encode(Arr(items))|, false)
    decreases items, 4
  {
    var body := EncodeItems(items);
    Bracketed(d, p, TagArray, body, TagArrayEnd);
    assert ItemsLaidOut(d, p + 1, items);
    SkipItemsEncoded(d, p + 1, items);
    SkipArrayStep(d, p, p + 1 + |body|);
  }

  lemma {:induction false} SkipObjectEncoded(d: seq<byte>, p: nat, ms: seq<Member>)
    requires MembersWellFormed(ms) && MembersSkippable(ms) && At(d, p, Encode(Obj(ms)))
    ensures SkipObjectAt(d, p) == Skipped(Ok(()), p + |Encode(Obj(ms))|, false)
    decreases ms, 4
  {
    var body := EncodeMembers(ms);
    Bracketed(d, p, TagObject, body, TagObjectEnd);
    SkipMembersEncoded(d, p + 1, ms);
    SkipObjectStep(d, p, p + 1 + |body|);
  }

  /** An array whose values end just before a ']'. */
  lemma SkipArrayStep(d: seq<byte>, p: nat, s: nat)
    requires p < |d| && d[p] == TagArray && s < |d| && d[s] == TagArrayEnd
    requires SkipItemsAt(d, p + 1) == Parsed(Ok(()), s)
    ensures SkipArrayAt(d, p) == Skipped(Ok(()), s + 1, false)
  {
  }

  /** An object whose members end just before a '}'. */
  lemma SkipObjectStep(d: seq<byte>, p: nat, s: nat)
    requires p < |d| && d[p] == TagObject && s < |d| && d[s] == TagObjectEnd
    requires SkipMembersAt(d, p + 1) == Parsed(Ok(()), s)
    ensures SkipObjectAt(d, p) == Skipped(Ok(()), s + 1, false)
  {
  }

  /** A written value list, followed by the closing ']' of its array. */
  predicate ItemsLaidOut(d: seq<byte>, p: nat, items: seq<Value>)
  {
    && AllWellFormed(items) && AllSkippable(items)
    && At(d, p, EncodeItems(items)) && At(d, p + |EncodeItems(items)|, [TagArrayEnd])
  }

  lemma {:induction false} SkipItemsEncoded(d: seq<byte>, p: nat, items: seq<Value>)
    requires ItemsLaidOut(d, p, items)
    ensures SkipItemsAt(d, p) == Parsed(Ok(()), p + |EncodeItems(items)|)
    decreases items, 3
  {
    if items == [] {
      AtFirst(d, p, [TagArrayEnd]);
    } else {
      ItemSkipped(d, p, items);
      SkipItemsEncoded(d, p + |Encode(items[0])|, items[1..]);
    }
  }

  /** One value of a written array: the `all` loop gets past it and finds the rest laid out. */
  lemma ItemSkipped(d: seq<byte>, p: nat, items: seq<Value>)
    requires items != [] && ItemsLaidOut(d, p, items)
    ensures SkipItemsAt(d, p) == SkipItemsAt(d, p + |Encode(items[0])|)
    ensures ItemsLaidOut(d, p + |Encode(items[0])|, items[1..])
    ensures |EncodeItems(items)| == |Encode(items[0])| + |EncodeItems(items[1..])|
    decreases items, 2
  {
    ItemsSplit(d, p, items);
    NotACloser(d, p, items[0]);
    SkipEncoded(d, p, items[0]);
    SkipItemsStep(d, p, p + |Encode(items[0])|);
  }

  /** A written member list, followed by the closing '}' of its object. */
  predicate MembersLaidOut(d: seq<byte>, p: nat, ms: seq<Member>)
  {
    && MembersWellFormed(ms) && MembersSkippable(ms)
    && At(d, p, EncodeMembers(ms)) && At(d, p + |EncodeMembers(ms)|, [TagObjectEnd])
  }

  /** One member at `p`: hasNext sees no '}', the key runs to `q`, the value's skipNext to `r`. */
  predicate MemberStepAt(d: seq<byte>, p: nat, key: seq<byte>, q: nat, r: nat)
  {
    && p < |d| && d[p] != TagObjectEnd && q <= r <= |d|
    && CStringAt(d, p, ObjectNextEof) == Parsed(Ok(key), q)
    && SkipNextAt(d, q) == Skipped(Ok(()), r, false)
  }

  lemma {:induction false} SkipMembersEncoded(d: seq<byte>, p: nat, ms: seq<Member>)
    requires MembersLaidOut(d, p, ms)
    ensures SkipMembersAt(d, p) == Parsed(Ok(()), p + |EncodeMembers(ms)|)
    decreases ms, 3
  {
    if ms == [] {
      assert |EncodeMembers(ms)| == 0;
      AtFirst(d, p, [TagObjectEnd]);
    } else {
      var r := p + |EncodeMember(ms[0])|;
      MemberSkipped(d, p, ms);
      SkipMembersEncoded(d, r, ms[1..]);
    }
  }

  /** One member of a written object: the `all` loop gets past it and finds the rest laid out. */
  lemma MemberSkipped(d: seq<byte>, p: nat, ms: seq<Member>)
    requires ms != [] && MembersLaidOut(d, p, ms)
    ensures SkipMembersAt(d, p) == SkipMembersAt(d, p + |EncodeMember(ms[0])|)
    ensures MembersLaidOut(d, p + |EncodeMember(ms[0])|, ms[1..])
    ensures |EncodeMembers(ms)| == |EncodeMember(ms[0])| + |EncodeMembers(ms[1..])|
    decreases ms, 2
  {
    MemberEncodedHead(d, p, ms);
    SkipMembersStep(d, p, ms[0].key, p + |EncodeKey(ms[0].key)|, p + |EncodeMember(ms[0])|);
  }

  /** The first member of a written object: its key reads back, its value skips, the rest follows. */
  lemma {:induction false} MemberEncodedHead(d: seq<byte>, p: nat, ms: seq<Member>)
    requires ms != [] && MembersLaidOut(d, p, ms)
    ensures MemberStepAt(d, p, ms[0].key, p + |EncodeKey(ms[0].key)|, p + |EncodeMember(ms[0])|)
    ensures MembersLaidOut(d, p + |EncodeMember(ms[0])|, ms[1..])
    ensures |EncodeMembers(ms)| == |EncodeMember(ms[0])| + |EncodeMembers(ms[1..])|
    decreases ms, 1
  {
    MembersLayout(d, p, ms);
    SkipEncoded(d, p + |EncodeKey(ms[0].key)|, ms[0].value);
  }

  /** Where the first member of a written member list lies, and that its key reads back. */
  lemma MembersLayout(d: seq<byte>, p: nat, ms: seq<Member>)
    requires ms != [] && MembersLaidOut(d, p, ms)
    ensures WellFormed(ms[0].value) && Skippable(ms[0].value)
    ensures At(d, p + |EncodeKey(ms[0].key)|, Encode(ms[0].value))
    ensures p < |d| && d[p] != TagObjectEnd
    ensures CStringAt(d, p, ObjectNextEof) == Parsed(Ok(ms[0].key), p + |EncodeKey(ms[0].key)|)
    ensures |EncodeMember(ms[0])| == |EncodeKey(ms[0].key)| + |Encode(ms[0].value)|
    ensures MembersLaidOut(d, p + |EncodeMember(ms[0])|, ms[1..])
    ensures |EncodeMembers(ms)| == |EncodeMember(ms[0])| + |EncodeMembers(ms[1..])|
  {
    assert MemberWellFormed(ms[0]) && MemberSkippable(ms[0]);
    MembersSplit(d, p, ms);
    MemberKeyRead(d, p, ms[0].key);
  }

  /** One turn of the `all` loop over array values. */
  lemma SkipItemsStep(d: seq<byte>, p: nat, r: nat)
    requires p < |d| && d[p] != TagArrayEnd && r <= |d|
    requires SkipNextAt(d, p) == Skipped(Ok(()), r, false)
    ensures SkipItemsAt(d, p) == SkipItemsAt(d, r)
  {
  }

  /** One turn of the `all` loop over object members. */
  lemma SkipMembersStep(d: seq<byte>, p: nat, key: seq<byte>, q: nat, r: nat)
    requires MemberStepAt(d, p, key, q, r)
    ensures SkipMembersAt(d, p) == SkipMembersAt(d, r)
  {
  }

  /** skipNext gets through writeInt(INT64_MIN), which sbon's skip rejects. */
  lemma SkipIntMin(d: seq<byte>, p: nat)
    requires At(d, p, EncodeInteger(I64_MIN))
    ensures SkipNextAt(d, p) == Skipped(Ok(()), p + 11, false)
  {
    SkipEncoded(d, p, Int(I64_MIN));
    DecodedTwoTo63();
  }
}
