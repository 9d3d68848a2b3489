/**
 * The tag-byte wire format that both libraries (sbon.h and nbon.h) write:
 * bytes, tag bytes, error and result types, the grammar of an encoded value
 * as a datatype, and the pure encoders that the two `Writer` classes are
 * proved against.
 */
module Wire {

  type byte = x: int | 0 <= x < 256

  /** 2^64: the number of values of a 64-bit integer. */
  const U64_LIMIT: int := 0x1_0000_0000_0000_0000
  const I64_MAX: int := 0x7fff_ffff_ffff_ffff
  const I64_MIN: int := -0x8000_0000_0000_0000

  predicate IsU64(n: int) { 0 <= n < U64_LIMIT }
  predicate IsI64(n: int) { I64_MIN <= n <= I64_MAX }

  // Tag bytes (the first byte of every encoded value) and closers.
  const TagTrue: byte := 'T' as int
  const TagFalse: byte := 'F' as int
  const TagNull: byte := 'N' as int
  const TagString: byte := 'S' as int
  const TagBinary: byte := 'B' as int
  const TagFloat: byte := 'f' as int
  const TagDouble: byte := 'd' as int
  const TagPlus: byte := '+' as int
  const TagMinus: byte := '-' as int
  const TagArray: byte := '[' as int
  const TagArrayEnd: byte := ']' as int
  const TagObject: byte := '{' as int
  const TagObjectEnd: byte := '}' as int
  const Digit0: byte := '0' as int
  const Digit9: byte := '9' as int

  predicate IsDigit(b: byte) { Digit0 <= b <= Digit9 }

  /**
   * The messages the readers' ParseErrors carry, one constructor per
   * distinct text; `Text` spells each out as the C++ code does.
   */
  datatype Msg =
    | UnexpectedEof | UnexpectedCharacter | ObjectNextEof
    | SkipNilExpected | SkipStringExpected | SkipBinaryExpected
    | GetBoolExpected | GetStringExpected | GetBinaryExpected
    | Unrepresentable | ExpectedNumber
    | GetArrayOpen | GetArrayClose | GetObjectOpen | GetObjectClose
    | NextBoolExpected | NextStringExpected | NextBinaryExpected
    | NextFloatExpected | NextDoubleExpected | NextIntExpected | NextUIntExpected
    | NextArrayOpen | NextArrayClose | NextObjectOpen | NextObjectClose

  function Text(m: Msg): string
  {
    match m
    case UnexpectedEof => "Unexpected EOF"
    case UnexpectedCharacter => "Unexpected character"
    case ObjectNextEof => "ObjectReader::next: Unexpected EOF"
    case SkipNilExpected => "skipNil: Expected 'N'"
    case SkipStringExpected => "skipString: Expected 'S'"
    case SkipBinaryExpected => "skipBinary: Expected 'B'"
    case GetBoolExpected => "getBool: Expected 'T' or 'F'"
    case GetStringExpected => "getString: Expected 'S'"
    // sbon's getBinary reports itself as getString
    case GetBinaryExpected => "getString: Expected 'B'"
    case Unrepresentable => "getNumber: Got unrepresentable number"
    case ExpectedNumber => "getNumber: Expected number"
    case GetArrayOpen => "getArray: Expected '['"
    case GetArrayClose => "getArray: Expected ']'"
    case GetObjectOpen => "getObject: Expected '{'"
    case GetObjectClose => "getObject: Expected '}'"
    case NextBoolExpected => "nextBool: Expected 'T' or 'F'"
    case NextStringExpected => "nextString: Expected 'S'"
    // nbon's nextBinary reports itself as nextString
    case NextBinaryExpected => "nextString: Expected 'B'"
    case NextFloatExpected => "nextFloat: Expected 'f'"
    case NextDoubleExpected => "nextDouble: Expected 'd'"
    case NextIntExpected => "nextInt: Expected '0'-'9', '+' or '-'"
    case NextUIntExpected => "nextInt: Expected '0'-'9' or '+'"
    case NextArrayOpen => "nextArray: Expected '['"
    case NextArrayClose => "nextArray: Expected ']'"
    case NextObjectOpen => "nextObject: Expected '{'"
    case NextObjectClose => "nextObject: Expected '}'"
  }

  /**
   * The two exception classes of each library (LogicError, ParseError with
   * its message), plus `UndefinedShift` for the one input on which sbon's
   * nextLEB128 has undefined behaviour (a shift by 64 or more) instead of a
   * defined outcome.
   */
  datatype Error = LogicError | ParseError(msg: Msg) | UndefinedShift

  datatype Result<+T> = Ok(value: T) | Err(error: Error) {
    predicate IsFailure() { Err? }
    function PropagateFailure<U>(): Result<U>
      requires Err?
    {
      Err(error)
    }
    function Extract(): T
      requires Ok?
    {
      value
    }
  }

  datatype Option<+T> = None | Some(value: T)

  /** The enum `Type` of both libraries. */
  datatype Type = TBool | TNil | TString | TBinary | TFloat | TDouble | TInt | TUInt | TArray | TObject

  /**
   * A value as a writer can produce it. `Int` covers both `writeInt` (int64)
   * and `writeUInt` (uint64); `F32`/`F64` carry the IEEE-754 bit pattern
   * of the float, which is all the encoding looks at.
   */
  datatype Value =
    | Bool(b: bool)
    | Null
    | Str(s: seq<byte>)
    | Bin(data: seq<byte>)
    | F32(bits: nat)
    | F64(bits: nat)
    | Int(n: int)
    | Arr(items: seq<Value>)
    | Obj(members: seq<Member>)

  datatype Member = Member(key: seq<byte>, value: Value)

  predicate NulFree(s: seq<byte>) { forall i :: 0 <= i < |s| ==> s[i] != 0 }

  /** The values a writer can be asked to write, with strings and keys free of NUL. */
  predicate WellFormed(v: Value)
    decreases v, 0
  {
    match v
    case Bool(_) => true
    case Null => true
    case Str(s) => NulFree(s)
    case Bin(data) => |data| < U64_LIMIT
    case F32(bits) => bits < 0x1_0000_0000
    case F64(bits) => bits < U64_LIMIT
    case Int(n) => I64_MIN <= n < U64_LIMIT
    case Arr(items) => AllWellFormed(items)
    case Obj(members) => MembersWellFormed(members)
  }

  predicate AllWellFormed(items: seq<Value>)
    decreases items
  {
    items == [] || (WellFormed(items[0]) && AllWellFormed(items[1..]))
  }

  predicate MembersWellFormed(ms: seq<Member>)
    decreases ms, 1
  {
    ms == [] || (MemberWellFormed(ms[0]) && MembersWellFormed(ms[1..]))
  }

  predicate MemberWellFormed(m: Member)
    decreases m, 2
  {
    NulFree(m.key) && WellFormed(m.value)
  }

  // ---------------------------------------------------------------------
  // Powers of two and of 128.

  function Pow2(k: nat): (r: nat)
    ensures r >= 1
  {
    if k == 0 then 1 else 2 * Pow2(k - 1)
  }

  lemma Pow2Plus7(s: nat)
    ensures Pow2(s + 7) == 128 * Pow2(s)
  {
    assert Pow2(s + 7) == 2 * Pow2(s + 6);
    assert Pow2(s + 6) == 2 * Pow2(s + 5);
    assert Pow2(s + 5) == 2 * Pow2(s + 4);
    assert Pow2(s + 4) == 2 * Pow2(s + 3);
    assert Pow2(s + 3) == 2 * Pow2(s + 2);
  }

  function Pow128(k: nat): (r: nat)
    ensures r >= 1
  {
    if k == 0 then 1 else 128 * Pow128(k - 1)
  }

  function Pow256(k: nat): (r: nat)
    ensures r >= 1
  {
    if k == 0 then 1 else 256 * Pow256(k - 1)
  }

  // ---------------------------------------------------------------------
  // Unsigned LEB128 varint, least-significant group first (writeLEB128).

  function Varint(n: nat): seq<byte>
    decreases n
  {
    if n <= 0x7f then [n] else [0x80 + n % 0x80] + Varint(n / 0x80)
  }

  /** The continuation-bit shape: every byte but the last has the high bit set. */
  predicate GroupShape(bs: seq<byte>)
  {
    && |bs| >= 1
    && (forall i :: 0 <= i < |bs| - 1 ==> bs[i] >= 0x80)
    && bs[|bs| - 1] < 0x80
  }

  /** The number a group sequence stands for when read least-significant group first. */
  function LsbValue(bs: seq<byte>): nat
  {
    if bs == [] then 0 else bs[0] % 0x80 + 0x80 * LsbValue(bs[1..])
  }

  /** The number a group sequence stands for when read most-significant group first. */
  function MsbValue(bs: seq<byte>): nat
  {
    if bs == [] then 0 else (bs[0] % 0x80) * Pow128(|bs| - 1) + MsbValue(bs[1..])
  }

  lemma {:induction false} VarintShape(n: nat)
    ensures GroupShape(Varint(n))
    ensures LsbValue(Varint(n)) == n
    decreases n
  {
    if n > 0x7f {
      VarintShape(n / 0x80);
      var b: byte := 0x80 + n % 0x80;
      GroupCons(b, Varint(n / 0x80));
      SplitGroup(n);
    }
  }

  /** Putting a continued group in front keeps the shape and shifts the value by seven bits. */
  lemma GroupCons(b: byte, t: seq<byte>)
    requires b >= 0x80 && GroupShape(t)
    ensures GroupShape([b] + t)
    ensures LsbValue([b] + t) == b % 0x80 + 0x80 * LsbValue(t)
  {
    var s := [b] + t;
    assert s[1..] == t;
    forall i | 0 <= i < |s| - 1
      ensures s[i] >= 0x80
    {
      if i > 0 { assert s[i] == t[i - 1]; }
    }
  }

  lemma SplitGroup(n: nat)
    ensures (0x80 + n % 0x80) % 0x80 + 0x80 * (n / 0x80) == n
  {
  }

  lemma {:induction false} VarintLength(n: nat, k: nat)
    requires k >= 1 && n < Pow128(k)
    ensures |Varint(n)| <= k
    decreases k
  {
    if n > 0x7f {
      assert k > 1;
      VarintLength(n / 0x80, k - 1);
    }
  }

  lemma Pow128Ten()
    ensures Pow128(9) == 0x8000_0000_0000_0000
    ensures Pow128(10) == 0x40_0000_0000_0000_0000
  {
    assert Pow128(1) == 0x80;
    assert Pow128(2) == 0x4000;
    assert Pow128(3) == 0x20_0000;
    assert Pow128(4) == 0x1000_0000;
    assert Pow128(5) == 0x8_0000_0000;
    assert Pow128(6) == 0x400_0000_0000;
    assert Pow128(7) == 0x2_0000_0000_0000;
    assert Pow128(8) == 0x100_0000_0000_0000;
    assert Pow128(9) == 0x8000_0000_0000_0000;
  }

  /**
   * writeLEB128 emits between one and ten bytes for any 64-bit value, all
   * but the last with the continuation bit set.
   */
  lemma VarintOfU64(n: nat)
    requires n < U64_LIMIT
    ensures 1 <= |Varint(n)| <= 10
    ensures GroupShape(Varint(n)) && LsbValue(Varint(n)) == n
  {
    Pow128Ten();
    VarintLength(n, 10);
    VarintShape(n);
  }

  /** A varint is a single byte exactly when the value fits in seven bits. */
  lemma {:induction false} VarintSingleByte(n: nat)
    ensures |Varint(n)| == 1 <==> n < 0x80
  {
    if n > 0x7f {
      assert |Varint(n)| == 1 + |Varint(n / 0x80)|;
    }
  }

  // ---------------------------------------------------------------------
  // Strings, integers, floats and compound values.

  /** Index of the first NUL in `s`, or |s| when there is none. */
  function FirstNul(s: seq<byte>): (k: nat)
    ensures k <= |s|
    ensures forall i :: 0 <= i < k ==> s[i] != 0
    ensures k < |s| ==> s[k] == 0
  {
    if s == [] then 0 else if s[0] == 0 then 0 else 1 + FirstNul(s[1..])
  }

  /** What a C string of `s` is: the bytes up to its first NUL. */
  function CString(s: seq<byte>): (r: seq<byte>)
    ensures NulFree(r)
    ensures NulFree(s) ==> r == s
  {
    s[..FirstNul(s)]
  }

  /** Little-endian byte packing of the low `k` bytes of `n`. */
  function LittleEndian(n: nat, k: nat): (r: seq<byte>)
    ensures |r| == k
  {
    if k == 0 then [] else [n % 0x100] + LittleEndian(n / 0x100, k - 1)
  }

  function FromLittleEndian(bs: seq<byte>): nat
  {
    if bs == [] then 0 else bs[0] + 0x100 * FromLittleEndian(bs[1..])
  }

  /** Reassembling the packed bytes gives back the bit pattern. */
  lemma {:induction false} LittleEndianRoundTrip(n: nat, k: nat)
    requires n < Pow256(k)
    ensures FromLittleEndian(LittleEndian(n, k)) == n
    decreases k
  {
    if k > 0 {
      LittleEndianRoundTrip(n / 0x100, k - 1);
      assert LittleEndian(n, k)[1..] == LittleEndian(n / 0x100, k - 1);
    }
  }

  /** The four bytes writeFloat emits, `(n & (0xff << 8i)) >> 8i` for i = 0..3. */
  lemma LittleEndian4(n: nat)
    ensures LittleEndian(n, 4) == [n % 0x100, n / 0x100 % 0x100, n / 0x1_0000 % 0x100, n / 0x100_0000 % 0x100]
  {
    var n1, n2, n3 := n / 0x100, n / 0x1_0000, n / 0x100_0000;
    assert n1 / 0x100 == n2;
    assert n2 / 0x100 == n3;
    assert LittleEndian(n3, 1) == [n3 % 0x100];
    assert LittleEndian(n2, 2) == [n2 % 0x100] + LittleEndian(n3, 1);
    assert LittleEndian(n1, 3) == [n1 % 0x100] + LittleEndian(n2, 2);
  }

  /** The eight bytes writeDouble emits, `(n & (0xff << 8i)) >> 8i` for i = 0..7. */
  lemma LittleEndian8(n: nat)
    ensures LittleEndian(n, 8) == [n % 0x100, n / 0x100 % 0x100, n / 0x1_0000 % 0x100, n / 0x100_0000 % 0x100,
      n / 0x1_0000_0000 % 0x100, n / 0x100_0000_0000 % 0x100, n / 0x1_0000_0000_0000 % 0x100, n / 0x100_0000_0000_0000 % 0x100]
  {
    var n4 := n / 0x1_0000_0000;
    LittleEndian4(n);
    LittleEndian4(n4);
    assert n4 / 0x100 == n / 0x100_0000_0000;
    assert n4 / 0x1_0000 == n / 0x1_0000_0000_0000;
    assert n4 / 0x100_0000 == n / 0x100_0000_0000_0000;
    LittleEndianHalves(n);
  }

  /** Eight little-endian bytes are the low four followed by the four of the high half. */
  lemma LittleEndianHalves(n: nat)
    ensures LittleEndian(n, 8) == LittleEndian(n, 4) + LittleEndian(n / 0x1_0000_0000, 4)
  {
    LittleEndianConcat(n, 4, 4);
    var n1 := n / 0x100;
    var n2 := n1 / 0x100;
    var n3 := n2 / 0x100;
    assert n2 == n / 0x1_0000;
    assert n3 == n / 0x100_0000;
    assert n3 / 0x100 == n / 0x1_0000_0000;
  }

  /** n with its low j bytes shifted out. */
  function ShiftedOut(n: nat, j: nat): nat
    decreases j
  {
    if j == 0 then n else ShiftedOut(n / 0x100, j - 1)
  }

  /** The first j bytes of a j + k byte packing, then the packing of what is left above them. */
  lemma {:induction false} LittleEndianConcat(n: nat, j: nat, k: nat)
    ensures LittleEndian(n, j + k) == LittleEndian(n, j) + LittleEndian(ShiftedOut(n, j), k)
    decreases j
  {
    if j > 0 {
      var b, m := [n % 0x100], n / 0x100;
      LittleEndianConcat(m, j - 1, k);
      assert LittleEndian(n, j + k) == b + LittleEndian(m, j - 1 + k);
      assert LittleEndian(n, j) == b + LittleEndian(m, j - 1);
      assert b + (LittleEndian(m, j - 1) + LittleEndian(ShiftedOut(m, j - 1), k))
          == (b + LittleEndian(m, j - 1)) + LittleEndian(ShiftedOut(m, j - 1), k);
    }
  }

  lemma MulAssoc(a: int, b: int, c: int)
    ensures a * (b * c) == (a * b) * c
  {
  }

  lemma Pow256Values()
    ensures Pow256(4) == 0x1_0000_0000
    ensures Pow256(8) == U64_LIMIT
  {
    assert Pow256(2) == 0x1_0000;
    assert Pow256(3) == 0x100_0000;
    assert Pow256(5) == 0x100_0000_0000;
    assert Pow256(6) == 0x1_0000_0000_0000;
    assert Pow256(7) == 0x100_0000_0000_0000;
  }

  /**
   * The canonical integer form of writeInt/writeUInt: a digit for 0..9,
   * '+' and the varint for larger values, '-' and the varint of the
   * magnitude for negative ones.
   */
  function EncodeInteger(n: int): seq<byte>
  {
    if 0 <= n <= 9 then [Digit0 + n]
    else if n >= 10 then [TagPlus] + Varint(n)
    else [TagMinus] + Varint(-n)
  }

  function EncodeString(s: seq<byte>): seq<byte>
  {
    [TagString] + CString(s) + [0]
  }

  function EncodeBinary(data: seq<byte>): seq<byte>
  {
    [TagBinary] + Varint(|data|) + data
  }

  function EncodeFloat(bits: nat): seq<byte>
  {
    [TagFloat] + LittleEndian(bits, 4)
  }

  function EncodeDouble(bits: nat): seq<byte>
  {
    [TagDouble] + LittleEndian(bits, 8)
  }

  function EncodeKey(key: seq<byte>): seq<byte>
  {
    CString(key) + [0]
  }

  function Encode(v: Value): seq<byte>
    decreases v, 0
  {
    match v
    case Bool(b) => if b then [TagTrue] else [TagFalse]
    case Null => [TagNull]
    case Str(s) => EncodeString(s)
    case Bin(data) => EncodeBinary(data)
    case F32(bits) => EncodeFloat(bits)
    case F64(bits) => EncodeDouble(bits)
    case Int(n) => EncodeInteger(n)
    case Arr(items) => [TagArray] + EncodeItems(items) + [TagArrayEnd]
    case Obj(members) => [TagObject] + EncodeMembers(members) + [TagObjectEnd]
  }

  function EncodeItems(items: seq<Value>): seq<byte>
    decreases items
  {
    if items == [] then [] else Encode(items[0]) + EncodeItems(items[1..])
  }

  function EncodeMembers(ms: seq<Member>): seq<byte>
    decreases ms, 1
  {
    if ms == [] then [] else EncodeMember(ms[0]) + EncodeMembers(ms[1..])
  }

  function EncodeMember(m: Member): seq<byte>
    decreases m, 2
  {
    EncodeKey(m.key) + Encode(m.value)
  }

  /** A negative integer is written as '-' and the varint of its magnitude. */
  lemma NegativeEncoding(n: int)
    requires n < 0
    ensures EncodeInteger(n) == [TagMinus] + Varint(-n)
  {
  }

  /** Canonical form: exactly the integers 0..9 take a single byte, and no other form is written for them. */
  lemma CanonicalInteger(n: int)
    requires I64_MIN <= n < U64_LIMIT
    ensures |EncodeInteger(n)| == 1 <==> 0 <= n <= 9
    ensures 0 <= n <= 9 ==> EncodeInteger(n)[0] == Digit0 + n
    ensures n >= 10 ==> EncodeInteger(n)[0] == TagPlus
    ensures n < 0 ==> EncodeInteger(n)[0] == TagMinus
  {
    if n >= 10 { VarintOfU64(n); } else if n < 0 { VarintOfU64(-n); }
  }

  /** The Type getType reports for an encoded value (non-negative integers are written as UINT). */
  function TypeOf(v: Value): Type
  {
    match v
    case Bool(_) => TBool
    case Null => TNil
    case Str(_) => TString
    case Bin(_) => TBinary
    case F32(_) => TFloat
    case F64(_) => TDouble
    case Int(n) => if n < 0 then TInt else TUInt
    case Arr(_) => TArray
    case Obj(_) => TObject
  }
}
