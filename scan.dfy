/**
 * Pure semantics of the reader primitives that sbon.h and nbon.h share:
 * each function takes the bytes of the stream and a position and returns
 * the outcome of the C++ operation together with the position it leaves
 * the stream at (also on the error path, where the C++ code has already
 * consumed bytes before throwing).
 */
module Scan {
  import opened Wire

  datatype Parsed<+T> = Parsed(res: Result<T>, next: nat)


  /**
   * `e` occurs in `d` at position `p`, stated one byte at a time so that a
   * proof only sees as many bytes as it asks for.
   */
  predicate At(d: seq<byte>, p: nat, e: seq<byte>)
    decreases |e|
  {
    p + |e| <= |d| && (e == [] || (d[p] == e[0] && At(d, p + 1, e[1..])))
  }

  /** At is the slice equality. */
  lemma {:induction false} AtSlice(d: seq<byte>, p: nat, e: seq<byte>)
    ensures At(d, p, e) <==> p + |e| <= |d| && d[p..p + |e|] == e
    decreases |e|
  {
    if e != [] && p + |e| <= |d| {
      AtSlice(d, p + 1, e[1..]);
      assert d[p..p + |e|] == [d[p]] + d[p + 1..p + |e|];
      assert e == [e[0]] + e[1..];
    }
  }

  lemma {:induction false} AtSplit(d: seq<byte>, p: nat, e1: seq<byte>, e2: seq<byte>)
    requires At(d, p, e1 + e2)
    ensures At(d, p, e1) && At(d, p + |e1|, e2)
    decreases |e1|
  {
    if e1 == [] {
      assert e1 + e2 == e2;
    } else {
      assert (e1 + e2)[1..] == e1[1..] + e2;
      AtSplit(d, p + 1, e1[1..], e2);
    }
  }

  lemma AtFirst(d: seq<byte>, p: nat, e: seq<byte>)
    requires At(d, p, e) && |e| > 0
    ensures p < |d| && d[p] == e[0]
  {
  }

  /** e[i] is the byte at p + i. */
  lemma {:induction false} AtIndex(d: seq<byte>, p: nat, e: seq<byte>, i: nat)
    requires At(d, p, e) && i < |e|
    ensures d[p + i] == e[i]
    decreases i
  {
    if i > 0 {
      AtIndex(d, p + 1, e[1..], i - 1);
    }
  }

  /** The bytes of the stream from `p` up to (not including) `k`, in order. */
  function Span(d: seq<byte>, p: nat, k: nat): (r: seq<byte>)
    requires p <= k <= |d|
    ensures |r| == k - p
    decreases k - p
  {
    if p == k then [] else [d[p]] + Span(d, p + 1, k)
  }

  lemma {:induction false} SpanIndex(d: seq<byte>, p: nat, k: nat, i: nat)
    requires p <= k <= |d| && i < k - p
    ensures Span(d, p, k)[i] == d[p + i]
    decreases i
  {
    if i > 0 {
      SpanIndex(d, p + 1, k, i - 1);
    }
  }

  /** Span is the slice. */
  lemma SpanSlice(d: seq<byte>, p: nat, k: nat)
    requires p <= k <= |d|
    ensures Span(d, p, k) == d[p..k]
  {
    forall i | 0 <= i < k - p
      ensures Span(d, p, k)[i] == d[p..k][i]
    {
      SpanIndex(d, p, k, i);
    }
  }

  /** Reading back |e| bytes where `e` occurs gives `e`. */
  lemma {:induction false} AtSpan(d: seq<byte>, p: nat, e: seq<byte>)
    requires At(d, p, e)
    ensures Span(d, p, p + |e|) == e
    decreases |e|
  {
    if e != [] {
      AtSpan(d, p + 1, e[1..]);
    }
  }

  /** The bytes read so far, one more byte. */
  lemma {:induction false} SpanSnoc(d: seq<byte>, p: nat, k: nat)
    requires p <= k < |d|
    ensures Span(d, p, k + 1) == Span(d, p, k) + [d[k]]
    decreases k - p
  {
    if p < k {
      SpanSnoc(d, p + 1, k);
    }
  }

  /** peek(): the next byte, or None at end of stream. */
  function PeekAt(d: seq<byte>, p: nat): (r: Option<byte>)
    requires p <= |d|
    ensures r.Some? <==> p < |d|
    ensures r.Some? ==> r.value == d[p]
  {
    if p < |d| then Some(d[p]) else None
  }

  /** next(): the next byte; end of stream throws ParseError. */
  function NextAt(d: seq<byte>, p: nat): (r: Parsed<byte>)
    requires p <= |d|
    ensures r.res.Ok? <==> p < |d|
    ensures r.res.Ok? ==> r.res.value == d[p] && r.next == p + 1
    ensures r.res.Err? ==> r == Parsed(Err(ParseError(UnexpectedEof)), p)
  {
    if p < |d| then Parsed(Ok(d[p]), p + 1) else Parsed(Err(ParseError(UnexpectedEof)), p)
  }

  /** The ready flag: a guarded call on a locked reader throws LogicError and consumes nothing. */
  function Guarded<T>(ready: bool, p: nat, spec: Parsed<T>): Parsed<T>
  {
    if ready then spec else Parsed(Err(LogicError), p)
  }

  /** The skip* variant of a getter: same bytes consumed, the value dropped. */
  function Discard<T>(r: Parsed<T>): (s: Parsed<()>)
    ensures s.next == r.next && (s.res.Ok? <==> r.res.Ok?)
    ensures r.res.Err? ==> s.res == Err(r.res.error)
  {
    if r.res.Ok? then Parsed(Ok(()), r.next) else Parsed(Err(r.res.error), r.next)
  }

  /** The outcome without its value. */
  function Unit<T>(r: Result<T>): (u: Result<()>)
    ensures u.Ok? <==> r.Ok?
    ensures r.Err? ==> u == Err(r.error)
  {
    if r.Ok? then Ok(()) else Err(r.error)
  }

  /**
   * The outcome of a generic skip (sbon's skip, nbon's skipNext) on a ready
   * reader: the result, the position, and whether the reader is left
   * locked. An exception thrown inside an array or object callback bypasses
   * `ready_ = true`, so a failure inside the body of a compound value leaves
   * the reader locked.
   */
  datatype Skipped = Skipped(res: Result<()>, next: nat, locked: bool)

  function Unlocked(r: Parsed<()>): (s: Skipped)
    ensures s.res == r.res && s.next == r.next && !s.locked
  {
    Skipped(r.res, r.next, false)
  }

  /** The classification of a tag byte done by getType / nextType. */
  function Classify(b: byte): Option<Type>
  {
    if b == TagTrue || b == TagFalse then Some(TBool)
    else if b == TagNull then Some(TNil)
    else if b == TagFloat then Some(TFloat)
    else if b == TagDouble then Some(TDouble)
    else if b == TagString then Some(TString)
    else if b == TagBinary then Some(TBinary)
    else if b == TagPlus || IsDigit(b) then Some(TUInt)
    else if b == TagMinus then Some(TInt)
    else if b == TagArray then Some(TArray)
    else if b == TagObject then Some(TObject)
    else None
  }

  /** getType / nextType on a ready reader: a peek, so the position is not part of the outcome. */
  function TypeAt(d: seq<byte>, p: nat): (r: Result<Type>)
    requires p <= |d|
    ensures r.Err? <==> p == |d| || Classify(d[p]).None?
    ensures r.Ok? ==> Classify(d[p]) == Some(r.value)
  {
    if p == |d| then Err(ParseError(UnexpectedEof))
    else match Classify(d[p])
      case None => Err(ParseError(UnexpectedCharacter))
      case Some(t) => Ok(t)
  }

  /** getBool / nextBool: get() one byte, 'T' or 'F'. */
  function BoolAt(d: seq<byte>, p: nat, msg: Msg): (r: Parsed<bool>)
    requires p <= |d|
    ensures r.next == if p < |d| then p + 1 else p
    ensures r.res.Ok? <==> p < |d| && (d[p] == TagTrue || d[p] == TagFalse)
    ensures r.res.Ok? ==> r.res.value == (d[p] == TagTrue)
  {
    if p < |d| && d[p] == TagTrue then Parsed(Ok(true), p + 1)
    else if p < |d| && d[p] == TagFalse then Parsed(Ok(false), p + 1)
    else Parsed(Err(ParseError(msg)), if p < |d| then p + 1 else p)
  }

  /** `if (is.get() != tag) throw ParseError(msg)`: one byte consumed unless at end of stream. */
  function ExpectAt(d: seq<byte>, p: nat, tag: byte, msg: Msg): (r: Parsed<()>)
    requires p <= |d|
    ensures r.next == if p < |d| then p + 1 else p
    ensures r.res.Ok? <==> p < |d| && d[p] == tag
  {
    if p < |d| && d[p] == tag then Parsed(Ok(()), p + 1)
    else Parsed(Err(ParseError(msg)), if p < |d| then p + 1 else p)
  }

  /** `char ch = next(); if (ch != tag) throw ParseError(msg)`: the opening and closing brackets. */
  function BracketAt(d: seq<byte>, p: nat, tag: byte, msg: Msg): (r: Parsed<()>)
    requires p <= |d|
    ensures r.next == if p < |d| then p + 1 else p
    ensures r.res.Ok? <==> p < |d| && d[p] == tag
    ensures p == |d| ==> r.res == Err(ParseError(UnexpectedEof))
  {
    if p == |d| then Parsed(Err(ParseError(UnexpectedEof)), p)
    else if d[p] == tag then Parsed(Ok(()), p + 1)
    else Parsed(Err(ParseError(msg)), p + 1)
  }

  /** The position of the first NUL at or after `p`; |d| when the rest of the stream has none. */
  function NulFrom(d: seq<byte>, p: nat): (k: nat)
    requires p <= |d|
    ensures p <= k <= |d|
    ensures k < |d| ==> d[k] == 0
    decreases |d| - p
  {
    if p == |d| || d[p] == 0 then p else NulFrom(d, p + 1)
  }

  /** NulFrom finds the first NUL: none lies between `p` and it. */
  lemma {:induction false} NulFromFirst(d: seq<byte>, p: nat)
    requires p <= |d|
    ensures forall i :: p <= i < NulFrom(d, p) ==> d[i] != 0
    decreases |d| - p
  {
    if p < |d| && d[p] != 0 {
      NulFromFirst(d, p + 1);
    }
  }

  /** A NUL at `k` (or the end of the stream) with none before it from `p` on is where NulFrom stops. */
  lemma {:induction false} NulFromAt(d: seq<byte>, p: nat, k: nat)
    requires p <= k <= |d| && (k < |d| ==> d[k] == 0)
    requires forall i :: p <= i < k ==> d[i] != 0
    ensures NulFrom(d, p) == k
    decreases k - p
  {
    if p < k {
      NulFromAt(d, p + 1, k);
    }
  }

  /**
   * Reading bytes up to and including a NUL: the string loop of
   * getString and the key loop of ObjectReader::next. End of stream
   * before the NUL throws `ParseError(eofMsg)`.
   */
  function CStringAt(d: seq<byte>, p: nat, eofMsg: Msg): (r: Parsed<seq<byte>>)
    requires p <= |d|
    ensures p <= r.next <= |d|
    ensures r.res.Ok? ==> p < r.next && d[r.next - 1] == 0 && r.res.value == Span(d, p, r.next - 1)
    ensures r.res.Err? ==> r == Parsed(Err(ParseError(eofMsg)), |d|)
  {
    var k := NulFrom(d, p);
    if k < |d| then Parsed(Ok(Span(d, p, k)), k + 1) else Parsed(Err(ParseError(eofMsg)), |d|)
  }

  /** The read stops at the first NUL, and fails exactly when the rest of the stream has none. */
  lemma CStringAtFirstNul(d: seq<byte>, p: nat, eofMsg: Msg)
    requires p <= |d|
    ensures CStringAt(d, p, eofMsg).res.Ok? ==> forall i :: p <= i < CStringAt(d, p, eofMsg).next - 1 ==> d[i] != 0
    ensures CStringAt(d, p, eofMsg).res.Err? <==> forall i :: p <= i < |d| ==> d[i] != 0
  {
    NulFromFirst(d, p);
  }

  /** What getString returns and ObjectReader::next reads as a key is free of NUL. */
  lemma CStringAtNulFree(d: seq<byte>, p: nat, eofMsg: Msg)
    requires p <= |d| && CStringAt(d, p, eofMsg).res.Ok?
    ensures NulFree(CStringAt(d, p, eofMsg).res.value)
  {
    var r := CStringAt(d, p, eofMsg);
    CStringAtFirstNul(d, p, eofMsg);
    forall i | 0 <= i < |r.res.value|
      ensures r.res.value[i] != 0
    {
      SpanIndex(d, p, r.next - 1, i);
    }
  }

  /** getString / nextString: an 'S' tag, then the bytes before the NUL terminator. */
  function StringAt(d: seq<byte>, p: nat, tagMsg: Msg): (r: Parsed<seq<byte>>)
    requires p <= |d|
    ensures p <= r.next <= |d|
    ensures r.res.Ok? ==> r.next > p + 1
  {
    var t := ExpectAt(d, p, TagString, tagMsg);
    if t.res.Err? then Parsed(Err(t.res.error), t.next) else CStringAt(d, t.next, UnexpectedEof)
  }

  /** `n` calls of next(): the payload of a binary blob. */
  function TakeAt(d: seq<byte>, p: nat, n: nat): (r: Parsed<seq<byte>>)
    requires p <= |d|
    ensures p <= r.next <= |d|
    ensures r.res.Ok? <==> p + n <= |d|
    ensures r.res.Ok? ==> r.res.value == Span(d, p, p + n) && r.next == p + n
    ensures r.res.Err? ==> r == Parsed(Err(ParseError(UnexpectedEof)), |d|)
  {
    if p + n <= |d| then Parsed(Ok(Span(d, p, p + n)), p + n) else Parsed(Err(ParseError(UnexpectedEof)), |d|)
  }

  /** nextFloat / nextDouble payload: `k` bytes reassembled least-significant first. */
  function LittleEndianAt(d: seq<byte>, p: nat, k: nat): (r: Parsed<nat>)
    requires p <= |d|
    ensures p <= r.next <= |d|
    ensures r.res.Ok? <==> p + k <= |d|
    ensures r.res.Ok? ==> r.res.value == FromLittleEndian(Span(d, p, p + k)) && r.next == p + k
    ensures r.res.Err? ==> r == Parsed(Err(ParseError(UnexpectedEof)), |d|)
  {
    var t := TakeAt(d, p, k);
    if t.res.Err? then Parsed(Err(t.res.error), t.next) else Parsed(Ok(FromLittleEndian(t.res.value)), t.next)
  }

  // ---------------------------------------------------------------------
  // Round trips of the shared pieces against the encoders of Wire.

  /** getType reports the type of whatever value was written at the position, without consuming it. */
  lemma TypeOfEncoded(d: seq<byte>, p: nat, v: Value)
    requires WellFormed(v) && At(d, p, Encode(v))
    ensures TypeAt(d, p) == Ok(TypeOf(v))
  {
    if v.Int? {
      CanonicalInteger(v.n);
    }
    assert |Encode(v)| > 0;
    AtFirst(d, p, Encode(v));
  }

  /** The string getter returns exactly the bytes the writer put before the terminator. */
  lemma StringRoundTrip(d: seq<byte>, p: nat, s: seq<byte>, msg: Msg)
    requires At(d, p, EncodeString(s))
    ensures StringAt(d, p, msg) == Parsed(Ok(CString(s)), p + |EncodeString(s)|)
  {
    var c := CString(s);
    AtSplit(d, p, [TagString] + c, [0]);
    AtSplit(d, p, [TagString], c);
    CStringOfTerminated(d, p + 1, c, UnexpectedEof);
  }

  /** Reading a NUL-terminated run stops at the terminator the writer put after a C string. */
  lemma CStringOfTerminated(d: seq<byte>, p: nat, c: seq<byte>, eofMsg: Msg)
    requires NulFree(c) && At(d, p, c) && At(d, p + |c|, [0])
    ensures CStringAt(d, p, eofMsg) == Parsed(Ok(c), p + |c| + 1)
  {
    forall i | p <= i < p + |c|
      ensures d[i] != 0
    {
      AtIndex(d, p, c, i - p);
    }
    AtFirst(d, p + |c|, [0]);
    NulFromAt(d, p, p + |c|);
    AtSpan(d, p, c);
  }

  /** The float/double payload: reassembling the packed bytes gives back the bit pattern. */
  lemma LittleEndianAtRoundTrip(d: seq<byte>, p: nat, n: nat, k: nat)
    requires n < Pow256(k) && At(d, p, LittleEndian(n, k))
    ensures LittleEndianAt(d, p, k) == Parsed(Ok(n), p + k)
  {
    AtSpan(d, p, LittleEndian(n, k));
    LittleEndianRoundTrip(n, k);
  }

  /** k bytes reassembled are below 256^k. */
  lemma {:induction false} FromLittleEndianBound(bs: seq<byte>)
    ensures FromLittleEndian(bs) < Pow256(|bs|)
    decreases |bs|
  {
    if bs != [] {
      FromLittleEndianBound(bs[1..]);
    }
  }

  /** One more byte on top: what nextFloat / nextDouble's k-th line adds. */
  lemma {:induction false} LittleEndianSnoc(d: seq<byte>, p: nat, k: nat)
    requires p + k < |d|
    ensures FromLittleEndian(Span(d, p, p + k + 1)) == FromLittleEndian(Span(d, p, p + k)) + d[p + k] as int * Pow256(k)
    decreases k
  {
    if k > 0 {
      LittleEndianSnoc(d, p + 1, k - 1);
      var lo, b := FromLittleEndian(Span(d, p + 1, p + k)), d[p + k] as int;
      assert FromLittleEndian(Span(d, p, p + k + 1)) == d[p] as int + 0x100 * (lo + b * Pow256(k - 1));
      ShiftSum(d[p] as int, lo, Pow256(k - 1), b);
    }
  }

  lemma ShiftSum(b: int, lo: int, pk: int, hi: int)
    ensures b + 0x100 * (lo + pk * hi) == (b + 0x100 * lo) + (0x100 * pk) * hi
    ensures b + 0x100 * (lo + hi * pk) == (b + 0x100 * lo) + hi * (0x100 * pk)
  {
    MulAssoc(0x100, pk, hi);
  }

  // ---------------------------------------------------------------------
  // Where the parts of a written array or object lie.

  /** Where the body and the closing bracket of a written array or object lie. */
  lemma Bracketed(d: seq<byte>, p: nat, open: byte, body: seq<byte>, close: byte)
    requires At(d, p, [open] + body + [close])
    ensures p < |d| && d[p] == open
    ensures At(d, p + 1, body) && At(d, p + 1 + |body|, [close])
    ensures p + 1 + |body| < |d| && d[p + 1 + |body|] == close
  {
    AtSplit(d, p, [open] + body, [close]);
    AtSplit(d, p, [open], body);
    AtFirst(d, p, [open]);
    AtFirst(d, p + 1 + |body|, [close]);
  }

  /** Where the first value and the remaining values of a written array lie. */
  lemma ItemsSplit(d: seq<byte>, p: nat, items: seq<Value>)
    requires items != [] && At(d, p, EncodeItems(items))
    ensures |EncodeItems(items)| == |Encode(items[0])| + |EncodeItems(items[1..])|
    ensures At(d, p, Encode(items[0]))
    ensures At(d, p + |Encode(items[0])|, EncodeItems(items[1..]))
  {
    AtSplit(d, p, Encode(items[0]), EncodeItems(items[1..]));
  }

  /** Where the key, the value and the remaining members of a written object lie. */
  lemma MembersSplit(d: seq<byte>, p: nat, ms: seq<Member>)
    requires ms != [] && At(d, p, EncodeMembers(ms))
    ensures |EncodeMembers(ms)| == |EncodeKey(ms[0].key)| + |Encode(ms[0].value)| + |EncodeMembers(ms[1..])|
    ensures At(d, p, EncodeKey(ms[0].key))
    ensures At(d, p + |EncodeKey(ms[0].key)|, Encode(ms[0].value))
    ensures At(d, p + |EncodeKey(ms[0].key)| + |Encode(ms[0].value)|, EncodeMembers(ms[1..]))
  {
    AtSplit(d, p, EncodeMember(ms[0]), EncodeMembers(ms[1..]));
    AtSplit(d, p, EncodeKey(ms[0].key), Encode(ms[0].value));
  }

  lemma NotACloser(d: seq<byte>, p: nat, v: Value)
    requires WellFormed(v) && At(d, p, Encode(v))
    ensures p < |d| && d[p] != TagArrayEnd && d[p] != TagObjectEnd
  {
    TypeOfEncoded(d, p, v);
  }

  /** A key the writer wrote is read back up to its NUL, and hasNext does not stop at it. */
  lemma MemberKeyRead(d: seq<byte>, p: nat, key: seq<byte>)
    requires NulFree(key) && (key == [] || key[0] != TagObjectEnd) && At(d, p, EncodeKey(key))
    ensures p < |d| && d[p] != TagObjectEnd
    ensures CStringAt(d, p, ObjectNextEof) == Parsed(Ok(key), p + |EncodeKey(key)|)
  {
    assert CString(key) == key;
    AtSplit(d, p, key, [0]);
    AtFirst(d, p, EncodeKey(key));
    CStringOfTerminated(d, p, key, ObjectNextEof);
  }
}
