/**
 * The reader classes of sbon.h: `Reader`, `ArrayReader` and
 * `ObjectReader` over one shared input stream. Every method is proved
 * against the pure semantics of SbonSpec and Scan: its outcome and the
 * position it leaves the stream at are the ones the specification function
 * gives for the bytes of the stream and the position the method started at.
 *
 * `getArray(func)` and `getObject(func)` run a caller's callback between
 * the brackets; they are modelled as a Begin method (checkReady, the
 * opening bracket, lock, fresh child reader) and an End method (unlock,
 * the closing bracket). The callbacks that `skip` and `matchObject` pass
 * are written out in terms of those two halves.
 */
module SbonReader {
  import opened Wire
  import opened Streams
  import opened Scan
  import opened SbonSpec

  class Reader {
    const stream: InStream
    var ready: bool

    /** `Reader(std::istream *is)`: a fresh reader is ready. */
    constructor (stream: InStream)
      ensures this.stream == stream && ready
    {
      this.stream := stream;
      ready := true;
    }

    /** hasNext(): anything left in the stream. No readiness check. */
    method HasNext() returns (b: bool)
      requires stream.Valid()
      ensures b <==> stream.pos < |stream.data|
    {
      var c := stream.Peek();
      b := c.Some?;
    }

    /** getType(): a peek; the stream does not move. */
    method GetType() returns (r: Result<Type>)
      requires stream.Valid()
      ensures r == (if ready then TypeAt(stream.data, stream.pos) else Err(LogicError))
    {
      if !ready {
        return Err(LogicError);
      }
      var c := stream.Peek();
      if c.None? {
        return Err(ParseError(UnexpectedEof));
      }
      var t := Classify(c.value);
      if t.None? {
        return Err(ParseError(UnexpectedCharacter));
      }
      return Ok(t.value);
    }

    method GetBool() returns (r: Result<bool>)
      requires stream.Valid()
      modifies stream
      ensures stream.Valid()
      ensures Parsed(r, stream.pos) == Guarded(ready, old(stream.pos), BoolAt(stream.data, old(stream.pos), GetBoolExpected))
    {
      if !ready {
        return Err(LogicError);
      }
      var c := stream.Get();
      if c == Some(TagTrue) {
        return Ok(true);
      } else if c == Some(TagFalse) {
        return Ok(false);
      }
      return Err(ParseError(GetBoolExpected));
    }

    /** getNil(): its message names skipNil, as the C++ code does. */
    method GetNil() returns (r: Result<()>)
      requires stream.Valid()
      modifies stream
      ensures stream.Valid()
      ensures Parsed(r, stream.pos) == Guarded(ready, old(stream.pos), ExpectAt(stream.data, old(stream.pos), TagNull, SkipNilExpected))
    {
      if !ready {
        return Err(LogicError);
      }
      var c := stream.Get();
      if c != Some(TagNull) {
        return Err(ParseError(SkipNilExpected));
      }
      return Ok(());
    }

    /** getString(): an 'S', then next() into the string until a NUL. */
    method GetString() returns (r: Result<seq<byte>>)
      requires stream.Valid()
      modifies stream
      ensures stream.Valid()
      ensures Parsed(r, stream.pos) == Guarded(ready, old(stream.pos), StringAt(stream.data, old(stream.pos), GetStringExpected))
    {
      if !ready {
        return Err(LogicError);
      }
      var t := stream.Get();
      if t != Some(TagString) {
        return Err(ParseError(GetStringExpected));
      }
      var start := stream.pos;
      var s := [];
      while true
        invariant stream.Valid() && start <= stream.pos
        invariant NulFrom(stream.data, start) == NulFrom(stream.data, stream.pos)
        invariant s == Span(stream.data, start, stream.pos)
        decreases |stream.data| - stream.pos
      {
        var ch := Next();
        if ch.Err? {
          return Err(ch.error);
        }
        if ch.value == 0 {
          break;
        }
        SpanSnoc(stream.data, start, stream.pos - 1);
        s := s + [ch.value];
      }
      return Ok(s);
    }

    /** skipString(): an 'S', then `while (next());`. */
    method SkipString() returns (r: Result<()>)
      requires stream.Valid()
      modifies stream
      ensures stream.Valid()
      ensures Parsed(r, stream.pos) == Guarded(ready, old(stream.pos), Discard(StringAt(stream.data, old(stream.pos), SkipStringExpected)))
    {
      if !ready {
        return Err(LogicError);
      }
      var t := stream.Get();
      if t != Some(TagString) {
        return Err(ParseError(SkipStringExpected));
      }
      var start := stream.pos;
      while true
        invariant stream.Valid() && start <= stream.pos
        invariant NulFrom(stream.data, start) == NulFrom(stream.data, stream.pos)
        decreases |stream.data| - stream.pos
      {
        var ch := Next();
        if ch.Err? {
          return Err(ch.error);
        }
        if ch.value == 0 {
          break;
        }
      }
      return Ok(());
    }

    /** getBinary(): a 'B', the varint size, then next() until the blob holds that many bytes. */
    method GetBinary() returns (r: Result<seq<byte>>)
      requires stream.Valid()
      modifies stream
      ensures stream.Valid()
      ensures Parsed(r, stream.pos) == Guarded(ready, old(stream.pos), BinaryAt(stream.data, old(stream.pos), GetBinaryExpected))
    {
      if !ready {
        return Err(LogicError);
      }
      var t := stream.Get();
      if t != Some(TagBinary) {
        return Err(ParseError(GetBinaryExpected));
      }
      var size := NextLeb128();
      if size.Err? {
        return Err(size.error);
      }
      var start := stream.pos;
      var bin := [];
      while |bin| < size.value
        invariant stream.Valid() && stream.pos == start + |bin| && |bin| <= size.value
        invariant bin == Span(stream.data, start, stream.pos)
        decreases size.value - |bin|
      {
        var ch := Next();
        if ch.Err? {
          return Err(ch.error);
        }
        SpanSnoc(stream.data, start, stream.pos - 1);
        bin := bin + [ch.value];
      }
      return Ok(bin);
    }

    /** skipBinary(): a 'B', the varint size, then that many next() calls counted down. */
    method SkipBinary() returns (r: Result<()>)
      requires stream.Valid()
      modifies stream
      ensures stream.Valid()
      ensures Parsed(r, stream.pos) == Guarded(ready, old(stream.pos), Discard(BinaryAt(stream.data, old(stream.pos), SkipBinaryExpected)))
    {
      if !ready {
        return Err(LogicError);
      }
      var t := stream.Get();
      if t != Some(TagBinary) {
        return Err(ParseError(SkipBinaryExpected));
      }
      var sz := NextLeb128();
      if sz.Err? {
        return Err(sz.error);
      }
      ghost var end := stream.pos + sz.value;
      var size := sz.value;
      while size > 0
        invariant stream.Valid() && stream.pos + size == end
        decreases size
      {
        var ch := Next();
        if ch.Err? {
          return Err(ch.error);
        }
        size := size - 1;
      }
      return Ok(());
    }

    /** getNumber<T>(): dispatch on the tag byte, then the conversion checks of SbonSpec. */
    method GetNumber(t: NumType) returns (r: Result<Number>)
      requires stream.Valid()
      modifies stream
      ensures stream.Valid()
      ensures Parsed(r, stream.pos) == Guarded(ready, old(stream.pos), NumberAt(stream.data, old(stream.pos), t))
    {
      if !ready {
        return Err(LogicError);
      }
      var ch := Next();
      if ch.Err? {
        return Err(ch.error);
      }
      var c := ch.value;
      if IsDigit(c) {
        return Ok(Whole(c - Digit0));
      } else if c == TagPlus {
        var u := NextLeb128();
        if u.Err? {
          return Err(u.error);
        }
        return FromUnsigned(t, u.value);
      } else if c == TagMinus {
        var u := NextLeb128();
        if u.Err? {
          return Err(u.error);
        }
        if u.value > I64_MAX {
          return Err(ParseError(Unrepresentable));
        }
        return FromSigned(t, -(u.value as int));
      } else if c == TagFloat {
        var x := NextFloat();
        if x.Err? {
          return Err(x.error);
        }
        return FromFloat(t, Float(x.value), IsNaN32(x.value));
      } else if c == TagDouble {
        var x := NextDouble();
        if x.Err? {
          return Err(x.error);
        }
        return FromFloat(t, Double(x.value), IsNaN64(x.value));
      }
      return Err(ParseError(ExpectedNumber));
    }

    method GetFloat() returns (r: Result<Number>)
      requires stream.Valid()
      modifies stream
      ensures stream.Valid()
      ensures Parsed(r, stream.pos) == Guarded(ready, old(stream.pos), NumberAt(stream.data, old(stream.pos), Float32))
    {
      r := GetNumber(Float32);
    }

    method GetDouble() returns (r: Result<Number>)
      requires stream.Valid()
      modifies stream
      ensures stream.Valid()
      ensures Parsed(r, stream.pos) == Guarded(ready, old(stream.pos), NumberAt(stream.data, old(stream.pos), Float64))
    {
      r := GetNumber(Float64);
    }

    method GetInt() returns (r: Result<Number>)
      requires stream.Valid()
      modifies stream
      ensures stream.Valid()
      ensures Parsed(r, stream.pos) == Guarded(ready, old(stream.pos), NumberAt(stream.data, old(stream.pos), Signed(W64)))
    {
      r := GetNumber(Signed(W64));
    }

    method GetUInt() returns (r: Result<Number>)
      requires stream.Valid()
      modifies stream
      ensures stream.Valid()
      ensures Parsed(r, stream.pos) == Guarded(ready, old(stream.pos), NumberAt(stream.data, old(stream.pos), Unsigned(W64)))
    {
      r := GetNumber(Unsigned(W64));
    }

    /**
     * The part of `getArray(func)` before `func` runs: checkReady, '[',
     * lock this reader, hand an ArrayReader on the same stream to the callback.
     */
    method BeginArray() returns (r: Result<ArrayReader>)
      requires stream.Valid()
      modifies this, stream
      ensures stream.Valid()
      ensures Parsed(Unit(r), stream.pos) == Guarded(old(ready), old(stream.pos), BracketAt(stream.data, old(stream.pos), TagArray, GetArrayOpen))
      ensures ready == (old(ready) && r.Err?)
      ensures r.Ok? ==> fresh(r.value) && r.value.stream == stream
    {
      if !ready {
        return Err(LogicError);
      }
      var ch := Next();
      if ch.Err? {
        return Err(ch.error);
      }
      if ch.value != TagArray {
        return Err(ParseError(GetArrayOpen));
      }
      ready := false;
      var arr := new ArrayReader(stream);
      return Ok(arr);
    }

    /** The part of `getArray(func)` after `func` returns: unlock, then ']'. */
    method EndArray() returns (r: Result<()>)
      requires stream.Valid()
      modifies this, stream
      ensures stream.Valid() && ready
      ensures Parsed(r, stream.pos) == BracketAt(stream.data, old(stream.pos), TagArrayEnd, GetArrayClose)
    {
      ready := true;
      var ch := Next();
      if ch.Err? {
        return Err(ch.error);
      }
      if ch.value != TagArrayEnd {
        return Err(ParseError(GetArrayClose));
      }
      return Ok(());
    }

    /** The part of `getObject(func)` before `func` runs; the callback gets an ObjectReader. */
    method BeginObject() returns (r: Result<ObjectReader>)
      requires stream.Valid()
      modifies this, stream
      ensures stream.Valid()
      ensures Parsed(Unit(r), stream.pos) == Guarded(old(ready), old(stream.pos), BracketAt(stream.data, old(stream.pos), TagObject, GetObjectOpen))
      ensures ready == (old(ready) && r.Err?)
      ensures r.Ok? ==> fresh(r.value) && r.value.stream == stream
    {
      if !ready {
        return Err(LogicError);
      }
      var ch := Next();
      if ch.Err? {
        return Err(ch.error);
      }
      if ch.value != TagObject {
        return Err(ParseError(GetObjectOpen));
      }
      ready := false;
      var obj := new ObjectReader(stream);
      return Ok(obj);
    }

    /** The part of `getObject(func)` after `func` returns: unlock, then '}'. */
    method EndObject() returns (r: Result<()>)
      requires stream.Valid()
      modifies this, stream
      ensures stream.Valid() && ready
      ensures Parsed(r, stream.pos) == BracketAt(stream.data, old(stream.pos), TagObjectEnd, GetObjectClose)
    {
      ready := true;
      var ch := Next();
      if ch.Err? {
        return Err(ch.error);
      }
      if ch.value != TagObjectEnd {
        return Err(ParseError(GetObjectClose));
      }
      return Ok(());
    }

    /**
     * skip(): getType, then the getter for a scalar, or readArray /
     * readObject with `r.skip()` as the callback. A failure between the
     * brackets leaves this reader locked, as the exception bypasses
     * `ready_ = true`.
     */
    method Skip() returns (r: Result<()>)
      requires stream.Valid()
      modifies this, stream
      ensures stream.Valid()
      ensures old(ready) ==> Skipped(r, stream.pos, !ready) == SkipAt(stream.data, old(stream.pos))
      ensures !old(ready) ==> r == Err(LogicError) && stream.pos == old(stream.pos) && !ready
      decreases |stream.data| - stream.pos, 2
    {
      var ty := GetType();
      if ty.Err? {
        return Err(ty.error);
      }
      match ty.value
      case TArray =>
        r := SkipArray();
      case TObject =>
        r := SkipObject();
      case _ =>
        r := SkipScalar(ty.value);
    }

    /** The scalar arms of skip's switch. */
    method SkipScalar(t: Type) returns (r: Result<()>)
      requires stream.Valid() && ready && !t.TArray? && !t.TObject?
      modifies stream
      ensures stream.Valid()
      ensures Parsed(r, stream.pos) == SkipScalarAt(stream.data, old(stream.pos), t)
    {
      match t
      case TBool =>
        var b := GetBool();
        r := Unit(b);
      case TNil =>
        r := GetNil();
      case TString =>
        r := SkipString();
      case TBinary =>
        r := SkipBinary();
      case TFloat =>
        var x := GetFloat();
        r := Unit(x);
      case TDouble =>
        var x := GetDouble();
        r := Unit(x);
      case TInt =>
        var x := GetInt();
        r := Unit(x);
      case TUInt =>
        var x := GetUInt();
        r := Unit(x);
    }

    /** skip's array arm: `readArray([](Reader r) { r.skip(); })`. */
    method SkipArray() returns (r: Result<()>)
      requires stream.Valid() && ready
      modifies this, stream
      ensures stream.Valid()
      ensures Skipped(r, stream.pos, !ready) == SkipArrayAt(stream.data, old(stream.pos))
      decreases |stream.data| - stream.pos, 1
    {
      var open := BeginArray();
      if open.Err? {
        return Err(open.error);
      }
      var body := open.value.SkipAll();
      if body.Err? {
        return body;
      }
      r := EndArray();
    }

    /** skip's object arm: `readObject([](std::string &, Reader r) { r.skip(); })`. */
    method SkipObject() returns (r: Result<()>)
      requires stream.Valid() && ready
      modifies this, stream
      ensures stream.Valid()
      ensures Skipped(r, stream.pos, !ready) == SkipObjectAt(stream.data, old(stream.pos))
      decreases |stream.data| - stream.pos, 1
    {
      var open := BeginObject();
      if open.Err? {
        return Err(open.error);
      }
      var body := open.value.SkipAll();
      if body.Err? {
        return body;
      }
      r := EndObject();
    }

    /**
     * matchObject(matchers): getObject around ObjectReader::match. The
     * matchers are given by their keys; each handler consumes its value as
     * skip does.
     */
    method MatchObject(keys: seq<seq<byte>>) returns (r: Result<seq<Dispatch>>)
      requires stream.Valid()
      modifies this, stream
      ensures stream.Valid()
      ensures old(ready) ==> Matched(r, stream.pos, !ready) == MatchObjectAt(stream.data, old(stream.pos), keys)
      ensures !old(ready) ==> r == Err(LogicError) && stream.pos == old(stream.pos) && !ready
    {
      var open := BeginObject();
      if open.Err? {
        return Err(open.error);
      }
      var body := open.value.Match(keys);
      if body.Err? {
        return body;
      }
      var close := EndObject();
      if close.Err? {
        return Err(close.error);
      }
      return body;
    }

    /** next() (private): one byte, or ParseError at end of stream. */
    method Next() returns (r: Result<byte>)
      requires stream.Valid()
      modifies stream
      ensures stream.Valid()
      ensures Parsed(r, stream.pos) == NextAt(stream.data, old(stream.pos))
    {
      var c := stream.Get();
      if c.None? {
        return Err(ParseError(UnexpectedEof));
      }
      return Ok(c.value);
    }

    /** nextLEB128() (private): the do-while over seven-bit groups. */
    method NextLeb128() returns (r: Result<nat>)
      requires stream.Valid()
      modifies stream
      ensures stream.Valid()
      ensures Parsed(r, stream.pos) == Leb128At(stream.data, old(stream.pos))
    {
      var num: nat := 0;
      var shift: nat := 0;
      while true
        invariant stream.Valid()
        invariant Leb128At(stream.data, old(stream.pos)) == Leb128From(stream.data, stream.pos, shift, num)
        decreases |stream.data| - stream.pos
      {
        var ch := Next();
        if ch.Err? {
          return Err(ch.error);
        }
        if shift > 63 {
          return Err(UndefinedShift);
        }
        num := (num + (ch.value % 0x80) * Pow2(shift)) % U64_LIMIT;
        shift := shift + 7;
        if ch.value < 0x80 {
          return Ok(num);
        }
      }
    }

    /** Four lines of nextFloat / nextDouble: the bytes k..k+3 on top of the k read from `p` on. */
    method OrNextFour(n: nat, k: nat, ghost p: nat) returns (r: Result<nat>)
      requires stream.Valid() && stream.pos == p + k && n == FromLittleEndian(Span(stream.data, p, p + k))
      modifies stream
      ensures stream.Valid()
      ensures Parsed(r, stream.pos) == LittleEndianAt(stream.data, p, k + 4)
    {
      var m := OrNextTwo(n, k, p);
      if m.Err? {
        return m;
      }
      r := OrNextTwo(m.value, k + 2, p);
    }

    /** Two lines of nextFloat / nextDouble: the bytes k and k+1. */
    method OrNextTwo(n: nat, k: nat, ghost p: nat) returns (r: Result<nat>)
      requires stream.Valid() && stream.pos == p + k && n == FromLittleEndian(Span(stream.data, p, p + k))
      modifies stream
      ensures stream.Valid()
      ensures Parsed(r, stream.pos) == LittleEndianAt(stream.data, p, k + 2)
    {
      var m := OrNextByte(n, k, p);
      if m.Err? {
        return m;
      }
      r := OrNextByte(m.value, k + 1, p);
    }

    /**
     * `n |= (uint)(unsigned char)next() << 8k`: one line of nextFloat /
     * nextDouble, after k bytes read from `p` on.
     */
    method OrNextByte(n: nat, k: nat, ghost p: nat) returns (r: Result<nat>)
      requires stream.Valid() && stream.pos == p + k && n == FromLittleEndian(Span(stream.data, p, p + k))
      modifies stream
      ensures stream.Valid()
      ensures r.Ok? <==> p + k < |stream.data|
      ensures r.Ok? ==> r.value == FromLittleEndian(Span(stream.data, p, p + k + 1)) && stream.pos == p + k + 1
      ensures r.Err? ==> r == Err(ParseError(UnexpectedEof)) && stream.pos == |stream.data|
    {
      var ch := Next();
      if ch.Err? {
        return Err(ch.error);
      }
      LittleEndianSnoc(stream.data, p, k);
      return Ok(n + ch.value as int * Pow256(k));
    }

    /** nextFloat() (private): four bytes, least significant first; the bit pattern is the result. */
    method NextFloat() returns (r: Result<nat>)
      requires stream.Valid()
      modifies stream
      ensures stream.Valid()
      ensures Parsed(r, stream.pos) == LittleEndianAt(stream.data, old(stream.pos), 4)
    {
      ghost var d, p := stream.data, stream.pos;
      assert Span(d, p, p) == [];
      r := OrNextFour(0, 0, p);
    }

    /** nextDouble() (private): eight bytes, least significant first. */
    method NextDouble() returns (r: Result<nat>)
      requires stream.Valid()
      modifies stream
      ensures stream.Valid()
      ensures Parsed(r, stream.pos) == LittleEndianAt(stream.data, old(stream.pos), 8)
    {
      ghost var d, p := stream.data, stream.pos;
      assert Span(d, p, p) == [];
      var n := OrNextFour(0, 0, p);
      if n.Err? {
        return n;
      }
      r := OrNextFour(n.value, 4, p);
    }
  }

  class ArrayReader {
    const stream: InStream

    constructor (stream: InStream)
      ensures this.stream == stream
    {
      this.stream := stream;
    }

    /** hasNext(): the peek is neither ']' nor end of stream. */
    method HasNext() returns (b: bool)
      requires stream.Valid()
      ensures b <==> stream.pos < |stream.data| && stream.data[stream.pos] != TagArrayEnd
    {
      var c := stream.Peek();
      b := c.Some? && c.value != TagArrayEnd;
    }

    /** next(): a fresh reader for the next value, on the same stream. */
    method Next() returns (v: Reader)
      ensures fresh(v) && v.stream == stream && v.ready
    {
      v := new Reader(stream);
    }

    /** all(func) with `r.skip()` as func. */
    method SkipAll() returns (r: Result<()>)
      requires stream.Valid()
      modifies stream
      ensures stream.Valid()
      ensures Parsed(r, stream.pos) == SkipItemsAt(stream.data, old(stream.pos))
      decreases |stream.data| - stream.pos, 3
    {
      while true
        invariant stream.Valid()
        invariant SkipItemsAt(stream.data, old(stream.pos)) == SkipItemsAt(stream.data, stream.pos)
        decreases |stream.data| - stream.pos
      {
        var more := HasNext();
        if !more {
          return Ok(());
        }
        var v := Next();
        var e := v.Skip();
        if e.Err? {
          return e;
        }
      }
    }
  }

  class ObjectReader {
    const stream: InStream

    constructor (stream: InStream)
      ensures this.stream == stream
    {
      this.stream := stream;
    }

    /** hasNext(): the peek is neither '}' nor end of stream. */
    method HasNext() returns (b: bool)
      requires stream.Valid()
      ensures b <==> stream.pos < |stream.data| && stream.data[stream.pos] != TagObjectEnd
    {
      var c := stream.Peek();
      b := c.Some? && c.value != TagObjectEnd;
    }

    /** next(key): get() into the key until a NUL, then a fresh reader for the value. */
    method Next() returns (r: Result<(seq<byte>, Reader)>)
      requires stream.Valid()
      modifies stream
      ensures stream.Valid()
      ensures Parsed(if r.Ok? then Ok(r.value.0) else Err(r.error), stream.pos) == CStringAt(stream.data, old(stream.pos), ObjectNextEof)
      ensures r.Ok? ==> fresh(r.value.1) && r.value.1.stream == stream && r.value.1.ready
    {
      var start := stream.pos;
      var key := [];
      while true
        invariant stream.Valid() && start <= stream.pos
        invariant NulFrom(stream.data, start) == NulFrom(stream.data, stream.pos)
        invariant key == Span(stream.data, start, stream.pos)
        decreases |stream.data| - stream.pos
      {
        var ch := stream.Get();
        if ch.None? {
          return Err(ParseError(ObjectNextEof));
        } else if ch.value == 0 {
          break;
        }
        SpanSnoc(stream.data, start, stream.pos - 1);
        key := key + [ch.value];
      }
      var v := new Reader(stream);
      return Ok((key, v));
    }

    /** all(func) with `r.skip()` as func; the keys are read and dropped. */
    method SkipAll() returns (r: Result<()>)
      requires stream.Valid()
      modifies stream
      ensures stream.Valid()
      ensures Parsed(r, stream.pos) == SkipMembersAt(stream.data, old(stream.pos))
      decreases |stream.data| - stream.pos, 3
    {
      while true
        invariant stream.Valid()
        invariant SkipMembersAt(stream.data, old(stream.pos)) == SkipMembersAt(stream.data, stream.pos)
        decreases |stream.data| - stream.pos
      {
        var more := HasNext();
        if !more {
          return Ok(());
        }
        var entry := Next();
        if entry.Err? {
          return Err(entry.error);
        }
        var e := entry.value.1.Skip();
        if e.Err? {
          return e;
        }
      }
    }

    /**
     * match(matchers): for each member, the first matcher whose key equals
     * the member's key gets the value; with none, the value is skipped.
     */
    method Match(keys: seq<seq<byte>>) returns (r: Result<seq<Dispatch>>)
      requires stream.Valid()
      modifies stream
      ensures stream.Valid()
      ensures Parsed(r, stream.pos) == MatchMembersAt(stream.data, old(stream.pos), keys)
    {
      ghost var d, p0 := stream.data, stream.pos;
      var trace := [];
      PrependAllEmpty(MatchMembersAt(d, p0, keys));
      while true
        invariant stream.Valid() && stream.data == d
        invariant MatchMembersAt(d, p0, keys) == PrependAll(trace, MatchMembersAt(d, stream.pos, keys))
        decreases |d| - stream.pos
      {
        var more := HasNext();
        if !more {
          assert trace + [] == trace;
          return Ok(trace);
        }
        var step := MatchMember(keys);
        if step.Err? {
          return Err(step.error);
        }
        PrependAllSnoc(trace, step.value, MatchMembersAt(d, stream.pos, keys));
        trace := trace + [step.value];
      }
    }

    /**
     * One turn of match's loop: read the key, hand the value to the first
     * matcher for it, or skip it when there is none.
     */
    method MatchMember(keys: seq<seq<byte>>) returns (r: Result<Dispatch>)
      requires stream.Valid() && stream.pos < |stream.data| && stream.data[stream.pos] != TagObjectEnd
      modifies stream
      ensures stream.Valid()
      ensures r.Ok? ==> old(stream.pos) < stream.pos
      ensures r.Ok? ==> MatchMembersAt(stream.data, old(stream.pos), keys) == Prepend(r.value, MatchMembersAt(stream.data, stream.pos, keys))
      ensures r.Err? ==> MatchMembersAt(stream.data, old(stream.pos), keys) == Parsed(Err(r.error), stream.pos)
    {
      ghost var p := stream.pos;
      var entry := Next();
      if entry.Err? {
        return Err(entry.error);
      }
      var key, val := entry.value.0, entry.value.1;
      ghost var q := stream.pos;
      var found := FindMatcher(keys, key);
      var e := val.Skip();
      if e.Err? {
        return Err(e.error);
      }
      MatchMembersStep(stream.data, p, keys, key, q, stream.pos);
      return Ok(Dispatch(key, found));
    }
  }

  /** The trace a match loop has recorded, ahead of what the rest of the loop yields. */
  function PrependAll(trace: seq<Dispatch>, rest: Parsed<seq<Dispatch>>): Parsed<seq<Dispatch>>
  {
    if rest.res.Err? then rest else Parsed(Ok(trace + rest.res.value), rest.next)
  }

  lemma PrependAllEmpty(rest: Parsed<seq<Dispatch>>)
    ensures PrependAll([], rest) == rest
  {
    if rest.res.Ok? {
      assert [] + rest.res.value == rest.res.value;
    }
  }

  lemma PrependAllSnoc(trace: seq<Dispatch>, x: Dispatch, rest: Parsed<seq<Dispatch>>)
    ensures PrependAll(trace, Prepend(x, rest)) == PrependAll(trace + [x], rest)
  {
    if rest.res.Ok? {
      assert trace + ([x] + rest.res.value) == trace + [x] + rest.res.value;
    }
  }

  /** The `for (auto &matcher: matchers)` scan of match: the first matcher for `key`. */
  method FindMatcher(keys: seq<seq<byte>>, key: seq<byte>) returns (found: Option<nat>)
    ensures found == FirstIndex(keys, key)
  {
    var i := 0;
    while i < |keys| && keys[i] != key
      invariant i <= |keys|
      invariant forall j :: 0 <= j < i ==> keys[j] != key
    {
      i := i + 1;
    }
    FirstIndexAt(keys, key, i);
    found := if i < |keys| then Some(i) else None;
  }

}
