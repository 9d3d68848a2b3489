/**
 * The reader classes of nbon.h: `Reader`, `ArrayReader` and
 * `ObjectReader` over one shared input stream. Every method is proved
 * against the pure semantics of NbonSpec and Scan: its outcome and the
 * position it leaves the stream at are the ones the specification function
 * gives for the bytes of the stream and the position the method started at.
 *
 * `nextArray(func)` and `nextObject(func)` run a caller's callback between
 * the brackets; as for sbon, they are modelled as a Begin method and an End
 * method, and the callbacks that skipNext passes are written out in terms
 * of those two halves.
 */
module NbonReader {
  import opened Wire
  import opened Streams
  import opened Scan
  import opened NbonSpec
  import SbonSpec

  class Reader {
    const stream: InStream
    var ready: bool

    /** `Reader(std::istream &is)`: a fresh reader is ready. */
    constructor (stream: InStream)
      ensures this.stream == stream && ready
    {
      this.stream := stream;
      ready := true;
    }

    /** hasNext(): anything left in the stream. No readiness check. */
    method HasNext() returns (b: bool)
      requires stream.Valid()
      ensures b <==> stream.pos < |stream.data|
    {
      var c := stream.Peek();
      b := c.Some?;
    }

    /** nextType(): a peek; the stream does not move. */
    method NextType() returns (r: Result<Type>)
      requires stream.Valid()
      ensures r == (if ready then TypeAt(stream.data, stream.pos) else Err(LogicError))
    {
      if !ready {
        return Err(LogicError);
      }
      var c := stream.Peek();
      if c.None? {
        return Err(ParseError(UnexpectedEof));
      }
      var t := Classify(c.value);
      if t.None? {
        return Err(ParseError(UnexpectedCharacter));
      }
      return Ok(t.value);
    }

    method NextBool() returns (r: Result<bool>)
      requires stream.Valid()
      modifies stream
      ensures stream.Valid()
      ensures Parsed(r, stream.pos) == Guarded(ready, old(stream.pos), BoolAt(stream.data, old(stream.pos), NextBoolExpected))
    {
      if !ready {
        return Err(LogicError);
      }
      var c := stream.Get();
      if c == Some(TagTrue) {
        return Ok(true);
      } else if c == Some(TagFalse) {
        return Ok(false);
      }
      return Err(ParseError(NextBoolExpected));
    }

    method SkipNil() returns (r: Result<()>)
      requires stream.Valid()
      modifies stream
      ensures stream.Valid()
      ensures Parsed(r, stream.pos) == Guarded(ready, old(stream.pos), ExpectAt(stream.data, old(stream.pos), TagNull, SkipNilExpected))
    {
      if !ready {
        return Err(LogicError);
      }
      var c := stream.Get();
      if c != Some(TagNull) {
        return Err(ParseError(SkipNilExpected));
      }
      return Ok(());
    }

    /** nextString(): an 'S' via get(), then next() into the string until a NUL. */
    method NextString() returns (r: Result<seq<byte>>)
      requires stream.Valid()
      modifies stream
      ensures stream.Valid()
      ensures Parsed(r, stream.pos) == Guarded(ready, old(stream.pos), StringAt(stream.data, old(stream.pos), NextStringExpected))
    {
      if !ready {
        return Err(LogicError);
      }
      var t := stream.Get();
      if t != Some(TagString) {
        return Err(ParseError(NextStringExpected));
      }
      var start := stream.pos;
      var s := [];
      while true
        invariant stream.Valid() && start <= stream.pos
        invariant NulFrom(stream.data, start) == NulFrom(stream.data, stream.pos)
        invariant s == Span(stream.data, start, stream.pos)
        decreases |stream.data| - stream.pos
      {
        var ch := Next();
        if ch.Err? {
          return Err(ch.error);
        }
        if ch.value == 0 {
          break;
        }
        SpanSnoc(stream.data, start, stream.pos - 1);
        s := s + [ch.value];
      }
      return Ok(s);
    }

    /** skipString(): an 'S', then `while (next());`. */
    method SkipString() returns (r: Result<()>)
      requires stream.Valid()
      modifies stream
      ensures stream.Valid()
      ensures Parsed(r, stream.pos) == Guarded(ready, old(stream.pos), Discard(StringAt(stream.data, old(stream.pos), SkipStringExpected)))
    {
      if !ready {
        return Err(LogicError);
      }
      var t := stream.Get();
      if t != Some(TagString) {
        return Err(ParseError(SkipStringExpected));
      }
      var start := stream.pos;
      while true
        invariant stream.Valid() && start <= stream.pos
        invariant NulFrom(stream.data, start) == NulFrom(stream.data, stream.pos)
        decreases |stream.data| - stream.pos
      {
        var ch := Next();
        if ch.Err? {
          return Err(ch.error);
        }
        if ch.value == 0 {
          break;
        }
      }
      return Ok(());
    }

    /** nextBinary(): a 'B', the varint size, then next() until the blob holds that many bytes. */
    method NextBinary() returns (r: Result<seq<byte>>)
      requires stream.Valid()
      modifies stream
      ensures stream.Valid()
      ensures Parsed(r, stream.pos) == Guarded(ready, old(stream.pos), BinaryAt(stream.data, old(stream.pos), NextBinaryExpected))
    {
      if !ready {
        return Err(LogicError);
      }
      var t := stream.Get();
      if t != Some(TagBinary) {
        return Err(ParseError(NextBinaryExpected));
      }
      var size := NextLeb128();
      if size.Err? {
        return Err(size.error);
      }
      var start := stream.pos;
      var bin := [];
      while |bin| < size.value
        invariant stream.Valid() && stream.pos == start + |bin| && |bin| <= size.value
        invariant bin == Span(stream.data, start, stream.pos)
        decreases size.value - |bin|
      {
        var ch := Next();
        if ch.Err? {
          return Err(ch.error);
        }
        SpanSnoc(stream.data, start, stream.pos - 1);
        bin := bin + [ch.value];
      }
      return Ok(bin);
    }

    /** skipBinary(): a 'B', the varint size, then that many next() calls counted down. */
    method SkipBinary() returns (r: Result<()>)
      requires stream.Valid()
      modifies stream
      ensures stream.Valid()
      ensures Parsed(r, stream.pos) == Guarded(ready, old(stream.pos), Discard(BinaryAt(stream.data, old(stream.pos), SkipBinaryExpected)))
    {
      if !ready {
        return Err(LogicError);
      }
      var t := stream.Get();
      if t != Some(TagBinary) {
        return Err(ParseError(SkipBinaryExpected));
      }
      var sz := NextLeb128();
      if sz.Err? {
        return Err(sz.error);
      }
      ghost var end := stream.pos + sz.value;
      var size := sz.value;
      while size > 0
        invariant stream.Valid() && stream.pos + size == end
        decreases size
      {
        var ch := Next();
        if ch.Err? {
          return Err(ch.error);
        }
        size := size - 1;
      }
      return Ok(());
    }

    /** nextFloat(): an 'f' via get(), then four bytes; the result is the float's bit pattern. */
    method NextFloat() returns (r: Result<nat>)
      requires stream.Valid()
      modifies stream
      ensures stream.Valid()
      ensures Parsed(r, stream.pos) == Guarded(ready, old(stream.pos), FloatAt(stream.data, old(stream.pos)))
    {
      if !ready {
        return Err(LogicError);
      }
      var t := stream.Get();
      if t != Some(TagFloat) {
        return Err(ParseError(NextFloatExpected));
      }
      ghost var d, p := stream.data, stream.pos;
      assert Span(d, p, p) == [];
      r := OrNextFour(0, 0, p);
    }

    /** nextDouble(): a 'd' via get(), then eight bytes; the result is the double's bit pattern. */
    method NextDouble() returns (r: Result<nat>)
      requires stream.Valid()
      modifies stream
      ensures stream.Valid()
      ensures Parsed(r, stream.pos) == Guarded(ready, old(stream.pos), DoubleAt(stream.data, old(stream.pos)))
    {
      if !ready {
        return Err(LogicError);
      }
      var t := stream.Get();
      if t != Some(TagDouble) {
        return Err(ParseError(NextDoubleExpected));
      }
      ghost var d, p := stream.data, stream.pos;
      assert Span(d, p, p) == [];
      var n := OrNextFour(0, 0, p);
      if n.Err? {
        return n;
      }
      r := OrNextFour(n.value, 4, p);
    }

    /**
     * nextInt(): a digit, or '+' and the varint, or '-' and the varint
     * negated; the uint64_t result is returned as int64_t.
     */
    method NextInt() returns (r: Result<int>)
      requires stream.Valid()
      modifies stream
      ensures stream.Valid()
      ensures Parsed(r, stream.pos) == Guarded(ready, old(stream.pos), IntAt(stream.data, old(stream.pos)))
    {
      if !ready {
        return Err(LogicError);
      }
      var ch := Next();
      if ch.Err? {
        return Err(ch.error);
      }
      var c := ch.value;
      if IsDigit(c) {
        return Ok(c - Digit0);
      } else if c == TagPlus {
        var u := NextLeb128();
        if u.Err? {
          return Err(u.error);
        }
        return Ok(SbonSpec.ToI64(u.value));
      } else if c == TagMinus {
        var u := NextLeb128();
        if u.Err? {
          return Err(u.error);
        }
        return Ok(SbonSpec.ToI64(-(u.value as int)));
      }
      return Err(ParseError(NextIntExpected));
    }

    /** nextUInt(): a digit, or '+' and the varint. */
    method NextUInt() returns (r: Result<nat>)
      requires stream.Valid()
      modifies stream
      ensures stream.Valid()
      ensures Parsed(r, stream.pos) == Guarded(ready, old(stream.pos), UIntAt(stream.data, old(stream.pos)))
    {
      if !ready {
        return Err(LogicError);
      }
      var ch := Next();
      if ch.Err? {
        return Err(ch.error);
      }
      var c := ch.value;
      if IsDigit(c) {
        return Ok(c - Digit0);
      } else if c == TagPlus {
        r := NextLeb128();
        return;
      }
      return Err(ParseError(NextUIntExpected));
    }

    /**
     * The part of `nextArray(func)` before `func` runs: checkReady, '[',
     * lock this reader, hand an ArrayReader on the same stream to the callback.
     */
    method BeginArray() returns (r: Result<ArrayReader>)
      requires stream.Valid()
      modifies this, stream
      ensures stream.Valid()
      ensures Parsed(Unit(r), stream.pos) == Guarded(old(ready), old(stream.pos), BracketAt(stream.data, old(stream.pos), TagArray, NextArrayOpen))
      ensures ready == (old(ready) && r.Err?)
      ensures r.Ok? ==> fresh(r.value) && r.value.stream == stream
    {
      if !ready {
        return Err(LogicError);
      }
      var ch := Next();
      if ch.Err? {
        return Err(ch.error);
      }
      if ch.value != TagArray {
        return Err(ParseError(NextArrayOpen));
      }
      ready := false;
      var arr := new ArrayReader(stream);
      return Ok(arr);
    }

    /** The part of `nextArray(func)` after `func` returns: unlock, then ']'. */
    method EndArray() returns (r: Result<()>)
      requires stream.Valid()
      modifies this, stream
      ensures stream.Valid() && ready
      ensures Parsed(r, stream.pos) == BracketAt(stream.data, old(stream.pos), TagArrayEnd, NextArrayClose)
    {
      ready := true;
      var ch := Next();
      if ch.Err? {
        return Err(ch.error);
      }
      if ch.value != TagArrayEnd {
        return Err(ParseError(NextArrayClose));
      }
      return Ok(());
    }

    /** The part of `nextObject(func)` before `func` runs; the callback gets an ObjectReader. */
    method BeginObject() returns (r: Result<ObjectReader>)
      requires stream.Valid()
      modifies this, stream
      ensures stream.Valid()
      ensures Parsed(Unit(r), stream.pos) == Guarded(old(ready), old(stream.pos), BracketAt(stream.data, old(stream.pos), TagObject, NextObjectOpen))
      ensures ready == (old(ready) && r.Err?)
      ensures r.Ok? ==> fresh(r.value) && r.value.stream == stream
    {
      if !ready {
        return Err(LogicError);
      }
      var ch := Next();
      if ch.Err? {
        return Err(ch.error);
      }
      if ch.value != TagObject {
        return Err(ParseError(NextObjectOpen));
      }
      ready := false;
      var obj := new ObjectReader(stream);
      return Ok(obj);
    }

    /** The part of `nextObject(func)` after `func` returns: unlock, then '}'. */
    method EndObject() returns (r: Result<()>)
      requires stream.Valid()
      modifies this, stream
      ensures stream.Valid() && ready
      ensures Parsed(r, stream.pos) == BracketAt(stream.data, old(stream.pos), TagObjectEnd, NextObjectClose)
    {
      ready := true;
      var ch := Next();
      if ch.Err? {
        return Err(ch.error);
      }
      if ch.value != TagObjectEnd {
        return Err(ParseError(NextObjectClose));
      }
      return Ok(());
    }

    /**
     * skipNext(): nextType, then the call for a scalar, or nextArray /
     * nextObject with a callback that skips every value. A failure between
     * the brackets leaves this reader locked.
     */
    method SkipNext() returns (r: Result<()>)
      requires stream.Valid()
      modifies this, stream
      ensures stream.Valid()
      ensures old(ready) ==> Skipped(r, stream.pos, !ready) == SkipNextAt(stream.data, old(stream.pos))
      ensures !old(ready) ==> r == Err(LogicError) && stream.pos == old(stream.pos) && !ready
      decreases |stream.data| - stream.pos, 2
    {
      var ty := NextType();
      if ty.Err? {
        return Err(ty.error);
      }
      match ty.value
      case TArray =>
        r := SkipArray();
      case TObject =>
        r := SkipObject();
      case _ =>
        r := SkipScalar(ty.value);
    }

    /** The scalar arms of skipNext's switch. */
    method SkipScalar(t: Type) returns (r: Result<()>)
      requires stream.Valid() && ready && !t.TArray? && !t.TObject?
      modifies stream
      ensures stream.Valid()
      ensures Parsed(r, stream.pos) == SkipScalarAt(stream.data, old(stream.pos), t)
    {
      match t
      case TBool =>
        var b := NextBool();
        r := Unit(b);
      case TNil =>
        r := SkipNil();
      case TString =>
        r := SkipString();
      case TBinary =>
        r := SkipBinary();
      case TFloat =>
        var x := NextFloat();
        r := Unit(x);
      case TDouble =>
        var x := NextDouble();
        r := Unit(x);
      case TInt =>
        var x := NextInt();
        r := Unit(x);
      case TUInt =>
        var x := NextUInt();
        r := Unit(x);
    }

    /** skipNext's array arm: `nextArray` with `arr.all(p.skipNext())`. */
    method SkipArray() returns (r: Result<()>)
      requires stream.Valid() && ready
      modifies this, stream
      ensures stream.Valid()
      ensures Skipped(r, stream.pos, !ready) == SkipArrayAt(stream.data, old(stream.pos))
      decreases |stream.data| - stream.pos, 1
    {
      var open := BeginArray();
      if open.Err? {
        return Err(open.error);
      }
      var body := open.value.SkipAll();
      if body.Err? {
        return body;
      }
      r := EndArray();
    }

    /** skipNext's object arm: `nextObject` with `obj.all(p.skipNext())`. */
    method SkipObject() returns (r: Result<()>)
      requires stream.Valid() && ready
      modifies this, stream
      ensures stream.Valid()
      ensures Skipped(r, stream.pos, !ready) == SkipObjectAt(stream.data, old(stream.pos))
      decreases |stream.data| - stream.pos, 1
    {
      var open := BeginObject();
      if open.Err? {
        return Err(open.error);
      }
      var body := open.value.SkipAll();
      if body.Err? {
        return body;
      }
      r := EndObject();
    }

    /** next() (private): one byte, or ParseError at end of stream. */
    method Next() returns (r: Result<byte>)
      requires stream.Valid()
      modifies stream
      ensures stream.Valid()
      ensures Parsed(r, stream.pos) == NextAt(stream.data, old(stream.pos))
    {
      var c := stream.Get();
      if c.None? {
        return Err(ParseError(UnexpectedEof));
      }
      return Ok(c.value);
    }

    /**
     * nextLEB128() (private): the do-while that shifts the number so far
     * left by seven bits and adds the next group, on uint64_t.
     */
    method NextLeb128() returns (r: Result<nat>)
      requires stream.Valid()
      modifies stream
      ensures stream.Valid()
      ensures Parsed(r, stream.pos) == Leb128At(stream.data, old(stream.pos))
    {
      var num: nat := 0;
      while true
        invariant stream.Valid()
        invariant Leb128At(stream.data, old(stream.pos)) == Leb128From(stream.data, stream.pos, num)
        decreases |stream.data| - stream.pos
      {
        var ch := Next();
        if ch.Err? {
          return Err(ch.error);
        }
        num := ((num * 0x80) % U64_LIMIT + ch.value % 0x80) % U64_LIMIT;
        if ch.value < 0x80 {
          return Ok(num);
        }
      }
    }

    /** Four lines of nextFloat / nextDouble: the bytes k..k+3 on top of the k read from `p` on. */
    method OrNextFour(n: nat, k: nat, ghost p: nat) returns (r: Result<nat>)
      requires stream.Valid() && stream.pos == p + k && n == FromLittleEndian(Span(stream.data, p, p + k))
      modifies stream
      ensures stream.Valid()
      ensures Parsed(r, stream.pos) == LittleEndianAt(stream.data, p, k + 4)
    {
      var m := OrNextTwo(n, k, p);
      if m.Err? {
        return m;
      }
      r := OrNextTwo(m.value, k + 2, p);
    }

    /** Two lines of nextFloat / nextDouble: the bytes k and k+1. */
    method OrNextTwo(n: nat, k: nat, ghost p: nat) returns (r: Result<nat>)
      requires stream.Valid() && stream.pos == p + k && n == FromLittleEndian(Span(stream.data, p, p + k))
      modifies stream
      ensures stream.Valid()
      ensures Parsed(r, stream.pos) == LittleEndianAt(stream.data, p, k + 2)
    {
      var m := OrNextByte(n, k, p);
      if m.Err? {
        return m;
      }
      r := OrNextByte(m.value, k + 1, p);
    }

    /**
     * `n |= (uintN_t)(unsigned char)next() << 8k`: one line of nextFloat /
     * nextDouble, after k bytes read from `p` on.
     */
    method OrNextByte(n: nat, k: nat, ghost p: nat) returns (r: Result<nat>)
      requires stream.Valid() && stream.pos == p + k && n == FromLittleEndian(Span(stream.data, p, p + k))
      modifies stream
      ensures stream.Valid()
      ensures r.Ok? <==> p + k < |stream.data|
      ensures r.Ok? ==> r.value == FromLittleEndian(Span(stream.data, p, p + k + 1)) && stream.pos == p + k + 1
      ensures r.Err? ==> r == Err(ParseError(UnexpectedEof)) && stream.pos == |stream.data|
    {
      var ch := Next();
      if ch.Err? {
        return Err(ch.error);
      }
      LittleEndianSnoc(stream.data, p, k);
      return Ok(n + ch.value as int * Pow256(k));
    }
  }

  class ArrayReader {
    const stream: InStream

    constructor (stream: InStream)
      ensures this.stream == stream
    {
      this.stream := stream;
    }

    /** hasNext(): the peek is neither ']' nor end of stream. */
    method HasNext() returns (b: bool)
      requires stream.Valid()
      ensures b <==> stream.pos < |stream.data| && stream.data[stream.pos] != TagArrayEnd
    {
      var c := stream.Peek();
      b := c.Some? && c.value != TagArrayEnd;
    }

    /** next(): a fresh reader for the next value, on the same stream. */
    method Next() returns (v: Reader)
      ensures fresh(v) && v.stream == stream && v.ready
    {
      v := new Reader(stream);
    }

    /** all(func) with `p.skipNext()` as func. */
    method SkipAll() returns (r: Result<()>)
      requires stream.Valid()
      modifies stream
      ensures stream.Valid()
      ensures Parsed(r, stream.pos) == SkipItemsAt(stream.data, old(stream.pos))
      decreases |stream.data| - stream.pos, 3
    {
      while true
        invariant stream.Valid()
        invariant SkipItemsAt(stream.data, old(stream.pos)) == SkipItemsAt(stream.data, stream.pos)
        decreases |stream.data| - stream.pos
      {
        var more := HasNext();
        if !more {
          return Ok(());
        }
        var v := Next();
        var e := v.SkipNext();
        if e.Err? {
          return e;
        }
      }
    }
  }

  class ObjectReader {
    const stream: InStream

    constructor (stream: InStream)
      ensures this.stream == stream
    {
      this.stream := stream;
    }

    /** hasNext(): the peek is neither '}' nor end of stream. */
    method HasNext() returns (b: bool)
      requires stream.Valid()
      ensures b <==> stream.pos < |stream.data| && stream.data[stream.pos] != TagObjectEnd
    {
      var c := stream.Peek();
      b := c.Some? && c.value != TagObjectEnd;
    }

    /** next(key): get() into the key until a NUL, then a fresh reader for the value. */
    method Next() returns (r: Result<(seq<byte>, Reader)>)
      requires stream.Valid()
      modifies stream
      ensures stream.Valid()
      ensures Parsed(if r.Ok? then Ok(r.value.0) else Err(r.error), stream.pos) == CStringAt(stream.data, old(stream.pos), ObjectNextEof)
      ensures r.Ok? ==> fresh(r.value.1) && r.value.1.stream == stream && r.value.1.ready
    {
      var start := stream.pos;
      var key := [];
      while true
        invariant stream.Valid() && start <= stream.pos
        invariant NulFrom(stream.data, start) == NulFrom(stream.data, stream.pos)
        invariant key == Span(stream.data, start, stream.pos)
        decreases |stream.data| - stream.pos
      {
        var ch := stream.Get();
        if ch.None? {
          return Err(ParseError(ObjectNextEof));
        } else if ch.value == 0 {
          break;
        }
        SpanSnoc(stream.data, start, stream.pos - 1);
        key := key + [ch.value];
      }
      var v := new Reader(stream);
      return Ok((key, v));
    }

    /** all(func) with `p.skipNext()` as func; the keys are read and dropped. */
    method SkipAll() returns (r: Result<()>)
      requires stream.Valid()
      modifies stream
      ensures stream.Valid()
      ensures Parsed(r, stream.pos) == SkipMembersAt(stream.data, old(stream.pos))
      decreases |stream.data| - stream.pos, 3
    {
      while true
        invariant stream.Valid()
        invariant SkipMembersAt(stream.data, old(stream.pos)) == SkipMembersAt(stream.data, stream.pos)
        decreases |stream.data| - stream.pos
      {
        var more := HasNext();
        if !more {
          return Ok(());
        }
        var entry := Next();
        if entry.Err? {
          return Err(entry.error);
        }
        var e := entry.value.1.SkipNext();
        if e.Err? {
          return e;
        }
      }
    }
  }
}
