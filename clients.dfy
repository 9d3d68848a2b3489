/**
 * Clients of the two libraries, written the way the test programs use
 * them: a writer client that writes any value through nested
 * writeArray / writeObject callbacks, and whole write-then-read
 * runs over one stream. Each run states what the reader makes of what
 * the writer produced, on the actual classes rather than on the pure
 * specification functions.
 */
module Clients {
  import opened Wire
  import opened Streams
  import opened Scan
  import opened Writers
  import SbonSpec
  import NbonSpec
  import SbonReader
  import NbonReader

  /**
   * A value written through the writer API: scalars by their write call,
   * arrays and objects by a callback that writes the elements with the
   * child writer. The parent is ready again afterwards.
   */
  method WriteValue(w: Writer, v: Value)
    requires w.ready && WellFormed(v)
    modifies w, w.os
    ensures w.ready
    ensures w.os.bytes == old(w.os.bytes) + Encode(v)
    decreases v, 0
  {
    match v
    case Arr(items) =>
      WriteArray(w, items);
    case Obj(ms) =>
      WriteObject(w, ms);
    case _ =>
      WriteScalar(w, v);
  }

  /** A scalar value by its write call. */
  method WriteScalar(w: Writer, v: Value)
    requires w.ready && WellFormed(v) && !v.Arr? && !v.Obj?
    modifies w.os
    ensures w.os.bytes == old(w.os.bytes) + Encode(v)
  {
    match v
    case Bool(b) =>
      var _ := w.WriteBool(b);
    case Null =>
      var _ := w.WriteNull();
    case Str(s) =>
      var _ := w.WriteString(s);
    case Bin(data) =>
      var _ := w.WriteBinary(data);
    case F32(bits) =>
      var _ := w.WriteFloat(bits);
    case F64(bits) =>
      var _ := w.WriteDouble(bits);
    case Int(n) =>
      if n <= I64_MAX {
        var _ := w.WriteInt(n);
      } else {
        var _ := w.WriteUInt(n);
      }
  }

  /** `writeArray` with a callback that writes `items` with the child writer. */
  method WriteArray(w: Writer, items: seq<Value>)
    requires w.ready && AllWellFormed(items)
    modifies w, w.os
    ensures w.ready
    ensures w.os.bytes == old(w.os.bytes) + Encode(Arr(items))
    decreases items, 2
  {
    var child := w.BeginArray();
    WriteItems(child.value, items);
    w.EndArray();
  }

  /** `writeObject` with a callback that writes the members `ms`. */
  method WriteObject(w: Writer, ms: seq<Member>)
    requires w.ready && MembersWellFormed(ms)
    modifies w, w.os
    ensures w.ready
    ensures w.os.bytes == old(w.os.bytes) + Encode(Obj(ms))
    decreases ms, 2
  {
    var child := w.BeginObject();
    WriteMembers(child.value, ms);
    w.EndObject();
  }

  /** The body of a `writeArray` callback: each item in turn, with the child writer. */
  method WriteItems(w: Writer, items: seq<Value>)
    requires w.ready && AllWellFormed(items)
    modifies w, w.os
    ensures w.ready
    ensures w.os.bytes == old(w.os.bytes) + EncodeItems(items)
    decreases items, 1
  {
    if items != [] {
      ghost var before := w.os.bytes;
      var head, tail := items[0], items[1..];
      assert EncodeItems(items) == Encode(head) + EncodeItems(tail);
      WriteValue(w, head);
      WriteItems(w, tail);
      assert before + Encode(head) + EncodeItems(tail) == before + EncodeItems(items);
    }
  }

  /** The body of a `writeObject` callback: `w.key(k).write...(v)` for each member. */
  method WriteMembers(ow: ObjectWriter, ms: seq<Member>)
    requires MembersWellFormed(ms)
    modifies ow.os
    ensures ow.os.bytes == old(ow.os.bytes) + EncodeMembers(ms)
    decreases ms, 1
  {
    if ms != [] {
      ghost var before := ow.os.bytes;
      var head, tail := ms[0], ms[1..];
      assert EncodeMembers(ms) == EncodeMember(head) + EncodeMembers(tail);
      WriteMember(ow, head);
      WriteMembers(ow, tail);
      assert before + EncodeMember(head) + EncodeMembers(tail) == before + EncodeMembers(ms);
    }
  }

  /** One member: the key, then the value with the writer `key` returns. */
  method WriteMember(ow: ObjectWriter, m: Member)
    requires MemberWellFormed(m)
    modifies ow.os
    ensures ow.os.bytes == old(ow.os.bytes) + EncodeMember(m)
    decreases m, 2
  {
    var vw := ow.Key(m.key);
    WriteValue(vw, m.value);
  }

  /**
   * Write `v` to a fresh stream, then `skip` it with an sbon reader: the
   * skip succeeds and nothing is left (`hasNext()` is false).
   */
  method SbonWriteThenSkip(v: Value) returns (r: Result<()>, more: bool)
    requires WellFormed(v) && SbonSpec.Skippable(v)
    ensures r == Ok(()) && !more
  {
    var os := new OutStream();
    var w := new Writer(os);
    WriteValue(w, v);
    assert os.bytes == Encode(v);
    var ins := new InStream(os.bytes);
    AtWhole(ins.data);
    SbonSpec.SkipEncoded(ins.data, 0, v);
    var rd := new SbonReader.Reader(ins);
    r := rd.Skip();
    more := rd.HasNext();
  }

  /**
   * Write an object, then `matchObject` it with handlers for `keys`: each
   * member is dispatched in stream order to the first handler for its key.
   */
  method SbonWriteThenMatch(ms: seq<Member>, keys: seq<seq<byte>>) returns (r: Result<seq<SbonSpec.Dispatch>>, more: bool)
    requires WellFormed(Obj(ms)) && SbonSpec.Skippable(Obj(ms))
    ensures r == Ok(SbonSpec.Trace(ms, keys)) && !more
  {
    var os := new OutStream();
    var w := new Writer(os);
    WriteValue(w, Obj(ms));
    assert os.bytes == Encode(Obj(ms));
    var ins := new InStream(os.bytes);
    AtWhole(ins.data);
    SbonSpec.MatchEncoded(ins.data, 0, ms, keys);
    var rd := new SbonReader.Reader(ins);
    r := rd.MatchObject(keys);
    more := rd.HasNext();
  }

  /**
   * Write `v` to a fresh stream, then `skipNext` it with an nbon reader:
   * nbon's reader gets through every value whose blob lengths read back,
   * whatever it makes of the numbers.
   */
  method NbonWriteThenSkip(v: Value) returns (r: Result<()>, more: bool)
    requires WellFormed(v) && NbonSpec.Skippable(v)
    ensures r == Ok(()) && !more
  {
    var os := new OutStream();
    var w := new Writer(os);
    WriteValue(w, v);
    assert os.bytes == Encode(v);
    var ins := new InStream(os.bytes);
    AtWhole(ins.data);
    NbonSpec.SkipEncoded(ins.data, 0, v);
    var rd := new NbonReader.Reader(ins);
    r := rd.SkipNext();
    more := rd.HasNext();
  }

  /**
   * writeUInt(128) read back by nbon's nextUInt: the writer's 80 01 is
   * rebuilt most-significant group first, giving 1.
   */
  method NbonUInt128() returns (r: Result<nat>, more: bool)
    ensures r == Ok(1) && !more
  {
    var os := new OutStream();
    var w := new Writer(os);
    var _ := w.WriteUInt(128);
    assert os.bytes == EncodeInteger(128);
    var ins := new InStream(os.bytes);
    AtWhole(ins.data);
    NbonSpec.UInt128ReadsOne(ins.data, 0);
    var rd := new NbonReader.Reader(ins);
    r := rd.NextUInt();
    more := rd.HasNext();
  }

  /**
   * A write to the parent from inside its `writeArray` callback: the
   * parent is locked, so the write throws LogicError and appends nothing;
   * the exception leaves the parent locked and the array unclosed.
   */
  method WriteToLockedParent(w: Writer, n: int) returns (r: Result<()>)
    requires w.ready && IsI64(n)
    modifies w, w.os
    ensures r == Err(LogicError) && !w.ready
    ensures w.os.bytes == old(w.os.bytes) + [TagArray]
  {
    var child := w.BeginArray();
    r := w.WriteInt(n);
  }

  /** The array test of the writer: `[TF[FT]N]`, the inner array closed before the null. */
  method WriteNestedArrays(w: Writer)
    requires w.ready
    modifies w, w.os
    ensures w.ready
    ensures w.os.bytes == old(w.os.bytes) + [TagArray, TagTrue, TagFalse, TagArray, TagFalse, TagTrue, TagArrayEnd, TagNull, TagArrayEnd]
  {
    WriteValue(w, Arr([Bool(true), Bool(false), Arr([Bool(false), Bool(true)]), Null]));
  }

  /** The first read test, `TFNFT`, with sbon's getters: the type peek does not consume the 'N'. */
  method SbonReadBasic() returns (a: Result<bool>, b: Result<bool>, t: Result<Type>, n: Result<()>, c: Result<bool>, e: Result<bool>, more: bool)
    ensures a == Ok(true) && b == Ok(false) && t == Ok(TNil) && n == Ok(())
    ensures c == Ok(false) && e == Ok(true) && !more
  {
    var ins := new InStream([TagTrue, TagFalse, TagNull, TagFalse, TagTrue]);
    var rd := new SbonReader.Reader(ins);
    a := rd.GetBool();
    b := rd.GetBool();
    t := rd.GetType();
    n := rd.GetNil();
    c := rd.GetBool();
    e := rd.GetBool();
    more := rd.HasNext();
  }

  /**
   * The array read test, `[T[FF]3]`: the outer reader is locked while its
   * ArrayReader is in use and ready again after the closing ']'.
   */
  method SbonReadNestedArrays() returns (x: Result<bool>, y1: Result<bool>, y2: Result<bool>, innerMore: bool, z: Result<SbonSpec.Number>, close: Result<()>, more: bool)
    ensures x == Ok(true) && y1 == Ok(false) && y2 == Ok(false) && !innerMore
    ensures z == Ok(SbonSpec.Whole(3)) && close == Ok(()) && !more
  {
    var ins := new InStream([TagArray, TagTrue, TagArray, TagFalse, TagFalse, TagArrayEnd, Digit0 + 3, TagArrayEnd]);
    var rd := new SbonReader.Reader(ins);
    var open := rd.BeginArray();
    var arr := open.value;
    var v := arr.Next();
    x := v.GetBool();
    v := arr.Next();
    SpanSlice(ins.data, 2, 7);
    assert ins.data[2..7] == [TagArray, TagFalse, TagFalse, TagArrayEnd, Digit0 + 3];
    var inner := ReadInnerArray(v);
    y1, y2, innerMore := inner.0, inner.1, inner.2;
    v := arr.Next();
    z := v.GetUInt();
    close := rd.EndArray();
    more := rd.HasNext();
  }

  /** The callback of the inner `getArray` in the array read test: two booleans, then no more. */
  method ReadInnerArray(v: SbonReader.Reader) returns (r: (Result<bool>, Result<bool>, bool))
    requires v.stream.Valid() && v.ready && v.stream.pos + 5 <= |v.stream.data|
    requires Span(v.stream.data, v.stream.pos, v.stream.pos + 5) == [TagArray, TagFalse, TagFalse, TagArrayEnd, Digit0 + 3]
    modifies v, v.stream
    ensures v.stream.Valid() && v.ready && v.stream.pos == old(v.stream.pos) + 4
    ensures r == (Ok(false), Ok(false), false)
  {
    ghost var d, p := v.stream.data, v.stream.pos;
    SpanIndex(d, p, p + 5, 0);
    SpanIndex(d, p, p + 5, 1);
    SpanIndex(d, p, p + 5, 2);
    SpanIndex(d, p, p + 5, 3);
    var open := v.BeginArray();
    var arr := open.value;
    var w := arr.Next();
    var a := w.GetBool();
    w := arr.Next();
    var b := w.GetBool();
    var more := arr.HasNext();
    var _ := v.EndArray();
    r := (a, b, more);
  }

  /** A stream is its own contents at position 0. */
  lemma AtWhole(d: seq<byte>)
    ensures At(d, 0, d)
  {
    AtSlice(d, 0, d);
    assert d[0..|d|] == d;
  }
}
