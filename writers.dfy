/**
 * The `Writer` and `ObjectWriter` classes. sbon.h and nbon.h carry the same
 * writer byte for byte (nbon's `writeString` takes a C string instead of a
 * string view, which yields the same bytes), so one class models both.
 * Each write appends to the shared output stream; a write on a locked
 * writer (`ready` false, inside a `writeArray`/`writeObject` callback)
 * throws LogicError and appends nothing.
 */
module Writers {
  import opened Wire
  import opened Streams

  /** checkReady(): the outcome of a guarded write. */
  function Checked(ready: bool): (r: Result<()>)
    ensures r.Ok? <==> ready
    ensures r.Err? ==> r.error == LogicError
  {
    if ready then Ok(()) else Err(LogicError)
  }

  /** What a guarded write appends: its encoding when ready, nothing when locked. */
  function Emitted(ready: bool, enc: seq<byte>): (r: seq<byte>)
    ensures ready ==> r == enc
    ensures !ready ==> r == []
  {
    if ready then enc else []
  }

  class Writer {
    const os: OutStream
    var ready: bool

    /** `Writer(std::ostream *os)`: a fresh writer is ready. */
    constructor (os: OutStream)
      ensures this.os == os && ready
    {
      this.os := os;
      ready := true;
    }

    method WriteTrue() returns (r: Result<()>)
      modifies os
      ensures r == Checked(ready)
      ensures os.bytes == old(os.bytes) + Emitted(ready, [TagTrue])
    {
      if !ready {
        return Err(LogicError);
      }
      os.Put(TagTrue);
      return Ok(());
    }

    method WriteFalse() returns (r: Result<()>)
      modifies os
      ensures r == Checked(ready)
      ensures os.bytes == old(os.bytes) + Emitted(ready, [TagFalse])
    {
      if !ready {
        return Err(LogicError);
      }
      os.Put(TagFalse);
      return Ok(());
    }

    method WriteBool(b: bool) returns (r: Result<()>)
      modifies os
      ensures r == Checked(ready)
      ensures os.bytes == old(os.bytes) + Emitted(ready, Encode(Bool(b)))
    {
      if !ready {
        return Err(LogicError);
      }
      if b {
        r := WriteTrue();
      } else {
        r := WriteFalse();
      }
    }

    method WriteNull() returns (r: Result<()>)
      modifies os
      ensures r == Checked(ready)
      ensures os.bytes == old(os.bytes) + Emitted(ready, [TagNull])
    {
      if !ready {
        return Err(LogicError);
      }
      os.Put(TagNull);
      return Ok(());
    }

    /** The string is cut at its first NUL, then written as 'S', the bytes and a NUL terminator. */
    method WriteString(s: seq<byte>) returns (r: Result<()>)
      modifies os
      ensures r == Checked(ready)
      ensures os.bytes == old(os.bytes) + Emitted(ready, EncodeString(s))
    {
      if !ready {
        return Err(LogicError);
      }
      var str := s;
      var i := 0;
      while i < |s|
        invariant 0 <= i <= |s| && str == s
        invariant forall j :: 0 <= j < i ==> s[j] != 0
      {
        if s[i] == 0 {
          str := s[..i];
          break;
        }
        i := i + 1;
      }
      assert str == CString(s);
      os.Put(TagString);
      os.Write(str);
      os.Put(0);
      return Ok(());
    }

    /** `bits` is the float's bit pattern (the memcpy into a uint32); byte i is `(n & (0xff << 8i)) >> 8i`. */
    method WriteFloat(bits: nat) returns (r: Result<()>)
      requires bits < 0x1_0000_0000
      modifies os
      ensures r == Checked(ready)
      ensures os.bytes == old(os.bytes) + Emitted(ready, EncodeFloat(bits))
    {
      if !ready {
        return Err(LogicError);
      }
      os.Put(TagFloat);
      os.Put(bits % 0x100);
      os.Put(bits / 0x100 % 0x100);
      os.Put(bits / 0x1_0000 % 0x100);
      os.Put(bits / 0x100_0000 % 0x100);
      LittleEndian4(bits);
      return Ok(());
    }

    method WriteDouble(bits: nat) returns (r: Result<()>)
      requires bits < U64_LIMIT
      modifies os
      ensures r == Checked(ready)
      ensures os.bytes == old(os.bytes) + Emitted(ready, EncodeDouble(bits))
    {
      if !ready {
        return Err(LogicError);
      }
      os.Put(TagDouble);
      os.Put(bits % 0x100);
      os.Put(bits / 0x100 % 0x100);
      os.Put(bits / 0x1_0000 % 0x100);
      os.Put(bits / 0x100_0000 % 0x100);
      os.Put(bits / 0x1_0000_0000 % 0x100);
      os.Put(bits / 0x100_0000_0000 % 0x100);
      os.Put(bits / 0x1_0000_0000_0000 % 0x100);
      os.Put(bits / 0x100_0000_0000_0000 % 0x100);
      LittleEndian8(bits);
      return Ok(());
    }

    method WriteBinary(data: seq<byte>) returns (r: Result<()>)
      requires |data| < U64_LIMIT
      modifies os
      ensures r == Checked(ready)
      ensures os.bytes == old(os.bytes) + Emitted(ready, EncodeBinary(data))
    {
      if !ready {
        return Err(LogicError);
      }
      os.Put(TagBinary);
      WriteLeb128(|data|);
      os.Write(data);
      return Ok(());
    }

    /** writeInt(int64_t): a digit, '+' or '-' and a varint; INT64_MIN is '-' and the varint of 2^63. */
    method WriteInt(num: int) returns (r: Result<()>)
      requires IsI64(num)
      modifies os
      ensures r == Checked(ready)
      ensures os.bytes == old(os.bytes) + Emitted(ready, EncodeInteger(num))
    {
      if !ready {
        return Err(LogicError);
      }
      if num < 0 {
        NegativeEncoding(num);
        WriteNegative(num);
      } else {
        WriteNonNegative(num);
      }
      return Ok(());
    }

    /** The negative branches of writeInt: '-', then the magnitude as a varint. */
    method WriteNegative(num: int)
      requires IsI64(num) && num < 0
      modifies os
      ensures os.bytes == old(os.bytes) + [TagMinus] + Varint(-num)
    {
      os.Put(TagMinus);
      if num == I64_MIN {
        // -num overflows int64 in C++, so the magnitude is spelled INT64_MAX + 1
        WriteLeb128(I64_MAX + 1);
      } else {
        WriteLeb128(-num);
      }
    }

    method WriteUInt(num: nat) returns (r: Result<()>)
      requires IsU64(num)
      modifies os
      ensures r == Checked(ready)
      ensures os.bytes == old(os.bytes) + Emitted(ready, EncodeInteger(num))
    {
      if !ready {
        return Err(LogicError);
      }
      WriteNonNegative(num);
      return Ok(());
    }

    /**
     * The part of `writeArray(func)` before `func` runs: checkReady, '[',
     * lock this writer, hand a fresh writer on the same stream to the callback.
     */
    method BeginArray() returns (r: Result<Writer>)
      modifies this, os
      ensures r.Ok? <==> old(ready)
      ensures r.Ok? ==> fresh(r.value) && r.value.os == os && r.value.ready
      ensures r.Ok? ==> !ready && os.bytes == old(os.bytes) + [TagArray]
      ensures r.Err? ==> r.error == LogicError && ready == old(ready) && os.bytes == old(os.bytes)
    {
      if !ready {
        return Err(LogicError);
      }
      os.Put(TagArray);
      ready := false;
      var child := new Writer(os);
      return Ok(child);
    }

    /** The part of `writeArray(func)` after `func` returns: unlock and emit ']'. */
    method EndArray()
      requires !ready
      modifies this, os
      ensures ready && os.bytes == old(os.bytes) + [TagArrayEnd]
    {
      ready := true;
      os.Put(TagArrayEnd);
    }

    /** The part of `writeObject(func)` before `func` runs; the callback gets an ObjectWriter. */
    method BeginObject() returns (r: Result<ObjectWriter>)
      modifies this, os
      ensures r.Ok? <==> old(ready)
      ensures r.Ok? ==> fresh(r.value) && r.value.os == os
      ensures r.Ok? ==> !ready && os.bytes == old(os.bytes) + [TagObject]
      ensures r.Err? ==> r.error == LogicError && ready == old(ready) && os.bytes == old(os.bytes)
    {
      if !ready {
        return Err(LogicError);
      }
      os.Put(TagObject);
      ready := false;
      var child := new ObjectWriter(os);
      return Ok(child);
    }

    /** The part of `writeObject(func)` after `func` returns: unlock and emit '}'. */
    method EndObject()
      requires !ready
      modifies this, os
      ensures ready && os.bytes == old(os.bytes) + [TagObjectEnd]
    {
      ready := true;
      os.Put(TagObjectEnd);
    }

    /** The unsigned branches shared by writeInt and writeUInt: a digit, or '+' and the varint. */
    method WriteNonNegative(num: nat)
      requires IsU64(num)
      modifies os
      ensures os.bytes == old(os.bytes) + EncodeInteger(num)
    {
      if num <= 9 {
        os.Put(Digit0 + num);
      } else {
        os.Put(TagPlus);
        WriteLeb128(num);
      }
    }

    /**
     * writeLEB128 (private, unguarded): seven bits per byte, least
     * significant group first, the high bit set while more groups follow.
     * `hi | (num & 0x7f)` is written `hi + num % 0x80`: the two never share a bit.
     */
    method WriteLeb128(num: nat)
      requires num < U64_LIMIT
      modifies os
      ensures os.bytes == old(os.bytes) + Varint(num)
    {
      var n := num;
      while true
        invariant os.bytes + Varint(n) == old(os.bytes) + Varint(num)
        decreases n
      {
        var hi := if n > 0x7f then 0x80 else 0;
        os.Put(hi + n % 0x80);
        if n <= 0x7f {
          break;
        }
        n := n / 0x80;
      }
    }
  }

  class ObjectWriter {
    const os: OutStream

    constructor (os: OutStream)
      ensures this.os == os
    {
      this.os := os;
    }

    /**
     * key(const char *): the key as a C string and its NUL, then a fresh
     * writer for the value. There is no readiness check here.
     */
    method Key(key: seq<byte>) returns (w: Writer)
      modifies os
      ensures fresh(w) && w.os == os && w.ready
      ensures os.bytes == old(os.bytes) + EncodeKey(key)
    {
      os.Write(CString(key));
      os.Put(0);
      w := new Writer(os);
    }
  }
}
