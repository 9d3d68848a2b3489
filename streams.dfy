/**
 * The byte streams the readers and writers share: `std::istream` reduced
 * to its bytes and a read position (peek and get), `std::ostream` to the
 * bytes appended so far. Parent and child readers (and writers) hold the
 * same stream object, as the C++ objects share one stream pointer.
 */
module Streams {
  import opened Wire

  class InStream {
    const data: seq<byte>
    var pos: nat

    ghost predicate Valid()
      reads this
    {
      pos <= |data|
    }

    constructor (data: seq<byte>)
      ensures this.data == data && pos == 0 && Valid()
    {
      this.data := data;
      pos := 0;
    }

    /** peek(): the next byte without consuming it, None at end of stream. */
    method Peek() returns (c: Option<byte>)
      requires Valid()
      ensures c.Some? <==> pos < |data|
      ensures c.Some? ==> c.value == data[pos]
    {
      if pos < |data| { c := Some(data[pos]); } else { c := None; }
    }

    /** get(): the next byte, consumed; at end of stream None, and the position stays at the end. */
    method Get() returns (c: Option<byte>)
      requires Valid()
      modifies this
      ensures Valid()
      ensures c.Some? <==> old(pos) < |data|
      ensures c.Some? ==> c.value == data[old(pos)] && pos == old(pos) + 1
      ensures c.None? ==> pos == old(pos)
    {
      if pos < |data| {
        c := Some(data[pos]);
        pos := pos + 1;
      } else {
        c := None;
      }
    }
  }

  class OutStream {
    var bytes: seq<byte>

    constructor ()
      ensures bytes == []
    {
      bytes := [];
    }

    /** `os << ch` for one byte. */
    method Put(b: byte)
      modifies this
      ensures bytes == old(bytes) + [b]
    {
      bytes := bytes + [b];
    }

    /** `os << str` / `os.write(data, length)`: the bytes appended verbatim. */
    method Write(s: seq<byte>)
      modifies this
      ensures bytes == old(bytes) + s
    {
      bytes := bytes + s;
    }
  }
}
