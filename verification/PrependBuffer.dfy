/** The prepend-reserving buffer of src/Buffer.h and the scatter read of src/Buffer.cc. */
module PrependBuffer {

  /** What readv reports: an error, or the bytes it handed over. */
  datatype Arrival = Failed | Arrived(bytes: string)

  const CHEAP_PREPEND: nat := 8
  const INITIAL_SIZE: nat := 1024
  const EXTRA_SIZE: nat := 65536

  class Buffer {
    var data: array<char>
    var readerIndex: nat
    var writerIndex: nat

    ghost predicate Valid()
      reads this
    {
      CHEAP_PREPEND <= readerIndex <= writerIndex <= data.Length
    }

    ghost function Readable(): string
      requires Valid()
      reads this, data
    {
      data[readerIndex..writerIndex]
    }

    constructor (initialSize: nat := INITIAL_SIZE)
      ensures Valid() && fresh(data) && Readable() == "" && data.Length == 8 + initialSize
    {
      data := new char[CHEAP_PREPEND + initialSize](_ => '\0');
      readerIndex, writerIndex := CHEAP_PREPEND, CHEAP_PREPEND;
    }

    function ReadableBytes(): (n: nat)
      requires Valid()
      reads this, data
      ensures n == |Readable()|
    {
      writerIndex - readerIndex
    }

    function WritableBytes(): nat
      requires Valid()
      reads this
    {
      data.Length - writerIndex
    }

    function PrependableBytes(): nat
      reads this
    {
      readerIndex
    }

    /** Drops the first bytes; asking for all of them or more empties the buffer and resets it. */
    method Retrieve(len: nat)
      requires Valid()
      modifies this`readerIndex, this`writerIndex
      ensures Valid()
      ensures Readable() == if len < |old(Readable())| then old(Readable())[len..] else ""
      ensures len >= |old(Readable())| ==> readerIndex == 8
    {
      if len < ReadableBytes() {
        readerIndex := readerIndex + len;
      } else {
        RetrieveAll();
      }
    }

    method RetrieveAll()
      requires Valid()
      modifies this`readerIndex, this`writerIndex
      ensures Valid() && Readable() == "" && readerIndex == 8
    {
      readerIndex, writerIndex := CHEAP_PREPEND, CHEAP_PREPEND;
    }

    method RetrieveAsString(len: nat) returns (result: string)
      requires Valid() && len <= ReadableBytes()
      modifies this`readerIndex, this`writerIndex
      ensures Valid() && |result| == len && old(Readable()) == result + Readable()
    {
      ghost var was := Readable();
      result := data[readerIndex..readerIndex + len];
      assert result == was[..len];
      Retrieve(len);
      assert Readable() == was[len..];
    }

    method RetrieveAllAsString() returns (result: string)
      requires Valid()
      modifies this`readerIndex, this`writerIndex
      ensures Valid() && result == old(Readable()) && Readable() == ""
    {
      result := RetrieveAsString(ReadableBytes());
    }

    /** Compacts when the slack before and behind suffices, which takes a reader past the reserve; else grows. */
    method MakeSpace(len: nat)
      requires Valid() && WritableBytes() < len
      modifies this, data
      ensures Valid() && (data == old(data) || fresh(data))
      ensures Readable() == old(Readable()) && len <= WritableBytes()
      ensures data == old(data) ==> old(readerIndex) > 8 && readerIndex == 8
    {
      if WritableBytes() + PrependableBytes() < len + CHEAP_PREPEND {
        var bigger := new char[writerIndex + len](_ => '\0');
        forall j | 0 <= j < data.Length {
          bigger[j] := data[j];
        }
        data := bigger;
        assert Readable() == old(Readable());
      } else {
        assert CHEAP_PREPEND < readerIndex; // so the forward copy reads ahead of where it writes
        Compact();
      }
    }

    /** Copies the readable bytes forward to the end of the reserve. */
    method Compact()
      requires Valid() && CHEAP_PREPEND < readerIndex
      modifies this`readerIndex, this`writerIndex, data
      ensures Valid() && Readable() == old(Readable()) && readerIndex == 8
    {
      var readable := ReadableBytes();
      ghost var was, from := Readable(), readerIndex;
      var k := 0;
      while k < readable
        invariant 0 <= k <= readable
        invariant forall m :: 0 <= m < k ==> data[CHEAP_PREPEND + m] == was[m]
        invariant forall m :: k <= m < readable ==> data[from + m] == was[m]
        modifies data
      {
        assert data[readerIndex + k] == was[k];
        data[CHEAP_PREPEND + k] := data[readerIndex + k];
        k := k + 1;
      }
      readerIndex := CHEAP_PREPEND;
      writerIndex := readerIndex + readable;
      assert Readable() == was;
    }

    method EnsureWriteableBytes(len: nat)
      requires Valid()
      modifies this, data
      ensures Valid() && (data == old(data) || fresh(data))
      ensures Readable() == old(Readable()) && len <= WritableBytes()
    {
      if WritableBytes() < len {
        MakeSpace(len);
      }
    }

    method Append(bytes: string)
      requires Valid()
      modifies this, data
      ensures Valid() && (data == old(data) || fresh(data))
      ensures Readable() == old(Readable()) + bytes
    {
      EnsureWriteableBytes(|bytes|);
      Store(bytes);
    }

    /** Places the bytes behind the readable ones, where there is room for them. */
    method Store(bytes: string)
      requires Valid() && |bytes| <= WritableBytes()
      modifies this`writerIndex, data
      ensures Valid() && Readable() == old(Readable()) + bytes && writerIndex == old(writerIndex) + |bytes|
    {
      ghost var was := Readable();
      forall j | 0 <= j < |bytes| {
        data[writerIndex + j] := bytes[j];
      }
      assert data[readerIndex..writerIndex] == was && data[writerIndex..writerIndex + |bytes|] == bytes;
      writerIndex := writerIndex + |bytes|;
      assert Readable() == was + bytes;
    }

    /**
     readFd: the first bytes go into the tail of the buffer, the rest into a 64K area on the stack
     and from there into the buffer; together exactly the bytes that arrived are appended.
     */
    method ReadFd(arrived: Arrival) returns (n: int)
      requires Valid()
      requires arrived.Arrived? ==> |arrived.bytes| <= WritableBytes() + (if WritableBytes() < 65536 then 65536 else 0)
      modifies this, data
      ensures Valid() && (data == old(data) || fresh(data))
      ensures arrived.Failed? ==> n == -1 && Readable() == old(Readable())
      ensures arrived.Arrived? ==> n == |arrived.bytes| && Readable() == old(Readable()) + arrived.bytes
    {
      if arrived.Failed? {
        return -1;
      }
      var bytes := arrived.bytes;
      n := |bytes|;
      var writable := WritableBytes();
      var first := if n <= writable then n else writable;
      assert n - first <= EXTRA_SIZE;
      ghost var was := Readable();
      var extrabuf := bytes[first..];
      Store(bytes[..first]);
      if n > writable {
        Append(extrabuf);
        assert (was + bytes[..first]) + extrabuf == was + (bytes[..first] + extrabuf);
      }
      assert bytes[..first] + extrabuf == bytes;
    }
  }
}
