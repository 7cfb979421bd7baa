/** The compacting byte buffer of source/server.hpp, as a queue of bytes. */
module ByteBuffer {
  import opened Text

  const BUFFER_DEFAULT_SIZE: nat := 1024

  /** Position of the first newline (memchr). */
  function FirstNewline(s: string): Option<nat> {
    Find(s, "\n", 0)
  }

  class Buffer {
    var data: array<char>
    var readerIdx: nat
    var writerIdx: nat

    ghost predicate Valid()
      reads this
    {
      readerIdx <= writerIdx <= data.Length
    }

    /** The bytes in the queue, oldest first. */
    ghost function Readable(): string
      requires Valid()
      reads this, data
    {
      data[readerIdx..writerIdx]
    }

    constructor ()
      ensures Valid() && fresh(data) && data.Length == 1024 && Readable() == ""
    {
      data := new char[BUFFER_DEFAULT_SIZE](_ => '\0');
      readerIdx, writerIdx := 0, 0;
    }

    function TailIdleSize(): (n: nat)
      requires Valid()
      reads this
      ensures writerIdx + n == data.Length
    {
      data.Length - writerIdx
    }

    function HeadIdleSize(): nat
      reads this
    {
      readerIdx
    }

    function ReadAbleSize(): (n: nat)
      requires Valid()
      reads this, data
      ensures n == |Readable()|
    {
      writerIdx - readerIdx
    }

    method MoveReadOffset(len: nat)
      requires Valid() && len <= ReadAbleSize()
      modifies this`readerIdx
      ensures Valid() && Readable() == old(Readable())[len..]
    {
      if len == 0 {
        return;
      }
      readerIdx := readerIdx + len;
    }

    method MoveWriteOffset(len: nat)
      requires Valid() && len <= TailIdleSize()
      modifies this`writerIdx
      ensures Valid() && Readable() == old(Readable()) + old(data[writerIdx..writerIdx + len])
    {
      writerIdx := writerIdx + len;
    }

    /**
     Makes room for `len` bytes behind the readable ones, by compacting when the space before
     and behind them suffices and by growing otherwise. The readable bytes do not change.
     */
    method EnsureWriteSpace(len: nat)
      requires Valid()
      modifies this, data
      ensures Valid() && (data == old(data) || fresh(data))
      ensures Readable() == old(Readable()) && len <= TailIdleSize()
      ensures old(len <= TailIdleSize()) ==>
                data == old(data) && data[..] == old(data[..]) && readerIdx == old(readerIdx)
      ensures old(TailIdleSize() < len <= TailIdleSize() + HeadIdleSize()) ==> data == old(data) && readerIdx == 0
      ensures old(TailIdleSize() + HeadIdleSize()) < len ==> data.Length == old(writerIdx) + len && readerIdx == old(readerIdx)
    {
      if TailIdleSize() >= len {
        return;
      }
      if len <= TailIdleSize() + HeadIdleSize() {
        // the destination lies strictly before the source, so copying forward is safe
        assert 0 < readerIdx;
        Compact();
      } else {
        var bigger := new char[writerIdx + len](_ => '\0');
        forall j | 0 <= j < data.Length {
          bigger[j] := data[j];
        }
        data := bigger;
        assert Readable() == old(Readable());
      }
    }

    /** Copies the readable bytes forward to the front. */
    method Compact()
      requires Valid() && 0 < readerIdx
      modifies this`readerIdx, this`writerIdx, data
      ensures Valid() && Readable() == old(Readable()) && readerIdx == 0
    {
      var rsz := ReadAbleSize();
      ghost var was, from := Readable(), readerIdx;
      var k := 0;
      while k < rsz
        invariant 0 <= k <= rsz
        invariant forall m :: 0 <= m < k ==> data[m] == was[m]
        invariant forall m :: k <= m < rsz ==> data[from + m] == was[m]
        modifies data
      {
        assert data[readerIdx + k] == was[k];
        data[k] := data[readerIdx + k];
        k := k + 1;
      }
      readerIdx := 0;
      writerIdx := rsz;
      assert Readable() == was;
    }

    /** Copies the bytes behind the readable ones; MoveWriteOffset makes them readable. */
    method Write(bytes: string)
      requires Valid()
      modifies this, data
      ensures Valid() && (data == old(data) || fresh(data))
      ensures Readable() == old(Readable())
      ensures |bytes| <= TailIdleSize() && data[writerIdx..writerIdx + |bytes|] == bytes
    {
      if |bytes| == 0 {
        return;
      }
      EnsureWriteSpace(|bytes|);
      Copy(bytes);
    }

    /** std::copy to the write position. */
    method Copy(bytes: string)
      requires Valid() && |bytes| <= TailIdleSize()
      modifies data
      ensures Readable() == old(Readable()) && data[writerIdx..writerIdx + |bytes|] == bytes
    {
      forall j | 0 <= j < |bytes| {
        data[writerIdx + j] := bytes[j];
      }
    }

    method WriteAndPush(bytes: string)
      requires Valid()
      modifies this, data
      ensures Valid() && (data == old(data) || fresh(data))
      ensures Readable() == old(Readable()) + bytes
    {
      Write(bytes);
      MoveWriteOffset(|bytes|);
    }

    method WriteBufferAndPush(other: Buffer)
      requires Valid() && other.Valid() && other != this && other.data != data
      modifies this, data
      ensures Valid() && (data == old(data) || fresh(data))
      ensures Readable() == old(Readable()) + other.Readable()
    {
      Write(other.data[other.readerIdx..other.writerIdx]);
      MoveWriteOffset(other.ReadAbleSize());
    }

    method ReadAsString(len: nat) returns (str: string)
      requires Valid() && len <= ReadAbleSize()
      ensures str == Readable()[..len]
    {
      str := data[readerIdx..readerIdx + len];
    }

    method ReadAsStringAndPop(len: nat) returns (str: string)
      requires Valid() && len <= ReadAbleSize()
      modifies this`readerIdx
      ensures Valid() && |str| == len && old(Readable()) == str + Readable()
    {
      str := ReadAsString(len);
      MoveReadOffset(len);
    }

    method FindCRLF() returns (pos: Option<nat>)
      requires Valid()
      ensures pos == FirstNewline(Readable())
    {
      ghost var s := Readable();
      var k := readerIdx;
      while k < writerIdx
        invariant readerIdx <= k <= writerIdx
        invariant forall j :: 0 <= j < k - readerIdx ==> s[j] != '\n'
      {
        if data[k] == '\n' {
          FindCharIs(s, '\n', 0, k - readerIdx);
          return Some(k - readerIdx);
        }
        k := k + 1;
      }
      FindCharNone(s, '\n', 0);
      pos := None;
    }

    method GetLine() returns (line: string)
      requires Valid()
      ensures line == match FirstNewline(Readable()) case None => "" case Some(p) => Readable()[..p + 1]
    {
      var pos := FindCRLF();
      if pos.None? {
        return "";
      }
      AtChar(Readable(), '\n', pos.value);
      line := ReadAsString(pos.value + 1);
    }

    /** Takes the first line with its newline; empty exactly when no newline is readable. */
    method GetLineAndPop() returns (line: string)
      requires Valid()
      modifies this`readerIdx
      ensures Valid() && old(Readable()) == line + Readable()
      ensures line == "" <==> '\n' !in old(Readable())
      ensures line != "" ==> line[|line| - 1] == '\n' && '\n' !in line[..|line| - 1]
    {
      ghost var s := Readable();
      FindCharNone(s, '\n', 0);
      line := GetLine();
      if line != "" {
        var p := FirstNewline(s).value;
        AtChar(s, '\n', p);
        forall j | 0 <= j < p ensures s[j] != '\n' {
          AtChar(s, '\n', j);
        }
      }
      MoveReadOffset(|line|);
    }

    method Clear()
      requires Valid()
      modifies this`readerIdx, this`writerIdx
      ensures Valid() && Readable() == "" && readerIdx == 0 && writerIdx == 0
    {
      readerIdx := 0;
      writerIdx := 0;
    }
  }
}
