/** The growable byte queue that variable expansion writes through. */
module Buffers {
  const DEF_SIZE := 256
  const ADD_INC := 256
  const UNGET_INC := 16

  function Max(a: int, b: int): int { if a > b then a else b }

  class Buffer {
    var size: nat            // how many bytes there is room for
    var left: int            // space left
    var buffer: array<char>
    var inPtr: nat           // place to write to
    var outPtr: nat          // place to read from

    /** There is always room for the null byte after the contents, and it is there. */
    ghost predicate Valid()
      reads this, buffer
    {
      outPtr <= inPtr < size == buffer.Length && left == size - inPtr && buffer[inPtr] == '\0'
    }

    /** The bytes that have been put in and not yet been taken out. */
    ghost function Contents(): seq<char>
      reads this, buffer
      requires Valid()
    {
      buffer[outPtr..inPtr]
    }

    /** Buf_Init. */
    constructor (size: int)
      ensures Valid() && fresh(buffer) && Contents() == []
      ensures this.size == if size <= 0 then DEF_SIZE else size
    {
      var n: nat := if size <= 0 then DEF_SIZE else size;
      this.size, left, inPtr, outPtr := n, n, 0, 0;
      buffer := new char[n](_ => '\0');
    }

    /** BufExpand: make room for some more bytes and the null byte. */
    method Expand(numBytes: nat)
      requires buffer.Length == size && outPtr <= inPtr < size
      requires left == size - inPtr || (left == 0 && inPtr + 1 == size)
      modifies this
      ensures buffer.Length == size && left == size - inPtr >= numBytes + 1
      ensures inPtr == old(inPtr) && outPtr == old(outPtr)
      ensures buffer == old(buffer) || fresh(buffer)
      ensures buffer[..inPtr] == old(buffer[..inPtr])
    {
      if left < numBytes + 1 {
        var newSize := size + Max(numBytes + 1, ADD_INC);
        var newBuf := new char[newSize](i requires 0 <= i reads this, buffer => if i < buffer.Length then buffer[i] else '\0');
        buffer := newBuf;
        size := newSize;
        left := newSize - inPtr;
      }
    }

    /** Buf_AddByte, with Buf_OvAddByte when there is no space left. */
    method AddByte(byte: char)
      requires Valid()
      modifies this, buffer
      ensures Valid() && (buffer == old(buffer) || fresh(buffer))
      ensures Contents() == old(Contents()) + [byte]
    {
      left := left - 1;
      if left <= 0 {
        left := 0;
        Expand(1);
        buffer[inPtr] := byte;
        inPtr := inPtr + 1;
        left := left - 1;
        buffer[inPtr] := '\0';
      } else {
        buffer[inPtr] := byte;
        inPtr := inPtr + 1;
        buffer[inPtr] := '\0';
      }
    }

    /** Buf_AddBytes. */
    method AddBytes(bytes: seq<char>)
      requires Valid()
      modifies this, buffer
      ensures Valid() && (buffer == old(buffer) || fresh(buffer))
      ensures Contents() == old(Contents()) + bytes
    {
      Expand(|bytes|);
      forall k | 0 <= k < |bytes| { buffer[inPtr + k] := bytes[k]; }
      inPtr := inPtr + |bytes|;
      left := left - |bytes|;
      buffer[inPtr] := '\0';
    }

    /** A larger buffer, with the contents moved up by some bytes. */
    method MoveUp(newBytes: nat)
      requires Valid()
      modifies this
      ensures Valid() && fresh(buffer) && outPtr == newBytes && Contents() == old(Contents())
    {
      var numBytes := inPtr - outPtr;
      var out := outPtr;
      var newBuf := new char[size + newBytes](i requires 0 <= i reads this, buffer =>
        if newBytes <= i && i - newBytes + out < buffer.Length then buffer[i - newBytes + out] else '\0');
      outPtr := newBytes;
      inPtr := outPtr + numBytes;
      buffer := newBuf;
      size := size + newBytes;
      left := size - inPtr;
    }

    /** Buf_UngetByte.  The program does not look whether an empty buffer has room for the byte and the
      * null byte; with a size of one it writes behind it. */
    method UngetByte(byte: char) returns (room: bool)
      requires Valid()
      modifies this, buffer
      ensures room <==> !(old(outPtr) == 0 == old(inPtr) && old(size) == 1)
      ensures Valid() && (buffer == old(buffer) || fresh(buffer))
      ensures Contents() == (if room then [byte] else []) + old(Contents())
    {
      room := outPtr != 0 || inPtr != 0 || size > 1;
      if !room { return; }
      if outPtr != 0 {
        outPtr := outPtr - 1;
        buffer[outPtr] := byte;
      } else if outPtr == inPtr {
        buffer[inPtr] := byte;
        inPtr := inPtr + 1;
        left := left - 1;
        buffer[inPtr] := '\0';
      } else {
        MoveUp(UNGET_INC);
        outPtr := outPtr - 1;
        buffer[outPtr] := byte;
      }
    }

    /** Write some bytes in front of the contents. */
    method Prepend(bytes: seq<char>)
      requires Valid() && |bytes| <= outPtr
      modifies `outPtr, buffer
      ensures Valid() && Contents() == bytes + old(Contents())
    {
      outPtr := outPtr - |bytes|;
      forall k | 0 <= k < |bytes| { buffer[outPtr + k] := bytes[k]; }
    }

    /** Buf_UngetBytes. */
    method UngetBytes(bytes: seq<char>)
      requires Valid()
      modifies this, buffer
      ensures Valid() && (buffer == old(buffer) || fresh(buffer))
      ensures Contents() == bytes + old(Contents())
    {
      if outPtr >= |bytes| {
        Prepend(bytes);
      } else if outPtr == inPtr {
        AddBytes(bytes);
      } else {
        MoveUp(Max(|bytes|, UNGET_INC));
        Prepend(bytes);
      }
    }

    /** The reset of an emptied buffer. */
    method Reset()
      requires buffer.Length == size > 0
      modifies this, buffer
      ensures Valid() && buffer == old(buffer) && size == old(size) && Contents() == []
    {
      outPtr, inPtr := 0, 0;
      left := size;
      buffer[inPtr] := '\0';
    }

    /** Buf_GetByte: BUF_ERROR for an empty buffer. */
    method GetByte() returns (found: bool, res: char)
      requires Valid()
      modifies this, buffer
      ensures Valid() && buffer == old(buffer)
      ensures found <==> old(Contents()) != []
      ensures found ==> old(Contents()) == [res] + Contents()
      ensures !found ==> Contents() == []
    {
      res := '\0';
      found := inPtr != outPtr;
      if found {
        res := buffer[outPtr];
        outPtr := outPtr + 1;
        if outPtr == inPtr { Reset(); }
      }
    }

    /** Buf_GetBytes: as many bytes as there are, up to a number. */
    method GetBytes(numBytes: nat) returns (bytes: seq<char>)
      requires Valid()
      modifies this, buffer
      ensures Valid() && buffer == old(buffer)
      ensures old(Contents()) == bytes + Contents()
      ensures |bytes| == if numBytes <= |old(Contents())| then numBytes else |old(Contents())|
    {
      var n := if inPtr - outPtr < numBytes then inPtr - outPtr else numBytes;
      bytes := buffer[outPtr..outPtr + n];
      outPtr := outPtr + n;
      if outPtr == inPtr { Reset(); }
    }

    /** Buf_Discard: throw away some bytes, or all that there are. */
    method Discard(numBytes: nat)
      requires Valid()
      modifies this, buffer
      ensures Valid() && buffer == old(buffer)
      ensures Contents() == if numBytes <= |old(Contents())| then old(Contents())[numBytes..] else []
    {
      if inPtr - outPtr <= numBytes {
        Reset();
      } else {
        outPtr := outPtr + numBytes;
      }
    }

    /** Buf_Size. */
    method Size() returns (n: nat)
      requires Valid()
      ensures n == |Contents()|
    {
      n := inPtr - outPtr;
    }
  }
}
