/**
  The write buffer of the binary property list writer: a fixed-size block in front of a data
  object or a write stream. A stream may accept any part of what it is offered, or fail.
 */
module PlistBuffer {
  import opened BigEndian

  const BLOCK := 8192 - 32

  class WriteBuffer {
    var stream: seq<byte>      // everything the data object or stream has taken
    const streamIsData: bool
    var error: bool
    var written: nat
    var used: nat
    const buffer: array<byte>
    ghost var history: seq<byte>  // all bytes passed to BufferWrite, in order

    constructor (streamIsData: bool)
      ensures Valid() && fresh(buffer) && this.streamIsData == streamIsData
      ensures !error && stream == [] && history == []
    {
      this.streamIsData := streamIsData;
      stream, error, written, used, history := [], false, 0, 0, [];
      buffer := new byte[BLOCK](_ => 0);
    }

    /**
      The stream never holds anything but a prefix of what was written; while no error has
      occurred, what it holds and the block together are exactly what was written.
     */
    ghost predicate Valid()
      reads this, buffer
    {
      && buffer.Length == BLOCK && used < BLOCK
      && written == |stream|
      && stream <= history
      && (!error ==> stream + buffer[..used] == history)
      && (streamIsData ==> !error)
    }

    /** `writeBytes`, with the loop that offers the rest again after a partial write. */
    method WriteBytes(bytes: seq<byte>)
      requires written == |stream| && (streamIsData ==> !error)
      modifies this`stream, this`written, this`error
      ensures written == |stream|
      ensures old(stream) <= stream <= old(stream) + bytes
      ensures !error ==> !old(error) && stream == old(stream) + bytes
      ensures old(error) ==> error && stream == old(stream)
      ensures streamIsData ==> !error
    {
      if |bytes| == 0 { return; }
      if error { return; }
      if streamIsData {
        stream := stream + bytes;
        written := written + |bytes|;
      } else {
        var done := 0;
        while done < |bytes|
          invariant 0 <= done <= |bytes|
          invariant stream == old(stream) + bytes[..done] && written == |stream| && !error
        {
          var ret: int :| ret <= |bytes| - done;
          if ret <= 0 {
            error := true;
            return;
          }
          assert bytes[..done + ret] == bytes[..done] + bytes[done..done + ret];
          stream := stream + bytes[done..done + ret];
          written := written + ret;
          done := done + ret;
        }
        assert bytes[..done] == bytes;
      }
    }

    /** `bufferFlush`. */
    method BufferFlush()
      requires Valid()
      modifies this`stream, this`written, this`error, this`used
      ensures Valid() && used == 0
      ensures error <== old(error)
      ensures !error ==> stream == history
    {
      WriteBytes(buffer[..used]);
      used := 0;
    }

    /** Fills the block from position `used` with the first `copyLen` bytes. */
    method Fill(bytes: seq<byte>, copyLen: nat)
      requires buffer.Length == BLOCK && copyLen <= |bytes| && used + copyLen <= BLOCK
      modifies this`used, buffer
      ensures used == old(used) + copyLen
      ensures buffer[..used] == old(buffer[..used]) + bytes[..copyLen]
    {
      forall i | 0 <= i < copyLen {
        buffer[used + i] := bytes[i];
      }
      used := used + copyLen;
    }

    /** `bufferWrite`: appends to the history, whatever the sizes of the pieces. */
    method BufferWrite(bytes: seq<byte>)
      requires Valid()
      modifies this, buffer
      ensures Valid()
      ensures history == old(history) + bytes
      ensures error <== old(error)
    {
      if |bytes| == 0 {
        assert history + bytes == history;
        return;
      }
      if BLOCK <= |bytes| {
        BufferFlush();
        WriteBytes(bytes);
        history := history + bytes;
        assert buffer[..used] == [];
        return;
      }
      var copyLen := if |bytes| < BLOCK - used then |bytes| else BLOCK - used;
      assert bytes == bytes[..copyLen] + bytes[copyLen..];
      Fill(bytes, copyLen);
      history := history + bytes;
      if used == BLOCK {
        WriteBytes(buffer[..]);
        used := 0;
        Fill(bytes[copyLen..], |bytes| - copyLen);
      }
    }
  }
}
