/**
 The read buffer of the MySQL driver. Whatever sizes the underlying reader
 delivers, the window idx..idx+length followed by the reader's remaining bytes
 is the unread stream.
 */
module Buffer {
  import opened Bytes

  const DEFAULT_BUF_SIZE := 4096
  const MAX_PACKET_SIZE := 0xff_ffff

  datatype IoError = NoError | Eof | Failure

  /**
   An `io.Reader` over a fixed stream. How many bytes a call delivers, whether the
   last bytes come together with EOF, whether it delivers nothing for a while, and
   whether it fails are arbitrary functions of the number of the call.
   */
  class Reader {
    var remaining: seq<byte>
    var calls: nat
    var stalls: nat
    const chunk: nat -> nat
    const eager: nat -> bool
    const fault: nat -> bool

    constructor (stream: seq<byte>, stalls: nat, chunk: nat -> nat, eager: nat -> bool, fault: nat -> bool)
      ensures remaining == stream && this.fault == fault
    {
      remaining, calls, this.stalls := stream, 0, stalls;
      this.chunk, this.eager, this.fault := chunk, eager, fault;
    }

    ghost predicate Reliable() { forall k :: !fault(k) }

    method Read(buf: array<byte>, from: nat) returns (n: nat, err: IoError)
      requires from < buf.Length
      modifies this, buf
      ensures n <= |old(remaining)| && from + n <= buf.Length
      ensures remaining == old(remaining)[n..]
      ensures forall i :: 0 <= i < buf.Length ==>
                buf[i] == if from <= i < from + n then old(remaining)[i - from] else old(buf[i])
      ensures err == NoError ==> n > 0 || stalls < old(stalls)
      ensures stalls <= old(stalls)
      ensures err == Eof ==> remaining == []
      ensures err == Failure ==> !Reliable()
    {
      var k := calls;
      calls := calls + 1;
      n := 0;
      if fault(k) {
        return 0, Failure;
      }
      if remaining == [] {
        return 0, Eof;
      }
      if stalls > 0 && chunk(k) == 0 {
        stalls := stalls - 1;
        return 0, NoError;
      }
      n := if chunk(k) == 0 then 1 else chunk(k);
      if n > |remaining| { n := |remaining|; }
      if n > buf.Length - from { n := buf.Length - from; }
      forall i | from <= i < from + n {
        buf[i] := remaining[i - from];
      }
      remaining := remaining[n..];
      err := if remaining == [] && eager(k) then Eof else NoError;
    }
  }

  class ReadBuffer {
    var buf: array<byte>
    var idx: nat
    var length: nat
    const rd: Reader

    constructor (rd: Reader)
      ensures Valid() && this.rd == rd && fresh(buf) && Window() == []
    {
      buf := new byte[DEFAULT_BUF_SIZE];
      idx, length := 0, 0;
      this.rd := rd;
    }

    ghost predicate Valid()
      reads this
    {
      buf.Length >= DEFAULT_BUF_SIZE && idx + length <= buf.Length
    }

    ghost function Window(): seq<byte>
      requires Valid()
      reads this, buf
    {
      buf[idx..idx + length]
    }

    /** Everything that was not handed out yet. */
    ghost function Unread(): seq<byte>
      requires Valid()
      reads this, buf, rd
    {
      Window() + rd.remaining
    }

    /** Moves the window to the front and grows the buffer if necessary. */
    method MakeRoom(need: nat)
      requires Valid() && length < need
      modifies this, buf
      ensures Valid() && (buf == old(buf) || fresh(buf))
      ensures idx == 0 && length == old(length) && need <= buf.Length
      ensures Window() == old(Window())
      ensures need <= old(buf.Length) <==> buf == old(buf)
      ensures need > old(buf.Length) ==> buf.Length % 4096 == 0 && buf.Length <= need + 4096
    {
      var n := length;
      ghost var window := Window();
      if n > 0 && idx > 0 {
        forall i | 0 <= i < n {
          buf[i] := buf[idx + i];
        }
      }
      assert buf[..n] == window;
      if need > buf.Length {
        var newBuf := new byte[((need / DEFAULT_BUF_SIZE) + 1) * DEFAULT_BUF_SIZE];
        forall i | 0 <= i < buf.Length {
          newBuf[i] := buf[i];
        }
        buf := newBuf;
      }
      assert buf[..n] == window;
      idx := 0;
    }

    /** Reads behind the window, which is at the front, until it holds `need` bytes. */
    method Collect(need: nat) returns (err: IoError)
      requires Valid() && idx == 0 && length < need <= buf.Length
      modifies this`length, buf, rd
      ensures Valid()
      ensures err == NoError ==> length >= need && buf[..length] + rd.remaining == old(buf[..length] + rd.remaining)
      ensures err != NoError ==> length == old(length) && buf[..length] == old(buf[..length])
      ensures err != NoError && rd.Reliable() ==> old(length + |rd.remaining|) < need
    {
      var n := length;
      ghost var window, stream := buf[..n], buf[..n] + rd.remaining;
      while true
        invariant length == |window| <= n < need
        invariant buf[..n] + rd.remaining == stream
        invariant buf[..length] == window
        decreases |rd.remaining| + rd.stalls
      {
        ghost var before, left := buf[..n], rd.remaining;
        var nn;
        nn, err := rd.Read(buf, n);
        Delivered(buf[..], before, left, nn);
        assert buf[..length] == buf[..n][..length];
        n := n + nn;
        if err == Failure {
          return Failure;
        }
        if n >= need {
          length := n;
          return NoError;
        }
        if err == Eof {
          return Eof;
        }
      }
    }

    /**
     Reads until `need` bytes are in the buffer. A failure keeps the window and
     loses only bytes that were read by this call.
     */
    method Fill(need: nat) returns (err: IoError)
      requires Valid() && length < need
      modifies this, buf, rd
      ensures Valid() && (buf == old(buf) || fresh(buf))
      ensures err == NoError ==> length >= need && Unread() == old(Unread())
      ensures err != NoError ==> Window() == old(Window())
      ensures err != NoError && rd.Reliable() ==> |old(Unread())| < need
    {
      MakeRoom(need);
      assert Window() == buf[..length];
      err := Collect(need);
      assert Window() == buf[..length];
    }

    /** Hands out the front of the window. */
    method Consume(need: nat) returns (offset: nat)
      requires Valid() && need <= length
      modifies this`idx, this`length
      ensures Valid() && offset + need <= buf.Length
      ensures buf[offset..offset + need] == old(Unread())[..need]
      ensures Unread() == old(Unread())[need..]
    {
      HandedOut(buf[..], idx, length, need, rd.remaining);
      offset := idx;
      assert buf[offset..offset + need] == buf[..][idx..idx + need];
      assert buf[idx + need..idx + length] == buf[..][idx + need..idx + length];
      assert Window() == buf[..][idx..idx + length];
      idx := idx + need;
      length := length - need;
      assert Window() == buf[..][idx..idx + length];
    }

    /**
     The next `need` bytes of the stream, in place at `offset`. With a reliable
     reader the call succeeds exactly when the stream has that many.
     */
    method ReadNext(need: nat) returns (err: IoError, offset: nat)
      requires Valid()
      modifies this, buf, rd
      ensures Valid() && (buf == old(buf) || fresh(buf))
      ensures err == NoError ==> need <= |old(Unread())| && offset + need <= buf.Length
      ensures err == NoError ==> buf[offset..offset + need] == old(Unread())[..need]
      ensures err == NoError ==> Unread() == old(Unread())[need..]
      ensures err != NoError ==> Window() == old(Window())
      ensures rd.Reliable() ==> (err == NoError <==> need <= |old(Unread())|)
    {
      err, offset := NoError, 0;
      if length < need {
        err := Fill(need);
      }
      if err == NoError {
        offset := Consume(need);
      }
    }

    /** A buffer of the requested size, or none while unread bytes are held. */
    method TakeBuffer(size: nat) returns (slice: array?<byte>)
      requires Valid()
      modifies this
      ensures Valid() && (buf == old(buf) || fresh(buf))
      ensures Unread() == old(Unread())
      ensures slice == null <==> length > 0
      ensures slice != null ==> slice.Length >= size && (slice == buf || fresh(slice))
      ensures slice != null && (size <= 4096 || size <= old(buf.Length)) ==> slice == buf == old(buf)
      ensures slice != null && size > 4096 && size > old(buf.Length) ==>
                fresh(slice) && slice.Length == size && (buf == slice <==> size < 0xff_ffff)
    {
      if length > 0 { return null; }
      if size <= DEFAULT_BUF_SIZE || size <= buf.Length { return buf; }
      if size < MAX_PACKET_SIZE {
        buf := new byte[size];
        return buf;
      }
      slice := new byte[size];
    }

    method TakeSmallBuffer(size: nat) returns (slice: array?<byte>)
      requires Valid() && size <= DEFAULT_BUF_SIZE
      ensures slice == null <==> length > 0
      ensures slice != null ==> slice == buf && size <= slice.Length
    {
      slice := if length == 0 then buf else null;
    }

    method TakeCompleteBuffer() returns (slice: array?<byte>)
      requires Valid()
      ensures slice == null <==> length > 0
      ensures slice != null ==> slice == buf
    {
      slice := if length == 0 then buf else null;
    }
  }

  /** The front of the window is the front of the unread stream. */
  lemma HandedOut(bytes: seq<byte>, idx: nat, length: nat, need: nat, remaining: seq<byte>)
    requires idx + length <= |bytes| && need <= length
    ensures bytes[idx..idx + need] == (bytes[idx..idx + length] + remaining)[..need]
    ensures bytes[idx + need..idx + length] + remaining == (bytes[idx..idx + length] + remaining)[need..]
  {
    var window := bytes[idx..idx + length];
    assert window[..need] == bytes[idx..idx + need];
    assert window[need..] == bytes[idx + need..idx + length];
    assert (window + remaining)[..need] == window[..need];
    assert (window + remaining)[need..] == window[need..] + remaining;
  }

  /** Delivered bytes move from the front of the reader to the end of the buffer. */
  lemma Delivered(bytes: seq<byte>, before: seq<byte>, left: seq<byte>, nn: nat)
    requires |before| + nn <= |bytes| && nn <= |left|
    requires forall i :: 0 <= i < |before| ==> bytes[i] == before[i]
    requires forall i :: |before| <= i < |before| + nn ==> bytes[i] == left[i - |before|]
    ensures bytes[..|before|] == before
    ensures bytes[..|before| + nn] + left[nn..] == before + left
  {
    assert bytes[..|before| + nn] == before + left[..nn];
    assert left == left[..nn] + left[nn..];
  }

  lemma OnePieceMore(pieces: seq<seq<byte>>, unread: seq<byte>, need: nat)
    requires need <= |unread|
    ensures Flatten(pieces + [unread[..need]]) + unread[need..] == Flatten(pieces) + unread
  {
    assert (pieces + [unread[..need]])[..|pieces|] == pieces;
    assert unread == unread[..need] + unread[need..];
  }

  /** Any sequence of reads hands out consecutive pieces of the stream. */
  method ReadAll(b: ReadBuffer, needs: seq<nat>) returns (pieces: seq<seq<byte>>)
    requires b.Valid()
    modifies b, b.buf, b.rd
    ensures b.Valid()
    ensures |pieces| <= |needs| && forall i :: 0 <= i < |pieces| ==> |pieces[i]| == needs[i]
    ensures Flatten(pieces) <= old(b.Unread())
    ensures |pieces| == |needs| ==> Flatten(pieces) + b.Unread() == old(b.Unread())
    ensures b.rd.Reliable() && |pieces| < |needs| ==> |old(b.Unread())| < |Flatten(pieces)| + needs[|pieces|]
  {
    pieces := [];
    ghost var stream := b.Unread();
    while |pieces| < |needs|
      invariant b.Valid() && (b.buf == old(b.buf) || fresh(b.buf))
      invariant |pieces| <= |needs| && forall i :: 0 <= i < |pieces| ==> |pieces[i]| == needs[i]
      invariant Flatten(pieces) + b.Unread() == stream
      decreases |needs| - |pieces|
    {
      ghost var before := b.Unread();
      var need := needs[|pieces|];
      var err, offset := b.ReadNext(need);
      if err != NoError { return; }
      var piece := b.buf[offset..offset + need];
      OnePieceMore(pieces, before, need);
      pieces := pieces + [piece];
    }
  }

  function Flatten(pieces: seq<seq<byte>>): seq<byte> {
    if pieces == [] then [] else Flatten(pieces[..|pieces| - 1]) + pieces[|pieces| - 1]
  }
}
