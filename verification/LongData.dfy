/**
 Long parameters of prepared statements: the argument is cut into commands whose
 headers are written, in one array, over the end of the part sent before.
 */
module LongData {
  import Arith
  import opened Wrappers
  import opened Bytes
  import opened Packets
  import opened Sequences

  const COM_STMT_SEND_LONG_DATA: byte := 24
  const DATA_OFFSET := 7

  /** The command byte, the statement in four bytes, the parameter in two. */
  function CommandHead(id: int, param: int): (h: seq<byte>)
    ensures |h| == DATA_OFFSET
  {
    [COM_STMT_SEND_LONG_DATA, id % 256, (id / 256) % 256, (id / 65536) % 256, (id / 16777216) % 256,
     param % 256, (param / 256) % 256]
  }

  lemma LowByte(n: int, m: nat)
    requires m > 0
    ensures n % (256 * m) == n % 256 + 256 * ((n / 256) % m)
  {
    var q, r := (n / 256) / m, (n / 256) % m;
    assert n / 256 == m * q + r;
    Arith.MulAssoc(256, m, q);
    Arith.DivUnique(n, 256 * m, q, 256 * r + n % 256);
  }

  lemma HigherBytes(n: int)
    ensures n / 256 / 256 == n / 65536 && n / 65536 / 256 == n / 16777216
  {
  }

  /** What the head says: the command, the statement modulo 2^32 and the parameter modulo 2^16, low bytes first. */
  lemma CommandHeadBytes(id: int, param: int)
    ensures var h := CommandHead(id, param);
            var i0: int, i1: int, i2: int, i3: int, p0: int, p1: int := h[1], h[2], h[3], h[4], h[5], h[6];
            && h[0] == 24
            && i0 + 256 * i1 + 65536 * i2 + 16777216 * i3 == id % 0x1_0000_0000
            && p0 + 256 * p1 == param % 0x1_0000
  {
    LowByte(id, 0x100_0000);
    LowByte(id / 256, 0x1_0000);
    LowByte(id / 65536, 256);
    HigherBytes(id);
    LowByte(param, 256);
  }

  /** How much of the argument the next command carries. */
  function Step(argLen: nat, maxLen: int): int {
    if DATA_OFFSET + argLen < maxLen then argLen else maxLen - DATA_OFFSET
  }

  /** As much as fits behind the command head, and only the last command carries less. */
  lemma StepFits(argLen: nat, maxLen: int)
    requires maxLen > DATA_OFFSET
    ensures var n := Step(argLen, maxLen);
            0 <= n <= argLen && 7 + n <= maxLen && (n < argLen ==> 7 + n == maxLen)
  {
  }

  /** What is left of the argument after some rounds. */
  function Left(argLen: int, maxLen: int, rounds: nat): int {
    if rounds == 0 then argLen
    else
      var left := Left(argLen, maxLen, rounds - 1);
      if left > 0 then left - Step(left, maxLen) else left
  }

  lemma {:induction false} LeftShrinks(argLen: nat, maxLen: int, rounds: nat)
    requires maxLen > DATA_OFFSET
    ensures var left := Left(argLen, maxLen, rounds); left == 0 || 0 < left <= argLen - rounds
  {
    if rounds > 0 { LeftShrinks(argLen, maxLen, rounds - 1); }
  }

  lemma {:induction false} LeftStays(argLen: nat, maxLen: int, rounds: nat)
    requires argLen > 0 && maxLen <= DATA_OFFSET
    ensures Left(argLen, maxLen, rounds) >= argLen
  {
    if rounds > 0 { LeftStays(argLen, maxLen, rounds - 1); }
  }

  /** The loop comes to its end exactly when the limit leaves room behind the command head. */
  lemma LongDataProgress(argLen: nat, maxLen: int)
    requires argLen > 0
    ensures (exists rounds: nat :: Left(argLen, maxLen, rounds) == 0) <==> maxLen > DATA_OFFSET
  {
    if maxLen > DATA_OFFSET {
      LeftShrinks(argLen, maxLen, argLen);
      assert Left(argLen, maxLen, argLen) == 0;
    } else {
      forall rounds: nat ensures Left(argLen, maxLen, rounds) != 0 {
        LeftStays(argLen, maxLen, rounds);
      }
    }
  }

  /** The bytes of all commands for an argument. */
  function Commands(arg: seq<byte>, head: seq<byte>, maxLen: int): seq<byte>
    requires maxLen > DATA_OFFSET
    decreases |arg|
  {
    if arg == [] then []
    else
      var n := Step(|arg|, maxLen);
      Frames(head + arg[..n], 0) + Commands(arg[n..], head, maxLen)
  }

  /** What a server that follows the protocol makes of those bytes. */
  function Received(stream: seq<byte>, head: seq<byte>): Option<seq<byte>>
    decreases |stream|
  {
    if stream == [] then Some([])
    else match Unframe(stream, 0, [], false)
      case Payload(data, rest, _) =>
        if |rest| < |stream| && |head| <= |data| && data[..|head|] == head then
          match Received(rest, head)
          case Some(more) => Some(data[|head|..] + more)
          case None => None
        else None
      case _ => None
  }

  lemma FramesNotEmpty(payload: seq<byte>, sequence: byte)
    ensures |Frames(payload, sequence)| >= 4
  {
  }

  lemma ReceivedOne(head: seq<byte>, part: seq<byte>, rest: seq<byte>)
    ensures Received(Frames(head + part, 0) + rest, head)
         == match Received(rest, head) { case Some(more) => Some(part + more) case None => None }
  {
    var data := head + part;
    var stream := Frames(data, 0) + rest;
    FramesNotEmpty(data, 0);
    FramesRoundTrip(data, 0, rest, [], false);
    assert [] + data == data;
    assert data[..|head|] == head && data[|head|..] == part;
  }

  /** The data parts of the commands concatenate to the argument. */
  lemma {:induction false} LongDataArrives(arg: seq<byte>, head: seq<byte>, maxLen: int)
    requires maxLen > DATA_OFFSET
    ensures Received(Commands(arg, head, maxLen), head) == Some(arg)
    decreases |arg|
  {
    if arg != [] {
      var n := Step(|arg|, maxLen);
      LongDataArrives(arg[n..], head, maxLen);
      ReceivedOne(head, arg[..n], Commands(arg[n..], head, maxLen));
      Rejoined(arg, n);
    }
  }

  /** A command head written in front of the argument leaves the argument. */
  lemma HeadInPlace(before: seq<byte>, after: seq<byte>, cur: nat, n: nat, head: seq<byte>)
    requires |before| == |after| && cur + 11 + n <= |before| && |head| == DATA_OFFSET
    requires after[cur + 4..cur + 11] == head
    requires forall i :: cur + 11 <= i < |before| ==> after[i] == before[i]
    ensures after[cur + 4..cur + 11 + n] == head + before[cur + 11..][..n]
  {
    assert after[cur + 4..cur + 11 + n] == after[cur + 4..cur + 11] + after[cur + 11..cur + 11 + n];
    assert after[cur + 11..cur + 11 + n] == before[cur + 11..][..n];
  }

  lemma SameTail(before: seq<byte>, after: seq<byte>, from: nat, n: nat)
    requires |before| == |after| && from + n <= |before|
    requires forall i :: from + n <= i < |before| ==> after[i] == before[i]
    ensures after[from + n..] == before[from..][n..]
  {
  }

  class Stmt {
    const mc: Conn
    const id: nat

    constructor (mc: Conn, id: nat)
      ensures this.mc == mc && this.id == id
    {
      this.mc, this.id := mc, id;
    }

    /** The command head, at its place behind the packet header. */
    method PutHead(data: array<byte>, cur: nat, paramID: int)
      requires cur + 4 + DATA_OFFSET <= data.Length
      modifies data
      ensures data[cur + 4..cur + 11] == CommandHead(id, paramID)
      ensures forall i :: 0 <= i < data.Length && !(cur + 4 <= i < cur + 11) ==> data[i] == old(data[i])
    {
      data[cur + 4] := COM_STMT_SEND_LONG_DATA;
      data[cur + 5] := id % 256;
      data[cur + 6] := (id / 256) % 256;
      data[cur + 7] := (id / 65536) % 256;
      data[cur + 8] := (id / 16777216) % 256;
      data[cur + 9] := paramID % 256;
      data[cur + 10] := (paramID / 256) % 256;
    }

    /** One round: the next command carries the first n bytes of the argument, which starts behind the head. */
    method SendPart(data: array<byte>, cur: nat, maxLen: int, paramID: int) returns (n: nat, err: WriteError)
      requires DATA_OFFSET < maxLen <= mc.maxPacketAllowed && cur + 11 < data.Length
      modifies data, mc`sequence, mc`wire, mc`writes
      ensures n == Step(data.Length - (cur + 11), maxLen) && n <= data.Length - (cur + 11)
      ensures data[cur + 11 + n..] == old(data[cur + 11..])[n..]
      ensures err == Written || err == WriteBadConn
      ensures mc.Healthy() ==> err == Written
      ensures var frames := Frames(CommandHead(id, paramID) + old(data[cur + 11..])[..n], 0);
              if err == Written then mc.wire == old(mc.wire) + frames else SentPartly(old(mc.wire), mc.wire, frames)
    {
      var argLen := data.Length - (cur + 11);
      var pktLen := if DATA_OFFSET + argLen < maxLen then DATA_OFFSET + argLen else maxLen;
      n := pktLen - DATA_OFFSET;
      ghost var before := data[..];
      assert data[cur + 11..] == before[cur + 11..];
      mc.sequence := 0;
      PutHead(data, cur, paramID);
      HeadInPlace(before, data[..], cur, n, CommandHead(id, paramID));
      assert data[cur + 4..cur + (4 + pktLen)] == data[..][cur + 4..cur + 11 + n];
      err := mc.WritePacket(data, cur, 4 + pktLen);
      SameTail(before, data[..], cur + 11, n);
    }

    /** `writeCommandLongData`. */
    method WriteCommandLongData(paramID: int, arg: seq<byte>) returns (err: WriteError)
      requires mc.maxPacketAllowed - 1 > DATA_OFFSET
      modifies mc`sequence, mc`wire, mc`writes
      ensures err == Written || err == WriteBadConn
      ensures mc.Healthy() ==> err == Written
      ensures var commands := Commands(arg, CommandHead(id, paramID), mc.maxPacketAllowed - 1);
              if err == Written then mc.wire == old(mc.wire) + commands && mc.sequence == 0
              else SentPartly(old(mc.wire), mc.wire, commands)
    {
      var maxLen := mc.maxPacketAllowed - 1;
      var data := new byte[4 + DATA_OFFSET + |arg|];
      forall i | 0 <= i < |arg| {
        data[4 + DATA_OFFSET + i] := arg[i];
      }
      ghost var head, left := CommandHead(id, paramID), arg;
      ghost var total := mc.wire + Commands(arg, head, maxLen);
      var cur := 0;
      assert data[cur + 11..] == left;
      while cur + 11 < data.Length
        invariant cur + 11 <= data.Length && data[cur + 11..] == left
        invariant |old(mc.wire)| <= |mc.wire|
        invariant mc.wire + Commands(left, head, maxLen) == total
      {
        NextCommand(mc.wire, left, head, maxLen);
        ghost var sent := mc.wire;
        var n;
        n, err := SendPart(data, cur, maxLen, paramID);
        ghost var frames := Frames(head + left[..n], 0);
        left := left[n..];
        if err != Written {
          WithinTotal(sent, mc.wire, frames, Commands(left, head, maxLen));
          return;
        }
        cur := cur + n;
      }
      mc.sequence := 0;
      err := Written;
    }
  }

  /** Appending the first command, then the others. */
  lemma NextCommand(sent: seq<byte>, arg: seq<byte>, head: seq<byte>, maxLen: int)
    requires maxLen > DATA_OFFSET && arg != []
    ensures var n := Step(|arg|, maxLen);
            0 < n <= |arg|
            && (sent + Frames(head + arg[..n], 0)) + Commands(arg[n..], head, maxLen)
               == sent + Commands(arg, head, maxLen)
  {
    var n := Step(|arg|, maxLen);
    Joined(sent, Frames(head + arg[..n], 0), Commands(arg[n..], head, maxLen));
  }
}
