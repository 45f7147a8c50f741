/** The first version's ClientSocket: a send buffer that is flushed whenever it fills, and a
    receive loop that reassembles messages in place. */
module Legacy {
  import opened Basics
  import opened Bytes
  import opened Framing

  class ClientSocket {
    const sendBuf: array<Byte>
    const msgBuf: array<Byte>
    var lastSendPos: nat
    var lastPos: nat
    var wire: seq<Byte>          // what `send` took
    ghost var flushes: nat

    ghost predicate Valid()
      reads this
    {
      sendBuf != msgBuf && lastSendPos < sendBuf.Length && lastPos <= msgBuf.Length
    }

    constructor (sendSize: nat, recvSize: nat)
      requires sendSize > 0
      ensures Valid() && sendBuf.Length == sendSize && msgBuf.Length == recvSize
      ensures fresh(sendBuf) && fresh(msgBuf)
      ensures lastSendPos == lastPos == flushes == 0 && wire == []
    {
      sendBuf, msgBuf := new Byte[sendSize], new Byte[recvSize];
      lastSendPos, lastPos, wire, flushes := 0, 0, [], 0;
    }

    /** `taken[i]` is what the i-th flush's `send` returns: at most the buffer size, or
        SOCKET_ERROR, which ends the call.  The wire gets of each full buffer what `send`
        took of it; the rest of a partly taken buffer is not sent again.  The return value
        is the last `send`'s, hence SOCKET_ERROR also when nothing was flushed. */
    method SendData(data: seq<Byte>, taken: seq<int>) returns (ret: int)
      requires Valid()
      requires |taken| == (lastSendPos + |data|) / sendBuf.Length
      requires forall i :: 0 <= i < |taken| ==> SOCKET_ERROR <= taken[i] <= sendBuf.Length
      modifies this, sendBuf
      ensures Valid()
      ensures ret == if taken == [] || !NoError(taken) then SOCKET_ERROR else taken[|taken| - 1]
      ensures var stream := old(sendBuf[..lastSendPos]) + data;
              && wire == old(wire) + Flushed(stream, taken, sendBuf.Length)
              && (!NoError(taken) ==> lastSendPos == 0)
              && (NoError(taken) ==>
                    && flushes == old(flushes) + |stream| / sendBuf.Length
                    && lastSendPos == |stream| % sendBuf.Length
                    && sendBuf[..lastSendPos] == stream[|stream| - lastSendPos..])
    {
      ret := SOCKET_ERROR;
      var rest, sent := data, 0;
      ghost var n, goal := sendBuf.Length, wire + Flushed(sendBuf[..lastSendPos] + data, taken, sendBuf.Length);
      ghost var stream := sendBuf[..lastSendPos] + data;
      assert taken[0..] == taken;
      while lastSendPos + |rest| >= sendBuf.Length
        invariant Valid() && 0 <= sent <= |taken| && flushes == old(flushes) + sent
        invariant forall i :: 0 <= i < sent ==> taken[i] >= 0
        invariant sent * n + lastSendPos + |rest| == |stream|
        invariant Suffix(stream, sendBuf[..lastSendPos] + rest)
        invariant wire + Flushed(sendBuf[..lastSendPos] + rest, taken[sent..], n) == goal
        invariant ret == if sent == 0 then SOCKET_ERROR else taken[sent - 1]
        decreases |rest| + lastSendPos
      {
        MoreToFlush(sent, |taken|, n, |stream|, lastSendPos + |rest|);
        Next(sent + 1, n);
        assert taken[sent..][1..] == taken[sent + 1..];
        ghost var before := sendBuf[..lastSendPos] + rest;
        ret, rest := FlushOnce(rest, taken[sent..]);
        if ret == SOCKET_ERROR {
          return;
        }
        SuffixOfSuffix(stream, before, rest);
        sent := sent + 1;
      }
      KeepRest(rest);
      LastRound(sent, |taken|, n, |stream|, lastSendPos);
      assert taken[sent..] == [] && wire + [] == wire;
    }

    /** One time round the loop: fill the buffer from the data and flush it. */
    method FlushOnce(data: seq<Byte>, taken: seq<int>) returns (ret: int, left: seq<Byte>)
      requires Valid() && lastSendPos + |data| >= sendBuf.Length
      requires taken != [] && SOCKET_ERROR <= taken[0] <= sendBuf.Length
      modifies this, sendBuf
      ensures Valid() && lastSendPos == 0 && ret == taken[0] && flushes == old(flushes) + 1
      ensures |left| == old(lastSendPos) + |data| - sendBuf.Length && Suffix(old(sendBuf[..lastSendPos]) + data, left)
      ensures sendBuf[..lastSendPos] + left == left
      ensures var n := sendBuf.Length;
              old(wire) + Flushed(old(sendBuf[..lastSendPos]) + data, taken, n) ==
              if ret < 0 then wire else wire + Flushed(sendBuf[..lastSendPos] + left, taken[1..], n)
    {
      ghost var had, wired := sendBuf[..lastSendPos], wire;
      var copy := sendBuf.Length - lastSendPos;
      var part := data[..copy];
      left := data[copy..];
      assert data == part + left;
      FlushNext(had, part, left, taken, sendBuf.Length);
      ret := FillAndFlush(part, taken[0]);
      assert sendBuf[..0] + left == left;
      if ret >= 0 {
        Assoc(wired, (had + part)[..ret], Flushed(left, taken[1..], sendBuf.Length));
      } else {
        assert wired + [] == wired;
      }
    }

    /** The loop's first branch: top the buffer up and send it. */
    method FillAndFlush(part: seq<Byte>, taken: int) returns (ret: int)
      requires Valid() && lastSendPos + |part| == sendBuf.Length && SOCKET_ERROR <= taken <= sendBuf.Length
      modifies this, sendBuf
      ensures Valid() && lastSendPos == 0 && lastPos == old(lastPos) && ret == taken && flushes == old(flushes) + 1
      ensures wire == if taken >= 0 then old(wire) + (old(sendBuf[..lastSendPos]) + part)[..taken] else old(wire)
    {
      ghost var had := sendBuf[..lastSendPos];
      CopyIn(sendBuf, lastSendPos, part);
      assert sendBuf[..] == had + part;
      ret := taken;
      lastSendPos := 0;
      flushes := flushes + 1;
      if ret != SOCKET_ERROR {
        wire := wire + sendBuf[..ret];
      }
    }

    /** Its last: what is left goes behind what is buffered. */
    method KeepRest(part: seq<Byte>)
      requires Valid() && lastSendPos + |part| < sendBuf.Length
      modifies this`lastSendPos, sendBuf
      ensures Valid() && lastSendPos == old(lastSendPos) + |part|
      ensures sendBuf[..lastSendPos] == old(sendBuf[..lastSendPos]) + part
    {
      ghost var had := sendBuf[..lastSendPos];
      CopyIn(sendBuf, lastSendPos, part);
      lastSendPos := lastSendPos + |part|;
      assert sendBuf[..lastSendPos] == had + part;
    }

    method RemoveFront(n: nat)
      requires Valid() && n <= lastPos
      modifies this`lastPos, msgBuf
      ensures Valid() && lastPos == old(lastPos) - n
      ensures msgBuf[..lastPos] == old(msgBuf[..lastPos])[n..]
    {
      var left := lastPos - n;
      ShiftLeft(msgBuf, n, left);
      lastPos := left;
    }

    /** CellServer::RecvData for one client: `got` is what `recv` returns and `chunk` the
        bytes it stores.  The reassembly loop delivers what the one-shot parser finds. */
    method RecvData(got: int, chunk: seq<Byte>) returns (ret: int, msgs: seq<seq<Byte>>)
      requires Valid()
      requires got > 0 ==> got == |chunk| <= msgBuf.Length - lastPos && !Spins(msgBuf[..lastPos] + chunk)
      modifies this`lastPos, msgBuf
      ensures Valid()
      ensures got <= 0 ==> ret == -1 && msgs == [] && lastPos == old(lastPos) && msgBuf[..] == old(msgBuf[..])
      ensures got > 0 ==> ret == 0 && Parsed(msgs, msgBuf[..lastPos]) == Drain(old(msgBuf[..lastPos]) + chunk)
    {
      msgs := [];
      if got <= 0 {
        return -1, msgs;
      }
      ghost var whole := msgBuf[..lastPos] + chunk;
      CopyIn(msgBuf, lastPos, chunk);
      lastPos := lastPos + got;
      assert msgBuf[..lastPos] == whole;
      while lastPos >= HEADER
        invariant lastPos <= msgBuf.Length && Valid()
        invariant Drain(whole) == Parsed(msgs + Drain(msgBuf[..lastPos]).msgs, Drain(msgBuf[..lastPos]).rest)
        decreases lastPos
      {
        ghost var b := msgBuf[..lastPos];
        var n := msgBuf[0] as int + 256 * msgBuf[1] as int;
        assert n == DataLength(b);
        if lastPos >= n {
          var m := msgBuf[..n];
          assert m == b[..n];
          Assoc(msgs, [m], Drain(b[n..]).msgs);
          RemoveFront(n);
          msgs := msgs + [m];
        } else {
          break;
        }
      }
      ret := 0;
    }
  }

  /** What reaches the wire of `stream`, flushed a full buffer of `n` at a time, when the
      sends take `taken`: a prefix of each buffer, until one fails. */
  function Flushed(stream: seq<Byte>, taken: seq<int>, n: nat): seq<Byte>
    decreases |taken|
  {
    if taken == [] || |stream| < n || !(0 <= taken[0] <= n) then []
    else stream[..taken[0]] + Flushed(stream[n..], taken[1..], n)
  }

  predicate Suffix(stream: seq<Byte>, tail: seq<Byte>) {
    |tail| <= |stream| && stream[|stream| - |tail|..] == tail
  }

  lemma SuffixOfSuffix(stream: seq<Byte>, a: seq<Byte>, b: seq<Byte>)
    requires Suffix(stream, a) && Suffix(a, b)
    ensures Suffix(stream, b)
  {
    assert stream[|stream| - |b|..] == stream[|stream| - |a|..][|a| - |b|..];
  }

  lemma {:induction false} WholeFlushes(stream: seq<Byte>, taken: seq<int>, n: nat)
    requires |taken| * n <= |stream| && forall i :: 0 <= i < |taken| ==> taken[i] == n
    ensures Flushed(stream, taken, n) == stream[..|taken| * n]
    decreases |taken|
  {
    if taken != [] {
      Next(|taken|, n);
      WholeFlushes(stream[n..], taken[1..], n);
      assert stream[..|taken| * n] == stream[..n] + stream[n..][..(|taken| - 1) * n];
    }
  }

  lemma {:induction false} ShortFlushes(stream: seq<Byte>, taken: seq<int>, n: nat)
    requires |taken| * n <= |stream| && forall i :: 0 <= i < |taken| ==> 0 <= taken[i] <= n
    ensures |Flushed(stream, taken, n)| <= |taken| * n
    ensures |Flushed(stream, taken, n)| == |taken| * n ==> forall i :: 0 <= i < |taken| ==> taken[i] == n
    decreases |taken|
  {
    if taken != [] {
      Next(|taken|, n);
      ShortFlushes(stream[n..], taken[1..], n);
    }
  }

  /** After a call without errors, what went on the wire and what is buffered are everything
      submitted exactly when every flush was taken whole. */
  lemma SpillConservesIff(stream: seq<Byte>, taken: seq<int>, n: nat)
    requires n > 0 && |taken| == |stream| / n && forall i :: 0 <= i < |taken| ==> 0 <= taken[i] <= n
    ensures Flushed(stream, taken, n) + stream[|stream| - |stream| % n..] == stream <==>
            forall i :: 0 <= i < |taken| ==> taken[i] == n
  {
    Quotient(|stream|, n);
    if forall i :: 0 <= i < |taken| ==> taken[i] == n {
      WholeFlushes(stream, taken, n);
      assert stream == stream[..|taken| * n] + stream[|taken| * n..];
    }
    if Flushed(stream, taken, n) + stream[|stream| - |stream| % n..] == stream {
      ShortFlushes(stream, taken, n);
    }
  }

  lemma FlushNext(had: seq<Byte>, part: seq<Byte>, left: seq<Byte>, taken: seq<int>, n: nat)
    requires |had| + |part| == n && taken != [] && taken[0] <= n
    ensures Flushed(had + (part + left), taken, n) ==
            if taken[0] < 0 then [] else (had + part)[..taken[0]] + Flushed(left, taken[1..], n)
  {
    Assoc(had, part, left);
    var stream := had + part + left;
    assert stream[n..] == left;
    if taken[0] >= 0 {
      assert stream[..taken[0]] == (had + part)[..taken[0]];
    }
  }

  /** A send that takes nothing of a full buffer loses what was in it. */
  method PartialFlushLoses() returns (c: ClientSocket, ret: int)
    ensures ret == 0 && c.wire == [] && c.lastSendPos == 0
  {
    c := new ClientSocket(1, 1);
    ret := c.SendData([7], [0]);
  }

  predicate NoError(taken: seq<int>) {
    forall i :: 0 <= i < |taken| ==> taken[i] >= 0
  }

  lemma Quotient(x: nat, n: nat)
    requires n > 0
    ensures x == x / n * n + x % n
  {
  }

  lemma MoreToFlush(sent: nat, count: nat, n: nat, total: nat, left: nat)
    requires n > 0 && count == total / n && sent <= count && sent * n + left == total && left >= n
    ensures sent < count
  {
    Quotient(total, n);
  }

  lemma LastRound(sent: nat, count: nat, n: nat, total: nat, left: nat)
    requires n > 0 && count == total / n && sent <= count && sent * n + left == total && left < n
    ensures sent == count && left == total % n
  {
    Quotient(total, n);
    if sent < count {
      assert (sent + 1) * n <= count * n by { MulMono(sent + 1, count, n); }
      Next(sent + 1, n);
    }
  }

  lemma Next(k: nat, n: nat)
    requires k > 0
    ensures k * n == (k - 1) * n + n
  {
  }
}
