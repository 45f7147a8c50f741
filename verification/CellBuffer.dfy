/** CellBuffer: a fixed array with an append position, compacted by shifting left. */
module CellBuffers {
  import opened Bytes
  import opened Framing

  /** The whole memory of a buffer and its `_nLast`; bytes past `last` matter because an
      I/O completion port writes there before `_nLast` moves. */
  datatype Buf = Buf(mem: seq<Byte>, last: nat) {
    predicate Valid() { last <= |mem| }

    function Contents(): seq<Byte>
      requires Valid()
    {
      mem[..last]
    }

    function Append(data: seq<Byte>): (b: Buf)
      requires Valid() && last + |data| <= |mem|
      ensures b.Valid() && b.Contents() == Contents() + data
      ensures b.mem[b.last..] == mem[b.last..]
    {
      Buf(mem[..last] + data + mem[last + |data|..], last + |data|)
    }

    function Drop(n: nat): (b: Buf)
      requires Valid() && n <= last
      ensures b.Valid() && b.Contents() == Contents()[n..]
      ensures |b.mem| == |mem|
    {
      Buf(mem[n..last] + mem[last - n..], last - n)
    }
  }

  lemma DropAll(b: Buf)
    requires b.Valid()
    ensures b.Drop(b.last) == Buf(b.mem, 0)
  {
    assert b.mem[b.last..b.last] + b.mem[0..] == b.mem;
  }

  /** A region of a buffer handed to the kernel: IO_DATA_BASE::wsaBuff. */
  datatype IoData = IoData(offset: nat, len: nat)

  class CellBuffer {
    const buff: array<Byte>
    var nLast: int

    ghost predicate Valid()
      reads this
    {
      0 <= nLast <= buff.Length
    }

    ghost function Abs(): (b: Buf)
      reads this, buff
      requires Valid()
      ensures b.Valid() && |b.mem| == buff.Length
    {
      Buf(buff[..], nLast)
    }

    constructor (nSize: nat)
      ensures Valid() && fresh(buff)
      ensures buff.Length == nSize && Abs().Contents() == []
    {
      buff := new Byte[nSize];
      nLast := 0;
    }

    method Push(data: seq<Byte>) returns (ok: bool)
      requires Valid()
      modifies this, buff
      ensures Valid()
      ensures ok == (old(nLast) + |data| <= buff.Length)
      ensures Abs() == if ok then old(Abs()).Append(data) else old(Abs())
    {
      if nLast + |data| <= buff.Length {
        CopyIn(buff, nLast, data);
        nLast := nLast + |data|;
        return true;
      }
      return false;
    }

    /** pop does not compare `n` with what is there: a larger `n` makes `_nLast` negative. */
    method Pop(n: nat)
      requires Valid()
      modifies this, buff
      ensures Valid() <==> n <= old(nLast)
      ensures n <= old(nLast) ==> Abs() == old(Abs()).Drop(n)
      ensures n > old(nLast) ==> nLast == old(nLast) - n && buff[..] == old(buff[..])
    {
      var left := nLast - n;
      if left > 0 {
        ShiftLeft(buff, n, left);
      }
      nLast := left;
    }

    /** `sent` is what `send` returns; `out` is the prefix the kernel took. */
    method WriteToSocket(socketOk: bool, sent: int) returns (ret: int, out: seq<Byte>)
      requires Valid() && sent <= nLast
      modifies this, buff
      ensures Valid()
      ensures old(nLast) == 0 || !socketOk ==> ret == 0
      ensures old(nLast) > 0 && socketOk ==> ret == if sent <= 0 then SOCKET_ERROR else sent
      ensures out == if ret > 0 then old(Abs()).Contents()[..ret] else []
      ensures Abs() == if ret > 0 then old(Abs()).Drop(ret) else old(Abs())
    {
      ret, out := 0, [];
      if nLast > 0 && socketOk {
        ret := sent;
        if ret <= 0 {
          return SOCKET_ERROR, [];
        }
        out := buff[..ret];
        if ret == nLast {
          DropAll(Abs());
          nLast := 0;
        } else {
          ghost var b := Abs();
          nLast := nLast - ret;
          ShiftLeft(buff, ret, nLast);
          assert buff[..] == b.mem[ret..b.last] + b.mem[nLast..];
        }
      }
    }

    /** `got` is what `recv` returns and `chunk` the bytes it stores. */
    method ReadFromSocket(got: int, chunk: seq<Byte>) returns (ret: int)
      requires Valid()
      requires got > 0 && nLast < buff.Length ==> got == |chunk| <= buff.Length - nLast
      modifies this, buff
      ensures Valid()
      ensures ret == if old(nLast) == buff.Length then 0 else if got <= 0 then SOCKET_ERROR else got
      ensures Abs() == if ret > 0 then old(Abs()).Append(chunk) else old(Abs())
    {
      if buff.Length - nLast > 0 {
        if got <= 0 {
          return SOCKET_ERROR;
        }
        CopyIn(buff, nLast, chunk);
        nLast := nLast + got;
        return got;
      }
      return 0;
    }

    method CheckMsg() returns (ok: bool)
      requires Valid()
      ensures ok == HasMsg(Abs().Contents())
      ensures ok <==> nLast >= 4 && nLast >= buff[0] as int + 256 * buff[1] as int
    {
      if nLast >= HEADER {
        return nLast >= buff[0] as int + 256 * buff[1] as int;
      }
      return false;
    }

    method MakeRecvIoData() returns (io: Option<IoData>)
      requires Valid()
      ensures io == if nLast < buff.Length then Some(IoData(nLast, buff.Length - nLast)) else None
    {
      var n := buff.Length - nLast;
      if n > 0 {
        return Some(IoData(nLast, n));
      }
      return None;
    }

    method MakeSendIoData() returns (io: Option<IoData>)
      requires Valid()
      ensures io == if nLast > 0 then Some(IoData(0, nLast)) else None
    {
      if nLast > 0 {
        return Some(IoData(0, nLast));
      }
      return None;
    }

    /** The kernel has already stored the bytes; only the position moves. */
    method ReadFromIocp(n: int) returns (ok: bool)
      requires Valid()
      modifies this
      ensures Valid()
      ensures ok == (0 < n <= buff.Length - old(nLast))
      ensures nLast == if ok then old(nLast) + n else old(nLast)
    {
      if n > 0 && buff.Length - nLast >= n {
        nLast := nLast + n;
        return true;
      }
      return false;
    }

    method WriteToIocp(n: nat) returns (ok: bool)
      requires Valid()
      modifies this, buff
      ensures Valid()
      ensures ok == (n <= old(nLast))
      ensures Abs() == if ok then old(Abs()).Drop(n) else old(Abs())
    {
      if nLast < n {
        return false;
      }
      if n == nLast {
        DropAll(Abs());
        nLast := 0;
      } else {
        ghost var b := Abs();
        nLast := nLast - n;
        ShiftLeft(buff, n, nLast);
        assert buff[..] == b.mem[n..b.last] + b.mem[nLast..];
      }
      return true;
    }
  }

  /** The receive side of CellClient together with the loop CellServer::DoMsg (and
      EasyTcpClient::DoMsg) runs on it. */
  class Receiver {
    const recvBuff: CellBuffer

    constructor (recvSize: nat)
      ensures fresh(recvBuff) && fresh(recvBuff.buff) && recvBuff.Valid()
      ensures recvBuff.buff.Length == recvSize && recvBuff.Abs().Contents() == []
    {
      recvBuff := new CellBuffer(recvSize);
    }

    method PopFrontMsg()
      requires recvBuff.Valid()
      modifies recvBuff, recvBuff.buff
      ensures recvBuff.Valid()
      ensures recvBuff.Abs() == if HasMsg(old(recvBuff.Abs()).Contents())
                                then old(recvBuff.Abs()).Drop(DataLength(old(recvBuff.Abs()).Contents()))
                                else old(recvBuff.Abs())
    {
      var has := recvBuff.CheckMsg();
      if has {
        var n := recvBuff.buff[0] as int + 256 * recvBuff.buff[1] as int;
        recvBuff.Pop(n);
      }
    }

    /** The message at front_msg(), as the handler sees it. */
    method FrontMsg() returns (m: seq<Byte>)
      requires recvBuff.Valid() && HasMsg(recvBuff.Abs().Contents())
      ensures var b := recvBuff.Abs().Contents(); m == b[..DataLength(b)]
    {
      var n := recvBuff.buff[0] as int + 256 * recvBuff.buff[1] as int;
      m := recvBuff.buff[..n];
    }

    /** Terminates on every buffer that does not bring up a zero-length header, which by
        LoopsForeverIffSpins is exactly when the source's loop does. */
    method DoMsg() returns (msgs: seq<seq<Byte>>)
      requires recvBuff.Valid() && !Spins(recvBuff.Abs().Contents())
      modifies recvBuff, recvBuff.buff
      ensures recvBuff.Valid()
      ensures msgs == Drain(old(recvBuff.Abs()).Contents()).msgs
      ensures recvBuff.Abs().Contents() == Drain(old(recvBuff.Abs()).Contents()).rest
    {
      msgs := [];
      var has := recvBuff.CheckMsg();
      while has
        invariant recvBuff.Valid()
        invariant has == HasMsg(recvBuff.Abs().Contents())
        invariant Drain(old(recvBuff.Abs()).Contents()) ==
                  Parsed(msgs + Drain(recvBuff.Abs().Contents()).msgs, Drain(recvBuff.Abs().Contents()).rest)
        decreases recvBuff.nLast
      {
        ghost var b := recvBuff.Abs().Contents();
        var m := FrontMsg();
        Assoc(msgs, [m], Drain(b[DataLength(b)..]).msgs);
        msgs := msgs + [m];
        PopFrontMsg();
        has := recvBuff.CheckMsg();
      }
    }

    /** One event round for this peer: CellServer::RecvData and then DoMsg.  `ok` is false
        when RecvData reports SOCKET_ERROR, after which the server drops the peer. */
    method Feed(got: int, chunk: seq<Byte>) returns (ok: bool, msgs: seq<seq<Byte>>)
      requires recvBuff.Valid()
      requires got > 0 && recvBuff.nLast < recvBuff.buff.Length ==> got == |chunk| <= recvBuff.buff.Length - recvBuff.nLast
      requires got > 0 ==> !Spins(recvBuff.Abs().Contents() + chunk)
      modifies recvBuff, recvBuff.buff
      ensures recvBuff.Valid()
      ensures ok == (got > 0 && old(recvBuff.nLast) < recvBuff.buff.Length)
      ensures ok ==> Parsed(msgs, recvBuff.Abs().Contents()) == Drain(old(recvBuff.Abs()).Contents() + chunk)
      ensures !ok ==> msgs == [] && recvBuff.Abs() == old(recvBuff.Abs())
    {
      var n := recvBuff.ReadFromSocket(got, chunk);
      if n <= 0 {
        return false, [];
      }
      msgs := DoMsg();
      ok := true;
    }

    /** For every way the kernel cuts a stream of framed messages into reads, the rounds
        together deliver what the one-shot parser finds in the concatenation, and no
        round runs out of room, so the peer is never dropped for that. */
    method ReceiveAll(chunks: seq<seq<Byte>>) returns (msgs: seq<seq<Byte>>, ok: bool)
      requires recvBuff.Valid() && HEADER <= recvBuff.buff.Length
      requires recvBuff.Abs().Contents() == []
      requires Prefixed(Flatten(chunks), recvBuff.buff.Length)
      requires CutsFit(chunks, [], recvBuff.buff.Length)
      modifies recvBuff, recvBuff.buff
      ensures ok && recvBuff.Valid()
      ensures Parsed(msgs, recvBuff.Abs().Contents()) == Drain(Flatten(chunks))
      ensures recvBuff.nLast < recvBuff.buff.Length
    {
      var i := 0;
      msgs, ok := [], true;
      ghost var cap := recvBuff.buff.Length;
      assert chunks[0..] == chunks;
      while i < |chunks|
        invariant i <= |chunks| && ok && recvBuff.Valid()
        invariant Parsed(msgs, recvBuff.Abs().Contents()) == Drain(Flatten(chunks[..i]))
        invariant recvBuff.nLast < cap
        invariant CutsFit(chunks[i..], recvBuff.Abs().Contents(), cap)
      {
        ghost var had := recvBuff.Abs().Contents();
        ghost var before := Flatten(chunks[..i]);
        CutStep(chunks, i, cap);
        DrainAppend(before, chunks[i]);
        assert chunks[i..][1..] == chunks[i + 1..];
        var more;
        ok, more := Feed(|chunks[i]|, chunks[i]);
        msgs := msgs + more;
        i := i + 1;
      }
      assert chunks[..i] == chunks;
    }
  }

  /** Each read is nonempty and no larger than the room `recv` was offered. */
  predicate CutsFit(chunks: seq<seq<Byte>>, had: seq<Byte>, cap: nat) {
    chunks == [] ||
    (0 < |chunks[0]| <= cap - |had| &&
     CutsFit(chunks[1..], Drain(had + chunks[0]).rest, cap))
  }

  lemma CutStep(chunks: seq<seq<Byte>>, i: nat, cap: nat)
    requires i < |chunks| && HEADER <= cap && Prefixed(Flatten(chunks), cap)
    ensures Flatten(chunks[..i + 1]) == Flatten(chunks[..i]) + chunks[i]
    ensures !Spins(Drain(Flatten(chunks[..i])).rest + chunks[i])
    ensures |Drain(Flatten(chunks[..i + 1])).rest| < cap
  {
    assert chunks[..i + 1] == chunks[..i] + [chunks[i]];
    FlattenSnoc(chunks[..i], chunks[i]);
    assert chunks == chunks[..i + 1] + chunks[i + 1..];
    FlattenAppend(chunks[..i + 1], chunks[i + 1..]);
    PrefixedShorter(Flatten(chunks[..i + 1]), Flatten(chunks[i + 1..]), cap);
    PrefixedDrains(Flatten(chunks[..i + 1]), cap);
    DrainAppend(Flatten(chunks[..i]), chunks[i]);
  }
}
