/** One direction of a connection: the sender's `_sendBuff`, the bytes in flight, and the
    receiver's `_recvBuff` with its message loop.  Every send and receive size is the
    kernel's choice. */
module Transport {
  import opened Bytes
  import opened Framing
  import opened CellBuffers

  datatype State = State(
    sendCap: nat, recvCap: nat,
    send: seq<Byte>, wire: seq<Byte>, recv: seq<Byte>,
    accepted: seq<seq<Byte>>,   // messages whose push returned true
    delivered: seq<seq<Byte>>)  // messages handed to OnNetMsg
  {
    predicate Fits() { |send| <= sendCap && |recv| <= recvCap }

    function InFlight(): seq<Byte> { recv + wire + send }
  }

  function Init(sendCap: nat, recvCap: nat): State {
    State(sendCap, recvCap, [], [], [], [], [])
  }

  datatype Event =
    | Push(m: seq<Byte>)  // SendData(header): the length pushed is header->dataLength
    | Flush(k: nat)       // SendDataReal, the kernel takes k bytes
    | Receive(k: nat)     // RecvData, the kernel yields k bytes
    | Deliver             // one round of DoMsg

  predicate Enabled(s: State, e: Event) {
    match e
    case Push(m) => |s.send| + |m| <= s.sendCap
    case Flush(k) => 0 < k <= |s.send|
    case Receive(k) => 0 < k <= |s.wire| && k <= s.recvCap - |s.recv|
    case Deliver => HasMsg(s.recv)
  }

  function Step(s: State, e: Event): State {
    if !Enabled(s, e) then s
    else match e
      case Push(m) => s.(send := s.send + m, accepted := s.accepted + [m])
      case Flush(k) => s.(send := s.send[k..], wire := s.wire + s.send[..k])
      case Receive(k) => s.(wire := s.wire[k..], recv := s.recv + s.wire[..k])
      case Deliver =>
        var n := DataLength(s.recv);
        s.(recv := s.recv[n..], delivered := s.delivered + [s.recv[..n]])
  }

  /** A push is accepted exactly when the message fits behind what is buffered. */
  lemma PushAcceptedIff(s: State, m: seq<Byte>)
    ensures var t := Step(s, Push(m));
            && (|t.accepted| == |s.accepted| + 1 <==> |s.send| + |m| <= s.sendCap)
            && (|s.send| + |m| <= s.sendCap ==> t == s.(send := s.send + m, accepted := s.accepted + [m]))
            && (|s.send| + |m| > s.sendCap ==> t == s)
  {
    if |s.send| + |m| > s.sendCap {
      assert !Enabled(s, Push(m));
    }
  }

  /** The kernel may take any number of bytes up to what is buffered, and exactly these move
      from the send buffer to the end of the wire. */
  lemma FlushMoves(s: State, k: nat)
    ensures var t := Step(s, Flush(k));
            && (|t.wire| == |s.wire| + k <==> k <= |s.send|)
            && (k <= |s.send| ==> t.send == s.send[k..] && t.wire == s.wire + s.send[..k])
            && t == s.(send := t.send, wire := t.wire)
  {
    assert s.send[0..] == s.send && s.wire + s.send[..0] == s.wire;
  }

  /** And it may yield any number of bytes that have arrived and fit. */
  lemma ReceiveMoves(s: State, k: nat)
    requires s.Fits()
    ensures var t := Step(s, Receive(k)); var ok := k <= |s.wire| && |s.recv| + k <= s.recvCap;
            && (|t.recv| == |s.recv| + k <==> ok)
            && (ok ==> t.wire == s.wire[k..] && t.recv == s.recv + s.wire[..k])
            && t == s.(wire := t.wire, recv := t.recv)
  {
    assert s.wire[0..] == s.wire && s.recv + s.wire[..0] == s.recv;
  }

  function Run(s: State, es: seq<Event>): State
    decreases |es|
  {
    if es == [] then s else Run(Step(s, es[0]), es[1..])
  }

  predicate PushesFramed(es: seq<Event>) {
    forall i :: 0 <= i < |es| && es[i].Push? ==> Framed(es[i].m)
  }

  /** No further sends. */
  predicate Quiet(es: seq<Event>) {
    forall i :: 0 <= i < |es| ==> !es[i].Push?
  }

  // ---- safety ----

  /** Byte conservation, which needs no assumption about the messages. */
  ghost predicate Conserved(s: State) {
    s.Fits() && Flatten(s.accepted) == Flatten(s.delivered) + s.InFlight()
  }

  ghost predicate Inv(s: State) {
    Conserved(s) && AllFramed(s.accepted) && s.delivered <= s.accepted &&
    Flatten(s.accepted[|s.delivered|..]) == s.InFlight()
  }

  lemma PushConserves(s: State, m: seq<Byte>)
    requires Conserved(s) && Enabled(s, Push(m))
    ensures Conserved(Step(s, Push(m))) && Step(s, Push(m)).InFlight() == s.InFlight() + m
  {
    var t := Step(s, Push(m));
    FlattenSnoc(s.accepted, m);
    assert t.InFlight() == s.InFlight() + m;
    assert Flatten(s.delivered) + (s.InFlight() + m) == Flatten(s.delivered) + s.InFlight() + m;
  }

  lemma MoveConserves(s: State, e: Event)
    requires (e.Flush? || e.Receive?) && Enabled(s, e)
    ensures Step(s, e).InFlight() == s.InFlight()
    ensures s.Fits() ==> Step(s, e).Fits()
  {
    if e.Flush? {
      assert s.send == s.send[..e.k] + s.send[e.k..];
    } else {
      assert s.wire == s.wire[..e.k] + s.wire[e.k..];
    }
  }

  lemma DeliverConserves(s: State)
    requires Conserved(s) && Enabled(s, Deliver)
    ensures Conserved(Step(s, Deliver))
    ensures Step(s, Deliver).InFlight() == s.InFlight()[DataLength(s.recv)..]
  {
    var n := DataLength(s.recv);
    var t := Step(s, Deliver);
    var m := s.recv[..n];
    FlattenSnoc(s.delivered, m);
    assert s.recv == m + s.recv[n..];
    assert s.InFlight() == m + t.InFlight();
    assert Flatten(s.delivered) + (m + t.InFlight()) == Flatten(s.delivered) + m + t.InFlight();
  }

  lemma StepConserves(s: State, e: Event)
    requires Conserved(s)
    ensures Conserved(Step(s, e))
  {
    if Enabled(s, e) {
      match e
      case Push(m) => PushConserves(s, m);
      case Flush(_) => MoveConserves(s, e);
      case Receive(_) => MoveConserves(s, e);
      case Deliver => DeliverConserves(s);
    }
  }

  /** The message at the front of the receive buffer is the oldest one not delivered. */
  lemma FrontIsNext(s: State)
    requires Inv(s) && HasMsg(s.recv)
    ensures |s.delivered| < |s.accepted|
    ensures s.recv[..DataLength(s.recv)] == s.accepted[|s.delivered|]
    ensures DataLength(s.recv) == |s.accepted[|s.delivered|]|
  {
    var pending := s.accepted[|s.delivered|..];
    assert s.InFlight()[..2] == s.recv[..2];
    assert pending != [];
    var m := pending[0];
    assert Flatten(pending) == m + Flatten(pending[1..]);
    assert s.InFlight()[..|m|] == m;
    assert DataLength(m) == DataLength(s.recv);
    assert s.InFlight()[..|m|] == s.recv[..|m|];
  }

  lemma PushKeepsInv(s: State, m: seq<Byte>)
    requires Inv(s) && Framed(m) && Enabled(s, Push(m))
    ensures Inv(Step(s, Push(m)))
  {
    var t := Step(s, Push(m));
    PushConserves(s, m);
    assert t.accepted[|t.delivered|..] == s.accepted[|s.delivered|..] + [m];
    FlattenSnoc(s.accepted[|s.delivered|..], m);
  }

  lemma DeliverKeepsInv(s: State)
    requires Inv(s) && Enabled(s, Deliver)
    ensures Inv(Step(s, Deliver))
  {
    var t := Step(s, Deliver);
    DeliverConserves(s);
    FrontIsNext(s);
    var n := DataLength(s.recv);
    var pending := s.accepted[|s.delivered|..];
    assert t.accepted[|t.delivered|..] == pending[1..];
    assert Flatten(pending[1..]) == Flatten(pending)[n..];
  }

  lemma StepKeepsInv(s: State, e: Event)
    requires Inv(s) && (e.Push? ==> Framed(e.m))
    ensures Inv(Step(s, e))
  {
    if Enabled(s, e) {
      match e
      case Push(m) => PushKeepsInv(s, m);
      case Flush(_) => MoveConserves(s, e);
      case Receive(_) => MoveConserves(s, e);
      case Deliver => DeliverKeepsInv(s);
    }
  }

  lemma {:induction false} RunKeepsInv(s: State, es: seq<Event>)
    requires Inv(s) && PushesFramed(es)
    ensures Inv(Run(s, es))
    decreases |es|
  {
    if es != [] {
      StepKeepsInv(s, es[0]);
      RunKeepsInv(Step(s, es[0]), es[1..]);
    }
  }

  lemma {:induction false} RunConserves(s: State, es: seq<Event>)
    requires Conserved(s)
    ensures Conserved(Run(s, es))
    decreases |es|
  {
    if es != [] {
      StepConserves(s, es[0]);
      RunConserves(Step(s, es[0]), es[1..]);
    }
  }

  /** Over every interleaving: what was delivered, followed by the parse of what is still
      buffered or in flight, is what was accepted.  Nothing is lost, duplicated, torn or
      reordered, and the parse leaves no partial message. */
  lemma EndToEnd(sendCap: nat, recvCap: nat, es: seq<Event>)
    requires PushesFramed(es)
    ensures var s := Run(Init(sendCap, recvCap), es);
            && s.delivered <= s.accepted
            && s.delivered + Drain(s.InFlight()).msgs == s.accepted
            && Drain(s.InFlight()).rest == []
  {
    RunKeepsInv(Init(sendCap, recvCap), es);
    var s := Run(Init(sendCap, recvCap), es);
    var pending := s.accepted[|s.delivered|..];
    DrainFlatten(pending, []);
    assert Flatten(pending) + [] == s.InFlight();
    assert pending + Drain([]).msgs == pending;
    assert s.delivered + pending == s.accepted;
  }

  /** Without any assumption on what is pushed, the bytes are still conserved in order. */
  lemma BytesConserved(sendCap: nat, recvCap: nat, es: seq<Event>)
    ensures var s := Run(Init(sendCap, recvCap), es);
            s.Fits() && Flatten(s.accepted) == Flatten(s.delivered) + s.recv + s.wire + s.send
  {
    RunConserves(Init(sendCap, recvCap), es);
    var s := Run(Init(sendCap, recvCap), es);
    assert Flatten(s.delivered) + s.InFlight() == Flatten(s.delivered) + s.recv + s.wire + s.send;
  }

  // ---- progress ----

  /** Moves still needed: each byte is sent, received and delivered. */
  function Work(s: State): nat {
    3 * |s.send| + 2 * |s.wire| + |s.recv|
  }

  function Next(s: State): Event {
    if HasMsg(s.recv) then Deliver
    else if s.wire != [] then Receive(1)
    else Flush(1)
  }

  /** The oldest undelivered message leads the bytes in flight, and counts as a message
      as soon as its bytes have all arrived. */
  lemma FrontLeads(s: State)
    requires Inv(s) && |s.delivered| < |s.accepted|
    ensures var m := s.accepted[|s.delivered|];
            |m| <= |s.InFlight()| && (|m| <= |s.recv| ==> HasMsg(s.recv))
  {
    var pending := s.accepted[|s.delivered|..];
    var m := pending[0];
    assert Flatten(pending) == m + Flatten(pending[1..]);
    assert s.InFlight()[..|m|] == m;
    if |m| <= |s.recv| {
      assert s.InFlight()[..|m|] == s.recv[..|m|];
    }
  }

  /** While something is undelivered and the oldest such message fits the receive buffer,
      an event that makes progress is enabled. */
  lemma NextEnabled(s: State)
    requires Inv(s) && |s.delivered| < |s.accepted|
    requires |s.accepted[|s.delivered|]| <= s.recvCap
    ensures Enabled(s, Next(s)) && Work(Step(s, Next(s))) < Work(s)
  {
    FrontLeads(s);
    if HasMsg(s.recv) {
      FrontIsNext(s);
    }
  }

  /** A schedule that finishes the transfer. */
  ghost function Finish(s: State): (es: seq<Event>)
    requires Inv(s)
    requires AllWithin(s.accepted, s.recvCap)
    ensures Quiet(es)
    ensures Run(s, es).delivered == s.accepted
    decreases Work(s)
  {
    if |s.delivered| == |s.accepted| then []
    else
      NextEnabled(s);
      StepKeepsInv(s, Next(s));
      [Next(s)] + Finish(Step(s, Next(s)))
  }

  /** Every delivered message came whole out of the receive buffer. */
  lemma {:induction false} DeliveredFit(s: State, es: seq<Event>)
    requires s.Fits() && forall i :: 0 <= i < |s.delivered| ==> |s.delivered[i]| <= s.recvCap
    ensures var t := Run(s, es);
            t.Fits() && t.recvCap == s.recvCap &&
            forall i :: 0 <= i < |t.delivered| ==> |t.delivered[i]| <= t.recvCap
    decreases |es|
  {
    if es != [] {
      DeliveredFit(Step(s, es[0]), es[1..]);
    }
  }

  lemma {:induction false} QuietRun(s: State, es: seq<Event>)
    requires Quiet(es)
    ensures Run(s, es).accepted == s.accepted
    decreases |es|
  {
    if es != [] {
      QuietRun(Step(s, es[0]), es[1..]);
    }
  }

  ghost predicate CanFinish(s: State) {
    exists es: seq<Event> :: Quiet(es) && Run(s, es).delivered == s.accepted
  }

  lemma {:induction false} RunRun(s: State, es: seq<Event>, fs: seq<Event>)
    ensures Run(s, es + fs) == Run(Run(s, es), fs)
    decreases |es|
  {
    if es == [] {
      assert es + fs == fs;
    } else {
      assert (es + fs)[1..] == es[1..] + fs;
      RunRun(Step(s, es[0]), es[1..], fs);
    }
  }

  /** From any reachable state the link can still deliver everything, without further
      sends, exactly when no accepted message is longer than the receive buffer. */
  lemma FinishesIffMessagesFit(sendCap: nat, recvCap: nat, es: seq<Event>)
    requires PushesFramed(es)
    ensures var s := Run(Init(sendCap, recvCap), es);
            CanFinish(s) <==> AllWithin(s.accepted, recvCap)
  {
    var s0 := Init(sendCap, recvCap);
    var s := Run(s0, es);
    RunKeepsInv(s0, es);
    DeliveredFit(s0, es);
    if AllWithin(s.accepted, recvCap) {
      var fs := Finish(s);
      assert Run(s, fs).delivered == s.accepted;
    }
    if CanFinish(s) {
      var fs :| Quiet(fs) && Run(s, fs).delivered == s.accepted;
      RunRun(s0, es, fs);
      DeliveredFit(s0, es + fs);
    }
  }

  /** Five bytes never get through a receive buffer of four. */
  lemma OversizeStalls()
    ensures !CanFinish(Run(Init(5, 4), [Push([5, 0, 0, 0, 0])]))
  {
    var m := [5, 0, 0, 0, 0];
    var es := [Push(m)];
    assert es[1..] == [] && Framed(m);
    assert Run(Init(5, 4), es) == Step(Init(5, 4), Push(m));
    FinishesIffMessagesFit(5, 4, es);
    assert Run(Init(5, 4), es).accepted[0] == m;
  }

  /** Every enabled event but a send uses up work, so a run of them is never longer than
      the work there is: no schedule goes on without end. */
  lemma MovesUseWork(s: State, e: Event)
    requires Inv(s) && Enabled(s, e) && !e.Push?
    ensures Inv(Step(s, e)) && Work(Step(s, e)) < Work(s)
  {
    StepKeepsInv(s, e);
    if e.Deliver? {
      FrontIsNext(s);
    }
  }

  predicate AllEnabled(s: State, es: seq<Event>)
    decreases |es|
  {
    es == [] || (Enabled(s, es[0]) && AllEnabled(Step(s, es[0]), es[1..]))
  }

  lemma {:induction false} QuietRunsEnd(s: State, es: seq<Event>)
    requires Inv(s) && Quiet(es) && AllEnabled(s, es)
    ensures |es| + Work(Run(s, es)) <= Work(s)
    decreases |es|
  {
    if es != [] {
      MovesUseWork(s, es[0]);
      QuietRunsEnd(Step(s, es[0]), es[1..]);
    }
  }

  predicate Stopped(s: State) {
    !Enabled(s, Deliver) && !Enabled(s, Receive(1)) && !Enabled(s, Flush(1))
  }

  /** And one that cannot go on has delivered everything, when the messages fit. */
  lemma StoppedMeansDelivered(s: State)
    requires Inv(s) && Stopped(s) && AllWithin(s.accepted, s.recvCap)
    ensures s.delivered == s.accepted
  {
    if |s.delivered| < |s.accepted| {
      NextEnabled(s);
    }
  }

  /** Bytes in flight cover every message not yet delivered. */
  lemma {:induction false} LongerThanEach(ms: seq<seq<Byte>>, i: nat)
    requires i < |ms|
    ensures |ms[i]| <= |Flatten(ms)|
  {
    if i > 0 {
      LongerThanEach(ms[1..], i - 1);
    }
  }

  /** A schedule that fills the receive buffer with the start of a message it cannot hold. */
  lemma {:induction false} Fill(s: State, i: nat) returns (es: seq<Event>)
    requires Inv(s) && |s.delivered| <= i < |s.accepted| && s.recvCap < |s.accepted[i]|
    ensures Quiet(es) && !HasRoom(Run(s, es).recv, s.recvCap)
    decreases Work(s)
  {
    es := [];
    if HasMsg(s.recv) || |s.recv| < s.recvCap {
      var pending := s.accepted[|s.delivered|..];
      LongerThanEach(pending, i - |s.delivered|);
      var e := Next(s);
      if HasMsg(s.recv) {
        FrontIsNext(s);
      }
      MovesUseWork(s, e);
      var fs := Fill(Step(s, e), i);
      es := [e] + fs;
      assert es[1..] == fs;
    }
  }

  /** Whatever transfers follow, the message loop ends and leaves room. */
  ghost predicate StaysRoomy(s: State) {
    forall es: seq<Event> | Quiet(es) :: HasRoom(Run(s, es).recv, s.recvCap)
  }

  lemma RoomIfFits(s: State)
    requires Inv(s) && s.recvCap > 0 && AllWithin(s.accepted, s.recvCap)
    ensures HasRoom(s.recv, s.recvCap)
  {
    var pending := s.accepted[|s.delivered|..];
    assert s.InFlight()[..|s.recv|] == s.recv;
    AlwaysRoomIffMessagesFit(pending, s.recvCap);
  }

  /** From any reachable state, `recv` is offered room after every round of the message loop
      in every continuation exactly when no accepted message is longer than the receive
      buffer; so that is exactly when the peer is never dropped for lack of room. */
  lemma RoomAfterDoMsg(sendCap: nat, recvCap: nat, es: seq<Event>)
    requires PushesFramed(es) && recvCap > 0
    ensures var s := Run(Init(sendCap, recvCap), es);
            StaysRoomy(s) <==> AllWithin(s.accepted, recvCap)
  {
    var s := Run(Init(sendCap, recvCap), es);
    RunKeepsInv(Init(sendCap, recvCap), es);
    DeliveredFit(Init(sendCap, recvCap), es);
    if AllWithin(s.accepted, recvCap) {
      forall fs: seq<Event> | Quiet(fs) ensures HasRoom(Run(s, fs).recv, recvCap) {
        RunKeepsInv(s, fs);
        QuietRun(s, fs);
        DeliveredFit(s, fs);
        RoomIfFits(Run(s, fs));
      }
    } else {
      var i :| 0 <= i < |s.accepted| && recvCap < |s.accepted[i]|;
      var fs := Fill(s, i);
    }
  }

  // ---- the objects ----

  /** The two buffers of one direction, driven through CellClient's methods. */
  class Link {
    const sendBuff: CellBuffer
    const receiver: Receiver
    var wire: seq<Byte>
    var accepted: seq<seq<Byte>>
    var delivered: seq<seq<Byte>>

    ghost predicate Valid()
      reads this, sendBuff, receiver.recvBuff
    {
      sendBuff != receiver.recvBuff && sendBuff.buff != receiver.recvBuff.buff &&
      sendBuff.Valid() && receiver.recvBuff.Valid()
    }

    ghost function Abs(): (s: State)
      reads this, sendBuff, sendBuff.buff, receiver.recvBuff, receiver.recvBuff.buff
      requires Valid()
      ensures s.Fits()
    {
      State(sendBuff.buff.Length, receiver.recvBuff.buff.Length,
            sendBuff.Abs().Contents(), wire, receiver.recvBuff.Abs().Contents(),
            accepted, delivered)
    }

    constructor (sendSize: nat, recvSize: nat)
      ensures Valid() && Abs() == Init(sendSize, recvSize)
      ensures fresh(sendBuff) && fresh(sendBuff.buff)
      ensures fresh(receiver.recvBuff) && fresh(receiver.recvBuff.buff)
    {
      sendBuff := new CellBuffer(sendSize);
      receiver := new Receiver(recvSize);
      wire, accepted, delivered := [], [], [];
    }

    /** CellClient::SendData: all or nothing. */
    method SendData(m: seq<Byte>) returns (ret: int)
      requires Valid()
      modifies this, sendBuff, sendBuff.buff
      ensures Valid() && Abs() == Step(old(Abs()), Push(m))
      ensures ret == if old(sendBuff.nLast) + |m| <= sendBuff.buff.Length then |m| else SOCKET_ERROR
      ensures ret == SOCKET_ERROR ==> Abs() == old(Abs())
      ensures ret != SOCKET_ERROR ==> sendBuff.Abs().Contents() == old(sendBuff.Abs()).Contents() + m
      ensures accepted == if ret == SOCKET_ERROR then old(accepted) else old(accepted) + [m]
      ensures wire == old(wire) && delivered == old(delivered)
    {
      var ok := sendBuff.Push(m);
      if ok {
        accepted := accepted + [m];
        return |m|;
      }
      return SOCKET_ERROR;
    }

    /** CellClient::SendDataReal on a live socket whose kernel buffer takes `k` bytes. */
    method SendDataReal(k: nat) returns (ret: int)
      requires Valid() && k <= sendBuff.nLast
      modifies this, sendBuff, sendBuff.buff
      ensures Valid() && Abs() == Step(old(Abs()), Flush(k))
      ensures ret == if old(sendBuff.nLast) == 0 then 0 else if k == 0 then SOCKET_ERROR else k
      ensures wire == old(wire) + old(sendBuff.Abs()).Contents()[..k]
      ensures sendBuff.Abs().Contents() == old(sendBuff.Abs()).Contents()[k..]
    {
      ghost var b := sendBuff.Abs().Contents();
      var out;
      ret, out := sendBuff.WriteToSocket(true, k);
      wire := wire + out;
      assert k > 0 ==> out == b[..k] && sendBuff.Abs().Contents() == b[k..];
    }

    method RecvData(k: nat) returns (ret: int)
      requires Valid() && k <= |wire| && k <= receiver.recvBuff.buff.Length - receiver.recvBuff.nLast
      modifies this, receiver.recvBuff, receiver.recvBuff.buff
      ensures Valid() && Abs() == Step(old(Abs()), Receive(k))
      ensures ret == if old(receiver.recvBuff.nLast) == receiver.recvBuff.buff.Length then 0
                     else if k == 0 then SOCKET_ERROR else k
      ensures wire == old(wire)[k..]
      ensures receiver.recvBuff.Abs().Contents() == old(receiver.recvBuff.Abs()).Contents() + old(wire)[..k]
    {
      ret := receiver.recvBuff.ReadFromSocket(k, wire[..k]);
      if ret > 0 {
        wire := wire[k..];
      }
    }

    /** One round of DoMsg. */
    method DoOneMsg() returns (had: bool)
      requires Valid()
      modifies this, receiver.recvBuff, receiver.recvBuff.buff
      ensures Valid() && Abs() == Step(old(Abs()), Deliver)
      ensures had == HasMsg(old(Abs()).recv)
      ensures var b := old(receiver.recvBuff.Abs()).Contents();
              had ==> delivered == old(delivered) + [b[..DataLength(b)]] &&
                      receiver.recvBuff.Abs().Contents() == b[DataLength(b)..]
    {
      had := receiver.recvBuff.CheckMsg();
      if had {
        ghost var b := receiver.recvBuff.Abs().Contents();
        var m := receiver.FrontMsg();
        receiver.PopFrontMsg();
        assert receiver.recvBuff.Abs().Contents() == b[DataLength(b)..];
        delivered := delivered + [m];
      }
    }

    /** Any interleaving of the calls refines the state machine, so the theorems above
        hold of the buffers themselves. */
    method Play(es: seq<Event>)
      requires Valid()
      modifies this, sendBuff, sendBuff.buff, receiver.recvBuff, receiver.recvBuff.buff
      ensures Valid() && Abs() == Run(old(Abs()), es)
    {
      var i := 0;
      assert es[0..] == es;
      while i < |es|
        invariant i <= |es| && Valid()
        invariant Run(Abs(), es[i..]) == Run(old(Abs()), es)
      {
        assert es[i..][1..] == es[i + 1..];
        match es[i] {
          case Push(m) => var _ := SendData(m);
          case Flush(k) => if k <= sendBuff.nLast { var _ := SendDataReal(k); }
          case Receive(k) =>
            if k <= |wire| && k <= receiver.recvBuff.buff.Length - receiver.recvBuff.nLast {
              var _ := RecvData(k);
            }
          case Deliver => var _ := DoOneMsg();
        }
        i := i + 1;
      }
    }
  }
}
