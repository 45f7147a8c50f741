/** The completion-port server loop: the kernel stores into, and sends from, regions of the
    client buffers captured when the operation was posted. */
module Iocp {
  import opened Bytes
  import opened Framing
  import opened CellBuffers

  /** A posted WSARecv and the bytes the kernel has stored for it so far. */
  datatype RecvOp = RecvOp(io: IoData, arrived: seq<Byte>)

  /** A posted WSASend: its length and what the region held when it was posted. */
  datatype SendOp = SendOp(len: nat, captured: seq<Byte>)

  datatype Client = Client(
    rbuf: Buf, sbuf: Buf,
    isPostRecv: bool, isPostSend: bool,
    rop: Option<RecvOp>, sop: Option<SendOp>,
    stored: seq<Byte>,          // everything the kernel ever stored
    delivered: seq<seq<Byte>>,  // messages handed to OnNetMsg
    pushed: seq<Byte>,          // everything SendData accepted
    sent: seq<Byte>)            // everything the kernel reported sent
  {
    predicate Valid() { rbuf.Valid() && sbuf.Valid() }

    function Arrived(): seq<Byte> { if rop.Some? then rop.value.arrived else [] }
  }

  // ---- the steps on one client ----

  /** makeRecvIoData, then postRecv when it returns a region. */
  function PostRecv(c: Client): Client {
    if c.isPostRecv then c
    else if c.rbuf.last < |c.rbuf.mem| then
      c.(isPostRecv := true, rop := Some(RecvOp(IoData(c.rbuf.last, |c.rbuf.mem| - c.rbuf.last), [])))
    else c.(isPostRecv := true)
  }

  function PostSend(c: Client): Client
    requires c.Valid()
  {
    if c.isPostSend then c
    else if c.sbuf.last > 0 then
      c.(isPostSend := true, sop := Some(SendOp(c.sbuf.last, c.sbuf.Contents())))
    else c.(isPostSend := true)
  }

  /** The body of DoNetEvent's loop over the clients. */
  function Post(c: Client): Client
    requires c.Valid()
  {
    if c.sbuf.last > 0 then PostRecv(PostSend(c)) else PostRecv(c)
  }

  /** The kernel stores any bytes in the captured region, at any moment. */
  predicate CanStore(c: Client, bytes: seq<Byte>) {
    c.Valid() && c.rop.Some? &&
    |c.rop.value.arrived| + |bytes| <= c.rop.value.io.len &&
    c.rop.value.io.offset + c.rop.value.io.len <= |c.rbuf.mem|
  }

  function Store(c: Client, bytes: seq<Byte>): Client
    requires CanStore(c, bytes)
  {
    var op := c.rop.value;
    var at := op.io.offset + |op.arrived|;
    c.(rbuf := Buf(c.rbuf.mem[..at] + bytes + c.rbuf.mem[at + |bytes|..], c.rbuf.last),
       rop := Some(op.(arrived := op.arrived + bytes)), stored := c.stored + bytes)
  }

  /** The completion of the receive is dequeued: recv4Iocp(bytesTrans). */
  function RecvDone(c: Client): Client
    requires c.rop.Some?
  {
    var n := |c.rop.value.arrived|;
    if !c.isPostRecv then c.(rop := None)
    else if 0 < n <= |c.rbuf.mem| - c.rbuf.last then
      c.(isPostRecv := false, rop := None, rbuf := Buf(c.rbuf.mem, c.rbuf.last + n))
    else c.(isPostRecv := false, rop := None)
  }

  /** The completion of the send is dequeued: send2Iocp(n). */
  function SendDone(c: Client, n: nat): Client
    requires c.Valid() && c.sop.Some? && n <= |c.sop.value.captured|
  {
    var d := c.(sop := None, sent := c.sent + c.sop.value.captured[..n]);
    if !c.isPostSend then d
    else if n <= c.sbuf.last then d.(isPostSend := false, sbuf := c.sbuf.Drop(n))
    else d.(isPostSend := false)
  }

  function SendData(c: Client, data: seq<Byte>): Client
    requires c.Valid()
  {
    if c.sbuf.last + |data| <= |c.sbuf.mem|
    then c.(sbuf := c.sbuf.Append(data), pushed := c.pushed + data)
    else c
  }

  /** One round of DoMsg on this client. */
  function Take(c: Client): Client
    requires c.Valid() && HasMsg(c.rbuf.Contents())
  {
    var n := DataLength(c.rbuf.Contents());
    c.(rbuf := c.rbuf.Drop(n), delivered := c.delivered + [c.rbuf.Contents()[..n]])
  }

  // ---- what every step keeps ----

  /** The flag is set and nothing is outstanding. */
  predicate Wedged(c: Client) {
    c.isPostRecv && c.rop.None?
  }

  ghost predicate RecvInv(c: Client) {
    && HEADER <= |c.rbuf.mem| && c.rbuf.Valid()
    && (c.rop.Some? ==>
         var op := c.rop.value;
         && c.isPostRecv && !HasMsg(c.rbuf.Contents())
         && op.io.offset == c.rbuf.last && op.io.len == |c.rbuf.mem| - c.rbuf.last > 0
         && |op.arrived| <= op.io.len
         && c.rbuf.mem[op.io.offset..op.io.offset + |op.arrived|] == op.arrived)
    && (Wedged(c) ==> c.rbuf.last == |c.rbuf.mem| && !HasMsg(c.rbuf.Contents()))
    && c.stored == Flatten(c.delivered) + (c.rbuf.Contents() + c.Arrived())
    && (!Spins(c.stored) ==> Continues(c.stored, c.delivered, c.rbuf.Contents() + c.Arrived()))
  }

  /** The parse of `stored` is `delivered` and then the parse of `pending`. */
  predicate Continues(stored: seq<Byte>, delivered: seq<seq<Byte>>, pending: seq<Byte>) {
    Drain(stored) == Parsed(delivered + Drain(pending).msgs, Drain(pending).rest)
  }

  ghost predicate SendInv(c: Client) {
    && c.sbuf.Valid()
    && (c.isPostSend <==> c.sop.Some?)
    && (c.sop.Some? ==>
         && 0 < c.sop.value.len == |c.sop.value.captured| <= c.sbuf.last
         && c.sbuf.mem[..c.sop.value.len] == c.sop.value.captured)
    && c.pushed == c.sent + c.sbuf.Contents()
  }

  ghost predicate Inv(c: Client) { RecvInv(c) && SendInv(c) }

  /** No complete message is waiting. */
  predicate Clean(c: Client) {
    c.rbuf.Valid() && !HasMsg(c.rbuf.Contents())
  }

  function Fresh(rmem: seq<Byte>, smem: seq<Byte>): Client {
    Client(Buf(rmem, 0), Buf(smem, 0), false, false, None, None, [], [], [], [])
  }

  lemma SpinsOn(a: seq<Byte>, c: seq<Byte>)
    requires Spins(a)
    ensures Spins(a + c)
  {
    DrainAppend(a, c);
    var r := Drain(a).rest;
    assert DataLength(r + c) == 0;
  }

  lemma ContinuesMore(stored: seq<Byte>, delivered: seq<seq<Byte>>, pending: seq<Byte>, more: seq<Byte>)
    requires Continues(stored, delivered, pending)
    ensures Continues(stored + more, delivered, pending + more)
  {
    DrainAppend(stored, more);
    DrainAppend(pending, more);
    Assoc(delivered, Drain(pending).msgs, Drain(Drain(pending).rest + more).msgs);
  }

  /** A drained buffer has room whenever the peer's stream is well formed and its messages
      fit. */
  lemma CleanHasRoom(c: Client)
    requires RecvInv(c) && Clean(c) && c.rop.None? && Prefixed(c.stored, |c.rbuf.mem|)
    ensures c.rbuf.last < |c.rbuf.mem| && !Wedged(c)
  {
    PrefixedDrains(c.stored, |c.rbuf.mem|);
    assert c.rbuf.Contents() + [] == c.rbuf.Contents();
  }

  lemma PostKeepsInv(c: Client)
    requires Inv(c) && Clean(c)
    ensures Inv(Post(c)) && Clean(Post(c)) && Post(c).isPostRecv
    ensures Post(c).rop.Some? <==> c.rop.Some? || (!c.isPostRecv && c.rbuf.last < |c.rbuf.mem|)
  {
  }

  lemma StoreKeepsInv(c: Client, bytes: seq<Byte>)
    requires Inv(c) && CanStore(c, bytes)
    ensures Inv(Store(c, bytes)) && Store(c, bytes).rbuf.Contents() == c.rbuf.Contents()
  {
    StoreBytes(c, bytes);
    var d := Store(c, bytes);
    Assoc(c.rbuf.Contents(), c.Arrived(), bytes);
    Assoc(Flatten(c.delivered), c.rbuf.Contents() + c.Arrived(), bytes);
    if !Spins(d.stored) {
      if Spins(c.stored) { SpinsOn(c.stored, bytes); }
      ContinuesMore(c.stored, c.delivered, c.rbuf.Contents() + c.Arrived(), bytes);
    }
  }

  lemma StoreBytes(c: Client, bytes: seq<Byte>)
    requires Inv(c) && CanStore(c, bytes)
    ensures var d := Store(c, bytes);
            && |d.rbuf.mem| == |c.rbuf.mem| && d.rbuf.last == c.rbuf.last && d.Arrived() == c.Arrived() + bytes
            && d.rbuf.Valid() && d.rbuf.Contents() == c.rbuf.Contents()
            && d.rbuf.mem[c.rbuf.last..c.rbuf.last + |d.Arrived()|] == d.Arrived()
  {
    var d := Store(c, bytes);
    assert d.rbuf.mem[..c.rbuf.last] == c.rbuf.mem[..c.rbuf.last];
    assert d.rbuf.mem[c.rbuf.last..c.rbuf.last + |d.Arrived()|] == d.Arrived();
  }

  /** A completion appends exactly the bytes that arrived, and neither recv4Iocp nor
      read4Iocp takes its error branch. */
  lemma RecvDoneAppends(c: Client)
    requires Inv(c) && c.rop.Some? && c.rop.value.arrived != []
    ensures c.isPostRecv && |c.Arrived()| <= |c.rbuf.mem| - c.rbuf.last
    ensures var d := RecvDone(c);
            d.rbuf.Valid() && d.rbuf.Contents() == c.rbuf.Contents() + c.Arrived() && Inv(d)
  {
    var d := RecvDone(c);
    assert d.rbuf.Contents() == c.rbuf.Contents() + c.Arrived();
    assert d.Arrived() == [] && d.rbuf.Contents() + [] == d.rbuf.Contents();
  }

  /** While a send is posted, pushes leave the captured region alone; its completion
      removes exactly the bytes sent and write2Iocp does not take its error branch. */
  lemma SendDoneRemoves(c: Client, n: nat)
    requires Inv(c) && c.sop.Some? && 0 < n <= c.sop.value.len
    ensures c.isPostSend && n <= c.sbuf.last
    ensures var d := SendDone(c, n);
            && d.sbuf.Valid() && d.sbuf.Contents() == c.sbuf.Contents()[n..]
            && d.sent == c.sent + c.sbuf.Contents()[..n] && Inv(d)
  {
    var d := SendDone(c, n);
    assert c.sop.value.captured[..n] == c.sbuf.Contents()[..n];
    assert c.sbuf.Contents() == c.sbuf.Contents()[..n] + c.sbuf.Contents()[n..];
    Assoc(c.sent, c.sbuf.Contents()[..n], c.sbuf.Contents()[n..]);
  }

  lemma SendDataKeepsInv(c: Client, data: seq<Byte>)
    requires Inv(c)
    ensures var d := SendData(c, data); var fits := c.sbuf.last + |data| <= |c.sbuf.mem|;
            && (fits ==> d.pushed == c.pushed + data && d.sbuf.Valid() && d.sbuf.Contents() == c.sbuf.Contents() + data)
            && (!fits ==> d == c)
    ensures Inv(SendData(c, data)) && SendData(c, data).rbuf == c.rbuf && SendData(c, data).sop == c.sop
  {
    Assoc(c.sent, c.sbuf.Contents(), data);
  }

  /** The message loop never shifts a buffer the kernel is writing into, and shortens it
      every round unless a zero-length header is in front. */
  lemma TakeKeepsInv(c: Client)
    requires Inv(c) && HasMsg(c.rbuf.Contents())
    ensures c.rop.None? && !c.isPostRecv && Inv(Take(c))
    ensures !Spins(c.stored) ==> Take(c).rbuf.last < c.rbuf.last
  {
    TakeKeepsRecv(c);
  }

  lemma TakeKeepsRecv(c: Client)
    requires RecvInv(c) && c.sbuf.Valid() && HasMsg(c.rbuf.Contents())
    ensures RecvInv(Take(c))
    ensures !Spins(c.stored) ==> DataLength(c.rbuf.Contents()) > 0
  {
    var b := c.rbuf.Contents();
    var n := DataLength(b);
    var d := Take(c);
    assert d.delivered == c.delivered + [b[..n]] && d.rbuf.Contents() == b[n..];
    TakeConserves(c.delivered, b, n);
    assert b + [] == b && b[n..] + [] == b[n..];
    if !Spins(c.stored) {
      TakeContinues(c.stored, c.delivered, b);
    }
  }

  lemma TakeContinues(stored: seq<Byte>, delivered: seq<seq<Byte>>, b: seq<Byte>)
    requires Continues(stored, delivered, b) && HasMsg(b) && !Spins(stored)
    ensures var n := DataLength(b); n > 0 && Continues(stored, delivered + [b[..n]], b[n..])
  {
    var n := DataLength(b);
    Assoc(delivered, [b[..n]], Drain(b[n..]).msgs);
  }

  lemma TakeConserves(ms: seq<seq<Byte>>, b: seq<Byte>, n: nat)
    requires n <= |b|
    ensures Flatten(ms + [b[..n]]) + b[n..] == Flatten(ms) + b
  {
    FlattenSnoc(ms, b[..n]);
    Assoc(Flatten(ms), b[..n], b[n..]);
    assert b == b[..n] + b[n..];
  }

  // ---- the server loop ----

  datatype Pc =
    | Top            // OnRun's loop head, where joins happen
    | Posting(i: nat) // DoNetEvent, about to post for client i
    | Waiting        // DoIOCPNetEvent until it returns 0
    | Messages(i: nat) // DoMsg, at client i

  datatype Server = Server(clients: seq<Client>, pc: Pc)

  datatype Event =
    | Join(rmem: seq<Byte>, smem: seq<Byte>)
    | Continue                            // the loop thread's next step
    | RecvCompletion(j: nat)
    | SendCompletion(j: nat, n: nat)
    | KernelStore(j: nat, bytes: seq<Byte>)
    | Push(j: nat, data: seq<Byte>)       // SendData, from a handler or elsewhere

  predicate AllValid(s: Server) {
    forall j :: 0 <= j < |s.clients| ==> s.clients[j].Valid()
  }

  predicate Enabled(s: Server, e: Event)
    requires AllValid(s)
  {
    match e
    case Join(rmem, _) => s.pc.Top? && HEADER <= |rmem|
    case Continue => true
    case RecvCompletion(j) =>
      s.pc.Waiting? && j < |s.clients| && s.clients[j].rop.Some? && s.clients[j].rop.value.arrived != []
    case SendCompletion(j, n) =>
      s.pc.Waiting? && j < |s.clients| && s.clients[j].sop.Some? &&
      0 < n <= s.clients[j].sop.value.len && n <= |s.clients[j].sop.value.captured|
    case KernelStore(j, bytes) => j < |s.clients| && CanStore(s.clients[j], bytes)
    case Push(j, _) => j < |s.clients|
  }

  function Step(s: Server, e: Event): Server
    requires AllValid(s)
  {
    if !Enabled(s, e) then s
    else match e
      case Join(rmem, smem) => s.(clients := s.clients + [PostRecv(Fresh(rmem, smem))])
      case Continue => Advance(s)
      case RecvCompletion(j) => s.(clients := s.clients[j := RecvDone(s.clients[j])])
      case SendCompletion(j, n) => s.(clients := s.clients[j := SendDone(s.clients[j], n)])
      case KernelStore(j, bytes) => s.(clients := s.clients[j := Store(s.clients[j], bytes)])
      case Push(j, data) => s.(clients := s.clients[j := SendData(s.clients[j], data)])
  }

  function Advance(s: Server): Server
    requires AllValid(s)
  {
    match s.pc
    case Top => s.(pc := Posting(0))
    case Posting(i) =>
      if i < |s.clients| then s.(clients := s.clients[i := Post(s.clients[i])], pc := Posting(i + 1))
      else s.(pc := Waiting)
    case Waiting => s.(pc := Messages(0))
    case Messages(i) =>
      if i < |s.clients| then
        assert s.clients[i].Valid();
        if HasMsg(s.clients[i].rbuf.Contents()) then s.(clients := s.clients[i := Take(s.clients[i])])
        else s.(pc := Messages(i + 1))
      else s.(pc := Top)
  }

  /** Client `j` has been through the message loop since its last completion. */
  predicate Drained(pc: Pc, j: nat) {
    match pc
    case Waiting => false
    case Messages(i) => j < i
    case _ => true
  }

  ghost predicate ServerInv(s: Server) {
    forall j :: 0 <= j < |s.clients| ==>
      Inv(s.clients[j]) && (Drained(s.pc, j) ==> Clean(s.clients[j]))
  }

  lemma StepKeepsInv(s: Server, e: Event)
    requires ServerInv(s)
    ensures ServerInv(Step(s, e))
  {
    if Enabled(s, e) {
      match e
      case Join(rmem, smem) => FreshInv(rmem, smem);
      case Continue => AdvanceKeepsInv(s);
      case RecvCompletion(j) =>
        RecvDoneAppends(s.clients[j]);
        SetKeepsInv(s, j, RecvDone(s.clients[j]));
      case SendCompletion(j, n) =>
        SendDoneRemoves(s.clients[j], n);
        SetKeepsInv(s, j, SendDone(s.clients[j], n));
      case KernelStore(j, bytes) =>
        StoreKeepsInv(s.clients[j], bytes);
        SetKeepsInv(s, j, Store(s.clients[j], bytes));
      case Push(j, data) =>
        SendDataKeepsInv(s.clients[j], data);
        SetKeepsInv(s, j, SendData(s.clients[j], data));
    }
  }

  lemma SetKeepsInv(s: Server, j: nat, d: Client)
    requires ServerInv(s) && j < |s.clients| && Inv(d) && (Drained(s.pc, j) ==> Clean(d))
    ensures ServerInv(s.(clients := s.clients[j := d]))
  {
  }

  lemma FreshInv(rmem: seq<Byte>, smem: seq<Byte>)
    requires HEADER <= |rmem|
    ensures Inv(PostRecv(Fresh(rmem, smem))) && Clean(PostRecv(Fresh(rmem, smem)))
  {
    assert Flatten([]) == [];
  }

  lemma AdvanceKeepsInv(s: Server)
    requires ServerInv(s)
    ensures ServerInv(Advance(s))
  {
    match s.pc
    case Posting(i) =>
      if i < |s.clients| { PostKeepsInv(s.clients[i]); }
    case Messages(i) =>
      if i < |s.clients| && HasMsg(s.clients[i].rbuf.Contents()) { TakeKeepsInv(s.clients[i]); }
    case _ =>
  }

  ghost function Run(s: Server, es: seq<Event>): (t: Server)
    requires ServerInv(s)
    ensures ServerInv(t)
    decreases |es|
  {
    if es == [] then s
    else
      StepKeepsInv(s, es[0]);
      Run(Step(s, es[0]), es[1..])
  }

  /** In every reachable state of the loop, for every client whose peer has sent a prefix of
      well-formed messages that fit: the receive flag means an operation is outstanding; the
      region it captured still starts at `_nLast` and is not empty; the buffer then holds no
      complete message; and the messages delivered so far continue with the parse of what
      is buffered and stored. */
  lemma RecvSafe(es: seq<Event>, j: nat)
    requires j < |Run(Server([], Top), es).clients|
    ensures var c := Run(Server([], Top), es).clients[j];
            Prefixed(c.stored, |c.rbuf.mem|) ==>
              && c.rbuf.Valid()
              && (c.isPostRecv <==> c.rop.Some?)
              && (c.isPostRecv ==> !HasMsg(c.rbuf.Contents()) &&
                                   c.rop.value.io.offset == c.rbuf.last && c.rop.value.io.len > 0)
              && c.delivered + Drain(c.rbuf.Contents() + c.Arrived()).msgs == Drain(c.stored).msgs
  {
    var c := Run(Server([], Top), es).clients[j];
    if Prefixed(c.stored, |c.rbuf.mem|) {
      PrefixedDrains(c.stored, |c.rbuf.mem|);
      if Wedged(c) { CleanHasRoom(c); }
    }
  }

  /** Whatever the peer sends, an outstanding receive is safe: the flag is set, the message
      loop will not shift the buffer, and completion appends at `_nLast`. */
  lemma PostedIsSafe(es: seq<Event>, j: nat)
    requires j < |Run(Server([], Top), es).clients|
    ensures var c := Run(Server([], Top), es).clients[j];
            && c.rbuf.Valid() && c.stored == Flatten(c.delivered) + (c.rbuf.Contents() + c.Arrived())
            && (c.rop.Some? ==> c.isPostRecv && !HasMsg(c.rbuf.Contents()) &&
                                c.rop.value.io.offset == c.rbuf.last && c.rop.value.io.len > 0)
  {
  }

  /** Likewise for sends: the captured prefix is intact, its length is within the buffer,
      and sent bytes followed by buffered bytes are the accepted pushes. */
  lemma SendSafe(es: seq<Event>, j: nat)
    requires j < |Run(Server([], Top), es).clients|
    ensures var c := Run(Server([], Top), es).clients[j];
            && c.sbuf.Valid()
            && (c.isPostSend <==> c.sop.Some?)
            && (c.isPostSend ==> 0 < c.sop.value.len <= c.sbuf.last &&
                                 c.sbuf.mem[..c.sop.value.len] == c.sop.value.captured)
            && c.pushed == c.sent + c.sbuf.Contents()
  {
  }

  /** Where the size bound matters, over every run with arbitrary bytes from the peer.  A
      client whose flag is set with nothing outstanding has a buffer filled by the start of
      a message longer than it; and once its completions are handled, a client with the
      flag set has nothing outstanding exactly when what its peer has sent parses to whole
      messages and a remainder as long as the buffer. */
  lemma FlagMeansPostedIff(es: seq<Event>, j: nat)
    requires j < |Run(Server([], Top), es).clients|
    ensures var c := Run(Server([], Top), es).clients[j];
            && c.rbuf.Valid()
            && (Wedged(c) ==> c.rbuf.last == |c.rbuf.mem| < DataLength(c.rbuf.Contents()))
            && (c.isPostRecv && c.Arrived() == [] && !Spins(c.stored) ==>
                  (c.rop.None? <==> |Drain(c.stored).rest| == |c.rbuf.mem|))
  {
    var c := Run(Server([], Top), es).clients[j];
    if c.isPostRecv && c.Arrived() == [] && !Spins(c.stored) {
      WedgeFromStream(c);
    }
  }

  lemma WedgeFromStream(c: Client)
    requires RecvInv(c) && c.isPostRecv && c.Arrived() == [] && !Spins(c.stored)
    ensures c.rop.None? <==> |Drain(c.stored).rest| == |c.rbuf.mem|
  {
    assert c.rbuf.Contents() + [] == c.rbuf.Contents();
  }

  /** Such a client stays so, and its handler never sees another message. */
  lemma {:induction false} WedgedForever(s: Server, es: seq<Event>, j: nat)
    requires ServerInv(s) && j < |s.clients| && Wedged(s.clients[j])
    ensures var t := Run(s, es);
            && j < |t.clients| && Wedged(t.clients[j]) && t.clients[j].rbuf == s.clients[j].rbuf
            && t.clients[j].delivered == s.clients[j].delivered && t.clients[j].stored == s.clients[j].stored
    decreases |es|
  {
    if es != [] {
      StepKeepsInv(s, es[0]);
      StepKeepsWedge(s, es[0], j);
      WedgedForever(Step(s, es[0]), es[1..], j);
    }
  }

  lemma StepKeepsWedge(s: Server, e: Event, j: nat)
    requires ServerInv(s) && j < |s.clients| && Wedged(s.clients[j])
    ensures var t := Step(s, e);
            && j < |t.clients| && Wedged(t.clients[j]) && t.clients[j].rbuf == s.clients[j].rbuf
            && t.clients[j].delivered == s.clients[j].delivered && t.clients[j].stored == s.clients[j].stored
  {
  }

  // ---- which streams wedge a client ----

  /** The loop's steps up to the next wait for a completion, for a single client. */
  function Phase(pc: Pc): nat {
    match pc
    case Waiting => 0
    case Posting(i) => if i > 0 then 1 else 2
    case Top => 3
    case Messages(i) => if i > 0 then 4 else 5
  }

  /** One client, with what it has received and has to send as in `c`. */
  ghost predicate Single(s: Server, c: Client) {
    && ServerInv(s) && |s.clients| == 1
    && s.clients[0].stored == c.stored && |s.clients[0].rbuf.mem| == |c.rbuf.mem| && s.clients[0].Arrived() == c.Arrived()
    && s.clients[0].sbuf == c.sbuf && s.clients[0].sent == c.sent && s.clients[0].pushed == c.pushed
  }

  /** The send outstanding after posting: what was, or else everything there is to send. */
  function SopAfter(c: Client): Option<SendOp>
    requires c.Valid()
  {
    if c.sop.None? && c.sbuf.last > 0 then Some(SendOp(c.sbuf.last, c.sbuf.Contents())) else c.sop
  }

  /** Posting leaves a receive wanted and, when there is anything to send, a send of it
      outstanding. */
  lemma PostSends(c: Client)
    requires Inv(c)
    ensures Post(c).isPostRecv && Post(c).sop == SopAfter(c)
    ensures c.sbuf.last > 0 ==> Post(c).sop.Some?
    ensures c.sbuf.last > 0 && c.sop.None? ==>
              Post(c).sop.value.len == c.sbuf.last && Post(c).sop.value.captured == c.sbuf.Contents()
  {
  }

  /** And the posting loop does this for every client in turn. */
  lemma PostsEach(s: Server)
    requires ServerInv(s) && s.pc.Posting? && s.pc.i < |s.clients|
    ensures var i := s.pc.i; var t := Step(s, Continue); var c := s.clients[i];
            && t.pc == Posting(i + 1) && |t.clients| == |s.clients|
            && t.clients[i].isPostRecv && t.clients[i].sop == SopAfter(c)
            && (c.sbuf.last > 0 ==> t.clients[i].sop.Some?)
            && forall j :: 0 <= j < |s.clients| && j != i ==> t.clients[j] == s.clients[j]
  {
    PostSends(s.clients[s.pc.i]);
  }

  lemma RunCons(s: Server, e: Event, es: seq<Event>)
    requires ServerInv(s) && ServerInv(Step(s, e))
    ensures Run(s, [e] + es) == Run(Step(s, e), es)
  {
    assert ([e] + es)[1..] == es;
  }

  /** What the loop thread does to a client leaves what it has received alone. */
  lemma LoopKeepsReceived(c: Client)
    requires Inv(c)
    ensures var d := Post(c);
            && d.stored == c.stored && |d.rbuf.mem| == |c.rbuf.mem| && d.rbuf.last == c.rbuf.last && d.rbuf == c.rbuf
            && d.Arrived() == c.Arrived() && d.sbuf == c.sbuf && d.sent == c.sent && d.pushed == c.pushed
    ensures HasMsg(c.rbuf.Contents()) ==>
              var d := Take(c);
              && d.stored == c.stored && |d.rbuf.mem| == |c.rbuf.mem| && d.rbuf.Contents() == c.rbuf.Contents()[DataLength(c.rbuf.Contents())..]
              && d.Arrived() == c.Arrived() && d.sbuf == c.sbuf && d.sent == c.sent && d.pushed == c.pushed && d.sop == c.sop
  {
  }

  lemma TakeNoSpin(b: seq<Byte>)
    requires HasMsg(b) && !Spins(b)
    ensures DataLength(b) > 0 && !Spins(b[DataLength(b)..])
  {
  }

  predicate PastPosting(pc: Pc) { pc.Waiting? || (pc.Posting? && pc.i > 0) }

  ghost predicate Ready(s: Server) {
    && ServerInv(s) && |s.clients| == 1 && !Spins(s.clients[0].rbuf.Contents())
    && (PastPosting(s.pc) ==> s.clients[0].isPostRecv && s.clients[0].sop == SopAfter(s.clients[0]))
  }

  lemma AdvanceSingle(s: Server)
    requires Ready(s) && !s.pc.Waiting?
    ensures var t := Advance(s);
            && Ready(t) && Single(t, s.clients[0]) && SopAfter(t.clients[0]) == SopAfter(s.clients[0])
            && (Phase(t.pc) < Phase(s.pc) || (t.pc == s.pc && t.clients[0].rbuf.last < s.clients[0].rbuf.last))
  {
    AdvanceKeepsInv(s);
    var c := s.clients[0];
    LoopKeepsReceived(c);
    match s.pc
    case Messages(i) =>
      if i == 0 {
        if HasMsg(c.rbuf.Contents()) {
          TakeNoSpin(c.rbuf.Contents());
          assert Advance(s) == s.(clients := [Take(c)]);
        } else {
          assert Advance(s) == s.(pc := Messages(1));
        }
      }
    case Posting(i) =>
      if i == 0 {
        PostSends(c);
        assert Advance(s) == Server([Post(c)], Posting(1));
      }
    case _ =>
  }

  /** The loop thread always comes back to its wait unless a zero-length header keeps it in
      the message loop; the client's flag is then set, and whatever it has to send is
      outstanding. */
  lemma {:induction false} BackToWaiting(s: Server) returns (es: seq<Event>)
    requires Ready(s)
    ensures AllContinue(es)
    ensures var t := Run(s, es);
            && Ready(t) && Single(t, s.clients[0]) && t.pc.Waiting? && t.clients[0].isPostRecv
            && t.clients[0].sop == SopAfter(s.clients[0])
    decreases Phase(s.pc), s.clients[0].rbuf.last
  {
    es := [];
    if !s.pc.Waiting? {
      AdvanceSingle(s);
      assert Step(s, Continue) == Advance(s);
      var fs := BackToWaiting(Advance(s));
      RunCons(s, Continue, fs);
      es := [Continue] + fs;
    }
  }

  predicate AllContinue(es: seq<Event>) {
    forall i :: 0 <= i < |es| ==> es[i].Continue?
  }

  lemma NoSpinContents(c: Client)
    requires RecvInv(c) && c.Arrived() == [] && !Spins(c.stored)
    ensures !Spins(c.rbuf.Contents())
  {
    assert c.rbuf.Contents() + [] == c.rbuf.Contents();
  }

  lemma ByteStored(s: Server, b: Byte)
    requires ServerInv(s) && |s.clients| == 1 && s.clients[0].rop.Some? && s.clients[0].Arrived() == []
    ensures var t := Step(s, KernelStore(0, [b]));
            && ServerInv(t) && t.pc == s.pc && |t.clients| == 1
            && t.clients[0].rop.Some? && t.clients[0].Arrived() == [b]
            && t.clients[0].stored == s.clients[0].stored + [b] && |t.clients[0].rbuf.mem| == |s.clients[0].rbuf.mem|
  {
    StepKeepsInv(s, KernelStore(0, [b]));
    assert CanStore(s.clients[0], [b]);
    StoreBytes(s.clients[0], [b]);
  }

  lemma Completed(s: Server)
    requires ServerInv(s) && |s.clients| == 1 && s.pc.Waiting? && s.clients[0].rop.Some? && s.clients[0].Arrived() != []
    ensures var t := Step(s, RecvCompletion(0));
            && t.pc.Waiting? && ServerInv(t) && |t.clients| == 1 && t.clients[0].Arrived() == []
            && t.clients[0].stored == s.clients[0].stored && |t.clients[0].rbuf.mem| == |s.clients[0].rbuf.mem|
  {
    StepKeepsInv(s, RecvCompletion(0));
    RecvDoneAppends(s.clients[0]);
  }

  /** One byte arrives, completes, and is worked off. */
  lemma OneByte(s: Server, b: Byte) returns (es: seq<Event>)
    requires ServerInv(s) && |s.clients| == 1 && s.pc.Waiting?
    requires s.clients[0].rop.Some? && s.clients[0].Arrived() == [] && !Spins(s.clients[0].stored + [b])
    ensures var t := Run(s, es);
            && t.pc.Waiting? && |t.clients| == 1 && t.clients[0].isPostRecv && t.clients[0].Arrived() == []
            && t.clients[0].stored == s.clients[0].stored + [b] && |t.clients[0].rbuf.mem| == |s.clients[0].rbuf.mem|
  {
    ByteStored(s, b);
    var s1 := Step(s, KernelStore(0, [b]));
    Completed(s1);
    var s2 := Step(s1, RecvCompletion(0));
    NoSpinContents(s2.clients[0]);
    AdvanceKeepsInv(s2);
    var s3 := Advance(s2);
    assert s3 == s2.(pc := Messages(0)) && Step(s2, Continue) == s3;
    var fs := BackToWaiting(s3);
    es := ThreeThen(s, KernelStore(0, [b]), RecvCompletion(0), Continue, fs);
  }

  lemma ThreeThen(s: Server, a: Event, b: Event, c: Event, fs: seq<Event>) returns (es: seq<Event>)
    requires ServerInv(s)
    ensures ServerInv(Step(s, a)) && ServerInv(Step(Step(s, a), b)) && ServerInv(Step(Step(Step(s, a), b), c))
    ensures Run(s, es) == Run(Step(Step(Step(s, a), b), c), fs)
  {
    StepKeepsInv(s, a);
    StepKeepsInv(Step(s, a), b);
    StepKeepsInv(Step(Step(s, a), b), c);
    RunCons(Step(Step(s, a), b), c, fs);
    RunCons(Step(s, a), b, [c] + fs);
    es := [a] + ([b] + ([c] + fs));
    RunCons(s, a, [b] + ([c] + fs));
  }

  lemma {:induction false} RunRun(s: Server, es: seq<Event>, fs: seq<Event>)
    requires ServerInv(s)
    ensures Run(s, es + fs) == Run(Run(s, es), fs)
    decreases |es|
  {
    if es == [] {
      assert es + fs == fs;
    } else {
      StepKeepsInv(s, es[0]);
      assert (es + fs)[1..] == es[1..] + fs;
      RunRun(Step(s, es[0]), es[1..], fs);
    }
  }

  /** Feeding `x` byte by byte, as far as the client takes it. */
  lemma {:induction false} Feed(s: Server, x: seq<Byte>) returns (es: seq<Event>)
    requires ServerInv(s) && |s.clients| == 1 && s.pc.Waiting?
    requires s.clients[0].isPostRecv && s.clients[0].Arrived() == [] && !Spins(s.clients[0].stored + x)
    ensures var t := Run(s, es);
            && |t.clients| == 1 && |t.clients[0].rbuf.mem| == |s.clients[0].rbuf.mem|
            && t.clients[0].isPostRecv && t.clients[0].Arrived() == []
            && t.clients[0].stored <= s.clients[0].stored + x
            && (Wedged(t.clients[0]) || t.clients[0].stored == s.clients[0].stored + x)
    decreases |x|
  {
    es := [];
    var c := s.clients[0];
    if x == [] {
      assert c.stored + x == c.stored;
    } else if !Wedged(c) {
      Assoc(c.stored, [x[0]], x[1..]);
      assert x == [x[0]] + x[1..];
      if Spins(c.stored + [x[0]]) { SpinsOn(c.stored + [x[0]], x[1..]); }
      var fs := OneByte(s, x[0]);
      var gs := Feed(Run(s, fs), x[1..]);
      RunRun(s, fs, gs);
      es := fs + gs;
    }
  }

  /** In this run client `j`, with a buffer of `cap` bytes and a peer that sends `ms`, is
      not wedged. */
  ghost predicate Unharmed(es: seq<Event>, j: nat, ms: seq<seq<Byte>>, cap: nat) {
    var s := Run(Server([], Top), es);
    j < |s.clients| && |s.clients[j].rbuf.mem| == cap && s.clients[j].stored <= Flatten(ms) ==> !Wedged(s.clients[j])
  }

  lemma FittingStreamIsSafe(es: seq<Event>, j: nat, ms: seq<seq<Byte>>, cap: nat)
    requires AllFramed(ms) && AllWithin(ms, cap)
    ensures Unharmed(es, j, ms, cap)
  {
    var s := Run(Server([], Top), es);
    if j < |s.clients| && |s.clients[j].rbuf.mem| == cap && s.clients[j].stored <= Flatten(ms) {
      PrefixOfStream(ms, s.clients[j].stored, cap);
      RecvSafe(es, j);
    }
  }

  lemma OversizeStreamWedges(ms: seq<seq<Byte>>, i: nat, rmem: seq<Byte>) returns (es: seq<Event>)
    requires AllFramed(ms) && HEADER <= |rmem| && i < |ms| && |rmem| < |ms[i]|
    ensures !Unharmed(es, 0, ms, |rmem|)
  {
    var b := OversizeFills(ms, i, |rmem|);
    assert Drain(b).rest == ms[i][..|rmem|] && !Stuck(Drain(b).rest) by {
      assert DataLength(ms[i][..|rmem|]) == DataLength(ms[i]);
    }
    var s0 := Server([], Top);
    var s1 := Step(s0, Join(rmem, []));
    StepKeepsInv(s0, Join(rmem, []));
    var c := s1.clients[0];
    assert |s1.clients| == 1 && c.stored == [] && c.Arrived() == [] && !Spins(c.stored);
    var fs := BackToWaiting(s1);
    var s2 := Run(s1, fs);
    assert s2.clients[0].stored + b == b;
    var gs := Feed(s2, b);
    RunRun(s1, fs, gs);
    es := [Join(rmem, [])] + (fs + gs);
    RunCons(s0, Join(rmem, []), fs + gs);
    var t := Run(s0, es);
    assert t == Run(s2, gs);
    if !Wedged(t.clients[0]) {
      assert t.clients[0].stored == b;
      WedgeFromStream(t.clients[0]);
    }
  }

  ghost predicate NeverWedges(ms: seq<seq<Byte>>, cap: nat) {
    forall es: seq<Event>, j: nat :: Unharmed(es, j, ms, cap)
  }

  /** A peer can never wedge its client, in any run of the server, exactly when all of its
      messages fit the receive buffer. */
  lemma NeverWedgesIffMessagesFit(ms: seq<seq<Byte>>, cap: nat)
    requires AllFramed(ms) && HEADER <= cap
    ensures NeverWedges(ms, cap) <==> AllWithin(ms, cap)
  {
    if AllWithin(ms, cap) {
      forall es: seq<Event>, j: nat ensures Unharmed(es, j, ms, cap) {
        FittingStreamIsSafe(es, j, ms, cap);
      }
    } else {
      var i :| 0 <= i < |ms| && cap < |ms[i]|;
      var es := OversizeStreamWedges(ms, i, seq(cap, _ => 0));
      assert !Unharmed(es, 0, ms, cap);
    }
  }

  // ---- sending ----

  predicate NoPush(es: seq<Event>) {
    forall i :: 0 <= i < |es| ==> !es[i].Push?
  }

  /** The loop, the kernel and completions can get everything pushed so far sent. */
  ghost predicate CanSendAll(s: Server)
    requires ServerInv(s) && |s.clients| == 1
  {
    exists es: seq<Event> :: NoPush(es) && SentAfter(s, es) == s.clients[0].pushed
  }

  ghost function SentAfter(s: Server, es: seq<Event>): seq<Byte>
    requires ServerInv(s)
  {
    var t := Run(s, es);
    if |t.clients| > 0 then t.clients[0].sent else []
  }

  function Outstanding(c: Client): nat {
    if c.sop.Some? then c.sop.value.len else 0
  }

  /** The outstanding send completes in full. */
  lemma CompleteSend(s: Server)
    requires ServerInv(s) && |s.clients| == 1 && s.pc.Waiting? && s.clients[0].sop.Some?
    ensures var c := s.clients[0]; var n := Outstanding(c); var t := Step(s, SendCompletion(0, n));
            && ServerInv(t) && t.pc.Waiting? && |t.clients| == 1 && t.clients[0].sop.None?
            && n <= c.sbuf.last && t.clients[0].sbuf.last == c.sbuf.last - n
            && t.clients[0].rbuf == c.rbuf && t.clients[0].pushed == c.pushed
            && t.clients[0].sent == c.sent + c.sbuf.Contents()[..n]
  {
    var c := s.clients[0];
    StepKeepsInv(s, SendCompletion(0, Outstanding(c)));
    SendDoneRemoves(c, Outstanding(c));
  }

  lemma EmptyMeansSent(c: Client)
    requires SendInv(c) && c.sbuf.last == 0
    ensures c.sent == c.pushed
  {
    assert c.sent + [] == c.sent;
  }

  /** A round of the loop posts what there is to send, and its completion empties it. */
  lemma SendRound(s: Server) returns (es: seq<Event>)
    requires ServerInv(s) && |s.clients| == 1 && s.pc.Waiting?
    requires s.clients[0].sop.None? && !Spins(s.clients[0].rbuf.Contents())
    ensures NoPush(es) && SentAfter(s, es) == s.clients[0].pushed
  {
    es := [];
    var c := s.clients[0];
    if c.sbuf.last == 0 {
      EmptyMeansSent(c);
    } else {
      AdvanceKeepsInv(s);
      var s1 := Advance(s);
      assert s1 == s.(pc := Messages(0)) && Step(s, Continue) == s1;
      var fs := BackToWaiting(s1);
      var s2 := Run(s1, fs);
      CompleteSend(s2);
      var e := SendCompletion(0, Outstanding(s2.clients[0]));
      EmptyMeansSent(Step(s2, e).clients[0]);
      RunRun(s1, fs, [e]);
      RunCons(s2, e, []);
      RunCons(s, Continue, fs + [e]);
      es := [Continue] + (fs + [e]);
    }
  }

  lemma SendsAll(s: Server) returns (es: seq<Event>)
    requires ServerInv(s) && |s.clients| == 1 && s.pc.Waiting?
    requires !Spins(s.clients[0].rbuf.Contents()) || s.clients[0].sbuf.last == Outstanding(s.clients[0])
    ensures NoPush(es) && SentAfter(s, es) == s.clients[0].pushed
  {
    var c := s.clients[0];
    if c.sop.None? {
      if c.sbuf.last == 0 {
        es := [];
        EmptyMeansSent(c);
      } else {
        es := SendRound(s);
      }
    } else {
      CompleteSend(s);
      var e := SendCompletion(0, Outstanding(c));
      var t := Step(s, e);
      if t.clients[0].sbuf.last == 0 {
        EmptyMeansSent(t.clients[0]);
        es := [e] + [];
        RunCons(s, e, []);
      } else {
        var fs := SendRound(t);
        RunCons(s, e, fs);
        es := [e] + fs;
      }
    }
  }

  /** With a zero-length header in the buffer the loop thread never leaves the message loop
      again: what can still be sent is what is outstanding at the wait. */
  ghost predicate Caught(s: Server) {
    && ServerInv(s) && |s.clients| > 0 && (s.pc.Waiting? || s.pc == Messages(0))
    && Spins(s.clients[0].rbuf.Contents())
  }

  function StillSendable(s: Server): nat
    requires |s.clients| > 0
  {
    |s.clients[0].sent| + (if s.pc.Waiting? then Outstanding(s.clients[0]) else 0)
  }

  lemma SpinsHasMsg(b: seq<Byte>)
    requires Spins(b)
    ensures HasMsg(b) && Spins(b[DataLength(b)..])
  {
    if DataLength(b) == 0 {
      assert b[0..] == b;
    }
  }

  lemma CaughtStep(s: Server, e: Event)
    requires Caught(s) && !e.Push?
    ensures var t := Step(s, e); Caught(t) && StillSendable(t) <= StillSendable(s)
  {
    StepKeepsInv(s, e);
    var c := s.clients[0];
    SpinsHasMsg(c.rbuf.Contents());
    if e.Continue? && s.pc.Messages? {
      LoopKeepsReceived(c);
    }
    if e.SendCompletion? && Enabled(s, e) && e.j == 0 {
      SendDoneRemoves(c, e.n);
    }
  }

  lemma {:induction false} CaughtRun(s: Server, es: seq<Event>)
    requires Caught(s) && NoPush(es)
    ensures Caught(Run(s, es)) && |SentAfter(s, es)| <= StillSendable(s)
    decreases |es|
  {
    if es != [] {
      CaughtStep(s, es[0]);
      CaughtRun(Step(s, es[0]), es[1..]);
    }
  }

  /** At every reachable wait of a server with one client, everything pushed can still be
      sent exactly when no zero-length header lies in the client's receive buffer, or the
      outstanding send is all there is. */
  lemma SendsAllIff(es: seq<Event>)
    requires var s := Run(Server([], Top), es); |s.clients| == 1 && s.pc.Waiting?
    ensures var s := Run(Server([], Top), es); var c := s.clients[0];
            && c.Valid()
            && (CanSendAll(s) <==> !Spins(c.rbuf.Contents()) || c.sbuf.last == Outstanding(c))
  {
    var s := Run(Server([], Top), es);
    var c := s.clients[0];
    if !Spins(c.rbuf.Contents()) || c.sbuf.last == Outstanding(c) {
      var fs := SendsAll(s);
    } else if CanSendAll(s) {
      var fs: seq<Event> :| NoPush(fs) && SentAfter(s, fs) == c.pushed;
      assert |c.pushed| == |c.sent| + c.sbuf.last;
      CaughtRun(s, fs);
    }
  }

  function Turns(n: nat): seq<Event> {
    if n == 0 then [] else [Continue] + Turns(n - 1)
  }

  /** Three turns take the loop from its head to its wait, posting for the client. */
  lemma ToWait(c: Client)
    requires c.Valid() && ServerInv(Server([c], Top))
    ensures ServerInv(Server([Post(c)], Waiting)) && Run(Server([c], Top), Turns(3)) == Server([Post(c)], Waiting)
  {
    Go(Server([c], Top), Turns(3), Server([c], Posting(0)));
    Go(Server([c], Posting(0)), Turns(2), Server([Post(c)], Posting(1)));
    Go(Server([Post(c)], Posting(1)), Turns(1), Server([Post(c)], Waiting));
  }

  /** And five from the wait to the next posting, when no message is complete. */
  lemma FromWait(c: Client)
    requires ServerInv(Server([c], Waiting)) && Clean(c)
    ensures Run(Server([c], Waiting), Turns(5)) == Server([Post(c)], Posting(1))
  {
    Go(Server([c], Waiting), Turns(5), Server([c], Messages(0)));
    Go(Server([c], Messages(0)), Turns(4), Server([c], Messages(1)));
    Go(Server([c], Messages(1)), Turns(3), Server([c], Top));
    Go(Server([c], Top), Turns(2), Server([c], Posting(0)));
    Go(Server([c], Posting(0)), Turns(1), Server([Post(c)], Posting(1)));
  }

  /** The run in which a client joins with memory `room`, `bytes` arrive while the loop
      comes round to its wait, and their completion is worked off. */
  function FillRun(room: seq<Byte>, bytes: seq<Byte>): seq<Event> {
    [Join(room, [])] + ([KernelStore(0, bytes)] + (Turns(3) + ([RecvCompletion(0)] + Turns(5))))
  }

  lemma JoinAndStore(room: seq<Byte>, smem: seq<Byte>, bytes: seq<Byte>, rest: seq<Event>)
    requires HEADER <= |room| == |bytes|
    ensures var p := PostRecv(Fresh(room, smem));
            && CanStore(p, bytes) && Store(p, bytes).Valid() && ServerInv(Server([Store(p, bytes)], Top))
            && Run(Server([], Top), [Join(room, smem)] + ([KernelStore(0, bytes)] + rest)) == Run(Server([Store(p, bytes)], Top), rest)
  {
    var p := PostRecv(Fresh(room, smem));
    FreshInv(room, smem);
    StoredFull(room, smem, bytes);
    Go(Server([], Top), [Join(room, smem)] + ([KernelStore(0, bytes)] + rest), Server([p], Top));
    Go(Server([p], Top), [KernelStore(0, bytes)] + rest, Server([Store(p, bytes)], Top));
  }

  lemma FillRunWedges(room: seq<Byte>, bytes: seq<Byte>)
    requires HEADER <= |room| == |bytes| && !HasMsg(bytes)
    ensures var t := Run(Server([], Top), FillRun(room, bytes));
            |t.clients| == 1 && Wedged(t.clients[0]) && t.clients[0].rbuf.mem == bytes
  {
    var last := [RecvCompletion(0)] + Turns(5);
    JoinAndStore(room, [], bytes, Turns(3) + last);
    StoredFull(room, [], bytes);
    var c := Store(PostRecv(Fresh(room, [])), bytes);
    assert Post(c) == c;
    ToWait(c);
    RunRun(Server([c], Top), Turns(3), last);
    var d := RecvDone(c);
    Go(Server([c], Waiting), last, Server([d], Waiting));
    FromWait(d);
  }

  lemma StoredFull(room: seq<Byte>, smem: seq<Byte>, bytes: seq<Byte>)
    requires HEADER <= |room| == |bytes|
    ensures var p := PostRecv(Fresh(room, smem));
            && CanStore(p, bytes)
            && var c := Store(p, bytes);
               && c.isPostRecv && !c.isPostSend && c.sop.None? && c.sbuf == Buf(smem, 0) && c.rop.Some? && c.Arrived() == bytes
               && var d := RecvDone(c);
                  && d.rbuf == Buf(bytes, |room|) && !d.isPostRecv && d.rop.None? && d.sop.None? && d.sbuf == Buf(smem, 0)
                  && d.rbuf.Contents() == bytes
  {
    assert room[..0] + bytes + room[|room|..] == bytes;
    assert [] + bytes == bytes;
    assert bytes[..|room|] == bytes;
  }

  /** One step of a run whose outcome is known. */
  lemma Go(s: Server, es: seq<Event>, t: Server)
    requires ServerInv(s) && es != [] && Step(s, es[0]) == t
    ensures ServerInv(t) && Run(s, es) == Run(t, es[1..])
  {
    StepKeepsInv(s, es[0]);
  }

  /** Four bytes of room, and a header announcing five. */
  lemma OversizeWedges()
    ensures var t := Run(Server([], Top), FillRun([0, 0, 0, 0], [5, 0, 0, 0]));
            |t.clients| == 1 && Wedged(t.clients[0])
  {
    assert DataLength([5, 0, 0, 0]) == 5;
    FillRunWedges([0, 0, 0, 0], [5, 0, 0, 0]);
  }

  /** A message pushed while a zero-length header waits in the receive buffer is never sent:
      the loop thread comes to the header before it comes to post. */
  lemma ZeroHeaderBlocksSends()
    ensures exists es: seq<Event> ::
              var s := Run(Server([], Top), es); |s.clients| == 1 && s.pc.Waiting? && !CanSendAll(s)
  {
    var zeros: seq<Byte> := [0, 0, 0, 0];
    ZeroHeaderSpins();
    PushBehindHeader(zeros, [9]);
    var es := PushRun(zeros, [9]);
    SendsAllIff(es);
  }

  function PushRun(header: seq<Byte>, m: seq<Byte>): seq<Event> {
    [Join(header, m)] + ([KernelStore(0, header)] + (Turns(3) + ([RecvCompletion(0)] + [Push(0, m)])))
  }

  lemma PushBehindHeader(header: seq<Byte>, m: seq<Byte>)
    requires HEADER <= |header|
    ensures var s := Run(Server([], Top), PushRun(header, m));
            && |s.clients| == 1 && s.pc.Waiting? && s.clients[0].sop.None? && s.clients[0].Valid()
            && s.clients[0].sbuf.last == |m| && s.clients[0].rbuf.Contents() == header
  {
    var last := [RecvCompletion(0)] + [Push(0, m)];
    JoinAndStore(header, m, header, Turns(3) + last);
    StoredFull(header, m, header);
    var c := Store(PostRecv(Fresh(header, m)), header);
    assert Post(c) == c;
    ToWait(c);
    RunRun(Server([c], Top), Turns(3), last);
    var d := RecvDone(c);
    Go(Server([c], Waiting), last, Server([d], Waiting));
    Go(Server([d], Waiting), [Push(0, m)], Server([SendData(d, m)], Waiting));
  }

  // ---- the objects ----

  /** CellClient's completion-port half with its two outstanding operations. */
  class IocpClient {
    const recvBuff: CellBuffer
    const sendBuff: CellBuffer
    var isPostRecv: bool
    var isPostSend: bool
    var rop: Option<RecvOp>
    var sop: Option<SendOp>
    ghost var stored: seq<Byte>
    ghost var delivered: seq<seq<Byte>>
    ghost var pushed: seq<Byte>
    ghost var sent: seq<Byte>

    ghost predicate Valid()
      reads this, recvBuff, sendBuff
    {
      recvBuff != sendBuff && recvBuff.buff != sendBuff.buff && recvBuff.Valid() && sendBuff.Valid()
    }

    ghost function Abs(): (c: Client)
      reads this, recvBuff, recvBuff.buff, sendBuff, sendBuff.buff
      requires Valid()
      ensures c.Valid()
    {
      Client(recvBuff.Abs(), sendBuff.Abs(), isPostRecv, isPostSend, rop, sop, stored, delivered, pushed, sent)
    }

    constructor (sendSize: nat, recvSize: nat)
      ensures Valid() && Abs() == Fresh(recvBuff.buff[..], sendBuff.buff[..])
      ensures recvBuff.buff.Length == recvSize && sendBuff.buff.Length == sendSize
    {
      recvBuff := new CellBuffer(recvSize);
      sendBuff := new CellBuffer(sendSize);
      isPostRecv, isPostSend, rop, sop := false, false, None, None;
      stored, delivered, pushed, sent := [], [], [], [];
    }

    method PostRecvNow()
      requires Valid()
      modifies this
      ensures Valid() && Abs() == PostRecv(old(Abs()))
    {
      if isPostRecv {
        return;
      }
      isPostRecv := true;
      var io := recvBuff.MakeRecvIoData();
      if io.Some? {
        rop := Some(RecvOp(io.value, []));
      }
    }

    method PostSendNow()
      requires Valid()
      modifies this
      ensures Valid() && Abs() == PostSend(old(Abs()))
    {
      if isPostSend {
        return;
      }
      isPostSend := true;
      var io := sendBuff.MakeSendIoData();
      if io.Some? {
        sop := Some(SendOp(io.value.len, sendBuff.buff[..io.value.len]));
      }
    }

    /** DoNetEvent's loop body. */
    method PostAll()
      requires Valid()
      modifies this
      ensures Valid() && Abs() == Post(old(Abs()))
      ensures isPostRecv && (sendBuff.nLast > 0 ==> isPostSend)
      ensures sendBuff.nLast > 0 && !old(isPostSend) ==>
                sop == Some(SendOp(sendBuff.nLast, sendBuff.buff[..sendBuff.nLast]))
    {
      if sendBuff.nLast > 0 {
        PostSendNow();
        PostRecvNow();
      } else {
        PostRecvNow();
      }
    }

    /** The kernel's store, for which the client runs no code. */
    method KernelStores(bytes: seq<Byte>)
      requires Valid() && CanStore(Abs(), bytes)
      modifies this, recvBuff.buff
      ensures Valid() && Abs() == Store(old(Abs()), bytes)
    {
      var op := rop.value;
      CopyIn(recvBuff.buff, op.io.offset + |op.arrived|, bytes);
      rop := Some(op.(arrived := op.arrived + bytes));
      stored := stored + bytes;
    }

    method Recv4Iocp()
      requires Valid() && rop.Some?
      modifies this, recvBuff
      ensures Valid() && Abs() == RecvDone(old(Abs()))
    {
      var n := |rop.value.arrived|;
      rop := None;
      if !isPostRecv {
        return;
      }
      isPostRecv := false;
      var _ := recvBuff.ReadFromIocp(n);
    }

    method Send2Iocp(n: nat)
      requires Valid() && sop.Some? && n <= |sop.value.captured|
      modifies this, sendBuff, sendBuff.buff
      ensures Valid() && Abs() == SendDone(old(Abs()), n)
    {
      sent := sent + sop.value.captured[..n];
      sop := None;
      if !isPostSend {
        return;
      }
      isPostSend := false;
      var _ := sendBuff.WriteToIocp(n);
    }

    method PushData(data: seq<Byte>) returns (ret: int)
      requires Valid()
      modifies this, sendBuff, sendBuff.buff
      ensures Valid() && Abs() == SendData(old(Abs()), data)
      ensures ret != SOCKET_ERROR ==> sendBuff.Abs().Contents() == old(sendBuff.Abs()).Contents() + data
      ensures ret == SOCKET_ERROR ==> Abs() == old(Abs())
      ensures pushed == if ret == SOCKET_ERROR then old(pushed) else old(pushed) + data
      ensures ret == if old(sendBuff.nLast) + |data| <= sendBuff.buff.Length then |data| else SOCKET_ERROR
    {
      var ok := sendBuff.Push(data);
      if ok {
        pushed := pushed + data;
        return |data|;
      }
      return SOCKET_ERROR;
    }

    /** One round of DoMsg. */
    method TakeMsg() returns (had: bool)
      requires Valid()
      modifies this, recvBuff, recvBuff.buff
      ensures Valid() && had == HasMsg(old(Abs()).rbuf.Contents())
      ensures Abs() == if had then Take(old(Abs())) else old(Abs())
    {
      had := recvBuff.CheckMsg();
      if had {
        ghost var b := recvBuff.Abs().Contents();
        var n := recvBuff.buff[0] as int + 256 * recvBuff.buff[1] as int;
        delivered := delivered + [b[..n]];
        recvBuff.Pop(n);
      }
    }
  }
}
