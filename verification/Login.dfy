/** The test protocol run over two Links: numbered logins one way, numbered results back,
    and the client's stop-and-wait mode. */
module Login {
  import opened Basics
  import opened Bytes
  import opened Framing
  import opened CellBuffers
  import T = Transport

  const CMD_LOGIN: nat := 0
  const CMD_LOGIN_RESULT: nat := 1
  const SIZE: nat := 100  // sizeof(netmsg_Login) == sizeof(netmsg_LoginR)

  type Word = w: nat | w < 0x1_0000_0000

  /** `++` on the 32-bit counters. */
  function Bump(w: Word): Word {
    if w == 0xFFFF_FFFF then 0 else w + 1
  }

  /** A counter that started at 0 and was bumped `n` times. */
  function Counter(n: nat): Word {
    if n == 0 then 0 else Bump(Counter(n - 1))
  }

  lemma {:induction false} CounterWraps(n: nat)
    ensures Counter(n) == n % 0x1_0000_0000
  {
    if n > 0 {
      CounterWraps(n - 1);
    }
  }

  /** Both structures are 4 header bytes, 92 bytes of payload and the message id. */
  function Encode(cmd: nat, payload: seq<Byte>, id: Word): (m: seq<Byte>)
    requires |payload| == 92 && cmd < 0x1_0000
    ensures |m| == SIZE && Framed(m)
  {
    ToLE(SIZE, 2) + ToLE(cmd, 2) + payload + ToLE(id, 4)
  }

  function Cmd(m: seq<Byte>): nat
    requires |m| >= HEADER
  {
    FromLE(m[2..4])
  }

  function MsgId(m: seq<Byte>): Word
    requires |m| >= SIZE
  {
    FromLEBound(m[96..100]);
    assert Pow256(4) == 0x1_0000_0000;
    FromLE(m[96..100])
  }

  /** The id the handlers read from `m`; for a message shorter than the structure, `stray`
      is whatever follows it in the buffer. */
  function IdOf(m: seq<Byte>, stray: Word): Word {
    if |m| >= SIZE then MsgId(m) else stray
  }

  lemma Decodes(cmd: nat, payload: seq<Byte>, id: Word)
    requires |payload| == 92 && cmd < 0x1_0000
    ensures var m := Encode(cmd, payload, id); Cmd(m) == cmd && MsgId(m) == id
  {
    var m := Encode(cmd, payload, id);
    assert m[2..4] == ToLE(cmd, 2) && m[96..100] == ToLE(id, 4);
    assert Pow256(2) == 0x1_0000 && Pow256(4) == 0x1_0000_0000;
    FromToLE(cmd, 2);
    FromToLE(id, 4);
  }

  /** MyClient's counters. */
  datatype Client = Client(recvId: Word, sendId: Word, count: int, waiting: bool, rest: int)

  /** The counters the server keeps in its CellClient. */
  datatype Peer = Peer(recvId: Word, sendId: Word)

  datatype Config = Config(checkSendBack: bool, nMsg: nat, sleep: nat)

  /** MyClient::SendTest; the flag says the push failed.  When the client is not connected,
      EasyTcpClient::SendData returns 0 without a push, which counts as sent. */
  function SendTest(cfg: Config, c: Client, up: T.State, payload: seq<Byte>, connected: bool): (Client, T.State, bool)
    requires |payload| == 92
  {
    if c.count > 0 && !c.waiting then
      var e := T.Push(Encode(CMD_LOGIN, payload, c.sendId));
      if connected && !T.Enabled(up, e) then (c, up, true)
      else
        (c.(waiting := cfg.checkSendBack, sendId := Bump(c.sendId), count := c.count - 1),
         if connected then T.Step(up, e) else up, false)
    else (c, up, false)
  }

  /** MyClient::OnNetMsg with -checkMsgID; the flag says the mismatch branch was taken. */
  function ClientOnMsg(c: Client, m: seq<Byte>, stray: Word): (Client, bool)
    requires |m| >= HEADER
  {
    if Cmd(m) == CMD_LOGIN_RESULT then
      (c.(waiting := false, recvId := Bump(c.recvId)), IdOf(m, stray) != c.recvId)
    else (c.(waiting := false), false)
  }

  /** MyServer::OnNetMsg, the CMD_LOGIN case, with -checkMsgID and -sendback.  The flags
      say the mismatch branch was taken and the reply was dropped. */
  function ServerOnMsg(p: Peer, down: T.State, m: seq<Byte>, payload: seq<Byte>, stray: Word): (Peer, T.State, bool, bool)
    requires |m| >= HEADER && |payload| == 92
  {
    if Cmd(m) == CMD_LOGIN then
      var e := T.Push(Encode(CMD_LOGIN_RESULT, payload, p.sendId));
      var q := p.(recvId := Bump(p.recvId));
      var bad := IdOf(m, stray) != p.recvId;
      if T.Enabled(down, e) then (q.(sendId := Bump(q.sendId)), T.Step(down, e), bad, false)
      else (q, down, bad, true)
    else (p, down, false, false)
  }

  /** SendTest counts a login that went nowhere exactly when the client is not connected. */
  lemma DisconnectedSendCounts(cfg: Config, c: Client, up: T.State, payload: seq<Byte>, connected: bool)
    requires |payload| == 92
    ensures var (d, u, failed) := SendTest(cfg, c, up, payload, connected);
            (d.sendId != c.sendId && u.accepted == up.accepted) <==> (c.count > 0 && !c.waiting && !connected)
  {
    var e := T.Push(Encode(CMD_LOGIN, payload, c.sendId));
    assert Bump(c.sendId) != c.sendId;
    if T.Enabled(up, e) {
      assert |T.Step(up, e).accepted| == |up.accepted| + 1;
    }
  }

  /** MyClient::checkSend. */
  function CheckSend(cfg: Config, c: Client, dt: nat): Client {
    var rest := c.rest + dt;
    if rest >= cfg.sleep then c.(rest := rest - cfg.sleep, count := cfg.nMsg) else c.(rest := rest)
  }

  /** A refill sets the count to nMsg, whatever was left, as soon as the interval is over. */
  lemma Refill(cfg: Config, c: Client, dt: nat)
    ensures var d := CheckSend(cfg, c, dt);
            && (c.rest + dt >= cfg.sleep ==> d.count == cfg.nMsg && d.rest == c.rest + dt - cfg.sleep)
            && (c.rest + dt < cfg.sleep ==> d.count == c.count && d.rest == c.rest + dt)
            && d == c.(count := d.count, rest := d.rest)
  {
  }

  /** Only logins move the server's numbers and its link back, only results the client's;
      and every number that does not match is noticed. */
  lemma OnlyLoginsCount(c: Client, p: Peer, down: T.State, m: seq<Byte>, payload: seq<Byte>, stray: Word)
    requires |m| >= HEADER && |payload| == 92
    ensures var (q, d, bad, dropped) := ServerOnMsg(p, down, m, payload, stray);
            && (Cmd(m) != CMD_LOGIN ==> q == p && d == down && !bad && !dropped)
            && (Cmd(m) == CMD_LOGIN ==> q.recvId == Bump(p.recvId) && (bad <==> IdOf(m, stray) != p.recvId))
            && (Cmd(m) == CMD_LOGIN ==> (dropped <==> |down.send| + SIZE > down.sendCap))
    ensures var (d, bad) := ClientOnMsg(c, m, stray);
            && d.count == c.count && d.sendId == c.sendId && d.rest == c.rest && !d.waiting
            && (Cmd(m) != CMD_LOGIN_RESULT ==> d.recvId == c.recvId && !bad)
            && (Cmd(m) == CMD_LOGIN_RESULT ==> d.recvId == Bump(c.recvId) && (bad <==> IdOf(m, stray) != c.recvId))
  {
    T.PushAcceptedIff(down, Encode(CMD_LOGIN_RESULT, payload, p.sendId));
  }

  // ---- the objects ----

  class MyClient {
    const cfg: Config
    var nRecvMsgID: Word
    var nSendMsgID: Word
    var nSendCount: int
    var bSend: bool
    var tRestTime: int

    ghost function Abs(): Client
      reads this
    {
      Client(nRecvMsgID, nSendMsgID, nSendCount, bSend, tRestTime)
    }

    constructor (cfg: Config, rest: nat)
      ensures Abs() == Client(1, 1, 0, false, rest) && this.cfg == cfg
    {
      this.cfg := cfg;
      nRecvMsgID, nSendMsgID, nSendCount, bSend, tRestTime := 1, 1, 0, false, rest;
    }

    method Send(up: T.Link, payload: seq<Byte>, connected: bool) returns (ret: int)
      requires up.Valid() && |payload| == 92
      modifies this, up, up.sendBuff, up.sendBuff.buff
      ensures up.Valid()
      ensures var (c, u, failed) := SendTest(cfg, old(Abs()), old(up.Abs()), payload, connected);
              Abs() == c && up.Abs() == u && failed == (ret == SOCKET_ERROR)
      ensures ret > 0 <==> |up.Abs().accepted| > |old(up.Abs()).accepted|
      ensures var due := old(nSendCount) > 0 && !old(bSend);
              var fits := old(up.sendBuff.nLast) + SIZE <= up.sendBuff.buff.Length;
              var counted := due && (!connected || fits);
              && ret == (if !due || !connected then 0 else if fits then SIZE else SOCKET_ERROR)
              && up.accepted == (if due && connected && fits
                                 then old(up.accepted) + [Encode(CMD_LOGIN, payload, old(nSendMsgID))] else old(up.accepted))
              && bSend == (if counted then cfg.checkSendBack else old(bSend))
              && nSendMsgID == (if counted then Bump(old(nSendMsgID)) else old(nSendMsgID))
              && nSendCount == (if counted then old(nSendCount) - 1 else old(nSendCount))
      ensures nRecvMsgID == old(nRecvMsgID) && tRestTime == old(tRestTime)
    {
      ret := 0;
      if nSendCount > 0 && !bSend {
        var login := Encode(CMD_LOGIN, payload, nSendMsgID);
        if connected {
          ret := up.SendData(login);
        }
        if ret != SOCKET_ERROR {
          bSend := cfg.checkSendBack;
          nSendMsgID := Bump(nSendMsgID);
          nSendCount := nSendCount - 1;
        }
      }
    }

    method OnNetMsg(m: seq<Byte>, stray: Word) returns (mismatch: bool)
      requires |m| >= HEADER
      modifies this
      ensures (Abs(), mismatch) == ClientOnMsg(old(Abs()), m, stray)
      ensures !bSend && nSendMsgID == old(nSendMsgID) && nSendCount == old(nSendCount) && tRestTime == old(tRestTime)
      ensures mismatch <==> Cmd(m) == CMD_LOGIN_RESULT && IdOf(m, stray) != old(nRecvMsgID)
      ensures nRecvMsgID == if Cmd(m) == CMD_LOGIN_RESULT then Bump(old(nRecvMsgID)) else old(nRecvMsgID)
    {
      mismatch := false;
      bSend := false;
      if Cmd(m) == CMD_LOGIN_RESULT {
        mismatch := IdOf(m, stray) != nRecvMsgID;
        nRecvMsgID := Bump(nRecvMsgID);
      }
    }

    method CheckSendTime(dt: nat) returns (due: bool)
      modifies this
      ensures Abs() == CheckSend(cfg, old(Abs()), dt)
      ensures nSendCount == if old(tRestTime) + dt >= cfg.sleep then cfg.nMsg else old(nSendCount)
      ensures tRestTime == old(tRestTime) + dt - (if old(tRestTime) + dt >= cfg.sleep then cfg.sleep else 0)
      ensures due == (nSendCount > 0)
    {
      tRestTime := tRestTime + dt;
      if tRestTime >= cfg.sleep {
        tRestTime := tRestTime - cfg.sleep;
        nSendCount := cfg.nMsg;
      }
      due := nSendCount > 0;
    }
  }

  class ServerPeer {
    var nRecvMsgID: Word
    var nSendMsgID: Word

    constructor ()
      ensures nRecvMsgID == 1 && nSendMsgID == 1
    {
      nRecvMsgID, nSendMsgID := 1, 1;
    }

    method OnNetMsg(m: seq<Byte>, down: T.Link, payload: seq<Byte>, stray: Word) returns (mismatch: bool, dropped: bool)
      requires |m| >= HEADER && |payload| == 92 && down.Valid()
      modifies this, down, down.sendBuff, down.sendBuff.buff
      ensures down.Valid()
      ensures (Peer(nRecvMsgID, nSendMsgID), down.Abs(), mismatch, dropped) ==
              ServerOnMsg(old(Peer(nRecvMsgID, nSendMsgID)), old(down.Abs()), m, payload, stray)
      ensures var login := Cmd(m) == CMD_LOGIN;
              var fits := old(down.sendBuff.nLast) + SIZE <= down.sendBuff.buff.Length;
              && (mismatch <==> login && IdOf(m, stray) != old(nRecvMsgID)) && (dropped <==> login && !fits)
              && nRecvMsgID == (if login then Bump(old(nRecvMsgID)) else old(nRecvMsgID))
              && nSendMsgID == (if login && fits then Bump(old(nSendMsgID)) else old(nSendMsgID))
              && down.accepted == (if login && fits
                                   then old(down.accepted) + [Encode(CMD_LOGIN_RESULT, payload, old(nSendMsgID))]
                                   else old(down.accepted))
    {
      mismatch, dropped := false, false;
      if Cmd(m) == CMD_LOGIN {
        mismatch := IdOf(m, stray) != nRecvMsgID;
        nRecvMsgID := Bump(nRecvMsgID);
        var reply := Encode(CMD_LOGIN_RESULT, payload, nSendMsgID);
        var ret := down.SendData(reply);
        if ret == SOCKET_ERROR {
          dropped := true;
        } else {
          nSendMsgID := Bump(nSendMsgID);
        }
      }
    }
  }

  // ---- runs ----

  datatype State = State(
    up: T.State, down: T.State, client: Client, peer: Peer,
    mismatch: bool,   // either mismatch branch was ever taken
    pushFailed: bool, // either side's push ever failed
    refills: nat, elapsed: nat)

  datatype Event =
    | Send(payload: seq<Byte>)    // SendTest
    | UpMove(e: T.Event)          // transfer events of the client-to-server link
    | DownMove(e: T.Event)
    | ServerMsg(reply: seq<Byte>, stray: Word) // one round of the server's DoMsg
    | ClientMsg(stray: Word)      // one round of the client's DoMsg
    | Tick(dt: nat)               // checkSend

  predicate Legal(e: Event) {
    match e
    case Send(p) => |p| == 92
    case ServerMsg(p, _) => |p| == 92
    case UpMove(t) => t.Flush? || t.Receive?
    case DownMove(t) => t.Flush? || t.Receive?
    case _ => true
  }

  predicate AllLegal(es: seq<Event>) {
    forall i :: 0 <= i < |es| ==> Legal(es[i])
  }

  predicate NoSends(es: seq<Event>) {
    forall i :: 0 <= i < |es| ==> !es[i].Send?
  }

  function Init(upSend: nat, upRecv: nat, downSend: nat, downRecv: nat, rest: nat): State {
    State(T.Init(upSend, upRecv), T.Init(downSend, downRecv),
          Client(1, 1, 0, false, rest), Peer(1, 1), false, false, 0, 0)
  }

  function Front(link: T.State): (m: seq<Byte>)
    requires HasMsg(link.recv)
  {
    link.recv[..DataLength(link.recv)]
  }

  /** The server's handler on a message. */
  function Served(s: State, m: seq<Byte>, p: seq<Byte>, stray: Word): State
    requires |m| >= HEADER && |p| == 92
  {
    var (q, down, bad, dropped) := ServerOnMsg(s.peer, s.down, m, p, stray);
    s.(peer := q, down := down, mismatch := s.mismatch || bad, pushFailed := s.pushFailed || dropped)
  }

  /** The client's handler on a message. */
  function Received(s: State, m: seq<Byte>, stray: Word): State
    requires |m| >= HEADER
  {
    var (c, bad) := ClientOnMsg(s.client, m, stray);
    s.(client := c, mismatch := s.mismatch || bad)
  }

  /** A round of a message loop is the handler and then pop_front_msg. */
  function Step(cfg: Config, s: State, e: Event): State
    requires Legal(e)
  {
    match e
    case Send(p) =>
      var (c, up, failed) := SendTest(cfg, s.client, s.up, p, true);
      s.(client := c, up := up, pushFailed := s.pushFailed || failed)
    case UpMove(t) => s.(up := T.Step(s.up, t))
    case DownMove(t) => s.(down := T.Step(s.down, t))
    case ServerMsg(p, x) =>
      if HasMsg(s.up.recv) && DataLength(s.up.recv) >= HEADER then
        Served(s, Front(s.up), p, x).(up := T.Step(s.up, T.Deliver))
      else s
    case ClientMsg(x) =>
      if HasMsg(s.down.recv) && DataLength(s.down.recv) >= HEADER then
        Received(s, Front(s.down), x).(down := T.Step(s.down, T.Deliver))
      else s
    case Tick(dt) =>
      s.(client := CheckSend(cfg, s.client, dt), elapsed := s.elapsed + dt,
         refills := if s.client.rest + dt >= cfg.sleep then s.refills + 1 else s.refills)
  }

  function Run(cfg: Config, s: State, es: seq<Event>): State
    requires AllLegal(es)
    decreases |es|
  {
    if es == [] then s else Run(cfg, Step(cfg, s, es[0]), es[1..])
  }

  lemma RunCons(cfg: Config, s: State, e: Event, es: seq<Event>)
    requires Legal(e) && AllLegal(es)
    ensures AllLegal([e] + es) && Run(cfg, s, [e] + es) == Run(cfg, Step(cfg, s, e), es)
  {
    assert ([e] + es)[1..] == es;
  }

  // ---- numbering ----

  /** The messages a link ever accepted are numbered 1, 2, 3, ... modulo 2^32. */
  ghost predicate Numbered(link: T.State, cmd: nat) {
    T.Inv(link) &&
    forall i :: 0 <= i < |link.accepted| ==> HasNumber(link.accepted[i], cmd, i + 1)
  }

  predicate HasNumber(m: seq<Byte>, cmd: nat, n: nat) {
    |m| == SIZE && Cmd(m) == cmd && MsgId(m) == Counter(n)
  }

  ghost predicate NumInv(s: State) {
    && Numbered(s.up, CMD_LOGIN) && Numbered(s.down, CMD_LOGIN_RESULT)
    && s.client.sendId == Counter(|s.up.accepted| + 1) && s.peer.recvId == Counter(|s.up.delivered| + 1)
    && s.peer.sendId == Counter(|s.down.accepted| + 1) && s.client.recvId == Counter(|s.down.delivered| + 1)
    && !s.mismatch
  }

  lemma PushNumbered(link: T.State, cmd: nat, m: seq<Byte>)
    requires Numbered(link, cmd) && Framed(m) && HasNumber(m, cmd, |link.accepted| + 1)
    requires T.Enabled(link, T.Push(m))
    ensures var t := T.Step(link, T.Push(m));
            Numbered(t, cmd) && |t.accepted| == |link.accepted| + 1 && t.delivered == link.delivered
  {
    T.PushKeepsInv(link, m);
  }

  /** The front message of a numbered link carries the number of messages delivered so
      far, plus one. */
  lemma FrontNumbered(link: T.State, cmd: nat)
    requires Numbered(link, cmd) && HasMsg(link.recv)
    ensures DataLength(link.recv) == SIZE
    ensures Cmd(Front(link)) == cmd && MsgId(Front(link)) == Counter(|link.delivered| + 1)
    ensures Numbered(T.Step(link, T.Deliver), cmd)
    ensures |T.Step(link, T.Deliver).delivered| == |link.delivered| + 1
    ensures |link.delivered| < |link.accepted|
  {
    T.FrontIsNext(link);
    T.StepKeepsInv(link, T.Deliver);
  }

  lemma MoveNumbered(link: T.State, cmd: nat, t: T.Event)
    requires Numbered(link, cmd) && (t.Flush? || t.Receive?)
    ensures Numbered(T.Step(link, t), cmd)
    ensures T.Step(link, t).accepted == link.accepted && T.Step(link, t).delivered == link.delivered
  {
    T.StepKeepsInv(link, t);
  }

  lemma SendKeepsNumbers(cfg: Config, s: State, p: seq<Byte>)
    requires NumInv(s) && |p| == 92
    ensures NumInv(Step(cfg, s, Send(p)))
  {
    var m := Encode(CMD_LOGIN, p, s.client.sendId);
    if T.Enabled(s.up, T.Push(m)) {
      Decodes(CMD_LOGIN, p, s.client.sendId);
      PushNumbered(s.up, CMD_LOGIN, m);
    }
  }

  /** What one round of the server's message loop does when a login leads the buffer. */
  lemma ServerStep(cfg: Config, s: State, p: seq<Byte>, x: Word)
    requires HasMsg(s.up.recv) && DataLength(s.up.recv) == SIZE && Cmd(Front(s.up)) == CMD_LOGIN && |p| == 92
    ensures var t, e := Step(cfg, s, ServerMsg(p, x)), T.Push(Encode(CMD_LOGIN_RESULT, p, s.peer.sendId));
            var ok := T.Enabled(s.down, e);
            && t.client == s.client && t.up == T.Step(s.up, T.Deliver) && t.down == T.Step(s.down, e)
            && t.peer == Peer(Bump(s.peer.recvId), if ok then Bump(s.peer.sendId) else s.peer.sendId)
            && t.mismatch == (s.mismatch || MsgId(Front(s.up)) != s.peer.recvId)
            && t.pushFailed == (s.pushFailed || !ok)
  {
  }

  /** A reply is numbered correctly whether or not it is dropped. */
  lemma ReplyNumbered(link: T.State, p: seq<Byte>, id: Word)
    requires Numbered(link, CMD_LOGIN_RESULT) && id == Counter(|link.accepted| + 1) && |p| == 92
    ensures var e := T.Push(Encode(CMD_LOGIN_RESULT, p, id));
            var t, ok := T.Step(link, e), T.Enabled(link, e);
            && Numbered(t, CMD_LOGIN_RESULT) && t.delivered == link.delivered
            && |t.accepted| == |link.accepted| + (if ok then 1 else 0)
  {
    var m := Encode(CMD_LOGIN_RESULT, p, id);
    if T.Enabled(link, T.Push(m)) {
      Decodes(CMD_LOGIN_RESULT, p, id);
      PushNumbered(link, CMD_LOGIN_RESULT, m);
    }
  }

  /** Numbers after a login was handled and `k` replies, 0 or 1, were accepted. */
  lemma NumbersFollow(s: State, t: State, k: nat)
    requires NumInv(s) && Numbered(t.up, CMD_LOGIN) && Numbered(t.down, CMD_LOGIN_RESULT) && !t.mismatch && k <= 1
    requires t.client == s.client && |t.up.accepted| == |s.up.accepted| && |t.down.delivered| == |s.down.delivered|
    requires |t.up.delivered| == |s.up.delivered| + 1 && t.peer.recvId == Bump(s.peer.recvId)
    requires |t.down.accepted| == |s.down.accepted| + k && t.peer.sendId == if k == 1 then Bump(s.peer.sendId) else s.peer.sendId
    ensures NumInv(t)
  {
  }

  lemma ServerKeepsNumbers(cfg: Config, s: State, p: seq<Byte>, x: Word)
    requires NumInv(s) && |p| == 92
    ensures NumInv(Step(cfg, s, ServerMsg(p, x)))
  {
    if HasMsg(s.up.recv) {
      FrontNumbered(s.up, CMD_LOGIN);
      ReplyNumbered(s.down, p, s.peer.sendId);
      ServerStep(cfg, s, p, x);
      var t := Step(cfg, s, ServerMsg(p, x));
      NumbersFollow(s, t, |t.down.accepted| - |s.down.accepted|);
    }
  }

  lemma ClientStep(cfg: Config, s: State, x: Word)
    requires HasMsg(s.down.recv) && DataLength(s.down.recv) == SIZE && Cmd(Front(s.down)) == CMD_LOGIN_RESULT
    ensures var t := Step(cfg, s, ClientMsg(x));
            && t.up == s.up && t.down == T.Step(s.down, T.Deliver) && t.peer == s.peer
            && t.client == s.client.(waiting := false, recvId := Bump(s.client.recvId))
            && t.mismatch == (s.mismatch || MsgId(Front(s.down)) != s.client.recvId)
            && t.pushFailed == s.pushFailed
  {
  }

  lemma ClientKeepsNumbers(cfg: Config, s: State, x: Word)
    requires NumInv(s)
    ensures NumInv(Step(cfg, s, ClientMsg(x)))
  {
    if HasMsg(s.down.recv) {
      FrontNumbered(s.down, CMD_LOGIN_RESULT);
      ClientStep(cfg, s, x);
    }
  }

  lemma StepKeepsNumbers(cfg: Config, s: State, e: Event)
    requires NumInv(s) && Legal(e)
    ensures NumInv(Step(cfg, s, e))
  {
    match e
    case Send(p) => SendKeepsNumbers(cfg, s, p);
    case UpMove(t) => MoveNumbered(s.up, CMD_LOGIN, t);
    case DownMove(t) => MoveNumbered(s.down, CMD_LOGIN_RESULT, t);
    case ServerMsg(p, x) => ServerKeepsNumbers(cfg, s, p, x);
    case ClientMsg(x) => ClientKeepsNumbers(cfg, s, x);
    case Tick(_) =>
  }

  lemma {:induction false} RunKeepsNumbers(cfg: Config, s: State, es: seq<Event>)
    requires NumInv(s) && AllLegal(es)
    ensures NumInv(Run(cfg, s, es))
    decreases |es|
  {
    if es != [] {
      StepKeepsNumbers(cfg, s, es[0]);
      RunKeepsNumbers(cfg, Step(cfg, s, es[0]), es[1..]);
    }
  }

  /** Whatever is dropped for lack of buffer space on either side, and however the bytes
      are cut up, neither mismatch branch is ever reached. */
  lemma NoMismatch(cfg: Config, upSend: nat, upRecv: nat, downSend: nat, downRecv: nat, rest: nat, es: seq<Event>)
    requires AllLegal(es)
    ensures !Run(cfg, Init(upSend, upRecv, downSend, downRecv, rest), es).mismatch
  {
    RunKeepsNumbers(cfg, Init(upSend, upRecv, downSend, downRecv, rest), es);
  }

  // ---- stop and wait ----

  function InTransit(s: State): int {
    |s.up.accepted| - |s.up.delivered| + |s.down.accepted| - |s.down.delivered|
  }

  ghost predicate WaitInv(s: State) {
    NumInv(s) && Quota(s)
  }

  predicate Quota(s: State) {
    && s.up.sendCap >= SIZE && s.down.sendCap >= SIZE
    && !s.pushFailed
    && InTransit(s) == (if s.client.waiting then 1 else 0)
    && |s.down.accepted| == |s.up.delivered|
  }

  /** Taking the one reply in transit ends the wait. */
  lemma QuotaAfterReply(s: State, t: State)
    requires Quota(s) && |s.up.delivered| <= |s.up.accepted| && |s.down.delivered| < |s.down.accepted|
    requires t.up == s.up && t.down.sendCap == s.down.sendCap && |t.down.accepted| == |s.down.accepted|
    requires |t.down.delivered| == |s.down.delivered| + 1 && !t.client.waiting && t.pushFailed == s.pushFailed
    ensures Quota(t)
  {
  }

  /** A link with nothing undelivered holds no bytes. */
  lemma IdleEmpty(link: T.State)
    requires T.Inv(link) && |link.accepted| == |link.delivered|
    ensures link.send == [] && link.wire == [] && link.recv == []
  {
    assert link.accepted[|link.delivered|..] == [];
    assert |link.InFlight()| == 0;
  }

  lemma SendKeepsWait(cfg: Config, s: State, p: seq<Byte>)
    requires WaitInv(s) && |p| == 92 && cfg.checkSendBack
    ensures WaitInv(Step(cfg, s, Send(p)))
  {
    SendKeepsNumbers(cfg, s, p);
    if !s.client.waiting {
      IdleEmpty(s.up);
    }
  }

  /** With nothing on the way back the reply is accepted, and takes the request's place. */
  lemma QuotaAfterRequest(s: State, t: State)
    requires Quota(s) && |s.up.delivered| < |s.up.accepted| && |s.down.delivered| <= |s.down.accepted|
    requires t.up.sendCap == s.up.sendCap && |t.up.accepted| == |s.up.accepted| && |t.up.delivered| == |s.up.delivered| + 1
    requires t.down.sendCap == s.down.sendCap && |t.down.accepted| == |s.down.accepted| + 1
    requires |t.down.delivered| == |s.down.delivered| && t.client == s.client && t.pushFailed == s.pushFailed
    ensures Quota(t)
  {
  }

  lemma ReplyFits(s: State, p: seq<Byte>)
    requires WaitInv(s) && HasMsg(s.up.recv) && |p| == 92
    ensures T.Enabled(s.down, T.Push(Encode(CMD_LOGIN_RESULT, p, s.peer.sendId)))
    ensures |s.down.delivered| == |s.down.accepted|
  {
    FrontNumbered(s.up, CMD_LOGIN);
    IdleEmpty(s.down);
  }

  lemma ServerKeepsWait(cfg: Config, s: State, p: seq<Byte>, x: Word)
    requires WaitInv(s) && |p| == 92
    ensures WaitInv(Step(cfg, s, ServerMsg(p, x)))
  {
    ServerKeepsNumbers(cfg, s, p, x);
    if HasMsg(s.up.recv) {
      FrontNumbered(s.up, CMD_LOGIN);
      ReplyFits(s, p);
      ServerStep(cfg, s, p, x);
      ReplyNumbered(s.down, p, s.peer.sendId);
      QuotaAfterRequest(s, Step(cfg, s, ServerMsg(p, x)));
    }
  }

  lemma ClientKeepsWait(cfg: Config, s: State, x: Word)
    requires WaitInv(s)
    ensures WaitInv(Step(cfg, s, ClientMsg(x)))
  {
    ClientKeepsNumbers(cfg, s, x);
    if HasMsg(s.down.recv) {
      FrontNumbered(s.down, CMD_LOGIN_RESULT);
      ClientStep(cfg, s, x);
      QuotaAfterReply(s, Step(cfg, s, ClientMsg(x)));
    }
  }

  lemma MoveKeepsWait(cfg: Config, s: State, e: Event)
    requires WaitInv(s) && Legal(e) && (e.UpMove? || e.DownMove?)
    ensures WaitInv(Step(cfg, s, e))
  {
    var t := Step(cfg, s, e);
    if e.UpMove? {
      MoveNumbered(s.up, CMD_LOGIN, e.e);
      assert t == s.(up := t.up);
    } else {
      MoveNumbered(s.down, CMD_LOGIN_RESULT, e.e);
      assert t == s.(down := t.down);
    }
  }

  lemma StepKeepsWait(cfg: Config, s: State, e: Event)
    requires WaitInv(s) && Legal(e) && cfg.checkSendBack
    ensures WaitInv(Step(cfg, s, e))
  {
    match e
    case Send(p) => SendKeepsWait(cfg, s, p);
    case UpMove(_) => MoveKeepsWait(cfg, s, e);
    case DownMove(_) => MoveKeepsWait(cfg, s, e);
    case ServerMsg(p, x) => ServerKeepsWait(cfg, s, p, x);
    case ClientMsg(x) => ClientKeepsWait(cfg, s, x);
    case Tick(_) =>
  }

  lemma {:induction false} RunKeepsWait(cfg: Config, s: State, es: seq<Event>)
    requires WaitInv(s) && AllLegal(es) && cfg.checkSendBack
    ensures WaitInv(Run(cfg, s, es))
    decreases |es|
  {
    if es != [] {
      StepKeepsWait(cfg, s, es[0]);
      RunKeepsWait(cfg, Step(cfg, s, es[0]), es[1..]);
    }
  }

  /** In stop-and-wait mode `_bSend` holds exactly while one request or reply is somewhere
      between the two handlers, there is never more than one, and no push ever fails. */
  lemma StopAndWait(cfg: Config, upSend: nat, upRecv: nat, downSend: nat, downRecv: nat, rest: nat, es: seq<Event>)
    requires AllLegal(es) && cfg.checkSendBack && upSend >= SIZE && downSend >= SIZE
    ensures var s := Run(cfg, Init(upSend, upRecv, downSend, downRecv, rest), es);
            && 0 <= InTransit(s) <= 1
            && (s.client.waiting <==> InTransit(s) == 1)
            && (InTransit(s) == 0 ==> s.up.InFlight() == [] && s.down.InFlight() == [])
            && !s.pushFailed
  {
    var s0 := Init(upSend, upRecv, downSend, downRecv, rest);
    RunKeepsWait(cfg, s0, es);
    var s := Run(cfg, s0, es);
    if InTransit(s) == 0 {
      IdleEmpty(s.up);
      IdleEmpty(s.down);
    }
  }

  /** While a message is in transit, some event other than a send brings it closer. */
  lemma Advance(cfg: Config, s: State) returns (e: Event, t: State)
    requires WaitInv(s) && s.client.waiting && cfg.checkSendBack
    requires s.up.recvCap >= SIZE && s.down.recvCap >= SIZE
    ensures Legal(e) && !e.Send? && t == Step(cfg, s, e)
    ensures t.up.recvCap == s.up.recvCap && t.down.recvCap == s.down.recvCap
    ensures |t.up.accepted| == |s.up.accepted|
    ensures |t.up.delivered| > |s.up.delivered| ||
            (|t.up.delivered| == |s.up.delivered| && T.Work(t.up) + T.Work(t.down) < T.Work(s.up) + T.Work(s.down))
  {
    if |s.up.delivered| < |s.up.accepted| {
      T.NextEnabled(s.up);
      if HasMsg(s.up.recv) {
        FrontNumbered(s.up, CMD_LOGIN);
        e := ServerMsg(seq(92, _ => 0), 0);
      } else {
        e := UpMove(T.Next(s.up));
      }
    } else {
      T.NextEnabled(s.down);
      if HasMsg(s.down.recv) {
        FrontNumbered(s.down, CMD_LOGIN_RESULT);
        e := ClientMsg(0);
      } else {
        e := DownMove(T.Next(s.down));
      }
    }
    t := Step(cfg, s, e);
  }

  /** A schedule that completes the round trip in progress. */
  lemma {:induction false} Complete(cfg: Config, s: State) returns (es: seq<Event>)
    requires WaitInv(s) && cfg.checkSendBack
    requires s.up.recvCap >= SIZE && s.down.recvCap >= SIZE
    ensures AllLegal(es) && NoSends(es)
    ensures !Run(cfg, s, es).client.waiting
    decreases |s.up.accepted| - |s.up.delivered|, T.Work(s.up) + T.Work(s.down)
  {
    if !s.client.waiting {
      es := [];
    } else {
      var e, t := Advance(cfg, s);
      StepKeepsWait(cfg, s, e);
      var fs := Complete(cfg, t);
      RunCons(cfg, s, e, fs);
      es := [e] + fs;
    }
  }

  /** A client that is not waiting and has sends left sends, when a login fits. */
  lemma SendAccepted(cfg: Config, s: State, p: seq<Byte>)
    requires |p| == 92 && s.client.count > 0 && !s.client.waiting && |s.up.send| + SIZE <= s.up.sendCap
    ensures var t := Step(cfg, s, Send(p));
            && t.up.accepted == s.up.accepted + [Encode(CMD_LOGIN, p, s.client.sendId)]
            && t.client == s.client.(waiting := cfg.checkSendBack, sendId := Bump(s.client.sendId), count := s.client.count - 1)
  {
    T.PushAcceptedIff(s.up, Encode(CMD_LOGIN, p, s.client.sendId));
  }

  /** From `t` the client sends again: at once if it has sends left, and at the latest when
      its interval is over. */
  ghost predicate SendsAgain(cfg: Config, t: State) {
    && !t.client.waiting
    && (forall p: seq<Byte> | |p| == 92 && t.client.count > 0 ::
          |Step(cfg, t, Send(p)).up.accepted| == |t.up.accepted| + 1)
    && (cfg.nMsg > 0 ==> forall p: seq<Byte> | |p| == 92 ::
          |Step(cfg, Step(cfg, t, Tick(cfg.sleep)), Send(p)).up.accepted| == |t.up.accepted| + 1)
  }

  lemma IdleSendsAgain(cfg: Config, t: State)
    requires WaitInv(t) && !t.client.waiting && t.client.rest >= 0
    ensures SendsAgain(cfg, t)
  {
    IdleEmpty(t.up);
    forall p: seq<Byte> | |p| == 92 && t.client.count > 0
      ensures |Step(cfg, t, Send(p)).up.accepted| == |t.up.accepted| + 1
    {
      SendAccepted(cfg, t, p);
    }
    if cfg.nMsg > 0 {
      var u := Step(cfg, t, Tick(cfg.sleep));
      Refill(cfg, t.client, cfg.sleep);
      forall p: seq<Byte> | |p| == 92 ensures |Step(cfg, u, Send(p)).up.accepted| == |t.up.accepted| + 1 {
        SendAccepted(cfg, u, p);
      }
    }
  }

  ghost predicate Recovers(cfg: Config, s: State, fs: seq<Event>) {
    AllLegal(fs) && NoSends(fs) && SendsAgain(cfg, Run(cfg, s, fs))
  }

  /** The pair never deadlocks: from every reachable state the outstanding round trip can
      be completed by transfers and message rounds alone, after which the client sends
      again, at the latest when its interval is over. */
  lemma NoDeadlock(cfg: Config, upSend: nat, upRecv: nat, downSend: nat, downRecv: nat, rest: nat, es: seq<Event>)
    requires AllLegal(es) && cfg.checkSendBack
    requires upSend >= SIZE && downSend >= SIZE && upRecv >= SIZE && downRecv >= SIZE
    ensures exists fs: seq<Event> :: Recovers(cfg, Run(cfg, Init(upSend, upRecv, downSend, downRecv, rest), es), fs)
  {
    var s0 := Init(upSend, upRecv, downSend, downRecv, rest);
    RunKeepsWait(cfg, s0, es);
    CapsFixed(cfg, s0, es);
    RunKeepsRate(cfg, s0, es, rest);
    var s := Run(cfg, s0, es);
    var fs := Complete(cfg, s);
    RunKeepsWait(cfg, s, fs);
    RunKeepsRate(cfg, s, fs, rest);
    IdleSendsAgain(cfg, Run(cfg, s, fs));
    assert Recovers(cfg, s, fs);
  }

  lemma {:induction false} CapsFixed(cfg: Config, s: State, es: seq<Event>)
    requires AllLegal(es)
    ensures var t := Run(cfg, s, es);
            t.up.recvCap == s.up.recvCap && t.down.recvCap == s.down.recvCap
    decreases |es|
  {
    if es != [] {
      CapsFixed(cfg, Step(cfg, s, es[0]), es[1..]);
    }
  }

  // ---- rate ----

  ghost predicate RateInv(cfg: Config, s: State, rest0: nat) {
    && 0 <= s.client.rest && s.client.rest + cfg.sleep * s.refills == rest0 + s.elapsed
    && 0 <= s.client.count && |s.up.accepted| + s.client.count <= cfg.nMsg * s.refills
  }

  lemma StepKeepsRate(cfg: Config, s: State, e: Event, rest0: nat)
    requires Legal(e) && RateInv(cfg, s, rest0)
    ensures RateInv(cfg, Step(cfg, s, e), rest0)
  {
    assert cfg.sleep * (s.refills + 1) == cfg.sleep * s.refills + cfg.sleep;
    assert cfg.nMsg * (s.refills + 1) == cfg.nMsg * s.refills + cfg.nMsg;
  }

  lemma {:induction false} RunKeepsRate(cfg: Config, s: State, es: seq<Event>, rest0: nat)
    requires AllLegal(es) && RateInv(cfg, s, rest0)
    ensures RateInv(cfg, Run(cfg, s, es), rest0)
    decreases |es|
  {
    if es != [] {
      StepKeepsRate(cfg, s, es[0], rest0);
      RunKeepsRate(cfg, Step(cfg, s, es[0]), es[1..], rest0);
    }
  }

  /** A client never puts more than nMsg logins in its buffer per nSendSleep of time. */
  lemma RateBound(cfg: Config, upSend: nat, upRecv: nat, downSend: nat, downRecv: nat, rest: nat, es: seq<Event>)
    requires AllLegal(es) && cfg.sleep > 0
    ensures var s := Run(cfg, Init(upSend, upRecv, downSend, downRecv, rest), es);
            |s.up.accepted| <= cfg.nMsg * ((rest + s.elapsed) / cfg.sleep)
  {
    var s0 := Init(upSend, upRecv, downSend, downRecv, rest);
    RunKeepsRate(cfg, s0, es, rest);
    var s := Run(cfg, s0, es);
    DivBound(s.refills, cfg.sleep, rest + s.elapsed);
    MulMono(s.refills, (rest + s.elapsed) / cfg.sleep, cfg.nMsg);
  }
}
