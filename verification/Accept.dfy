/** Accepting, placing and releasing clients: EasyTcpServer's two counters against the
    lists of its CellServers. */
module Accept {
  import opened Basics

  type Sock = nat

  /** A CellServer's `_clients` keys and `_clientsBuff`. */
  datatype Server = Server(clients: set<Sock>, buff: seq<Sock>) {
    function Load(): nat { |clients| + |buff| }

    predicate Tidy() {
      (forall i, j :: 0 <= i < j < |buff| ==> buff[i] != buff[j]) && (forall i :: 0 <= i < |buff| ==> buff[i] !in clients)
    }
  }

  datatype State = State(servers: seq<Server>, accept: int, join: int, nMax: nat)

  datatype Event =
    | Connect(sock: Sock)          // Accpet returns a socket that is not in use
    | Transfer(k: nat)             // OnRun moves `_clientsBuff` into `_clients`
    | Leave(k: nat, sock: Sock)    // OnClientLeave and the erase

  predicate InUse(ss: seq<Server>, sock: Sock) {
    exists k :: 0 <= k < |ss| && (sock in ss[k].clients || sock in ss[k].buff)
  }

  /** addClientToCellServer's search: the first server with the least load. */
  function MinServer(ss: seq<Server>): (m: nat)
    requires ss != []
    ensures m < |ss| && forall i :: 0 <= i < |ss| ==> ss[m].Load() <= ss[i].Load()
    ensures forall i :: 0 <= i < m ==> ss[m].Load() < ss[i].Load()
  {
    var n := |ss| - 1;
    if n == 0 then 0
    else
      var m := MinServer(ss[..n]);
      assert forall i :: 0 <= i < n ==> ss[..n][i] == ss[i];
      if ss[m].Load() > ss[n].Load() then n else m
  }

  lemma MinStep(ss: seq<Server>, i: nat)
    requires 0 < i < |ss|
    ensures var m := MinServer(ss[..i]); MinServer(ss[..i + 1]) == if ss[m].Load() > ss[i].Load() then i else m
  {
    assert ss[..i + 1][..i] == ss[..i];
  }

  /** `_clients` after the loop over `_clientsBuff`. */
  function Insert(clients: set<Sock>, buff: seq<Sock>): set<Sock>
    decreases |buff|
  {
    if buff == [] then clients else Insert(clients + {buff[0]}, buff[1..])
  }

  function Step(s: State, e: Event): State
    requires s.servers != []
  {
    match e
    case Connect(sock) =>
      if InUse(s.servers, sock) || s.accept >= s.nMax then s
      else
        var m := MinServer(s.servers);
        s.(accept := s.accept + 1, servers := s.servers[m := s.servers[m].(buff := s.servers[m].buff + [sock])])
    case Transfer(k) =>
      if k < |s.servers| then
        var v := s.servers[k];
        s.(join := s.join + |v.buff|, servers := s.servers[k := Server(Insert(v.clients, v.buff), [])])
      else s
    case Leave(k, sock) =>
      if k < |s.servers| && sock in s.servers[k].clients then
        var v := s.servers[k];
        s.(accept := s.accept - 1, join := s.join - 1, servers := s.servers[k := v.(clients := v.clients - {sock})])
      else s
  }

  function Run(s: State, es: seq<Event>): (t: State)
    requires s.servers != []
    ensures t.servers != []
    decreases |es|
  {
    if es == [] then s else Run(Step(s, es[0]), es[1..])
  }

  function Total(ss: seq<Server>): nat {
    if ss == [] then 0 else ss[0].Load() + Total(ss[1..])
  }

  function Joined(ss: seq<Server>): nat {
    if ss == [] then 0 else |ss[0].clients| + Joined(ss[1..])
  }

  lemma {:induction false} Replace(ss: seq<Server>, k: nat, v: Server)
    requires k < |ss|
    ensures Total(ss[k := v]) == Total(ss) - ss[k].Load() + v.Load()
    ensures Joined(ss[k := v]) == Joined(ss) - |ss[k].clients| + |v.clients|
  {
    if k == 0 {
      assert ss[k := v][1..] == ss[1..];
    } else {
      assert ss[k := v][1..] == ss[1..][k - 1 := v];
      Replace(ss[1..], k - 1, v);
    }
  }

  /** The average argument: a server with the least load has at most total / n clients. */
  lemma {:induction false} LeastTimesCount(ss: seq<Server>, least: nat)
    requires forall i :: 0 <= i < |ss| ==> least <= ss[i].Load()
    ensures least * |ss| <= Total(ss)
  {
    if ss != [] {
      LeastTimesCount(ss[1..], least);
      assert least * |ss| == least + least * (|ss| - 1);
    }
  }

  /** The largest load the placement can give a server. */
  function Ceiling(nMax: nat, n: nat): nat
    requires n > 0
  {
    if nMax == 0 then 0 else (nMax - 1) / n + 1
  }

  ghost predicate Inv(s: State) {
    && s.servers != []
    && s.accept == Total(s.servers) && s.join == Joined(s.servers)
    && 0 <= s.join <= s.accept <= s.nMax
    && forall k :: 0 <= k < |s.servers| ==>
         s.servers[k].Tidy() && s.servers[k].Load() <= Ceiling(s.nMax, |s.servers|)
  }

  lemma {:induction false} JoinedBelow(ss: seq<Server>)
    ensures Joined(ss) <= Total(ss)
  {
    if ss != [] {
      JoinedBelow(ss[1..]);
    }
  }

  predicate Least(ss: seq<Server>, m: nat) {
    m < |ss| && forall i :: 0 <= i < |ss| ==> ss[m].Load() <= ss[i].Load()
  }

  /** Below the cap a new client is counted and waits behind the others of one least-loaded
      server; otherwise nothing changes. */
  lemma ConnectPlaces(s: State, sock: Sock)
    requires s.servers != []
    ensures var t := Step(s, Connect(sock));
            if InUse(s.servers, sock) || s.accept >= s.nMax then t == s
            else
              && t.accept == s.accept + 1 && t.join == s.join && InUse(t.servers, sock)
              && exists m: nat | Least(s.servers, m) ::
                   t.servers == s.servers[m := Server(s.servers[m].clients, s.servers[m].buff + [sock])]
  {
    if !InUse(s.servers, sock) && s.accept < s.nMax {
      var m := MinServer(s.servers);
      var t := Step(s, Connect(sock));
      assert t.servers[m].buff[|s.servers[m].buff|] == sock;
      assert Least(s.servers, m);
    }
  }

  lemma {:induction false} InsertIs(clients: set<Sock>, buff: seq<Sock>)
    ensures Insert(clients, buff) == clients + set x | x in buff
    decreases |buff|
  {
    if buff != [] {
      InsertIs(clients + {buff[0]}, buff[1..]);
      assert (set x | x in buff) == {buff[0]} + set x | x in buff[1..];
    }
  }

  /** A transfer makes clients of all that wait, a leave takes exactly one away. */
  lemma TransferAndLeave(s: State, k: nat, sock: Sock)
    requires s.servers != [] && k < |s.servers|
    ensures var v := s.servers[k];
            Step(s, Transfer(k)) ==
              s.(join := s.join + |v.buff|, servers := s.servers[k := Server(v.clients + set x | x in v.buff, [])])
    ensures var v := s.servers[k];
            sock in v.clients ==>
              Step(s, Leave(k, sock)) ==
              s.(accept := s.accept - 1, join := s.join - 1, servers := s.servers[k := Server(v.clients - {sock}, v.buff)])
  {
    InsertIs(s.servers[k].clients, s.servers[k].buff);
  }

  lemma ConnectKeepsInv(s: State, sock: Sock)
    requires Inv(s) && !InUse(s.servers, sock) && s.accept < s.nMax
    ensures Inv(Step(s, Connect(sock)))
  {
    var m := MinServer(s.servers);
    var v := s.servers[m].(buff := s.servers[m].buff + [sock]);
    Replace(s.servers, m, v);
    JoinedBelow(s.servers[m := v]);
    var least, n := s.servers[m].Load(), |s.servers|;
    LeastTimesCount(s.servers, least);
    DivBound(least, n, s.nMax - 1);
    assert v.Tidy();
  }

  lemma {:induction false} InsertSize(clients: set<Sock>, buff: seq<Sock>)
    requires Server(clients, buff).Tidy()
    ensures |Insert(clients, buff)| == |clients| + |buff|
    decreases |buff|
  {
    if buff != [] {
      OneMore(clients, buff[0]);
      InsertSize(clients + {buff[0]}, buff[1..]);
    }
  }

  lemma TransferKeepsInv(s: State, k: nat)
    requires Inv(s) && k < |s.servers|
    ensures Inv(Step(s, Transfer(k)))
  {
    var v := s.servers[k];
    InsertSize(v.clients, v.buff);
    var w := Server(Insert(v.clients, v.buff), []);
    Replace(s.servers, k, w);
    JoinedBelow(s.servers[k := w]);
  }

  lemma LeaveKeepsInv(s: State, k: nat, sock: Sock)
    requires Inv(s) && k < |s.servers| && sock in s.servers[k].clients
    ensures Inv(Step(s, Leave(k, sock)))
  {
    var v := s.servers[k];
    var w := v.(clients := v.clients - {sock});
    Replace(s.servers, k, w);
    JoinedBelow(s.servers[k := w]);
  }

  lemma StepKeepsInv(s: State, e: Event)
    requires Inv(s)
    ensures Inv(Step(s, e))
  {
    match e
    case Connect(sock) => if !InUse(s.servers, sock) && s.accept < s.nMax { ConnectKeepsInv(s, sock); }
    case Transfer(k) => if k < |s.servers| { TransferKeepsInv(s, k); }
    case Leave(k, sock) => if k < |s.servers| && sock in s.servers[k].clients { LeaveKeepsInv(s, k, sock); }
  }

  lemma {:induction false} RunKeepsInv(s: State, es: seq<Event>)
    requires Inv(s)
    ensures Inv(Run(s, es))
    decreases |es|
  {
    if es != [] {
      StepKeepsInv(s, es[0]);
      RunKeepsInv(Step(s, es[0]), es[1..]);
    }
  }

  /** What Start passes to setClientNum. */
  function Capacity(nMax: nat, n: nat): nat
    requires n > 0
  {
    nMax / n + 1
  }

  ghost predicate Started(s: State) {
    s.servers != [] && s.accept == s.join == 0 &&
    forall k :: 0 <= k < |s.servers| ==> |s.servers[k].clients| == 0 && s.servers[k].buff == []
  }

  lemma {:induction false} EmptyTotals(ss: seq<Server>)
    requires forall k :: 0 <= k < |ss| ==> |ss[k].clients| == 0 && ss[k].buff == []
    ensures Total(ss) == 0 && Joined(ss) == 0
  {
    if ss != [] {
      EmptyTotals(ss[1..]);
    }
  }

  lemma {:induction false} SameShape(s: State, es: seq<Event>)
    requires s.servers != []
    ensures |Run(s, es).servers| == |s.servers| && Run(s, es).nMax == s.nMax
    decreases |es|
  {
    if es != [] {
      SameShape(Step(s, es[0]), es[1..]);
    }
  }

  /** In every run of accepts, transfers and leaves the counters equal what the lists hold,
      the cap is respected, and no server holds more clients than the capacity it was
      created with; the placement in fact keeps it to the rounded-up share. */
  lemma AcceptBound(s: State, es: seq<Event>, k: nat)
    requires Started(s) && k < |s.servers|
    ensures var t := Run(s, es); var n := |s.servers|;
            && |t.servers| == n
            && t.accept == Total(t.servers) && t.join == Joined(t.servers)
            && 0 <= t.join <= t.accept <= s.nMax
            && t.servers[k].Load() <= Ceiling(s.nMax, n) <= Capacity(s.nMax, n)
  {
    EmptyTotals(s.servers);
    RunKeepsInv(s, es);
    SameShape(s, es);
    CeilingWithin(s.nMax, |s.servers|);
  }

  lemma CeilingWithin(nMax: nat, n: nat)
    requires n > 0
    ensures Ceiling(nMax, n) <= Capacity(nMax, n)
  {
    if nMax > 0 {
      var q := (nMax - 1) / n;
      assert q * n <= nMax - 1;
      DivBound(q, n, nMax);
    }
  }

  // ---- the objects ----

  class CellServer {
    var clients: set<Sock>
    var clientsBuff: seq<Sock>

    constructor ()
      ensures clients == {} && clientsBuff == []
    {
      clients, clientsBuff := {}, [];
    }

    function Abs(): Server
      reads this
    {
      Server(clients, clientsBuff)
    }

    /** getClientCount. */
    function ClientCount(): (n: nat)
      reads this
      ensures n == Abs().Load()
    {
      |clients| + |clientsBuff|
    }

    method AddClient(sock: Sock)
      modifies this
      ensures clientsBuff == old(clientsBuff) + [sock] && clients == old(clients)
    {
      clientsBuff := clientsBuff + [sock];
    }
  }

  class EasyTcpServer {
    const cellServers: seq<CellServer>
    const nMaxClient: nat
    var clientAccept: int
    var clientJoin: int

    ghost predicate Valid()
      reads this
    {
      && cellServers != []
      && (forall i, j :: 0 <= i < j < |cellServers| ==> cellServers[i] != cellServers[j])
    }

    ghost function Abs(): State
      reads this, cellServers
    {
      State(seq(|cellServers|, i requires 0 <= i < |cellServers| reads cellServers => cellServers[i].Abs()),
            clientAccept, clientJoin, nMaxClient)
    }

    constructor (nMax: nat, servers: seq<CellServer>)
      requires servers != [] && forall i, j :: 0 <= i < j < |servers| ==> servers[i] != servers[j]
      ensures Valid() && cellServers == servers && nMaxClient == nMax && clientAccept == clientJoin == 0
    {
      cellServers, nMaxClient := servers, nMax;
      clientAccept, clientJoin := 0, 0;
    }

    method FindMin() returns (m: nat)
      requires Valid()
      ensures m < |cellServers| && m == MinServer(Abs().servers)
    {
      m := Search(Abs().servers);
    }

    /** The loop, for servers whose lists are `ss`. */
    method Search(ghost ss: seq<Server>) returns (m: nat)
      requires cellServers != [] && |ss| == |cellServers|
      requires forall k :: 0 <= k < |ss| ==> ss[k] == cellServers[k].Abs()
      ensures m < |cellServers| && m == MinServer(ss)
    {
      m := 0;
      var i := 0;
      while i < |cellServers|
        invariant i <= |cellServers| && m < |cellServers|
        invariant if i == 0 then m == 0 else m == MinServer(ss[..i])
      {
        if i > 0 { MinStep(ss, i); }
        if cellServers[m].ClientCount() > cellServers[i].ClientCount() {
          m := i;
        }
        i := i + 1;
      }
      assert ss[..i] == ss;
    }

    /** addClientToCellServer; `m` is the server chosen. */
    method AddToLeast(sock: Sock) returns (ghost m: nat)
      requires Valid()
      modifies cellServers
      ensures Valid() && m < |cellServers| && m == MinServer(old(Abs().servers))
      ensures forall i :: 0 <= i < |cellServers| ==> old(cellServers[m].ClientCount()) <= old(cellServers[i].ClientCount())
      ensures cellServers[m].clientsBuff == old(cellServers[m].clientsBuff) + [sock]
      ensures forall i :: 0 <= i < |cellServers| && i != m ==> cellServers[i].clientsBuff == old(cellServers[i].clientsBuff)
      ensures forall i :: 0 <= i < |cellServers| ==> cellServers[i].clients == old(cellServers[i].clients)
    {
      ghost var ss := Abs().servers;
      var k := FindMin();
      m := k;
      forall i | 0 <= i < |cellServers| ensures cellServers[m].ClientCount() <= cellServers[i].ClientCount() {
        assert ss[m].Load() <= ss[i].Load();
      }
      cellServers[k].AddClient(sock);
    }

    /** Accpet for a valid socket that is not in use. */
    method Accept(sock: Sock) returns (kept: bool, ghost m: nat)
      requires Valid() && !InUse(Abs().servers, sock)
      modifies this, cellServers
      ensures Valid() && Abs() == Step(old(Abs()), Connect(sock))
      ensures kept == (old(clientAccept) < nMaxClient) && clientJoin == old(clientJoin)
      ensures clientAccept == if kept then old(clientAccept) + 1 else old(clientAccept)
      ensures kept ==>
                && m < |cellServers| && cellServers[m].clientsBuff == old(cellServers[m].clientsBuff) + [sock]
                && forall i :: 0 <= i < |cellServers| ==>
                     old(cellServers[m].ClientCount()) <= old(cellServers[i].ClientCount())
      ensures forall i :: 0 <= i < |cellServers| && !(kept && i == m) ==>
                cellServers[i].clientsBuff == old(cellServers[i].clientsBuff)
      ensures forall i :: 0 <= i < |cellServers| ==> cellServers[i].clients == old(cellServers[i].clients)
    {
      kept, m := clientAccept < nMaxClient, 0;
      if kept {
        ghost var ss := Abs().servers;
        clientAccept := clientAccept + 1;
        assert Abs().servers == ss;
        m := AddToLeast(sock);
        Placed(ss, m, sock);
      }
    }

    /** What the objects' lists amount to after the client was added. */
    lemma Placed(ss: seq<Server>, m: nat, sock: Sock)
      requires |ss| == |cellServers| && m < |ss|
      requires cellServers[m].Abs() == Server(ss[m].clients, ss[m].buff + [sock])
      requires forall i :: 0 <= i < |ss| && i != m ==> cellServers[i].Abs() == ss[i]
      ensures Abs().servers == ss[m := Server(ss[m].clients, ss[m].buff + [sock])]
    {
    }

    /** OnRun's transfer on server `k`, OnNetJoin counting each client. */
    method TransferClients(k: nat)
      requires Valid() && k < |cellServers|
      modifies this, cellServers[k]
      ensures Valid() && Abs() == Step(old(Abs()), Transfer(k))
      ensures cellServers[k].clientsBuff == []
      ensures cellServers[k].clients == old(cellServers[k].clients) + set x | x in old(cellServers[k].clientsBuff)
      ensures clientJoin == old(clientJoin) + |old(cellServers[k].clientsBuff)| && clientAccept == old(clientAccept)
    {
      InsertIs(cellServers[k].clients, cellServers[k].clientsBuff);
      var s := cellServers[k];
      var i := 0;
      assert s.clientsBuff[0..] == s.clientsBuff;
      while i < |s.clientsBuff|
        invariant i <= |s.clientsBuff| && s.clientsBuff == old(s.clientsBuff)
        invariant Insert(s.clients, s.clientsBuff[i..]) == Insert(old(s.clients), s.clientsBuff)
        invariant clientJoin == old(clientJoin) + i && clientAccept == old(clientAccept)
      {
        assert s.clientsBuff[i..][1..] == s.clientsBuff[i + 1..];
        s.clients := s.clients + {s.clientsBuff[i]};
        clientJoin := clientJoin + 1;
        i := i + 1;
      }
      s.clientsBuff := [];
      assert Abs().servers == Step(old(Abs()), Transfer(k)).servers;
    }

    method ClientLeaves(k: nat, sock: Sock)
      requires Valid() && k < |cellServers| && sock in cellServers[k].clients
      modifies this, cellServers[k]
      ensures Valid() && Abs() == Step(old(Abs()), Leave(k, sock))
      ensures cellServers[k].clients == old(cellServers[k].clients) - {sock}
      ensures cellServers[k].clientsBuff == old(cellServers[k].clientsBuff)
      ensures clientAccept == old(clientAccept) - 1 && clientJoin == old(clientJoin) - 1
    {
      clientAccept := clientAccept - 1;
      clientJoin := clientJoin - 1;
      cellServers[k].clients := cellServers[k].clients - {sock};
      assert Abs().servers == Step(old(Abs()), Leave(k, sock)).servers;
    }
  }
}
