/** CellSelectServer's cached read set: built when the client list changed, copied otherwise,
    while select overwrites the copy on every call. */
module SelectServer {
  import opened Bytes

  type Sock = nat

  const HEART_DEAD_TIME: nat := 60000

  /** A client's `_dtHeart` and whether its send buffer holds data. */
  datatype Peer = Peer(heart: nat, needWrite: bool)

  predicate Expired(p: Peer, dt: nat) {
    p.heart + dt >= HEART_DEAD_TIME
  }

  ghost predicate IsMax(m: Sock, s: set<Sock>) {
    m in s && forall x :: x in s ==> x <= m
  }

  lemma {:induction false} HasMax(s: set<Sock>)
    requires s != {}
    ensures exists m :: IsMax(m, s)
    decreases |s|
  {
    var x :| x in s;
    if s == {x} {
      assert IsMax(x, s);
    } else {
      assert s - {x} != {};
      HasMax(s - {x});
      var m :| IsMax(m, s - {x});
      assert forall y :: y in s ==> y == x || y in s - {x};
      assert IsMax(if m < x then x else m, s);
    }
  }

  ghost function Max(s: set<Sock>): (m: Sock)
    requires s != {}
    ensures IsMax(m, s)
  {
    HasMax(s);
    var m :| IsMax(m, s);
    m
  }

  /** What one call of `select` does: its return value, whether it was interrupted, and the
      sets it leaves; and which of the following receives and sends fail. */
  datatype Kernel = Kernel(ret: int, interrupted: bool, readable: set<Sock>, writable: set<Sock>,
                           recvFails: set<Sock>, sendFails: set<Sock>)

  function Writers(m: map<Sock, Peer>): set<Sock> {
    set s | s in m && m[s].needWrite
  }

  /** The clients ReadData removes, and those WriteData then removes. */
  function ReadGone(m: map<Sock, Peer>, k: Kernel): set<Sock> {
    m.Keys * k.readable * k.recvFails
  }

  function WriteGone(m: map<Sock, Peer>, k: Kernel): set<Sock> {
    Writers(m) * k.writable * k.sendFails
  }

  function Served(m: map<Sock, Peer>, k: Kernel): map<Sock, Peer> {
    if k.ret <= 0 then m
    else
      var n := m - ReadGone(m, k);
      n - WriteGone(n, k)
  }

  /** `_clients` after the loop over `_clientsBuff`. */
  function Joined(m: map<Sock, Peer>, buff: seq<(Sock, Peer)>): map<Sock, Peer>
    decreases |buff|
  {
    if buff == [] then m else Joined(m[buff[0].0 := buff[0].1], buff[1..])
  }

  /** CheckTime. */
  function Aged(m: map<Sock, Peer>, dt: nat): map<Sock, Peer> {
    map s | s in m && !Expired(m[s], dt) :: m[s].(heart := m[s].heart + dt)
  }

  /** After select reported something, exactly those clients are gone whose receive failed
      when readable, or whose send failed when they had something to write and could; the
      others are as they were. */
  lemma ServedIs(m: map<Sock, Peer>, k: Kernel, s: Sock)
    ensures s in Served(m, k) <==>
              s in m && (k.ret <= 0 || (!(s in k.readable && s in k.recvFails) &&
                                        !(m[s].needWrite && s in k.writable && s in k.sendFails)))
    ensures s in Served(m, k) ==> Served(m, k)[s] == m[s]
  {
  }

  lemma {:induction false} JoinedIs(m: map<Sock, Peer>, buff: seq<(Sock, Peer)>, s: Sock)
    ensures s in Joined(m, buff) <==> s in m || exists i :: 0 <= i < |buff| && buff[i].0 == s
    ensures s in m && (forall i :: 0 <= i < |buff| ==> buff[i].0 != s) ==> Joined(m, buff)[s] == m[s]
    decreases |buff|
  {
    if buff != [] {
      JoinedIs(m[buff[0].0 := buff[0].1], buff[1..], s);
      assert forall i :: 0 < i < |buff| ==> buff[i] == buff[1..][i - 1];
    }
  }

  /** What the handlers do to clients in DoMsg: reset a heartbeat, push a reply. */
  function Touched(m: map<Sock, Peer>, effects: map<Sock, Peer>): map<Sock, Peer> {
    map s | s in m :: if s in effects then effects[s] else m[s]
  }

  /** One turn of OnRun: who has joined, the time passed, and what happens outside. */
  datatype Turn = Turn(buff: seq<(Sock, Peer)>, dt: nat, kernel: Kernel, effects: map<Sock, Peer>)

  predicate Continues(k: Kernel) { k.ret >= 0 || k.interrupted }

  /** CheckTime empties a map that was not empty. */
  predicate Emptied(m: map<Sock, Peer>, t: Turn) {
    var j := Joined(m, t.buff);
    j.Keys != {} && forall s :: s in j ==> Expired(j[s], t.dt)
  }

  /** A single client, silent for a minute. */
  lemma LastClientExpires(k: Kernel)
    ensures Emptied(map[3 := Peer(0, false)], Turn([], HEART_DEAD_TIME, k, map[]))
  {
    var m := map[3 := Peer(0, false)];
    assert 3 in m.Keys;
  }

  lemma SomeoneStays(m: map<Sock, Peer>, t: Turn)
    requires !Emptied(m, t) && Joined(m, t.buff).Keys != {}
    ensures Aged(Joined(m, t.buff), t.dt).Keys != {}
  {
    var j := Joined(m, t.buff);
    var s :| s in j && !Expired(j[s], t.dt);
    assert s in Aged(j, t.dt).Keys;
  }

  /** `_clients` after a turn that Emptied does not cut short. */
  function After(m: map<Sock, Peer>, t: Turn): map<Sock, Peer> {
    var j := Joined(m, t.buff);
    if j.Keys == {} then j
    else
      var n := Served(Aged(j, t.dt), t.kernel);
      if Continues(t.kernel) then Touched(n, t.effects) else n
  }

  /** A client that is silent for less than the heartbeat time and whose transfers do not
      fail is there after the turn, with what its handler made of it. */
  lemma AfterIs(m: map<Sock, Peer>, t: Turn, s: Sock)
    requires !Emptied(m, t) && Joined(m, t.buff).Keys != {} && Continues(t.kernel)
    ensures var j := Joined(m, t.buff);
            s in After(m, t) <==>
              s in j && j[s].heart + t.dt < 60000 &&
              (t.kernel.ret <= 0 || (!(s in t.kernel.readable && s in t.kernel.recvFails) &&
                                     !(j[s].needWrite && s in t.kernel.writable && s in t.kernel.sendFails)))
    ensures s in After(m, t) ==>
              After(m, t)[s] == if s in t.effects then t.effects[s]
                                else Peer(Joined(m, t.buff)[s].heart + t.dt, Joined(m, t.buff)[s].needWrite)
  {
    ServedIs(Aged(Joined(m, t.buff), t.dt), t.kernel, s);
  }

  /** What a turn hands to select, the read set and `nfds`, when both are computed afresh
      from the clients; nothing when there are none. */
  ghost function Handed(m: map<Sock, Peer>, t: Turn): seq<(set<Sock>, nat)>
    requires !Emptied(m, t)
  {
    var j := Joined(m, t.buff);
    if j.Keys == {} then []
    else
      SomeoneStays(m, t);
      var socks := Aged(j, t.dt).Keys;
      [(socks, Max(socks) + 1)]
  }

  predicate GoesOn(m: map<Sock, Peer>, t: Turn) {
    Joined(m, t.buff).Keys == {} || Continues(t.kernel)
  }

  /** What a run hands to select, with no cache at all. */
  ghost function Watched(m: map<Sock, Peer>, turns: seq<Turn>): seq<(set<Sock>, nat)>
    decreases |turns|
  {
    if turns == [] || Emptied(m, turns[0]) then []
    else
      Handed(m, turns[0]) + (if GoesOn(m, turns[0]) then Watched(After(m, turns[0]), turns[1..]) else [])
  }

  lemma WatchedFrom(m: map<Sock, Peer>, turns: seq<Turn>, i: nat)
    requires i < |turns|
    ensures Watched(m, turns[i..]) ==
            if Emptied(m, turns[i]) then []
            else Handed(m, turns[i]) + (if GoesOn(m, turns[i]) then Watched(After(m, turns[i]), turns[i + 1..]) else [])
  {
    assert turns[i..][1..] == turns[i + 1..];
  }

  class CellSelectServer {
    var clients: map<Sock, Peer>
    var clientsChange: bool
    var fdRead: set<Sock>
    var fdReadBak: set<Sock>
    var fdWrite: set<Sock>
    var maxSock: Sock

    /** The cache is right whenever it would be used. */
    ghost predicate CacheInv()
      reads this
    {
      clientsChange || (fdReadBak == clients.Keys && IsMax(maxSock, clients.Keys))
    }

    constructor ()
      ensures CacheInv() && clients == map[]
    {
      clients, clientsChange := map[], true;
      fdRead, fdReadBak, fdWrite, maxSock := {}, {}, {}, 0;
    }

    /** OnRun's transfer of `_clientsBuff`. */
    method Join(buff: seq<(Sock, Peer)>)
      requires CacheInv()
      modifies this
      ensures CacheInv() && clients == Joined(old(clients), buff)
      ensures forall s :: s in clients <==> s in old(clients) || exists i :: 0 <= i < |buff| && buff[i].0 == s
    {
      forall s ensures s in Joined(clients, buff) <==> s in clients || exists i :: 0 <= i < |buff| && buff[i].0 == s {
        JoinedIs(clients, buff, s);
      }
      if buff == [] {
        return;
      }
      var i := 0;
      assert buff[0..] == buff;
      while i < |buff|
        invariant i <= |buff|
        invariant Joined(clients, buff[i..]) == Joined(old(clients), buff)
      {
        assert buff[i..][1..] == buff[i + 1..];
        clients := clients[buff[i].0 := buff[i].1];
        i := i + 1;
      }
      clientsChange := true;
    }

    method CheckTime(dt: nat)
      requires CacheInv()
      modifies this
      ensures CacheInv() && clients == Aged(old(clients), dt)
      ensures forall s :: s in clients <==> s in old(clients) && old(clients)[s].heart + dt < 60000
      ensures forall s :: s in clients ==> clients[s] == old(clients)[s].(heart := old(clients)[s].heart + dt)
    {
      ghost var all := clients;
      var todo := clients.Keys;
      while todo != {}
        invariant todo <= clients.Keys <= all.Keys
        invariant forall s :: s in all && s !in todo ==> (s in clients <==> !Expired(all[s], dt))
        invariant forall s :: s in clients ==> clients[s] == if s in todo then all[s] else all[s].(heart := all[s].heart + dt)
        invariant clientsChange || (clients.Keys == all.Keys && fdReadBak == all.Keys && IsMax(maxSock, all.Keys))
        decreases todo
      {
        var s :| s in todo;
        var p := clients[s].(heart := clients[s].heart + dt);
        if p.heart >= HEART_DEAD_TIME {
          clientsChange := true;
          clients := clients - {s};
        } else {
          clients := clients[s := p];
        }
        todo := todo - {s};
      }
    }

    /** The first half of DoNetEvent: the sets and bound handed to select.  Whether rebuilt
        or copied, the read set is exactly the clients and the bound is their maximum. */
    method PrepareSets()
      requires CacheInv() && clients.Keys != {}
      modifies this
      ensures CacheInv() && !clientsChange && clients == old(clients)
      ensures fdRead == clients.Keys && IsMax(maxSock, clients.Keys) && fdWrite == Writers(clients)
      ensures forall s :: s in fdWrite <==> s in clients && clients[s].needWrite
    {
      if clientsChange {
        clientsChange := false;
        fdRead := {};
        var first :| first in clients.Keys;
        maxSock := first;
        var todo := clients.Keys;
        while todo != {}
          invariant clients == old(clients) && !clientsChange && todo <= clients.Keys
          invariant fdRead == clients.Keys - todo
          invariant maxSock in clients.Keys && forall x :: x in fdRead ==> x <= maxSock
          decreases todo
        {
          var s :| s in todo;
          fdRead := fdRead + {s};
          if s > maxSock {
            maxSock := s;
          }
          todo := todo - {s};
        }
        fdReadBak := fdRead;
      } else {
        fdRead := fdReadBak;
      }
      fdWrite := {};
      var todo := clients.Keys;
      while todo != {}
        invariant clients == old(clients) && !clientsChange && todo <= clients.Keys
        invariant fdRead == fdReadBak == clients.Keys && IsMax(maxSock, clients.Keys)
        invariant fdWrite == Writers(clients) - todo
        decreases todo
      {
        var s :| s in todo;
        if clients[s].needWrite {
          fdWrite := fdWrite + {s};
        }
        todo := todo - {s};
      }
    }

    /** ReadData and WriteData differ only in whom they examine and who fails. */
    method RemoveFailing(examined: set<Sock>, fails: set<Sock>)
      requires CacheInv()
      modifies this`clients, this`clientsChange
      ensures CacheInv() && clients == old(clients) - (examined * fails)
    {
      ghost var all := clients;
      var todo := clients.Keys;
      while todo != {}
        invariant todo <= clients.Keys <= all.Keys
        invariant forall s :: s in all ==> (s in clients <==> s in todo || !(s in examined && s in fails))
        invariant forall s :: s in clients ==> clients[s] == all[s]
        invariant clientsChange || (clients.Keys == all.Keys && fdReadBak == all.Keys && IsMax(maxSock, all.Keys))
        decreases todo
      {
        var s :| s in todo;
        if s in examined {
          if s in fails {
            clientsChange := true;
            clients := clients - {s};
          }
        }
        todo := todo - {s};
      }
    }

    /** DoNetEvent.  select overwrites `_fdRead`, which the cache survives. */
    method DoNetEvent(k: Kernel) returns (ok: bool, watched: set<Sock>, nfds: nat)
      requires CacheInv() && clients.Keys != {}
      modifies this
      ensures CacheInv()
      ensures watched == old(clients.Keys) && nfds > 0 && IsMax(nfds - 1, watched)
      ensures ok <==> k.ret >= 0 || k.interrupted
      ensures clients == Served(old(clients), k)
      ensures forall s :: s in clients <==>
                s in old(clients) && (k.ret <= 0 || (!(s in k.readable && s in k.recvFails) &&
                                                     !(old(clients)[s].needWrite && s in k.writable && s in k.sendFails)))
    {
      forall s ensures s in Served(clients, k) <==>
                         s in clients && (k.ret <= 0 || (!(s in k.readable && s in k.recvFails) &&
                                                         !(clients[s].needWrite && s in k.writable && s in k.sendFails)))
      {
        ServedIs(clients, k, s);
      }
      PrepareSets();
      watched, nfds := fdRead, maxSock + 1;
      fdRead := k.readable;
      if k.ret < 0 {
        return k.interrupted, watched, nfds;
      } else if k.ret == 0 {
        return true, watched, nfds;
      }
      RemoveFailing(fdRead, k.recvFails);
      assert clients == old(clients) - ReadGone(old(clients), k);
      fdWrite := fdWrite * k.writable;
      ghost var n := clients;
      assert forall s :: s in n ==> (s in fdWrite <==> s in Writers(n) * k.writable);
      RemoveFailing(fdWrite, k.sendFails);
      assert clients == n - WriteGone(n, k);
      ok := true;
    }

    method DoMsg(effects: map<Sock, Peer>)
      requires CacheInv()
      modifies this`clients
      ensures CacheInv() && clients == Touched(old(clients), effects)
    {
      clients := map s | s in clients :: if s in effects then effects[s] else clients[s];
      assert clients.Keys == old(clients).Keys;
    }

    /** One turn of OnRun.  `fault` marks the case the source does not guard: CheckTime may
        empty the map after the emptiness test, and DoNetEvent then dereferences
        `_clients.begin()` of an empty map.  `watched` is None when there is no client. */
    method OneTurn(t: Turn) returns (ok: bool, fault: bool, watched: seq<(set<Sock>, nat)>)
      requires CacheInv()
      modifies this
      ensures CacheInv()
      ensures fault <==> Emptied(old(clients), t)
      ensures !fault ==>
                && clients == After(old(clients), t)
                && ok == GoesOn(old(clients), t)
                && watched == Handed(old(clients), t)
      ensures fault ==> watched == []
    {
      ok, fault, watched := true, false, [];
      Join(t.buff);
      if clients.Keys == {} {
        return;
      }
      ghost var before := clients;
      CheckTime(t.dt);
      if clients.Keys == {} {
        assert forall s :: s in before ==> s !in Aged(before, t.dt);
        return false, true, [];
      }
      var s :| s in clients.Keys;
      assert s in before && !Expired(before[s], t.dt);
      var handed, nfds;
      ok, handed, nfds := DoNetEvent(t.kernel);
      watched := [(handed, nfds)];
      assert nfds - 1 == Max(handed);
      if ok {
        DoMsg(t.effects);
      }
    }

    /** OnRun: over any run of joins, timeouts, reads and writes the cached read sets and
        maxima are the ones recomputed from the clients every time. */
    method OnRun(turns: seq<Turn>) returns (log: seq<(set<Sock>, nat)>)
      requires CacheInv()
      modifies this
      ensures log == Watched(old(clients), turns)
    {
      log := [];
      var i := 0;
      assert turns[0..] == turns;
      while i < |turns|
        invariant i <= |turns| && CacheInv()
        invariant log + Watched(clients, turns[i..]) == Watched(old(clients), turns)
      {
        WatchedFrom(clients, turns, i);
        ghost var done := log;
        var ok, fault, w := OneTurn(turns[i]);
        log := log + w;
        if fault || !ok {
          assert w + [] == w && done + [] == done;
          return;
        }
        Assoc(done, w, Watched(clients, turns[i + 1..]));
        i := i + 1;
      }
    }
  }
}
