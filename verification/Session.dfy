/** The login protocol's objects together: a client, its server peer, and the two links. */
module Sessions {
  import opened Bytes
  import opened Framing
  import opened CellBuffers
  import opened Login
  import T = Transport

  lemma OneStep(s: T.State, e: T.Event)
    ensures T.Run(s, [e]) == T.Step(s, e)
  {
    assert [e][1..] == [];
  }

  /** A client and its server peer over two links, with what the runs above observe. */
  class Session {
    const up: T.Link
    const down: T.Link
    const client: MyClient
    const peer: ServerPeer
    ghost var mismatch: bool
    ghost var pushFailed: bool
    ghost var refills: nat
    ghost var elapsed: nat

    ghost function Parts(): set<object> {
      {up, up.sendBuff, up.sendBuff.buff, up.receiver.recvBuff, up.receiver.recvBuff.buff,
       down, down.sendBuff, down.sendBuff.buff, down.receiver.recvBuff, down.receiver.recvBuff.buff, client, peer}
    }

    ghost predicate Valid()
      reads this, Parts()
    {
      && this !in Parts() && up.Valid() && down.Valid() && up != down
      && up.sendBuff != down.sendBuff && up.sendBuff != down.receiver.recvBuff
      && up.receiver.recvBuff != down.sendBuff && up.receiver.recvBuff != down.receiver.recvBuff
      && up.sendBuff.buff != down.sendBuff.buff && up.sendBuff.buff != down.receiver.recvBuff.buff
      && up.receiver.recvBuff.buff != down.sendBuff.buff && up.receiver.recvBuff.buff != down.receiver.recvBuff.buff
    }

    ghost function Abs(): State
      reads this, Parts()
      requires Valid()
    {
      State(up.Abs(), down.Abs(), client.Abs(), Peer(peer.nRecvMsgID, peer.nSendMsgID),
            mismatch, pushFailed, refills, elapsed)
    }

    constructor (cfg: Config, upSend: nat, upRecv: nat, downSend: nat, downRecv: nat, rest: nat)
      ensures Valid() && Abs() == Init(upSend, upRecv, downSend, downRecv, rest) && client.cfg == cfg
      ensures fresh(Parts())
    {
      up := new T.Link(upSend, upRecv);
      down := new T.Link(downSend, downRecv);
      client := new MyClient(cfg, rest);
      peer := new ServerPeer();
      mismatch, pushFailed, refills, elapsed := false, false, 0, 0;
    }

    method Sends(payload: seq<Byte>)
      requires Valid() && |payload| == 92
      modifies this, Parts()
      ensures Valid() && Abs() == Step(client.cfg, old(Abs()), Send(payload))
    {
      var ret := client.Send(up, payload, true);
      pushFailed := pushFailed || ret == SOCKET_ERROR;
    }

    method Moves(e: Event)
      requires Valid() && Legal(e) && (e.UpMove? || e.DownMove?)
      modifies this, Parts()
      ensures Valid() && Abs() == Step(client.cfg, old(Abs()), e)
    {
      if e.UpMove? {
        up.Play([e.e]);
        OneStep(old(up.Abs()), e.e);
      } else {
        down.Play([e.e]);
        OneStep(old(down.Abs()), e.e);
      }
    }

    /** The server's handler alone: it touches the peer's counters and the link back. */
    method Serve(m: seq<Byte>, payload: seq<Byte>, stray: Word)
      requires Valid() && |payload| == 92 && |m| >= HEADER
      modifies this`mismatch, this`pushFailed, peer, down, down.sendBuff, down.sendBuff.buff
      ensures Valid() && Abs() == Served(old(Abs()), m, payload, stray)
    {
      var bad, dropped := peer.OnNetMsg(m, down, payload, stray);
      mismatch := mismatch || bad;
      pushFailed := pushFailed || dropped;
    }

    /** pop_front_msg on one link leaves the rest alone. */
    method PopUp()
      requires Valid()
      modifies up, up.receiver.recvBuff, up.receiver.recvBuff.buff
      ensures Valid() && Abs() == old(Abs()).(up := T.Step(old(up.Abs()), T.Deliver))
    {
      var _ := up.DoOneMsg();
    }

    method PopDown()
      requires Valid()
      modifies down, down.receiver.recvBuff, down.receiver.recvBuff.buff
      ensures Valid() && Abs() == old(Abs()).(down := T.Step(old(down.Abs()), T.Deliver))
    {
      var _ := down.DoOneMsg();
    }

    /** OnNetMsg on the front message, then pop_front_msg. */
    method ServerHandles(payload: seq<Byte>, stray: Word)
      requires Valid() && |payload| == 92
      modifies this, Parts()
      ensures Valid() && Abs() == Step(client.cfg, old(Abs()), ServerMsg(payload, stray))
    {
      var has := up.receiver.recvBuff.CheckMsg();
      if has {
        var m := up.receiver.FrontMsg();
        if |m| >= HEADER {
          Serve(m, payload, stray);
          PopUp();
        }
      }
    }

    method Receive(m: seq<Byte>, stray: Word)
      requires Valid() && |m| >= HEADER
      modifies this`mismatch, client
      ensures Valid() && Abs() == Received(old(Abs()), m, stray)
    {
      var bad := client.OnNetMsg(m, stray);
      mismatch := mismatch || bad;
    }

    method ClientHandles(stray: Word)
      requires Valid()
      modifies this, Parts()
      ensures Valid() && Abs() == Step(client.cfg, old(Abs()), ClientMsg(stray))
    {
      var has := down.receiver.recvBuff.CheckMsg();
      if has {
        var m := down.receiver.FrontMsg();
        if |m| >= HEADER {
          Receive(m, stray);
          PopDown();
        }
      }
    }

    method Ticks(dt: nat)
      requires Valid()
      modifies this, Parts()
      ensures Valid() && Abs() == Step(client.cfg, old(Abs()), Tick(dt))
    {
      refills := if client.tRestTime + dt >= client.cfg.sleep then refills + 1 else refills;
      elapsed := elapsed + dt;
      var _ := client.CheckSendTime(dt);
    }

    /** Every interleaving on the objects is a run of the machine, so the theorems above
        hold of them. */
    method Play(es: seq<Event>)
      requires Valid() && AllLegal(es)
      modifies this, Parts()
      ensures Valid() && Abs() == Run(client.cfg, old(Abs()), es)
    {
      var i := 0;
      assert es[0..] == es;
      while i < |es|
        invariant i <= |es| && Valid()
        invariant Run(client.cfg, Abs(), es[i..]) == Run(client.cfg, old(Abs()), es)
      {
        assert es[i..][1..] == es[i + 1..];
        match es[i] {
          case Send(p) => Sends(p);
          case UpMove(_) => Moves(es[i]);
          case DownMove(_) => Moves(es[i]);
          case ServerMsg(p, x) => ServerHandles(p, x);
          case ClientMsg(x) => ClientHandles(x);
          case Tick(dt) => Ticks(dt);
        }
        i := i + 1;
      }
    }
  }
}
