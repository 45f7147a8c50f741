/** The wire format: a message starts with two little-endian 16-bit words, its total
    length and its command.  `Drain` is the one-shot parser the receive loops are
    measured against. */
module Framing {
  import opened Bytes

  const HEADER: nat := 4

  function DataLength(b: seq<Byte>): nat
    requires |b| >= 2
  {
    b[0] as int + 256 * b[1] as int
  }

  /** CellBuffer::hasMsg. */
  predicate HasMsg(b: seq<Byte>) {
    |b| >= HEADER && |b| >= DataLength(b)
  }

  /** A message whose length word is its length. */
  predicate Framed(m: seq<Byte>) {
    HEADER <= |m| && DataLength(m) == |m|
  }

  predicate AllFramed(ms: seq<seq<Byte>>) {
    forall i :: 0 <= i < |ms| ==> Framed(ms[i])
  }

  function Flatten(ms: seq<seq<Byte>>): seq<Byte> {
    if ms == [] then [] else ms[0] + Flatten(ms[1..])
  }

  datatype Parsed = Parsed(msgs: seq<seq<Byte>>, rest: seq<Byte>)

  /** The messages the loop `while (hasMsg()) pop_front_msg()` takes off `b`, and what is
      left.  It stops at a header of length 0, where the loop would not advance. */
  function Drain(b: seq<Byte>): (p: Parsed)
    decreases |b|
  {
    if HasMsg(b) && DataLength(b) > 0 then
      var n := DataLength(b);
      var p := Drain(b[n..]);
      Parsed([b[..n]] + p.msgs, p.rest)
    else
      Parsed([], b)
  }

  lemma {:induction false} FlattenAppend(xs: seq<seq<Byte>>, ys: seq<seq<Byte>>)
    ensures Flatten(xs + ys) == Flatten(xs) + Flatten(ys)
  {
    if xs == [] {
      assert xs + ys == ys;
    } else {
      FlattenAppend(xs[1..], ys);
      assert (xs + ys)[0] == xs[0] && (xs + ys)[1..] == xs[1..] + ys;
      Assoc(xs[0], Flatten(xs[1..]), Flatten(ys));
    }
  }

  lemma FlattenSnoc(xs: seq<seq<Byte>>, m: seq<Byte>)
    ensures Flatten(xs + [m]) == Flatten(xs) + m
  {
    FlattenAppend(xs, [m]);
    assert Flatten([m]) == m;
  }

  /** Draining neither loses, invents nor reorders a byte. */
  lemma {:induction false} DrainConserves(b: seq<Byte>)
    ensures Flatten(Drain(b).msgs) + Drain(b).rest == b
    decreases |b|
  {
    if HasMsg(b) && DataLength(b) > 0 {
      var n := DataLength(b);
      DrainConserves(b[n..]);
      var p := Drain(b[n..]);
      assert ([b[..n]] + p.msgs)[1..] == p.msgs;
      Assoc(b[..n], Flatten(p.msgs), p.rest);
    }
  }

  lemma DrainFirst(m: seq<Byte>, more: seq<Byte>)
    requires Framed(m)
    ensures Drain(m + more) == Parsed([m] + Drain(more).msgs, Drain(more).rest)
  {
    var b := m + more;
    assert DataLength(b) == |m|;
    assert b[..|m|] == m && b[|m|..] == more;
  }

  /** Parsing undoes concatenation of framed messages. */
  lemma {:induction false} DrainFlatten(ms: seq<seq<Byte>>, tail: seq<Byte>)
    requires AllFramed(ms)
    ensures Drain(Flatten(ms) + tail).msgs == ms + Drain(tail).msgs
    ensures Drain(Flatten(ms) + tail).rest == Drain(tail).rest
  {
    if ms == [] {
      assert Flatten(ms) + tail == tail;
    } else {
      Assoc(ms[0], Flatten(ms[1..]), tail);
      DrainFirst(ms[0], Flatten(ms[1..]) + tail);
      DrainFlatten(ms[1..], tail);
      Assoc([ms[0]], ms[1..], Drain(tail).msgs);
      assert ms == [ms[0]] + ms[1..];
    }
  }

  /** Segmentation does not matter: draining what has arrived, keeping the rest, and
      draining again when more arrives is draining the whole stream at once. */
  lemma {:induction false} DrainAppend(a: seq<Byte>, c: seq<Byte>)
    ensures Drain(a + c).msgs == Drain(a).msgs + Drain(Drain(a).rest + c).msgs
    ensures Drain(a + c).rest == Drain(Drain(a).rest + c).rest
    decreases |a|
  {
    if HasMsg(a) && DataLength(a) > 0 {
      var n := DataLength(a);
      assert DataLength(a + c) == n;
      assert (a + c)[..n] == a[..n] && (a + c)[n..] == a[n..] + c;
      DrainAppend(a[n..], c);
      Assoc([a[..n]], Drain(a[n..]).msgs, Drain(Drain(a).rest + c).msgs);
    }
  }

  /** A front header of length 0, on which `pop_front_msg` removes nothing. */
  predicate Stuck(b: seq<Byte>) {
    HasMsg(b) && DataLength(b) == 0
  }

  /** Draining reaches a header of length 0. */
  predicate Spins(b: seq<Byte>) {
    Stuck(Drain(b).rest)
  }

  /** The buffer after `k` rounds of `if (hasMsg()) pop_front_msg()`. */
  function Popped(b: seq<Byte>, k: nat): seq<Byte> {
    if k == 0 then b
    else if HasMsg(b) then Popped(b[DataLength(b)..], k - 1)
    else b
  }

  lemma {:induction false} StuckForever(b: seq<Byte>, k: nat)
    requires Stuck(b)
    ensures Popped(b, k) == b
  {
    if k > 0 {
      assert b[0..] == b;
      StuckForever(b, k - 1);
    }
  }

  lemma {:induction false} SpinsForever(b: seq<Byte>, k: nat)
    requires Spins(b)
    ensures HasMsg(Popped(b, k))
    decreases |b|, k
  {
    if Stuck(b) {
      StuckForever(b, k);
    } else if k > 0 {
      SpinsForever(b[DataLength(b)..], k - 1);
    }
  }

  lemma {:induction false} DrainReached(b: seq<Byte>)
    requires !Spins(b)
    ensures exists k: nat :: !HasMsg(Popped(b, k)) && Popped(b, k) == Drain(b).rest
    decreases |b|
  {
    if HasMsg(b) {
      var n := DataLength(b);
      DrainReached(b[n..]);
      var k: nat :| !HasMsg(Popped(b[n..], k)) && Popped(b[n..], k) == Drain(b[n..]).rest;
      assert Popped(b, k + 1) == Popped(b[n..], k);
    } else {
      assert Popped(b, 0) == b;
    }
  }

  /** The `DoMsg` loop runs forever on `b` exactly when a zero-length header comes up. */
  lemma LoopsForeverIffSpins(b: seq<Byte>)
    ensures Spins(b) <==> forall k: nat :: HasMsg(Popped(b, k))
  {
    if Spins(b) {
      forall k: nat ensures HasMsg(Popped(b, k)) { SpinsForever(b, k); }
    } else {
      DrainReached(b);
    }
  }

  lemma ZeroHeaderSpins()
    ensures Spins([0, 0, 0, 0])
  {
    assert DataLength([0, 0, 0, 0]) == 0;
  }

  /** A drained buffer that is full holds the start of a message longer than itself. */
  lemma FullMeansOversize(b: seq<Byte>, cap: nat)
    requires HEADER <= cap && !Spins(b) && |Drain(b).rest| == cap
    ensures cap < DataLength(Drain(b).rest)
  {
    DrainStops(b);
  }

  lemma {:induction false} DrainStops(b: seq<Byte>)
    ensures !HasMsg(Drain(b).rest) || Spins(b)
    ensures |Drain(b).rest| <= |b|
    decreases |b|
  {
    if HasMsg(b) && DataLength(b) > 0 {
      DrainStops(b[DataLength(b)..]);
    }
  }

  /** `b` is a prefix of a stream of messages no longer than `cap`, as far as its bytes
      tell. */
  predicate Prefixed(b: seq<Byte>, cap: nat)
    decreases |b|
  {
    |b| < 2 ||
    (HEADER <= DataLength(b) <= cap &&
     (|b| <= DataLength(b) || Prefixed(b[DataLength(b)..], cap)))
  }

  lemma {:induction false} PrefixedShorter(b: seq<Byte>, c: seq<Byte>, cap: nat)
    requires Prefixed(b + c, cap)
    ensures Prefixed(b, cap)
    decreases |b|
  {
    if |b| >= 2 && |b| > DataLength(b) {
      var n := DataLength(b);
      assert (b + c)[n..] == b[n..] + c;
      PrefixedShorter(b[n..], c, cap);
    }
  }

  /** The predicate means what it says: every prefix of a stream of framed messages
      within `cap` has it. */
  lemma {:induction false} PrefixOfStream(ms: seq<seq<Byte>>, b: seq<Byte>, cap: nat)
    requires AllFramed(ms) && (forall i :: 0 <= i < |ms| ==> |ms[i]| <= cap)
    requires b <= Flatten(ms)
    ensures Prefixed(b, cap)
  {
    if |b| >= 2 {
      var m := ms[0];
      assert Flatten(ms)[..|m|] == m;
      assert DataLength(b) == DataLength(m);
      if |b| > |m| {
        assert Flatten(ms)[|m|..] == Flatten(ms[1..]);
        PrefixOfStream(ms[1..], b[|m|..], cap);
      }
    }
  }

  lemma {:induction false} PrefixedDrains(b: seq<Byte>, cap: nat)
    requires Prefixed(b, cap) && HEADER <= cap
    ensures !Spins(b) && Prefixed(Drain(b).rest, cap) && |Drain(b).rest| < cap
    ensures AllFramed(Drain(b).msgs)
    decreases |b|
  {
    if HasMsg(b) {
      var n := DataLength(b);
      if |b| == n {
        assert b[n..] == [];
      } else {
        PrefixedDrains(b[n..], cap);
      }
    }
  }

  predicate AllWithin(ms: seq<seq<Byte>>, cap: nat) {
    forall i :: 0 <= i < |ms| ==> |ms[i]| <= cap
  }

  /** However much of the stream has arrived, the message loop ends and leaves room. */
  ghost predicate AlwaysRoom(ms: seq<seq<Byte>>, cap: nat) {
    forall b | b <= Flatten(ms) :: HasRoom(b, cap)
  }

  predicate HasRoom(b: seq<Byte>, cap: nat) {
    !Spins(b) && |Drain(b).rest| < cap
  }

  /** Some arrived prefix of the stream fills the buffer: everything before message `i`
      and the first `cap` bytes of it. */
  lemma OversizeFills(ms: seq<seq<Byte>>, i: nat, cap: nat) returns (b: seq<Byte>)
    requires AllFramed(ms) && i < |ms| && cap < |ms[i]|
    ensures b <= Flatten(ms) && Drain(b).msgs == ms[..i] && Drain(b).rest == ms[i][..cap]
  {
    var head := ms[i][..cap];
    b := Flatten(ms[..i]) + head;
    assert ms == ms[..i] + ms[i..];
    FlattenAppend(ms[..i], ms[i..]);
    assert Flatten(ms[i..]) == ms[i] + Flatten(ms[i..][1..]);
    assert ms[i] == head + ms[i][cap..];
    assert head <= Flatten(ms[i..]);
    DrainFlatten(ms[..i], head);
    if cap >= HEADER {
      assert DataLength(head) == DataLength(ms[i]);
    }
    assert ms[..i] + [] == ms[..i];
  }

  /** `recv` is offered room at every moment of a stream exactly when no message of it is
      longer than the buffer. */
  lemma AlwaysRoomIffMessagesFit(ms: seq<seq<Byte>>, cap: nat)
    requires AllFramed(ms) && cap > 0
    ensures AlwaysRoom(ms, cap) <==> AllWithin(ms, cap)
  {
    if AllWithin(ms, cap) {
      forall b | b <= Flatten(ms) ensures HasRoom(b, cap) {
        if ms == [] {
          assert b == [];
        } else {
          assert HEADER <= |ms[0]|;
          PrefixOfStream(ms, b, cap);
          PrefixedDrains(b, cap);
        }
      }
    } else {
      var i :| 0 <= i < |ms| && cap < |ms[i]|;
      var b := OversizeFills(ms, i, cap);
      assert !HasRoom(b, cap);
    }
  }
}
