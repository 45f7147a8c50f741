/** MyServer's CMD_LOGOUT case: the request is decoded field by field and encoded again. */
module Logout {
  import opened Basics
  import opened Bytes
  import opened Framing
  import opened Streams

  const CMD_LOGOUT: nat := 2
  const CMD_LOGOUT_RESULT: nat := 3

  /** The reads in order: int8, int16, int32, float, double, name[32], pw[32], int data[10]. */
  function Scalars(): seq<Shape> { [OneOf(1), OneOf(2), OneOf(4), OneOf(4), OneOf(8)] }
  function Arrays(): seq<Shape> { [UpTo(1, 32), UpTo(1, 32), UpTo(4, 10)] }
  function FieldShapes(): (shs: seq<Shape>)
    ensures |shs| == 8
    ensures forall i :: 0 <= i < |shs| ==> 1 <= shs[i].width <= 8
  {
    Scalars() + Arrays()
  }

  /** What the handler holds after a read that fails: an empty array, zero for the 8- and
      16-bit reads, and for the wider ones, which leave their variable unset, any word. */
  function Default(sh: Shape, unset: nat): Value {
    match sh
    case UpTo(w, _) => Array(w, [])
    case OneOf(w) => Scalar(w, if w <= 2 then 0 else unset % Pow256(w))
  }

  function Field(sh: Shape, s: seq<Byte>, unset: nat): Value {
    match Read(sh, s) case None => Default(sh, unset) case Some((v, _)) => v
  }

  function After(sh: Shape, s: seq<Byte>): seq<Byte> {
    match Read(sh, s) case None => s case Some((_, n)) => s[n..]
  }

  /** All fields; `unset[i]` is what the i-th variable holds before its read. */
  function Fields(shs: seq<Shape>, s: seq<Byte>, unset: seq<nat>): seq<Value>
    requires |unset| == |shs|
    decreases |shs|
  {
    if shs == [] then []
    else [Field(shs[0], s, unset[0])] + Fields(shs[1..], After(shs[0], s), unset[1..])
  }

  function AfterAll(shs: seq<Shape>, s: seq<Byte>): seq<Byte>
    decreases |shs|
  {
    if shs == [] then s else AfterAll(shs[1..], After(shs[0], s))
  }

  lemma {:induction false} FieldsAppend(a: seq<Shape>, b: seq<Shape>, s: seq<Byte>, ua: seq<nat>, ub: seq<nat>)
    requires |ua| == |a| && |ub| == |b|
    ensures Fields(a + b, s, ua + ub) == Fields(a, s, ua) + Fields(b, AfterAll(a, s), ub)
    ensures AfterAll(a + b, s) == AfterAll(b, AfterAll(a, s))
    decreases |a|
  {
    if a == [] {
      assert a + b == b && ua + ub == ub;
    } else {
      assert (a + b)[0] == a[0] && (a + b)[1..] == a[1..] + b;
      assert (ua + ub)[0] == ua[0] && (ua + ub)[1..] == ua[1..] + ub;
      FieldsAppend(a[1..], b, After(a[0], s), ua[1..], ub);
      Assoc([Field(a[0], s, ua[0])], Fields(a[1..], After(a[0], s), ua[1..]), Fields(b, AfterAll(a, s), ub));
    }
  }

  function Reply(request: seq<Byte>, unset: seq<nat>): seq<Byte>
    requires |request| >= HEADER && |unset| == 8
  {
    Message(CMD_LOGOUT_RESULT, Fields(FieldShapes(), request[4..], unset))
  }

  /** The eight fields are there, within their limits, and nothing follows them. */
  predicate WellFormed(request: seq<Byte>) {
    Framed(request) &&
    ReadAll(FieldShapes(), request[4..]).Some? && ReadAll(FieldShapes(), request[4..]).value.1 == []
  }

  /** The request with only its command word replaced. */
  function WithCmd(request: seq<Byte>, cmd: nat): seq<Byte>
    requires |request| >= HEADER
  {
    request[..2] + ToLE(cmd, 2) + request[4..]
  }

  lemma {:induction false} FieldsAreRead(shs: seq<Shape>, s: seq<Byte>, unset: seq<nat>)
    requires |unset| == |shs| && ReadAll(shs, s).Some?
    ensures Fields(shs, s, unset) == ReadAll(shs, s).value.0
    decreases |shs|
  {
    if shs != [] {
      FieldsAreRead(shs[1..], After(shs[0], s), unset[1..]);
    }
  }

  lemma FieldAdmitted(sh: Shape, s: seq<Byte>, unset: nat)
    requires 1 <= sh.width <= 8
    ensures Fits(Field(sh, s, unset)) && Admits(sh, Field(sh, s, unset))
  {
    if Read(sh, s).Some? {
      EncodeRead(sh, s);
    }
  }

  lemma {:induction false} FieldsAdmitted(shs: seq<Shape>, s: seq<Byte>, unset: seq<nat>)
    requires |unset| == |shs|
    requires forall i :: 0 <= i < |shs| ==> 1 <= shs[i].width <= 8
    ensures AllAdmit(shs, Fields(shs, s, unset))
    decreases |shs|
  {
    if shs != [] {
      FieldAdmitted(shs[0], s, unset[0]);
      FieldsAdmitted(shs[1..], After(shs[0], s), unset[1..]);
    }
  }

  lemma HeaderWord(request: seq<Byte>)
    requires Framed(request)
    ensures request[..2] == ToLE(|request|, 2)
  {
    TwoBytes(request[..2]);
    ToFromLE(request[..2]);
  }

  /** The reply is the request, byte for byte and length header included, with only the
      command replaced, exactly when the request is a well-formed logout, whatever each of
      the unset variables holds. */
  lemma ReplyEchoesIff(request: seq<Byte>, unset: seq<nat>)
    requires Framed(request) && |unset| == 8
    ensures Reply(request, unset) == WithCmd(request, CMD_LOGOUT_RESULT) <==> WellFormed(request)
  {
    WellFormedEchoes(request, unset);
    if Reply(request, unset) == WithCmd(request, CMD_LOGOUT_RESULT) {
      EchoIsWellFormed(request, unset);
    }
  }

  lemma {:induction false} AdmitEach(shs: seq<Shape>, vs: seq<Value>)
    requires |shs| == |vs| && forall i :: 0 <= i < |vs| ==> Fits(vs[i]) && Admits(shs[i], vs[i])
    ensures AllAdmit(shs, vs)
    decreases |vs|
  {
    if vs != [] {
      AdmitEach(shs[1..], vs[1..]);
    }
  }

  /** What the client writes, in the order of the message. */
  datatype Logout = Logout(n1: Value, n2: Value, n3: Value, n4: Value, n5: Value, name: Value, pw: Value, data: Value) {
    predicate Valid() {
      && Fits(n1) && Admits(OneOf(1), n1) && Fits(n2) && Admits(OneOf(2), n2) && Fits(n3) && Admits(OneOf(4), n3)
      && Fits(n4) && Admits(OneOf(4), n4) && Fits(n5) && Admits(OneOf(8), n5)
      && Fits(name) && Admits(UpTo(1, 32), name) && Fits(pw) && Admits(UpTo(1, 32), pw)
      && Fits(data) && Admits(UpTo(4, 10), data)
    }

    function Values(): seq<Value> { [n1, n2, n3, n4, n5, name, pw, data] }
  }

  /** The handler reads each value into its own variable, in that order. */
  lemma FieldsInOrder(m: Logout, unset: seq<nat>)
    requires m.Valid() && |unset| == 8
    ensures AllAdmit(FieldShapes(), m.Values())
    ensures Fields(FieldShapes(), EncodeAll(m.Values()), unset) == m.Values()
    ensures Reply(Message(CMD_LOGOUT, m.Values()), unset) == Message(CMD_LOGOUT_RESULT, m.Values())
  {
    var shs, vs := FieldShapes(), m.Values();
    assert shs[0] == OneOf(1) && shs[1] == OneOf(2) && shs[2] == OneOf(4) && shs[3] == OneOf(4) && shs[4] == OneOf(8);
    assert shs[5] == UpTo(1, 32) && shs[6] == UpTo(1, 32) && shs[7] == UpTo(4, 10);
    AdmitEach(shs, vs);
    FieldsRoundTrip(shs, vs, unset);
    EveryLogoutEchoes(vs, unset);
  }

  lemma FieldsRoundTrip(shs: seq<Shape>, vs: seq<Value>, unset: seq<nat>)
    requires AllAdmit(shs, vs) && |unset| == |shs|
    ensures Fields(shs, EncodeAll(vs), unset) == vs
  {
    ReadEncodeAll(shs, vs, []);
    assert EncodeAll(vs) + [] == EncodeAll(vs);
    FieldsAreRead(shs, EncodeAll(vs), unset);
  }

  /** A bare header is not echoed: every field gets its default and is written out. */
  lemma BareHeaderNotEchoed(unset: seq<nat>)
    requires |unset| == 8
    ensures var request := [4, 0, 2, 0];
            Framed(request) && Reply(request, unset) != WithCmd(request, CMD_LOGOUT_RESULT)
  {
    var request := [4, 0, 2, 0];
    assert DataLength(request) == 4 && request[4..] == [];
    var shs := FieldShapes();
    assert shs[0] == OneOf(1);
    assert Read(shs[0], []) == None;
    ReplyEchoesIff(request, unset);
  }

  lemma WellFormedEchoes(request: seq<Byte>, unset: seq<nat>)
    requires Framed(request) && |unset| == 8
    ensures WellFormed(request) ==> Reply(request, unset) == WithCmd(request, CMD_LOGOUT_RESULT)
  {
    if WellFormed(request) {
      var shs, body := FieldShapes(), request[4..];
      HeaderWord(request);
      FieldsAreRead(shs, body, unset);
      EncodeReadAll(shs, body);
      var vs := Fields(shs, body, unset);
      assert EncodeAll(vs) + [] == EncodeAll(vs);
    }
  }

  /** Every choice of the eight values within their limits makes a well-formed request, and
      the reply carries the same values. */
  lemma EveryLogoutEchoes(vs: seq<Value>, unset: seq<nat>)
    requires AllAdmit(FieldShapes(), vs) && |unset| == 8
    ensures var request := Message(CMD_LOGOUT, vs);
            WellFormed(request) && Reply(request, unset) == Message(CMD_LOGOUT_RESULT, vs)
  {
    var request := Message(CMD_LOGOUT, vs);
    var body := EncodeAll(vs);
    SizeAll(FieldShapes(), vs);
    MaxReply();
    Assoc(ToLE(|request|, 2), ToLE(CMD_LOGOUT, 2), body);
    LengthWord(|request|, ToLE(CMD_LOGOUT, 2) + body);
    assert request[4..] == body + [];
    ReadEncodeAll(FieldShapes(), vs, []);
    FieldsAreRead(FieldShapes(), body + [], unset);
  }

  lemma EchoIsWellFormed(request: seq<Byte>, unset: seq<nat>)
    requires Framed(request) && |unset| == 8 && Reply(request, unset) == WithCmd(request, CMD_LOGOUT_RESULT)
    ensures WellFormed(request)
  {
    var shs, body := FieldShapes(), request[4..];
    var vs := Fields(shs, body, unset);
    SameBody(request, vs);
    FieldsAdmitted(shs, body, unset);
    ReadEncodeAll(shs, vs, []);
    assert EncodeAll(vs) + [] == body;
  }

  lemma SameBody(request: seq<Byte>, vs: seq<Value>)
    requires Framed(request) && Message(CMD_LOGOUT_RESULT, vs) == WithCmd(request, CMD_LOGOUT_RESULT)
    ensures EncodeAll(vs) == request[4..]
  {
    assert Message(CMD_LOGOUT_RESULT, vs)[4..] == EncodeAll(vs);
    assert WithCmd(request, CMD_LOGOUT_RESULT)[4..] == request[4..];
  }

  // ---- the handler ----

  /** One read of the handler; the variable keeps its default when the read fails. */
  method Take(r: CellStream, sh: Shape, unset: nat) returns (v: Value)
    requires r.Valid()
    modifies r
    ensures r.Valid() && r.writePos == old(r.writePos)
    ensures v == Field(sh, old(r.Unread()), unset)
    ensures r.Unread() == After(sh, old(r.Unread()))
  {
    ghost var s := r.Unread();
    var got := r.ReadValue(sh);
    v := if got.Some? then got.value else Default(sh, unset);
  }

  lemma FieldsCons(sh: Shape, shs: seq<Shape>, s: seq<Byte>, u: nat, us: seq<nat>)
    requires |us| == |shs|
    ensures Fields([sh] + shs, s, [u] + us) == [Field(sh, s, u)] + Fields(shs, After(sh, s), us)
    ensures AfterAll([sh] + shs, s) == AfterAll(shs, After(sh, s))
  {
    assert ([sh] + shs)[1..] == shs && ([u] + us)[1..] == us;
  }

  lemma FieldsTwo(a: Shape, b: Shape, s: seq<Byte>, ua: nat, ub: nat)
    ensures Fields([a, b], s, [ua, ub]) == [Field(a, s, ua), Field(b, After(a, s), ub)]
    ensures AfterAll([a, b], s) == After(b, After(a, s))
  {
    FieldsCons(b, [], After(a, s), ub, []);
    FieldsCons(a, [b], s, ua, [ub]);
    assert [a] + [b] == [a, b] && [ua] + [ub] == [ua, ub];
  }

  method TakeTwo(r: CellStream, a: Shape, b: Shape, ua: nat, ub: nat) returns (vs: seq<Value>)
    requires r.Valid()
    modifies r
    ensures r.Valid() && r.writePos == old(r.writePos)
    ensures vs == Fields([a, b], old(r.Unread()), [ua, ub]) && r.Unread() == AfterAll([a, b], old(r.Unread()))
  {
    ghost var s := r.Unread();
    var x := Take(r, a, ua);
    var y := Take(r, b, ub);
    vs := [x, y];
    FieldsTwo(a, b, s, ua, ub);
  }

  method ReadScalars(r: CellStream, u: seq<nat>) returns (vs: seq<Value>)
    requires r.Valid() && |u| == 5
    modifies r
    ensures r.Valid() && r.writePos == old(r.writePos)
    ensures vs == Fields(Scalars(), old(r.Unread()), u) && r.Unread() == AfterAll(Scalars(), old(r.Unread()))
  {
    ghost var s0 := r.Unread();
    var n1 := Take(r, OneOf(1), u[0]);
    ghost var s1 := r.Unread();
    var n23 := TakeTwo(r, OneOf(2), OneOf(4), u[1], u[2]);
    var n45 := TakeTwo(r, OneOf(4), OneOf(8), u[3], u[4]);
    vs := [n1] + (n23 + n45);
    assert [u[0]] + ([u[1], u[2]] + [u[3], u[4]]) == u;
    FieldsAppend([OneOf(2), OneOf(4)], [OneOf(4), OneOf(8)], s1, [u[1], u[2]], [u[3], u[4]]);
    FieldsCons(OneOf(1), [OneOf(2), OneOf(4)] + [OneOf(4), OneOf(8)], s0, u[0], [u[1], u[2]] + [u[3], u[4]]);
  }

  method ReadArrays(r: CellStream, u: seq<nat>) returns (vs: seq<Value>)
    requires r.Valid() && |u| == 3
    modifies r
    ensures r.Valid() && r.writePos == old(r.writePos)
    ensures vs == Fields(Arrays(), old(r.Unread()), u)
  {
    ghost var s0 := r.Unread();
    var n6 := Take(r, UpTo(1, 32), u[0]);
    var n78 := TakeTwo(r, UpTo(1, 32), UpTo(4, 10), u[1], u[2]);
    vs := [n6] + n78;
    assert [u[0]] + [u[1], u[2]] == u;
    FieldsCons(UpTo(1, 32), [UpTo(1, 32), UpTo(4, 10)], s0, u[0], [u[1], u[2]]);
  }

  method ReadFields(header: array<Byte>, unset: seq<nat>) returns (vs: seq<Value>)
    requires HEADER <= header.Length <= 0xFFFF && |unset| == 8
    ensures vs == Fields(FieldShapes(), header[4..], unset)
  {
    var r := OpenRead(header);
    ghost var body := header[4..];
    assert r.Unread() == body;
    var _ := r.ReadScalar(4, false);  // r.onlyRead(n) moves nothing
    var scalars := ReadScalars(r, unset[..5]);
    var arrays := ReadArrays(r, unset[5..]);
    vs := scalars + arrays;
    assert unset[..5] + unset[5..] == unset;
    FieldsAppend(Scalars(), Arrays(), body, unset[..5], unset[5..]);
  }

  /** The case itself: what it passes to SendData. */
  method HandleLogout(header: array<Byte>, unset: seq<nat>) returns (reply: seq<Byte>)
    requires HEADER <= header.Length <= 0xFFFF && |unset| == 8
    ensures reply == Reply(header[..], unset)
    ensures |reply| <= 139
  {
    assert header[..][4..] == header[4..];
    var vs := ReadFields(header, unset);
    FieldsAdmitted(FieldShapes(), header[4..], unset);
    reply := WriteReply(vs);
  }

  method WriteReply(vs: seq<Value>) returns (reply: seq<Byte>)
    requires AllAdmit(FieldShapes(), vs)
    ensures reply == Message(CMD_LOGOUT_RESULT, vs) && |reply| <= 139
  {
    SizeAll(FieldShapes(), vs);
    MaxReply();
    var data := new Byte[1024];
    var ok, len := WriteMessage(data, CMD_LOGOUT_RESULT, vs);
    reply := data[..len];
  }

  function MaxOne(sh: Shape): nat {
    match sh case OneOf(w) => w case UpTo(w, cap) => 4 + Span(w, cap)
  }

  function MaxSize(shs: seq<Shape>): nat {
    if shs == [] then 0 else MaxOne(shs[0]) + MaxSize(shs[1..])
  }

  lemma MaxCons(sh: Shape, shs: seq<Shape>)
    ensures MaxSize([sh] + shs) == MaxOne(sh) + MaxSize(shs)
  {
    assert ([sh] + shs)[1..] == shs;
  }

  lemma {:induction false} MaxAppend(a: seq<Shape>, b: seq<Shape>)
    ensures MaxSize(a + b) == MaxSize(a) + MaxSize(b)
  {
    if a == [] {
      assert a + b == b;
    } else {
      assert (a + b)[0] == a[0] && (a + b)[1..] == a[1..] + b;
      MaxAppend(a[1..], b);
    }
  }

  lemma MaxThree(a: Shape, b: Shape, c: Shape)
    ensures MaxSize([a, b, c]) == MaxOne(a) + MaxOne(b) + MaxOne(c)
  {
    MaxCons(c, []);
    MaxCons(b, [c]);
    MaxCons(a, [b, c]);
    assert [b] + [c] == [b, c] && [a] + [b, c] == [a, b, c];
  }

  /** So the reply always fits the 1024-byte write stream. */
  lemma MaxReply()
    ensures MaxSize(FieldShapes()) == 135
  {
    SpanIsProduct(4, 10);
    SpanIsProduct(1, 32);
    MaxThree(UpTo(1, 32), UpTo(1, 32), UpTo(4, 10));
    MaxThree(OneOf(1), OneOf(2), OneOf(4));
    MaxCons(OneOf(4), [OneOf(8)]);
    MaxCons(OneOf(8), []);
    MaxAppend([OneOf(1), OneOf(2), OneOf(4)], [OneOf(4)] + [OneOf(8)]);
    assert Scalars() == [OneOf(1), OneOf(2), OneOf(4)] + ([OneOf(4)] + [OneOf(8)]);
    MaxAppend(Scalars(), Arrays());
  }

  lemma SizeOne(sh: Shape, v: Value)
    requires Fits(v) && Admits(sh, v)
    ensures |Encode(v)| <= MaxOne(sh)
  {
    if v.Array? {
      SpanIsProduct(v.width, |v.words|);
      SpanIsProduct(v.width, sh.cap);
      MulMono(|v.words|, sh.cap, v.width);
    }
  }

  lemma {:induction false} SizeAll(shs: seq<Shape>, vs: seq<Value>)
    requires AllAdmit(shs, vs)
    ensures |EncodeAll(vs)| <= MaxSize(shs)
    ensures forall i :: 0 <= i < |vs| ==> |Encode(vs[i])| <= MaxSize(shs)
    decreases |vs|
  {
    if vs != [] {
      SizeOne(shs[0], vs[0]);
      SizeAll(shs[1..], vs[1..]);
      forall i | 0 < i < |vs| ensures |Encode(vs[i])| <= MaxSize(shs) {
        assert vs[i] == vs[1..][i - 1];
      }
    }
  }
}
