/** CellStream, CellReadStream and CellWriteStream: typed values in a byte buffer. */
module Streams {
  import opened Bytes
  import opened Framing

  /** What the write calls put in a stream.  A scalar is the word in its `width` bytes (1, 2,
      4 or 8; floats and doubles are their bit patterns), an array a 32-bit element count
      and the elements. */
  datatype Value =
    | Scalar(width: nat, word: nat)
    | Array(width: nat, words: seq<nat>)

  predicate Fits(v: Value) {
    match v
    case Scalar(w, x) => 1 <= w <= 8 && x < Pow256(w)
    case Array(w, xs) => 1 <= w <= 8 && |xs| < 0x1_0000_0000 && AllBelow(xs, Pow256(w))
  }

  predicate AllBelow(xs: seq<nat>, bound: nat) {
    xs == [] || (xs[0] < bound && AllBelow(xs[1..], bound))
  }

  /** `n` elements of `w` bytes. */
  function Span(w: nat, n: nat): nat {
    if n == 0 then 0 else w + Span(w, n - 1)
  }

  lemma {:induction false} SpanIsProduct(w: nat, n: nat)
    ensures Span(w, n) == w * n
  {
    if n > 0 {
      SpanIsProduct(w, n - 1);
      assert w * n == w + w * (n - 1);
    }
  }

  function Words(w: nat, xs: seq<nat>): (s: seq<Byte>)
    ensures |s| == Span(w, |xs|)
  {
    if xs == [] then [] else ToLE(xs[0], w) + Words(w, xs[1..])
  }

  function Encode(v: Value): seq<Byte> {
    match v
    case Scalar(w, x) => ToLE(x, w)
    case Array(w, xs) => ToLE(|xs|, 4) + Words(w, xs)
  }

  function EncodeAll(vs: seq<Value>): seq<Byte> {
    if vs == [] then [] else Encode(vs[0]) + EncodeAll(vs[1..])
  }

  /** What a reader asks for: a scalar of a width, or an array of at most `cap` elements. */
  datatype Shape = OneOf(width: nat) | UpTo(width: nat, cap: nat)

  function Unwords(w: nat, n: nat, s: seq<Byte>): (xs: seq<nat>)
    requires |s| == Span(w, n)
    ensures |xs| == n
    decreases n
  {
    if n == 0 then [] else [FromLE(s[..w])] + Unwords(w, n - 1, s[w..])
  }

  /** One read at position 0 of `s`: the value and the bytes consumed, or None for the calls
      that report failure and leave the position. */
  function Read(sh: Shape, s: seq<Byte>): (r: Option<(Value, nat)>)
    ensures r.Some? ==> r.value.1 <= |s|
  {
    match sh
    case OneOf(w) => if |s| >= w then Some((Scalar(w, FromLE(s[..w])), w)) else None
    case UpTo(w, cap) =>
      // `read(len1, false)` leaves the count at 0 when four bytes are not there
      var n := if |s| >= 4 then FromLE(s[..4]) else 0;
      if n <= cap && |s| >= Span(w, n) + 4 then Some((Array(w, Unwords(w, n, s[4..4 + Span(w, n)])), Span(w, n) + 4)) else None
  }

  function Outcome(r: Option<(Value, nat)>): Option<Value> {
    match r case None => None case Some((v, _)) => Some(v)
  }

  predicate Admits(sh: Shape, v: Value) {
    match sh
    case OneOf(w) => v.Scalar? && v.width == w
    case UpTo(w, cap) => v.Array? && v.width == w && |v.words| <= cap
  }

  function ReadAll(shs: seq<Shape>, s: seq<Byte>): Option<(seq<Value>, seq<Byte>)>
    decreases |shs|
  {
    if shs == [] then Some(([], s))
    else
      match Read(shs[0], s)
      case None => None
      case Some((v, n)) =>
        match ReadAll(shs[1..], s[n..])
        case None => None
        case Some((vs, rest)) => Some(([v] + vs, rest))
  }

  lemma {:induction false} UnwordsWords(w: nat, xs: seq<nat>)
    requires AllBelow(xs, Pow256(w))
    ensures Unwords(w, |xs|, Words(w, xs)) == xs
  {
    if xs != [] {
      var s := Words(w, xs);
      assert s[..w] == ToLE(xs[0], w) && s[w..] == Words(w, xs[1..]);
      FromToLE(xs[0], w);
      UnwordsWords(w, xs[1..]);
    }
  }

  lemma {:induction false} WordsUnwords(w: nat, n: nat, s: seq<Byte>)
    requires |s| == Span(w, n)
    ensures Words(w, Unwords(w, n, s)) == s
    ensures AllBelow(Unwords(w, n, s), Pow256(w))
    decreases n
  {
    if n > 0 {
      WordsUnwords(w, n - 1, s[w..]);
      ToFromLE(s[..w]);
      FromLEBound(s[..w]);
      assert Unwords(w, n, s)[1..] == Unwords(w, n - 1, s[w..]);
      assert s == s[..w] + s[w..];
    }
  }

  /** Reading back what was written gives the value and consumes exactly its bytes. */
  lemma ReadEncode(sh: Shape, v: Value, tail: seq<Byte>)
    requires Fits(v) && Admits(sh, v)
    ensures Read(sh, Encode(v) + tail) == Some((v, |Encode(v)|))
  {
    var s := Encode(v) + tail;
    match v
    case Scalar(w, x) =>
      assert s[..w] == ToLE(x, w);
      FromToLE(x, w);
    case Array(w, xs) =>
      assert s[..4] == ToLE(|xs|, 4);
      assert Pow256(4) == 0x1_0000_0000;
      FromToLE(|xs|, 4);
      assert s[4..4 + Span(w, |xs|)] == Words(w, xs);
      UnwordsWords(w, xs);
  }

  /** Conversely a successful read found the encoding of what it returns. */
  lemma EncodeRead(sh: Shape, s: seq<Byte>)
    requires 1 <= sh.width <= 8 && Read(sh, s).Some?
    ensures var (v, n) := Read(sh, s).value;
            Fits(v) && Admits(sh, v) && n == |Encode(v)| && s[..n] == Encode(v)
  {
    match sh
    case OneOf(w) =>
      ToFromLE(s[..w]);
      FromLEBound(s[..w]);
    case UpTo(w, cap) =>
      if |s| >= 4 {
        var n := FromLE(s[..4]);
        assert Pow256(4) == 0x1_0000_0000;
        ToFromLE(s[..4]);
        FromLEBound(s[..4]);
        WordsUnwords(w, n, s[4..4 + Span(w, n)]);
        assert s[..Span(w, n) + 4] == s[..4] + s[4..4 + Span(w, n)];
      }
  }

  predicate AllAdmit(shs: seq<Shape>, vs: seq<Value>) {
    if shs == [] || vs == [] then shs == [] && vs == []
    else Fits(vs[0]) && Admits(shs[0], vs[0]) && AllAdmit(shs[1..], vs[1..])
  }

  lemma {:induction false} ReadEncodeAll(shs: seq<Shape>, vs: seq<Value>, tail: seq<Byte>)
    requires AllAdmit(shs, vs)
    ensures ReadAll(shs, EncodeAll(vs) + tail) == Some((vs, tail))
    decreases |vs|
  {
    if vs == [] {
      assert EncodeAll(vs) + tail == tail;
    } else {
      var more := EncodeAll(vs[1..]) + tail;
      Assoc(Encode(vs[0]), EncodeAll(vs[1..]), tail);
      ReadEncodeAll(shs[1..], vs[1..], tail);
      ReadFirst(shs, vs[0], more);
      assert [vs[0]] + vs[1..] == vs;
    }
  }

  lemma ReadFirst(shs: seq<Shape>, v: Value, more: seq<Byte>)
    requires shs != [] && Fits(v) && Admits(shs[0], v)
    ensures ReadAll(shs, Encode(v) + more) ==
            match ReadAll(shs[1..], more) case None => None case Some((vs, rest)) => Some(([v] + vs, rest))
  {
    ReadEncode(shs[0], v, more);
    assert (Encode(v) + more)[|Encode(v)|..] == more;
  }

  lemma {:induction false} EncodeReadAll(shs: seq<Shape>, s: seq<Byte>)
    requires (forall i :: 0 <= i < |shs| ==> 1 <= shs[i].width <= 8) && ReadAll(shs, s).Some?
    ensures var (vs, rest) := ReadAll(shs, s).value;
            AllAdmit(shs, vs) && EncodeAll(vs) + rest == s
    decreases |shs|
  {
    if shs != [] {
      EncodeRead(shs[0], s);
      var (v, n) := Read(shs[0], s).value;
      EncodeReadAll(shs[1..], s[n..]);
      var (vs, rest) := ReadAll(shs[1..], s[n..]).value;
      EncodeReadStep(v, vs, rest, s);
      AdmitCons(shs, v, vs);
    }
  }

  lemma EncodeReadStep(v: Value, vs: seq<Value>, rest: seq<Byte>, s: seq<Byte>)
    requires |Encode(v)| <= |s| && s[..|Encode(v)|] == Encode(v) && EncodeAll(vs) + rest == s[|Encode(v)|..]
    ensures EncodeAll([v] + vs) + rest == s
  {
    EncodeAllCons(v, vs);
    Assoc(Encode(v), EncodeAll(vs), rest);
    assert s == s[..|Encode(v)|] + s[|Encode(v)|..];
  }

  lemma EncodeAllCons(v: Value, vs: seq<Value>)
    ensures EncodeAll([v] + vs) == Encode(v) + EncodeAll(vs)
  {
    assert ([v] + vs)[1..] == vs;
  }

  lemma AdmitCons(shs: seq<Shape>, v: Value, vs: seq<Value>)
    requires shs != [] && Fits(v) && Admits(shs[0], v) && AllAdmit(shs[1..], vs)
    ensures AllAdmit(shs, [v] + vs)
  {
    assert ([v] + vs)[1..] == vs;
  }

  // ---- messages ----

  /** A finished CellWriteStream: length word, command word, values. */
  function Message(cmd: nat, vs: seq<Value>): seq<Byte>
  {
    var body := EncodeAll(vs);
    ToLE(4 + |body|, 2) + ToLE(cmd, 2) + body
  }

  /** Everything written between setNetCmd and finish is read back by a CellReadStream over
      the bytes, which it consumes entirely; the header is the length and the command. */
  lemma MessageRoundTrip(cmd: nat, shs: seq<Shape>, vs: seq<Value>)
    requires cmd < 0x1_0000 && AllAdmit(shs, vs) && |Message(cmd, vs)| <= 0xFFFF
    ensures var m := Message(cmd, vs);
            && ReadAll([OneOf(2), OneOf(2)] + shs, m) == Some(([Scalar(2, |m|), Scalar(2, cmd)] + vs, []))
            && m[0] as int + 256 * m[1] as int == |m|
  {
    var m := Message(cmd, vs);
    var body := EncodeAll(vs);
    ReadEncodeAll(shs, vs, []);
    assert body + [] == body;
    TwoWords(|m|, cmd, shs, body, vs);
    LengthWord(|m|, ToLE(cmd, 2) + body);
    Assoc(ToLE(|m|, 2), ToLE(cmd, 2), body);
  }

  lemma TwoWords(a: nat, b: nat, shs: seq<Shape>, body: seq<Byte>, vs: seq<Value>)
    requires a < 0x1_0000 && b < 0x1_0000 && ReadAll(shs, body) == Some((vs, []))
    ensures ReadAll([OneOf(2), OneOf(2)] + shs, ToLE(a, 2) + ToLE(b, 2) + body) ==
            Some(([Scalar(2, a), Scalar(2, b)] + vs, []))
  {
    assert Pow256(2) == 0x1_0000;
    var one := [OneOf(2)] + shs;
    assert one[1..] == shs;
    ReadFirst(one, Scalar(2, b), body);
    var two := [OneOf(2), OneOf(2)] + shs;
    assert two[1..] == one;
    Assoc(ToLE(a, 2), ToLE(b, 2), body);
    ReadFirst(two, Scalar(2, a), ToLE(b, 2) + body);
    assert [Scalar(2, a)] + ([Scalar(2, b)] + vs) == [Scalar(2, a), Scalar(2, b)] + vs;
  }

  lemma LengthWord(n: nat, more: seq<Byte>)
    requires n < 0x1_0000
    ensures var m := ToLE(n, 2) + more; m[0] as int + 256 * m[1] as int == n
  {
    var head := ToLE(n, 2);
    assert Pow256(2) == 0x1_0000;
    FromToLE(n, 2);
    TwoBytes(head);
    assert (head + more)[0] == head[0] && (head + more)[1] == head[1];
  }

  lemma TwoBytes(s: seq<Byte>)
    requires |s| == 2
    ensures FromLE(s) == s[0] as int + 256 * s[1] as int
  {
    assert FromLE(s[1..]) == s[1];
  }

  // ---- the object ----

  /** CellStream on a buffer of the caller's.  Sizes stay below 2^31, where the conversions
      of `canRead` and `canWrite` to int are exact. */
  class CellStream {
    const buff: array<Byte>
    var writePos: nat
    var readPos: nat

    ghost predicate Valid()
      reads this
    {
      readPos <= writePos <= buff.Length < 0x8000_0000
    }

    ghost function Written(): seq<Byte>
      reads this, buff
      requires Valid()
    {
      buff[..writePos]
    }

    ghost function Unread(): seq<Byte>
      reads this, buff
      requires Valid()
    {
      buff[readPos..writePos]
    }

    constructor (data: array<Byte>)
      requires data.Length < 0x8000_0000
      ensures Valid() && buff == data && writePos == readPos == 0
    {
      buff := data;
      writePos, readPos := 0, 0;
    }

    /** write<T> and writeArray: all or nothing. */
    method Write(v: Value) returns (ok: bool)
      requires Valid() && |Encode(v)| < 0x8000_0000
      modifies this, buff
      ensures Valid() && readPos == old(readPos)
      ensures ok == (old(writePos) + |Encode(v)| <= buff.Length)
      ensures Written() == if ok then old(Written()) + Encode(v) else old(Written())
      ensures !ok ==> buff[..] == old(buff[..])
    {
      match v
      case Scalar(w, x) =>
        ok := WriteBytes(ToLE(x, w));
      case Array(w, xs) =>
        SpanIsProduct(w, |xs|);
        if buff.Length - writePos >= w * |xs| + 4 {
          ghost var before := Written();
          var count, body := ToLE(|xs|, 4), Words(w, xs);
          ok := WriteBytes(count);
          ok := WriteBytes(body);
          Assoc(before, count, body);
        } else {
          ok := false;
        }
    }

    method WriteBytes(s: seq<Byte>) returns (ok: bool)
      requires Valid()
      modifies this, buff
      ensures Valid() && readPos == old(readPos)
      ensures ok == (old(writePos) + |s| <= buff.Length)
      ensures Written() == if ok then old(Written()) + s else old(Written())
      ensures buff[writePos..] == old(buff[..])[writePos..]
      ensures !ok ==> buff[..] == old(buff[..])
    {
      if buff.Length - writePos >= |s| {
        CopyIn(buff, writePos, s);
        writePos := writePos + |s|;
        return true;
      }
      return false;
    }

    /** read<T> with its offset flag. */
    method ReadScalar(w: nat, advance: bool) returns (r: Option<Value>)
      requires Valid()
      modifies this
      ensures Valid() && writePos == old(writePos)
      ensures r == Outcome(Read(OneOf(w), old(Unread())))
      ensures readPos == if r.Some? && advance then old(readPos) + w else old(readPos)
    {
      if writePos - readPos >= w {
        assert buff[readPos..readPos + w] == Unread()[..w];
        r := Some(Scalar(w, FromLE(buff[readPos..readPos + w])));
        if advance {
          readPos := readPos + w;
        }
      } else {
        r := None;
      }
    }

    /** readArray into room for `cap` elements; a failure leaves the position. */
    method ReadArray(w: nat, cap: nat) returns (r: Option<Value>)
      requires Valid()
      modifies this
      ensures Valid() && writePos == old(writePos)
      ensures r == Outcome(Read(UpTo(w, cap), old(Unread())))
      ensures readPos == if r.Some? then old(readPos) + Read(UpTo(w, cap), old(Unread())).value.1 else old(readPos)
    {
      ghost var s := Unread();
      var n := 0;
      var count := ReadScalar(4, false);
      if count.Some? {
        n := count.value.word;
      }
      var size := w * n;
      SpanIsProduct(w, n);
      if n <= cap && writePos - readPos >= size + 4 {
        readPos := readPos + 4;
        var body := buff[readPos..readPos + size];
        assert body == s[4..4 + size];
        r := Some(Array(w, Unwords(w, n, body)));
        readPos := readPos + size;
      } else {
        r := None;
      }
    }

    /** A read call of either kind. */
    method ReadValue(sh: Shape) returns (r: Option<Value>)
      requires Valid()
      modifies this
      ensures Valid() && writePos == old(writePos)
      ensures r == Outcome(Read(sh, old(Unread())))
      ensures readPos == if r.Some? then old(readPos) + Read(sh, old(Unread())).value.1 else old(readPos)
    {
      match sh
      case OneOf(w) => r := ReadScalar(w, true);
      case UpTo(w, cap) => r := ReadArray(w, cap);
    }
  }

  /** CellReadStream's constructor: everything is there to read, and the two header words
      are skipped when present. */
  method OpenRead(data: array<Byte>) returns (r: CellStream)
    requires data.Length < 0x8000_0000
    ensures fresh(r) && r.Valid() && r.buff == data && r.writePos == data.Length
    ensures r.readPos == if data.Length >= 4 then 4 else if data.Length >= 2 then 2 else 0
  {
    r := new CellStream(data);
    r.writePos := data.Length;
    var _ := r.ReadScalar(2, true);
    var _ := r.ReadScalar(2, true);
  }

  /** CellWriteStream's constructor: room for the length word. */
  method OpenWrite(data: array<Byte>) returns (s: CellStream)
    requires data.Length < 0x8000_0000
    modifies data
    ensures fresh(s) && s.Valid() && s.buff == data && s.readPos == 0
    ensures s.Written() == if data.Length >= 2 then [0, 0] else []
  {
    s := new CellStream(data);
    var _ := s.Write(Scalar(2, 0));
    assert ToLE(0, 2) == [0, 0];
  }

  /** CellWriteStream::finish: the length, modulo 2^16, replaces the first two bytes, which
      the constructor has kept for it unless the buffer is too small to. */
  method Finish(s: CellStream)
    requires s.Valid() && (s.writePos >= 2 || s.buff.Length < 2) && s.readPos == 0
    modifies s, s.buff
    ensures s.Valid() && s.writePos == old(s.writePos) && s.readPos == 0
    ensures s.Written() == if s.writePos < 2 then old(s.Written())
                           else ToLE(s.writePos % 0x1_0000, 2) + old(s.Written())[2..]
  {
    var pos := s.writePos;
    ghost var all := s.buff[..];
    var head := ToLE(pos % 0x1_0000, 2);
    s.writePos := 0;
    var ok := s.WriteBytes(head);
    if ok {
      Patched(s.buff[..], all, head, pos);
    }
    s.writePos := pos;
  }

  lemma Patched(now: seq<Byte>, all: seq<Byte>, head: seq<Byte>, pos: nat)
    requires |head| == 2 <= pos <= |all| == |now| && now[..2] == head && now[2..] == all[2..]
    ensures now[..pos] == head + all[..pos][2..]
  {
    assert forall i :: 2 <= i < pos ==> now[i] == now[2..][i - 2] == all[i];
  }

  lemma {:induction false} EncodeAllAppend(xs: seq<Value>, ys: seq<Value>)
    ensures EncodeAll(xs + ys) == EncodeAll(xs) + EncodeAll(ys)
  {
    if xs == [] {
      assert xs + ys == ys;
    } else {
      assert (xs + ys)[0] == xs[0] && (xs + ys)[1..] == xs[1..] + ys;
      EncodeAllAppend(xs[1..], ys);
      Assoc(Encode(xs[0]), EncodeAll(xs[1..]), EncodeAll(ys));
    }
  }

  /** The bytes that get in when each of `codes` is written in turn, whole or not at all,
      and the failing ones are passed over, with `free` bytes left. */
  function Packed(codes: seq<seq<Byte>>, free: nat): (s: seq<Byte>)
    ensures |s| <= free
  {
    if codes == [] then []
    else if |codes[0]| <= free then codes[0] + Packed(codes[1..], free - |codes[0]|)
    else Packed(codes[1..], free)
  }

  function Codes(vs: seq<Value>): seq<seq<Byte>> {
    if vs == [] then [] else [Encode(vs[0])] + Codes(vs[1..])
  }

  lemma {:induction false} CodesAt(vs: seq<Value>, i: nat)
    requires i < |vs|
    ensures |Codes(vs)| == |vs| && Codes(vs)[i] == Encode(vs[i])
  {
    if i > 0 {
      CodesAt(vs[1..], i - 1);
    } else if |vs| > 1 {
      CodesAt(vs[1..], 0);
    }
  }

  lemma {:induction false} CodesFlatten(vs: seq<Value>)
    ensures Flatten(Codes(vs)) == EncodeAll(vs)
  {
    if vs != [] {
      CodesFlatten(vs[1..]);
      assert Codes(vs)[1..] == Codes(vs[1..]);
    }
  }

  /** Nothing is passed over when everything fits, and something is when it does not. */
  lemma {:induction false} PackedWhole(codes: seq<seq<Byte>>, free: nat)
    ensures |Flatten(codes)| <= free ==> Packed(codes, free) == Flatten(codes)
    ensures |Packed(codes, free)| <= |Flatten(codes)|
    ensures |Flatten(codes)| > free ==> |Packed(codes, free)| < |Flatten(codes)|
  {
    if codes != [] {
      if |codes[0]| <= free {
        PackedWhole(codes[1..], free - |codes[0]|);
      } else {
        PackedWhole(codes[1..], free);
      }
    }
  }

  lemma PackedFirst(code: seq<Byte>, rest: seq<seq<Byte>>, free: nat)
    ensures Packed([code] + rest, free) ==
            if |code| <= free then code + Packed(rest, free - |code|) else Packed(rest, free)
    ensures |Flatten([code] + rest)| == |code| + |Flatten(rest)|
  {
    assert ([code] + rest)[1..] == rest;
  }

  /** One write call, with `rest` still to come. */
  method WriteNext(s: CellStream, v: Value, ghost rest: seq<seq<Byte>>) returns (wrote: bool)
    requires s.Valid() && |Encode(v)| < 0x8000_0000
    modifies s, s.buff
    ensures s.Valid() && s.readPos == old(s.readPos)
    ensures wrote == (|Encode(v)| <= s.buff.Length - old(s.writePos))
    ensures s.writePos == old(s.writePos) + (if wrote then |Encode(v)| else 0)
    ensures s.Written() + Packed(rest, s.buff.Length - s.writePos) ==
            old(s.Written()) + Packed([Encode(v)] + rest, s.buff.Length - old(s.writePos))
  {
    ghost var before, code := s.Written(), Encode(v);
    PackedFirst(code, rest, s.buff.Length - s.writePos);
    wrote := s.Write(v);
    if wrote {
      Assoc(before, code, Packed(rest, s.buff.Length - s.writePos));
    }
  }

  /** A sequence of write calls, each made whether or not the ones before it succeeded. */
  method WriteAll(s: CellStream, vs: seq<Value>) returns (ok: bool)
    requires s.Valid() && s.readPos == 0
    requires forall i :: 0 <= i < |vs| ==> |Encode(vs[i])| < 0x8000_0000
    modifies s, s.buff
    ensures s.Valid() && s.readPos == 0
    ensures ok == (old(s.writePos) + |EncodeAll(vs)| <= s.buff.Length)
    ensures s.Written() == old(s.Written()) + Packed(Codes(vs), s.buff.Length - old(s.writePos))
  {
    ghost var codes := Codes(vs);
    CodesFlatten(vs);
    forall i | 0 <= i < |vs| ensures |codes| == |vs| && codes[i] == Encode(vs[i]) { CodesAt(vs, i); }
    ok := WriteEach(s, vs, codes);
  }

  method WriteEach(s: CellStream, vs: seq<Value>, ghost codes: seq<seq<Byte>>) returns (ok: bool)
    requires s.Valid() && s.readPos == 0 && |codes| == |vs|
    requires forall i :: 0 <= i < |vs| ==> codes[i] == Encode(vs[i]) && |codes[i]| < 0x8000_0000
    modifies s, s.buff
    ensures s.Valid() && s.readPos == 0
    ensures ok == (old(s.writePos) + |Flatten(codes)| <= s.buff.Length)
    ensures s.Written() == old(s.Written()) + Packed(codes, s.buff.Length - old(s.writePos))
    decreases |vs|
  {
    if vs == [] {
      assert s.Written() + [] == s.Written();
      return true;
    }
    ghost var rest := codes[1..];
    assert codes == [codes[0]] + rest;
    PackedFirst(codes[0], rest, s.buff.Length - s.writePos);
    var wrote := WriteNext(s, vs[0], rest);
    var more := WriteEach(s, vs[1..], rest);
    ok := wrote && more;
  }

  /** What follows the two bytes kept for the length in a buffer of `size` bytes. */
  function Rest(cmd: nat, vs: seq<Value>, size: nat): seq<Byte> {
    Packed([ToLE(cmd, 2)] + Codes(vs), if size >= 2 then size - 2 else size)
  }

  /** A whole message through the stream: setNetCmd, the writes, finish.  The buffer holds
      the length and every value that got in; all of them do exactly when everything fits,
      and then it holds the message, header included, as long as its length is a 16-bit
      number. */
  method WriteMessage(data: array<Byte>, cmd: nat, vs: seq<Value>) returns (ok: bool, len: nat)
    requires data.Length < 0x8000_0000 && cmd < 0x1_0000
    requires forall i :: 0 <= i < |vs| ==> |Encode(vs[i])| < 0x8000_0000
    modifies data
    ensures ok == (4 + |EncodeAll(vs)| <= data.Length)
    ensures len == (if data.Length >= 2 then 2 else 0) + |Rest(cmd, vs, data.Length)| <= data.Length
    ensures data[..len] == (if data.Length >= 2 then ToLE(len % 0x1_0000, 2) else []) + Rest(cmd, vs, data.Length)
    ensures ok ==> len == |Message(cmd, vs)|
    ensures ok && len <= 0xFFFF ==> data[..len] == Message(cmd, vs)
  {
    ok, len := WriteParts(data, Scalar(2, cmd), vs);
    WholeMessage(cmd, vs, data.Length, len);
  }

  lemma WholeMessage(cmd: nat, vs: seq<Value>, size: nat, len: nat)
    ensures |Message(cmd, vs)| == 4 + |EncodeAll(vs)|
    ensures 4 + |EncodeAll(vs)| <= size ==> 2 + |Rest(cmd, vs, size)| == 4 + |EncodeAll(vs)|
    ensures len == 4 + |EncodeAll(vs)| <= size && len <= 0xFFFF ==>
              ToLE(len % 0x1_0000, 2) + Rest(cmd, vs, size) == Message(cmd, vs)
  {
    MessageIs(cmd, vs, 2);
    WholeRest(cmd, vs, size, ToLE(len % 0x1_0000, 2), 2);
  }

  lemma MessageIs(cmd: nat, vs: seq<Value>, w: nat)
    requires w == 2
    ensures Message(cmd, vs) == ToLE(4 + |EncodeAll(vs)|, w) + ToLE(cmd, w) + EncodeAll(vs)
    ensures |Message(cmd, vs)| == 4 + |EncodeAll(vs)|
  {
  }

  lemma WholeRest(cmd: nat, vs: seq<Value>, size: nat, head: seq<Byte>, w: nat)
    requires w == 2
    ensures 4 + |EncodeAll(vs)| <= size ==>
              2 + |Rest(cmd, vs, size)| == 4 + |EncodeAll(vs)| && head + Rest(cmd, vs, size) == head + ToLE(cmd, w) + EncodeAll(vs)
  {
    CodesFlatten(vs);
    if 4 + |EncodeAll(vs)| <= size {
      MessageSize(ToLE(cmd, w), Codes(vs), head, size - 2);
    }
  }

  /** The same with any two-byte value for the command. */
  method WriteParts(data: array<Byte>, first: Value, vs: seq<Value>) returns (ok: bool, len: nat)
    requires data.Length < 0x8000_0000 && |Encode(first)| == 2
    requires forall i :: 0 <= i < |vs| ==> |Encode(vs[i])| < 0x8000_0000
    modifies data
    ensures ok == (4 + |EncodeAll(vs)| <= data.Length)
    ensures var rest := Packed([Encode(first)] + Codes(vs), if data.Length >= 2 then data.Length - 2 else data.Length);
            && len == (if data.Length >= 2 then 2 else 0) + |rest| <= data.Length
            && data[..len] == (if data.Length >= 2 then ToLE(len % 0x1_0000, 2) else []) + rest
  {
    var s := OpenWrite(data);
    EncodeAllCons(first, vs);
    var all := [first] + vs;
    assert all[1..] == vs && Codes(all) == [Encode(first)] + Codes(vs);
    ok := WriteAll(s, all);
    len := s.writePos;
    FinishRest(s, if data.Length >= 2 then [0, 0] else [], Packed(Codes(all), if data.Length >= 2 then data.Length - 2 else data.Length));
  }

  /** The whole of it, when everything fits. */
  lemma MessageSize(word: seq<Byte>, codes: seq<seq<Byte>>, head: seq<Byte>, free: nat)
    requires |word| + |Flatten(codes)| <= free
    ensures var rest := Packed([word] + codes, free);
            |rest| == |word| + |Flatten(codes)| && head + rest == head + word + Flatten(codes)
  {
    var all := [word] + codes;
    assert all[0] == word && all[1..] == codes;
    assert Flatten(all) == word + Flatten(codes);
    PackedWhole(all, free);
    Assoc(head, word, Flatten(codes));
  }

  /** finish on a stream that starts with what the constructor kept for the length. */
  method FinishRest(s: CellStream, ghost room: seq<Byte>, ghost rest: seq<Byte>)
    requires s.Valid() && s.readPos == 0 && s.Written() == room + rest
    requires |room| == if s.buff.Length >= 2 then 2 else 0
    modifies s, s.buff
    ensures s.Valid() && s.writePos == old(s.writePos)
    ensures s.Written() == (if s.buff.Length >= 2 then ToLE(s.writePos % 0x1_0000, 2) else []) + rest
  {
    Finish(s);
    if s.buff.Length >= 2 {
      assert (room + rest)[2..] == rest;
    }
  }

  /** One read call in a sequence of them. */
  method ReadNext(r: CellStream, shs: seq<Shape>, i: nat) returns (v: Option<Value>)
    requires r.Valid() && i < |shs|
    modifies r
    ensures r.Valid() && r.writePos == old(r.writePos)
    ensures v.None? ==> ReadAll(shs[i..], old(r.Unread())).None?
    ensures v.Some? ==> ReadAll(shs[i..], old(r.Unread())) == Prepend([v.value], ReadAll(shs[i + 1..], r.Unread()))
  {
    ghost var s := r.Unread();
    assert shs[i..][0] == shs[i] && shs[i..][1..] == shs[i + 1..];
    v := r.ReadValue(shs[i]);
    assert v.Some? ==> r.Unread() == s[Read(shs[i], s).value.1..];
  }

  /** A CellReadStream over a message, and one read call per shape until one fails. */
  method ReadMessage(data: array<Byte>, shs: seq<Shape>) returns (vs: seq<Value>, ok: bool, left: nat)
    requires 4 <= data.Length < 0x8000_0000
    ensures ok <==> ReadAll(shs, data[4..]).Some?
    ensures ok ==> ReadAll(shs, data[4..]).value.0 == vs && left == |ReadAll(shs, data[4..]).value.1|
  {
    var r := OpenRead(data);
    vs, ok, left := [], true, 0;
    var i := 0;
    assert shs[0..] == shs && r.Unread() == data[4..];
    PrependNone(ReadAll(shs, data[4..]));
    while i < |shs|
      invariant i <= |shs| && ok && r.Valid()
      invariant ReadAll(shs, data[4..]) == Prepend(vs, ReadAll(shs[i..], r.Unread()))
    {
      var v := ReadNext(r, shs, i);
      if v.None? {
        ok := false;
        return;
      }
      PrependOne(vs, v.value, ReadAll(shs[i + 1..], r.Unread()));
      vs := vs + [v.value];
      i := i + 1;
    }
    left := r.writePos - r.readPos;
    assert vs + [] == vs;
  }

  function Prepend(vs: seq<Value>, r: Option<(seq<Value>, seq<Byte>)>): Option<(seq<Value>, seq<Byte>)> {
    match r case None => None case Some((ws, rest)) => Some((vs + ws, rest))
  }

  lemma PrependNone(r: Option<(seq<Value>, seq<Byte>)>)
    ensures Prepend([], r) == r
  {
    if r.Some? {
      assert [] + r.value.0 == r.value.0;
    }
  }

  lemma PrependOne(vs: seq<Value>, v: Value, r: Option<(seq<Value>, seq<Byte>)>)
    ensures Prepend(vs, Prepend([v], r)) == Prepend(vs + [v], r)
  {
    if r.Some? {
      Assoc(vs, [v], r.value.0);
    }
  }

  /** The two streams back to back: what the write stream finished is what the read stream
      returns, to the last byte. */
  method WriteThenRead(size: nat, cmd: nat, shs: seq<Shape>, vs: seq<Value>) returns (wrote: bool, got: seq<Value>, ok: bool, left: nat)
    requires size < 0x8000_0000 && cmd < 0x1_0000 && AllAdmit(shs, vs)
    requires forall i :: 0 <= i < |vs| ==> |Encode(vs[i])| < 0x8000_0000
    ensures wrote == (|Message(cmd, vs)| <= size)
    ensures wrote && |Message(cmd, vs)| <= 0xFFFF ==> ok && got == vs && left == 0
  {
    got, ok, left := [], false, 0;
    var data := new Byte[size];
    var len;
    wrote, len := WriteMessage(data, cmd, vs);
    if wrote && len <= 0xFFFF {
      var sent := new Byte[len](i requires 0 <= i < data.Length reads data => data[i]);
      assert sent[..] == data[..len];
      assert sent[4..] == EncodeAll(vs) + [];
      ReadEncodeAll(shs, vs, []);
      got, ok, left := ReadMessage(sent, shs);
    }
  }
}
