// What goes out on a TCP connection, as a sequence of pieces of messages.

module SocketStream {

  type Byte = x: int | 0 <= x < 256

  datatype Option<+T> = None | Some(value: T)

  datatype Message = Message(id: nat, low: bool, data: seq<Byte>)

  // A message that waits, with the number of its bytes already written.
  datatype Buffer = Buffer(m: Message, ptr: nat)

  // A stretch of the connection's bytes: the first 'len' bytes of 'm'.
  datatype Piece = Piece(m: Message, len: nat)

  predicate Whole(p: Piece) { p.len == |p.m.data| }

  ghost predicate Sound(ps: seq<Piece>) { forall k :: 0 <= k < |ps| ==> ps[k].len <= |ps[k].m.data| }

  ghost function Bytes(ps: seq<Piece>): seq<Byte>
    requires Sound(ps)
  {
    if ps == [] then [] else Bytes(ps[..|ps| - 1]) + ps[|ps| - 1].m.data[..ps[|ps| - 1].len]
  }

  // The messages that are out, in order.
  ghost function Done(ps: seq<Piece>): seq<Message> {
    if ps == [] then [] else Done(ps[..|ps| - 1]) + if Whole(ps[|ps| - 1]) then [ps[|ps| - 1].m] else []
  }

  // Some message was begun and not finished.
  ghost predicate Torn(ps: seq<Piece>) { exists k :: 0 <= k < |ps| && !Whole(ps[k]) }

  // Nothing follows an unfinished message.
  ghost predicate Clean(ps: seq<Piece>) {
    forall j, k {:trigger ps[j], ps[k]} :: 0 <= j < k < |ps| && !Whole(ps[j]) ==> ps[k].len == 0
  }

  function Flatten(ms: seq<Message>): seq<Byte> {
    if ms == [] then [] else Flatten(ms[..|ms| - 1]) + ms[|ms| - 1].data
  }

  // The buffer is the one that the last piece belongs to.
  predicate Follows(ps: seq<Piece>, b: Buffer) { ps != [] && ps[|ps| - 1] == Piece(b.m, b.ptr) }

  // One write of 'n' bytes of a buffer.
  function Wrote(ps: seq<Piece>, b: Buffer, n: nat): seq<Piece> {
    if b.ptr > 0 && ps != [] then ps[..|ps| - 1] + [Piece(b.m, b.ptr + n)]
    else if n == 0 && b.m.data != [] then ps
    else ps + [Piece(b.m, n)]
  }

  lemma WroteFacts(ps: seq<Piece>, b: Buffer, n: nat)
    requires Sound(ps) && b.ptr + n <= |b.m.data| && (b.ptr > 0 ==> Follows(ps, b))
    requires b.ptr < |b.m.data| || b.m.data == []
    ensures Sound(Wrote(ps, b, n))
    ensures Bytes(Wrote(ps, b, n)) == Bytes(ps) + b.m.data[b.ptr..b.ptr + n]
    ensures Done(Wrote(ps, b, n)) == Done(ps) + (if b.ptr + n == |b.m.data| then [b.m] else [])
  {
    var ps' := Wrote(ps, b, n);
    if b.ptr > 0 {
      var p0 := ps[..|ps| - 1];
      assert ps'[..|ps'| - 1] == p0;
      assert b.m.data[..b.ptr + n] == b.m.data[..b.ptr] + b.m.data[b.ptr..b.ptr + n];
    } else if n == 0 && b.m.data != [] {
      assert b.m.data[b.ptr..b.ptr] == [];
    } else {
      assert ps'[..|ps'| - 1] == ps;
      assert b.m.data[..n] == b.m.data[0..n];
    }
  }

  // The only write that spoils the stream is that of a new message after an
  // unfinished one.
  lemma WroteClean(ps: seq<Piece>, b: Buffer, n: nat)
    requires Sound(ps) && b.ptr + n <= |b.m.data| && (b.ptr > 0 ==> Follows(ps, b))
    requires b.ptr < |b.m.data| || b.m.data == []
    ensures Clean(Wrote(ps, b, n)) <==> Clean(ps) && (b.ptr == 0 && n > 0 ==> !Torn(ps))
  {
    var ps' := Wrote(ps, b, n);
    assert forall k :: 0 <= k < |ps| - 1 ==> ps'[k] == ps[k];
    if b.ptr > 0 {
      assert forall j, k :: 0 <= j < k < |ps| ==> (ps'[k].len == 0 <==> ps[k].len == 0) && ps'[j] == ps[j];
    } else if ps' != ps {
      assert forall k :: 0 <= k < |ps| ==> ps'[k] == ps[k];
      if n > 0 && Torn(ps) {
        var j :| 0 <= j < |ps| && !Whole(ps[j]);
        assert !Whole(ps'[j]) && ps'[|ps|].len == n;
      }
      if Clean(ps') {
        forall j, k | 0 <= j < k < |ps| && !Whole(ps[j]) ensures ps[k].len == 0 {
          assert !Whole(ps'[j]) && ps'[k] == ps[k];
        }
      }
    }
  }

  // The bytes of unfinished messages.
  ghost function Rest(ps: seq<Piece>): seq<Byte>
    requires Sound(ps)
  {
    if ps == [] then []
    else Rest(ps[..|ps| - 1]) + if Whole(ps[|ps| - 1]) then [] else ps[|ps| - 1].m.data[..ps[|ps| - 1].len]
  }

  lemma CleanInit(ps: seq<Piece>)
    requires ps != [] && Clean(ps) && Sound(ps)
    ensures var p0, last := ps[..|ps| - 1], ps[|ps| - 1];
      Clean(p0) && Sound(p0) && (Torn(p0) ==> last.len == 0) && (Torn(ps) <==> Torn(p0) || !Whole(last))
  {
    var p0, last := ps[..|ps| - 1], ps[|ps| - 1];
    assert forall k :: 0 <= k < |p0| ==> p0[k] == ps[k];
    if Torn(p0) {
      var j :| 0 <= j < |p0| && !Whole(p0[j]);
      assert !Whole(ps[j]) && ps[|ps| - 1] == last;
    }
    if !Whole(last) {
      assert ps[|ps| - 1] == last;
    }
  }

  lemma DoneLast(ps: seq<Piece>)
    requires ps != [] && Sound(ps)
    ensures var p0, last := ps[..|ps| - 1], ps[|ps| - 1];
      Flatten(Done(ps)) == Flatten(Done(p0)) + if Whole(last) then last.m.data else []
  {
    var p0, last := ps[..|ps| - 1], ps[|ps| - 1];
    if Whole(last) {
      assert Done(ps)[..|Done(ps)| - 1] == Done(p0);
    } else {
      assert Done(ps) == Done(p0);
    }
  }

  lemma {:induction false} NothingLeft(ps: seq<Piece>)
    requires Sound(ps) && !Torn(ps)
    ensures Rest(ps) == []
    decreases |ps|
  {
    if ps != [] {
      var p0 := ps[..|ps| - 1];
      assert Whole(ps[|ps| - 1]);
      assert forall k :: 0 <= k < |p0| ==> p0[k] == ps[k];
      NothingLeft(p0);
    }
  }

  lemma {:induction false} RestForm(ps: seq<Piece>)
    requires Sound(ps) && Clean(ps)
    ensures Rest(ps) == [] || exists p: Piece :: p in ps && !Whole(p) && p.len <= |p.m.data| && Rest(ps) == p.m.data[..p.len]
    decreases |ps|
  {
    if ps != [] {
      var p0, last := ps[..|ps| - 1], ps[|ps| - 1];
      CleanInit(ps);
      RestForm(p0);
      if Torn(p0) {
        assert Rest(ps) == Rest(p0);
        if Rest(p0) != [] {
          var p: Piece :| p in p0 && !Whole(p) && p.len <= |p.m.data| && Rest(p0) == p.m.data[..p.len];
          assert p in ps;
        }
      } else {
        NothingLeft(p0);
        assert last in ps;
        assert Rest(ps) == if Whole(last) then [] else last.m.data[..last.len];
      }
    }
  }

  lemma {:induction false} BytesForm(ps: seq<Piece>)
    requires Sound(ps) && Clean(ps)
    ensures Bytes(ps) == Flatten(Done(ps)) + Rest(ps)
    decreases |ps|
  {
    if ps != [] {
      var p0, last := ps[..|ps| - 1], ps[|ps| - 1];
      CleanInit(ps);
      BytesForm(p0);
      DoneLast(ps);
      hide Clean, Torn, Done, Flatten;
      var cut := last.m.data[..last.len];
      if Torn(p0) {
        assert cut == [];
        assert Whole(last) ==> last.m.data == [];
      } else {
        NothingLeft(p0);
        assert Whole(last) ==> cut == last.m.data;
      }
      Shuffle(Flatten(Done(p0)), Rest(p0), cut, Whole(last));
    }
  }

  lemma Shuffle(a: seq<Byte>, b: seq<Byte>, c: seq<Byte>, whole: bool)
    requires b == [] || c == []
    ensures a + b + c == if whole then (a + c) + (b + []) else (a + []) + (b + c)
  {
  }

  // A clean stream is whole messages and at most one unfinished prefix.
  lemma CleanForm(ps: seq<Piece>)
    requires Sound(ps) && Clean(ps)
    ensures exists rest: seq<Byte> :: Bytes(ps) == Flatten(Done(ps)) + rest && (rest == [] || PrefixIn(ps, rest))
  {
    BytesForm(ps);
    RestForm(ps);
    assert Rest(ps) == [] || PrefixIn(ps, Rest(ps));
  }

  ghost predicate PrefixIn(ps: seq<Piece>, rest: seq<Byte>) {
    exists p: Piece :: p in ps && !Whole(p) && p.len <= |p.m.data| && rest == p.m.data[..p.len]
  }
}
