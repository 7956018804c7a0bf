// What whole runs of a connection take in and send out: the commands of the pipe, the
// messages that are accepted, and the bytes that a write event puts on the wire.

module SocketOut {
  import opened SocketStream
  import opened SocketConn
  import opened SocketSpec
  import opened SocketRun

  // ------------------------------------------------------------ what is taken in

  // A command is put into the pipe.
  ghost function Asked(k: Sock, e: Event): seq<Cmd> {
    if e.EPost? && e.k < |k.c.preparing| then [CSend(k.c.preparing[e.k])]
    else if e.ERequest? && !e.cmd.CSend? then [e.cmd]
    else []
  }

  // A command is taken from it.
  ghost function Executed(k: Sock, e: Event): seq<Cmd> {
    if e.ECommand? && k.c.freeing.None? && k.c.pipe != [] then [k.c.pipe[0]] else []
  }

  // A message is accepted: by the socket thread, on a connection that may be written
  // and is not closed, or by a sender that finds nothing before it.
  ghost function Accepts(k: Sock, e: Event): seq<Message> {
    if e.ECommand? && k.c.freeing.None? && k.c.pipe != [] && k.c.pipe[0].CSend? &&
      (k.c.kind == Connecting || k.c.kind == Connected || k.c.kind == HalfRead) && !k.c.closing then [k.c.pipe[0].m]
    else if e.ECheck? && k.c.holder.Some? && k.c.kind == Connected && AllQuiet(k.c) then [k.c.holder.value]
    else []
  }

  ghost function AllAsked(trace: seq<Sock>, es: seq<Event>, n: nat): seq<Cmd>
    requires n <= |es| && |trace| == |es| + 1
  {
    if n == 0 then [] else AllAsked(trace, es, n - 1) + Asked(trace[n - 1], es[n - 1])
  }

  ghost function AllExecuted(trace: seq<Sock>, es: seq<Event>, n: nat): seq<Cmd>
    requires n <= |es| && |trace| == |es| + 1
  {
    if n == 0 then [] else AllExecuted(trace, es, n - 1) + Executed(trace[n - 1], es[n - 1])
  }

  ghost function AllAccepted(trace: seq<Sock>, es: seq<Event>, n: nat): seq<Message>
    requires n <= |es| && |trace| == |es| + 1
  {
    if n == 0 then [] else AllAccepted(trace, es, n - 1) + Accepts(trace[n - 1], es[n - 1])
  }

  // Taken and pipe after an event.
  ghost predicate Takes(k: Sock, e: Event, c': Conn) {
    c'.taken == k.c.taken + Accepts(k, e) && Executed(k, e) + c'.pipe == k.c.pipe + Asked(k, e)
  }

  lemma TakesNone(k: Sock, e: Event, c': Conn)
    requires Accepts(k, e) == [] && Asked(k, e) == [] && Executed(k, e) == [] && c'.taken == k.c.taken && c'.pipe == k.c.pipe
    ensures Takes(k, e, c')
  {
  }

  lemma TakesNext(k: Sock, e: Event)
    requires k.c.Valid()
    ensures Takes(k, e, Next(k, e).c)
  {
    hide Conn.Valid, Takes, Next;
    if e.ECommand? {
      CommandTakes(k, e.enabled);
    } else if e.EWritable? {
      WriteTakes(k, e.acks, e.enabled);
    } else if e.EReadable? || e.EConnect? || e.EResume? || e.EHangUp? || e.EError? || e.EFreed? {
      PollTakes(k, e);
    } else {
      SenderTakes(k, e);
    }
  }

  lemma CommandTakes(k: Sock, enabled: bool)
    requires k.c.Valid()
    ensures Takes(k, ECommand(enabled), Next(k, ECommand(enabled)).c)
  {
    hide Conn.Valid, CommandDone, Dequeued, SendDone, TriggerDone, SocketClosed;
    if k.c.freeing.None? && k.c.pipe != [] {
      TakeCommandOk(k.c);
      CommandIs(k, enabled);
      DequeuedLeaves(k.c);
      var k' := k.(c := Dequeued(k.c));
      match k.c.pipe[0] {
        case CSend(m) => SendTakes(k', m, enabled);
        case CTrigger => TriggerTakes(k', enabled);
        case CClose(shutdown) => ClosedTakes(k', shutdown);
      }
      assert k.c.pipe == [k.c.pipe[0]] + k.c.pipe[1..];
    }
  }

  lemma SendTakes(k: Sock, m: Message, enabled: bool)
    ensures var c' := SendDone(k, m, enabled).c;
      c'.pipe == k.c.pipe &&
      c'.taken == k.c.taken + if (k.c.kind == Connecting || k.c.kind == Connected || k.c.kind == HalfRead) && !k.c.closing then [m] else []
  {
    hide Appended;
    var toLow := m.low && !(k.c.high == [] && k.c.low == []);
    AppendedOuts(k.c, m, toLow);
    AppendedPipe(k.c, m, toLow);
  }

  lemma AppendedPipe(c: Conn, m: Message, toLow: bool)
    ensures Appended(c, m, toLow).pipe == c.pipe
  {
  }

  lemma TriggerTakes(k: Sock, enabled: bool)
    ensures var c' := TriggerDone(k, enabled).c; c'.pipe == k.c.pipe && c'.taken == k.c.taken
  {
  }

  lemma ClosedTakes(k: Sock, shutdown: bool)
    ensures var c' := SocketClosed(k, shutdown).c; c'.pipe == k.c.pipe && c'.taken == k.c.taken
  {
  }

  lemma WriteTakes(k: Sock, acks: seq<Ack>, enabled: bool)
    ensures Takes(k, EWritable(acks, enabled), Next(k, EWritable(acks, enabled)).c)
  {
    hide WrittenOut;
    WrittenLeaves(k, acks, enabled);
  }

  lemma PollTakes(k: Sock, e: Event)
    requires e.EReadable? || e.EConnect? || e.EResume? || e.EHangUp? || e.EError? || e.EFreed?
    ensures Takes(k, e, Next(k, e).c)
  {
    hide Takes, Next;
    PollLeaves(k, e);
    TakesNone(k, e, Next(k, e).c);
  }

  lemma PollLeaves(k: Sock, e: Event)
    requires e.EReadable? || e.EConnect? || e.EResume? || e.EHangUp? || e.EError? || e.EFreed?
    ensures Next(k, e).c.taken == k.c.taken && Next(k, e).c.pipe == k.c.pipe
  {
    hide CommandDone, WrittenOut, Raised, ConnectEnded, HasRead, Resumed, HungUp;
    match e {
      case EReadable(got) => ReadLeaves(k, got);
      case EConnect(ok, enabled) => ConnectLeaves(k, ok, enabled);
      case EResume(enabled) => ResumeLeaves(k, enabled);
      case EHangUp => HungLeaves(k);
      case _ =>
    }
  }

  lemma ReadLeaves(k: Sock, got: Got)
    ensures HasRead(k, got).c.taken == k.c.taken && HasRead(k, got).c.pipe == k.c.pipe
  {
    hide Raised;
  }

  lemma ConnectLeaves(k: Sock, ok: bool, enabled: bool)
    ensures ConnectEnded(k, ok, enabled).c.taken == k.c.taken && ConnectEnded(k, ok, enabled).c.pipe == k.c.pipe
  {
    hide Raised;
  }

  lemma ResumeLeaves(k: Sock, enabled: bool)
    ensures Resumed(k, enabled).c.taken == k.c.taken && Resumed(k, enabled).c.pipe == k.c.pipe
  {
    hide Raised;
  }

  lemma HungLeaves(k: Sock)
    ensures HungUp(k).c.taken == k.c.taken && HungUp(k).c.pipe == k.c.pipe
  {
  }

  lemma SenderTakes(k: Sock, e: Event)
    requires e.ETry? || e.ECheck? || e.EWrite? || e.EFinish? || e.EPrepare? || e.EPost? || e.ERequest?
    ensures Takes(k, e, Next(k, e).c)
  {
    if e.ETry? || e.EWrite? || e.EFinish? || e.EPrepare? {
      SenderKeeps(k, e);
      hide Takes, Next;
      TakesNone(k, e, Next(k, e).c);
    } else {
      hide CommandDone, HasRead, WrittenOut, HungUp, ConnectEnded, Resumed, DirectWritten, DirectEnded;
    }
  }

  lemma SenderKeeps(k: Sock, e: Event)
    requires e.ETry? || e.EWrite? || e.EFinish? || e.EPrepare?
    ensures Next(k, e).c.taken == k.c.taken && Next(k, e).c.pipe == k.c.pipe
  {
    hide CommandDone, HasRead, WrittenOut, HungUp, ConnectEnded, Resumed, DirectWritten, DirectEnded, Accepting, Posted;
    if e.EWrite? && k.c.direct.Some? {
      DirectLeaves(k.c, AckSize(k.c, e.ack));
    }
    if e.EFinish? && k.c.direct.Some? {
      DirectLeaves(k.c, 0);
    }
  }

  lemma DirectLeaves(c: Conn, n: nat)
    requires c.direct.Some? && n <= |c.direct.value.m.data|
    ensures DirectWritten(c, n).taken == c.taken && DirectWritten(c, n).pipe == c.pipe
    ensures DirectEnded(c).taken == c.taken && DirectEnded(c).pipe == c.pipe
  {
    hide Wrote;
  }

  // In any run the messages accepted are these, in this order; and the commands leave
  // the pipe in the order in which they were put in, and none is lost.
  lemma {:induction false} TakenAre(kind: Kind, trace: seq<Sock>, es: seq<Event>, n: nat)
    requires Lawful(kind, trace, es) && n <= |es|
    ensures |trace| == |es| + 1 && trace[n].c.taken == AllAccepted(trace, es, n)
    ensures AllExecuted(trace, es, n) + trace[n].c.pipe == AllAsked(trace, es, n)
    decreases n
  {
    hide Next, Conn.Valid, Lawful, Fresh0, Accepts, Asked, Executed;
    LawfulAt(kind, trace, es, n);
    if n == 0 {
      FreshTakes(kind);
    } else {
      TakenAre(kind, trace, es, n - 1);
      TakesNext(trace[n - 1], es[n - 1]);
      Chained(AllExecuted(trace, es, n - 1), Executed(trace[n - 1], es[n - 1]), trace[n].c.pipe, trace[n - 1].c.pipe, Asked(trace[n - 1], es[n - 1]));
    }
  }

  lemma FreshTakes(kind: Kind)
    ensures Fresh0(kind).taken == [] && Fresh0(kind).pipe == []
  {
  }

  lemma Chained(a: seq<Cmd>, x: seq<Cmd>, p: seq<Cmd>, q: seq<Cmd>, y: seq<Cmd>)
    requires x + p == q + y
    ensures (a + x) + p == (a + q) + y
  {
    assert (a + x) + p == a + (x + p) && (a + q) + y == a + (q + y);
  }

  // ------------------------------------------------------------ what goes out

  // What is left of a buffer.
  function LeftOf(b: Buffer): seq<Byte> { if b.ptr <= |b.m.data| then b.m.data[b.ptr..] else [] }

  function Tail(l: seq<Buffer>): seq<Byte> { if l == [] then [] else LeftOf(l[0]) + Tail(l[1..]) }

  // All that waits to be sent, in the order in which it goes out.
  function Queue(c: Conn): seq<Buffer> { (if c.dw.Some? then [c.dw.value] else []) + c.high + c.low }

  // The kernel takes all of these buffers, with interrupted writes between; what is
  // left of its answers.
  function TakenAll(q: seq<Buffer>, acks: seq<Ack>): Option<seq<Ack>>
    decreases |acks|
  {
    if q == [] then Some(acks)
    else if acks == [] then None
    else match acks[0]
      case Interrupted => TakenAll(q, acks[1..])
      case Sz(n) => if n >= SizeOf(q[0]) then TakenAll(q[1..], acks[1..]) else None
      case _ => None
  }

  // After some of them a write fails.
  predicate FailsIn(q: seq<Buffer>, acks: seq<Ack>)
    decreases |acks|
  {
    q != [] && acks != [] &&
    match acks[0]
    case Interrupted => FailsIn(q, acks[1..])
    case Sz(n) => n >= SizeOf(q[0]) && FailsIn(q[1..], acks[1..])
    case Failed => true
    case Again => false
  }

  lemma {:induction false} TakenConcat(a: seq<Buffer>, b: seq<Buffer>, acks: seq<Ack>)
    ensures TakenAll(a + b, acks) == if TakenAll(a, acks).Some? then TakenAll(b, TakenAll(a, acks).value) else None
    ensures FailsIn(a + b, acks) <==> FailsIn(a, acks) || (TakenAll(a, acks).Some? && FailsIn(b, TakenAll(a, acks).value))
    decreases |acks|
  {
    if a == [] {
      assert a + b == b;
    } else if acks != [] {
      assert (a + b)[1..] == a[1..] + b;
      match acks[0]
      case Interrupted => TakenConcat(a, b, acks[1..]);
      case Sz(n) => if n >= SizeOf(a[0]) { TakenConcat(a[1..], b, acks[1..]); }
      case _ =>
    }
  }

  lemma {:induction false} TailConcat(a: seq<Buffer>, b: seq<Buffer>)
    ensures Tail(a + b) == Tail(a) + Tail(b)
    decreases |a|
  {
    if a == [] {
      assert a + b == b;
    } else {
      assert (a + b)[1..] == a[1..] + b;
      TailConcat(a[1..], b);
    }
  }

  // The heads of buffers are within them.
  predicate Inside(l: seq<Buffer>) { forall k :: 0 <= k < |l| ==> l[k].ptr <= |l[k].m.data| }

  // A write of n bytes of the head moves them from the list to the wire.
  lemma AfterMoves(c: Conn, isLow: bool, n: nat)
    requires Sel(c, isLow) != [] && Inside(Sel(c, isLow)) && n <= SizeOf(Sel(c, isLow)[0])
    ensures var c', l := AfterWrite(c, isLow, n), Sel(c, isLow);
      && c'.wire + Tail(Sel(c', isLow)) == c.wire + Tail(l) && Inside(Sel(c', isLow)) && ListOnly(c, c', isLow)
      && (n == SizeOf(l[0]) ==> Sel(c', isLow) == l[1..])
  {
    hide Wrote, ListOnly, Tail;
    AfterCalm(c, isLow, n);
    var l := Sel(c, isLow);
    AfterParts(c, isLow, n);
    HeadMoves(c.wire, l, n);
    AfterBytes(c, isLow, n);
    hide AfterWrite;
  }

  lemma AfterBytes(c: Conn, isLow: bool, n: nat)
    requires Sel(c, isLow) != [] && n <= SizeOf(Sel(c, isLow)[0])
    ensures var b := Sel(c, isLow)[0]; AfterWrite(c, isLow, n).wire == c.wire + b.m.data[b.ptr..b.ptr + n]
  {
    hide Wrote;
  }

  lemma HeadMoves(wire: seq<Byte>, l: seq<Buffer>, n: nat)
    requires l != [] && Inside(l) && n <= SizeOf(l[0])
    ensures var b := l[0]; wire + b.m.data[b.ptr..b.ptr + n] + Tail(Left(b, n) + l[1..]) == wire + Tail(l)
    ensures Inside(Left(l[0], n) + l[1..]) && (n == SizeOf(l[0]) ==> Left(l[0], n) + l[1..] == l[1..])
  {
    var b := l[0];
    TailConcat(Left(b, n), l[1..]);
    LeftTail(b, n);
    TailHead(l);
    hide Tail, Left;
    Regrouped(wire, b.m.data[b.ptr..b.ptr + n], b.m.data[b.ptr + n..], Tail(l[1..]));
  }

  lemma TailHead(l: seq<Buffer>)
    requires l != [] && Inside(l)
    ensures Tail(l) == l[0].m.data[l[0].ptr..] + Tail(l[1..])
  {
  }

  lemma Regrouped(w: seq<Byte>, x: seq<Byte>, y: seq<Byte>, t: seq<Byte>)
    ensures w + x + (y + t) == w + ((x + y) + t)
  {
  }

  lemma LeftTail(b: Buffer, n: nat)
    requires b.ptr + n <= |b.m.data|
    ensures Tail(Left(b, n)) == b.m.data[b.ptr + n..] && Inside(Left(b, n)) && (n == SizeOf(b) ==> Left(b, n) == [])
    ensures b.m.data[b.ptr..] == b.m.data[b.ptr..b.ptr + n] + b.m.data[b.ptr + n..]
  {
    if n < SizeOf(b) {
      var x := Buffer(b.m, b.ptr + n);
      assert [x][1..] == [];
      assert Tail([x]) == LeftOf(x) + Tail([]);
    } else {
      assert b.m.data[b.ptr + n..] == [];
    }
  }

  // Sending a list.
  lemma {:induction false} ListKeeps(k: Sock, isLow: bool, acks: seq<Ack>)
    requires Inside(Sel(k.c, isLow)) && k.c.kind != Invalid
    ensures var a := ListSent(k, isLow, acks); if a.k.c.kind == Invalid then a.ret == Rst else Keeps(k.c, a.k.c, isLow)
    decreases |acks|
  {
    hide AfterWrite, FailedWrite, ListSent, Keeps, Inside;
    ListStep(k, isLow, acks);
    if acks != [] && Sel(k.c, isLow) != [] && SizeOf(Sel(k.c, isLow)[0]) >= 0 {
      match acks[0]
      case Interrupted => ListKeeps(k, isLow, acks[1..]);
      case Again => KeepsSame(k.c, isLow);
      case Failed => FailedKeeps(k, isLow, acks[1..]);
      case Sz(n) =>
        var w := Accepted(Sel(k.c, isLow)[0], n);
        AfterMoves(k.c, isLow, w);
        var c1 := AfterWrite(k.c, isLow, w);
        KeepsWrite(k.c, c1, isLow);
        ListKeeps(k.(c := c1), isLow, acks[1..]);
        var c2 := ListSent(k.(c := c1), isLow, acks[1..]).k.c;
        if c2.kind != Invalid {
          KeepsTrans(k.c, c1, c2, isLow);
        }
    } else {
      KeepsSame(k.c, isLow);
    }
  }

  // What is on the wire and what waits in the list stay the same together.
  ghost predicate Keeps(c: Conn, c': Conn, isLow: bool) {
    && c'.wire + Tail(Sel(c', isLow)) == c.wire + Tail(Sel(c, isLow)) && Inside(Sel(c', isLow))
    && Sel(c', !isLow) == Sel(c, !isLow) && c'.dw == c.dw
  }

  lemma KeepsSame(c: Conn, isLow: bool)
    requires Inside(Sel(c, isLow))
    ensures Keeps(c, c, isLow)
  {
    hide Tail, Inside;
  }

  lemma KeepsTrans(c: Conn, c1: Conn, c2: Conn, isLow: bool)
    requires Keeps(c, c1, isLow) && Keeps(c1, c2, isLow)
    ensures Keeps(c, c2, isLow)
  {
    hide Tail, Inside;
  }

  lemma KeepsWrite(c: Conn, c': Conn, isLow: bool)
    requires c'.wire + Tail(Sel(c', isLow)) == c.wire + Tail(Sel(c, isLow)) && Inside(Sel(c', isLow)) && ListOnly(c, c', isLow)
    ensures Keeps(c, c', isLow) && c'.kind == c.kind
  {
    hide Tail, Inside;
  }

  lemma FailedKeeps(k: Sock, isLow: bool, left: seq<Ack>)
    requires k.c.kind != Invalid && Inside(Sel(k.c, isLow))
    ensures var a := FailedWrite(k, left); if a.k.c.kind == Invalid then a.ret == Rst else Keeps(k.c, a.k.c, isLow)
  {
    hide Tail, Inside;
  }

  lemma {:induction false} ListTakesAll(k: Sock, isLow: bool, acks: seq<Ack>)
    requires Inside(Sel(k.c, isLow)) && TakenAll(Sel(k.c, isLow), acks).Some?
    ensures var a := ListSent(k, isLow, acks);
      a.ret == GoOn && a.left == TakenAll(Sel(k.c, isLow), acks).value && Sel(a.k.c, isLow) == [] &&
      a.k.c.wire == k.c.wire + Tail(Sel(k.c, isLow)) && ListOnly(k.c, a.k.c, isLow) && a.k == k.(c := a.k.c)
    decreases |acks|
  {
    hide AfterWrite, FailedWrite, ListSent, Tail, ListOnly;
    ListStep(k, isLow, acks);
    if Sel(k.c, isLow) == [] {
      NoTail();
      assert k.c.wire + [] == k.c.wire;
      OnlyNone(k.c, isLow);
    } else if acks[0].Interrupted? {
      ListTakesAll(k, isLow, acks[1..]);
    } else {
      var w := Accepted(Sel(k.c, isLow)[0], acks[0].n);
      AfterMoves(k.c, isLow, w);
      var c1 := AfterWrite(k.c, isLow, w);
      ListTakesAll(k.(c := c1), isLow, acks[1..]);
      OnlyTrans(k.c, c1, ListSent(k.(c := c1), isLow, acks[1..]).k.c, isLow);
    }
  }

  lemma NoTail()
    ensures Tail([]) == []
  {
  }

  lemma {:induction false} ListFails(k: Sock, isLow: bool, acks: seq<Ack>)
    requires Inside(Sel(k.c, isLow)) && FailsIn(Sel(k.c, isLow), acks)
    ensures var a := ListSent(k, isLow, acks); Failing(k, a.k, a.ret)
    decreases |acks|
  {
    hide AfterWrite, FailedWrite, ListSent, ListOnly, Failing;
    ListStep(k, isLow, acks);
    if acks[0].Interrupted? {
      ListFails(k, isLow, acks[1..]);
    } else if acks[0].Failed? {
      FailedIs(k, acks[1..]);
    } else {
      var w := Accepted(Sel(k.c, isLow)[0], acks[0].n);
      AfterMoves(k.c, isLow, w);
      var k1 := k.(c := AfterWrite(k.c, isLow, w));
      ListFails(k1, isLow, acks[1..]);
      FailingFrom(k, k1, ListSent(k1, isLow, acks[1..]), isLow);
    }
  }

  // A write has failed: a closing or half read connection ends without an event,
  // another is half closed once, with an error.
  ghost predicate Failing(k: Sock, k': Sock, ret: Ret) {
    if k.c.closing || k.c.kind == HalfRead then k'.c.kind == Invalid && k'.c.outs == k.c.outs && ret == Rst
    else if k.c.kind == HalfWrite then k'.c.kind == HalfWrite && k'.c.outs == k.c.outs && ret == Rst
    else k'.c.kind == HalfWrite && k'.c.outs == k.c.outs && !k'.writing && ret == Err
  }

  lemma FailedIs(k: Sock, left: seq<Ack>)
    ensures Failing(k, FailedWrite(k, left).k, FailedWrite(k, left).ret)
  {
  }

  lemma FailingFrom(k: Sock, k1: Sock, a: Sent, isLow: bool)
    requires ListOnly(k.c, k1.c, isLow) && Failing(k1, a.k, a.ret)
    ensures Failing(k, a.k, a.ret)
  {
  }

  // ------------------------------------------------------------ one write event

  // What the invariant says of the buffers.
  lemma ValidInside(c: Conn)
    requires c.Valid()
    ensures Inside(c.high) && Inside(c.low) && (c.dw.Some? ==> Inside([c.dw.value] + c.high)) && Inside(Queue(c))
  {
    hide Conn.WireOk, Conn.CountsOk, Conn.CloseOk, Conn.OrderOk, Conn.CutOk;
    var q := c.Waiting();
    forall k | 0 <= k < |q| ensures q[k].ptr <= |q[k].m.data| {
      assert Unsent(q[k]);
    }
    forall k | 0 <= k < |c.high| ensures c.high[k].ptr <= |c.high[k].m.data| {
      assert q[k] == c.high[k];
    }
    forall k | 0 <= k < |c.low| ensures c.low[k].ptr <= |c.low[k].m.data| {
      assert q[|c.high| + k] == c.low[k];
    }
  }

  lemma DrainedIs(k: Sock, enabled: bool)
    requires k.c.high == [] && k.c.low == [] && k.c.dw.None?
    ensures var c' := Drained(k, enabled).k.c;
      && c'.high == [] && c'.low == [] && c'.dw.None? && c'.wire == k.c.wire
      && (k.c.closing ==> c'.kind == Invalid) && (!k.c.closing ==> c'.kind == k.c.kind && !Drained(k, enabled).k.writing)
  {
  }

  // The connection with the buffer of direct writes in front of the high list.
  ghost function Moved(k: Sock): Sock { if k.c.dw.Some? then k.(c := DwMoved(k.c)) else k }

  lemma MovedIs(k: Sock)
    requires k.c.Valid()
    ensures Moved(k) == k.(c := Moved(k).c)
    ensures var c' := Moved(k).c;
      && c'.high + c'.low == Queue(k.c) && c'.low == k.c.low && c'.dw.None? && c'.wire == k.c.wire && c'.kind == k.c.kind
      && c'.closing == k.c.closing && c'.outs == k.c.outs && Inside(c'.high) && Inside(c'.low)
  {
    hide Conn.Valid, Inside;
    ValidInside(k.c);
  }

  // When the kernel takes every byte.
  lemma AllTaken(k: Sock, acks: seq<Ack>, enabled: bool)
    requires k.c.Valid() && !k.c.Locked() && TakenAll(Queue(k.c), acks).Some?
    ensures var c' := WrittenOut(k, acks, enabled).c;
      && c'.high == [] && c'.low == [] && c'.dw.None? && c'.wire == k.c.wire + Tail(Queue(k.c))
      && (k.c.closing ==> c'.kind == Invalid)
      && (!k.c.closing ==> c'.kind == k.c.kind && !WrittenOut(k, acks, enabled).writing)
  {
    hide Conn.Valid, ListsSent, Tail, DwMoved, TakenAll, Queue, Inside;
    MovedIs(k);
    ListsTaken(Moved(k), acks, enabled);
    QueueOuts(ListsSent(Moved(k), acks, enabled).k, ListsSent(Moved(k), acks, enabled).out);
  }

  lemma ListsTaken(k: Sock, acks: seq<Ack>, enabled: bool)
    requires Inside(k.c.high) && Inside(k.c.low) && k.c.dw.None? && TakenAll(k.c.high + k.c.low, acks).Some?
    ensures var a := ListsSent(k, acks, enabled);
      && a.k.c.high == [] && a.k.c.low == [] && a.k.c.dw.None? && a.k.c.wire == k.c.wire + Tail(k.c.high + k.c.low)
      && (k.c.closing ==> a.k.c.kind == Invalid) && (!k.c.closing ==> a.k.c.kind == k.c.kind && !a.k.writing)
  {
    hide ListSent, LowSent, Tail, TakenAll, Inside;
    TakenConcat(k.c.high, k.c.low, acks);
    TailConcat(k.c.high, k.c.low);
    ListTakesAll(k, false, acks);
    var a := ListSent(k, false, acks);
    LowTaken(a.k, a.left, enabled);
    assert k.c.wire + Tail(k.c.high) + Tail(k.c.low) == k.c.wire + (Tail(k.c.high) + Tail(k.c.low));
  }

  lemma LowTaken(k: Sock, acks: seq<Ack>, enabled: bool)
    requires Inside(k.c.low) && k.c.high == [] && k.c.dw.None? && TakenAll(k.c.low, acks).Some?
    ensures var a := LowSent(k, acks, enabled);
      && a.k.c.high == [] && a.k.c.low == [] && a.k.c.dw.None? && a.k.c.wire == k.c.wire + Tail(k.c.low)
      && (k.c.closing ==> a.k.c.kind == Invalid) && (!k.c.closing ==> a.k.c.kind == k.c.kind && !a.k.writing)
  {
    hide ListSent, Drained, Tail, TakenAll;
    ListTakesAll(k, true, acks);
    var b := if k.c.low == [] then Sent(k, GoOn, acks) else ListSent(k, true, acks);
    NoTail();
    assert k.c.low == [] ==> k.c.wire + Tail(k.c.low) == k.c.wire;
    DrainedIs(b.k, enabled);
  }

  // Whatever the kernel takes, the bytes that go out are those that waited, in order.
  lemma WriteMoves(k: Sock, acks: seq<Ack>, enabled: bool)
    requires k.c.Valid() && k.c.Live() && !k.c.Locked()
    ensures var c' := WrittenOut(k, acks, enabled).c;
      c'.kind != Invalid ==> c'.wire + Tail(Queue(c')) == k.c.wire + Tail(Queue(k.c))
  {
    hide Conn.Valid, ListsSent, Tail, DwMoved, Queue;
    if k.c.dw.Some? {
      assert Moved(k) == k.(c := DwMoved(k.c));
    }
    MovedIs(k);
    ListsMove(Moved(k), acks, enabled);
    var a := ListsSent(Moved(k), acks, enabled);
    QueueOuts(a.k, a.out);
  }

  lemma QueueOuts(k: Sock, out: Option<Out>)
    ensures var c' := WithOut(k, out).c; Queue(c') == Queue(k.c) && c'.wire == k.c.wire && c'.kind == k.c.kind
  {
    hide Raised;
  }

  lemma ListsMove(k: Sock, acks: seq<Ack>, enabled: bool)
    requires Inside(k.c.high) && Inside(k.c.low) && k.c.dw.None? && k.c.kind != Invalid
    ensures var c' := ListsSent(k, acks, enabled).k.c;
      c'.kind != Invalid ==> c'.wire + Tail(Queue(c')) == k.c.wire + Tail(k.c.high + k.c.low)
  {
    hide ListSent, LowSent, Tail, Queue;
    ListKeeps(k, false, acks);
    var a := ListSent(k, false, acks);
    TailConcat(k.c.high, k.c.low);
    if a.k.c.kind != Invalid {
      QueueIs(a.k.c);
      TailConcat(a.k.c.high, k.c.low);
      Shuffle(a.k.c.wire, Tail(a.k.c.high), k.c.wire, Tail(k.c.high), Tail(k.c.low));
      if a.ret == GoOn && a.k.c.high == [] {
        LowMoves(a.k, a.left, enabled);
        NoTail();
      }
    }
  }

  lemma Shuffle(w: seq<Byte>, x: seq<Byte>, w0: seq<Byte>, x0: seq<Byte>, y: seq<Byte>)
    requires w + x == w0 + x0
    ensures w + (x + y) == w0 + (x0 + y) && (x == [] ==> w + y == w0 + (x0 + y))
  {
    assert w + (x + y) == (w + x) + y && w0 + (x0 + y) == (w0 + x0) + y;
  }

  lemma QueueIs(c: Conn)
    requires c.dw.None?
    ensures Queue(c) == c.high + c.low && (c.high == [] ==> Queue(c) == c.low)
  {
  }

  lemma LowMoves(k: Sock, acks: seq<Ack>, enabled: bool)
    requires Inside(k.c.low) && k.c.high == [] && k.c.dw.None? && k.c.kind != Invalid
    ensures var c' := LowSent(k, acks, enabled).k.c;
      c'.kind != Invalid ==> c'.wire + Tail(Queue(c')) == k.c.wire + Tail(k.c.low)
  {
    hide ListSent, Drained, Tail, Queue, Inside;
    ListKeeps(k, true, acks);
    var b := if k.c.low == [] then Sent(k, GoOn, acks) else ListSent(k, true, acks);
    if b.k.c.kind != Invalid {
      QueueIs(b.k.c);
      if b.ret == GoOn && b.k.c.low == [] {
        DrainedIs(b.k, enabled);
        QueueIs(Drained(b.k, enabled).k.c);
      } else if b.ret == GoOn && b.k.c.low[0].ptr > 0 {
        var c' := b.k.c.(high := [b.k.c.low[0]], low := b.k.c.low[1..]);
        QueueIs(c');
        assert c'.high + c'.low == b.k.c.low;
      }
    }
  }

  // When a write fails after some buffers.
  lemma WriteFailing(k: Sock, acks: seq<Ack>, enabled: bool)
    requires k.c.Valid() && !k.c.Locked() && FailsIn(Queue(k.c), acks)
    ensures var k' := WrittenOut(k, acks, enabled);
      if k.c.closing || k.c.kind == HalfRead then k'.c.kind == Invalid && k'.c.outs == k.c.outs
      else if k.c.kind == HalfWrite then k'.c.kind == HalfWrite && k'.c.outs == k.c.outs
      else k'.c.kind == HalfWrite && k'.c.outs == k.c.outs + [OErr] && !k'.writing
  {
    hide Conn.Valid, ListsSent, DwMoved, FailsIn, Queue, Inside;
    MovedIs(k);
    var k1 := Moved(k);
    ListsFail(k1, acks, enabled);
    var a := ListsSent(k1, acks, enabled);
    var ret :| Failing(k1, a.k, ret) && a.out == (if ret == Err then Some(OErr) else None);
  }

  lemma ListsFail(k: Sock, acks: seq<Ack>, enabled: bool)
    requires Inside(k.c.high) && Inside(k.c.low) && FailsIn(k.c.high + k.c.low, acks)
    ensures var a := ListsSent(k, acks, enabled); exists ret :: Failing(k, a.k, ret) && a.out == (if ret == Err then Some(OErr) else None)
  {
    hide ListSent, LowSent, TakenAll, FailsIn, Inside, Failing, ListOnly;
    TakenConcat(k.c.high, k.c.low, acks);
    if FailsIn(k.c.high, acks) {
      ListFails(k, false, acks);
      var a := ListSent(k, false, acks);
      NotRet(k, a);
      assert ListsSent(k, acks, enabled) == Answer(a.k, if a.ret == Err then Some(OErr) else None);
      assert Failing(k, a.k, a.ret);
    } else {
      ListTakesAll(k, false, acks);
      var a := ListSent(k, false, acks);
      OnlyLow(k.c, a.k.c);
      LowFails(a.k, a.left, enabled);
      var b := LowSent(a.k, a.left, enabled);
      var ret :| Failing(a.k, b.k, ret) && b.out == (if ret == Err then Some(OErr) else None);
      FailingFrom(k, a.k, Sent(b.k, ret, acks), false);
      assert a.k.c.high == [] && a.ret == GoOn;
      assert ListsSent(k, acks, enabled) == b;
      assert Failing(k, b.k, ret);
    }
  }

  lemma OnlyLow(c: Conn, c': Conn)
    requires ListOnly(c, c', false)
    ensures c'.low == c.low
  {
  }

  lemma LowFails(k: Sock, acks: seq<Ack>, enabled: bool)
    requires Inside(k.c.low) && FailsIn(k.c.low, acks)
    ensures var a := LowSent(k, acks, enabled); exists ret :: Failing(k, a.k, ret) && a.out == (if ret == Err then Some(OErr) else None)
  {
    hide ListSent, Failing;
    ListFails(k, true, acks);
    var b := ListSent(k, true, acks);
    NotRet(k, b);
    assert Failing(k, b.k, b.ret);
    assert k.c.low != [] && LowSent(k, acks, enabled) == Answer(b.k, if b.ret == Err then Some(OErr) else None);
  }

  lemma NotRet(k: Sock, a: Sent)
    requires Failing(k, a.k, a.ret)
    ensures a.ret != GoOn
  {
  }

  // ------------------------------------------------------------ the same, over runs

  // A write event whose kernel takes every byte leaves nothing: all bytes that waited
  // are on the wire, in order, and a close that waited for them goes on.
  lemma WriteAll(kind: Kind, trace: seq<Sock>, es: seq<Event>, n: nat)
    requires Lawful(kind, trace, es) && n < |es| && es[n].EWritable?
    requires var c := trace[n].c; c.Live() && c.kind != Connecting && !c.Locked() && TakenAll(Queue(c), es[n].acks).Some?
    ensures |trace| == |es| + 1
    ensures var c, c' := trace[n].c, trace[n + 1].c;
      && c'.high == [] && c'.low == [] && c'.dw.None? && c'.wire == c.wire + Tail(Queue(c))
      && (c.closing ==> c'.kind == Invalid) && (!c.closing ==> c'.kind == c.kind && !trace[n + 1].writing)
  {
    hide Conn.Valid, WrittenOut, TakenAll, Queue, Tail, Lawful, Next;
    LawfulAt(kind, trace, es, n + 1);
    WritableIs(trace[n], es[n].acks, es[n].enabled);
    AllTaken(trace[n], es[n].acks, es[n].enabled);
  }

  // And whatever it takes, what is on the wire and what waits stay the same together,
  // unless the connection ends.
  lemma WriteKeeps(kind: Kind, trace: seq<Sock>, es: seq<Event>, n: nat)
    requires Lawful(kind, trace, es) && n < |es| && es[n].EWritable?
    ensures |trace| == |es| + 1
    ensures var c, c' := trace[n].c, trace[n + 1].c;
      c'.kind != Invalid ==> c'.wire + Tail(Queue(c')) == c.wire + Tail(Queue(c))
  {
    hide Conn.Valid, WrittenOut, Queue, Tail, Lawful, Next;
    LawfulAt(kind, trace, es, n + 1);
    var k := trace[n];
    WritableIs(k, es[n].acks, es[n].enabled);
    if k.c.Live() && k.c.kind != Connecting {
      if k.c.Locked() {
        LockedStays(k, es[n].acks, es[n].enabled);
      } else {
        WriteMoves(k, es[n].acks, es[n].enabled);
      }
    }
  }

  lemma LockedStays(k: Sock, acks: seq<Ack>, enabled: bool)
    requires k.c.Locked()
    ensures WrittenOut(k, acks, enabled) == k
  {
  }

  // A write that fails half closes a connection once, with an error; one that is half
  // read, or closing, ends without an event.
  lemma WriteFails(kind: Kind, trace: seq<Sock>, es: seq<Event>, n: nat)
    requires Lawful(kind, trace, es) && n < |es| && es[n].EWritable?
    requires var c := trace[n].c; c.Live() && c.kind != Connecting && !c.Locked() && FailsIn(Queue(c), es[n].acks)
    ensures |trace| == |es| + 1
    ensures var k, k' := trace[n], trace[n + 1];
      if k.c.closing || k.c.kind == HalfRead then k'.c.kind == Invalid && k'.c.outs == k.c.outs
      else if k.c.kind == HalfWrite then k'.c.kind == HalfWrite && k'.c.outs == k.c.outs
      else k'.c.kind == HalfWrite && k'.c.outs == k.c.outs + [OErr] && !k'.writing
  {
    hide Conn.Valid, WrittenOut, FailsIn, Queue, Lawful, Next;
    LawfulAt(kind, trace, es, n + 1);
    WritableIs(trace[n], es[n].acks, es[n].enabled);
    WriteFailing(trace[n], es[n].acks, es[n].enabled);
  }

  // A sender that has the lock puts the first bytes of its message on the wire.
  lemma DirectOut(kind: Kind, trace: seq<Sock>, es: seq<Event>, n: nat)
    requires Lawful(kind, trace, es) && n < |es| && es[n].EWrite?
    requires trace[n].c.direct.Some? && !trace[n].c.written
    ensures |trace| == |es| + 1
    ensures var c, data, k := trace[n].c, trace[n].c.direct.value.m.data, if es[n].ack.Sz? then es[n].ack.n else 0;
      trace[n + 1].c.wire == c.wire + if k < |data| then data[..k] else data
  {
    hide Conn.Valid, Lawful, Next;
    LawfulAt(kind, trace, es, n + 1);
    WriteIs(trace[n], es[n].ack);
  }

  lemma WritableIs(k: Sock, acks: seq<Ack>, enabled: bool)
    ensures Next(k, EWritable(acks, enabled)) == if k.c.Live() && k.c.kind != Connecting then WrittenOut(k, acks, enabled) else k
  {
    hide WrittenOut;
  }

  lemma WriteIs(k: Sock, ack: Ack)
    requires k.c.direct.Some? && !k.c.written
    ensures var data, n := k.c.direct.value.m.data, if ack.Sz? then ack.n else 0;
      Next(k, EWrite(ack)).c.wire == k.c.wire + if n < |data| then data[..n] else data
  {
    hide Wrote;
    var data := k.c.direct.value.m.data;
    assert data[0..|data|] == data;
  }

  // ------------------------------------------------------------ how a connection ends

  // Something ends the connection, apart from a write: the peer hangs up, it cannot be
  // made, it has nothing more to read for a close or a half closed side, or a close
  // finds nothing to send, or is a shutdown.
  ghost predicate EndsNow(k: Sock, e: Event) {
    && k.c.Live()
    && match e
       case EHangUp => true
       case EConnect(ok, enabled) => k.c.kind == Connecting && (!ok || (k.writing && AllQuiet(k.c) && !enabled))
       case EReadable(got) =>
         got.Eof? && k.c.kind != Connecting &&
         (if k.c.closing then AllQuiet(k.c) else k.c.kind == HalfWrite)
       case ECommand(_) =>
         k.c.pipe != [] && k.c.pipe[0].CClose? && (k.c.pipe[0].shutdown || AllQuiet(k.c) || k.c.kind == HalfWrite)
       case _ => false
  }

  // From then on it waits for the lock, and leaves the pool of events; that ends when
  // the lock is free.
  lemma EndingIs(kind: Kind, trace: seq<Sock>, es: seq<Event>, n: nat)
    requires Lawful(kind, trace, es) && n < |es|
    ensures |trace| == |es| + 1
    ensures var c, c' := trace[n].c, trace[n + 1].c;
      c'.freeing.Some? <==> EndsNow(trace[n], es[n]) || (c.freeing.Some? && !(es[n].EFreed? && !c.Locked()))
    ensures es[n].EFreed? && trace[n].c.freeing.Some? && !trace[n].c.Locked() ==> trace[n + 1].c.kind == Invalid
  {
    hide Conn.Valid, Lawful, Next, EndsNow;
    LawfulAt(kind, trace, es, n + 1);
    CloseSaid(trace[n].c);
    FreeingNext(trace[n], es[n]);
  }

  lemma FreeingNext(k: Sock, e: Event)
    requires k.c.Valid() && (k.c.closing ==> k.c.kind == HalfRead || k.c.kind == Invalid)
    ensures Next(k, e).c.freeing.Some? <==> EndsNow(k, e) || (k.c.freeing.Some? && !(e.EFreed? && !k.c.Locked()))
    ensures e.EFreed? && k.c.freeing.Some? && !k.c.Locked() ==> Next(k, e).c.kind == Invalid
  {
    hide Conn.Valid, CommandDone, WrittenOut, HasRead, ConnectEnded, Resumed, HungUp, Wrote, DirectWritten, DirectEnded, Accepting, Posted,
      Raised;
    match e {
      case EWritable(acks, enabled) => WrittenLeaves(k, acks, enabled);
      case ECommand(enabled) => if k.c.freeing.None? && k.c.pipe != [] { CommandFrees(k, enabled); }
      case EReadable(got) => if k.c.Live() && k.c.kind != Connecting { ReadFrees(k, got); }
      case EConnect(ok, enabled) => if k.c.Live() && k.c.kind == Connecting { ConnectFrees(k, ok, enabled); }
      case EResume(enabled) => ResumeOwes(k, enabled);
      case EHangUp => HungFrees(k);
      case EError =>
      case EFreed =>
      case _ => SenderLeaves(k, e);
    }
  }

  lemma CommandFrees(k: Sock, enabled: bool)
    requires k.c.Valid() && k.c.freeing.None? && k.c.pipe != []
    ensures CommandDone(k, enabled).c.freeing.Some? <==> EndsNow(k, ECommand(enabled))
  {
    hide Conn.Valid, Dequeued, SendDone, TriggerDone, SocketClosed, CommandDone;
    TakeCommandOk(k.c);
    CommandIs(k, enabled);
    DequeuedLeaves(k.c);
    var k' := k.(c := Dequeued(k.c));
    match k.c.pipe[0] {
      case CSend(m) => SendFreeing(k', m, enabled);
      case CTrigger => TriggerFreeing(k', enabled);
      case CClose(shutdown) => DequeuedQuiet(k.c); ClosedFrees(k', shutdown);
    }
  }

  lemma DequeuedQuiet(c: Conn)
    requires c.pipe != [] && c.pipe[0].CClose?
    ensures Dequeued(c).sending == c.sending && Dequeued(c).dw == c.dw
  {
  }

  lemma ClosedFrees(k: Sock, shutdown: bool)
    requires k.c.freeing.None?
    ensures SocketClosed(k, shutdown).c.freeing.Some? <==> k.c.kind != Invalid && (shutdown || AllQuiet(k.c) || k.c.kind == HalfWrite)
  {
  }

  lemma ReadFrees(k: Sock, got: Got)
    requires k.c.Live() && k.c.kind != Connecting && (k.c.closing ==> k.c.kind == HalfRead || k.c.kind == Invalid)
    ensures HasRead(k, got).c.freeing.Some? <==> EndsNow(k, EReadable(got))
  {
    hide Raised;
  }

  lemma ConnectFrees(k: Sock, ok: bool, enabled: bool)
    requires k.c.Live() && k.c.kind == Connecting
    ensures ConnectEnded(k, ok, enabled).c.freeing.Some? <==> EndsNow(k, EConnect(ok, enabled))
  {
    hide Raised;
  }

  lemma HungFrees(k: Sock)
    ensures HungUp(k).c.freeing.Some?
  {
  }

  // An error of the poll or of a read is raised at once; a connection that was accepted
  // is connected when it is started; a trigger asks for the write event.
  ghost predicate ErrorsAt(k: Sock, k': Sock, e: Event) {
    k.c.Live() ==>
      && (e.EError? || (e.EReadable? && e.got.Broken? && k.c.kind != Connecting) || (e.EResume? && k.c.kind == HalfRead) ==>
            k' == k.(c := k.c.(outs := k.c.outs + [OErr])))
      && (e.EResume? && k.c.kind == PAccept && (k.reading || e.enabled) ==> k'.c.kind == Connected && k'.reading)
      && (e.ECommand? && k.c.pipe != [] && k.c.pipe[0].CTrigger? ==> k'.writing)
  }

  lemma ErrorsAre(kind: Kind, trace: seq<Sock>, es: seq<Event>, n: nat)
    requires Lawful(kind, trace, es) && n < |es|
    ensures |trace| == |es| + 1 && ErrorsAt(trace[n], trace[n + 1], es[n])
  {
    hide Conn.Valid, Lawful, Next;
    LawfulAt(kind, trace, es, n + 1);
    if trace[n].c.Live() {
      match es[n] {
        case EError => ErrorNext(trace[n]);
        case EReadable(got) => BrokenNext(trace[n], got);
        case EResume(enabled) => ResumeNext(trace[n], enabled);
        case ECommand(enabled) => TriggerNext(trace[n], enabled);
        case _ =>
      }
    }
  }

  lemma ErrorNext(k: Sock)
    requires k.c.Live()
    ensures Next(k, EError) == k.(c := k.c.(outs := k.c.outs + [OErr]))
  {
  }

  lemma BrokenNext(k: Sock, got: Got)
    requires k.c.Live()
    ensures got.Broken? && k.c.kind != Connecting ==> Next(k, EReadable(got)) == k.(c := k.c.(outs := k.c.outs + [OErr]))
  {
  }

  lemma ResumeNext(k: Sock, enabled: bool)
    requires k.c.Live()
    ensures var k' := Next(k, EResume(enabled));
      && (k.c.kind == PAccept && (k.reading || enabled) ==> k'.c.kind == Connected && k'.reading)
      && (k.c.kind == HalfRead ==> k' == k.(c := k.c.(outs := k.c.outs + [OErr])))
  {
  }

  lemma TriggerNext(k: Sock, enabled: bool)
    requires k.c.Live()
    ensures k.c.pipe != [] && k.c.pipe[0].CTrigger? ==> Next(k, ECommand(enabled)).writing
  {
  }

  // A sender gets the lock if and only if nothing is before its message; it has it
  // until its write has ended, and what the kernel left waits in front of the lists.
  ghost predicate SendersAt(c: Conn, c': Conn, e: Event) {
    && (e.ETry? ==> c'.holder == if c.kind == Connected && AllQuiet(c) && !c.Locked() && !c.closing then Some(e.m) else c.holder)
    && (e.ECheck? && c.holder.Some? ==>
          c'.holder.None? &&
          (if c.kind == Connected && AllQuiet(c) then c'.direct == Some(Buffer(c.holder.value, 0)) else c'.direct == c.direct))
    && (e.EFinish? && c.direct.Some? && c.written ==>
          c'.direct.None? && (c.direct.value.ptr != |c.direct.value.m.data| ==> c'.dw == c.direct))
    && (e.EPrepare? ==> c'.preparing == c.preparing + [e.m])
  }

  lemma SendersAre(kind: Kind, trace: seq<Sock>, es: seq<Event>, n: nat)
    requires Lawful(kind, trace, es) && n < |es|
    ensures |trace| == |es| + 1 && SendersAt(trace[n].c, trace[n + 1].c, es[n])
  {
    hide Conn.Valid, Lawful, Next, SendersAt;
    LawfulAt(kind, trace, es, n + 1);
    SendersNext(trace[n], es[n]);
  }

  lemma SendersNext(k: Sock, e: Event)
    ensures SendersAt(k.c, Next(k, e).c, e)
  {
    hide CommandDone, WrittenOut, HasRead, ConnectEnded, Resumed, HungUp, DirectWritten, Posted, CloseEnded;
  }

  // ------------------------------------------------------------ nothing is stranded

  // A write event is enabled while something waits in the lists; the reading of a half
  // read connection is switched off.
  ghost predicate Enabled(k: Sock) {
    && (k.c.Live() && k.c.kind != HalfWrite && (k.c.high != [] || k.c.low != []) ==> k.writing)
    && (k.c.Live() && k.c.kind == HalfRead ==> !k.reading)
  }

  // In any run whose write events come only when they are enabled, that holds: what
  // waits is sent when the kernel allows it.
  lemma {:induction false} FlagsAre(kind: Kind, trace: seq<Sock>, es: seq<Event>, n: nat)
    requires Lawful(kind, trace, es) && n <= |es| && |trace| == |es| + 1
    requires forall k :: 0 <= k < n && es[k].EWritable? ==> trace[k].writing
    ensures Enabled(trace[n])
    decreases n
  {
    hide Conn.Valid, Lawful, Next, Enabled;
    if n == 0 {
      FlagsStart(kind, trace, es);
    } else {
      FlagsAre(kind, trace, es, n - 1);
      LawfulAt(kind, trace, es, n);
      FlagsNext(trace[n - 1], es[n - 1]);
    }
  }

  lemma FlagsStart(kind: Kind, trace: seq<Sock>, es: seq<Event>)
    requires Lawful(kind, trace, es)
    ensures |trace| > 0 && Enabled(trace[0])
  {
    hide Conn.Valid, Next;
  }

  lemma FlagsNext(k: Sock, e: Event)
    requires k.c.Valid() && Enabled(k) && (e.EWritable? ==> k.writing)
    ensures Enabled(Next(k, e))
  {
    hide Conn.Valid, CommandDone, WrittenOut, HasRead, ConnectEnded, Resumed, HungUp, DirectWritten, DirectEnded, Accepting, Posted,
      CloseEnded;
    match e {
      case ECommand(enabled) => if k.c.freeing.None? && k.c.pipe != [] { CommandFlags(k, enabled); }
      case EReadable(got) => if k.c.Live() && k.c.kind != Connecting { ReadFlags(k, got); }
      case EWritable(acks, enabled) => if k.c.Live() && k.c.kind != Connecting { WriteFlags(k, acks, enabled); }
      case EHangUp => HungFlags(k);
      case EError =>
      case EConnect(ok, enabled) => if k.c.Live() && k.c.kind == Connecting { ConnectFlags(k, ok, enabled); }
      case EResume(enabled) => if k.c.freeing.None? { ResumeFlags(k, enabled); }
      case EFreed => if k.c.freeing.Some? { FreedFlags(k.c); }
      case ECheck => if k.c.holder.Some? { AcceptFlags(k.c); }
      case EWrite(ack) => if k.c.direct.Some? { DirectFlags(k.c, AckSize(k.c, ack)); }
      case EFinish => if k.c.direct.Some? { EndFlags(k.c); }
      case EPost(i) => if i < |k.c.preparing| { PostFlags(k.c, i); }
      case _ =>
    }
  }

  // What 'Enabled' looks at.
  ghost predicate SameFlags(c: Conn, c': Conn) {
    c'.kind == c.kind && c'.freeing == c.freeing && c'.high == c.high && c'.low == c.low
  }

  lemma AcceptFlags(c: Conn)
    requires c.holder.Some?
    ensures SameFlags(c, Accepting(c))
  {
  }

  lemma DirectFlags(c: Conn, n: nat)
    requires c.direct.Some? && n <= |c.direct.value.m.data|
    ensures SameFlags(c, DirectWritten(c, n))
  {
    hide Wrote;
  }

  lemma EndFlags(c: Conn)
    requires c.direct.Some?
    ensures SameFlags(c, DirectEnded(c))
  {
  }

  lemma PostFlags(c: Conn, i: nat)
    requires i < |c.preparing|
    ensures SameFlags(c, Posted(c, i))
  {
  }

  lemma FreedFlags(c: Conn)
    requires c.freeing.Some?
    ensures CloseEnded(c).kind == Invalid
  {
    hide Raised;
  }

  lemma HungFlags(k: Sock)
    ensures !HungUp(k).c.Live()
  {
  }

  lemma ReadFlags(k: Sock, got: Got)
    requires Enabled(k) && k.c.Live()
    ensures Enabled(HasRead(k, got))
  {
    hide Raised;
  }

  lemma ConnectFlags(k: Sock, ok: bool, enabled: bool)
    requires Enabled(k) && k.c.Live() && k.c.kind == Connecting
    ensures Enabled(ConnectEnded(k, ok, enabled))
  {
    hide Raised;
  }

  lemma ResumeFlags(k: Sock, enabled: bool)
    requires Enabled(k)
    ensures Enabled(Resumed(k, enabled))
  {
    hide Raised;
  }

  lemma CommandFlags(k: Sock, enabled: bool)
    requires k.c.Valid() && Enabled(k) && k.c.freeing.None? && k.c.pipe != []
    ensures Enabled(CommandDone(k, enabled))
  {
    hide Conn.Valid, Dequeued, SendDone, TriggerDone, SocketClosed, CommandDone;
    TakeCommandOk(k.c);
    CommandIs(k, enabled);
    DequeuedLeaves(k.c);
    var k' := k.(c := Dequeued(k.c));
    match k.c.pipe[0] {
      case CSend(m) => SendFlags(k', m, enabled);
      case CTrigger => TriggerFlags(k', enabled);
      case CClose(shutdown) => ClosedFlags(k', shutdown);
    }
  }

  lemma SendFlags(k: Sock, m: Message, enabled: bool)
    requires Enabled(k)
    ensures Enabled(SendDone(k, m, enabled))
  {
    hide Raised;
  }

  lemma TriggerFlags(k: Sock, enabled: bool)
    requires Enabled(k)
    ensures Enabled(TriggerDone(k, enabled))
  {
    hide Raised;
  }

  lemma ClosedFlags(k: Sock, shutdown: bool)
    requires Enabled(k)
    ensures Enabled(SocketClosed(k, shutdown))
  {
  }

  // Sending switches the event off only when it ends a write side or nothing is left,
  // and never switches reading on.
  lemma WriteFlags(k: Sock, acks: seq<Ack>, enabled: bool)
    requires Enabled(k) && k.writing && k.c.Live()
    ensures Enabled(WrittenOut(k, acks, enabled))
  {
    hide ListsSent, Raised;
    if !k.c.Locked() {
      ListsFlags(Moved(k), acks, enabled);
    }
  }

  ghost predicate StillOn(k: Sock, k': Sock) {
    && k'.reading == k.reading && (k'.c.kind == k.c.kind || k'.c.kind == Invalid || k'.c.kind == HalfWrite)
    && (k'.writing || k'.c.kind == HalfWrite || k'.c.kind == Invalid || (k'.c.high == [] && k'.c.low == []))
  }

  lemma {:induction false} ListFlags(k: Sock, isLow: bool, acks: seq<Ack>)
    requires k.writing
    ensures var a := ListSent(k, isLow, acks); StillOn(k, a.k) && (a.ret == GoOn ==> a.k.writing)
    decreases |acks|
  {
    hide AfterWrite, FailedWrite, ListSent;
    ListStep(k, isLow, acks);
    if acks != [] && Sel(k.c, isLow) != [] && SizeOf(Sel(k.c, isLow)[0]) >= 0 {
      match acks[0]
      case Interrupted => ListFlags(k, isLow, acks[1..]);
      case Again =>
      case Failed => FailedFlags(k, acks[1..]);
      case Sz(n) =>
        var w := Accepted(Sel(k.c, isLow)[0], n);
        AfterCalm(k.c, isLow, w);
        ListFlags(k.(c := AfterWrite(k.c, isLow, w)), isLow, acks[1..]);
    }
  }

  lemma FailedFlags(k: Sock, left: seq<Ack>)
    requires k.writing
    ensures StillOn(k, FailedWrite(k, left).k) && FailedWrite(k, left).ret != GoOn
  {
  }

  lemma ListsFlags(k: Sock, acks: seq<Ack>, enabled: bool)
    requires k.writing
    ensures StillOn(k, ListsSent(k, acks, enabled).k)
  {
    hide ListSent, LowSent;
    ListFlags(k, false, acks);
    var a := ListSent(k, false, acks);
    if a.ret == GoOn && a.k.c.high == [] {
      LowFlags(a.k, a.left, enabled);
    }
  }

  lemma LowFlags(k: Sock, acks: seq<Ack>, enabled: bool)
    requires k.writing && k.c.high == []
    ensures StillOn(k, LowSent(k, acks, enabled).k)
  {
    hide ListSent, Drained;
    ListFlags(k, true, acks);
    var b := if k.c.low == [] then Sent(k, GoOn, acks) else ListSent(k, true, acks);
    DrainedFlags(b.k, enabled);
    ListHigh(k, acks);
  }

  lemma DrainedFlags(k: Sock, enabled: bool)
    ensures var k' := Drained(k, enabled).k;
      k'.reading == k.reading && (k'.c.kind == k.c.kind || k'.c.kind == Invalid) && (k'.c.kind == Invalid || (k'.c.high == k.c.high && k'.c.low == k.c.low))
  {
  }

  lemma {:induction false} ListHigh(k: Sock, acks: seq<Ack>)
    requires k.c.high == []
    ensures ListSent(k, true, acks).k.c.high == []
    decreases |acks|
  {
    hide AfterWrite, FailedWrite, ListSent;
    ListStep(k, true, acks);
    if acks != [] && k.c.low != [] && SizeOf(k.c.low[0]) >= 0 {
      match acks[0]
      case Interrupted => ListHigh(k, acks[1..]);
      case Again =>
      case Failed => FailedHigh(k, acks[1..]);
      case Sz(n) =>
        var w := Accepted(k.c.low[0], n);
        AfterCalm(k.c, true, w);
        ListHigh(k.(c := AfterWrite(k.c, true, w)), acks[1..]);
    }
  }

  lemma FailedHigh(k: Sock, left: seq<Ack>)
    requires k.c.high == []
    ensures FailedWrite(k, left).k.c.high == []
  {
  }
}
