// What whole runs of a connection show to its owner: which events are raised, which
// messages are accepted, and what goes out.  All of this is said of the states before
// and after the events, and of the events.

module SocketRun {
  import opened SocketStream
  import opened SocketConn
  import opened SocketSpec

  // A run, with the state before each event and the last one.
  ghost predicate Lawful(kind: Kind, trace: seq<Sock>, es: seq<Event>) {
    && Opens(kind) && |trace| == |es| + 1 && trace[0] == Opened(kind)
    && (forall k :: 0 <= k < |trace| ==> trace[k].c.Valid())
    && (forall k :: 0 <= k < |es| ==> trace[k + 1] == Next(trace[k], es[k]))
  }

  lemma LawfulStart(kind: Kind, k: Sock)
    requires Opens(kind) && k == Opened(kind) && k.c.Valid()
    ensures Lawful(kind, [k], [])
  {
    hide Conn.Valid, Next;
  }

  lemma LawfulMore(kind: Kind, trace: seq<Sock>, es: seq<Event>, n: nat, k: Sock)
    requires n < |es| && |trace| == n + 1 && Lawful(kind, trace, es[..n]) && k == Next(trace[n], es[n]) && k.c.Valid()
    ensures Lawful(kind, trace + [k], es[..n + 1])
  {
    hide Conn.Valid, Next;
    var t, ds := trace + [k], es[..n + 1];
    forall j | 0 <= j < |ds| ensures t[j + 1] == Next(t[j], ds[j]) {
      if j < n {
        assert trace[j + 1] == Next(trace[j], es[..n][j]);
      }
    }
  }

  // A run without shutdown, hang-up and failures.
  lemma {:induction false} GentleRun(kind: Kind, trace: seq<Sock>, es: seq<Event>, n: nat)
    requires Lawful(kind, trace, es) && n <= |es| && forall k :: 0 <= k < n ==> Gentle(es[k])
    ensures |trace| == |es| + 1 && Calm(trace[n].c) && (trace[n].c.lost <==> exists k :: 0 <= k < n && Caught(trace[k].c, es[k]))
    decreases n
  {
    hide Conn.Valid, Next, Lawful, Gentle, Calm, Caught;
    LawfulAt(kind, trace, es, n);
    if n == 0 {
      LawfulKind(kind, trace, es);
      FreshCalm(kind);
    } else {
      GentleRun(kind, trace, es, n - 1);
      GentleStep(trace[n - 1], es[n - 1]);
    }
  }

  lemma LawfulKind(kind: Kind, trace: seq<Sock>, es: seq<Event>)
    requires Lawful(kind, trace, es)
    ensures Opens(kind)
  {
  }

  // ------------------------------------------------------------ what is raised

  function Count(o: Out, outs: seq<Out>): nat {
    if outs == [] then 0 else Count(o, outs[..|outs| - 1]) + if outs[|outs| - 1] == o then 1 else 0
  }

  lemma CountMore(o: Out, outs: seq<Out>, x: Out)
    ensures Count(o, outs + [x]) == Count(o, outs) + if x == o then 1 else 0
  {
    assert (outs + [x])[..|outs|] == outs;
  }

  // Data has come, and no CLOSE has been raised before.
  ghost predicate DataComes(k: Sock, e: Event) {
    e.EReadable? && e.got.Data? && k.c.Live() && k.c.kind != Connecting && OClose !in k.c.outs
  }

  // Nothing waits to be sent.
  ghost predicate AllQuiet(c: Conn) { c.high == [] && c.low == [] && c.dw.None? && c.sending == 0 }

  // A connection has been made, or an accepted one is started, or it is started again.
  ghost predicate OpensNow(k: Sock, e: Event) {
    || (e.EConnect? && e.ok && k.c.Live() && k.c.kind == Connecting && !(k.writing && AllQuiet(k.c) && !e.enabled))
    || (e.EResume? && k.c.freeing.None? && (k.c.kind == PAccept || k.c.kind == Connected) && (k.reading || e.enabled))
  }

  // The read side ends for the first time: the peer has no more data or hangs up, or
  // a close or a shutdown is taken from the pipe.
  ghost predicate ReadEnds(k: Sock, e: Event) {
    && k.c.Live() && OClose !in k.c.outs
    && (|| (e.EReadable? && e.got.Eof? && k.c.kind != Connecting)
        || e.EHangUp?
        || (e.ECommand? && k.c.pipe != [] && k.c.pipe[0].CClose?))
  }

  ghost predicate Happens(o: Out, k: Sock, e: Event) {
    match o
    case OData => DataComes(k, e)
    case OOpen => OpensNow(k, e)
    case OClose => ReadEnds(k, e)
    case OErr => false
  }

  ghost function Total(o: Out, trace: seq<Sock>, es: seq<Event>, n: nat): nat
    requires n <= |es| && |trace| == |es| + 1
  {
    if n == 0 then 0 else Total(o, trace, es, n - 1) + if Happens(o, trace[n - 1], es[n - 1]) then 1 else 0
  }

  // A forced close that waits for the lock will raise it.
  ghost function Owed(o: Out, c: Conn): nat { if c.freeing == Some(Some(o)) then 1 else 0 }

  ghost function Due(o: Out, c: Conn): nat { Count(o, c.outs) + Owed(o, c) }

  // ------------------------------------------------------------ what sending leaves alone

  ghost predicate SentOnly(c: Conn, c': Conn) {
    && c'.outs == c.outs && c'.freeing == c.freeing && c'.taken == c.taken && c'.pipe == c.pipe && c'.preparing == c.preparing
    && c'.sending == c.sending
  }

  lemma FailedOnly(k: Sock, left: seq<Ack>)
    ensures SentOnly(k.c, FailedWrite(k, left).k.c)
  {
  }

  lemma AfterOnly(c: Conn, isLow: bool, n: nat)
    requires Sel(c, isLow) != [] && n <= SizeOf(Sel(c, isLow)[0])
    ensures SentOnly(c, AfterWrite(c, isLow, n))
  {
    hide Wrote;
  }

  lemma {:induction false} ListLeaves(k: Sock, isLow: bool, acks: seq<Ack>)
    ensures SentOnly(k.c, ListSent(k, isLow, acks).k.c)
    decreases |acks|
  {
    hide AfterWrite, FailedWrite, ListSent;
    ListStep(k, isLow, acks);
    if acks != [] && Sel(k.c, isLow) != [] && SizeOf(Sel(k.c, isLow)[0]) >= 0 {
      match acks[0]
      case Interrupted => ListLeaves(k, isLow, acks[1..]);
      case Again =>
      case Failed => FailedOnly(k, acks[1..]);
      case Sz(n) =>
        var w := Accepted(Sel(k.c, isLow)[0], n);
        AfterOnly(k.c, isLow, w);
        ListLeaves(k.(c := AfterWrite(k.c, isLow, w)), isLow, acks[1..]);
    }
  }

  lemma LowLeaves(k: Sock, acks: seq<Ack>, enabled: bool)
    ensures SentOnly(k.c, LowSent(k, acks, enabled).k.c) && (LowSent(k, acks, enabled).out.Some? ==> LowSent(k, acks, enabled).out == Some(OErr))
  {
    hide ListSent, Drained;
    ListLeaves(k, true, acks);
    var b := if k.c.low == [] then Sent(k, GoOn, acks) else ListSent(k, true, acks);
    DrainedLeaves(b.k, enabled);
  }

  lemma DrainedLeaves(k: Sock, enabled: bool)
    ensures SentOnly(k.c, Drained(k, enabled).k.c) && (Drained(k, enabled).out.Some? ==> Drained(k, enabled).out == Some(OErr))
  {
  }

  lemma ListsLeave(k: Sock, acks: seq<Ack>, enabled: bool)
    ensures SentOnly(k.c, ListsSent(k, acks, enabled).k.c) && (ListsSent(k, acks, enabled).out.Some? ==> ListsSent(k, acks, enabled).out == Some(OErr))
  {
    hide ListSent, LowSent;
    ListLeaves(k, false, acks);
    var a := ListSent(k, false, acks);
    LowLeaves(a.k, a.left, enabled);
  }

  lemma WrittenLeaves(k: Sock, acks: seq<Ack>, enabled: bool)
    ensures var k' := WrittenOut(k, acks, enabled);
      SentOnly(k.c.(outs := k'.c.outs), k'.c) && (k'.c.outs == k.c.outs || k'.c.outs == k.c.outs + [OErr])
  {
    hide ListsSent;
    if !k.c.Locked() {
      ListsLeave(if k.c.dw.Some? then k.(c := DwMoved(k.c)) else k, acks, enabled);
    }
  }

  // ------------------------------------------------------------ one event

  // What the invariant says of CLOSE.
  lemma CloseSaid(c: Conn)
    requires c.Valid()
    ensures c.Live() ==> (c.kind == HalfRead <==> OClose in c.outs)
    ensures c.closing ==> c.kind == HalfRead || c.kind == Invalid
  {
    hide Conn.ListsOk, Conn.WireOk, Conn.CountsOk, Conn.OrderOk, Conn.CutOk, Silent;
    ClosesIn(c.outs);
  }

  lemma {:induction false} ClosesIn(outs: seq<Out>)
    ensures Closes(outs) > 0 <==> OClose in outs
    decreases |outs|
  {
    if outs != [] {
      ClosesIn(outs[..|outs| - 1]);
      assert outs == outs[..|outs| - 1] + [outs[|outs| - 1]];
    }
  }

  lemma DueRaised(o: Out, c: Conn, c': Conn, x: Out)
    requires c'.outs == c.outs + [x] && c'.freeing == c.freeing
    ensures Due(o, c') == Due(o, c) + if x == o then 1 else 0
  {
    CountMore(o, c.outs, x);
  }

  lemma DueSame(o: Out, c: Conn, c': Conn)
    requires c'.outs == c.outs && c'.freeing == c.freeing
    ensures Due(o, c') == Due(o, c)
  {
  }

  lemma DueWithOut(o: Out, k: Sock, out: Option<Out>)
    ensures Due(o, WithOut(k, out).c) == Due(o, k.c) + if out == Some(o) then 1 else 0
  {
    if out.Some? {
      CountMore(o, k.c.outs, out.value);
    }
    hide Count;
  }

  lemma DueBegun(o: Out, c: Conn, r: Option<Out>)
    requires c.freeing.None?
    ensures Due(o, BeginClosed(c, r)) == Due(o, c) + if r == Some(o) then 1 else 0
  {
    hide Count;
  }

  lemma DueFreed(o: Out, c: Conn)
    requires c.freeing.Some?
    ensures Due(o, CloseEnded(c)) == Due(o, c)
  {
    if c.freeing.value.Some? {
      CountMore(o, c.outs, c.freeing.value.value);
    }
    hide Count;
  }

  // The events that an event raises, or owes, are those that happen.
  lemma DueNext(o: Out, k: Sock, e: Event)
    requires k.c.Valid() && o != OErr
    ensures Due(o, Next(k, e).c) == Due(o, k.c) + if Happens(o, k, e) then 1 else 0
  {
    hide Conn.Valid, Due, Next, Happens;
    CloseSaid(k.c);
    if e.ECommand? || e.EReadable? || e.EWritable? {
      DueSocket(o, k, e);
    } else if e.EHangUp? || e.EError? || e.EConnect? || e.EResume? || e.EFreed? {
      DuePoll(o, k, e);
    } else {
      SenderDue(o, k, e);
    }
  }

  lemma DueSocket(o: Out, k: Sock, e: Event)
    requires k.c.Valid() && o != OErr && (e.ECommand? || e.EReadable? || e.EWritable?)
    requires k.c.Live() ==> (k.c.kind == HalfRead <==> OClose in k.c.outs)
    requires k.c.closing ==> k.c.kind == HalfRead || k.c.kind == Invalid
    ensures Due(o, Next(k, e).c) == Due(o, k.c) + if Happens(o, k, e) then 1 else 0
  {
    hide Conn.Valid, Due, CommandDone, WrittenOut, HasRead, Happens;
    var c := k.c;
    match e {
      case ECommand(enabled) =>
        if c.freeing.None? && c.pipe != [] { CommandDue(o, k, enabled); } else { NoCommand(o, k, enabled); }
      case EReadable(got) =>
        if c.Live() && c.kind != Connecting { ReadDue(o, k, got); } else { NoPoll(o, k, e); }
      case EWritable(acks, enabled) =>
        NoPoll(o, k, e);
        if c.Live() && c.kind != Connecting { WrittenDue(o, k, acks, enabled); }
    }
  }

  lemma DuePoll(o: Out, k: Sock, e: Event)
    requires o != OErr && (e.EHangUp? || e.EError? || e.EConnect? || e.EResume? || e.EFreed?)
    requires k.c.Live() ==> (k.c.kind == HalfRead <==> OClose in k.c.outs)
    ensures Due(o, Next(k, e).c) == Due(o, k.c) + if Happens(o, k, e) then 1 else 0
  {
    hide Due, HungUp, ConnectEnded, Resumed, WithOut, CloseEnded, Happens;
    var c := k.c;
    match e {
      case EHangUp => if c.Live() { HungDue(o, k); } else { NoPoll(o, k, e); }
      case EError => NoPoll(o, k, e); DueWithOut(o, k, Some(OErr));
      case EConnect(ok, enabled) =>
        if c.Live() && c.kind == Connecting { ConnectDue(o, k, ok, enabled); } else { NoPoll(o, k, e); }
      case EResume(enabled) => if c.freeing.None? { ResumeDue(o, k, enabled); } else { NoPoll(o, k, e); }
      case EFreed =>
        NoPoll(o, k, e);
        if c.freeing.Some? { DueFreed(o, c); }
    }
  }

  lemma NoCommand(o: Out, k: Sock, enabled: bool)
    requires k.c.freeing.Some? || k.c.pipe == []
    ensures !Happens(o, k, ECommand(enabled))
  {
  }

  lemma NoPoll(o: Out, k: Sock, e: Event)
    requires !k.c.Live() || (e.EReadable? && k.c.kind == Connecting) || (e.EConnect? && k.c.kind != Connecting) || e.EWritable? || e.EError? || e.EFreed?
    requires !e.ECommand? && (e.EResume? ==> k.c.freeing.Some?)
    ensures !Happens(o, k, e)
  {
  }

  lemma SenderDue(o: Out, k: Sock, e: Event)
    requires e.ETry? || e.ECheck? || e.EWrite? || e.EFinish? || e.EPrepare? || e.EPost? || e.ERequest?
    ensures Due(o, Next(k, e).c) == Due(o, k.c) && !Happens(o, k, e)
  {
    SenderLeaves(k, e);
    DueSame(o, k.c, Next(k, e).c);
    hide Next, Due;
  }

  lemma SenderLeaves(k: Sock, e: Event)
    requires e.ETry? || e.ECheck? || e.EWrite? || e.EFinish? || e.EPrepare? || e.EPost? || e.ERequest?
    ensures Next(k, e).c.outs == k.c.outs && Next(k, e).c.freeing == k.c.freeing
  {
    hide CommandDone, HasRead, WrittenOut, HungUp, ConnectEnded, Resumed, Wrote;
  }

  lemma WrittenDue(o: Out, k: Sock, acks: seq<Ack>, enabled: bool)
    requires o != OErr
    ensures Due(o, WrittenOut(k, acks, enabled).c) == Due(o, k.c)
  {
    hide WrittenOut, Due;
    WrittenLeaves(k, acks, enabled);
    var c' := WrittenOut(k, acks, enabled).c;
    if c'.outs == k.c.outs {
      DueSame(o, k.c, c');
    } else {
      DueRaised(o, k.c, c', OErr);
    }
  }

  lemma CommandIs(k: Sock, enabled: bool)
    requires k.c.pipe != [] && (k.c.pipe[0].CSend? ==> k.c.sending > 0)
    ensures var k' := k.(c := Dequeued(k.c));
      CommandDone(k, enabled) == match k.c.pipe[0]
        case CSend(m) => SendDone(k', m, enabled)
        case CTrigger => TriggerDone(k', enabled)
        case CClose(shutdown) => SocketClosed(k', shutdown)
  {
    hide Dequeued, SendDone, SocketClosed;
    if k.c.pipe[0].CTrigger? {
      TriggerKind(k, enabled);
    }
  }

  lemma TriggerKind(k: Sock, enabled: bool)
    requires k.c.pipe != [] && k.c.pipe[0].CTrigger?
    ensures CommandDone(k, enabled) == TriggerDone(k.(c := Dequeued(k.c)), enabled)
  {
    hide WithOut;
  }

  lemma CommandHappens(o: Out, k: Sock, enabled: bool)
    requires k.c.pipe != [] && k.c.freeing.None?
    ensures Happens(o, k, ECommand(enabled)) <==> o == OClose && k.c.kind != Invalid && OClose !in k.c.outs && k.c.pipe[0].CClose?
  {
  }

  lemma CommandDue(o: Out, k: Sock, enabled: bool)
    requires o != OErr && k.c.Valid() && k.c.freeing.None? && k.c.pipe != []
    requires k.c.Live() ==> (k.c.kind == HalfRead <==> OClose in k.c.outs)
    ensures Due(o, CommandDone(k, enabled).c) == Due(o, k.c) + if Happens(o, k, ECommand(enabled)) then 1 else 0
  {
    hide Conn.Valid, Due, Dequeued, SendDone, TriggerDone, SocketClosed, CommandDone, Happens;
    TakeCommandOk(k.c);
    CommandIs(k, enabled);
    CommandHappens(o, k, enabled);
    var k' := k.(c := Dequeued(k.c));
    DequeuedLeaves(k.c);
    DueSame(o, k.c, k'.c);
    match k.c.pipe[0] {
      case CSend(m) => SendDue(o, k', m, enabled);
      case CTrigger => TriggerDue(o, k', enabled);
      case CClose(shutdown) => ClosedDue(o, k', shutdown);
    }
  }

  lemma DequeuedLeaves(c: Conn)
    requires c.pipe != [] && (c.pipe[0].CSend? ==> c.sending > 0)
    ensures var d := Dequeued(c); d.outs == c.outs && d.freeing == c.freeing && d.kind == c.kind && d.taken == c.taken && d.closing == c.closing
    ensures var d := Dequeued(c); d.pipe == c.pipe[1..] && d.high == c.high && d.low == c.low
  {
  }

  lemma SendDue(o: Out, k: Sock, m: Message, enabled: bool)
    requires o != OErr
    ensures Due(o, SendDone(k, m, enabled).c) == Due(o, k.c)
  {
    hide MessageSent, WithOut, Due;
    MessageOuts(k, m, enabled);
    var a := MessageSent(k, m, enabled);
    DueSame(o, k.c, a.k.c);
    DueWithOut(o, a.k, a.out);
  }

  lemma TriggerDue(o: Out, k: Sock, enabled: bool)
    requires o != OErr
    ensures Due(o, TriggerDone(k, enabled).c) == Due(o, k.c)
  {
    hide WithOut, Due;
    DueWithOut(o, k.(writing := true), if enabled then None else Some(OErr));
  }

  lemma ClosedDue(o: Out, k: Sock, shutdown: bool)
    requires o != OErr && k.c.freeing.None? && (k.c.Live() ==> (k.c.kind == HalfRead <==> OClose in k.c.outs))
    ensures Due(o, SocketClosed(k, shutdown).c) == Due(o, k.c) + if o == OClose && k.c.Live() && OClose !in k.c.outs then 1 else 0
  {
    hide Due, BeginClosed;
    var c := k.c;
    DueBegun(o, c, if c.kind == HalfRead then None else Some(OClose));
    var d := c.(kind := HalfRead, closing := true, outs := if c.kind == HalfRead then c.outs else c.outs + [OClose]);
    if c.kind == HalfRead {
      DueSame(o, c, d);
    } else {
      DueRaised(o, c, d, OClose);
    }
  }

  lemma MessageOuts(k: Sock, m: Message, enabled: bool)
    ensures var a := MessageSent(k, m, enabled);
      a.k.c.outs == k.c.outs && a.k.c.freeing == k.c.freeing && (a.out.Some? ==> a.out == Some(OErr))
  {
    hide Appended;
    AppendedOuts(k.c, m, m.low && !(k.c.high == [] && k.c.low == []));
  }

  lemma AppendedOuts(c: Conn, m: Message, toLow: bool)
    ensures var d := Appended(c, m, toLow); d.outs == c.outs && d.freeing == c.freeing && d.taken == c.taken + [m]
  {
  }

  lemma ReadDue(o: Out, k: Sock, got: Got)
    requires o != OErr && k.c.Live() && k.c.kind != Connecting
    requires k.c.kind == HalfRead <==> OClose in k.c.outs
    requires k.c.closing ==> k.c.kind == HalfRead || k.c.kind == Invalid
    ensures Due(o, HasRead(k, got).c) == Due(o, k.c) + if Happens(o, k, EReadable(got)) then 1 else 0
  {
    hide Due, BeginClosed, WithOut;
    DueWithOut(o, k, Some(OErr));
    DueWithOut(o, k, Some(OData));
    DueBegun(o, k.c, None);
    DueBegun(o, k.c, Some(OClose));
    DueRaised(o, k.c, k.c.(kind := HalfRead, outs := k.c.outs + [OClose]), OClose);
  }

  lemma HungDue(o: Out, k: Sock)
    requires o != OErr && k.c.Live() && (k.c.kind == HalfRead <==> OClose in k.c.outs)
    ensures Due(o, HungUp(k).c) == Due(o, k.c) + if Happens(o, k, EHangUp) then 1 else 0
  {
    hide Due, BeginClosed;
    DueBegun(o, k.c, if k.c.kind == HalfRead then None else Some(OClose));
  }

  lemma ConnectDue(o: Out, k: Sock, ok: bool, enabled: bool)
    requires o != OErr && k.c.Live() && k.c.kind == Connecting
    ensures Due(o, ConnectEnded(k, ok, enabled).c) == Due(o, k.c) + if Happens(o, k, EConnect(ok, enabled)) then 1 else 0
  {
    hide Due, BeginClosed, WithOut;
    var d := k.c.(kind := Connected);
    DueSame(o, k.c, d);
    DueBegun(o, k.c, Some(OErr));
    DueBegun(o, d, Some(OErr));
    DueWithOut(o, k.(c := d), Some(OOpen));
    DueWithOut(o, k.(c := d, writing := false), Some(OOpen));
  }

  lemma ResumeDue(o: Out, k: Sock, enabled: bool)
    requires o != OErr && k.c.freeing.None?
    ensures Due(o, Resumed(k, enabled).c) == Due(o, k.c) + if Happens(o, k, EResume(enabled)) then 1 else 0
  {
    hide Due, WithOut;
    var d := k.c.(kind := Connected);
    DueSame(o, k.c, d);
    DueWithOut(o, k, Some(OErr));
    DueWithOut(o, k.(reading := true), Some(OErr));
    DueWithOut(o, Sock(d, true, k.writing), Some(OOpen));
    DueWithOut(o, k.(reading := true), Some(OOpen));
  }

  // ------------------------------------------------------------ whole runs

  // Nothing but CLOSE and errors waits for the lock of a forced close.
  lemma OwedNext(k: Sock, e: Event)
    requires k.c.Valid() && k.c.freeing != Some(Some(OOpen))
    ensures Next(k, e).c.freeing != Some(Some(OOpen))
  {
    hide Conn.Valid, WrittenOut, CommandDone, HasRead, ConnectEnded, Resumed, HungUp, Wrote, DirectWritten, DirectEnded, Accepting, Posted,
      CloseEnded;
    match e {
      case EWritable(acks, enabled) => WrittenLeaves(k, acks, enabled);
      case ECommand(enabled) => if k.c.pipe != [] { CommandOwes(k, enabled); }
      case EReadable(got) => ReadOwes(k, got);
      case EConnect(ok, enabled) => ConnectOwes(k, ok, enabled);
      case EResume(enabled) => ResumeOwes(k, enabled);
      case EHangUp => HungOwes(k);
      case EError =>
      case EFreed => if k.c.freeing.Some? { FreedOwes(k.c); }
      case _ => SenderLeaves(k, e);
    }
  }

  lemma ReadOwes(k: Sock, got: Got)
    requires k.c.freeing != Some(Some(OOpen))
    ensures HasRead(k, got).c.freeing != Some(Some(OOpen))
  {
  }

  lemma ConnectOwes(k: Sock, ok: bool, enabled: bool)
    requires k.c.freeing != Some(Some(OOpen))
    ensures ConnectEnded(k, ok, enabled).c.freeing != Some(Some(OOpen))
  {
  }

  lemma ResumeOwes(k: Sock, enabled: bool)
    ensures Resumed(k, enabled).c.freeing == k.c.freeing
  {
  }

  lemma HungOwes(k: Sock)
    ensures HungUp(k).c.freeing != Some(Some(OOpen))
  {
  }

  lemma FreedOwes(c: Conn)
    requires c.freeing.Some?
    ensures CloseEnded(c).freeing == None
  {
    hide Raised;
  }

  lemma CommandOwes(k: Sock, enabled: bool)
    requires k.c.Valid() && k.c.pipe != [] && k.c.freeing != Some(Some(OOpen))
    ensures CommandDone(k, enabled).c.freeing != Some(Some(OOpen))
  {
    hide Conn.Valid, Dequeued, SendDone, TriggerDone, SocketClosed, CommandDone;
    TakeCommandOk(k.c);
    CommandIs(k, enabled);
    DequeuedLeaves(k.c);
    var k' := k.(c := Dequeued(k.c));
    match k.c.pipe[0] {
      case CSend(m) => SendFreeing(k', m, enabled);
      case CTrigger => TriggerFreeing(k', enabled);
      case CClose(shutdown) => ClosedFreeing(k', shutdown);
    }
  }

  lemma SendFreeing(k: Sock, m: Message, enabled: bool)
    ensures SendDone(k, m, enabled).c.freeing == k.c.freeing
  {
    hide MessageSent;
    MessageOuts(k, m, enabled);
  }

  lemma TriggerFreeing(k: Sock, enabled: bool)
    ensures TriggerDone(k, enabled).c.freeing == k.c.freeing
  {
  }

  lemma ClosedFreeing(k: Sock, shutdown: bool)
    ensures var f := SocketClosed(k, shutdown).c.freeing; f == k.c.freeing || f == Some(None) || f == Some(Some(OClose))
  {
  }

  lemma LawfulAt(kind: Kind, trace: seq<Sock>, es: seq<Event>, n: nat)
    requires Lawful(kind, trace, es) && n <= |es|
    ensures |trace| == |es| + 1 && trace[n].c.Valid()
    ensures n > 0 ==> trace[n - 1].c.Valid() && trace[n] == Next(trace[n - 1], es[n - 1])
    ensures n == 0 ==> trace[n].c == Fresh0(kind)
  {
    hide Conn.Valid, Next;
    if n > 0 {
      assert trace[n - 1 + 1] == Next(trace[n - 1], es[n - 1]);
    }
  }

  lemma DueFresh(o: Out, kind: Kind)
    ensures Due(o, Fresh0(kind)) == 0 && Fresh0(kind).freeing == None
  {
  }

  lemma {:induction false} DueTotal(o: Out, kind: Kind, trace: seq<Sock>, es: seq<Event>, n: nat)
    requires Lawful(kind, trace, es) && n <= |es| && o != OErr
    ensures |trace| == |es| + 1 && Due(o, trace[n].c) == Total(o, trace, es, n) && trace[n].c.freeing != Some(Some(OOpen))
    decreases n
  {
    hide Due, Next, Happens, Conn.Valid, Lawful, Fresh0;
    LawfulAt(kind, trace, es, n);
    if n == 0 {
      DueFresh(o, kind);
    } else {
      DueTotal(o, kind, trace, es, n - 1);
      DueNext(o, trace[n - 1], es[n - 1]);
      OwedNext(trace[n - 1], es[n - 1]);
    }
  }

  // In any run DATA is raised exactly as often as data has come before a CLOSE, and
  // OPEN exactly as often as the connection was made or started; a CLOSE is raised, or
  // waits for the lock, exactly if the read side has ended.
  lemma EventsAre(kind: Kind, trace: seq<Sock>, es: seq<Event>, n: nat)
    requires Lawful(kind, trace, es) && n <= |es|
    ensures var c := trace[n].c;
      && Count(OData, c.outs) == Total(OData, trace, es, n)
      && Count(OOpen, c.outs) == Total(OOpen, trace, es, n)
      && Count(OClose, c.outs) + Owed(OClose, c) == Total(OClose, trace, es, n)
  {
    hide Total, Count, Lawful, Conn.Valid;
    LawfulAt(kind, trace, es, n);
    DueTotal(OData, kind, trace, es, n);
    DueTotal(OOpen, kind, trace, es, n);
    DueTotal(OClose, kind, trace, es, n);
    NoDataOwed(trace[n].c);
  }

  lemma NoDataOwed(c: Conn)
    requires c.Valid()
    ensures c.freeing != Some(Some(OData))
  {
    hide Conn.ListsOk, Conn.WireOk, Conn.CountsOk, Conn.OrderOk, Conn.CutOk;
  }
}
