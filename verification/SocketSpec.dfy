// What each step of the socket server makes of a connection, as functions, and what
// that means over whole runs.

module SocketSpec {
  import opened SocketStream
  import opened SocketConn

  // A connection, and which of its events are enabled.
  datatype Sock = Sock(c: Conn, reading: bool, writing: bool)

  // One that was accepted, which is not read until it is started, or one that was
  // opened, which takes the write event to learn that it is.
  function Opened(kind: Kind): Sock { Sock(Fresh0(kind), kind != PAccept, kind == Connecting) }

  // What may happen to a connection, in any order.
  datatype Event =
    | ECommand(enabled: bool)
    | EReadable(got: Got)
    | EWritable(acks: seq<Ack>, enabled: bool)
    | EHangUp
    | EError
    | EConnect(ok: bool, enabled: bool)
    | EResume(enabled: bool)
    | EFreed
    | ETry(m: Message)
    | ECheck
    | EWrite(ack: Ack)
    | EFinish
    | EPrepare(m: Message)
    | EPost(k: nat)
    | ERequest(cmd: Cmd)

  // What a step answers to its caller: an event to raise.
  datatype Answer = Answer(k: Sock, out: Option<Out>)

  // How far a list was sent, and the answers of the kernel that are left.
  datatype Sent = Sent(k: Sock, ret: Ret, left: seq<Ack>)

  ghost function WithOut(k: Sock, out: Option<Out>): Sock { k.(c := k.c.(outs := Raised(k.c.outs, out))) }

  // ------------------------------------------------------------ writing

  // A write has failed: a socket that no one closes is half closed once.
  ghost function FailedWrite(k: Sock, left: seq<Ack>): Sent {
    if k.c.closing || k.c.kind == HalfRead then Sent(k.(c := ForceClosed(k.c)), Rst, left)
    else if k.c.kind == HalfWrite then Sent(k, Rst, left)
    else Sent(k.(c := k.c.(kind := HalfWrite), writing := false), Err, left)
  }

  // How many bytes of a buffer the kernel takes.
  function Accepted(b: Buffer, n: nat): (r: nat) {
    if SizeOf(b) < 0 then 0 else if n < SizeOf(b) then n else SizeOf(b)
  }

  // A list, as far as the kernel takes it: interrupted writes are tried again, a
  // head that is not all out ends it.
  ghost function ListSent(k: Sock, isLow: bool, acks: seq<Ack>): Sent
    decreases |acks|
  {
    if Sel(k.c, isLow) == [] || acks == [] || SizeOf(Sel(k.c, isLow)[0]) < 0 then Sent(k, GoOn, acks)
    else match acks[0]
      case Interrupted => ListSent(k, isLow, acks[1..])
      case Again => Sent(k, GoOn, acks)
      case Failed => FailedWrite(k, acks[1..])
      case Sz(n) =>
        var b := Sel(k.c, isLow)[0];
        var k' := k.(c := AfterWrite(k.c, isLow, Accepted(b, n)));
        if Accepted(b, n) == SizeOf(b) then ListSent(k', isLow, acks[1..]) else Sent(k', GoOn, acks[1..])
  }

  // Sending changes only what is written and what waits, and no list but this.
  ghost predicate OnlySent(c: Conn, c': Conn) {
    c' == c.(high := c'.high, low := c'.low, wbSize := c'.wbSize, wire := c'.wire, pieces := c'.pieces)
  }

  ghost predicate ListOnly(c: Conn, c': Conn, isLow: bool) {
    OnlySent(c, c') && if isLow then c'.high == c.high else c'.low == c.low
  }

  lemma OnlyNone(c: Conn, isLow: bool)
    ensures ListOnly(c, c, isLow)
  {
  }

  lemma OnlyTrans(c: Conn, c1: Conn, c2: Conn, isLow: bool)
    requires ListOnly(c, c1, isLow) && ListOnly(c1, c2, isLow)
    ensures ListOnly(c, c2, isLow)
  {
  }

  lemma OnlyStays(c: Conn, c': Conn, isLow: bool)
    requires ListOnly(c, c', isLow)
    ensures c'.Live() == c.Live() && c'.Locked() == c.Locked() && c'.dw == c.dw && (isLow ==> c'.high == c.high)
  {
  }

  lemma ListStep(k: Sock, isLow: bool, acks: seq<Ack>)
    ensures ListSent(k, isLow, acks) ==
      if Sel(k.c, isLow) == [] || acks == [] || SizeOf(Sel(k.c, isLow)[0]) < 0 then Sent(k, GoOn, acks)
      else match acks[0]
        case Interrupted => ListSent(k, isLow, acks[1..])
        case Again => Sent(k, GoOn, acks)
        case Failed => FailedWrite(k, acks[1..])
        case Sz(n) =>
          var b := Sel(k.c, isLow)[0];
          var k' := k.(c := AfterWrite(k.c, isLow, Accepted(b, n)));
          if Accepted(b, n) == SizeOf(b) then ListSent(k', isLow, acks[1..]) else Sent(k', GoOn, acks[1..])
  {
    hide AfterWrite, FailedWrite;
  }

  // Nothing is left: a closing socket ends, another waits for no write event.
  ghost function Drained(k: Sock, enabled: bool): Answer {
    if k.c.closing then Answer(k.(c := ForceClosed(k.c)), None)
    else Answer(k.(writing := false), if k.writing && !enabled then Some(OErr) else None)
  }

  // After the high list: the low one, and a low message that was begun goes first.
  ghost function LowSent(k: Sock, acks: seq<Ack>, enabled: bool): Answer {
    var b := if k.c.low == [] then Sent(k, GoOn, acks) else ListSent(k, true, acks);
    if b.ret != GoOn then Answer(b.k, if b.ret == Err then Some(OErr) else None)
    else if b.k.c.low == [] then Drained(b.k, enabled)
    else if b.k.c.low[0].ptr > 0 then Answer(b.k.(c := b.k.c.(high := [b.k.c.low[0]], low := b.k.c.low[1..])), None)
    else Answer(b.k, None)
  }

  ghost function ListsSent(k: Sock, acks: seq<Ack>, enabled: bool): Answer {
    var a := ListSent(k, false, acks);
    if a.ret != GoOn then Answer(a.k, if a.ret == Err then Some(OErr) else None)
    else if a.k.c.high != [] then Answer(a.k, None)
    else LowSent(a.k, a.left, enabled)
  }

  ghost function WrittenOut(k: Sock, acks: seq<Ack>, enabled: bool): Sock {
    if k.c.Locked() then k else
    var a := ListsSent(if k.c.dw.Some? then k.(c := DwMoved(k.c)) else k, acks, enabled);
    WithOut(a.k, a.out)
  }

  // ------------------------------------------------------------ commands and events

  ghost function MessageSent(k: Sock, m: Message, enabled: bool): Answer {
    if Refused(k.c) then Answer(k, None)
    else if k.c.high == [] && k.c.low == [] then
      Answer(k.(c := Queued(k.c, m), writing := true), if !k.writing && !enabled then Some(OErr) else None)
    else Answer(k.(c := Queued(k.c, m)), None)
  }

  ghost function SocketClosed(k: Sock, shutdown: bool): Sock {
    k.(c := ClosedBy(k.c, shutdown),
       reading := k.reading && (k.c.kind == Invalid || k.c.kind == HalfRead || shutdown || NoMoreData(k.c)))
  }

  ghost function SendDone(k: Sock, m: Message, enabled: bool): Sock {
    var a := MessageSent(k, m, enabled);
    WithOut(a.k, a.out)
  }

  ghost function TriggerDone(k: Sock, enabled: bool): Sock {
    if k.c.kind == Invalid || k.writing then k
    else WithOut(k.(writing := true), if enabled then None else Some(OErr))
  }

  ghost function CommandDone(k: Sock, enabled: bool): Sock
    requires k.c.pipe != []
  {
    if k.c.pipe[0].CSend? && k.c.sending == 0 then k else
    var k' := k.(c := Dequeued(k.c));
    match k.c.pipe[0]
    case CSend(m) => SendDone(k', m, enabled)
    case CTrigger => TriggerDone(k', enabled)
    case CClose(shutdown) => SocketClosed(k', shutdown)
  }

  ghost function HasRead(k: Sock, got: Got): Sock {
    match got
    case Nothing => k
    case Broken => WithOut(k, Some(OErr))
    case Data(_) => if k.c.kind == HalfRead then k else WithOut(k, Some(OData))
    case Eof =>
      if k.c.closing then (if NoMoreData(k.c) then k.(c := BeginClosed(k.c, None)) else k)
      else if k.c.kind == HalfRead then k
      else if k.c.kind == HalfWrite then k.(c := BeginClosed(k.c, Some(OClose)))
      else k.(c := k.c.(kind := HalfRead, outs := k.c.outs + [OClose]), reading := false)
  }

  ghost function HungUp(k: Sock): Sock { k.(c := BeginClosed(k.c, if k.c.kind == HalfRead then None else Some(OClose))) }

  ghost function ConnectEnded(k: Sock, ok: bool, enabled: bool): Sock {
    if !ok then k.(c := BeginClosed(k.c, Some(OErr))) else
    var k' := k.(c := k.c.(kind := Connected));
    if NoMoreData(k'.c) && k.writing then
      (if enabled then WithOut(k'.(writing := false), Some(OOpen))
       else k'.(c := BeginClosed(k'.c, Some(OErr)), writing := false))
    else WithOut(k', Some(OOpen))
  }

  ghost function Resumed(k: Sock, enabled: bool): Sock {
    if k.c.kind == Invalid || k.c.kind == HalfRead then WithOut(k, Some(OErr))
    else if !k.reading && !enabled then WithOut(k.(reading := true), Some(OErr))
    else
      var k' := k.(reading := true);
      if k.c.kind == PAccept then WithOut(k'.(c := k.c.(kind := Connected)), Some(OOpen))
      else if k.c.kind == Connected then WithOut(k', Some(OOpen))
      else k'
  }

  // ------------------------------------------------------------ senders

  ghost function Accepting(c: Conn): Conn
    requires c.holder.Some?
  {
    if CanDirect(c) then
      c.(holder := None, direct := Some(Buffer(c.holder.value, 0)), written := false, taken := c.taken + [c.holder.value])
    else c.(holder := None)
  }

  ghost function Posted(c: Conn, i: nat): Conn
    requires i < |c.preparing|
  {
    c.(preparing := c.preparing[..i] + c.preparing[i + 1..], pipe := c.pipe + [CSend(c.preparing[i])])
  }

  // ------------------------------------------------------------ one event

  // What an event makes of the connection; one that is not possible does nothing.
  ghost function Next(k: Sock, e: Event): Sock {
    var c := k.c;
    match e
    case ECommand(enabled) => if c.freeing.None? && c.pipe != [] then CommandDone(k, enabled) else k
    case EReadable(got) => if c.Live() && c.kind != Connecting then HasRead(k, got) else k
    case EWritable(acks, enabled) => if c.Live() && c.kind != Connecting then WrittenOut(k, acks, enabled) else k
    case EHangUp => if c.Live() then HungUp(k) else k
    case EError => if c.Live() then WithOut(k, Some(OErr)) else k
    case EConnect(ok, enabled) => if c.Live() && c.kind == Connecting then ConnectEnded(k, ok, enabled) else k
    case EResume(enabled) => if c.freeing.None? then Resumed(k, enabled) else k
    case EFreed => if c.freeing.Some? && !c.Locked() then k.(c := CloseEnded(c)) else k
    case ETry(m) => if CanDirect(c) && !c.Locked() && !c.closing then k.(c := c.(holder := Some(m))) else k
    case ECheck => if c.holder.Some? then k.(c := Accepting(c)) else k
    case EWrite(ack) => if c.direct.Some? && !c.written then k.(c := DirectWritten(c, AckSize(c, ack))) else k
    case EFinish => if c.direct.Some? && c.written then k.(c := DirectEnded(c)) else k
    case EPrepare(m) => k.(c := c.(sending := c.sending + 1, preparing := c.preparing + [m]))
    case EPost(i) => if i < |c.preparing| then k.(c := Posted(c, i)) else k
    case ERequest(cmd) => if cmd.CSend? then k else k.(c := c.(pipe := c.pipe + [cmd]))
  }

  // A sender that has the lock writes, while a forced close waits for that lock
  // and has freed a message of which a part was out.
  ghost predicate SpoiltBy(c: Conn, e: Event) {
    e.EWrite? && c.direct.Some? && !c.written && Spoils(c, e.ack)
  }

  // ------------------------------------------------------------ what is out

  // Of the messages of one priority that were accepted, those that are out: in order,
  // the first ones while nothing is lost, and at the end all of them if nothing is.
  lemma OutIs(c: Conn)
    requires c.Valid()
    ensures forall p: bool :: Subseq(Class(p, Done(c.pieces)), Class(p, c.taken))
    ensures !c.lost ==> forall p: bool :: Class(p, Done(c.pieces)) <= Class(p, c.taken)
    ensures c.kind == Invalid ==> (!c.lost <==> SameClasses(Done(c.pieces), c.taken))
  {
    var d, rest := Done(c.pieces), c.DirectMsg() + c.DwMsg() + Msgs(c.high) + Msgs(c.low);
    AllIs(c);
    hide Done, Class, Subseq, Conn.All, Conn.DirectMsg, Conn.DwMsg, Msgs, Conn.WireOk, Conn.CountsOk, Conn.CloseOk, Conn.CutOk;
    forall p: bool
      ensures Subseq(Class(p, d), Class(p, c.taken))
      ensures !c.lost ==> Class(p, d) <= Class(p, c.taken)
    {
      ClassConcat(p, d, rest);
      assert Subseq(Class(p, c.All()), Class(p, c.taken));
      assert !c.lost ==> Class(p, c.All()) == Class(p, c.taken);
      SubseqPrefix(Class(p, d), Class(p, rest), Class(p, c.taken));
    }
    if c.kind == Invalid {
      InvalidAll(c);
      OrderedIff(d, c.taken, c.lost);
    }
  }

  // The same messages in each priority.
  ghost predicate SameClasses(a: seq<Message>, b: seq<Message>) {
    Class(true, a) == Class(true, b) && Class(false, a) == Class(false, b)
  }

  lemma OrderedIff(all: seq<Message>, taken: seq<Message>, lost: bool)
    requires Ordered(all, taken, lost)
    ensures !lost <==> SameClasses(all, taken)
  {
    hide Class, Subseq;
    if SameClasses(all, taken) {
      forall p: bool ensures Class(p, all) == Class(p, taken) {
      }
      OrderedSame(all, taken);
    }
  }

  lemma AllIs(c: Conn)
    ensures c.All() == Done(c.pieces) + (c.DirectMsg() + c.DwMsg() + Msgs(c.high) + Msgs(c.low))
  {
    hide Done, Msgs;
  }

  lemma InvalidAll(c: Conn)
    requires c.Valid() && c.kind == Invalid
    ensures c.All() == Done(c.pieces) && Ordered(c.All(), c.taken, c.lost)
  {
    hide Done, Class, Ordered, Conn.WireOk, Conn.CountsOk, Conn.CloseOk, Conn.CutOk;
    assert c.Waiting() == [];
  }

  // ------------------------------------------------------------ closing without loss

  // No shutdown, no hang-up, no failed connection and no failed write of the
  // socket thread.
  ghost predicate Gentle(e: Event) {
    && e != ERequest(CClose(true))
    && !e.EHangUp? && !(e.EConnect? && !e.ok)
    && (e.EWritable? ==> Failed !in e.acks)
  }

  ghost predicate Calm(c: Conn) { c.kind != HalfWrite && CClose(true) !in c.pipe }

  lemma FreshCalm(kind: Kind)
    requires Opens(kind)
    ensures Calm(Fresh0(kind)) && !Fresh0(kind).lost
  {
  }

  // A close catches a direct write half way.
  ghost predicate Caught(c: Conn, e: Event) { e.EFreed? && c.freeing.Some? && !c.Locked() && c.dw.Some? }

  lemma AfterCalm(c: Conn, isLow: bool, n: nat)
    requires Sel(c, isLow) != [] && n <= SizeOf(Sel(c, isLow)[0])
    ensures ListOnly(c, AfterWrite(c, isLow, n), isLow)
  {
    hide Wrote;
  }

  lemma {:induction false} ListCalm(k: Sock, isLow: bool, acks: seq<Ack>)
    requires Failed !in acks
    ensures var a := ListSent(k, isLow, acks);
      a.ret == GoOn && ListOnly(k.c, a.k.c, isLow) && Failed !in a.left && a.k == k.(c := a.k.c)
    decreases |acks|
  {
    hide AfterWrite;
    if acks != [] {
      assert forall a :: a in acks[1..] ==> a in acks;
      assert acks[0] in acks;
      if Sel(k.c, isLow) != [] && SizeOf(Sel(k.c, isLow)[0]) >= 0 {
        if acks[0].Interrupted? {
          ListCalm(k, isLow, acks[1..]);
        } else if acks[0].Sz? {
          var n := Accepted(Sel(k.c, isLow)[0], acks[0].n);
          AfterCalm(k.c, isLow, n);
          ListCalm(k.(c := AfterWrite(k.c, isLow, n)), isLow, acks[1..]);
        }
      }
    }
  }

  // The kind stays or is Invalid; nothing is lost; the commands stay.
  ghost predicate StaysCalm(c: Conn, c': Conn) { c'.lost == c.lost && c'.pipe == c.pipe && (c'.kind == c.kind || c'.kind == Invalid) }

  lemma DrainedCalm(k: Sock, enabled: bool)
    requires k.c.high == [] && k.c.low == [] && k.c.dw.None?
    ensures StaysCalm(k.c, Drained(k, enabled).k.c)
  {
  }

  lemma LowCalm(k: Sock, acks: seq<Ack>, enabled: bool)
    requires Failed !in acks && k.c.high == [] && k.c.dw.None?
    ensures StaysCalm(k.c, LowSent(k, acks, enabled).k.c)
  {
    ListCalm(k, true, acks);
    hide ListSent, Drained;
    var b := if k.c.low == [] then Sent(k, GoOn, acks) else ListSent(k, true, acks);
    if b.k.c.low == [] {
      DrainedCalm(b.k, enabled);
    }
  }

  lemma WrittenCalm(k: Sock, acks: seq<Ack>, enabled: bool)
    requires Failed !in acks
    ensures StaysCalm(k.c, WrittenOut(k, acks, enabled).c)
  {
    hide ListSent, LowSent;
    var k1 := if k.c.dw.Some? then k.(c := DwMoved(k.c)) else k;
    ListCalm(k1, false, acks);
    var a := ListSent(k1, false, acks);
    if a.k.c.high == [] {
      LowCalm(a.k, a.left, enabled);
    }
  }

  // With these events a message is lost only when a close catches a direct write half
  // way.
  lemma GentleStep(k: Sock, e: Event)
    requires k.c.Valid() && Calm(k.c) && Gentle(e)
    ensures var c' := Next(k, e).c; Calm(c') && (c'.lost <==> k.c.lost || Caught(k.c, e))
  {
    if e.ETry? || e.ECheck? || e.EWrite? || e.EFinish? || e.EPrepare? || e.EPost? || e.ERequest? {
      SenderCalm(k, e);
    } else {
      SocketCalm(k, e);
    }
    hide Next, Calm, Conn.Valid;
  }

  lemma SenderCalm(k: Sock, e: Event)
    requires k.c.Valid() && Calm(k.c) && Gentle(e)
    requires e.ETry? || e.ECheck? || e.EWrite? || e.EFinish? || e.EPrepare? || e.EPost? || e.ERequest?
    ensures Calm(Next(k, e).c) && Next(k, e).c.lost == k.c.lost
  {
    hide CommandDone, WrittenOut, HasRead, ConnectEnded, Resumed, HungUp, Conn.Valid, DirectWritten, DirectEnded, Accepting, Posted;
    match e {
      case ECheck => if k.c.holder.Some? { AcceptingCalm(k.c); }
      case EWrite(ack) => if k.c.direct.Some? { DirectCalm(k.c, AckSize(k.c, ack)); }
      case EFinish => if k.c.direct.Some? { DirectCalm(k.c, 0); }
      case EPost(i) => if i < |k.c.preparing| { PostedCalm(k.c, i); }
      case ERequest(cmd) => PipeCalm(k.c.pipe, cmd);
      case _ =>
    }
  }

  lemma SocketCalm(k: Sock, e: Event)
    requires k.c.Valid() && Calm(k.c) && Gentle(e)
    requires !(e.ETry? || e.ECheck? || e.EWrite? || e.EFinish? || e.EPrepare? || e.EPost? || e.ERequest?)
    ensures Calm(Next(k, e).c) && (Next(k, e).c.lost <==> k.c.lost || Caught(k.c, e))
  {
    hide CommandDone, WrittenOut, HasRead, ConnectEnded, Conn.Valid, Raised;
    match e {
      case ECommand(enabled) => if k.c.pipe != [] { CommandCalm(k, enabled); }
      case EWritable(acks, enabled) => WrittenCalm(k, acks, enabled);
      case EReadable(got) => ReadCalm(k, got);
      case EConnect(_, enabled) => ConnectCalm(k, enabled);
      case _ =>
    }
  }

  lemma PipeCalm(pipe: seq<Cmd>, cmd: Cmd)
    requires CClose(true) !in pipe && cmd != CClose(true)
    ensures CClose(true) !in pipe + [cmd]
  {
  }

  lemma AcceptingCalm(c: Conn)
    requires c.holder.Some?
    ensures StaysCalm(c, Accepting(c))
  {
  }

  lemma PostedCalm(c: Conn, i: nat)
    requires i < |c.preparing| && CClose(true) !in c.pipe
    ensures CClose(true) !in Posted(c, i).pipe && Posted(c, i).lost == c.lost && Posted(c, i).kind == c.kind
  {
    PipeCalm(c.pipe, CSend(c.preparing[i]));
  }

  lemma DirectCalm(c: Conn, n: nat)
    requires c.direct.Some? && n <= |c.direct.value.m.data|
    ensures StaysCalm(c, DirectWritten(c, n)) && StaysCalm(c, DirectEnded(c))
  {
  }

  lemma CommandCalm(k: Sock, enabled: bool)
    requires k.c.Valid() && Calm(k.c) && k.c.pipe != []
    ensures var c' := CommandDone(k, enabled).c; Calm(c') && c'.lost == k.c.lost
  {
    hide Conn.Valid, SendDone, TriggerDone, SocketClosed, Dequeued;
    if k.c.pipe[0].CSend? ==> k.c.sending > 0 {
      var k' := k.(c := Dequeued(k.c));
      DequeuedCalm(k.c);
      match k.c.pipe[0] {
        case CSend(m) => SendCalm(k', m, enabled);
        case CTrigger => TriggerCalm(k', enabled);
        case CClose(shutdown) => ClosedCalm(k', shutdown);
      }
    }
  }

  lemma SendCalm(k: Sock, m: Message, enabled: bool)
    ensures StaysCalm(k.c, SendDone(k, m, enabled).c)
  {
    hide MessageSent, WithOut;
    MessageCalm(k, m, enabled);
    OutCalm(MessageSent(k, m, enabled).k, MessageSent(k, m, enabled).out);
  }

  lemma TriggerCalm(k: Sock, enabled: bool)
    ensures StaysCalm(k.c, TriggerDone(k, enabled).c)
  {
    hide WithOut;
    OutCalm(k.(writing := true), if enabled then None else Some(OErr));
  }

  lemma DequeuedCalm(c: Conn)
    requires c.pipe != [] && CClose(true) !in c.pipe && (c.pipe[0].CSend? ==> c.sending > 0)
    ensures Dequeued(c).lost == c.lost && Dequeued(c).kind == c.kind && CClose(true) !in Dequeued(c).pipe && c.pipe[0] != CClose(true)
  {
    assert forall x :: x in c.pipe[1..] ==> x in c.pipe;
    assert c.pipe[0] in c.pipe;
  }

  lemma OutCalm(k: Sock, out: Option<Out>)
    ensures StaysCalm(k.c, WithOut(k, out).c)
  {
  }

  lemma MessageCalm(k: Sock, m: Message, enabled: bool)
    ensures StaysCalm(k.c, MessageSent(k, m, enabled).k.c)
  {
    hide Appended;
    AppendedCalm(k.c, m, m.low && !(k.c.high == [] && k.c.low == []));
  }

  lemma AppendedCalm(c: Conn, m: Message, toLow: bool)
    ensures StaysCalm(c, Appended(c, m, toLow))
  {
  }

  lemma ClosedCalm(k: Sock, shutdown: bool)
    requires k.c.kind != HalfWrite && !shutdown
    ensures var c' := SocketClosed(k, shutdown).c; c'.lost == k.c.lost && c'.pipe == k.c.pipe && c'.kind != HalfWrite
  {
  }

  lemma ReadCalm(k: Sock, got: Got)
    requires k.c.Valid() && Calm(k.c)
    ensures var c' := HasRead(k, got).c; Calm(c') && c'.lost == k.c.lost
  {
    hide Conn.Valid;
  }

  lemma ConnectCalm(k: Sock, enabled: bool)
    requires k.c.Valid() && Calm(k.c)
    ensures var c' := ConnectEnded(k, true, enabled).c; Calm(c') && c'.lost == k.c.lost
  {
    hide Conn.Valid;
  }
}
