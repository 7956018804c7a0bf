// One TCP connection of the socket server, from its registration to the end of
// its id: the two priority lists, the buffer of direct writes by other threads,
// half-close states and the events it raises.
//
// Each method is one step that cannot be interrupted: a command or an event in
// the socket thread, or what a sender does between two moments at which other
// threads can interfere.  What the kernel answers is a parameter.

module SocketServer {
  import opened SocketStream
  import opened SocketConn
  import opened SocketSpec
  import opened SocketRun
  import opened SocketOut

  class Socket {
    var c: Conn
    var reading: bool
    var writing: bool

    ghost predicate Valid() reads this`c { c.Valid() }

    ghost function View(): Sock reads this { Sock(c, reading, writing) }

    // A connection that was accepted or is open at once, or that is being opened.
    constructor (kind: Kind)
      requires Opens(kind)
      ensures Valid() && View() == Opened(kind)
    {
      hide Conn.Valid;
      c := Fresh0(kind);
      reading, writing := kind != PAccept, kind == Connecting;
      Fresh0Ok(kind);
    }

    // force_close by the socket thread while it has the lock.
    method ForceClose()
      requires c.Core() && c.Live() && !c.Locked()
      modifies this`c
      ensures Valid() && c == ForceClosed(old(c))
    {
      hide Conn.Valid, Conn.Core;
      CloseNow(c);
      c := c.(kind := Invalid, high := [], low := [], dw := None, lost := c.lost || c.high != [] || c.low != [] || c.dw.Some?);
    }

    // The first part of force_close, before it waits for the lock: the lists are
    // freed and the socket leaves the event pool.  'r' is raised in the end.
    method BeginForceClose(r: Option<Out>)
      requires Valid() && c.Live() && r != Some(OData) && (r == Some(OClose) ==> c.kind != HalfRead)
      modifies this`c
      ensures Valid() && c == BeginClosed(old(c), r)
    {
      hide Conn.Valid, Conn.Core;
      CloseBegin(c, r);
      c := c.(high := [], low := [], freeing := Some(r), lost := c.lost || c.high != [] || c.low != [],
              cut := c.high != [] && c.high[0].ptr > 0);
    }

    // The second part, when no sender has the lock.
    method FinishForceClose()
      requires Valid() && c.freeing.Some? && !c.Locked()
      modifies this`c
      ensures Valid() && c == CloseEnded(old(c)) && c.pieces == old(c).pieces
    {
      hide Conn.Valid, Conn.Core;
      CloseEnd(c);
      var r := c.freeing.value;
      c := c.(kind := Invalid, dw := None, freeing := None, outs := if r.Some? then c.outs + [r.value] else c.outs,
              lost := c.lost || c.dw.Some?);
    }

    method Raise(o: Out)
      requires Valid() && o != OClose && (o == OData ==> c.kind != HalfRead && c.Live())
      modifies this`c
      ensures Valid() && c == old(c).(outs := old(c).outs + [o])
    {
      hide Conn.Valid, Conn.Core;
      RaiseOk(c, o);
      c := c.(outs := c.outs + [o]);
    }

    // A write has failed.
    method CloseWrite() returns (ret: Ret)
      requires c.Valid() && c.Live() && !c.Locked()
      modifies this`c, this`writing
      ensures Valid() && ret != GoOn
      ensures ret == Err <==> !old(c).closing && old(c).kind != HalfRead && old(c).kind != HalfWrite
      ensures c.pieces == old(c).pieces && c.outs == old(c).outs
      ensures forall left :: Sent(View(), ret, left) == FailedWrite(old(View()), left)
    {
      hide Conn.Valid, Conn.Core;
      ValidIs(c);
      if c.closing {
        ForceClose();
        return Rst;
      } else {
        if c.kind == HalfRead {
          // the peer sends no more either: nothing is reported
          ForceClose();
          return Rst;
        }
        if c.kind == HalfWrite {
          // this was reported when it happened first
          return Rst;
        }
        HalfCloseWrite(c);
        c := c.(kind := HalfWrite);
        writing := false;
        ValidWhen(c);
        return Err;
      }
    }

    // Send a list as far as the kernel takes it.
    method SendList(isLow: bool, acks: seq<Ack>) returns (ret: Ret, left: seq<Ack>)
      requires Valid() && c.Live() && !c.Locked() && c.dw.None? && (isLow ==> c.high == [])
      modifies this`c, this`writing
      ensures c.Core() && (Clean(c.pieces) <==> Clean(old(c).pieces)) && c.outs == old(c).outs
      ensures Sent(View(), ret, left) == ListSent(old(View()), isLow, acks)
      ensures if ret != GoOn then Valid() else
        ListOnly(old(c), c, isLow) && (Valid() || (isLow && c.low != [] && c.low[0].ptr > 0))
    {
      hide Conn.Valid, Conn.Core, Clean, Ready, ListSent, ListOnly;
      ret, left := GoOn, acks;
      var go := true;
      ValidIs(c);
      OnlyNone(c, isLow);
      while go && (if isLow then c.low else c.high) != []
        invariant c.Core() && (Clean(c.pieces) <==> Clean(old(c).pieces)) && c.outs == old(c).outs
        invariant go ==> Valid() && ListOnly(old(c), c, isLow) && ListSent(View(), isLow, left) == ListSent(old(View()), isLow, acks)
        invariant !go ==> Sent(View(), ret, left) == ListSent(old(View()), isLow, acks)
        invariant ret != GoOn ==> Valid() && !go
        invariant ret == GoOn ==> ListOnly(old(c), c, isLow) && (Valid() || (isLow && c.low != [] && c.low[0].ptr > 0))
        decreases if go then 1 else 0, |left|
      {
        ghost var before := c;
        OnlyStays(old(c), c, isLow);
        go, ret, left := SendHead(isLow, left);
        if ret == GoOn {
          OnlyTrans(old(c), before, c, isLow);
        }
      }
      if go {
        ListStep(View(), isLow, left);
      }
    }

    // The head of a list: does the loop go on?
    method SendHead(isLow: bool, acks: seq<Ack>) returns (go: bool, ret: Ret, left: seq<Ack>)
      requires Valid() && c.Live() && !c.Locked() && c.dw.None? && (isLow ==> c.high == []) && Sel(c, isLow) != []
      modifies this`c, this`writing
      ensures c.Core() && (Clean(c.pieces) <==> Clean(old(c).pieces)) && c.outs == old(c).outs
      ensures if go then ListSent(View(), isLow, left) == ListSent(old(View()), isLow, acks) && Valid() && |left| < |acks| && ret == GoOn
              else Sent(View(), ret, left) == ListSent(old(View()), isLow, acks)
      ensures if ret != GoOn then Valid() else
        ListOnly(old(c), c, isLow) && (Valid() || (isLow && c.low != [] && c.low[0].ptr > 0))
    {
      hide Conn.Valid, Conn.Core, Clean, Ready, AfterWrite, FailedWrite, ListSent;
      ValidIs(c);
      ReadyWhen(c, isLow);
      ReadyHead(c, isLow);
      left := NextAck(View(), isLow, acks);
      ListStep(View(), isLow, left);
      if left == [] || left[0].Again? {
        return false, GoOn, left;
      }
      var ack := left[0];
      left := left[1..];
      if ack.Failed? {
        ret := CloseWrite();
        ValidIs(c);
        return false, ret, left;
      }
      go := WriteHead(isLow, ack.n);
      ret := GoOn;
    }

    // An interrupted write is tried again.
    static method NextAck(ghost k: Sock, ghost isLow: bool, acks: seq<Ack>) returns (left: seq<Ack>)
      requires Sel(k.c, isLow) != [] && SizeOf(Sel(k.c, isLow)[0]) >= 0
      ensures ListSent(k, isLow, left) == ListSent(k, isLow, acks)
      ensures |left| <= |acks| && (left != [] ==> !left[0].Interrupted?)
    {
      hide ListSent, FailedWrite, AfterWrite;
      left := acks;
      while left != [] && left[0].Interrupted?
        invariant |left| <= |acks| && ListSent(k, isLow, left) == ListSent(k, isLow, acks)
        decreases |left|
      {
        ListStep(k, isLow, left);
        left := left[1..];
      }
    }

    // One write() of a list head, of which the kernel takes at most 'k' bytes; a
    // head that is out leaves the list.
    method WriteHead(isLow: bool, k: nat) returns (whole: bool)
      requires Ready(c, isLow)
      modifies this`c
      ensures SizeOf(Sel(old(c), isLow)[0]) >= 0
      ensures var b := Sel(old(c), isLow)[0];
        var n := if k < SizeOf(b) then k else SizeOf(b);
        c == AfterWrite(old(c), isLow, n) && whole == (n == SizeOf(b))
      ensures ListOnly(old(c), c, isLow)
      ensures c.Core() && (Clean(c.pieces) <==> Clean(old(c).pieces))
      ensures old(c).Valid() ==> c.Valid() || (isLow && !whole && c.low != [] && c.low[0].ptr > 0)
    {
      hide Conn.Core, Conn.Valid, Ready, Clean, Wrote, ListOnly, AfterWrite;
      ReadyHead(c, isLow);
      var tmp := if isLow then c.low[0] else c.high[0];
      var n := if k < SizeOf(tmp) then k else SizeOf(tmp);
      AfterWriteOk(c, isLow, n);
      AfterCalm(c, isLow, n);
      AfterIs(c, isLow, n);
      if c.Valid() {
        WriteValid(c, isLow, n);
      }
      whole := n == SizeOf(tmp);
      var rest := if whole then [] else [Buffer(tmp.m, tmp.ptr + n)];
      var out := c.wire + tmp.m.data[tmp.ptr..tmp.ptr + n];
      if isLow {
        c := c.(low := rest + c.low[1..], wire := out, pieces := Wrote(c.pieces, tmp, n), wbSize := c.wbSize - n);
      } else {
        c := c.(high := rest + c.high[1..], wire := out, pieces := Wrote(c.pieces, tmp, n), wbSize := c.wbSize - n);
      }
    }

    // send_buffer_: the high list, then the low one; a low message that was
    // begun moves to the high list.
    method SendLists(acks: seq<Ack>, enabled: bool) returns (out: Option<Out>)
      requires Valid() && c.Live() && !c.Locked() && c.dw.None?
      modifies this`c, this`writing
      ensures Valid() && (Clean(c.pieces) <==> Clean(old(c).pieces)) && c.outs == old(c).outs && out != Some(OClose) && out != Some(OData)
      ensures Answer(View(), out) == ListsSent(old(View()), acks, enabled)
    {
      hide Conn.Valid, Conn.Core, Clean, ListSent, LowSent;
      var ret, left := SendList(false, acks);
      if ret != GoOn {
        return if ret == Err then Some(OErr) else None;
      }
      if c.high != [] {
        return None;
      }
      out := SendLow(left, enabled);
    }

    // The part of send_buffer_ after the high list.
    method SendLow(acks: seq<Ack>, enabled: bool) returns (out: Option<Out>)
      requires Valid() && c.Live() && !c.Locked() && c.dw.None? && c.high == []
      modifies this`c, this`writing
      ensures Valid() && (Clean(c.pieces) <==> Clean(old(c).pieces)) && c.outs == old(c).outs && out != Some(OClose) && out != Some(OData)
      ensures Answer(View(), out) == LowSent(old(View()), acks, enabled)
    {
      hide Conn.Valid, Conn.Core, Clean, ListSent, Drained;
      if c.low != [] {
        var ret, _ := SendList(true, acks);
        if ret != GoOn {
          return if ret == Err then Some(OErr) else None;
        }
        if c.low != [] && c.low[0].ptr > 0 {
          RaiseUncomplete(c);
          c := c.(high := [c.low[0]], low := c.low[1..]);
          return None;
        }
        if c.low != [] {
          return None;
        }
      }
      out := Finish(enabled);
    }

    // Nothing is left to send: a close that waited for it goes on.
    method Finish(enabled: bool) returns (out: Option<Out>)
      requires Valid() && c.Live() && !c.Locked() && c.dw.None? && c.high == [] && c.low == []
      modifies this`c, this`writing
      ensures Valid() && c.pieces == old(c).pieces && c.outs == old(c).outs && out != Some(OClose) && out != Some(OData)
      ensures Answer(View(), out) == Drained(old(View()), enabled)
    {
      hide Conn.Valid, Conn.Core;
      ValidIs(c);
      AllSent(c);
      assert c.wbSize == 0;
      if c.closing {
        ForceClose();
        return None;
      }
      out := None;
      if writing {
        writing := false;
        if !enabled {
          out := Some(OErr);
        }
      }
    }

    // send_buffer: the socket thread may write.
    method Writable(acks: seq<Ack>, enabled: bool)
      requires Valid() && c.Live() && c.kind != Connecting
      modifies this`c, this`writing
      ensures Valid() && (Clean(c.pieces) <==> Clean(old(c).pieces))
      ensures View() == WrittenOut(old(View()), acks, enabled)
      ensures Closes(c.outs) == Closes(old(c).outs)
    {
      hide Conn.Valid, Conn.Core, Clean, Closes, ListsSent;
      if c.Locked() {
        return;  // a sender has the lock: the poll reports the socket again
      }
      if c.dw.Some? {
        // what a direct write has left was begun: it is the first to go on
        DwFirst(c);
        c := c.(high := [c.dw.value] + c.high, dw := None, wbSize := c.wbSize + SizeOf(c.dw.value));
      }
      var out := SendLists(acks, enabled);
      if out.Some? {
        ClosesStay(c.outs, out.value);
        Raise(out.value);
      }
    }

    // ---------------------------------------------------------- commands and events

    // send_socket: queue a message, or drop it.
    method SendSocket(m: Message, enabled: bool) returns (out: Option<Out>)
      requires Valid() && c.freeing.None?
      modifies this`c, this`writing
      ensures Valid() && out != Some(OClose) && out != Some(OData)
      ensures c.pieces == old(c).pieces
      ensures Answer(View(), out) == MessageSent(old(View()), m, enabled)
    {
      hide Conn.Valid, Conn.Core;
      out := None;
      if c.kind == Invalid || c.kind == HalfWrite || c.kind == PAccept || c.closing {
        return;
      }
      ValidIs(c);
      if c.high == [] && c.low == [] {
        // the priority matters only behind other messages
        AppendOk(c, m, false);
        c := c.(high := c.high + [Buffer(m, 0)], wbSize := c.wbSize + |m.data|, taken := c.taken + [m]);
        if !writing {
          writing := true;
          if !enabled {
            return Some(OErr);
          }
        }
      } else if m.low {
        NotEmpty(c);
        AppendOk(c, m, true);
        c := c.(low := c.low + [Buffer(m, 0)], wbSize := c.wbSize + |m.data|, taken := c.taken + [m]);
      } else {
        AppendOk(c, m, false);
        c := c.(high := c.high + [Buffer(m, 0)], wbSize := c.wbSize + |m.data|, taken := c.taken + [m]);
      }
    }

    // close_socket
    method CloseSocket(shutdown: bool)
      requires Valid() && c.freeing.None?
      modifies this`c, this`reading
      ensures Valid()
      ensures View() == SocketClosed(old(View()), shutdown)
      ensures Clean(c.pieces) <==> Clean(old(c).pieces)
    {
      hide Conn.Valid, Conn.Core, Clean;
      if c.kind == Invalid {
        return;
      }
      var shutdownRead := c.kind == HalfRead;
      if shutdown || NoMoreData(c) {
        // a half closed socket has raised its CLOSE
        BeginForceClose(if shutdownRead then None else Some(OClose));
        return;
      }
      if !shutdownRead {
        // from here on nothing is read
        CloseReadOk(c, true);
        c := c.(kind := HalfRead, closing := true, outs := c.outs + [OClose]);
        reading := false;
      } else {
        ClosingOk(c);
        c := c.(closing := true);
      }
    }

    // ctrl_cmd: take one command from the pipe.
    method Command(enabled: bool)
      requires Valid() && c.freeing.None? && c.pipe != []
      modifies this`c, this`reading, this`writing
      ensures Valid() && (Clean(c.pieces) <==> Clean(old(c).pieces))
      ensures old(c).pipe[0].CSend? ==> old(c).sending > 0
      ensures View() == CommandDone(old(View()), enabled)
    {
      hide Conn.Valid, Conn.Core, Clean, SendDone, TriggerDone, SocketClosed;
      var cmd := c.pipe[0];
      TakeCommandOk(c);
      match cmd {
        case CSend(m) =>
          c := c.(sending := c.sending - 1, pipe := c.pipe[1..]);
          Send(m, enabled);
        case CTrigger =>
          c := c.(pipe := c.pipe[1..]);
          TriggerWrite(enabled);
        case CClose(shutdown) =>
          c := c.(pipe := c.pipe[1..]);
          CloseSocket(shutdown);
      }
    }

    // A command that sends a message.
    method Send(m: Message, enabled: bool)
      requires Valid() && c.freeing.None?
      modifies this`c, this`writing
      ensures Valid() && c.pieces == old(c).pieces && View() == SendDone(old(View()), m, enabled)
    {
      hide Conn.Valid, Conn.Core, MessageSent;
      var out := SendSocket(m, enabled);
      if out.Some? {
        Raise(out.value);
      }
    }

    // trigger_write
    method TriggerWrite(enabled: bool)
      requires Valid()
      modifies this`c, this`writing
      ensures Valid() && c.pieces == old(c).pieces && View() == TriggerDone(old(View()), enabled)
    {
      hide Conn.Valid, Conn.Core;
      if c.kind != Invalid && !writing {
        writing := true;
        if !enabled {
          Raise(OErr);
        }
      }
    }

    // forward_message_tcp: the socket is readable.
    method Readable(got: Got)
      requires Valid() && c.Live() && c.kind != Connecting
      modifies this`c, this`reading
      ensures Valid() && (Clean(c.pieces) <==> Clean(old(c).pieces))
      ensures View() == HasRead(old(View()), got)
    {
      hide Conn.Valid, Conn.Core, Clean;
      match got {
        case Nothing =>
        case Broken => Raise(OErr);
        case Eof =>
          if c.closing {
            // CLOSE has been raised by the close
            if NoMoreData(c) {
              BeginForceClose(None);
            }
          } else if c.kind == HalfRead {
            // the end of the file was seen before
          } else if c.kind == HalfWrite {
            BeginForceClose(Some(OClose));
          } else {
            CloseReadOk(c, false);
            c := c.(kind := HalfRead, closing := false, outs := c.outs + [OClose]);
            reading := false;
          }
        case Data(_) =>
          if c.kind == HalfRead {
            // what comes after that is dropped
          } else {
            Raise(OData);
          }
      }
    }

    // The end-of-file event of the poll.
    method HangUp()
      requires Valid() && c.Live()
      modifies this`c
      ensures Valid() && View() == HungUp(old(View()))
      ensures Clean(c.pieces) <==> Clean(old(c).pieces)
    {
      hide Conn.Valid, Conn.Core, Clean;
      BeginForceClose(if c.kind == HalfRead then None else Some(OClose));
    }

    // report_connect
    method ReportConnect(ok: bool, enabled: bool)
      requires Valid() && c.Live() && c.kind == Connecting
      modifies this`c, this`writing
      ensures Valid() && (Clean(c.pieces) <==> Clean(old(c).pieces))
      ensures View() == ConnectEnded(old(View()), ok, enabled)
    {
      hide Conn.Valid, Conn.Core, Clean;
      if !ok {
        BeginForceClose(Some(OErr));
        return;
      }
      ConnectedOk(c);
      c := c.(kind := Connected);
      if NoMoreData(c) && writing {
        writing := false;
        if !enabled {
          BeginForceClose(Some(OErr));
          return;
        }
      }
      Raise(OOpen);
    }

    // resume_socket
    method Resume(enabled: bool)
      requires Valid() && c.freeing.None?
      modifies this`c, this`reading
      ensures Valid() && (Clean(c.pieces) <==> Clean(old(c).pieces))
      ensures View() == Resumed(old(View()), enabled)
    {
      hide Conn.Valid, Conn.Core, Clean;
      if c.kind == Invalid || c.kind == HalfRead {
        Raise(OErr);
        return;
      }
      if !reading {
        reading := true;
        if !enabled {
          Raise(OErr);
          return;
        }
      }
      if c.kind == PAccept {
        ConnectedOk(c);
        c := c.(kind := Connected);
        Raise(OOpen);
      } else if c.kind == Connected {
        Raise(OOpen);
      }
    }

    // ---------------------------------------------------------- senders

    // socket_server_send: the first check, without the lock.
    method TryDirect(m: Message) returns (locked: bool)
      requires Valid()
      modifies this`c
      ensures Valid() && locked == (CanDirect(old(c)) && !old(c).Locked() && !old(c).closing)
      ensures c == if locked then old(c).(holder := Some(m)) else old(c)
    {
      hide Conn.Valid, Conn.Core;
      locked := CanDirect(c) && !c.Locked() && !c.closing;
      if locked {
        HolderOk(c, Some(m));
        c := c.(holder := Some(m));
      }
    }

    // The second check, with the lock: the message is accepted, or it has to go
    // through the socket thread.
    method CheckAgain() returns (accepted: bool)
      requires Valid() && c.holder.Some?
      modifies this`c
      ensures Valid() && accepted == CanDirect(old(c))
      ensures c == Accepting(old(c)) && c.pieces == old(c).pieces
    {
      hide Conn.Valid, Conn.Core;
      accepted := CanDirect(c);
      if accepted {
        AcceptOk(c, c.holder.value);
        c := c.(holder := None, direct := Some(Buffer(c.holder.value, 0)), written := false, taken := c.taken + [c.holder.value]);
      } else {
        HolderFree(c);
        HolderOk(c, None);
        c := c.(holder := None);
      }
    }

    // The write of a sender that has the lock; an error counts as no byte.  It
    // spoils the stream exactly when a message was begun and freed before.
    method DirectWrite(ack: Ack)
      requires Valid() && c.direct.Some? && !c.written
      modifies this`c
      ensures Valid() && c == DirectWritten(old(c), AckSize(old(c), ack))
      ensures Clean(c.pieces) <==> Clean(old(c).pieces) && !Spoils(old(c), ack)
      ensures old(c).Live() ==> !Spoils(old(c), ack)
    {
      hide Conn.Valid, Conn.Core, Clean, Wrote, Torn;
      var b := c.direct.value;
      var n := AckSize(c, ack);
      DirectOk(c, n);
      c := c.(direct := Some(Buffer(b.m, n)), written := true, wire := c.wire + b.m.data[0..n], pieces := Wrote(c.pieces, b, n));
    }

    // What is left goes to the buffer of direct writes, and the lock is released.
    method DirectFinish()
      requires Valid() && c.direct.Some? && c.written
      modifies this`c
      ensures Valid() && c == DirectEnded(old(c)) && c.pieces == old(c).pieces
    {
      hide Conn.Valid, Conn.Core;
      EndedOk(c);
      if c.direct.value.ptr == |c.direct.value.m.data| {
        c := c.(direct := None);
      } else {
        c := c.(dw := c.direct, direct := None);
      }
    }

    // inc_sending_ref, before the command is sent.
    method Prepare(m: Message)
      requires Valid()
      modifies this`c
      ensures Valid() && c == old(c).(sending := old(c).sending + 1, preparing := old(c).preparing + [m])
    {
      hide Conn.Valid, Conn.Core;
      SendingIs(c);
      PipeOk(c, c.sending + 1, c.preparing + [m], c.pipe);
      c := c.(sending := c.sending + 1, preparing := c.preparing + [m]);
    }

    // The command of a sender that has raised 'sending'.
    method Post(k: nat)
      requires Valid() && k < |c.preparing|
      modifies this`c
      ensures Valid() && c == Posted(old(c), k) && c.pieces == old(c).pieces
    {
      hide Conn.Valid, Conn.Core;
      SendingIs(c);
      SendsConcat(c.pipe, [CSend(c.preparing[k])]);
      SendsOne(CSend(c.preparing[k]));
      PipeOk(c, c.sending, c.preparing[..k] + c.preparing[k + 1..], c.pipe + [CSend(c.preparing[k])]);
      c := c.(preparing := c.preparing[..k] + c.preparing[k + 1..], pipe := c.pipe + [CSend(c.preparing[k])]);
    }

    // Any other command: a trigger after a direct write, a close or a shutdown.
    method Request(cmd: Cmd)
      requires Valid() && !cmd.CSend?
      modifies this`c
      ensures Valid() && c == old(c).(pipe := old(c).pipe + [cmd])
    {
      hide Conn.Valid, Conn.Core;
      SendingIs(c);
      SendsConcat(c.pipe, [cmd]);
      SendsOne(cmd);
      PipeOk(c, c.sending, c.preparing, c.pipe + [cmd]);
      c := c.(pipe := c.pipe + [cmd]);
    }
  }

  // ------------------------------------------------------------ whole runs

  // One event, if it is possible.
  method Do(s: Socket, e: Event)
    requires s.Valid()
    modifies s
    ensures s.Valid() && s.View() == Next(old(s.View()), e)
    ensures Clean(s.c.pieces) <==> Clean(old(s.c).pieces) && !SpoiltBy(old(s.c), e)
  {
    hide Conn.Valid, Clean, Spoils, CommandDone, HasRead, WrittenOut, HungUp, ConnectEnded, Resumed, DirectWritten, DirectEnded, Accepting,
      Posted, BeginClosed, CloseEnded;
    var c := s.c;
    match e {
      case ECommand(enabled) => if c.freeing.None? && c.pipe != [] { s.Command(enabled); }
      case EReadable(got) => if c.Live() && c.kind != Connecting { s.Readable(got); }
      case EWritable(acks, enabled) => if c.Live() && c.kind != Connecting { s.Writable(acks, enabled); }
      case EHangUp => if c.Live() { s.HangUp(); }
      case EError => if c.Live() { s.Raise(OErr); }
      case EConnect(ok, enabled) => if c.Live() && c.kind == Connecting { s.ReportConnect(ok, enabled); }
      case EResume(enabled) => if c.freeing.None? { s.Resume(enabled); }
      case EFreed => if c.freeing.Some? && !c.Locked() { s.FinishForceClose(); }
      case ETry(m) => var _ := s.TryDirect(m);
      case ECheck => if c.holder.Some? { var _ := s.CheckAgain(); }
      case EWrite(ack) => if c.direct.Some? && !c.written { s.DirectWrite(ack); }
      case EFinish => if c.direct.Some? && c.written { s.DirectFinish(); }
      case EPrepare(m) => s.Prepare(m);
      case EPost(k) => if k < |c.preparing| { s.Post(k); }
      case ERequest(cmd) => if !cmd.CSend? { s.Request(cmd); }
    }
  }

  // Any run of a connection.  'trace' has the state before each event and the
  // last one.  What is out is whole messages and at most one unfinished prefix,
  // exactly when no write of a sender has fallen into the window of a forced
  // close that had freed a message begun; messages of one priority go out in the
  // order in which they were accepted, the first ones until some are lost; an
  // ended connection has lost none exactly if all that it accepted are out; the
  // count of pending bytes is right; CLOSE is raised at most once, with no data
  // after it.  DATA is raised whenever data comes before a CLOSE, OPEN whenever the
  // connection is made or started, CLOSE when the read side ends; the messages that
  // are accepted are those of the commands and of the direct writes.  A run without shutdown, hang-up and failures loses a message
  // exactly if a close catches a direct write half way.
  method Drive(kind: Kind, es: seq<Event>) returns (s: Socket, ghost trace: seq<Sock>)
    requires Opens(kind)
    ensures |trace| == |es| + 1 && trace[|es|] == s.View()
    ensures var clean := forall k :: 0 <= k < |es| ==> !SpoiltBy(trace[k].c, es[k]);
      && (Clean(s.c.pieces) <==> clean)
      && (clean ==> exists rest: seq<Byte> ::
            s.c.wire == Flatten(Done(s.c.pieces)) + rest && (rest == [] || PrefixIn(s.c.pieces, rest)))
    ensures s.c.Live() ==> s.c.wbSize == Pending(s.c.high) + Pending(s.c.low)
    ensures Closes(s.c.outs) <= 1 && Silent(s.c.outs)
    ensures forall p: bool :: Subseq(Class(p, Done(s.c.pieces)), Class(p, s.c.taken))
    ensures !s.c.lost ==> forall p: bool :: Class(p, Done(s.c.pieces)) <= Class(p, s.c.taken)
    ensures s.c.kind == Invalid ==> (!s.c.lost <==> SameClasses(Done(s.c.pieces), s.c.taken))
    ensures Count(OData, s.c.outs) == Total(OData, trace, es, |es|) && Count(OOpen, s.c.outs) == Total(OOpen, trace, es, |es|)
    ensures Count(OClose, s.c.outs) + Owed(OClose, s.c) == Total(OClose, trace, es, |es|)
    ensures s.c.taken == AllAccepted(trace, es, |es|) && AllExecuted(trace, es, |es|) + s.c.pipe == AllAsked(trace, es, |es|)
    ensures (forall k :: 0 <= k < |es| ==> Gentle(es[k])) ==>
      (s.c.lost <==> exists k :: 0 <= k < |es| && Caught(trace[k].c, es[k]))
    ensures Lawful(kind, trace, es)
  {
    hide Conn.Valid, Clean, SpoiltBy, Conn.All, Class, Closes, Silent, Done, Flatten, Pending, Subseq, SameClasses, PrefixIn, Gentle,
      Caught, Count, Owed, Total, AllAccepted, AllExecuted, AllAsked, Lawful;
    s, trace := Perform(kind, es);
    RunFacts(s.c);
    OutIs(s.c);
    EventsAre(kind, trace, es, |es|);
    TakenAre(kind, trace, es, |es|);
    if forall k :: 0 <= k < |es| ==> Gentle(es[k]) {
      GentleRun(kind, trace, es, |es|);
    }
  }

  // The events of a run one after the other.
  method Perform(kind: Kind, es: seq<Event>) returns (s: Socket, ghost trace: seq<Sock>)
    requires Opens(kind)
    ensures fresh(s) && s.Valid() && Lawful(kind, trace, es) && |trace| == |es| + 1 && trace[|es|] == s.View()
    ensures Clean(s.c.pieces) <==> forall k :: 0 <= k < |es| ==> !SpoiltBy(trace[k].c, es[k])
  {
    hide Conn.Valid, Clean, SpoiltBy, Next, Lawful;
    s := new Socket(kind);
    trace := [s.View()];
    Fresh0Clean(kind);
    LawfulStart(kind, s.View());
    assert es[..0] == [];
    for k := 0 to |es|
      invariant s.Valid() && fresh(s) && Lawful(kind, trace, es[..k]) && |trace| == k + 1 && trace[k] == s.View()
      invariant Clean(s.c.pieces) <==> forall j :: 0 <= j < k ==> !SpoiltBy(trace[j].c, es[j])
    {
      ghost var before := trace;
      Do(s, es[k]);
      trace := trace + [s.View()];
      LawfulMore(kind, before, es, k, s.View());
      assert forall j :: 0 <= j <= k ==> trace[j] == before[j];
    }
    assert es[..|es|] == es;
  }

  lemma {:induction false} FlattenHead(ms: seq<Message>)
    requires ms != []
    ensures ms[0].data <= Flatten(ms)
    decreases |ms|
  {
    if |ms| == 1 {
      assert Flatten(ms) == Flatten([]) + ms[0].data;
    } else {
      FlattenHead(ms[..|ms| - 1]);
    }
  }

  const FIRST: Message := Message(1, false, [1, 2])
  const SECOND: Message := Message(2, false, [7, 7])

  lemma NoSuchStream(ms: seq<Message>, rest: seq<Byte>)
    requires forall k :: 0 <= k < |ms| ==> ms[k].data == [1, 2] || ms[k].data == [7, 7]
    requires rest <= [1, 2] || rest <= [7, 7]
    ensures [1, 7, 7] != Flatten(ms) + rest
  {
    if ms == [] {
      assert Flatten(ms) + rest == rest;
    } else {
      FlattenHead(ms);
      assert (Flatten(ms) + rest)[0] == ms[0].data[0] && (Flatten(ms) + rest)[1] == ms[0].data[1];
    }
  }

  // A connection whose high list holds one message.
  method OneQueued() returns (s: Socket)
    ensures s.Valid() && fresh(s) && s.c == Fresh0(Connected).(
      high := [Buffer(FIRST, 0)], wbSize := 2, outs := s.c.outs, taken := [FIRST])
  {
    hide Conn.Valid, Conn.Core, Clean;
    s := new Socket(Connected);
    s.Prepare(FIRST);
    s.Post(0);
    s.Command(true);
  }

  // One byte of it is out, and a shutdown has freed the rest.
  method OneByteOut() returns (s: Socket)
    ensures s.Valid() && fresh(s) && s.c.wire == [1] && s.c.pieces == [Piece(FIRST, 1)] && s.c.freeing.Some? && s.c.cut
    ensures CanDirect(s.c) && !s.c.Locked() && !s.c.closing
  {
    hide Conn.Valid, Conn.Core, Clean;
    s := OneQueued();
    ReadyWhen(s.c, false);
    var whole := s.WriteHead(false, 1);
    ValidWhen(s.c);
    assert s.c.pieces == [Piece(FIRST, 1)];
    s.Request(CClose(true));
    s.Command(true);
  }

  // The window is real: a shutdown frees a message of which one byte is out, and
  // before it gets the lock another thread writes its own message.  What is out
  // is then no sequence of messages with an unfinished one at the end.
  method TornMessage() returns (s: Socket)
    ensures s.Valid() && s.c.wire == [1, 7, 7] && !Clean(s.c.pieces)
    ensures forall ms: seq<Message>, rest: seq<Byte> ::
      (forall k :: 0 <= k < |ms| ==> ms[k].data == [1, 2] || ms[k].data == [7, 7]) && (rest <= [1, 2] || rest <= [7, 7])
      ==> s.c.wire != Flatten(ms) + rest
  {
    hide Conn.Valid, Conn.Core, Clean;
    s := OneByteOut();
    var locked := s.TryDirect(SECOND);
    var accepted := s.CheckAgain();
    assert Torn(s.c.pieces) by {
      assert !Whole(s.c.pieces[0]);
    }
    s.DirectWrite(Sz(2));
    assert s.c.wire == [1] + SECOND.data[0..2] == [1, 7, 7];
    forall ms: seq<Message>, rest: seq<Byte>
      | (forall k :: 0 <= k < |ms| ==> ms[k].data == [1, 2] || ms[k].data == [7, 7]) && (rest <= [1, 2] || rest <= [7, 7])
      ensures s.c.wire != Flatten(ms) + rest
    {
      NoSuchStream(ms, rest);
    }
  }

  // A close that is no shutdown may lose a message as well: another thread has
  // written one byte of it, and the rest waits in the buffer of direct writes when
  // the close, which had found nothing to send, gets the lock.
  method CaughtMessage() returns (s: Socket)
    ensures s.Valid() && s.c.kind == Invalid && s.c.lost && s.c.taken == [SECOND] && s.c.wire == [7]
  {
    hide Conn.Valid, Conn.Core, Clean;
    s := new Socket(Connected);
    s.Request(CClose(false));
    var locked := s.TryDirect(SECOND);
    var accepted := s.CheckAgain();
    s.DirectWrite(Sz(1));
    s.Command(true);
    s.DirectFinish();
    assert s.c.dw == Some(Buffer(SECOND, 1)) && s.c.freeing == Some(Some(OClose));
    ghost var c := s.c;
    s.FinishForceClose();
    assert s.c == CloseEnded(c) && s.c.lost;
    assert s.c.wire == [] + SECOND.data[0..1] == [7];
  }
}
