// What the calls of the mailbox protocol do, over runs in which any number of other
// threads take steps between theirs: a message that is sent arrives, a service that is
// retired is gone, a launch publishes, a worker hands out as many messages as it should.

module MailboxRun {
  import opened Mailbox

  // None of these events is a step of the thread.
  ghost predicate Others(es: seq<Event>, t: Thread) { forall k :: 0 <= k < |es| ==> es[k].t != t }

  // ------------------------------------------------------------ what others leave alone

  lemma ActNext(s: State, e: Event, t: Thread)
    requires e.t != t
    ensures ActOf(Next(s, e), t) == ActOf(s, t)
  {
    if e.Go? {
      AdvanceAct(s, e.t, e.weight, e.ok, t);
    }
    hide Advance;
  }

  lemma AdvanceAct(s: State, u: Thread, w: int, ok: bool, t: Thread)
    requires u != t
    ensures ActOf(Advance(s, u, w, ok), t) == ActOf(s, t)
  {
    var a := ActOf(s, u);
    if a.Idle? || a.h !in s.sv {
      assert Advance(s, u, w, ok) == s;
    } else if a.Looping? || a.Popped? || a.Running? || a.Ending? || a.Requeuing? || a.Dismissing? || a.Dropping? {
      WorkerAct(s, u, w, ok, t);
    } else {
      CallerAct(s, u, w, ok, t);
    }
    hide Advance;
  }

  lemma WorkerAct(s: State, u: Thread, w: int, ok: bool, t: Thread)
    requires u != t && var a := ActOf(s, u);
      (a.Looping? || a.Popped? || a.Running? || a.Ending? || a.Requeuing? || a.Dismissing? || a.Dropping?) && a.h in s.sv
    ensures ActOf(Advance(s, u, w, ok), t) == ActOf(s, t)
  {
    hide Resume, Released, Shifted, MqPush, MarkRelease, DropRef;
  }

  lemma CallerAct(s: State, u: Thread, w: int, ok: bool, t: Thread)
    requires u != t && var a := ActOf(s, u);
      !(a.Idle? || a.Looping? || a.Popped? || a.Running? || a.Ending? || a.Requeuing? || a.Dismissing? || a.Dropping?) && a.h in s.sv
    ensures ActOf(Advance(s, u, w, ok), t) == ActOf(s, t)
  {
    hide Resume, Released, Shifted;
  }

  lemma {:induction false} ActStays(es: seq<Event>, mid: seq<Event>, t: Thread)
    requires Others(mid, t)
    ensures ActOf(Run(es + mid), t) == ActOf(Run(es), t)
    decreases |mid|
  {
    hide Run, Next;
    if mid == [] {
      assert es + mid == es;
    } else {
      var init, e := mid[..|mid| - 1], mid[|mid| - 1];
      ActStays(es, init, t);
      assert es + mid == (es + init) + [e];
      RunMore(es + init, e);
      ActNext(Run(es + init), e, t);
    }
  }

  lemma {:induction false} ServiceStays(es: seq<Event>, mid: seq<Event>, h: Handle)
    requires h in Run(es).sv
    ensures h in Run(es + mid).sv
    decreases |mid|
  {
    hide Run, Next;
    if mid == [] {
      assert es + mid == es;
    } else {
      var init, e := mid[..|mid| - 1], mid[|mid| - 1];
      ServiceStays(es, init, h);
      assert es + mid == (es + init) + [e];
      RunMore(es + init, e);
      ServiceNext(Run(es + init), e, h);
    }
  }

  lemma ServiceNext(s: State, e: Event, h: Handle)
    requires h in s.sv
    ensures h in Next(s, e).sv
  {
    hide Advance, Begin;
    BeginChanges(s, e, h);
    if e.Go? {
      AdvanceChanges(s, e.t, e.weight, e.ok, h);
    }
  }

  // ------------------------------------------------------------ sending

  // A message that an idle thread sends to a registered service is pushed at the
  // thread's next step, whatever others do before it: it is the last that was pushed,
  // and the last in the queue.
  lemma SendArrives(es: seq<Event>, t: Thread, h: Handle, m: Message, mid: seq<Event>, w: int, ok: bool)
    requires var s := Run(es); ActOf(s, t).Idle? && h in s.sv && s.sv[h].registered
    requires Others(mid, t)
    ensures var before := es + [Send(t, h, m)] + mid;
      && h in Run(before).sv && h in Run(before + [Go(t, w, ok)]).sv
      && Run(before + [Go(t, w, ok)]).sv[h].pushed == Run(before).sv[h].pushed + [m]
      && Run(before + [Go(t, w, ok)]).sv[h].msgs == Run(before).sv[h].msgs + [m]
  {
    hide Run, Next, Advance, Effect;
    RunMore(es, Send(t, h, m));
    SendStarts(Run(es), t, h, m);
    var sent := es + [Send(t, h, m)];
    ActStays(sent, mid, t);
    ServiceStays(sent, mid, h);
    RunMore(sent + mid, Go(t, w, ok));
    GoAdvances(Run(sent + mid), t, w, ok);
    AdvanceChanges(Run(sent + mid), t, w, ok, h);
    EffectPushed(Pushing(h, m), Run(sent + mid).sv[h]);
    EffectMsgs(Pushing(h, m), Run(sent + mid).sv[h]);
  }

  lemma GoAdvances(s: State, t: Thread, w: int, ok: bool)
    ensures Next(s, Go(t, w, ok)) == Advance(s, t, w, ok)
  {
  }

  lemma EffectMsgs(a: Act, v: Service)
    ensures a.Pushing? ==> Effect(a, v).msgs == v.msgs + [a.m]
  {
  }

  lemma SendStarts(s: State, t: Thread, h: Handle, m: Message)
    requires ActOf(s, t).Idle? && h in s.sv && s.sv[h].registered
    ensures var s' := Next(s, Send(t, h, m)); ActOf(s', t) == Pushing(h, m) && h in s'.sv
  {
  }

  // A send to a service that is not registered changes nothing.
  lemma SendRefused(es: seq<Event>, t: Thread, h: Handle, m: Message)
    requires var s := Run(es); ActOf(s, t).Idle? && !(h in s.sv && s.sv[h].registered)
    ensures Run(es + [Send(t, h, m)]) == Run(es)
  {
    RunMore(es, Send(t, h, m));
    hide Run;
  }

  // The message that a thread has sent and not yet pushed: the thread was idle, and the
  // service registered.
  ghost function Pending(es: seq<Event>, t: Thread): Option<Sending> {
    if es == [] then None else
    var init, e := es[..|es| - 1], es[|es| - 1];
    if e.t != t then Pending(init, t)
    else if e.Go? then None
    else if e.Send? && ActOf(Run(init), t).Idle? && e.h in Run(init).sv && Run(init).sv[e.h].registered then Some(Sending(e.h, e.m))
    else Pending(init, t)
  }

  datatype Option<+T> = None | Some(value: T)

  datatype Sending = Sending(h: Handle, m: Message)

  // The messages that were sent to a service while it was registered, in the order in
  // which their senders went on.
  ghost function Sent(es: seq<Event>, h: Handle): seq<Message> {
    if es == [] then [] else
    var init, e := es[..|es| - 1], es[|es| - 1];
    Sent(init, h) +
      if e.Go? && Pending(init, e.t).Some? && Pending(init, e.t).value.h == h then [Pending(init, e.t).value.m] else []
  }

  lemma {:induction false} PendingIs(es: seq<Event>, t: Thread)
    ensures match Pending(es, t)
      case Some(x) => ActOf(Run(es), t) == Pushing(x.h, x.m)
      case None => !ActOf(Run(es), t).Pushing?
    decreases |es|
  {
    if es != [] {
      var init, e := es[..|es| - 1], es[|es| - 1];
      PendingIs(init, t);
      assert init + [e] == es;
      RunMore(init, e);
      hide Run, Next;
      if e.t != t {
        ActNext(Run(init), e, t);
      } else if e.Go? {
        GoAdvances(Run(init), t, e.weight, e.ok);
        RunInv(init);
        Facts(Run(init), t, 0);
        hide Inv;
        AdvancePushes(Run(init), t, e.weight, e.ok);
      } else {
        BeginPushes(Run(init), e);
      }
    }
  }

  lemma AdvancePushes(s: State, t: Thread, w: int, ok: bool)
    requires ActOf(s, t).Pushing? ==> ActOf(s, t).h in s.sv
    ensures !ActOf(Advance(s, t, w, ok), t).Pushing?
  {
    hide Shifted;
  }

  lemma BeginPushes(s: State, e: Event)
    requires !e.Go?
    ensures var a := ActOf(Next(s, e), e.t);
      if e.Send? && ActOf(s, e.t).Idle? && e.h in s.sv && s.sv[e.h].registered then a == Pushing(e.h, e.m)
      else a == ActOf(s, e.t) || !(a.Pushing? || ActOf(s, e.t).Pushing?)
  {
  }

  // In every run exactly these messages have been pushed, in this order.
  lemma {:induction false} PushedAre(es: seq<Event>, h: Handle)
    ensures if h in Run(es).sv then Run(es).sv[h].pushed == Sent(es, h) else Sent(es, h) == []
    decreases |es|
  {
    hide Run, Next, Pending, Inv;
    if es == [] {
      RunNone();
    } else {
      var init, e := es[..|es| - 1], es[|es| - 1];
      PushedAre(init, h);
      PendingIs(init, e.t);
      RunInv(init);
      Facts(Run(init), e.t, h);
      assert init + [e] == es;
      RunMore(init, e);
      PushedNext(Run(init), e, h);
    }
  }

  lemma PushedNext(s: State, e: Event, h: Handle)
    requires !ActOf(s, e.t).Idle? ==> ActOf(s, e.t).h in s.sv
    ensures var s' := Next(s, e);
      && (h in s.sv ==> h in s'.sv && s'.sv[h].pushed == s.sv[h].pushed + if e.Go? && ActOf(s, e.t).Pushing? && ActOf(s, e.t).h == h then [ActOf(s, e.t).m] else [])
      && (h !in s.sv && h in s'.sv ==> s'.sv[h].pushed == [])
  {
    hide Advance, Begin, Effect;
    if e.Go? {
      if h in s.sv {
        AdvanceChanges(s, e.t, e.weight, e.ok, h);
        EffectPushed(ActOf(s, e.t), s.sv[h]);
        assert s.sv[h].pushed + [] == s.sv[h].pushed;
      } else {
        AdvanceMakes(s, e.t, e.weight, e.ok, h);
      }
    } else if h in s.sv {
      BeginChanges(s, e, h);
      assert s.sv[h].pushed + [] == s.sv[h].pushed;
    } else {
      BeginMakes(s, e, h);
    }
  }

  lemma AdvanceMakes(s: State, t: Thread, w: int, ok: bool, h: Handle)
    requires h !in s.sv
    ensures h !in Advance(s, t, w, ok).sv
  {
    hide Resume, Released, Shifted;
  }

  lemma BeginMakes(s: State, e: Event, h: Handle)
    requires h !in s.sv
    ensures h in Begin(s, e).sv ==> e.Create? && e.h == h && Begin(s, e).sv[h] == Service(2, true, false, [], true, false, false, [], [], [])
  {
  }

  // ------------------------------------------------------------ handing out

  // The message that a thread is running, or about to run, is the last that was handed
  // to the service.
  ghost predicate LastHanded(s: State) {
    forall t {:trigger s.acts[t]} :: t in s.acts && (s.acts[t].Popped? || s.acts[t].Running?) ==>
      s.acts[t].h in s.sv && s.sv[s.acts[t].h].handed != [] &&
      s.sv[s.acts[t].h].handed[|s.sv[s.acts[t].h].handed| - 1] == s.acts[t].m
  }

  lemma {:induction false} RunningIsLast(es: seq<Event>)
    ensures LastHanded(Run(es))
    decreases |es|
  {
    hide Run, Next, Inv, LastHanded;
    if es == [] {
      RunNone();
      NoneHanded();
    } else {
      var init, e := es[..|es| - 1], es[|es| - 1];
      RunningIsLast(init);
      RunInv(init);
      assert init + [e] == es;
      RunMore(init, e);
      LastNext(Run(init), e);
    }
  }

  lemma NoneHanded()
    ensures LastHanded(START)
  {
  }

  lemma LastNext(s: State, e: Event)
    requires Inv(s) && LastHanded(s)
    ensures LastHanded(Next(s, e))
  {
    hide Next, Inv;
    var s' := Next(s, e);
    forall t | t in s'.acts && (s'.acts[t].Popped? || s'.acts[t].Running?)
      ensures var h := s'.acts[t].h; h in s'.sv && s'.sv[h].handed != [] && s'.sv[h].handed[|s'.sv[h].handed| - 1] == s'.acts[t].m
    {
      LastOne(s, e, t);
    }
  }

  lemma LastOne(s: State, e: Event, t: Thread)
    requires Inv(s) && LastHanded(s)
    ensures var s', a := Next(s, e), ActOf(Next(s, e), t);
      a.Popped? || a.Running? ==> a.h in s'.sv && s'.sv[a.h].handed != [] && s'.sv[a.h].handed[|s'.sv[a.h].handed| - 1] == a.m
  {
    hide Next, Inv, LastHanded;
    var a := ActOf(Next(s, e), t);
    if a.Popped? || a.Running? {
      if t != e.t {
        ActNext(s, e, t);
        OthersLast(s, e, t);
        LastAt(s, t);
      } else {
        OwnLast(s, e);
      }
    }
  }

  lemma OthersLast(s: State, e: Event, t: Thread)
    requires Inv(s) && LastHanded(s) && t != e.t && (ActOf(s, t).Popped? || ActOf(s, t).Running?)
    ensures var h := ActOf(s, t).h;
      h in s.sv && h in Next(s, e).sv && Next(s, e).sv[h].handed == s.sv[h].handed
  {
    hide Inv, Next, LastHanded;
    var h := ActOf(s, t).h;
    LastAt(s, t);
    HistoryGrows(s, e, h);
    OwnedOnce(s, h);
    assert RunsService(s, t, h);
    hide RunsService;
    if Next(s, e).sv[h].handed != s.sv[h].handed {
      assert false;
    }
  }

  lemma OwnLast(s: State, e: Event)
    requires Inv(s) && LastHanded(s) && (ActOf(Next(s, e), e.t).Popped? || ActOf(Next(s, e), e.t).Running?)
    ensures var s', a := Next(s, e), ActOf(Next(s, e), e.t);
      a.h in s'.sv && s'.sv[a.h].handed != [] && s'.sv[a.h].handed[|s'.sv[a.h].handed| - 1] == a.m
  {
    hide Inv, Next, LastHanded;
    Facts(s, e.t, 0);
    if e.Go? {
      GoAdvances(s, e.t, e.weight, e.ok);
      GoLast(s, e.t, e.weight, e.ok);
    } else {
      BeginLast(s, e);
      LastAt(s, e.t);
    }
  }

  lemma LastAt(s: State, t: Thread)
    requires LastHanded(s)
    ensures var a := ActOf(s, t);
      a.Popped? || a.Running? ==> a.h in s.sv && s.sv[a.h].handed != [] && s.sv[a.h].handed[|s.sv[a.h].handed| - 1] == a.m
  {
  }

  lemma BeginLast(s: State, e: Event)
    requires !e.Go?
    ensures var a := ActOf(Next(s, e), e.t); a.Popped? || a.Running? ==> Next(s, e) == s
  {
  }

  lemma GoLast(s: State, t: Thread, w: int, ok: bool)
    requires LastHanded(s) && (!ActOf(s, t).Idle? ==> ActOf(s, t).h in s.sv)
    ensures var s' := Advance(s, t, w, ok);
      var a := ActOf(s', t);
      a.Popped? || a.Running? ==> a.h in s'.sv && s'.sv[a.h].handed != [] && s'.sv[a.h].handed[|s'.sv[a.h].handed| - 1] == a.m
  {
    hide Shifted, MqPush, MarkRelease, DropRef, PushGlobal;
  }

  // ------------------------------------------------------------ retiring

  // A service that an idle thread retires is no longer registered after the thread's
  // next step, whatever others do before it.
  lemma RetireTakes(es: seq<Event>, t: Thread, h: Handle, mid: seq<Event>, w: int, ok: bool)
    requires var s := Run(es); ActOf(s, t).Idle? && h in s.sv
    requires Others(mid, t)
    ensures var after := es + [Retire(t, h)] + mid + [Go(t, w, ok)]; h in Run(after).sv && !Run(after).sv[h].registered
  {
    hide Run, Next, Advance, Effect;
    RunMore(es, Retire(t, h));
    RetireStarts(Run(es), t, h);
    var asked := es + [Retire(t, h)];
    ActStays(asked, mid, t);
    ServiceStays(asked, mid, h);
    RunMore(asked + mid, Go(t, w, ok));
    GoAdvances(Run(asked + mid), t, w, ok);
    AdvanceChanges(Run(asked + mid), t, w, ok, h);
    EffectRegistered(Retiring(h, ThenStop), Run(asked + mid).sv[h]);
  }

  lemma RetireStarts(s: State, t: Thread, h: Handle)
    requires ActOf(s, t).Idle? && h in s.sv
    ensures var s' := Next(s, Retire(t, h)); ActOf(s', t) == Retiring(h, ThenStop) && h in s'.sv
  {
  }

  lemma EffectRegistered(a: Act, v: Service)
    ensures Effect(a, v).registered <==> v.registered && !a.Retiring?
  {
  }

  // Nothing else takes a service out of the table, and it never comes back.
  lemma RegisteredUntil(s: State, e: Event, h: Handle)
    requires h in s.sv
    ensures h in Next(s, e).sv
    ensures Next(s, e).sv[h].registered <==>
      s.sv[h].registered && !(e.Go? && ActOf(s, e.t).Retiring? && ActOf(s, e.t).h == h)
  {
    hide Advance, Begin, Effect;
    BeginChanges(s, e, h);
    if e.Go? {
      AdvanceChanges(s, e.t, e.weight, e.ok, h);
      EffectRegistered(ActOf(s, e.t), s.sv[h]);
    }
  }

  // ------------------------------------------------------------ calls end

  // How many steps of its own a sender, or a thread that retires a service, still has.
  function Left(a: Act): nat {
    match a
    case Pushing(_, _) => 3
    case Retiring(_, _) => 3
    case Releasing(_, _) => 2
    case Deleting(_, _) => 1
    case _ => 0
  }

  predicate Calling(a: Act) { a.Pushing? || ((a.Retiring? || a.Releasing? || a.Deleting?) && a.next.ThenStop?) }

  lemma CallsEnd(es: seq<Event>, t: Thread, w: int, ok: bool)
    requires Calling(ActOf(Run(es), t))
    ensures var a, b := ActOf(Run(es), t), ActOf(Run(es + [Go(t, w, ok)]), t);
      (b.Idle? || Calling(b)) && Left(b) < Left(a)
  {
    hide Run, Inv;
    RunMore(es, Go(t, w, ok));
    RunInv(es);
    Facts(Run(es), t, ActOf(Run(es), t).h);
    CallGoes(Run(es), t, w, ok);
  }

  lemma CallGoes(s: State, t: Thread, w: int, ok: bool)
    requires Calling(ActOf(s, t)) && ActOf(s, t).h in s.sv && (ActOf(s, t).Releasing? ==> s.sv[ActOf(s, t).h].ref > 0)
    ensures var a, b := ActOf(s, t), ActOf(Next(s, Go(t, w, ok)), t); (b.Idle? || Calling(b)) && Left(b) < Left(a)
  {
  }

  // ------------------------------------------------------------ a thread alone

  // n steps of one thread, one after the other.
  function Gos(t: Thread, w: int, ok: bool, n: nat): seq<Event> { if n == 0 then [] else Gos(t, w, ok, n - 1) + [Go(t, w, ok)] }

  lemma GosMore(es: seq<Event>, t: Thread, w: int, ok: bool, n: nat)
    ensures Run(es + Gos(t, w, ok, n + 1)) == Advance(Run(es + Gos(t, w, ok, n)), t, w, ok)
  {
    hide Run, Advance;
    var g := Gos(t, w, ok, n);
    assert es + Gos(t, w, ok, n + 1) == (es + g) + [Go(t, w, ok)];
    RunMore(es + g, Go(t, w, ok));
    GoAdvances(Run(es + g), t, w, ok);
  }

  lemma GosNone(es: seq<Event>, t: Thread, w: int, ok: bool)
    ensures es + Gos(t, w, ok, 0) == es
  {
  }

  // A launch publishes the service: it is registered with one reference, initialised,
  // empty, and the last of the global list.
  lemma LaunchWorks(es: seq<Event>, t: Thread, h: Handle, w: int)
    requires ActOf(Run(es), t).Idle? && h !in Run(es).sv
    ensures var s, s' := Run(es), Run(es + [Create(t, h)] + Gos(t, w, true, 4));
      && h in s'.sv && s'.sv[h] == Service(1, true, true, [], true, false, false, [], [], [])
      && s'.global == s.global + [h] && ActOf(s', t).Idle?
  {
    hide Run, Gos, Advance;
    RunMore(es, Create(t, h));
    var b := es + [Create(t, h)];
    GosNone(b, t, w, true);
    GosMore(b, t, w, true, 0);
    GosMore(b, t, w, true, 1);
    GosMore(b, t, w, true, 2);
    GosMore(b, t, w, true, 3);
    CreateGoes(Run(es), t, h);
    LaunchGoes(Run(b), t, h, w);
  }

  const NEW: Service := Service(2, true, false, [], true, false, false, [], [], [])

  lemma CreateGoes(s: State, t: Thread, h: Handle)
    requires ActOf(s, t).Idle? && h !in s.sv
    ensures var s' := Next(s, Create(t, h)); ActOf(s', t) == Launching(h) && h in s'.sv && s'.sv[h] == NEW && s'.global == s.global
  {
  }

  lemma LaunchGoes(s: State, t: Thread, h: Handle, w: int)
    requires ActOf(s, t) == Launching(h) && h in s.sv && s.sv[h] == NEW
    ensures var s1 := Advance(s, t, w, true);
      var s2 := Advance(s1, t, w, true);
      var s3 := Advance(s2, t, w, true);
      var s4 := Advance(s3, t, w, true);
      && h in s4.sv && s4.sv[h] == NEW.(ref := 1, init := true) && s4.global == s.global + [h] && ActOf(s4, t).Idle?
  {
    hide Resume, Released;
  }

  // A launch whose init function fails leaves nothing: the service is not registered,
  // and its queue is freed.
  lemma LaunchFails(es: seq<Event>, t: Thread, h: Handle, w: int)
    requires ActOf(Run(es), t).Idle? && h !in Run(es).sv
    ensures var s, s' := Run(es), Run(es + [Create(t, h)] + Gos(t, w, false, 7));
      && h in s'.sv && !s'.sv[h].registered && s'.sv[h].ref == 0 && s'.sv[h].freed && s'.sv[h].pushed == []
      && s'.global == s.global && ActOf(s', t).Idle?
  {
    hide Run, Gos, Advance;
    RunMore(es, Create(t, h));
    var b := es + [Create(t, h)];
    GosNone(b, t, w, false);
    GosMore(b, t, w, false, 0);
    GosMore(b, t, w, false, 1);
    GosMore(b, t, w, false, 2);
    GosMore(b, t, w, false, 3);
    GosMore(b, t, w, false, 4);
    GosMore(b, t, w, false, 5);
    GosMore(b, t, w, false, 6);
    CreateGoes(Run(es), t, h);
    FailGoes(Run(b), t, h, w);
    FailEnds(Run(b + Gos(t, w, false, 4)), t, h, w);
  }

  lemma FailGoes(s: State, t: Thread, h: Handle, w: int)
    requires ActOf(s, t) == Launching(h) && h in s.sv && s.sv[h] == NEW
    ensures var s1 := Advance(s, t, w, false);
      var s2 := Advance(s1, t, w, false);
      var s3 := Advance(s2, t, w, false);
      var s4 := Advance(s3, t, w, false);
      && h in s4.sv && s4.sv[h] == NEW.(ref := 0, registered := false) && s4.global == s.global && ActOf(s4, t) == Deleting(h, ThenRelease(h))
  {
  }

  lemma FailEnds(s: State, t: Thread, h: Handle, w: int)
    requires ActOf(s, t) == Deleting(h, ThenRelease(h)) && h in s.sv && s.sv[h] == NEW.(ref := 0, registered := false)
    ensures var s1 := Advance(s, t, w, false);
      var s2 := Advance(s1, t, w, false);
      var s3 := Advance(s2, t, w, false);
      && h in s3.sv && s3.sv[h] == NEW.(ref := 0, registered := false, release := true, inGlobal := false, freed := true)
      && s3.global == s.global && ActOf(s3, t).Idle?
  {
  }

  // ------------------------------------------------------------ a worker

  function Two(k: nat): (r: nat)
    ensures r > 0
  {
    if k == 0 then 1 else 2 * Two(k - 1)
  }

  lemma {:induction false} ShiftedIs(n: nat, k: nat)
    ensures Shifted(n, k) == n / Two(k)
    decreases k
  {
    if k > 0 {
      ShiftedIs(n / 2, k - 1);
      Halves(n, Two(k - 1));
    }
  }

  lemma Halves(n: nat, p: nat)
    requires p > 0
    ensures n / 2 / p == n / (2 * p)
  {
    var q, r := n / 2 / p, n / 2 % p;
    assert n / 2 == p * q + r;
    assert n == 2 * (n / 2) + n % 2;
    assert 2 * (p * q) == (2 * p) * q;
    Quotient(n, 2 * p, q, 2 * r + n % 2);
  }

  lemma Quotient(n: nat, d: nat, q: nat, r: nat)
    requires d > 0 && n == d * q + r && r < d
    ensures n / d == q
  {
    var k := n / d - q;
    assert n == d * (n / d) + n % d;
    assert d * (n / d) == d * q + d * k;
    if k >= 1 {
      Times(d, 1, k);
    } else if k <= -1 {
      Times(d, k, -1);
    }
  }

  lemma Times(d: nat, a: int, b: int)
    requires a <= b
    ensures d * a <= d * b
  {
  }

  // How many messages a worker of this weight takes from a queue of so many: one, or
  // the part of the rest that its weight says if that is more.
  function Batch(n: nat, w: int): nat
    requires n > 0
  {
    if w < 0 || Share(n - 1, w) <= 0 then 1 else Share(n - 1, w)
  }

  function Share(n: nat, k: nat): int { n / Two(k) }

  // The bound of the loop after the first message.
  function Bound(n: nat, w: int): nat
    requires n > 0
  {
    if w < 0 then 1 else Shifted(n - 1, w)
  }

  lemma BatchIs(n: nat, w: int)
    requires n > 0
    ensures Batch(n, w) == (if Bound(n, w) == 0 then 1 else Bound(n, w)) && 1 <= Batch(n, w) <= n
  {
    if w >= 0 {
      ShiftedIs(n - 1, w);
      Smaller(n - 1, Two(w));
      hide Shifted, Two;
    }
  }

  lemma Smaller(n: nat, d: nat)
    requires d > 0
    ensures n / d <= n
  {
    assert n == d * (n / d) + n % d;
    Times(n / d, 1, d);
  }

  // One message: taken, counted, run.
  lemma LoopOnce(s: State, t: Thread, h: Handle, i: nat, n: nat, w: int)
    requires ActOf(s, t) == Looping(h, i, n) && i < n && h in s.sv && s.sv[h].msgs != []
    ensures var v := s.sv[h];
      var s' := Advance(Advance(Advance(s, t, w, true), t, w, true), t, w, true);
      && ActOf(s', t) == Looping(h, i + 1, if i == 0 && w >= 0 then Shifted(|v.msgs| - 1, w) else n)
      && h in s'.sv && s'.sv[h] == v.(msgs := v.msgs[1..], handed := v.handed + [v.msgs[0]])
  {
    hide Shifted, Resume, Released;
  }

  lemma {:induction false} LoopRuns(es: seq<Event>, t: Thread, h: Handle, w: int, i: nat)
    requires var s := Run(es); ActOf(s, t) == Looping(h, 0, 1) && h in s.sv && s.sv[h].msgs != [] && i <= Batch(|s.sv[h].msgs|, w)
    ensures var v, s' := Run(es).sv[h], Run(es + Gos(t, w, true, 3 * i));
      && ActOf(s', t) == Looping(h, i, if i == 0 then 1 else Bound(|v.msgs|, w))
      && h in s'.sv && i <= |v.msgs| && s'.sv[h] == v.(msgs := v.msgs[i..], handed := v.handed + v.msgs[..i])
    decreases i
  {
    hide Run, Gos, Advance, Shifted, Batch;
    var v := Run(es).sv[h];
    BatchIs(|v.msgs|, w);
    if i == 0 {
      GosNone(es, t, w, true);
      assert v.msgs[0..] == v.msgs && v.handed + v.msgs[..0] == v.handed;
    } else {
      LoopRuns(es, t, h, w, i - 1);
      var j := 3 * (i - 1);
      GosThree(es, t, w, j);
      LoopNext(Run(es + Gos(t, w, true, j)), t, h, i - 1, w, v);
      assert 3 * i == j + 3;
    }
  }

  lemma GosThree(es: seq<Event>, t: Thread, w: int, n: nat)
    ensures Run(es + Gos(t, w, true, n + 3)) == Advance(Advance(Advance(Run(es + Gos(t, w, true, n)), t, w, true), t, w, true), t, w, true)
  {
    hide Run, Gos, Advance;
    GosMore(es, t, w, true, n);
    GosMore(es, t, w, true, n + 1);
    GosMore(es, t, w, true, n + 2);
  }

  // The next message of a batch, when i have been handed out.
  lemma LoopNext(s: State, t: Thread, h: Handle, i: nat, w: int, v: Service)
    requires i < |v.msgs| && i < Batch(|v.msgs|, w)
    requires ActOf(s, t) == Looping(h, i, if i == 0 then 1 else Bound(|v.msgs|, w))
    requires h in s.sv && s.sv[h] == v.(msgs := v.msgs[i..], handed := v.handed + v.msgs[..i])
    ensures var s' := Advance(Advance(Advance(s, t, w, true), t, w, true), t, w, true);
      && ActOf(s', t) == Looping(h, i + 1, Bound(|v.msgs|, w))
      && h in s'.sv && s'.sv[h] == v.(msgs := v.msgs[i + 1..], handed := v.handed + v.msgs[..i + 1])
  {
    hide Advance, Shifted, Batch;
    BatchIs(|v.msgs|, w);
    LoopOnce(s, t, h, i, if i == 0 then 1 else Bound(|v.msgs|, w), w);
    assert v.msgs[i..][1..] == v.msgs[i + 1..] && (v.handed + v.msgs[..i]) + [v.msgs[i]] == v.handed + v.msgs[..i + 1];
  }

  // An idle worker takes the first listed queue.  If its service is registered the worker
  // hands out exactly a batch of its messages, in order, and is done with it.
  lemma Dispatches(es: seq<Event>, t: Thread, h: Handle, w: int)
    requires var s := Run(es); ActOf(s, t).Idle? && s.global != [] && s.global[0] == h && h in s.sv && s.sv[h].registered && s.sv[h].msgs != []
    ensures var v := Run(es).sv[h];
      var n := Batch(|v.msgs|, w);
      var s' := Run((es + [PopGlobal(t)] + Gos(t, w, true, 1)) + Gos(t, w, true, 3 * n + 1));
      && ActOf(s', t) == Ending(h) && h in s'.sv && n <= |v.msgs|
      && s'.sv[h] == v.(msgs := v.msgs[n..], handed := v.handed + v.msgs[..n], ref := v.ref + 1)
  {
    hide Run, Gos, Advance, Shifted, Batch;
    var v := Run(es).sv[h];
    var n := Batch(|v.msgs|, w);
    BatchIs(|v.msgs|, w);
    RunMore(es, PopGlobal(t));
    TakeGoes(Run(es), t, h);
    var b := es + [PopGlobal(t)];
    GosNone(b, t, w, true);
    GosMore(b, t, w, true, 0);
    HoldGoes(Run(b), t, h, w);
    var c := b + Gos(t, w, true, 1);
    LoopRuns(c, t, h, w, n);
    GosMore(c, t, w, true, 3 * n);
    LoopEnds(Run(c + Gos(t, w, true, 3 * n)), t, h, n, Bound(|v.msgs|, w), w);
  }

  lemma TakeGoes(s: State, t: Thread, h: Handle)
    requires ActOf(s, t).Idle? && s.global != [] && s.global[0] == h
    ensures Next(s, PopGlobal(t)) == SetAct(s.(global := s.global[1..]), t, Holding(h))
  {
  }

  lemma HoldGoes(s: State, t: Thread, h: Handle, w: int)
    requires ActOf(s, t) == Holding(h) && h in s.sv && s.sv[h].registered
    ensures var s' := Advance(s, t, w, true); ActOf(s', t) == Looping(h, 0, 1) && h in s'.sv && s'.sv[h] == s.sv[h].(ref := s.sv[h].ref + 1)
  {
  }

  lemma LoopEnds(s: State, t: Thread, h: Handle, i: nat, n: nat, w: int)
    requires ActOf(s, t) == Looping(h, i, n) && i >= n && h in s.sv
    ensures var s' := Advance(s, t, w, true); ActOf(s', t) == Ending(h) && h in s'.sv && s'.sv[h] == s.sv[h]
  {
  }

  // After a batch the queue goes to the end of the list and the worker takes the first
  // one; when none is listed it keeps its own.
  lemma EndsBatch(es: seq<Event>, t: Thread, h: Handle, w: int)
    requires ActOf(Run(es), t) == Ending(h) && h in Run(es).sv && Run(es).sv[h].registered
    ensures var s := Run(es);
      if s.global == [] then var s' := Run(es + Gos(t, w, true, 2)); ActOf(s', t) == Holding(h) && s'.global == []
      else var s' := Run(es + Gos(t, w, true, 3)); ActOf(s', t) == Holding(s.global[0]) && s'.global == s.global[1..] + [h]
  {
    hide Run, Gos, Advance, Inv;
    RunInv(es);
    Facts(Run(es), t, h);
    GosNone(es, t, w, true);
    GosMore(es, t, w, true, 0);
    GosMore(es, t, w, true, 1);
    GosMore(es, t, w, true, 2);
    EndGoes(Run(es), t, h, w);
  }

  lemma EndGoes(s: State, t: Thread, h: Handle, w: int)
    requires ActOf(s, t) == Ending(h) && h in s.sv && s.sv[h].ref > 1
    ensures var s1 := Advance(s, t, w, true);
      var s2 := Advance(s1, t, w, true);
      if s.global == [] then ActOf(s2, t) == Holding(h) && s2.global == []
      else var s3 := Advance(s2, t, w, true); ActOf(s3, t) == Holding(s.global[0]) && s3.global == s.global[1..] + [h]
  {
  }

  // An empty queue leaves the list, and the worker is idle or deletes the service that
  // it had the last reference to.
  lemma EmptyStops(es: seq<Event>, t: Thread, h: Handle, i: nat, n: nat, w: int)
    requires var s := Run(es); ActOf(s, t) == Looping(h, i, n) && i < n && h in s.sv && s.sv[h].msgs == []
    ensures var s, s' := Run(es), Run(es + Gos(t, w, true, 2));
      && h in s'.sv && !s'.sv[h].inGlobal && s'.global == s.global
      && (if s.sv[h].ref > 1 then ActOf(s', t).Idle? else ActOf(s', t) == Deleting(h, ThenStop))
  {
    hide Run, Gos, Advance, Inv;
    RunInv(es);
    Facts(Run(es), t, h);
    GosNone(es, t, w, true);
    GosMore(es, t, w, true, 0);
    GosMore(es, t, w, true, 1);
    EmptyGoes(Run(es), t, h, i, n, w);
  }

  lemma EmptyGoes(s: State, t: Thread, h: Handle, i: nat, n: nat, w: int)
    requires ActOf(s, t) == Looping(h, i, n) && i < n && h in s.sv && s.sv[h].msgs == [] && s.sv[h].ref > 0
    ensures var s' := Advance(Advance(s, t, w, true), t, w, true);
      && h in s'.sv && !s'.sv[h].inGlobal && s'.global == s.global
      && (if s.sv[h].ref > 1 then ActOf(s', t).Idle? else ActOf(s', t) == Deleting(h, ThenStop))
  {
  }

  // A queue whose service is gone is listed again until it is marked, and then all its
  // messages are dropped and it is freed.
  lemma GoneAgain(es: seq<Event>, t: Thread, h: Handle, w: int)
    requires var s := Run(es); ActOf(s, t) == Holding(h) && h in s.sv && !s.sv[h].registered && !s.sv[h].release
    ensures var s, s' := Run(es), Run(es + Gos(t, w, true, 2)); ActOf(s', t).Idle? && s'.global == s.global + [h] && s'.sv == s.sv
  {
    hide Run, Gos, Advance;
    GosNone(es, t, w, true);
    GosMore(es, t, w, true, 0);
    GosMore(es, t, w, true, 1);
    GoneGoes(Run(es), t, h, w);
  }

  lemma GoneGoes(s: State, t: Thread, h: Handle, w: int)
    requires ActOf(s, t) == Holding(h) && h in s.sv && !s.sv[h].registered
    ensures var s1 := Advance(s, t, w, true);
      var s2 := Advance(s1, t, w, true);
      if s.sv[h].release then ActOf(s2, t) == Dropping(h) && s2.sv == s.sv
      else ActOf(s2, t).Idle? && s2.global == s.global + [h] && s2.sv == s.sv
  {
  }

  lemma {:induction false} DropRuns(es: seq<Event>, t: Thread, h: Handle, w: int, i: nat)
    requires var s := Run(es); ActOf(s, t) == Dropping(h) && h in s.sv && i <= |s.sv[h].msgs|
    ensures var v, s' := Run(es).sv[h], Run(es + Gos(t, w, true, i));
      ActOf(s', t) == Dropping(h) && h in s'.sv && s'.sv[h] == v.(msgs := v.msgs[i..], dropped := v.dropped + v.msgs[..i])
    decreases i
  {
    hide Run, Gos, Advance;
    var v := Run(es).sv[h];
    if i == 0 {
      GosNone(es, t, w, true);
      assert v.msgs[0..] == v.msgs && v.dropped + v.msgs[..0] == v.dropped;
    } else {
      DropRuns(es, t, h, w, i - 1);
      GosMore(es, t, w, true, i - 1);
      DropGoes(Run(es + Gos(t, w, true, i - 1)), t, h, w);
      assert v.msgs[i - 1..][1..] == v.msgs[i..] && (v.dropped + v.msgs[..i - 1]) + [v.msgs[i - 1]] == v.dropped + v.msgs[..i];
    }
  }

  lemma DropGoes(s: State, t: Thread, h: Handle, w: int)
    requires ActOf(s, t) == Dropping(h) && h in s.sv
    ensures var v, s' := s.sv[h], Advance(s, t, w, true);
      h in s'.sv &&
      if v.msgs == [] then ActOf(s', t).Idle? && s'.sv[h] == v.(inGlobal := false, freed := true)
      else ActOf(s', t) == Dropping(h) && s'.sv[h] == v.(msgs := v.msgs[1..], dropped := v.dropped + [v.msgs[0]])
  {
  }

  lemma GoneFreed(es: seq<Event>, t: Thread, h: Handle, w: int)
    requires var s := Run(es); ActOf(s, t) == Holding(h) && h in s.sv && !s.sv[h].registered && s.sv[h].release
    ensures var v := Run(es).sv[h];
      var s' := Run((es + Gos(t, w, true, 2)) + Gos(t, w, true, |v.msgs| + 1));
      ActOf(s', t).Idle? && h in s'.sv && s'.sv[h].freed && s'.sv[h].dropped == v.dropped + v.msgs
  {
    hide Run, Gos, Advance;
    var v := Run(es).sv[h];
    GosNone(es, t, w, true);
    GosMore(es, t, w, true, 0);
    GosMore(es, t, w, true, 1);
    GoneGoes(Run(es), t, h, w);
    var b := es + Gos(t, w, true, 2);
    DropRuns(b, t, h, w, |v.msgs|);
    GosMore(b, t, w, true, |v.msgs|);
    DropGoes(Run(b + Gos(t, w, true, |v.msgs|)), t, h, w);
    assert v.msgs[..|v.msgs|] == v.msgs;
  }

  // Any other call that grabs a context holds a reference, and lets go of it.
  lemma GrabHolds(es: seq<Event>, t: Thread, h: Handle)
    requires var s := Run(es); ActOf(s, t).Idle? && h in s.sv && s.sv[h].registered
    ensures var s, s' := Run(es), Run(es + [Grab(t, h)]);
      && h in s'.sv && s'.sv[h] == s.sv[h].(ref := s.sv[h].ref + 1)
      && ActOf(s', t) == Releasing(h, ThenStop) && Calling(ActOf(s', t))
  {
    hide Run;
    RunMore(es, Grab(t, h));
  }
}
