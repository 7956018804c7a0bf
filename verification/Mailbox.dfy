// The mailbox protocol between senders, workers, launchers and killers, as the
// steps of any number of threads.  A body under a lock and an atomic operation
// are one step each; so is the registration of a context with its queue.
//
// A service is named by its handle, which is never used again.

module Mailbox {

  type Handle = nat
  type Thread = nat
  type Message = nat

  // A context and its message queue.
  datatype Service = Service(
    ref: nat,                // reference count of the context
    registered: bool,        // the handle table refers to the context
    init: bool,              // the context may dispatch messages
    msgs: seq<Message>,      // what the queue holds
    inGlobal: bool,          // 'in_global'
    release: bool,           // 'release'
    freed: bool,             // the queue has been freed
    pushed: seq<Message>,    // every message ever pushed
    handed: seq<Message>,    // every message handed to the service
    dropped: seq<Message>)   // every message dropped with an error to its source

  // What a thread does after it has released a context.
  datatype Then = ThenStop | ThenHold(q: Handle) | ThenRetire(q: Handle) | ThenRelease(q: Handle) | ThenPublish(q: Handle)

  // Where a thread is.
  datatype Act =
    | Idle
    // skynet_context_push
    | Pushing(h: Handle, m: Message)
    // skynet_context_release, delete_context, skynet_handle_retire
    | Releasing(h: Handle, next: Then)
    | Deleting(h: Handle, next: Then)
    | Retiring(h: Handle, next: Then)
    // skynet_context_message_dispatch
    | Holding(h: Handle)
    | Looping(h: Handle, i: nat, n: nat)
    | Popped(h: Handle, m: Message, i: nat, n: nat)
    | Running(h: Handle, m: Message, i: nat, n: nat)
    | Ending(h: Handle)
    | Requeuing(h: Handle, nq: Handle)
    // skynet_mq_release
    | Dismissing(h: Handle)
    | Dropping(h: Handle)
    // skynet_context_new
    | Launching(h: Handle)
    | Launched(h: Handle)
    | Initialising(h: Handle)
    | Publishing(h: Handle)

  datatype State = State(sv: map<Handle, Service>, global: seq<Handle>, acts: map<Thread, Act>)

  // What may happen next: a thread starts something, or goes on.  'weight' is
  // the weight of a worker, 'ok' the result of an init function.
  datatype Event =
    | Create(t: Thread, h: Handle)
    | Send(t: Thread, h: Handle, m: Message)
    | Grab(t: Thread, h: Handle)
    | Retire(t: Thread, h: Handle)
    | PopGlobal(t: Thread)
    | Go(t: Thread, weight: int, ok: bool)

  // ------------------------------------------------------------ steps

  function ActOf(s: State, t: Thread): Act { if t in s.acts then s.acts[t] else Idle }

  function SetAct(s: State, t: Thread, a: Act): State { s.(acts := s.acts[t := a]) }

  function SetService(s: State, h: Handle, v: Service): State { s.(sv := s.sv[h := v]) }

  function Resume(next: Then): Act {
    match next
    case ThenStop => Idle
    case ThenHold(q) => Holding(q)
    case ThenRetire(q) => Retiring(q, ThenRelease(q))
    case ThenRelease(q) => Dismissing(q)
    case ThenPublish(q) => Publishing(q)
  }

  function PushGlobal(s: State, h: Handle): State { s.(global := s.global + [h]) }

  // skynet_mq_push
  function MqPush(s: State, h: Handle, m: Message): State
    requires h in s.sv
  {
    var v := s.sv[h];
    var s1 := SetService(s, h, v.(msgs := v.msgs + [m], pushed := v.pushed + [m], inGlobal := true));
    if v.inGlobal then s1 else PushGlobal(s1, h)
  }

  // skynet_mq_mark_release
  function MarkRelease(s: State, h: Handle): State
    requires h in s.sv
  {
    var v := s.sv[h];
    var s1 := SetService(s, h, v.(release := true));
    if v.inGlobal then s1 else PushGlobal(s1, h)
  }

  // ATOM_FDEC of the reference count.
  function DropRef(s: State, h: Handle): State
    requires h in s.sv && s.sv[h].ref > 0
  {
    SetService(s, h, s.sv[h].(ref := s.sv[h].ref - 1))
  }

  // The rest of a thread that has the last reference, or not.
  function Released(s: State, h: Handle, next: Then): Act
    requires h in s.sv
  {
    if s.sv[h].ref == 1 then Deleting(h, next) else Resume(next)
  }

  function Shifted(n: nat, weight: nat): nat {
    if weight == 0 then n else Shifted(n / 2, weight - 1)
  }

  // One step of thread 't' where it is.
  function Advance(s: State, t: Thread, weight: int, ok: bool): State {
    var a := ActOf(s, t);
    if a.Idle? || a.h !in s.sv then s else
    var h := a.h;
    var v := s.sv[h];
    match a
    case Pushing(_, m) => SetAct(MqPush(s, h, m), t, Releasing(h, ThenStop))
    case Releasing(_, next) => if v.ref == 0 then s else SetAct(DropRef(s, h), t, Released(s, h, next))
    case Deleting(_, next) => SetAct(MarkRelease(s, h), t, Resume(next))
    case Retiring(_, next) =>
      if v.registered then SetAct(SetService(s, h, v.(registered := false)), t, Releasing(h, next))
      else SetAct(s, t, Resume(next))
    case Holding(_) =>
      if v.registered then SetAct(SetService(s, h, v.(ref := v.ref + 1)), t, Looping(h, 0, 1))
      else SetAct(s, t, Dismissing(h))
    case Looping(_, i, n) =>
      if i >= n then SetAct(s, t, Ending(h))
      else if v.msgs == [] then SetAct(SetService(s, h, v.(inGlobal := false)), t, Releasing(h, ThenStop))
      else SetAct(SetService(s, h, v.(msgs := v.msgs[1..], handed := v.handed + [v.msgs[0]])), t, Popped(h, v.msgs[0], i, n))
    case Popped(_, m, i, n) =>
      SetAct(s, t, Running(h, m, i, if i == 0 && weight >= 0 then Shifted(|v.msgs|, weight) else n))
    case Running(_, _, i, n) => SetAct(s, t, Looping(h, i + 1, n))
    case Ending(_) =>
      if s.global == [] then SetAct(s, t, Releasing(h, ThenHold(h)))
      else SetAct(s.(global := s.global[1..]), t, Requeuing(h, s.global[0]))
    case Requeuing(_, nq) => SetAct(PushGlobal(s, h), t, Releasing(h, ThenHold(nq)))
    case Dismissing(_) =>
      if v.release then SetAct(s, t, Dropping(h)) else SetAct(PushGlobal(s, h), t, Idle)
    case Dropping(_) =>
      if v.msgs == [] then SetAct(SetService(s, h, v.(inGlobal := false, freed := true)), t, Idle)
      else SetAct(SetService(s, h, v.(msgs := v.msgs[1..], dropped := v.dropped + [v.msgs[0]])), t, Dropping(h))
    case Launching(_) => SetAct(s, t, if ok then Launched(h) else Releasing(h, ThenRetire(h)))
    case Launched(_) =>
      if v.ref == 0 then s
      else SetAct(DropRef(s, h), t, if v.ref == 1 then Deleting(h, ThenPublish(h)) else Initialising(h))
    case Initialising(_) => SetAct(SetService(s, h, v.(init := true)), t, Publishing(h))
    case Publishing(_) => SetAct(PushGlobal(s, h), t, Idle)
  }

  // A thread that was idle begins something.
  function Begin(s: State, e: Event): State {
    match e
    case Create(t, h) =>
      if h in s.sv then s
      else SetAct(SetService(s, h, Service(2, true, false, [], true, false, false, [], [], [])), t, Launching(h))
    case Send(t, h, m) =>
      if h in s.sv && s.sv[h].registered
      then SetAct(SetService(s, h, s.sv[h].(ref := s.sv[h].ref + 1)), t, Pushing(h, m))
      else s
    case Grab(t, h) =>
      if h in s.sv && s.sv[h].registered
      then SetAct(SetService(s, h, s.sv[h].(ref := s.sv[h].ref + 1)), t, Releasing(h, ThenStop))
      else s
    case Retire(t, h) => if h in s.sv then SetAct(s, t, Retiring(h, ThenStop)) else s
    case PopGlobal(t) =>
      if s.global == [] then s else SetAct(s.(global := s.global[1..]), t, Holding(s.global[0]))
    case Go(_, _, _) => s
  }

  function Next(s: State, e: Event): State {
    if e.Go? then Advance(s, e.t, e.weight, e.ok)
    else if ActOf(s, e.t).Idle? then Begin(s, e)
    else s
  }

  const START: State := State(map[], [], map[])

  function Run(es: seq<Event>): State {
    if es == [] then START else Next(Run(es[..|es| - 1]), es[|es| - 1])
  }

  // ------------------------------------------------------------ who has what

  predicate OwnsThen(n: Then, h: Handle) { !n.ThenStop? && n.q == h }

  // The thread alone may take messages from the queue.
  predicate Owns(a: Act, h: Handle) {
    match a
    case Idle => false
    case Pushing(_, _) => false
    case Releasing(_, n) => OwnsThen(n, h)
    case Deleting(_, n) => OwnsThen(n, h)
    case Retiring(_, n) => OwnsThen(n, h)
    case Requeuing(q, nq) => h == q || h == nq
    case _ => a.h == h
  }

  // The thread has a counted reference to the context.
  predicate HasRef(a: Act, h: Handle) {
    && (a.Pushing? || a.Releasing? || a.Looping? || a.Popped? || a.Running? || a.Ending? || a.Requeuing? ||
        a.Launching? || a.Launched?)
    && a.h == h
  }

  // The thread runs the service, or is about to.
  predicate Serves(a: Act, h: Handle) { (a.Looping? || a.Popped? || a.Running? || a.Ending? || a.Requeuing?) && a.h == h }

  predicate IsDeleting(a: Act, h: Handle) { a.Deleting? && a.h == h }

  // The thread launches the service and has not yet published it or given up.
  predicate Young(a: Act, h: Handle) {
    || ((a.Launching? || a.Launched? || a.Initialising?) && a.h == h)
    || ((a.Releasing? || a.Deleting?) && a.next == ThenRetire(h))
    || (a.Retiring? && a.next == ThenRelease(h) && a.h == h)
  }

  function Refs(s: State, h: Handle): set<Thread> { set t | t in s.acts && HasRef(s.acts[t], h) }

  ghost predicate Owned(s: State, h: Handle) { exists t :: t in s.acts && Owns(s.acts[t], h) }

  ghost predicate Dying(s: State, h: Handle) { exists t :: t in s.acts && IsDeleting(s.acts[t], h) }

  // ------------------------------------------------------------ the invariant

  ghost predicate NoDuplicates(g: seq<Handle>) { forall j, k :: 0 <= j < k < |g| ==> g[j] != g[k] }

  // Ownership: a queue is listed once, or held by one thread, or neither.
  ghost predicate Exclusive(s: State) {
    && NoDuplicates(s.global)
    && (forall h :: h in s.global ==> h in s.sv && !s.sv[h].freed)
    && (forall t, h {:trigger Owns(s.acts[t], h)} :: t in s.acts && Owns(s.acts[t], h) ==> h in s.sv && !s.sv[h].freed && h !in s.global)
    && (forall t, t', h {:trigger Owns(s.acts[t], h), Owns(s.acts[t'], h)} ::
          t in s.acts && t' in s.acts && Owns(s.acts[t], h) && Owns(s.acts[t'], h) ==> t == t')
    && (forall t {:trigger s.acts[t]} :: t in s.acts && s.acts[t].Requeuing? ==> s.acts[t].h != s.acts[t].nq)
  }

  // References: the count is what the table and the threads have; the thread
  // that takes it to zero, and no other, deletes the context.
  ghost predicate Counted(s: State) {
    && (forall t, h {:trigger HasRef(s.acts[t], h)} :: t in s.acts && HasRef(s.acts[t], h) ==> h in s.sv)
    && (forall t, h {:trigger IsDeleting(s.acts[t], h)} :: t in s.acts && IsDeleting(s.acts[t], h) ==>
          h in s.sv && s.sv[h].ref == 0 && !s.sv[h].release)
    && (forall t, t', h {:trigger IsDeleting(s.acts[t], h), IsDeleting(s.acts[t'], h)} ::
          t in s.acts && t' in s.acts && IsDeleting(s.acts[t], h) && IsDeleting(s.acts[t'], h) ==> t == t')
    && (forall h {:trigger s.sv[h]} :: h in s.sv ==>
          && s.sv[h].ref == |Refs(s, h)| + (if s.sv[h].registered then 1 else 0)
          && (s.sv[h].ref == 0 && !s.sv[h].release ==> Dying(s, h))
          && (s.sv[h].release ==> s.sv[h].ref == 0))
  }

  // The flags tell where the queue is, and nothing is lost or reordered.
  ghost predicate Flagged(s: State) {
    forall h {:trigger s.sv[h]} :: h in s.sv ==> var v := s.sv[h];
      && (!v.freed ==> (Where(s, h) <==> (v.inGlobal || v.release)))
      && FlagsOk(v)
  }

  predicate FlagsOk(v: Service) {
    && (!v.inGlobal ==> v.msgs == [])
    && (v.freed ==> v.release && v.msgs == [])
    && v.pushed == v.handed + v.dropped + v.msgs
    && (v.dropped != [] ==> v.release)
  }

  // The queue is listed or held.
  ghost predicate Where(s: State, h: Handle) { h in s.global || Owned(s, h) }

  // Where a thread is fits what the service is.
  ghost predicate Placed(s: State) {
    && (forall t, h {:trigger Owns(s.acts[t], h)} :: t in s.acts && Owns(s.acts[t], h) && !Young(s.acts[t], h) ==>
          h in s.sv && (s.sv[h].registered ==> s.sv[h].init))
    && (forall t, h {:trigger Serves(s.acts[t], h)} :: t in s.acts && Serves(s.acts[t], h) ==> h in s.sv && s.sv[h].init)
    && (forall t {:trigger s.acts[t]} :: t in s.acts && s.acts[t].Dropping? ==> s.acts[t].h in s.sv && s.sv[s.acts[t].h].release)
    && (forall t {:trigger s.acts[t]} :: t in s.acts && !s.acts[t].Idle? ==> s.acts[t].h in s.sv)
    && (forall h {:trigger s.sv[h]} :: h in s.sv && s.sv[h].registered && (h in s.global || !s.sv[h].inGlobal) ==> s.sv[h].init)
  }

  ghost predicate Inv(s: State) { Exclusive(s) && Counted(s) && Flagged(s) && Placed(s) }

  // ------------------------------------------------------------ preservation

  lemma IdleHas(h: Handle)
    ensures !HasRef(Idle, h) && !Owns(Idle, h) && !IsDeleting(Idle, h) && !Serves(Idle, h)
  {
  }

  lemma ActRefs(s: State, t: Thread, a: Act, h: Handle)
    ensures |Refs(SetAct(s, t, a), h)| + (if HasRef(ActOf(s, t), h) then 1 else 0)
            == |Refs(s, h)| + (if HasRef(a, h) then 1 else 0)
  {
    IdleHas(h);
    RefsAre(s, t, a, h);
    assert t in Refs(s, h) <==> HasRef(ActOf(s, t), h);
    hide HasRef, Refs;
    var r := Refs(s, h);
    assert |r + {t}| == |r| + if t in r then 0 else 1 by { if t in r { assert r + {t} == r; } }
    assert |r - {t}| == |r| - if t in r then 1 else 0;
  }

  lemma RefsAre(s: State, t: Thread, a: Act, h: Handle)
    ensures Refs(SetAct(s, t, a), h) == if HasRef(a, h) then Refs(s, h) + {t} else Refs(s, h) - {t}
  {
    hide HasRef;
  }

  lemma HasRefPositive(s: State, t: Thread, h: Handle)
    requires Counted(s) && HasRef(ActOf(s, t), h)
    ensures h in s.sv && s.sv[h].ref > One(s.sv[h].registered) && !s.sv[h].release
  {
    assert t in Refs(s, h);
  }

  // Thread 't' goes to 'a', and only the service 'h' changes.
  ghost predicate Local(s: State, s': State, t: Thread, a: Act, h: Handle) {
    && s'.acts == s.acts[t := a]
    && h in s.sv && h in s'.sv && s'.sv == s.sv[h := s'.sv[h]]
  }

  lemma OwnedStep(s: State, s': State, t: Thread, a: Act, h: Handle)
    requires Exclusive(s) && s'.acts == s.acts[t := a]
    ensures Owned(s', h) <==> Owns(a, h) || (Owned(s, h) && !Owns(ActOf(s, t), h))
  {
    if Owns(a, h) {
      assert t in s'.acts && Owns(s'.acts[t], h);
    }
    if Owned(s, h) {
      var t' :| t' in s.acts && Owns(s.acts[t'], h);
      if t' != t {
        assert t' in s'.acts && Owns(s'.acts[t'], h);
      }
    }
    if Owned(s', h) {
      var t' :| t' in s'.acts && Owns(s'.acts[t'], h);
      if t' != t {
        assert t' in s.acts && Owns(s.acts[t'], h);
      }
    }
  }

  // The list stays; the thread gains nothing.
  lemma ExclusiveKeep(s: State, s': State, t: Thread, a: Act, h: Handle)
    requires Exclusive(s) && Local(s, s', t, a, h) && s'.global == s.global
    requires forall x :: Owns(a, x) ==> Owns(ActOf(s, t), x)
    requires a.Requeuing? ==> a.h != a.nq
    requires s'.sv[h].freed ==> s.sv[h].freed || (Owns(ActOf(s, t), h) && !Owns(a, h))
    ensures Exclusive(s')
  {
    assert Owns(ActOf(s, t), h) ==> t in s.acts && Owns(s.acts[t], h);
  }

  // The queue 'h', which was the thread's or nobody's, is listed.
  lemma ExclusiveList(s: State, s': State, t: Thread, a: Act, h: Handle)
    requires Exclusive(s) && Local(s, s', t, a, h) && s'.global == s.global + [h]
    requires forall x :: Owns(a, x) ==> Owns(ActOf(s, t), x) && x != h
    requires Owns(ActOf(s, t), h) || !Where(s, h)
    requires !a.Requeuing? && !s'.sv[h].freed
    ensures Exclusive(s')
  {
    assert Owns(ActOf(s, t), h) ==> t in s.acts && Owns(s.acts[t], h);
  }

  // The thread takes the first listed queue.
  lemma ExclusiveTake(s: State, s': State, t: Thread, a: Act, h: Handle)
    requires Exclusive(s) && Local(s, s', t, a, h) && s'.sv == s.sv && s.global != [] && s'.global == s.global[1..]
    requires forall x :: Owns(a, x) ==> Owns(ActOf(s, t), x) || x == s.global[0]
    requires a.Requeuing? ==> a.h != a.nq
    ensures Exclusive(s')
  {
    var g := s.global;
    assert g[0] in g && forall x :: x in g[1..] ==> x in g && x != g[0];
  }

  // A new service, owned by the thread.
  lemma ExclusiveNew(s: State, s': State, t: Thread, a: Act, h: Handle)
    requires Exclusive(s) && h !in s.sv && s'.acts == s.acts[t := a] && s'.global == s.global
    requires h in s'.sv && s'.sv == s.sv[h := s'.sv[h]] && !s'.sv[h].freed
    requires forall x :: Owns(a, x) ==> x == h
    requires !a.Requeuing?
    ensures Exclusive(s')
  {
  }

  function One(b: bool): nat { if b then 1 else 0 }

  lemma SameRefs(s: State, s': State, h: Handle)
    requires s.acts == s'.acts
    ensures Refs(s, h) == Refs(s', h)
  {
    hide HasRef;
  }

  // What a step may do to the references of 'h'.
  ghost predicate CountsOk(a0: Act, a: Act, h: Handle, v: Service, v': Service) {
    && v'.ref + One(HasRef(a0, h)) + One(v.registered) == v.ref + One(HasRef(a, h)) + One(v'.registered)
    && (IsDeleting(a, h) ==> v'.ref == 0 && !v'.release && (IsDeleting(a0, h) || v.ref > 0))
    && (v'.ref == 0 && !v'.release ==> IsDeleting(a, h) || (v.ref == 0 && !v.release && !IsDeleting(a0, h)))
    && (v.ref == 0 && !v.release && !IsDeleting(a0, h) ==> v'.ref == 0 && !v'.release)
    && (v'.release ==> v'.ref == 0)
    && (forall x :: x != h ==> HasRef(a, x) == HasRef(a0, x) && IsDeleting(a, x) == IsDeleting(a0, x))
  }

  lemma RefsStep(s: State, s': State, t: Thread, a: Act, h: Handle, x: Handle)
    requires Counted(s) && Local(s, s', t, a, h) && CountsOk(ActOf(s, t), a, h, s.sv[h], s'.sv[h]) && x in s'.sv
    ensures s'.sv[x].ref == |Refs(s', x)| + One(s'.sv[x].registered)
  {
    hide HasRef, IsDeleting, Refs;
    ActRefs(s, t, a, x);
    SameRefs(s', SetAct(s, t, a), x);
    if x != h {
      assert s'.sv[x] == s.sv[x];
    }
  }

  lemma DyingStep(s: State, s': State, t: Thread, a: Act, h: Handle, x: Handle)
    requires Counted(s) && Local(s, s', t, a, h) && CountsOk(ActOf(s, t), a, h, s.sv[h], s'.sv[h]) && x in s'.sv
    requires s'.sv[x].ref == 0 && !s'.sv[x].release
    ensures Dying(s', x)
  {
    hide HasRef, IsDeleting, Refs;
    if IsDeleting(a, x) {
      assert IsDeleting(s'.acts[t], x);
    } else {
      assert Dying(s, x);
      var t' :| t' in s.acts && IsDeleting(s.acts[t'], x);
      assert IsDeleting(s'.acts[t'], x);
    }
  }

  lemma DeletingStep(s: State, s': State, t: Thread, a: Act, h: Handle)
    requires Counted(s) && Local(s, s', t, a, h) && CountsOk(ActOf(s, t), a, h, s.sv[h], s'.sv[h])
    ensures forall u, x {:trigger IsDeleting(s'.acts[u], x)} :: u in s'.acts && IsDeleting(s'.acts[u], x) ==>
      x in s'.sv && s'.sv[x].ref == 0 && !s'.sv[x].release
    ensures forall u, u', x {:trigger IsDeleting(s'.acts[u], x), IsDeleting(s'.acts[u'], x)} ::
      u in s'.acts && u' in s'.acts && IsDeleting(s'.acts[u], x) && IsDeleting(s'.acts[u'], x) ==> u == u'
  {
    forall x ensures !IsDeleting(Idle, x) { IdleHas(x); }
    hide HasRef, IsDeleting, Refs;
  }

  lemma CountedStep(s: State, s': State, t: Thread, a: Act, h: Handle)
    requires Counted(s) && Local(s, s', t, a, h) && CountsOk(ActOf(s, t), a, h, s.sv[h], s'.sv[h])
    ensures Counted(s')
  {
    DeletingStep(s, s', t, a, h);
    forall x | x in s'.sv
      ensures s'.sv[x].ref == |Refs(s', x)| + One(s'.sv[x].registered)
      ensures s'.sv[x].ref == 0 && !s'.sv[x].release ==> Dying(s', x)
    {
      RefsStep(s, s', t, a, h, x);
      if s'.sv[x].ref == 0 && !s'.sv[x].release {
        DyingStep(s, s', t, a, h, x);
      }
    }
    forall x ensures !HasRef(Idle, x) { IdleHas(x); }
    hide HasRef, IsDeleting, Refs, Dying;
  }

  // What the invariant says about one thread and one service.
  lemma Facts(s: State, t: Thread, x: Handle)
    requires Inv(s)
    ensures !ActOf(s, t).Idle? ==> ActOf(s, t).h in s.sv
    ensures HasRef(ActOf(s, t), x) ==> x in s.sv && s.sv[x].ref > One(s.sv[x].registered) && !s.sv[x].release
    ensures IsDeleting(ActOf(s, t), x) ==> x in s.sv && s.sv[x].ref == 0 && !s.sv[x].release
    ensures Owns(ActOf(s, t), x) ==> Owned(s, x) && x in s.sv && !s.sv[x].freed && x !in s.global
    ensures Owns(ActOf(s, t), x) && !Young(ActOf(s, t), x) ==> x in s.sv && (s.sv[x].registered ==> s.sv[x].init)
    ensures Serves(ActOf(s, t), x) ==> x in s.sv && s.sv[x].init
    ensures ActOf(s, t).Dropping? && ActOf(s, t).h == x ==> x in s.sv && s.sv[x].release
    ensures ActOf(s, t).Requeuing? ==> ActOf(s, t).h != ActOf(s, t).nq
  {
    if HasRef(ActOf(s, t), x) {
      HasRefPositive(s, t, x);
    }
  }

  lemma ServiceFacts(s: State, x: Handle)
    requires Inv(s) && x in s.sv
    ensures var v := s.sv[x];
      && (v.registered ==> v.ref > 0) && (v.release ==> v.ref == 0)
      && (!v.freed ==> (Where(s, x) <==> (v.inGlobal || v.release)))
      && FlagsOk(v)
      && (v.registered && (x in s.global || !v.inGlobal) ==> v.init)
    ensures x in s.global ==> !s.sv[x].freed
  {
  }

  lemma FlaggedStep(s: State, s': State, t: Thread, a: Act, h: Handle)
    requires Exclusive(s) && Flagged(s) && Local(s, s', t, a, h)
    requires forall x :: x in s.sv && x != h ==>
      (x in s'.global || Owns(a, x) || (Owned(s, x) && !Owns(ActOf(s, t), x)) <==> Where(s, x))
    requires !s'.sv[h].freed ==>
      (h in s'.global || Owns(a, h) || (Owned(s, h) && !Owns(ActOf(s, t), h)) <==> (s'.sv[h].inGlobal || s'.sv[h].release))
    requires FlagsOk(s'.sv[h])
    ensures Flagged(s')
  {
    forall x | x in s'.sv
      ensures !s'.sv[x].freed ==> (Where(s', x) <==> (s'.sv[x].inGlobal || s'.sv[x].release))
    {
      OwnedStep(s, s', t, a, x);
    }
  }

  // What a step may do to the place of thread 't' and of the service 'h'.
  ghost predicate PlaceOk(s: State, s': State, t: Thread, a: Act, h: Handle)
    requires Local(s, s', t, a, h)
  {
    && (s.sv[h].init ==> s'.sv[h].init)
    && (s'.sv[h].registered ==> s.sv[h].registered)
    && (s.sv[h].release ==> s'.sv[h].release)
    && (forall x :: Owns(a, x) && !Young(a, x) ==> x in s'.sv && (s'.sv[x].registered ==> s'.sv[x].init))
    && (forall x :: Serves(a, x) ==> x in s'.sv && s'.sv[x].init)
    && (a.Dropping? ==> a.h in s'.sv && s'.sv[a.h].release)
    && (!a.Idle? ==> a.h in s'.sv)
    && (forall x :: x in s'.global ==> x in s.global || (x == h && (s'.sv[h].registered ==> s'.sv[h].init)))
    && (s'.sv[h].registered && !s'.sv[h].inGlobal ==> s'.sv[h].init)
  }

  lemma PlacedStep(s: State, s': State, t: Thread, a: Act, h: Handle)
    requires Placed(s) && Local(s, s', t, a, h) && PlaceOk(s, s', t, a, h)
    ensures Placed(s')
  {
    hide Owns, Young, Serves;
    forall x ensures !Owns(Idle, x) && !Serves(Idle, x) { IdleHas(x); }
  }

  // ------------------------------------------------------------ step by step

  lemma StartInv()
    ensures Inv(START)
  {
  }

  lemma CreateCounted(s: State, t: Thread, h: Handle)
    requires Inv(s) && ActOf(s, t).Idle? && h !in s.sv
    ensures Counted(Begin(s, Create(t, h)))
  {
    var s', a := Begin(s, Create(t, h)), Launching(h);
    forall x | x in s'.sv ensures s'.sv[x].ref == |Refs(s', x)| + One(s'.sv[x].registered) {
      ActRefs(s, t, a, x);
      SameRefs(s', SetAct(s, t, a), x);
      if x == h {
        assert Refs(s, h) == {};
      }
    }
    forall x | x in s'.sv && s'.sv[x].ref == 0 && !s'.sv[x].release ensures Dying(s', x) {
      var t' :| t' in s.acts && IsDeleting(s.acts[t'], x);
      assert IsDeleting(s'.acts[t'], x);
    }
  }

  lemma CreateFlagged(s: State, t: Thread, h: Handle)
    requires Inv(s) && ActOf(s, t).Idle? && h !in s.sv
    ensures Flagged(Begin(s, Create(t, h)))
  {
    var s', a := Begin(s, Create(t, h)), Launching(h);
    assert Owns(s'.acts[t], h);
    forall x | x in s.sv ensures Owned(s', x) <==> Owned(s, x) {
      OwnedStep(s, s', t, a, x);
    }
  }

  lemma CreateInv(s: State, t: Thread, h: Handle)
    requires Inv(s) && ActOf(s, t).Idle? && h !in s.sv
    ensures Inv(Begin(s, Create(t, h)))
  {
    CreateCounted(s, t, h);
    CreateFlagged(s, t, h);
    CreatePlaced(s, t, h);
    hide Counted, Flagged, Placed, Owns;
    ExclusiveNew(s, Begin(s, Create(t, h)), t, Launching(h), h) by { LaunchOwns(h); }
  }

  lemma LaunchOwns(h: Handle)
    ensures forall x :: Owns(Launching(h), x) ==> x == h
  {
  }

  lemma CreatePlaced(s: State, t: Thread, h: Handle)
    requires Inv(s) && ActOf(s, t).Idle? && h !in s.sv
    ensures Placed(Begin(s, Create(t, h)))
  {
    hide Counted, Flagged;
  }

  lemma TakeRest(g: seq<Handle>)
    requires g != [] && NoDuplicates(g)
    ensures forall x :: x in g <==> x == g[0] || x in g[1..]
    ensures g[0] !in g[1..]
  {
  }

  // The four parts, for a step in which the list stays.
  lemma KeepInv(s: State, s': State, t: Thread, a: Act, h: Handle)
    requires Inv(s) && Local(s, s', t, a, h) && s'.global == s.global
    requires forall x :: Owns(a, x) ==> Owns(ActOf(s, t), x)
    requires a.Requeuing? ==> a.h != a.nq
    requires s'.sv[h].freed ==> s.sv[h].freed || (Owns(ActOf(s, t), h) && !Owns(a, h))
    requires forall x :: x in s.sv && x != h ==> (Owns(a, x) <==> Owns(ActOf(s, t), x))
    requires CountsOk(ActOf(s, t), a, h, s.sv[h], s'.sv[h])
    requires FlagsOk(s'.sv[h])
    requires !s'.sv[h].freed ==>
      (h in s.global || Owns(a, h) || (Owned(s, h) && !Owns(ActOf(s, t), h)) <==> (s'.sv[h].inGlobal || s'.sv[h].release))
    requires PlaceOk(s, s', t, a, h)
    ensures Inv(s')
  {
    hide Exclusive, Counted, Flagged, Placed, Owned, CountsOk, Owns;
    forall x ensures Owns(ActOf(s, t), x) ==> Owned(s, x) { Facts(s, t, x); }
    ExclusiveKeep(s, s', t, a, h);
    CountedStep(s, s', t, a, h);
    FlaggedStep(s, s', t, a, h);
    PlacedStep(s, s', t, a, h);
  }


  // The four parts, for a step that lists 'h'.
  lemma ListInv(s: State, s': State, t: Thread, a: Act, h: Handle)
    requires Inv(s) && Local(s, s', t, a, h) && s'.global == s.global + [h]
    requires forall x :: Owns(a, x) ==> Owns(ActOf(s, t), x) && x != h
    requires Owns(ActOf(s, t), h) || !Where(s, h)
    requires !a.Requeuing? && !s'.sv[h].freed
    requires forall x :: x in s.sv && x != h ==> (Owns(a, x) <==> Owns(ActOf(s, t), x))
    requires CountsOk(ActOf(s, t), a, h, s.sv[h], s'.sv[h])
    requires FlagsOk(s'.sv[h]) && (s'.sv[h].inGlobal || s'.sv[h].release)
    requires PlaceOk(s, s', t, a, h)
    ensures Inv(s')
  {
    hide Exclusive, Counted, Flagged, Placed, Owned, CountsOk, Owns;
    forall x ensures Owns(ActOf(s, t), x) ==> Owned(s, x) { Facts(s, t, x); }
    ExclusiveList(s, s', t, a, h);
    CountedStep(s, s', t, a, h);
    FlaggedStep(s, s', t, a, h);
    PlacedStep(s, s', t, a, h);
  }

  // The four parts, for a step that takes the first listed queue.
  lemma TakeInv(s: State, s': State, t: Thread, a: Act, h: Handle)
    requires Inv(s) && Local(s, s', t, a, h) && s'.sv == s.sv && s.global != [] && s'.global == s.global[1..]
    requires forall x :: Owns(a, x) <==> Owns(ActOf(s, t), x) || x == s.global[0]
    requires a.Requeuing? ==> a.h != a.nq
    requires CountsOk(ActOf(s, t), a, h, s.sv[h], s'.sv[h])
    requires PlaceOk(s, s', t, a, h)
    ensures Inv(s')
  {
    ServiceFacts(s, h);
    Listed(s);
    hide Exclusive, Counted, Flagged, Placed, Owned, CountsOk, Owns;
    forall x ensures Owns(ActOf(s, t), x) ==> Owned(s, x) { Facts(s, t, x); }
    ExclusiveTake(s, s', t, a, h);
    CountedStep(s, s', t, a, h);
    FlaggedStep(s, s', t, a, h);
    PlacedStep(s, s', t, a, h);
  }

  lemma Listed(s: State)
    requires Inv(s) && s.global != []
    ensures s.global[0] in s.sv && !s.sv[s.global[0]].freed && !Owned(s, s.global[0])
    ensures forall x :: x in s.global <==> x == s.global[0] || x in s.global[1..]
    ensures s.global[0] !in s.global[1..]
  {
    assert s.global[0] in s.global;
    TakeRest(s.global);
  }

  lemma SendInv(s: State, t: Thread, h: Handle, m: Message)
    requires Inv(s) && ActOf(s, t).Idle?
    ensures Inv(Begin(s, Send(t, h, m)))
  {
    hide Exclusive, Counted, Flagged, Placed, Owned;
    if h in s.sv && s.sv[h].registered {
      ServiceFacts(s, h);
      KeepInv(s, Begin(s, Send(t, h, m)), t, Pushing(h, m), h);
    }
  }

  lemma GrabInv(s: State, t: Thread, h: Handle)
    requires Inv(s) && ActOf(s, t).Idle?
    ensures Inv(Begin(s, Grab(t, h)))
  {
    hide Exclusive, Counted, Flagged, Placed, Owned;
    if h in s.sv && s.sv[h].registered {
      ServiceFacts(s, h);
      KeepInv(s, Begin(s, Grab(t, h)), t, Releasing(h, ThenStop), h);
    }
  }

  lemma RetireInv(s: State, t: Thread, h: Handle)
    requires Inv(s) && ActOf(s, t).Idle?
    ensures Inv(Begin(s, Retire(t, h)))
  {
    hide Exclusive, Counted, Flagged, Placed, Owned;
    if h in s.sv {
      ServiceFacts(s, h);
      KeepInv(s, Begin(s, Retire(t, h)), t, Retiring(h, ThenStop), h);
    }
  }

  lemma PopInv(s: State, t: Thread)
    requires Inv(s) && ActOf(s, t).Idle?
    ensures Inv(Begin(s, PopGlobal(t)))
  {
    hide Exclusive, Counted, Flagged, Placed, Owned;
    if s.global != [] {
      var h := s.global[0];
      Listed(s);
      ServiceFacts(s, h);
      TakeInv(s, Begin(s, PopGlobal(t)), t, Holding(h), h);
    }
  }

  lemma PushingInv(s: State, t: Thread, w: int, ok: bool)
    requires Inv(s) && ActOf(s, t).Pushing?
    ensures Inv(Advance(s, t, w, ok))
  {
    hide Exclusive, Counted, Flagged, Placed, Owned;
    var Pushing(h, m) := ActOf(s, t);
    Facts(s, t, h);
    ServiceFacts(s, h);
    var s' := Advance(s, t, w, ok);
    if s.sv[h].inGlobal {
      KeepInv(s, s', t, Releasing(h, ThenStop), h);
    } else {
      ListInv(s, s', t, Releasing(h, ThenStop), h);
    }
  }

  lemma ReleasingInv(s: State, t: Thread, w: int, ok: bool)
    requires Inv(s) && ActOf(s, t).Releasing?
    ensures Inv(Advance(s, t, w, ok))
  {
    hide Exclusive, Counted, Flagged, Placed, Owned;
    var Releasing(h, next) := ActOf(s, t);
    Facts(s, t, h);
    ServiceFacts(s, h);
    if !next.ThenStop? {
      Facts(s, t, next.q);
    }
    KeepInv(s, Advance(s, t, w, ok), t, Released(s, h, next), h);
  }

  lemma DeletingInv(s: State, t: Thread, w: int, ok: bool)
    requires Inv(s) && ActOf(s, t).Deleting?
    ensures Inv(Advance(s, t, w, ok))
  {
    hide Exclusive, Counted, Flagged, Placed, Owned;
    var Deleting(h, next) := ActOf(s, t);
    Facts(s, t, h);
    ServiceFacts(s, h);
    if !next.ThenStop? {
      Facts(s, t, next.q);
    }
    var s' := Advance(s, t, w, ok);
    if s.sv[h].inGlobal {
      KeepInv(s, s', t, Resume(next), h);
    } else {
      ListInv(s, s', t, Resume(next), h);
    }
  }

  lemma RetiringInv(s: State, t: Thread, w: int, ok: bool)
    requires Inv(s) && ActOf(s, t).Retiring?
    ensures Inv(Advance(s, t, w, ok))
  {
    hide Exclusive, Counted, Flagged, Placed, Owned;
    var Retiring(h, next) := ActOf(s, t);
    Facts(s, t, h);
    ServiceFacts(s, h);
    if !next.ThenStop? {
      Facts(s, t, next.q);
    }
    KeepInv(s, Advance(s, t, w, ok), t, if s.sv[h].registered then Releasing(h, next) else Resume(next), h);
  }


  lemma HoldingInv(s: State, t: Thread, w: int, ok: bool)
    requires Inv(s) && ActOf(s, t).Holding?
    ensures Inv(Advance(s, t, w, ok))
  {
    hide Exclusive, Counted, Flagged, Placed, Owned;
    var Holding(h) := ActOf(s, t);
    Facts(s, t, h);
    ServiceFacts(s, h);
    KeepInv(s, Advance(s, t, w, ok), t, if s.sv[h].registered then Looping(h, 0, 1) else Dismissing(h), h);
  }

  lemma LoopingInv(s: State, t: Thread, w: int, ok: bool)
    requires Inv(s) && ActOf(s, t).Looping?
    ensures Inv(Advance(s, t, w, ok))
  {
    hide Exclusive, Counted, Flagged, Placed, Owned;
    var Looping(h, i, n) := ActOf(s, t);
    Facts(s, t, h);
    ServiceFacts(s, h);
    var s' := Advance(s, t, w, ok);
    if i >= n {
      KeepInv(s, s', t, Ending(h), h);
    } else if s.sv[h].msgs == [] {
      KeepInv(s, s', t, Releasing(h, ThenStop), h);
    } else {
      HandOut(s.sv[h].handed, s.sv[h].msgs);
      KeepInv(s, s', t, Popped(h, s.sv[h].msgs[0], i, n), h);
    }
  }

  lemma HandOut(handed: seq<Message>, msgs: seq<Message>)
    requires msgs != []
    ensures handed + [msgs[0]] + msgs[1..] == handed + msgs
  {
  }

  lemma PoppedInv(s: State, t: Thread, w: int, ok: bool)
    requires Inv(s) && ActOf(s, t).Popped?
    ensures Inv(Advance(s, t, w, ok))
  {
    hide Exclusive, Counted, Flagged, Placed, Owned;
    var Popped(h, m, i, n) := ActOf(s, t);
    Facts(s, t, h);
    ServiceFacts(s, h);
    var n' := if i == 0 && w >= 0 then Shifted(|s.sv[h].msgs|, w) else n;
    KeepInv(s, Advance(s, t, w, ok), t, Running(h, m, i, n'), h);
  }

  lemma RunningInv(s: State, t: Thread, w: int, ok: bool)
    requires Inv(s) && ActOf(s, t).Running?
    ensures Inv(Advance(s, t, w, ok))
  {
    hide Exclusive, Counted, Flagged, Placed, Owned;
    var Running(h, m, i, n) := ActOf(s, t);
    Facts(s, t, h);
    ServiceFacts(s, h);
    KeepInv(s, Advance(s, t, w, ok), t, Looping(h, i + 1, n), h);
  }

  lemma EndingInv(s: State, t: Thread, w: int, ok: bool)
    requires Inv(s) && ActOf(s, t).Ending?
    ensures Inv(Advance(s, t, w, ok))
  {
    hide Exclusive, Counted, Flagged, Placed, Owned;
    var Ending(h) := ActOf(s, t);
    Facts(s, t, h);
    ServiceFacts(s, h);
    var s' := Advance(s, t, w, ok);
    if s.global == [] {
      KeepInv(s, s', t, Releasing(h, ThenHold(h)), h);
    } else {
      Listed(s);
      ServiceFacts(s, s.global[0]);
      TakeInv(s, s', t, Requeuing(h, s.global[0]), h);
    }
  }

  lemma RequeuingInv(s: State, t: Thread, w: int, ok: bool)
    requires Inv(s) && ActOf(s, t).Requeuing?
    ensures Inv(Advance(s, t, w, ok))
  {
    hide Exclusive, Counted, Flagged, Placed, Owned;
    var Requeuing(h, nq) := ActOf(s, t);
    Facts(s, t, nq);
    Facts(s, t, h);
    ServiceFacts(s, h);
    ListInv(s, Advance(s, t, w, ok), t, Releasing(h, ThenHold(nq)), h);
  }

  lemma DismissingInv(s: State, t: Thread, w: int, ok: bool)
    requires Inv(s) && ActOf(s, t).Dismissing?
    ensures Inv(Advance(s, t, w, ok))
  {
    hide Exclusive, Counted, Flagged, Placed, Owned;
    var Dismissing(h) := ActOf(s, t);
    Facts(s, t, h);
    ServiceFacts(s, h);
    var s' := Advance(s, t, w, ok);
    if s.sv[h].release {
      KeepInv(s, s', t, Dropping(h), h);
    } else {
      ListInv(s, s', t, Idle, h);
    }
  }

  lemma DroppingInv(s: State, t: Thread, w: int, ok: bool)
    requires Inv(s) && ActOf(s, t).Dropping?
    ensures Inv(Advance(s, t, w, ok))
  {
    hide Exclusive, Counted, Flagged, Placed, Owned;
    var Dropping(h) := ActOf(s, t);
    Facts(s, t, h);
    ServiceFacts(s, h);
    var s' := Advance(s, t, w, ok);
    if s.sv[h].msgs == [] {
      KeepInv(s, s', t, Idle, h);
    } else {
      HandOut(s.sv[h].handed + s.sv[h].dropped, s.sv[h].msgs);
      assert s.sv[h].handed + (s.sv[h].dropped + [s.sv[h].msgs[0]]) == s.sv[h].handed + s.sv[h].dropped + [s.sv[h].msgs[0]];
      KeepInv(s, s', t, Dropping(h), h);
    }
  }

  lemma LaunchingInv(s: State, t: Thread, w: int, ok: bool)
    requires Inv(s) && ActOf(s, t).Launching?
    ensures Inv(Advance(s, t, w, ok))
  {
    hide Exclusive, Counted, Flagged, Placed, Owned;
    var Launching(h) := ActOf(s, t);
    Facts(s, t, h);
    ServiceFacts(s, h);
    KeepInv(s, Advance(s, t, w, ok), t, if ok then Launched(h) else Releasing(h, ThenRetire(h)), h);
  }

  lemma LaunchedInv(s: State, t: Thread, w: int, ok: bool)
    requires Inv(s) && ActOf(s, t).Launched?
    ensures Inv(Advance(s, t, w, ok))
  {
    hide Exclusive, Counted, Flagged, Placed, Owned;
    var Launched(h) := ActOf(s, t);
    Facts(s, t, h);
    ServiceFacts(s, h);
    KeepInv(s, Advance(s, t, w, ok), t, if s.sv[h].ref == 1 then Deleting(h, ThenPublish(h)) else Initialising(h), h);
  }

  lemma InitialisingInv(s: State, t: Thread, w: int, ok: bool)
    requires Inv(s) && ActOf(s, t).Initialising?
    ensures Inv(Advance(s, t, w, ok))
  {
    hide Exclusive, Counted, Flagged, Placed, Owned;
    var Initialising(h) := ActOf(s, t);
    Facts(s, t, h);
    ServiceFacts(s, h);
    KeepInv(s, Advance(s, t, w, ok), t, Publishing(h), h);
  }

  lemma PublishingInv(s: State, t: Thread, w: int, ok: bool)
    requires Inv(s) && ActOf(s, t).Publishing?
    ensures Inv(Advance(s, t, w, ok))
  {
    hide Exclusive, Counted, Flagged, Placed, Owned;
    var Publishing(h) := ActOf(s, t);
    Facts(s, t, h);
    ServiceFacts(s, h);
    ListInv(s, Advance(s, t, w, ok), t, Idle, h);
  }

  // Every step keeps the invariant.
  lemma NextInv(s: State, e: Event)
    requires Inv(s)
    ensures Inv(Next(s, e))
  {
    hide Inv, Advance, Begin;
    if e.Go? {
      AdvanceInv(s, e.t, e.weight, e.ok);
    } else if ActOf(s, e.t).Idle? {
      match e
      case Create(t, h) =>
        if h in s.sv {
          BeginKnown(s, t, h);
        } else {
          CreateInv(s, t, h);
        }
      case Send(t, h, m) => SendInv(s, t, h, m);
      case Grab(t, h) => GrabInv(s, t, h);
      case Retire(t, h) => RetireInv(s, t, h);
      case PopGlobal(t) => PopInv(s, t);
      case Go(_, _, _) => assert false;
    }
  }

  lemma BeginKnown(s: State, t: Thread, h: Handle)
    requires h in s.sv
    ensures Begin(s, Create(t, h)) == s
  {
  }

  lemma AdvanceInv(s: State, t: Thread, w: int, ok: bool)
    requires Inv(s)
    ensures Inv(Advance(s, t, w, ok))
  {
    AdvanceIdle(s, t, w, ok);
    hide Inv, Advance;
    match ActOf(s, t)
    case Idle =>
    case Pushing(_, _) => PushingInv(s, t, w, ok);
    case Releasing(_, _) => ReleasingInv(s, t, w, ok);
    case Deleting(_, _) => DeletingInv(s, t, w, ok);
    case Retiring(_, _) => RetiringInv(s, t, w, ok);
    case Holding(_) => HoldingInv(s, t, w, ok);
    case Looping(_, _, _) => LoopingInv(s, t, w, ok);
    case Popped(_, _, _, _) => PoppedInv(s, t, w, ok);
    case Running(_, _, _, _) => RunningInv(s, t, w, ok);
    case Ending(_) => EndingInv(s, t, w, ok);
    case Requeuing(_, _) => RequeuingInv(s, t, w, ok);
    case Dismissing(_) => DismissingInv(s, t, w, ok);
    case Dropping(_) => DroppingInv(s, t, w, ok);
    case Launching(_) => LaunchingInv(s, t, w, ok);
    case Launched(_) => LaunchedInv(s, t, w, ok);
    case Initialising(_) => InitialisingInv(s, t, w, ok);
    case Publishing(_) => PublishingInv(s, t, w, ok);
  }

  lemma AdvanceIdle(s: State, t: Thread, w: int, ok: bool)
    ensures ActOf(s, t).Idle? ==> Advance(s, t, w, ok) == s
  {
  }

  lemma {:induction false} RunInv(es: seq<Event>)
    ensures Inv(Run(es))
    decreases |es|
  {
    hide Inv, Next;
    if es == [] {
      StartInv();
    } else {
      RunInv(es[..|es| - 1]);
      NextInv(Run(es[..|es| - 1]), es[|es| - 1]);
    }
  }

  // ------------------------------------------------------------ theorems

  ghost predicate Holds(s: State, t: Thread, h: Handle) { t in s.acts && Owns(s.acts[t], h) }

  ghost predicate RunsService(s: State, t: Thread, h: Handle) { t in s.acts && Serves(s.acts[t], h) }

  // At every moment of every run: a queue is listed at most once, held by at
  // most one thread and never both; so no service runs on two threads; and a
  // queue that holds messages and has not been freed is listed or held.
  lemma Ownership(es: seq<Event>, h: Handle)
    ensures var s := Run(es);
      && (forall j, k :: 0 <= j < |s.global| && 0 <= k < |s.global| && s.global[j] == h && s.global[k] == h ==> j == k)
      && (forall t, t' :: Holds(s, t, h) && Holds(s, t', h) ==> t == t')
      && (forall t, t' :: RunsService(s, t, h) && RunsService(s, t', h) ==> t == t')
      && (forall t :: Holds(s, t, h) ==> h !in s.global && h in s.sv && !s.sv[h].freed)
      && (h in s.sv && !s.sv[h].freed && s.sv[h].msgs != [] ==> h in s.global || exists t :: Holds(s, t, h))
  {
    RunInv(es);
    hide Run, Owns, Serves;
    OwnedOnce(Run(es), h);
    NotStranded(Run(es), h);
  }

  lemma OwnedOnce(s: State, h: Handle)
    requires Inv(s)
    ensures forall j, k :: 0 <= j < |s.global| && 0 <= k < |s.global| && s.global[j] == h && s.global[k] == h ==> j == k
    ensures forall t, t' :: Holds(s, t, h) && Holds(s, t', h) ==> t == t'
    ensures forall t, t' :: RunsService(s, t, h) && RunsService(s, t', h) ==> t == t'
    ensures forall t :: Holds(s, t, h) ==> h !in s.global && h in s.sv && !s.sv[h].freed
  {
    forall t | RunsService(s, t, h) ensures Holds(s, t, h) {
      ServesOwns(s.acts[t], h);
    }
    hide Owns, Serves, Counted, Flagged, Placed;
    assert NoDuplicates(s.global);
  }

  lemma ServesOwns(a: Act, h: Handle)
    requires Serves(a, h)
    ensures Owns(a, h)
  {
  }

  lemma NotStranded(s: State, h: Handle)
    requires Inv(s)
    ensures h in s.sv && !s.sv[h].freed && s.sv[h].msgs != [] ==> h in s.global || exists t :: Holds(s, t, h)
  {
    if h in s.sv && !s.sv[h].freed && s.sv[h].msgs != [] && h !in s.global {
      ServiceFacts(s, h);
      hide Inv, Owns;
      var t :| t in s.acts && Owns(s.acts[t], h);
      assert Holds(s, t, h);
    }
  }

  // Every message pushed is still queued, or was handed out, or was dropped:
  // in the order of the pushes, and dropped only after the release mark.  When
  // the queue is freed none is left.
  lemma Delivery(es: seq<Event>, h: Handle)
    requires h in Run(es).sv
    ensures var v := Run(es).sv[h];
      && v.pushed == v.handed + v.dropped + v.msgs
      && (v.dropped != [] ==> v.release)
      && (v.freed ==> v.release && v.pushed == v.handed + v.dropped)
      && (v.release ==> v.ref == 0 && !v.registered)
  {
    RunInv(es);
    ServiceFacts(Run(es), h);
  }

  // A service that runs has been initialised, whoever retires it meanwhile.
  lemma RunsInitialised(es: seq<Event>, t: Thread, h: Handle)
    requires RunsService(Run(es), t, h)
    ensures h in Run(es).sv && Run(es).sv[h].init
  {
    RunInv(es);
    Facts(Run(es), t, h);
  }

  // ------------------------------------------------------------ the late write

  // A launcher that is about to write 'init' has no reference left.  At every moment of
  // every run its context is deleted, or being deleted, if and only if the table no
  // longer refers to it and no thread has a reference.
  lemma DeletedIff(es: seq<Event>, t: Thread)
    requires ActOf(Run(es), t).Initialising?
    ensures var s, h := Run(es), ActOf(Run(es), t).h;
      h in s.sv &&
      (s.sv[h].release || Dying(s, h) <==> !s.sv[h].registered && forall u :: u in s.acts ==> !HasRef(s.acts[u], h))
  {
    RunInv(es);
    var s, h := Run(es), ActOf(Run(es), t).h;
    hide Run;
    Facts(s, t, h);
    var none := forall u :: u in s.acts ==> !HasRef(s.acts[u], h);
    assert none <==> Refs(s, h) == {} by {
      if Refs(s, h) == {} {
        forall u | u in s.acts ensures !HasRef(s.acts[u], h) {
          assert u !in Refs(s, h);
        }
      }
    }
    assert Refs(s, h) != {} ==> |Refs(s, h)| > 0;
    assert s.sv[h].ref == |Refs(s, h)| + One(s.sv[h].registered);
  }

  // A launch that is overtaken: another thread retires the service and has the last
  // reference.
  const OVERTAKEN: seq<Event> :=
    [Create(0, 7), Go(0, 0, true), Go(0, 0, true), Retire(1, 7), Go(1, 0, true), Go(1, 0, true), Go(1, 0, true)]

  // Its stages.
  function Overtaking(ref: nat, registered: bool, release: bool, a: map<Thread, Act>): State {
    State(map[7 := Service(ref, registered, false, [], true, release, false, [], [], [])], [], a)
  }

  lemma Launch()
    ensures Next(START, Create(0, 7)) == Overtaking(2, true, false, map[0 := Launching(7)])
    ensures Next(Overtaking(2, true, false, map[0 := Launching(7)]), Go(0, 0, true)) == Overtaking(2, true, false, map[0 := Launched(7)])
    ensures Next(Overtaking(2, true, false, map[0 := Launched(7)]), Go(0, 0, true)) == Overtaking(1, true, false, map[0 := Initialising(7)])
  {
  }

  lemma Kill(a: map<Thread, Act>)
    requires 1 !in a
    ensures Next(Overtaking(1, true, false, a), Retire(1, 7)) == Overtaking(1, true, false, a[1 := Retiring(7, ThenStop)])
    ensures Next(Overtaking(1, true, false, a[1 := Retiring(7, ThenStop)]), Go(1, 0, true)) ==
      Overtaking(1, false, false, a[1 := Releasing(7, ThenStop)])
  {
    assert a[1 := Retiring(7, ThenStop)][1 := Releasing(7, ThenStop)] == a[1 := Releasing(7, ThenStop)];
  }

  lemma Delete(a: map<Thread, Act>)
    ensures Next(Overtaking(1, false, false, a[1 := Releasing(7, ThenStop)]), Go(1, 0, true)) ==
      Overtaking(0, false, false, a[1 := Deleting(7, ThenStop)])
    ensures Next(Overtaking(0, false, false, a[1 := Deleting(7, ThenStop)]), Go(1, 0, true)) ==
      Overtaking(0, false, true, a[1 := Idle])
  {
    assert a[1 := Releasing(7, ThenStop)][1 := Deleting(7, ThenStop)] == a[1 := Deleting(7, ThenStop)];
    assert a[1 := Deleting(7, ThenStop)][1 := Idle] == a[1 := Idle];
  }

  lemma Write(a: map<Thread, Act>)
    requires 0 in a && a[0] == Initialising(7)
    ensures var s := Next(Overtaking(0, false, true, a), Go(0, 0, true)); 7 in s.sv && s.sv[7].release && s.sv[7].init
  {
  }

  // Its launcher writes to a context that is gone.
  lemma LateWrite()
    ensures var s := Run(OVERTAKEN);
      ActOf(s, 0) == Initialising(7) && 7 in s.sv && s.sv[7].ref == 0 && s.sv[7].release && ActOf(s, 1) == Idle
    ensures var s := Run(OVERTAKEN + [Go(0, 0, true)]); 7 in s.sv && s.sv[7].release && s.sv[7].init
  {
    RunLaunched();
    RunKilled();
    var a := map[0 := Initialising(7), 1 := Idle];
    assert LAUNCH + KILL == OVERTAKEN;
    Write(a);
    hide Next, Run;
    RunMore(OVERTAKEN, Go(0, 0, true));
  }

  const LAUNCH: seq<Event> := [Create(0, 7), Go(0, 0, true), Go(0, 0, true)]

  const KILL: seq<Event> := [Retire(1, 7), Go(1, 0, true), Go(1, 0, true), Go(1, 0, true)]

  lemma RunLaunched()
    ensures Run(LAUNCH) == Overtaking(1, true, false, map[0 := Initialising(7)])
  {
    Launch();
    RunNone();
    hide Next, Run, Overtaking;
    var es: seq<Event> := [];
    RunMore(es, Create(0, 7));
    assert es + [Create(0, 7)] == [Create(0, 7)];
    RunMore([Create(0, 7)], Go(0, 0, true));
    assert [Create(0, 7)] + [Go(0, 0, true)] == [Create(0, 7), Go(0, 0, true)];
    RunMore([Create(0, 7), Go(0, 0, true)], Go(0, 0, true));
    assert [Create(0, 7), Go(0, 0, true)] + [Go(0, 0, true)] == LAUNCH;
  }

  lemma RunKilled()
    requires Run(LAUNCH) == Overtaking(1, true, false, map[0 := Initialising(7)])
    ensures Run(LAUNCH + KILL) == Overtaking(0, false, true, map[0 := Initialising(7), 1 := Idle])
  {
    var a := map[0 := Initialising(7)];
    var e1, e2: seq<Event> := LAUNCH + [Retire(1, 7)], LAUNCH + [Retire(1, 7)] + [Go(1, 0, true)];
    var e3: seq<Event> := e2 + [Go(1, 0, true)];
    assert e3 + [Go(1, 0, true)] == LAUNCH + KILL;
    assert a[1 := Idle] == map[0 := Initialising(7), 1 := Idle];
    Kill(a);
    Delete(a);
    hide Next, Run, Overtaking;
    RunMore(LAUNCH, Retire(1, 7));
    RunMore(e1, Go(1, 0, true));
    RunMore(e2, Go(1, 0, true));
    RunMore(e3, Go(1, 0, true));
  }

  lemma RunNone()
    ensures Run([]) == START
  {
  }

  lemma RunMore(es: seq<Event>, e: Event)
    ensures Run(es + [e]) == Next(Run(es), e)
  {
    hide Next;
    assert (es + [e])[..|es|] == es;
  }

  // What one step of a thread at 'a' does to its service.
  function Effect(a: Act, v: Service): Service {
    match a
    case Pushing(_, m) => v.(msgs := v.msgs + [m], pushed := v.pushed + [m], inGlobal := true)
    case Releasing(_, _) => if v.ref > 0 then v.(ref := v.ref - 1) else v
    case Launched(_) => if v.ref > 0 then v.(ref := v.ref - 1) else v
    case Deleting(_, _) => v.(release := true)
    case Retiring(_, _) => v.(registered := false)
    case Holding(_) => if v.registered then v.(ref := v.ref + 1) else v
    case Looping(_, i, n) =>
      if i >= n then v
      else if v.msgs == [] then v.(inGlobal := false)
      else v.(msgs := v.msgs[1..], handed := v.handed + [v.msgs[0]])
    case Dropping(_) =>
      if v.msgs == [] then v.(inGlobal := false, freed := true)
      else v.(msgs := v.msgs[1..], dropped := v.dropped + [v.msgs[0]])
    case Initialising(_) => v.(init := true)
    case _ => v
  }

  lemma AdvanceElsewhere(s: State, t: Thread, w: int, ok: bool, h: Handle)
    requires h in s.sv && (ActOf(s, t).Idle? || ActOf(s, t).h != h)
    ensures h in Advance(s, t, w, ok).sv && Advance(s, t, w, ok).sv[h] == s.sv[h]
  {
    hide Resume, Released, Shifted;
  }

  lemma SenderHere(s: State, t: Thread, w: int, ok: bool)
    requires var a := ActOf(s, t); (a.Pushing? || a.Releasing? || a.Deleting? || a.Retiring? || a.Holding?) && a.h in s.sv
    ensures var h := ActOf(s, t).h; h in Advance(s, t, w, ok).sv && Advance(s, t, w, ok).sv[h] == Effect(ActOf(s, t), s.sv[h])
  {
    hide Resume, Released, Shifted;
  }

  lemma WorkerHere(s: State, t: Thread, w: int, ok: bool)
    requires var a := ActOf(s, t);
      (a.Looping? || a.Popped? || a.Running? || a.Ending? || a.Requeuing? || a.Dismissing? || a.Dropping?) && a.h in s.sv
    ensures var h := ActOf(s, t).h; h in Advance(s, t, w, ok).sv && Advance(s, t, w, ok).sv[h] == Effect(ActOf(s, t), s.sv[h])
  {
    hide Resume, Released, Shifted;
  }

  lemma LauncherHere(s: State, t: Thread, w: int, ok: bool)
    requires var a := ActOf(s, t); (a.Launching? || a.Launched? || a.Initialising? || a.Publishing?) && a.h in s.sv
    ensures var h := ActOf(s, t).h; h in Advance(s, t, w, ok).sv && Advance(s, t, w, ok).sv[h] == Effect(ActOf(s, t), s.sv[h])
  {
    hide Resume, Released, Shifted;
  }

  lemma AdvanceHere(s: State, t: Thread, w: int, ok: bool, h: Handle)
    requires h in s.sv && !ActOf(s, t).Idle? && ActOf(s, t).h == h
    ensures h in Advance(s, t, w, ok).sv && Advance(s, t, w, ok).sv[h] == Effect(ActOf(s, t), s.sv[h])
  {
    hide Advance, Effect;
    var a := ActOf(s, t);
    if a.Pushing? || a.Releasing? || a.Deleting? || a.Retiring? || a.Holding? {
      SenderHere(s, t, w, ok);
    } else if a.Launching? || a.Launched? || a.Initialising? || a.Publishing? {
      LauncherHere(s, t, w, ok);
    } else {
      WorkerHere(s, t, w, ok);
    }
  }

  lemma AdvanceChanges(s: State, t: Thread, w: int, ok: bool, h: Handle)
    requires h in s.sv
    ensures h in Advance(s, t, w, ok).sv
    ensures Advance(s, t, w, ok).sv[h] ==
      if !ActOf(s, t).Idle? && ActOf(s, t).h == h then Effect(ActOf(s, t), s.sv[h]) else s.sv[h]
  {
    hide Advance, Effect;
    if ActOf(s, t).Idle? || ActOf(s, t).h != h {
      AdvanceElsewhere(s, t, w, ok, h);
    } else {
      AdvanceHere(s, t, w, ok, h);
    }
  }

  lemma EffectGrows(a: Act, v: Service)
    ensures var v' := Effect(a, v);
      v.pushed <= v'.pushed && v.handed <= v'.handed && v.dropped <= v'.dropped && (v'.handed != v.handed ==> a.Looping?)
  {
    EffectPushed(a, v);
    EffectHanded(a, v);
    EffectDropped(a, v);
    hide Effect;
  }

  lemma EffectPushed(a: Act, v: Service)
    ensures Effect(a, v).pushed == if a.Pushing? then v.pushed + [a.m] else v.pushed
  {
  }

  lemma EffectHanded(a: Act, v: Service)
    ensures Effect(a, v).handed == if a.Looping? && a.i < a.n && v.msgs != [] then v.handed + [v.msgs[0]] else v.handed
  {
  }

  lemma EffectDropped(a: Act, v: Service)
    ensures Effect(a, v).dropped == if a.Dropping? && v.msgs != [] then v.dropped + [v.msgs[0]] else v.dropped
  {
  }

  lemma BeginChanges(s: State, e: Event, h: Handle)
    requires h in s.sv
    ensures h in Begin(s, e).sv
    ensures Begin(s, e).sv[h] == s.sv[h]
         || (s.sv[h].registered && Begin(s, e).sv[h] == s.sv[h].(ref := s.sv[h].ref + 1))
  {
  }

  // After the free nothing happens to the service any more: no reference is
  // taken, no message pushed or popped, and it is not freed again.
  lemma FreedStays(s: State, e: Event, h: Handle)
    requires Inv(s) && h in s.sv && s.sv[h].freed
    ensures h in Next(s, e).sv && Next(s, e).sv[h] == s.sv[h]
  {
    ServiceFacts(s, h);
    Facts(s, e.t, h);
    BeginChanges(s, e, h);
    if e.Go? {
      AdvanceChanges(s, e.t, e.weight, e.ok, h);
    }
    hide Inv, Advance, Begin;
  }

  // What the source asserts.  A queue that is pushed to the global list is not
  // in it; a queue is marked for release only once.
  lemma Assertions(s: State, e: Event)
    requires Inv(s)
    ensures var g, g' := s.global, Next(s, e).global;
      g' == g || (g != [] && g' == g[1..]) || (exists h :: h !in g && g' == g + [h])
    ensures e.Go? && ActOf(s, e.t).Deleting? ==> ActOf(s, e.t).h in s.sv && !s.sv[ActOf(s, e.t).h].release
  {
    var a := ActOf(s, e.t);
    if e.Go? && !a.Idle? {
      Facts(s, e.t, a.h);
      ServiceFacts(s, a.h);
      hide Inv;
      if Next(s, e).global == s.global + [a.h] {
        assert a.h !in s.global || Next(s, e).global == s.global;
      }
    }
  }

  // When every thread is idle and the global list is empty, nothing is
  // stranded: no queue holds a message, and every service has either been freed
  // or is registered with the table's reference as the only one.
  lemma Quiescent(es: seq<Event>, h: Handle)
    requires var s := Run(es); s.global == [] && (forall t :: t in s.acts ==> s.acts[t].Idle?) && h in s.sv
    ensures var v := Run(es).sv[h];
      v.msgs == [] && (v.freed || (v.registered && v.ref == 1 && v.init && v.pushed == v.handed))
  {
    RunInv(es);
    var s := Run(es);
    hide Run;
    ServiceFacts(s, h);
    assert Refs(s, h) == {};
    assert !Dying(s, h);
    assert !Owned(s, h);
  }

  // History only grows: messages are handed out in the order of the pushes.
  lemma HistoryGrows(s: State, e: Event, h: Handle)
    requires Inv(s) && h in s.sv
    ensures h in Next(s, e).sv
    ensures var v, v' := s.sv[h], Next(s, e).sv[h];
      && v.pushed <= v'.pushed && v.handed <= v'.handed && v.dropped <= v'.dropped
      && (v'.handed != v.handed ==> e.Go? && RunsService(s, e.t, h) && !v.release)
  {
    Facts(s, e.t, h);
    hide Inv, Advance, Begin, Effect;
    BeginChanges(s, e, h);
    if e.Go? {
      AdvanceChanges(s, e.t, e.weight, e.ok, h);
      EffectGrows(ActOf(s, e.t), s.sv[h]);
    }
  }
}
