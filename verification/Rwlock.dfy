// The spinning reader/writer lock, as the atomic steps of any number of threads.

module Rwlock {

  type Thread = nat

  // Where a thread is: in rwlock_rlock before the increment, after it, about to
  // undo it, inside; in rwlock_wlock before the exchange, after it, inside.
  datatype Pc = Out | RSpin | RInc | RCheck | RUndo | Reading | WSpin | WWait | Writing

  datatype State = State(write: int, read: int, pcs: map<Thread, Pc>)

  // A thread starts to lock, or takes its next step.  'luck' is false when a
  // compare-and-exchange fails without a reason.
  datatype Event = LockRead(t: Thread) | LockWrite(t: Thread) | Go(t: Thread, luck: bool)

  const START: State := State(0, 0, map[])

  function PcOf(s: State, t: Thread): Pc { if t in s.pcs then s.pcs[t] else Out }

  function At(s: State, t: Thread, pc: Pc): State { s.(pcs := s.pcs[t := pc]) }

  function Advance(s: State, t: Thread, luck: bool): State {
    match PcOf(s, t)
    case Out => s
    case RSpin => if s.write != 0 then s else At(s, t, RInc)
    case RInc => At(s.(read := s.read + 1), t, RCheck)
    case RCheck => At(s, t, if s.write != 0 then RUndo else Reading)
    case RUndo => At(s.(read := s.read - 1), t, RSpin)
    case Reading => At(s.(read := s.read - 1), t, Out)
    case WSpin => if s.write == 0 && luck then At(s.(write := 1), t, WWait) else s
    case WWait => if s.read != 0 then s else At(s, t, Writing)
    case Writing => At(s.(write := 0), t, Out)
  }

  function Next(s: State, e: Event): State {
    match e
    case Go(t, luck) => Advance(s, t, luck)
    case LockRead(t) => if PcOf(s, t).Out? then At(s, t, RSpin) else s
    case LockWrite(t) => if PcOf(s, t).Out? then At(s, t, WSpin) else s
  }

  function Run(es: seq<Event>): State {
    if es == [] then START else Next(Run(es[..|es| - 1]), es[|es| - 1])
  }

  // A reader between its increment and its decrement.
  predicate Counted(pc: Pc) { pc.RCheck? || pc.RUndo? || pc.Reading? }

  // A writer that has made the exchange.
  predicate Claims(pc: Pc) { pc.WWait? || pc.Writing? }

  function Readers(s: State): set<Thread> { set t | t in s.pcs && Counted(s.pcs[t]) }

  ghost predicate Inv(s: State) {
    && s.read == |Readers(s)|
    && (s.write == 0 || s.write == 1)
    && (forall t {:trigger s.pcs[t]} :: t in s.pcs && Claims(s.pcs[t]) ==> s.write == 1)
    && (s.write == 1 ==> exists t :: t in s.pcs && Claims(s.pcs[t]))
    && (forall t, u {:trigger s.pcs[t], s.pcs[u]} :: t in s.pcs && u in s.pcs && Claims(s.pcs[t]) && Claims(s.pcs[u]) ==> t == u)
    && (forall t, u {:trigger s.pcs[t], s.pcs[u]} :: t in s.pcs && u in s.pcs && s.pcs[t].Writing? ==> !s.pcs[u].Reading?)
  }

  lemma ReadersStep(s: State, s': State, t: Thread, pc: Pc)
    requires s'.pcs == s.pcs[t := pc]
    ensures |Readers(s')| + (if Counted(PcOf(s, t)) then 1 else 0) == |Readers(s)| + (if Counted(pc) then 1 else 0)
  {
    if Counted(pc) {
      assert Readers(s') == Readers(s) + {t};
    } else {
      assert Readers(s') == Readers(s) - {t};
    }
    assert Counted(PcOf(s, t)) <==> t in Readers(s);
  }

  // A writer enters only when no reader is counted.
  lemma NoReaders(s: State)
    requires Inv(s) && s.read == 0
    ensures forall t {:trigger s.pcs[t]} :: t in s.pcs ==> !Counted(s.pcs[t])
  {
    forall t | t in s.pcs ensures !Counted(s.pcs[t]) {
      assert Counted(s.pcs[t]) ==> t in Readers(s);
    }
  }

  lemma MoveInv(s: State, s': State, t: Thread, pc: Pc)
    requires Inv(s) && s'.pcs == s.pcs[t := pc]
    requires s'.read == s.read + (if Counted(pc) then 1 else 0) - (if Counted(PcOf(s, t)) then 1 else 0)
    requires s'.write == if Claims(pc) then 1 else if Claims(PcOf(s, t)) then 0 else s.write
    requires Claims(pc) ==> Claims(PcOf(s, t)) || s.write == 0
    requires pc.Writing? ==> s.read == 0
    requires pc.Reading? ==> s.write == 0
    ensures Inv(s')
  {
    ReadersStep(s, s', t, pc);
    if s.read == 0 {
      NoReaders(s);
    }
    hide Readers;
    if s'.write == 1 {
      if Claims(pc) {
        assert Claims(s'.pcs[t]);
      } else {
        var u :| u in s.pcs && Claims(s.pcs[u]);
        assert u in s'.pcs && Claims(s'.pcs[u]);
      }
    }
  }

  lemma NextInv(s: State, e: Event)
    requires Inv(s)
    ensures Inv(Next(s, e))
  {
    var s', t := Next(s, e), e.t;
    if PcOf(s, t) != PcOf(s', t) {
      if Counted(PcOf(s, t)) {
        assert t in Readers(s);
      }
      MoveInv(s, s', t, PcOf(s', t));
    }
  }

  lemma {:induction false} RunInv(es: seq<Event>)
    ensures Inv(Run(es))
    decreases |es|
  {
    if es == [] {
      assert Readers(START) == {};
    } else {
      RunInv(es[..|es| - 1]);
      NextInv(Run(es[..|es| - 1]), es[|es| - 1]);
    }
  }

  // At every moment of every run a writer inside is alone, and 'read' is the
  // number of readers between increment and decrement.
  lemma Exclusion(es: seq<Event>)
    ensures var s := Run(es);
      && (forall t, u :: PcOf(s, t).Writing? && PcOf(s, u).Writing? ==> t == u)
      && (forall t, u :: PcOf(s, t).Writing? ==> !PcOf(s, u).Reading?)
      && s.read == |Readers(s)|
  {
    RunInv(es);
  }

  // When nobody is in the lock it is free: the counters are back at zero.
  lemma FreeAgain(es: seq<Event>)
    requires forall t :: t in Run(es).pcs ==> Run(es).pcs[t].Out? || Run(es).pcs[t].RSpin? || Run(es).pcs[t].RInc? || Run(es).pcs[t].WSpin?
    ensures Run(es).read == 0 && Run(es).write == 0
  {
    RunInv(es);
    assert Readers(Run(es)) == {};
  }

  // ------------------------------------------------------------ who gets in

  lemma RunMore(es: seq<Event>, e: Event)
    ensures Run(es + [e]) == Next(Run(es), e)
  {
    hide Next;
    assert (es + [e])[..|es|] == es;
  }

  // A thread that takes the steps of rwlock_rlock while the others rest gets in at its
  // first try if and only if no writer has made the exchange.
  lemma ReaderEnters(es: seq<Event>, t: Thread)
    requires PcOf(Run(es), t).Out?
    ensures var s := Run(es);
      var s' := Run(es + [LockRead(t)] + [Go(t, true)] + [Go(t, true)] + [Go(t, true)]);
      && (PcOf(s', t).Reading? <==> s.write == 0)
      && s'.write == s.write && s'.read == s.read + if s.write == 0 then 1 else 0
  {
    hide Run;
    var a := es + [LockRead(t)];
    RunMore(es, LockRead(t));
    RunMore(a, Go(t, true));
    RunMore(a + [Go(t, true)], Go(t, true));
    RunMore(a + [Go(t, true)] + [Go(t, true)], Go(t, true));
  }

  // And rwlock_wlock if and only if there is no writer, and no reader is counted.
  lemma WriterEnters(es: seq<Event>, t: Thread)
    requires PcOf(Run(es), t).Out?
    ensures var s := Run(es);
      var s' := Run(es + [LockWrite(t)] + [Go(t, true)] + [Go(t, true)]);
      && (PcOf(s', t).Writing? <==> s.write == 0 && s.read == 0)
      && s'.read == s.read && s'.write == if s.write == 0 then 1 else s.write
  {
    hide Run;
    var a := es + [LockWrite(t)];
    RunMore(es, LockWrite(t));
    RunMore(a, Go(t, true));
    RunMore(a + [Go(t, true)], Go(t, true));
  }

  // The unlocks end at once, and free what the locks took.
  lemma Leaves(es: seq<Event>, t: Thread, luck: bool)
    requires PcOf(Run(es), t).Reading? || PcOf(Run(es), t).Writing?
    ensures var s, s' := Run(es), Run(es + [Go(t, luck)]);
      && PcOf(s', t).Out?
      && (if PcOf(s, t).Reading? then s'.read == s.read - 1 && s'.write == s.write else s'.write == 0 && s'.read == s.read)
  {
    hide Run;
    RunMore(es, Go(t, luck));
  }

  // A reader that meets a writer takes its count back and tries again.
  lemma GivesUp(es: seq<Event>, t: Thread)
    requires PcOf(Run(es), t).RCheck? && Run(es).write != 0
    ensures var s, s' := Run(es), Run(es + [Go(t, true)] + [Go(t, true)]); PcOf(s', t).RSpin? && s'.read == s.read - 1
  {
    hide Run;
    RunMore(es, Go(t, true));
    RunMore(es + [Go(t, true)], Go(t, true));
  }
}
