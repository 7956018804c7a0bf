// Whole programs: every chain of jumps ends, before and during the peephole
// pass, and the optimised program computes the meaning of its pattern.

module LpegProgram {
  import opened LpegTree
  import opened LpegAnalysis
  import opened LpegVm
  import opened LpegGen
  import opened LpegCorrect
  import opened LpegVerify
  import opened LpegOpt
  import opened LpegJumps

  // 'finaltarget' stops wherever it starts.
  ghost predicate AllStop(code: seq<Instr>) { forall i: int :: Stops(code, i) }

  ghost predicate Stops(code: seq<Instr>, i: int) { exists k :: StopsAt(code, i, k) }

  lemma AllEndStops(code: seq<Instr>)
    requires AllEnd(code)
    ensures AllStop(code)
  {
    hide Leads;
    forall i: int ensures Stops(code, i) {
      if 0 <= i <= |code| {
        assert Ends(code, i);
        var k :| EndsAt(code, i, k);
        assert StopsAt(code, i, k);
      } else {
        LeadsSelf(code, i);
        assert StopsAt(code, i, i);
      }
    }
  }

  lemma CompileStops(t: Tree, d: nat, d0: nat)
    requires Finished(t, d0, true)
    ensures AllStop(Compile(t, d))
  {
    hide Gen, AllEnd, AllStop;
    GenEnds(t, false, None, FULLSET, Env([], d, Ids(t)), d0, 0);
    AllEndUnit(IEnd);
    AllEndAppend(Gen(t, false, None, FULLSET, Env([], d, Ids(t)), true), [IEnd]);
    AllEndStops(Compile(t, d));
  }

  // A position on a chain that stops has a shorter way to go.
  lemma {:induction false} OnTheWay(code: seq<Instr>, i: int, j: int, k: int, m: nat, n: nat)
    requires JumpsTo(code, i, j, m) && JumpsTo(code, i, k, n) && !(0 <= k < |code| && code[k].IJmp?)
    ensures m <= n && JumpsTo(code, j, k, n - m)
    decreases m
  {
    if m > 0 {
      OnTheWay(code, i + code[i].off, j, k, m - 1, n - 1);
    }
  }

  lemma StopUnique(code: seq<Instr>, i: int, k: int, k': int)
    requires StopsAt(code, i, k) && StopsAt(code, i, k')
    ensures k == k'
  {
    var m: nat :| JumpsTo(code, i, k, m);
    var n: nat :| JumpsTo(code, i, k', n);
    if m <= n {
      OnTheWay(code, i, k, k', m, n);
    } else {
      OnTheWay(code, i, k', k, n, m);
    }
  }

  // A chain of 'n' jumps of the old code that stops: it stops in the new code.
  lemma {:induction false} ShortenedStops(code: seq<Instr>, i: int, x: Instr, j: int, k: int, n: nat)
    requires Shortens(code, i, x) && JumpsTo(code, j, k, n) && !(0 <= k < |code| && code[k].IJmp?)
    ensures Stops(code[i := x], j)
    decreases n
  {
    hide Leads;
    var code' := code[i := x];
    LeadsSelf(code', j);
    if 0 <= j < |code| && code'[j].IJmp? {
      if j != i {
        ShortenedStops(code, i, x, j + code[j].off, k, n - 1);
      } else {
        RelabelledJump(code, i, x);
        var m := ChainLength(code, i + code[i].off, i + x.off);
        OnTheWay(code, i + code[i].off, i + x.off, k, m, n - 1);
        ShortenedStops(code, i, x, i + x.off, k, n - 1 - m);
      }
      var k' :| StopsAt(code', j + code'[j].off, k');
      LeadsJump(code', j, k');
      assert StopsAt(code', j, k');
    } else {
      assert StopsAt(code', j, j);
    }
  }

  lemma ChainLength(code: seq<Instr>, i: int, k: int) returns (n: nat)
    requires Leads(code, i, k)
    ensures JumpsTo(code, i, k, n)
  {
    n :| JumpsTo(code, i, k, n);
  }

  lemma RelabelledJump(code: seq<Instr>, i: int, x: Instr)
    requires Shortens(code, i, x) && x.IJmp?
    ensures code[i].IJmp? && Leads(code, i + code[i].off, i + x.off)
  {
    hide Leads;
  }

  // One rewriting of the peephole pass leaves every chain finite.
  lemma ShortenStops(code: seq<Instr>, i: int, x: Instr)
    requires 0 <= i < |code| && Shortens(code, i, x) && AllStop(code)
    ensures AllStop(code[i := x])
  {
    hide Shortens, Leads;
    var code' := code[i := x];
    forall j: int ensures Stops(code', j) {
      assert Stops(code, j);
      var k :| StopsAt(code, j, k);
      var n := ChainLength(code, j, k);
      ShortenedStops(code, i, x, j, k, n);
    }
  }

  lemma PeepStops(code: seq<Instr>, i: nat)
    requires i < |code| && AllStop(code)
    ensures AllStop(code[i := PeepAt(code, i)])
  {
    hide AllStop, PeepAt, Shortens;
    PeepShortens(code, i);
    if PeepAt(code, i) == code[i] {
      assert code[i := PeepAt(code, i)] == code;
    } else {
      ShortenStops(code, i, PeepAt(code, i));
    }
  }

  // ------------------------------------------------------- the main theorems

  ghost function Program(t: Tree, d: nat): seq<Instr> { Peephole(Compile(t, d), 0) }

  // The optimised program, run from any position, gives the meaning there.
  lemma ProgramMeans(t: Tree, d: nat, s: seq<Byte>, i: nat, r: Result)
    requires WellFormed(t, 0) && i <= |s| && Means(t, [], s, i, r)
    ensures Reach(Program(t, d), s, Run(0, i, Base), Answer(r))
  {
    hide Compile, Peephole, Reach, PlainCode, Means;
    PlainCorrect(t, d, s, i, r);
    CompilePreserves(t, d);
    PeepholePreserves(Compile(t, d), 0);
  }

  // Every finished pattern: its program ends on every subject, without a failed
  // assertion, and it ends with the answer 'a' exactly when that is the meaning
  // of the pattern.
  lemma ProgramCorrect(t: Tree, d0: nat, d: nat, s: seq<Byte>, i: nat) returns (r: Result)
    requires Finished(t, d0, true) && i <= |s|
    ensures Means(t, [], s, i, r) && Reach(Program(t, d), s, Run(0, i, Base), Answer(r))
    ensures forall a: Config :: !a.Run? && Reach(Program(t, d), s, Run(0, i, Base), a) ==> a == Answer(r)
    ensures forall r': Result :: Means(t, [], s, i, r') <==> Reach(Program(t, d), s, Run(0, i, Base), Answer(r'))
  {
    hide Program, Means, Reach;
    r := FinishedTerminates(t, d0, s, i);
    ProgramMeans(t, d, s, i, r);
    forall a: Config | !a.Run? && Reach(Program(t, d), s, Run(0, i, Base), a) ensures a == Answer(r) {
      OutcomeUnique(Program(t, d), s, Run(0, i, Base), a, Answer(r));
    }
    forall r': Result
      ensures Means(t, [], s, i, r') <==> Reach(Program(t, d), s, Run(0, i, Base), Answer(r'))
    {
      if Means(t, [], s, i, r') {
        MeansUnique(t, [], s, i, r, r');
      }
      if Reach(Program(t, d), s, Run(0, i, Base), Answer(r')) {
        OutcomeUnique(Program(t, d), s, Run(0, i, Base), Answer(r'), Answer(r));
      }
    }
  }

  // The same for the patterns that the check of the source accepts and that are
  // not left recursive.
  lemma AcceptedCorrect(t: Tree, d0: nat, d: nat, s: seq<Byte>, i: nat) returns (r: Result)
    requires Finished(t, d0, false) && NoLeftRecursion(t, d0) && i <= |s|
    ensures Means(t, [], s, i, r) && Reach(Program(t, d), s, Run(0, i, Base), Answer(r))
    ensures forall a: Config :: !a.Run? && Reach(Program(t, d), s, Run(0, i, Base), a) ==> a == Answer(r)
  {
    hide Program, Means, Reach, NoLeftRecursion;
    AcceptedIff(t, d0);
    r := ProgramCorrect(t, d0, d, s, i);
  }

  // ------------------------------------------------------------ what the peephole pass achieves

  // No label leads to a jump, and no jump leads to an instruction that leaves at once.
  ghost predicate Settled(code: seq<Instr>, i: int)
    requires 0 <= i < |code|
  {
    HasLabel(code[i]) ==>
      var to := i + Label(code[i]);
      0 <= to < |code| ==> !code[to].IJmp? && (code[i].IJmp? ==> !IsStop(code[to]) && !IsCommit(code[to]))
  }

  lemma FinalIs(code: seq<Instr>, i: int)
    requires AllStop(code)
    ensures var k := FinalTarget(code, i); !(0 <= k < |code| && code[k].IJmp?)
  {
    assert Stops(code, i);
  }

  // The same operation, whatever its label.
  ghost predicate SameKind(a: Instr, b: Instr) {
    a.IJmp? == b.IJmp? && IsStop(a) == IsStop(b) && IsCommit(a) == IsCommit(b)
  }

  lemma SetKind(a: Instr, off: int)
    requires HasLabel(a)
    ensures SameKind(a, SetLabel(a, off))
  {
  }

  // One look at an instruction.
  lemma PeepKind(code: seq<Instr>, i: nat)
    requires i < |code| && AllStop(code)
    ensures var x := PeepAt(code, i);
      && (!code[i].IJmp? ==> SameKind(code[i], x))
      && (!x.IJmp? || code[i].IJmp?)
      && (!(code[i].IJmp? && IsCommit(x)) ==> Settled(code[i := x], i))
  {
    hide AllStop, FinalTarget;
    var ins, x := code[i], PeepAt(code, i);
    if HasLabel(ins) {
      FinalIs(code, i);
      FinalIs(code, i + Label(ins));
      if !ins.IJmp? {
        SetKind(ins, FinalLabel(code, i) - i);
      } else {
        var ft := FinalTarget(code, i);
        if 0 <= ft < |code| && IsCommit(code[ft]) {
          SetKind(code[ft], FinalLabel(code, ft) - i);
        }
      }
    }
  }

  // What stands at 'i' changes its kind only if it was a jump.
  ghost predicate Looked(code: seq<Instr>, code': seq<Instr>, i: nat) {
    && |code'| == |code| && i < |code| && (forall j :: 0 <= j < |code| && j != i ==> code'[j] == code[j])
    && (!code[i].IJmp? ==> SameKind(code[i], code'[i])) && (code'[i].IJmp? ==> code[i].IJmp?)
  }

  lemma LookedStays(code: seq<Instr>, code': seq<Instr>, i: nat, j: nat)
    requires Looked(code, code', i) && j < |code| && j != i && Settled(code, j)
    ensures Settled(code', j)
  {
  }

  lemma PeepLooked(code: seq<Instr>, i: nat)
    requires i < |code| && AllStop(code)
    ensures var once := code[i := PeepAt(code, i)];
      var code' := if code[i].IJmp? && IsCommit(once[i]) then once[i := PeepAt(once, i)] else once;
      AllStop(code') && Looked(code, code', i) && Settled(code', i)
  {
    hide AllStop, PeepAt, Settled;
    PeepStops(code, i);
    PeepKind(code, i);
    var once := code[i := PeepAt(code, i)];
    if code[i].IJmp? && IsCommit(once[i]) {
      PeepStops(once, i);
      PeepKind(once, i);
    }
  }

  lemma {:induction false} PeepholeDone(code: seq<Instr>, i: nat)
    requires i <= |code| && AllStop(code) && forall j :: 0 <= j < i ==> Settled(code, j)
    ensures forall j :: 0 <= j < |code| ==> Settled(Peephole(code, i), j)
    decreases |code| - i
  {
    hide AllStop, PeepAt, Settled, Looked;
    if i < |code| {
      var once := code[i := PeepAt(code, i)];
      var code' := if code[i].IJmp? && IsCommit(once[i]) then once[i := PeepAt(once, i)] else once;
      PeepLooked(code, i);
      forall j | 0 <= j < i + 1 ensures Settled(code', j) {
        if j < i {
          LookedStays(code, code', i, j);
        }
      }
      PeepholeDone(code', i + 1);
    }
  }

  // In an optimised program every label is final.
  lemma ProgramSettled(t: Tree, d: nat, d0: nat)
    requires Finished(t, d0, true)
    ensures var code := Peephole(Compile(t, d), 0); forall i :: 0 <= i < |code| ==> Settled(code, i)
  {
    hide Compile, AllStop, Settled, Peephole;
    CompileStops(t, d, d0);
    PeepholeDone(Compile(t, d), 0);
  }
}
