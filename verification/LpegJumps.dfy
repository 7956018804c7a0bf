// Chains of jumps in compiled code end, so 'finaltarget' does: this is where
// the absence of left recursion is needed at compile time, because a rule that
// starts with a tail call is a rule that starts with a jump.

module LpegJumps {
  import opened LpegTree
  import opened LpegAnalysis
  import opened LpegVm
  import opened LpegGen
  import opened LpegCorrect
  import opened LpegVerify
  import opened LpegOpt

  predicate NotJump(f: seq<Instr>, k: int) { 0 <= k < |f| && !f[k].IJmp? }

  // Jumps from 'i' lead to 'k', which is no jump or is the end of the fragment.
  ghost predicate EndsAt(f: seq<Instr>, i: int, k: int) {
    Leads(f, i, k) && (k == |f| || NotJump(f, k))
  }

  ghost predicate Ends(f: seq<Instr>, i: int) { exists k :: EndsAt(f, i, k) }

  ghost predicate AllEnd(f: seq<Instr>) { forall i :: 0 <= i <= |f| ==> Ends(f, i) }

  lemma EndsHere(f: seq<Instr>, i: int)
    requires i == |f| || NotJump(f, i)
    ensures EndsAt(f, i, i)
  {
    LeadsSelf(f, i);
  }

  lemma LeadsJump(f: seq<Instr>, i: int, k: int)
    requires 0 <= i < |f| && f[i].IJmp? && Leads(f, i + f[i].off, k)
    ensures Leads(f, i, k)
  {
    var n: nat :| JumpsTo(f, i + f[i].off, k, n);
    assert JumpsTo(f, i, k, n + 1);
  }

  lemma EndsJump(f: seq<Instr>, i: int)
    requires 0 <= i < |f| && (f[i].IJmp? ==> Ends(f, i + f[i].off))
    ensures Ends(f, i)
  {
    if f[i].IJmp? {
      var k :| EndsAt(f, i + f[i].off, k);
      LeadsJump(f, i, k);
      assert EndsAt(f, i, k);
    } else {
      EndsHere(f, i);
    }
  }

  lemma {:induction false} JumpsThen(f: seq<Instr>, i: int, j: int, k: int, m: nat, n: nat)
    requires JumpsTo(f, i, j, m) && JumpsTo(f, j, k, n)
    ensures JumpsTo(f, i, k, m + n)
    decreases m
  {
    if m > 0 {
      JumpsThen(f, i + f[i].off, j, k, m - 1, n);
    }
  }

  lemma LeadsThen(f: seq<Instr>, i: int, j: int, k: int)
    requires Leads(f, i, j) && Leads(f, j, k)
    ensures Leads(f, i, k)
  {
    var m: nat :| JumpsTo(f, i, j, m);
    var n: nat :| JumpsTo(f, j, k, n);
    JumpsThen(f, i, j, k, m, n);
  }

  lemma EndsThen(f: seq<Instr>, i: int, j: int)
    requires Leads(f, i, j) && Ends(f, j)
    ensures Ends(f, i)
  {
    hide Leads;
    var k :| EndsAt(f, j, k);
    LeadsThen(f, i, j, k);
    assert EndsAt(f, i, k);
  }

  // A part 'b' of 'p + b + q' all of whose chains end: they end in the whole
  // when the position after the part does.
  lemma PartEnds(p: seq<Instr>, b: seq<Instr>, q: seq<Instr>, i: int)
    requires AllEnd(b) && |p| <= i <= |p| + |b| && Ends(p + b + q, |p| + |b|)
    ensures Ends(p + b + q, i)
  {
    hide Leads;
    var f := p + b + q;
    assert Ends(b, i - |p|);
    var k :| EndsAt(b, i - |p|, k);
    LeadsShift(p, b, q, i - |p|, k);
    if k == |b| {
      EndsThen(f, i, |p| + |b|);
    } else {
      assert f[|p| + k] == b[k];
      assert EndsAt(f, i, |p| + k);
    }
  }

  lemma AllEndAppend(a: seq<Instr>, b: seq<Instr>)
    requires AllEnd(a) && AllEnd(b)
    ensures AllEnd(a + b)
  {
    hide EndsAt;
    var f := a + b;
    EndsHere(f, |f|);
    assert a + b + [] == f && [] + a + b == f;
    forall i | 0 <= i <= |f| ensures Ends(f, i) {
      PartEnds(a, b, [], |a|);
      if i < |a| {
        PartEnds([], a, b, i);
      } else {
        PartEnds(a, b, [], i);
      }
    }
  }

  lemma AllEndUnit(x: Instr)
    requires !x.IJmp?
    ensures AllEnd([x])
  {
    EndsHere([x], 0);
    EndsHere([x], 1);
  }

  lemma AllEndEmpty()
    ensures AllEnd([])
  {
    EndsHere([], 0);
  }

  // '[x] + b1 + mid + b2' where 'x' may jump to 'b2' and 'mid' to the end.
  lemma ForwardEnds(x: Instr, b1: seq<Instr>, mid: seq<Instr>, b2: seq<Instr>)
    requires AllEnd(b1) && AllEnd(b2)
    requires mid == [] || mid == [IJmp(1 + |b2|)] || (|mid| == 1 && !mid[0].IJmp?)
    requires x.IJmp? ==> x.off == 1 + |b1| + |mid|
    ensures AllEnd([x] + b1 + mid + b2)
  {
    hide EndsAt;
    var f := [x] + b1 + mid + b2;
    EndsHere(f, |f|);
    var l1 := 1 + |b1| + |mid|;
    assert ([x] + b1 + mid) + b2 + [] == f;
    assert [x] + b1 + (mid + b2) == f;
    PartEnds([x] + b1 + mid, b2, [], l1);
    if mid != [] {
      assert f[1 + |b1|] == mid[0];
      EndsJump(f, 1 + |b1|);
    }
    EndsJump(f, 0);
    forall i | 0 <= i <= |f| ensures Ends(f, i) {
      if 1 <= i <= 1 + |b1| {
        PartEnds([x], b1, mid + b2, i);
      } else if i >= l1 {
        PartEnds([x] + b1 + mid, b2, [], i);
      }
    }
  }

  // 'x + b + [y]' where 'y' jumps back to the start and 'x' may jump to the end.
  lemma LoopEnds(x: Instr, b: seq<Instr>)
    requires AllEnd(b) && (x.IJmp? ==> x.off == 2 + |b|)
    ensures AllEnd([x] + b + [IJmp(-1 - |b|)])
  {
    hide EndsAt;
    var f := [x] + b + [IJmp(-1 - |b|)];
    EndsHere(f, |f|);
    assert f[0] == x && f[1 + |b|] == IJmp(-1 - |b|);
    EndsJump(f, 0);
    EndsJump(f, 1 + |b|);
    forall i | 0 <= i <= |f| ensures Ends(f, i) {
      if 1 <= i <= 1 + |b| {
        PartEnds([x], b, [IJmp(-1 - |b|)], i);
      }
    }
  }

  // 'test + [y] + b + [z]' with an optional test that may jump to the end.
  lemma TestedEnds(fs: First, y: Instr, b: seq<Instr>, z: Instr)
    requires AllEnd(b) && !y.IJmp? && !z.IJmp?
    ensures AllEnd(MaybeTest(fs, 3 + |b|) + [y] + b + [z])
  {
    var x := TestSet(fs.cs, 3 + |b|);
    AllEndUnit(y);
    AllEndUnit(z);
    AllEndEmpty();
    AllEndAppend([y], b);
    if fs.e {
      AllEndAppend([y] + b, [z]);
      assert MaybeTest(fs, 3 + |b|) + [y] + b + [z] == [y] + b + [z];
    } else {
      TestOffset(fs.cs, 3 + |b|);
      ForwardEnds(x, [y] + b, [z], []);
      assert MaybeTest(fs, 3 + |b|) + [y] + b + [z] == [x] + ([y] + b) + [z] + [];
    }
  }

  lemma TestOffset(cs: set<Byte>, off: int)
    ensures TestSet(cs, off).IJmp? ==> TestSet(cs, off).off == off
  {
  }

  // ------------------------------------------------- chains within a fragment

  lemma {:induction false} ChoiceEnds(t: Tree, opt: bool, tt: Test, fl: set<Byte>, e: Env, d: nat, n: nat)
    requires t.TChoice? && WellFormed(t, n) && Verified(t, d, true)
    ensures AllEnd(Gen(t, opt, tt, fl, e, true))
    decreases t, 0, 0
  {
    hide Gen, TestChoice, GetFirst, HeadFail, TestSet, AllEnd;
    var TChoice(p1, p2) := t;
    var f1 := GetFirst(p1, FULLSET, e.g, e.d);
    var b2 := Gen(p2, opt, None, fl, e, true);
    GenEnds(p2, opt, None, fl, e, d, n);
    if TestChoice(p1, p2, fl, e) {
      var b1 := Gen(p1, false, Some(TestSet(f1.cs, 0)), fl, e, true);
      ChoiceTestGen(t, opt, tt, fl, e, true);
      GenEnds(p1, false, Some(TestSet(f1.cs, 0)), fl, e, d, n);
      var mid := if p2.TTrue? then [] else [IJmp(1 + |b2|)];
      TestOffset(f1.cs, 1 + |b1| + |mid|);
      ForwardEnds(TestSet(f1.cs, 1 + |b1| + |mid|), b1, mid, b2);
    } else if opt && p2.TTrue? {
      ReuseGen(t, opt, tt, fl, e, true);
      GenEnds(p1, true, None, FULLSET, e, d, n);
      AllEndUnit(IPartialCommit(1));
      AllEndAppend([IPartialCommit(1)], Gen(p1, true, None, FULLSET, e, true));
    } else {
      ChoicePointGen(t, opt, tt, fl, e, true);
      var b1 := Gen(p1, p2.TTrue?, TestOf(f1), FULLSET, e, true);
      GenEnds(p1, p2.TTrue?, TestOf(f1), FULLSET, e, d, n);
      var choice, commit := IChoice(2 + |b1|), ICommit(1 + |b2|);
      var x := TestSet(f1.cs, 3 + |b1|);
      AllEndUnit(choice);
      AllEndUnit(commit);
      AllEndAppend([choice], b1);
      AllEndAppend([commit], b2);
      if f1.e {
        AllEndAppend([choice] + b1, [commit] + b2);
        assert MaybeTest(f1, 3 + |b1|) + [choice] + b1 + ([commit] + b2) == ([choice] + b1) + ([commit] + b2);
      } else {
        TestOffset(f1.cs, 3 + |b1|);
        ForwardEnds(x, [choice] + b1, [commit], b2);
        assert MaybeTest(f1, 3 + |b1|) + [choice] + b1 + ([commit] + b2) == [x] + ([choice] + b1) + [commit] + b2;
      }
    }
  }

  lemma {:induction false} RepEnds(t: Tree, opt: bool, tt: Test, fl: set<Byte>, e: Env, d: nat, n: nat)
    requires t.TRep? && WellFormed(t, n) && Verified(t, d, true)
    ensures AllEnd(Gen(t, opt, tt, fl, e, true))
    decreases t, 0, 0
  {
    hide Gen, TestRep, GetFirst, HeadFail, TestSet, AllEnd;
    var f := GetFirst(t.p, FULLSET, e.g, e.d);
    if IsCharset(t.p) {
      RepGenCharset(t, opt, tt, fl, e, true);
      AllEndEmpty();
      AllEndUnit(IAny);
      match t.p
      case TAny => LoopEnds(ITestAny(3), [IAny]); assert CodeRepCharset(t.p) == [ITestAny(3)] + [IAny] + [IJmp(-2)];
      case TChar(c) => LoopEnds(ITestChar(c, 3), [IAny]); assert CodeRepCharset(t.p) == [ITestChar(c, 3)] + [IAny] + [IJmp(-2)];
      case TSet(cs) => AllEndUnit(ISpan(cs));
      case TFalse =>
    } else if TestRep(t.p, fl, e) {
      RepTestGen(t, opt, tt, fl, e, true);
      var b := Gen(t.p, false, Some(TestSet(f.cs, 0)), FULLSET, e, true);
      GenEnds(t.p, false, Some(TestSet(f.cs, 0)), FULLSET, e, d, n);
      TestOffset(f.cs, 2 + |b|);
      LoopEnds(TestSet(f.cs, 2 + |b|), b);
      assert [TestSet(f.cs, 2 + |b|)] + b + [IJmp(-1 - |b|)] + [] == [TestSet(f.cs, 2 + |b|)] + b + [IJmp(-1 - |b|)];
    } else {
      RepPointGen(t, opt, tt, fl, e, true);
      var b := Gen(t.p, false, None, FULLSET, e, true);
      GenEnds(t.p, false, None, FULLSET, e, d, n);
      TestedEnds(f, if opt then IPartialCommit(1) else IChoice(2 + |b|), b, IPartialCommit(-|b|));
    }
  }

  lemma {:induction false} PredicateEnds(t: Tree, opt: bool, tt: Test, fl: set<Byte>, e: Env, d: nat, n: nat)
    requires (t.TNot? || t.TAnd? || t.TBehind?) && WellFormed(t, n) && Verified(t, d, true)
    ensures AllEnd(Gen(t, opt, tt, fl, e, true))
    decreases t, 0, 0
  {
    hide Gen, GetFirst, HeadFail, TestSet, AllEnd, FixedLen;
    AllEndEmpty();
    AllEndUnit(IFail);
    if t.TNot? {
      NotGen(t, opt, tt, fl, e, true);
      var f := GetFirst(t.p, FULLSET, e.g, e.d);
      var b := Gen(t.p, false, None, FULLSET, e, true);
      GenEnds(t.p, false, None, FULLSET, e, d, n);
      if HeadFail(t.p, e.g, e.d) {
        if f.e {
          assert MaybeTest(f, 2) + [IFail] == [IFail];
        } else {
          TestOffset(f.cs, 2);
          ForwardEnds(TestSet(f.cs, 2), [], [IFail], []);
          assert MaybeTest(f, 2) + [IFail] == [TestSet(f.cs, 2)] + [] + [IFail] + [];
        }
      } else {
        TestedEnds(f, IChoice(2 + |b|), b, IFailTwice);
      }
    } else if t.TAnd? {
      var b := Gen(t.p, false, tt, FULLSET, e, true);
      GenEnds(t.p, false, tt, FULLSET, e, d, n);
      if 0 <= AndLen(t.p, e) <= MAXBEHIND {
        AndFixedGen(t, opt, tt, fl, e, true);
        if AndLen(t.p, e) > 0 {
          AllEndUnit(IBehind(AndLen(t.p, e)));
        }
        AllEndAppend(b, if AndLen(t.p, e) > 0 then [IBehind(AndLen(t.p, e))] else []);
      } else {
        AndGen(t, opt, tt, fl, e, true);
        AllEndUnit(IChoice(2 + |b|));
        AllEndUnit(IBackCommit(2));
        AllEndAppend([IChoice(2 + |b|)], b);
        AllEndAppend([IChoice(2 + |b|)] + b, [IBackCommit(2)]);
        AllEndAppend([IChoice(2 + |b|)] + b + [IBackCommit(2)], [IFail]);
      }
    } else {
      BehindGen(t, opt, tt, fl, e, true);
      WellFormedMore(t.p, n);
      GenEnds(t.p, false, None, FULLSET, e, d, n);
      if t.n > 0 {
        AllEndUnit(IBehind(t.n));
      }
      AllEndAppend(if t.n > 0 then [IBehind(t.n)] else [], Gen(t.p, false, None, FULLSET, e, true));
    }
  }

  // Every chain of jumps in a fragment ends inside it or at its end.
  lemma {:induction false} GenEnds(t: Tree, opt: bool, tt: Test, fl: set<Byte>, e: Env, d: nat, n: nat)
    requires WellFormed(t, n) && Verified(t, d, true)
    ensures AllEnd(Gen(t, opt, tt, fl, e, true))
    decreases t, if t.TGrammar? then |t.rules| + 3 else 3, 0
  {
    hide Gen, GetFirst, HeadFail, FixedLen, AllEnd, LeafInstr, GenRules, VerifyGrammar;
    match t
    case TChoice(_, _) => ChoiceEnds(t, opt, tt, fl, e, d, n);
    case TRep(_) => RepEnds(t, opt, tt, fl, e, d, n);
    case TNot(_) => PredicateEnds(t, opt, tt, fl, e, d, n);
    case TAnd(_) => PredicateEnds(t, opt, tt, fl, e, d, n);
    case TBehind(_, _) => PredicateEnds(t, opt, tt, fl, e, d, n);
    case TSeq(p1, p2) =>
      SeqGen(t, opt, tt, fl, e, true);
      GenEnds(p1, false, tt, SeqFollow(p1, p2, fl, e), e, d, n);
      GenEnds(p2, opt, SeqTest(p1, tt, e), fl, e, d, n);
      AllEndAppend(Gen(p1, false, tt, SeqFollow(p1, p2, fl, e), e, true), Gen(p2, opt, SeqTest(p1, tt, e), fl, e, true));
    case TGrammar(rules) => GrammarEnds(t, opt, tt, fl, e, d, n);
    case TTrue =>
      TrueGen(t, opt, tt, fl, e, true);
      AllEndEmpty();
    case TCall(r, _) =>
      CallGen(t, opt, tt, fl, e, true);
      AllEndUnit(IOpenCall(r));
    case _ =>
      LeafGen(t, opt, tt, fl, e, true);
      LeafNoJump(t, tt);
      AllEndUnit(LeafInstr(t, tt));
  }

  lemma LeafNoJump(t: Tree, tt: Test)
    requires IsCharset(t)
    ensures !LeafInstr(t, tt).IJmp?
  {
  }

  // ------------------------------------------- chains from the start of a rule

  // The rule may be entered by a tail call at the start of a rule that may
  // itself enter 'left' more rules.
  ghost predicate Callable(g: seq<Tree>, r: nat, left: nat, d: nat) {
    left > 0 && r < |g| && VerifyRule(g[r], g, left - 1, false, d, true).Some?
  }

  // Jumps from the start lead to the end (only if the pattern may match the
  // empty string) or to an instruction; if that is a call, it is a left call.
  ghost predicate StartAt(f: seq<Instr>, g: seq<Tree>, left: nat, nullable: bool, d: nat, k: int) {
    && Leads(f, 0, k)
    && (k == |f| ==> nullable)
    && (k != |f| ==> NotJump(f, k) && (f[k].IOpenCall? ==> Callable(g, f[k].rule, left, d)))
  }

  ghost predicate Start(f: seq<Instr>, g: seq<Tree>, left: nat, nullable: bool, d: nat) {
    exists k :: StartAt(f, g, left, nullable, d, k)
  }

  lemma StartStops(x: Instr, f: seq<Instr>, g: seq<Tree>, left: nat, nullable: bool, d: nat)
    requires !x.IJmp? && !x.IOpenCall? && |f| > 0 && f[0] == x
    ensures Start(f, g, left, nullable, d)
  {
    LeadsSelf(f, 0);
    assert StartAt(f, g, left, nullable, d, 0);
  }

  lemma StartExits(f: seq<Instr>, g: seq<Tree>, left: nat, d: nat)
    requires Leads(f, 0, |f|)
    ensures Start(f, g, left, true, d)
  {
    assert StartAt(f, g, left, true, d, |f|);
  }

  // Jumps lead from the start to the part 'b', which is last.
  lemma StartLast(p: seq<Instr>, b: seq<Instr>, g: seq<Tree>, left: nat, n1: bool, n2: bool, d: nat)
    requires Leads(p + b, 0, |p|) && Start(b, g, left, n1, d) && (n1 ==> n2)
    ensures Start(p + b, g, left, n2, d)
  {
    hide Leads, Callable;
    var f := p + b;
    var k :| StartAt(b, g, left, n1, d, k);
    LeadsShift(p, b, [], 0, k);
    assert p + b + [] == f;
    LeadsThen(f, 0, |p|, |p| + k);
    if k < |b| {
      assert f[|p| + k] == b[k];
    }
    assert StartAt(f, g, left, n2, d, |p| + k);
  }

  // The fragment starts with 'b', and 'q' follows.
  lemma StartFirst(b: seq<Instr>, q: seq<Instr>, g: seq<Tree>, left: nat, n1: bool, n2: bool, d: nat)
    requires Start(b, g, left, n1, d) && (n1 ==> Start(q, g, left, n2, d))
    ensures Start(b + q, g, left, n2, d)
  {
    hide Leads, Callable;
    var f := b + q;
    var k :| StartAt(b, g, left, n1, d, k);
    LeadsShift([], b, q, 0, k);
    assert [] + b + q == f;
    if k < |b| {
      assert f[k] == b[k];
      assert StartAt(f, g, left, n2, d, k);
    } else {
      StartLast(b, q, g, left, n2, n2, d);
    }
  }

  lemma StartJump(x: Instr, f: seq<Instr>, k: int)
    requires |f| > 0 && f[0] == x && x == IJmp(k)
    ensures Leads(f, 0, k)
  {
    LeadsSelf(f, k);
    LeadsJump(f, 0, k);
  }

  lemma {:induction false} StartChoice(t: Tree, opt: bool, tt: Test, fl: set<Byte>, e: Env, left: nat, nb: bool, d: nat)
    requires t.TChoice? && WellFormed(t, |e.g|) && Verified(t, d, true) && VerifyRule(t, e.g, left, nb, d, true).Some?
    ensures Start(Gen(t, opt, tt, fl, e, true), e.g, left, VerifyRule(t, e.g, left, nb, d, true) == Some(true), d)
    decreases t, 0, 0
  {
    hide Gen, TestChoice, GetFirst, HeadFail, TestSet, Start, Leads;
    var TChoice(p1, p2) := t;
    var f1 := GetFirst(p1, FULLSET, e.g, e.d);
    var b2 := Gen(p2, opt, None, fl, e, true);
    var nb1 := VerifyRule(p1, e.g, left, nb, d, true).value;
    var n2 := VerifyRule(p2, e.g, left, nb1, d, true) == Some(true);
    StartGen(p2, opt, None, fl, e, left, nb1, d);
    var f := Gen(t, opt, tt, fl, e, true);
    if TestChoice(p1, p2, fl, e) {
      ChoiceTestGen(t, opt, tt, fl, e, true);
      var b1 := Gen(p1, false, Some(TestSet(f1.cs, 0)), fl, e, true);
      var mid := if p2.TTrue? then [] else [IJmp(1 + |b2|)];
      var x := TestSet(f1.cs, 1 + |b1| + |mid|);
      TestOffset(f1.cs, 1 + |b1| + |mid|);
      TestSetClosed(f1.cs, 1 + |b1| + |mid|);
      if x.IJmp? {
        StartJump(x, f, 1 + |b1| + |mid|);
        StartLast([x] + b1 + mid, b2, e.g, left, n2, n2, d);
      } else {
        StartStops(x, f, e.g, left, n2, d);
      }
    } else if opt && p2.TTrue? {
      ReuseGen(t, opt, tt, fl, e, true);
      StartStops(IPartialCommit(1), f, e.g, left, n2, d);
    } else {
      ChoicePointGen(t, opt, tt, fl, e, true);
      var b1 := Gen(p1, p2.TTrue?, TestOf(f1), FULLSET, e, true);
      if f1.e {
        StartStops(IChoice(2 + |b1|), f, e.g, left, n2, d);
      } else {
        var x := TestSet(f1.cs, 3 + |b1|);
        TestOffset(f1.cs, 3 + |b1|);
        TestSetClosed(f1.cs, 3 + |b1|);
        if x.IJmp? {
          StartJump(x, f, 3 + |b1|);
          assert f == ([x] + [IChoice(2 + |b1|)] + b1 + [ICommit(1 + |b2|)]) + b2;
          StartLast([x] + [IChoice(2 + |b1|)] + b1 + [ICommit(1 + |b2|)], b2, e.g, left, n2, n2, d);
        } else {
          StartStops(x, f, e.g, left, n2, d);
        }
      }
    }
  }

  // A fragment that starts with an optional test to its end.
  lemma StartTest(fs: First, off: int, rest: seq<Instr>, g: seq<Tree>, left: nat, d: nat)
    requires |rest| > 0 && !rest[0].IJmp? && !rest[0].IOpenCall?
    requires off == 1 + |rest|
    ensures Start(MaybeTest(fs, off) + rest, g, left, true, d)
  {
    hide Start, Leads;
    var f := MaybeTest(fs, off) + rest;
    if fs.e {
      StartStops(rest[0], f, g, left, true, d);
    } else {
      var x := TestSet(fs.cs, off);
      TestOffset(fs.cs, off);
      TestSetClosed(fs.cs, off);
      if x.IJmp? {
        StartJump(x, f, off);
        StartExits(f, g, left, d);
      } else {
        StartStops(x, f, g, left, true, d);
      }
    }
  }

  lemma StartRep(t: Tree, opt: bool, tt: Test, fl: set<Byte>, e: Env, left: nat, d: nat)
    requires t.TRep?
    ensures Start(Gen(t, opt, tt, fl, e, true), e.g, left, true, d)
  {
    hide Gen, TestRep, GetFirst, HeadFail, TestSet, Start, Leads;
    var f := Gen(t, opt, tt, fl, e, true);
    var fs := GetFirst(t.p, FULLSET, e.g, e.d);
    if IsCharset(t.p) {
      RepGenCharset(t, opt, tt, fl, e, true);
      if t.p.TFalse? {
        LeadsSelf(f, 0);
        StartExits(f, e.g, left, d);
      } else {
        StartStops(f[0], f, e.g, left, true, d);
      }
    } else if TestRep(t.p, fl, e) {
      RepTestGen(t, opt, tt, fl, e, true);
      var b := Gen(t.p, false, Some(TestSet(fs.cs, 0)), FULLSET, e, true);
      var x := TestSet(fs.cs, 2 + |b|);
      TestOffset(fs.cs, 2 + |b|);
      TestSetClosed(fs.cs, 2 + |b|);
      if x.IJmp? {
        StartJump(x, f, 2 + |b|);
        StartExits(f, e.g, left, d);
      } else {
        StartStops(x, f, e.g, left, true, d);
      }
    } else {
      RepPointGen(t, opt, tt, fl, e, true);
      var b := Gen(t.p, false, None, FULLSET, e, true);
      var y := if opt then IPartialCommit(1) else IChoice(2 + |b|);
      StartTest(fs, 3 + |b|, [y] + b + [IPartialCommit(-|b|)], e.g, left, d);
      assert f == MaybeTest(fs, 3 + |b|) + ([y] + b + [IPartialCommit(-|b|)]);
    }
  }

  lemma {:induction false} StartPredicate(t: Tree, opt: bool, tt: Test, fl: set<Byte>, e: Env, left: nat, d: nat)
    requires (t.TNot? || t.TAnd? || t.TBehind?) && WellFormed(t, |e.g|) && Verified(t, d, true)
    requires VerifyRule(t, e.g, left, true, d, true).Some?
    ensures Start(Gen(t, opt, tt, fl, e, true), e.g, left, true, d)
    decreases t, 1, 0
  {
    hide Gen, GetFirst, HeadFail, TestSet, Start, FixedLen, Leads;
    var f := Gen(t, opt, tt, fl, e, true);
    if t.TNot? {
      NotGen(t, opt, tt, fl, e, true);
      var fs := GetFirst(t.p, FULLSET, e.g, e.d);
      var b := Gen(t.p, false, None, FULLSET, e, true);
      if HeadFail(t.p, e.g, e.d) {
        StartTest(fs, 2, [IFail], e.g, left, d);
      } else {
        StartTest(fs, 3 + |b|, [IChoice(2 + |b|)] + b + [IFailTwice], e.g, left, d);
        assert f == MaybeTest(fs, 3 + |b|) + ([IChoice(2 + |b|)] + b + [IFailTwice]);
      }
    } else if t.TAnd? {
      var b := Gen(t.p, false, tt, FULLSET, e, true);
      if 0 <= AndLen(t.p, e) <= MAXBEHIND {
        AndFixedGen(t, opt, tt, fl, e, true);
        StartGen(t.p, false, tt, FULLSET, e, left, true, d);
        var back := if AndLen(t.p, e) > 0 then [IBehind(AndLen(t.p, e))] else [];
        if AndLen(t.p, e) > 0 {
          StartStops(back[0], back, e.g, left, true, d);
        } else {
          LeadsSelf(back, 0);
          StartExits(back, e.g, left, d);
        }
        StartFirst(b, back, e.g, left, VerifyRule(t.p, e.g, left, true, d, true) == Some(true), true, d);
      } else {
        AndGen(t, opt, tt, fl, e, true);
        StartStops(IChoice(2 + |b|), f, e.g, left, true, d);
      }
    } else {
      BehindGen(t, opt, tt, fl, e, true);
      if t.n > 0 {
        StartStops(IBehind(t.n), f, e.g, left, true, d);
      } else {
        var b := Gen(t.p, false, None, FULLSET, e, true);
        assert f == b;
        StartClosed(t.p, b, e, left, d);
      }
    }
  }

  lemma StartClosed(p: Tree, b: seq<Instr>, e: Env, left: nat, d: nat)
    requires WellFormed(p, 0) && Verified(p, d, true) && b == Gen(p, false, None, FULLSET, e, true)
    ensures Start(b, e.g, left, true, d)
    decreases p, if p.TGrammar? then |p.rules| + 4 else 4, 0
  {
    hide Gen, Leads;
    GenEnds(p, false, None, FULLSET, e, d, 0);
    ClosedCalls(p);
    GenCalls(p, false, None, FULLSET, e, true, {});
    assert Ends(b, 0);
    var k :| EndsAt(b, 0, k);
    assert StartAt(b, e.g, left, true, d, k);
  }

  lemma {:induction false} StartGen(t: Tree, opt: bool, tt: Test, fl: set<Byte>, e: Env, left: nat, nb: bool, d: nat)
    requires WellFormed(t, |e.g|) && Verified(t, d, true) && VerifyRule(t, e.g, left, nb, d, true).Some?
    ensures Start(Gen(t, opt, tt, fl, e, true), e.g, left, VerifyRule(t, e.g, left, nb, d, true) == Some(true), d)
    decreases t, 2, 0
  {
    hide Gen, GetFirst, HeadFail, FixedLen, Start, LeafInstr, GenRules, VerifyGrammar, Leads;
    var f := Gen(t, opt, tt, fl, e, true);
    var n := VerifyRule(t, e.g, left, nb, d, true) == Some(true);
    match t
    case TChoice(_, _) => StartChoice(t, opt, tt, fl, e, left, nb, d);
    case TRep(_) => VerifyTrue(t, e.g, left, nb, d); StartRep(t, opt, tt, fl, e, left, d);
    case TNot(_) => VerifyTrue(t, e.g, left, nb, d); StartPredicate(t, opt, tt, fl, e, left, d);
    case TAnd(_) => VerifyTrue(t, e.g, left, nb, d); StartPredicate(t, opt, tt, fl, e, left, d);
    case TBehind(_, _) => StartPredicate(t, opt, tt, fl, e, left, d);
    case TSeq(p1, p2) =>
      SeqGen(t, opt, tt, fl, e, true);
      var v1 := VerifyRule(p1, e.g, left, false, d, true) == Some(true);
      StartGen(p1, false, tt, SeqFollow(p1, p2, fl, e), e, left, false, d);
      if v1 {
        StartGen(p2, opt, SeqTest(p1, tt, e), fl, e, left, nb, d);
      }
      StartFirst(Gen(p1, false, tt, SeqFollow(p1, p2, fl, e), e, true), Gen(p2, opt, SeqTest(p1, tt, e), fl, e, true),
                 e.g, left, v1, n, d);
    case TGrammar(rules) =>
      GrammarGen(t, opt, tt, fl, e, true);
      StartStops(ICall(2), f, e.g, left, n, d);
    case TTrue =>
      TrueGen(t, opt, tt, fl, e, true);
      LeadsSelf(f, 0);
      StartExits(f, e.g, left, d);
    case TCall(r, _) =>
      CallGen(t, opt, tt, fl, e, true);
      VerifyAnyFlag(e.g[r], e.g, left - 1, nb, false, d);
      LeadsSelf(f, 0);
      StartCall(f, e.g, r, left, n, d);
    case _ =>
      LeafGen(t, opt, tt, fl, e, true);
      LeafNoJump(t, tt);
      LeafClosed(t, tt);
      StartStops(LeafInstr(t, tt), f, e.g, left, n, d);
  }

  lemma StartCall(f: seq<Instr>, g: seq<Tree>, r: nat, left: nat, n: bool, d: nat)
    requires f == [IOpenCall(r)] && Callable(g, r, left, d)
    ensures Start(f, g, left, n, d)
  {
    LeadsSelf(f, 0);
    assert StartAt(f, g, left, n, d, 0);
  }

  lemma VerifyTrue(t: Tree, g: seq<Tree>, left: nat, nb: bool, d: nat)
    requires (t.TRep? || t.TNot? || t.TAnd?) && VerifyRule(t, g, left, nb, d, true).Some?
    ensures VerifyRule(t, g, left, nb, d, true) == Some(true) && VerifyRule(t, g, left, true, d, true) == Some(true)
  {
    VerifyKeeps(t.p, g, left, d);
  }

  // --------------------------------------------------- chains through tail calls

  // 'm' is the code 'r' of the rules with some of its open calls closed, by
  // calls or by jumps.
  ghost predicate Mixed(r: Rules, m: seq<Instr>) {
    |m| == |r.code| && forall k {:trigger m[k]} :: 0 <= k < |m| ==>
      m[k] == r.code[k] ||
      (r.code[k].IOpenCall? &&
       var off := RulePos(r.pos, r.code[k].rule) - k; m[k] == ICall(off) || m[k] == IJmp(off))
  }

  lemma MixedLeads(r: Rules, m: seq<Instr>, i: int, k: int)
    requires Mixed(r, m) && Leads(r.code, i, k)
    ensures Leads(m, i, k)
  {
    var n: nat :| JumpsTo(r.code, i, k, n);
    forall j | 0 <= j < |m| && !r.code[j].IOpenCall? ensures m[j] == r.code[j] { }
    JumpsKept(r.code, m, i, k, n);
  }

  ghost predicate RulesOf(t: Tree, e: Env, d: nat, r: Rules) {
    && t.TGrammar? && AllWellFormed(t.rules) && |t.rules| > 0 && e.g == t.rules
    && (forall k :: 0 <= k < |t.rules| ==> Verified(t.rules[k], d, true))
    && VerifyGrammar(t.rules, d, true)
    && r == GenRules(t, |t.rules|, e, true)
  }

  // From a rule that may enter 'left' more rules at its start.
  lemma {:induction false} RuleEnds(t: Tree, e: Env, d: nat, r: Rules, m: seq<Instr>, q: nat, left: nat)
    requires t.TGrammar? && RulesOf(t, e, d, r) && Mixed(r, m)
    requires q < |t.rules| && VerifyRule(t.rules[q], t.rules, left, false, d, true).Some?
    ensures Ends(m, r.pos[q])
    decreases t, |t.rules|, left
  {
    hide Gen, GenRules, Leads, VerifyGrammar, Mixed, AllWellFormed;
    MixedSize(r, m);
    var b := Gen(t.rules[q], false, None, FULLSET, e, true);
    RulesAt(t, |t.rules|, e, true, q);
    var at := r.pos[q];
    RuleInside(r.code, at, b);
    assert t.rules[q] == e.g[q];
    StartGen(t.rules[q], false, None, FULLSET, e, left, false, d) by { WellFormedRule(t, q); }
    var k :| StartAt(b, e.g, left, VerifyRule(t.rules[q], t.rules, left, false, d, true) == Some(true), d, k);
    var p, s := r.code[..at], r.code[at + |b|..];
    assert r.code == p + b + s;
    LeadsShift(p, b, s, 0, k);
    MixedLeads(r, m, at, at + k);
    if k == |b| {
      StopIn(r, m, at + k);
    } else {
      assert r.code[at + k] == b[k];
      if b[k].IOpenCall? && !NotJump(m, at + k) {
        var q' := b[k].rule;
        MixedJump(r, m, at + k);
        RuleEnds(t, e, d, r, m, q', left - 1);
        EndsJump(m, at + k);
      } else {
        StopIn(r, m, at + k);
      }
    }
    EndsThen(m, at, at + k);
  }

  lemma WellFormedRule(t: Tree, q: nat)
    requires t.TGrammar? && AllWellFormed(t.rules) && q < |t.rules|
    ensures WellFormed(t.rules[q], |t.rules|)
  {
  }

  lemma RuleInside(code: seq<Instr>, at: nat, b: seq<Instr>)
    requires at + |b| + 1 <= |code| && code[at..at + |b| + 1] == b + [IRet]
    ensures code == code[..at] + b + code[at + |b|..] && code[at + |b|] == IRet
  {
    assert code[at..at + |b| + 1][|b|] == IRet;
    assert code[at..at + |b|] == (b + [IRet])[..|b|] == b;
  }

  lemma StopIn(r: Rules, m: seq<Instr>, k: int)
    requires Mixed(r, m) && 0 <= k < |m| && (!r.code[k].IOpenCall? ==> !r.code[k].IJmp?)
    requires r.code[k].IOpenCall? ==> NotJump(m, k)
    ensures Ends(m, k)
  {
    assert m[k] == m[k];
    EndsHere(m, k);
    assert EndsAt(m, k, k);
  }

  lemma MixedJump(r: Rules, m: seq<Instr>, k: int)
    requires Mixed(r, m) && 0 <= k < |m| && r.code[k].IOpenCall? && m[k].IJmp?
    ensures k + m[k].off == RulePos(r.pos, r.code[k].rule)
  {
  }

  lemma {:induction false} RulesAllEnd(t: Tree, k: nat, e: Env, d: nat, n: nat)
    requires t.TGrammar? && k <= |t.rules|
    requires forall q :: 0 <= q < |t.rules| ==> WellFormed(t.rules[q], n) && Verified(t.rules[q], d, true)
    ensures AllEnd(GenRules(t, k, e, true).code)
    decreases t, k, 0
  {
    hide Gen, AllEnd;
    if k == 0 {
      AllEndEmpty();
    } else {
      RulesAllEnd(t, k - 1, e, d, n);
      var b := Gen(t.rules[k - 1], false, None, FULLSET, e, true);
      GenEnds(t.rules[k - 1], false, None, FULLSET, e, d, n);
      AllEndUnit(IRet);
      AllEndAppend(GenRules(t, k - 1, e, true).code, b);
      AllEndAppend(GenRules(t, k - 1, e, true).code + b, [IRet]);
    }
  }

  // Every chain of jumps ends, while 'correctcalls' is at work and after it.
  lemma MixedEnds(t: Tree, e: Env, d: nat, r: Rules, m: seq<Instr>)
    requires t.TGrammar? && RulesOf(t, e, d, r) && Mixed(r, m) && AllEnd(r.code)
    ensures AllEnd(m)
    decreases t, |t.rules| + 1, 0
  {
    hide Gen, GenRules, Leads, VerifyGrammar, Mixed, Used, AllWellFormed, VerifyRule;
    RulesCalls(t, |t.rules|, e, true);
    UsedInRange(t.rules);
    MixedSize(r, m);
    forall i | 0 <= i <= |m| ensures Ends(m, i) {
      assert Ends(r.code, i);
      var k :| EndsAt(r.code, i, k);
      MixedLeads(r, m, i, k);
      if k == |m| {
        EndsHere(m, k);
      } else if r.code[k].IOpenCall? && !NotJump(m, k) {
        var q := r.code[k].rule;
        MixedJump(r, m, k);
        UsedVerified(t, d, q);
        RuleEnds(t, e, d, r, m, q, MAXRULES);
        EndsJump(m, k);
      } else {
        StopIn(r, m, k);
      }
      EndsThen(m, i, k);
    }
  }

  lemma MixedSize(r: Rules, m: seq<Instr>)
    requires Mixed(r, m)
    ensures |m| == |r.code|
  {
  }

  lemma UsedVerified(t: Tree, d: nat, q: nat)
    requires t.TGrammar? && VerifyGrammar(t.rules, d, true) && q in Used(t.rules) && q < |t.rules|
    ensures VerifyRule(t.rules[q], t.rules, MAXRULES, false, d, true).Some?
  {
  }

  lemma {:induction false} GrammarEnds(t: Tree, opt: bool, tt: Test, fl: set<Byte>, e: Env, d: nat, n: nat)
    requires t.TGrammar? && WellFormed(t, n) && Verified(t, d, true)
    ensures AllEnd(Gen(t, opt, tt, fl, e, true))
    decreases t, |t.rules| + 2, 0
  {
    hide Gen, GenRules, AllEnd, VerifyGrammar;
    var e' := Env(t.rules, e.d, e.ids);
    var r := GenRules(t, |t.rules|, e', true);
    var m := CorrectCalls(r.code, r.pos, 0);
    GrammarGen(t, opt, tt, fl, e, true);
    RulesAllEnd(t, |t.rules|, e', d, |t.rules|);
    CorrectCallsShape(r.code, r.pos, 0);
    MixedEnds(t, e', d, r, m);
    AllEndEmpty();
    var x := IJmp(1 + |r.code|);
    ForwardEnds(x, m, [], []);
    assert [x] + m + [] + [] == [x] + m;
    AllEndUnit(ICall(2));
    AllEndAppend([ICall(2)], [x] + m);
  }
}
