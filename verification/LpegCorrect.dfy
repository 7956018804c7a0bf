// Correctness of the generated code: running it has the outcome that the
// meaning of the pattern prescribes, whatever the choice points that the
// compiler left out.

module LpegCorrect {
  import opened LpegTree
  import opened LpegAnalysis
  import opened LpegVm
  import opened LpegGen
  import opened LpegVerify

  // ------------------------------------------------------- fragments of code

  predicate MatchInstr(c: Instr, f: Instr, at: int, rp: seq<int>) {
    if f.IOpenCall? then f.rule < |rp| && c == ICall(rp[f.rule] - at) else c == f
  }

  // 'frag' lies at 'pc', with its open calls closed to the rule addresses 'rp'.
  ghost predicate FragAt(code: seq<Instr>, pc: int, frag: seq<Instr>, rp: seq<int>)
    decreases |frag|
  {
    && 0 <= pc <= |code|
    && (frag == [] ||
        (pc < |code| && MatchInstr(code[pc], frag[0], pc, rp) && FragAt(code, pc + 1, frag[1..], rp)))
  }

  lemma {:induction false} FragLen(code: seq<Instr>, pc: int, a: seq<Instr>, rp: seq<int>)
    requires FragAt(code, pc, a, rp)
    ensures 0 <= pc && pc + |a| <= |code|
    decreases |a|
  {
    if a != [] {
      FragLen(code, pc + 1, a[1..], rp);
    }
  }

  lemma {:induction false} FragSplit(code: seq<Instr>, pc: int, a: seq<Instr>, b: seq<Instr>, rp: seq<int>)
    requires FragAt(code, pc, a + b, rp)
    ensures FragAt(code, pc, a, rp) && FragAt(code, pc + |a|, b, rp)
    decreases |a|
  {
    if a == [] {
      assert a + b == b;
    } else {
      assert (a + b)[1..] == a[1..] + b;
      FragSplit(code, pc + 1, a[1..], b, rp);
    }
  }

  lemma Frag4(code: seq<Instr>, pc: int, a: seq<Instr>, b: seq<Instr>, c: seq<Instr>, d: seq<Instr>, rp: seq<int>)
    requires FragAt(code, pc, a + b + c + d, rp)
    ensures FragAt(code, pc, a, rp) && FragAt(code, pc + |a|, b, rp)
    ensures FragAt(code, pc + |a| + |b|, c, rp) && FragAt(code, pc + |a| + |b| + |c|, d, rp)
    ensures 0 <= pc && pc + |a| + |b| + |c| + |d| <= |code|
  {
    FragSplit(code, pc, a + b + c, d, rp);
    FragSplit(code, pc, a + b, c, rp);
    FragSplit(code, pc, a, b, rp);
    FragLen(code, pc + |a| + |b| + |c|, d, rp);
  }

  lemma FragHead(code: seq<Instr>, pc: int, i: Instr, a: seq<Instr>, rp: seq<int>)
    requires FragAt(code, pc, [i] + a, rp) && !i.IOpenCall?
    ensures 0 <= pc < |code| && code[pc] == i && FragAt(code, pc + 1, a, rp)
  {
    FragSplit(code, pc, [i], a, rp);
    assert [i][0] == i;
  }

  lemma FragUnit(code: seq<Instr>, pc: int, i: Instr, rp: seq<int>)
    requires FragAt(code, pc, [i], rp) && !i.IOpenCall?
    ensures 0 <= pc < |code| && code[pc] == i
  {
    assert [i][0] == i;
  }

  // A program, its subject, and the grammar whose rules have code at 'rp'.
  datatype Ctx = Ctx(code: seq<Instr>, s: seq<Byte>, e: Env, rp: seq<int>) {
    ghost predicate Ok() {
      && AllWellFormed(e.g)
      && |rp| == |e.g|
      && forall r {:trigger rp[r]} :: 0 <= r < |e.g| ==>
           FragAt(code, rp[r], Gen(e.g[r], false, None, FULLSET, e, false) + [IRet], rp)
    }

    ghost predicate Goes(c: Config, c': Config) { Reach(code, s, c, c') }
  }

  // The dominating test has accepted the current position.
  predicate TestHolds(tt: Test, s: seq<Byte>, i: nat) {
    tt.Some? ==>
      i < |s| &&
      match tt.value
      case ITestChar(c, _) => s[i] == c
      case ITestSet(cs, _) => s[i] in cs
      case _ => true
  }

  // What running a fragment that ends at 'end' may do when its pattern yields
  // 'r'.  A success may also show as an early failure, provided the next byte
  // cannot start what follows; and inside an optional pattern as a jump to the
  // pending choice, which stands for the same success.
  ghost predicate Outcome(x: Ctx, c: Config, end: int, r: Result, opt: bool, fl: set<Byte>, st: Stack) {
    match r
    case Fail => x.Goes(c, FailTo(st))
    case Succ(j) =>
      if opt then
        st.Choice? && (x.Goes(c, Run(st.pc, j, st.rest)) || exists k: nat :: x.Goes(c, Run(end, j, st.(pos := k))))
      else
        x.Goes(c, Run(end, j, st)) || (j < |x.s| && x.s[j] !in fl && x.Goes(c, FailTo(st)))
  }

  lemma Prefix(x: Ctx, c: Config, c': Config, end: int, r: Result, opt: bool, fl: set<Byte>, st: Stack)
    requires x.Goes(c, c') && Outcome(x, c', end, r, opt, fl, st)
    ensures Outcome(x, c, end, r, opt, fl, st)
  {
    forall a | x.Goes(c', a) ensures x.Goes(c, a) {
      ReachTrans(x.code, x.s, c, c', a);
    }
  }

  lemma Suffix(x: Ctx, c: Config, c': Config, c'': Config)
    requires x.Goes(c, c') && x.Goes(c', c'')
    ensures x.Goes(c, c'')
  {
    ReachTrans(x.code, x.s, c, c', c'');
  }

  // A code position one step away.
  lemma One(x: Ctx, c: Config)
    ensures x.Goes(c, Step(x.code, x.s, c))
  {
    ReachOne(x.code, x.s, c);
  }

  lemma Refl(x: Ctx, c: Config)
    ensures x.Goes(c, c)
  {
    ReachRefl(x.code, x.s, c);
  }

  // The test for 'cs' at 'pc' goes on exactly at a byte of 'cs'.
  lemma TestStep(x: Ctx, pc: int, cs: set<Byte>, off: int, i: nat, st: Stack)
    requires 0 <= pc < |x.code| && x.code[pc] == TestSet(cs, off)
    ensures x.Goes(Run(pc, i, st), Run(if i < |x.s| && x.s[i] in cs then pc + 1 else pc + off, i, st))
    ensures i < |x.s| && x.s[i] in cs ==> TestHolds(Some(TestSet(cs, 0)), x.s, i)
  {
    One(x, Run(pc, i, st));
    FirstBytes(cs);
    if cs != {} && cs != FULLSET && exists c: Byte | 0 <= c < 256 :: cs == {c} {
      var c: Byte :| 0 <= c < 256 && cs == {c};
      assert TestSet(cs, off) == ITestChar(c, off);
      assert TestSet(cs, 0) == ITestChar(c, 0);
    }
  }

  // ------------------------------------------------------------- simulation

  ghost predicate Pre(x: Ctx, t: Tree, opt: bool, tt: Test, fl: set<Byte>, pc: int, i: nat, st: Stack, f: nat) {
    && x.Ok() && i <= |x.s|
    && WellFormed(t, |x.e.g|)
    && FragAt(x.code, pc, Gen(t, opt, tt, fl, x.e, false), x.rp)
    && Eval(t, x.e.g, x.s, i, f).Some?
    && TestHolds(tt, x.s, i)
    && (opt ==> fl == FULLSET && st.Choice?)
  }

  ghost predicate Post(x: Ctx, t: Tree, opt: bool, tt: Test, fl: set<Byte>, pc: int, i: nat, st: Stack, f: nat)
    requires Pre(x, t, opt, tt, fl, pc, i, st, f)
  {
    Outcome(x, Run(pc, i, st), pc + |Gen(t, opt, tt, fl, x.e, false)|, Eval(t, x.e.g, x.s, i, f).value, opt, fl, st)
  }

  // An early failure of 'p1' is justified when what follows cannot go on.
  lemma SeqRun(x: Ctx, c: Config, mid: int, end: int, r1: Result, r2: Result, fl1: set<Byte>, opt: bool, fl: set<Byte>, st: Stack)
    requires Outcome(x, c, mid, r1, false, fl1, st)
    requires opt ==> fl == FULLSET
    requires r1.Succ? && x.Goes(c, Run(mid, r1.pos, st)) ==> Outcome(x, Run(mid, r1.pos, st), end, r2, opt, fl, st)
    requires r1.Succ? && r1.pos < |x.s| && x.s[r1.pos] !in fl1 ==> r2.Fail? || (r2 == Succ(r1.pos) && x.s[r1.pos] !in fl)
    requires r1.Fail? ==> r2.Fail?
    ensures Outcome(x, c, end, r2, opt, fl, st)
  {
    if r1.Succ? && x.Goes(c, Run(mid, r1.pos, st)) {
      Prefix(x, c, Run(mid, r1.pos, st), end, r2, opt, fl, st);
    }
  }

  lemma {:induction false} SimSeq(x: Ctx, t: Tree, opt: bool, tt: Test, fl: set<Byte>, pc: int, i: nat, st: Stack, f: nat)
    requires t.TSeq? && Pre(x, t, opt, tt, fl, pc, i, st, f)
    ensures Post(x, t, opt, tt, fl, pc, i, st, f)
    decreases f, t, 0
  {
    hide Gen, GetFirst, HeadFail, FixedLen, TestSet, FragAt, Reach, Outcome, SeqFollow;
    var TSeq(p1, p2) := t;
    var fl1 := SeqFollow(p1, p2, fl, x.e);
    var tt2 := SeqTest(p1, tt, x.e);
    var b1 := Gen(p1, false, tt, fl1, x.e, false);
    var b2 := Gen(p2, opt, tt2, fl, x.e, false);
    SeqGen(t, opt, tt, fl, x.e, false);
    FragSplit(x.code, pc, b1, b2, x.rp);
    Sim(x, p1, false, tt, fl1, pc, i, st, f);
    var r1 := Eval(p1, x.e.g, x.s, i, f).value;
    if r1.Succ? {
      var j := r1.pos;
      if x.Goes(Run(pc, i, st), Run(pc + |b1|, j, st)) {
        if tt2.Some? {
          FixedLenSound(p1, x.e.g, x.e.ids, x.s, i, f);
        }
        Sim(x, p2, opt, tt2, fl, pc + |b1|, j, st, f);
      }
      SeqEarly(x, p1, p2, fl, j, f);
    }
    var r2 := if r1.Fail? then r1 else Eval(p2, x.e.g, x.s, r1.pos, f).value;
    SeqRun(x, Run(pc, i, st), pc + |b1|, pc + |b1| + |b2|, r1, r2, fl1, opt, fl, st);
  }

  lemma SeqEarly(x: Ctx, p1: Tree, p2: Tree, fl: set<Byte>, j: nat, f: nat)
    requires j <= |x.s| && Eval(p2, x.e.g, x.s, j, f).Some?
    ensures j < |x.s| && x.s[j] !in SeqFollow(p1, p2, fl, x.e) ==>
      var r2 := Eval(p2, x.e.g, x.s, j, f).value;
      r2.Fail? || (r2 == Succ(j) && x.s[j] !in fl)
  {
    if j < |x.s| && x.s[j] !in SeqFollow(p1, p2, fl, x.e) {
      FirstRefutes(p2, fl, x.e.g, x.e.d, x.s, j, f);
    }
  }

  // Reaching the end of the fragment with the stack as it was.
  lemma Exact(x: Ctx, c: Config, end: int, j: nat, opt: bool, fl: set<Byte>, st: Stack)
    requires x.Goes(c, Run(end, j, st)) && (opt ==> st.Choice?)
    ensures Outcome(x, c, end, Succ(j), opt, fl, st)
  {
    if opt {
      assert st == st.(pos := st.pos);
    }
  }

  lemma ToEnd(x: Ctx, c: Config, pc: int, end: int, j: nat, opt: bool, fl: set<Byte>, st: Stack)
    requires x.Goes(c, Run(pc, j, st)) && (opt ==> st.Choice?)
    requires Step(x.code, x.s, Run(pc, j, st)) == Run(end, j, st)
    ensures Outcome(x, c, end, Succ(j), opt, fl, st)
  {
    One(x, Run(pc, j, st));
    Suffix(x, c, Run(pc, j, st), Run(end, j, st));
    Exact(x, c, end, j, opt, fl, st);
  }

  lemma SimLeaf(x: Ctx, t: Tree, opt: bool, tt: Test, fl: set<Byte>, pc: int, i: nat, st: Stack, f: nat)
    requires t.TTrue? || IsCharset(t)
    requires Pre(x, t, opt, tt, fl, pc, i, st, f)
    ensures Post(x, t, opt, tt, fl, pc, i, st, f)
  {
    hide Gen, GetFirst, HeadFail, FixedLen, Ids, TestSet, FragAt, Reach, Outcome, Ctx.Ok, MaybeTest;
    var c := Run(pc, i, st);
    if t.TTrue? {
      TrueGen(t, opt, tt, fl, x.e, false);
      Refl(x, c);
      Exact(x, c, pc, i, opt, fl, st);
    } else {
      LeafGen(t, opt, tt, fl, x.e, false);
      FragUnit(x.code, pc, LeafInstr(t, tt), x.rp);
      One(x, c);
      if Eval(t, x.e.g, x.s, i, f).value.Succ? {
        Exact(x, c, pc + 1, i + 1, opt, fl, st);
      } else {
        FailOutcome(x, c, pc + 1, opt, fl, st);
      }
    }
  }

  // A failed test for the first set of 'p' means that 'p' fails.
  lemma TestRefutes(x: Ctx, p: Tree, i: nat, f: nat)
    requires i <= |x.s| && Eval(p, x.e.g, x.s, i, f).Some?
    requires HeadFail(p, x.e.g, x.e.d) || !GetFirst(p, FULLSET, x.e.g, x.e.d).e
    requires !(i < |x.s| && x.s[i] in GetFirst(p, FULLSET, x.e.g, x.e.d).cs)
    ensures Eval(p, x.e.g, x.s, i, f) == Some(Fail)
  {
    if HeadFail(p, x.e.g, x.e.d) {
      HeadFailEnd(p, FULLSET, x.e.g, x.e.d);
    }
    if i == |x.s| {
      FirstEndSound(p, FULLSET, x.e.g, x.e.d, x.s, f);
    } else {
      FirstRefutes(p, FULLSET, x.e.g, x.e.d, x.s, i, f);
    }
  }

  lemma NotBoth(b: Byte, cs: set<Byte>, cs': set<Byte>)
    requires Disjoint(cs, cs') && b in cs
    ensures b !in cs'
  {
    assert b in cs' ==> b in cs * cs';
  }

  // --- choice without a choice point

  // The run of a choice decided by a test, when its parts yield r1 and r2.
  lemma ChoiceTestRun(x: Ctx, pc: int, cs: set<Byte>, n1: nat, jump: bool, n2: nat, i: nat, st: Stack,
                      r1: Result, r2: Result, opt: bool, fl: set<Byte>)
    requires var l1 := pc + 1 + n1 + (if jump then 1 else 0);
      && 0 <= pc && l1 <= |x.code| && i <= |x.s| && pc < |x.code|
      && x.code[pc] == TestSet(cs, l1 - pc)
      && (jump ==> x.code[l1 - 1] == IJmp(1 + n2))
      && (!jump ==> n2 == 0)
      && (opt ==> fl == FULLSET && st.Choice?)
      && (if i < |x.s| && x.s[i] in cs then
            && Outcome(x, Run(pc + 1, i, st), pc + 1 + n1, r1, false, fl, st)
            && (r1.Fail? ==> r2.Fail? || (r2 == Succ(i) && x.s[i] !in fl))
          else
            r1.Fail? && Outcome(x, Run(l1, i, st), l1 + n2, r2, opt, fl, st))
    ensures Outcome(x, Run(pc, i, st), pc + 1 + n1 + (if jump then 1 else 0) + n2, if r1.Succ? then r1 else r2, opt, fl, st)
  {
    var c := Run(pc, i, st);
    var l1 := pc + 1 + n1 + (if jump then 1 else 0);
    TestStep(x, pc, cs, l1 - pc, i, st);
    if i < |x.s| && x.s[i] in cs {
      Prefix(x, c, Run(pc + 1, i, st), pc + 1 + n1, r1, false, fl, st);
      if r1.Succ? && x.Goes(c, Run(pc + 1 + n1, r1.pos, st)) {
        if jump {
          ToEnd(x, c, l1 - 1, l1 + n2, r1.pos, opt, fl, st);
        } else {
          Exact(x, c, l1, r1.pos, opt, fl, st);
        }
      }
    } else {
      Prefix(x, c, Run(l1, i, st), l1 + n2, r2, opt, fl, st);
    }
  }

  lemma ChoiceTestCode(x: Ctx, t: Tree, opt: bool, tt: Test, fl: set<Byte>, pc: int)
    requires t.TChoice? && TestChoice(t.p1, t.p2, fl, x.e)
    requires FragAt(x.code, pc, Gen(t, opt, tt, fl, x.e, false), x.rp)
    ensures
      var f1 := GetFirst(t.p1, FULLSET, x.e.g, x.e.d);
      var b1 := Gen(t.p1, false, Some(TestSet(f1.cs, 0)), fl, x.e, false);
      var b2 := Gen(t.p2, opt, None, fl, x.e, false);
      var l1 := pc + 1 + |b1| + (if t.p2.TTrue? then 0 else 1);
      && 0 <= pc < |x.code| && l1 <= |x.code|
      && x.code[pc] == TestSet(f1.cs, l1 - pc)
      && FragAt(x.code, pc + 1, b1, x.rp)
      && (if t.p2.TTrue? then |b2| == 0 else x.code[l1 - 1] == IJmp(1 + |b2|))
      && FragAt(x.code, l1, b2, x.rp)
      && |Gen(t, opt, tt, fl, x.e, false)| == l1 + |b2| - pc
  {
    hide *;
    var f1 := GetFirst(t.p1, FULLSET, x.e.g, x.e.d);
    var b1 := Gen(t.p1, false, Some(TestSet(f1.cs, 0)), fl, x.e, false);
    var b2 := Gen(t.p2, opt, None, fl, x.e, false);
    var mid := if t.p2.TTrue? then [] else [IJmp(1 + |b2|)];
    ChoiceTestGen(t, opt, tt, fl, x.e, false);
    TrueGen(t.p2, opt, None, fl, x.e, false);
    var test := TestSet(f1.cs, 1 + |b1| + |mid|);
    Frag4(x.code, pc, [test], b1, mid, b2, x.rp);
    TestSetClosed(f1.cs, 1 + |b1| + |mid|);
    FragUnit(x.code, pc, test, x.rp);
    if !t.p2.TTrue? {
      FragUnit(x.code, pc + 1 + |b1|, IJmp(1 + |b2|), x.rp);
    }
  }

  lemma TestSetClosed(cs: set<Byte>, off: int)
    ensures !TestSet(cs, off).IOpenCall?
  {
  }

  lemma {:induction false} SimChoiceTest(x: Ctx, t: Tree, opt: bool, tt: Test, fl: set<Byte>, pc: int, i: nat, st: Stack, f: nat)
    requires t.TChoice? && TestChoice(t.p1, t.p2, fl, x.e) && Pre(x, t, opt, tt, fl, pc, i, st, f)
    ensures Post(x, t, opt, tt, fl, pc, i, st, f)
    decreases f, t, 0
  {
    hide Gen, GetFirst, HeadFail, FixedLen, Ids, TestSet, FragAt, Reach, Outcome, Ctx.Ok, MaybeTest, SpanEnd, CheckAux, Step, FailTo;
    var TChoice(p1, p2) := t;
    var g, s := x.e.g, x.s;
    var f1 := GetFirst(p1, FULLSET, g, x.e.d);
    var test := TestSet(f1.cs, 0);
    var n1 := |Gen(p1, false, Some(test), fl, x.e, false)|;
    var n2 := |Gen(p2, opt, None, fl, x.e, false)|;
    var l1 := pc + 1 + n1 + (if p2.TTrue? then 0 else 1);
    ChoiceTestCode(x, t, opt, tt, fl, pc);
    TestStep(x, pc, f1.cs, l1 - pc, i, st);
    var r1 := Eval(p1, g, s, i, f).value;
    if i < |s| && s[i] in f1.cs {
      Sim(x, p1, false, Some(test), fl, pc + 1, i, st, f);
      if r1.Fail? {
        if HeadFail(p1, g, x.e.d) {
          HeadFailSound(p1, g, x.e.d, s, i, f);
        } else {
          NotBoth(s[i], f1.cs, GetFirst(p2, fl, g, x.e.d).cs);
          FirstRefutes(p2, fl, g, x.e.d, s, i, f);
        }
      }
    } else {
      TestRefutes(x, p1, i, f);
      Sim(x, p2, opt, None, fl, l1, i, st, f);
    }
    var r2 := if r1.Succ? then r1 else Eval(p2, g, s, i, f).value;
    ChoiceTestRun(x, pc, f1.cs, n1, !p2.TTrue?, n2, i, st, r1, r2, opt, fl);
  }

  // --- 'p1 / true' that reuses the pending choice

  lemma ReuseRun(x: Ctx, pc: int, n1: nat, i: nat, st: Stack, r1: Result)
    requires 0 <= pc < |x.code| && x.code[pc] == IPartialCommit(1) && st.Choice?
    requires Outcome(x, Run(pc + 1, i, st.(pos := i)), pc + 1 + n1, r1, true, FULLSET, st.(pos := i))
    ensures Outcome(x, Run(pc, i, st), pc + 1 + n1, if r1.Succ? then r1 else Succ(i), true, FULLSET, st)
  {
    One(x, Run(pc, i, st));
    Prefix(x, Run(pc, i, st), Run(pc + 1, i, st.(pos := i)), pc + 1 + n1, r1, true, FULLSET, st.(pos := i));
    forall k: nat ensures st.(pos := i).(pos := k) == st.(pos := k) { }
  }

  lemma {:induction false} SimChoiceReuse(x: Ctx, t: Tree, opt: bool, tt: Test, fl: set<Byte>, pc: int, i: nat, st: Stack, f: nat)
    requires t.TChoice? && !TestChoice(t.p1, t.p2, fl, x.e) && opt && t.p2.TTrue?
    requires Pre(x, t, opt, tt, fl, pc, i, st, f)
    ensures Post(x, t, opt, tt, fl, pc, i, st, f)
    decreases f, t, 0
  {
    hide Gen, GetFirst, HeadFail, FixedLen, Ids, TestSet, FragAt, Reach, Outcome, Ctx.Ok, MaybeTest, SpanEnd, CheckAux, Step, FailTo;
    var b1 := Gen(t.p1, true, None, FULLSET, x.e, false);
    ReuseGen(t, opt, tt, fl, x.e, false);
    FragHead(x.code, pc, IPartialCommit(1), b1, x.rp);
    Sim(x, t.p1, true, None, FULLSET, pc + 1, i, st.(pos := i), f);
    assert Eval(t.p2, x.e.g, x.s, i, f) == Some(Succ(i));
    ReuseRun(x, pc, |b1|, i, st, Eval(t.p1, x.e.g, x.s, i, f).value);
  }

  // --- choice with a choice point

  // The run of a choice with an entry on the stack.
  lemma ChoicePointRun(x: Ctx, pc: int, n1: nat, n2: nat, i: nat, st: Stack, r1: Result, r2: Result,
                       opt1: bool, opt: bool, fl: set<Byte>)
    requires var l1 := pc + 2 + n1;
      && 0 <= pc && l1 <= |x.code| && i <= |x.s|
      && x.code[pc] == IChoice(2 + n1) && x.code[l1 - 1] == ICommit(1 + n2)
      && (opt ==> fl == FULLSET && st.Choice?)
      && (opt1 ==> n2 == 0)
      && Outcome(x, Run(pc + 1, i, Choice(l1, i, st)), pc + 1 + n1, r1, opt1, FULLSET, Choice(l1, i, st))
      && (r1.Fail? ==> Outcome(x, Run(l1, i, st), l1 + n2, r2, opt, fl, st))
    ensures Outcome(x, Run(pc, i, st), pc + 2 + n1 + n2, if r1.Succ? then r1 else r2, opt, fl, st)
  {
    var l1 := pc + 2 + n1;
    var c, cst := Run(pc, i, st), Choice(l1, i, st);
    One(x, c);
    Prefix(x, c, Run(pc + 1, i, cst), pc + 1 + n1, r1, opt1, FULLSET, cst);
    match r1
    case Succ(j) =>
      if opt1 && x.Goes(c, Run(l1, j, st)) {
        Exact(x, c, l1, j, opt, fl, st);
      } else {
        var k: nat := cst.pos;
        if opt1 {
          k :| x.Goes(c, Run(pc + 1 + n1, j, cst.(pos := k)));
        }
        var pre := Run(pc + 1 + n1, j, cst.(pos := k));
        One(x, pre);
        Suffix(x, c, pre, Run(l1 + n2, j, st));
        Exact(x, c, l1 + n2, j, opt, fl, st);
      }
    case Fail =>
      Prefix(x, c, Run(l1, i, st), l1 + n2, r2, opt, fl, st);
  }

  // A test in front of a fragment that starts right after it, or is skipped.
  lemma MaybeTestRun(x: Ctx, pc: int, fs: First, off: int, i: nat, st: Stack, end: int, r: Result, opt: bool, fl: set<Byte>)
    requires 0 <= pc && i <= |x.s|
    requires !fs.e ==> pc < |x.code| && x.code[pc] == TestSet(fs.cs, off)
    requires
      if fs.e then Outcome(x, Run(pc, i, st), end, r, opt, fl, st)
      else if i < |x.s| && x.s[i] in fs.cs then Outcome(x, Run(pc + 1, i, st), end, r, opt, fl, st)
      else Outcome(x, Run(pc + off, i, st), end, r, opt, fl, st)
    ensures Outcome(x, Run(pc, i, st), end, r, opt, fl, st)
  {
    if !fs.e {
      TestStep(x, pc, fs.cs, off, i, st);
      Prefix(x, Run(pc, i, st), Run(if i < |x.s| && x.s[i] in fs.cs then pc + 1 else pc + off, i, st), end, r, opt, fl, st);
    }
  }

  lemma ChoicePointCode(x: Ctx, t: Tree, opt: bool, tt: Test, fl: set<Byte>, pc: int)
    requires t.TChoice? && !TestChoice(t.p1, t.p2, fl, x.e) && !(opt && t.p2.TTrue?)
    requires FragAt(x.code, pc, Gen(t, opt, tt, fl, x.e, false), x.rp)
    ensures
      var f1 := GetFirst(t.p1, FULLSET, x.e.g, x.e.d);
      var b1 := Gen(t.p1, t.p2.TTrue?, TestOf(f1), FULLSET, x.e, false);
      var b2 := Gen(t.p2, opt, None, fl, x.e, false);
      var pc0 := pc + if f1.e then 0 else 1;
      var l1 := pc0 + 2 + |b1|;
      && 0 <= pc && l1 <= |x.code|
      && (!f1.e ==> x.code[pc] == TestSet(f1.cs, 3 + |b1|))
      && x.code[pc0] == IChoice(2 + |b1|)
      && FragAt(x.code, pc0 + 1, b1, x.rp)
      && x.code[l1 - 1] == ICommit(1 + |b2|)
      && FragAt(x.code, l1, b2, x.rp)
      && (t.p2.TTrue? ==> |b2| == 0)
      && |Gen(t, opt, tt, fl, x.e, false)| == l1 + |b2| - pc
  {
    hide *;
    var f1 := GetFirst(t.p1, FULLSET, x.e.g, x.e.d);
    var b1 := Gen(t.p1, t.p2.TTrue?, TestOf(f1), FULLSET, x.e, false);
    var b2 := Gen(t.p2, opt, None, fl, x.e, false);
    var m := MaybeTest(f1, 3 + |b1|);
    ChoicePointGen(t, opt, tt, fl, x.e, false);
    TrueGen(t.p2, opt, None, fl, x.e, false);
    Frag4(x.code, pc, m, [IChoice(2 + |b1|)], b1, [ICommit(1 + |b2|)] + b2, x.rp);
    MaybeTestAt(x.code, pc, f1, 3 + |b1|, x.rp);
    FragUnit(x.code, pc + |m|, IChoice(2 + |b1|), x.rp);
    FragHead(x.code, pc + |m| + 1 + |b1|, ICommit(1 + |b2|), b2, x.rp);
  }

  lemma MaybeTestAt(code: seq<Instr>, pc: int, fs: First, off: int, rp: seq<int>)
    requires FragAt(code, pc, MaybeTest(fs, off), rp)
    ensures |MaybeTest(fs, off)| == if fs.e then 0 else 1
    ensures 0 <= pc && (!fs.e ==> pc < |code| && code[pc] == TestSet(fs.cs, off))
  {
    if !fs.e {
      TestSetClosed(fs.cs, off);
      FragUnit(code, pc, TestSet(fs.cs, off), rp);
    }
  }

  lemma {:induction false} SimChoicePoint(x: Ctx, t: Tree, opt: bool, tt: Test, fl: set<Byte>, pc: int, i: nat, st: Stack, f: nat)
    requires t.TChoice? && !TestChoice(t.p1, t.p2, fl, x.e) && !(opt && t.p2.TTrue?)
    requires Pre(x, t, opt, tt, fl, pc, i, st, f)
    ensures Post(x, t, opt, tt, fl, pc, i, st, f)
    decreases f, t, 0
  {
    hide Gen, GetFirst, HeadFail, FixedLen, Ids, TestSet, FragAt, Reach, Outcome, Ctx.Ok, MaybeTest, SpanEnd, CheckAux, Step, FailTo;
    var TChoice(p1, p2) := t;
    var g, s := x.e.g, x.s;
    var f1 := GetFirst(p1, FULLSET, g, x.e.d);
    var n1 := |Gen(p1, p2.TTrue?, TestOf(f1), FULLSET, x.e, false)|;
    var n2 := |Gen(p2, opt, None, fl, x.e, false)|;
    var pc0 := pc + if f1.e then 0 else 1;
    var l1 := pc0 + 2 + n1;
    ChoicePointCode(x, t, opt, tt, fl, pc);
    var r1 := Eval(p1, g, s, i, f).value;
    if r1.Fail? {
      Sim(x, p2, opt, None, fl, l1, i, st, f);
    }
    var r2 := if r1.Succ? then r1 else Eval(p2, g, s, i, f).value;
    if f1.e || (i < |s| && s[i] in f1.cs) {
      if !f1.e {
        TestStep(x, pc, f1.cs, 3 + n1, i, st);
      }
      Sim(x, p1, p2.TTrue?, TestOf(f1), FULLSET, pc0 + 1, i, Choice(l1, i, st), f);
      ChoicePointRun(x, pc0, n1, n2, i, st, r1, r2, p2.TTrue?, opt, fl);
    } else {
      TestRefutes(x, p1, i, f);
    }
    MaybeTestRun(x, pc, f1, 3 + n1, i, st, l1 + n2, r2, opt, fl);
  }

  // --- repetition

  lemma {:induction false} SpanEval(cs: set<Byte>, g: seq<Tree>, s: seq<Byte>, i: nat, f: nat)
    requires i <= |s| && Eval(TRep(TSet(cs)), g, s, i, f).Some?
    ensures Eval(TRep(TSet(cs)), g, s, i, f) == Some(Succ(SpanEnd(cs, s, i)))
    decreases f
  {
    assert Eval(TSet(cs), g, s, i, f).Some?;
    if i < |s| && s[i] in cs {
      SpanEval(cs, g, s, i + 1, f - 1);
    }
  }

  // One round of a repetition decided by a test.
  lemma TestLoopRun(x: Ctx, pc: int, cs: set<Byte>, n: nat, i: nat, st: Stack, r1: Result, r: Result, opt: bool, fl: set<Byte>)
    requires 0 <= pc && pc + 1 + n < |x.code| && i <= |x.s|
    requires x.code[pc] == TestSet(cs, 2 + n) && x.code[pc + 1 + n] == IJmp(-1 - n)
    requires opt ==> fl == FULLSET && st.Choice?
    requires
      if i < |x.s| && x.s[i] in cs then
        && Outcome(x, Run(pc + 1, i, st), pc + 1 + n, r1, false, FULLSET, st)
        && (r1.Fail? ==> r == Succ(i) && x.s[i] !in fl)
        && (r1.Succ? ==> Outcome(x, Run(pc, r1.pos, st), pc + 2 + n, r, opt, fl, st))
      else r == Succ(i)
    ensures Outcome(x, Run(pc, i, st), pc + 2 + n, r, opt, fl, st)
  {
    var c := Run(pc, i, st);
    TestStep(x, pc, cs, 2 + n, i, st);
    if i < |x.s| && x.s[i] in cs {
      Prefix(x, c, Run(pc + 1, i, st), pc + 1 + n, r1, false, FULLSET, st);
      if r1.Succ? {
        var jmp := Run(pc + 1 + n, r1.pos, st);
        One(x, jmp);
        Suffix(x, c, jmp, Run(pc, r1.pos, st));
        Prefix(x, c, Run(pc, r1.pos, st), pc + 2 + n, r, opt, fl, st);
      }
    } else {
      Exact(x, c, pc + 2 + n, i, opt, fl, st);
    }
  }

  lemma TestSetFull(off: int)
    ensures TestSet(FULLSET, off) == ITestAny(off)
  {
    assert 0 in FULLSET;
  }

  lemma TestSetOne(c: Byte, off: int)
    ensures TestSet({c}, off) == ITestChar(c, off)
  {
    assert c in {c};
    var b: Byte := if c == 0 then 1 else 0;
    assert b in FULLSET && b !in {c};
    assert {c} != {} && {c} != FULLSET;
    var c': Byte :| 0 <= c' < 256 && {c} == {c'};
    assert c' in {c};
  }

  lemma {:induction false} SimRepCharset(x: Ctx, t: Tree, opt: bool, tt: Test, fl: set<Byte>, pc: int, i: nat, st: Stack, f: nat)
    requires t.TRep? && IsCharset(t.p) && Pre(x, t, opt, tt, fl, pc, i, st, f)
    ensures Post(x, t, opt, tt, fl, pc, i, st, f)
    decreases f
  {
    hide Gen, GetFirst, HeadFail, FixedLen, Ids, TestSet, FragAt, Reach, Outcome, Ctx.Ok, MaybeTest;
    RepGenCharset(t, opt, tt, fl, x.e, false);
    RepGenCharset(t, opt, None, fl, x.e, false);
    var r := Eval(t, x.e.g, x.s, i, f).value;
    if t.p.TFalse? {
      assert Eval(t.p, x.e.g, x.s, i, f) == Some(Fail);
      Refl(x, Run(pc, i, st));
      Exact(x, Run(pc, i, st), pc, i, opt, fl, st);
    } else if t.p.TSet? {
      SpanEval(t.p.cs, x.e.g, x.s, i, f);
      FragUnit(x.code, pc, ISpan(t.p.cs), x.rp);
      One(x, Run(pc, i, st));
      Exact(x, Run(pc, i, st), pc + 1, r.pos, opt, fl, st);
    } else {
      var cs := if t.p.TAny? then FULLSET else {t.p.c};
      TestSetFull(3);
      if t.p.TChar? {
        TestSetOne(t.p.c, 3);
      }
      assert [TestSet(cs, 3), IAny, IJmp(-2)] == [TestSet(cs, 3)] + ([IAny] + [IJmp(-2)]);
      FragHead(x.code, pc, TestSet(cs, 3), [IAny] + [IJmp(-2)], x.rp);
      FragHead(x.code, pc + 1, IAny, [IJmp(-2)], x.rp);
      FragUnit(x.code, pc + 2, IJmp(-2), x.rp);
      if i < |x.s| && x.s[i] in cs {
        One(x, Run(pc + 1, i, st));
        Exact(x, Run(pc + 1, i, st), pc + 2, i + 1, false, FULLSET, st);
        assert Eval(t.p, x.e.g, x.s, i, f) == Some(Succ(i + 1));
        SimRepCharset(x, t, opt, None, fl, pc, i + 1, st, f - 1);
      } else {
        assert Eval(t.p, x.e.g, x.s, i, f) == Some(Fail);
      }
      TestLoopRun(x, pc, cs, 1, i, st, Succ(i + 1), r, opt, fl);
    }
  }

  lemma {:induction false} SimRepTest(x: Ctx, t: Tree, opt: bool, tt: Test, fl: set<Byte>, pc: int, i: nat, st: Stack, f: nat)
    requires t.TRep? && !IsCharset(t.p) && TestRep(t.p, fl, x.e) && Pre(x, t, opt, tt, fl, pc, i, st, f)
    ensures Post(x, t, opt, tt, fl, pc, i, st, f)
    decreases f, t, 0
  {
    hide Gen, GetFirst, HeadFail, FixedLen, Ids, TestSet, FragAt, Reach, Outcome, Ctx.Ok, MaybeTest, SpanEnd, CheckAux, Step, FailTo;
    RepTestGen(t, opt, tt, fl, x.e, false);
    RepTestGen(t, opt, None, fl, x.e, false);
    var p := t.p;
    var cs := GetFirst(p, FULLSET, x.e.g, x.e.d).cs;
    var b := Gen(p, false, Some(TestSet(cs, 0)), FULLSET, x.e, false);
    Frag4(x.code, pc, [TestSet(cs, 2 + |b|)], b, [IJmp(-1 - |b|)], [], x.rp);
    TestSetClosed(cs, 2 + |b|);
    FragUnit(x.code, pc, TestSet(cs, 2 + |b|), x.rp);
    FragUnit(x.code, pc + 1 + |b|, IJmp(-1 - |b|), x.rp);
    TestStep(x, pc, cs, 2 + |b|, i, st);
    var r1 := Eval(p, x.e.g, x.s, i, f).value;
    if i < |x.s| && x.s[i] in cs {
      Sim(x, p, false, Some(TestSet(cs, 0)), FULLSET, pc + 1, i, st, f);
      if r1.Succ? {
        SimRepTest(x, t, opt, None, fl, pc, r1.pos, st, f - 1);
      } else if HeadFail(p, x.e.g, x.e.d) {
        HeadFailSound(p, x.e.g, x.e.d, x.s, i, f);
      } else {
        NotBoth(x.s[i], cs, fl);
      }
    } else {
      TestRefutes(x, p, i, f);
    }
    TestLoopRun(x, pc, cs, |b|, i, st, r1, Eval(t, x.e.g, x.s, i, f).value, opt, fl);
  }

  // 'L1: p; partialcommit L1' under the choice entry 'st', from the position
  // saved in it.
  lemma {:induction false} SimRepLoop(x: Ctx, t: Tree, l1: int, i: nat, st: Stack, f: nat)
    requires t.TRep? && x.Ok() && i <= |x.s| && WellFormed(t, |x.e.g|)
    requires st.Choice? && st.pos == i
    requires Eval(t, x.e.g, x.s, i, f).Some?
    requires
      var b := Gen(t.p, false, None, FULLSET, x.e, false);
      FragAt(x.code, l1, b, x.rp) && 0 <= l1 + |b| < |x.code| && x.code[l1 + |b|] == IPartialCommit(-|b|)
    ensures
      Eval(t, x.e.g, x.s, i, f).value.Succ? &&
      x.Goes(Run(l1, i, st), Run(st.pc, Eval(t, x.e.g, x.s, i, f).value.pos, st.rest))
    decreases f, t, 0
  {
    hide Gen, GetFirst, HeadFail, FixedLen, TestSet, FragAt, Reach;
    var b := Gen(t.p, false, None, FULLSET, x.e, false);
    Sim(x, t.p, false, None, FULLSET, l1, i, st, f);
    var r1 := Eval(t.p, x.e.g, x.s, i, f).value;
    if r1.Succ? {
      var j := r1.pos;
      var pre := Run(l1 + |b|, j, st);
      One(x, pre);
      Suffix(x, Run(l1, i, st), pre, Run(l1, j, st.(pos := j)));
      SimRepLoop(x, t, l1, j, st.(pos := j), f - 1);
      Suffix(x, Run(l1, i, st), Run(l1, j, st.(pos := j)), Run(st.pc, Eval(t, x.e.g, x.s, i, f).value.pos, st.rest));
    }
  }

  // Entering the loop pushes a choice or takes over the pending one.
  lemma RepEnter(x: Ctx, pc: int, n: nat, i: nat, st: Stack, j: nat, opt: bool, fl: set<Byte>)
    requires 0 <= pc < |x.code| && x.code[pc] == (if opt then IPartialCommit(1) else IChoice(2 + n))
    requires opt ==> st.Choice?
    requires
      var st' := if opt then st.(pos := i) else Choice(pc + 2 + n, i, st);
      x.Goes(Run(pc + 1, i, st'), Run(st'.pc, j, st'.rest))
    ensures Outcome(x, Run(pc, i, st), pc + 2 + n, Succ(j), opt, fl, st)
  {
    var st' := if opt then st.(pos := i) else Choice(pc + 2 + n, i, st);
    One(x, Run(pc, i, st));
    Suffix(x, Run(pc, i, st), Run(pc + 1, i, st'), Run(st'.pc, j, st'.rest));
  }

  lemma {:induction false} SimRepPoint(x: Ctx, t: Tree, opt: bool, tt: Test, fl: set<Byte>, pc: int, i: nat, st: Stack, f: nat)
    requires t.TRep? && !IsCharset(t.p) && !TestRep(t.p, fl, x.e) && Pre(x, t, opt, tt, fl, pc, i, st, f)
    ensures Post(x, t, opt, tt, fl, pc, i, st, f)
    decreases f, t, 1
  {
    hide Gen, GetFirst, HeadFail, FixedLen, Ids, TestSet, FragAt, Reach, Outcome, Ctx.Ok, MaybeTest, SpanEnd, CheckAux, Step, FailTo;
    RepPointGen(t, opt, tt, fl, x.e, false);
    var fs := GetFirst(t.p, FULLSET, x.e.g, x.e.d);
    var b := Gen(t.p, false, None, FULLSET, x.e, false);
    var m := MaybeTest(fs, 3 + |b|);
    var enter := if opt then IPartialCommit(1) else IChoice(2 + |b|);
    Frag4(x.code, pc, m, [enter], b, [IPartialCommit(-|b|)], x.rp);
    MaybeTestAt(x.code, pc, fs, 3 + |b|, x.rp);
    var pc0 := pc + |m|;
    FragUnit(x.code, pc0, enter, x.rp);
    FragUnit(x.code, pc0 + 1 + |b|, IPartialCommit(-|b|), x.rp);
    var r := Eval(t, x.e.g, x.s, i, f).value;
    var end := pc0 + 2 + |b|;
    if fs.e || (i < |x.s| && x.s[i] in fs.cs) {
      SimRepLoop(x, t, pc0 + 1, i, if opt then st.(pos := i) else Choice(end, i, st), f);
      RepEnter(x, pc0, |b|, i, st, r.pos, opt, fl);
    } else {
      TestRefutes(x, t.p, i, f);
      Refl(x, Run(end, i, st));
      Exact(x, Run(end, i, st), end, i, opt, fl, st);
    }
    MaybeTestRun(x, pc, fs, 3 + |b|, i, st, end, r, opt, fl);
  }

  // --- predicates

  // The run of a not-predicate, with an entry on the stack.
  lemma NotRun(x: Ctx, pc: int, n: nat, i: nat, st: Stack, r1: Result, opt: bool, fl: set<Byte>)
    requires 0 <= pc && pc + 1 + n < |x.code| && x.code[pc] == IChoice(2 + n) && x.code[pc + 1 + n] == IFailTwice
    requires opt ==> st.Choice?
    requires Outcome(x, Run(pc + 1, i, Choice(pc + 2 + n, i, st)), pc + 1 + n, r1, false, FULLSET, Choice(pc + 2 + n, i, st))
    ensures Outcome(x, Run(pc, i, st), pc + 2 + n, if r1.Succ? then Fail else Succ(i), opt, fl, st)
  {
    var c, cst := Run(pc, i, st), Choice(pc + 2 + n, i, st);
    One(x, c);
    Prefix(x, c, Run(pc + 1, i, cst), pc + 1 + n, r1, false, FULLSET, cst);
    if r1.Succ? {
      One(x, Run(pc + 1 + n, r1.pos, cst));
      Suffix(x, c, Run(pc + 1 + n, r1.pos, cst), FailTo(st));
    } else {
      Exact(x, c, pc + 2 + n, i, opt, fl, st);
    }
  }

  lemma {:induction false} SimNotHead(x: Ctx, t: Tree, opt: bool, tt: Test, fl: set<Byte>, pc: int, i: nat, st: Stack, f: nat)
    requires t.TNot? && HeadFail(t.p, x.e.g, x.e.d) && Pre(x, t, opt, tt, fl, pc, i, st, f)
    ensures Post(x, t, opt, tt, fl, pc, i, st, f)
  {
    hide Gen, GetFirst, HeadFail, FixedLen, Ids, TestSet, FragAt, Reach, Outcome, Ctx.Ok, MaybeTest;
    NotGen(t, opt, tt, fl, x.e, false);
    var p := t.p;
    var fs := GetFirst(p, FULLSET, x.e.g, x.e.d);
    HeadFailEnd(p, FULLSET, x.e.g, x.e.d);
    FragSplit(x.code, pc, MaybeTest(fs, 2), [IFail], x.rp);
    MaybeTestAt(x.code, pc, fs, 2, x.rp);
    FragUnit(x.code, pc + 1, IFail, x.rp);
    if i < |x.s| && x.s[i] in fs.cs {
      HeadFailSound(p, x.e.g, x.e.d, x.s, i, f);
      One(x, Run(pc + 1, i, st));
      FailOutcome(x, Run(pc + 1, i, st), pc + 2, opt, fl, st);
    } else {
      TestRefutes(x, p, i, f);
      Refl(x, Run(pc + 2, i, st));
      Exact(x, Run(pc + 2, i, st), pc + 2, i, opt, fl, st);
    }
    MaybeTestRun(x, pc, fs, 2, i, st, pc + 2, Eval(t, x.e.g, x.s, i, f).value, opt, fl);
  }

  lemma {:induction false} SimNot(x: Ctx, t: Tree, opt: bool, tt: Test, fl: set<Byte>, pc: int, i: nat, st: Stack, f: nat)
    requires t.TNot? && !HeadFail(t.p, x.e.g, x.e.d) && Pre(x, t, opt, tt, fl, pc, i, st, f)
    ensures Post(x, t, opt, tt, fl, pc, i, st, f)
    decreases f, t, 0
  {
    hide Gen, GetFirst, HeadFail, FixedLen, Ids, TestSet, FragAt, Reach, Outcome, Ctx.Ok, MaybeTest, SpanEnd, CheckAux, Step, FailTo;
    NotGen(t, opt, tt, fl, x.e, false);
    var p := t.p;
    var fs := GetFirst(p, FULLSET, x.e.g, x.e.d);
    var b := Gen(p, false, None, FULLSET, x.e, false);
    var m := MaybeTest(fs, 3 + |b|);
    Frag4(x.code, pc, m, [IChoice(2 + |b|)], b, [IFailTwice], x.rp);
    MaybeTestAt(x.code, pc, fs, 3 + |b|, x.rp);
    var pc0 := pc + |m|;
    var end := pc0 + 2 + |b|;
    FragUnit(x.code, pc0, IChoice(2 + |b|), x.rp);
    FragUnit(x.code, pc0 + 1 + |b|, IFailTwice, x.rp);
    if fs.e || (i < |x.s| && x.s[i] in fs.cs) {
      Sim(x, p, false, None, FULLSET, pc0 + 1, i, Choice(end, i, st), f);
      NotRun(x, pc0, |b|, i, st, Eval(p, x.e.g, x.s, i, f).value, opt, fl);
    } else {
      TestRefutes(x, p, i, f);
      Refl(x, Run(end, i, st));
      Exact(x, Run(end, i, st), end, i, opt, fl, st);
    }
    MaybeTestRun(x, pc, fs, 3 + |b|, i, st, end, Eval(t, x.e.g, x.s, i, f).value, opt, fl);
  }

  lemma FailOutcome(x: Ctx, c: Config, end: int, opt: bool, fl: set<Byte>, st: Stack)
    requires x.Goes(c, FailTo(st))
    ensures Outcome(x, c, end, Fail, opt, fl, st)
  {
  }

  // The run of 'p; behind n' when 'p' has fixed length 'n'.
  lemma AndFixedRun(x: Ctx, c: Config, pc: int, n: nat, i: nat, st: Stack, r1: Result, opt: bool, fl: set<Byte>)
    requires n > 0 ==> 0 <= pc < |x.code| && x.code[pc] == IBehind(n)
    requires opt ==> st.Choice?
    requires Outcome(x, c, pc, r1, false, FULLSET, st) && (r1.Succ? ==> r1.pos == i + n)
    ensures Outcome(x, c, pc + if n > 0 then 1 else 0, if r1.Succ? then Succ(i) else Fail, opt, fl, st)
  {
    if r1.Succ? {
      if n > 0 {
        One(x, Run(pc, i + n, st));
        Suffix(x, c, Run(pc, i + n, st), Run(pc + 1, i, st));
      }
      Exact(x, c, pc + if n > 0 then 1 else 0, i, opt, fl, st);
    }
  }

  // The run of an and-predicate, with an entry on the stack.
  lemma AndRun(x: Ctx, pc: int, n: nat, i: nat, st: Stack, r1: Result, opt: bool, fl: set<Byte>)
    requires 0 <= pc && pc + 2 + n < |x.code| && x.code[pc] == IChoice(2 + n)
    requires x.code[pc + 1 + n] == IBackCommit(2) && x.code[pc + 2 + n] == IFail
    requires opt ==> st.Choice?
    requires Outcome(x, Run(pc + 1, i, Choice(pc + 2 + n, i, st)), pc + 1 + n, r1, false, FULLSET, Choice(pc + 2 + n, i, st))
    ensures Outcome(x, Run(pc, i, st), pc + 3 + n, if r1.Succ? then Succ(i) else Fail, opt, fl, st)
  {
    var c, cst := Run(pc, i, st), Choice(pc + 2 + n, i, st);
    One(x, c);
    Prefix(x, c, Run(pc + 1, i, cst), pc + 1 + n, r1, false, FULLSET, cst);
    if r1.Succ? {
      One(x, Run(pc + 1 + n, r1.pos, cst));
      Suffix(x, c, Run(pc + 1 + n, r1.pos, cst), Run(pc + 3 + n, i, st));
      Exact(x, c, pc + 3 + n, i, opt, fl, st);
    } else {
      One(x, Run(pc + 2 + n, i, st));
      Suffix(x, c, Run(pc + 2 + n, i, st), FailTo(st));
    }
  }

  lemma {:induction false} SimAndFixed(x: Ctx, t: Tree, opt: bool, tt: Test, fl: set<Byte>, pc: int, i: nat, st: Stack, f: nat)
    requires t.TAnd? && 0 <= AndLen(t.p, x.e) <= MAXBEHIND && Pre(x, t, opt, tt, fl, pc, i, st, f)
    ensures Post(x, t, opt, tt, fl, pc, i, st, f)
    decreases f, t, 0
  {
    hide Gen, GetFirst, HeadFail, FixedLen, Ids, TestSet, FragAt, Reach, Outcome, Ctx.Ok, MaybeTest, SpanEnd, CheckAux, Step, FailTo;
    AndFixedGen(t, opt, tt, fl, x.e, false);
    var b := Gen(t.p, false, tt, FULLSET, x.e, false);
    var n := AndLen(t.p, x.e);
    var back := if n > 0 then [IBehind(n)] else [];
    FragSplit(x.code, pc, b, back, x.rp);
    if n > 0 {
      FragUnit(x.code, pc + |b|, IBehind(n), x.rp);
    }
    Sim(x, t.p, false, tt, FULLSET, pc, i, st, f);
    var r1 := Eval(t.p, x.e.g, x.s, i, f).value;
    if r1.Succ? {
      FixedLenSound(t.p, x.e.g, x.e.ids, x.s, i, f);
    }
    AndFixedRun(x, Run(pc, i, st), pc + |b|, n, i, st, r1, opt, fl);
  }

  lemma {:induction false} SimAnd(x: Ctx, t: Tree, opt: bool, tt: Test, fl: set<Byte>, pc: int, i: nat, st: Stack, f: nat)
    requires t.TAnd? && !(0 <= AndLen(t.p, x.e) <= MAXBEHIND) && Pre(x, t, opt, tt, fl, pc, i, st, f)
    ensures Post(x, t, opt, tt, fl, pc, i, st, f)
    decreases f, t, 0
  {
    hide Gen, GetFirst, HeadFail, FixedLen, Ids, TestSet, FragAt, Reach, Outcome, Ctx.Ok, MaybeTest, SpanEnd, CheckAux, Step, FailTo;
    AndGen(t, opt, tt, fl, x.e, false);
    var n := |Gen(t.p, false, tt, FULLSET, x.e, false)|;
    AndCode(x, pc, Gen(t.p, false, tt, FULLSET, x.e, false));
    Sim(x, t.p, false, tt, FULLSET, pc + 1, i, Choice(pc + 2 + n, i, st), f);
    AndRun(x, pc, n, i, st, Eval(t.p, x.e.g, x.s, i, f).value, opt, fl);
  }

  lemma AndCode(x: Ctx, pc: int, b: seq<Instr>)
    requires FragAt(x.code, pc, [IChoice(2 + |b|)] + b + [IBackCommit(2)] + [IFail], x.rp)
    ensures 0 <= pc && pc + 2 + |b| < |x.code| && x.code[pc] == IChoice(2 + |b|)
    ensures FragAt(x.code, pc + 1, b, x.rp) && x.code[pc + 1 + |b|] == IBackCommit(2) && x.code[pc + 2 + |b|] == IFail
  {
    hide FragAt;
    Frag4(x.code, pc, [IChoice(2 + |b|)], b, [IBackCommit(2)], [IFail], x.rp);
    FragUnit(x.code, pc, IChoice(2 + |b|), x.rp);
    FragUnit(x.code, pc + 1 + |b|, IBackCommit(2), x.rp);
    FragUnit(x.code, pc + 2 + |b|, IFail, x.rp);
  }

  lemma {:induction false} WellFormedMore(t: Tree, n: nat)
    requires WellFormed(t, 0)
    ensures WellFormed(t, n)
  {
    match t
    case TRep(p) => WellFormedMore(p, n);
    case TNot(p) => WellFormedMore(p, n);
    case TAnd(p) => WellFormedMore(p, n);
    case TSeq(p1, p2) => WellFormedMore(p1, n); WellFormedMore(p2, n);
    case TChoice(p1, p2) => WellFormedMore(p1, n); WellFormedMore(p2, n);
    case _ =>
  }

  // The run of 'behind n; p' when 'p' has fixed length 'n'.
  lemma BehindRun(x: Ctx, pc: int, n: nat, end: int, i: nat, st: Stack, r1: Result, opt: bool, fl: set<Byte>)
    requires 0 <= pc && (n > 0 ==> pc < |x.code| && x.code[pc] == IBehind(n))
    requires opt ==> st.Choice?
    requires i >= n ==>
      Outcome(x, Run(pc + (if n > 0 then 1 else 0), i - n, st), end, r1, false, FULLSET, st) && (r1.Succ? ==> r1.pos == i)
    ensures Outcome(x, Run(pc, i, st), end, if i >= n && r1.Succ? then Succ(i) else Fail, opt, fl, st)
  {
    var c := Run(pc, i, st);
    if n > 0 {
      One(x, c);
      if i >= n {
        Prefix(x, c, Run(pc + 1, i - n, st), end, r1, false, FULLSET, st);
      }
    }
    if i >= n && r1.Succ? {
      Exact(x, c, end, i, opt, fl, st);
    }
  }

  lemma {:induction false} SimBehind(x: Ctx, t: Tree, opt: bool, tt: Test, fl: set<Byte>, pc: int, i: nat, st: Stack, f: nat)
    requires t.TBehind? && Pre(x, t, opt, tt, fl, pc, i, st, f)
    ensures Post(x, t, opt, tt, fl, pc, i, st, f)
    decreases f, t, 0
  {
    hide Gen, GetFirst, HeadFail, FixedLen, Ids, TestSet, FragAt, Reach, Outcome, Ctx.Ok, MaybeTest, SpanEnd, CheckAux, Step, FailTo;
    BehindGen(t, opt, tt, fl, x.e, false);
    var TBehind(n, p) := t;
    var b := Gen(p, false, None, FULLSET, x.e, false);
    var back := if n > 0 then [IBehind(n)] else [];
    FragSplit(x.code, pc, back, b, x.rp);
    FragLen(x.code, pc, back, x.rp);
    if n > 0 {
      FragUnit(x.code, pc, IBehind(n), x.rp);
    }
    var r1 := Fail;
    if i >= n {
      WellFormedMore(p, |x.e.g|);
      Sim(x, p, false, None, FULLSET, pc + |back|, i - n, st, f);
      r1 := Eval(p, x.e.g, x.s, i - n, f).value;
      if r1.Succ? {
        FixedLenClosed(p, x.e.g, Ids(p));
        FixedLenSound(p, x.e.g, Ids(p), x.s, i - n, f);
      }
    }
    BehindRun(x, pc, n, pc + |back| + |b|, i, st, r1, opt, fl);
  }

  // --- calls and grammars

  // The run of a call to code that ends with IRet at 'ret'.
  lemma CallRun(x: Ctx, pc: int, at: int, ret: int, i: nat, st: Stack, r1: Result, opt: bool, fl: set<Byte>)
    requires 0 <= pc < |x.code| && x.code[pc] == ICall(at - pc) && 0 <= ret < |x.code| && x.code[ret] == IRet
    requires opt ==> st.Choice?
    requires Outcome(x, Run(at, i, Ret(pc + 1, st)), ret, r1, false, FULLSET, Ret(pc + 1, st))
    ensures Outcome(x, Run(pc, i, st), pc + 1, r1, opt, fl, st)
  {
    var c, cst := Run(pc, i, st), Ret(pc + 1, st);
    One(x, c);
    Prefix(x, c, Run(at, i, cst), ret, r1, false, FULLSET, cst);
    if r1.Succ? {
      One(x, Run(ret, r1.pos, cst));
      Suffix(x, c, Run(ret, r1.pos, cst), Run(pc + 1, r1.pos, st));
      Exact(x, c, pc + 1, r1.pos, opt, fl, st);
    }
  }

  lemma {:induction false} SimCall(x: Ctx, t: Tree, opt: bool, tt: Test, fl: set<Byte>, pc: int, i: nat, st: Stack, f: nat)
    requires t.TCall? && Pre(x, t, opt, tt, fl, pc, i, st, f)
    ensures Post(x, t, opt, tt, fl, pc, i, st, f)
    decreases f, t, 0
  {
    hide Gen, GetFirst, HeadFail, FixedLen, TestSet, Reach, Outcome;
    var r := t.rule;
    assert Gen(t, opt, tt, fl, x.e, false) == [IOpenCall(r)] by { CallGen(t, opt, tt, fl, x.e, false); }
    var b := Gen(x.e.g[r], false, None, FULLSET, x.e, false);
    var at := x.rp[r];
    FragSplit(x.code, at, b, [IRet], x.rp);
    FragUnit(x.code, at + |b|, IRet, x.rp);
    Sim(x, x.e.g[r], false, None, FULLSET, at, i, Ret(pc + 1, st), f - 1);
    CallRun(x, pc, at, at + |b|, i, st, Eval(x.e.g[r], x.e.g, x.s, i, f - 1).value, opt, fl);
  }

  lemma {:induction false} FragGet(code: seq<Instr>, pc: int, frag: seq<Instr>, rp: seq<int>, k: nat)
    requires FragAt(code, pc, frag, rp) && k < |frag|
    ensures 0 <= pc + k < |code| && MatchInstr(code[pc + k], frag[k], pc + k, rp)
    decreases |frag|
  {
    if k > 0 {
      assert frag[1..][k - 1] == frag[k];
      FragGet(code, pc + 1, frag[1..], rp, k - 1);
    }
  }

  lemma {:induction false} FragIntro(code: seq<Instr>, pc: int, frag: seq<Instr>, rp: seq<int>)
    requires 0 <= pc && pc + |frag| <= |code|
    requires forall k {:trigger frag[k]} :: 0 <= k < |frag| ==> MatchInstr(code[pc + k], frag[k], pc + k, rp)
    ensures FragAt(code, pc, frag, rp)
    decreases |frag|
  {
    if frag != [] {
      forall k {:trigger frag[1..][k]} | 0 <= k < |frag[1..]| ensures MatchInstr(code[pc + 1 + k], frag[1..][k], pc + 1 + k, rp) {
        assert frag[1..][k] == frag[k + 1];
      }
      assert frag[0] == frag[0];
      FragIntro(code, pc + 1, frag[1..], rp);
    }
  }

  ghost predicate CallsIn(code: seq<Instr>, u: set<nat>) {
    forall k :: 0 <= k < |code| && code[k].IOpenCall? ==> code[k].rule in u
  }

  lemma CallsAppend(a: seq<Instr>, b: seq<Instr>, c: seq<Instr>, d: seq<Instr>, u: set<nat>)
    requires CallsIn(a, u) && CallsIn(b, u) && CallsIn(c, u) && CallsIn(d, u)
    ensures CallsIn(a + b + c + d, u)
  {
  }

  lemma MaybeTestCalls(f: First, off: int, u: set<nat>)
    ensures CallsIn(MaybeTest(f, off), u)
  {
    TestSetClosed(f.cs, off);
  }

  lemma {:induction false} ChoiceCalls(t: Tree, opt: bool, tt: Test, fl: set<Byte>, e: Env, tail: bool, u: set<nat>)
    requires t.TChoice? && Calls(t) <= u
    ensures CallsIn(Gen(t, opt, tt, fl, e, tail), u)
    decreases t, 0
  {
    hide Gen, TestChoice, GetFirst, HeadFail, TestSet, CallsIn;
    var TChoice(p1, p2) := t;
    var f1 := GetFirst(p1, FULLSET, e.g, e.d);
    if TestChoice(p1, p2, fl, e) {
      ChoiceTestGen(t, opt, tt, fl, e, tail);
      var b1, b2 := Gen(p1, false, Some(TestSet(f1.cs, 0)), fl, e, tail), Gen(p2, opt, None, fl, e, tail);
      var mid := if p2.TTrue? then [] else [IJmp(1 + |b2|)];
      GenCalls(p1, false, Some(TestSet(f1.cs, 0)), fl, e, tail, u);
      GenCalls(p2, opt, None, fl, e, tail, u);
      SingleCalls(TestSet(f1.cs, 1 + |b1| + |mid|), u) by { TestSetClosed(f1.cs, 1 + |b1| + |mid|); }
      assert CallsIn(mid, u) by { if p2.TTrue? { NoCalls(u); } else { SingleCalls(IJmp(1 + |b2|), u); } }
      CallsAppend([TestSet(f1.cs, 1 + |b1| + |mid|)], b1, mid, b2, u);
    } else if opt && p2.TTrue? {
      ReuseGen(t, opt, tt, fl, e, tail);
      GenCalls(p1, true, None, FULLSET, e, tail, u);
      SingleCalls(IPartialCommit(1), u);
      NoCalls(u);
      var b := Gen(p1, true, None, FULLSET, e, tail);
      CallsAppend([IPartialCommit(1)], b, [], [], u);
      assert [IPartialCommit(1)] + b + [] + [] == [IPartialCommit(1)] + b;
    } else {
      ChoicePointGen(t, opt, tt, fl, e, tail);
      var b1, b2 := Gen(p1, p2.TTrue?, TestOf(f1), FULLSET, e, tail), Gen(p2, opt, None, fl, e, tail);
      GenCalls(p1, p2.TTrue?, TestOf(f1), FULLSET, e, tail, u);
      GenCalls(p2, opt, None, fl, e, tail, u);
      MaybeTestCalls(f1, 3 + |b1|, u);
      SingleCalls(IChoice(2 + |b1|), u);
      SingleCalls(ICommit(1 + |b2|), u);
      NoCalls(u);
      CallsAppend([ICommit(1 + |b2|)], b2, [], [], u);
      assert [ICommit(1 + |b2|)] + b2 + [] + [] == [ICommit(1 + |b2|)] + b2;
      CallsAppend(MaybeTest(f1, 3 + |b1|), [IChoice(2 + |b1|)], b1, [ICommit(1 + |b2|)] + b2, u);
    }
  }

  lemma SingleCalls(i: Instr, u: set<nat>)
    requires !i.IOpenCall?
    ensures CallsIn([i], u)
  {
  }

  lemma NoCalls(u: set<nat>)
    ensures CallsIn([], u)
  {
  }

  lemma {:induction false} RepCalls(t: Tree, opt: bool, tt: Test, fl: set<Byte>, e: Env, tail: bool, u: set<nat>)
    requires t.TRep? && Calls(t) <= u
    ensures CallsIn(Gen(t, opt, tt, fl, e, tail), u)
    decreases t, 0
  {
    hide Gen, TestRep, GetFirst, HeadFail, TestSet;
    var f := GetFirst(t.p, FULLSET, e.g, e.d);
    if IsCharset(t.p) {
      RepGenCharset(t, opt, tt, fl, e, tail);
    } else if TestRep(t.p, fl, e) {
      RepTestGen(t, opt, tt, fl, e, tail);
      var b := Gen(t.p, false, Some(TestSet(f.cs, 0)), FULLSET, e, tail);
      GenCalls(t.p, false, Some(TestSet(f.cs, 0)), FULLSET, e, tail, u);
      TestSetClosed(f.cs, 2 + |b|);
      CallsAppend([TestSet(f.cs, 2 + |b|)], b, [IJmp(-1 - |b|)], [], u);
    } else {
      RepPointGen(t, opt, tt, fl, e, tail);
      var b := Gen(t.p, false, None, FULLSET, e, tail);
      GenCalls(t.p, false, None, FULLSET, e, tail, u);
      MaybeTestCalls(f, 3 + |b|, u);
      CallsAppend(MaybeTest(f, 3 + |b|), [if opt then IPartialCommit(1) else IChoice(2 + |b|)], b, [IPartialCommit(-|b|)], u);
    }
  }

  lemma {:induction false} PredicateCalls(t: Tree, opt: bool, tt: Test, fl: set<Byte>, e: Env, tail: bool, u: set<nat>)
    requires (t.TNot? || t.TAnd? || t.TBehind?) && Calls(t) <= u
    ensures CallsIn(Gen(t, opt, tt, fl, e, tail), u)
    decreases t, 0
  {
    hide Gen, GetFirst, HeadFail, TestSet, FixedLen;
    if t.TNot? {
      NotGen(t, opt, tt, fl, e, tail);
      var b := Gen(t.p, false, None, FULLSET, e, tail);
      GenCalls(t.p, false, None, FULLSET, e, tail, u);
      MaybeTestCalls(GetFirst(t.p, FULLSET, e.g, e.d), 2, u);
      MaybeTestCalls(GetFirst(t.p, FULLSET, e.g, e.d), 3 + |b|, u);
    } else if t.TAnd? {
      if 0 <= AndLen(t.p, e) <= MAXBEHIND {
        AndFixedGen(t, opt, tt, fl, e, tail);
      } else {
        AndGen(t, opt, tt, fl, e, tail);
      }
      GenCalls(t.p, false, tt, FULLSET, e, tail, u);
    } else {
      BehindGen(t, opt, tt, fl, e, tail);
      GenCalls(t.p, false, None, FULLSET, e, tail, u);
    }
  }

  lemma OtherCalls(t: Tree, opt: bool, tt: Test, fl: set<Byte>, e: Env, tail: bool, u: set<nat>)
    requires (t.TTrue? || IsCharset(t) || t.TCall? || t.TGrammar?) && Calls(t) <= u
    ensures CallsIn(Gen(t, opt, tt, fl, e, tail), u)
  {
    hide Gen, GenRules, LeafInstr;
    if t.TTrue? {
      TrueGen(t, opt, tt, fl, e, tail);
    } else if t.TCall? {
      CallGen(t, opt, tt, fl, e, tail);
    } else if t.TGrammar? {
      GrammarGen(t, opt, tt, fl, e, tail);
      var r := GenRules(t, |t.rules|, Env(t.rules, e.d, e.ids), tail);
      CorrectCallsClosed(r.code, r.pos, 0);
    } else {
      LeafGen(t, opt, tt, fl, e, tail);
      LeafClosed(t, tt);
    }
  }

  lemma LeafClosed(t: Tree, tt: Test)
    requires IsCharset(t)
    ensures !LeafInstr(t, tt).IOpenCall?
  {
  }

  // Only calls of the enclosing grammar are left open.
  lemma {:induction false} GenCalls(t: Tree, opt: bool, tt: Test, fl: set<Byte>, e: Env, tail: bool, u: set<nat>)
    requires Calls(t) <= u
    ensures CallsIn(Gen(t, opt, tt, fl, e, tail), u)
    decreases t, 1
  {
    hide Gen, GetFirst, HeadFail, FixedLen;
    match t
    case TChoice(p1, p2) => ChoiceCalls(t, opt, tt, fl, e, tail, u);
    case TRep(p) => RepCalls(t, opt, tt, fl, e, tail, u);
    case TBehind(_, p) => PredicateCalls(t, opt, tt, fl, e, tail, u);
    case TNot(p) => PredicateCalls(t, opt, tt, fl, e, tail, u);
    case TAnd(p) => PredicateCalls(t, opt, tt, fl, e, tail, u);
    case TSeq(p1, p2) =>
      SeqGen(t, opt, tt, fl, e, tail);
      GenCalls(p1, false, tt, SeqFollow(p1, p2, fl, e), e, tail, u);
      GenCalls(p2, opt, SeqTest(p1, tt, e), fl, e, tail, u);
    case _ => OtherCalls(t, opt, tt, fl, e, tail, u);
  }

  lemma {:induction false} CorrectCallsClosed(code: seq<Instr>, pos: seq<nat>, i: nat)
    requires i <= |code| && forall k :: 0 <= k < i ==> !code[k].IOpenCall?
    ensures forall k :: 0 <= k < |code| ==> !CorrectCalls(code, pos, i)[k].IOpenCall?
    decreases |code| - i
  {
    if i < |code| {
      if code[i].IOpenCall? {
        var off := RulePos(pos, code[i].rule) - i;
        CorrectCallsClosed(code[i := if ToRet(code, i + 1) then IJmp(off) else ICall(off)], pos, i + 1);
      } else {
        CorrectCallsClosed(code, pos, i + 1);
      }
    }
  }

  // Where the rules of a grammar lie in its code.
  lemma {:induction false} RulesAt(t: Tree, k: nat, e: Env, tail: bool, r: nat)
    requires t.TGrammar? && r < k <= |t.rules|
    ensures
      var c := GenRules(t, k, e, tail);
      var b := Gen(t.rules[r], false, None, FULLSET, e, tail) + [IRet];
      c.pos[r] + |b| <= |c.code| && c.code[c.pos[r]..c.pos[r] + |b|] == b
    decreases k
  {
    hide Gen;
    var prev := GenRules(t, k - 1, e, tail);
    var last := Gen(t.rules[k - 1], false, None, FULLSET, e, tail) + [IRet];
    var b := Gen(t.rules[r], false, None, FULLSET, e, tail) + [IRet];
    assert GenRules(t, k, e, tail).code == prev.code + last;
    if r < k - 1 {
      RulesAt(t, k - 1, e, tail, r);
      SliceAppend(prev.code, last, prev.pos[r], b);
    } else {
      SliceEnd(prev.code, last);
    }
  }

  lemma SliceAppend(a: seq<Instr>, b: seq<Instr>, at: nat, c: seq<Instr>)
    requires at + |c| <= |a| && a[at..at + |c|] == c
    ensures (a + b)[at..at + |c|] == c
  {
    assert (a + b)[at..at + |c|] == a[at..at + |c|];
  }

  lemma SliceEnd(a: seq<Instr>, b: seq<Instr>)
    ensures (a + b)[|a|..|a| + |b|] == b
  {
  }

  lemma {:induction false} RulesCalls(t: Tree, k: nat, e: Env, tail: bool)
    requires t.TGrammar? && k <= |t.rules|
    ensures CallsIn(GenRules(t, k, e, tail).code, Used(t.rules))
    decreases k
  {
    hide Gen;
    if k > 0 {
      RulesCalls(t, k - 1, e, tail);
      forall r | r in Calls(t.rules[k - 1]) ensures r in Used(t.rules) { }
      GenCalls(t.rules[k - 1], false, None, FULLSET, e, tail, Used(t.rules));
    }
  }

  lemma UsedInRange(g: seq<Tree>)
    requires |g| > 0 && AllWellFormed(g)
    ensures forall r :: r in Used(g) ==> r < |g|
  {
    forall r | r in Used(g) ensures r < |g| {
      if r != 0 {
        var k :| 0 <= k < |g| && r in Calls(g[k]);
        CallsInRange(g[k], |g|);
      }
    }
  }

  // The code of a grammar gives its rules the addresses that their calls use.
  lemma GrammarCode(x: Ctx, t: Tree, opt: bool, tt: Test, fl: set<Byte>, pc: int) returns (x': Ctx)
    requires t.TGrammar? && WellFormed(t, |x.e.g|)
    requires FragAt(x.code, pc, Gen(t, opt, tt, fl, x.e, false), x.rp)
    ensures x'.Ok() && x'.code == x.code && x'.s == x.s && x'.e == Env(t.rules, x.e.d, x.e.ids)
    ensures x'.rp[0] == pc + 2
    ensures 0 <= pc && pc + 1 < |x.code| && x.code[pc] == ICall(2)
    ensures x.code[pc + 1] == IJmp(|Gen(t, opt, tt, fl, x.e, false)| - 1)
  {
    hide Gen, GenRules, FragAt, CallsIn, Ids, FixedLen, Used;
    var e := Env(t.rules, x.e.d, x.e.ids);
    var rules := GenRules(t, |t.rules|, e, false);
    var body := PlainCalls(rules.code, rules.pos);
    GrammarGen(t, opt, tt, fl, x.e, false);
    FragHead(x.code, pc, ICall(2), [IJmp(1 + |rules.code|)] + body, x.rp);
    FragHead(x.code, pc + 1, IJmp(1 + |rules.code|), body, x.rp);
    RulesStart(t, |t.rules|, e, false);
    x' := Ctx(x.code, x.s, e, seq(|t.rules|, r requires 0 <= r < |t.rules| => pc + 2 + rules.pos[r]));
    RulesOk(x, t, e, rules, body, pc, x'.rp);
  }

  lemma RulesOk(x: Ctx, t: Tree, e: Env, rules: Rules, body: seq<Instr>, pc: int, rp: seq<int>)
    requires t.TGrammar? && |t.rules| > 0 && AllWellFormed(t.rules) && e.g == t.rules
    requires rules == GenRules(t, |t.rules|, e, false) && body == PlainCalls(rules.code, rules.pos)
    requires FragAt(x.code, pc + 2, body, x.rp)
    requires |rp| == |t.rules| && forall q :: 0 <= q < |rp| ==> rp[q] == pc + 2 + rules.pos[q]
    ensures Ctx(x.code, x.s, e, rp).Ok()
  {
    hide Gen, GenRules, FragAt, CallsIn, Used;
    RulesCalls(t, |t.rules|, e, false);
    UsedInRange(t.rules);
    forall r {:trigger rp[r]} | 0 <= r < |t.rules|
      ensures FragAt(x.code, rp[r], Gen(t.rules[r], false, None, FULLSET, e, false) + [IRet], rp)
    {
      RuleFragment(x, t, e, rules, body, pc, rp, r);
    }
  }

  lemma RuleFragment(x: Ctx, t: Tree, e: Env, rules: Rules, body: seq<Instr>, pc: int, rp: seq<int>, r: nat)
    requires t.TGrammar? && r < |t.rules|
    requires rules == GenRules(t, |t.rules|, e, false) && body == PlainCalls(rules.code, rules.pos)
    requires CallsIn(rules.code, Used(t.rules)) && forall q :: q in Used(t.rules) ==> q < |t.rules|
    requires FragAt(x.code, pc + 2, body, x.rp)
    requires |rp| == |t.rules| && forall q :: 0 <= q < |rp| ==> rp[q] == pc + 2 + rules.pos[q]
    ensures FragAt(x.code, rp[r], Gen(t.rules[r], false, None, FULLSET, e, false) + [IRet], rp)
  {
    hide Gen, GenRules, FragAt, Ids, FixedLen, Used;
    RulesAt(t, |t.rules|, e, false, r);
    var b := Gen(t.rules[r], false, None, FULLSET, e, false) + [IRet];
    var at := rules.pos[r];
    FragLen(x.code, pc + 2, body, x.rp);
    forall k {:trigger b[k]} | 0 <= k < |b| ensures MatchInstr(x.code[rp[r] + k], b[k], rp[r] + k, rp) {
      assert rules.code[at..at + |b|][k] == rules.code[at + k];
      FragGet(x.code, pc + 2, body, x.rp, at + k);
    }
    FragIntro(x.code, rp[r], b, rp);
  }

  lemma {:induction false} RulesStart(t: Tree, k: nat, e: Env, tail: bool)
    requires t.TGrammar? && 0 < k <= |t.rules|
    ensures GenRules(t, k, e, tail).pos[0] == 0
    decreases k
  {
    hide Gen;
    if k > 1 {
      RulesStart(t, k - 1, e, tail);
    }
  }

  // The run of the code of a grammar.
  lemma GrammarRun(x: Ctx, pc: int, ret: int, end: int, i: nat, st: Stack, r1: Result, opt: bool, fl: set<Byte>)
    requires 0 <= pc && pc + 1 < |x.code| && x.code[pc] == ICall(2) && x.code[pc + 1] == IJmp(end - pc - 1)
    requires 0 <= ret < |x.code| && x.code[ret] == IRet
    requires opt ==> st.Choice?
    requires Outcome(x, Run(pc + 2, i, Ret(pc + 1, st)), ret, r1, false, FULLSET, Ret(pc + 1, st))
    ensures Outcome(x, Run(pc, i, st), end, r1, opt, fl, st)
  {
    CallRun(x, pc, pc + 2, ret, i, st, r1, false, FULLSET);
    if r1.Succ? {
      One(x, Run(pc + 1, r1.pos, st));
      Suffix(x, Run(pc, i, st), Run(pc + 1, r1.pos, st), Run(end, r1.pos, st));
      Exact(x, Run(pc, i, st), end, r1.pos, opt, fl, st);
    }
  }

  lemma {:induction false} SimGrammar(x: Ctx, t: Tree, opt: bool, tt: Test, fl: set<Byte>, pc: int, i: nat, st: Stack, f: nat)
    requires t.TGrammar? && Pre(x, t, opt, tt, fl, pc, i, st, f)
    ensures Post(x, t, opt, tt, fl, pc, i, st, f)
    decreases f, t, 0
  {
    hide Gen, GetFirst, HeadFail, FixedLen, TestSet, FragAt, Reach;
    var x' := GrammarCode(x, t, opt, tt, fl, pc);
    var b := Gen(t.rules[0], false, None, FULLSET, x'.e, false);
    FragSplit(x.code, pc + 2, b, [IRet], x'.rp);
    FragUnit(x.code, pc + 2 + |b|, IRet, x'.rp);
    Sim(x', t.rules[0], false, None, FULLSET, pc + 2, i, Ret(pc + 1, st), f);
    GrammarRun(x, pc, pc + 2 + |b|, pc + |Gen(t, opt, tt, fl, x.e, false)|, i, st,
               Eval(t.rules[0], t.rules, x.s, i, f).value, opt, fl);
  }

  lemma {:induction false} Sim(x: Ctx, t: Tree, opt: bool, tt: Test, fl: set<Byte>, pc: int, i: nat, st: Stack, f: nat)
    requires Pre(x, t, opt, tt, fl, pc, i, st, f)
    ensures Post(x, t, opt, tt, fl, pc, i, st, f)
    decreases f, t, 2
  {
    match t
    case TSeq(_, _) => SimSeq(x, t, opt, tt, fl, pc, i, st, f);
    case TChoice(p1, p2) =>
      if TestChoice(p1, p2, fl, x.e) {
        SimChoiceTest(x, t, opt, tt, fl, pc, i, st, f);
      } else if opt && p2.TTrue? {
        SimChoiceReuse(x, t, opt, tt, fl, pc, i, st, f);
      } else {
        SimChoicePoint(x, t, opt, tt, fl, pc, i, st, f);
      }
    case TRep(p) =>
      if IsCharset(p) {
        SimRepCharset(x, t, opt, tt, fl, pc, i, st, f);
      } else if TestRep(p, fl, x.e) {
        SimRepTest(x, t, opt, tt, fl, pc, i, st, f);
      } else {
        SimRepPoint(x, t, opt, tt, fl, pc, i, st, f);
      }
    case TNot(p) =>
      if HeadFail(p, x.e.g, x.e.d) {
        SimNotHead(x, t, opt, tt, fl, pc, i, st, f);
      } else {
        SimNot(x, t, opt, tt, fl, pc, i, st, f);
      }
    case TAnd(p) =>
      if 0 <= AndLen(p, x.e) <= MAXBEHIND {
        SimAndFixed(x, t, opt, tt, fl, pc, i, st, f);
      } else {
        SimAnd(x, t, opt, tt, fl, pc, i, st, f);
      }
    case TBehind(_, _) => SimBehind(x, t, opt, tt, fl, pc, i, st, f);
    case TCall(_, _) => SimCall(x, t, opt, tt, fl, pc, i, st, f);
    case TGrammar(_) => SimGrammar(x, t, opt, tt, fl, pc, i, st, f);
    case _ => SimLeaf(x, t, opt, tt, fl, pc, i, st, f);
  }

  // The code of a whole pattern without tail calls.
  ghost function PlainCode(t: Tree, d: nat): seq<Instr> {
    Gen(t, false, None, FULLSET, Env([], d, Ids(t)), false) + [IEnd]
  }

  function Answer(r: Result): Config { match r case Fail => NoMatch case Succ(j) => Matched(j) }

  // Running the code of a pattern gives the meaning of the pattern.
  lemma PlainCorrect(t: Tree, d: nat, s: seq<Byte>, i: nat, r: Result)
    requires WellFormed(t, 0) && i <= |s| && Means(t, [], s, i, r)
    ensures Reach(PlainCode(t, d), s, Run(0, i, Base), Answer(r))
  {
    hide Gen, FragAt, Reach;
    var f: nat :| Eval(t, [], s, i, f) == Some(r);
    var e := Env([], d, Ids(t));
    var b := Gen(t, false, None, FULLSET, e, false);
    var x := Ctx(PlainCode(t, d), s, e, []);
    ClosedCalls(t);
    GenCalls(t, false, None, FULLSET, e, false, {});
    forall k {:trigger b[k]} | 0 <= k < |b| ensures MatchInstr(x.code[0 + k], b[k], 0 + k, []) { }
    FragIntro(x.code, 0, b, []);
    Sim(x, t, false, None, FULLSET, 0, i, Base, f);
    if r.Succ? {
      One(x, Run(|b|, r.pos, Base));
      Suffix(x, Run(0, i, Base), Run(|b|, r.pos, Base), Matched(r.pos));
    }
  }
}
