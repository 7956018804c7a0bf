// The two rewritings of finished code, tail calls and peephole optimisation,
// keep the outcome of every run that ends.

module LpegOpt {
  import opened LpegTree
  import opened LpegAnalysis
  import opened LpegVm
  import opened LpegGen
  import opened LpegCorrect

  // Every run of 'a' that ends without a failed assertion has the same outcome
  // in 'b'.
  ghost predicate Preserves(a: seq<Instr>, b: seq<Instr>) {
    forall s: seq<Byte>, i: nat, out: Config ::
      (out.Matched? || out.NoMatch?) && Reach(a, s, Run(0, i, Base), out) ==> Reach(b, s, Run(0, i, Base), out)
  }

  // -------------------------------------------------------------- tail calls

  // 'b' is 'a' with some calls, those that are followed by a return, made jumps.
  ghost predicate TailOf(a: seq<Instr>, b: seq<Instr>) {
    |a| == |b| && forall k {:trigger a[k]} {:trigger b[k]} :: 0 <= k < |a| ==>
      a[k] == b[k] || (a[k].ICall? && b[k] == IJmp(a[k].off) && ToRet(b, k + 1))
  }

  lemma {:induction false} JumpsShift(p: seq<Instr>, b: seq<Instr>, q: seq<Instr>, i: int, k: int, n: nat)
    requires JumpsTo(b, i, k, n)
    ensures JumpsTo(p + b + q, |p| + i, |p| + k, n)
    decreases n
  {
    if n > 0 {
      assert (p + b + q)[|p| + i] == b[i];
      JumpsShift(p, b, q, i + b[i].off, k, n - 1);
    }
  }

  lemma LeadsShift(p: seq<Instr>, b: seq<Instr>, q: seq<Instr>, i: int, k: int)
    requires Leads(b, i, k)
    ensures Leads(p + b + q, |p| + i, |p| + k)
  {
    var n: nat :| JumpsTo(b, i, k, n);
    JumpsShift(p, b, q, i, k, n);
  }

  lemma ToRetShift(p: seq<Instr>, b: seq<Instr>, q: seq<Instr>, i: int)
    requires ToRet(b, i)
    ensures ToRet(p + b + q, |p| + i)
  {
    hide Leads;
    var k :| Leads(b, i, k) && IsRetAt(b, k);
    LeadsShift(p, b, q, i, k);
    assert IsRetAt(p + b + q, |p| + k);
  }

  lemma TailAppend(a: seq<Instr>, a': seq<Instr>, b: seq<Instr>, b': seq<Instr>)
    requires TailOf(a, a') && TailOf(b, b')
    ensures TailOf(a + b, a' + b')
  {
    var c, c' := a + b, a' + b';
    forall k {:trigger c[k]} | 0 <= k < |c|
      ensures c[k] == c'[k] || (c[k].ICall? && c'[k] == IJmp(c[k].off) && ToRet(c', k + 1))
    {
      if k < |a| {
        if a[k] != a'[k] {
          ToRetShift([], a', b', k + 1);
          assert [] + a' + b' == c';
        }
      } else {
        assert c[k] == b[k - |a|] && c'[k] == b'[k - |a|];
        if b[k - |a|] != b'[k - |a|] {
          ToRetShift(a', b', [], k - |a| + 1);
          assert a' + b' + [] == c';
        }
      }
    }
  }

  lemma TailSame(a: seq<Instr>)
    ensures TailOf(a, a)
  {
  }

  // Single instructions around two fragments.
  lemma TailAppend4(x: seq<Instr>, a: seq<Instr>, a': seq<Instr>, y: seq<Instr>, b: seq<Instr>, b': seq<Instr>)
    requires TailOf(a, a') && TailOf(b, b')
    ensures TailOf(x + a + y + b, x + a' + y + b')
  {
    TailSame(x);
    TailSame(y);
    TailAppend(x, x, a, a');
    TailAppend(x + a, x + a', y, y);
    TailAppend(x + a + y, x + a' + y, b, b');
  }

  lemma {:induction false} TailChoice(t: Tree, opt: bool, tt: Test, fl: set<Byte>, e: Env)
    requires t.TChoice?
    ensures TailOf(Gen(t, opt, tt, fl, e, false), Gen(t, opt, tt, fl, e, true))
    decreases t, 0
  {
    hide Gen, TestChoice, GetFirst, HeadFail, TestSet, TailOf, MaybeTest;
    var TChoice(p1, p2) := t;
    var f1 := GetFirst(p1, FULLSET, e.g, e.d);
    var b2, b2' := Gen(p2, opt, None, fl, e, false), Gen(p2, opt, None, fl, e, true);
    TailGen(p2, opt, None, fl, e);
    TailSize(b2, b2');
    if TestChoice(p1, p2, fl, e) {
      var test := Some(TestSet(f1.cs, 0));
      ChoiceTestGen(t, opt, tt, fl, e, false);
      ChoiceTestGen(t, opt, tt, fl, e, true);
      TailGen(p1, false, test, fl, e);
      var b1, b1' := Gen(p1, false, test, fl, e, false), Gen(p1, false, test, fl, e, true);
      TailSize(b1, b1');
      var mid := if p2.TTrue? then [] else [IJmp(1 + |b2|)];
      TailAppend4([TestSet(f1.cs, 1 + |b1| + |mid|)], b1, b1', mid, b2, b2');
    } else if opt && p2.TTrue? {
      ReuseGen(t, opt, tt, fl, e, false);
      ReuseGen(t, opt, tt, fl, e, true);
      TailGen(p1, true, None, FULLSET, e);
      TailSame([IPartialCommit(1)]);
      TailAppend([IPartialCommit(1)], [IPartialCommit(1)], Gen(p1, true, None, FULLSET, e, false), Gen(p1, true, None, FULLSET, e, true));
    } else {
      ChoicePointGen(t, opt, tt, fl, e, false);
      ChoicePointGen(t, opt, tt, fl, e, true);
      TailGen(p1, p2.TTrue?, TestOf(f1), FULLSET, e);
      var b1, b1' := Gen(p1, p2.TTrue?, TestOf(f1), FULLSET, e, false), Gen(p1, p2.TTrue?, TestOf(f1), FULLSET, e, true);
      TailSize(b1, b1');
      TailSame([ICommit(1 + |b2|)]);
      TailAppend([ICommit(1 + |b2|)], [ICommit(1 + |b2|)], b2, b2');
      TailSame([]);
      TailAppend4(MaybeTest(f1, 3 + |b1|) + [IChoice(2 + |b1|)], b1, b1', [], [ICommit(1 + |b2|)] + b2, [ICommit(1 + |b2|)] + b2');
      var x := MaybeTest(f1, 3 + |b1|) + [IChoice(2 + |b1|)];
      assert x + b1 + [] == x + b1 && x + b1' + [] == x + b1';
    }
  }

  lemma TailSize(a: seq<Instr>, b: seq<Instr>)
    requires TailOf(a, b)
    ensures |a| == |b|
  {
  }

  lemma {:induction false} TailRep(t: Tree, opt: bool, tt: Test, fl: set<Byte>, e: Env)
    requires t.TRep?
    ensures TailOf(Gen(t, opt, tt, fl, e, false), Gen(t, opt, tt, fl, e, true))
    decreases t, 0
  {
    hide Gen, TestRep, GetFirst, HeadFail, TestSet, TailOf, MaybeTest, CodeRepCharset;
    var f := GetFirst(t.p, FULLSET, e.g, e.d);
    if IsCharset(t.p) {
      RepGenCharset(t, opt, tt, fl, e, false);
      RepGenCharset(t, opt, tt, fl, e, true);
      TailSame(CodeRepCharset(t.p));
    } else if TestRep(t.p, fl, e) {
      RepTestGen(t, opt, tt, fl, e, false);
      RepTestGen(t, opt, tt, fl, e, true);
      var test := Some(TestSet(f.cs, 0));
      var b, b' := Gen(t.p, false, test, FULLSET, e, false), Gen(t.p, false, test, FULLSET, e, true);
      TailGen(t.p, false, test, FULLSET, e);
      TailSize(b, b');
      TailSame([]);
      TailAppend4([TestSet(f.cs, 2 + |b|)], b, b', [IJmp(-1 - |b|)], [], []);
    } else {
      RepPointGen(t, opt, tt, fl, e, false);
      RepPointGen(t, opt, tt, fl, e, true);
      var b, b' := Gen(t.p, false, None, FULLSET, e, false), Gen(t.p, false, None, FULLSET, e, true);
      TailGen(t.p, false, None, FULLSET, e);
      TailSize(b, b');
      TailSame([]);
      var x := MaybeTest(f, 3 + |b|) + [if opt then IPartialCommit(1) else IChoice(2 + |b|)];
      TailAppend4(x, b, b', [IPartialCommit(-|b|)], [], []);
      assert x + b + [IPartialCommit(-|b|)] + [] == x + b + [IPartialCommit(-|b|)];
      assert x + b' + [IPartialCommit(-|b|)] + [] == x + b' + [IPartialCommit(-|b|)];
    }
  }

  lemma {:induction false} TailPredicate(t: Tree, opt: bool, tt: Test, fl: set<Byte>, e: Env)
    requires t.TNot? || t.TAnd? || t.TBehind?
    ensures TailOf(Gen(t, opt, tt, fl, e, false), Gen(t, opt, tt, fl, e, true))
    decreases t, 0
  {
    hide Gen, GetFirst, HeadFail, TestSet, TailOf, FixedLen, MaybeTest;
    TailSame([]);
    var tt1 := if t.TAnd? then tt else None;
    var b, b' := Gen(t.p, false, tt1, FULLSET, e, false), Gen(t.p, false, tt1, FULLSET, e, true);
    TailGen(t.p, false, tt1, FULLSET, e);
    TailSize(b, b');
    if t.TNot? {
      NotGen(t, opt, tt, fl, e, false);
      NotGen(t, opt, tt, fl, e, true);
      var fs := GetFirst(t.p, FULLSET, e.g, e.d);
      if HeadFail(t.p, e.g, e.d) {
        TailSame(MaybeTest(fs, 2) + [IFail]);
      } else {
        TailEnd(MaybeTest(fs, 3 + |b|) + [IChoice(2 + |b|)], b, b', [IFailTwice]);
      }
    } else if t.TAnd? {
      if 0 <= AndLen(t.p, e) <= MAXBEHIND {
        AndFixedGen(t, opt, tt, fl, e, false);
        AndFixedGen(t, opt, tt, fl, e, true);
        var back := if AndLen(t.p, e) > 0 then [IBehind(AndLen(t.p, e))] else [];
        TailSame(back);
        TailAppend(b, b', back, back);
      } else {
        AndGen(t, opt, tt, fl, e, false);
        AndGen(t, opt, tt, fl, e, true);
        TailEnd([IChoice(2 + |b|)], b, b', [IBackCommit(2)]);
        TailSame([IFail]);
        TailAppend([IChoice(2 + |b|)] + b + [IBackCommit(2)], [IChoice(2 + |b|)] + b' + [IBackCommit(2)], [IFail], [IFail]);
      }
    } else {
      BehindGen(t, opt, tt, fl, e, false);
      BehindGen(t, opt, tt, fl, e, true);
      var back := if t.n > 0 then [IBehind(t.n)] else [];
      TailSame(back);
      TailAppend(back, back, b, b');
    }
  }

  lemma TailEnd(x: seq<Instr>, a: seq<Instr>, a': seq<Instr>, y: seq<Instr>)
    requires TailOf(a, a')
    ensures TailOf(x + a + y, x + a' + y)
  {
    TailSame(x);
    TailSame(y);
    TailAppend(x, x, a, a');
    TailAppend(x + a, x + a', y, y);
  }

  // Chains of jumps do not go through open calls, so closing them keeps chains.
  lemma {:induction false} JumpsKept(code: seq<Instr>, code': seq<Instr>, i: int, k: int, n: nat)
    requires |code| == |code'| && forall j :: 0 <= j < |code| && !code[j].IOpenCall? ==> code'[j] == code[j]
    requires JumpsTo(code, i, k, n)
    ensures JumpsTo(code', i, k, n)
    decreases n
  {
    if n > 0 {
      JumpsKept(code, code', i + code[i].off, k, n - 1);
    }
  }

  lemma ToRetKept(code: seq<Instr>, code': seq<Instr>, i: int)
    requires |code| == |code'| && forall j :: 0 <= j < |code| && !code[j].IOpenCall? ==> code'[j] == code[j]
    requires ToRet(code, i)
    ensures ToRet(code', i)
  {
    var k :| Leads(code, i, k) && IsRetAt(code, k);
    var n: nat :| JumpsTo(code, i, k, n);
    JumpsKept(code, code', i, k, n);
    assert IsRetAt(code', k);
  }

  // What 'correctcalls' makes of the code.
  ghost predicate Corrected(code: seq<Instr>, pos: seq<nat>, i: nat, f: seq<Instr>) {
    |f| == |code| && forall k {:trigger f[k]} :: 0 <= k < |code| ==>
      if k >= i && code[k].IOpenCall? then
        var off := RulePos(pos, code[k].rule) - k;
        f[k] == ICall(off) || (f[k] == IJmp(off) && ToRet(f, k + 1))
      else f[k] == code[k]
  }

  lemma {:induction false} CorrectCallsShape(code: seq<Instr>, pos: seq<nat>, i: nat)
    requires i <= |code| && forall k :: 0 <= k < i ==> !code[k].IOpenCall?
    ensures Corrected(code, pos, i, CorrectCalls(code, pos, i))
    decreases |code| - i
  {
    if i < |code| {
      var f := CorrectCalls(code, pos, i);
      if code[i].IOpenCall? {
        var off := RulePos(pos, code[i].rule) - i;
        var tail := ToRet(code, i + 1);
        var code' := code[i := if tail then IJmp(off) else ICall(off)];
        CorrectCallsShape(code', pos, i + 1);
        assert f[i] == code'[i];
        if tail {
          ToRetKept(code, f, i + 1);
        }
      } else {
        CorrectCallsShape(code, pos, i + 1);
      }
    }
  }

  lemma TailCorrected(a: seq<Instr>, b: seq<Instr>, pos: seq<nat>)
    requires TailOf(a, b)
    ensures TailOf(PlainCalls(a, pos), CorrectCalls(b, pos, 0))
  {
    var p, f := PlainCalls(a, pos), CorrectCalls(b, pos, 0);
    CorrectCallsShape(b, pos, 0);
    forall k {:trigger p[k]} | 0 <= k < |p|
      ensures p[k] == f[k] || (p[k].ICall? && f[k] == IJmp(p[k].off) && ToRet(f, k + 1))
    {
      assert a[k] == a[k];
      assert f[k] == f[k];
      if a[k] != b[k] {
        ToRetKept(b, f, k + 1);
      }
    }
  }

  lemma {:induction false} TailRules(t: Tree, k: nat, e: Env)
    requires t.TGrammar? && k <= |t.rules|
    ensures
      var r, r' := GenRules(t, k, e, false), GenRules(t, k, e, true);
      TailOf(r.code, r'.code) && r.pos == r'.pos
    decreases t, k
  {
    hide Gen, TailOf;
    if k == 0 {
      TailSame([]);
    } else {
      TailRules(t, k - 1, e);
      var r, r' := GenRules(t, k - 1, e, false), GenRules(t, k - 1, e, true);
      var b, b' := Gen(t.rules[k - 1], false, None, FULLSET, e, false), Gen(t.rules[k - 1], false, None, FULLSET, e, true);
      TailGen(t.rules[k - 1], false, None, FULLSET, e);
      TailSize(r.code, r'.code);
      TailAppend(r.code, r'.code, b, b');
      TailSame([IRet]);
      TailAppend(r.code + b, r'.code + b', [IRet], [IRet]);
    }
  }

  lemma {:induction false} TailGen(t: Tree, opt: bool, tt: Test, fl: set<Byte>, e: Env)
    ensures TailOf(Gen(t, opt, tt, fl, e, false), Gen(t, opt, tt, fl, e, true))
    decreases t, if t.TGrammar? then |t.rules| + 1 else 1
  {
    hide Gen, GetFirst, HeadFail, FixedLen, TailOf, LeafInstr, GenRules;
    match t
    case TChoice(_, _) => TailChoice(t, opt, tt, fl, e);
    case TRep(_) => TailRep(t, opt, tt, fl, e);
    case TNot(_) => TailPredicate(t, opt, tt, fl, e);
    case TAnd(_) => TailPredicate(t, opt, tt, fl, e);
    case TBehind(_, _) => TailPredicate(t, opt, tt, fl, e);
    case TSeq(p1, p2) =>
      SeqGen(t, opt, tt, fl, e, false);
      SeqGen(t, opt, tt, fl, e, true);
      TailGen(p1, false, tt, SeqFollow(p1, p2, fl, e), e);
      TailGen(p2, opt, SeqTest(p1, tt, e), fl, e);
      TailAppend(Gen(p1, false, tt, SeqFollow(p1, p2, fl, e), e, false), Gen(p1, false, tt, SeqFollow(p1, p2, fl, e), e, true),
                 Gen(p2, opt, SeqTest(p1, tt, e), fl, e, false), Gen(p2, opt, SeqTest(p1, tt, e), fl, e, true));
    case TGrammar(rules) =>
      var e' := Env(rules, e.d, e.ids);
      GrammarGen(t, opt, tt, fl, e, false);
      GrammarGen(t, opt, tt, fl, e, true);
      var r, r' := GenRules(t, |rules|, e', false), GenRules(t, |rules|, e', true);
      TailRules(t, |rules|, e');
      TailSize(r.code, r'.code);
      TailCorrected(r.code, r'.code, r.pos);
      TailSame([IJmp(1 + |r.code|)]);
      TailSame([ICall(2)]);
      TailAppend([IJmp(1 + |r.code|)], [IJmp(1 + |r.code|)], PlainCalls(r.code, r.pos), CorrectCalls(r'.code, r.pos, 0));
      TailAppend([ICall(2)], [ICall(2)], [IJmp(1 + |r.code|)] + PlainCalls(r.code, r.pos), [IJmp(1 + |r.code|)] + CorrectCalls(r'.code, r.pos, 0));
    case TTrue =>
      TrueGen(t, opt, tt, fl, e, false);
      TrueGen(t, opt, tt, fl, e, true);
      TailSame([]);
    case TCall(r, _) =>
      CallGen(t, opt, tt, fl, e, false);
      CallGen(t, opt, tt, fl, e, true);
      TailSame([IOpenCall(r)]);
    case _ =>
      LeafGen(t, opt, tt, fl, e, false);
      LeafGen(t, opt, tt, fl, e, true);
      TailSame([LeafInstr(t, tt)]);
  }

  // --- runs with and without tail calls

  // 'st' has, over 'st2', only extra return entries that lead to a return.
  ghost predicate TailStack(b: seq<Instr>, st: Stack, st2: Stack)
    decreases st
  {
    match st
    case Base => st2.Base?
    case Choice(pc, pos, rest) => st2.Choice? && st2.pc == pc && st2.pos == pos && TailStack(b, rest, st2.rest)
    case Ret(pc, rest) => (st2.Ret? && st2.pc == pc && TailStack(b, rest, st2.rest)) || (ToRet(b, pc) && TailStack(b, rest, st2))
  }

  // The plain machine is where the other one is, or on its way to a return at
  // which the other one waits.
  ghost predicate TailConfig(b: seq<Instr>, c: Config, c2: Config) {
    if c.Run? then
      && c2.Run? && c.pos == c2.pos && TailStack(b, c.st, c2.st)
      && (c.pc == c2.pc || (0 <= c2.pc < |b| && b[c2.pc].IRet? && ToRet(b, c.pc)))
    else c == c2
  }

  lemma {:induction false} TailFailTo(b: seq<Instr>, st: Stack, st2: Stack)
    requires TailStack(b, st, st2)
    ensures TailConfig(b, FailTo(st), FailTo(st2))
    decreases st
  {
    if st.Ret? {
      if st2.Ret? && st2.pc == st.pc && TailStack(b, st.rest, st2.rest) {
        TailFailTo(b, st.rest, st2.rest);
      } else {
        TailFailTo(b, st.rest, st2);
      }
    }
  }

  lemma {:induction false} StuckStays(code: seq<Instr>, s: seq<Byte>, c: Config, n: nat)
    requires Step(code, s, c) == Stuck && n > 0
    ensures Steps(code, s, c, n) == Stuck
  {
    HaltedStays(code, s, Stuck, n - 1);
  }

  lemma ToRetStep(b: seq<Instr>, pc: int)
    requires ToRet(b, pc)
    ensures 0 <= pc < |b| && (b[pc].IRet? || (b[pc].IJmp? && ToRet(b, pc + b[pc].off)))
  {
    var k :| Leads(b, pc, k) && IsRetAt(b, k);
    var n: nat :| JumpsTo(b, pc, k, n);
    if n > 0 {
      assert JumpsTo(b, pc + b[pc].off, k, n - 1);
      assert Leads(b, pc + b[pc].off, k);
    }
  }

  // One step of the plain machine is at most one step of the other.
  lemma TailStep(a: seq<Instr>, b: seq<Instr>, s: seq<Byte>, c: Config, c2: Config)
    requires TailOf(a, b) && c.Run? && TailConfig(b, c, c2) && Step(a, s, c) != Stuck
    ensures TailConfig(b, Step(a, s, c), c2) || TailConfig(b, Step(a, s, c), Step(b, s, c2))
  {
    var pc := c.pc;
    assert a[pc] == a[pc];
    if pc != c2.pc {
      ToRetStep(b, pc);
    } else {
      TailFailTo(b, c.st, c2.st);
      if c.st.Choice? {
        TailFailTo(b, c.st.rest, c2.st.rest);
      }
    }
  }

  lemma {:induction false} TailRun(a: seq<Instr>, b: seq<Instr>, s: seq<Byte>, c: Config, c2: Config, n: nat)
    requires TailOf(a, b) && TailConfig(b, c, c2)
    requires Steps(a, s, c, n).Matched? || Steps(a, s, c, n).NoMatch?
    ensures Reach(b, s, c2, Steps(a, s, c, n))
    decreases n
  {
    if !c.Run? {
      HaltedStays(a, s, c, n);
      ReachRefl(b, s, c2);
    } else {
      var c' := Step(a, s, c);
      if c' == Stuck {
        StuckStays(a, s, c, n);
      }
      TailStep(a, b, s, c, c2);
      if TailConfig(b, c', c2) {
        TailRun(a, b, s, c', c2, n - 1);
      } else {
        TailRun(a, b, s, c', Step(b, s, c2), n - 1);
        ReachStep(b, s, c2, Steps(a, s, c, n));
      }
    }
  }

  lemma TailPreserves(a: seq<Instr>, b: seq<Instr>)
    requires TailOf(a, b)
    ensures Preserves(a, b)
  {
    forall s: seq<Byte>, i: nat, out: Config | (out.Matched? || out.NoMatch?) && Reach(a, s, Run(0, i, Base), out)
      ensures Reach(b, s, Run(0, i, Base), out)
    {
      var n: nat :| Steps(a, s, Run(0, i, Base), n) == out;
      TailRun(a, b, s, Run(0, i, Base), Run(0, i, Base), n);
    }
  }

  // The code that the generator emits, with its tail calls, does what the code
  // without them does.
  lemma CompilePreserves(t: Tree, d: nat)
    ensures Preserves(PlainCode(t, d), Compile(t, d))
  {
    hide Gen, TailOf, Preserves;
    var e := Env([], d, Ids(t));
    TailGen(t, false, None, FULLSET, e);
    TailSame([IEnd]);
    TailAppend(Gen(t, false, None, FULLSET, e, false), Gen(t, false, None, FULLSET, e, true), [IEnd], [IEnd]);
    TailPreserves(PlainCode(t, d), Compile(t, d));
  }

  // -------------------------------------------------------------- peephole

  predicate HasLabel(i: Instr) {
    i.IChoice? || i.ICall? || i.ICommit? || i.IPartialCommit? || i.IBackCommit? ||
    i.ITestChar? || i.ITestSet? || i.ITestAny? || i.IJmp?
  }

  function Label(i: Instr): int
    requires HasLabel(i)
  {
    match i
    case IChoice(o) => o
    case ICall(o) => o
    case ICommit(o) => o
    case IPartialCommit(o) => o
    case IBackCommit(o) => o
    case ITestChar(_, o) => o
    case ITestSet(_, o) => o
    case ITestAny(o) => o
    case IJmp(o) => o
  }

  // 'jumptothere': the same instruction with another label.
  function SetLabel(i: Instr, off: int): (i': Instr)
    requires HasLabel(i)
    ensures HasLabel(i') && Label(i') == off
  {
    match i
    case IChoice(_) => IChoice(off)
    case ICall(_) => ICall(off)
    case ICommit(_) => ICommit(off)
    case IPartialCommit(_) => IPartialCommit(off)
    case IBackCommit(_) => IBackCommit(off)
    case ITestChar(c, _) => ITestChar(c, off)
    case ITestSet(cs, _) => ITestSet(cs, off)
    case ITestAny(_) => ITestAny(off)
    case IJmp(_) => IJmp(off)
  }

  predicate IsCommit(i: Instr) { i.ICommit? || i.IPartialCommit? || i.IBackCommit? }

  predicate IsStop(i: Instr) { i.IRet? || i.IFail? || i.IFailTwice? || i.IEnd? }

  // 'x' may replace the instruction at 'i': its label moved along jumps, or a
  // jump became the instruction it leads to.
  ghost predicate Shortens(code: seq<Instr>, i: int, x: Instr) {
    0 <= i < |code| && (Relabels(code, i, x) || exists k :: Becomes(code, i, x, k))
  }

  ghost predicate Relabels(code: seq<Instr>, i: int, x: Instr)
    requires 0 <= i < |code|
  {
    && HasLabel(code[i]) && HasLabel(x)
    && x == SetLabel(code[i], Label(x))
    && Leads(code, i + Label(code[i]), i + Label(x))
  }

  ghost predicate Becomes(code: seq<Instr>, i: int, x: Instr, k: int)
    requires 0 <= i < |code|
  {
    && code[i].IJmp? && Leads(code, i, k) && 0 <= k < |code|
    && (if IsCommit(code[k]) then
          IsCommit(x) && x == SetLabel(code[k], Label(x)) && Leads(code, k + Label(code[k]), i + Label(x))
        else IsStop(code[k]) && x == code[k])
  }

  // The machine on the new code is where the old one is or will be after some
  // jumps, or already at the instruction that its jumps lead to.
  ghost predicate ShortPc(code: seq<Instr>, i: int, x: Instr, pc: int, pc2: int) {
    Leads(code, pc, pc2) || (pc2 == i && 0 <= i < |code| && exists k :: Becomes(code, i, x, k) && Leads(code, pc, k))
  }

  ghost predicate ShortStack(code: seq<Instr>, i: int, x: Instr, st: Stack, st2: Stack)
    decreases st
  {
    match st
    case Base => st2.Base?
    case Choice(pc, pos, rest) => st2.Choice? && ShortPc(code, i, x, pc, st2.pc) && st2.pos == pos && ShortStack(code, i, x, rest, st2.rest)
    case Ret(pc, rest) => st2.Ret? && ShortPc(code, i, x, pc, st2.pc) && ShortStack(code, i, x, rest, st2.rest)
  }

  ghost predicate ShortConfig(code: seq<Instr>, i: int, x: Instr, c: Config, c2: Config) {
    if c.Run? then c2.Run? && c.pos == c2.pos && ShortStack(code, i, x, c.st, c2.st) && ShortPc(code, i, x, c.pc, c2.pc)
    else c == c2
  }

  lemma SamePc(code: seq<Instr>, i: int, x: Instr, pc: int)
    ensures ShortPc(code, i, x, pc, pc)
  {
    assert JumpsTo(code, pc, pc, 0);
  }

  lemma {:induction false} ShortFailTo(code: seq<Instr>, i: int, x: Instr, st: Stack, st2: Stack)
    requires ShortStack(code, i, x, st, st2)
    ensures ShortConfig(code, i, x, FailTo(st), FailTo(st2))
    decreases st
  {
    if st.Ret? {
      ShortFailTo(code, i, x, st.rest, st2.rest);
    }
  }

  // A jump of the old machine that the new one does not make.
  lemma ShortWait(code: seq<Instr>, s: seq<Byte>, c: Config, k: int)
    requires c.Run? && Leads(code, c.pc, k) && c.pc != k
    ensures 0 <= c.pc < |code| && code[c.pc].IJmp?
    ensures Step(code, s, c) == c.(pc := c.pc + code[c.pc].off) && Leads(code, c.pc + code[c.pc].off, k)
  {
    var n: nat :| JumpsTo(code, c.pc, k, n);
    assert n > 0;
    assert JumpsTo(code, c.pc + code[c.pc].off, k, n - 1);
  }

  // Both machines execute the same instruction, which has no label.
  lemma ShortSame(code: seq<Instr>, i: int, x: Instr, s: seq<Byte>, c: Config, c2: Config)
    requires 0 <= i < |code| && c.Run? && ShortConfig(code, i, x, c, c2) && c.pc == c2.pc
    requires Step(code, s, c) != Stuck && c.pc != i && !HasLabel(code[c.pc])
    ensures ShortConfig(code, i, x, Step(code, s, c), Step(code[i := x], s, c2))
  {
    hide ShortPc;
    SamePc(code, i, x, c.pc + 1);
    ShortFailTo(code, i, x, c.st, c2.st);
    if c.st.Choice? {
      ShortFailTo(code, i, x, c.st.rest, c2.st.rest);
    }
  }

  // Both execute the same instruction, whose label may have moved.
  lemma ShortLabel(code: seq<Instr>, i: int, x: Instr, s: seq<Byte>, c: Config, c2: Config)
    requires c.Run? && ShortConfig(code, i, x, c, c2) && c.pc == c2.pc && 0 <= i < |code|
    requires Step(code, s, c) != Stuck && HasLabel(code[c.pc])
    requires c.pc == i ==> Relabels(code, i, x)
    ensures ShortConfig(code, i, x, Step(code, s, c), Step(code[i := x], s, c2))
  {
    hide ShortPc, Leads;
    var ins, ins2 := code[c.pc], code[i := x][c.pc];
    SamePc(code, i, x, c.pc + 1);
    LeadsPc(code, i, x, c.pc + Label(ins), c.pc + Label(ins2)) by {
      if c.pc != i {
        LeadsSelf(code, c.pc + Label(ins));
      }
    }
  }

  lemma LeadsSelf(code: seq<Instr>, pc: int)
    ensures Leads(code, pc, pc)
  {
    assert JumpsTo(code, pc, pc, 0);
  }

  lemma LeadsPc(code: seq<Instr>, i: int, x: Instr, pc: int, pc2: int)
    requires Leads(code, pc, pc2)
    ensures ShortPc(code, i, x, pc, pc2)
  {
  }

  // The old machine has arrived at the instruction that the new one copied.
  lemma ShortArrive(code: seq<Instr>, i: int, x: Instr, k: int, s: seq<Byte>, c: Config, c2: Config)
    requires c.Run? && ShortConfig(code, i, x, c, c2) && 0 <= i < |code|
    requires Becomes(code, i, x, k) && c.pc == k && c2.pc == i
    requires Step(code, s, c) != Stuck
    ensures ShortConfig(code, i, x, Step(code, s, c), Step(code[i := x], s, c2))
  {
    hide Leads;
    ShortFailTo(code, i, x, c.st, c2.st);
    if c.st.Choice? {
      ShortFailTo(code, i, x, c.st.rest, c2.st.rest);
    }
  }

  lemma ShortStep(code: seq<Instr>, i: int, x: Instr, s: seq<Byte>, c: Config, c2: Config)
    requires Shortens(code, i, x) && c.Run? && ShortConfig(code, i, x, c, c2) && Step(code, s, c) != Stuck
    ensures ShortConfig(code, i, x, Step(code, s, c), c2) || ShortConfig(code, i, x, Step(code, s, c), Step(code[i := x], s, c2))
  {
    hide Becomes, Relabels, Leads;
    if Leads(code, c.pc, c2.pc) {
      if c.pc != c2.pc {
        ShortWait(code, s, c, c2.pc);
      } else if c.pc == i && !Relabels(code, i, x) {
        var k :| Becomes(code, i, x, k);
        BecomesStart(code, i, x, k, s, c, c2);
      } else {
        if HasLabel(code[c.pc]) {
          ShortLabel(code, i, x, s, c, c2);
        } else {
          RelabelsLabel(code, i, x);
          ShortSame(code, i, x, s, c, c2);
        }
      }
    } else {
      var k :| Becomes(code, i, x, k) && Leads(code, c.pc, k);
      if c.pc != k {
        ShortWait(code, s, c, k);
      } else {
        ShortArrive(code, i, x, k, s, c, c2);
      }
    }
  }

  lemma RelabelsLabel(code: seq<Instr>, i: int, x: Instr)
    requires 0 <= i < |code|
    ensures Relabels(code, i, x) ==> HasLabel(code[i])
  {
  }

  lemma BecomesStart(code: seq<Instr>, i: int, x: Instr, k: int, s: seq<Byte>, c: Config, c2: Config)
    requires 0 <= i < |code| && Becomes(code, i, x, k) && c.Run? && c2.Run? && c.pc == i && c2.pc == i
    requires ShortConfig(code, i, x, c, c2)
    ensures ShortConfig(code, i, x, Step(code, s, c), c2)
  {
    hide Leads;
    assert k != i;
    ShortWait(code, s, c, k);
  }

  lemma {:induction false} ShortRun(code: seq<Instr>, i: int, x: Instr, s: seq<Byte>, c: Config, c2: Config, n: nat)
    requires Shortens(code, i, x) && ShortConfig(code, i, x, c, c2)
    requires Steps(code, s, c, n).Matched? || Steps(code, s, c, n).NoMatch?
    ensures Reach(code[i := x], s, c2, Steps(code, s, c, n))
    decreases n
  {
    hide Relabels, Becomes;
    if !c.Run? {
      HaltedStays(code, s, c, n);
      ReachRefl(code[i := x], s, c2);
    } else {
      var c' := Step(code, s, c);
      if c' == Stuck {
        StuckStays(code, s, c, n);
      }
      ShortStep(code, i, x, s, c, c2);
      if ShortConfig(code, i, x, c', c2) {
        ShortRun(code, i, x, s, c', c2, n - 1);
      } else {
        ShortRun(code, i, x, s, c', Step(code[i := x], s, c2), n - 1);
        ReachStep(code[i := x], s, c2, Steps(code, s, c, n));
      }
    }
  }

  // One rewriting of the peephole pass keeps the outcome of every run.
  lemma ShortPreserves(code: seq<Instr>, i: int, x: Instr)
    requires Shortens(code, i, x)
    ensures Preserves(code, code[i := x])
  {
    hide Relabels, Becomes;
    forall s: seq<Byte>, p: nat, out: Config | (out.Matched? || out.NoMatch?) && Reach(code, s, Run(0, p, Base), out)
      ensures Reach(code[i := x], s, Run(0, p, Base), out)
    {
      var n: nat :| Steps(code, s, Run(0, p, Base), n) == out;
      SamePc(code, i, x, 0);
      ShortRun(code, i, x, s, Run(0, p, Base), Run(0, p, Base), n);
    }
  }

  // 'finaltarget': where following jumps from 'i' stops.  (LpegJumps shows that
  // it does stop in compiled code; the other branch only totals the function.)
  ghost predicate StopsAt(code: seq<Instr>, i: int, k: int) {
    Leads(code, i, k) && !(0 <= k < |code| && code[k].IJmp?)
  }

  ghost function FinalTarget(code: seq<Instr>, i: int): int {
    if exists k :: StopsAt(code, i, k) then
      var k :| StopsAt(code, i, k);
      k
    else if 0 <= i < |code| && code[i].IJmp? then i + code[i].off
    else i
  }

  ghost function FinalLabel(code: seq<Instr>, i: int): int
    requires 0 <= i < |code| && HasLabel(code[i])
  {
    FinalTarget(code, i + Label(code[i]))
  }

  // What the peephole pass puts at 'i'.
  ghost function PeepAt(code: seq<Instr>, i: nat): Instr
    requires i < |code|
  {
    var ins := code[i];
    if !HasLabel(ins) then ins
    else if !ins.IJmp? then SetLabel(ins, FinalLabel(code, i) - i)
    else
      var ft := FinalTarget(code, i);
      if !(0 <= ft < |code|) then IJmp(ft - i)
      else if IsStop(code[ft]) then code[ft]
      else if IsCommit(code[ft]) then SetLabel(code[ft], FinalLabel(code, ft) - i)
      else IJmp(ft - i)
  }

  // The loop of 'peephole' from instruction 'i' on.  A jump that has become a
  // commit is looked at again ('redo').
  ghost function Peephole(code: seq<Instr>, i: nat): (c: seq<Instr>)
    requires i <= |code|
    ensures |c| == |code|
    decreases |code| - i
  {
    if i == |code| then code else
    var once := code[i := PeepAt(code, i)];
    var code' := if code[i].IJmp? && IsCommit(once[i]) then once[i := PeepAt(once, i)] else once;
    Peephole(code', i + 1)
  }

  lemma FinalLeads(code: seq<Instr>, i: int)
    ensures Leads(code, i, FinalTarget(code, i))
  {
    LeadsSelf(code, i);
    if !(exists k :: StopsAt(code, i, k)) && 0 <= i < |code| && code[i].IJmp? {
      assert JumpsTo(code, i + code[i].off, i + code[i].off, 0);
      assert JumpsTo(code, i, i + code[i].off, 1);
    }
  }

  lemma JumpLeads(code: seq<Instr>, i: nat)
    requires i < |code| && code[i].IJmp?
    ensures Leads(code, i + code[i].off, FinalTarget(code, i))
  {
    if exists k :: StopsAt(code, i, k) {
      assert StopsAt(code, i, FinalTarget(code, i));
      var n: nat :| JumpsTo(code, i, FinalTarget(code, i), n);
      assert n > 0;
      assert JumpsTo(code, i + code[i].off, FinalTarget(code, i), n - 1);
    } else {
      LeadsSelf(code, i + code[i].off);
    }
  }

  lemma PeepShortens(code: seq<Instr>, i: nat)
    requires i < |code|
    ensures PeepAt(code, i) == code[i] || Shortens(code, i, PeepAt(code, i))
  {
    hide Leads, FinalTarget;
    var ins := code[i];
    if HasLabel(ins) {
      FinalLeads(code, i + Label(ins));
      if ins.IJmp? {
        FinalLeads(code, i);
        JumpLeads(code, i);
        var ft := FinalTarget(code, i);
        if 0 <= ft < |code| && IsCommit(code[ft]) {
          FinalLeads(code, ft + Label(code[ft]));
          assert Becomes(code, i, PeepAt(code, i), ft);
        } else if 0 <= ft < |code| && IsStop(code[ft]) {
          assert Becomes(code, i, PeepAt(code, i), ft);
        }
      }
    }
  }

  lemma {:induction false} PeepholePreserves(code: seq<Instr>, i: nat)
    requires i <= |code|
    ensures Preserves(code, Peephole(code, i))
    decreases |code| - i
  {
    hide Shortens, Preserves;
    PreservesRefl(code);
    if i < |code| {
      var once := code[i := PeepAt(code, i)];
      PeepShortens(code, i);
      if PeepAt(code, i) == code[i] {
        assert once == code;
      } else {
        ShortPreserves(code, i, PeepAt(code, i));
      }
      var code' := once;
      if code[i].IJmp? && IsCommit(once[i]) {
        code' := once[i := PeepAt(once, i)];
        PeepShortens(once, i);
        if PeepAt(once, i) == once[i] {
          assert code' == once;
        } else {
          ShortPreserves(once, i, PeepAt(once, i));
          PreservesTrans(code, once, code');
        }
      }
      PeepholePreserves(code', i + 1);
      PreservesTrans(code, code', Peephole(code, i));
    }
  }

  lemma PreservesRefl(a: seq<Instr>)
    ensures Preserves(a, a)
  {
  }

  lemma PreservesTrans(a: seq<Instr>, b: seq<Instr>, c: seq<Instr>)
    requires Preserves(a, b) && Preserves(b, c)
    ensures Preserves(a, c)
  {
    hide Reach;
  }
}
