// For verified patterns the bound on followed calls never decides an answer:
// from a bound on that depends only on the nesting of the pattern, all analyses
// and the generated code stay the same.  The unbounded recursion of the source
// computes these answers.

module LpegSettle {
  import opened LpegTree
  import opened LpegAnalysis
  import opened LpegVm
  import opened LpegGen
  import opened LpegCorrect
  import opened LpegVerify

  const STEP: nat := MAXRULES + 1

  // With more calls followed, fewer patterns look nullable and more look
  // unfailing.
  lemma {:induction false} Antitone(t: Tree, pred: Pred, g: seq<Tree>, d: nat, d': nat)
    requires d <= d'
    ensures pred == PEnullable && CheckAux(t, pred, g, d') ==> CheckAux(t, pred, g, d)
    ensures pred == PEnofail && CheckAux(t, pred, g, d) ==> CheckAux(t, pred, g, d')
    decreases d, t
  {
    match t
    case TAnd(p) => Antitone(p, pred, g, d, d');
    case TSeq(p1, p2) => Antitone(p1, pred, g, d, d'); Antitone(p2, pred, g, d, d');
    case TChoice(p1, p2) => Antitone(p1, pred, g, d, d'); Antitone(p2, pred, g, d, d');
    case TGrammar(rules) => if |rules| > 0 { Antitone(rules[0], pred, rules, d, d'); }
    case TCall(r, _) => if r < |g| && d > 0 { Antitone(g[r], pred, g, d - 1, d' - 1); }
    case _ =>
  }

  // What is nullable is nullable for the check, which looks less deep.
  lemma {:induction false} VerifyNullable(t: Tree, g: seq<Tree>, left: nat, nb: bool, d0: nat, d: nat)
    requires d >= d0 + left && VerifyRule(t, g, left, nb, d0, true).Some? && Nullable(t, g, d)
    ensures VerifyRule(t, g, left, nb, d0, true) == Some(true)
    decreases left, t
  {
    match t
    case TNot(p) => VerifyKeeps(p, g, left, d0);
    case TAnd(p) => VerifyKeeps(p, g, left, d0);
    case TRep(p) => VerifyKeeps(p, g, left, d0);
    case TSeq(p1, p2) =>
      VerifyNullable(p1, g, left, false, d0, d);
      VerifyNullable(p2, g, left, nb, d0, d);
    case TChoice(p1, p2) =>
      var nb1 := VerifyRule(p1, g, left, nb, d0, true).value;
      if Nullable(p1, g, d) {
        VerifyNullable(p1, g, left, nb, d0, d);
        VerifyKeeps(p2, g, left, d0);
      } else {
        VerifyNullable(p2, g, left, nb1, d0, d);
      }
    case TCall(r, _) => VerifyNullable(g[r], g, left - 1, nb, d0, d - 1);
    case TGrammar(_) => Antitone(t, PEnullable, g, d0, d);
    case _ =>
  }

  // The tree may stand where the rules 'u' may be called.
  ghost predicate Fit(t: Tree, g: seq<Tree>, u: set<nat>, d0: nat, h: nat) {
    WellFormed(t, |g|) && Calls(t) <= u && Verified(t, d0, true) && Nest(t) <= h
  }

  // The hypotheses of all that follows: 't' stands in an accepted environment,
  // its left calls are at most 'left' deep, and 'd' is large enough.
  ghost predicate Deep(t: Tree, g: seq<Tree>, u: set<nat>, h: nat, left: nat, nb: bool, d0: nat, d: nat, extra: nat) {
    && EnvOk(g, u, d0, h) && Fit(t, g, u, d0, h)
    && VerifyRule(t, g, left, nb, d0, true).Some?
    && d >= d0 + left + STEP * (h + extra)
  }

  lemma DeepCall(t: Tree, g: seq<Tree>, u: set<nat>, h: nat, left: nat, nb: bool, d0: nat, d: nat, extra: nat)
    requires t.TCall? && Deep(t, g, u, h, left, nb, d0, d, extra)
    ensures t.rule < |g| && left > 0 && d > 0 && Deep(g[t.rule], g, u, h, left - 1, nb, d0, d - 1, extra)
  {
    CalledOk(t.rule, g, u, d0, h);
  }

  lemma DeepGrammar(t: Tree, g: seq<Tree>, u: set<nat>, h: nat, left: nat, nb: bool, d0: nat, d: nat, extra: nat)
    requires t.TGrammar? && Deep(t, g, u, h, left, nb, d0, d, extra)
    ensures var g' := t.rules;
      |g'| > 0 && NestAll(t, |g'|) < h && Deep(g'[0], g', Used(g'), NestAll(t, |g'|), MAXRULES, false, d0, d, extra)
  {
    EnterGrammar(t, |g|, d0);
    var n := NestAll(t, |t.rules|);
    CalledOk(0, t.rules, Used(t.rules), d0, n);
    hide EnvOk, Fit, Used;
    assert n + 1 <= h by { NestIs(t, g, u, d0, h); }
    assert STEP * (h + extra) >= STEP * (n + extra) + STEP;
  }

  lemma NestIs(t: Tree, g: seq<Tree>, u: set<nat>, d0: nat, h: nat)
    requires t.TGrammar? && Fit(t, g, u, d0, h)
    ensures NestAll(t, |t.rules|) + 1 <= h
  {
  }

  lemma DeepFirst(t: Tree, g: seq<Tree>, u: set<nat>, h: nat, left: nat, nb: bool, d0: nat, d: nat, extra: nat)
    requires t.TSeq? && Deep(t, g, u, h, left, nb, d0, d, extra)
    ensures Deep(t.p1, g, u, h, left, false, d0, d, extra)
    ensures Nullable(t.p1, g, d) ==> Deep(t.p2, g, u, h, left, nb, d0, d, extra)
  {
    hide EnvOk, Nullable, NestAll;
    if Nullable(t.p1, g, d) {
      VerifyNullable(t.p1, g, left, false, d0, d);
    }
  }

  // Nullable and nofail settle.
  lemma {:induction false} CheckSettles(t: Tree, pred: Pred, g: seq<Tree>, u: set<nat>, h: nat, left: nat, nb: bool, d0: nat, d: nat, d': nat)
    requires Deep(t, g, u, h, left, nb, d0, d, 0) && d <= d'
    ensures CheckAux(t, pred, g, d') == CheckAux(t, pred, g, d)
    decreases h, left, t
  {
    hide EnvOk, Used, NestAll;
    match t
    case TAnd(p) => CheckSettles(p, pred, g, u, h, left, true, d0, d, d');
    case TSeq(p1, p2) =>
      DeepFirst(t, g, u, h, left, nb, d0, d, 0);
      CheckSettles(p1, pred, g, u, h, left, false, d0, d, d');
      if CheckAux(p1, pred, g, d) {
        if pred == PEnofail {
          NoFailNullable(p1, g, d);
        }
        CheckSettles(p2, pred, g, u, h, left, nb, d0, d, d');
      }
    case TChoice(p1, p2) =>
      CheckSettles(p1, pred, g, u, h, left, nb, d0, d, d');
      CheckSettles(p2, pred, g, u, h, left, VerifyRule(p1, g, left, nb, d0, true).value, d0, d, d');
    case TGrammar(rules) =>
      DeepGrammar(t, g, u, h, left, nb, d0, d, 0);
      CheckSettles(rules[0], pred, rules, Used(rules), NestAll(t, |rules|), MAXRULES, false, d0, d, d');
    case TCall(r, _) =>
      DeepCall(t, g, u, h, left, nb, d0, d, 0);
      CheckSettles(g[r], pred, g, u, h, left - 1, nb, d0, d - 1, d' - 1);
    case _ =>
  }

  // First sets settle.
  lemma {:induction false} FirstSettles(t: Tree, follow: set<Byte>, g: seq<Tree>, u: set<nat>, h: nat, left: nat, nb: bool, d0: nat, d: nat, d': nat)
    requires Deep(t, g, u, h, left, nb, d0, d, 0) && d <= d'
    ensures GetFirst(t, follow, g, d') == GetFirst(t, follow, g, d)
    decreases h, left, t
  {
    hide EnvOk, Used, NestAll, Nullable;
    match t
    case TAnd(p) => FirstSettles(p, follow, g, u, h, left, true, d0, d, d');
    case TRep(p) => FirstSettles(p, follow, g, u, h, left, true, d0, d, d');
    case TSeq(p1, p2) =>
      DeepFirst(t, g, u, h, left, nb, d0, d, 0);
      NullableSettles(p1, g, u, h, left, false, d0, d, d');
      if Nullable(p1, g, d) {
        FirstSettles(p2, follow, g, u, h, left, nb, d0, d, d');
        FirstSettles(p1, GetFirst(p2, follow, g, d).cs, g, u, h, left, false, d0, d, d');
      } else {
        FirstSettles(p1, FULLSET, g, u, h, left, false, d0, d, d');
      }
    case TChoice(p1, p2) =>
      FirstSettles(p1, follow, g, u, h, left, nb, d0, d, d');
      FirstSettles(p2, follow, g, u, h, left, VerifyRule(p1, g, left, nb, d0, true).value, d0, d, d');
    case TGrammar(rules) =>
      DeepGrammar(t, g, u, h, left, nb, d0, d, 0);
      FirstSettles(rules[0], follow, rules, Used(rules), NestAll(t, |rules|), MAXRULES, false, d0, d, d');
    case TCall(r, _) =>
      DeepCall(t, g, u, h, left, nb, d0, d, 0);
      FirstSettles(g[r], follow, g, u, h, left - 1, nb, d0, d - 1, d' - 1);
    case _ =>
  }

  lemma NullableSettles(t: Tree, g: seq<Tree>, u: set<nat>, h: nat, left: nat, nb: bool, d0: nat, d: nat, d': nat)
    requires Deep(t, g, u, h, left, nb, d0, d, 0) && d <= d'
    ensures Nullable(t, g, d') == Nullable(t, g, d)
  {
    CheckSettles(t, PEnullable, g, u, h, left, nb, d0, d, d');
  }

  // Any subtree, wherever it stands: with one more rule to enter it passes.
  lemma AnyDeep(t: Tree, g: seq<Tree>, u: set<nat>, h: nat, d0: nat, d: nat, extra: nat)
    requires EnvOk(g, u, d0, h) && Fit(t, g, u, d0, h) && d >= d0 + STEP * (h + extra + 1)
    ensures Deep(t, g, u, h, STEP, true, d0, d, extra)
  {
    VerifyAny(t, g, u, d0, h, true);
  }

  // Head failure settles; it asks for the nofail of trees that are not first.
  lemma {:induction false} HeadSettles(t: Tree, g: seq<Tree>, u: set<nat>, h: nat, left: nat, nb: bool, d0: nat, d: nat, d': nat)
    requires Deep(t, g, u, h, left, nb, d0, d, 1) && d <= d'
    ensures HeadFail(t, g, d') == HeadFail(t, g, d)
    decreases h, left, t
  {
    hide EnvOk, Used, NestAll, Nullable, NoFail;
    match t
    case TAnd(p) => HeadSettles(p, g, u, h, left, true, d0, d, d');
    case TSeq(p1, p2) =>
      NoFailSettles(t, g, u, h, left, nb, d0, d, d');
      HeadSettles(p1, g, u, h, left, false, d0, d, d');
    case TChoice(p1, p2) =>
      HeadSettles(p1, g, u, h, left, nb, d0, d, d');
      HeadSettles(p2, g, u, h, left, VerifyRule(p1, g, left, nb, d0, true).value, d0, d, d');
    case TGrammar(rules) =>
      DeepGrammar(t, g, u, h, left, nb, d0, d, 1);
      HeadSettles(rules[0], rules, Used(rules), NestAll(t, |rules|), MAXRULES, false, d0, d, d');
    case TCall(r, _) =>
      DeepCall(t, g, u, h, left, nb, d0, d, 1);
      HeadSettles(g[r], g, u, h, left - 1, nb, d0, d - 1, d' - 1);
    case _ =>
  }

  lemma NoFailSettles(t: Tree, g: seq<Tree>, u: set<nat>, h: nat, left: nat, nb: bool, d0: nat, d: nat, d': nat)
    requires t.TSeq? && Deep(t, g, u, h, left, nb, d0, d, 1) && d <= d'
    ensures NoFail(t.p2, g, d') == NoFail(t.p2, g, d)
  {
    AnyDeep(t.p2, g, u, h, d0, d, 0);
    CheckSettles(t.p2, PEnofail, g, u, h, STEP, true, d0, d, d');
  }

  // ------------------------------------------------------------ the code settles

  // From this bound on the analyses of every subtree have settled.
  function Enough(h: nat, d0: nat): nat { d0 + STEP * (h + 2) }

  ghost predicate Settled(t: Tree, e: Env, e': Env, u: set<nat>, h: nat, d0: nat) {
    && e'.g == e.g && e'.ids == e.ids && e.d <= e'.d && e.d >= Enough(h, d0)
    && EnvOk(e.g, u, d0, h) && Fit(t, e.g, u, d0, h)
  }

  lemma Analyses(p: Tree, fl: set<Byte>, e: Env, e': Env, u: set<nat>, h: nat, d0: nat)
    requires Settled(p, e, e', u, h, d0)
    ensures GetFirst(p, fl, e'.g, e'.d) == GetFirst(p, fl, e.g, e.d)
    ensures HeadFail(p, e'.g, e'.d) == HeadFail(p, e.g, e.d)
  {
    assert STEP * (h + 2) == STEP * (h + 1) + STEP;
    AnyDeep(p, e.g, u, h, d0, e.d, 1);
    DeepLess(p, e.g, u, h, STEP, true, d0, e.d);
    FirstSettles(p, fl, e.g, u, h, STEP, true, d0, e.d, e'.d);
    HeadSettles(p, e.g, u, h, STEP, true, d0, e.d, e'.d);
  }

  lemma DeepLess(t: Tree, g: seq<Tree>, u: set<nat>, h: nat, left: nat, nb: bool, d0: nat, d: nat)
    requires Deep(t, g, u, h, left, nb, d0, d, 1)
    ensures Deep(t, g, u, h, left, nb, d0, d, 0)
  {
  }

  lemma ChoiceTests(p1: Tree, p2: Tree, fl: set<Byte>, e: Env, e': Env, u: set<nat>, h: nat, d0: nat)
    requires Settled(p1, e, e', u, h, d0) && Settled(p2, e, e', u, h, d0)
    ensures TestChoice(p1, p2, fl, e') == TestChoice(p1, p2, fl, e)
    ensures SeqFollow(p1, p2, fl, e') == SeqFollow(p1, p2, fl, e)
  {
    Analyses(p1, FULLSET, e, e', u, h, d0);
    Analyses(p2, fl, e, e', u, h, d0);
    hide Settled, GetFirst, HeadFail;
  }

  lemma RepTests(p: Tree, fl: set<Byte>, e: Env, e': Env, u: set<nat>, h: nat, d0: nat)
    requires Settled(p, e, e', u, h, d0)
    ensures TestRep(p, fl, e') == TestRep(p, fl, e)
  {
    Analyses(p, FULLSET, e, e', u, h, d0);
    hide Settled, GetFirst, HeadFail;
  }

  lemma SettledParts(t: Tree, e: Env, e': Env, u: set<nat>, h: nat, d0: nat)
    requires Settled(t, e, e', u, h, d0)
    ensures t.TSeq? || t.TChoice? ==> Settled(t.p1, e, e', u, h, d0) && Settled(t.p2, e, e', u, h, d0)
    ensures t.TRep? || t.TNot? || t.TAnd? || t.TBehind? ==> Settled(t.p, e, e', u, h, d0)
  {
    hide EnvOk;
    if t.TBehind? {
      ClosedCalls(t.p);
      WellFormedMore(t.p, |e.g|);
    }
  }

  lemma {:induction false} ChoiceSettles(t: Tree, opt: bool, tt: Test, fl: set<Byte>, e: Env, e': Env, tail: bool, u: set<nat>, h: nat, d0: nat)
    requires t.TChoice? && Settled(t, e, e', u, h, d0)
    ensures Gen(t, opt, tt, fl, e', tail) == Gen(t, opt, tt, fl, e, tail)
    decreases t, 0
  {
    hide Gen, Settled, TestChoice, GetFirst, HeadFail, TestSet, MaybeTest;
    SettledParts(t, e, e', u, h, d0);
    SameEnv(t, e, e', u, h, d0);
    var TChoice(p1, p2) := t;
    ChoiceTests(p1, p2, fl, e, e', u, h, d0);
    Analyses(p1, FULLSET, e, e', u, h, d0);
    var f1 := GetFirst(p1, FULLSET, e.g, e.d);
    if TestChoice(p1, p2, fl, e) {
      ChoiceTestGen(t, opt, tt, fl, e, tail);
      ChoiceTestGen(t, opt, tt, fl, e', tail);
      GenSettles(p1, false, Some(TestSet(f1.cs, 0)), fl, e, e', tail, u, h, d0);
      GenSettles(p2, opt, None, fl, e, e', tail, u, h, d0);
    } else if opt && p2.TTrue? {
      ReuseGen(t, opt, tt, fl, e, tail);
      ReuseGen(t, opt, tt, fl, e', tail);
      GenSettles(p1, true, None, FULLSET, e, e', tail, u, h, d0);
    } else {
      ChoicePointGen(t, opt, tt, fl, e, tail);
      ChoicePointGen(t, opt, tt, fl, e', tail);
      GenSettles(p1, p2.TTrue?, TestOf(f1), FULLSET, e, e', tail, u, h, d0);
      GenSettles(p2, opt, None, fl, e, e', tail, u, h, d0);
    }
  }

  lemma SameEnv(t: Tree, e: Env, e': Env, u: set<nat>, h: nat, d0: nat)
    requires Settled(t, e, e', u, h, d0)
    ensures e'.g == e.g && e'.ids == e.ids
  {
  }

  lemma {:induction false} LoopSettles(t: Tree, opt: bool, tt: Test, fl: set<Byte>, e: Env, e': Env, tail: bool, u: set<nat>, h: nat, d0: nat)
    requires (t.TRep? || t.TNot?) && Settled(t, e, e', u, h, d0)
    ensures Gen(t, opt, tt, fl, e', tail) == Gen(t, opt, tt, fl, e, tail)
    decreases t, 0
  {
    hide Gen, Settled, TestRep, GetFirst, HeadFail, TestSet, MaybeTest, CodeRepCharset;
    SettledParts(t, e, e', u, h, d0);
    SameEnv(t, e, e', u, h, d0);
    Analyses(t.p, FULLSET, e, e', u, h, d0);
    GenSettles(t.p, false, None, FULLSET, e, e', tail, u, h, d0);
    if t.TNot? {
      NotGen(t, opt, tt, fl, e, tail);
      NotGen(t, opt, tt, fl, e', tail);
    } else if IsCharset(t.p) {
      RepGenCharset(t, opt, tt, fl, e, tail);
      RepGenCharset(t, opt, tt, fl, e', tail);
    } else {
      RepTests(t.p, fl, e, e', u, h, d0);
      var cs := GetFirst(t.p, FULLSET, e.g, e.d).cs;
      GenSettles(t.p, false, Some(TestSet(cs, 0)), FULLSET, e, e', tail, u, h, d0);
      if TestRep(t.p, fl, e) {
        RepTestGen(t, opt, tt, fl, e, tail);
        RepTestGen(t, opt, tt, fl, e', tail);
      } else {
        RepPointGen(t, opt, tt, fl, e, tail);
        RepPointGen(t, opt, tt, fl, e', tail);
      }
    }
  }

  lemma {:induction false} AndSettles(t: Tree, opt: bool, tt: Test, fl: set<Byte>, e: Env, e': Env, tail: bool, u: set<nat>, h: nat, d0: nat)
    requires (t.TAnd? || t.TBehind?) && Settled(t, e, e', u, h, d0)
    ensures Gen(t, opt, tt, fl, e', tail) == Gen(t, opt, tt, fl, e, tail)
    decreases t, 0
  {
    hide Gen, Settled, FixedLen;
    SettledParts(t, e, e', u, h, d0);
    SameEnv(t, e, e', u, h, d0);
    if t.TBehind? {
      GenSettles(t.p, false, None, FULLSET, e, e', tail, u, h, d0);
      BehindGen(t, opt, tt, fl, e, tail);
      BehindGen(t, opt, tt, fl, e', tail);
    } else {
      GenSettles(t.p, false, tt, FULLSET, e, e', tail, u, h, d0);
      if 0 <= AndLen(t.p, e) <= MAXBEHIND {
        AndFixedGen(t, opt, tt, fl, e, tail);
        AndFixedGen(t, opt, tt, fl, e', tail);
      } else {
        AndGen(t, opt, tt, fl, e, tail);
        AndGen(t, opt, tt, fl, e', tail);
      }
    }
  }

  // The code of every tree is the same for all bounds that are large enough.
  lemma {:induction false} GenSettles(t: Tree, opt: bool, tt: Test, fl: set<Byte>, e: Env, e': Env, tail: bool, u: set<nat>, h: nat, d0: nat)
    requires Settled(t, e, e', u, h, d0)
    ensures Gen(t, opt, tt, fl, e', tail) == Gen(t, opt, tt, fl, e, tail)
    decreases t, if t.TGrammar? then |t.rules| + 2 else 1
  {
    hide Gen, Settled, FixedLen, GetFirst, HeadFail, GenRules, LeafInstr, SeqFollow, SeqTest;
    match t
    case TChoice(_, _) => ChoiceSettles(t, opt, tt, fl, e, e', tail, u, h, d0);
    case TRep(_) => LoopSettles(t, opt, tt, fl, e, e', tail, u, h, d0);
    case TNot(_) => LoopSettles(t, opt, tt, fl, e, e', tail, u, h, d0);
    case TAnd(_) => AndSettles(t, opt, tt, fl, e, e', tail, u, h, d0);
    case TBehind(_, _) => AndSettles(t, opt, tt, fl, e, e', tail, u, h, d0);
    case TSeq(p1, p2) =>
      SettledParts(t, e, e', u, h, d0);
      SameEnv(t, e, e', u, h, d0);
      ChoiceTests(p1, p2, fl, e, e', u, h, d0);
      SeqTestSame(p1, tt, e, e');
      SeqGen(t, opt, tt, fl, e, tail);
      SeqGen(t, opt, tt, fl, e', tail);
      GenSettles(p1, false, tt, SeqFollow(p1, p2, fl, e), e, e', tail, u, h, d0);
      GenSettles(p2, opt, SeqTest(p1, tt, e), fl, e, e', tail, u, h, d0);
    case TGrammar(rules) =>
      SameEnv(t, e, e', u, h, d0);
      RulesSettle(t, |rules|, e, e', tail, u, h, d0);
      GrammarGen(t, opt, tt, fl, e, tail);
      GrammarGen(t, opt, tt, fl, e', tail);
    case TTrue =>
      TrueGen(t, opt, tt, fl, e, tail);
      TrueGen(t, opt, tt, fl, e', tail);
    case TCall(_, _) =>
      CallGen(t, opt, tt, fl, e, tail);
      CallGen(t, opt, tt, fl, e', tail);
    case _ =>
      LeafGen(t, opt, tt, fl, e, tail);
      LeafGen(t, opt, tt, fl, e', tail);
  }

  lemma SeqTestSame(p1: Tree, tt: Test, e: Env, e': Env)
    requires e'.g == e.g && e'.ids == e.ids
    ensures SeqTest(p1, tt, e') == SeqTest(p1, tt, e)
  {
  }

  lemma {:induction false} RulesSettle(t: Tree, k: nat, e: Env, e': Env, tail: bool, u: set<nat>, h: nat, d0: nat)
    requires t.TGrammar? && k <= |t.rules| && Settled(t, e, e', u, h, d0)
    ensures GenRules(t, k, Env(t.rules, e'.d, e'.ids), tail) == GenRules(t, k, Env(t.rules, e.d, e.ids), tail)
    decreases t, k
  {
    hide Gen, Settled;
    if k > 0 {
      RulesSettle(t, k - 1, e, e', tail, u, h, d0);
      RuleSettled(t, k - 1, e, e', u, h, d0);
      GenSettles(t.rules[k - 1], false, None, FULLSET, Env(t.rules, e.d, e.ids), Env(t.rules, e'.d, e'.ids), tail,
                 Used(t.rules), NestAll(t, |t.rules|), d0);
    }
  }

  lemma RuleSettled(t: Tree, k: nat, e: Env, e': Env, u: set<nat>, h: nat, d0: nat)
    requires t.TGrammar? && k < |t.rules| && Settled(t, e, e', u, h, d0)
    ensures Settled(t.rules[k], Env(t.rules, e.d, e.ids), Env(t.rules, e'.d, e'.ids), Used(t.rules), NestAll(t, |t.rules|), d0)
  {
    hide EnvOk, Fit, Used, NestAll, WellFormed, Verified;
    FitGrammar(t, e.g, u, d0, h);
    EnterGrammar(t, |e.g|, d0);
    NestIs(t, e.g, u, d0, h);
    FitRule(t, e.g, u, d0, h, k);
    EnoughLess(NestAll(t, |t.rules|), h, d0);
  }

  lemma FitGrammar(t: Tree, g: seq<Tree>, u: set<nat>, d0: nat, h: nat)
    requires Fit(t, g, u, d0, h)
    ensures WellFormed(t, |g|) && Verified(t, d0, true)
  {
  }

  lemma EnoughLess(n: nat, h: nat, d0: nat)
    requires n <= h
    ensures Enough(n, d0) <= Enough(h, d0)
  {
  }

  lemma FitRule(t: Tree, g: seq<Tree>, u: set<nat>, d0: nat, h: nat, k: nat)
    requires t.TGrammar? && k < |t.rules| && Fit(t, g, u, d0, h)
    ensures Fit(t.rules[k], t.rules, Used(t.rules), d0, NestAll(t, |t.rules|))
  {
    NestRule(t, |t.rules|, k);
    forall q | q in Calls(t.rules[k]) ensures q in Used(t.rules) { }
  }

  // One compiled program: beyond a bound given by the nesting of the pattern,
  // the bound does not matter.
  lemma CompileSettles(t: Tree, d0: nat, d: nat, d': nat)
    requires Finished(t, d0, true) && Enough(Nest(t), d0) <= d <= d'
    ensures Compile(t, d') == Compile(t, d)
  {
    ClosedOk(t, [], {}, d0, Nest(t));
    hide Gen;
    GenSettles(t, false, None, FULLSET, Env([], d, Ids(t)), Env([], d', Ids(t)), true, {}, Nest(t), d0);
  }
}
