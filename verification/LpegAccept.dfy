// Which patterns LPeg accepts: the checks of a grammar, said of the patterns and
// subjects themselves.

module LpegAccept {
  import opened LpegTree
  import opened LpegAnalysis
  import opened LpegVerify
  import opened LpegBuild
  import opened LpegFlat

  // ------------------------------------------------------------ parts of a pattern

  // 'u' is a part of 't' outside of sub-grammars.
  ghost predicate Part(u: Tree, t: Tree) {
    || u == t
    || ((t.TRep? || t.TNot? || t.TAnd? || t.TBehind?) && Part(u, t.p))
    || ((t.TSeq? || t.TChoice?) && (Part(u, t.p1) || Part(u, t.p2)))
  }

  // 'u' is a part of 't', or of a sub-grammar in it.
  ghost predicate Inside(u: Tree, t: Tree) {
    || u == t
    || ((t.TRep? || t.TNot? || t.TAnd? || t.TBehind?) && Inside(u, t.p))
    || ((t.TSeq? || t.TChoice?) && (Inside(u, t.p1) || Inside(u, t.p2)))
    || (t.TGrammar? && exists k :: 0 <= k < |t.rules| && Inside(u, t.rules[k]))
  }

  // Some repetition outside of sub-grammars has a body that may match nothing.
  ghost predicate EmptyLoop(t: Tree, g: seq<Tree>, d: nat) { exists p: Tree :: Part(TRep(p), t) && Nullable(p, g, d) }

  // checkloops finds such a repetition, and nothing else.
  lemma {:induction false} LoopsIff(t: Tree, g: seq<Tree>, d: nat)
    ensures CheckLoops(t, g, d) <==> EmptyLoop(t, g, d)
    decreases t
  {
    hide Nullable;
    match t {
      case TRep(p) =>
        LoopsIff(p, g, d);
        if Nullable(p, g, d) {
          assert Part(TRep(p), t);
        }
        LoopUp(p, t, g, d);
      case TNot(p) => LoopsIff(p, g, d); LoopUp(p, t, g, d);
      case TAnd(p) => LoopsIff(p, g, d); LoopUp(p, t, g, d);
      case TBehind(_, p) => LoopsIff(p, g, d); LoopUp(p, t, g, d);
      case TSeq(p1, p2) => LoopsIff(p1, g, d); LoopsIff(p2, g, d); LoopUp(p1, t, g, d); LoopUp(p2, t, g, d);
      case TChoice(p1, p2) => LoopsIff(p1, g, d); LoopsIff(p2, g, d); LoopUp(p1, t, g, d); LoopUp(p2, t, g, d);
      case _ =>
    }
  }

  lemma LoopUp(p: Tree, t: Tree, g: seq<Tree>, d: nat)
    requires ((t.TRep? || t.TNot? || t.TAnd? || t.TBehind?) && p == t.p) || ((t.TSeq? || t.TChoice?) && (p == t.p1 || p == t.p2))
    ensures EmptyLoop(p, g, d) ==> EmptyLoop(t, g, d)
  {
    hide Nullable;
    if EmptyLoop(p, g, d) {
      var q: Tree :| Part(TRep(q), p) && Nullable(q, g, d);
      assert Part(TRep(q), t);
    }
  }

  // ------------------------------------------------------------ what is accepted

  // A grammar without left recursion and without empty loops in the rules in use.
  ghost predicate Good(rules: seq<Tree>, d: nat) {
    forall r :: r in Used(rules) && r < |rules| ==> !LeftRecursive(rules, d, r) && !EmptyLoop(rules[r], rules, d)
  }

  // The check of a pattern passes if and only if every grammar in it is good.
  lemma {:induction false} VerifiedExactly(t: Tree, n: nat, d: nat)
    requires WellFormed(t, n)
    ensures Verified(t, d, true) <==> forall rules: seq<Tree> :: Inside(TGrammar(rules), t) ==> Good(rules, d)
    decreases t
  {
    hide VerifyRule, LeftRecursive, Used, EmptyLoop, Good, VerifyGrammar, Nullable;
    match t {
      case TRep(p) => VerifiedExactly(p, n, d);
      case TNot(p) => VerifiedExactly(p, n, d);
      case TAnd(p) => VerifiedExactly(p, n, d);
      case TBehind(_, p) => VerifiedExactly(p, 0, d);
      case TSeq(p1, p2) => VerifiedExactly(p1, n, d); VerifiedExactly(p2, n, d);
      case TChoice(p1, p2) => VerifiedExactly(p1, n, d); VerifiedExactly(p2, n, d);
      case TGrammar(rs) =>
        GoodIff(rs, d);
        forall k | 0 <= k < |rs|
          ensures Verified(rs[k], d, true) <==> forall rules: seq<Tree> :: Inside(TGrammar(rules), rs[k]) ==> Good(rules, d)
        {
          VerifiedExactly(rs[k], |rs|, d);
        }
        InsideRules(rs, d);
      case _ =>
    }
  }

  lemma InsideRules(rs: seq<Tree>, d: nat)
    ensures (forall rules: seq<Tree> :: Inside(TGrammar(rules), TGrammar(rs)) ==> Good(rules, d)) <==>
      Good(rs, d) && forall k :: 0 <= k < |rs| ==> forall rules: seq<Tree> :: Inside(TGrammar(rules), rs[k]) ==> Good(rules, d)
  {
    hide Good;
    var t := TGrammar(rs);
    assert Inside(TGrammar(rs), t);
    forall k, rules: seq<Tree> | 0 <= k < |rs| && Inside(TGrammar(rules), rs[k]) ensures Inside(TGrammar(rules), t) {
    }
  }

  lemma GoodIff(rs: seq<Tree>, d: nat)
    requires WellFormed(TGrammar(rs), 0)
    ensures VerifyGrammar(rs, d, true) <==> Good(rs, d)
  {
    hide VerifyRule, LeftRecursive, CheckLoops, EmptyLoop, Nullable;
    RulesPassIff(rs, d);
    UsedInRange(rs);
    forall r | r in Used(rs) && r < |rs| ensures CheckLoops(rs[r], rs, d) <==> EmptyLoop(rs[r], rs, d) {
      LoopsIff(rs[r], rs, d);
    }
    hide Used;
  }

  lemma UsedInRange(rs: seq<Tree>)
    requires WellFormed(TGrammar(rs), 0)
    ensures AllWellFormed(rs) && 0 < |rs| <= MAXRULES && forall r :: r in Used(rs) ==> r < |rs|
  {
    forall r | r in Used(rs) ensures r < |rs| {
      if r != 0 {
        var k :| 0 <= k < |rs| && r in Calls(rs[k]);
        CallsInRange(rs[k], |rs|);
      }
    }
  }

  // What a check that keeps the flag accepts, the source's own check accepts.
  lemma {:induction false} ForgetfulPasses(t: Tree, g: seq<Tree>, left: nat, nb: bool, nb': bool, d: nat)
    requires VerifyRule(t, g, left, nb, d, true).Some? && (nb' ==> nb)
    ensures var a := VerifyRule(t, g, left, nb', d, false); a.Some? && (a.value ==> VerifyRule(t, g, left, nb, d, true).value)
    decreases left, t
  {
    hide Nullable;
    match t
    case TNot(p) => ForgetfulPasses(p, g, left, true, true, d);
    case TAnd(p) => ForgetfulPasses(p, g, left, true, true, d);
    case TRep(p) => ForgetfulPasses(p, g, left, true, true, d);
    case TCall(r, _) => ForgetfulPasses(g[r], g, left - 1, nb, nb', d);
    case TSeq(p1, p2) =>
      ForgetfulPasses(p1, g, left, false, false, d);
      if VerifyRule(p1, g, left, false, d, true) == Some(true) {
        ForgetfulPasses(p2, g, left, nb, nb', d);
        if nb {
          VerifyKeeps(p2, g, left, d);
        }
      }
    case TChoice(p1, p2) =>
      ForgetfulPasses(p1, g, left, nb, nb', d);
      ForgetfulPasses(p2, g, left, VerifyRule(p1, g, left, nb, d, true).value, VerifyRule(p1, g, left, nb', d, false).value, d);
    case _ =>
  }

  // So every pattern whose grammars are good is accepted by the source.
  lemma {:induction false} GoodAccepted(t: Tree, d: nat)
    requires Verified(t, d, true)
    ensures Verified(t, d, false)
    decreases t
  {
    hide VerifyRule, CheckLoops, Used;
    match t
    case TRep(p) => GoodAccepted(p, d);
    case TNot(p) => GoodAccepted(p, d);
    case TAnd(p) => GoodAccepted(p, d);
    case TBehind(_, p) => GoodAccepted(p, d);
    case TSeq(p1, p2) => GoodAccepted(p1, d); GoodAccepted(p2, d);
    case TChoice(p1, p2) => GoodAccepted(p1, d); GoodAccepted(p2, d);
    case TGrammar(rules) =>
      forall r | r in Used(rules) && r < |rules| ensures VerifyRule(rules[r], rules, MAXRULES, false, d, false).Some? {
        ForgetfulPasses(rules[r], rules, MAXRULES, false, false, d);
      }
      forall k | 0 <= k < |rules| ensures Verified(rules[k], d, false) {
        GoodAccepted(rules[k], d);
      }
    case _ =>
  }

  // A finished pattern, both ways: its grammars are good, and outside of them no
  // repetition has a body that may match nothing.  The source accepts all of these.
  lemma FinishedExactly(t: Tree, d: nat)
    requires WellFormed(t, 0)
    ensures Finished(t, d, true) <==>
      !EmptyLoop(t, [], d) && forall rules: seq<Tree> :: Inside(TGrammar(rules), t) ==> Good(rules, d)
    ensures Finished(t, d, true) ==> Finished(t, d, false)
  {
    VerifiedExactly(t, 0, d);
    LoopsIff(t, [], d);
    if Verified(t, d, true) {
      GoodAccepted(t, d);
    }
    hide Verified, CheckLoops, EmptyLoop, Good, Inside;
  }

  // ------------------------------------------------------------ nullable patterns

  // The pattern with every predicate taken to succeed.
  function Plain(t: Tree): Tree {
    match t
    case TRep(p) => TRep(Plain(p))
    case TSeq(p1, p2) => TSeq(Plain(p1), Plain(p2))
    case TChoice(p1, p2) => TChoice(Plain(p1), Plain(p2))
    case TNot(_) => TTrue
    case TAnd(_) => TTrue
    case TBehind(_, _) => TTrue
    case TGrammar(rules) => TGrammar(seq(|rules|, k requires 0 <= k < |rules| => Plain(rules[k])))
    case _ => t
  }

  function PlainAll(g: seq<Tree>): seq<Tree> { seq(|g|, k requires 0 <= k < |g| => Plain(g[k])) }

  // A pattern is nullable if and only if it matches the empty subject when its
  // predicates are taken to succeed; the bound on calls must not have been reached.
  lemma {:induction false} NullableIff(t: Tree, g: seq<Tree>, d: nat, f: nat)
    requires Eval(Plain(t), PlainAll(g), [], 0, f).Some? && f <= d
    ensures Eval(Plain(t), PlainAll(g), [], 0, f) == Some(if Nullable(t, g, d) then Succ(0) else Fail)
    decreases f, t
  {
    match t
    case TRep(p) =>
      NullableIff(p, g, d, f);
      if Eval(Plain(p), PlainAll(g), [], 0, f) == Some(Succ(0)) {
        NullableIff(t, g, d, f - 1);
      }
    case TSeq(p1, p2) =>
      NullableIff(p1, g, d, f);
      if Eval(Plain(p1), PlainAll(g), [], 0, f) == Some(Succ(0)) {
        NullableIff(p2, g, d, f);
      }
    case TChoice(p1, p2) =>
      NullableIff(p1, g, d, f);
      if Eval(Plain(p1), PlainAll(g), [], 0, f) == Some(Fail) {
        NullableIff(p2, g, d, f);
      } else {
        assert Nullable(p1, g, d);
      }
    case TGrammar(rules) =>
      assert Plain(t).rules == PlainAll(rules);
      NullableIff(rules[0], rules, d, f);
    case TCall(r, _) => NullableIff(g[r], g, d - 1, f - 1);
    case _ =>
  }

  // A pattern without predicates.
  predicate IsPlain(t: Tree) {
    match t
    case TRep(p) => IsPlain(p)
    case TSeq(p1, p2) => IsPlain(p1) && IsPlain(p2)
    case TChoice(p1, p2) => IsPlain(p1) && IsPlain(p2)
    case TGrammar(rules) => |rules| > 0 && forall k :: 0 <= k < |rules| ==> IsPlain(rules[k])
    case TNot(_) => false
    case TAnd(_) => false
    case TBehind(_, _) => false
    case _ => true
  }

  // Without predicates a pattern never fails if and only if it may match nothing, and
  // its first set accepts the end of the subject if and only if it does; a pattern with
  // a predicate may fail though it is nullable.
  lemma {:induction false} PlainAnalyses(t: Tree, g: seq<Tree>, d: nat, f: nat)
    requires IsPlain(t) && (forall k :: 0 <= k < |g| ==> IsPlain(g[k]))
    requires Eval(Plain(t), PlainAll(g), [], 0, f).Some? && f <= d
    ensures NoFail(t, g, d) <==> Nullable(t, g, d)
    ensures forall follow :: GetFirst(t, follow, g, d).e <==> Nullable(t, g, d)
    decreases f, t
  {
    NullableIff(t, g, d, f);
    match t
    case TRep(_) =>
    case TSeq(p1, p2) =>
      PlainAnalyses(p1, g, d, f);
      NullableIff(p1, g, d, f);
      if Nullable(p1, g, d) {
        PlainAnalyses(p2, g, d, f);
      }
    case TChoice(p1, p2) =>
      PlainAnalyses(p1, g, d, f);
      NullableIff(p1, g, d, f);
      if Nullable(p1, g, d) {
        ChoiceEnd(p1, p2, g, d);
      } else {
        PlainAnalyses(p2, g, d, f);
      }
    case TGrammar(rules) =>
      assert Plain(t).rules == PlainAll(rules);
      PlainAnalyses(rules[0], rules, d, f);
    case TCall(r, _) => PlainAnalyses(g[r], g, d - 1, f - 1);
    case _ =>
  }

  lemma ChoiceEnd(p1: Tree, p2: Tree, g: seq<Tree>, d: nat)
    ensures forall follow :: GetFirst(p1, follow, g, d).e ==> GetFirst(TChoice(p1, p2), follow, g, d).e
    ensures NoFail(p1, g, d) ==> NoFail(TChoice(p1, p2), g, d)
    ensures Nullable(p1, g, d) ==> Nullable(TChoice(p1, p2), g, d)
  {
  }

  // ------------------------------------------------------------ what is built is well formed

  lemma BuiltWell(p1: Tree, p2: Tree, n: nat, d: nat)
    requires WellFormed(p1, n) && WellFormed(p2, n)
    ensures WellFormed(TNot(p1), n) && WellFormed(TAnd(p1), n)
    ensures WellFormed(SeqOf(p1, p2), n) && WellFormed(ChoiceOf(p1, p2, d), n) && WellFormed(SubOf(p1, p2), n)
  {
    hide LpegBuild.ToCharset, NoFail;
    forall cs ensures WellFormed(NewCharset(cs), n) {
    }
  }

  lemma {:induction false} PowersWell(p: Tree, m: nat, n: nat)
    requires WellFormed(p, n)
    ensures WellFormed(AtLeast(p, m), n) && (m > 0 ==> WellFormed(AtMost(p, m), n))
    decreases m
  {
    if m > 0 {
      PowersWell(p, m - 1, n);
    }
  }

  // ------------------------------------------------------------ an example

  // S <- ('a' 'b')*
  lemma PairsAccepted(d: nat)
    ensures Finished(TGrammar([TRep(TSeq(TChar(97), TChar(98)))]), d, false)
  {
    var p := TSeq(TChar(97), TChar(98));
    var rules := [TRep(p)];
    var t := TGrammar(rules);
    assert WellFormed(p, 1);
    assert WellFormed(rules[0], 1);
    assert !Nullable(p, rules, d) by { assert !Nullable(TChar(97), rules, d); }
    assert VerifyRule(p, rules, MAXRULES, true, d, false) == Some(true) by {
      assert VerifyRule(TChar(97), rules, MAXRULES, false, d, false) == Some(false);
    }
    assert !CheckLoops(p, rules, d) by { assert !CheckLoops(TChar(97), rules, d) && !CheckLoops(TChar(98), rules, d); }
    assert Verified(p, d, false) by { assert Verified(TChar(97), d, false) && Verified(TChar(98), d, false); }
    assert Verified(rules[0], d, false);
  }
}
