// The checks that LPeg makes on a grammar before it may be used, and what they
// guarantee: matching with an accepted grammar always ends.
//
// 'keep' tells two versions of verifyrule apart.  The source (keep == false)
// forgets the accumulated answer 'nb' when it meets a sub-grammar, so that its
// answer can be 'not nullable' for a pattern that matches the empty string and
// a left-recursive rule can pass.  With keep == true the answer is kept.

module LpegVerify {
  import opened LpegTree
  import opened LpegAnalysis

  // 'left' is how many more rules may be entered before giving up; None is the
  // error "may be left recursive" or "too many left calls".
  function VerifyRule(t: Tree, g: seq<Tree>, left: nat, nb: bool, d: nat, keep: bool): Option<bool>
    decreases left, t
  {
    match t
    case TChar(_) => Some(nb)
    case TSet(_) => Some(nb)
    case TAny => Some(nb)
    case TFalse => Some(nb)
    case TTrue => Some(true)
    case TBehind(_, _) => Some(true)
    case TNot(p) => VerifyRule(p, g, left, true, d, keep)
    case TAnd(p) => VerifyRule(p, g, left, true, d, keep)
    case TRep(p) => VerifyRule(p, g, left, true, d, keep)
    case TCall(r, _) => if left == 0 || r >= |g| then None else VerifyRule(g[r], g, left - 1, nb, d, keep)
    case TSeq(p1, p2) =>
      (match VerifyRule(p1, g, left, false, d, keep)
       case None => None
       case Some(false) => Some(nb)
       case Some(true) => VerifyRule(p2, g, left, nb, d, keep))
    case TChoice(p1, p2) =>
      (match VerifyRule(p1, g, left, nb, d, keep)
       case None => None
       case Some(nb1) => VerifyRule(p2, g, left, nb1, d, keep))
    case TGrammar(_) => Some((keep && nb) || Nullable(t, g, d))
  }

  predicate CheckLoops(t: Tree, g: seq<Tree>, d: nat) {
    match t
    case TRep(p) => Nullable(p, g, d) || CheckLoops(p, g, d)
    case TNot(p) => CheckLoops(p, g, d)
    case TAnd(p) => CheckLoops(p, g, d)
    case TBehind(_, p) => CheckLoops(p, g, d)
    case TSeq(p1, p2) => CheckLoops(p1, g, d) || CheckLoops(p2, g, d)
    case TChoice(p1, p2) => CheckLoops(p1, g, d) || CheckLoops(p2, g, d)
    case _ => false
  }

  // Rules that a tree calls.
  function Calls(t: Tree): set<nat> {
    match t
    case TRep(p) => Calls(p)
    case TNot(p) => Calls(p)
    case TAnd(p) => Calls(p)
    case TBehind(_, p) => Calls(p)
    case TSeq(p1, p2) => Calls(p1) + Calls(p2)
    case TChoice(p1, p2) => Calls(p1) + Calls(p2)
    case TCall(r, _) => {r}
    case _ => {}
  }

  // The rules that have a key: the initial one and those that are called.
  function Used(g: seq<Tree>): set<nat> {
    {0} + (set k, r | 0 <= k < |g| && r in Calls(g[k]) :: r)
  }

  predicate VerifyGrammar(g: seq<Tree>, d: nat, keep: bool) {
    forall r :: r in Used(g) && r < |g| ==>
      VerifyRule(g[r], g, MAXRULES, false, d, keep).Some? && !CheckLoops(g[r], g, d)
  }

  // Every grammar inside the tree has passed its checks.
  predicate Verified(t: Tree, d: nat, keep: bool) {
    match t
    case TRep(p) => Verified(p, d, keep)
    case TNot(p) => Verified(p, d, keep)
    case TAnd(p) => Verified(p, d, keep)
    case TBehind(_, p) => Verified(p, d, keep)
    case TSeq(p1, p2) => Verified(p1, d, keep) && Verified(p2, d, keep)
    case TChoice(p1, p2) => Verified(p1, d, keep) && Verified(p2, d, keep)
    case TGrammar(rules) => VerifyGrammar(rules, d, keep) && forall k :: 0 <= k < |rules| ==> Verified(rules[k], d, keep)
    case _ => true
  }

  // A pattern that can be matched: built by the constructors, which also
  // refuse the repetition of a nullable pattern (lp_star).
  predicate Finished(t: Tree, d: nat, keep: bool) {
    WellFormed(t, 0) && Verified(t, d, keep) && !CheckLoops(t, [], d)
  }

  // ------------------------------------------------------------ termination

  function Max(a: nat, b: nat): nat { if a < b then b else a }

  // How deep grammars and look-behinds nest.
  function Nest(t: Tree): nat {
    match t
    case TRep(p) => Nest(p)
    case TNot(p) => Nest(p)
    case TAnd(p) => Nest(p)
    case TBehind(_, p) => 1 + Nest(p)
    case TSeq(p1, p2) => Max(Nest(p1), Nest(p2))
    case TChoice(p1, p2) => Max(Nest(p1), Nest(p2))
    case TGrammar(rules) => 1 + NestAll(t, |rules|)
    case _ => 0
  }

  function NestAll(t: Tree, k: nat): nat
    requires t.TGrammar? && k <= |t.rules|
    decreases t, k
  {
    if k == 0 then 0 else Max(NestAll(t, k - 1), Nest(t.rules[k - 1]))
  }

  lemma {:induction false} NestRule(t: Tree, k: nat, r: nat)
    requires t.TGrammar? && r < k <= |t.rules|
    ensures Nest(t.rules[r]) <= NestAll(t, k)
    decreases k
  {
    if r < k - 1 {
      NestRule(t, k - 1, r);
    }
  }

  // The answer of the check that keeps 'nb' never loses it.
  lemma {:induction false} VerifyKeeps(t: Tree, g: seq<Tree>, left: nat, d: nat)
    requires VerifyRule(t, g, left, true, d, true).Some?
    ensures VerifyRule(t, g, left, true, d, true) == Some(true)
    decreases left, t
  {
    match t
    case TNot(p) => VerifyKeeps(p, g, left, d);
    case TAnd(p) => VerifyKeeps(p, g, left, d);
    case TRep(p) => VerifyKeeps(p, g, left, d);
    case TCall(r, _) => VerifyKeeps(g[r], g, left - 1, d);
    case TSeq(p1, p2) =>
      if VerifyRule(p1, g, left, false, d, true) == Some(true) {
        VerifyKeeps(p2, g, left, d);
      }
    case TChoice(p1, p2) => VerifyKeeps(p1, g, left, d); VerifyKeeps(p2, g, left, d);
    case _ =>
  }

  // A pattern reported as not nullable never matches the empty string.
  lemma {:induction false} VerifySound(t: Tree, g: seq<Tree>, left: nat, nb: bool, d: nat, s: seq<Byte>, i: nat, f: nat)
    requires i <= |s| && VerifyRule(t, g, left, nb, d, true) == Some(false)
    ensures !nb && Eval(t, g, s, i, f) != Some(Succ(i))
    decreases left, t
  {
    if nb {
      VerifyKeeps(t, g, left, d);
    }
    match t
    case TNot(p) => VerifyKeeps(p, g, left, d);
    case TAnd(p) => VerifyKeeps(p, g, left, d);
    case TRep(p) => VerifyKeeps(p, g, left, d);
    case TCall(r, _) => if f > 0 { VerifySound(g[r], g, left - 1, nb, d, s, i, f - 1); }
    case TSeq(p1, p2) =>
      if VerifyRule(p1, g, left, false, d, true) == Some(false) {
        VerifySound(p1, g, left, false, d, s, i, f);
      } else if Eval(p1, g, s, i, f) == Some(Succ(i)) {
        VerifySound(p2, g, left, nb, d, s, i, f);
      }
    case TChoice(p1, p2) =>
      var nb1 := VerifyRule(p1, g, left, nb, d, true).value;
      VerifySound(p2, g, left, nb1, d, s, i, f);
      VerifySound(p1, g, left, nb, d, s, i, f);
    case TGrammar(rules) =>
      if Eval(t, g, s, i, f) == Some(Succ(i)) {
        NullableSound(t, g, d, s, i, f);
      }
    case _ =>
  }

  // What is known of the rules that may be called: 'u'.
  ghost predicate EnvOk(g: seq<Tree>, u: set<nat>, d: nat, h: nat) {
    forall r :: r in u ==>
      && r < |g|
      && TreeOk(g[r], g, u, d, h)
      && VerifyRule(g[r], g, MAXRULES, false, d, true).Some?
  }

  ghost predicate TreeOk(t: Tree, g: seq<Tree>, u: set<nat>, d: nat, h: nat) {
    && WellFormed(t, |g|)
    && Calls(t) <= u
    && !CheckLoops(t, g, d)
    && Verified(t, d, true)
    && Nest(t) <= h
  }

  lemma {:induction false} VerifyAnyFlag(t: Tree, g: seq<Tree>, left: nat, nb: bool, nb': bool, d: nat)
    requires VerifyRule(t, g, left, nb, d, true).Some?
    ensures VerifyRule(t, g, left, nb', d, true).Some?
    decreases left, t
  {
    match t
    case TCall(r, _) => VerifyAnyFlag(g[r], g, left - 1, nb, nb', d);
    case TSeq(p1, p2) =>
      if VerifyRule(p1, g, left, false, d, true) == Some(true) {
        VerifyAnyFlag(p2, g, left, nb, nb', d);
      }
    case TChoice(p1, p2) =>
      VerifyAnyFlag(p1, g, left, nb, nb', d);
      VerifyAnyFlag(p2, g, left, VerifyRule(p1, g, left, nb, d, true).value, VerifyRule(p1, g, left, nb', d, true).value, d);
    case _ =>
  }

  // With one more rule to enter, every tree that calls accepted rules passes.
  lemma {:induction false} VerifyAny(t: Tree, g: seq<Tree>, u: set<nat>, d: nat, h: nat, nb: bool)
    requires EnvOk(g, u, d, h) && Calls(t) <= u
    ensures VerifyRule(t, g, MAXRULES + 1, nb, d, true).Some?
    decreases t
  {
    match t
    case TNot(p) => VerifyAny(p, g, u, d, h, true);
    case TAnd(p) => VerifyAny(p, g, u, d, h, true);
    case TRep(p) => VerifyAny(p, g, u, d, h, true);
    case TSeq(p1, p2) => VerifyAny(p1, g, u, d, h, false); VerifyAny(p2, g, u, d, h, nb);
    case TChoice(p1, p2) =>
      VerifyAny(p1, g, u, d, h, nb);
      VerifyAny(p2, g, u, d, h, VerifyRule(p1, g, MAXRULES + 1, nb, d, true).value);
    case TCall(r, _) =>
      assert r in u;
      VerifyAnyFlag(g[r], g, MAXRULES, false, nb, d);
    case _ =>
  }

  lemma {:induction false} EvalClosed(t: Tree, g: seq<Tree>, s: seq<Byte>, i: nat, f: nat)
    requires WellFormed(t, 0) && i <= |s|
    ensures Eval(t, g, s, i, f) == Eval(t, [], s, i, f)
    decreases f, t
  {
    match t
    case TRep(p) =>
      EvalClosed(p, g, s, i, f);
      var o := Eval(p, g, s, i, f);
      if o.Some? && o.value.Succ? && f > 0 {
        EvalClosed(t, g, s, o.value.pos, f - 1);
      }
    case TNot(p) => EvalClosed(p, g, s, i, f);
    case TAnd(p) => EvalClosed(p, g, s, i, f);
    case TBehind(n, p) => if i >= n { EvalClosed(p, g, s, i - n, f); }
    case TSeq(p1, p2) =>
      EvalClosed(p1, g, s, i, f);
      var o := Eval(p1, g, s, i, f);
      if o.Some? && o.value.Succ? {
        EvalClosed(p2, g, s, o.value.pos, f);
      }
    case TChoice(p1, p2) => EvalClosed(p1, g, s, i, f); EvalClosed(p2, g, s, i, f);
    case _ =>
  }

  lemma {:induction false} ClosedCalls(t: Tree)
    requires WellFormed(t, 0)
    ensures Calls(t) == {}
  {
    match t
    case TRep(p) => ClosedCalls(p);
    case TNot(p) => ClosedCalls(p);
    case TAnd(p) => ClosedCalls(p);
    case TBehind(_, p) => ClosedCalls(p);
    case TSeq(p1, p2) => ClosedCalls(p1); ClosedCalls(p2);
    case TChoice(p1, p2) => ClosedCalls(p1); ClosedCalls(p2);
    case _ =>
  }

  lemma {:induction false} LoopsClosed(t: Tree, g: seq<Tree>, d: nat)
    requires WellFormed(t, 0)
    ensures Nullable(t, g, d) == Nullable(t, [], d) && CheckLoops(t, g, d) == CheckLoops(t, [], d)
    decreases t
  {
    match t
    case TRep(p) => LoopsClosed(p, g, d);
    case TNot(p) => LoopsClosed(p, g, d);
    case TAnd(p) => LoopsClosed(p, g, d);
    case TBehind(_, p) => LoopsClosed(p, g, d);
    case TSeq(p1, p2) => LoopsClosed(p1, g, d); LoopsClosed(p2, g, d);
    case TChoice(p1, p2) => LoopsClosed(p1, g, d); LoopsClosed(p2, g, d);
    case _ =>
  }

  lemma {:induction false} CallsInRange(t: Tree, n: nat)
    requires WellFormed(t, n)
    ensures forall r :: r in Calls(t) ==> r < n
  {
    match t
    case TRep(p) => CallsInRange(p, n);
    case TNot(p) => CallsInRange(p, n);
    case TAnd(p) => CallsInRange(p, n);
    case TBehind(_, p) => ClosedCalls(p);
    case TSeq(p1, p2) => CallsInRange(p1, n); CallsInRange(p2, n);
    case TChoice(p1, p2) => CallsInRange(p1, n); CallsInRange(p2, n);
    case _ =>
  }

  // Entering an accepted grammar.
  lemma EnterGrammar(t: Tree, n: nat, d: nat)
    requires t.TGrammar? && WellFormed(t, n) && Verified(t, d, true)
    ensures EnvOk(t.rules, Used(t.rules), d, NestAll(t, |t.rules|)) && 0 in Used(t.rules)
  {
    var g := t.rules;
    forall r | r in Used(g)
      ensures r < |g| && TreeOk(g[r], g, Used(g), d, NestAll(t, |g|)) && VerifyRule(g[r], g, MAXRULES, false, d, true).Some?
    {
      if r != 0 {
        var k :| 0 <= k < |g| && r in Calls(g[k]);
        CallsInRange(g[k], |g|);
      }
      NestRule(t, |g|, r);
      forall q | q in Calls(g[r]) ensures q in Used(g) { }
    }
  }

  // Matching ends.  The measure is: grammar and look-behind nesting, remaining
  // subject, rules that may still be entered without consuming, tree size.
  lemma {:induction false} Terminates(t: Tree, g: seq<Tree>, u: set<nat>, d: nat, h: nat, left: nat, nb: bool,
                                      s: seq<Byte>, i: nat) returns (f: nat)
    requires i <= |s| && EnvOk(g, u, d, h) && TreeOk(t, g, u, d, h)
    requires VerifyRule(t, g, left, nb, d, true).Some?
    ensures Eval(t, g, s, i, f).Some?
    decreases h, |s| - i, left, t, 1
  {
    hide EnvOk, Nullable, Used;
    match t
    case TRep(p) => f := TerminatesRep(t, g, u, d, h, left, nb, s, i);
    case TNot(p) => f := Terminates(p, g, u, d, h, left, true, s, i);
    case TAnd(p) => f := Terminates(p, g, u, d, h, left, true, s, i);
    case TSeq(p1, p2) => f := TerminatesSeq(t, g, u, d, h, left, nb, s, i);
    case TChoice(p1, p2) => f := TerminatesChoice(t, g, u, d, h, left, nb, s, i);
    case TBehind(n, p) => f := TerminatesBehind(t, g, u, d, h, left, nb, s, i);
    case TCall(r, _) =>
      CalledOk(r, g, u, d, h);
      f := Terminates(g[r], g, u, d, h, left - 1, nb, s, i);
      f := f + 1;
    case TGrammar(rules) =>
      EnterGrammar(t, |g|, d);
      CalledOk(0, rules, Used(rules), d, NestAll(t, |rules|));
      f := Terminates(rules[0], rules, Used(rules), d, NestAll(t, |rules|), MAXRULES, false, s, i);
    case _ => f := 0;
  }

  lemma CalledOk(r: nat, g: seq<Tree>, u: set<nat>, d: nat, h: nat)
    requires EnvOk(g, u, d, h) && r in u
    ensures r < |g| && TreeOk(g[r], g, u, d, h) && VerifyRule(g[r], g, MAXRULES, false, d, true).Some?
  {
  }

  lemma ClosedOk(p: Tree, g: seq<Tree>, u: set<nat>, d: nat, h: nat)
    requires WellFormed(p, 0) && !CheckLoops(p, g, d) && Verified(p, d, true) && Nest(p) <= h
    ensures EnvOk([], {}, d, h) && TreeOk(p, [], {}, d, h) && VerifyRule(p, [], MAXRULES + 1, true, d, true).Some?
  {
    ClosedCalls(p);
    LoopsClosed(p, g, d);
    VerifyAny(p, [], {}, d, h, true);
  }

  lemma {:induction false} TerminatesChoice(t: Tree, g: seq<Tree>, u: set<nat>, d: nat, h: nat, left: nat, nb: bool,
                                            s: seq<Byte>, i: nat) returns (f: nat)
    requires t.TChoice? && i <= |s| && EnvOk(g, u, d, h) && TreeOk(t, g, u, d, h)
    requires VerifyRule(t, g, left, nb, d, true).Some?
    ensures Eval(t, g, s, i, f).Some?
    decreases h, |s| - i, left, t, 0
  {
    hide EnvOk, Nullable, Used;
    var TChoice(p1, p2) := t;
    f := Terminates(p1, g, u, d, h, left, nb, s, i);
    if Eval(p1, g, s, i, f).value.Fail? {
      var f2 := Terminates(p2, g, u, d, h, left, VerifyRule(p1, g, left, nb, d, true).value, s, i);
      EvalMonotone(p1, g, s, i, f, f + f2);
      EvalMonotone(p2, g, s, i, f2, f + f2);
      f := f + f2;
    }
  }

  lemma {:induction false} TerminatesBehind(t: Tree, g: seq<Tree>, u: set<nat>, d: nat, h: nat, left: nat, nb: bool,
                                            s: seq<Byte>, i: nat) returns (f: nat)
    requires t.TBehind? && i <= |s| && EnvOk(g, u, d, h) && TreeOk(t, g, u, d, h)
    ensures Eval(t, g, s, i, f).Some?
    decreases h, |s| - i, left, t, 0
  {
    hide EnvOk, Nullable, Used, VerifyRule;
    var TBehind(n, p) := t;
    f := 0;
    if i >= n {
      ClosedOk(p, g, u, d, h - 1);
      f := Terminates(p, [], {}, d, h - 1, MAXRULES + 1, true, s, i - n);
      EvalClosed(p, g, s, i - n, f);
    }
  }

  lemma {:induction false} TerminatesRep(t: Tree, g: seq<Tree>, u: set<nat>, d: nat, h: nat, left: nat, nb: bool,
                                         s: seq<Byte>, i: nat) returns (f: nat)
    requires t.TRep? && i <= |s| && EnvOk(g, u, d, h) && TreeOk(t, g, u, d, h)
    requires VerifyRule(t, g, left, nb, d, true).Some?
    ensures Eval(t, g, s, i, f).Some?
    decreases h, |s| - i, left, t, 0
  {
    hide EnvOk, Nullable;
    f := Terminates(t.p, g, u, d, h, left, true, s, i);
    var r := Eval(t.p, g, s, i, f).value;
    if r.Succ? {
      if r.pos == i {
        NullableSound(t.p, g, d, s, i, f);
      }
      VerifyAny(t, g, u, d, h, true);
      var f2 := Terminates(t, g, u, d, h, MAXRULES + 1, true, s, r.pos);
      var f' := f + f2 + 1;
      EvalMonotone(t.p, g, s, i, f, f');
      EvalMonotone(t, g, s, r.pos, f2, f' - 1);
      f := f';
    }
  }

  lemma {:induction false} TerminatesSeq(t: Tree, g: seq<Tree>, u: set<nat>, d: nat, h: nat, left: nat, nb: bool,
                                         s: seq<Byte>, i: nat) returns (f: nat)
    requires t.TSeq? && i <= |s| && EnvOk(g, u, d, h) && TreeOk(t, g, u, d, h)
    requires VerifyRule(t, g, left, nb, d, true).Some?
    ensures Eval(t, g, s, i, f).Some?
    decreases h, |s| - i, left, t, 0
  {
    hide EnvOk, Nullable;
    var TSeq(p1, p2) := t;
    f := Terminates(p1, g, u, d, h, left, false, s, i);
    var r := Eval(p1, g, s, i, f).value;
    if r.Succ? {
      var f2: nat;
      if r.pos == i {
        if VerifyRule(p1, g, left, false, d, true) == Some(false) {
          VerifySound(p1, g, left, false, d, s, i, f);
        }
        f2 := Terminates(p2, g, u, d, h, left, nb, s, i);
      } else {
        VerifyAny(p2, g, u, d, h, nb);
        f2 := Terminates(p2, g, u, d, h, MAXRULES + 1, nb, s, r.pos);
      }
      EvalMonotone(p1, g, s, i, f, f + f2);
      EvalMonotone(p2, g, s, r.pos, f2, f + f2);
      f := f + f2;
    }
  }

  // Every finished pattern has a meaning at every position of every subject.
  lemma FinishedTerminates(t: Tree, d: nat, s: seq<Byte>, i: nat) returns (r: Result)
    requires Finished(t, d, true) && i <= |s|
    ensures Means(t, [], s, i, r)
  {
    ClosedOk(t, [], {}, d, Nest(t));
    var f := Terminates(t, [], {}, d, Nest(t), MAXRULES + 1, true, s, i);
    r := Eval(t, [], s, i, f).value;
  }

  // ------------------------------------------------- left recursion

  // The pattern can match the empty string, as far as it can be told from the
  // tree and k more rules; a sub-grammar counts as its own check says.
  predicate NullIn(t: Tree, g: seq<Tree>, d: nat, k: nat)
    decreases k, t
  {
    match t
    case TSeq(p1, p2) => NullIn(p1, g, d, k) && NullIn(p2, g, d, k)
    case TChoice(p1, p2) => NullIn(p1, g, d, k) || NullIn(p2, g, d, k)
    case TCall(r, _) => k > 0 && r < |g| && NullIn(g[r], g, d, k - 1)
    case TGrammar(_) => Nullable(t, g, d)
    case _ => t.TTrue? || t.TRep? || t.TNot? || t.TAnd? || t.TBehind?
  }

  ghost predicate Null(t: Tree, g: seq<Tree>, d: nat) { exists k: nat :: NullIn(t, g, d, k) }

  // The pattern calls rule q behind nothing but prefixes that may be empty.
  ghost predicate LeftCall(t: Tree, g: seq<Tree>, d: nat, q: nat) {
    match t
    case TRep(p) => LeftCall(p, g, d, q)
    case TNot(p) => LeftCall(p, g, d, q)
    case TAnd(p) => LeftCall(p, g, d, q)
    case TSeq(p1, p2) => LeftCall(p1, g, d, q) || (Null(p1, g, d) && LeftCall(p2, g, d, q))
    case TChoice(p1, p2) => LeftCall(p1, g, d, q) || LeftCall(p2, g, d, q)
    case TCall(r, _) => r == q
    case _ => false
  }

  // n left calls lead from rule r to rule q.
  ghost predicate Reaches(g: seq<Tree>, d: nat, r: nat, q: nat, n: nat)
    decreases n
  {
    if n == 0 then r == q else r < |g| && exists m: nat :: LeftCall(g[r], g, d, m) && Reaches(g, d, m, q, n - 1)
  }

  ghost predicate LeftRecursive(g: seq<Tree>, d: nat, r: nat) { exists n: nat :: n > 0 && Reaches(g, d, r, r, n) }

  // In no grammar of the tree a rule in use reaches itself.
  ghost predicate NoLeftRecursion(t: Tree, d: nat) {
    match t
    case TRep(p) => NoLeftRecursion(p, d)
    case TNot(p) => NoLeftRecursion(p, d)
    case TAnd(p) => NoLeftRecursion(p, d)
    case TBehind(_, p) => NoLeftRecursion(p, d)
    case TSeq(p1, p2) => NoLeftRecursion(p1, d) && NoLeftRecursion(p2, d)
    case TChoice(p1, p2) => NoLeftRecursion(p1, d) && NoLeftRecursion(p2, d)
    case TGrammar(rules) =>
      && (forall r :: r in Used(rules) ==> !LeftRecursive(rules, d, r))
      && forall k :: 0 <= k < |rules| ==> NoLeftRecursion(rules[k], d)
    case _ => true
  }

  // The other check of every grammar.
  predicate LoopFree(t: Tree, d: nat) {
    match t
    case TRep(p) => LoopFree(p, d)
    case TNot(p) => LoopFree(p, d)
    case TAnd(p) => LoopFree(p, d)
    case TBehind(_, p) => LoopFree(p, d)
    case TSeq(p1, p2) => LoopFree(p1, d) && LoopFree(p2, d)
    case TChoice(p1, p2) => LoopFree(p1, d) && LoopFree(p2, d)
    case TGrammar(rules) =>
      && (forall r :: r in Used(rules) && r < |rules| ==> !CheckLoops(rules[r], rules, d))
      && forall k :: 0 <= k < |rules| ==> LoopFree(rules[k], d)
    case _ => true
  }

  lemma {:induction false} NullMore(t: Tree, g: seq<Tree>, d: nat, k: nat, k': nat)
    requires NullIn(t, g, d, k) && k <= k'
    ensures NullIn(t, g, d, k')
    decreases k, t
  {
    match t
    case TSeq(p1, p2) => NullMore(p1, g, d, k, k'); NullMore(p2, g, d, k, k');
    case TChoice(p1, p2) => if NullIn(p1, g, d, k) { NullMore(p1, g, d, k, k'); } else { NullMore(p2, g, d, k, k'); }
    case TCall(r, _) => NullMore(g[r], g, d, k - 1, k' - 1);
    case _ =>
  }

  // An answer of the check is exact: 'nb', or whether the pattern may be empty.
  lemma {:induction false} AnswerTrue(t: Tree, g: seq<Tree>, left: nat, d: nat)
    requires VerifyRule(t, g, left, false, d, true) == Some(true)
    ensures NullIn(t, g, d, left)
    decreases left, t
  {
    match t
    case TCall(r, _) => AnswerTrue(g[r], g, left - 1, d);
    case TSeq(p1, p2) =>
      AnswerTrue(p1, g, left, d);
      AnswerTrue(p2, g, left, d);
    case TChoice(p1, p2) =>
      if VerifyRule(p1, g, left, false, d, true) == Some(true) {
        AnswerTrue(p1, g, left, d);
      } else {
        AnswerTrue(p2, g, left, d);
      }
    case _ =>
  }

  lemma {:induction false} AnswerNull(t: Tree, g: seq<Tree>, left: nat, nb: bool, d: nat, k: nat)
    requires VerifyRule(t, g, left, nb, d, true).Some? && NullIn(t, g, d, k)
    ensures VerifyRule(t, g, left, nb, d, true) == Some(true)
    decreases left, t
  {
    match t
    case TNot(p) => VerifyKeeps(p, g, left, d);
    case TAnd(p) => VerifyKeeps(p, g, left, d);
    case TRep(p) => VerifyKeeps(p, g, left, d);
    case TCall(r, _) => AnswerNull(g[r], g, left - 1, nb, d, k - 1);
    case TSeq(p1, p2) =>
      AnswerNull(p1, g, left, false, d, k);
      AnswerNull(p2, g, left, nb, d, k);
    case TChoice(p1, p2) =>
      if NullIn(p1, g, d, k) {
        AnswerNull(p1, g, left, nb, d, k);
        VerifyKeeps(p2, g, left, d);
      } else {
        AnswerNull(p2, g, left, VerifyRule(p1, g, left, nb, d, true).value, d, k);
      }
    case _ =>
  }

  lemma {:induction false} LeftIsCall(t: Tree, g: seq<Tree>, d: nat, q: nat)
    requires LeftCall(t, g, d, q)
    ensures q in Calls(t)
  {
    match t
    case TRep(p) => LeftIsCall(p, g, d, q);
    case TNot(p) => LeftIsCall(p, g, d, q);
    case TAnd(p) => LeftIsCall(p, g, d, q);
    case TSeq(p1, p2) => if LeftCall(p1, g, d, q) { LeftIsCall(p1, g, d, q); } else { LeftIsCall(p2, g, d, q); }
    case TChoice(p1, p2) => if LeftCall(p1, g, d, q) { LeftIsCall(p1, g, d, q); } else { LeftIsCall(p2, g, d, q); }
    case _ =>
  }

  // A check that succeeds has entered every rule that is called from the left.
  lemma {:induction false} Entered(t: Tree, g: seq<Tree>, left: nat, nb: bool, d: nat, q: nat)
    requires VerifyRule(t, g, left, nb, d, true).Some? && LeftCall(t, g, d, q)
    ensures q < |g| && left > 0 && VerifyRule(g[q], g, left - 1, false, d, true).Some?
    decreases t
  {
    match t
    case TRep(p) => Entered(p, g, left, true, d, q);
    case TNot(p) => Entered(p, g, left, true, d, q);
    case TAnd(p) => Entered(p, g, left, true, d, q);
    case TCall(r, _) => VerifyAnyFlag(g[r], g, left - 1, nb, false, d);
    case TSeq(p1, p2) =>
      if LeftCall(p1, g, d, q) {
        Entered(p1, g, left, false, d, q);
      } else {
        var k: nat :| NullIn(p1, g, d, k);
        AnswerNull(p1, g, left, false, d, k);
        Entered(p2, g, left, nb, d, q);
      }
    case TChoice(p1, p2) =>
      if LeftCall(p1, g, d, q) {
        Entered(p1, g, left, nb, d, q);
      } else {
        Entered(p2, g, left, VerifyRule(p1, g, left, nb, d, true).value, d, q);
      }
  }

  // And one that fails fails in such a rule.
  lemma {:induction false} FailedIn(t: Tree, g: seq<Tree>, left: nat, nb: bool, d: nat) returns (q: nat)
    requires VerifyRule(t, g, left, nb, d, true).None? && WellFormed(t, |g|)
    ensures q < |g| && LeftCall(t, g, d, q)
    ensures left > 0 ==> VerifyRule(g[q], g, left - 1, false, d, true).None?
    decreases t
  {
    match t {
      case TRep(p) => q := FailedIn(p, g, left, true, d);
      case TNot(p) => q := FailedIn(p, g, left, true, d);
      case TAnd(p) => q := FailedIn(p, g, left, true, d);
      case TCall(r, _) =>
        q := r;
        if left > 0 && VerifyRule(g[r], g, left - 1, false, d, true).Some? {
          VerifyAnyFlag(g[r], g, left - 1, false, nb, d);
        }
      case TSeq(p1, p2) =>
        if VerifyRule(p1, g, left, false, d, true).None? {
          q := FailedIn(p1, g, left, false, d);
        } else {
          AnswerTrue(p1, g, left, d);
          q := FailedIn(p2, g, left, nb, d);
        }
      case TChoice(p1, p2) =>
        if VerifyRule(p1, g, left, nb, d, true).None? {
          q := FailedIn(p1, g, left, nb, d);
        } else {
          q := FailedIn(p2, g, left, VerifyRule(p1, g, left, nb, d, true).value, d);
        }
    }
  }

  // Left calls use up what may still be entered, so a cycle of them is found.
  lemma {:induction false} PathEntered(g: seq<Tree>, left: nat, d: nat, r: nat, q: nat, n: nat)
    requires r < |g| && VerifyRule(g[r], g, left, false, d, true).Some? && Reaches(g, d, r, q, n)
    ensures n <= left && q < |g| && VerifyRule(g[q], g, left - n, false, d, true).Some?
    decreases n
  {
    if n > 0 {
      var m: nat :| LeftCall(g[r], g, d, m) && Reaches(g, d, m, q, n - 1);
      Entered(g[r], g, left, false, d, m);
      PathEntered(g, left - 1, d, m, q, n - 1);
    }
  }

  lemma {:induction false} NoCycle(g: seq<Tree>, left: nat, d: nat, r: nat, n: nat)
    requires r < |g| && VerifyRule(g[r], g, left, false, d, true).Some? && n > 0
    ensures !Reaches(g, d, r, r, n)
    decreases left
  {
    if Reaches(g, d, r, r, n) {
      PathEntered(g, left, d, r, r, n);
      NoCycle(g, left - n, d, r, n);
    }
  }

  ghost predicate LeftPath(g: seq<Tree>, d: nat, path: seq<nat>) {
    (forall i :: 0 <= i < |path| ==> path[i] < |g|) &&
    forall i :: 0 <= i < |path| - 1 ==> LeftCall(g[path[i]], g, d, path[i + 1])
  }

  // A check that gives up has followed as many left calls as it may.
  lemma {:induction false} GaveUp(g: seq<Tree>, left: nat, d: nat, r: nat) returns (path: seq<nat>)
    requires r < |g| && VerifyRule(g[r], g, left, false, d, true).None? && AllWellFormed(g)
    ensures LeftPath(g, d, path) && |path| == left + 2 && path[0] == r
    decreases left
  {
    var q := FailedIn(g[r], g, left, false, d);
    if left == 0 {
      path := [r, q];
    } else {
      var rest := GaveUp(g, left - 1, d, q);
      path := [r] + rest;
    }
  }

  lemma {:induction false} PathReaches(g: seq<Tree>, d: nat, path: seq<nat>, i: nat, j: nat)
    requires LeftPath(g, d, path) && i <= j < |path|
    ensures Reaches(g, d, path[i], path[j], j - i)
    decreases j - i
  {
    if i < j {
      PathReaches(g, d, path, i + 1, j);
    }
  }

  lemma {:induction false} PathUsed(g: seq<Tree>, d: nat, path: seq<nat>, i: nat)
    requires LeftPath(g, d, path) && i < |path| && path[0] in Used(g)
    ensures path[i] in Used(g)
    decreases i
  {
    if i > 0 {
      PathUsed(g, d, path, i - 1);
      LeftIsCall(g[path[i - 1]], g, d, path[i]);
    }
  }

  // More than n numbers below n are not all different.
  lemma {:induction false} Pigeonhole(path: seq<nat>, n: nat) returns (i: nat, j: nat)
    requires |path| > n && forall k :: 0 <= k < |path| ==> path[k] < n
    ensures i < j < |path| && path[i] == path[j]
    decreases n
  {
    var last := |path| - 1;
    if k :| 0 <= k < last && path[k] == path[last] {
      i, j := k, last;
    } else {
      // the number of the last one is not used by the others; the highest takes its place
      var others := seq(last, k requires 0 <= k < last => if path[k] == n - 1 then path[last] else path[k]);
      i, j := Pigeonhole(others, n - 1);
    }
  }

  // The check that keeps the flag passes the rules of a grammar if and only if no
  // rule in use reaches itself by left calls.
  lemma RulesPassIff(g: seq<Tree>, d: nat)
    requires AllWellFormed(g) && 0 < |g| <= MAXRULES
    ensures (forall r :: r in Used(g) && r < |g| ==> VerifyRule(g[r], g, MAXRULES, false, d, true).Some?) <==>
            forall r :: r in Used(g) ==> !LeftRecursive(g, d, r)
  {
    hide VerifyRule, WellFormed, LeftCall;
    if forall r :: r in Used(g) && r < |g| ==> VerifyRule(g[r], g, MAXRULES, false, d, true).Some? {
      forall r | r in Used(g) ensures !LeftRecursive(g, d, r) {
        if LeftRecursive(g, d, r) {
          var n: nat :| n > 0 && Reaches(g, d, r, r, n);
          NoCycle(g, MAXRULES, d, r, n);
        }
      }
    }
    forall r | r in Used(g) && r < |g| && VerifyRule(g[r], g, MAXRULES, false, d, true).None?
      ensures exists q :: q in Used(g) && LeftRecursive(g, d, q)
    {
      var path := GaveUp(g, MAXRULES, d, r);
      var i, j := Pigeonhole(path, |g|);
      PathReaches(g, d, path, i, j);
      PathUsed(g, d, path, i);
      assert LeftRecursive(g, d, path[i]);
    }
  }

  lemma {:induction false} VerifiedIff(t: Tree, n: nat, d: nat)
    requires WellFormed(t, n)
    ensures Verified(t, d, true) <==> LoopFree(t, d) && NoLeftRecursion(t, d)
    decreases t
  {
    hide VerifyRule, CheckLoops, LeftRecursive, Used;
    match t
    case TRep(p) => VerifiedIff(p, n, d);
    case TNot(p) => VerifiedIff(p, n, d);
    case TAnd(p) => VerifiedIff(p, n, d);
    case TBehind(_, p) => VerifiedIff(p, 0, d);
    case TSeq(p1, p2) => VerifiedIff(p1, n, d); VerifiedIff(p2, n, d);
    case TChoice(p1, p2) => VerifiedIff(p1, n, d); VerifiedIff(p2, n, d);
    case TGrammar(rules) =>
      RulesPassIff(rules, d);
      forall k | 0 <= k < |rules| ensures Verified(rules[k], d, true) <==> LoopFree(rules[k], d) && NoLeftRecursion(rules[k], d) {
        VerifiedIff(rules[k], |rules|, d);
      }
    case _ =>
  }

  lemma {:induction false} VerifiedLoopFree(t: Tree, d: nat, keep: bool)
    requires Verified(t, d, keep)
    ensures LoopFree(t, d)
  {
    match t
    case TRep(p) => VerifiedLoopFree(p, d, keep);
    case TNot(p) => VerifiedLoopFree(p, d, keep);
    case TAnd(p) => VerifiedLoopFree(p, d, keep);
    case TBehind(_, p) => VerifiedLoopFree(p, d, keep);
    case TSeq(p1, p2) => VerifiedLoopFree(p1, d, keep); VerifiedLoopFree(p2, d, keep);
    case TChoice(p1, p2) => VerifiedLoopFree(p1, d, keep); VerifiedLoopFree(p2, d, keep);
    case TGrammar(rules) =>
      forall k | 0 <= k < |rules| ensures LoopFree(rules[k], d) {
        VerifiedLoopFree(rules[k], d, keep);
      }
    case _ =>
  }

  // Of the patterns that the source accepts, those without left recursion are
  // exactly the ones that the check with the flag kept would accept.
  lemma AcceptedIff(t: Tree, d: nat)
    requires Finished(t, d, false)
    ensures Finished(t, d, true) <==> NoLeftRecursion(t, d)
  {
    VerifiedLoopFree(t, d, false);
    VerifiedIff(t, 0, d);
  }

  // Patterns that the source accepts and that are not left recursive always end.
  lemma AcceptedTerminates(t: Tree, d: nat, s: seq<Byte>, i: nat) returns (r: Result)
    requires Finished(t, d, false) && NoLeftRecursion(t, d) && i <= |s|
    ensures Means(t, [], s, i, r)
  {
    AcceptedIff(t, d);
    r := FinishedTerminates(t, d, s, i);
  }

  // 'A <- !sub A': left recursive as soon as 'sub' fails.
  function LostFlagGrammar(sub: Tree): Tree { TGrammar([TSeq(TNot(sub), TCall(0, 0))]) }

  // The source accepts this grammar for every sub-grammar that cannot match the
  // empty string, and matching it never ends wherever the sub-grammar fails.
  lemma LostFlag(sub: Tree, d: nat, s: seq<Byte>, i: nat)
    requires sub.TGrammar? && Finished(sub, d, false) && !Nullable(sub, [], d)
    requires i <= |s| && Means(sub, [], s, i, Fail)
    ensures Finished(LostFlagGrammar(sub), d, false)
    ensures !NoLeftRecursion(LostFlagGrammar(sub), d)
    ensures forall r :: !Means(LostFlagGrammar(sub), [], s, i, r)
  {
    LostFlagAccepted(sub, d);
    LostFlagRecursive(sub, d);
    var g := LostFlagGrammar(sub).rules;
    forall f: nat ensures Eval(LostFlagGrammar(sub), [], s, i, f) == None {
      LostFlagLoops(sub, g, s, i, f);
    }
    hide Finished, NoLeftRecursion;
  }

  lemma LostFlagRecursive(sub: Tree, d: nat)
    ensures !NoLeftRecursion(LostFlagGrammar(sub), d)
  {
    var g := LostFlagGrammar(sub).rules;
    assert NullIn(TNot(sub), g, d, 0);
    assert LeftCall(g[0], g, d, 0) by { assert LeftCall(TCall(0, 0), g, d, 0); }
    assert Reaches(g, d, 0, 0, 0);
    assert Reaches(g, d, 0, 0, 1);
    assert 0 in Used(g) && LeftRecursive(g, d, 0);
  }

  lemma LostFlagAccepted(sub: Tree, d: nat)
    requires sub.TGrammar? && Finished(sub, d, false) && !Nullable(sub, [], d)
    ensures Finished(LostFlagGrammar(sub), d, false)
  {
    hide WellFormed, Verified, Nullable, CheckLoops;
    LostFlagWell(sub);
    LostFlagVerified(sub, d);
    GrammarLoops(LostFlagGrammar(sub), d);
  }

  lemma GrammarLoops(t: Tree, d: nat)
    requires t.TGrammar?
    ensures !CheckLoops(t, [], d)
  {
  }

  lemma LostFlagWell(sub: Tree)
    requires sub.TGrammar? && WellFormed(sub, 0)
    ensures WellFormed(LostFlagGrammar(sub), 0)
  {
    var rule, not, call := TSeq(TNot(sub), TCall(0, 0)), TNot(sub), TCall(0, 0);
    assert LostFlagGrammar(sub).rules == [rule];
    GrammarWell(sub);
    hide FixedLen;
    assert WellFormed(call, 1);
    assert WellFormed(not, 1);
    assert WellFormed(rule, 1);
  }

  lemma GrammarWell(sub: Tree)
    requires sub.TGrammar? && WellFormed(sub, 0)
    ensures WellFormed(sub, 1)
  {
  }

  lemma LostFlagVerified(sub: Tree, d: nat)
    requires sub.TGrammar? && Verified(sub, d, false) && !Nullable(sub, [], d)
    ensures Verified(LostFlagGrammar(sub), d, false)
  {
    var rule, not, call := TSeq(TNot(sub), TCall(0, 0)), TNot(sub), TCall(0, 0);
    var g := [rule];
    assert LostFlagGrammar(sub).rules == g && g[0] == rule;
    assert Nullable(sub, g, d) == Nullable(sub, [], d);
    LostFlagRule(sub, g, d);
    hide VerifyRule, Used, Nullable, VerifyGrammar, CheckLoops;
    LostFlagGrammarOk(g, d);
    assert Verified(call, d, false);
    assert Verified(not, d, false);
    assert Verified(rule, d, false);
  }

  lemma LostFlagGrammarOk(g: seq<Tree>, d: nat)
    requires |g| == 1 && VerifyRule(g[0], g, MAXRULES, false, d, false).Some? && !CheckLoops(g[0], g, d)
    ensures VerifyGrammar(g, d, false)
  {
    hide VerifyRule, Used, CheckLoops;
  }

  lemma LostFlagCalls(sub: Tree)
    requires sub.TGrammar?
    ensures Calls(TSeq(TNot(sub), TCall(0, 0))) == {0}
  {
    assert Calls(sub) == {} && Calls(TNot(sub)) == {} && Calls(TCall(0, 0)) == {0 as nat};
  }

  lemma LostFlagRule(sub: Tree, g: seq<Tree>, d: nat)
    requires sub.TGrammar? && !Nullable(sub, g, d)
    ensures VerifyRule(TSeq(TNot(sub), TCall(0, 0)), g, MAXRULES, false, d, false) == Some(false)
    ensures !CheckLoops(TSeq(TNot(sub), TCall(0, 0)), g, d)
  {
    hide Nullable;
    assert VerifyRule(sub, g, MAXRULES, true, d, false) == Some(false);
    assert VerifyRule(TNot(sub), g, MAXRULES, false, d, false) == Some(false);
    assert !CheckLoops(TNot(sub), g, d) && !CheckLoops(TCall(0, 0), g, d);
  }

  lemma {:induction false} LostFlagLoops(sub: Tree, g: seq<Tree>, s: seq<Byte>, i: nat, f: nat)
    requires g == [TSeq(TNot(sub), TCall(0, 0))] && sub.TGrammar?
    requires i <= |s| && Means(sub, [], s, i, Fail)
    ensures Eval(g[0], g, s, i, f) == None
    decreases f
  {
    var o := Eval(sub, g, s, i, f);
    assert o == Eval(sub, [], s, i, f);
    if o.Some? {
      MeansUnique(sub, [], s, i, o.value, Fail);
    }
    if f > 0 {
      LostFlagLoops(sub, g, s, i, f - 1);
    }
  }

  // Such a grammar exists: A <- !{ 'a' } A on the empty subject.
  lemma LostFlagExample(d: nat)
    ensures var t := LostFlagGrammar(TGrammar([TChar(97)])); Finished(t, d, false) && forall r :: !Means(t, [], [], 0, r)
  {
    var sub := TGrammar([TChar(97)]);
    assert sub.rules[0] == TChar(97);
    assert Eval(sub, [], [], 0, 0) == Some(Fail);
    assert Calls(sub.rules[0]) == {};
    forall r | r in Used(sub.rules) ensures r == 0 { }
    assert VerifyGrammar(sub.rules, d, false);
    assert WellFormed(sub.rules[0], 1) && Verified(sub.rules[0], d, false);
    assert !Nullable(sub.rules[0], sub.rules, d);
    LostFlag(sub, d, [], 0);
  }
}
