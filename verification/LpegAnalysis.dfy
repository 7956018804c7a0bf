// The static analyses of the LPeg compiler (nullable, nofail, fixedlen, first
// sets, headfail) and their soundness against the meaning of patterns.
//
// Rule calls are followed at most 'd' deep; at the bound each analysis gives
// its conservative answer.  LpegSettle shows that for verified patterns a large
// enough bound never decides an answer.

module LpegAnalysis {
  import opened LpegTree

  datatype Pred = PEnullable | PEnofail

  function CheckAux(t: Tree, pred: Pred, g: seq<Tree>, d: nat): bool
    decreases d, t
  {
    match t
    case TChar(_) => false
    case TSet(_) => false
    case TAny => false
    case TFalse => false
    case TRep(_) => true
    case TTrue => true
    case TNot(_) => pred == PEnullable
    case TBehind(_, _) => pred == PEnullable
    case TAnd(p) => if pred == PEnullable then true else CheckAux(p, pred, g, d)
    case TSeq(p1, p2) => CheckAux(p1, pred, g, d) && CheckAux(p2, pred, g, d)
    case TChoice(p1, p2) => CheckAux(p2, pred, g, d) || CheckAux(p1, pred, g, d)
    case TGrammar(rules) => if |rules| > 0 then CheckAux(rules[0], pred, rules, d) else pred == PEnullable
    case TCall(r, _) => if r < |g| && d > 0 then CheckAux(g[r], pred, g, d - 1) else pred == PEnullable
  }

  predicate Nullable(t: Tree, g: seq<Tree>, d: nat) { CheckAux(t, PEnullable, g, d) }

  predicate NoFail(t: Tree, g: seq<Tree>, d: nat) { CheckAux(t, PEnofail, g, d) }

  // Number of bytes every match consumes, or -1.  'unmarked' holds the call
  // nodes that have not been marked as visited.
  function FixedLen(t: Tree, g: seq<Tree>, unmarked: set<nat>): int
    decreases unmarked, t
  {
    match t
    case TChar(_) => 1
    case TSet(_) => 1
    case TAny => 1
    case TFalse => 0
    case TTrue => 0
    case TNot(_) => 0
    case TAnd(_) => 0
    case TBehind(_, _) => 0
    case TRep(_) => -1
    case TGrammar(rules) => if |rules| > 0 then FixedLen(rules[0], rules, unmarked) else -1
    case TCall(r, node) =>
      if node in unmarked && r < |g| then FixedLen(g[r], g, unmarked - {node}) else -1
    case TSeq(p1, p2) =>
      var n1 := FixedLen(p1, g, unmarked);
      if n1 < 0 then -1 else
      var n2 := FixedLen(p2, g, unmarked);
      if n2 < 0 then -1 else n1 + n2
    case TChoice(p1, p2) =>
      var n1 := FixedLen(p1, g, unmarked);
      var n2 := FixedLen(p2, g, unmarked);
      if n1 != n2 || n1 < 0 then -1 else n1
  }

  predicate IsCharset(t: Tree) { t.TChar? || t.TSet? || t.TAny? || t.TFalse? }

  function ToCharset(t: Tree): set<Byte>
    requires IsCharset(t)
  {
    match t
    case TChar(c) => {c}
    case TSet(cs) => cs
    case TAny => FULLSET
    case TFalse => {}
  }

  datatype First = First(cs: set<Byte>, e: bool)

  // The first set of 't' when 'follow' is the first set of what comes next;
  // 'e' says that the set cannot be used to skip the pattern at end of input.
  function GetFirst(t: Tree, follow: set<Byte>, g: seq<Tree>, d: nat): First
    decreases d, t
  {
    match t
    case TChar(c) => First({c}, false)
    case TSet(cs) => First(cs, false)
    case TAny => First(FULLSET, false)
    case TFalse => First({}, false)
    case TTrue => First(follow, true)
    case TChoice(p1, p2) =>
      var f1 := GetFirst(p1, follow, g, d);
      var f2 := GetFirst(p2, follow, g, d);
      First(f1.cs + f2.cs, f1.e || f2.e)
    case TSeq(p1, p2) =>
      if !Nullable(p1, g, d) then GetFirst(p1, FULLSET, g, d) else
      var f2 := GetFirst(p2, follow, g, d);
      var f1 := GetFirst(p1, f2.cs, g, d);
      First(f1.cs, f1.e && f2.e)
    case TRep(p) => First(GetFirst(p, follow, g, d).cs + follow, true)
    case TGrammar(rules) =>
      if |rules| > 0 then GetFirst(rules[0], follow, rules, d) else First(FULLSET, true)
    case TCall(r, _) =>
      if r < |g| && d > 0 then GetFirst(g[r], follow, g, d - 1) else First(FULLSET, true)
    case TAnd(p) => var f := GetFirst(p, follow, g, d); First(f.cs * follow, f.e)
    case TNot(p) => First(if IsCharset(p) then FULLSET - ToCharset(p) else follow, true)
    case TBehind(_, _) => First(follow, true)
  }

  function HeadFail(t: Tree, g: seq<Tree>, d: nat): bool
    decreases d, t
  {
    match t
    case TChar(_) => true
    case TSet(_) => true
    case TAny => true
    case TFalse => true
    case TTrue => false
    case TRep(_) => false
    case TNot(_) => false
    case TBehind(_, _) => false
    case TGrammar(rules) => |rules| > 0 && HeadFail(rules[0], rules, d)
    case TAnd(p) => HeadFail(p, g, d)
    case TCall(r, _) => r < |g| && d > 0 && HeadFail(g[r], g, d - 1)
    case TSeq(p1, p2) => NoFail(p2, g, d) && HeadFail(p1, g, d)
    case TChoice(p1, p2) => HeadFail(p1, g, d) && HeadFail(p2, g, d)
  }

  // All call nodes of a tree.
  function Ids(t: Tree): set<nat> {
    match t
    case TRep(p) => Ids(p)
    case TNot(p) => Ids(p)
    case TAnd(p) => Ids(p)
    case TBehind(_, p) => Ids(p)
    case TSeq(p1, p2) => Ids(p1) + Ids(p2)
    case TChoice(p1, p2) => Ids(p1) + Ids(p2)
    case TCall(_, node) => {node}
    case TGrammar(rules) => set k, x | 0 <= k < |rules| && x in Ids(rules[k]) :: x
    case _ => {}
  }

  // What the tree constructors guarantee: calls name existing rules, grammars
  // have rules, and a look-behind body has no calls of its own grammar and a
  // known length (lp_behind).
  predicate WellFormed(t: Tree, n: nat) {
    match t
    case TRep(p) => WellFormed(p, n)
    case TNot(p) => WellFormed(p, n)
    case TAnd(p) => WellFormed(p, n)
    case TBehind(k, p) => k <= MAXBEHIND && WellFormed(p, 0) && FixedLen(p, [], Ids(p)) == k
    case TSeq(p1, p2) => WellFormed(p1, n) && WellFormed(p2, n)
    case TChoice(p1, p2) => WellFormed(p1, n) && WellFormed(p2, n)
    case TCall(r, _) => r < n
    case TGrammar(rules) => 0 < |rules| <= MAXRULES && forall k :: 0 <= k < |rules| ==> WellFormed(rules[k], |rules|)
    case _ => true
  }

  ghost predicate AllWellFormed(g: seq<Tree>) {
    forall r :: 0 <= r < |g| ==> WellFormed(g[r], |g|)
  }

  // ---------------------------------------------------------------- soundness

  lemma {:induction false} NoFailNullable(t: Tree, g: seq<Tree>, d: nat)
    requires NoFail(t, g, d)
    ensures Nullable(t, g, d)
    decreases d, t
  {
    match t
    case TSeq(p1, p2) => NoFailNullable(p1, g, d); NoFailNullable(p2, g, d);
    case TChoice(p1, p2) =>
      if CheckAux(p2, PEnofail, g, d) { NoFailNullable(p2, g, d); } else { NoFailNullable(p1, g, d); }
    case TCall(r, _) => NoFailNullable(g[r], g, d - 1);
    case TGrammar(rules) => NoFailNullable(rules[0], rules, d);
    case _ =>
  }

  // A pattern that matches without consuming is nullable.
  lemma {:induction false} NullableSound(t: Tree, g: seq<Tree>, d: nat, s: seq<Byte>, i: nat, f: nat)
    requires i <= |s| && Eval(t, g, s, i, f) == Some(Succ(i))
    ensures Nullable(t, g, d)
    decreases d, t
  {
    match t
    case TSeq(p1, p2) => NullableSound(p1, g, d, s, i, f); NullableSound(p2, g, d, s, i, f);
    case TChoice(p1, p2) =>
      if Eval(p1, g, s, i, f) == Some(Fail) {
        NullableSound(p2, g, d, s, i, f);
      } else {
        NullableSound(p1, g, d, s, i, f);
      }
    case TCall(r, _) => if d > 0 { NullableSound(g[r], g, d - 1, s, i, f - 1); }
    case TGrammar(rules) => NullableSound(rules[0], rules, d, s, i, f);
    case _ =>
  }

  // A 'nofail' pattern never fails.
  lemma {:induction false} NoFailSound(t: Tree, g: seq<Tree>, d: nat, s: seq<Byte>, i: nat, f: nat)
    requires i <= |s| && NoFail(t, g, d)
    ensures Eval(t, g, s, i, f) != Some(Fail)
    decreases f, t
  {
    match t
    case TRep(p) =>
      var o := Eval(p, g, s, i, f);
      if o.Some? && o.value.Succ? && f > 0 {
        NoFailSound(t, g, d, s, o.value.pos, f - 1);
      }
    case TAnd(p) => NoFailSound(p, g, d, s, i, f);
    case TSeq(p1, p2) =>
      NoFailSound(p1, g, d, s, i, f);
      var o := Eval(p1, g, s, i, f);
      if o.Some? {
        NoFailSound(p2, g, d, s, o.value.pos, f);
      }
    case TChoice(p1, p2) =>
      if CheckAux(p2, PEnofail, g, d) { NoFailSound(p2, g, d, s, i, f); } else { NoFailSound(p1, g, d, s, i, f); }
    case TCall(r, _) => if f > 0 { NoFailSound(g[r], g, d - 1, s, i, f - 1); }
    case TGrammar(rules) => NoFailSound(rules[0], rules, d, s, i, f);
    case _ =>
  }

  // Every match of a pattern with fixed length n consumes exactly n bytes.
  lemma {:induction false} FixedLenSound(t: Tree, g: seq<Tree>, u: set<nat>, s: seq<Byte>, i: nat, f: nat)
    requires i <= |s| && FixedLen(t, g, u) >= 0
    requires Eval(t, g, s, i, f).Some? && Eval(t, g, s, i, f).value.Succ?
    ensures Eval(t, g, s, i, f).value.pos == i + FixedLen(t, g, u)
    decreases f, t
  {
    match t
    case TSeq(p1, p2) =>
      FixedLenSound(p1, g, u, s, i, f);
      FixedLenSound(p2, g, u, s, Eval(p1, g, s, i, f).value.pos, f);
    case TChoice(p1, p2) =>
      if Eval(p1, g, s, i, f) == Some(Fail) {
        FixedLenSound(p2, g, u, s, i, f);
      } else {
        FixedLenSound(p1, g, u, s, i, f);
      }
    case TCall(r, node) => FixedLenSound(g[r], g, u - {node}, s, i, f - 1);
    case TGrammar(rules) => FixedLenSound(rules[0], rules, u, s, i, f);
    case _ =>
  }

  // The body of a look-behind has no calls of its grammar, so its length does
  // not depend on the grammar.
  lemma {:induction false} FixedLenClosed(t: Tree, g: seq<Tree>, u: set<nat>)
    requires WellFormed(t, 0)
    ensures FixedLen(t, g, u) == FixedLen(t, [], u)
    decreases t
  {
    match t
    case TSeq(p1, p2) => FixedLenClosed(p1, g, u); FixedLenClosed(p2, g, u);
    case TChoice(p1, p2) => FixedLenClosed(p1, g, u); FixedLenClosed(p2, g, u);
    case _ =>
  }

  // If 't' succeeds at a byte 'a', then 'a' is in its first set, unless the
  // match is empty and 'a' is not in the follow set.
  lemma {:induction false} FirstSound(t: Tree, follow: set<Byte>, g: seq<Tree>, d: nat, s: seq<Byte>, i: nat, f: nat)
    requires i < |s|
    requires Eval(t, g, s, i, f).Some? && Eval(t, g, s, i, f).value.Succ?
    requires Eval(t, g, s, i, f).value.pos > i || s[i] in follow
    ensures s[i] in GetFirst(t, follow, g, d).cs
    decreases f, t
  {
    match t
    case TChoice(p1, p2) =>
      if Eval(p1, g, s, i, f) == Some(Fail) {
        FirstSound(p2, follow, g, d, s, i, f);
      } else {
        FirstSound(p1, follow, g, d, s, i, f);
      }
    case TSeq(p1, p2) =>
      var j := Eval(p1, g, s, i, f).value.pos;
      if j == i {
        NullableSound(p1, g, d, s, i, f);
        FirstSound(p2, follow, g, d, s, i, f);
        FirstSound(p1, GetFirst(p2, follow, g, d).cs, g, d, s, i, f);
      } else if Nullable(p1, g, d) {
        FirstSound(p1, GetFirst(p2, follow, g, d).cs, g, d, s, i, f);
      } else {
        FirstSound(p1, FULLSET, g, d, s, i, f);
      }
    case TRep(p) =>
      var o := Eval(p, g, s, i, f);
      if o.value.Succ? {
        var j := o.value.pos;
        if j == i {
          FirstSound(t, follow, g, d, s, i, f - 1);
        } else {
          FirstSound(p, follow, g, d, s, i, f);
        }
      }
    case TGrammar(rules) => FirstSound(rules[0], follow, rules, d, s, i, f);
    case TCall(r, _) => if d > 0 { FirstSound(g[r], follow, g, d - 1, s, i, f - 1); }
    case TAnd(p) => FirstSound(p, follow, g, d, s, i, f);
    case _ =>
  }

  // When GetFirst reports 0, the pattern fails at the end of the subject.
  lemma {:induction false} FirstEndSound(t: Tree, follow: set<Byte>, g: seq<Tree>, d: nat, s: seq<Byte>, f: nat)
    requires !GetFirst(t, follow, g, d).e && Eval(t, g, s, |s|, f).Some?
    ensures Eval(t, g, s, |s|, f) == Some(Fail)
    decreases f, t
  {
    match t
    case TChoice(p1, p2) =>
      FirstEndSound(p1, follow, g, d, s, f);
      FirstEndSound(p2, follow, g, d, s, f);
    case TSeq(p1, p2) =>
      if !Nullable(p1, g, d) {
        FirstEndSound(p1, FULLSET, g, d, s, f);
      } else {
        var f2 := GetFirst(p2, follow, g, d);
        if !GetFirst(p1, f2.cs, g, d).e {
          FirstEndSound(p1, f2.cs, g, d, s, f);
        } else {
          var o := Eval(p1, g, s, |s|, f);
          if o.value.Succ? {
            FirstEndSound(p2, follow, g, d, s, f);
          }
        }
      }
    case TGrammar(rules) => FirstEndSound(rules[0], follow, rules, d, s, f);
    case TCall(r, _) => FirstEndSound(g[r], follow, g, d - 1, s, f - 1);
    case TAnd(p) => FirstEndSound(p, follow, g, d, s, f);
    case _ =>
  }

  // A byte outside the first set makes a pattern fail or match nothing in
  // front of something that cannot start with that byte.
  lemma FirstRefutes(t: Tree, follow: set<Byte>, g: seq<Tree>, d: nat, s: seq<Byte>, i: nat, f: nat)
    requires i < |s| && Eval(t, g, s, i, f).Some?
    requires s[i] !in GetFirst(t, follow, g, d).cs
    ensures Eval(t, g, s, i, f) == Some(Fail) || (Eval(t, g, s, i, f) == Some(Succ(i)) && s[i] !in follow)
  {
    if Eval(t, g, s, i, f).value.Succ? && (Eval(t, g, s, i, f).value.pos > i || s[i] in follow) {
      FirstSound(t, follow, g, d, s, i, f);
    }
  }

  lemma {:induction false} NoFailFirst(t: Tree, g: seq<Tree>, d: nat)
    requires NoFail(t, g, d)
    ensures GetFirst(t, FULLSET, g, d).cs == FULLSET
    decreases d, t
  {
    match t
    case TRep(p) => FirstBytes(GetFirst(p, FULLSET, g, d).cs);
    case TAnd(p) => NoFailFirst(p, g, d);
    case TSeq(p1, p2) => NoFailNullable(p1, g, d); NoFailFirst(p1, g, d); NoFailFirst(p2, g, d);
    case TChoice(p1, p2) =>
      FirstBytes(GetFirst(p1, FULLSET, g, d).cs);
      FirstBytes(GetFirst(p2, FULLSET, g, d).cs);
      if CheckAux(p2, PEnofail, g, d) { NoFailFirst(p2, g, d); } else { NoFailFirst(p1, g, d); }
    case TCall(r, _) => NoFailFirst(g[r], g, d - 1);
    case TGrammar(rules) => NoFailFirst(rules[0], rules, d);
    case _ =>
  }

  lemma FirstBytes(cs: set<Byte>)
    ensures cs <= FULLSET
  {
    forall b | b in cs ensures b in FULLSET { }
  }

  // A headfail pattern is never reported as accepting the empty string.
  lemma {:induction false} HeadFailEnd(t: Tree, follow: set<Byte>, g: seq<Tree>, d: nat)
    requires HeadFail(t, g, d)
    ensures !GetFirst(t, follow, g, d).e
    decreases d, t
  {
    match t
    case TGrammar(rules) => HeadFailEnd(rules[0], follow, rules, d);
    case TAnd(p) => HeadFailEnd(p, follow, g, d);
    case TCall(r, _) => HeadFailEnd(g[r], follow, g, d - 1);
    case TSeq(p1, p2) =>
      HeadFailEnd(p1, FULLSET, g, d);
      HeadFailEnd(p1, GetFirst(p2, follow, g, d).cs, g, d);
    case TChoice(p1, p2) => HeadFailEnd(p1, follow, g, d); HeadFailEnd(p2, follow, g, d);
    case _ =>
  }

  // A headfail pattern succeeds at every byte of its first set: success is
  // decided by the next byte alone.
  lemma {:induction false} HeadFailSound(t: Tree, g: seq<Tree>, d: nat, s: seq<Byte>, i: nat, f: nat)
    requires i < |s| && HeadFail(t, g, d) && s[i] in GetFirst(t, FULLSET, g, d).cs
    ensures Eval(t, g, s, i, f) != Some(Fail)
    decreases f, t
  {
    match t
    case TGrammar(rules) => HeadFailSound(rules[0], rules, d, s, i, f);
    case TAnd(p) => HeadFailSound(p, g, d, s, i, f);
    case TCall(r, _) => if f > 0 { HeadFailSound(g[r], g, d - 1, s, i, f - 1); }
    case TSeq(p1, p2) =>
      NoFailFirst(p2, g, d);
      HeadFailSound(p1, g, d, s, i, f);
      var o := Eval(p1, g, s, i, f);
      if o.Some? && o.value.Succ? {
        NoFailSound(p2, g, d, s, o.value.pos, f);
      }
    case TChoice(p1, p2) =>
      if s[i] in GetFirst(p1, FULLSET, g, d).cs {
        HeadFailSound(p1, g, d, s, i, f);
      } else {
        HeadFailSound(p2, g, d, s, i, f);
      }
    case _ =>
  }

  // Together: for a headfail pattern the next byte decides the outcome, both
  // ways, and the end of the subject is a failure.
  lemma HeadFailDecides(t: Tree, g: seq<Tree>, d: nat, s: seq<Byte>, i: nat, f: nat)
    requires i <= |s| && HeadFail(t, g, d) && Eval(t, g, s, i, f).Some?
    ensures Eval(t, g, s, i, f).value.Succ? <==> i < |s| && s[i] in GetFirst(t, FULLSET, g, d).cs
  {
    HeadFailEnd(t, FULLSET, g, d);
    if i == |s| {
      FirstEndSound(t, FULLSET, g, d, s, f);
    } else if s[i] in GetFirst(t, FULLSET, g, d).cs {
      HeadFailSound(t, g, d, s, i, f);
    } else {
      FirstRefutes(t, FULLSET, g, d, s, i, f);
    }
  }
}
