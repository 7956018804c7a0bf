// How patterns are put together: the operators with their simplifications, and powers.

module LpegBuild {

  import opened LpegTree
  import opened LpegAnalysis

  // Two patterns with one meaning, in every grammar, on every subject.
  ghost predicate Same(t: Tree, u: Tree) {
    forall g: seq<Tree>, s: seq<Byte>, i: nat, f: nat :: i <= |s| ==> Eval(t, g, s, i, f) == Eval(u, g, s, i, f)
  }

  // ------------------------------------------------------------ operators

  function ToCharset(t: Tree): Option<set<Byte>> {
    match t
    case TChar(c) => Some({c})
    case TAny => Some(FULLSET)
    case TFalse => Some({})
    case TSet(cs) => Some(cs)
    case _ => None
  }

  function NewCharset(cs: set<Byte>): Tree {
    if cs == {} then TFalse
    else if cs == FULLSET then TAny
    else if |cs| == 1 then (var c :| c in cs; Single(cs, c); TChar(c))
    else TSet(cs)
  }

  lemma Single(cs: set<Byte>, c: Byte)
    requires |cs| == 1 && c in cs
    ensures cs == {c}
  {
    assert |cs - {c}| == 0;
    assert cs - {c} == {};
  }

  lemma CharsetMeans(t: Tree, g: seq<Tree>, s: seq<Byte>, i: nat, f: nat)
    requires i <= |s| && ToCharset(t).Some?
    ensures Eval(t, g, s, i, f) == Some(if i < |s| && s[i] in ToCharset(t).value then Succ(i + 1) else Fail)
  {
  }

  lemma NewMeans(cs: set<Byte>)
    ensures ToCharset(NewCharset(cs)) == Some(cs)
  {
    if |cs| == 1 && cs != FULLSET {
      var c := NewCharset(cs).c;
      Single(cs, c);
    }
  }

  // lp_seq
  function SeqOf(t1: Tree, t2: Tree): Tree {
    if t1.TFalse? || t2.TTrue? then t1 else if t1.TTrue? then t2 else TSeq(t1, t2)
  }

  lemma SeqOfMeans(t1: Tree, t2: Tree)
    ensures Same(SeqOf(t1, t2), TSeq(t1, t2))
  {
  }

  // lp_choice, outside of any grammar
  function ChoiceOf(t1: Tree, t2: Tree, d: nat): Tree {
    var cs1, cs2 := ToCharset(t1), ToCharset(t2);
    if cs1.Some? && cs2.Some? then NewCharset(cs1.value + cs2.value)
    else if NoFail(t1, [], d) || t2.TFalse? then t1
    else if t1.TFalse? then t2
    else TChoice(t1, t2)
  }

  // What holds of a pattern outside of a grammar holds inside of any.
  lemma {:induction false} NoFailInside(t: Tree, g: seq<Tree>, d: nat)
    requires NoFail(t, [], d)
    ensures NoFail(t, g, d)
    decreases t
  {
    match t
    case TSeq(p1, p2) => NoFailInside(p1, g, d); NoFailInside(p2, g, d);
    case TChoice(p1, p2) => if NoFail(p2, [], d) { NoFailInside(p2, g, d); } else { NoFailInside(p1, g, d); }
    case TAnd(p) => NoFailInside(p, g, d);
    case _ =>
  }

  lemma ChoiceOfMeans(t1: Tree, t2: Tree, d: nat)
    ensures Same(ChoiceOf(t1, t2, d), TChoice(t1, t2))
  {
    var cs1, cs2 := ToCharset(t1), ToCharset(t2);
    forall g: seq<Tree>, s: seq<Byte>, i: nat, f: nat | i <= |s|
      ensures Eval(ChoiceOf(t1, t2, d), g, s, i, f) == Eval(TChoice(t1, t2), g, s, i, f)
    {
      if cs1.Some? && cs2.Some? {
        UnionMeans(t1, t2, g, s, i, f);
      } else if NoFail(t1, [], d) {
        NoFailInside(t1, g, d);
        NoFailSound(t1, g, d, s, i, f);
      }
      hide NewCharset, ToCharset, NoFail;
    }
  }

  lemma UnionMeans(t1: Tree, t2: Tree, g: seq<Tree>, s: seq<Byte>, i: nat, f: nat)
    requires i <= |s| && ToCharset(t1).Some? && ToCharset(t2).Some?
    ensures Eval(NewCharset(ToCharset(t1).value + ToCharset(t2).value), g, s, i, f) == Eval(TChoice(t1, t2), g, s, i, f)
  {
    var cs := ToCharset(t1).value + ToCharset(t2).value;
    NewMeans(cs);
    CharsetMeans(NewCharset(cs), g, s, i, f);
    CharsetMeans(t1, g, s, i, f);
    CharsetMeans(t2, g, s, i, f);
    hide NewCharset, ToCharset;
  }

  // lp_sub
  function SubOf(t1: Tree, t2: Tree): Tree {
    var cs1, cs2 := ToCharset(t1), ToCharset(t2);
    if cs1.Some? && cs2.Some? then NewCharset(cs1.value - cs2.value) else TSeq(TNot(t2), t1)
  }

  lemma SubOfMeans(t1: Tree, t2: Tree)
    ensures Same(SubOf(t1, t2), TSeq(TNot(t2), t1))
  {
    var cs1, cs2 := ToCharset(t1), ToCharset(t2);
    if cs1.Some? && cs2.Some? {
      forall g: seq<Tree>, s: seq<Byte>, i: nat, f: nat | i <= |s|
        ensures Eval(SubOf(t1, t2), g, s, i, f) == Eval(TSeq(TNot(t2), t1), g, s, i, f)
      {
        NewMeans(cs1.value - cs2.value);
        CharsetMeans(SubOf(t1, t2), g, s, i, f);
        CharsetMeans(t1, g, s, i, f);
        CharsetMeans(t2, g, s, i, f);
      }
    }
  }

  // ------------------------------------------------------------ powers

  // lp_star with n >= 0
  function AtLeast(p: Tree, n: nat): Tree { if n == 0 then TRep(p) else TSeq(p, AtLeast(p, n - 1)) }

  // lp_star with -n
  function AtMost(p: Tree, n: nat): Tree
    requires n > 0
  {
    if n == 1 then TChoice(p, TTrue) else TChoice(TSeq(p, AtMost(p, n - 1)), TTrue)
  }

  // Exactly k matches of 'p' one after the other lead from i to j.
  ghost predicate Matches(p: Tree, g: seq<Tree>, s: seq<Byte>, i: nat, k: nat, j: nat)
    decreases k
  {
    i <= |s| && if k == 0 then j == i else exists m: nat :: m <= |s| && Means(p, g, s, i, Succ(m)) && Matches(p, g, s, m, k - 1, j)
  }

  ghost predicate MayStop(p: Tree, g: seq<Tree>, s: seq<Byte>, i: nat, k: nat, j: nat) {
    Matches(p, g, s, i, k, j) && j <= |s| && Means(p, g, s, j, Fail)
  }

  // A bound that is enough for two evaluations.
  lemma Both(t: Tree, i: nat, r: Result, u: Tree, j: nat, q: Result, g: seq<Tree>, s: seq<Byte>) returns (f: nat)
    requires i <= |s| && j <= |s| && Means(t, g, s, i, r) && Means(u, g, s, j, q)
    ensures Eval(t, g, s, i, f) == Some(r) && Eval(u, g, s, j, f) == Some(q)
  {
    hide Eval;
    var a: nat :| Eval(t, g, s, i, a) == Some(r);
    var b: nat :| Eval(u, g, s, j, b) == Some(q);
    f := if a < b then b else a;
    EvalMonotone(t, g, s, i, a, f);
    EvalMonotone(u, g, s, j, b, f);
  }

  lemma SeqMeans(p: Tree, q: Tree, g: seq<Tree>, s: seq<Byte>, i: nat, m: nat, r: Result)
    requires i <= |s| && m <= |s| && Means(p, g, s, i, Succ(m)) && Means(q, g, s, m, r)
    ensures Means(TSeq(p, q), g, s, i, r)
  {
    var f := Both(p, i, Succ(m), q, m, r, g, s);
    assert Eval(TSeq(p, q), g, s, i, f) == Some(r);
  }

  lemma SeqFails(p: Tree, q: Tree, g: seq<Tree>, s: seq<Byte>, i: nat)
    requires i <= |s| && Means(p, g, s, i, Fail)
    ensures Means(TSeq(p, q), g, s, i, Fail)
  {
    var f: nat :| Eval(p, g, s, i, f) == Some(Fail);
    assert Eval(TSeq(p, q), g, s, i, f) == Some(Fail);
  }

  // The first pattern fails, or it succeeds and the second decides.
  lemma SeqSplit(p: Tree, q: Tree, g: seq<Tree>, s: seq<Byte>, i: nat, r: Result) returns (m: Result)
    requires i <= |s| && Means(TSeq(p, q), g, s, i, r)
    ensures Means(p, g, s, i, m) && if m.Fail? then r.Fail? else m.pos <= |s| && Means(q, g, s, m.pos, r)
  {
    var f: nat :| Eval(TSeq(p, q), g, s, i, f) == Some(r);
    m := Eval(p, g, s, i, f).value;
    assert m.Succ? ==> Eval(q, g, s, m.pos, f) == Some(r);
  }

  lemma RepMeans(p: Tree, g: seq<Tree>, s: seq<Byte>, i: nat, m: nat, j: nat)
    requires i <= |s| && m <= |s| && Means(p, g, s, i, Succ(m)) && Means(TRep(p), g, s, m, Succ(j))
    ensures Means(TRep(p), g, s, i, Succ(j))
  {
    var f := Both(p, i, Succ(m), TRep(p), m, Succ(j), g, s);
    EvalMonotone(p, g, s, i, f, f + 1);
    assert Eval(TRep(p), g, s, i, f + 1) == Some(Succ(j));
  }

  lemma {:induction false} RepBack(p: Tree, g: seq<Tree>, s: seq<Byte>, i: nat, k: nat, j: nat)
    requires i <= |s| && MayStop(p, g, s, i, k, j)
    ensures Means(TRep(p), g, s, i, Succ(j))
    decreases k
  {
    if k == 0 {
      var f: nat :| Eval(p, g, s, i, f) == Some(Fail);
      assert Eval(TRep(p), g, s, i, f) == Some(Succ(i));
    } else {
      hide Means;
      var m: nat :| m <= |s| && Means(p, g, s, i, Succ(m)) && Matches(p, g, s, m, k - 1, j);
      RepBack(p, g, s, m, k - 1, j);
      RepMeans(p, g, s, i, m, j);
    }
  }

  lemma {:induction false} RepForth(p: Tree, g: seq<Tree>, s: seq<Byte>, i: nat, f: nat) returns (k: nat)
    requires i <= |s| && Eval(TRep(p), g, s, i, f).Some?
    ensures var o := Eval(TRep(p), g, s, i, f).value; o.Succ? && MayStop(p, g, s, i, k, o.pos)
    decreases f
  {
    var o := Eval(p, g, s, i, f);
    assert Means(p, g, s, i, o.value);
    if o.value.Fail? {
      k := 0;
    } else {
      var k1 := RepForth(p, g, s, o.value.pos, f - 1);
      k := k1 + 1;
    }
  }

  lemma RepIff(p: Tree, g: seq<Tree>, s: seq<Byte>, i: nat, j: nat)
    requires i <= |s| && j <= |s|
    ensures Means(TRep(p), g, s, i, Succ(j)) <==> exists k: nat :: MayStop(p, g, s, i, k, j)
    ensures !Means(TRep(p), g, s, i, Fail)
  {
    if Means(TRep(p), g, s, i, Succ(j)) {
      var f: nat :| Eval(TRep(p), g, s, i, f) == Some(Succ(j));
      var k := RepForth(p, g, s, i, f);
    }
    if k: nat :| MayStop(p, g, s, i, k, j) {
      RepBack(p, g, s, i, k, j);
    }
    if Means(TRep(p), g, s, i, Fail) {
      var f: nat :| Eval(TRep(p), g, s, i, f) == Some(Fail);
      var k := RepForth(p, g, s, i, f);
    }
  }

  // One match more in front, and one less.
  lemma StopMore(p: Tree, g: seq<Tree>, s: seq<Byte>, i: nat, m: nat, k: nat, j: nat)
    requires i <= |s| && m <= |s| && Means(p, g, s, i, Succ(m)) && MayStop(p, g, s, m, k, j)
    ensures MayStop(p, g, s, i, k + 1, j)
  {
    hide Means;
  }

  lemma StopLess(p: Tree, g: seq<Tree>, s: seq<Byte>, i: nat, k: nat, j: nat) returns (m: nat)
    requires i <= |s| && k > 0 && MayStop(p, g, s, i, k, j)
    ensures m <= |s| && Means(p, g, s, i, Succ(m)) && MayStop(p, g, s, m, k - 1, j)
  {
    hide Means;
    m :| m <= |s| && Means(p, g, s, i, Succ(m)) && Matches(p, g, s, m, k - 1, j);
  }

  // p^n: matches p as often as it goes, and fails if that is less than n times.
  lemma {:induction false} AtLeastIff(p: Tree, n: nat, g: seq<Tree>, s: seq<Byte>, i: nat, j: nat)
    requires i <= |s| && j <= |s|
    ensures Means(AtLeast(p, n), g, s, i, Succ(j)) <==> exists k: nat :: n <= k && MayStop(p, g, s, i, k, j)
    decreases n
  {
    hide Means, MayStop;
    if n == 0 {
      RepIff(p, g, s, i, j);
    } else {
      var q := AtLeast(p, n - 1);
      if Means(TSeq(p, q), g, s, i, Succ(j)) {
        var m := SeqSplit(p, q, g, s, i, Succ(j));
        AtLeastIff(p, n - 1, g, s, m.pos, j);
        var k: nat :| n - 1 <= k && MayStop(p, g, s, m.pos, k, j);
        StopMore(p, g, s, i, m.pos, k, j);
      }
      if k: nat :| n <= k && MayStop(p, g, s, i, k, j) {
        var m := StopLess(p, g, s, i, k, j);
        AtLeastIff(p, n - 1, g, s, m, j);
        SeqMeans(p, q, g, s, i, m, Succ(j));
      }
    }
  }

  lemma {:induction false} AtLeastFails(p: Tree, n: nat, g: seq<Tree>, s: seq<Byte>, i: nat)
    requires i <= |s|
    ensures Means(AtLeast(p, n), g, s, i, Fail) <==> exists k: nat, j: nat :: k < n && MayStop(p, g, s, i, k, j)
    decreases n
  {
    hide Means, MayStop;
    if n == 0 {
      RepIff(p, g, s, i, i);
    } else {
      var q := AtLeast(p, n - 1);
      if Means(TSeq(p, q), g, s, i, Fail) {
        var m := SeqSplit(p, q, g, s, i, Fail);
        if m.Fail? {
          MatchesOne(p, g, s, i, i);
          assert MayStop(p, g, s, i, 0, i);
        } else {
          AtLeastFails(p, n - 1, g, s, m.pos);
          var k: nat, j: nat :| k < n - 1 && MayStop(p, g, s, m.pos, k, j);
          StopMore(p, g, s, i, m.pos, k, j);
        }
      }
      if k: nat, j: nat :| k < n && MayStop(p, g, s, i, k, j) {
        if k == 0 {
          StopNow(p, g, s, i, j);
          SeqFails(p, q, g, s, i);
        } else {
          var m := StopLess(p, g, s, i, k, j);
          AtLeastFails(p, n - 1, g, s, m);
          SeqMeans(p, q, g, s, i, m, Fail);
        }
      }
    }
  }

  lemma StopNow(p: Tree, g: seq<Tree>, s: seq<Byte>, i: nat, j: nat)
    requires i <= |s| && MayStop(p, g, s, i, 0, j)
    ensures i == j && Means(p, g, s, i, Fail)
  {
  }

  lemma ChoiceTrueIff(q: Tree, g: seq<Tree>, s: seq<Byte>, i: nat, j: nat)
    requires i <= |s|
    ensures Means(TChoice(q, TTrue), g, s, i, Succ(j)) <==> Means(q, g, s, i, Succ(j)) || (j == i && Means(q, g, s, i, Fail))
    ensures !Means(TChoice(q, TTrue), g, s, i, Fail)
  {
    forall f: nat ensures Eval(TChoice(q, TTrue), g, s, i, f) ==
      if Eval(q, g, s, i, f) == Some(Fail) then Some(Succ(i)) else Eval(q, g, s, i, f) {
    }
    hide Eval;
  }

  // p^-n: matches p at most n times, and never fails.
  lemma {:induction false} AtMostIff(p: Tree, n: nat, g: seq<Tree>, s: seq<Byte>, i: nat, j: nat)
    requires i <= |s| && j <= |s| && n > 0
    ensures Means(AtMost(p, n), g, s, i, Succ(j)) <==> Matches(p, g, s, i, n, j) || exists k: nat :: k < n && MayStop(p, g, s, i, k, j)
    ensures !Means(AtMost(p, n), g, s, i, Fail)
    decreases n
  {
    hide Means;
    if n == 1 {
      ChoiceTrueIff(p, g, s, i, j);
      MatchesOne(p, g, s, i, j);
    } else {
      ChoiceTrueIff(TSeq(p, AtMost(p, n - 1)), g, s, i, j);
      AtMostMore(p, n, g, s, i, j);
    }
  }

  lemma MatchesOne(p: Tree, g: seq<Tree>, s: seq<Byte>, i: nat, j: nat)
    requires i <= |s| && j <= |s|
    ensures Matches(p, g, s, i, 1, j) <==> Means(p, g, s, i, Succ(j))
    ensures MayStop(p, g, s, i, 0, j) <==> i == j && Means(p, g, s, i, Fail)
  {
    hide Means;
    if Means(p, g, s, i, Succ(j)) {
      assert Matches(p, g, s, j, 0, j);
    }
  }

  lemma {:induction false} AtMostMore(p: Tree, n: nat, g: seq<Tree>, s: seq<Byte>, i: nat, j: nat)
    requires i <= |s| && j <= |s| && n > 1
    ensures var q := TSeq(p, AtMost(p, n - 1));
      Means(q, g, s, i, Succ(j)) || (j == i && Means(q, g, s, i, Fail)) <==>
      Matches(p, g, s, i, n, j) || exists k: nat :: k < n && MayStop(p, g, s, i, k, j)
    decreases n, 0
  {
    hide Means, MayStop, Matches;
    var q := AtMost(p, n - 1);
    if Means(TSeq(p, q), g, s, i, Succ(j)) {
      var m := SeqSplit(p, q, g, s, i, Succ(j));
      AtMostIff(p, n - 1, g, s, m.pos, j);
      if Matches(p, g, s, m.pos, n - 1, j) {
        MatchMore(p, g, s, i, m.pos, n - 1, j);
      } else {
        var k: nat :| k < n - 1 && MayStop(p, g, s, m.pos, k, j);
        StopMore(p, g, s, i, m.pos, k, j);
      }
    }
    if j == i && Means(TSeq(p, q), g, s, i, Fail) {
      var m := SeqSplit(p, q, g, s, i, Fail);
      if m.Succ? {
        AtMostIff(p, n - 1, g, s, m.pos, j);
      }
      MatchesOne(p, g, s, i, i);
    }
    if Matches(p, g, s, i, n, j) {
      var m := MatchLess(p, g, s, i, n, j);
      AtMostIff(p, n - 1, g, s, m, j);
      SeqMeans(p, q, g, s, i, m, Succ(j));
    }
    if k: nat :| k < n && MayStop(p, g, s, i, k, j) {
      if k == 0 {
        StopNow(p, g, s, i, j);
        SeqFails(p, q, g, s, i);
      } else {
        var m := StopLess(p, g, s, i, k, j);
        AtMostIff(p, n - 1, g, s, m, j);
        SeqMeans(p, q, g, s, i, m, Succ(j));
      }
    }
  }

  lemma MatchMore(p: Tree, g: seq<Tree>, s: seq<Byte>, i: nat, m: nat, k: nat, j: nat)
    requires i <= |s| && m <= |s| && Means(p, g, s, i, Succ(m)) && Matches(p, g, s, m, k, j)
    ensures Matches(p, g, s, i, k + 1, j)
  {
    hide Means;
  }

  lemma MatchLess(p: Tree, g: seq<Tree>, s: seq<Byte>, i: nat, k: nat, j: nat) returns (m: nat)
    requires i <= |s| && k > 0 && Matches(p, g, s, i, k, j)
    ensures m <= |s| && Means(p, g, s, i, Succ(m)) && Matches(p, g, s, m, k - 1, j)
  {
    hide Means;
    m :| m <= |s| && Means(p, g, s, i, Succ(m)) && Matches(p, g, s, m, k - 1, j);
  }
}
