// Pattern trees of LPeg and their meaning as parsing expressions.
//
// A tree is the resolved form that the compiler sees: every call names a rule
// of the innermost enclosing grammar.  Captures and UTF-8 ranges are left out.

module LpegTree {

  type Byte = x: int | 0 <= x < 256

  const MAXRULES: nat := 1000
  const MAXBEHIND: nat := 255
  const FULLSET: set<Byte> := set b: Byte | 0 <= b < 256

  datatype Option<+T> = None | Some(value: T)

  datatype Tree =
    | TChar(c: Byte)
    | TSet(cs: set<Byte>)
    | TAny
    | TTrue
    | TFalse
    | TRep(p: Tree)
    | TSeq(p1: Tree, p2: Tree)
    | TChoice(p1: Tree, p2: Tree)
    | TNot(p: Tree)
    | TAnd(p: Tree)
    | TBehind(n: nat, p: Tree)
    | TCall(rule: nat, node: nat)  // 'node' is the identity of the call node
    | TGrammar(rules: seq<Tree>)   // rule 0 is the initial rule

  datatype Result = Fail | Succ(pos: nat)

  // The meaning of 't' at position 'i' of subject 's', inside a grammar with
  // rules 'g'.  'f' bounds rule calls and loop iterations; None means that the
  // bound was too small.
  function Eval(t: Tree, g: seq<Tree>, s: seq<Byte>, i: nat, f: nat): (o: Option<Result>)
    requires i <= |s|
    ensures o.Some? && o.value.Succ? ==> i <= o.value.pos <= |s|
    decreases f, t
  {
    match t
    case TChar(c) => Some(if i < |s| && s[i] == c then Succ(i + 1) else Fail)
    case TSet(cs) => Some(if i < |s| && s[i] in cs then Succ(i + 1) else Fail)
    case TAny => Some(if i < |s| then Succ(i + 1) else Fail)
    case TTrue => Some(Succ(i))
    case TFalse => Some(Fail)
    case TRep(p) =>
      (match Eval(p, g, s, i, f)
       case None => None
       case Some(Fail) => Some(Succ(i))
       case Some(Succ(j)) => if f == 0 then None else Eval(t, g, s, j, f - 1))
    case TSeq(p1, p2) =>
      (match Eval(p1, g, s, i, f)
       case None => None
       case Some(Fail) => Some(Fail)
       case Some(Succ(j)) => Eval(p2, g, s, j, f))
    case TChoice(p1, p2) =>
      (match Eval(p1, g, s, i, f)
       case None => None
       case Some(Fail) => Eval(p2, g, s, i, f)
       case Some(Succ(j)) => Some(Succ(j)))
    case TNot(p) =>
      (match Eval(p, g, s, i, f)
       case None => None
       case Some(Fail) => Some(Succ(i))
       case Some(Succ(_)) => Some(Fail))
    case TAnd(p) =>
      (match Eval(p, g, s, i, f)
       case None => None
       case Some(Fail) => Some(Fail)
       case Some(Succ(_)) => Some(Succ(i)))
    case TBehind(n, p) =>
      if i < n then Some(Fail) else
      (match Eval(p, g, s, i - n, f)
       case None => None
       case Some(Fail) => Some(Fail)
       case Some(Succ(j)) => Some(if j == i then Succ(i) else Fail))
    case TCall(r, _) =>
      if r < |g| && f > 0 then Eval(g[r], g, s, i, f - 1) else None
    case TGrammar(rules) =>
      if |rules| > 0 then Eval(rules[0], rules, s, i, f) else None
  }

  // A larger bound never changes an answer, so the answer is the meaning of
  // the pattern whatever bound produced it.
  lemma {:induction false} EvalMonotone(t: Tree, g: seq<Tree>, s: seq<Byte>, i: nat, f: nat, f': nat)
    requires i <= |s| && f <= f'
    requires Eval(t, g, s, i, f).Some?
    ensures Eval(t, g, s, i, f') == Eval(t, g, s, i, f)
    decreases f, t
  {
    match t
    case TChar(_) =>
    case TSet(_) =>
    case TAny =>
    case TTrue =>
    case TFalse =>
    case TRep(p) =>
      EvalMonotone(p, g, s, i, f, f');
      var o := Eval(p, g, s, i, f);
      if o.value.Succ? {
        EvalMonotone(t, g, s, o.value.pos, f - 1, f' - 1);
      }
    case TSeq(p1, p2) =>
      EvalMonotone(p1, g, s, i, f, f');
      var o := Eval(p1, g, s, i, f);
      if o.value.Succ? {
        EvalMonotone(p2, g, s, o.value.pos, f, f');
      }
    case TChoice(p1, p2) =>
      EvalMonotone(p1, g, s, i, f, f');
      if Eval(p1, g, s, i, f).value.Fail? {
        EvalMonotone(p2, g, s, i, f, f');
      }
    case TNot(p) => EvalMonotone(p, g, s, i, f, f');
    case TAnd(p) => EvalMonotone(p, g, s, i, f, f');
    case TBehind(n, p) =>
      if i >= n {
        EvalMonotone(p, g, s, i - n, f, f');
      }
    case TCall(r, _) => EvalMonotone(g[r], g, s, i, f - 1, f' - 1);
    case TGrammar(rules) => EvalMonotone(rules[0], rules, s, i, f, f');
  }

  // The relation "pattern t, inside grammar g, yields r at i".
  ghost predicate Means(t: Tree, g: seq<Tree>, s: seq<Byte>, i: nat, r: Result)
    requires i <= |s|
  {
    exists f: nat :: Eval(t, g, s, i, f) == Some(r)
  }

  lemma MeansUnique(t: Tree, g: seq<Tree>, s: seq<Byte>, i: nat, r: Result, r': Result)
    requires i <= |s| && Means(t, g, s, i, r) && Means(t, g, s, i, r')
    ensures r == r'
  {
    var f: nat :| Eval(t, g, s, i, f) == Some(r);
    var f': nat :| Eval(t, g, s, i, f') == Some(r');
    if f <= f' {
      EvalMonotone(t, g, s, i, f, f');
    } else {
      EvalMonotone(t, g, s, i, f', f);
    }
  }
}
