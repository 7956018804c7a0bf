// What the code generator of LPeg emits, as a function of the tree.

module LpegGen {
  import opened LpegTree
  import opened LpegAnalysis
  import opened LpegVm

  // The grammar that encloses a tree, the bound on followed calls, and the
  // call nodes of the whole pattern.
  datatype Env = Env(g: seq<Tree>, d: nat, ids: set<nat>)

  // The dominating test of a fragment ('tt'), as the instruction itself.
  type Test = Option<Instr>

  function TestSet(cs: set<Byte>, off: int): Instr {
    if cs == {} then IJmp(off)
    else if cs == FULLSET then ITestAny(off)
    else if exists c: Byte | 0 <= c < 256 :: cs == {c} then
      var c: Byte :| 0 <= c < 256 && cs == {c};
      ITestChar(c, off)
    else ITestSet(cs, off)
  }

  function CodeChar(c: Byte, tt: Test): Instr {
    if tt.Some? && tt.value.ITestChar? && tt.value.c == c then IAny else IChar(c)
  }

  function CodeSet(cs: set<Byte>, tt: Test): Instr {
    if tt.Some? && tt.value.ITestSet? && tt.value.cs == cs then IAny else ISet(cs)
  }

  predicate Disjoint(a: set<Byte>, b: set<Byte>) { a * b == {} }

  // 'needfollow'
  predicate NeedFollow(t: Tree) {
    match t
    case TChoice(_, _) => true
    case TRep(_) => true
    case TSeq(_, p2) => NeedFollow(p2)
    case _ => false
  }

  // The choice 'p1 / p2' needs no choice point.
  predicate TestChoice(p1: Tree, p2: Tree, fl: set<Byte>, e: Env) {
    var f1 := GetFirst(p1, FULLSET, e.g, e.d);
    HeadFail(p1, e.g, e.d) || (!f1.e && Disjoint(f1.cs, GetFirst(p2, fl, e.g, e.d).cs))
  }

  // The repetition of 'p' needs no choice point.
  predicate TestRep(p: Tree, fl: set<Byte>, e: Env) {
    var f := GetFirst(p, FULLSET, e.g, e.d);
    HeadFail(p, e.g, e.d) || (!f.e && Disjoint(f.cs, fl))
  }

  function MaybeTest(f: First, off: int): seq<Instr> {
    if f.e then [] else [TestSet(f.cs, off)]
  }

  function TestOf(f: First): Test { if f.e then None else Some(TestSet(f.cs, 0)) }

  // 'coderepcharset'
  function CodeRepCharset(p: Tree): seq<Instr>
    requires IsCharset(p)
  {
    match p
    case TFalse => []
    case TAny => [ITestAny(3), IAny, IJmp(-2)]
    case TChar(c) => [ITestChar(c, 3), IAny, IJmp(-2)]
    case TSet(cs) => [ISpan(cs)]
  }

  function SeqFollow(p1: Tree, p2: Tree, fl: set<Byte>, e: Env): set<Byte> {
    if NeedFollow(p1) then GetFirst(p2, fl, e.g, e.d).cs else FULLSET
  }

  function SeqTest(p1: Tree, tt: Test, e: Env): Test {
    if FixedLen(p1, e.g, e.ids) != 0 then None else tt
  }

  function AndLen(p: Tree, e: Env): int { FixedLen(p, e.g, e.ids) }

  // Code of 't'.  'opt': the code is the last thing inside an optional pattern;
  // 'tt': a test that dominates the code; 'fl': the follow set; 'tail': make
  // tail calls jumps.
  ghost function Gen(t: Tree, opt: bool, tt: Test, fl: set<Byte>, e: Env, tail: bool): seq<Instr>
    decreases t, if t.TGrammar? then |t.rules| + 1 else 0
  {
    match t
    case TChar(c) => [CodeChar(c, tt)]
    case TSet(cs) => [CodeSet(cs, tt)]
    case TAny => [IAny]
    case TTrue => []
    case TFalse => [IFail]
    case TChoice(p1, p2) =>
      var f1 := GetFirst(p1, FULLSET, e.g, e.d);
      if TestChoice(p1, p2, fl, e) then
        var b1 := Gen(p1, false, Some(TestSet(f1.cs, 0)), fl, e, tail);
        var b2 := Gen(p2, opt, None, fl, e, tail);
        var mid := if p2.TTrue? then [] else [IJmp(1 + |b2|)];
        [TestSet(f1.cs, 1 + |b1| + |mid|)] + b1 + mid + b2
      else if opt && p2.TTrue? then
        [IPartialCommit(1)] + Gen(p1, true, None, FULLSET, e, tail)
      else
        var b1 := Gen(p1, p2.TTrue?, TestOf(f1), FULLSET, e, tail);
        var b2 := Gen(p2, opt, None, fl, e, tail);
        MaybeTest(f1, 3 + |b1|) + [IChoice(2 + |b1|)] + b1 + ([ICommit(1 + |b2|)] + b2)
    case TRep(p) =>
      if IsCharset(p) then CodeRepCharset(p)
      else
        var f := GetFirst(p, FULLSET, e.g, e.d);
        if TestRep(p, fl, e) then
          var b := Gen(p, false, Some(TestSet(f.cs, 0)), FULLSET, e, tail);
          [TestSet(f.cs, 2 + |b|)] + b + [IJmp(-1 - |b|)] + []
        else
          var b := Gen(p, false, None, FULLSET, e, tail);
          MaybeTest(f, 3 + |b|) + [if opt then IPartialCommit(1) else IChoice(2 + |b|)] + b + [IPartialCommit(-|b|)]
    case TBehind(n, p) =>
      (if n > 0 then [IBehind(n)] else []) + Gen(p, false, None, FULLSET, e, tail)
    case TNot(p) =>
      var f := GetFirst(p, FULLSET, e.g, e.d);
      if HeadFail(p, e.g, e.d) then MaybeTest(f, 2) + [IFail]
      else
        var b := Gen(p, false, None, FULLSET, e, tail);
        MaybeTest(f, 3 + |b|) + [IChoice(2 + |b|)] + b + [IFailTwice]
    case TAnd(p) =>
      var b := Gen(p, false, tt, FULLSET, e, tail);
      var n := AndLen(p, e);
      if 0 <= n <= MAXBEHIND then b + (if n > 0 then [IBehind(n)] else [])
      else [IChoice(2 + |b|)] + b + [IBackCommit(2)] + [IFail]
    case TGrammar(rules) =>
      var r := GenRules(t, |rules|, Env(rules, e.d, e.ids), tail);
      [ICall(2)] + ([IJmp(1 + |r.code|)] + (if tail then CorrectCalls(r.code, r.pos, 0) else PlainCalls(r.code, r.pos)))
    case TCall(r, _) => [IOpenCall(r)]
    case TSeq(p1, p2) =>
      Gen(p1, false, tt, SeqFollow(p1, p2, fl, e), e, tail) + Gen(p2, opt, SeqTest(p1, tt, e), fl, e, tail)
  }

  // Code of the first 'k' rules, each closed by IRet, and where each starts.
  datatype Rules = Rules(code: seq<Instr>, pos: seq<nat>)

  ghost function GenRules(t: Tree, k: nat, e: Env, tail: bool): (r: Rules)
    requires t.TGrammar? && k <= |t.rules|
    ensures |r.pos| == k
    decreases t, k
  {
    if k == 0 then Rules([], []) else
    var prev := GenRules(t, k - 1, e, tail);
    Rules(prev.code + Gen(t.rules[k - 1], false, None, FULLSET, e, tail) + [IRet], prev.pos + [|prev.code|])
  }

  function RulePos(pos: seq<nat>, r: nat): nat { if r < |pos| then pos[r] else 0 }

  // Open calls closed by plain calls only.
  ghost function PlainCalls(code: seq<Instr>, pos: seq<nat>): (c: seq<Instr>)
    ensures |c| == |code|
  {
    seq(|code|, k requires 0 <= k < |code| =>
      if code[k].IOpenCall? then ICall(RulePos(pos, code[k].rule) - k) else code[k])
  }

  // Following 'n' jumps from 'i' leads to 'k'.
  ghost predicate JumpsTo(code: seq<Instr>, i: int, k: int, n: nat)
    decreases n
  {
    if n == 0 then i == k else 0 <= i < |code| && code[i].IJmp? && JumpsTo(code, i + code[i].off, k, n - 1)
  }

  ghost predicate Leads(code: seq<Instr>, i: int, k: int) { exists n: nat :: JumpsTo(code, i, k, n) }

  ghost predicate IsRetAt(code: seq<Instr>, k: int) { 0 <= k < |code| && code[k].IRet? }

  // The final target of 'i' is a return.
  ghost predicate ToRet(code: seq<Instr>, i: int) { exists k :: Leads(code, i, k) && IsRetAt(code, k) }

  // The loop of 'correctcalls' from instruction 'i' on: a call whose
  // continuation is a return becomes a jump.
  ghost function CorrectCalls(code: seq<Instr>, pos: seq<nat>, i: nat): (c: seq<Instr>)
    requires i <= |code|
    ensures |c| == |code|
    decreases |code| - i
  {
    if i == |code| then code
    else if code[i].IOpenCall? then
      var off := RulePos(pos, code[i].rule) - i;
      CorrectCalls(code[i := if ToRet(code, i + 1) then IJmp(off) else ICall(off)], pos, i + 1)
    else CorrectCalls(code, pos, i + 1)
  }

  ghost function Compile(t: Tree, d: nat): seq<Instr> {
    Gen(t, false, None, FULLSET, Env([], d, Ids(t)), true) + [IEnd]
  }

  // ------------------------------------------------- Gen, case by case

  function LeafInstr(t: Tree, tt: Test): Instr
    requires IsCharset(t)
  {
    match t
    case TChar(c) => CodeChar(c, tt)
    case TSet(cs) => CodeSet(cs, tt)
    case TAny => IAny
    case TFalse => IFail
  }

  lemma LeafGen(t: Tree, opt: bool, tt: Test, fl: set<Byte>, e: Env, tail: bool)
    requires IsCharset(t)
    ensures Gen(t, opt, tt, fl, e, tail) == [LeafInstr(t, tt)]
  {
    hide Gen;
    match t
    case TChar(c) => CharGen(c, opt, tt, fl, e, tail);
    case TSet(cs) => SetGen(cs, opt, tt, fl, e, tail);
    case TAny => ConstGen(t, opt, tt, fl, e, tail);
    case TFalse => ConstGen(t, opt, tt, fl, e, tail);
  }

  lemma CharGen(c: Byte, opt: bool, tt: Test, fl: set<Byte>, e: Env, tail: bool)
    ensures Gen(TChar(c), opt, tt, fl, e, tail) == [CodeChar(c, tt)]
  {
    hide CodeChar;
  }

  lemma SetGen(cs: set<Byte>, opt: bool, tt: Test, fl: set<Byte>, e: Env, tail: bool)
    ensures Gen(TSet(cs), opt, tt, fl, e, tail) == [CodeSet(cs, tt)]
  {
    hide CodeSet;
  }

  predicate HasParts(t: Tree) { t.TChoice? || t.TRep? || t.TBehind? || t.TNot? || t.TAnd? || t.TGrammar? || t.TCall? || t.TSeq? }

  lemma ConstGen(t: Tree, opt: bool, tt: Test, fl: set<Byte>, e: Env, tail: bool)
    requires t.TAny? || t.TFalse? || t.TTrue?
    ensures Gen(t, opt, tt, fl, e, tail) == if t.TAny? then [IAny] else if t.TFalse? then [IFail] else []
  {
    assert !HasParts(t) && !t.TChar? && !t.TSet?;
  }

  lemma ChoiceTestGen(t: Tree, opt: bool, tt: Test, fl: set<Byte>, e: Env, tail: bool)
    requires t.TChoice? && TestChoice(t.p1, t.p2, fl, e)
    ensures
      var f1 := GetFirst(t.p1, FULLSET, e.g, e.d);
      var b1 := Gen(t.p1, false, Some(TestSet(f1.cs, 0)), fl, e, tail);
      var b2 := Gen(t.p2, opt, None, fl, e, tail);
      var mid := if t.p2.TTrue? then [] else [IJmp(1 + |b2|)];
      Gen(t, opt, tt, fl, e, tail) == [TestSet(f1.cs, 1 + |b1| + |mid|)] + b1 + mid + b2
  {
    hide TestChoice, TestRep, GetFirst, HeadFail, TestSet, CodeChar, CodeSet, FixedLen;
  }

  lemma ChoicePointGen(t: Tree, opt: bool, tt: Test, fl: set<Byte>, e: Env, tail: bool)
    requires t.TChoice? && !TestChoice(t.p1, t.p2, fl, e) && !(opt && t.p2.TTrue?)
    ensures
      var f1 := GetFirst(t.p1, FULLSET, e.g, e.d);
      var b1 := Gen(t.p1, t.p2.TTrue?, TestOf(f1), FULLSET, e, tail);
      var b2 := Gen(t.p2, opt, None, fl, e, tail);
      Gen(t, opt, tt, fl, e, tail)
      == MaybeTest(f1, 3 + |b1|) + [IChoice(2 + |b1|)] + b1 + ([ICommit(1 + |b2|)] + b2)
  {
    hide TestChoice, TestRep, GetFirst, HeadFail, TestSet, CodeChar, CodeSet, FixedLen;
  }

  lemma ReuseGen(t: Tree, opt: bool, tt: Test, fl: set<Byte>, e: Env, tail: bool)
    requires t.TChoice? && !TestChoice(t.p1, t.p2, fl, e) && opt && t.p2.TTrue?
    ensures Gen(t, opt, tt, fl, e, tail) == [IPartialCommit(1)] + Gen(t.p1, true, None, FULLSET, e, tail)
  {
    hide TestChoice, TestRep, GetFirst, HeadFail, TestSet, CodeChar, CodeSet, FixedLen;
  }

  lemma TrueGen(t: Tree, opt: bool, tt: Test, fl: set<Byte>, e: Env, tail: bool)
    ensures t.TTrue? ==> Gen(t, opt, tt, fl, e, tail) == []
  {
    hide Gen;
    if t.TTrue? {
      ConstGen(t, opt, tt, fl, e, tail);
    }
  }

  lemma SeqGen(t: Tree, opt: bool, tt: Test, fl: set<Byte>, e: Env, tail: bool)
    requires t.TSeq?
    ensures Gen(t, opt, tt, fl, e, tail)
            == Gen(t.p1, false, tt, SeqFollow(t.p1, t.p2, fl, e), e, tail) + Gen(t.p2, opt, SeqTest(t.p1, tt, e), fl, e, tail)
  {
    hide SeqFollow, SeqTest, GetFirst, HeadFail, TestSet, CodeChar, CodeSet, FixedLen;
  }

  lemma RepGenCharset(t: Tree, opt: bool, tt: Test, fl: set<Byte>, e: Env, tail: bool)
    requires t.TRep? && IsCharset(t.p)
    ensures Gen(t, opt, tt, fl, e, tail) == CodeRepCharset(t.p)
  {
    hide CodeRepCharset, TestSet, TestChoice, TestRep, GetFirst, HeadFail, CodeChar, CodeSet, FixedLen;
  }

  lemma RepTestGen(t: Tree, opt: bool, tt: Test, fl: set<Byte>, e: Env, tail: bool)
    requires t.TRep? && !IsCharset(t.p) && TestRep(t.p, fl, e)
    ensures
      var cs := GetFirst(t.p, FULLSET, e.g, e.d).cs;
      var b := Gen(t.p, false, Some(TestSet(cs, 0)), FULLSET, e, tail);
      Gen(t, opt, tt, fl, e, tail) == [TestSet(cs, 2 + |b|)] + b + [IJmp(-1 - |b|)] + []
  {
    hide TestChoice, TestRep, GetFirst, HeadFail, TestSet, CodeChar, CodeSet, FixedLen;
  }

  lemma RepPointGen(t: Tree, opt: bool, tt: Test, fl: set<Byte>, e: Env, tail: bool)
    requires t.TRep? && !IsCharset(t.p) && !TestRep(t.p, fl, e)
    ensures
      var fs := GetFirst(t.p, FULLSET, e.g, e.d);
      var b := Gen(t.p, false, None, FULLSET, e, tail);
      Gen(t, opt, tt, fl, e, tail)
      == MaybeTest(fs, 3 + |b|) + [if opt then IPartialCommit(1) else IChoice(2 + |b|)] + b + [IPartialCommit(-|b|)]
  {
    hide TestChoice, TestRep, GetFirst, HeadFail, TestSet, CodeChar, CodeSet, FixedLen;
  }

  lemma NotGen(t: Tree, opt: bool, tt: Test, fl: set<Byte>, e: Env, tail: bool)
    requires t.TNot?
    ensures
      var fs := GetFirst(t.p, FULLSET, e.g, e.d);
      var b := Gen(t.p, false, None, FULLSET, e, tail);
      Gen(t, opt, tt, fl, e, tail)
      == if HeadFail(t.p, e.g, e.d) then MaybeTest(fs, 2) + [IFail]
         else MaybeTest(fs, 3 + |b|) + [IChoice(2 + |b|)] + b + [IFailTwice]
  {
    hide TestSet, TestChoice, TestRep, GetFirst, HeadFail, CodeChar, CodeSet, FixedLen;
  }

  lemma AndFixedGen(t: Tree, opt: bool, tt: Test, fl: set<Byte>, e: Env, tail: bool)
    requires t.TAnd? && 0 <= AndLen(t.p, e) <= MAXBEHIND
    ensures Gen(t, opt, tt, fl, e, tail)
            == Gen(t.p, false, tt, FULLSET, e, tail) + (if AndLen(t.p, e) > 0 then [IBehind(AndLen(t.p, e))] else [])
  {
    hide TestSet, TestChoice, TestRep, GetFirst, HeadFail, CodeChar, CodeSet, AndLen;
  }

  lemma AndGen(t: Tree, opt: bool, tt: Test, fl: set<Byte>, e: Env, tail: bool)
    requires t.TAnd? && !(0 <= AndLen(t.p, e) <= MAXBEHIND)
    ensures
      var b := Gen(t.p, false, tt, FULLSET, e, tail);
      Gen(t, opt, tt, fl, e, tail) == [IChoice(2 + |b|)] + b + [IBackCommit(2)] + [IFail]
  {
    hide TestSet, TestChoice, TestRep, GetFirst, HeadFail, CodeChar, CodeSet, AndLen;
  }

  lemma BehindGen(t: Tree, opt: bool, tt: Test, fl: set<Byte>, e: Env, tail: bool)
    requires t.TBehind?
    ensures Gen(t, opt, tt, fl, e, tail) == (if t.n > 0 then [IBehind(t.n)] else []) + Gen(t.p, false, None, FULLSET, e, tail)
  {
    hide TestSet, TestChoice, TestRep, GetFirst, HeadFail, CodeChar, CodeSet, FixedLen;
  }

  lemma CallGen(t: Tree, opt: bool, tt: Test, fl: set<Byte>, e: Env, tail: bool)
    requires t.TCall?
    ensures Gen(t, opt, tt, fl, e, tail) == [IOpenCall(t.rule)]
  {
  }

  lemma GrammarGen(t: Tree, opt: bool, tt: Test, fl: set<Byte>, e: Env, tail: bool)
    requires t.TGrammar?
    ensures
      var r := GenRules(t, |t.rules|, Env(t.rules, e.d, e.ids), tail);
      Gen(t, opt, tt, fl, e, tail)
      == [ICall(2)] + ([IJmp(1 + |r.code|)] + (if tail then CorrectCalls(r.code, r.pos, 0) else PlainCalls(r.code, r.pos)))
  {
  }
}
