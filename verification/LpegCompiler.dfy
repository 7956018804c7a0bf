// The code generator, the peephole pass and the matching loop of LPeg, as the
// source runs them: code is appended and patched in place.

module LpegCompiler {
  import opened LpegTree
  import opened LpegAnalysis
  import opened LpegVm
  import opened LpegGen
  import opened LpegCorrect
  import opened LpegVerify
  import opened LpegOpt
  import opened LpegJumps
  import opened LpegProgram

  // What the source checks of a tree before it compiles it.
  predicate Ready(t: Tree, n: nat, d0: nat) { WellFormed(t, n) && Verified(t, d0, true) }

  lemma Patch(a: seq<Instr>, x: Instr, b: seq<Instr>, y: Instr)
    ensures (a + [x] + b)[|a|] == x && (a + [x] + b)[|a| := y] == a + [y] + b
  {
  }

  lemma PatchEnd(a: seq<Instr>, x: Instr, y: Instr)
    ensures (a + [x])[|a|] == x && (a + [x])[|a| := y] == a + [y]
  {
  }

  lemma Assoc(a: seq<Instr>, b: seq<Instr>, c: seq<Instr>)
    ensures a + b + c == a + (b + c)
  {
  }

  lemma Rebuild(a: seq<Instr>, b: seq<Instr>, c: seq<Instr>, d: seq<Instr>, e: seq<Instr>)
    ensures a + b + c + d + e == a + (b + c + d + e)
  {
  }

  lemma LabelTest(cs: set<Byte>, off: int)
    ensures HasLabel(TestSet(cs, 0)) && SetLabel(TestSet(cs, 0), off) == TestSet(cs, off)
  {
  }

  // The final target of 'i' is where the return is, if there is a return.
  lemma TargetRet(code: seq<Instr>, i: int)
    requires Stops(code, i)
    ensures StopsAt(code, i, FinalTarget(code, i))
    ensures ToRet(code, i) <==> IsRetAt(code, FinalTarget(code, i))
  {
    hide Leads;
    var k :| StopsAt(code, i, k);
    assert StopsAt(code, i, FinalTarget(code, i));
    if ToRet(code, i) {
      var k' :| Leads(code, i, k') && IsRetAt(code, k');
      assert StopsAt(code, i, k');
      StopUnique(code, i, k', FinalTarget(code, i));
    }
  }

  // Follow the jumps from 'start' until something else comes.
  method FindTarget(code: seq<Instr>, start: int) returns (i: int)
    requires Stops(code, start)
    ensures i == FinalTarget(code, start)
  {
    hide Leads;
    ghost var k :| StopsAt(code, start, k);
    ghost var n := ChainLength(code, start, k);
    i := start;
    LeadsSelf(code, start);
    while 0 <= i < |code| && code[i].IJmp?
      invariant JumpsTo(code, i, k, n) && Leads(code, start, i)
      decreases n
    {
      assert n > 0;
      StepLeads(code, start, i);
      i := i + code[i].off;
      n := n - 1;
    }
    assert StopsAt(code, start, i);
    StopUnique(code, start, i, FinalTarget(code, start));
  }

  lemma StepLeads(code: seq<Instr>, i: int, j: int)
    requires Leads(code, i, j) && 0 <= j < |code| && code[j].IJmp?
    ensures Leads(code, i, j + code[j].off)
  {
    LeadsSelf(code, j + code[j].off);
    LeadsJump(code, j, j + code[j].off);
    LeadsThen(code, i, j, j + code[j].off);
  }

  class CompileState {
    var code: seq<Instr>

    constructor ()
      ensures code == []
    {
      code := [];
    }

    method AddInstruction(x: Instr) returns (i: nat)
      modifies this
      ensures i == |old(code)| && code == old(code) + [x]
    {
      i := |code|;
      code := code + [x];
    }

    // Set the label of a jump that has been coded.
    method JumpToThere(instruction: int, target: int)
      requires instruction >= 0 ==> instruction < |code| && HasLabel(code[instruction])
      modifies this
      ensures code == if instruction < 0 then old(code)
                      else old(code)[instruction := SetLabel(old(code)[instruction], target - instruction)]
    {
      if instruction >= 0 {
        code := code[instruction := SetLabel(code[instruction], target - instruction)];
      }
    }

    method JumpToHere(instruction: int)
      requires instruction >= 0 ==> instruction < |code| && HasLabel(code[instruction])
      modifies this
      ensures code == if instruction < 0 then old(code)
                      else old(code)[instruction := SetLabel(old(code)[instruction], |old(code)| - instruction)]
    {
      JumpToThere(instruction, |code|);
    }

    method CodeTestSet(cs: set<Byte>, e: bool) returns (i: int)
      modifies this
      ensures code == old(code) + (if e then [] else [TestSet(cs, 0)])
      ensures i == if e then -1 else |old(code)|
    {
      if e {
        i := -1;
        assert code == old(code) + [];
      } else {
        i := AddInstruction(TestSet(cs, 0));
      }
    }

    // Give a label that was left open after 'pre' its place: the end of the code.
    method Close(instruction: int, ghost pre: seq<Instr>, ghost x: Instr, ghost body: seq<Instr>)
      requires instruction == |pre| && code == pre + [x] + body && HasLabel(x)
      modifies this
      ensures code == pre + [SetLabel(x, 1 + |body|)] + body
    {
      hide *;
      Patch(pre, x, body, SetLabel(x, 1 + |body|));
      JumpToHere(instruction);
    }

    method CloseTest(test: int, ghost pre: seq<Instr>, ghost f: First, ghost body: seq<Instr>)
      requires code == pre + MaybeTest(f, 0) + body && test == if f.e then -1 else |pre|
      modifies this
      ensures code == pre + MaybeTest(f, 1 + |body|) + body
    {
      hide TestSet;
      PatchTest(pre, f, body);
      JumpToHere(test);
    }

    method CodeChoice(p1: Tree, p2: Tree, opt: bool, fl: set<Byte>, e: Env, ghost tt: Test, ghost n: nat, ghost d0: nat)
      requires Ready(p1, n, d0) && Ready(p2, n, d0)
      modifies this
      ensures code == old(code) + Gen(TChoice(p1, p2), opt, tt, fl, e, true)
      decreases TChoice(p1, p2), 1
    {
      hide *;
      ghost var pre := code;
      var f1 := GetFirst(p1, FULLSET, e.g, e.d);
      if TestChoice(p1, p2, fl, e) {
        CodeChoiceTest(p1, p2, opt, fl, e, f1, tt, n, d0);
      } else if opt && p2.TTrue? {
        // the outer option is still on the stack: it is only updated
        ReuseGen(TChoice(p1, p2), opt, tt, fl, e, true);
        var i := AddInstruction(IPartialCommit(0));
        Labels(IPartialCommit(0), 1);
        assert code == pre + [IPartialCommit(0)] + [];
        Close(i, pre, IPartialCommit(0), []);
        assert code == pre + [IPartialCommit(1)];
        CodeGen(p1, true, -1, None, FULLSET, e, n, d0);
        Assoc(pre, [IPartialCommit(1)], Gen(p1, true, None, FULLSET, e, true));
      } else {
        CodeChoicePoint(p1, p2, opt, fl, e, f1, tt, n, d0);
      }
    }

    // The next byte decides: no entry is pushed, the second choice is only tested for.
    method CodeChoiceTest(p1: Tree, p2: Tree, opt: bool, fl: set<Byte>, e: Env, f1: First,
                          ghost tt: Test, ghost n: nat, ghost d0: nat)
      requires Ready(p1, n, d0) && Ready(p2, n, d0)
      requires TestChoice(p1, p2, fl, e) && f1 == GetFirst(p1, FULLSET, e.g, e.d)
      modifies this
      ensures code == old(code) + Gen(TChoice(p1, p2), opt, tt, fl, e, true)
      decreases TChoice(p1, p2), 0
    {
      hide *;
      ghost var pre := code;
      ChoiceTestGen(TChoice(p1, p2), opt, tt, fl, e, true);
      var test := CodeTestSet(f1.cs, false);
      ghost var t0 := TestSet(f1.cs, 0);
      CodeGen(p1, false, test, Some(t0), fl, e, n, d0);
      ghost var b1 := Gen(p1, false, Some(t0), fl, e, true);
      ghost var b2 := Gen(p2, opt, None, fl, e, true);
      if p2.TTrue? {
        ghost var x := TestSet(f1.cs, 1 + |b1|);
        LabelTest(f1.cs, 1 + |b1|);
        Close(test, pre, t0, b1);
        CodeGen(p2, opt, -1, None, fl, e, n, d0);
        Rebuild(pre, [x], b1, [], b2);
      } else {
        var jmp := AddInstruction(IJmp(0));
        ghost var x := TestSet(f1.cs, 2 + |b1|);
        LabelTest(f1.cs, 2 + |b1|);
        Assoc(pre + [t0], b1, [IJmp(0)]);
        Close(test, pre, t0, b1 + [IJmp(0)]);
        Assoc(pre + [x], b1, [IJmp(0)]);
        CodeGen(p2, opt, -1, None, fl, e, n, d0);
        Labels(IJmp(0), 1 + |b2|);
        Close(jmp, pre + [x] + b1, IJmp(0), b2);
        Rebuild(pre, [x], b1, [IJmp(1 + |b2|)], b2);
      }
    }

    // The test skips a choice that cannot match, and an entry of the stack does the rest.
    method CodeChoicePoint(p1: Tree, p2: Tree, opt: bool, fl: set<Byte>, e: Env, f1: First,
                           ghost tt: Test, ghost n: nat, ghost d0: nat)
      requires Ready(p1, n, d0) && Ready(p2, n, d0) && !(opt && p2.TTrue?)
      requires !TestChoice(p1, p2, fl, e) && f1 == GetFirst(p1, FULLSET, e.g, e.d)
      modifies this
      ensures code == old(code) + Gen(TChoice(p1, p2), opt, tt, fl, e, true)
      decreases TChoice(p1, p2), 0
    {
      hide *;
      ghost var pre := code;
      ChoicePointGen(TChoice(p1, p2), opt, tt, fl, e, true);
      var pcommit := CodeFirstChoice(p1, p2.TTrue?, e, f1, n, d0);
      ghost var b1, x := Gen(p1, p2.TTrue?, TestOf(f1), FULLSET, e, true), [IChoice(2 + |Gen(p1, p2.TTrue?, TestOf(f1), FULLSET, e, true)|)];
      ghost var t1 := MaybeTest(f1, 3 + |b1|);
      CodeGen(p2, opt, -1, None, fl, e, n, d0);
      ghost var b2 := Gen(p2, opt, None, fl, e, true);
      Labels(ICommit(0), 1 + |b2|);
      Close(pcommit, pre + t1 + x + b1, ICommit(0), b2);
      Assoc(pre + t1 + x + b1, [ICommit(1 + |b2|)], b2);
      Rebuild(pre, t1, x, b1, [ICommit(1 + |b2|)] + b2);
    }

    // Its first part: the test, the entry, the first pattern and the commit, whose
    // label is still open.
    method CodeFirstChoice(p1: Tree, opt1: bool, e: Env, f1: First, ghost n: nat, ghost d0: nat) returns (pcommit: nat)
      requires Ready(p1, n, d0) && f1 == GetFirst(p1, FULLSET, e.g, e.d)
      modifies this
      ensures var b1 := Gen(p1, opt1, TestOf(f1), FULLSET, e, true);
        var first := old(code) + MaybeTest(f1, 3 + |b1|) + [IChoice(2 + |b1|)] + b1;
        code == first + [ICommit(0)] && pcommit == |first|
      decreases p1, 3
    {
      hide *;
      ghost var pre := code;
      var test := CodeTestSet(f1.cs, f1.e);
      ghost var t0, c0 := MaybeTest(f1, 0), [ICommit(0)];
      MaybeTestIs(f1, 0);
      TestOfAt(pre, f1, [IChoice(0)]);
      var pchoice := AddInstruction(IChoice(0));
      CodeGen(p1, opt1, test, TestOf(f1), FULLSET, e, n, d0);
      ghost var b1 := Gen(p1, opt1, TestOf(f1), FULLSET, e, true);
      pcommit := AddInstruction(ICommit(0));
      ghost var x := [IChoice(2 + |b1|)];
      Labels(IChoice(0), 2 + |b1|);
      Assoc(pre + t0 + [IChoice(0)], b1, c0);
      Close(pchoice, pre + t0, IChoice(0), b1 + c0);
      Assoc(pre + t0, x, b1 + c0);
      CloseTest(test, pre, f1, x + (b1 + c0));
      ghost var t1 := MaybeTest(f1, 3 + |b1|);
      MaybeTestIs(f1, 3 + |b1|);
      Assoc(pre + t1, x, b1 + c0);
      Assoc(pre + t1 + x, b1, c0);
    }

    // Code a jump back to 'test', which leaves the loop when it fails.
    method CloseLoop(test: nat, ghost pre: seq<Instr>, ghost x: Instr, ghost body: seq<Instr>)
      requires test == |pre| && code == pre + [x] + body && HasLabel(x)
      modifies this
      ensures code == pre + ([SetLabel(x, 2 + |body|)] + body + [IJmp(-1 - |body|)])
    {
      hide *;
      ghost var x', j := [SetLabel(x, 2 + |body|)], [IJmp(-1 - |body|)];
      var jmp := AddInstruction(IJmp(0));
      Labels(IJmp(0), -1 - |body|);
      Assoc(pre + [x], body, [IJmp(0)]);
      Close(test, pre, x, body + [IJmp(0)]);
      Assoc(pre + x', body, [IJmp(0)]);
      PatchEnd(pre + x' + body, IJmp(0), j[0]);
      JumpToThere(jmp, test);
      Rebuild(pre, x', body, j, []);
      assert x' + body + j + [] == x' + body + j;
      assert pre + x' + body + j + [] == pre + x' + body + j;
    }

    // A repetition of one byte needs no entry on the stack; what is no charset is left.
    method CodeRepSet(tree: Tree) returns (done: bool)
      modifies this
      ensures done == IsCharset(tree)
      ensures code == old(code) + (if IsCharset(tree) then CodeRepCharset(tree) else [])
    {
      ghost var pre := code;
      done := true;
      match tree
      case TFalse => assert code == pre + [];
      case TAny =>
        var test := AddInstruction(ITestAny(3));
        var _ := AddInstruction(IAny);
        CloseLoop(test, pre, ITestAny(3), [IAny]);
        assert [SetLabel(ITestAny(3), 3)] + [IAny] + [IJmp(-2)] == CodeRepCharset(tree);
      case TChar(c) =>
        var test := AddInstruction(ITestChar(c, 0));
        var _ := AddInstruction(IAny);
        CloseLoop(test, pre, ITestChar(c, 0), [IAny]);
        assert [SetLabel(ITestChar(c, 0), 3)] + [IAny] + [IJmp(-2)] == CodeRepCharset(tree);
      case TSet(cs) => var _ := AddInstruction(ISpan(cs));
      case _ =>
        done := false;
        assert code == pre + [];
    }

    method CodeRep(p: Tree, opt: bool, fl: set<Byte>, e: Env, ghost tt: Test, ghost n: nat, ghost d0: nat)
      requires Ready(p, n, d0)
      modifies this
      ensures code == old(code) + Gen(TRep(p), opt, tt, fl, e, true)
      decreases TRep(p), 1
    {
      hide *;
      ghost var pre := code;
      var done := CodeRepSet(p);
      if done {
        RepGenCharset(TRep(p), opt, tt, fl, e, true);
      } else {
        assert code == pre;
        var f := GetFirst(p, FULLSET, e.g, e.d);
        if TestRep(p, fl, e) {
          // the next byte alone says whether there is another round
          RepTestGen(TRep(p), opt, tt, fl, e, true);
          ghost var t0 := TestSet(f.cs, 0);
          var test := CodeTestSet(f.cs, false);
          CodeGen(p, false, test, Some(t0), FULLSET, e, n, d0);
          ghost var b := Gen(p, false, Some(t0), FULLSET, e, true);
          LabelTest(f.cs, 2 + |b|);
          CloseLoop(test, pre, t0, b);
          assert [TestSet(f.cs, 2 + |b|)] + b + [IJmp(-1 - |b|)] + [] == [TestSet(f.cs, 2 + |b|)] + b + [IJmp(-1 - |b|)];
        } else {
          // one entry is pushed for all rounds, each of which updates it
          RepPointGen(TRep(p), opt, tt, fl, e, true);
          CodeRepPoint(p, opt, e, f, n, d0);
        }
      }
    }

    // The rounds of a repetition whose entry is on the stack.
    method CodeRepBody(p: Tree, e: Env, ghost n: nat, ghost d0: nat)
      requires Ready(p, n, d0)
      modifies this
      ensures var b := Gen(p, false, None, FULLSET, e, true);
        code == old(code) + b + [IPartialCommit(-|b|)]
      decreases p, 3
    {
      hide *;
      ghost var pre, b := code, Gen(p, false, None, FULLSET, e, true);
      var l2 := |code|;
      CodeGen(p, false, -1, None, FULLSET, e, n, d0);
      var commit := AddInstruction(IPartialCommit(0));
      Labels(IPartialCommit(0), -|b|);
      PatchEnd(pre + b, IPartialCommit(0), IPartialCommit(-|b|));
      JumpToThere(commit, l2);
    }

    method CodeRepPoint(p: Tree, opt: bool, e: Env, f: First, ghost n: nat, ghost d0: nat)
      requires Ready(p, n, d0) && f == GetFirst(p, FULLSET, e.g, e.d)
      modifies this
      ensures
        var b := Gen(p, false, None, FULLSET, e, true);
        code == old(code)
          + (MaybeTest(f, 3 + |b|) + [if opt then IPartialCommit(1) else IChoice(2 + |b|)] + b + [IPartialCommit(-|b|)])
      decreases TRep(p), 0
    {
      hide *;
      ghost var pre, t0 := code, MaybeTest(f, 0);
      ghost var b := Gen(p, false, None, FULLSET, e, true);
      ghost var t1, z := MaybeTest(f, 3 + |b|), [IPartialCommit(-|b|)];
      ghost var y := [if opt then IPartialCommit(1) else IChoice(2 + |b|)];
      MaybeTestIs(f, 0);
      MaybeTestIs(f, 3 + |b|);
      Labels(IPartialCommit(0), 1);
      Labels(IChoice(0), 2 + |b|);
      var test := CodeTestSet(f.cs, f.e);
      var pchoice: int := -1;
      if opt {
        var i := AddInstruction(IPartialCommit(0));
        assert code == pre + t0 + [IPartialCommit(0)] + [];
        Close(i, pre + t0, IPartialCommit(0), []);
        assert code == pre + t0 + y;
      } else {
        pchoice := AddInstruction(IChoice(0));
      }
      ghost var y0 := [if opt then IPartialCommit(1) else IChoice(0)];
      assert code == pre + t0 + y0;
      CodeRepBody(p, e, n, d0);
      Assoc(pre + t0 + y0, b, z);
      if pchoice >= 0 {
        Close(pchoice, pre + t0, IChoice(0), b + z);
      }
      Assoc(pre + t0, y, b + z);
      CloseTest(test, pre, f, y + (b + z));
      Assoc(pre + t1, y, b + z);
      Assoc(pre + t1 + y, b, z);
      Rebuild(pre, t1, y, b, z);
    }

    method CodeNot(p: Tree, opt: bool, fl: set<Byte>, e: Env, ghost tt: Test, ghost n: nat, ghost d0: nat)
      requires Ready(p, n, d0)
      modifies this
      ensures code == old(code) + Gen(TNot(p), opt, tt, fl, e, true)
      decreases TNot(p), 0
    {
      hide *;
      NotGen(TNot(p), opt, tt, fl, e, true);
      ghost var pre := code;
      var f := GetFirst(p, FULLSET, e.g, e.d);
      var test := CodeTestSet(f.cs, f.e);
      MaybeTestIs(f, 0);
      ghost var head := code;
      if HeadFail(p, e.g, e.d) {
        var _ := AddInstruction(IFail);
        CloseTest(test, pre, f, [IFail]);
        Assoc(pre, MaybeTest(f, 2), [IFail]);
      } else {
        ghost var b := Gen(p, false, None, FULLSET, e, true);
        ghost var x, z, t1 := [IChoice(2 + |b|)], [IFailTwice], MaybeTest(f, 3 + |b|);
        var pchoice := AddInstruction(IChoice(0));
        CodeGen(p, false, -1, None, FULLSET, e, n, d0);
        var _ := AddInstruction(IFailTwice);
        Labels(IChoice(0), 2 + |b|);
        Assoc(head + [IChoice(0)], b, z);
        Close(pchoice, head, IChoice(0), b + z);
        Assoc(head, x, b + z);
        CloseTest(test, pre, f, x + (b + z));
        Assoc(pre + t1, x, b + z);
        Assoc(pre + t1 + x, b, z);
        Rebuild(pre, t1, x, b, z);
      }
    }

    method CodeAnd(p: Tree, opt: bool, tt0: int, ghost tt: Test, fl: set<Byte>, e: Env, ghost n: nat, ghost d0: nat)
      requires Ready(p, n, d0)
      requires tt0 < |code| && tt == (if tt0 >= 0 then Some(code[tt0]) else None)
      modifies this
      ensures code == old(code) + Gen(TAnd(p), opt, tt, fl, e, true)
      decreases TAnd(p), 0
    {
      hide *;
      ghost var pre := code;
      ghost var b := Gen(p, false, tt, FULLSET, e, true);
      var len := AndLen(p, e);
      if 0 <= len <= MAXBEHIND {
        AndFixedGen(TAnd(p), opt, tt, fl, e, true);
        CodeGen(p, false, tt0, tt, FULLSET, e, n, d0);
        if len > 0 {
          var _ := AddInstruction(IBehind(len));
        }
        assert code == pre + (b + (if len > 0 then [IBehind(len)] else []));
      } else {
        // the entry of the stack brings the position back, a failure its own
        AndGen(TAnd(p), opt, tt, fl, e, true);
        ghost var x, y0, y := [IChoice(2 + |b|)], [IBackCommit(0)], [IBackCommit(2)];
        var pchoice := AddInstruction(IChoice(0));
        CodeGen(p, false, tt0, tt, FULLSET, e, n, d0);
        var pcommit := AddInstruction(IBackCommit(0));
        Labels(IChoice(0), 2 + |b|);
        Labels(IBackCommit(0), 2);
        Assoc(pre + [IChoice(0)], b, y0);
        Close(pchoice, pre, IChoice(0), b + y0);
        Assoc(pre + x, b, y0);
        var _ := AddInstruction(IFail);
        Close(pcommit, pre + x + b, IBackCommit(0), [IFail]);
        Rebuild(pre, x, b, y, [IFail]);
      }
    }

    method CodeBehind(t: Tree, opt: bool, fl: set<Byte>, e: Env, ghost tt: Test, ghost n: nat, ghost d0: nat)
      requires t.TBehind? && Ready(t.p, n, d0)
      modifies this
      ensures code == old(code) + Gen(t, opt, tt, fl, e, true)
      decreases t, 0
    {
      hide *;
      BehindGen(t, opt, tt, fl, e, true);
      ghost var pre := code;
      if t.n > 0 {
        var _ := AddInstruction(IBehind(t.n));
      }
      CodeGen(t.p, false, -1, None, FULLSET, e, n, d0);
      assert code == pre + ((if t.n > 0 then [IBehind(t.n)] else []) + Gen(t.p, false, None, FULLSET, e, true));
    }

    // A sequence begins: the result is the test that its second child may rely on.
    method CodeSeq1(p1: Tree, p2: Tree, tt0: int, ghost tt: Test, fl: set<Byte>, e: Env, ghost n: nat, ghost d0: nat)
      returns (tt1: int)
      requires Ready(p1, n, d0)
      requires tt0 < |code| && tt == (if tt0 >= 0 then Some(code[tt0]) else None)
      modifies this
      ensures code == old(code) + Gen(p1, false, tt, SeqFollow(p1, p2, fl, e), e, true)
      ensures tt1 < |code| && SeqTest(p1, tt, e) == if tt1 >= 0 then Some(code[tt1]) else None
      decreases TSeq(p1, p2), 0
    {
      hide Gen, GetFirst, FixedLen;
      if NeedFollow(p1) {
        var f := GetFirst(p2, fl, e.g, e.d);
        CodeGen(p1, false, tt0, tt, f.cs, e, n, d0);
      } else {
        CodeGen(p1, false, tt0, tt, FULLSET, e, n, d0);
      }
      tt1 := if FixedLen(p1, e.g, e.ids) != 0 then -1 else tt0;
    }

    // The open call at 'i' gets its rule; it becomes a jump if only a return
    // comes next.
    method ResolveCall(i: nat, rule: nat, ghost pre: seq<Instr>, ghost m: seq<Instr>, ghost k: nat)
      requires code == pre + m && i == |pre| + k && k < |m| && rule >= |pre|
      requires AllEnd(m)
      modifies this
      ensures var off := rule - |pre| - k;
        code == pre + m[k := if ToRet(m, k + 1) then IJmp(off) else ICall(off)]
    {
      hide *;
      MixedTarget(pre, m, k + 1);
      var ft := FindTarget(code, i + 1);
      TargetRet(code, i + 1);
      IsRet(code, ft);
      ghost var off := rule - |pre| - k;
      Labels(IJmp(0), off);
      Labels(ICall(0), off);
      if 0 <= ft < |code| && code[ft].IRet? {
        code := code[i := IJmp(0)];
      } else {
        code := code[i := ICall(0)];
      }
      JumpToThere(i, rule);
      assert code == pre + m[k := if ToRet(m, k + 1) then IJmp(off) else ICall(off)];
    }

    // Every open call of a grammar gets the place of its rule, as a jump where
    // nothing is left to do after it.
    method ResolveCalls(positions: seq<nat>, from: nat, ghost pre: seq<Instr>, ghost r: Rules)
      requires from == |pre| && code == pre + r.code
      requires |positions| == |r.pos| && forall k :: 0 <= k < |r.pos| ==> positions[k] == from + r.pos[k]
      requires forall m: seq<Instr> :: Mixed(r, m) ==> AllEnd(m)
      requires CallsKnown(r.code, |r.pos|)
      modifies this
      ensures code == pre + CorrectCalls(r.code, r.pos, 0)
    {
      hide *;
      ghost var m := r.code;
      ResolvingStart(r);
      var i, to := from, |code|;
      while i < to
        invariant from <= i <= to == |code| && code == pre + m && Resolving(r, m, i - from)
      {
        ghost var k := i - from;
        ResolvingStep(r, m, k);
        assert code[i] == m[k];
        if code[i].IOpenCall? {
          CallKnown(r.code, |r.pos|, k);
          ResolveCall(i, positions[code[i].rule], pre, m, k);
          RulePosIs(r, r.code[k].rule);
          ResolvedIs(r, m, k);
          m := m[k := ResolvedAt(r, m, k)];
        }
        i := i + 1;
      }
      ResolvingEnd(r, m);
    }

    // One rule after the other, each with its return; 'positions' is where they begin.
    method CodeRules(t: Tree, e: Env, ghost d0: nat) returns (positions: seq<nat>)
      requires t.TGrammar? && AllWellFormed(t.rules) && e.g == t.rules
      requires forall k :: 0 <= k < |t.rules| ==> Verified(t.rules[k], d0, true)
      modifies this
      ensures
        var r := GenRules(t, |t.rules|, e, true);
        && code == old(code) + r.code && |positions| == |r.pos|
        && forall q :: 0 <= q < |r.pos| ==> positions[q] == |old(code)| + r.pos[q]
      decreases t, 0
    {
      hide Gen, Verified, AllWellFormed;
      ghost var pre := code;
      positions := [];
      var k := 0;
      while k < |t.rules|
        invariant 0 <= k <= |t.rules| && |positions| == k
        invariant var r := GenRules(t, k, e, true);
          code == pre + r.code && forall q :: 0 <= q < k ==> positions[q] == |pre| + r.pos[q]
      {
        ghost var r := GenRules(t, k, e, true);
        ghost var b := Gen(t.rules[k], false, None, FULLSET, e, true);
        WellFormedRule(t, k);
        positions := positions + [|code|];
        CodeGen(t.rules[k], false, -1, None, FULLSET, e, |t.rules|, d0);
        Assoc(pre, r.code, b);
        var _ := AddInstruction(IRet);
        Assoc(pre, r.code + b, [IRet]);
        k := k + 1;
      }
    }

    method CodeGrammar(t: Tree, opt: bool, fl: set<Byte>, e: Env, ghost tt: Test, ghost n: nat, ghost d0: nat)
      requires t.TGrammar? && Ready(t, n, d0)
      modifies this
      ensures code == old(code) + Gen(t, opt, tt, fl, e, true)
      decreases t, 1
    {
      hide *;
      GrammarGen(t, opt, tt, fl, e, true);
      EnterRules(t, n, d0);
      ghost var pre := code;
      var e' := Env(t.rules, e.d, e.ids);
      ghost var r := GenRules(t, |t.rules|, e', true);
      RulesReady(t, e', d0);
      Labels(ICall(0), 2);
      Labels(IJmp(0), 1 + |r.code|);
      var firstcall := AddInstruction(ICall(0));
      var jumptoend := AddInstruction(IJmp(0));
      var start := |code|;
      Close(firstcall, pre, ICall(0), [IJmp(0)]);
      var positions := CodeRules(t, e', d0);
      Close(jumptoend, pre + [ICall(2)], IJmp(0), r.code);
      ResolveCalls(positions, start, pre + [ICall(2)] + [IJmp(1 + |r.code|)], r);
      Assoc(pre + [ICall(2)], [IJmp(1 + |r.code|)], CorrectCalls(r.code, r.pos, 0));
      Assoc(pre, [ICall(2)], [IJmp(1 + |r.code|)] + CorrectCalls(r.code, r.pos, 0));
    }

    // Code for any tree; for a sequence, that of its second child follows here.
    method CodeGen(tree: Tree, opt: bool, tt0: int, ghost tt: Test, fl: set<Byte>, e: Env, ghost n: nat, ghost d0: nat)
      requires Ready(tree, n, d0)
      requires tt0 < |code| && tt == (if tt0 >= 0 then Some(code[tt0]) else None)
      modifies this
      ensures code == old(code) + Gen(tree, opt, tt, fl, e, true)
      decreases tree, 2
    {
      hide Gen, GetFirst, HeadFail, FixedLen, SeqFollow, SeqTest, VerifyGrammar, AllWellFormed, GenRules;
      var t, tt1 := tree, tt0;
      ghost var tv := tt;
      ghost var all := code + Gen(tree, opt, tt, fl, e, true);
      while t.TSeq?
        invariant tt1 < |code| && Ready(t, n, d0) && (t == tree || t < tree)
        invariant tv == if tt1 >= 0 then Some(code[tt1]) else None
        invariant code + Gen(t, opt, tv, fl, e, true) == all
        decreases t
      {
        ghost var before := code;
        SeqGen(t, opt, tv, fl, e, true);
        tt1 := CodeSeq1(t.p1, t.p2, tt1, tv, fl, e, n, d0);
        Assoc(before, Gen(t.p1, false, tv, SeqFollow(t.p1, t.p2, fl, e), e, true),
              Gen(t.p2, opt, SeqTest(t.p1, tv, e), fl, e, true));
        tv := SeqTest(t.p1, tv, e);
        t := t.p2;
      }
      match t
      case TChoice(p1, p2) => CodeChoice(p1, p2, opt, fl, e, tv, n, d0);
      case TRep(p) => CodeRep(p, opt, fl, e, tv, n, d0);
      case TBehind(_, p) => CodeBehind(t, opt, fl, e, tv, 0, d0);
      case TNot(p) => CodeNot(p, opt, fl, e, tv, n, d0);
      case TAnd(p) => CodeAnd(p, opt, tt1, tv, fl, e, n, d0);
      case TGrammar(_) => CodeGrammar(t, opt, fl, e, tv, n, d0);
      case TCall(r, _) =>
        CallGen(t, opt, tv, fl, e, true);
        var _ := AddInstruction(IOpenCall(r));
      case TTrue => TrueGen(t, opt, tv, fl, e, true);
      case TChar(_) => CodeLeaf(t, tt1, tv, opt, fl, e);
      case TSet(_) => CodeLeaf(t, tt1, tv, opt, fl, e);
      case TAny => CodeLeaf(t, tt1, tv, opt, fl, e);
      case TFalse => CodeLeaf(t, tt1, tv, opt, fl, e);
      case TSeq(_, _) => assert false;
    }

    // A character, a set, any or fail; a test that dominates it makes it IAny.
    method CodeLeaf(t: Tree, tt0: int, ghost tt: Test, ghost opt: bool, ghost fl: set<Byte>, ghost e: Env)
      requires IsCharset(t)
      requires tt0 < |code| && tt == (if tt0 >= 0 then Some(code[tt0]) else None)
      modifies this
      ensures code == old(code) + Gen(t, opt, tt, fl, e, true)
    {
      LeafGen(t, opt, tt, fl, e, true);
      hide Gen;
      match t
      case TChar(c) =>
        if tt0 >= 0 && code[tt0].ITestChar? && code[tt0].c == c {
          var _ := AddInstruction(IAny);
        } else {
          var _ := AddInstruction(IChar(c));
        }
      case TSet(cs) =>
        if tt0 >= 0 && code[tt0].ITestSet? && code[tt0].cs == cs {
          var _ := AddInstruction(IAny);
        } else {
          var _ := AddInstruction(ISet(cs));
        }
      case TAny => var _ := AddInstruction(IAny);
      case TFalse => var _ := AddInstruction(IFail);
    }

    // One look of the peephole pass at instruction 'i'; 'redo' when a jump has
    // become a commit, whose own label is still to be optimised.
    method LookAt(i: nat) returns (redo: bool)
      requires i < |code| && AllStop(code)
      modifies this
      ensures code == old(code)[i := PeepAt(old(code), i)]
      ensures redo == (old(code)[i].IJmp? && IsCommit(code[i]))
    {
      hide Leads, Stops, FinalTarget, HasLabel, SetLabel, Label, IsCommit, IsStop;
      LabelKinds(code[i]);
      redo := false;
      if !HasLabel(code[i]) {
        assert code == code[i := code[i]];
      } else if !code[i].IJmp? {
        var target := FindTarget(code, i + Label(code[i]));
        JumpToThere(i, target);
      } else {
        var ft := FindTarget(code, i);
        if 0 <= ft < |code| && IsStop(code[ft]) {
          LabelKinds(code[ft]);
          code := code[i := code[ft]];
        } else if 0 <= ft < |code| && IsCommit(code[ft]) {
          LabelKinds(code[ft]);
          var fft := FindTarget(code, ft + Label(code[ft]));
          code := code[i := code[ft]];
          JumpToThere(i, fft);
          LabelKinds(code[i]);
          redo := true;
        } else {
          JumpToThere(i, ft);
          LabelKinds(code[i]);
        }
      }
    }

    // The peephole pass.
    method Optimise()
      requires AllStop(code)
      modifies this
      ensures code == Peephole(old(code), 0)
    {
      hide *;
      var i := 0;
      while i < |code|
        invariant 0 <= i <= |code| && AllStop(code) && Peephole(code, i) == Peephole(old(code), 0)
      {
        PeepholeStep(code, i);
        PeepStops(code, i);
        var redo := LookAt(i);
        if redo {
          PeepStops(code, i);
          redo := LookAt(i);
        }
        i := i + 1;
      }
      PeepholeEnd(code);
    }
  }

  lemma LabelKinds(x: Instr)
    ensures x.IJmp? ==> HasLabel(x) && !IsCommit(x) && !IsStop(x) && forall off :: SetLabel(x, off) == IJmp(off)
    ensures IsCommit(x) ==> HasLabel(x) && !IsStop(x) && forall off :: IsCommit(SetLabel(x, off))
    ensures IsStop(x) ==> !IsCommit(x)
  {
  }

  lemma PeepholeStep(code: seq<Instr>, i: nat)
    requires i < |code|
    ensures
      var once := code[i := PeepAt(code, i)];
      Peephole(code, i)
      == Peephole(if code[i].IJmp? && IsCommit(once[i]) then once[i := PeepAt(once, i)] else once, i + 1)
  {
    hide PeepAt;
  }

  lemma PeepholeEnd(code: seq<Instr>)
    ensures Peephole(code, |code|) == code
  {
  }


  // Every open call names a rule.
  ghost predicate CallsKnown(code: seq<Instr>, n: nat) {
    forall k :: 0 <= k < |code| && code[k].IOpenCall? ==> code[k].rule < n
  }

  lemma CallKnown(code: seq<Instr>, n: nat, k: nat)
    requires CallsKnown(code, n) && k < |code| && code[k].IOpenCall?
    ensures code[k].rule < n
  {
  }

  lemma CorrectCallsStep(code: seq<Instr>, pos: seq<nat>, i: nat)
    requires i < |code|
    ensures CorrectCalls(code, pos, i) ==
      if code[i].IOpenCall? then
        var off := RulePos(pos, code[i].rule) - i;
        CorrectCalls(code[i := if ToRet(code, i + 1) then IJmp(off) else ICall(off)], pos, i + 1)
      else CorrectCalls(code, pos, i + 1)
  {
    hide ToRet;
  }

  lemma CorrectCallsEnd(code: seq<Instr>, pos: seq<nat>)
    ensures CorrectCalls(code, pos, |code|) == code
  {
  }

  lemma IsRet(code: seq<Instr>, k: int)
    ensures IsRetAt(code, k) <==> 0 <= k < |code| && code[k].IRet?
  {
  }

  lemma RulePosIs(r: Rules, q: nat)
    requires q < |r.pos|
    ensures RulePos(r.pos, q) == r.pos[q]
  {
  }

  // What the loop of 'correctcalls' puts at 'k' when it meets an open call.
  ghost function ResolvedAt(r: Rules, m: seq<Instr>, k: nat): Instr
    requires k < |r.code| && r.code[k].IOpenCall?
  {
    var off := RulePos(r.pos, r.code[k].rule) - k;
    if ToRet(m, k + 1) then IJmp(off) else ICall(off)
  }

  lemma ResolvedIs(r: Rules, m: seq<Instr>, k: nat)
    requires k < |r.code| && r.code[k].IOpenCall?
    ensures var off := RulePos(r.pos, r.code[k].rule) - k;
      ResolvedAt(r, m, k) == if ToRet(m, k + 1) then IJmp(off) else ICall(off)
  {
  }

  // The code 'm' of the rules when the loop has reached 'k'.
  ghost predicate Resolving(r: Rules, m: seq<Instr>, k: int) {
    && 0 <= k <= |m| == |r.code| && Mixed(r, m)
    && (forall j :: k <= j < |m| ==> m[j] == r.code[j])
    && CorrectCalls(m, r.pos, k) == CorrectCalls(r.code, r.pos, 0)
  }

  lemma ResolvingStart(r: Rules)
    ensures Resolving(r, r.code, 0)
  {
    hide CorrectCalls;
  }

  lemma ResolvingStep(r: Rules, m: seq<Instr>, k: nat)
    requires k < |m| && Resolving(r, m, k)
    ensures Mixed(r, m) && |m| == |r.code| && m[k] == r.code[k]
    ensures Resolving(r, if m[k].IOpenCall? then m[k := ResolvedAt(r, m, k)] else m, k + 1)
  {
    hide ToRet, CorrectCalls;
    CorrectCallsStep(m, r.pos, k);
    if m[k].IOpenCall? {
      MixedStep(r, m, k, ResolvedAt(r, m, k));
    }
  }

  lemma ResolvingEnd(r: Rules, m: seq<Instr>)
    requires Resolving(r, m, |m|)
    ensures m == CorrectCalls(r.code, r.pos, 0)
  {
    CorrectCallsEnd(m, r.pos);
  }

  lemma MixedStep(r: Rules, m: seq<Instr>, k: nat, x: Instr)
    requires Mixed(r, m) && k < |m| && r.code[k].IOpenCall?
    requires var off := RulePos(r.pos, r.code[k].rule) - k; x == ICall(off) || x == IJmp(off)
    ensures Mixed(r, m[k := x])
  {
  }

  // The chain from 'j' inside the rules, seen from the whole code.
  lemma MixedTarget(pre: seq<Instr>, m: seq<Instr>, j: nat)
    requires AllEnd(m) && j <= |m|
    ensures Stops(pre + m, |pre| + j)
    ensures ToRet(m, j) <==> ToRet(pre + m, |pre| + j)
  {
    hide Leads;
    assert pre + m + [] == pre + m;
    assert Ends(m, j);
    var k :| EndsAt(m, j, k);
    LeadsShift(pre, m, [], j, k);
    assert StopsAt(pre + m, |pre| + j, |pre| + k);
    if ToRet(m, j) {
      ToRetShift(pre, m, [], j);
    }
    if ToRet(pre + m, |pre| + j) {
      var k' :| Leads(pre + m, |pre| + j, k') && IsRetAt(pre + m, k');
      assert StopsAt(pre + m, |pre| + j, k');
      StopUnique(pre + m, |pre| + j, |pre| + k, k');
      assert IsRetAt(m, k);
    }
  }

  lemma EnterRules(t: Tree, n: nat, d0: nat)
    requires t.TGrammar? && Ready(t, n, d0)
    ensures AllWellFormed(t.rules) && |t.rules| > 0 && VerifyGrammar(t.rules, d0, true)
    ensures forall k :: 0 <= k < |t.rules| ==> Verified(t.rules[k], d0, true)
  {
  }

  lemma RulesReady(t: Tree, e: Env, d: nat)
    requires t.TGrammar? && AllWellFormed(t.rules) && |t.rules| > 0 && e.g == t.rules
    requires forall k :: 0 <= k < |t.rules| ==> Verified(t.rules[k], d, true)
    requires VerifyGrammar(t.rules, d, true)
    ensures var r := GenRules(t, |t.rules|, e, true);
      CallsKnown(r.code, |r.pos|) && forall m: seq<Instr> :: Mixed(r, m) ==> AllEnd(m)
  {
    hide Gen, AllEnd, Mixed, VerifyGrammar, CorrectCalls, AllWellFormed;
    var r := GenRules(t, |t.rules|, e, true);
    forall k | 0 <= k < |t.rules| ensures WellFormed(t.rules[k], |t.rules|) {
      WellFormedRule(t, k);
    }
    RulesAllEnd(t, |t.rules|, e, d, |t.rules|);
    forall m: seq<Instr> | Mixed(r, m) ensures AllEnd(m) {
      MixedEnds(t, e, d, r, m);
    }
    RulesCalls(t, |t.rules|, e, true);
    UsedInRange(t.rules);
  }

  lemma Labels(x: Instr, off: int)
    requires x.IJmp? || x.IPartialCommit? || x.IChoice? || x.ICommit? || x.IBackCommit? || x.ICall?
    ensures HasLabel(x)
    ensures SetLabel(x, off) == match x
      case IJmp(_) => IJmp(off) case IPartialCommit(_) => IPartialCommit(off) case IChoice(_) => IChoice(off)
      case ICommit(_) => ICommit(off) case IBackCommit(_) => IBackCommit(off) case ICall(_) => ICall(off) case _ => x
  {
  }

  lemma MaybeTestIs(f: First, off: int)
    ensures MaybeTest(f, off) == if f.e then [] else [TestSet(f.cs, off)]
  {
  }

  lemma TestOfAt(pre: seq<Instr>, f: First, rest: seq<Instr>)
    ensures var code := pre + MaybeTest(f, 0) + rest;
      var i := if f.e then -1 else |pre|;
      i < |code| && TestOf(f) == if i >= 0 then Some(code[i]) else None
  {
    hide TestSet;
  }

  // Closing an optional test that was coded after 'pre'.
  lemma PatchTest(pre: seq<Instr>, f: First, rest: seq<Instr>)
    ensures var c := pre + MaybeTest(f, 0) + rest;
      f.e || (HasLabel(c[|pre|]) && c[|pre| := SetLabel(c[|pre|], |c| - |pre|)] == pre + MaybeTest(f, 1 + |rest|) + rest)
  {
    hide TestSet;
    LabelTest(f.cs, 1 + |rest|);
  }

  // ------------------------------------------------------------------ matching

  ghost predicate EndsAs(code: seq<Instr>, s: seq<Byte>, c: Config, n: nat, out: Config) {
    Steps(code, s, c, n) == out && (out.Matched? || out.NoMatch?)
  }

  // A run that ends well takes another step, and not into a failed assertion.
  lemma RunsOn(code: seq<Instr>, s: seq<Byte>, c: Config, n: nat, out: Config)
    requires c.Run? && EndsAs(code, s, c, n, out)
    ensures n > 0 && EndsAs(code, s, Step(code, s, c), n - 1, out)
    ensures 0 <= c.pc < |code| && Step(code, s, c) != Stuck
  {
    hide Step;
    assert n > 0;
    if Step(code, s, c) == Stuck {
      StuckStays(code, s, c, n);
    }
    InCode(code, s, c);
  }

  lemma EndsNow(code: seq<Instr>, s: seq<Byte>, start: nat, n: nat)
    requires var c := Steps(code, s, Run(0, start, Base), n); c.Matched? || c.NoMatch?
    ensures EndsAs(code, s, Run(0, start, Base), n, Steps(code, s, Run(0, start, Base), n))
  {
  }

  lemma InCode(code: seq<Instr>, s: seq<Byte>, c: Config)
    requires c.Run? && Step(code, s, c) != Stuck
    ensures 0 <= c.pc < |code|
  {
  }

  lemma HaltedIs(code: seq<Instr>, s: seq<Byte>, c: Config, n: nat, out: Config)
    requires !c.Run? && EndsAs(code, s, c, n, out)
    ensures c == out
  {
    HaltedStays(code, s, c, n);
  }

  // The loop of the machine.  'n' is the length of the run, which is known to
  // end without a failed assertion.
  method Match(code: seq<Instr>, s: seq<Byte>, start: nat, ghost n: nat) returns (end: Option<nat>)
    requires var c := Steps(code, s, Run(0, start, Base), n); c.Matched? || c.NoMatch?
    ensures Steps(code, s, Run(0, start, Base), n) == if end.Some? then Matched(end.value) else NoMatch
  {
    hide EndsAs;
    var p: int, i, st := 0, start, Base;
    ghost var out := Steps(code, s, Run(0, start, Base), n);
    ghost var left := n;
    EndsNow(code, s, start, n);
    while true
      invariant EndsAs(code, s, Run(p, i, st), left, out)
      decreases left
    {
      ghost var c := Run(p, i, st);
      RunsOn(code, s, c, left, out);
      left := left - 1;
      var fail := false;
      match code[p] {
        case IEnd =>
          HaltedIs(code, s, Matched(i), left, out);
          return Some(i);
        case IRet => p, st := st.pc, st.rest;
        case IAny => if i < |s| { p, i := p + 1, i + 1; } else { fail := true; }
        case ITestAny(off) => if i < |s| { p := p + 1; } else { p := p + off; }
        case IChar(b) => if i < |s| && s[i] == b { p, i := p + 1, i + 1; } else { fail := true; }
        case ITestChar(b, off) => if i < |s| && s[i] == b { p := p + 1; } else { p := p + off; }
        case ISet(cs) => if i < |s| && s[i] in cs { p, i := p + 1, i + 1; } else { fail := true; }
        case ITestSet(cs, off) => if i < |s| && s[i] in cs { p := p + 1; } else { p := p + off; }
        case IBehind(k) => if k > i { fail := true; } else { p, i := p + 1, i - k; }
        case ISpan(cs) =>
          i := Span(cs, s, i);
          p := p + 1;
        case IJmp(off) => p := p + off;
        case IChoice(off) => p, st := p + 1, Choice(p + off, i, st);
        case ICall(off) => p, st := p + off, Ret(p + 1, st);
        case ICommit(off) => p, st := p + off, st.rest;
        case IPartialCommit(off) => p, st := p + off, Choice(st.pc, i, st.rest);
        case IBackCommit(off) => p, i, st := p + off, st.pos, st.rest;
        case IFailTwice =>
          st := st.rest;
          fail := true;
        case IFail => fail := true;
        case IOpenCall(_) => assert false;
      }
      if fail {
        ghost var st0 := st;
        // the calls above the entry are left
        while st.Ret?
          invariant FailTo(st) == FailTo(st0)
          decreases st
        {
          st := st.rest;
        }
        if st.Base? {
          HaltedIs(code, s, NoMatch, left, out);
          return None;
        }
        p, i, st := st.pc, st.pos, st.rest;
      }
    }
  }

  method Span(cs: set<Byte>, s: seq<Byte>, start: nat) returns (i: nat)
    ensures i == SpanEnd(cs, s, start)
  {
    i := start;
    while i < |s| && s[i] in cs
      invariant SpanEnd(cs, s, i) == SpanEnd(cs, s, start)
      decreases |s| - i
    {
      i := i + 1;
    }
  }

  // Compile a finished pattern.
  method CompilePattern(t: Tree, d: nat, ghost d0: nat) returns (code: seq<Instr>)
    requires Finished(t, d0, true)
    ensures code == Program(t, d)
  {
    hide Gen, Peephole, AllStop;
    var state := new CompileState();
    state.CodeGen(t, false, -1, None, FULLSET, Env([], d, Ids(t)), 0, d0);
    assert state.code == Gen(t, false, None, FULLSET, Env([], d, Ids(t)), true);
    var _ := state.AddInstruction(IEnd);
    CompileStops(t, d, d0);
    state.Optimise();
    code := state.code;
  }

  // Compile and match: the answer is the meaning of the pattern.
  method MatchPattern(t: Tree, d: nat, s: seq<Byte>, init: nat) returns (end: Option<nat>)
    requires Finished(t, d, true) && init <= |s|
    ensures Means(t, [], s, init, if end.Some? then Succ(end.value) else Fail)
  {
    hide Program, Finished, Means;
    var code := CompilePattern(t, d, d);
    ghost var r := ProgramCorrect(t, d, d, s, init);
    ghost var n: nat :| Steps(code, s, Run(0, init, Base), n) == Answer(r);
    end := Match(code, s, init, n);
  }
}
