// The LPeg parsing machine: instructions, one step, whole runs, and the
// interpreter loop.  One instruction takes one slot of code.

module LpegVm {
  import opened LpegTree

  datatype Instr =
    | IAny
    | IChar(c: Byte)
    | ISet(cs: set<Byte>)
    | ITestAny(off: int)
    | ITestChar(c: Byte, off: int)
    | ITestSet(cs: set<Byte>, off: int)
    | ISpan(cs: set<Byte>)
    | IBehind(n: nat)
    | IRet
    | IEnd
    | IChoice(off: int)
    | IJmp(off: int)
    | ICall(off: int)
    | IOpenCall(rule: nat)
    | ICommit(off: int)
    | IPartialCommit(off: int)
    | IBackCommit(off: int)
    | IFailTwice
    | IFail

  // The backtrack stack, top first.  'Base' is the bottom entry, which makes
  // the machine give up.
  datatype Stack =
    | Base
    | Choice(pc: int, pos: nat, rest: Stack)
    | Ret(pc: int, rest: Stack)

  datatype Config =
    | Run(pc: int, pos: nat, st: Stack)
    | Matched(end: nat)
    | NoMatch
    | Stuck  // a failed assertion of the machine, or a FailTwice without a choice on top

  // Pop pending calls and one choice, and resume there.
  function FailTo(st: Stack): Config {
    match st
    case Base => NoMatch
    case Choice(pc, pos, rest) => Run(pc, pos, rest)
    case Ret(_, rest) => FailTo(rest)
  }

  function SpanEnd(cs: set<Byte>, s: seq<Byte>, i: nat): (j: nat)
    ensures i <= j && (i <= |s| ==> j <= |s|)
    decreases |s| - i
  {
    if i < |s| && s[i] in cs then SpanEnd(cs, s, i + 1) else i
  }

  function Step(code: seq<Instr>, s: seq<Byte>, c: Config): Config {
    if !c.Run? then c else
    var Run(pc, i, st) := c;
    if !(0 <= pc < |code|) then Stuck else
    match code[pc]
    case IAny => if i < |s| then Run(pc + 1, i + 1, st) else FailTo(st)
    case IChar(b) => if i < |s| && s[i] == b then Run(pc + 1, i + 1, st) else FailTo(st)
    case ISet(cs) => if i < |s| && s[i] in cs then Run(pc + 1, i + 1, st) else FailTo(st)
    case ITestAny(off) => Run(if i < |s| then pc + 1 else pc + off, i, st)
    case ITestChar(b, off) => Run(if i < |s| && s[i] == b then pc + 1 else pc + off, i, st)
    case ITestSet(cs, off) => Run(if i < |s| && s[i] in cs then pc + 1 else pc + off, i, st)
    case ISpan(cs) => Run(pc + 1, SpanEnd(cs, s, i), st)
    case IBehind(n) => if n > i then FailTo(st) else Run(pc + 1, i - n, st)
    case IRet => if st.Ret? then Run(st.pc, i, st.rest) else Stuck
    case IEnd => if st.Base? then Matched(i) else Stuck
    case IChoice(off) => Run(pc + 1, i, Choice(pc + off, i, st))
    case IJmp(off) => Run(pc + off, i, st)
    case ICall(off) => Run(pc + off, i, Ret(pc + 1, st))
    case IOpenCall(_) => Stuck
    case ICommit(off) => if st.Choice? then Run(pc + off, i, st.rest) else Stuck
    case IPartialCommit(off) => if st.Choice? then Run(pc + off, i, st.(pos := i)) else Stuck
    case IBackCommit(off) => if st.Choice? then Run(pc + off, st.pos, st.rest) else Stuck
    case IFailTwice => if st.Choice? then FailTo(st.rest) else Stuck
    case IFail => FailTo(st)
  }

  function Steps(code: seq<Instr>, s: seq<Byte>, c: Config, n: nat): Config
    decreases n
  {
    if n == 0 then c else Steps(code, s, Step(code, s, c), n - 1)
  }

  ghost predicate Reach(code: seq<Instr>, s: seq<Byte>, c: Config, c': Config) {
    exists n: nat :: Steps(code, s, c, n) == c'
  }

  lemma ReachRefl(code: seq<Instr>, s: seq<Byte>, c: Config)
    ensures Reach(code, s, c, c)
  {
    assert Steps(code, s, c, 0) == c;
  }

  lemma ReachStep(code: seq<Instr>, s: seq<Byte>, c: Config, c': Config)
    requires Reach(code, s, Step(code, s, c), c')
    ensures Reach(code, s, c, c')
  {
    var n: nat :| Steps(code, s, Step(code, s, c), n) == c';
    assert Steps(code, s, c, n + 1) == c';
  }

  lemma ReachOne(code: seq<Instr>, s: seq<Byte>, c: Config)
    ensures Reach(code, s, c, Step(code, s, c))
  {
    ReachRefl(code, s, Step(code, s, c));
    ReachStep(code, s, c, Step(code, s, c));
  }

  lemma {:induction false} StepsAdd(code: seq<Instr>, s: seq<Byte>, c: Config, m: nat, n: nat)
    ensures Steps(code, s, c, m + n) == Steps(code, s, Steps(code, s, c, m), n)
    decreases m
  {
    if m > 0 {
      StepsAdd(code, s, Step(code, s, c), m - 1, n);
    }
  }

  lemma ReachTrans(code: seq<Instr>, s: seq<Byte>, a: Config, b: Config, c: Config)
    requires Reach(code, s, a, b) && Reach(code, s, b, c)
    ensures Reach(code, s, a, c)
  {
    var m: nat :| Steps(code, s, a, m) == b;
    var n: nat :| Steps(code, s, b, n) == c;
    StepsAdd(code, s, a, m, n);
  }

  // A run has at most one outcome.
  lemma {:induction false} HaltedStays(code: seq<Instr>, s: seq<Byte>, c: Config, n: nat)
    requires !c.Run?
    ensures Steps(code, s, c, n) == c
  {
    if n > 0 {
      HaltedStays(code, s, c, n - 1);
    }
  }

  lemma OutcomeUnique(code: seq<Instr>, s: seq<Byte>, c: Config, a: Config, b: Config)
    requires Reach(code, s, c, a) && Reach(code, s, c, b) && !a.Run? && !b.Run?
    ensures a == b
  {
    var m: nat :| Steps(code, s, c, m) == a;
    var n: nat :| Steps(code, s, c, n) == b;
    if m <= n {
      StepsAdd(code, s, c, m, n - m);
      HaltedStays(code, s, a, n - m);
    } else {
      StepsAdd(code, s, c, n, m - n);
      HaltedStays(code, s, b, m - n);
    }
  }
}
