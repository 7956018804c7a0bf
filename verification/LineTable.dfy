// The compressed line table of a Lua function: differences of one byte, with an
// absolute entry where a difference does not fit and at least every 128
// instructions; and its readers, which start from a base line that a division
// estimates.

module LineTable {

  const LIMLINEDIFF: int := 0x80
  const ABSLINEINFO: int := -0x80
  const MAXIWTHABS: int := 128

  datatype AbsLine = AbsLine(pc: nat, line: int)

  // The line of the instruction before 'p'.
  function LineBefore(defined: int, lines: seq<int>, p: nat): int
    requires p <= |lines|
  {
    if p == 0 then defined else lines[p - 1]
  }

  // Where the last absolute entry is, or 0.
  function LastAbs(a: seq<AbsLine>): nat { if a == [] then 0 else a[|a| - 1].pc }

  // The table holds 'lines'.
  ghost predicate Holds(defined: int, lines: seq<int>, info: seq<int>, a: seq<AbsLine>) {
    && |info| == |lines|
    && (forall j, k :: 0 <= j < k < |a| ==> a[j].pc < a[k].pc)
    && (forall k :: 0 <= k < |a| ==> a[k].pc < |lines| && info[a[k].pc] == ABSLINEINFO && a[k].line == lines[a[k].pc])
    && (forall p {:trigger info[p]} :: 0 <= p < |info| ==>
          if info[p] == ABSLINEINFO then exists k :: 0 <= k < |a| && a[k].pc == p
          else info[p] == lines[p] - LineBefore(defined, lines, p))
  }

  // Where the absolute entry before entry 'k' is.
  function Earlier(a: seq<AbsLine>, k: nat): nat
    requires k < |a|
  {
    if k == 0 then 0 else a[k - 1].pc
  }

  // An absolute entry comes at least every MAXIWTHABS instructions.
  ghost predicate Dense(n: nat, a: seq<AbsLine>) {
    && (forall k {:trigger Earlier(a, k)} :: 0 <= k < |a| ==> a[k].pc <= Earlier(a, k) + MAXIWTHABS)
    && n <= LastAbs(a) + MAXIWTHABS
  }

  // The division in 'getbaseline' gives a lower bound.
  lemma {:induction false} DenseBound(n: nat, a: seq<AbsLine>, k: nat)
    requires Dense(n, a) && k < |a|
    ensures a[k].pc <= MAXIWTHABS * (k + 1)
    decreases k
  {
    if k > 0 {
      DenseBound(n, a, k - 1);
    }
    assert a[k].pc <= Earlier(a, k) + MAXIWTHABS;
  }

  // An entry for every MAXIWTHABS instructions exists.
  lemma {:induction false} DenseMany(n: nat, a: seq<AbsLine>)
    requires Dense(n, a)
    ensures n <= MAXIWTHABS * (|a| + 1)
  {
    if a != [] {
      DenseBound(n, a, |a| - 1);
    }
  }

  lemma LineBeforeLast(defined: int, lines: seq<int>, line: int)
    ensures LineBefore(defined, lines + [line], |lines| + 1) == line
  {
  }

  lemma LastAppend(a: seq<AbsLine>, x: AbsLine)
    ensures LastAbs(a + [x]) == x.pc
  {
  }

  lemma DenseMore(n: nat, a: seq<AbsLine>)
    requires Dense(n, a) && n - LastAbs(a) < MAXIWTHABS
    ensures Dense(n + 1, a)
  {
  }

  lemma DenseAppend(n: nat, a: seq<AbsLine>, line: int)
    requires Dense(n, a)
    ensures Dense(n + 1, a + [AbsLine(n, line)])
  {
    var a' := a + [AbsLine(n, line)];
    forall k {:trigger Earlier(a', k)} | 0 <= k < |a'| ensures a'[k].pc <= Earlier(a', k) + MAXIWTHABS {
      if k < |a| {
        assert Earlier(a', k) == Earlier(a, k);
      } else if a != [] {
        assert Earlier(a', k) == LastAbs(a);
      }
    }
  }

  lemma DenseRemove(n: nat, a: seq<AbsLine>)
    requires Dense(n, a) && a != [] && LastAbs(a) == n - 1
    ensures Dense(n - 1, a[..|a| - 1])
  {
    var a' := a[..|a| - 1];
    forall k {:trigger Earlier(a', k)} | 0 <= k < |a'| ensures a'[k].pc <= Earlier(a', k) + MAXIWTHABS {
      assert Earlier(a', k) == Earlier(a, k);
    }
    assert LastAbs(a') == Earlier(a, |a| - 1);
  }

  lemma SaveRelative(defined: int, lines: seq<int>, info: seq<int>, a: seq<AbsLine>, line: int)
    requires Holds(defined, lines, info, a) && -LIMLINEDIFF < line - LineBefore(defined, lines, |lines|) < LIMLINEDIFF
    ensures Holds(defined, lines + [line], info + [line - LineBefore(defined, lines, |lines|)], a)
  {
    var lines', info' := lines + [line], info + [line - LineBefore(defined, lines, |lines|)];
    forall p {:trigger info'[p]} | 0 <= p < |info'|
      ensures if info'[p] == ABSLINEINFO then exists k :: 0 <= k < |a| && a[k].pc == p
              else info'[p] == lines'[p] - LineBefore(defined, lines', p)
    {
      if p < |info| {
        assert info'[p] == info[p];
      }
    }
  }

  lemma SaveAbsolute(defined: int, lines: seq<int>, info: seq<int>, a: seq<AbsLine>, line: int)
    requires Holds(defined, lines, info, a)
    ensures Holds(defined, lines + [line], info + [ABSLINEINFO], a + [AbsLine(|lines|, line)])
  {
    var lines', info', a' := lines + [line], info + [ABSLINEINFO], a + [AbsLine(|lines|, line)];
    forall p {:trigger info'[p]} | 0 <= p < |info'|
      ensures if info'[p] == ABSLINEINFO then exists k :: 0 <= k < |a'| && a'[k].pc == p
              else info'[p] == lines'[p] - LineBefore(defined, lines', p)
    {
      if p < |info| {
        assert info'[p] == info[p];
        if info[p] == ABSLINEINFO {
          var k :| 0 <= k < |a| && a[k].pc == p;
          assert a'[k].pc == p;
        }
      } else {
        assert a'[|a|].pc == p;
      }
    }
  }

  lemma RemoveRelative(defined: int, lines: seq<int>, info: seq<int>, a: seq<AbsLine>)
    requires Holds(defined, lines, info, a) && lines != [] && info[|info| - 1] != ABSLINEINFO
    ensures Holds(defined, lines[..|lines| - 1], info[..|lines| - 1], a)
    ensures info[|info| - 1] == lines[|lines| - 1] - LineBefore(defined, lines, |lines| - 1)
    ensures a != [] ==> LastAbs(a) < |lines| - 1
  {
    var n := |lines| - 1;
    var lines', info' := lines[..n], info[..n];
    assert forall k :: 0 <= k < |a| ==> info[a[k].pc] == ABSLINEINFO;
    forall p {:trigger info'[p]} | 0 <= p < |info'|
      ensures if info'[p] == ABSLINEINFO then exists k :: 0 <= k < |a| && a[k].pc == p
              else info'[p] == lines'[p] - LineBefore(defined, lines', p)
    {
      assert info'[p] == info[p];
    }
  }

  lemma RemoveAbsolute(defined: int, lines: seq<int>, info: seq<int>, a: seq<AbsLine>)
    requires Holds(defined, lines, info, a) && lines != [] && info[|info| - 1] == ABSLINEINFO
    ensures a != [] && LastAbs(a) == |lines| - 1
    ensures Holds(defined, lines[..|lines| - 1], info[..|lines| - 1], a[..|a| - 1])
  {
    LastAbsolute(defined, lines, info, a);
    var n := |lines| - 1;
    var lines', info', a' := lines[..n], info[..n], a[..|a| - 1];
    assert forall k :: 0 <= k < |a'| ==> a'[k] == a[k] && a'[k].pc < n && info'[a[k].pc] == info[a[k].pc];
    forall p {:trigger info'[p]} | 0 <= p < |info'|
      ensures if info'[p] == ABSLINEINFO then exists k :: 0 <= k < |a'| && a'[k].pc == p
              else info'[p] == lines'[p] - LineBefore(defined, lines', p)
    {
      assert info'[p] == info[p];
      if info[p] == ABSLINEINFO {
        var k :| 0 <= k < |a| && a[k].pc == p;
        assert a'[k].pc == p;
      }
    }
  }

  lemma LastAbsolute(defined: int, lines: seq<int>, info: seq<int>, a: seq<AbsLine>)
    requires Holds(defined, lines, info, a) && lines != [] && info[|info| - 1] == ABSLINEINFO
    ensures a != [] && a[|a| - 1].pc == |lines| - 1
  {
    var last :| 0 <= last < |a| && a[last].pc == |lines| - 1;
    assert a[|a| - 1].pc < |lines|;
    assert last == |a| - 1;
  }

  class FuncState {
    const linedefined: int
    var pc: nat
    var previousline: int
    var iwthabs: int
    var lineinfo: seq<int>
    var abslineinfo: seq<AbsLine>
    ghost var lines: seq<int>   // the lines recorded

    // 'iwthabs' counts no less than the instructions since the last absolute entry;
    // it fits a byte.
    ghost predicate Valid()
      reads this
    {
      && |lines| <= |lineinfo| && Holds(linedefined, lines, lineinfo[..|lines|], abslineinfo) && Dense(|lines|, abslineinfo)
      && |lines| - LastAbs(abslineinfo) <= iwthabs <= MAXIWTHABS + 1
    }

    // How far 'previousline' is from the line of the last instruction.
    ghost function Lag(): int
      reads this
    {
      previousline - LineBefore(linedefined, lines, |lines|)
    }

    // Will the next entry be absolute?
    predicate Absolute(line: int)
      reads this`previousline, this`iwthabs
    {
      line - previousline >= LIMLINEDIFF || line - previousline <= -LIMLINEDIFF || iwthabs >= MAXIWTHABS
    }

    constructor (defined: int)
      ensures Valid() && Lag() == 0 && linedefined == defined && pc == 0 && iwthabs == 0 && lines == []
    {
      linedefined := defined;
      pc := 0;
      previousline := defined;  // as the parser opens a function
      iwthabs := 0;
      lineinfo, abslineinfo := [], [];
      lines := [];
    }

    // savelineinfo, for the last instruction coded: a relative entry is as far from
    // the line as 'previousline' is, and leaves it so.
    method SaveLineInfo(line: int)
      requires Valid() && pc == |lines| + 1
      modifies this`previousline, this`iwthabs, this`lineinfo, this`abslineinfo, this`lines
      ensures Valid() && lines == old(lines) + [if old(Absolute(line)) then line else line - old(Lag())]
      ensures Lag() == if old(Absolute(line)) then 0 else old(Lag())
      ensures previousline == line && iwthabs == if old(Absolute(line)) then 1 else old(iwthabs) + 1
      ensures lineinfo[..pc] == old(lineinfo[..|lines|]) + [if old(Absolute(line)) then ABSLINEINFO else line - old(previousline)]
    {
      hide Holds, Dense, LineBefore;
      var linedif := line - previousline;
      var p := pc - 1;
      ghost var info, saved := lineinfo[..|lines|], if Absolute(line) then line else line - Lag();
      var far := linedif >= LIMLINEDIFF || linedif <= -LIMLINEDIFF;
      var full := iwthabs >= MAXIWTHABS;
      if !far {
        iwthabs := iwthabs + 1;
      }
      if far || full {
        SaveAbsolute(linedefined, lines, info, abslineinfo, line);
        DenseAppend(|lines|, abslineinfo, line);
        LastAppend(abslineinfo, AbsLine(p, line));
        abslineinfo := abslineinfo + [AbsLine(p, line)];
        linedif := ABSLINEINFO;
        iwthabs := 1;
      } else {
        SaveRelative(linedefined, lines, info, abslineinfo, saved);
        DenseMore(|lines|, abslineinfo);
      }
      if p < |lineinfo| {
        lineinfo := lineinfo[p := linedif];
      } else {
        lineinfo := lineinfo + [linedif];
      }
      previousline := line;
      LineBeforeLast(linedefined, lines, saved);
      lines := lines + [saved];
      assert lineinfo[..|lines|] == info + [linedif];
    }

    // removelastlineinfo: the line of the last instruction coded is forgotten.
    // After an absolute entry 'previousline' is as far off as that line was from the
    // one before, and the next entry is forced to be absolute, unless 'iwthabs' is
    // counted down twice.
    method RemoveLastLineInfo()
      requires Valid() && pc == |lines| > 0
      modifies this`previousline, this`iwthabs, this`abslineinfo, this`lines
      ensures Valid() && lines == old(lines)[..|old(lines)| - 1]
      ensures old(lineinfo[pc - 1]) == ABSLINEINFO ==>
        iwthabs == MAXIWTHABS + 1 && Lag() == old(Lag()) + old(lines)[|lines|] - LineBefore(linedefined, lines, |lines|)
      ensures old(lineinfo[pc - 1]) != ABSLINEINFO ==>
        iwthabs == old(iwthabs) - 1 && Lag() == old(Lag()) && previousline == old(previousline) - lineinfo[pc - 1]
    {
      hide Holds;
      var p := pc - 1;
      ghost var info := lineinfo[..|lines|];
      assert lineinfo[..p] == info[..p] && info[p] == lineinfo[p];
      if lineinfo[p] != ABSLINEINFO {
        RemoveRelative(linedefined, lines, info, abslineinfo);
        previousline := previousline - lineinfo[p];
        iwthabs := iwthabs - 1;
      } else {
        RemoveAbsolute(linedefined, lines, info, abslineinfo);
        DenseRemove(|lines|, abslineinfo);
        abslineinfo := abslineinfo[..|abslineinfo| - 1];
        iwthabs := MAXIWTHABS + 1;
      }
      lines := lines[..p];
    }

    // Emit an instruction, with its line: that is the line which is read back if and
    // only if the entry is absolute or 'previousline' is right.
    method Code(line: int)
      requires Valid() && pc == |lines|
      modifies this`pc, this`previousline, this`iwthabs, this`lineinfo, this`abslineinfo, this`lines
      ensures Valid() && pc == |lines| && lines == old(lines) + [if old(Absolute(line)) then line else line - old(Lag())]
      ensures Lag() == if old(Absolute(line)) then 0 else old(Lag())
      ensures lines[|old(lines)|] == line <==> old(Absolute(line)) || old(Lag()) == 0
      ensures previousline == line && iwthabs == if old(Absolute(line)) then 1 else old(iwthabs) + 1
      ensures lineinfo[..pc] == old(lineinfo[..pc]) + [if old(Absolute(line)) then ABSLINEINFO else line - old(previousline)]
    {
      pc := pc + 1;
      SaveLineInfo(line);
    }

    // Change the line of the last instruction.
    method FixLine(line: int)
      requires Valid() && pc == |lines| > 0
      modifies this`previousline, this`iwthabs, this`lineinfo, this`abslineinfo, this`lines
      ensures Valid() && pc == |lines| == |old(lines)| && lines[..pc - 1] == old(lines)[..pc - 1]
      ensures lines[pc - 1] == line <==>
        || old(Lag()) == 0 || old(lineinfo[pc - 1]) == ABSLINEINFO || old(iwthabs) > MAXIWTHABS
        || !(-LIMLINEDIFF < line - (old(previousline) - old(lineinfo[pc - 1])) < LIMLINEDIFF)
      ensures lines[pc - 1] != line ==> Lag() == old(Lag())
      ensures lines[pc - 1] == line ==> Lag() == 0
    {
      RemoveLastLineInfo();
      SaveLineInfo(line);
    }

    // Remove the last instruction.
    method RemoveLastInstruction()
      requires Valid() && pc == |lines| > 0
      modifies this`pc, this`previousline, this`iwthabs, this`abslineinfo, this`lines
      ensures Valid() && pc == |lines| && lines == old(lines)[..|old(lines)| - 1]
      ensures old(lineinfo[pc - 1]) == ABSLINEINFO ==>
        iwthabs == MAXIWTHABS + 1 && Lag() == old(Lag()) + old(lines)[|lines|] - LineBefore(linedefined, lines, |lines|)
      ensures old(lineinfo[pc - 1]) != ABSLINEINFO ==> iwthabs == old(iwthabs) - 1 && Lag() == old(Lag())
    {
      RemoveLastLineInfo();
      pc := pc - 1;
    }

    // ---------------------------------------------------------- the readers

    // The last absolute entry not after 'at', or the start of the function.  The
    // estimate by division is always a valid lower bound.
    method GetBaseLine(at: nat) returns (line: int, basepc: int)
      requires Valid() && at < |lines|
      ensures -1 <= basepc <= at && line == LineBefore(linedefined, lines, basepc + 1)
      ensures forall p :: basepc < p <= at ==> lineinfo[p] != ABSLINEINFO
    {
      hide Holds, Dense;
      ghost var info := lineinfo[..|lines|];
      HoldsOrder(linedefined, lines, info, abslineinfo);
      if |abslineinfo| == 0 || at < abslineinfo[0].pc {
        basepc := -1;
        line := linedefined;
        NoneBetween(linedefined, lines, info, abslineinfo, -1, at);
      } else {
        var i: int := at / MAXIWTHABS - 1;
        DenseMany(|lines|, abslineinfo);
        if i >= 0 {
          Estimate(|lines|, abslineinfo, at);
        }
        assert i < 0 || (i < |abslineinfo| && abslineinfo[i].pc <= at);
        while i + 1 < |abslineinfo| && at >= abslineinfo[i + 1].pc
          invariant -1 <= i < |abslineinfo| && (i >= 0 ==> abslineinfo[i].pc <= at)
          decreases |abslineinfo| - i
        {
          i := i + 1;
        }
        basepc := abslineinfo[i].pc;
        line := abslineinfo[i].line;
        NoneBetween(linedefined, lines, info, abslineinfo, i, at);
      }
      assert forall p :: 0 <= p < |lines| ==> info[p] == lineinfo[p];
    }

    // The line of an instruction is the one recorded for it.
    method GetFuncLine(at: nat) returns (line: int)
      requires Valid() && at < |lines|
      ensures line == lines[at]
    {
      hide Dense;
      ghost var info := lineinfo[..|lines|];
      var basepc: int;
      line, basepc := GetBaseLine(at);
      while basepc < at
        invariant -1 <= basepc <= at && line == LineBefore(linedefined, lines, basepc + 1)
        invariant forall p :: basepc < p <= at ==> lineinfo[p] != ABSLINEINFO
        decreases at - basepc
      {
        basepc := basepc + 1;
        assert lineinfo[basepc] != ABSLINEINFO;
        assert info[basepc] == lineinfo[basepc];
        line := line + lineinfo[basepc];
      }
    }

    // Is the new instruction in another line?  It is after the old one.
    method ChangedLine(oldpc: nat, newpc: nat) returns (changed: bool)
      requires Valid() && oldpc < newpc < |lines|
      ensures changed <==> lines[oldpc] != lines[newpc]
    {
      hide Dense;
      ghost var info := lineinfo[..|lines|];
      if newpc - oldpc < MAXIWTHABS / 2 {
        var delta := 0;
        var p := oldpc;
        while true
          invariant oldpc <= p < newpc && delta == lines[p] - lines[oldpc]
          decreases newpc - p
        {
          p := p + 1;
          assert info[p] == lineinfo[p];
          if lineinfo[p] == ABSLINEINFO {
            break;
          }
          delta := delta + lineinfo[p];
          if p == newpc {
            return delta != 0;
          }
        }
      }
      var l1 := GetFuncLine(oldpc);
      var l2 := GetFuncLine(newpc);
      return l1 != l2;
    }
  }

  lemma HoldsOrder(defined: int, lines: seq<int>, info: seq<int>, a: seq<AbsLine>)
    requires Holds(defined, lines, info, a)
    ensures |info| == |lines|
    ensures forall j, k :: 0 <= j < k < |a| ==> a[j].pc < a[k].pc
    ensures forall k :: 0 <= k < |a| ==> a[k].pc < |lines| && a[k].line == lines[a[k].pc]
  {
  }

  lemma Estimate(n: nat, a: seq<AbsLine>, at: nat)
    requires Dense(n, a) && at < n && at / MAXIWTHABS >= 1
    ensures at / MAXIWTHABS - 1 < |a| && a[at / MAXIWTHABS - 1].pc <= at
  {
    DenseMany(n, a);
    DenseBound(n, a, at / MAXIWTHABS - 1);
  }

  // Between entry 'i' and the next one there is no absolute entry.
  lemma NoneBetween(defined: int, lines: seq<int>, info: seq<int>, a: seq<AbsLine>, i: int, at: nat)
    requires Holds(defined, lines, info, a) && -1 <= i < |a| && at < |lines|
    requires i + 1 < |a| ==> at < a[i + 1].pc
    ensures forall p :: (if i < 0 then -1 else a[i].pc) < p <= at ==> info[p] != ABSLINEINFO
  {
    assert forall k :: 0 <= k <= i ==> a[k].pc <= a[i].pc;
    assert forall k :: i < k < |a| ==> a[i + 1].pc <= a[k].pc;
    forall p | (if i < 0 then -1 else a[i].pc) < p <= at ensures info[p] != ABSLINEINFO {
      assert !exists k :: 0 <= k < |a| && a[k].pc == p;
    }
  }

  // ------------------------------------------------------------ whole runs

  // What the code generator asks for.
  datatype Op = Emit(line: int) | Fix(line: int) | Remove

  // The lines that should be read back.
  function Meant(ops: seq<Op>): seq<int> {
    if ops == [] then [] else
    var ls := Meant(ops[..|ops| - 1]);
    match ops[|ops| - 1]
    case Emit(line) => ls + [line]
    case Fix(line) => if ls == [] then ls else ls[..|ls| - 1] + [line]
    case Remove => if ls == [] then ls else ls[..|ls| - 1]
  }

  // How many instructions have been removed since the last one was emitted or fixed.
  function Removed(ops: seq<Op>): nat {
    if ops == [] then 0 else
    var before := ops[..|ops| - 1];
    if ops[|ops| - 1].Emit? then 0
    else if Meant(before) == [] then Removed(before)
    else if ops[|ops| - 1].Fix? then 0
    else Removed(before) + 1
  }

  // At most two removals come one after the other, and one before a correction.
  ghost predicate Sparing(ops: seq<Op>) {
    forall k {:trigger ops[k]} :: 0 <= k < |ops| ==> Removed(ops[..k]) + (if ops[k].Emit? then 0 else 1) <= 2
  }

  lemma MeantNone()
    ensures Meant([]) == [] && Removed([]) == 0
  {
  }

  lemma MeantNext(ops: seq<Op>, k: nat)
    requires k < |ops|
    ensures var ls := Meant(ops[..k]);
      Meant(ops[..k + 1]) == match ops[k]
        case Emit(line) => ls + [line]
        case Fix(line) => if ls == [] then ls else ls[..|ls| - 1] + [line]
        case Remove => if ls == [] then ls else ls[..|ls| - 1]
    ensures Removed(ops[..k + 1]) ==
      if ops[k].Emit? then 0 else if Meant(ops[..k]) == [] then Removed(ops[..k])
      else if ops[k].Fix? then 0 else Removed(ops[..k]) + 1
  {
    assert ops[..k + 1][..k] == ops[..k];
  }

  // With removals as sparing as that, every run leaves a table from which exactly the
  // lines that were meant are read.
  method Drive(defined: int, ops: seq<Op>) returns (fs: FuncState)
    requires Sparing(ops)
    ensures fs.Valid() && fs.lines == Meant(ops) && fs.pc == |fs.lines|
  {
    MeantNone();
    hide Meant, Removed, FuncState.Valid;
    fs := new FuncState(defined);
    assert ops[..0] == [];
    for k := 0 to |ops|
      invariant fresh(fs) && fs.Valid() && fs.pc == |fs.lines| && fs.lines == Meant(ops[..k])
      invariant fs.Lag() == 0 || fs.iwthabs >= MAXIWTHABS + 2 - Removed(ops[..k])
    {
      MeantNext(ops, k);
      match ops[k] {
        case Emit(line) =>
          assert Removed(ops[..k]) <= 2;
          fs.Code(line);
        case Fix(line) =>
          if fs.pc > 0 {
            ghost var before := fs.lines;
            fs.FixLine(line);
            assert fs.lines == before[..|before| - 1] + [line];
          }
        case Remove =>
          if fs.pc > 0 {
            fs.RemoveLastInstruction();
          }
      }
    }
    assert ops[..|ops|] == ops;
  }

  // The last entry that is marked absolute, or 0.
  function LastMark(info: seq<int>): nat {
    if info == [] then 0 else if info[|info| - 1] == -0x80 then |info| - 1 else LastMark(info[..|info| - 1])
  }

  // An entry is marked when its difference does not fit seven bits and a sign, or the
  // last mark is 128 instructions back; the others are differences.
  ghost predicate Marked(defined: int, lines: seq<int>, info: seq<int>) {
    && |info| == |lines|
    && forall p {:trigger info[p]} :: 0 <= p < |info| ==>
         var dif := lines[p] - LineBefore(defined, lines, p);
         if -0x80 < dif < 0x80 && p - LastMark(info[..p]) < 128 then info[p] == dif else info[p] == -0x80
  }

  lemma MarkedMore(defined: int, lines: seq<int>, info: seq<int>, line: int, x: int)
    requires Marked(defined, lines, info)
    requires var dif := line - LineBefore(defined, lines, |lines|);
      x == if -0x80 < dif < 0x80 && |info| - LastMark(info) < 128 then dif else -0x80
    ensures Marked(defined, lines + [line], info + [x])
    ensures LastMark(info + [x]) == if x == -0x80 then |info| else LastMark(info)
  {
    hide LastMark;
    var lines', info' := lines + [line], info + [x];
    forall p {:trigger info'[p]} | 0 <= p < |info'|
      ensures var dif := lines'[p] - LineBefore(defined, lines', p);
        if -0x80 < dif < 0x80 && p - LastMark(info'[..p]) < 128 then info'[p] == dif else info'[p] == -0x80
    {
      if p < |info| {
        assert info'[..p] == info[..p] && info'[p] == info[p];
      } else {
        assert info'[..p] == info;
      }
    }
    MarkAt(info, x);
  }

  lemma MarkAt(info: seq<int>, x: int)
    ensures LastMark(info + [x]) == if x == -0x80 then |info| else LastMark(info)
  {
    assert (info + [x])[..|info|] == info;
  }

  // A function that is coded without removals and corrections has exactly these marks.
  method EmitAll(defined: int, lines: seq<int>) returns (fs: FuncState)
    ensures fs.Valid() && fs.lines == lines && |fs.lineinfo| >= |lines| && Marked(defined, lines, fs.lineinfo[..|lines|])
  {
    hide Holds, Dense, Marked, LastMark;
    fs := new FuncState(defined);
    MarkedNone(defined);
    assert fs.lineinfo[..0] == [] && lines[..0] == [];
    for k := 0 to |lines|
      invariant fresh(fs) && fs.Valid() && fs.linedefined == defined && fs.pc == k && fs.lines == lines[..k] && fs.Lag() == 0
      invariant Marked(defined, lines[..k], fs.lineinfo[..k]) && fs.iwthabs == k - LastMark(fs.lineinfo[..k])
    {
      ghost var info := fs.lineinfo[..k];
      ghost var x := if fs.Absolute(lines[k]) then ABSLINEINFO else lines[k] - fs.previousline;
      MarkedMore(defined, lines[..k], info, lines[k], x);
      fs.Code(lines[k]);
      assert fs.lineinfo[..k + 1] == info + [x];
      assert lines[..k + 1] == lines[..k] + [lines[k]];
    }
    assert lines[..|lines|] == lines;
  }

  lemma MarkedNone(defined: int)
    ensures Marked(defined, [], []) && LastMark([]) == 0
  {
  }

  // A table that ends with an absolute entry.
  method Far() returns (fs: FuncState)
    ensures fresh(fs) && fs.Valid() && fs.linedefined == 0 && fs.pc == 3 && fs.lines == [0, 0, 500] && fs.Lag() == 0
    ensures |fs.lineinfo| >= 3 && fs.lineinfo[..3] == [0, 0, ABSLINEINFO]
  {
    hide Holds, Dense;
    fs := new FuncState(0);
    fs.Code(0);
    assert !fs.Absolute(0);
    fs.Code(0);
    assert fs.lineinfo[..2] == [0, 0] && fs.lines == [0, 0];
    fs.Code(500);
    assert fs.lineinfo[..3] == [0, 0] + [ABSLINEINFO];
  }

  // Three removals can be too many: an absolute entry goes and two relative ones, and
  // the next instruction gets the wrong line.
  method ThreeRemoved() returns (fs: FuncState, read: int)
    ensures fs.Valid() && fs.lines == [1] && read == 1
    ensures Meant([Emit(0), Emit(0), Emit(500), Remove, Remove, Remove, Emit(501)]) == [501]
  {
    ThreeMeant();
    hide FuncState.Valid, Meant;
    fs := Far();
    Entries(fs.lineinfo);
    fs.RemoveLastInstruction();
    assert fs.lines == [0, 0];
    fs.RemoveLastInstruction();
    assert fs.lines == [0];
    fs.RemoveLastInstruction();
    assert fs.lines == [] && fs.Lag() == 500;
    fs.Code(501);
    read := fs.GetFuncLine(0);
  }

  lemma Entries(info: seq<int>)
    requires |info| >= 3 && info[..3] == [0, 0, ABSLINEINFO]
    ensures info[0] == 0 && info[1] == 0 && info[2] == ABSLINEINFO
  {
    assert info[0] == info[..3][0] && info[1] == info[..3][1] && info[2] == info[..3][2];
  }

  lemma MeantMore(ops: seq<Op>, line: int)
    ensures Meant(ops + [Emit(line)]) == Meant(ops) + [line]
    ensures Meant(ops) != [] ==> Meant(ops + [Remove]) == Meant(ops)[..|Meant(ops)| - 1]
  {
    assert (ops + [Emit(line)])[..|ops|] == ops && (ops + [Remove])[..|ops|] == ops;
  }

  lemma ThreeMeant()
    ensures Meant([Emit(0), Emit(0), Emit(500), Remove, Remove, Remove, Emit(501)]) == [501]
  {
    var a := [Emit(0), Emit(0), Emit(500)];
    EmitThree(0, 0, 500);
    hide Meant;
    MeantMore(a, 0);
    MeantMore(a + [Remove], 0);
    MeantMore(a + [Remove] + [Remove], 0);
    MeantMore(a + [Remove] + [Remove] + [Remove], 501);
    assert a + [Remove] + [Remove] + [Remove] + [Emit(501)] == [Emit(0), Emit(0), Emit(500), Remove, Remove, Remove, Emit(501)];
  }

  lemma EmitThree(x: int, y: int, z: int)
    ensures Meant([Emit(x), Emit(y), Emit(z)]) == [x, y, z]
  {
    MeantMore([], x);
    MeantMore([Emit(x)], y);
    MeantMore([Emit(x), Emit(y)], z);
    assert [] + [Emit(x)] == [Emit(x)] && [Emit(x)] + [Emit(y)] == [Emit(x), Emit(y)];
    assert [Emit(x), Emit(y)] + [Emit(z)] == [Emit(x), Emit(y), Emit(z)];
  }
}
