// The bytes of the serial format, spelled out: the tag of every kind of value, the
// order of the bytes of a number, and that no form is longer than it has to be.

module SeriLayout {
  import opened SeriFormat

  // ------------------------------------------------------------ numbers

  // Four bytes from place k on, the lowest first.
  function Four(s: seq<Byte>, k: nat): nat
    requires k + 4 <= |s|
  {
    var a: int, b: int, c: int, d: int := s[k], s[k + 1], s[k + 2], s[k + 3];
    a + 0x100 * b + 0x1_0000 * c + 0x100_0000 * d
  }

  function Two(s: seq<Byte>, k: nat): nat
    requires k + 2 <= |s|
  {
    var a: int, b: int := s[k], s[k + 1];
    a + 0x100 * b
  }

  lemma LeTwo(x: nat)
    requires x < 0x1_0000
    ensures Two(Le(x, 2), 0) == x
  {
    assert Le(x, 2) == [x % 256] + Le(x / 256, 1);
    assert Le(x / 256, 1) == [x / 256 % 256] + Le(x / 256 / 256, 0);
  }

  lemma LeFour(x: nat)
    ensures Four(Le(x, 4), 0) == x % 0x1_0000_0000
  {
    var y := x / 256 / 256;
    assert Le(x, 4) == [x % 256] + Le(x / 256, 3);
    assert Le(x / 256, 3) == [x / 256 % 256] + Le(y, 2);
    assert Le(y, 2) == [y % 256] + Le(y / 256, 1);
    assert Le(y / 256, 1) == [y / 256 % 256] + Le(y / 256 / 256, 0);
  }

  lemma {:induction false} LePlus(x: nat, n: nat, m: nat)
    ensures Le(x, n + m)[..n] == Le(x, n) && |Le(x, n + m)[n..]| == m
    decreases n
  {
    if n > 0 {
      LePlus(x / 256, n - 1, m);
      assert Le(x, n + m) == [x % 256] + Le(x / 256, n - 1 + m);
    }
  }

  lemma LeEight(x: nat)
    requires x < 0x1_0000_0000_0000_0000
    ensures Four(Le(x, 8), 0) + 0x1_0000_0000 * Four(Le(x, 8), 4) == x
  {
    var y := x / 256 / 256 / 256 / 256;
    LeFour(x);
    LeFour(y);
    assert Le(x, 8) == [x % 256] + Le(x / 256, 7);
    assert Le(x / 256, 7) == [x / 256 % 256] + Le(x / 256 / 256, 6);
    assert Le(x / 256 / 256, 6) == [x / 256 / 256 % 256] + Le(x / 256 / 256 / 256, 5);
    assert Le(x / 256 / 256 / 256, 5) == [x / 256 / 256 / 256 % 256] + Le(y, 4);
    LePlus(x, 4, 4);
    hide Le;
    assert Le(x, 8)[4..] == Le(y, 4);
    Slide(Le(x, 8));
  }

  lemma Slide(s: seq<Byte>)
    requires |s| == 8
    ensures Four(s, 0) == Four(s[..4], 0) && Four(s, 4) == Four(s[4..], 0)
  {
  }

  // The bytes of an integer: a tag of kind 2 with the width, and two's complement, the
  // lowest byte first, in as few bytes as the width allows.
  ghost predicate IntBytes(e: seq<Byte>, i: int) {
    if i == 0 then e == [0x02]
    else if 0 < i < 0x100 then e == [0x0a, i]
    else if 0 < i < 0x1_0000 then |e| == 3 && e[0] == 0x12 && Two(e, 1) == i
    else if -0x8000_0000 <= i < 0x8000_0000 then |e| == 5 && e[0] == 0x22 && Four(e, 1) == i % 0x1_0000_0000
    else |e| == 9 && e[0] == 0x32 && Four(e, 1) + 0x1_0000_0000 * Four(e, 5) == i % 0x1_0000_0000_0000_0000
  }

  lemma IntIs(i: int)
    ensures IntBytes(EncInt(i), i)
  {
    if i == 0 {
    } else if !(-0x8000_0000 <= i < 0x8000_0000) {
      LeEight(Wrap(i, 8));
      After8(0x32, Le(Wrap(i, 8), 8));
    } else if i < 0 || i >= 0x1_0000 {
      var x := if i < 0 then Wrap(i, 4) else i;
      LeFour(x);
      After4(0x22, Le(x, 4));
    } else if i < 0x100 {
      assert Le(i, 1) == [i % 256] + Le(i / 256, 0);
    } else {
      LeTwo(i);
      After2(0x12, Le(i, 2));
    }
    hide Le, Two, Four;
  }

  lemma After2(t: Byte, s: seq<Byte>)
    requires |s| == 2
    ensures Two([t] + s, 1) == Two(s, 0)
  {
  }

  lemma After4(t: Byte, s: seq<Byte>)
    requires |s| == 4
    ensures Four([t] + s, 1) == Four(s, 0)
  {
  }

  lemma After8(t: Byte, s: seq<Byte>)
    requires |s| == 8
    ensures Four([t] + s, 1) == Four(s, 0) && Four([t] + s, 5) == Four(s, 4)
  {
  }

  // No shorter bytes are read as the same integer.
  lemma IntShortest(v: int, c: nat, b: seq<Byte>, rest: seq<Byte>)
    requires c < 8 && |b| + 1 < |EncInt(v)|
    ensures DecInt(c, b + rest) != Ok(v, rest)
  {
    IntIs(v);
    Powers();
    if DecInt(c, b + rest) == Ok(v, rest) {
      var n := if c == 0 then 0 else if c == 1 then 1 else if c == 2 then 2 else if c == 4 then 4 else 8;
      assert |rest| == |b + rest| - n;
      if n > 0 {
        Below((b + rest)[..n]);
      }
    }
    hide Le, FromLe, Power, EncInt;
  }

  lemma {:induction false} Below(s: seq<Byte>)
    ensures FromLe(s) < Power(|s|)
    decreases |s|
  {
    if s != [] {
      Below(s[1..]);
    }
  }

  // ------------------------------------------------------------ strings

  // A short string has its length in the tag; a longer one has it in two bytes, or four.
  ghost predicate StrBytes(e: seq<Byte>, s: seq<Byte>) {
    if |s| < 32 then |e| == 1 + |s| && e[0] == 4 + 8 * |s| && e[1..] == s
    else if |s| < 0x1_0000 then |e| == 3 + |s| && e[0] == 0x15 && Two(e, 1) == |s| && e[3..] == s
    else |e| == 5 + |s| && e[0] == 0x25 && Four(e, 1) == |s| && e[5..] == s
  }

  lemma StrIs(s: seq<Byte>)
    requires |s| < 0x8000_0000
    ensures StrBytes(EncStr(s), s)
  {
    if |s| < 32 {
      assert ([Type(4, |s|)] + s)[1..] == s;
    } else if |s| < 0x1_0000 {
      LeTwo(|s|);
      TwoFront(0x15, Le(|s|, 2), s);
    } else {
      LeFour(|s|);
      FourFront(0x25, Le(|s|, 4), s);
    }
    hide Le, Two, Four;
  }

  lemma TwoFront(t: Byte, n: seq<Byte>, s: seq<Byte>)
    requires |n| == 2
    ensures var e := [t] + n + s; |e| == 3 + |s| && e[0] == t && Two(e, 1) == Two(n, 0) && e[3..] == s
  {
    var e := [t] + n + s;
    assert e[1] == n[0] && e[2] == n[1];
  }

  lemma FourFront(t: Byte, n: seq<Byte>, s: seq<Byte>)
    requires |n| == 4
    ensures var e := [t] + n + s; |e| == 5 + |s| && e[0] == t && Four(e, 1) == Four(n, 0) && e[5..] == s
  {
    var e := [t] + n + s;
    assert e[1] == n[0] && e[2] == n[1] && e[3] == n[2] && e[4] == n[3];
  }

  // No shorter bytes are read as the same string.
  lemma StrShortest(s: seq<Byte>, t: nat, c: nat, b: seq<Byte>, rest: seq<Byte>)
    requires |s| < 0x8000_0000 && t < 8 && c < 32 && |b| + 1 < |EncStr(s)|
    ensures DecValue(t, c, b + rest) != Ok(VStr(s), rest)
  {
    StrIs(s);
    hide Le, FromLe, EncStr, DecInt, DecSize, DecTable, Two, Four, StrBytes;
    StrSizes(s);
    if DecValue(t, c, b + rest) == Ok(VStr(s), rest) {
      if t == 5 {
        LongBelow(c, b + rest);
      }
    }
  }

  lemma StrSizes(s: seq<Byte>)
    requires StrBytes(EncStr(s), s)
    ensures |EncStr(s)| == |s| + if |s| < 32 then 1 else if |s| < 0x1_0000 then 3 else 5
  {
    hide EncStr;
  }

  // The length that is read from two bytes is below 0x10000.
  lemma LongBelow(c: nat, s: seq<Byte>)
    requires (c == 2 || c == 4) && |s| >= c
    ensures c == 2 ==> FromLe(s[..c]) < 0x1_0000
  {
    Powers();
    if c == 2 {
      Below(s[..c]);
    }
  }

  // ------------------------------------------------------------ every kind of value

  // The first byte has the kind in its lower three bits.
  lemma Layout(v: Value)
    requires Sound(v)
    ensures |Enc(v)| > 0
    ensures match v
      case VNil => Enc(v) == [0x00]
      case VBool(b) => Enc(v) == if b then [0x09] else [0x01]
      case VInt(i) => IntBytes(Enc(v), i)
      case VReal(bits) => Enc(v) == [0x42] + bits
      case VUser(bits) => Enc(v) == [0x03] + bits
      case VStr(s) => StrBytes(Enc(v), s)
      case VTable(arr, pairs) => TableBytes(Enc(v), |arr|)
  {
    hide EncArr, EncPairs, EncInt, EncStr, EncSize, IntBytes, StrBytes, TableBytes;
    match v
    case VInt(i) => IntIs(i); NotEmpty(i);
    case VStr(s) => StrIs(s); StrSizes(s);
    case VTable(arr, pairs) =>
      EndsWithNil(v, 0);
      TableIs(|arr|, EncArr(v, 0), EncPairs(v, 0));
    case _ =>
  }

  lemma NotEmpty(i: int)
    ensures |EncInt(i)| > 0
  {
    hide Le;
  }

  // A table begins with the length of its array part, in the tag or as an integer, and
  // ends with a nil.
  ghost predicate TableBytes(e: seq<Byte>, n: nat) {
    && |e| > 0 && e[|e| - 1] == 0
    && if n < 31 then e[0] == 6 + 8 * n else e[0] == 0xfe && exists k :: 1 <= k <= |e| && IntBytes(e[1..k], n)
  }

  lemma {:induction false} EndsWithNil(v: Value, k: nat)
    requires v.VTable? && k <= |v.pairs|
    ensures var e := EncPairs(v, k); |e| > 0 && e[|e| - 1] == 0
    decreases |v.pairs| - k
  {
    hide Enc;
    if k < |v.pairs| {
      EndsWithNil(v, k + 1);
    }
  }

  lemma TableIs(n: nat, arr: seq<Byte>, pairs: seq<Byte>)
    requires |pairs| > 0 && pairs[|pairs| - 1] == 0
    ensures TableBytes(EncSize(n) + arr + pairs, n)
  {
    hide EncInt, IntBytes;
    var e := EncSize(n) + arr + pairs;
    assert e[|e| - 1] == 0 && e[0] == EncSize(n)[0];
    if n >= 31 {
      IntIs(n);
      assert e[1..1 + |EncInt(n)|] == EncInt(n);
    }
  }

  // What follows the length: the array part, then each key with its value, then nil.
  function Items(v: Value): seq<Value>
    requires v.VTable?
  {
    v.arr + Flat(v.pairs) + [VNil]
  }

  function Flat(ps: seq<Pair>): seq<Value> { if ps == [] then [] else [ps[0].key, ps[0].value] + Flat(ps[1..]) }

  lemma TableItems(v: Value)
    requires v.VTable?
    ensures Enc(v) == EncSize(|v.arr|) + EncAll(Items(v))
  {
    hide EncAll, EncSize, EncArr, EncPairs, Flat;
    ArrItems(v, 0);
    PairItems(v, 0);
    assert v.arr[0..] == v.arr && v.pairs[0..] == v.pairs;
    AllConcat(v.arr, Flat(v.pairs) + [VNil]);
    assert v.arr + (Flat(v.pairs) + [VNil]) == Items(v);
    Regroup(EncSize(|v.arr|), EncArr(v, 0), EncPairs(v, 0));
  }

  lemma Regroup(a: seq<Byte>, b: seq<Byte>, c: seq<Byte>)
    ensures a + b + c == a + (b + c)
  {
  }

  lemma {:induction false} AllConcat(a: seq<Value>, b: seq<Value>)
    ensures EncAll(a + b) == EncAll(a) + EncAll(b)
    decreases |a|
  {
    hide Enc;
    if a == [] {
      assert a + b == b;
    } else {
      assert (a + b)[1..] == a[1..] + b;
      AllConcat(a[1..], b);
    }
  }

  lemma {:induction false} ArrItems(v: Value, k: nat)
    requires v.VTable? && k <= |v.arr|
    ensures EncArr(v, k) == EncAll(v.arr[k..])
    decreases |v.arr| - k
  {
    hide Enc;
    if k < |v.arr| {
      ArrItems(v, k + 1);
      assert v.arr[k..][1..] == v.arr[k + 1..];
    }
  }

  lemma {:induction false} PairItems(v: Value, k: nat)
    requires v.VTable? && k <= |v.pairs|
    ensures EncPairs(v, k) == EncAll(Flat(v.pairs[k..]) + [VNil])
    decreases |v.pairs| - k
  {
    if k == |v.pairs| {
      assert v.pairs[k..] == [] && Flat([]) + [VNil] == [VNil];
      One(VNil);
    } else {
      PairItems(v, k + 1);
      var p := v.pairs[k];
      assert v.pairs[k..][1..] == v.pairs[k + 1..];
      hide Enc;
      AllConcat([p.key], [p.value] + (Flat(v.pairs[k + 1..]) + [VNil]));
      AllConcat([p.value], Flat(v.pairs[k + 1..]) + [VNil]);
      One(p.key);
      One(p.value);
      assert Flat(v.pairs[k..]) + [VNil] == [p.key] + ([p.value] + (Flat(v.pairs[k + 1..]) + [VNil]));
      Regroup(Enc(p.key), Enc(p.value), EncPairs(v, k + 1));
    }
  }

  lemma One(v: Value)
    ensures EncAll([v]) == Enc(v)
  {
    hide Enc;
    assert [v][1..] == [];
  }

  // ------------------------------------------------------------ what is read

  // The number of bytes that a tag asks for at once, or none if there is no such tag.
  function Needs(t: nat, c: nat): Option<nat> {
    if t == 0 || t == 1 then Some(0)
    else if t == 2 then
      (if c == 0 then Some(0) else if c == 1 then Some(1) else if c == 2 then Some(2) else if c == 4 then Some(4)
       else if c == 6 || c == 8 then Some(8) else None)
    else if t == 3 then Some(8)
    else if t == 4 then Some(c)
    else if t == 5 then (if c == 2 || c == 4 then Some(c) else None)
    else None
  }

  datatype Option<+T> = Some(value: T) | None

  // Values other than tables and long strings are read if and only if their tag exists
  // and its bytes are there; a long string also needs as many bytes as its length says.
  lemma ReadableIff(t: nat, c: nat, s: seq<Byte>)
    requires t != 6 && t < 8 && c < 32
    ensures t != 5 ==> (DecValue(t, c, s).Ok? <==> Needs(t, c).Some? && |s| >= Needs(t, c).value)
    ensures t != 5 && DecValue(t, c, s).Ok? ==> DecValue(t, c, s).rest == s[Needs(t, c).value..]
    ensures t == 5 ==> (DecValue(t, c, s).Ok? <==>
      (c == 2 && |s| >= 2 && |s| - 2 >= Two(s, 0)) || (c == 4 && |s| >= 4 && |s| - 4 >= Four(s, 0)))
  {
    hide DecTable, DecSize, FromLe, Two, Four;
    assert s[0..] == s;
    if t == 5 && (c == 2 || c == 4) && |s| >= c {
      FromLeIs(s, c);
    }
  }

  lemma FromLeIs(s: seq<Byte>, c: nat)
    requires (c == 2 || c == 4) && |s| >= c
    ensures FromLe(s[..c]) == if c == 2 then Two(s, 0) else Four(s, 0)
  {
    var b := s[..c];
    assert b[0] == s[0] && b[1] == s[1];
    LeTail(b);
    LeTail(b[1..]);
    if c == 4 {
      assert b[2] == s[2] && b[3] == s[3];
      LeTail(b[1..][1..]);
      LeTail(b[1..][1..][1..]);
      assert b[1..][1..][1..][1..] == [];
    } else {
      assert b[1..][1..] == [];
    }
  }

  lemma LeTail(s: seq<Byte>)
    requires s != []
    ensures var low: int := s[0]; FromLe(s) == low + 256 * FromLe(s[1..])
  {
  }

  // An integer is the number that its bytes say, the lowest first; four and eight bytes
  // are signed.
  lemma IntRead(c: nat, s: seq<Byte>)
    requires (c == 1 && |s| >= 1) || (c == 2 && |s| >= 2) || (c == 4 && |s| >= 4)
    ensures var low: int := s[0];
      DecInt(c, s) == Ok(
        if c == 1 then low
        else if c == 2 then Two(s, 0)
        else if Four(s, 0) >= 0x8000_0000 then Four(s, 0) - 0x1_0000_0000
        else Four(s, 0), s[c..])
  {
    if c == 1 {
      LeTail(s[..1]);
      assert s[..1][1..] == [];
    } else {
      FromLeIs(s, c);
    }
    hide FromLe, Two, Four;
  }
}
