// The serial format of Lua values: what the packer writes for a value, what the
// unpacker makes of any bytes, and that the second undoes the first.

module SeriFormat {

  type Byte = x: int | 0 <= x < 256

  const MAX_COOKIE: nat := 32
  const MAX_DEPTH: nat := 32

  // A number that is no integer and a pointer are eight bytes that only pass
  // through.  A table is its array part and the pairs that lua_next visits
  // outside of it.
  datatype Value =
    | VNil
    | VBool(b: bool)
    | VInt(i: int)
    | VReal(bits: seq<Byte>)
    | VUser(bits: seq<Byte>)
    | VStr(s: seq<Byte>)
    | VTable(arr: seq<Value>, pairs: seq<Pair>)

  datatype Pair = Pair(key: Value, value: Value)

  datatype Result<+T> = Ok(value: T, rest: seq<Byte>) | Invalid

  // What Lua guarantees of a value: 64-bit integers, keys that are not nil,
  // lengths that fit an int.
  predicate Sound(v: Value) {
    match v
    case VInt(i) => -0x8000_0000_0000_0000 <= i < 0x8000_0000_0000_0000
    case VReal(bits) => |bits| == 8
    case VUser(bits) => |bits| == 8
    case VStr(s) => |s| < 0x8000_0000
    case VTable(arr, pairs) =>
      |arr| < 0x8000_0000 && (forall k :: 0 <= k < |arr| ==> Sound(arr[k])) &&
      (forall k :: 0 <= k < |pairs| ==> Sound(pairs[k].key) && Sound(pairs[k].value) && !pairs[k].key.VNil?)
    case _ => true
  }

  // ------------------------------------------------------------ numbers

  // The lowest 'n' bytes, the lowest first.
  function Le(x: nat, n: nat): (r: seq<Byte>)
    ensures |r| == n
  {
    if n == 0 then [] else [x % 256] + Le(x / 256, n - 1)
  }

  function FromLe(s: seq<Byte>): nat {
    if s == [] then 0 else var low: int := s[0]; low + 256 * FromLe(s[1..])
  }

  function Power(n: nat): nat { if n == 0 then 1 else 256 * Power(n - 1) }

  lemma {:induction false} LeRound(x: nat, n: nat)
    requires x < Power(n)
    ensures FromLe(Le(x, n)) == x
    decreases n
  {
    if n > 0 {
      LeRound(x / 256, n - 1);
      assert Le(x, n)[1..] == Le(x / 256, n - 1);
    }
  }

  lemma Powers()
    ensures Power(1) == 0x100 && Power(2) == 0x1_0000 && Power(4) == 0x1_0000_0000 && Power(8) == 0x1_0000_0000_0000_0000
  {
    assert Power(1) == 256 * Power(0);
    assert Power(2) == 256 * Power(1);
    assert Power(3) == 256 * Power(2);
    assert Power(4) == 256 * Power(3);
    assert Power(5) == 256 * Power(4);
    assert Power(6) == 256 * Power(5);
    assert Power(7) == 256 * Power(6);
    assert Power(8) == 256 * Power(7);
  }

  // Two's complement.
  function Wrap(v: int, width: nat): nat { v % (if width == 4 then 0x1_0000_0000 else 0x1_0000_0000_0000_0000) }

  function Signed(x: nat, width: nat): int {
    if width == 4 then (if x >= 0x8000_0000 then x - 0x1_0000_0000 else x)
    else (if x >= 0x8000_0000_0000_0000 then x - 0x1_0000_0000_0000_0000 else x)
  }

  function Type(t: nat, cookie: nat): Byte
    requires t < 8 && cookie < 32
  {
    t + 8 * cookie
  }

  // ------------------------------------------------------------ what is written

  function EncInt(v: int): seq<Byte> {
    if v == 0 then [Type(2, 0)]
    else if !(-0x8000_0000 <= v < 0x8000_0000) then [Type(2, 6)] + Le(Wrap(v, 8), 8)
    else if v < 0 then [Type(2, 4)] + Le(Wrap(v, 4), 4)
    else if v < 0x100 then [Type(2, 1)] + Le(v, 1)
    else if v < 0x1_0000 then [Type(2, 2)] + Le(v, 2)
    else [Type(2, 4)] + Le(v, 4)
  }

  function EncStr(s: seq<Byte>): seq<Byte> {
    if |s| < MAX_COOKIE then [Type(4, |s|)] + s
    else if |s| < 0x1_0000 then [Type(5, 2)] + Le(|s|, 2) + s
    else [Type(5, 4)] + Le(|s|, 4) + s
  }

  function EncSize(n: nat): seq<Byte> {
    if n >= MAX_COOKIE - 1 then [Type(6, MAX_COOKIE - 1)] + EncInt(n) else [Type(6, n)]
  }

  function Enc(v: Value): seq<Byte>
    decreases v, if v.VTable? then |v.arr| + |v.pairs| + 1 else 0
  {
    match v
    case VNil => [Type(0, 0)]
    case VBool(b) => [Type(1, if b then 1 else 0)]
    case VInt(i) => EncInt(i)
    case VReal(bits) => [Type(2, 8)] + bits
    case VUser(bits) => [Type(3, 0)] + bits
    case VStr(s) => EncStr(s)
    case VTable(arr, pairs) => EncSize(|arr|) + EncArr(v, 0) + EncPairs(v, 0)
  }

  function EncArr(v: Value, k: nat): seq<Byte>
    requires v.VTable? && k <= |v.arr|
    decreases v, |v.arr| - k
  {
    if k == |v.arr| then [] else Enc(v.arr[k]) + EncArr(v, k + 1)
  }

  function EncPairs(v: Value, k: nat): seq<Byte>
    requires v.VTable? && k <= |v.pairs|
    decreases v, |v.pairs| - k
  {
    if k == |v.pairs| then [Type(0, 0)] else Enc(v.pairs[k].key) + Enc(v.pairs[k].value) + EncPairs(v, k + 1)
  }

  // ------------------------------------------------------------ what is read

  function Take(s: seq<Byte>, n: nat): (r: Result<seq<Byte>>)
    ensures r.Ok? ==> |r.value| == n && s == r.value + r.rest
  {
    if |s| < n then Invalid else Ok(s[..n], s[n..])
  }

  function DecInt(cookie: nat, s: seq<Byte>): (r: Result<int>)
    ensures r.Ok? ==> |r.rest| <= |s|
  {
    if cookie == 0 then Ok(0, s)
    else
      var n := if cookie == 1 then 1 else if cookie == 2 then 2 else if cookie == 4 then 4 else 8;
      if cookie != 1 && cookie != 2 && cookie != 4 && cookie != 6 then Invalid
      else match Take(s, n)
        case Invalid => Invalid
        case Ok(b, rest) => Ok(if n <= 2 then FromLe(b) else Signed(FromLe(b), n), rest)
  }

  function DecOne(s: seq<Byte>): (r: Result<Value>)
    ensures r.Ok? ==> |r.rest| < |s|
    decreases |s|, 0
  {
    if s == [] then Invalid else var t: int := s[0]; DecValue(t % 8, t / 8, s[1..])
  }

  function DecBuffer(n: nat, s: seq<Byte>): (r: Result<Value>)
    ensures r.Ok? ==> |r.rest| <= |s|
  {
    match Take(s, n) case Invalid => Invalid case Ok(b, rest) => Ok(VStr(b), rest)
  }

  function DecValue(t: nat, cookie: nat, s: seq<Byte>): (r: Result<Value>)
    ensures r.Ok? ==> |r.rest| <= |s|
    decreases |s|, 4
  {
    if t == 0 then Ok(VNil, s)
    else if t == 1 then Ok(VBool(cookie != 0), s)
    else if t == 2 && cookie == 8 then
      (match Take(s, 8) case Invalid => Invalid case Ok(b, rest) => Ok(VReal(b), rest))
    else if t == 2 then
      (match DecInt(cookie, s) case Invalid => Invalid case Ok(i, rest) => Ok(VInt(i), rest))
    else if t == 3 then
      (match Take(s, 8) case Invalid => Invalid case Ok(b, rest) => Ok(VUser(b), rest))
    else if t == 4 then DecBuffer(cookie, s)
    else if t == 5 then
      (if cookie != 2 && cookie != 4 then Invalid else
       match Take(s, cookie) case Invalid => Invalid case Ok(b, rest) => DecBuffer(FromLe(b), rest))
    else if t == 6 then
      (match DecSize(cookie, s)
       case Invalid => Invalid
       case Ok(n, rest) => DecTable(if n < 0 then 0 else n, rest))
    else Invalid
  }

  // An int of C.
  function Truncated(n: int): int { Signed(Wrap(n, 4), 4) }

  function DecSize(cookie: nat, s: seq<Byte>): (r: Result<int>)
    ensures r.Ok? ==> |r.rest| <= |s|
  {
    if cookie != MAX_COOKIE - 1 then Ok(cookie, s)
    else if s == [] then Invalid
    else
      var t: int := s[0];
      if t % 8 != 2 || t / 8 == 8 then Invalid
      else match DecInt(t / 8, s[1..]) case Invalid => Invalid case Ok(n, rest) => Ok(Truncated(n), rest)
  }

  function DecTable(n: nat, s: seq<Byte>): (r: Result<Value>)
    ensures r.Ok? ==> |r.rest| <= |s|
    decreases |s|, 3
  {
    match DecArr(n, s)
    case Invalid => Invalid
    case Ok(arr, rest) =>
      match DecPairs(rest)
      case Invalid => Invalid
      case Ok(pairs, rest2) => Ok(VTable(arr, pairs), rest2)
  }

  function DecArr(n: nat, s: seq<Byte>): (r: Result<seq<Value>>)
    ensures r.Ok? ==> |r.rest| <= |s|
    decreases |s|, 2
  {
    if n == 0 then Ok([], s) else
    match DecOne(s)
    case Invalid => Invalid
    case Ok(v, rest) =>
      match DecArr(n - 1, rest)
      case Invalid => Invalid
      case Ok(vs, rest2) => Ok([v] + vs, rest2)
  }

  function DecPairs(s: seq<Byte>): (r: Result<seq<Pair>>)
    ensures r.Ok? ==> |r.rest| <= |s|
    decreases |s|, 2
  {
    match DecOne(s)
    case Invalid => Invalid
    case Ok(key, rest) =>
      if key.VNil? then Ok([], rest) else
      match DecOne(rest)
      case Invalid => Invalid
      case Ok(value, rest2) =>
        match DecPairs(rest2)
        case Invalid => Invalid
        case Ok(ps, rest3) => Ok([Pair(key, value)] + ps, rest3)
  }

  // ------------------------------------------------------------ the round trip

  lemma TakeFront(a: seq<Byte>, b: seq<Byte>)
    ensures Take(a + b, |a|) == Ok(a, b)
  {
  }

  lemma Head(t: nat, cookie: nat, b: seq<Byte>)
    requires t < 8 && cookie < 32
    ensures DecOne([Type(t, cookie)] + b) == DecValue(t, cookie, b)
  {
    var s := [Type(t, cookie)] + b;
    var x: int := s[0];
    assert x % 8 == t && x / 8 == cookie && s[1..] == b;
  }

  // Which bytes of 'x' the reader makes 'v' of.
  lemma IntCase(cookie: nat, n: nat, x: nat, v: int, rest: seq<Byte>)
    requires x < Power(n) && (if n <= 2 then x == v else Signed(x, n) == v)
    requires (cookie == 1 && n == 1) || (cookie == 2 && n == 2) || (cookie == 4 && n == 4) || (cookie == 6 && n == 8)
    ensures DecInt(cookie, Le(x, n) + rest) == Ok(v, rest)
  {
    LeRound(x, n);
    TakeFront(Le(x, n), rest);
    hide Le, FromLe, Power, Signed;
  }

  // An integer is written in the shortest form that the reader gives back.
  lemma IntBody(v: int, rest: seq<Byte>) returns (cookie: nat, b: seq<Byte>)
    requires -0x8000_0000_0000_0000 <= v < 0x8000_0000_0000_0000
    ensures cookie < 8 && EncInt(v) == [Type(2, cookie)] + b && DecInt(cookie, b + rest) == Ok(v, rest)
  {
    Powers();
    if v == 0 {
      cookie, b := 0, [];
      assert [] + rest == rest;
    } else if !(-0x8000_0000 <= v < 0x8000_0000) {
      cookie, b := 6, Le(Wrap(v, 8), 8);
      IntCase(6, 8, Wrap(v, 8), v, rest);
    } else if v < 0 {
      cookie, b := 4, Le(Wrap(v, 4), 4);
      IntCase(4, 4, Wrap(v, 4), v, rest);
    } else if v < 0x100 {
      cookie, b := 1, Le(v, 1);
      IntCase(1, 1, v, v, rest);
    } else if v < 0x1_0000 {
      cookie, b := 2, Le(v, 2);
      IntCase(2, 2, v, v, rest);
    } else {
      cookie, b := 4, Le(v, 4);
      IntCase(4, 4, v, v, rest);
    }
    hide Le, DecInt, Power;
  }

  lemma SizeBody(n: nat, rest: seq<Byte>) returns (cookie: nat, b: seq<Byte>)
    requires n < 0x8000_0000
    ensures cookie < 32 && EncSize(n) == [Type(6, cookie)] + b && DecSize(cookie, b + rest) == Ok(n, rest)
  {
    if n >= MAX_COOKIE - 1 {
      var k, c := IntBody(n, rest);
      cookie, b := MAX_COOKIE - 1, EncInt(n);
      BigSize(n, k, c, rest);
    } else {
      cookie, b := n, [];
      assert [] + rest == rest;
    }
    hide EncInt, DecInt, DecSize;
  }

  lemma BigSize(n: nat, k: nat, c: seq<Byte>, rest: seq<Byte>)
    requires n < 0x8000_0000 && k < 8 && EncInt(n) == [Type(2, k)] + c && DecInt(k, c + rest) == Ok(n, rest)
    ensures DecSize(MAX_COOKIE - 1, EncInt(n) + rest) == Ok(n, rest)
  {
    var s := EncInt(n) + rest;
    var t: int := s[0];
    assert t == 2 + 8 * k && t % 8 == 2 && t / 8 == k;
    assert s[1..] == c + rest;
    hide EncInt, DecInt;
  }

  lemma StringRound(v: Value, rest: seq<Byte>)
    requires v.VStr? && Sound(v)
    ensures DecOne(Enc(v) + rest) == Ok(v, rest)
  {
    hide DecOne, Le, FromLe, Power;
    var s := v.s;
    TakeFront(s, rest);
    if |s| < MAX_COOKIE {
      Head(4, |s|, s + rest);
      assert Enc(v) + rest == [Type(4, |s|)] + (s + rest);
    } else {
      var n := if |s| < 0x1_0000 then 2 else 4;
      Powers();
      LeRound(|s|, n);
      TakeFront(Le(|s|, n), s + rest);
      Head(5, n, Le(|s|, n) + (s + rest));
      Concat3(Type(5, n), Le(|s|, n), s, rest);
    }
  }

  lemma Concat3(t: Byte, b: seq<Byte>, c: seq<Byte>, d: seq<Byte>)
    ensures [t] + b + c + d == [t] + (b + (c + d))
  {
  }

  lemma Concat2(t: Byte, b: seq<Byte>, c: seq<Byte>)
    ensures [t] + b + c == [t] + (b + c)
  {
  }

  // Reading back what was written for a value gives the value, whatever follows.
  lemma {:induction false} RoundTrip(v: Value, rest: seq<Byte>)
    requires Sound(v)
    ensures DecOne(Enc(v) + rest) == Ok(v, rest)
    decreases v, if v.VTable? then |v.arr| + |v.pairs| + 3 else 0
  {
    hide DecOne, Le, FromLe, EncStr, EncInt, EncArr, EncPairs, EncSize, DecTable, DecInt, DecSize;
    match v
    case VNil => Head(0, 0, rest);
    case VBool(b) => Head(1, if b then 1 else 0, rest);
    case VInt(i) =>
      var cookie, b := IntBody(i, rest);
      Head(2, cookie, b + rest);
      Concat2(Type(2, cookie), b, rest);
    case VReal(bits) =>
      Head(2, 8, bits + rest);
      TakeFront(bits, rest);
      Concat2(Type(2, 8), bits, rest);
    case VUser(bits) =>
      Head(3, 0, bits + rest);
      TakeFront(bits, rest);
      Concat2(Type(3, 0), bits, rest);
    case VStr(_) => StringRound(v, rest);
    case VTable(_, _) => TableOne(v, rest);
  }

  lemma {:induction false} TableOne(v: Value, rest: seq<Byte>)
    requires v.VTable? && Sound(v)
    ensures DecOne(Enc(v) + rest) == Ok(v, rest)
    decreases v, |v.arr| + |v.pairs| + 2
  {
    hide DecOne, EncArr, EncPairs, EncSize, DecTable, DecSize, EncInt, DecInt;
    var body := EncArr(v, 0) + (EncPairs(v, 0) + rest);
    var cookie, b := SizeBody(|v.arr|, body);
    Concat(Type(6, cookie), b, EncArr(v, 0), EncPairs(v, 0), rest);
    Head(6, cookie, b + body);
    TableRound(v, rest);
  }

  lemma Concat(t: Byte, b: seq<Byte>, c: seq<Byte>, d: seq<Byte>, e: seq<Byte>)
    ensures ([t] + b) + c + d + e == [t] + (b + (c + (d + e)))
  {
  }

  lemma {:induction false} TableRound(v: Value, rest: seq<Byte>)
    requires v.VTable? && Sound(v)
    ensures DecTable(|v.arr|, EncArr(v, 0) + (EncPairs(v, 0) + rest)) == Ok(v, rest)
    decreases v, |v.arr| + |v.pairs| + 1
  {
    hide DecArr, DecPairs, EncArr, EncPairs;
    ArrRound(v, 0, EncPairs(v, 0) + rest);
    PairsRound(v, 0, rest);
    assert v.arr[0..] == v.arr && v.pairs[0..] == v.pairs;
  }

  lemma {:induction false} ArrRound(v: Value, k: nat, rest: seq<Byte>)
    requires v.VTable? && Sound(v) && k <= |v.arr|
    ensures DecArr(|v.arr| - k, EncArr(v, k) + rest) == Ok(v.arr[k..], rest)
    decreases v, |v.arr| - k
  {
    hide DecOne, Enc, Sound, DecArr, EncArr;
    ArrNext(v, k);
    if k == |v.arr| {
      assert v.arr[k..] == [] && [] + rest == rest;
      ArrStep(0, rest);
    } else {
      var head, more := Enc(v.arr[k]), EncArr(v, k + 1);
      RoundTrip(v.arr[k], more + rest);
      ArrRound(v, k + 1, rest);
      assert (head + more) + rest == head + (more + rest);
      assert v.arr[k..] == [v.arr[k]] + v.arr[k + 1..];
      ArrStep(|v.arr| - k, EncArr(v, k) + rest);
    }
  }

  lemma ArrNext(v: Value, k: nat)
    requires v.VTable? && Sound(v) && k <= |v.arr|
    ensures EncArr(v, k) == if k == |v.arr| then [] else Enc(v.arr[k]) + EncArr(v, k + 1)
    ensures k < |v.arr| ==> Sound(v.arr[k])
  {
    hide Enc;
  }

  lemma ArrStep(n: nat, s: seq<Byte>)
    ensures n == 0 ==> DecArr(n, s) == Ok([], s)
    ensures n > 0 && DecOne(s).Ok? && DecArr(n - 1, DecOne(s).rest).Ok? ==>
      DecArr(n, s) == Ok([DecOne(s).value] + DecArr(n - 1, DecOne(s).rest).value, DecArr(n - 1, DecOne(s).rest).rest)
  {
    hide DecOne;
  }

  lemma {:induction false} PairsRound(v: Value, k: nat, rest: seq<Byte>)
    requires v.VTable? && Sound(v) && k <= |v.pairs|
    ensures DecPairs(EncPairs(v, k) + rest) == Ok(v.pairs[k..], rest)
    decreases v, |v.pairs| - k
  {
    hide DecOne;
    if k == |v.pairs| {
      Head(0, 0, rest);
      assert EncPairs(v, k) + rest == [Type(0, 0)] + rest && v.pairs[k..] == [];
    } else {
      var p := v.pairs[k];
      var tail := EncPairs(v, k + 1) + rest;
      var s := EncPairs(v, k) + rest;
      RoundTrip(p.key, Enc(p.value) + tail);
      RoundTrip(p.value, tail);
      PairsRound(v, k + 1, rest);
      assert s == Enc(p.key) + (Enc(p.value) + tail);
      assert v.pairs[k..] == [p] + v.pairs[k + 1..];
      PairsNext(s);
    }
  }

  lemma PairsNext(s: seq<Byte>)
    requires DecOne(s).Ok? && !DecOne(s).value.VNil? && DecOne(DecOne(s).rest).Ok?
    requires DecPairs(DecOne(DecOne(s).rest).rest).Ok?
    ensures var k, w := DecOne(s), DecOne(DecOne(s).rest);
      DecPairs(s) == Ok([Pair(k.value, w.value)] + DecPairs(w.rest).value, DecPairs(w.rest).rest)
  {
    hide DecOne;
  }

  // ------------------------------------------------------------ several values

  function EncAll(vs: seq<Value>): seq<Byte> { if vs == [] then [] else Enc(vs[0]) + EncAll(vs[1..]) }

  function DecAll(s: seq<Byte>): (r: Result<seq<Value>>)
    ensures r.Ok? ==> r.rest == []
    decreases |s|
  {
    if s == [] then Ok([], []) else
    match DecOne(s)
    case Invalid => Invalid
    case Ok(v, rest) =>
      match DecAll(rest)
      case Invalid => Invalid
      case Ok(vs, _) => Ok([v] + vs, [])
  }

  // Unpacking what was packed gives the values.
  lemma {:induction false} RoundTripAll(vs: seq<Value>)
    requires forall k :: 0 <= k < |vs| ==> Sound(vs[k])
    ensures DecAll(EncAll(vs)) == Ok(vs, [])
    decreases |vs|
  {
    hide DecOne, Enc;
    if vs != [] {
      RoundTrip(vs[0], EncAll(vs[1..]));
      RoundTripAll(vs[1..]);
      assert EncAll(vs) != [] by { NotEmpty(vs[0], EncAll(vs[1..])); }
      assert vs == [vs[0]] + vs[1..];
    }
  }

  lemma NotEmpty(v: Value, s: seq<Byte>)
    ensures Enc(v) + s != []
  {
    if v.VTable? {
      assert |EncSize(|v.arr|)| > 0;
    }
  }
}
