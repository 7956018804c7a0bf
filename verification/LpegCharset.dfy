// The compact form of charsets: a set of bytes as 32 bytes of bits, cut down to the
// range that differs from a default, in trees and after instructions.

module LpegCharset {
  import LpegTree
  import LpegBuild

  const CHARSETSIZE: nat := 32
  const INSTRUCTION: nat := 4   // the bytes of an instruction

  type Charset = cs: seq<bv8> | |cs| == CHARSETSIZE witness seq(CHARSETSIZE, _ => 0)

  // ------------------------------------------------------------ bits

  // Bit k of a byte.
  predicate Bit(b: bv8, k: nat) {
    if k == 0 then b & 0x01 != 0
    else if k == 1 then b & 0x02 != 0
    else if k == 2 then b & 0x04 != 0
    else if k == 3 then b & 0x08 != 0
    else if k == 4 then b & 0x10 != 0
    else if k == 5 then b & 0x20 != 0
    else if k == 6 then b & 0x40 != 0
    else k == 7 && b & 0x80 != 0
  }

  predicate In(cs: Charset, c: nat) { c < 256 && Bit(cs[c / 8], c % 8) }

  predicate Only(cs: Charset, c: nat) { In(cs, c) && forall d :: 0 <= d < 256 && In(cs, d) ==> d == c }

  // The set that the rest of the model speaks of.
  ghost function SetOf(cs: Charset): set<LpegTree.Byte> { set c: LpegTree.Byte | 0 <= c < 256 && In(cs, c) }

  lemma SetFacts(cs: Charset)
    ensures SetOf(cs) == {} <==> forall c :: 0 <= c < 256 ==> !In(cs, c)
    ensures SetOf(cs) == LpegTree.FULLSET <==> forall c :: 0 <= c < 256 ==> In(cs, c)
    ensures |SetOf(cs)| == 1 <==> exists c: nat :: Only(cs, c)
    ensures forall c: nat :: Only(cs, c) ==> SetOf(cs) == {c}
  {
    hide Bit;
    assert forall c: LpegTree.Byte :: c in SetOf(cs) <==> In(cs, c);
    if |SetOf(cs)| == 1 {
      var c :| c in SetOf(cs);
      LpegBuild.Single(SetOf(cs), c);
      assert Only(cs, c) by {
        forall d | 0 <= d < 256 && In(cs, d) ensures d == c {
          assert d in SetOf(cs);
        }
      }
    }
    forall c: nat | Only(cs, c) ensures SetOf(cs) == {c} {
    }
    if SetOf(cs) == LpegTree.FULLSET {
      forall c | 0 <= c < 256 ensures In(cs, c) {
        assert c in LpegTree.FULLSET;
      }
    }
  }

  lemma AnyBit(b: bv8)
    ensures b == 0 <==> forall k :: 0 <= k < 8 ==> !Bit(b, k)
    ensures b == 0xFF <==> forall k :: 0 <= k < 8 ==> Bit(b, k)
  {
    if forall k :: 0 <= k < 8 ==> !Bit(b, k) {
      assert !Bit(b, 0) && !Bit(b, 1) && !Bit(b, 2) && !Bit(b, 3) && !Bit(b, 4) && !Bit(b, 5) && !Bit(b, 6) && !Bit(b, 7);
    }
    if forall k :: 0 <= k < 8 ==> Bit(b, k) {
      assert Bit(b, 0) && Bit(b, 1) && Bit(b, 2) && Bit(b, 3) && Bit(b, 4) && Bit(b, 5) && Bit(b, 6) && Bit(b, 7);
    }
  }

  // A byte is its bits.
  lemma SameBits(a: bv8, b: bv8)
    requires forall k :: 0 <= k < 8 ==> (Bit(a, k) <==> Bit(b, k))
    ensures a == b
  {
    assert (Bit(a, 0) <==> Bit(b, 0)) && (Bit(a, 1) <==> Bit(b, 1)) && (Bit(a, 2) <==> Bit(b, 2)) && (Bit(a, 3) <==> Bit(b, 3));
    assert (Bit(a, 4) <==> Bit(b, 4)) && (Bit(a, 5) <==> Bit(b, 5)) && (Bit(a, 6) <==> Bit(b, 6)) && (Bit(a, 7) <==> Bit(b, 7));
  }

  // The index of the only bit of 'b', after 'c'.
  method OnlyBit(c0: nat, b0: bv8) returns (c: nat)
    requires b0 != 0
    ensures b0 & (b0 - 1) == 0 ==> c0 <= c < c0 + 8 && forall k :: 0 <= k < 8 ==> (Bit(b0, k) <==> c == c0 + k)
  {
    var b := b0;
    c := c0;
    if b & 0xF0 != 0 {
      c, b := c + 4, b >> 4;
    }
    if b & 0x0C != 0 {
      c, b := c + 2, b >> 2;
    }
    if b & 0x02 != 0 {
      c := c + 1;
    }
  }

  // Two bits or more when it is no power of two.
  lemma TwoBits(b: bv8) returns (j: nat, k: nat)
    requires b & (b - 1) != 0
    ensures j < k < 8 && Bit(b, j) && Bit(b, k)
  {
    j := if Bit(b, 0) then 0 else if Bit(b, 1) then 1 else if Bit(b, 2) then 2 else if Bit(b, 3) then 3
         else if Bit(b, 4) then 4 else if Bit(b, 5) then 5 else 6;
    k := if Bit(b, 7) then 7 else if Bit(b, 6) then 6 else if Bit(b, 5) then 5 else if Bit(b, 4) then 4
         else if Bit(b, 3) then 3 else if Bit(b, 2) then 2 else 1;
  }

  // ------------------------------------------------------------ the range

  // A set outside of a range is its default; 'bytes' are those of the range.
  datatype Info = Info(offset: nat, size: nat, deflt: bv8, bytes: seq<bv8>)

  datatype Kind = IFail | IAny | IChar(c: nat) | ISet(info: Info)

  // The bytes other than 'd' reach from 'low' to 'high'.
  ghost predicate Spread(cs: Charset, d: bv8, low: nat, high: nat) {
    low <= high < CHARSETSIZE && cs[low] != d && cs[high] != d &&
    forall i :: 0 <= i < CHARSETSIZE && (i < low || high < i) ==> cs[i] == d
  }

  // The range of the ones, or that of the zeros where it is shorter.
  ghost predicate Shortest(cs: Charset, info: Info) {
    info.size > 0 && info.offset + info.size <= CHARSETSIZE &&
    info.bytes == cs[info.offset..info.offset + info.size] &&
    Spread(cs, info.deflt, info.offset, info.offset + info.size - 1) &&
    if info.deflt == 0 then forall l: nat, h: nat :: Spread(cs, 0xFF, l, h) ==> info.size <= h - l + 1
    else info.deflt == 0xFF && forall l: nat, h: nat :: Spread(cs, 0, l, h) ==> info.size < h - l + 1
  }

  lemma SpreadUnique(cs: Charset, d: bv8, l: nat, h: nat, l2: nat, h2: nat)
    requires Spread(cs, d, l, h) && Spread(cs, d, l2, h2)
    ensures l == l2 && h == h2
  {
  }

  // A set has one such form.
  lemma ShortestUnique(cs: Charset, a: Info, b: Info)
    requires Shortest(cs, a) && Shortest(cs, b)
    ensures a == b
  {
    var ah, bh := a.offset + a.size - 1, b.offset + b.size - 1;
    if a.deflt == b.deflt {
      SpreadUnique(cs, a.deflt, a.offset, ah, b.offset, bh);
    }
  }

  // A set is its characters.
  lemma SameSet(cs: Charset, ds: Charset)
    requires forall c :: 0 <= c < 256 ==> (In(cs, c) <==> In(ds, c))
    ensures cs == ds
  {
    hide Bit;
    forall i | 0 <= i < CHARSETSIZE ensures cs[i] == ds[i] {
      forall k | 0 <= k < 8 ensures Bit(cs[i], k) <==> Bit(ds[i], k) {
        assert (8 * i + k) / 8 == i && (8 * i + k) % 8 == k;
        assert In(cs, 8 * i + k) <==> In(ds, 8 * i + k);
      }
      SameBits(cs[i], ds[i]);
    }
  }

  lemma AllEmpty(cs: Charset)
    ensures (forall i :: 0 <= i < CHARSETSIZE ==> cs[i] == 0) <==> forall c :: 0 <= c < 256 ==> !In(cs, c)
  {
    AnyBit(0);
    hide Bit;
    if forall c :: 0 <= c < 256 ==> !In(cs, c) {
      SameSet(cs, seq(CHARSETSIZE, _ => 0));
    }
  }

  lemma AllFull(cs: Charset)
    ensures (forall i :: 0 <= i < CHARSETSIZE ==> cs[i] == 0xFF) <==> forall c :: 0 <= c < 256 ==> In(cs, c)
  {
    AnyBit(0xFF);
    hide Bit;
    if forall c :: 0 <= c < 256 ==> In(cs, c) {
      SameSet(cs, seq(CHARSETSIZE, _ => 0xFF));
    }
  }

  // One byte with one bit is one character.
  lemma OneByte(cs: Charset, i: nat, c: nat)
    requires Spread(cs, 0, i, i) && 8 * i <= c < 8 * i + 8
    requires forall k :: 0 <= k < 8 ==> (Bit(cs[i], k) <==> c == 8 * i + k)
    ensures Only(cs, c)
  {
    assert c / 8 == i && c % 8 == c - 8 * i;
    forall d | 0 <= d < 256 && In(cs, d) ensures d == c {
      AnyBit(cs[d / 8]);
      hide Bit;
      assert d / 8 == i;
      assert d == 8 * i + d % 8;
    }
    hide Bit;
  }

  // Two bytes, or two bits, are two characters.
  lemma NotOne(cs: Charset, low: nat, high: nat)
    requires Spread(cs, 0, low, high) && (low < high || cs[low] & (cs[low] - 1) != 0)
    ensures forall c :: !Only(cs, c)
  {
    var a, b: nat;
    if low < high {
      AnyBit(cs[low]);
      AnyBit(cs[high]);
      hide Bit;
      var j :| 0 <= j < 8 && Bit(cs[low], j);
      var k :| 0 <= k < 8 && Bit(cs[high], k);
      a, b := 8 * low + j, 8 * high + k;
    } else {
      var j, k := TwoBits(cs[low]);
      hide Bit;
      a, b := 8 * low + j, 8 * low + k;
    }
    assert In(cs, a) && In(cs, b) && a != b;
    forall c ensures !Only(cs, c) {
    }
  }

  // Which instruction tests a set, and the shortest form of a set in general.
  method CharsetType(cs: Charset) returns (k: Kind)
    ensures k.IFail? <==> forall c :: 0 <= c < 256 ==> !In(cs, c)
    ensures k.IAny? <==> forall c :: 0 <= c < 256 ==> In(cs, c)
    ensures k.IChar? ==> Only(cs, k.c)
    ensures !k.IChar? ==> forall c :: !Only(cs, c)
    ensures k.ISet? ==> Shortest(cs, k.info)
  {
    hide Bit, In, Only, Spread;
    AllEmpty(cs);
    AllFull(cs);
    var low1, high1 := FindRange(cs, 0);
    if low1 == CHARSETSIZE {
      OnlyIsIn(cs);
      assert !In(cs, 0);
      return IFail;
    }
    if low1 == high1 {
      var b := cs[low1];
      if b & (b - 1) == 0 {
        SpreadEnd(cs, 0, low1, high1);
        var c := OnlyBit(low1 * 8, b);
        OneByte(cs, low1, c);
        NotAll(cs, c);
        return IChar(c);
      }
    }
    SpreadEnd(cs, 0, low1, high1);
    NotOne(cs, low1, high1);
    var low0, high0 := FindRange(cs, 0xFF);
    if low0 == CHARSETSIZE {
      return IAny;
    }
    if high1 - low1 <= high0 - low0 {
      k := ISet(Info(low1, high1 - low1 + 1, 0, cs[low1..high1 + 1]));
    } else {
      k := ISet(Info(low0, high0 - low0 + 1, 0xFF, cs[low0..high0 + 1]));
    }
    ShorterIs(cs, low1, high1, low0, high0);
  }

  // The first and the last byte other than 'd', or no byte.
  method FindRange(cs: Charset, d: bv8) returns (low: nat, high: nat)
    ensures low <= CHARSETSIZE && (low == CHARSETSIZE <==> forall i :: 0 <= i < CHARSETSIZE ==> cs[i] == d)
    ensures low < CHARSETSIZE ==> low <= high < CHARSETSIZE && cs[low] != d && Spread(cs, d, low, high)
  {
    low, high := 0, CHARSETSIZE - 1;
    while low < CHARSETSIZE && cs[low] == d
      invariant low <= CHARSETSIZE && forall i :: 0 <= i < low ==> cs[i] == d
    {
      low := low + 1;
    }
    if low == CHARSETSIZE {
      return;
    }
    while cs[high] == d
      invariant low <= high < CHARSETSIZE && forall i :: high < i < CHARSETSIZE ==> cs[i] == d
      decreases high
    {
      high := high - 1;
    }
  }

  lemma SpreadEnd(cs: Charset, d: bv8, low: nat, high: nat)
    requires Spread(cs, d, low, high)
    ensures low <= high < CHARSETSIZE && cs[low] != d
  {
  }

  lemma ShorterIs(cs: Charset, low1: nat, high1: nat, low0: nat, high0: nat)
    requires Spread(cs, 0, low1, high1) && Spread(cs, 0xFF, low0, high0)
    ensures low1 <= high1 < CHARSETSIZE && low0 <= high0 < CHARSETSIZE
    ensures high1 - low1 <= high0 - low0 ==> Shortest(cs, Info(low1, high1 - low1 + 1, 0, cs[low1..high1 + 1]))
    ensures high1 - low1 > high0 - low0 ==> Shortest(cs, Info(low0, high0 - low0 + 1, 0xFF, cs[low0..high0 + 1]))
  {
    forall l: nat, h: nat | Spread(cs, 0, l, h) ensures l == low1 && h == high1 {
      SpreadUnique(cs, 0, l, h, low1, high1);
    }
    forall l: nat, h: nat | Spread(cs, 0xFF, l, h) ensures l == low0 && h == high0 {
      SpreadUnique(cs, 0xFF, l, h, low0, high0);
    }
    hide Spread;
  }

  lemma OnlyIsIn(cs: Charset)
    ensures (forall c :: 0 <= c < 256 ==> !In(cs, c)) ==> forall c :: !Only(cs, c)
  {
    hide Bit;
  }

  lemma NotAll(cs: Charset, c: nat)
    requires Only(cs, c)
    ensures In(cs, c) && !In(cs, if c == 0 then 1 else 0)
  {
    hide Bit;
  }

  // ------------------------------------------------------------ after an instruction

  // The bytes of the set are padded to whole instructions.
  datatype SetInst = SetInst(offset: nat, isize: nat, deflt: bv8, buff: seq<bv8>)

  function InstSize(n: nat): nat { (n + INSTRUCTION - 1) / INSTRUCTION }

  function GetByte(info: Info, index: nat): bv8
    requires |info.bytes| == info.size
  {
    if index < info.size then info.bytes[index] else info.deflt
  }

  ghost predicate Encodes(i: SetInst, info: Info) {
    |info.bytes| == info.size && i.offset == info.offset * 8 && i.isize == InstSize(info.size) && i.deflt == info.deflt &&
    |i.buff| == i.isize * INSTRUCTION && forall j :: 0 <= j < |i.buff| ==> i.buff[j] == GetByte(info, j)
  }

  method AddCharset(info: Info) returns (i: SetInst)
    requires |info.bytes| == info.size
    ensures Encodes(i, info)
  {
    var isize := InstSize(info.size);
    var charset: seq<bv8> := [];
    for j := 0 to isize * INSTRUCTION
      invariant |charset| == j && forall k :: 0 <= k < j ==> charset[k] == GetByte(info, k)
    {
      charset := charset + [GetByte(info, j)];
    }
    i := SetInst(info.offset * 8, isize, info.deflt, charset);
  }

  // In unsigned arithmetic a character before the range is far behind it.
  predicate CharInSet(i: SetInst, c0: nat)
    requires |i.buff| == i.isize * INSTRUCTION
  {
    var c := (c0 - i.offset) % 0x1_0000_0000;
    if c >= i.isize * INSTRUCTION * 8 then i.deflt != 0 else Bit(i.buff[c / 8], c % 8)
  }

  // The machine tests exactly the set that was coded.
  lemma InstructionTests(cs: Charset, info: Info, i: SetInst, c: nat)
    requires Shortest(cs, info) && Encodes(i, info) && c < 256
    ensures CharInSet(i, c) <==> In(cs, c)
    ensures CharInSet(i, c) <==> c in SetOf(cs)
  {
    AnyBit(0);
    AnyBit(0xFF);
    hide Bit;
    var k := c - i.offset;
    assert i.offset <= 248 && i.isize <= 8;
    if k >= 0 {
      assert k % 0x1_0000_0000 == k && k / 8 == c / 8 - info.offset && k % 8 == c % 8;
    } else {
      assert k % 0x1_0000_0000 == k + 0x1_0000_0000;
      assert c / 8 < info.offset;
    }
  }

  method CsEqual(p: SetInst, info: Info) returns (same: bool)
    requires |info.bytes| == info.size && |p.buff| == p.isize * INSTRUCTION
    ensures same <==> Encodes(p, info)
  {
    if p.offset != info.offset * 8 || p.isize != InstSize(info.size) || p.deflt != info.deflt {
      return false;
    }
    for j := 0 to p.isize * INSTRUCTION
      invariant forall k :: 0 <= k < j ==> p.buff[k] == GetByte(info, k)
    {
      if p.buff[j] != GetByte(info, j) {
        return false;
      }
    }
    return true;
  }

  // A test dominates a set exactly when both have the same characters.
  lemma DominatesIff(cs: Charset, info: Info, p: SetInst, ds: Charset, test: Info)
    requires Shortest(cs, info) && Shortest(ds, test) && Encodes(p, test)
    ensures Encodes(p, info) <==> forall c :: 0 <= c < 256 ==> (In(cs, c) <==> In(ds, c))
  {
    hide Bit, Shortest;
    if Encodes(p, info) {
      forall c | 0 <= c < 256 ensures In(cs, c) <==> In(ds, c) {
        InstructionTests(cs, info, p, c);
        InstructionTests(ds, test, p, c);
      }
    } else if forall c :: 0 <= c < 256 ==> (In(cs, c) <==> In(ds, c)) {
      SameSet(cs, ds);
      ShortestUnique(cs, info, test);
    }
  }

  // ------------------------------------------------------------ in a tree

  datatype SetTree = TFalse | TAny | TChar(n: nat) | TSet(info: Info)

  // The characters of a tree.
  ghost predicate Has(t: SetTree, c: nat) {
    match t
    case TFalse => false
    case TAny => c < 256
    case TChar(n) => c == n
    case TSet(info) =>
      c < 256 &&
      if info.offset <= c / 8 < info.offset + |info.bytes| then Bit(info.bytes[c / 8 - info.offset], c % 8)
      else Bit(info.deflt, c % 8)
  }

  ghost predicate Tree(t: SetTree) {
    (t.TChar? ==> t.n < 256) &&
    (t.TSet? ==> |t.info.bytes| == t.info.size && t.info.offset + t.info.size <= CHARSETSIZE)
  }

  ghost function TreeOf(t: SetTree): LpegTree.Tree
    requires Tree(t)
  {
    match t
    case TFalse => LpegTree.TFalse
    case TAny => LpegTree.TAny
    case TChar(n) => LpegTree.TChar(n)
    case TSet(_) => LpegTree.TSet(set c: LpegTree.Byte | 0 <= c < 256 && Has(t, c))
  }

  // newcharset: the tree of the operators on patterns, in its compact form.
  method NewCharset(cs: Charset) returns (t: SetTree)
    ensures Tree(t) && forall c :: 0 <= c < 256 ==> (Has(t, c) <==> In(cs, c))
    ensures TreeOf(t) == LpegBuild.NewCharset(SetOf(cs))
  {
    var k := CharsetType(cs);
    hide Bit, TreeOf;
    match k {
      case IFail => t := TFalse;
      case IAny => t := TAny;
      case IChar(c) => t := TChar(c);
      case ISet(info) => t := TSet(info);
    }
    TreeChosen(cs, t);
  }

  lemma TreeChosen(cs: Charset, t: SetTree)
    requires Tree(t) && forall c :: 0 <= c < 256 ==> (Has(t, c) <==> In(cs, c))
    requires t.TFalse? <==> forall c :: 0 <= c < 256 ==> !In(cs, c)
    requires t.TAny? <==> forall c :: 0 <= c < 256 ==> In(cs, c)
    requires if t.TChar? then Only(cs, t.n) else forall c :: !Only(cs, c)
    ensures TreeOf(t) == LpegBuild.NewCharset(SetOf(cs))
  {
    hide Only, In, Has;
    SetFacts(cs);
    if t.TSet? {
      assert (set c: LpegTree.Byte | 0 <= c < 256 && Has(t, c)) == SetOf(cs);
    }
  }

  // 1 << (c & 7)
  function Mask(k: nat): bv8 {
    if k == 0 then 0x01 else if k == 1 then 0x02 else if k == 2 then 0x04 else if k == 3 then 0x08
    else if k == 4 then 0x10 else if k == 5 then 0x20 else if k == 6 then 0x40 else 0x80
  }

  lemma MaskBit(b: bv8, n: nat)
    requires n < 8
    ensures forall k :: 0 <= k < 8 ==> (Bit(b | Mask(n), k) <==> Bit(b, k) || k == n)
  {
  }

  method SetChar(cs: array<bv8>, c: nat)
    requires cs.Length == CHARSETSIZE && c < 256
    modifies cs
    ensures forall d :: 0 <= d < 256 ==> (In(cs[..], d) <==> In(old(cs[..]), d) || d == c)
  {
    MaskBit(cs[c / 8], c % 8);
    hide Bit, Mask;
    cs[c / 8] := cs[c / 8] | Mask(c % 8);
    assert forall d :: 0 <= d < 256 && d / 8 == c / 8 && d % 8 == c % 8 ==> d == c;
  }

  // Fills the set of a character pattern with its characters.
  method ToCharset(t: SetTree, cs: array<bv8>)
    requires Tree(t) && cs.Length == CHARSETSIZE
    modifies cs
    ensures forall c :: 0 <= c < 256 ==> (In(cs[..], c) <==> Has(t, c))
  {
    AnyBit(0);
    AnyBit(0xFF);
    hide Bit;
    match t {
      case TChar(n) =>
        FillSet(cs, 0);
        SetChar(cs, n);
      case TAny => FillSet(cs, 0xFF);
      case TFalse => FillSet(cs, 0);
      case TSet(info) =>
        FillSet(cs, info.deflt);
        for i := 0 to info.size
          invariant forall j :: 0 <= j < CHARSETSIZE ==>
            cs[j] == if info.offset <= j < info.offset + i then info.bytes[j - info.offset] else info.deflt
        {
          cs[info.offset + i] := info.bytes[i];
        }
    }
  }

  method FillSet(cs: array<bv8>, b: bv8)
    modifies cs
    ensures forall i :: 0 <= i < cs.Length ==> cs[i] == b
  {
    forall i | 0 <= i < cs.Length { cs[i] := b; }
  }

  // A set that became a tree comes back.
  method RoundTrip(cs: Charset, out: array<bv8>)
    requires out.Length == CHARSETSIZE
    modifies out
    ensures out[..] == cs
  {
    var t := NewCharset(cs);
    ToCharset(t, out);
    SameSet(out[..], cs);
  }
}
