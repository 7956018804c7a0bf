// The packer and the unpacker of Lua values as the source runs them: bytes go to
// linked blocks, come out as one buffer, and are read by a cursor.

module SeriCodec {

  import opened SeriFormat

  const BLOCK_SIZE: nat := 128

  datatype Option<+T> = Some(value: T) | None

  // ------------------------------------------------------------ the writer

  class Block {
    var next: Block?
    var buffer: seq<Byte>

    constructor ()
      ensures next == null && |buffer| == BLOCK_SIZE
    {
      next := null;
      buffer := seq(BLOCK_SIZE, _ => 0);
    }

    // The memcpy of 'b' to the place 'at'.
    method Copy(at: nat, b: seq<Byte>)
      requires at + |b| <= |buffer|
      modifies this`buffer
      ensures buffer == old(buffer[..at]) + b + old(buffer[at + |b|..])
    {
      buffer := buffer[..at] + b + buffer[at + |b|..];
    }
  }

  class WriteBlock {
    var head: Block
    var current: Block
    var len: nat
    var ptr: nat
    ghost var chain: seq<Block>   // the blocks, linked
    ghost var repr: set<Block>
    ghost var bytes: seq<Byte>    // what has been pushed

    ghost predicate Linked()
      reads this, repr
    {
      (forall k :: 0 <= k < |chain| ==> chain[k] in repr) &&
      |chain| > 0 && chain[0] == head && chain[|chain| - 1] == current && current.next == null &&
      (forall i, j :: 0 <= i < j < |chain| ==> chain[i] != chain[j]) &&
      (forall k :: 0 <= k < |chain| - 1 ==> chain[k].next == chain[k + 1])
    }

    // The blocks behind the current one are full.
    ghost predicate Holds()
      reads this, repr
    {
      (forall k :: 0 <= k < |chain| ==> chain[k] in repr && |chain[k].buffer| == BLOCK_SIZE) &&
      len == |bytes| == BLOCK_SIZE * (|chain| - 1) + ptr && ptr <= BLOCK_SIZE &&
      (forall k :: 0 <= k < |chain| - 1 ==> chain[k].buffer == bytes[BLOCK_SIZE * k..BLOCK_SIZE * k + BLOCK_SIZE]) &&
      (|chain| > 0 ==> chain[|chain| - 1].buffer[..ptr] == bytes[BLOCK_SIZE * (|chain| - 1)..])
    }

    ghost predicate Valid()
      reads this, repr
    {
      Linked() && Holds()
    }

    constructor ()
      ensures Valid() && bytes == [] && fresh(repr)
    {
      var b := new Block();
      head, current, len, ptr := b, b, 0, 0;
      chain, repr, bytes := [b], {b}, [];
    }

    method AddBlock()
      requires Valid() && ptr == BLOCK_SIZE
      modifies this`current, this`ptr, this`chain, this`repr, repr
      ensures Valid() && ptr == 0
      ensures fresh(repr - old(repr))
    {
      var b := new Block();
      ghost var n := |chain|;
      assert bytes[BLOCK_SIZE * (n - 1)..] == bytes[BLOCK_SIZE * (n - 1)..BLOCK_SIZE * (n - 1) + BLOCK_SIZE];
      assert current.buffer == current.buffer[..ptr];
      current.next := b;
      current := b;
      ptr := 0;
      chain, repr := chain + [b], repr + {b};
    }

    // Bytes that fit in the current block.
    method Fill(b: seq<Byte>)
      requires Valid() && ptr + |b| <= BLOCK_SIZE
      modifies this`len, this`ptr, this`bytes, repr
      ensures Valid() && bytes == old(bytes) + b && ptr == old(ptr) + |b|
    {
      current.Copy(ptr, b);
      ptr := ptr + |b|;
      len := len + |b|;
      bytes := bytes + b;
    }

    // Appends to the byte sequence, whatever the blocks.
    method Push(b: seq<Byte>)
      requires Valid()
      modifies this, repr
      ensures Valid() && bytes == old(bytes) + b
      ensures fresh(repr - old(repr))
    {
      var buffer := b;
      if ptr == BLOCK_SIZE {
        AddBlock();
      }
      while ptr + |buffer| > BLOCK_SIZE
        invariant Valid() && ptr < BLOCK_SIZE
        invariant bytes + buffer == old(bytes) + b
        invariant fresh(repr - old(repr))
        decreases |buffer|
      {
        var copy := BLOCK_SIZE - ptr;
        Fill(buffer[..copy]);
        buffer := buffer[copy..];
        AddBlock();
      }
      Fill(buffer);
    }

    // ---------------------------------------------------------- values

    method WriteInteger(v: int)
      requires Valid()
      modifies this, repr
      ensures Valid() && bytes == old(bytes) + EncInt(v)
      ensures fresh(repr - old(repr))
    {
      hide Linked, Holds, Le, Wrap;
      if v == 0 {
        Push([Type(2, 0)]);
      } else if !(-0x8000_0000 <= v < 0x8000_0000) {
        Push([Type(2, 6)]);
        Push(Le(Wrap(v, 8), 8));
      } else if v < 0 {
        Push([Type(2, 4)]);
        Push(Le(Wrap(v, 4), 4));
      } else if v < 0x100 {
        Push([Type(2, 1)]);
        Push(Le(v, 1));
      } else if v < 0x1_0000 {
        Push([Type(2, 2)]);
        Push(Le(v, 2));
      } else {
        Push([Type(2, 4)]);
        Push(Le(v, 4));
      }
    }

    method WriteString(s: seq<Byte>)
      requires Valid()
      modifies this, repr
      ensures Valid() && bytes == old(bytes) + EncStr(s)
      ensures fresh(repr - old(repr))
    {
      hide Linked, Holds, Le;
      if |s| < MAX_COOKIE {
        Push([Type(4, |s|)]);
        if |s| > 0 {
          Push(s);
        }
      } else {
        if |s| < 0x1_0000 {
          Push([Type(5, 2)]);
          Push(Le(|s|, 2));
        } else {
          Push([Type(5, 4)]);
          Push(Le(|s|, 4));
        }
        Push(s);
      }
    }

    method WriteSize(n: nat)
      requires Valid()
      modifies this, repr
      ensures Valid() && bytes == old(bytes) + EncSize(n)
      ensures fresh(repr - old(repr))
    {
      hide Linked, Holds, EncInt;
      if n >= MAX_COOKIE - 1 {
        Push([Type(6, MAX_COOKIE - 1)]);
        WriteInteger(n);
      } else {
        Push([Type(6, n)]);
      }
    }

    // False is the error for a table that is too deep.
    method PackOne(v: Value, depth: nat) returns (ok: bool)
      requires Valid()
      modifies this, repr
      ensures ok == Fits(v, depth)
      ensures ok ==> Valid() && bytes == old(bytes) + Enc(v)
      ensures fresh(repr - old(repr))
      decreases v, 2
    {
      hide EncInt, EncStr, EncSize, EncArr, EncPairs, Linked, Holds;
      if depth > MAX_DEPTH {
        return false;
      }
      ok := true;
      match v {
        case VNil => Push([Type(0, 0)]);
        case VBool(b) => Push([Type(1, if b then 1 else 0)]);
        case VInt(i) => WriteInteger(i);
        case VReal(bits) =>
          Push([Type(2, 8)]);
          Push(bits);
        case VUser(bits) =>
          Push([Type(3, 0)]);
          Push(bits);
        case VStr(s) => WriteString(s);
        case VTable(_, _) => ok := PackTable(v, depth + 1);
      }
    }

    method PackTable(v: Value, depth: nat) returns (ok: bool)
      requires Valid() && v.VTable?
      modifies this, repr
      ensures ok == FitsInside(v, depth)
      ensures ok ==> Valid() && bytes == old(bytes) + Enc(v)
      ensures fresh(repr - old(repr))
      decreases v, 1
    {
      hide EncInt, EncSize, EncArr, EncPairs, Fits, Linked, Holds;
      WriteSize(|v.arr|);
      ok := PackArray(v, depth);
      if ok {
        ok := PackHash(v, depth);
      }
    }

    method PackArray(v: Value, depth: nat) returns (ok: bool)
      requires Valid() && v.VTable?
      modifies this, repr
      ensures ok == forall k :: 0 <= k < |v.arr| ==> Fits(v.arr[k], depth)
      ensures ok ==> Valid() && bytes == old(bytes) + EncArr(v, 0)
      ensures fresh(repr - old(repr))
      decreases v, 0
    {
      hide Enc, Fits, Linked, Holds;
      for i := 0 to |v.arr|
        invariant Valid() && forall k :: 0 <= k < i ==> Fits(v.arr[k], depth)
        invariant bytes + EncArr(v, i) == old(bytes) + EncArr(v, 0)
        invariant fresh(repr - old(repr))
      {
        ghost var was := bytes;
        ok := PackOne(v.arr[i], depth);
        if !ok {
          return;
        }
        assert was + EncArr(v, i) == bytes + EncArr(v, i + 1);
      }
      ok := true;
    }

    method PackHash(v: Value, depth: nat) returns (ok: bool)
      requires Valid() && v.VTable?
      modifies this, repr
      ensures ok == forall k :: 0 <= k < |v.pairs| ==> Fits(v.pairs[k].key, depth) && Fits(v.pairs[k].value, depth)
      ensures ok ==> Valid() && bytes == old(bytes) + EncPairs(v, 0)
      ensures fresh(repr - old(repr))
      decreases v, 0
    {
      hide Enc, Fits, Linked, Holds;
      for i := 0 to |v.pairs|
        invariant Valid() && forall k :: 0 <= k < i ==> Fits(v.pairs[k].key, depth) && Fits(v.pairs[k].value, depth)
        invariant bytes + EncPairs(v, i) == old(bytes) + EncPairs(v, 0)
        invariant fresh(repr - old(repr))
      {
        ghost var was := bytes;
        var p := v.pairs[i];
        ok := PackOne(p.key, depth);
        if !ok {
          return;
        }
        ok := PackOne(p.value, depth);
        if !ok {
          return;
        }
        assert was + EncPairs(v, i) == bytes + EncPairs(v, i + 1);
      }
      Push([Type(0, 0)]);
      ok := true;
    }

    // The bytes as one buffer.
    method Join() returns (buffer: array<Byte>)
      requires Valid()
      ensures fresh(buffer) && buffer[..] == bytes
    {
      buffer := new Byte[len];
      var at, left := 0, len;
      var b: Block? := head;
      ghost var k := 0;
      while left > 0
        invariant 0 <= k <= |chain| && 0 <= left && at == BLOCK_SIZE * k && at + left == len == buffer.Length
        invariant left > 0 ==> k < |chain| && b == chain[k]
        invariant buffer[..at] == bytes[..at]
        decreases left
      {
        if left >= BLOCK_SIZE {
          FullBlock(k);
          CopyOut(b, buffer, at, BLOCK_SIZE);
          at, left, k := at + BLOCK_SIZE, left - BLOCK_SIZE, k + 1;
          b := b.next;
        } else {
          LastBlock(k, left);
          CopyOut(b, buffer, at, left);
          break;
        }
      }
      assert buffer[..] == buffer[..len];
    }

    static method CopyOut(b: Block, buffer: array<Byte>, at: nat, n: nat)
      requires n <= |b.buffer| && at + n <= buffer.Length
      modifies buffer
      ensures buffer[..at + n] == old(buffer[..at]) + b.buffer[..n]
    {
      forall i | 0 <= i < n { buffer[at + i] := b.buffer[i]; }
    }

    lemma FullBlock(k: nat)
      requires Valid() && BLOCK_SIZE * (k + 1) <= len && k < |chain|
      ensures bytes[..BLOCK_SIZE * k] + chain[k].buffer[..BLOCK_SIZE] == bytes[..BLOCK_SIZE * k + BLOCK_SIZE]
      ensures |chain[k].buffer| == BLOCK_SIZE && chain[k].next == if k + 1 < |chain| then chain[k + 1] else null
      ensures BLOCK_SIZE * (k + 1) < len ==> k + 1 < |chain|
    {
      if k == |chain| - 1 {
        assert ptr == BLOCK_SIZE;
        assert bytes[BLOCK_SIZE * k..] == bytes[BLOCK_SIZE * k..BLOCK_SIZE * k + BLOCK_SIZE];
      }
      assert chain[k].buffer[..BLOCK_SIZE] == chain[k].buffer;
    }

    lemma LastBlock(k: nat, left: nat)
      requires Valid() && BLOCK_SIZE * k + left == len && left < BLOCK_SIZE && k < |chain|
      ensures |chain[k].buffer| == BLOCK_SIZE && bytes[..BLOCK_SIZE * k] + chain[k].buffer[..left] == bytes
    {
      assert k == |chain| - 1;
    }
  }

  // ------------------------------------------------------------ depth

  predicate Fits(v: Value, depth: nat)
    decreases v, 1
  {
    depth <= MAX_DEPTH && (v.VTable? ==> FitsInside(v, depth + 1))
  }

  predicate FitsInside(v: Value, depth: nat)
    requires v.VTable?
    decreases v, 0
  {
    (forall k :: 0 <= k < |v.arr| ==> Fits(v.arr[k], depth)) &&
    (forall k :: 0 <= k < |v.pairs| ==> Fits(v.pairs[k].key, depth) && Fits(v.pairs[k].value, depth))
  }

  // How many tables are around the innermost value.
  function Depth(v: Value): nat
    decreases v, if v.VTable? then |v.arr| + |v.pairs| + 1 else 0
  {
    if v.VTable? then Max(ArrDepth(v, 0), PairsDepth(v, 0)) else 0
  }

  function ArrDepth(v: Value, k: nat): nat
    requires v.VTable? && k <= |v.arr|
    decreases v, |v.arr| - k
  {
    if k == |v.arr| then 0 else Max(1 + Depth(v.arr[k]), ArrDepth(v, k + 1))
  }

  function PairsDepth(v: Value, k: nat): nat
    requires v.VTable? && k <= |v.pairs|
    decreases v, |v.pairs| - k
  {
    if k == |v.pairs| then 0
    else Max(Max(1 + Depth(v.pairs[k].key), 1 + Depth(v.pairs[k].value)), PairsDepth(v, k + 1))
  }

  function Max(a: nat, b: nat): nat { if a < b then b else a }

  // A value can be packed if and only if nothing in it is more than 32 tables deep.
  lemma {:induction false} FitsIff(v: Value, depth: nat)
    ensures Fits(v, depth) <==> depth + Depth(v) <= 32
    decreases v, if v.VTable? then |v.arr| + |v.pairs| + 1 else 0
  {
    if v.VTable? && depth <= MAX_DEPTH {
      ArrFits(v, depth + 1, 0);
      PairsFits(v, depth + 1, 0);
    }
  }

  lemma {:induction false} ArrFits(v: Value, depth: nat, k: nat)
    requires v.VTable? && k <= |v.arr| && 0 < depth <= MAX_DEPTH + 1
    ensures (forall j :: k <= j < |v.arr| ==> Fits(v.arr[j], depth)) <==> depth - 1 + ArrDepth(v, k) <= MAX_DEPTH
    decreases v, |v.arr| - k
  {
    if k < |v.arr| {
      FitsIff(v.arr[k], depth);
      ArrFits(v, depth, k + 1);
      hide Fits, Depth;
    }
  }

  lemma {:induction false} PairsFits(v: Value, depth: nat, k: nat)
    requires v.VTable? && k <= |v.pairs| && 0 < depth <= MAX_DEPTH + 1
    ensures (forall j :: k <= j < |v.pairs| ==> Fits(v.pairs[j].key, depth) && Fits(v.pairs[j].value, depth)) <==>
            depth - 1 + PairsDepth(v, k) <= MAX_DEPTH
    decreases v, |v.pairs| - k
  {
    if k < |v.pairs| {
      FitsIff(v.pairs[k].key, depth);
      FitsIff(v.pairs[k].value, depth);
      PairsFits(v, depth, k + 1);
      hide Fits, Depth;
    }
  }

  // ------------------------------------------------------------ the reader

  class ReadBlock {
    const buffer: seq<Byte>
    var len: nat
    var ptr: nat

    ghost predicate Valid()
      reads this
    {
      ptr + len == |buffer|
    }

    ghost function Rest(): seq<Byte>
      reads this
      requires Valid()
    {
      buffer[ptr..]
    }

    constructor (buffer: seq<Byte>)
      ensures Valid() && Rest() == buffer
    {
      this.buffer := buffer;
      len, ptr := |buffer|, 0;
    }

    method Read(sz: nat) returns (r: Option<seq<Byte>>)
      requires Valid()
      modifies this
      ensures Valid() && Same(Take(old(Rest()), sz), r)
      ensures len <= old(len)
    {
      if len < sz {
        return None;
      }
      var at := ptr;
      ptr := ptr + sz;
      len := len - sz;
      assert buffer[at..][..sz] == buffer[at..at + sz] && buffer[at..][sz..] == buffer[ptr..];
      r := Some(buffer[at..at + sz]);
    }

    // An answer and the cursor agree with the format; an error leaves the
    // cursor wherever it is.
    ghost predicate Same<T>(spec: Result<T>, r: Option<T>)
      reads this
      requires Valid()
    {
      if r.Some? then spec == Ok(r.value, Rest()) else spec.Invalid?
    }

    method GetInteger(cookie: nat) returns (r: Option<int>)
      requires Valid()
      modifies this
      ensures Valid() && Same(DecInt(cookie, old(Rest())), r)
      ensures len <= old(len)
    {
      hide Le, FromLe, Power;
      var width := 0;
      match cookie {
        case 0 => return Some(0);
        case 1 => width := 1;
        case 2 => width := 2;
        case 4 => width := 4;
        case 6 => width := 8;
        case _ => return None;
      }
      var b := Read(width);
      if b.None? {
        return None;
      }
      var x := FromLe(b.value);
      r := Some(if width <= 2 then x else Signed(x, width));
    }

    method GetBuffer(n: nat) returns (r: Option<Value>)
      requires Valid()
      modifies this
      ensures Valid() && Same(DecBuffer(n, old(Rest())), r)
      ensures len <= old(len)
    {
      var b := Read(n);
      r := if b.Some? then Some(VStr(b.value)) else None;
    }

    // The number of elements in the array part.
    method GetSize(cookie: nat) returns (r: Option<int>)
      requires Valid()
      modifies this
      ensures Valid() && Same(DecSize(cookie, old(Rest())), r)
      ensures len <= old(len)
    {
      hide DecInt, Truncated;
      if cookie != MAX_COOKIE - 1 {
        return Some(cookie);
      }
      var t := Read(1);
      if t.None? {
        return None;
      }
      var kind: int := t.value[0];
      if kind % 8 != 2 || kind / 8 == 8 {
        return None;
      }
      var n := GetInteger(kind / 8);
      r := if n.Some? then Some(Truncated(n.value)) else None;
    }

    // The array part.
    method UnpackArray(n: int) returns (r: Option<seq<Value>>)
      requires Valid()
      modifies this
      ensures Valid() && Same(DecArr(if n < 0 then 0 else n, old(Rest())), r)
      ensures len <= old(len)
      decreases len, 1
    {
      hide DecOne;
      var arr: seq<Value> := [];
      var i := 0;
      PrependNone(DecArr(if n < 0 then 0 else n, Rest()));
      while i < n
        invariant Valid() && len <= old(len) && (0 <= i <= n || i == 0 > n)
        invariant DecArr(if n < 0 then 0 else n, old(Rest())) == Prepend(arr, DecArr(if n < i then 0 else n - i, Rest()))
      {
        var v := UnpackOne();
        if v.None? {
          return None;
        }
        PrependTwice(arr, v.value, DecArr(n - i - 1, Rest()));
        arr := arr + [v.value];
        i := i + 1;
      }
      assert arr + [] == arr;
      r := Some(arr);
    }

    // The pairs, up to the nil that ends them.
    method UnpackPairs() returns (r: Option<seq<Pair>>)
      requires Valid()
      modifies this
      ensures Valid() && Same(DecPairs(old(Rest())), r)
      ensures len <= old(len)
      decreases len, 1
    {
      hide DecOne;
      var pairs: seq<Pair> := [];
      PrependNone(DecPairs(Rest()));
      while true
        invariant Valid() && len <= old(len)
        invariant DecPairs(old(Rest())) == Prepend(pairs, DecPairs(Rest()))
        decreases len
      {
        var key := UnpackOne();
        if key.None? {
          return None;
        }
        if key.value.VNil? {
          assert pairs + [] == pairs;
          return Some(pairs);
        }
        var value := UnpackOne();
        if value.None? {
          return None;
        }
        PrependTwice(pairs, Pair(key.value, value.value), DecPairs(Rest()));
        pairs := pairs + [Pair(key.value, value.value)];
      }
    }

    method UnpackTable(cookie: nat) returns (r: Option<Value>)
      requires Valid()
      modifies this
      ensures Valid() && Same(DecValue(6, cookie, old(Rest())), r)
      ensures len <= old(len)
      decreases len, 2
    {
      hide DecOne, DecSize, DecInt, DecArr, DecPairs;
      var size := GetSize(cookie);
      if size.None? {
        return None;
      }
      var arr := UnpackArray(size.value);
      if arr.None? {
        return None;
      }
      var pairs := UnpackPairs();
      if pairs.None? {
        return None;
      }
      r := Some(VTable(arr.value, pairs.value));
    }

    method PushValue(t: nat, cookie: nat) returns (r: Option<Value>)
      requires Valid()
      modifies this
      ensures Valid() && Same(DecValue(t, cookie, old(Rest())), r)
      ensures len <= old(len)
      decreases len, 3
    {
      hide DecOne, DecSize, DecInt, DecTable, FromLe;
      if t == 0 {
        return Some(VNil);
      } else if t == 1 {
        return Some(VBool(cookie != 0));
      } else if t == 2 && cookie == 8 {
        var b := Read(8);
        return if b.Some? then Some(VReal(b.value)) else None;
      } else if t == 2 {
        var i := GetInteger(cookie);
        return if i.Some? then Some(VInt(i.value)) else None;
      } else if t == 3 {
        var b := Read(8);
        return if b.Some? then Some(VUser(b.value)) else None;
      } else if t == 4 {
        r := GetBuffer(cookie);
      } else if t == 5 {
        if cookie != 2 && cookie != 4 {
          return None;
        }
        var b := Read(cookie);
        if b.None? {
          return None;
        }
        r := GetBuffer(FromLe(b.value));
      } else if t == 6 {
        r := UnpackTable(cookie);
      } else {
        r := None;
      }
    }

    method UnpackOne() returns (r: Option<Value>)
      requires Valid()
      modifies this
      ensures Valid() && Same(DecOne(old(Rest())), r)
      ensures len <= old(len) && (r.Some? ==> len < old(len))
      decreases len, 0
    {
      hide DecValue;
      var t := Read(1);
      if t.None? {
        return None;
      }
      var kind: int := t.value[0];
      r := PushValue(kind % 8, kind / 8);
    }
  }

  ghost function Prepend<T>(a: seq<T>, r: Result<seq<T>>): Result<seq<T>> {
    if r.Ok? then Ok(a + r.value, r.rest) else Invalid
  }

  lemma PrependNone<T>(r: Result<seq<T>>)
    ensures Prepend([], r) == r
  {
    if r.Ok? { assert [] + r.value == r.value; }
  }

  lemma PrependTwice<T>(a: seq<T>, x: T, r: Result<seq<T>>)
    ensures Prepend(a, Prepend([x], r)) == Prepend(a + [x], r)
  {
    if r.Ok? { assert a + ([x] + r.value) == a + [x] + r.value; }
  }

  // ------------------------------------------------------------ the library's functions

  // Packs a list of values, unless one of them is too deep.
  method Pack(vs: seq<Value>) returns (r: Option<seq<Byte>>)
    ensures r.Some? <==> forall k :: 0 <= k < |vs| ==> Depth(vs[k]) <= MAX_DEPTH
    ensures r.Some? ==> r.value == EncAll(vs)
  {
    hide Depth, Fits, Enc;
    var wb := new WriteBlock();
    for i := 0 to |vs|
      invariant wb.Valid() && fresh(wb) && fresh(wb.repr)
      invariant wb.bytes + EncAll(vs[i..]) == EncAll(vs)
      invariant forall k :: 0 <= k < i ==> Depth(vs[k]) <= MAX_DEPTH
    {
      ghost var was := wb.bytes;
      FitsIff(vs[i], 0);
      var ok := wb.PackOne(vs[i], 0);
      if !ok {
        return None;
      }
      assert was + EncAll(vs[i..]) == wb.bytes + EncAll(vs[i + 1..]);
    }
    var buffer := wb.Join();
    r := Some(buffer[..]);
  }

  method Unpack(buffer: seq<Byte>) returns (r: Option<seq<Value>>)
    ensures r == match DecAll(buffer) case Ok(vs, _) => Some(vs) case Invalid => None
  {
    hide DecValue;
    if |buffer| == 0 {
      return Some([]);
    }
    var rb := new ReadBlock(buffer);
    var vs: seq<Value> := [];
    PrependNone(DecAll(buffer));
    while true
      invariant rb.Valid() && fresh(rb)
      invariant DecAll(buffer) == Prepend(vs, DecAll(rb.Rest()))
      decreases rb.len
    {
      var t := rb.Read(1);
      if t.None? {
        assert vs + [] == vs;
        return Some(vs);
      }
      var kind: int := t.value[0];
      var v := rb.PushValue(kind % 8, kind / 8);
      if v.None? {
        return None;
      }
      PrependTwice(vs, v.value, DecAll(rb.Rest()));
      vs := vs + [v.value];
    }
  }

  // What another service unpacks is what was packed.
  method Transfer(vs: seq<Value>) returns (r: Option<seq<Value>>)
    requires forall k :: 0 <= k < |vs| ==> Sound(vs[k])
    ensures r == if forall k :: 0 <= k < |vs| ==> Depth(vs[k]) <= MAX_DEPTH then Some(vs) else None
  {
    var buffer := Pack(vs);
    if buffer.None? {
      return None;
    }
    r := Unpack(buffer.value);
    RoundTripAll(vs);
  }
}
