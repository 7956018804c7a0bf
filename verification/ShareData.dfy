// The index of shared data: a hash table of exactly the size it needs, filled in two
// passes and then only read.

module ShareData {

  type Byte = x: int | 0 <= x < 256

  datatype Option<+T> = Some(value: T) | None

  // A table may be a key as well; a key of another type is an error.
  datatype LuaKey = IntKey(i: int) | StrKey(s: seq<Byte>) | TableKey(id: int) | OtherKey

  // Numbers pass through as bits, and a table as the one that was made of it.
  datatype Value = Nil | Real(bits: seq<Byte>) | Integer(i: int) | Text(s: seq<Byte>) | Boolean(b: bool) | Sub(id: int)

  datatype Entry = Entry(key: LuaKey, value: Value)

  // A key in the index: an int of C or a string.
  datatype Key = Num(i: int) | Str(s: seq<Byte>)

  datatype Node = Node(key: Key, keyhash: nat, value: Value, next: int, nocolliding: bool)

  function Truncated(i: int): int {
    var x := i % 0x1_0000_0000;
    if x >= 0x8000_0000 then x - 0x1_0000_0000 else x
  }

  // A table has no string, which reads as the empty one.
  function Conv(k: LuaKey): Key {
    match k
    case IntKey(i) => Num(Truncated(i))
    case StrKey(s) => Str(s)
    case _ => Str([])
  }

  predicate InArray(k: Key, size: nat) { k.Num? && 0 < k.i <= size }

  // The keys that are counted for a node.
  predicate Counted(k: LuaKey, size: nat) { !(k.IntKey? && 0 < k.i <= size) }

  // No two keys are one key in the index, and no counted key falls into the array.
  predicate Separate(src: seq<Entry>, size: nat) {
    (forall i, j :: 0 <= i < j < |src| ==> Conv(src[i].key) != Conv(src[j].key)) &&
    (forall j :: 0 <= j < |src| && Counted(src[j].key, size) ==> !InArray(Conv(src[j].key), size))
  }

  // What a Lua table visits: each key once, and no nil.
  predicate Visited(src: seq<Entry>) {
    (forall i, j :: 0 <= i < j < |src| ==> src[i].key != src[j].key) &&
    (forall j :: 0 <= j < |src| ==> !src[j].value.Nil?)
  }

  predicate Narrow(k: LuaKey) { k.StrKey? || (k.IntKey? && -0x8000_0000 <= k.i < 0x8000_0000) }

  // 32-bit integers and strings are kept apart.
  lemma NarrowSeparate(src: seq<Entry>, size: nat)
    requires Visited(src) && forall j :: 0 <= j < |src| ==> Narrow(src[j].key)
    ensures Separate(src, size)
  {
    forall i, j | 0 <= i < j < |src| ensures Conv(src[i].key) != Conv(src[j].key) {
      NarrowConv(src[i].key, src[j].key);
    }
  }

  lemma NarrowConv(a: LuaKey, b: LuaKey)
    requires Narrow(a) && Narrow(b)
    ensures Conv(a) == Conv(b) <==> a == b
  {
  }

  // ------------------------------------------------------------ the hash

  function HashFrom(h: bv32, s: seq<Byte>, l1: nat, step: nat): bv32
    requires l1 <= |s| && step > 0
    decreases l1
  {
    if l1 < step then h else HashFrom(h ^ ((h << 5) + (h >> 2) + (s[l1 - 1] as bv32)), s, l1 - step, step)
  }

  function CalcHash(s: seq<Byte>): nat {
    HashFrom((|s| % 0x1_0000_0000) as bv32, s, |s|, |s| / 32 + 1) as nat
  }

  function KeyHash(k: Key): nat {
    match k case Num(i) => i % 0x1_0000_0000 case Str(s) => CalcHash(s)
  }

  function Main(keyhash: nat, n: nat): (r: nat)
    requires n > 0
    ensures r < n
  {
    keyhash % n
  }

  function Home(k: Key, n: nat): (r: nat)
    requires n > 0
    ensures r < n
  {
    Main(KeyHash(k), n)
  }

  // ------------------------------------------------------------ the table of nodes

  ghost function After(c: seq<nat>, t: nat): int
    requires t < |c|
  {
    if t + 1 < |c| then c[t + 1] else -1
  }

  // The nodes; which entry each holds, if any; the chain of each main position; and
  // the entries that have a node.
  datatype Index = Index(size: nat, src: seq<Entry>, h: seq<Node>, owner: seq<int>, chains: seq<seq<nat>>, placed: set<int>)
  {
    ghost predicate Sized() { |h| > 0 && |owner| == |h| == |chains| && forall j :: 0 <= j < |src| ==> !src[j].value.Nil? }

    ghost predicate Taken(s: int)
      requires Sized()
    {
      0 <= s < |h| && owner[s] >= 0
    }

    ghost predicate Slot(s: nat)
      requires Sized() && s < |h|
    {
      if owner[s] < 0 then h[s].value.Nil? && h[s].next == -1 && !h[s].nocolliding
      else Holding(h[s], owner[s]) && s in chains[Main(h[s].keyhash, |h|)]
    }

    ghost predicate Holding(n: Node, j: int) {
      0 <= j < |src| && n.value == src[j].value && n.key == Conv(src[j].key) && !InArray(n.key, size) && n.keyhash == KeyHash(n.key)
    }

    // The main position is the first of its chain.
    ghost predicate Chain(m: nat, c: seq<nat>)
      requires Sized()
    {
      (c != [] ==> c[0] == m) &&
      (forall t :: 0 <= t < |c| ==> Link(m, c, t))
    }

    ghost predicate Link(m: nat, c: seq<nat>, t: nat)
      requires Sized() && t < |c|
    {
      Taken(c[t]) && Main(h[c[t]].keyhash, |h|) == m && h[c[t]].next == After(c, t) && (t > 0 ==> c[t] != m)
    }

    ghost predicate Shaped() {
      Sized() &&
      (forall s :: 0 <= s < |h| ==> Slot(s)) &&
      (forall s, z :: 0 <= s < z < |h| && owner[s] >= 0 ==> owner[s] != owner[z]) &&
      (forall m :: 0 <= m < |h| ==> Chain(m, chains[m])) &&
      (forall s :: 0 <= s < |h| && h[s].nocolliding ==> chains[s] == [s])
    }

    ghost predicate HasKey(k: Key)
      requires Sized()
    {
      exists s :: Taken(s) && h[s].key == k
    }
  }

  predicate Hit(n: Node, key: Key, keyhash: nat) { n.keyhash == keyhash && n.key == key }

  // ------------------------------------------------------------ looking up

  // What the loop of a lookup walks along.
  ghost predicate Linked(x: Index, c: seq<nat>) {
    forall t :: 0 <= t < |c| ==> c[t] < |x.h| && x.h[c[t]].next == After(c, t)
  }

  lemma Suffix(x: Index, m: nat, c: seq<nat>, t0: nat)
    requires x.Sized() && x.Chain(m, c) && t0 <= |c|
    ensures Linked(x, c[t0..]) && forall s :: s in c[t0..] ==> x.Taken(s)
  {
    hide Main;
    var d := c[t0..];
    forall t | 0 <= t < |d| ensures x.Taken(d[t]) && x.h[d[t]].next == After(d, t) {
      assert x.Link(m, c, t0 + t);
      assert d[t] == c[t0 + t] && After(c, t0 + t) == After(d, t);
    }
  }

  lemma Head(x: Index, m: nat, c: seq<nat>)
    requires x.Sized() && x.Chain(m, c)
    ensures c != [] ==> c[0] == m && x.Taken(m) && Main(x.h[m].keyhash, |x.h|) == m
  {
    if c != [] {
      assert x.Link(m, c, 0);
    }
  }

  // From any slot p a rest of a chain is walked; it is all of the chain of p if there is one.
  lemma Walk(x: Index, p: nat) returns (c: seq<nat>)
    requires x.Shaped() && p < |x.h|
    ensures x.Sized() && Linked(x, c) && c != [] && c[0] == p
    ensures forall s :: s in x.chains[p] ==> s in c
    ensures if x.Taken(p) then forall s :: s in c ==> x.Taken(s) else x.chains[p] == []
  {
    hide Main;
    assert x.Slot(p) && x.Chain(p, x.chains[p]);
    if x.owner[p] < 0 {
      c := [p];
      Head(x, p, x.chains[p]);
    } else {
      var m := Main(x.h[p].keyhash, |x.h|);
      var t0 :| 0 <= t0 < |x.chains[m]| && x.chains[m][t0] == p;
      c := x.chains[m][t0..];
      assert x.Chain(m, x.chains[m]) && x.Link(m, x.chains[m], t0);
      Suffix(x, m, x.chains[m], t0);
      if x.chains[p] != [] {
        assert x.Link(p, x.chains[p], 0);
        assert t0 == 0;
      }
    }
  }

  lemma Next(x: Index, c: seq<nat>, t: nat)
    requires Linked(x, c) && t < |c|
    ensures c[t] < |x.h| && if x.h[c[t]].next < 0 then t + 1 == |c| else t + 1 < |c| && c[t + 1] == x.h[c[t]].next < |x.h|
  {
    if t + 1 < |c| {
      assert c[t + 1] < |x.h|;
    }
  }

  ghost predicate NoHit(x: Index, c: seq<nat>, n: nat, key: Key) {
    n <= |c| && forall u :: 0 <= u < n ==> c[u] < |x.h| && !Hit(x.h[c[u]], key, KeyHash(key))
  }

  // A key that the walk does not hit is nowhere.
  lemma Missed(x: Index, c: seq<nat>, key: Key)
    requires x.Shaped() && NoHit(x, c, |c|, key)
    requires forall s :: s in x.chains[Home(key, |x.h|)] ==> s in c
    ensures !x.HasKey(key)
  {
    hide Main, KeyHash, Index.Chain;
    forall s | x.Taken(s) ensures x.h[s].key != key {
      assert x.Slot(s);
      if s in c {
        var u :| 0 <= u < |c| && c[u] == s;
        assert !Hit(x.h[c[u]], key, KeyHash(key));
      }
    }
  }

  lemma Alone(x: Index, key: Key)
    requires x.Shaped() && var p := Home(key, |x.h|); x.h[p].nocolliding && x.h[p].keyhash != KeyHash(key)
    ensures !x.HasKey(key)
  {
    hide Main, KeyHash, Index.Chain;
    Missed(x, [Home(key, |x.h|)], key);
  }

  // ------------------------------------------------------------ one key more

  function Hashed(e: Entry, next: int, alone: bool): Node {
    Node(Conv(e.key), KeyHash(Conv(e.key)), e.value, next, alone)
  }

  ghost function HomeOf(x: Index, j: nat): (r: nat)
    requires |x.h| > 0 && j < |x.src|
    ensures r < |x.h|
  {
    Home(Conv(x.src[j].key), |x.h|)
  }

  // The first key of a main position takes it.
  ghost function First(x: Index, j: nat): Index
    requires x.Sized() && j < |x.src|
  {
    var n := HomeOf(x, j);
    x.(h := x.h[n := Hashed(x.src[j], -1, true)], owner := x.owner[n := j], chains := x.chains[n := [n]], placed := x.placed + {j})
  }

  // A later one takes a free slot, second in the chain.
  ghost function Later(x: Index, n: nat, j: nat): Index
    requires x.Sized() && j < |x.src| && n < |x.h| && x.chains[HomeOf(x, j)] != []
  {
    var m := HomeOf(x, j);
    x.(h := x.h[n := Hashed(x.src[j], x.h[m].next, false)][m := x.h[m].(next := n, nocolliding := false)],
       owner := x.owner[n := j], chains := x.chains[m := [m, n] + x.chains[m][1..]], placed := x.placed + {j})
  }

  // Slots that a chain does not visit may change.
  lemma ChainKept(x: Index, y: Index, m: nat, c: seq<nat>)
    requires x.Sized() && y.Sized() && |x.h| == |y.h| && x.Chain(m, c)
    requires forall s :: 0 <= s < |x.h| && s in c ==> y.h[s] == x.h[s] && y.owner[s] == x.owner[s]
    ensures y.Chain(m, c)
  {
    hide Main;
    forall t | 0 <= t < |c| ensures y.Link(m, c, t) {
      assert x.Link(m, c, t) && c[t] in c;
    }
  }

  lemma Unvisited(x: Index, m: nat, c: seq<nat>, n: nat, s: nat)
    requires x.Sized() && x.Chain(m, c) && s < |x.h| && n < |x.h|
    requires x.owner[n] < 0 && (x.owner[s] >= 0 ==> Main(x.h[s].keyhash, |x.h|) != m)
    ensures n !in c && s !in c
  {
    hide Main;
    forall t | 0 <= t < |c| ensures c[t] != n && c[t] != s {
      assert x.Link(m, c, t);
    }
  }

  lemma FirstShaped(x: Index, j: nat)
    requires x.Shaped() && j < |x.src| && j !in x.owner && !InArray(Conv(x.src[j].key), x.size)
    requires !x.Taken(Home(Conv(x.src[j].key), |x.h|))
    ensures First(x, j).Shaped()
  {
    hide Main, KeyHash, Conv, InArray, Index.Chain;
    var y, n := First(x, j), Home(Conv(x.src[j].key), |x.h|);
    Head(x, n, x.chains[n]);
    forall m | 0 <= m < |x.h| ensures y.Chain(m, y.chains[m]) {
      if m == n {
        Single(y, n);
      } else {
        Unvisited(x, m, x.chains[m], n, n);
        ChainKept(x, y, m, x.chains[m]);
      }
    }
    forall s | 0 <= s < |x.h| ensures y.Slot(s) {
      assert x.Slot(s);
    }
  }

  lemma Single(x: Index, m: nat)
    requires x.Sized() && x.Taken(m) && Main(x.h[m].keyhash, |x.h|) == m && x.h[m].next == -1
    ensures x.Chain(m, [m])
  {
    hide Main;
    assert x.Link(m, [m], 0);
  }

  lemma Grown(x: Index, n: nat, j: nat)
    requires x.Sized() && j < |x.src| && n < |x.h| && x.owner[n] < 0
    requires var m := Home(Conv(x.src[j].key), |x.h|); x.chains[m] != [] && x.Chain(m, x.chains[m])
    ensures var m := Home(Conv(x.src[j].key), |x.h|); m != n && Later(x, n, j).Chain(m, Later(x, n, j).chains[m])
  {
    hide Main, KeyHash, Conv;
    var y, m := Later(x, n, j), Home(Conv(x.src[j].key), |x.h|);
    var c, d := x.chains[m], y.chains[m];
    assert x.Link(m, c, 0);
    forall t | 0 <= t < |d| ensures y.Link(m, d, t) {
      if t > 1 {
        assert x.Link(m, c, t - 1) && d[t] == c[t - 1] && After(d, t) == After(c, t - 1);
      } else {
        assert After(d, 0) == n && After(d, 1) == After(c, 0);
      }
    }
  }

  lemma LaterShaped(x: Index, n: nat, j: nat)
    requires x.Shaped() && j < |x.src| && j !in x.owner && !InArray(Conv(x.src[j].key), x.size)
    requires n < |x.h| && x.owner[n] < 0 && x.chains[Home(Conv(x.src[j].key), |x.h|)] != []
    ensures Later(x, n, j).Shaped()
  {
    hide Main, KeyHash, Conv, InArray, Index.Chain;
    var y, m := Later(x, n, j), Home(Conv(x.src[j].key), |x.h|);
    Grown(x, n, j);
    Head(x, m, x.chains[m]);
    forall k | 0 <= k < |x.h| ensures y.Chain(k, y.chains[k]) {
      if k != m {
        Unvisited(x, k, x.chains[k], n, m);
        ChainKept(x, y, k, x.chains[k]);
      }
    }
    assert x.chains[m] == [m] + x.chains[m][1..];
    forall s | 0 <= s < |x.h| ensures y.Slot(s) {
      assert x.Slot(s);
    }
  }

  // ------------------------------------------------------------ counting

  // The entries that get a node, and those that are counted for one.
  ghost function NodesOf(src: seq<Entry>, size: nat): (r: set<int>)
    ensures forall j :: j in r ==> 0 <= j < |src|
  {
    set j | 0 <= j < |src| && !InArray(Conv(src[j].key), size)
  }

  ghost function CountedOf(src: seq<Entry>, size: nat, n: int): set<int> {
    set j | 0 <= j < n && j < |src| && Counted(src[j].key, size)
  }

  ghost function Filled(owner: seq<int>): set<int> { set s | 0 <= s < |owner| && owner[s] >= 0 }

  // The entries placed are as many as the slots taken.
  ghost predicate Progress(x: Index) {
    var nodes := NodesOf(x.src, x.size);
    x.placed <= nodes && |x.placed| == |Filled(x.owner)| && |nodes| <= |x.owner| &&
    (forall s :: 0 <= s < |x.owner| && x.owner[s] >= 0 ==> x.owner[s] in x.placed) &&
    forall j :: j in x.placed ==> j in x.owner
  }

  lemma ProgressMade(x: Index, y: Index, s: nat, j: nat)
    requires Progress(x) && s < |x.owner| && x.owner[s] < 0 && j in NodesOf(x.src, x.size) && j !in x.placed
    requires y.src == x.src && y.size == x.size && y.owner == x.owner[s := j] && y.placed == x.placed + {j}
    ensures Progress(y)
  {
    FilledMore(x.owner, s, j);
    hide NodesOf, Filled;
    forall i | i in y.placed ensures i in y.owner {
      if i == j {
        assert y.owner[s] == j;
      } else {
        var z :| 0 <= z < |x.owner| && x.owner[z] == i;
        assert y.owner[z] == i;
      }
    }
  }

  lemma FilledMore(owner: seq<int>, s: nat, j: nat)
    requires s < |owner| && owner[s] < 0
    ensures |Filled(owner[s := j])| == |Filled(owner)| + 1
  {
    assert Filled(owner[s := j]) == Filled(owner) + {s};
  }

  ghost function Upto(n: nat): (r: set<int>)
    ensures |r| == n && forall s :: s in r <==> 0 <= s < n
  {
    if n == 0 then {} else Upto(n - 1) + {n - 1}
  }

  lemma Subset(a: set<int>, b: set<int>)
    requires a <= b
    ensures |a| <= |b| && (|a| == |b| ==> a == b)
  {
    assert b == a + (b - a);
  }

  // While an entry is not placed there is a free slot.
  lemma FreeSlot(x: Index, j: int)
    requires Progress(x) && j in NodesOf(x.src, x.size) && j !in x.placed
    ensures exists s :: 0 <= s < |x.owner| && x.owner[s] < 0
  {
    Subset(x.placed, NodesOf(x.src, x.size));
    Subset(Filled(x.owner), Upto(|x.owner|));
    assert Filled(x.owner) != Upto(|x.owner|);
    var s :| s in Upto(|x.owner|) && s !in Filled(x.owner);
  }

  // When as many entries are placed as there are slots, every slot is taken.
  lemma NoFreeSlot(x: Index)
    requires Progress(x) && x.placed == NodesOf(x.src, x.size) && |x.placed| == |x.owner|
    ensures forall s :: 0 <= s < |x.owner| ==> x.owner[s] >= 0
  {
    Subset(Filled(x.owner), Upto(|x.owner|));
    forall s | 0 <= s < |x.owner| ensures x.owner[s] >= 0 {
      assert s in Filled(x.owner);
    }
  }

  // What goes to the array by its own value is not counted.
  lemma NodesCounted(src: seq<Entry>, size: nat)
    requires size < 0x8000_0000
    ensures NodesOf(src, size) <= CountedOf(src, size, |src|) && |NodesOf(src, size)| <= |CountedOf(src, size, |src|)|
  {
    Subset(NodesOf(src, size), CountedOf(src, size, |src|));
  }

  // No counted key falls into the array.
  predicate NoneFalls(src: seq<Entry>, size: nat) {
    forall j :: 0 <= j < |src| && Counted(src[j].key, size) ==> !InArray(Conv(src[j].key), size)
  }

  // As many nodes as were counted are needed if and only if no counted key falls into
  // the array.
  lemma NodesCountedIff(src: seq<Entry>, size: nat)
    requires size < 0x8000_0000
    ensures |NodesOf(src, size)| == |CountedOf(src, size, |src|)| <==> NoneFalls(src, size)
    ensures NodesOf(src, size) == CountedOf(src, size, |src|) <==> NoneFalls(src, size)
  {
    NodesCounted(src, size);
    Subset(NodesOf(src, size), CountedOf(src, size, |src|));
    hide Conv, InArray, Counted;
    if NodesOf(src, size) == CountedOf(src, size, |src|) {
      forall j | 0 <= j < |src| && Counted(src[j].key, size) ensures !InArray(Conv(src[j].key), size) {
        assert j in CountedOf(src, size, |src|);
      }
    }
    if NoneFalls(src, size) {
      forall j | j in CountedOf(src, size, |src|) ensures j in NodesOf(src, size) {
      }
      assert NodesOf(src, size) == CountedOf(src, size, |src|);
    }
  }

  // Keys are kept apart if and only if the counted ones are, and none falls.
  lemma SeparateIff(src: seq<Entry>, size: nat)
    requires Visited(src) && size < 0x8000_0000
    ensures Separate(src, size) <==>
      NoneFalls(src, size) &&
      forall i, j :: 0 <= i < j < |src| && Counted(src[i].key, size) && Counted(src[j].key, size) ==> Conv(src[i].key) != Conv(src[j].key)
  {
    forall i | 0 <= i < |src| && !Counted(src[i].key, size) ensures Conv(src[i].key) == Num(src[i].key.i) && InArray(Conv(src[i].key), size) {
    }
    hide Conv, InArray;
  }

  // The size of the hash part; a key of another type is refused.
  method CountSize(src: seq<Entry>, size: nat) returns (r: Option<nat>)
    ensures r.None? <==> exists j :: 0 <= j < |src| && src[j].key.OtherKey?
    ensures r.Some? ==> r.value == |CountedOf(src, size, |src|)|
  {
    var n := 0;
    for i := 0 to |src|
      invariant forall j :: 0 <= j < i ==> !src[j].key.OtherKey?
      invariant n == |CountedOf(src, size, i)|
    {
      if src[i].key.OtherKey? {
        return None;
      }
      assert CountedOf(src, size, i + 1) == CountedOf(src, size, i) + if Counted(src[i].key, size) then {i} else {};
      n := n + 1;
      if src[i].key.IntKey? && 0 < src[i].key.i <= size {
        n := n - 1;
      }
    }
    r := Some(n);
  }

  // ------------------------------------------------------------ the passes

  ghost predicate Filling(x: Index) { x.Shaped() && Progress(x) }

  // The first pass has come to entry i.
  ghost predicate FirstPass(x: Index, i: nat) {
    i <= |x.src| && x.Sized() && Filling(x) &&
    (forall s :: 0 <= s < |x.h| && x.owner[s] >= 0 ==> x.chains[s] == [s]) &&
    (forall j :: j in x.placed ==> 0 <= j < i && x.owner[HomeOf(x, j)] == j) &&
    (forall j :: j in NodesOf(x.src, x.size) && j < i ==> x.owner[HomeOf(x, j)] >= 0)
  }

  // The second pass has come to entry i.
  ghost predicate SecondPass(x: Index, i: nat) {
    i <= |x.src| && x.Sized() && Filling(x) &&
    (forall j :: j in NodesOf(x.src, x.size) ==> x.chains[HomeOf(x, j)] != []) &&
    (forall j :: j in x.placed ==> 0 <= j < |x.src| && (j < i || x.owner[HomeOf(x, j)] == j)) &&
    (forall j :: j in NodesOf(x.src, x.size) && j < i ==> x.HasKey(Conv(x.src[j].key))) &&
    (Separate(x.src, x.size) ==> forall j :: j in NodesOf(x.src, x.size) && j < i ==> j in x.placed)
  }

  lemma FirstFills(x: Index, i: nat)
    requires x.Sized() && Filling(x) && i in NodesOf(x.src, x.size) && i !in x.placed && x.owner[HomeOf(x, i)] < 0
    ensures First(x, i).Sized() && Filling(First(x, i))
  {
    hide Index.Shaped, Conv, Home;
    FirstShaped(x, i);
    ProgressMade(x, First(x, i), HomeOf(x, i), i);
  }

  // The first pass places an entry whose main position is free.
  lemma FirstPlaces(x: Index, i: nat)
    requires FirstPass(x, i) && i in NodesOf(x.src, x.size) && x.owner[HomeOf(x, i)] < 0
    ensures FirstPass(First(x, i), i + 1)
  {
    hide Filling, NodesOf, Conv, Home, HomeOf, First, Index.Sized;
    FirstFills(x, i);
    FirstFields(x, i);
    var y := First(x, i);
    assert y.src == x.src && y.size == x.size;
    forall j | j in y.placed ensures 0 <= j < i + 1 && y.owner[HomeOf(y, j)] == j {
      assert j == i || j in x.placed;
    }
    forall j | j in NodesOf(y.src, y.size) && j < i + 1 ensures y.owner[HomeOf(y, j)] >= 0 {
      assert j == i || j < i;
    }
  }

  lemma FirstFields(x: Index, i: nat)
    requires x.Sized() && i < |x.src|
    ensures |x.h| == |x.owner| == |x.chains| > 0
    ensures var y := First(x, i);
      y.src == x.src && y.size == x.size && |y.h| == |x.h| && y.owner == x.owner[HomeOf(x, i) := i] && y.placed == x.placed + {i} &&
      y.chains == x.chains[HomeOf(x, i) := [HomeOf(x, i)]] && forall j :: 0 <= j < |x.src| ==> HomeOf(y, j) == HomeOf(x, j)
  {
    hide Conv, Home;
  }

  // Others it passes by.
  lemma FirstSkips(x: Index, i: nat)
    requires FirstPass(x, i) && i < |x.src| && (i in NodesOf(x.src, x.size) ==> x.owner[HomeOf(x, i)] >= 0)
    ensures FirstPass(x, i + 1)
  {
    hide Filling, NodesOf, Conv, Home;
  }

  lemma PassOver(x: Index)
    requires FirstPass(x, |x.src|)
    ensures SecondPass(x, 0)
  {
    hide Filling, NodesOf, Conv, Home;
  }

  lemma LaterFills(x: Index, n: nat, i: nat)
    requires x.Sized() && Filling(x) && i in NodesOf(x.src, x.size) && i !in x.placed && n < |x.h| && x.owner[n] < 0
    requires x.chains[HomeOf(x, i)] != []
    ensures Later(x, n, i).Sized() && Filling(Later(x, n, i)) && n != HomeOf(x, i)
  {
    hide Index.Shaped, Conv, Home;
    LaterShaped(x, n, i);
    Grows(x, n, i);
    ProgressMade(x, Later(x, n, i), n, i);
  }

  lemma Grows(x: Index, n: nat, i: nat)
    requires x.Shaped() && i < |x.src| && n < |x.h| && x.owner[n] < 0 && x.chains[HomeOf(x, i)] != []
    ensures n != HomeOf(x, i)
  {
    hide Conv, Main, KeyHash, Index.Chain;
    Head(x, HomeOf(x, i), x.chains[HomeOf(x, i)]);
  }

  // The second pass places a key that is not at its main position.
  lemma LaterPlaces(x: Index, n: nat, i: nat)
    requires SecondPass(x, i) && i in NodesOf(x.src, x.size) && i !in x.placed && n < |x.h| && x.owner[n] < 0
    ensures SecondPass(Later(x, n, i), i + 1)
  {
    hide Filling, NodesOf, Conv, Home, Separate, HomeOf, Later, Index.Sized, Index.HasKey;
    LaterFills(x, n, i);
    LaterFields(x, n, i);
    LaterHas(x, n, i);
    var y := Later(x, n, i);
    forall j | j in NodesOf(y.src, y.size) ensures y.chains[HomeOf(y, j)] != [] {
    }
    forall j | j in y.placed ensures 0 <= j < |x.src| && (j < i + 1 || y.owner[HomeOf(y, j)] == j) {
      assert j == i || j in x.placed;
    }
    forall j | j in NodesOf(y.src, y.size) && j < i + 1 ensures y.HasKey(Conv(y.src[j].key)) {
      assert j == i || j < i;
    }
  }

  lemma LaterFields(x: Index, n: nat, i: nat)
    requires x.Sized() && i < |x.src| && n < |x.h| && x.chains[HomeOf(x, i)] != []
    ensures |x.h| == |x.owner| == |x.chains| > 0
    ensures var y, m := Later(x, n, i), HomeOf(x, i);
      y.src == x.src && y.size == x.size && |y.h| == |x.h| && y.owner == x.owner[n := i] && y.placed == x.placed + {i} &&
      y.chains == x.chains[m := [m, n] + x.chains[m][1..]] && forall j :: 0 <= j < |x.src| ==> HomeOf(y, j) == HomeOf(x, j)
  {
    hide Conv, Home;
  }

  // Keys stay, and the new one is there.
  lemma LaterHas(x: Index, n: nat, i: nat)
    requires x.Sized() && n < |x.h| && x.owner[n] < 0 && i < |x.src| && x.chains[HomeOf(x, i)] != [] && n != HomeOf(x, i)
    requires Later(x, n, i).Sized()
    ensures Later(x, n, i).HasKey(Conv(x.src[i].key))
    ensures forall k :: x.HasKey(k) ==> Later(x, n, i).HasKey(k)
  {
    hide Conv, Home, KeyHash;
    var y := Later(x, n, i);
    assert y.Taken(n) && y.h[n].key == Conv(x.src[i].key);
    forall k | x.HasKey(k) ensures y.HasKey(k) {
      var s :| x.Taken(s) && x.h[s].key == k;
      assert y.Taken(s) && y.h[s].key == k;
    }
  }

  // A free slot is one without a value.
  lemma SlotFree(x: Index, n: nat)
    requires x.Shaped() && n < |x.h|
    ensures x.owner[n] < 0 <==> x.h[n].value.Nil?
  {
    assert x.Slot(n);
  }

  // ------------------------------------------------------------ the array part

  // Each place holds a value that an entry before 'n' has for it, if there is one.
  ghost predicate ItemsUpTo(items: seq<Value>, src: seq<Entry>, n: nat)
    requires n <= |src|
  {
    forall k :: 0 <= k < |items| ==> Item(items[k], src, n, Num(k + 1))
  }

  ghost predicate Item(v: Value, src: seq<Entry>, n: nat, key: Key)
    requires n <= |src|
  {
    if v.Nil? then forall j :: 0 <= j < n ==> Conv(src[j].key) != key
    else exists j :: 0 <= j < n && Conv(src[j].key) == key && src[j].value == v
  }

  lemma ItemsMore(items: seq<Value>, src: seq<Entry>, i: nat)
    requires i < |src| && ItemsUpTo(items, src, i) && !src[i].value.Nil?
    ensures var key := Conv(src[i].key);
      ItemsUpTo(if InArray(key, |items|) then items[key.i - 1 := src[i].value] else items, src, i + 1)
  {
    hide Conv;
    var key := Conv(src[i].key);
    var next := if InArray(key, |items|) then items[key.i - 1 := src[i].value] else items;
    forall k | 0 <= k < |items| ensures Item(next[k], src, i + 1, Num(k + 1)) {
      assert Item(items[k], src, i, Num(k + 1));
    }
  }

  // What the passes use at entry i.
  lemma FirstIs(x: Index, i: nat)
    requires FirstPass(x, i) && i < |x.src|
    ensures x.Shaped() && x.Sized() && !x.src[i].value.Nil?
    ensures var n := HomeOf(x, i); x.owner[n] < 0 <==> x.h[n].value.Nil?
    ensures i in NodesOf(x.src, x.size) <==> !InArray(Conv(x.src[i].key), x.size)
  {
    hide Conv, Home, InArray;
    SlotFree(x, HomeOf(x, i));
  }

  lemma SecondIs(x: Index, i: nat)
    requires SecondPass(x, i) && i < |x.src|
    ensures x.Shaped() && x.Sized() && Progress(x)
    ensures i in NodesOf(x.src, x.size) <==> !InArray(Conv(x.src[i].key), x.size)
  {
    hide Conv, Home, InArray;
  }

  lemma SecondSized(x: Index)
    requires SecondPass(x, 0)
    ensures x.Sized()
  {
  }

  // The main position tells whether a key has a node from the first pass.
  lemma NotPlaced(x: Index, i: nat)
    requires SecondPass(x, i) && i in NodesOf(x.src, x.size) && x.h[HomeOf(x, i)].key != Conv(x.src[i].key)
    ensures i !in x.placed && x.chains[HomeOf(x, i)] != []
    ensures forall n :: 0 <= n < |x.h| && x.owner[n] < 0 ==> n != HomeOf(x, i)
  {
    hide Conv, Home, InArray, NodesOf, Progress, Index.Chain, Separate;
    var n := HomeOf(x, i);
    assert x.Slot(n);
    Head(x, n, x.chains[n]);
  }

  lemma SecondSkips(x: Index, i: nat)
    requires SecondPass(x, i) && i < |x.src|
    requires i !in NodesOf(x.src, x.size) || x.h[HomeOf(x, i)].key == Conv(x.src[i].key)
    ensures SecondPass(x, i + 1)
  {
    hide Conv, Home, InArray, NodesOf, Filling, Separate, Index.HasKey;
    if i in NodesOf(x.src, x.size) {
      SameKey(x, i);
    }
  }

  lemma SameKey(x: Index, i: nat)
    requires Filling(x) && x.Sized() && i < |x.src| && x.h[HomeOf(x, i)].key == Conv(x.src[i].key) && x.chains[HomeOf(x, i)] != []
    ensures x.HasKey(Conv(x.src[i].key))
    ensures Separate(x.src, x.size) ==> i in x.placed
  {
    hide Conv, Home, InArray, Index.Chain, NodesOf;
    var n := HomeOf(x, i);
    Head(x, n, x.chains[n]);
    assert x.Slot(n) && x.Taken(n);
    var j := x.owner[n];
    if Separate(x.src, x.size) {
      assert Conv(x.src[j].key) == Conv(x.src[i].key);
      assert !(i < j) && !(j < i);
    }
  }

  // ------------------------------------------------------------ reading a finished index

  // What a Lua table has for a key.
  function Get(src: seq<Entry>, k: LuaKey): (v: Value)
    ensures forall j :: 0 <= j < |src| && Visited(src) && src[j].key == k ==> v == src[j].value
    ensures !v.Nil? ==> exists j :: 0 <= j < |src| && src[j].key == k && src[j].value == v
    decreases |src|
  {
    if src == [] then Nil
    else if src[|src| - 1].key == k then src[|src| - 1].value
    else
      var rest := src[..|src| - 1];
      assert Visited(src) ==> Visited(rest);
      assert forall j :: 0 <= j < |rest| ==> rest[j] == src[j];
      Get(rest, k)
  }

  // For 32-bit integer keys and strings a reading is right, except that of a wider
  // integer whose low half is a key.
  lemma ReadRight(src: seq<Entry>, q: LuaKey, v: Value)
    requires Visited(src) && (forall j :: 0 <= j < |src| ==> Narrow(src[j].key)) && (q.IntKey? || q.StrKey?)
    requires Item(v, src, |src|, Conv(q))
    ensures v == Get(src, q) <==> Narrow(q) || Get(src, IntKey(Truncated(q.i))).Nil?
  {
    var p := Lowered(q);
    LoweredIs(q);
    ItemIs(src, p, v);
    if !Narrow(q) {
      WideNil(src, q);
    }
    hide Conv, Truncated, Item, Narrow, Get, Visited;
  }

  function Lowered(q: LuaKey): LuaKey { if q.IntKey? then IntKey(Truncated(q.i)) else q }

  lemma LoweredIs(q: LuaKey)
    requires q.IntKey? || q.StrKey?
    ensures Conv(Lowered(q)) == Conv(q) && Narrow(Lowered(q)) && (Narrow(q) ==> Lowered(q) == q)
  {
  }

  lemma WideNil(src: seq<Entry>, q: LuaKey)
    requires (forall j :: 0 <= j < |src| ==> Narrow(src[j].key)) && !Narrow(q)
    ensures Get(src, q).Nil?
  {
  }

  lemma ItemIs(src: seq<Entry>, p: LuaKey, v: Value)
    requires Visited(src) && (forall j :: 0 <= j < |src| ==> Narrow(src[j].key)) && Narrow(p)
    requires Item(v, src, |src|, Conv(p))
    ensures v == Get(src, p)
  {
    forall j | 0 <= j < |src| ensures Conv(src[j].key) == Conv(p) <==> src[j].key == p {
      NarrowConv(src[j].key, p);
    }
    hide Conv, Get, Narrow;
  }

  // A wider integer key that falls into the array is counted for a node it does not get.
  lemma WideHole()
    ensures var src := [Entry(IntKey(1), Integer(10)), Entry(IntKey(0x1_0000_0001), Integer(20))];
      Visited(src) && !Separate(src, 1) && NodesOf(src, 1) == {} && |CountedOf(src, 1, 2)| == 1
  {
    var src := [Entry(IntKey(1), Integer(10)), Entry(IntKey(0x1_0000_0001), Integer(20))];
    assert CountedOf(src, 1, 2) == {1};
    assert Conv(src[0].key) == Conv(src[1].key) == Num(1);
  }

  // The order of a traversal: the array part from place i on, then all nodes.
  ghost function ArrayKeys(items: seq<Value>, i: nat): seq<Key>
    requires i <= |items|
    decreases |items| - i
  {
    if i == |items| then [] else (if items[i].Nil? then [] else [Num(i + 1)]) + ArrayKeys(items, i + 1)
  }

  ghost function HashKeys(h: seq<Node>): (r: seq<Key>)
    ensures |r| == |h| && forall s :: 0 <= s < |h| ==> r[s] == h[s].key
  {
    seq(|h|, s requires 0 <= s < |h| => h[s].key)
  }

  lemma {:induction false} ArrayPlace(items: seq<Value>, i: nat, t: nat)
    requires i <= |items| && t < |ArrayKeys(items, i)|
    ensures var k := ArrayKeys(items, i)[t];
      k.Num? && i < k.i <= |items| && !items[k.i - 1].Nil? && ArrayKeys(items, i)[t + 1..] == ArrayKeys(items, k.i)
    decreases |items| - i
  {
    if items[i].Nil? {
      ArrayPlace(items, i + 1, t);
    } else if t > 0 {
      ArrayPlace(items, i + 1, t - 1);
      assert ArrayKeys(items, i)[t + 1..] == ArrayKeys(items, i + 1)[t..];
    }
  }

  lemma {:induction false} ArrayHas(items: seq<Value>, i: nat, k: nat)
    requires i <= k < |items| && !items[k].Nil?
    ensures Num(k + 1) in ArrayKeys(items, i)
    decreases k - i
  {
    if i < k {
      ArrayHas(items, i + 1, k);
    }
  }

  lemma ArrayOnce(items: seq<Value>, t: nat, u: nat)
    requires t < u < |ArrayKeys(items, 0)|
    ensures ArrayKeys(items, 0)[t] != ArrayKeys(items, 0)[u]
  {
    ArrayPlace(items, 0, t);
    var k := ArrayKeys(items, 0)[t].i;
    assert ArrayKeys(items, 0)[u] == ArrayKeys(items, k)[u - t - 1];
    ArrayPlace(items, k, u - t - 1);
  }

  ghost function KeysOf(items: seq<Value>, h: seq<Node>): seq<Key> { ArrayKeys(items, 0) + HashKeys(h) }

  function FirstOf(ks: seq<Key>): Option<Key> { if ks == [] then None else Some(ks[0]) }

  // An index in which every node is used, by one key each.
  ghost predicate Full(x: Index) {
    |x.h| > 0 ==>
      x.Sized() && x.Shaped() &&
      (forall s :: 0 <= s < |x.h| ==> x.owner[s] >= 0) &&
      (forall s, z :: 0 <= s < z < |x.h| ==> x.h[s].key != x.h[z].key) &&
      (forall j :: j in NodesOf(x.src, x.size) ==> x.HasKey(Conv(x.src[j].key)))
  }

  // A finished index is full if and only if the keys were kept apart.
  lemma FullIff(x: Index)
    requires SecondPass(x, |x.src|) && x.size < 0x8000_0000 && |x.h| == |CountedOf(x.src, x.size, |x.src|)| && Visited(x.src)
    ensures Full(x) <==> Separate(x.src, x.size)
  {
    if Separate(x.src, x.size) {
      SeparateFull(x);
    }
    SecondSizes(x);
    if Full(x) {
      FullSeparate(x);
    }
    hide *;
  }

  lemma SecondSizes(x: Index)
    requires SecondPass(x, |x.src|)
    ensures |x.h| > 0
  {
  }

  lemma SeparateFull(x: Index)
    requires SecondPass(x, |x.src|) && x.size < 0x8000_0000 && |x.h| == |CountedOf(x.src, x.size, |x.src|)| && Visited(x.src)
    requires Separate(x.src, x.size)
    ensures Full(x)
  {
    SeparateIff(x.src, x.size);
    NodesCountedIff(x.src, x.size);
    AllPlaced(x);
    NoFreeSlot(x);
    KeysApart(x);
    hide Separate, Conv, Home, HomeOf, InArray, CountedOf, NodesOf, Index.HasKey, Index.Shaped, Visited, Counted, Progress, NoneFalls;
  }

  lemma FullSeparate(x: Index)
    requires SecondPass(x, |x.src|) && x.size < 0x8000_0000 && |x.h| == |CountedOf(x.src, x.size, |x.src|)| && Visited(x.src)
    requires Full(x) && |x.h| > 0
    ensures Separate(x.src, x.size)
  {
    FullPlaced(x);
    CountedApart(x);
    hide *;
    NodesCountedIff(x.src, x.size);
    SeparateIff(x.src, x.size);
  }

  lemma KeysApart(x: Index)
    requires SecondPass(x, |x.src|) && Separate(x.src, x.size) && forall s :: 0 <= s < |x.h| ==> x.owner[s] >= 0
    ensures forall s, z :: 0 <= s < z < |x.h| ==> x.h[s].key != x.h[z].key
  {
    hide Conv, Home, InArray, Index.Chain, NodesOf, Index.HasKey, Progress;
    forall s, z | 0 <= s < z < |x.h| ensures x.h[s].key != x.h[z].key {
      assert x.Slot(s) && x.Slot(z);
    }
  }

  // A full index has as many nodes as are needed.
  lemma FullPlaced(x: Index)
    requires SecondPass(x, |x.src|) && Full(x) && |x.h| == |CountedOf(x.src, x.size, |x.src|)| && x.size < 0x8000_0000
    ensures x.placed == NodesOf(x.src, x.size) && NodesOf(x.src, x.size) == CountedOf(x.src, x.size, |x.src|)
  {
    hide Separate, Conv, Home, HomeOf, InArray, Index.HasKey, Index.Shaped;
    NodesCounted(x.src, x.size);
    hide CountedOf, NodesOf;
    assert Filled(x.owner) == Upto(|x.owner|);
    Subset(x.placed, NodesOf(x.src, x.size));
    Subset(NodesOf(x.src, x.size), CountedOf(x.src, x.size, |x.src|));
  }

  lemma CountedApart(x: Index)
    requires SecondPass(x, |x.src|) && Full(x) && x.placed == CountedOf(x.src, x.size, |x.src|)
    ensures forall i, j :: 0 <= i < j < |x.src| && Counted(x.src[i].key, x.size) && Counted(x.src[j].key, x.size) ==>
      Conv(x.src[i].key) != Conv(x.src[j].key)
  {
    hide Conv, Home, HomeOf, InArray, Index.HasKey, Counted, NodesOf, Separate;
    forall i, j | 0 <= i < j < |x.src| && Counted(x.src[i].key, x.size) && Counted(x.src[j].key, x.size)
      ensures Conv(x.src[i].key) != Conv(x.src[j].key)
    {
      assert i in x.placed && j in x.placed;
      var s :| 0 <= s < |x.owner| && x.owner[s] == i;
      var z :| 0 <= z < |x.owner| && x.owner[z] == j;
      assert x.Slot(s) && x.Slot(z);
    }
  }

  lemma AllPlaced(x: Index)
    requires SecondPass(x, |x.src|) && Separate(x.src, x.size)
    ensures x.placed == NodesOf(x.src, x.size)
  {
    hide Separate, Conv, Home, HomeOf, InArray, Index.HasKey, Index.Shaped;
  }

  lemma NodeKeys(x: Index, s: nat, z: nat)
    requires Full(x) && s < |x.h| && z < |x.h|
    ensures x.Sized() && x.Taken(s) && x.owner[s] < |x.src|
    ensures !InArray(x.h[s].key, x.size) && x.h[s].key == Conv(x.src[x.owner[s]].key)
    ensures x.h[s].key == x.h[z].key <==> s == z
  {
    hide Conv, Home, InArray, Index.Chain, NodesOf, Index.HasKey;
    assert x.Slot(s) && x.Slot(z);
  }

  // What follows a key of the array part.
  lemma AfterItem(items: seq<Value>, x: Index, t: nat)
    requires |items| == x.size && Full(x) && t < |KeysOf(items, x.h)| && InArray(KeysOf(items, x.h)[t], x.size)
    ensures KeysOf(items, x.h)[t + 1..] == ArrayKeys(items, KeysOf(items, x.h)[t].i) + HashKeys(x.h)
  {
    hide Full;
    var n := |ArrayKeys(items, 0)|;
    if t >= n {
      NodeKeys(x, t - n, t - n);
    } else {
      ArrayPlace(items, 0, t);
    }
  }

  // What follows the key of a node.
  lemma AfterNode(items: seq<Value>, x: Index, t: nat, s: nat)
    requires |items| == x.size && Full(x) && t < |KeysOf(items, x.h)| && s < |x.h| && x.h[s].key == KeysOf(items, x.h)[t]
    ensures KeysOf(items, x.h)[t + 1..] == HashKeys(x.h)[s + 1..]
  {
    hide Full;
    var n := |ArrayKeys(items, 0)|;
    NodeKeys(x, s, s);
    if t >= n {
      NodeKeys(x, s, t - n);
    } else {
      ArrayPlace(items, 0, t);
    }
  }

  // A key that is not in the array part is that of a node.
  lemma IsNode(items: seq<Value>, x: Index, t: nat)
    requires |items| == x.size && Full(x) && t < |KeysOf(items, x.h)| && !InArray(KeysOf(items, x.h)[t], x.size)
    ensures |x.h| > 0 && x.Sized() && x.HasKey(KeysOf(items, x.h)[t])
  {
    hide Full, ArrayKeys;
    var n := |ArrayKeys(items, 0)|;
    if t < n {
      ArrayPlace(items, 0, t);
    } else {
      NodeKeys(x, t - n, t - n);
    }
  }

  lemma FullShaped(x: Index)
    requires Full(x)
    ensures |x.h| > 0 ==> x.Shaped()
  {
  }

  lemma InPlace(key: Key, size: nat)
    requires InArray(key, size)
    ensures key.Num? && 0 < key.i <= size
  {
  }

  lemma StartsAt(items: seq<Value>, h: seq<Node>)
    ensures KeysOf(items, h) == ArrayKeys(items, 0) + HashKeys(h)
  {
  }

  lemma FirstIsAt(ks: seq<Key>, t: nat)
    requires t <= |ks|
    ensures FirstOf(ks[t..]) == if t < |ks| then Some(ks[t]) else None
  {
  }

  lemma AfterItems(items: seq<Value>, x: Index, key: Key)
    requires |items| == x.size && Full(x) && InArray(key, x.size)
    ensures forall t :: 0 <= t < |KeysOf(items, x.h)| && KeysOf(items, x.h)[t] == key ==>
      FirstOf(KeysOf(items, x.h)[t + 1..]) == FirstOf(ArrayKeys(items, key.i) + HashKeys(x.h))
  {
    hide Full, KeysOf, ArrayKeys;
    forall t | 0 <= t < |KeysOf(items, x.h)| && KeysOf(items, x.h)[t] == key
      ensures FirstOf(KeysOf(items, x.h)[t + 1..]) == FirstOf(ArrayKeys(items, key.i) + HashKeys(x.h))
    {
      AfterItem(items, x, t);
    }
  }

  // The node after the one that a lookup has found has the next key.
  lemma AfterNodes(items: seq<Value>, x: Index, key: Key, n: int)
    requires |items| == x.size && Full(x) && !InArray(key, x.size) && n < |x.h|
    requires n >= 0 ==> x.Sized() && if x.Taken(n) then x.h[n].key == key else !x.HasKey(key)
    requires n < 0 && |x.h| > 0 ==> x.Sized() && !x.HasKey(key)
    ensures forall t :: 0 <= t < |KeysOf(items, x.h)| && KeysOf(items, x.h)[t] == key ==>
      FirstOf(KeysOf(items, x.h)[t + 1..]) == if n < 0 || n + 1 == |x.h| then None else Some(x.h[n + 1].key)
  {
    hide Full, KeysOf, ArrayKeys, InArray, Index.HasKey;
    forall t | 0 <= t < |KeysOf(items, x.h)| && KeysOf(items, x.h)[t] == key
      ensures FirstOf(KeysOf(items, x.h)[t + 1..]) == if n < 0 || n + 1 == |x.h| then None else Some(x.h[n + 1].key)
    {
      IsNode(items, x, t);
      NodeKeys(x, n, n);
      AfterNode(items, x, t, n);
    }
  }

  // The traversal has every key of the source, and none twice.
  lemma KeysExactly(items: seq<Value>, x: Index)
    requires |items| == x.size && Full(x) && ItemsUpTo(items, x.src, |x.src|)
    requires |x.h| == 0 ==> NodesOf(x.src, x.size) == {}
    ensures forall t, u :: 0 <= t < u < |KeysOf(items, x.h)| ==> KeysOf(items, x.h)[t] != KeysOf(items, x.h)[u]
    ensures forall j :: 0 <= j < |x.src| ==> Conv(x.src[j].key) in KeysOf(items, x.h)
    ensures forall k :: k in KeysOf(items, x.h) ==> exists j :: 0 <= j < |x.src| && Conv(x.src[j].key) == k
  {
    hide Full, Conv, ItemsUpTo, NodesOf, ArrayKeys;
    var ks, n := KeysOf(items, x.h), |ArrayKeys(items, 0)|;
    forall t, u | 0 <= t < u < |ks| ensures ks[t] != ks[u] {
      KeysDiffer(items, x, t, u);
    }
    forall j | 0 <= j < |x.src| ensures Conv(x.src[j].key) in ks {
      KeyVisited(items, x, j);
    }
    forall t | 0 <= t < |ks| ensures exists j :: 0 <= j < |x.src| && Conv(x.src[j].key) == ks[t] {
      KeyOfSource(items, x, t);
    }
  }

  lemma KeysDiffer(items: seq<Value>, x: Index, t: nat, u: nat)
    requires |items| == x.size && Full(x) && t < u < |KeysOf(items, x.h)|
    ensures KeysOf(items, x.h)[t] != KeysOf(items, x.h)[u]
  {
    hide Full, ArrayKeys;
    var n := |ArrayKeys(items, 0)|;
    if u < n {
      ArrayOnce(items, t, u);
    } else if t >= n {
      NodeKeys(x, t - n, u - n);
    } else {
      ArrayPlace(items, 0, t);
      NodeKeys(x, u - n, u - n);
    }
  }

  lemma KeyVisited(items: seq<Value>, x: Index, j: nat)
    requires |items| == x.size && Full(x) && ItemsUpTo(items, x.src, |x.src|) && j < |x.src|
    requires |x.h| == 0 ==> NodesOf(x.src, x.size) == {}
    ensures Conv(x.src[j].key) in KeysOf(items, x.h)
  {
    hide Conv, ArrayKeys, Separate, Index.Shaped;
    var k := Conv(x.src[j].key);
    if InArray(k, x.size) {
      assert Item(items[k.i - 1], x.src, |x.src|, Num(k.i));
      ArrayHas(items, 0, k.i - 1);
    } else {
      assert j in NodesOf(x.src, x.size);
      var s :| x.Taken(s) && x.h[s].key == k;
      assert HashKeys(x.h)[s] == k;
    }
  }

  lemma KeyOfSource(items: seq<Value>, x: Index, t: nat)
    requires |items| == x.size && Full(x) && ItemsUpTo(items, x.src, |x.src|) && t < |KeysOf(items, x.h)|
    ensures exists j :: 0 <= j < |x.src| && Conv(x.src[j].key) == KeysOf(items, x.h)[t]
  {
    hide Conv, ArrayKeys, Full;
    var n := |ArrayKeys(items, 0)|;
    if t < n {
      ArrayPlace(items, 0, t);
      var k := ArrayKeys(items, 0)[t].i - 1;
      assert Item(items[k], x.src, |x.src|, Num(k + 1));
    } else {
      NodeKeys(x, t - n, t - n);
    }
  }

  lemma NoneApart(src: seq<Entry>, size: nat)
    requires Visited(src) && size < 0x8000_0000 && forall j :: 0 <= j < |src| ==> src[j].key.IntKey? && 0 < src[j].key.i <= size
    ensures Separate(src, size)
  {
    SeparateIff(src, size);
  }

  lemma NoneCounted(src: seq<Entry>, size: nat)
    requires |CountedOf(src, size, |src|)| == 0
    ensures forall j :: 0 <= j < |src| ==> src[j].key.IntKey? && 0 < src[j].key.i <= size
  {
    forall j | 0 <= j < |src| ensures !Counted(src[j].key, size) {
      assert j !in CountedOf(src, size, |src|);
    }
  }

  lemma NoNodes(src: seq<Entry>, size: nat, key: Key)
    requires NodesOf(src, size) == {} && !InArray(key, size)
    ensures Item(Nil, src, |src|, key)
  {
    hide Conv, InArray;
    forall j | 0 <= j < |src| ensures Conv(src[j].key) != key {
      assert j !in NodesOf(src, size);
    }
  }

  lemma Ready(x: Index)
    requires SecondPass(x, |x.src|)
    ensures x.Shaped() && x.Sized()
  {
  }

  // What a lookup has found in the hash part.
  lemma Found(x: Index, key: Key, n: int)
    requires SecondPass(x, |x.src|) && !InArray(key, x.size) && n < |x.h|
    requires if n >= 0 && x.Taken(n) then x.h[n].key == key else !x.HasKey(key)
    ensures Item(if n < 0 then Nil else x.h[n].value, x.src, |x.src|, key)
  {
    hide Conv, Home, InArray, Progress, Index.Chain, Separate;
    if n >= 0 {
      assert x.Slot(n);
    }
    if !(n >= 0 && x.Taken(n)) {
      forall j | 0 <= j < |x.src| ensures Conv(x.src[j].key) != key {
        assert j in NodesOf(x.src, x.size) ==> x.HasKey(Conv(x.src[j].key));
      }
    }
  }

  lemma PlaceRight(src: seq<Entry>, size: nat, i: nat)
    requires Visited(src) && size < 0x8000_0000 && 0 < i <= size
    requires forall j :: 0 <= j < |src| ==> src[j].key.IntKey? && 0 < src[j].key.i <= size
    ensures Item(Get(src, IntKey(i)), src, |src|, Num(i))
  {
    hide Get;
  }

  class Table {
    ghost const src: seq<Entry>
    const items: array<Value>
    const hash: array<Node>
    ghost var owner: seq<int>
    ghost var chains: seq<seq<nat>>
    ghost var placed: set<int>

    ghost function View(): Index
      reads this, hash
    {
      Index(items.Length, src, hash[..], owner, chains, placed)
    }

    constructor (ghost src: seq<Entry>, sizearray: nat, sizehash: nat)
      ensures this.src == src && items.Length == sizearray && hash.Length == sizehash && fresh(items) && fresh(hash)
      ensures forall k :: 0 <= k < sizearray ==> items[k].Nil?
      ensures sizehash > 0 && |NodesOf(src, sizearray)| <= sizehash && (forall j :: 0 <= j < |src| ==> !src[j].value.Nil?) ==>
        FirstPass(View(), 0)
    {
      this.src := src;
      items := new Value[sizearray](_ => Nil);
      hash := new Node[sizehash](_ => Node(Num(0), 0, Nil, -1, false));
      owner := seq(sizehash, _ => -1);
      chains := seq(sizehash, _ => []);
      placed := {};
      new;
      hide NodesOf;
      assert Filled(owner) == {};
    }

    // ---------------------------------------------------------- filling

    method PlaceMain(source: seq<Entry>, i: nat, n: nat)
      requires source == src && i < |src| && View().Sized() && n == HomeOf(View(), i)
      modifies hash, this`owner, this`chains, this`placed
      ensures View() == First(old(View()), i)
    {
      hide Conv, KeyHash, Main;
      ghost var h := hash[..];
      hash[n] := Hashed(source[i], -1, true);
      owner, chains, placed := owner[n := i], chains[n := [n]], placed + {i};
      assert hash[..] == h[n := Hashed(source[i], -1, true)];
    }

    method SetArray(source: seq<Entry>, i: nat)
      requires source == src && i < |src| && ItemsUpTo(items[..], src, i) && InArray(Conv(src[i].key), items.Length)
      requires !src[i].value.Nil?
      modifies items
      ensures ItemsUpTo(items[..], src, i + 1)
    {
      ItemsMore(items[..], src, i);
      hide Conv, ItemsUpTo;
      ghost var k := Conv(source[i].key).i - 1;
      ghost var was := items[..];
      items[Conv(source[i].key).i - 1] := source[i].value;
      assert items[..] == was[k := source[i].value];
    }

    method FillFirst(source: seq<Entry>)
      requires source == src && FirstPass(View(), 0) && ItemsUpTo(items[..], src, 0)
      modifies hash, items, this`owner, this`chains, this`placed
      ensures FirstPass(View(), |src|) && ItemsUpTo(items[..], src, |src|)
    {
      hide FirstPass, Conv, KeyHash, Main, ItemsUpTo, InArray, Index.Shaped;
      for i := 0 to |source|
        invariant FirstPass(View(), i) && ItemsUpTo(items[..], src, i)
      {
        FirstIs(View(), i);
        var key := Conv(source[i].key);
        if InArray(key, items.Length) {
          FirstSkips(View(), i);
          SetArray(source, i);
        } else {
          ItemsMore(items[..], src, i);
          var n := Main(KeyHash(key), hash.Length);
          if hash[n].value.Nil? {
            FirstPlaces(View(), i);
            PlaceMain(source, i, n);
          } else {
            FirstSkips(View(), i);
          }
        }
      }
    }

    // Without a hash part the array part is filled place by place.
    method FillArray(source: seq<Entry>)
      requires source == src && Visited(src) && items.Length < 0x8000_0000
      requires forall j :: 0 <= j < |src| ==> src[j].key.IntKey? && 0 < src[j].key.i <= items.Length
      modifies items
      ensures ItemsUpTo(items[..], src, |src|)
    {
      for i := 1 to items.Length + 1
        invariant forall k :: 0 <= k < i - 1 ==> Item(items[k], src, |src|, Num(k + 1))
      {
        items[i - 1] := Get(source, IntKey(i));
        PlaceRight(source, items.Length, i);
      }
    }

    // An empty slot from 'emptyslot' on; all before it are taken.
    method FindEmpty(emptyslot: nat) returns (n: nat)
      requires View().Shaped() && emptyslot <= hash.Length == |owner|
      requires forall s :: 0 <= s < emptyslot ==> owner[s] >= 0
      requires exists s :: 0 <= s < hash.Length && owner[s] < 0
      ensures emptyslot <= n < hash.Length && owner[n] < 0 && forall s :: 0 <= s < n ==> owner[s] >= 0
    {
      hide Index.Shaped;
      n := emptyslot;
      while n < hash.Length
        invariant emptyslot <= n <= hash.Length && forall s :: 0 <= s < n ==> owner[s] >= 0
      {
        SlotFree(View(), n);
        if hash[n].value.Nil? {
          return;
        }
        n := n + 1;
      }
      assert false;
    }

    method PlaceChained(source: seq<Entry>, i: nat, mainpos: nat, n: nat)
      requires source == src && i < |src| && View().Sized() && chains[HomeOf(View(), i)] != []
      requires mainpos == HomeOf(View(), i) != n < hash.Length
      modifies hash, this`owner, this`chains, this`placed
      ensures View() == Later(old(View()), n, i)
    {
      hide Conv, KeyHash, Main;
      ghost var h := hash[..];
      var next := hash[mainpos].next;
      hash[mainpos] := hash[mainpos].(next := n, nocolliding := false);
      hash[n] := Hashed(source[i], next, false);
      owner, placed := owner[n := i], placed + {i};
      chains := chains[mainpos := [mainpos, n] + chains[mainpos][1..]];
      assert hash[..] == h[n := Hashed(source[i], next, false)][mainpos := h[mainpos].(next := n, nocolliding := false)];
    }

    method FillLater(source: seq<Entry>)
      requires source == src && SecondPass(View(), 0)
      modifies hash, this`owner, this`chains, this`placed
      ensures SecondPass(View(), |src|)
    {
      hide SecondPass, Conv, KeyHash, Main, InArray, Index.Shaped;
      var emptyslot := 0;
      SecondSized(View());
      for i := 0 to |source|
        invariant SecondPass(View(), i)
        invariant emptyslot <= hash.Length == |owner| && forall s :: 0 <= s < emptyslot ==> owner[s] >= 0
      {
        SecondIs(View(), i);
        var key := Conv(source[i].key);
        if !InArray(key, items.Length) {
          var mainpos := Main(KeyHash(key), hash.Length);
          if hash[mainpos].key != key {
            // the key has no node yet
            NotPlaced(View(), i);
            FreeSlot(View(), i);
            var n := FindEmpty(emptyslot);
            LaterPlaces(View(), n, i);
            PlaceChained(source, i, mainpos, n);
            emptyslot := n + 1;
          } else {
            SecondSkips(View(), i);
          }
        } else {
          SecondSkips(View(), i);
        }
      }
    }

    // The node of a key, or -1.
    method Lookup(key: Key) returns (r: int)
      requires hash.Length > 0 ==> View().Shaped()
      ensures r < hash.Length
      ensures r >= 0 ==> if View().Taken(r) then hash[r].key == key else !View().HasKey(key)
      ensures r < 0 && hash.Length > 0 ==> !View().HasKey(key)
    {
      hide Index.Shaped, Main, KeyHash, Linked, Index.HasKey, Index.Sized;
      if hash.Length == 0 {
        return -1;
      }
      var keyhash := KeyHash(key);
      var n := Main(keyhash, hash.Length);
      ghost var x := View();
      ghost var c := Walk(x, n);
      if keyhash != hash[n].keyhash && hash[n].nocolliding {
        Alone(x, key);
        return -1;
      }
      ghost var t := 0;
      while true
        invariant 0 <= t < |c| && c[t] == n < hash.Length && NoHit(x, c, t, key)
        decreases |c| - t
      {
        Next(x, c, t);
        if Hit(hash[n], key, keyhash) {
          if !x.Taken(n) {
            Missed(x, [], key);
          }
          return n;
        }
        assert NoHit(x, c, t + 1, key);
        if hash[n].next < 0 {
          Missed(x, c, key);
          return -1;
        }
        n := hash[n].next;
        t := t + 1;
      }
    }

    // ---------------------------------------------------------- the finished table

    ghost predicate Built()
      reads this, items, hash
    {
      ItemsUpTo(items[..], src, |src|) && hash.Length == |CountedOf(src, items.Length, |src|)| && items.Length < 0x8000_0000 &&
      (forall j :: 0 <= j < |src| ==> !src[j].value.Nil?) &&
      if hash.Length == 0 then NodesOf(src, items.Length) == {} else SecondPass(View(), |src|)
    }

    // Nil, or the value of an entry with that key in the index.
    method IndexConf(q: LuaKey) returns (r: Option<Value>)
      requires Built()
      ensures r.None? <==> q.TableKey? || q.OtherKey?
      ensures r.Some? ==> Item(r.value, src, |src|, Conv(q))
    {
      hide Conv, SecondPass, NodesOf, CountedOf, Index.HasKey;
      if q.TableKey? || q.OtherKey? {
        return None;
      }
      var key := Conv(q);
      if InArray(key, items.Length) {
        assert Item(items[..][key.i - 1], src, |src|, Num(key.i));
        return Some(items[key.i - 1]);
      }
      if hash.Length > 0 {
        Ready(View());
      } else {
        NoNodes(src, items.Length, key);
      }
      var n := Lookup(key);
      if hash.Length > 0 {
        Found(View(), key, n);
      }
      r := Some(if n < 0 then Nil else hash[n].value);
    }

    ghost function Keys(): seq<Key>
      reads this, items, hash
    {
      KeysOf(items[..], hash[..])
    }

    // The first key of the array part from place 'from' on, or else of the nodes.
    method NextItem(from: nat) returns (r: Option<Key>)
      requires from <= items.Length
      ensures r == FirstOf(ArrayKeys(items[..], from) + HashKeys(hash[..]))
    {
      for i := from to items.Length
        invariant ArrayKeys(items[..], from) == ArrayKeys(items[..], i)
      {
        if !items[i].Nil? {
          return Some(Num(i + 1));
        }
      }
      r := if hash.Length > 0 then Some(hash[0].key) else None;
    }

    // The key after a given one, from none on.
    method NextKey(q: Option<LuaKey>) returns (r: Option<Key>)
      requires Full(View())
      ensures q.None? ==> r == FirstOf(Keys())
      ensures q.Some? && (q.value.IntKey? || q.value.StrKey?) ==>
        forall t :: 0 <= t < |Keys()| && Keys()[t] == Conv(q.value) ==> r == FirstOf(Keys()[t + 1..])
    {
      FullShaped(View());
      hide *;
      if q.None? {
        r := NextItem(0);
        StartsAt(items[..], hash[..]);
        return;
      }
      if q.value.TableKey? || q.value.OtherKey? {
        return None;
      }
      var key := Conv(q.value);
      if InArray(key, items.Length) {
        InPlace(key, items.Length);
        AfterItems(items[..], View(), key);
        r := NextItem(key.i);
        return;
      }
      var n := Lookup(key);
      AfterNodes(items[..], View(), key, n);
      r := if n < 0 || n + 1 == hash.Length then None else Some(hash[n + 1].key);
    }

    // Going from key to key visits every key of the source once.
    method Traverse() returns (ks: seq<Key>)
      requires Built() && Full(View())
      ensures forall t, u :: 0 <= t < u < |ks| ==> ks[t] != ks[u]
      ensures forall j :: 0 <= j < |src| ==> Conv(src[j].key) in ks
      ensures forall k :: k in ks ==> exists j :: 0 <= j < |src| && Conv(src[j].key) == k
    {
      KeysBack(items[..], View());
      KeysExactly(items[..], View());
      hide *;
      ks := Order();
    }

    method Order() returns (ks: seq<Key>)
      requires Full(View()) && forall k :: k in Keys() ==> Backed(k)
      ensures ks == Keys()
    {
      ghost var order := Keys();
      hide *;
      ks := [];
      var k := NextKey(None);
      while k.Some?
        invariant |ks| <= |order| && ks == order[..|ks|] && k == FirstOf(order[|ks|..])
        decreases |order| - |ks|
      {
        FirstIsAt(order, |ks|);
        var key := k.value;
        k := Follow(|ks|, key);
        ks := ks + [key];
      }
      FirstIsAt(order, |ks|);
    }

    method Follow(ghost t: nat, k: Key) returns (r: Option<Key>)
      requires Full(View()) && t < |Keys()| && Keys()[t] == k && Backed(k)
      ensures r == FirstOf(Keys()[t + 1..])
    {
      hide *;
      BackedIs(k);
      r := NextKey(Some(LuaOf(k)));
    }
  }

  // The key as it is pushed.
  function LuaOf(k: Key): LuaKey { match k case Num(i) => IntKey(i) case Str(s) => StrKey(s) }

  predicate Backed(k: Key) { Conv(LuaOf(k)) == k }

  lemma BackedIs(k: Key)
    requires Backed(k)
    ensures Conv(LuaOf(k)) == k && (LuaOf(k).IntKey? || LuaOf(k).StrKey?)
  {
  }

  lemma KeysBack(items: seq<Value>, x: Index)
    requires |items| == x.size && Full(x) && ItemsUpTo(items, x.src, |x.src|)
    ensures forall k :: k in KeysOf(items, x.h) ==> Backed(k)
  {
    hide Full, KeysOf;
    forall t | 0 <= t < |KeysOf(items, x.h)| ensures Backed(KeysOf(items, x.h)[t]) {
      KeyOfSource(items, x, t);
    }
  }

  // Builds the index of a Lua table.
  method Convert(source: seq<Entry>, sizearray: nat) returns (t: Table?)
    requires Visited(source) && sizearray < 0x8000_0000
    ensures t == null <==> exists j :: 0 <= j < |source| && source[j].key.OtherKey?
    ensures t != null ==> fresh(t) && t.src == source && t.items.Length == sizearray && t.Built()
    ensures t != null ==> (Full(t.View()) <==> Separate(source, sizearray))
  {
    var sizehash := CountSize(source, sizearray);
    if sizehash.None? {
      return null;
    }
    NodesCounted(source, sizearray);
    t := new Table(source, sizearray, sizehash.value);
    if sizehash.value > 0 {
      assert ItemsUpTo(t.items[..], source, 0);
      t.FillFirst(source);
      PassOver(t.View());
      t.FillLater(source);
      FullIff(t.View());
    } else {
      NoneCounted(source, sizearray);
      NoneApart(source, sizearray);
      t.FillArray(source);
    }
  }
}
