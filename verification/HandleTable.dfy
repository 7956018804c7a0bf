// The table of handles: an array of slots indexed by the low bits of the handle,
// doubled when full, and a sorted array of names searched by halving.
//
// The size is a power of two, so 'handle & (size - 1)' is 'handle % size'.  The
// harbor's bits in a handle are above all of these.

module HandleTable {

  const DEFAULT_SLOT_SIZE: nat := 4
  const HANDLE_MASK: nat := 0xff_ffff

  datatype Option<+T> = None | Some(value: T)

  // A context in the table, with its handle.
  datatype Entry = Entry(handle: nat, ctx: nat)

  type Name = seq<nat>

  datatype Named = Named(name: Name, handle: nat)

  // ------------------------------------------------------------ the order of names

  // strcmp: negative, zero or positive.
  function Compare(a: Name, b: Name): int {
    if a == [] then (if b == [] then 0 else -1)
    else if b == [] then 1
    else if a[0] != b[0] then a[0] - b[0]
    else Compare(a[1..], b[1..])
  }

  lemma {:induction false} CompareFlip(a: Name, b: Name)
    ensures Compare(a, b) == -Compare(b, a) && (Compare(a, b) == 0 <==> a == b)
    decreases |a|
  {
    if a != [] && b != [] {
      CompareFlip(a[1..], b[1..]);
      assert a == [a[0]] + a[1..] && b == [b[0]] + b[1..];
    }
  }

  lemma {:induction false} CompareTrans(a: Name, b: Name, c: Name)
    requires Compare(a, b) < 0 && Compare(b, c) < 0
    ensures Compare(a, c) < 0
    decreases |a|
  {
    if a != [] && b != [] && c != [] && a[0] == b[0] == c[0] {
      CompareTrans(a[1..], b[1..], c[1..]);
    }
  }

  ghost predicate Sorted(ns: seq<Named>) {
    forall j, k {:trigger ns[j], ns[k]} :: 0 <= j < k < |ns| ==> Compare(ns[j].name, ns[k].name) < 0
  }

  // The names before 'at' are smaller than the key, the others greater.
  ghost predicate Belongs(ns: seq<Named>, at: nat, key: Name) {
    forall k {:trigger ns[k]} :: 0 <= k < |ns| ==> if k < at then Compare(ns[k].name, key) < 0 else Compare(ns[k].name, key) > 0
  }

  lemma NotThere(ns: seq<Named>, at: nat, key: Name)
    requires Belongs(ns, at, key)
    ensures forall k :: 0 <= k < |ns| ==> ns[k].name != key
  {
    forall k | 0 <= k < |ns| ensures ns[k].name != key {
      CompareFlip(ns[k].name, key);
    }
  }

  // ------------------------------------------------------------ slots

  lemma ModMod(x: nat, n: nat, m: nat)
    requires n > 0 && m == 2 * n
    ensures x % m % n == x % n
  {
    var q, r := DivMod(x, m);
    TwiceTimes(n, m, q);
    ModShift(x, n, 2 * q, r);
  }

  lemma DivMod(x: nat, m: nat) returns (q: nat, r: nat)
    requires m > 0
    ensures r == x % m && x == m * q + r
  {
    q, r := x / m, x % m;
  }

  lemma TwiceTimes(n: nat, m: nat, q: nat)
    requires m == 2 * n
    ensures m * q == n * (2 * q)
  {
  }

  lemma ModShift(x: nat, n: nat, q: nat, r: nat)
    requires n > 0 && x == n * q + r
    ensures x % n == r % n
  {
    var k, s := DivMod(r, n);
    Plus(n, q, k);
    Remainder(x, n, q + k, s);
  }

  lemma Plus(n: nat, a: nat, b: nat)
    ensures n * (a + b) == n * a + n * b
  {
  }

  lemma Remainder(x: nat, n: nat, q: nat, r: nat)
    requires n > 0 && x == n * q + r && r < n
    ensures x % n == r
  {
    var k := x / n - q;
    assert x == n * (x / n) + x % n;
    assert n * (x / n) == n * q + n * k;
    assert n * k == r - x % n;
    if k >= 1 {
      Times(n, 1, k);
    } else if k <= -1 {
      Times(n, k, -1);
    } else {
      assert k == 0;
    }
  }

  lemma Times(n: nat, a: int, b: int)
    requires a <= b
    ensures n * a <= n * b
  {
  }

  // Every entry is in the slot of its handle, and 'live' is what they are.
  ghost predicate Slotted(ss: seq<Option<Entry>>, live: map<nat, nat>) {
    && |ss| > 0
    && (forall i {:trigger ss[i]} :: 0 <= i < |ss| && ss[i].Some? ==>
          var e := ss[i].value; e.handle % |ss| == i && e.handle in live && live[e.handle] == e.ctx)
    && (forall h {:trigger live[h]} :: h in live ==> h > 0 && ss[h % |ss|] == Some(Entry(h, live[h])))
  }

  lemma FillSlot(ss: seq<Option<Entry>>, live: map<nat, nat>, h: nat, ctx: nat)
    requires Slotted(ss, live) && h > 0 && ss[h % |ss|].None?
    ensures h !in live && Slotted(ss[h % |ss| := Some(Entry(h, ctx))], live[h := ctx])
  {
  }

  lemma ClearSlot(ss: seq<Option<Entry>>, live: map<nat, nat>, h: nat)
    requires Slotted(ss, live) && ss[h % |ss|].Some? && ss[h % |ss|].value.handle == h
    ensures h in live && Slotted(ss[h % |ss| := None], live - {h})
  {
  }

  // ------------------------------------------------------------ which slots are looked at

  function Two(k: nat): nat { if k == 0 then 1 else 2 * Two(k - 1) }

  // What the size of the table may be.
  ghost predicate Power(n: nat) { exists k {:trigger Two(k)} :: 2 <= k <= 24 && n == Two(k) }

  lemma {:induction false} TwoPlus(a: nat, b: nat)
    ensures Two(a) * Two(b) == Two(a + b)
    decreases a
  {
    if a > 0 {
      TwoPlus(a - 1, b);
      assert Two(a) * Two(b) == 2 * (Two(a - 1) * Two(b));
    }
  }

  lemma {:induction false} TwoUp(a: nat, b: nat)
    requires a <= b
    ensures Two(a) <= Two(b)
    decreases b
  {
    if a < b {
      TwoUp(a, b - 1);
    }
  }

  lemma TwoTop()
    ensures Two(24) == HANDLE_MASK + 1 && Two(23) * 2 == HANDLE_MASK + 1 && Two(2) == 4
  {
    assert Two(2) == 4 && Two(4) == 16;
    TwoPlus(4, 4);
    TwoPlus(8, 8);
    TwoPlus(16, 8);
  }

  lemma PowerFacts(n: nat) returns (m: nat)
    requires Power(n)
    ensures n * m == HANDLE_MASK + 1 && n >= 4 && m >= 1
    ensures n * 2 - 1 > HANDLE_MASK <==> n == HANDLE_MASK + 1
    ensures n <= HANDLE_MASK + 1
    ensures n * 2 - 1 <= HANDLE_MASK ==> Power(n * 2)
  {
    var k :| 2 <= k <= 24 && n == Two(k);
    m := Two(24 - k);
    TwoPlus(k, 24 - k);
    TwoUp(2, k);
    TwoTop();
    if k <= 23 {
      TwoUp(k, 23);
      assert Two(k + 1) == n * 2;
    }
  }

  // The handles from 'index' on; after the last one comes 1.
  function HandleAt(index: nat, j: nat): nat {
    var h := index + j;
    if h <= HANDLE_MASK then h else if h <= 2 * HANDLE_MASK then h - HANDLE_MASK else h - 2 * HANDLE_MASK
  }

  // Every slot that is looked at is taken.
  ghost predicate ScanFull(ss: seq<Option<Entry>>, index: nat) {
    forall j {:trigger HandleAt(index, j)} :: 0 <= j < |ss| ==> ss[HandleAt(index, j) % |ss|].Some?
  }

  // The first handle whose slot is free.
  ghost predicate FirstFree(ss: seq<Option<Entry>>, index: nat, h: nat) {
    exists j {:trigger HandleAt(index, j)} :: 0 <= j < |ss| && h == HandleAt(index, j) && ss[h % |ss|].None? &&
      forall i {:trigger HandleAt(index, i)} :: 0 <= i < j ==> ss[HandleAt(index, i) % |ss|].Some?
  }

  // Some handle in use has the residue of this one.
  ghost predicate Taken(live: map<nat, nat>, h: nat, n: nat)
    requires n > 0
  {
    exists x {:trigger live[x]} :: x in live && x % n == h % n
  }

  // Of the handles from 'index' on, after the last of which comes 1, this is the first
  // one whose residue no handle in use has.
  ghost predicate FirstGiven(live: map<nat, nat>, index: nat, n: nat, h: nat)
    requires n > 0 && index > 0
  {
    exists j: nat :: j < n && h == Nth(index, j) && !Taken(live, h, n) && forall i: nat :: i < j ==> Taken(live, Nth(index, i), n)
  }

  function Nth(index: nat, j: nat): nat
    requires index > 0
  {
    (index - 1 + j) % HANDLE_MASK + 1
  }

  lemma NthIs(index: nat, j: nat)
    requires 1 <= index <= HANDLE_MASK + 1 && j <= HANDLE_MASK
    ensures HandleAt(index, j) == Nth(index, j)
  {
  }

  lemma TakenIs(ss: seq<Option<Entry>>, live: map<nat, nat>, h: nat)
    requires Slotted(ss, live)
    ensures |ss| > 0 && (ss[h % |ss|].Some? <==> Taken(live, h, |ss|))
  {
    if ss[h % |ss|].Some? {
      var e := ss[h % |ss|].value;
      assert e.handle in live && live[e.handle] == e.ctx && e.handle % |ss| == h % |ss|;
    }
    if Taken(live, h, |ss|) {
      var x :| x in live && x % |ss| == h % |ss|;
      assert ss[x % |ss|] == Some(Entry(x, live[x]));
    }
  }

  lemma FirstIs(ss: seq<Option<Entry>>, live: map<nat, nat>, index: nat, h: nat)
    requires Slotted(ss, live) && FirstFree(ss, index, h) && |ss| <= HANDLE_MASK + 1 && 1 <= index <= HANDLE_MASK + 1
    ensures |ss| > 0 && FirstGiven(live, index, |ss|, h)
  {
    hide Slotted, Taken, Nth;
    var j :| 0 <= j < |ss| && h == HandleAt(index, j) && ss[h % |ss|].None? &&
      forall i {:trigger HandleAt(index, i)} :: 0 <= i < j ==> ss[HandleAt(index, i) % |ss|].Some?;
    NthIs(index, j);
    TakenIs(ss, live, h);
    forall i: nat | i < j ensures Taken(live, Nth(index, i), |ss|) {
      NthIs(index, i);
      TakenIs(ss, live, HandleAt(index, i));
    }
    hide HandleAt;
  }

  // Handle 0 is left out when the handles wrap.
  predicate SkipsZero(index: nat, n: nat) { 0 < HANDLE_MASK + 1 - index < n || n == HANDLE_MASK + 1 }

  lemma Hits(n: nat, index: nat, i: nat) returns (j: nat)
    requires Power(n) && 1 <= index <= HANDLE_MASK + 1 && i < n && !(i == 0 && SkipsZero(index, n))
    ensures j < n && HandleAt(index, j) % n == i
  {
    var m := PowerFacts(n);
    var q, r := DivMod(index, n);
    var j0 := if i >= r then i - r else i - r + n;
    var a := if i >= r then q else q + 1;
    Plus(n, q, 1);
    assert index + j0 == n * a + i;
    if index + j0 <= HANDLE_MASK {
      Remainder(index + j0, n, a, i);
      j := j0;
    } else {
      if a < m {
        Times(n, a + 1, m);
        Plus(n, a, 1);
      } else if a > m {
        Times(n, m + 1, a);
        Plus(n, m, 1);
      }
      assert index + j0 == HANDLE_MASK + 1 + i;
      if i > 0 {
        j := j0 - 1;
        Remainder(i, n, 0, i);
      } else {
        j := n - 1;
        Remainder(n, n, 1, 0);
      }
    }
  }

  lemma Misses(n: nat, index: nat, j: nat)
    requires Power(n) && 1 <= index <= HANDLE_MASK + 1 && j < n && SkipsZero(index, n)
    ensures HandleAt(index, j) % n != 0
  {
    var m := PowerFacts(n);
    var h := HandleAt(index, j);
    if n == HANDLE_MASK + 1 {
      Remainder(h, n, 0, h);
    } else if index + j <= HANDLE_MASK {
      Plus(n, m - 1, 1);
      assert h == n * (m - 1) + (h - n * (m - 1));
      Remainder(h, n, m - 1, h - n * (m - 1));
    } else {
      Remainder(h, n, 0, h);
    }
  }

  // A table is taken to be full exactly when all its slots are taken, but for the
  // first one when the handles wrap: that slot is then passed over.
  lemma ScanFullIff(ss: seq<Option<Entry>>, index: nat)
    requires Power(|ss|) && 1 <= index <= HANDLE_MASK + 1
    ensures ScanFull(ss, index) <==> forall i :: 0 <= i < |ss| && !(i == 0 && SkipsZero(index, |ss|)) ==> ss[i].Some?
  {
    if ScanFull(ss, index) {
      forall i | 0 <= i < |ss| && !(i == 0 && SkipsZero(index, |ss|)) ensures ss[i].Some? {
        var j := Hits(|ss|, index, i);
      }
    } else {
      var j :| 0 <= j < |ss| && !ss[HandleAt(index, j) % |ss|].Some?;
      if SkipsZero(index, |ss|) {
        Misses(|ss|, index, j);
      }
    }
  }

  // In a table of the greatest size, that is when every handle is in use.
  lemma AllInUse(ss: seq<Option<Entry>>, live: map<nat, nat>, index: nat)
    requires Slotted(ss, live) && |ss| == HANDLE_MASK + 1 && ScanFull(ss, index) && 1 <= index <= HANDLE_MASK + 1
    requires forall h :: h in live ==> h <= HANDLE_MASK
    ensures forall h :: 1 <= h <= HANDLE_MASK ==> h in live
  {
    forall h | 1 <= h <= HANDLE_MASK ensures h in live {
      var j: nat := if h >= index then h - index else if index <= HANDLE_MASK then h + HANDLE_MASK - index else h - 1;
      assert HandleAt(index, j) == h;
      Remainder(h, |ss|, 0, h);
      var e := ss[h].value;
      Remainder(e.handle, |ss|, 0, e.handle);
    }
  }

  // A table that was doubled has room: of two slots that were one, one is free.
  lemma Roomy(ss: seq<Option<Entry>>, live: map<nat, nat>, bs: seq<Option<Entry>>, index: nat)
    requires Slotted(ss, live) && Slotted(bs, live) && |bs| == 2 * |ss| && Power(|bs|) && 1 <= index <= HANDLE_MASK + 1
    ensures !ScanFull(bs, index)
  {
    var n := |ss|;
    var _ := PowerFacts(|bs|);
    if ScanFull(bs, index) {
      ScanFullIff(bs, index);
      var a, b := bs[1].value, bs[n + 1].value;
      ModMod(a.handle, n, |bs|);
      ModMod(b.handle, n, |bs|);
      Remainder(1, n, 0, 1);
      Remainder(n + 1, n, 1, 1);
      assert false;
    }
  }

  class Storage {
    var index: nat
    var slot: array<Option<Entry>>
    var nameCount: nat
    var name: array<Named>
    ghost var live: map<nat, nat>

    ghost predicate Valid()
      reads this, slot, name
    {
      && 1 <= index <= HANDLE_MASK + 1 && Power(slot.Length) && Slotted(slot[..], live)
      && (forall h :: h in live ==> h <= HANDLE_MASK)
      && nameCount <= name.Length && name.Length > 0 && Sorted(Names())
    }

    ghost function Names(): seq<Named>
      requires nameCount <= name.Length
      reads this, name
    {
      name[..nameCount]
    }

    constructor ()
      ensures Valid() && live == map[] && Names() == [] && fresh(slot) && fresh(name)
    {
      index := 1;
      slot := new Option<Entry>[DEFAULT_SLOT_SIZE](_ => None);
      nameCount := 0;
      name := new Named[2](_ => Named([], 0));
      live := map[];
      assert DEFAULT_SLOT_SIZE == Two(2);
    }

    // skynet_handle_grab
    method Grab(handle: nat) returns (r: Option<nat>)
      requires Valid()
      ensures r == if handle in live then Some(live[handle]) else None
    {
      var e := slot[handle % slot.Length];
      assert slot[..][handle % slot.Length] == e;
      if e.Some? && e.value.handle == handle {
        return Some(e.value.ctx);
      }
      return None;
    }

    // The slots of a table of twice the size; no two entries meet.
    method Double()
      requires Valid() && slot.Length * 2 - 1 <= HANDLE_MASK
      modifies this`slot
      ensures Valid() && fresh(slot) && slot.Length == 2 * old(slot.Length)
    {
      hide Slotted, Copied, Sorted, Power;
      SlotsExist(slot[..], live);
      var _ := PowerFacts(slot.Length);
      var n := slot.Length;
      ghost var ss := slot[..];
      var bigger := new Option<Entry>[2 * n](_ => None);
      NothingCopied(ss, bigger[..]);
      var i := 0;
      while i < n
        invariant 0 <= i <= n && slot == old(slot) && slot[..] == ss && bigger.Length == 2 * n
        invariant Copied(ss, bigger[..], i)
      {
        ghost var bs := bigger[..];
        CopyNext(ss, bs, i, live);
        if slot[i].Some? {
          var hash := slot[i].value.handle % (2 * n);
          assert bs[hash].None?;
          bigger[hash] := slot[i];
          assert bigger[..] == bs[hash := ss[i]];
        }
        i := i + 1;
      }
      DoubleSlots(ss, bigger[..], live);
      slot := bigger;
    }

    // The loop of skynet_handle_register over the slots.
    method Scan() returns (found: bool, handle: nat)
      requires Valid()
      ensures found ==> FirstFree(slot[..], index, handle) && 1 <= handle <= HANDLE_MASK
      ensures !found ==> ScanFull(slot[..], index)
    {
      hide Slotted, Sorted;
      var _ := PowerFacts(slot.Length);
      hide Power;
      handle := index;
      var i := 0;
      while i < slot.Length
        invariant 0 <= i <= slot.Length && 1 <= handle <= HANDLE_MASK + 1
        invariant handle == HandleAt(index, i) || (handle == HANDLE_MASK + 1 && HandleAt(index, i) == 1)
        invariant forall j {:trigger HandleAt(index, j)} :: 0 <= j < i ==> slot[..][HandleAt(index, j) % slot.Length].Some?
      {
        if handle > HANDLE_MASK {
          handle := 1;  // no context has handle 0
        }
        var hash := handle % slot.Length;
        if slot[hash].None? {
          assert slot[..][hash].None? && handle == HandleAt(index, i);
          return true, handle;
        }
        i, handle := i + 1, handle + 1;
      }
      found := false;
    }

    // skynet_handle_register.  None stands for the assertion that fails when the
    // table cannot be doubled: then every handle is in use.  The table is doubled
    // when all slots that are looked at are taken, and once at most.
    method Register(ctx: nat) returns (r: Option<nat>)
      requires Valid()
      modifies this`index, this`slot, this`live, slot
      ensures Valid() && Names() == old(Names()) && (slot == old(slot) || fresh(slot))
      ensures r.Some? ==> 0 < r.value <= HANDLE_MASK && r.value !in old(live) && live == old(live)[r.value := ctx]
      ensures r.None? ==> live == old(live)
      ensures r.None? <==> forall h :: 1 <= h <= HANDLE_MASK ==> h in old(live)
      ensures slot.Length == old(slot.Length) * if ScanFull(old(slot[..]), old(index)) && old(slot.Length) <= HANDLE_MASK then 2 else 1
      ensures r.Some? ==> index == r.value + 1
      ensures r.Some? ==> FirstGiven(old(live), old(index), slot.Length, r.value)
    {
      hide Slotted, Sorted, Power, ScanFull, FirstFree, FirstGiven;
      ghost var ss := slot[..];
      while true
        invariant Valid() && live == old(live) && Names() == old(Names()) && index == old(index)
        invariant if slot == old(slot) then slot[..] == ss
          else fresh(slot) && slot.Length == 2 * |ss| && ScanFull(ss, index) && |ss| <= HANDLE_MASK && !ScanFull(slot[..], index)
        decreases HANDLE_MASK + 1 - slot.Length
      {
        SlotsExist(slot[..], live);
        var _ := PowerFacts(slot.Length);
        var found, handle := Scan();
        if found {
          FreeIs(slot[..], index, handle);
          FirstIs(slot[..], live, index, handle);
          Put(handle, ctx);
          return Some(handle);
        }
        if slot.Length * 2 - 1 > HANDLE_MASK {
          AllInUse(slot[..], live, index);
          return None;
        }
        Double();
        Roomy(ss, live, slot[..], index);
      }
    }

    // A context takes its slot.
    method Put(handle: nat, ctx: nat)
      requires Valid() && 1 <= handle <= HANDLE_MASK && slot.Length > 0 && slot[handle % slot.Length].None?
      modifies this`index, this`live, slot
      ensures Valid() && Names() == old(Names()) && index == handle + 1
      ensures handle !in old(live) && live == old(live)[handle := ctx]
    {
      hide Slotted, Sorted, Power;
      ghost var ss := slot[..];
      SlotsExist(ss, live);
      FillSlot(ss, live, handle, ctx);
      slot[handle % slot.Length] := Some(Entry(handle, ctx));
      live := live[handle := ctx];
      assert slot[..] == ss[handle % |ss| := Some(Entry(handle, ctx))];
      index := handle + 1;
    }

    // skynet_handle_retire: the slot is cleared and all names of the handle go.
    method Retire(handle: nat) returns (ret: bool)
      requires Valid()
      modifies this`live, this`nameCount, slot, name
      ensures Valid() && ret == (handle in old(live)) && live == old(live) - {handle}
      ensures Names() == if ret then Without(old(Names()), handle) else old(Names())
    {
      hide Slotted, Sorted, Power, Without;
      SlotsExist(slot[..], live);
      var hash := handle % slot.Length;
      ghost var ss := slot[..];
      InSlot(ss, live, handle);
      if slot[hash].Some? && slot[hash].value.handle == handle {
        ClearSlot(ss, live, handle);
        slot[hash] := None;
        live := live - {handle};
        assert slot[..] == ss[hash := None];
        RemoveNames(handle);
        return true;
      }
      assert live - {handle} == live;
      return false;
    }

    // The names of the handle go, the others move up.
    method RemoveNames(handle: nat)
      requires nameCount <= name.Length && Sorted(Names())
      modifies this`nameCount, name
      ensures nameCount <= name.Length && Sorted(Names()) && Names() == Without(old(Names()), handle)
    {
      hide Sorted, Without;
      ghost var ns := Names();
      WithoutNone(handle);
      var i, j := 0, 0;
      assert ns[..0] == [] && name[..0] == [];
      while i < nameCount
        invariant 0 <= j <= i <= nameCount == old(nameCount)
        invariant name[..j] == Without(ns[..i], handle) && forall k :: i <= k < nameCount ==> name[k] == ns[k]
      {
        assert name[i] == ns[i];
        WithoutNext(ns, i, handle);
        ghost var kept := name[..j];
        if name[i].handle == handle {
        } else {
          if i != j {
            name[j] := name[i];
          }
          j := j + 1;
          assert name[..j] == kept + [ns[i]];
        }
        i := i + 1;
      }
      assert ns[..i] == ns;
      WithoutSorted(ns, handle);
      nameCount := j;
    }

    // Where a name is, or where it belongs.
    method Search(key: Name) returns (found: bool, at: nat)
      requires Valid()
      ensures at <= nameCount && (found ==> at < nameCount && Names()[at].name == key)
      ensures !found ==> Belongs(Names(), at, key)
    {
      hide Slotted, Compare;
      var begin, end := 0, nameCount - 1;
      while begin <= end
        invariant 0 <= begin <= end + 1 <= nameCount
        invariant forall k :: 0 <= k < begin ==> Compare(Names()[k].name, key) < 0
        invariant forall k :: end < k < nameCount ==> Compare(Names()[k].name, key) > 0
        decreases end - begin
      {
        var mid := (begin + end) / 2;
        assert Names()[mid] == name[mid];
        var c := Compare(name[mid].name, key);
        CompareFlip(name[mid].name, key);
        if c == 0 {
          return true, mid;
        }
        forall k | 0 <= k < nameCount
          ensures k < mid && c < 0 ==> Compare(Names()[k].name, key) < 0
          ensures k > mid && c > 0 ==> Compare(Names()[k].name, key) > 0
        {
          Between(Names(), k, mid, key);
        }
        if c < 0 {
          begin := mid + 1;
        } else {
          end := mid - 1;
        }
      }
      return false, begin;
    }

    // skynet_handle_findname: the handle of the name, or 0.
    method FindName(key: Name) returns (handle: nat)
      requires Valid()
      ensures (exists k :: 0 <= k < nameCount && Names()[k] == Named(key, handle)) || (handle == 0 && forall k :: 0 <= k < nameCount ==> Names()[k].name != key)
    {
      hide Slotted, Compare, Sorted;
      var found, at := Search(key);
      if found {
        assert Names()[at] == Named(key, name[at].handle);
        return name[at].handle;
      }
      NotThere(Names(), at, key);
      return 0;
    }

    // skynet_handle_namehandle: a new name; an old one is refused.
    method NameHandle(handle: nat, key: Name) returns (ok: bool)
      requires Valid()
      modifies this`name, this`nameCount, name
      ensures Valid() && (name == old(name) || fresh(name))
      ensures ok <==> forall k :: 0 <= k < |old(Names())| ==> old(Names())[k].name != key
      ensures ok ==> exists at :: 0 <= at <= |old(Names())| && Names() == old(Names())[..at] + [Named(key, handle)] + old(Names())[at..]
      ensures !ok ==> Names() == old(Names())
    {
      hide Slotted, Compare, Sorted, Belongs;
      ghost var ns := Names();
      var found, at := Search(key);
      if found {
        return false;
      }
      NotThere(ns, at, key);
      InsertSorted(ns, at, Named(key, handle));
      InsertBefore(Named(key, handle), at);
      return true;
    }

    // The names move to an array of twice the size, with a gap at 'before'.
    method GrowNames(n: Named, before: nat)
      requires nameCount == name.Length > 0 && before <= nameCount
      modifies this`name
      ensures fresh(name) && name.Length == 2 * nameCount
      ensures forall k :: 0 <= k < before ==> name[k] == old(name[..])[k]
      ensures forall k {:trigger old(name[..])[k]} :: before <= k < nameCount ==> name[k + 1] == old(name[..])[k]
    {
      ghost var ns := name[..];
      var bigger := new Named[name.Length * 2](_ => n);
      var i := 0;
      while i < before
        invariant 0 <= i <= before && name == old(name) && name[..] == ns && bigger.Length == name.Length * 2
        invariant forall k :: 0 <= k < i ==> bigger[k] == ns[k]
      {
        bigger[i] := name[i];
        i := i + 1;
      }
      while i < nameCount
        invariant before <= i <= nameCount && name == old(name) && name[..] == ns && bigger.Length == name.Length * 2
        invariant forall k :: 0 <= k < before ==> bigger[k] == ns[k]
        invariant forall k {:trigger ns[k]} :: before <= k < i ==> bigger[k + 1] == ns[k]
      {
        bigger[i + 1] := name[i];
        i := i + 1;
      }
      name := bigger;
    }

    // The names from 'before' on move up by one.
    method ShiftNames(before: nat)
      requires before <= nameCount < name.Length
      modifies name
      ensures forall k :: 0 <= k < before ==> name[k] == old(name[..])[k]
      ensures forall k {:trigger old(name[..])[k]} :: before <= k < nameCount ==> name[k + 1] == old(name[..])[k]
    {
      ghost var ns := name[..];
      var i := nameCount;
      while i > before
        invariant before <= i <= nameCount
        invariant forall k :: 0 <= k < i ==> name[k] == ns[k]
        invariant forall k {:trigger ns[k]} :: i <= k < nameCount ==> name[k + 1] == ns[k]
      {
        name[i] := name[i - 1];
        i := i - 1;
      }
    }

    method InsertBefore(n: Named, before: nat)
      requires nameCount <= name.Length && name.Length > 0 && before <= nameCount
      modifies this`name, this`nameCount, name
      ensures nameCount <= name.Length && name.Length > 0 && (name == old(name) || fresh(name))
      ensures Names() == old(Names())[..before] + [n] + old(Names())[before..]
    {
      ghost var ns := Names();
      if nameCount >= name.Length {
        GrowNames(n, before);
      } else {
        ShiftNames(before);
      }
      name[before] := n;
      nameCount := nameCount + 1;
      Spliced(name[..nameCount], ns, before, n);
    }
  }

  lemma Spliced(all: seq<Named>, ns: seq<Named>, before: nat, n: Named)
    requires before <= |ns| && |all| == |ns| + 1 && all[before] == n
    requires forall k :: 0 <= k < before ==> all[k] == ns[k]
    requires forall k {:trigger ns[k]} :: before <= k < |ns| ==> all[k + 1] == ns[k]
    ensures all == ns[..before] + [n] + ns[before..]
  {
    forall k | before < k < |all| ensures all[k] == ns[k - 1] {
      assert all[k - 1 + 1] == ns[k - 1];
    }
  }

  lemma SlotsExist(ss: seq<Option<Entry>>, live: map<nat, nat>)
    requires Slotted(ss, live)
    ensures |ss| > 0
  {
  }

  lemma FreeIs(ss: seq<Option<Entry>>, index: nat, h: nat)
    requires FirstFree(ss, index, h)
    ensures |ss| > 0 && ss[h % |ss|].None? && !ScanFull(ss, index)
  {
  }

  lemma InSlot(ss: seq<Option<Entry>>, live: map<nat, nat>, h: nat)
    requires Slotted(ss, live)
    ensures h in live <==> ss[h % |ss|].Some? && ss[h % |ss|].value.handle == h
  {
  }

  function Without(ns: seq<Named>, h: nat): seq<Named> {
    if ns == [] then []
    else Without(ns[..|ns| - 1], h) + if ns[|ns| - 1].handle == h then [] else [ns[|ns| - 1]]
  }

  lemma WithoutNone(h: nat)
    ensures Without([], h) == []
  {
  }

  lemma WithoutNext(ns: seq<Named>, i: nat, h: nat)
    requires i < |ns|
    ensures Without(ns[..i + 1], h) == Without(ns[..i], h) + if ns[i].handle == h then [] else [ns[i]]
  {
    assert ns[..i + 1][..i] == ns[..i];
  }

  // What is left is exactly the names of other handles.
  lemma {:induction false} WithoutIn(ns: seq<Named>, h: nat)
    ensures forall n: Named :: n in Without(ns, h) <==> n in ns && n.handle != h
    decreases |ns|
  {
    if ns != [] {
      var before, last := ns[..|ns| - 1], ns[|ns| - 1];
      WithoutIn(before, h);
      assert forall n: Named :: n in ns <==> n in before || n == last;
    }
  }

  // And it is sorted.
  lemma {:induction false} WithoutSorted(ns: seq<Named>, h: nat)
    requires Sorted(ns)
    ensures Sorted(Without(ns, h))
    decreases |ns|
  {
    hide Compare;
    if ns != [] {
      var before, last := ns[..|ns| - 1], ns[|ns| - 1];
      WithoutSorted(before, h);
      WithoutIn(before, h);
      var w := Without(before, h);
      forall k | 0 <= k < |w| ensures Compare(w[k].name, last.name) < 0 {
        assert w[k] in before;
        var j :| 0 <= j < |before| && before[j] == w[k];
        assert ns[j] == w[k] && ns[|ns| - 1] == last;
      }
      SortedLast(w, last);
    }
  }

  lemma SortedLast(w: seq<Named>, last: Named)
    requires Sorted(w) && forall k :: 0 <= k < |w| ==> Compare(w[k].name, last.name) < 0
    ensures Sorted(w + [last]) && w + [] == w
  {
    hide Compare;
  }

  lemma Between(ns: seq<Named>, k: nat, mid: nat, key: Name)
    requires Sorted(ns) && k < |ns| && mid < |ns|
    ensures k < mid && Compare(ns[mid].name, key) < 0 ==> Compare(ns[k].name, key) < 0
    ensures k > mid && Compare(ns[mid].name, key) > 0 ==> Compare(ns[k].name, key) > 0
  {
    hide Compare;
    if k < mid && Compare(ns[mid].name, key) < 0 {
      CompareTrans(ns[k].name, ns[mid].name, key);
    }
    if k > mid && Compare(ns[mid].name, key) > 0 {
      CompareFlip(ns[mid].name, key);
      CompareFlip(ns[k].name, key);
      CompareTrans(key, ns[mid].name, ns[k].name);
    }
  }

  lemma InsertSorted(ns: seq<Named>, at: nat, n: Named)
    requires Sorted(ns) && at <= |ns|
    requires Belongs(ns, at, n.name)
    ensures Sorted(ns[..at] + [n] + ns[at..])
  {
    hide Compare;
    var all := ns[..at] + [n] + ns[at..];
    forall j, k | 0 <= j < k < |all| ensures Compare(all[j].name, all[k].name) < 0 {
      if j == at {
        CompareFlip(ns[k - 1].name, n.name);
      }
    }
  }

  // The first 'i' slots have been copied, and a copied entry came from them.
  ghost predicate Copied(ss: seq<Option<Entry>>, bs: seq<Option<Entry>>, i: nat)
    requires i <= |ss|
  {
    && |bs| == 2 * |ss| > 0
    && (forall j {:trigger ss[j]} :: 0 <= j < i && ss[j].Some? ==> bs[ss[j].value.handle % |bs|] == ss[j])
    && (forall k {:trigger bs[k]} :: 0 <= k < |bs| && bs[k].Some? ==>
          k % |ss| < i && ss[k % |ss|] == bs[k] && bs[k].value.handle % |bs| == k)
  }

  lemma NothingCopied(ss: seq<Option<Entry>>, bs: seq<Option<Entry>>)
    requires |bs| == 2 * |ss| > 0 && forall k :: 0 <= k < |bs| ==> bs[k] == None
    ensures Copied(ss, bs, 0)
  {
  }

  // Copying one slot: its new slot is free.
  lemma CopyNext(ss: seq<Option<Entry>>, bs: seq<Option<Entry>>, i: nat, live: map<nat, nat>)
    requires Slotted(ss, live) && i < |ss| && Copied(ss, bs, i)
    ensures ss[i].None? ==> Copied(ss, bs, i + 1)
    ensures |bs| == 2 * |ss|
    ensures ss[i].Some? ==> var hash := ss[i].value.handle % |bs|;
      bs[hash].None? && Copied(ss, bs[hash := ss[i]], i + 1)
  {
    if ss[i].Some? {
      ModMod(ss[i].value.handle, |ss|, |bs|);
      assert ss[i].value.handle % |ss| == i;
    }
  }

  lemma DoubleSlots(ss: seq<Option<Entry>>, bs: seq<Option<Entry>>, live: map<nat, nat>)
    requires Slotted(ss, live) && Copied(ss, bs, |ss|)
    ensures Slotted(bs, live)
  {
    forall h | h in live ensures bs[h % |bs|] == Some(Entry(h, live[h])) {
      assert ss[h % |ss|] == Some(Entry(h, live[h]));
    }
    forall k | 0 <= k < |bs| && bs[k].Some? ensures bs[k].value.handle in live && live[bs[k].value.handle] == bs[k].value.ctx {
      assert ss[k % |ss|] == bs[k];
    }
  }
}
