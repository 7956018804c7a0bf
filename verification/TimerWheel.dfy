// The hierarchical timing wheel: 256 near lists and 4 levels of 64 lists, on a
// clock that wraps at 32 bits.  Every timer fires in the update in which the
// clock reaches its deadline, in the order in which the timers were added.
//
// The masks of the source keep whole blocks of low bits, so that
// 'x|(m-1) == y|(m-1)' is 'x / m == y / m', and '(x >> k) & 63' is
// 'x / 2^k % 64'.

module TimerWheel {

  const NEAR: nat := 256
  const LEVEL: nat := 64
  const WORD: nat := 0x1_0000_0000
  const LIMIT: nat := 0x8000_0000  // a delay is a positive int

  // 'id' is the event that the node carries.
  datatype Node = Node(expire: nat, id: nat)

  datatype Slot = Near(i: nat) | Level(l: nat, i: nat)

  // The width of a list at level 'l'.
  function Width(l: nat): (w: nat)
    ensures w > 0
  {
    if l == 0 then 0x100 else if l == 1 then 0x4000 else if l == 2 then 0x10_0000 else 0x400_0000
  }

  function LevelOf(e: nat, t: nat): (l: nat)
    ensures l <= 3
  {
    if e / Width(1) == t / Width(1) then 0
    else if e / Width(2) == t / Width(2) then 1
    else if e / Width(3) == t / Width(3) then 2
    else 3
  }

  // Where a timer that expires at 'e' is kept when the clock shows 't'.
  function SlotOf(e: nat, t: nat): Slot {
    if e / NEAR == t / NEAR then Near(e % NEAR) else Level(LevelOf(e, t), e / Width(LevelOf(e, t)) % LEVEL)
  }

  predicate IsSlot(s: Slot) {
    match s
    case Near(i) => i < NEAR
    case Level(l, i) => l < 4 && i < LEVEL
  }

  // The list that is spread again when the clock becomes 'ct'.
  function Cascade(ct: nat): (s: Slot)
    requires ct < WORD && ct % NEAR == 0
    ensures IsSlot(s) && s.Level?
  {
    if ct / Width(0) % LEVEL != 0 then Level(0, ct / Width(0) % LEVEL)
    else if ct / Width(1) % LEVEL != 0 then Level(1, ct / Width(1) % LEVEL)
    else if ct / Width(2) % LEVEL != 0 then Level(2, ct / Width(2) % LEVEL)
    else Level(3, ct / Width(3) % LEVEL)
  }

  predicate Cascades(ct: nat, s: Slot) { ct < WORD && ct % NEAR == 0 && s == Cascade(ct) }

  // ------------------------------------------------------------ clock arithmetic

  // 'e' comes after the clock 't' by less than half a turn.
  predicate After(e: nat, t: nat) { e < WORD && t < WORD && 1 <= (e - t) % WORD < LIMIT }

  lemma AfterCases(e: nat, t: nat)
    requires After(e, t)
    ensures t < e < t + LIMIT || e + WORD < t + LIMIT
  {
    if e < t {
      assert (e - t) % WORD == e - t + WORD;
    }
  }

  // The numbers of the blocks that contain 'x', level by level.
  lemma Blocks(x: nat)
    ensures x / Width(1) == x / Width(0) / LEVEL
    ensures x / Width(2) == x / Width(1) / LEVEL
    ensures x / Width(3) == x / Width(2) / LEVEL
    ensures x / NEAR == x / Width(0)
  {
  }

  // One tick, in blocks of width 'w': a block is left only at its last unit.
  lemma TickBlock(t: nat, w: nat)
    requires w > 0
    ensures (t + 1) / w == t / w + if (t + 1) % w == 0 then 1 else 0
  {
    var q, r := t / w, t % w;
    assert t == q * w + r;
    if r + 1 == w {
      assert t + 1 == (q + 1) * w;
      Divide(t + 1, w, q + 1, 0);
    } else {
      Divide(t + 1, w, q, r + 1);
    }
  }

  lemma Divide(x: nat, w: nat, q: nat, r: nat)
    requires w > 0 && x == q * w + r && r < w
    ensures x / w == q && x % w == r
  {
    var k, m := x / w - q, x % w;
    assert x == (q + k) * w + m == q * w + k * w + m;
    assert k == 0 by {
      if k >= 1 {
        Scale(1, k, w);
      } else if k <= -1 {
        Scale(k, -1, w);
      }
    }
  }

  lemma Scale(a: int, b: int, w: nat)
    requires a <= b
    ensures a * w <= b * w
  {
  }

  // The clock enters a new block at level 'l' exactly when it enters a new one
  // at the level below and that is the first of its 64.
  lemma TickLevels(t: nat)
    ensures
      var ct := t + 1;
      && ct / Width(0) == t / Width(0) + (if ct % NEAR == 0 then 1 else 0)
      && ct / Width(1) == t / Width(1) + (if ct % NEAR == 0 && ct / Width(0) % LEVEL == 0 then 1 else 0)
      && ct / Width(2) == t / Width(2) + (if ct % NEAR == 0 && ct / Width(0) % LEVEL == 0 && ct / Width(1) % LEVEL == 0 then 1 else 0)
      && ct / Width(3) == t / Width(3)
         + (if ct % NEAR == 0 && ct / Width(0) % LEVEL == 0 && ct / Width(1) % LEVEL == 0 && ct / Width(2) % LEVEL == 0 then 1 else 0)
  {
    var ct := t + 1;
    Blocks(t);
    Blocks(ct);
    TickBlock(t, NEAR);
    if ct % NEAR == 0 {
      TickBlock(t / Width(0), LEVEL);
      if ct / Width(0) % LEVEL == 0 {
        TickBlock(t / Width(1), LEVEL);
        if ct / Width(1) % LEVEL == 0 {
          TickBlock(t / Width(2), LEVEL);
        }
      }
    }
  }

  // A later time is in the same block or in a later one.
  lemma LaterBlock(x: nat, y: nat, w: nat)
    requires w > 0 && x <= y
    ensures x / w <= y / w
  {
    assert x == x / w * w + x % w && y == y / w * w + y % w;
    if x / w > y / w {
      Scale(y / w + 1, x / w, w);
    }
  }

  // The slot in terms of blocks.
  lemma ShiftBlocks(e0: nat, e1: nat, e2: nat, e3: nat, t0: nat, t1: nat, t2: nat, t3: nat, c0: nat, c1: nat, c2: nat, c3: nat)
    requires e1 == e0 / LEVEL && e2 == e1 / LEVEL && e3 == e2 / LEVEL && e3 < LEVEL
    requires c1 == c0 / LEVEL && c2 == c1 / LEVEL && c3 == c2 / LEVEL && c3 < LEVEL
    requires c0 == t0 + 1
    requires c1 == t1 + if c0 % LEVEL == 0 then 1 else 0
    requires c2 == t2 + if c0 % LEVEL == 0 && c1 % LEVEL == 0 then 1 else 0
    requires c3 == t3 + if c0 % LEVEL == 0 && c1 % LEVEL == 0 && c2 % LEVEL == 0 then 1 else 0
    requires (e0 >= c0 && e1 >= c1 && e2 >= c2 && e3 >= c3) || (e3 < t3 && e3 < c3)
    ensures LevelSlot(e0, e1, e2, e3, t0, t1, t2, t3) == FirstDigit(c0, c1, c2, c3)
         || LevelSlot(e0, e1, e2, e3, t0, t1, t2, t3) == LevelSlot(e0, e1, e2, e3, c0, c1, c2, c3)
  {
  }

  // Slots as functions of block numbers.
  datatype Place = AtNear | At(l: nat, i: nat)

  function LevelSlot(e0: nat, e1: nat, e2: nat, e3: nat, t0: nat, t1: nat, t2: nat, t3: nat): Place {
    if e0 == t0 then AtNear
    else if e1 == t1 then At(0, e0 % LEVEL)
    else if e2 == t2 then At(1, e1 % LEVEL)
    else if e3 == t3 then At(2, e2 % LEVEL)
    else At(3, e3 % LEVEL)
  }

  function FirstDigit(c0: nat, c1: nat, c2: nat, c3: nat): Place {
    if c0 % LEVEL != 0 then At(0, c0 % LEVEL)
    else if c1 % LEVEL != 0 then At(1, c1 % LEVEL)
    else if c2 % LEVEL != 0 then At(2, c2 % LEVEL)
    else At(3, c3 % LEVEL)
  }

  function PlaceOf(s: Slot): Place { match s case Near(_) => AtNear case Level(l, i) => At(l, i) }

  lemma SlotPlace(e: nat, t: nat)
    ensures PlaceOf(SlotOf(e, t)) == LevelSlot(e / Width(0), e / Width(1), e / Width(2), e / Width(3),
                                               t / Width(0), t / Width(1), t / Width(2), t / Width(3))
    ensures SlotOf(e, t).Near? ==> SlotOf(e, t).i == e % NEAR
  {
  }

  lemma CascadePlace(ct: nat)
    requires ct < WORD && ct % NEAR == 0
    ensures PlaceOf(Cascade(ct)) == FirstDigit(ct / Width(0), ct / Width(1), ct / Width(2), ct / Width(3))
  {
  }

  lemma TopBlock(x: nat)
    requires x < WORD
    ensures x / Width(3) < LEVEL
  {
  }

  // A timer whose list is not spread again is already where the new clock
  // wants it.
  lemma ShiftSlot(e: nat, t: nat)
    requires After(e, t)
    ensures var ct := (t + 1) % WORD;
      Cascades(ct, SlotOf(e, t)) || SlotOf(e, t) == SlotOf(e, ct)
  {
    hide SlotOf, LevelOf, Width, LevelSlot, FirstDigit, Cascade;
    AfterCases(e, t);
    if t + 1 == WORD {
      ShiftWrap(e);
    } else {
      var ct := t + 1;
      assert ct % WORD == ct;
      SlotPlace(e, t);
      SlotPlace(e, ct);
      TickDigits(e, t);
      if ct % NEAR == 0 {
        CascadePlace(ct);
      }
    }
  }

  lemma TickDigits(e: nat, t: nat)
    requires t + 1 < WORD && After(e, t)
    ensures
      var p := LevelSlot(e / Width(0), e / Width(1), e / Width(2), e / Width(3),
                         t / Width(0), t / Width(1), t / Width(2), t / Width(3));
      var ct := t + 1;
      || (ct % NEAR == 0 && p == FirstDigit(ct / Width(0), ct / Width(1), ct / Width(2), ct / Width(3)))
      || p == LevelSlot(e / Width(0), e / Width(1), e / Width(2), e / Width(3),
                        ct / Width(0), ct / Width(1), ct / Width(2), ct / Width(3))
  {
    hide Width, LevelSlot, FirstDigit;
    var ct := t + 1;
    AfterCases(e, t);
    Blocks(e);
    TopBlock(e);
    TickLevels(t);
    Blocks(ct);
    TopBlock(ct);
    if e > t {
      LaterBlock(ct, e, Width(0));
      LaterBlock(ct, e, Width(1));
      LaterBlock(ct, e, Width(2));
      LaterBlock(ct, e, Width(3));
    } else {
      FarBlock(e, t);
    }
    if ct % NEAR == 0 {
      ShiftBlocks(e / Width(0), e / Width(1), e / Width(2), e / Width(3),
                  t / Width(0), t / Width(1), t / Width(2), t / Width(3),
                  ct / Width(0), ct / Width(1), ct / Width(2), ct / Width(3));
    }
  }

  lemma FarBlock(e: nat, t: nat)
    requires e + WORD < t + LIMIT
    ensures e / Width(3) < t / Width(3) <= (t + 1) / Width(3)
  {
  }

  lemma ShiftWrap(e: nat)
    requires e + 1 < LIMIT
    ensures Cascades(0, SlotOf(e, WORD - 1)) || SlotOf(e, WORD - 1) == SlotOf(e, 0)
  {
    Blocks(e);
  }

  // ------------------------------------------------------------ the wheel as a value

  // 'lists' is what every list holds, in order; 'now' counts the ticks without
  // wrapping; the timers due by 'done' have been dispatched; 'log' has the
  // deadline of every timer ever added.
  datatype Wheel = Wheel(lists: imap<Slot, seq<Node>>, now: nat, done: nat, log: seq<nat>) {

    ghost predicate Shape() {
      (forall s: Slot :: s in lists <==> IsSlot(s)) && done <= now <= done + 1
    }

    function Clock(): nat { now % WORD }

    ghost predicate Pending(n: Node) {
      n.id < |log| && done < log[n.id] < now + LIMIT && n.expire == log[n.id] % WORD
    }

    // The node of a timer.
    function NodeOf(id: nat): Node
      requires id < |log|
    {
      Node(log[id] % WORD, id)
    }

    // The list where the node belongs.
    function Home(n: Node): Slot { SlotOf(n.expire, Clock()) }

    ghost predicate Listed(n: Node)
      requires Shape()
    {
      Home(n) in lists && n in lists[Home(n)]
    }

    // Every pending timer is in its list or in 'hand', and timers with the same
    // expiry are in the order in which they were added.
    ghost predicate Held(hand: seq<Node>) {
      && Shape()
      && (forall s, k {:trigger lists[s][k]} :: IsSlot(s) && 0 <= k < |lists[s]| ==> Pending(lists[s][k]) && Home(lists[s][k]) == s)
      && (forall k {:trigger hand[k]} :: 0 <= k < |hand| ==> Pending(hand[k]))
      && (forall id {:trigger NodeOf(id)} :: 0 <= id < |log| && log[id] > done ==> NodeOf(id) in hand || Listed(NodeOf(id)))
      && (forall s {:trigger lists[s]} :: IsSlot(s) ==> Ordered(lists[s]))
      && Ordered(hand)
      && (forall s, j, k {:trigger lists[s][j], hand[k]} :: IsSlot(s) && 0 <= j < |lists[s]| && 0 <= k < |hand| ==> Older(lists[s][j], hand[k]))
    }
  }

  predicate Older(x: Node, y: Node) { x.expire == y.expire ==> x.id < y.id }

  ghost predicate Ordered(a: seq<Node>) {
    forall j, k {:trigger a[j], a[k]} :: 0 <= j < k < |a| ==> Older(a[j], a[k])
  }

  lemma SlotExists(e: nat, t: nat)
    requires e < WORD && t < WORD
    ensures IsSlot(SlotOf(e, t))
  {
  }

  // Linking the first node in hand to its list.
  ghost function Put(w: Wheel, n: Node): Wheel
    requires w.Shape() && IsSlot(w.Home(n))
  {
    w.(lists := w.lists[w.Home(n) := w.lists[w.Home(n)] + [n]])
  }

  lemma PutHeld(w: Wheel, n: Node, rest: seq<Node>)
    requires w.Held([n] + rest)
    ensures IsSlot(w.Home(n)) && Put(w, n).Held(rest)
  {
    hide SlotOf;
    var hand := [n] + rest;
    assert hand[0] == n;
    SlotExists(n.expire, w.Clock());
    var w' := Put(w, n);
    assert forall k :: 0 <= k < |rest| ==> rest[k] == hand[k + 1];
    forall id {:trigger w'.NodeOf(id)} | 0 <= id < |w'.log| && w'.log[id] > w'.done
      ensures w'.NodeOf(id) in rest || w'.Listed(w'.NodeOf(id))
    {
      assert w.NodeOf(id) in hand || w.Listed(w.NodeOf(id));
    }
    PutOrdered(w, n, rest);
  }

  lemma PutOrdered(w: Wheel, n: Node, rest: seq<Node>)
    requires w.Held([n] + rest) && IsSlot(w.Home(n))
    ensures forall s {:trigger Put(w, n).lists[s]} :: IsSlot(s) ==> Ordered(Put(w, n).lists[s])
    ensures Ordered(rest)
    ensures forall s, j, k {:trigger Put(w, n).lists[s][j], rest[k]} ::
      IsSlot(s) && 0 <= j < |Put(w, n).lists[s]| && 0 <= k < |rest| ==> Older(Put(w, n).lists[s][j], rest[k])
  {
    hide SlotOf;
    var hand := [n] + rest;
    assert hand[0] == n && forall k :: 0 <= k < |rest| ==> rest[k] == hand[k + 1];
  }

  // ------------------------------------------------------------ ticks

  lemma ModAfter(x: nat, y: nat)
    requires y < x < y + LIMIT
    ensures After(x % WORD, y % WORD)
  {
  }

  lemma ModNext(x: nat)
    ensures (x + 1) % WORD == (x % WORD + 1) % WORD
  {
  }

  // A tick leaves every node where the new clock wants it, except those of the
  // list that is to be spread, which are in hand.
  ghost function Tick(w: Wheel, s: Slot): Wheel
  {
    if Cascades((w.Clock() + 1) % WORD, s) then w.(now := w.now + 1, lists := w.lists[s := []]) else w.(now := w.now + 1)
  }

  ghost function TickHand(w: Wheel, s: Slot): seq<Node>
    requires IsSlot(s) && w.Shape()
  {
    if Cascades((w.Clock() + 1) % WORD, s) then w.lists[s] else []
  }

  lemma StayHome(w: Wheel, n: Node, s: Slot)
    requires w.Pending(n) && w.done == w.now && IsSlot(s)
    requires (w.Clock() + 1) % WORD % NEAR == 0 ==> Cascades((w.Clock() + 1) % WORD, s)
    requires !(Cascades((w.Clock() + 1) % WORD, s) && w.Home(n) == s)
    ensures Tick(w, s).Home(n) == w.Home(n)
  {
    hide SlotOf, Cascade;
    ModAfter(w.log[n.id], w.now);
    ModNext(w.now);
    ShiftSlot(n.expire, w.Clock());
  }

  lemma TickHeld(w: Wheel, s: Slot)
    requires w.Held([]) && w.done == w.now && IsSlot(s)
    requires (w.Clock() + 1) % WORD % NEAR == 0 ==> Cascades((w.Clock() + 1) % WORD, s)
    ensures Tick(w, s).Held(TickHand(w, s))
  {
    hide SlotOf, Cascades;
    var w', hand := Tick(w, s), TickHand(w, s);
    forall s', k {:trigger w'.lists[s'][k]} | IsSlot(s') && 0 <= k < |w'.lists[s']|
      ensures w'.Pending(w'.lists[s'][k]) && w'.Home(w'.lists[s'][k]) == s'
    {
      assert w'.lists[s'] == w.lists[s'];
      StayHome(w, w.lists[s'][k], s);
    }
    forall id {:trigger w'.NodeOf(id)} | 0 <= id < |w'.log| && w'.log[id] > w'.done
      ensures w'.NodeOf(id) in hand || w'.Listed(w'.NodeOf(id))
    {
      var n := w.NodeOf(id);
      assert w.Listed(n);
      if !(Cascades((w.Clock() + 1) % WORD, s) && w.Home(n) == s) {
        StayHome(w, n, s);
      }
    }
  }

  // The timers due at 't', in the order in which they were added.
  ghost function Due(log: seq<nat>, t: nat): seq<nat> {
    if |log| == 0 then [] else
    Due(log[..|log| - 1], t) + if log[|log| - 1] == t then [|log| - 1] else []
  }

  ghost predicate Rising(a: seq<nat>) { forall j, k :: 0 <= j < k < |a| ==> a[j] < a[k] }

  // They are exactly the timers with that deadline, and in rising order.
  lemma {:induction false} DueIs(log: seq<nat>, t: nat)
    ensures Rising(Due(log, t))
    ensures forall id: nat :: id in Due(log, t) <==> id < |log| && log[id] == t
  {
    if |log| > 0 {
      var init := log[..|log| - 1];
      DueIs(init, t);
      DueLast(Due(init, t), init, log[|log| - 1], t);
      assert log == init + [log[|log| - 1]];
    }
  }

  lemma DueLast(before: seq<nat>, init: seq<nat>, last: nat, t: nat)
    requires Rising(before) && forall id: nat :: id in before <==> id < |init| && init[id] == t
    ensures var after, log := before + (if last == t then [|init|] else []), init + [last];
      Rising(after) && forall id: nat :: id in after <==> id < |log| && log[id] == t
  {
    forall k | 0 <= k < |before| ensures before[k] < |init| {
      assert before[k] in before;
    }
  }

  lemma {:induction false} RisingUnique(a: seq<nat>, b: seq<nat>)
    requires Rising(a) && Rising(b) && forall x: nat :: x in a <==> x in b
    ensures a == b
    decreases |a|
  {
    assert |b| > 0 ==> b[|b| - 1] in a;
    if |a| > 0 {
      assert a[|a| - 1] in b;
      var x, a', b' := a[|a| - 1], a[..|a| - 1], b[..|b| - 1];
      assert x == b[|b| - 1];
      forall y: nat ensures y in a' <==> y in b' {
        assert y in a' <==> y in a && y != x;
        assert y in b' <==> y in b && y != x;
      }
      RisingUnique(a', b');
      assert a == a' + [x] && b == b' + [x];
    }
  }

  ghost function IdsOf(a: seq<Node>): seq<nat> { seq(|a|, k requires 0 <= k < |a| => a[k].id) }

  lemma NearNow(w: Wheel, n: Node)
    requires w.Pending(n) && w.done + 1 == w.now && w.Home(n) == Near(w.Clock() % NEAR)
    ensures w.log[n.id] == w.now
  {
  }

  lemma HomeNow(w: Wheel, n: Node)
    requires n.expire == w.Clock()
    ensures w.Home(n) == Near(w.Clock() % NEAR)
  {
  }

  // The near list of the clock has exactly the timers that are due.
  lemma TakeHeld(w: Wheel)
    requires w.Held([]) && w.done + 1 == w.now
    ensures var s := Near(w.Clock() % NEAR);
      && IsSlot(s) && s in w.lists && IdsOf(w.lists[s]) == Due(w.log, w.now)
      && w.(done := w.now, lists := w.lists[s := []]).Held([])
  {
    hide SlotOf;
    var s := Near(w.Clock() % NEAR);
    var a, w' := w.lists[s], w.(done := w.now, lists := w.lists[s := []]);
    assert IsSlot(s);
    forall k | 0 <= k < |a| ensures w.log[a[k].id] == w.now && a[k].expire == w.Clock() && a[k].id < |w.log| {
      assert a[k] == w.lists[s][k];
      NearNow(w, a[k]);
    }
    forall id: nat | id < |w.log| && w.log[id] > w.done
      ensures w.Listed(w.NodeOf(id)) && (w.log[id] == w.now ==> id in IdsOf(a) && w.Home(w.NodeOf(id)) == s)
    {
      var n := w.NodeOf(id);
      assert w.Listed(n);
      if w.log[id] == w.now {
        HomeNow(w, n);
        var k :| 0 <= k < |a| && a[k] == n;
        assert IdsOf(a)[k] == id;
      }
    }
    DueIs(w.log, w.now);
    assert Rising(IdsOf(a)) by {
      assert Ordered(a);
      forall j, k | 0 <= j < k < |a| ensures a[j].id < a[k].id { assert Older(a[j], a[k]); }
    }
    forall x: nat ensures x in IdsOf(a) <==> x in Due(w.log, w.now) {
      if x in IdsOf(a) {
        var k :| 0 <= k < |a| && IdsOf(a)[k] == x;
      }
    }
    RisingUnique(IdsOf(a), Due(w.log, w.now));
    TakeRest(w);
  }

  lemma TakeRest(w: Wheel)
    requires w.Held([]) && w.done + 1 == w.now
    ensures var s := Near(w.Clock() % NEAR); w.(done := w.now, lists := w.lists[s := []]).Held([])
  {
    hide SlotOf;
    var s := Near(w.Clock() % NEAR);
    var w' := w.(done := w.now, lists := w.lists[s := []]);
    forall s', k {:trigger w'.lists[s'][k]} | IsSlot(s') && 0 <= k < |w'.lists[s']|
      ensures w'.Pending(w'.lists[s'][k]) && w'.Home(w'.lists[s'][k]) == s'
    {
      var n := w.lists[s'][k];
      assert w.Pending(n) && w.Home(n) == s';
      if w.log[n.id] == w.now {
        HomeNow(w, n);
      }
    }
    forall id {:trigger w'.NodeOf(id)} | 0 <= id < |w'.log| && w'.log[id] > w'.done
      ensures w'.Listed(w'.NodeOf(id))
    {
      var n := w.NodeOf(id);
      assert w.Listed(n);
      if w.Home(n) == s {
        NearNow(w, n);
      }
    }
  }

  // Before the tick no timer is due.
  lemma NoneDue(w: Wheel)
    requires w.Held([]) && w.done == w.now
    ensures var s := Near(w.Clock() % NEAR); IsSlot(s) && s in w.lists && w.lists[s] == []
  {
    hide SlotOf;
    var s := Near(w.Clock() % NEAR);
    assert IsSlot(s);
    if |w.lists[s]| > 0 {
      var n := w.lists[s][0];
      assert w.Pending(n) && w.Home(n) == s;
      NearSame(n.expire, w.Clock());
      ModAfter(w.log[n.id], w.now);
    }
  }

  lemma NearSame(e: nat, t: nat)
    requires SlotOf(e, t) == Near(t % NEAR)
    ensures e == t
  {
  }

  // A new timer, in hand.
  lemma AddHeld(w: Wheel, delay: nat)
    requires w.Held([]) && 1 <= delay < LIMIT
    ensures var w' := w.(log := w.log + [w.now + delay]);
      w'.Held([Node((delay + w.Clock()) % WORD, |w.log|)])
  {
    hide SlotOf;
    var w' := w.(log := w.log + [w.now + delay]);
    var n := Node((delay + w.Clock()) % WORD, |w.log|);
    assert n == w'.NodeOf(|w.log|);
    forall id {:trigger w'.NodeOf(id)} | 0 <= id < |w'.log| && w'.log[id] > w'.done
      ensures w'.NodeOf(id) in [n] || w'.Listed(w'.NodeOf(id))
    {
      if id < |w.log| {
        assert w.NodeOf(id) == w'.NodeOf(id);
        assert w.Listed(w.NodeOf(id));
      }
    }
    forall s, k {:trigger w'.lists[s][k]} | IsSlot(s) && 0 <= k < |w'.lists[s]|
      ensures w'.Pending(w'.lists[s][k]) && w'.Home(w'.lists[s][k]) == s
    {
      assert w.Pending(w.lists[s][k]);
    }
  }

  // ------------------------------------------------------------ the timer

  class Timer {
    var near: array<seq<Node>>
    var t: array2<seq<Node>>
    var time: nat
    ghost var now: nat
    ghost var done: nat
    ghost var log: seq<nat>

    ghost predicate Shape()
      reads this
    {
      near.Length == NEAR && t.Length0 == 4 && t.Length1 == LEVEL && time == now % WORD && done <= now <= done + 1
    }

    ghost function List(s: Slot): seq<Node>
      requires Shape() && IsSlot(s)
      reads this, near, t
    {
      match s case Near(i) => near[i] case Level(l, i) => t[l, i]
    }

    ghost function Model(): (w: Wheel)
      requires Shape()
      ensures w.Shape()
      reads this, near, t
    {
      Wheel(imap s: Slot | IsSlot(s) :: List(s), now, done, log)
    }

    // Between two updates: every pending timer is where the clock wants it.
    ghost predicate Valid()
      reads this, near, t
    {
      Shape() && done == now && Model().Held([])
    }

    constructor ()
      ensures Valid() && fresh(near) && fresh(t) && now == 0 && log == []
    {
      near := new seq<Node>[NEAR](_ => []);
      t := new seq<Node>[4, LEVEL]((_, _) => []);
      time, now, done, log := 0, 0, 0, [];
    }

    // The first level whose block of the clock holds the expiry, and the width
    // of its lists.
    static method FindLevel(e: nat, now: nat) returns (i: nat, width: nat)
      ensures i == LevelOf(e, now) && width == Width(i)
    {
      width := NEAR;
      i := 0;
      var mask := NEAR * LEVEL;
      while i < 3 && e / mask != now / mask
        invariant 0 <= i <= 3 && width == Width(i) && mask == width * LEVEL
        invariant i > 0 ==> e / Width(1) != now / Width(1)
        invariant i > 1 ==> e / Width(2) != now / Width(2)
        invariant i > 2 ==> e / Width(3) != now / Width(3)
      {
        mask, width := mask * LEVEL, width * LEVEL;
        i := i + 1;
      }
    }

    // Put a node where its expiry and the clock say.
    method AddNode(node: Node)
      requires Shape() && node.expire < WORD
      modifies near, t
      ensures Shape() && IsSlot(Model().Home(node)) && Model() == Put(old(Model()), node)
    {
      hide LevelOf, Width;
      ghost var slot := SlotOf(node.expire, time);
      SlotExists(node.expire, time);
      if node.expire / NEAR == time / NEAR {
        near[node.expire % NEAR] := near[node.expire % NEAR] + [node];
      } else {
        var i, width := FindLevel(node.expire, time);
        t[i, node.expire / width % LEVEL] := t[i, node.expire / width % LEVEL] + [node];
      }
      assert Model().lists[slot] == old(Model()).lists[slot] + [node];
      assert forall s :: IsSlot(s) && s != slot ==> Model().lists[s] == old(Model()).lists[s];
      assert Model().lists == Put(old(Model()), node).lists;
    }

    // Spread a list over the lists below it.
    method MoveList(level: nat, idx: nat)
      requires Shape() && level < 4 && idx < LEVEL
      requires var w := Model(); w.(lists := w.lists[Level(level, idx) := []]).Held(w.lists[Level(level, idx)])
      modifies near, t
      ensures Shape() && Model().Held([])
    {
      hide Wheel.Held, SlotOf;
      ghost var s := Level(level, idx);
      ghost var w := Model();
      var current := t[level, idx];
      t[level, idx] := [];
      assert Model().lists == w.lists[s := []];
      assert Model() == w.(lists := w.lists[s := []]);
      while current != []
        invariant Shape() && Model().Held(current)
        decreases |current|
      {
        var temp := current[1..];
        assert current == [current[0]] + temp;
        HeldHead(Model(), current[0], temp);
        PutHeld(Model(), current[0], temp);
        AddNode(current[0]);
        current := temp;
      }
    }

    // Which list the new time spreads: its lowest digit that is not zero.
    static method FindDigit(ct: nat) returns (found: bool, i: nat, idx: nat)
      requires 0 < ct < WORD
      ensures found == (ct % NEAR == 0) && (found ==> Level(i, idx) == Cascade(ct))
    {
      hide *;
      ReachedStart(ct);
      var mask, time := 256, ct / 256;
      i, idx := 0, 0;
      while ct % mask == 0
        invariant Reached(ct, i) && 0 <= i <= 3 && mask == Width(i) && time == ct / Width(i)
        decreases 4 - i
      {
        idx := time % 64;
        if idx != 0 {
          DigitFound(ct, i);
          return true, i, idx;
        }
        ReachedNext(ct, i);
        mask := mask * 64;
        time := time / 64;
        i := i + 1;
      }
      NoDigit(ct, i);
      return false, i, idx;
    }

    method Shift()
      requires Valid()
      modifies this`time, this`now, near, t
      ensures Shape() && now == old(now) + 1 && Model().Held([])
    {
      hide Wheel.Held, SlotOf, Cascade;
      ghost var w := Model();
      time := (time + 1) % WORD;
      now := now + 1;
      ModNext(old(now));
      assert time == (w.Clock() + 1) % WORD;
      assert Model().lists == w.lists;
      if time == 0 {
        CascadeZero();
        TickHeld(w, Level(3, 0));
        assert Model().(lists := Model().lists[Level(3, 0) := []]) == Tick(w, Level(3, 0));
        MoveList(3, 0);
      } else {
        var found, i, idx := FindDigit(time);
        if found {
          TickHeld(w, Level(i, idx));
          assert Model().(lists := Model().lists[Level(i, idx) := []]) == Tick(w, Level(i, idx));
          MoveList(i, idx);
        } else {
          TickHeld(w, Near(0));
          assert Model() == Tick(w, Near(0));
        }
      }
    }

    // Add a timer; 'id' numbers the timers in the order in which they come.
    method Add(delay: nat, id: nat)
      requires Shape() && Model().Held([]) && 1 <= delay < LIMIT && id == |log|
      modifies this`log, near, t
      ensures Shape() && Model().Held([]) && log == old(log) + [now + delay]
    {
      hide Wheel.Held, SlotOf;
      ghost var w := Model();
      AddHeld(w, delay);
      log := log + [now + delay];
      assert Model().lists == w.lists;
      assert Model() == w.(log := w.log + [w.now + delay]);
      var node := Node((delay + time) % WORD, id);
      assert [node] == [node] + [];
      PutHeld(Model(), node, []);
      AddNode(node);
    }

    // Timers that other threads add.
    method AddAll(delays: seq<nat>, first: nat)
      requires Shape() && Model().Held([]) && Delays(delays) && first == |log|
      modifies this`log, near, t
      ensures Shape() && Model().Held([]) && log == old(log) + Deadlines(now, delays)
    {
      hide Wheel.Held, Deadlines;
      NoDeadlines(now);
      var k := 0;
      assert log == old(log) + [];
      while k < |delays|
        invariant 0 <= k <= |delays| && Shape() && Model().Held([]) && |log| == first + k
        invariant log == old(log) + Deadlines(now, delays[..k])
      {
        DeadlinesNext(log, old(log), now, delays, k);
        Add(delays[k], first + k);
        k := k + 1;
      }
      assert delays[..k] == delays;
    }

    // Dispatch what is due, with the lock open while a list is dispatched:
    // other threads add timers then.
    method Execute(adds: seq<nat>, first: nat) returns (fired: seq<nat>)
      requires Shape() && Model().Held([]) && Delays(adds) && first == |log|
      modifies this`done, this`log, near, t
      ensures Valid()
      ensures fired == if old(done) == now then [] else Due(old(log), now)
      ensures log == old(log) + (if fired == [] then [] else Deadlines(now, adds))
    {
      hide Wheel.Held, SlotOf, Due, IdsOf, Deadlines;
      var idx := time % NEAR;
      var todo := adds;
      fired := [];
      ghost var taken := false;
      while near[idx] != []
        invariant Shape() && Model().Held([]) && now == old(now)
        invariant !taken ==> done == old(done) && log == old(log) && fired == [] && todo == adds
        invariant taken ==> done == now && old(done) < now && fired == Due(old(log), now) && fired != []
        invariant taken ==> todo == [] && log == old(log) + Deadlines(now, adds)
        decreases now - done
      {
        if done == now {
          NoneDue(Model());
        }
        var current := TakeDue(idx);
        var out := Dispatch(current);
        fired := fired + out;
        AddAll(todo, first);
        todo := [];
        taken := true;
      }
      if !taken && done < now {
        Settle();
      }
      assert taken || log == old(log) + [];
    }

    // Take the list of the current time, which is all that is due.
    method TakeDue(idx: nat) returns (list: seq<Node>)
      requires Shape() && Model().Held([]) && done < now && idx == time % NEAR
      modifies this`done, near
      ensures Shape() && Model().Held([]) && done == now
      ensures list == old(near[idx]) && IdsOf(list) == Due(log, now)
    {
      hide Wheel.Held, SlotOf, Due, IdsOf;
      ghost var w := Model();
      TakeHeld(w);
      list := near[idx];
      near[idx] := [];
      done := now;
      assert Model().lists == w.lists[Near(idx) := []];
      assert Model() == w.(done := w.now, lists := w.lists[Near(idx) := []]);
    }

    // There is nothing to take: nothing is due.
    ghost method Settle()
      requires Shape() && Model().Held([]) && done < now && near[time % NEAR] == []
      modifies this`done
      ensures Valid() && Due(log, now) == []
    {
      hide Wheel.Held, SlotOf, Due;
      ghost var w := Model();
      TakeHeld(w);
      done := now;
      assert Model().lists == w.lists[Near(time % NEAR) := []];
      assert Model() == w.(done := w.now, lists := w.lists[Near(time % NEAR) := []]);
    }

    // Send the events of a list, in its order.
    static method Dispatch(list: seq<Node>) returns (out: seq<nat>)
      ensures out == IdsOf(list) && |out| == |list|
    {
      out := [];
      var current := list;
      while current != []
        invariant |current| <= |list| && current == list[|list| - |current|..]
        invariant out == IdsOf(list[..|list| - |current|])
        decreases |current|
      {
        out := out + [current[0].id];
        current := current[1..];
      }
      assert list[..|list|] == list;
    }

    // One tick: what fires is exactly what is due at the new time.
    method Update(adds: seq<nat>, first: nat) returns (fired: seq<nat>)
      requires Valid() && Delays(adds) && first == |log|
      modifies this`time, this`now, this`done, this`log, near, t
      ensures Valid() && now == old(now) + 1
      ensures fired == Due(log, now) && fired == Due(old(log), now)
      ensures log == old(log) + (if fired == [] then [] else Deadlines(now, adds))
    {
      hide Wheel.Held, Due, Deadlines;
      var none := Execute([], first);
      assert none == [] && log == old(log);
      Shift();
      fired := Execute(adds, first);
      DeadlinesLater(now, adds);
      DueLater(old(log), if fired == [] then [] else Deadlines(now, adds), now);
    }
  }

  lemma DeadlinesLater(now: nat, d: seq<nat>)
    requires Delays(d)
    ensures forall k :: 0 <= k < |Deadlines(now, d)| ==> Deadlines(now, d)[k] != now
  {
  }

  // Timers with other deadlines do not matter.
  lemma {:induction false} DueLater(log: seq<nat>, more: seq<nat>, t: nat)
    requires forall k :: 0 <= k < |more| ==> more[k] != t
    ensures Due(log + more, t) == Due(log, t)
    decreases |more|
  {
    if |more| == 0 {
      assert log + more == log;
    } else {
      var all := log + more;
      assert all[..|all| - 1] == log + more[..|more| - 1];
      DueLater(log, more[..|more| - 1], t);
    }
  }

  predicate Delays(d: seq<nat>) { forall k :: 0 <= k < |d| ==> 1 <= d[k] < LIMIT }

  function Deadlines(now: nat, d: seq<nat>): seq<nat> { seq(|d|, k requires 0 <= k < |d| => now + d[k]) }

  lemma NoDeadlines(now: nat)
    ensures forall d: seq<nat> :: d == [] ==> Deadlines(now, d) == []
  {
  }

  lemma DeadlinesNext(log: seq<nat>, before: seq<nat>, now: nat, d: seq<nat>, k: nat)
    requires k < |d| && log == before + Deadlines(now, d[..k])
    ensures log + [now + d[k]] == before + Deadlines(now, d[..k + 1])
  {
    assert Deadlines(now, d[..k + 1]) == Deadlines(now, d[..k]) + [now + d[k]];
  }

  // The new time is in the middle of no block below level 'i'.
  ghost predicate Reached(ct: nat, i: nat) {
    && i <= 3
    && (i > 0 ==> ct % NEAR == 0 && ct % Width(i) == 0 && ct / Width(0) % LEVEL == 0)
    && (i > 1 ==> ct / Width(1) % LEVEL == 0)
    && (i > 2 ==> ct / Width(2) % LEVEL == 0)
  }

  lemma ReachedStart(ct: nat)
    ensures Reached(ct, 0) && Width(0) == 256
  {
  }

  // A digit that is zero, the last one excepted, leads to the next level.
  lemma ReachedNext(ct: nat, i: nat)
    requires Reached(ct, i) && 0 < ct < WORD && ct % Width(i) == 0 && ct / Width(i) % 64 == 0
    ensures i < 3 && Reached(ct, i + 1) && Width(i + 1) == Width(i) * 64 && ct / Width(i + 1) == ct / Width(i) / 64
  {
    Blocks(ct);
  }

  lemma DigitFound(ct: nat, i: nat)
    requires Reached(ct, i) && 0 < ct < WORD && ct % Width(i) == 0 && ct / Width(i) % 64 != 0
    ensures ct % NEAR == 0 && Cascade(ct) == Level(i, ct / Width(i) % 64)
  {
  }

  lemma NoDigit(ct: nat, i: nat)
    requires Reached(ct, i) && ct % Width(i) != 0
    ensures ct % NEAR != 0
  {
  }

  lemma CascadeZero()
    ensures Cascade(0) == Level(3, 0)
  {
  }

  lemma HeldHead(w: Wheel, n: Node, rest: seq<Node>)
    requires w.Held([n] + rest)
    ensures n.expire < WORD && w.Shape()
  {
    assert ([n] + rest)[0] == n;
  }

  // ------------------------------------------------------------ whole runs

  // What a program does with the timer: add a timer, or let time tick while
  // other threads add timers.
  datatype Op = AddOp(delay: nat) | TickOp(adds: seq<nat>)

  predicate OpOk(op: Op) {
    match op case AddOp(d) => 1 <= d < LIMIT case TickOp(a) => Delays(a)
  }

  // How often time ticks in a run, and the deadlines of the timers in the order of
  // their addition: what is added during a tick is added while its timers fire.
  ghost function Ticks(ops: seq<Op>): nat {
    if |ops| == 0 then 0 else Ticks(ops[..|ops| - 1]) + if ops[|ops| - 1].TickOp? then 1 else 0
  }

  ghost function LogOf(ops: seq<Op>): seq<nat> {
    if |ops| == 0 then [] else
    var log, t := LogOf(ops[..|ops| - 1]), Ticks(ops[..|ops| - 1]);
    log + match ops[|ops| - 1]
      case AddOp(delay) => [t + delay]
      case TickOp(adds) => if Due(log, t + 1) == [] then [] else Deadlines(t + 1, adds)
  }

  lemma RunNext(ops: seq<Op>, k: nat)
    requires k < |ops|
    ensures Ticks(ops[..k + 1]) == Ticks(ops[..k]) + if ops[k].TickOp? then 1 else 0
    ensures LogOf(ops[..k + 1]) == LogOf(ops[..k]) + match ops[k]
      case AddOp(delay) => [Ticks(ops[..k]) + delay]
      case TickOp(adds) => if Due(LogOf(ops[..k]), Ticks(ops[..k]) + 1) == [] then [] else Deadlines(Ticks(ops[..k]) + 1, adds)
  {
    hide Due, Deadlines;
    assert ops[..k + 1][..k] == ops[..k];
  }

  // Any run of a timer.  Update k fires exactly the timers whose deadline is k + 1,
  // in the order of their addition; so a timer fires once, when it is due, or is
  // still pending.
  method Drive(ops: seq<Op>) returns (history: seq<seq<nat>>, log: seq<nat>)
    requires forall k :: 0 <= k < |ops| ==> OpOk(ops[k])
    ensures |history| == Ticks(ops) && log == LogOf(ops)
    ensures forall k :: 0 <= k < |history| ==> history[k] == Due(log, k + 1)
    ensures forall id, k :: 0 <= id < |log| && 0 <= k < |history| ==> (id in history[k] <==> log[id] == k + 1)
  {
    hide Wheel.Held, Due, Deadlines, Ticks, LogOf, Timer.Valid;
    var timer := new Timer();
    history, log := [], [];
    RunStart();
    var k := 0;
    while k < |ops|
      invariant 0 <= k <= |ops| && timer.Valid() && timer.now == |history| && log == timer.log
      invariant fresh(timer) && fresh(timer.near) && fresh(timer.t)
      invariant |history| == Ticks(ops[..k]) && log == LogOf(ops[..k])
      invariant Fired(history, log)
    {
      assert OpOk(ops[k]);
      RunNext(ops, k);
      history, log := Perform(timer, ops[k], history, log);
      k := k + 1;
    }
    assert ops[..|ops|] == ops;
    InHistory(history, log);
  }

  ghost predicate Fired(history: seq<seq<nat>>, log: seq<nat>) { forall k :: 0 <= k < |history| ==> history[k] == Due(log, k + 1) }

  method Perform(timer: Timer, op: Op, history: seq<seq<nat>>, log: seq<nat>) returns (history': seq<seq<nat>>, log': seq<nat>)
    requires timer.Valid() && OpOk(op) && timer.now == |history| && timer.log == log && Fired(history, log)
    modifies timer, timer.near, timer.t
    ensures timer.Valid() && timer.near == old(timer.near) && timer.t == old(timer.t)
    ensures timer.now == |history'| && timer.log == log' && Fired(history', log')
    ensures |history'| == |history| + if op.TickOp? then 1 else 0
    ensures log' == log + match op
      case AddOp(delay) => [|history| + delay]
      case TickOp(adds) => if Due(log, |history| + 1) == [] then [] else Deadlines(|history| + 1, adds)
  {
    hide Wheel.Held, Due, Deadlines;
    match op {
      case AddOp(delay) =>
        timer.Add(delay, |log|);
        HistoryKept(history, log, [|history| + delay]);
        history', log' := history, log + [|history| + delay];
      case TickOp(adds) =>
        var fired := timer.Update(adds, |log|);
        var more := if fired == [] then [] else Deadlines(|history| + 1, adds);
        LaterDeadlines(|history| + 1, adds, |history|);
        HistoryKept(history, log, more);
        history', log' := history + [fired], log + more;
    }
  }

  lemma RunStart()
    ensures forall ops: seq<Op> :: Ticks(ops[..0]) == 0 && LogOf(ops[..0]) == []
  {
  }

  lemma InHistory(history: seq<seq<nat>>, log: seq<nat>)
    requires forall k :: 0 <= k < |history| ==> history[k] == Due(log, k + 1)
    ensures forall id, k :: 0 <= id < |log| && 0 <= k < |history| ==> (id in history[k] <==> log[id] == k + 1)
  {
    hide Due;
    forall id, k | 0 <= id < |log| && 0 <= k < |history| ensures id in history[k] <==> log[id] == k + 1 {
      DueIs(log, k + 1);
    }
  }

  lemma LaterDeadlines(now: nat, d: seq<nat>, n: nat)
    requires Delays(d) && n < now
    ensures |Deadlines(now, d)| == |d| && forall k :: 0 <= k < |d| ==> Deadlines(now, d)[k] > n
  {
  }

  lemma HistoryKept(history: seq<seq<nat>>, log: seq<nat>, more: seq<nat>)
    requires forall k :: 0 <= k < |history| ==> history[k] == Due(log, k + 1)
    requires forall k :: 0 <= k < |more| ==> more[k] > |history|
    ensures forall k :: 0 <= k < |history| ==> history[k] == Due(log + more, k + 1)
  {
    forall k | 0 <= k < |history| ensures history[k] == Due(log + more, k + 1) {
      DueLater(log, more, k + 1);
    }
  }
}
