// Trees as arrays of nodes: the first child of a node is right behind it, and a node
// with two children says how far ahead the second one is.

module LpegFlat {

  import opened LpegTree
  import opened LpegBuild

  datatype Op =
    | OChar(c: Byte)
    | OSet(cs: set<Byte>)
    | OAny
    | OTrue
    | OFalse
    | ORep
    | OSeq
    | OChoice
    | ONot
    | OAnd
    | OBehind(n: nat)
    | OCall(rule: nat, node: nat)
    | OGrammar(rules: seq<Tree>)

  datatype Node = Node(op: Op, ps: nat)

  function Size(t: Tree): (n: nat)
    ensures n > 0
  {
    match t
    case TRep(p) => 1 + Size(p)
    case TSeq(p1, p2) => 1 + Size(p1) + Size(p2)
    case TChoice(p1, p2) => 1 + Size(p1) + Size(p2)
    case TNot(p) => 1 + Size(p)
    case TAnd(p) => 1 + Size(p)
    case TBehind(_, p) => 1 + Size(p)
    case _ => 1
  }

  // The node of a tree's root.
  function Root(t: Tree): Node {
    match t
    case TChar(c) => Node(OChar(c), 0)
    case TSet(cs) => Node(OSet(cs), 0)
    case TAny => Node(OAny, 0)
    case TTrue => Node(OTrue, 0)
    case TFalse => Node(OFalse, 0)
    case TRep(_) => Node(ORep, 0)
    case TSeq(p1, _) => Node(OSeq, 1 + Size(p1))
    case TChoice(p1, _) => Node(OChoice, 1 + Size(p1))
    case TNot(_) => Node(ONot, 0)
    case TAnd(_) => Node(OAnd, 0)
    case TBehind(n, _) => Node(OBehind(n), 0)
    case TCall(r, node) => Node(OCall(r, node), 0)
    case TGrammar(rules) => Node(OGrammar(rules), 0)
  }

  predicate Binary(t: Tree) { t.TSeq? || t.TChoice? }

  predicate SameOp(t: Tree, u: Tree) { (t.TSeq? && u.TSeq?) || (t.TChoice? && u.TChoice?) }

  function Make(t: Tree, p1: Tree, p2: Tree): Tree
    requires Binary(t)
  {
    if t.TSeq? then TSeq(p1, p2) else TChoice(p1, p2)
  }

  predicate Unary(t: Tree) { t.TRep? || t.TNot? || t.TAnd? || t.TBehind? }

  // The nodes of 't' start at 'at'.
  predicate Stored(a: seq<Node>, at: nat, t: Tree)
    decreases t
  {
    at + Size(t) <= |a| && a[at] == Root(t) &&
    (Unary(t) ==> Stored(a, at + 1, t.p)) &&
    (Binary(t) ==> Stored(a, at + 1, t.p1) && Stored(a, at + 1 + Size(t.p1), t.p2))
  }

  lemma SizeIs(t: Tree)
    ensures Unary(t) ==> Size(t) == 1 + Size(t.p)
    ensures Binary(t) ==> Size(t) == 1 + Size(t.p1) + Size(t.p2)
    ensures !Unary(t) && !Binary(t) ==> Size(t) == 1
  {
  }

  lemma RootIs(t: Tree)
    ensures Binary(t) <==> Root(t).op.OSeq? || Root(t).op.OChoice?
    ensures Unary(t) <==> Root(t).op.ORep? || Root(t).op.ONot? || Root(t).op.OAnd? || Root(t).op.OBehind?
    ensures Binary(t) ==> Root(t) == Node(if t.TSeq? then OSeq else OChoice, 1 + Size(t.p1))
  {
    hide Size;
  }

  lemma Parts(a: seq<Node>, at: nat, t: Tree)
    requires Stored(a, at, t)
    ensures at + Size(t) <= |a| && a[at] == Root(t)
    ensures Unary(t) ==> Stored(a, at + 1, t.p)
    ensures Binary(t) ==> Stored(a, at + 1, t.p1) && Stored(a, at + 1 + Size(t.p1), t.p2)
  {
    hide Size, Root;
  }

  lemma Whole(a: seq<Node>, at: nat, t: Tree)
    requires at + Size(t) <= |a| && a[at] == Root(t)
    requires Unary(t) ==> Stored(a, at + 1, t.p)
    requires Binary(t) ==> Stored(a, at + 1, t.p1) && Stored(a, at + 1 + Size(t.p1), t.p2)
    ensures Stored(a, at, t)
  {
    hide Size, Root;
  }

  // ------------------------------------------------------------ stretches of nodes

  // The n nodes of 'a' from 'at' on are those of 'b' from 'to' on.
  ghost predicate Copied(a: seq<Node>, at: nat, b: seq<Node>, to: nat, n: nat) {
    at + n <= |a| && to + n <= |b| && forall k: nat {:trigger Offset(at, k)} :: k < n ==> a[Offset(at, k)] == b[Offset(to, k)]
  }

  function Offset(at: nat, k: nat): nat { at + k }

  lemma CopiedNode(a: seq<Node>, at: nat, b: seq<Node>, to: nat, n: nat, k: nat)
    requires Copied(a, at, b, to, n) && k < n
    ensures at + k < |a| && to + k < |b| && a[at + k] == b[to + k]
  {
    assert a[Offset(at, k)] == b[Offset(to, k)];
  }

  lemma CopiedPart(a: seq<Node>, at: nat, b: seq<Node>, to: nat, n: nat, i: nat, m: nat)
    requires Copied(a, at, b, to, n) && i + m <= n
    ensures Copied(a, at + i, b, to + i, m)
  {
    forall k: nat {:trigger Offset(at + i, k)} | k < m ensures a[Offset(at + i, k)] == b[Offset(to + i, k)] {
      CopiedNode(a, at, b, to, n, i + k);
    }
  }

  lemma CopiedUpdate(a: seq<Node>, at: nat, b: seq<Node>, to: nat, n: nat, j: nat, v: Node)
    requires Copied(a, at, b, to, n) && j < |b| && (j < to || to + n <= j)
    ensures Copied(a, at, b[j := v], to, n)
  {
    forall k: nat | k < n ensures a[Offset(at, k)] == b[j := v][Offset(to, k)] {
      CopiedNode(a, at, b, to, n, k);
    }
  }

  lemma CopiedTwice(a: seq<Node>, at: nat, b: seq<Node>, to: nat, c: seq<Node>, up: nat, n: nat)
    requires Copied(a, at, b, to, n) && Copied(b, to, c, up, n)
    ensures Copied(a, at, c, up, n)
  {
    forall k: nat | k < n ensures a[Offset(at, k)] == c[Offset(up, k)] {
      CopiedNode(a, at, b, to, n, k);
      CopiedNode(b, to, c, up, n, k);
    }
  }

  // Nothing outside of n nodes from 'at' on has changed.
  ghost predicate Around(a: seq<Node>, b: seq<Node>, at: nat, n: nat) {
    |a| == |b| && at + n <= |a| && Copied(a, 0, b, 0, at) && Copied(a, at + n, b, at + n, |a| - at - n)
  }

  lemma AroundSelf(a: seq<Node>, at: nat, n: nat)
    requires at + n <= |a|
    ensures Around(a, a, at, n)
  {
  }

  lemma AroundTwice(a: seq<Node>, b: seq<Node>, c: seq<Node>, at: nat, n: nat)
    requires Around(a, b, at, n) && Around(b, c, at, n)
    ensures Around(a, c, at, n)
  {
    CopiedTwice(a, 0, b, 0, c, 0, at);
    CopiedTwice(a, at + n, b, at + n, c, at + n, |a| - at - n);
    hide Copied;
  }

  // What is inside of a stretch leaves the outside of that alone.
  lemma AroundMore(a: seq<Node>, b: seq<Node>, i: nat, m: nat, at: nat, n: nat)
    requires Around(a, b, i, m) && at <= i && i + m <= at + n <= |a|
    ensures Around(a, b, at, n)
  {
    CopiedPart(a, 0, b, 0, i, 0, at);
    CopiedPart(a, i + m, b, i + m, |a| - i - m, at + n - i - m, |a| - at - n);
    hide Copied;
  }

  // The same nodes elsewhere are the same tree.
  lemma {:induction false} StoredMoved(a: seq<Node>, at: nat, b: seq<Node>, to: nat, t: Tree)
    requires Stored(a, at, t) && Copied(a, at, b, to, Size(t))
    ensures Stored(b, to, t)
    decreases t
  {
    hide Stored, Size, Root, Copied;
    Parts(a, at, t);
    SizeIs(t);
    CopiedNode(a, at, b, to, Size(t), 0);
    CopiedNode(a, at, b, to, Size(t), Size(t) - 1);
    if Unary(t) {
      CopiedPart(a, at, b, to, Size(t), 1, Size(t.p));
      StoredMoved(a, at + 1, b, to + 1, t.p);
    } else if Binary(t) {
      CopiedPart(a, at, b, to, Size(t), 1, Size(t.p1));
      CopiedPart(a, at, b, to, Size(t), 1 + Size(t.p1), Size(t.p2));
      StoredMoved(a, at + 1, b, to + 1, t.p1);
      StoredMoved(a, at + 1 + Size(t.p1), b, to + 1 + Size(t.p1), t.p2);
    }
    Whole(b, to, t);
  }

  // A tree that is outside of a change stays.
  lemma StoredBefore(a: seq<Node>, b: seq<Node>, at: nat, n: nat, to: nat, t: Tree)
    requires Around(a, b, at, n) && Stored(a, to, t) && to + Size(t) <= at
    ensures Stored(b, to, t)
  {
    CopiedPart(a, 0, b, 0, at, to, Size(t));
    StoredMoved(a, to, b, to, t);
  }

  lemma StoredAfter(a: seq<Node>, b: seq<Node>, at: nat, n: nat, to: nat, t: Tree)
    requires Around(a, b, at, n) && Stored(a, to, t) && at + n <= to
    ensures Stored(b, to, t)
  {
    hide Copied, Stored, Size, Root;
    Parts(a, to, t);
    CopiedPart(a, at + n, b, at + n, |a| - at - n, to - at - n, Size(t));
    StoredMoved(a, to, b, to, t);
  }

  // ------------------------------------------------------------ associativity

  function Turned(t: Tree): (u: Tree)
    requires Binary(t) && SameOp(t, t.p1)
    ensures Binary(u) && SameOp(t, u) && Size(u) == Size(t) && Size(u.p1) < Size(t.p1)
  {
    Make(t, t.p1.p1, Make(t, t.p1.p2, t.p2))
  }

  // One tree turned until its first child has another operator.
  function Rotated(t: Tree): (u: Tree)
    requires Binary(t)
    ensures SameOp(t, u) && Size(u) == Size(t) && !SameOp(u, u.p1)
    decreases Size(t.p1)
  {
    if SameOp(t, t.p1) then Rotated(Turned(t)) else t
  }

  // All of a tree.
  function Fixed(t: Tree): (u: Tree)
    ensures Size(u) == Size(t) && (Binary(t) ==> SameOp(t, u)) && (Binary(u) ==> Binary(t))
    decreases Size(t)
  {
    match t
    case TRep(p) => TRep(Fixed(p))
    case TNot(p) => TNot(Fixed(p))
    case TAnd(p) => TAnd(Fixed(p))
    case TBehind(n, p) => TBehind(n, Fixed(p))
    case TSeq(_, _) => var u := Rotated(t); TSeq(Fixed(u.p1), Fixed(u.p2))
    case TChoice(_, _) => var u := Rotated(t); TChoice(Fixed(u.p1), Fixed(u.p2))
    case _ => t
  }

  predicate RightAssociative(t: Tree) {
    match t
    case TRep(p) => RightAssociative(p)
    case TNot(p) => RightAssociative(p)
    case TAnd(p) => RightAssociative(p)
    case TBehind(_, p) => RightAssociative(p)
    case TSeq(p1, p2) => !p1.TSeq? && RightAssociative(p1) && RightAssociative(p2)
    case TChoice(p1, p2) => !p1.TChoice? && RightAssociative(p1) && RightAssociative(p2)
    case _ => true
  }

  lemma {:induction false} RotatedMeans(t: Tree, g: seq<Tree>, s: seq<Byte>, i: nat, f: nat)
    requires Binary(t) && i <= |s|
    ensures Eval(Rotated(t), g, s, i, f) == Eval(t, g, s, i, f)
    decreases Size(t.p1)
  {
    if SameOp(t, t.p1) {
      var u := Make(t, t.p1.p1, Make(t, t.p1.p2, t.p2));
      RotatedMeans(u, g, s, i, f);
      Associative(t.p1.p1, t.p1.p2, t.p2, g, s, i, f);
    }
  }

  lemma Associative(a: Tree, b: Tree, c: Tree, g: seq<Tree>, s: seq<Byte>, i: nat, f: nat)
    requires i <= |s|
    ensures Eval(TSeq(TSeq(a, b), c), g, s, i, f) == Eval(TSeq(a, TSeq(b, c)), g, s, i, f)
    ensures Eval(TChoice(TChoice(a, b), c), g, s, i, f) == Eval(TChoice(a, TChoice(b, c)), g, s, i, f)
  {
  }

  // The corrected tree means the same.
  lemma {:induction false} FixedMeans(t: Tree, g: seq<Tree>, s: seq<Byte>, i: nat, f: nat)
    requires i <= |s|
    ensures Eval(Fixed(t), g, s, i, f) == Eval(t, g, s, i, f)
    decreases f, Size(t)
  {
    hide Eval, Rotated, Size;
    FixedIs(t);
    SizeIs(t);
    if Binary(t) {
      SizeIs(Rotated(t));
    }
    match t {
      case TRep(p) =>
        FixedMeans(p, g, s, i, f);
        var o := Eval(p, g, s, i, f);
        if o.Some? && o.value.Succ? && f > 0 {
          FixedMeans(t, g, s, o.value.pos, f - 1);
        }
        RepSame(p, Fixed(p), g, s, i, f);
      case TNot(p) =>
        FixedMeans(p, g, s, i, f);
        OneSame(p, Fixed(p), g, s, i, f);
      case TAnd(p) =>
        FixedMeans(p, g, s, i, f);
        OneSame(p, Fixed(p), g, s, i, f);
      case TBehind(n, p) =>
        if n <= i {
          FixedMeans(p, g, s, i - n, f);
        }
        BehindSame(p, Fixed(p), n, g, s, i, f);
      case TSeq(_, _) =>
        RotatedMeans(t, g, s, i, f);
        var u := Rotated(t);
        FixedMeans(u.p1, g, s, i, f);
        var o := Eval(u.p1, g, s, i, f);
        if o.Some? && o.value.Succ? {
          FixedMeans(u.p2, g, s, o.value.pos, f);
        }
        SeqSame(u.p1, u.p2, Fixed(u.p1), Fixed(u.p2), g, s, i, f);
      case TChoice(_, _) =>
        RotatedMeans(t, g, s, i, f);
        var u := Rotated(t);
        FixedMeans(u.p1, g, s, i, f);
        FixedMeans(u.p2, g, s, i, f);
        ChoiceSame(u.p1, u.p2, Fixed(u.p1), Fixed(u.p2), g, s, i, f);
      case _ =>
    }
  }

  // A part may be replaced by one with the same answers.
  lemma OneSame(p: Tree, q: Tree, g: seq<Tree>, s: seq<Byte>, i: nat, f: nat)
    requires i <= |s| && Eval(p, g, s, i, f) == Eval(q, g, s, i, f)
    ensures Eval(TNot(p), g, s, i, f) == Eval(TNot(q), g, s, i, f)
    ensures Eval(TAnd(p), g, s, i, f) == Eval(TAnd(q), g, s, i, f)
  {
  }

  lemma BehindSame(p: Tree, q: Tree, n: nat, g: seq<Tree>, s: seq<Byte>, i: nat, f: nat)
    requires i <= |s| && (n <= i ==> Eval(p, g, s, i - n, f) == Eval(q, g, s, i - n, f))
    ensures Eval(TBehind(n, p), g, s, i, f) == Eval(TBehind(n, q), g, s, i, f)
  {
  }

  lemma RepSame(p: Tree, q: Tree, g: seq<Tree>, s: seq<Byte>, i: nat, f: nat)
    requires i <= |s| && Eval(p, g, s, i, f) == Eval(q, g, s, i, f)
    requires var o := Eval(p, g, s, i, f); o.Some? && o.value.Succ? && f > 0 ==>
      Eval(TRep(p), g, s, o.value.pos, f - 1) == Eval(TRep(q), g, s, o.value.pos, f - 1)
    ensures Eval(TRep(p), g, s, i, f) == Eval(TRep(q), g, s, i, f)
  {
  }

  lemma SeqSame(p1: Tree, p2: Tree, q1: Tree, q2: Tree, g: seq<Tree>, s: seq<Byte>, i: nat, f: nat)
    requires i <= |s| && Eval(p1, g, s, i, f) == Eval(q1, g, s, i, f)
    requires var o := Eval(p1, g, s, i, f); o.Some? && o.value.Succ? ==>
      Eval(p2, g, s, o.value.pos, f) == Eval(q2, g, s, o.value.pos, f)
    ensures Eval(TSeq(p1, p2), g, s, i, f) == Eval(TSeq(q1, q2), g, s, i, f)
  {
  }

  lemma ChoiceSame(p1: Tree, p2: Tree, q1: Tree, q2: Tree, g: seq<Tree>, s: seq<Byte>, i: nat, f: nat)
    requires i <= |s| && Eval(p1, g, s, i, f) == Eval(q1, g, s, i, f) && Eval(p2, g, s, i, f) == Eval(q2, g, s, i, f)
    ensures Eval(TChoice(p1, p2), g, s, i, f) == Eval(TChoice(q1, q2), g, s, i, f)
  {
  }

  lemma FixedSame(t: Tree)
    ensures Same(Fixed(t), t)
  {
    forall g: seq<Tree>, s: seq<Byte>, i: nat, f: nat | i <= |s| ensures Eval(Fixed(t), g, s, i, f) == Eval(t, g, s, i, f) {
      FixedMeans(t, g, s, i, f);
    }
  }

  // And it leans to the right everywhere.
  lemma {:induction false} FixedRight(t: Tree)
    ensures RightAssociative(Fixed(t))
    decreases Size(t)
  {
    match t
    case TRep(p) => FixedRight(p);
    case TNot(p) => FixedRight(p);
    case TAnd(p) => FixedRight(p);
    case TBehind(_, p) => FixedRight(p);
    case TSeq(_, _) =>
      var u := Rotated(t);
      FixedRight(u.p1);
      FixedRight(u.p2);
    case TChoice(_, _) =>
      var u := Rotated(t);
      FixedRight(u.p1);
      FixedRight(u.p2);
    case _ =>
  }

  // ------------------------------------------------------------ in place

  // memmove by one place to the front
  method MoveUp(a: array<Node>, to: nat, n: nat)
    requires to + n < a.Length
    modifies a
    ensures Copied(old(a[..]), to + 1, a[..], to, n) && Around(old(a[..]), a[..], to, n)
  {
    forall k | to <= k < to + n { a[k] := a[k + 1]; }
  }

  // The first child's first child moves up by one place.
  method RotateOnce(a: array<Node>, at: nat, ghost t: Tree)
    requires Binary(t) && SameOp(t, t.p1) && Stored(a[..], at, t)
    modifies a
    ensures Stored(a[..], at, Turned(t)) && Around(old(a[..]), a[..], at, Size(t))
  {
    hide Stored, Size, Root, Copied, Turned, Around;
    ghost var was := a[..];
    Nodes(was, at, t);
    var n1size := a[at].ps - 1;
    var n11size := a[at + 1].ps - 1;
    var n12size := n1size - n11size - 1;
    MoveUp(a, at + 1, n11size);
    ghost var moved := a[..];
    AroundNode(was, moved, at + 1, n11size, at);
    var up, down := Node(a[at].op, n11size + 1), Node(a[at].op, n12size + 1);
    a[at] := up;
    a[at + a[at].ps] := down;
    assert a[..] == moved[at := up][at + 1 + n11size := down];
    TurnedStored(was, moved, at, t);
  }

  lemma AroundNode(a: seq<Node>, b: seq<Node>, i: nat, m: nat, k: nat)
    requires Around(a, b, i, m) && k < i
    ensures k < |b| && b[k] == a[k]
  {
    CopiedNode(a, 0, b, 0, i, k);
  }

  lemma Nodes(a: seq<Node>, at: nat, t: Tree)
    requires Binary(t) && SameOp(t, t.p1) && Stored(a, at, t)
    ensures Size(t) == 2 + Size(t.p1.p1) + Size(t.p1.p2) + Size(t.p2) && at + Size(t) <= |a|
    ensures a[at] == Node(if t.TSeq? then OSeq else OChoice, 2 + Size(t.p1.p1) + Size(t.p1.p2))
    ensures a[at + 1] == Node(if t.TSeq? then OSeq else OChoice, 1 + Size(t.p1.p1))
    ensures Stored(a, at + 2, t.p1.p1) && Stored(a, at + 2 + Size(t.p1.p1), t.p1.p2)
    ensures Stored(a, at + 2 + Size(t.p1.p1) + Size(t.p1.p2), t.p2)
  {
    hide Stored, Size, Root;
    Parts(a, at, t);
    SizeIs(t);
    RootIs(t);
    Parts(a, at + 1, t.p1);
    SizeIs(t.p1);
    RootIs(t.p1);
  }

  lemma TurnedStored(was: seq<Node>, moved: seq<Node>, at: nat, t: Tree)
    requires Binary(t) && SameOp(t, t.p1) && Stored(was, at, t)
    requires Copied(was, at + 2, moved, at + 1, Size(t.p1.p1)) && Around(was, moved, at + 1, Size(t.p1.p1))
    requires at + 1 + Size(t.p1.p1) < |moved|
    ensures var op, n := if t.TSeq? then OSeq else OChoice, Size(t.p1.p1);
      var now := moved[at := Node(op, 1 + n)][at + 1 + n := Node(op, 1 + Size(t.p1.p2))];
      Stored(now, at, Turned(t)) && Around(was, now, at, Size(t))
  {
    hide Stored, Size, Root, Copied;
    var op, n, m, l := if t.TSeq? then OSeq else OChoice, Size(t.p1.p1), Size(t.p1.p2), Size(t.p2);
    var up, down := Node(op, 1 + n), Node(op, 1 + m);
    var next := moved[at := up];
    var now := next[at + 1 + n := down];
    var rest := |was| - at - 1 - n;
    Nodes(was, at, t);
    CopiedUpdate(was, at + 2, moved, at + 1, n, at, up);
    CopiedUpdate(was, at + 2, next, at + 1, n, at + 1 + n, down);
    StoredMoved(was, at + 2, now, at + 1, t.p1.p1);
    CopiedPart(was, at + 1 + n, moved, at + 1 + n, rest, 1, rest - 1);
    CopiedUpdate(was, at + 2 + n, moved, at + 2 + n, rest - 1, at, up);
    CopiedUpdate(was, at + 2 + n, next, at + 2 + n, rest - 1, at + 1 + n, down);
    CopiedPart(was, at + 2 + n, now, at + 2 + n, rest - 1, 0, m);
    StoredMoved(was, at + 2 + n, now, at + 2 + n, t.p1.p2);
    CopiedPart(was, at + 2 + n, now, at + 2 + n, rest - 1, m, l);
    StoredMoved(was, at + 2 + n + m, now, at + 2 + n + m, t.p2);
    CopiedPart(was, at + 2 + n, now, at + 2 + n, rest - 1, m + l, rest - 1 - m - l);
    CopiedPart(was, 0, moved, 0, at + 1, 0, at);
    CopiedUpdate(was, 0, moved, 0, at, at, up);
    CopiedUpdate(was, 0, next, 0, at, at + 1 + n, down);
    TurnedWhole(now, at, t);
  }

  lemma TurnedWhole(now: seq<Node>, at: nat, t: Tree)
    requires Binary(t) && SameOp(t, t.p1) && at + Size(t) <= |now|
    requires var op, n, m := if t.TSeq? then OSeq else OChoice, Size(t.p1.p1), Size(t.p1.p2);
      Stored(now, at + 1, t.p1.p1) && Stored(now, at + 2 + n, t.p1.p2) && Stored(now, at + 2 + n + m, t.p2) &&
      now[at] == Node(op, 1 + n) && at + 1 + n < |now| && now[at + 1 + n] == Node(op, 1 + m)
    ensures Stored(now, at, Turned(t))
  {
    hide Stored, Size, Root;
    var inner := Make(t, t.p1.p2, t.p2);
    RootIs(inner);
    SizeIs(inner);
    SizeIs(t);
    SizeIs(t.p1);
    Whole(now, at + 1 + Size(t.p1.p1), inner);
    RootIs(Turned(t));
    Whole(now, at, Turned(t));
  }

  method CorrectAssociativity(a: array<Node>, at: nat, ghost t: Tree)
    requires Binary(t) && Stored(a[..], at, t)
    modifies a
    ensures Stored(a[..], at, Rotated(t)) && Around(old(a[..]), a[..], at, Size(t))
  {
    hide Rotated, Stored, Size, Root, Copied, Turned, Around;
    ghost var u := t;
    BothOps(a[..], at, u);
    AroundSelf(a[..], at, Size(t));
    while a[at + 1].op == a[at].op
      invariant Binary(u) && SameOp(u, t) && Size(u) == Size(t) && Stored(a[..], at, u) && at + 1 < a.Length
      invariant Around(old(a[..]), a[..], at, Size(t))
      invariant a[at + 1].op == a[at].op <==> SameOp(u, u.p1)
      invariant Rotated(u) == Rotated(t)
      decreases Size(u.p1)
    {
      RotatedIs(u);
      ghost var before := a[..];
      RotateOnce(a, at, u);
      AroundTwice(old(a[..]), before, a[..], at, Size(t));
      u := Turned(u);
      BothOps(a[..], at, u);
    }
    RotatedIs(u);
  }

  lemma RotatedIs(t: Tree)
    requires Binary(t)
    ensures Rotated(t) == if SameOp(t, t.p1) then Rotated(Turned(t)) else t
  {
  }

  lemma BothOps(a: seq<Node>, at: nat, t: Tree)
    requires Binary(t) && Stored(a, at, t)
    ensures at + 1 < |a| && at + Size(t) <= |a| && (a[at + 1].op == a[at].op <==> SameOp(t, t.p1))
  {
    hide Stored, Size, Root;
    Parts(a, at, t);
    Parts(a, at + 1, t.p1);
    RootIs(t);
    RootIs(t.p1);
  }

  lemma FixedIs(t: Tree)
    ensures !Unary(t) && !Binary(t) ==> Fixed(t) == t
    ensures Unary(t) ==> Unary(Fixed(t)) && Fixed(t).p == Fixed(t.p) && Root(Fixed(t)) == Root(t)
    ensures Binary(t) ==> Fixed(t) == Make(t, Fixed(Rotated(t).p1), Fixed(Rotated(t).p2))
  {
    hide Size, Rotated;
  }

  // The adjustment of a whole tree: a tree that means the same and leans to the right.
  method FinalFix(a: array<Node>, at: nat, ghost t: Tree)
    requires Stored(a[..], at, t)
    modifies a
    ensures Stored(a[..], at, Fixed(t)) && Around(old(a[..]), a[..], at, Size(t))
    ensures Same(Fixed(t), t) && RightAssociative(Fixed(t))
    decreases Size(t), 1
  {
    hide Rotated, Stored, Size, Root, Fixed, Copied, Around, Same, RightAssociative;
    FixedSame(t);
    FixedRight(t);
    Parts(a[..], at, t);
    RootIs(t);
    SizeIs(t);
    FixedIs(t);
    AroundSelf(a[..], at, Size(t));
    var op := a[at].op;
    if op == OSeq || op == OChoice {
      CorrectAssociativity(a, at, t);
      ghost var turned := a[..];
      FixChildren(a, at, Rotated(t));
      AroundTwice(old(a[..]), turned, a[..], at, Size(t));
    } else if op == ORep || op == ONot || op == OAnd || op.OBehind? {
      FinalFix(a, at + 1, t.p);
      AroundMore(old(a[..]), a[..], at + 1, Size(t.p), at, Size(t));
      AroundNode(old(a[..]), a[..], at + 1, Size(t.p), at);
      Whole(a[..], at, Fixed(t));
    }
  }

  method FixChildren(a: array<Node>, at: nat, ghost u: Tree)
    requires Binary(u) && Stored(a[..], at, u)
    modifies a
    ensures Stored(a[..], at, Make(u, Fixed(u.p1), Fixed(u.p2))) && Around(old(a[..]), a[..], at, Size(u))
    decreases Size(u), 0
  {
    hide Rotated, Stored, Size, Root, Fixed, Copied, Around;
    ghost var n, m, was := Size(u.p1), Size(u.p2), a[..];
    Parts(was, at, u);
    RootIs(u);
    SizeIs(u);
    FinalFix(a, at + 1, u.p1);
    ghost var half := a[..];
    AroundNode(was, half, at + 1, n, at);
    StoredAfter(was, half, at + 1, n, at + 1 + n, u.p2);
    AroundMore(was, half, at + 1, n, at, Size(u));
    FinalFix(a, at + a[at].ps, u.p2);
    AroundNode(half, a[..], at + 1 + n, m, at);
    StoredBefore(half, a[..], at + 1 + n, m, at + 1, Fixed(u.p1));
    AroundMore(half, a[..], at + 1 + n, m, at, Size(u));
    AroundTwice(was, half, a[..], at, Size(u));
    ghost var v := Make(u, Fixed(u.p1), Fixed(u.p2));
    SizeIs(v);
    RootIs(v);
    Whole(a[..], at, v);
  }

  // ------------------------------------------------------------ powers in an array

  // k sequence nodes, each with a copy of 'p', have been laid down before 'at'.
  ghost predicate Laid(a: seq<Node>, at: nat, p: Tree, k: nat)
    decreases k
  {
    at <= |a| &&
    if k == 0 then at == 0
    else at > Size(p) && a[at - Size(p) - 1] == Node(OSeq, 1 + Size(p)) && Stored(a, at - Size(p), p) && Laid(a, at - Size(p) - 1, p, k - 1)
  }

  lemma {:induction false} LaidDone(a: seq<Node>, at: nat, p: Tree, k: nat, j: nat)
    requires Laid(a, at, p, k) && Stored(a, at, AtLeast(p, j))
    ensures Stored(a, 0, AtLeast(p, k + j))
    decreases k
  {
    hide Stored, Size, Root;
    if k > 0 {
      var t := AtLeast(p, j + 1);
      assert t == TSeq(p, AtLeast(p, j));
      Parts(a, at, AtLeast(p, j));
      SizeIs(t);
      RootIs(t);
      Whole(a, at - Size(p) - 1, t);
      LaidDone(a, at - Size(p) - 1, p, k - 1, j + 1);
    }
  }

  lemma {:induction false} LaidKept(a: seq<Node>, b: seq<Node>, at: nat, p: Tree, k: nat)
    requires Laid(a, at, p, k) && Copied(a, 0, b, 0, at)
    ensures Laid(b, at, p, k)
    decreases k
  {
    hide Stored, Root, Copied;
    if k > 0 {
      var s := at - Size(p) - 1;
      hide Size;
      CopiedNode(a, 0, b, 0, at, s);
      CopiedPart(a, 0, b, 0, at, s + 1, Size(p));
      StoredMoved(a, s + 1, b, s + 1, p);
      CopiedPart(a, 0, b, 0, at, 0, s);
      LaidKept(a, b, s, p, k - 1);
    }
    CopiedPart(a, 0, b, 0, at, at, 0);
    CopiedEnd(a, b, at);
  }

  lemma CopiedEnd(a: seq<Node>, b: seq<Node>, at: nat)
    requires Copied(a, 0, b, 0, at)
    ensures at <= |b|
  {
  }

  // memcpy of a whole tree
  method CopyTree(a: array<Node>, at: nat, tree1: seq<Node>, ghost p: Tree)
    requires Stored(tree1, 0, p) && |tree1| == Size(p) && at + |tree1| <= a.Length
    modifies a
    ensures Stored(a[..], at, p) && Around(old(a[..]), a[..], at, Size(p))
  {
    hide Stored, Size, Root;
    forall k | 0 <= k < |tree1| { a[at + k] := tree1[k]; }
    assert Copied(tree1, 0, a[..], at, Size(p));
    assert Around(old(a[..]), a[..], at, Size(p));
    hide Copied;
    StoredMoved(tree1, 0, a[..], at, p);
  }

  method Put(a: array<Node>, at: nat, v: Node)
    requires at < a.Length
    modifies a
    ensures a[at] == v && Around(old(a[..]), a[..], at, 1)
  {
    ghost var was := a[..];
    a[at] := v;
    OneNode(was, at, v);
    assert a[..] == was[at := v];
    hide Around;
  }

  // A node with a copy of a tree behind it.
  method PutWithTree(a: array<Node>, at: nat, v: Node, tree1: seq<Node>, ghost p: Tree)
    requires Stored(tree1, 0, p) && |tree1| == Size(p) && at + 1 + |tree1| <= a.Length
    modifies a
    ensures a[at] == v && Stored(a[..], at + 1, p) && Around(old(a[..]), a[..], at, 1 + Size(p))
  {
    hide Stored, Size, Root, Copied, Around;
    ghost var was := a[..];
    Put(a, at, v);
    ghost var half := a[..];
    CopyTree(a, at + 1, tree1, p);
    AroundNode(half, a[..], at + 1, Size(p), at);
    AroundMore(half, a[..], at + 1, Size(p), at, 1 + Size(p));
    AroundMore(was, half, at, 1, at, 1 + Size(p));
    AroundTwice(was, half, a[..], at, 1 + Size(p));
  }

  // seqaux
  method SeqAux(a: array<Node>, at: nat, tree1: seq<Node>, ghost p: Tree) returns (next: nat)
    requires Stored(tree1, 0, p) && |tree1| == Size(p) && at + 1 + |tree1| <= a.Length
    modifies a
    ensures next == at + 1 + Size(p) && a[at] == Node(OSeq, 1 + Size(p)) && Stored(a[..], at + 1, p)
    ensures Around(old(a[..]), a[..], at, 1 + Size(p))
  {
    PutWithTree(a, at, Node(OSeq, |tree1| + 1), tree1, p);
    next := at + 1 + |tree1|;
  }

  lemma OneNode(a: seq<Node>, at: nat, v: Node)
    requires at < |a|
    ensures Around(a, a[at := v], at, 1)
  {
  }

  lemma AroundFront(a: seq<Node>, b: seq<Node>, at: nat, n: nat)
    requires Around(a, b, at, n)
    ensures Copied(a, 0, b, 0, at) && |a| == |b|
  {
    hide Copied;
  }

  lemma {:induction false} AtLeastSize(p: Tree, n: nat)
    ensures Size(AtLeast(p, n)) == (n + 1) * (Size(p) + 1)
    decreases n
  {
    SizeIs(AtLeast(p, n));
    if n > 0 {
      AtLeastSize(p, n - 1);
      hide Size;
      assert (n + 1) * (Size(p) + 1) == n * (Size(p) + 1) + Size(p) + 1;
    }
  }

  // p^n
  method StarAtLeast(tree1: seq<Node>, ghost p: Tree, n: nat) returns (a: array<Node>)
    requires Stored(tree1, 0, p) && |tree1| == Size(p)
    ensures fresh(a) && a.Length == Size(AtLeast(p, n)) && Stored(a[..], 0, AtLeast(p, n))
  {
    hide Stored, Size, Root, Copied, Around, AtLeast, Laid;
    AtLeastSize(p, n);
    a := new Node[(n + 1) * (|tree1| + 1)](_ => Node(OTrue, 0));
    var at: nat, left: nat := 0, n;
    Room(n + 1, |tree1| + 1, n + 1);
    LaidNone(a[..], p);
    while left > 0
      invariant 0 <= left <= n && Laid(a[..], at, p, n - left)
      invariant at + (left + 1) * (|tree1| + 1) == a.Length
    {
      Room(left + 1, |tree1| + 1, left);
      at := LayOne(a, at, tree1, p, n - left);
      left := left - 1;
    }
    Room(1, |tree1| + 1, 0);
    LayLast(a, at, tree1, p, n);
  }

  lemma LaidNone(a: seq<Node>, p: Tree)
    ensures Laid(a, 0, p, 0)
  {
  }

  lemma LaidMore(a: seq<Node>, at: nat, p: Tree, k: nat)
    requires Laid(a, at, p, k) && at < |a| && a[at] == Node(OSeq, 1 + Size(p)) && Stored(a, at + 1, p)
    ensures Laid(a, at + 1 + Size(p), p, k + 1)
  {
    hide Stored, Size, Root;
    Parts(a, at + 1, p);
  }

  // One more sequence node with a copy of the pattern.
  method LayOne(a: array<Node>, at: nat, tree1: seq<Node>, ghost p: Tree, ghost k: nat) returns (next: nat)
    requires Stored(tree1, 0, p) && |tree1| == Size(p) && at + 1 + |tree1| <= a.Length && Laid(a[..], at, p, k)
    modifies a
    ensures next == at + 1 + Size(p) && Laid(a[..], next, p, k + 1)
  {
    hide Stored, Size, Root, Copied, Around, Laid;
    ghost var was := a[..];
    next := SeqAux(a, at, tree1, p);
    AroundFront(was, a[..], at, 1 + Size(p));
    LaidKept(was, a[..], at, p, k);
    LaidMore(a[..], at, p, k);
  }

  // The repetition at the end.
  method LayLast(a: array<Node>, at: nat, tree1: seq<Node>, ghost p: Tree, ghost n: nat)
    requires Stored(tree1, 0, p) && |tree1| == Size(p) && at + 1 + |tree1| <= a.Length && Laid(a[..], at, p, n)
    modifies a
    ensures Stored(a[..], 0, AtLeast(p, n))
  {
    hide Stored, Size, Root, Copied, Around, Laid, AtLeast;
    ghost var was := a[..];
    PutWithTree(a, at, Node(ORep, 0), tree1, p);
    AroundFront(was, a[..], at, 1 + Size(p));
    LaidKept(was, a[..], at, p, n);
    RepStored(a[..], at, p);
    LaidDone(a[..], at, p, n, 0);
  }

  lemma Room(n: nat, w: nat, m: nat)
    requires m <= n
    ensures n > 0 ==> n * w == w + (n - 1) * w
    ensures n * w >= m * w
  {
    assert (n - m) * w >= 0;
    assert n * w == (n - m) * w + m * w;
  }

  lemma RepStored(a: seq<Node>, at: nat, p: Tree)
    requires at < |a| && a[at] == Node(ORep, 0) && Stored(a, at + 1, p)
    ensures AtLeast(p, 0) == TRep(p) && Stored(a, at, AtLeast(p, 0))
  {
    hide Stored, Size;
    Parts(a, at + 1, p);
    SizeIs(TRep(p));
    Whole(a, at, TRep(p));
  }

  // k options have been laid down before 'at', and their ends from 'end' on.
  ghost predicate Options(a: seq<Node>, at: nat, end: nat, p: Tree, k: nat)
    decreases k
  {
    at <= end <= |a| &&
    if k == 0 then at == 0 && end == |a|
    else
      at >= Size(p) + 2 && end < |a| && a[end] == Node(OTrue, 0) &&
      (var s := at - Size(p) - 2;
       a[s] == Node(OChoice, end - s) && a[s + 1] == Node(OSeq, 1 + Size(p)) && Stored(a, s + 2, p) && Options(a, s, end + 1, p, k - 1))
  }

  lemma {:induction false} OptionsKept(a: seq<Node>, b: seq<Node>, at: nat, end: nat, p: Tree, k: nat)
    requires Options(a, at, end, p, k) && Around(a, b, at, end - at)
    ensures Options(b, at, end, p, k)
    decreases k
  {
    hide Stored, Root, Size, Copied, Around;
    AroundFront(a, b, at, end - at);
    if k > 0 {
      var s := at - Size(p) - 2;
      AroundNode(a, b, at, end - at, s);
      AroundNode(a, b, at, end - at, s + 1);
      NodeAfter(a, b, at, end - at, end);
      StoredBefore(a, b, at, end - at, s + 2, p);
      AroundMore(a, b, at, end - at, s, end + 1 - s);
      OptionsKept(a, b, s, end + 1, p, k - 1);
    }
  }

  lemma {:induction false} OptionsDone(a: seq<Node>, at: nat, end: nat, p: Tree, k: nat, j: nat)
    requires j > 0 && Options(a, at, end, p, k) && Stored(a, at, AtMost(p, j)) && at + Size(AtMost(p, j)) == end
    ensures Stored(a, 0, AtMost(p, k + j)) && Size(AtMost(p, k + j)) == |a|
    decreases k
  {
    hide Stored, Size, Root;
    if k > 0 {
      var s := at - Size(p) - 2;
      OptionWhole(a, s, end, p, j);
      OptionsDone(a, s, end + 1, p, k - 1, j + 1);
    }
  }

  lemma OptionWhole(a: seq<Node>, s: nat, end: nat, p: Tree, j: nat)
    requires j > 0 && end < |a| && a[end] == Node(OTrue, 0) && s + 1 < end
    requires a[s] == Node(OChoice, end - s) && a[s + 1] == Node(OSeq, 1 + Size(p)) && Stored(a, s + 2, p)
    requires Stored(a, s + 2 + Size(p), AtMost(p, j)) && s + 2 + Size(p) + Size(AtMost(p, j)) == end
    ensures Stored(a, s, AtMost(p, j + 1)) && s + Size(AtMost(p, j + 1)) == end + 1
  {
    hide Stored, Size, Root;
    var inner := TSeq(p, AtMost(p, j));
    var t := TChoice(inner, TTrue);
    assert AtMost(p, j + 1) == t;
    SizeIs(inner);
    RootIs(inner);
    Whole(a, s + 1, inner);
    TrueStored(a, end);
    SizeIs(t);
    RootIs(t);
    Whole(a, s, t);
  }

  lemma TrueStored(a: seq<Node>, at: nat)
    requires at < |a| && a[at] == Node(OTrue, 0)
    ensures Stored(a, at, TTrue) && Size(TTrue) == 1
  {
  }

  lemma LastOption(a: seq<Node>, at: nat, p: Tree)
    requires at + 1 + Size(p) < |a| && a[at] == Node(OChoice, 1 + Size(p)) && Stored(a, at + 1, p) && a[at + 1 + Size(p)] == Node(OTrue, 0)
    ensures Stored(a, at, AtMost(p, 1)) && Size(AtMost(p, 1)) == Size(p) + 2
  {
    hide Stored, Size, Root;
    var t := TChoice(p, TTrue);
    TrueStored(a, at + 1 + Size(p));
    SizeIs(t);
    RootIs(t);
    Whole(a, at, t);
  }

  // p^-n
  method StarAtMost(tree1: seq<Node>, ghost p: Tree, n: nat) returns (a: array<Node>)
    requires Stored(tree1, 0, p) && |tree1| == Size(p) && n > 0
    ensures fresh(a) && a.Length == Size(AtMost(p, n)) && Stored(a[..], 0, AtMost(p, n))
  {
    hide Stored, Size, Root, Copied, Around, AtMost, Options;
    Room(n, |tree1| + 3, 1);
    a := new Node[n * (|tree1| + 3) - 1](_ => Node(OFalse, 0));
    var at: nat, left: nat := 0, n;
    ghost var end: nat := a.Length;
    OptionsNone(a[..], p);
    while left > 1
      invariant 0 < left <= n && Options(a[..], at, end, p, n - left)
      invariant at + left * (|tree1| + 3) - 1 == end <= a.Length
    {
      Room(left, |tree1| + 3, left - 1);
      Room(left - 1, |tree1| + 3, 1);
      at := PutOption(a, at, left * (|tree1| + 3) - 2, tree1, p, n - left);
      end, left := end - 1, left - 1;
    }
    Room(1, |tree1| + 3, 0);
    ghost var was := a[..];
    PutWithTree(a, at, Node(OChoice, |tree1| + 1), tree1, p);
    ghost var half := a[..];
    Put(a, at + 1 + |tree1|, Node(OTrue, 0));
    ghost var w := Size(p) + 2;
    AroundNode(half, a[..], at + 1 + Size(p), 1, at);
    StoredBefore(half, a[..], at + 1 + Size(p), 1, at + 1, p);
    AroundMore(half, a[..], at + 1 + Size(p), 1, at, w);
    AroundMore(was, half, at, 1 + Size(p), at, w);
    AroundTwice(was, half, a[..], at, w);
    OptionsKept(was, a[..], at, end, p, n - 1);
    LastOption(a[..], at, p);
    OptionsDone(a[..], at, end, p, n - 1, 1);
  }

  lemma OptionsNone(a: seq<Node>, p: Tree)
    ensures Options(a, 0, |a|, p, 0)
  {
  }

  // One more option: the choice, its empty alternative at the end, and the first match.
  method PutOption(a: array<Node>, at: nat, ps: nat, tree1: seq<Node>, ghost p: Tree, ghost k: nat) returns (next: nat)
    requires Stored(tree1, 0, p) && |tree1| == Size(p) && at + 2 + |tree1| <= at + ps < a.Length
    requires Options(a[..], at, at + ps + 1, p, k)
    modifies a
    ensures next == at + 2 + Size(p) && Options(a[..], next, at + ps, p, k + 1)
  {
    hide Stored, Size, Root, Copied, Around, AtMost, Options;
    ghost var was := a[..];
    Put(a, at, Node(OChoice, ps));
    ghost var a1 := a[..];
    Put(a, at + a[at].ps, Node(OTrue, 0));
    ghost var a2 := a[..];
    next := SeqAux(a, at + 1, tree1, p);
    ghost var now := a[..];
    AroundNode(a1, a2, at + ps, 1, at);
    AroundNode(a2, now, at + 1, 1 + Size(p), at);
    NodeAfter(a2, now, at + 1, 1 + Size(p), at + ps);
    AroundMore(was, a1, at, 1, at, ps + 1);
    AroundMore(a1, a2, at + ps, 1, at, ps + 1);
    AroundMore(a2, now, at + 1, 1 + Size(p), at, ps + 1);
    AroundTwice(was, a1, a2, at, ps + 1);
    AroundTwice(was, a2, now, at, ps + 1);
    OptionsKept(was, now, at, at + ps + 1, p, k);
    OptionsMore(now, at, at + ps, p, k);
  }

  lemma NodeAfter(a: seq<Node>, b: seq<Node>, i: nat, m: nat, k: nat)
    requires Around(a, b, i, m) && i + m <= k < |a|
    ensures k < |b| && b[k] == a[k]
  {
    CopiedNode(a, i + m, b, i + m, |a| - i - m, k - i - m);
  }

  lemma OptionsMore(a: seq<Node>, s: nat, end: nat, p: Tree, k: nat)
    requires Options(a, s, end + 1, p, k) && s + 2 + Size(p) <= end < |a| && a[end] == Node(OTrue, 0)
    requires a[s] == Node(OChoice, end - s) && a[s + 1] == Node(OSeq, 1 + Size(p)) && Stored(a, s + 2, p)
    ensures Options(a, s + 2 + Size(p), end, p, k + 1)
  {
    hide Stored, Size, Root;
  }

  // p repeated, by the matches of p one after the other: with n >= 0 as often as
  // it goes, failing if that is less than n times; with n < 0 at most -n times.
  ghost predicate Repeats(t: Tree, p: Tree, n: int) {
    forall g: seq<Tree>, s: seq<Byte>, i: nat, j: nat :: i <= |s| && j <= |s| ==>
      && (Means(t, g, s, i, Succ(j)) <==> Stops(p, n, g, s, i, j))
      && (Means(t, g, s, i, Fail) <==> exists k: nat, m: nat :: k < n && MayStop(p, g, s, i, k, m))
  }

  ghost predicate Stops(p: Tree, n: int, g: seq<Tree>, s: seq<Byte>, i: nat, j: nat) {
    if n >= 0 then exists k: nat :: n <= k && MayStop(p, g, s, i, k, j)
    else Matches(p, g, s, i, -n, j) || exists k: nat :: k < -n && MayStop(p, g, s, i, k, j)
  }

  function Power(p: Tree, n: int): Tree { if n >= 0 then AtLeast(p, n) else AtMost(p, -n) }

  lemma PowerAt(p: Tree, n: int, g: seq<Tree>, s: seq<Byte>, i: nat, j: nat)
    requires i <= |s| && j <= |s|
    ensures Means(Power(p, n), g, s, i, Succ(j)) <==> Stops(p, n, g, s, i, j)
    ensures Means(Power(p, n), g, s, i, Fail) <==> exists k: nat, m: nat :: k < n && MayStop(p, g, s, i, k, m)
  {
    hide Means, MayStop, Matches, AtLeast, AtMost;
    if n >= 0 {
      AtLeastIff(p, n, g, s, i, j);
      AtLeastFails(p, n, g, s, i);
    } else {
      AtMostIff(p, -n, g, s, i, j);
    }
  }

  lemma PowerMeans(p: Tree, n: int)
    ensures Repeats(Power(p, n), p, n)
  {
    hide Means, MayStop, Power, Stops;
    forall g: seq<Tree>, s: seq<Byte>, i: nat, j: nat | i <= |s| && j <= |s|
      ensures Means(Power(p, n), g, s, i, Succ(j)) <==> Stops(p, n, g, s, i, j)
      ensures Means(Power(p, n), g, s, i, Fail) <==> exists k: nat, m: nat :: k < n && MayStop(p, g, s, i, k, m)
    {
      PowerAt(p, n, g, s, i, j);
    }
  }

  lemma SameMeans(t: Tree, u: Tree, g: seq<Tree>, s: seq<Byte>, i: nat, r: Result)
    requires Same(t, u) && i <= |s|
    ensures Means(t, g, s, i, r) <==> Means(u, g, s, i, r)
  {
    forall f: nat ensures Eval(t, g, s, i, f) == Eval(u, g, s, i, f) {
    }
    hide Eval;
  }

  lemma SameRepeats(t: Tree, u: Tree, p: Tree, n: int)
    requires Same(t, u) && Repeats(u, p, n)
    ensures Repeats(t, p, n)
  {
    hide Means, MayStop, Same, Stops;
    forall g: seq<Tree>, s: seq<Byte>, i: nat, j: nat | i <= |s| && j <= |s|
      ensures Means(t, g, s, i, Succ(j)) <==> Stops(p, n, g, s, i, j)
      ensures Means(t, g, s, i, Fail) <==> exists k: nat, m: nat :: k < n && MayStop(p, g, s, i, k, m)
    {
      SameMeans(t, u, g, s, i, Succ(j));
      SameMeans(t, u, g, s, i, Fail);
    }
  }

  // lp_star: what is made means p repeated.
  method Star(tree1: seq<Node>, ghost p: Tree, n: int) returns (a: array<Node>, ghost t: Tree)
    requires Stored(tree1, 0, p) && |tree1| == Size(p)
    ensures fresh(a) && a.Length == Size(t) && Stored(a[..], 0, t) && Repeats(t, p, n)
  {
    hide Stored, Size, Repeats, AtLeast, AtMost;
    PowerMeans(p, n);
    t := Power(p, n);
    if n >= 0 {
      a := StarAtLeast(tree1, p, n);
    } else {
      a := StarAtMost(tree1, p, -n);
    }
  }

  // A power as it is compiled: it still means p repeated, and leans to the right.
  method StarFixed(tree1: seq<Node>, ghost p: Tree, n: int) returns (a: array<Node>, ghost t: Tree)
    requires Stored(tree1, 0, p) && |tree1| == Size(p)
    ensures fresh(a) && a.Length == Size(t) && Stored(a[..], 0, t) && RightAssociative(t) && Repeats(t, p, n)
  {
    hide Stored, Size, Repeats, Fixed, RightAssociative, Same, Around;
    ghost var made: Tree;
    a, made := Star(tree1, p, n);
    FinalFix(a, 0, made);
    t := Fixed(made);
    SameRepeats(t, made, p, n);
  }

  // ------------------------------------------------------------ operators in an array

  // newroot2sib
  method NewRoot2(op: Op, tree1: seq<Node>, tree2: seq<Node>, ghost t: Tree) returns (a: array<Node>)
    requires Binary(t) && op == (if t.TSeq? then OSeq else OChoice)
    requires Stored(tree1, 0, t.p1) && |tree1| == Size(t.p1) && Stored(tree2, 0, t.p2) && |tree2| == Size(t.p2)
    ensures fresh(a) && a.Length == Size(t) && Stored(a[..], 0, t)
  {
    hide Stored, Size, Root, Copied, Around;
    SizeIs(t);
    RootIs(t);
    a := new Node[1 + |tree1| + |tree2|](_ => Node(OTrue, 0));
    PutWithTree(a, 0, Node(op, 1 + |tree1|), tree1, t.p1);
    ghost var half := a[..];
    CopyTree(a, 1 + |tree1|, tree2, t.p2);
    AroundNode(half, a[..], 1 + |tree1|, |tree2|, 0);
    StoredBefore(half, a[..], 1 + |tree1|, |tree2|, 1, t.p1);
    Whole(a[..], 0, t);
  }

  lemma LeafRoot(t: Tree)
    ensures Root(t).op == OFalse <==> t == TFalse
    ensures Root(t).op == OTrue <==> t == TTrue
  {
    hide Size;
  }

  // lp_seq: what is made means one pattern after the other.
  method Sequence(tree1: seq<Node>, tree2: seq<Node>, ghost p1: Tree, ghost p2: Tree) returns (r: seq<Node>, ghost t: Tree)
    requires Stored(tree1, 0, p1) && |tree1| == Size(p1) && Stored(tree2, 0, p2) && |tree2| == Size(p2)
    ensures Stored(r, 0, t) && |r| == Size(t) && Same(t, TSeq(p1, p2))
  {
    hide Stored, Size, Root, Same;
    Parts(tree1, 0, p1);
    Parts(tree2, 0, p2);
    LeafRoot(p1);
    LeafRoot(p2);
    SeqOfMeans(p1, p2);
    t := SeqOf(p1, p2);
    if tree1[0].op == OFalse || tree2[0].op == OTrue {
      r := tree1;
    } else if tree1[0].op == OTrue {
      r := tree2;
    } else {
      var a := NewRoot2(OSeq, tree1, tree2, TSeq(p1, p2));
      r := a[..];
    }
  }
}
