// The state of one TCP connection of the socket server, its invariant, and what
// its steps do to the invariant.

module SocketConn {
  import opened SocketStream

  datatype Kind = Connecting | PAccept | Connected | HalfRead | HalfWrite | Invalid

  datatype Out = OOpen | OData | OClose | OErr

  datatype Cmd = CSend(m: Message) | CTrigger | CClose(shutdown: bool)

  // What write() may answer: a number of bytes, or an error.
  datatype Ack = Sz(n: nat) | Interrupted | Again | Failed

  // What read() may answer.
  datatype Got = Data(n: nat) | Nothing | Broken | Eof

  // What sending a list comes to: the caller goes on, or an error was reported,
  // or the connection is closed or already shut down.
  datatype Ret = GoOn | Err | Rst

  function SizeOf(b: Buffer): int { |b.m.data| - b.ptr }

  function Pending(l: seq<Buffer>): int { if l == [] then 0 else SizeOf(l[0]) + Pending(l[1..]) }

  function Msgs(l: seq<Buffer>): seq<Message> { if l == [] then [] else [l[0].m] + Msgs(l[1..]) }

  // The messages of one priority.
  function Class(low: bool, ms: seq<Message>): seq<Message> {
    if ms == [] then [] else (if ms[0].low == low then [ms[0]] else []) + Class(low, ms[1..])
  }

  function Sends(pipe: seq<Cmd>): nat {
    if pipe == [] then 0 else (if pipe[0].CSend? then 1 else 0) + Sends(pipe[1..])
  }

  function Closes(outs: seq<Out>): nat {
    if outs == [] then 0 else Closes(outs[..|outs| - 1]) + if outs[|outs| - 1] == OClose then 1 else 0
  }

  // No data is delivered after the close event.
  ghost predicate Silent(outs: seq<Out>) {
    forall j, k :: 0 <= j < k < |outs| && outs[j] == OClose ==> outs[k] != OData
  }

  predicate FreshTail(l: seq<Buffer>) { forall k :: 0 < k < |l| ==> l[k].ptr == 0 }

  predicate Fresh(l: seq<Buffer>) { forall k :: 0 <= k < |l| ==> l[k].ptr == 0 }

  // A buffer with something left to write, or an empty message.
  predicate Unsent(b: Buffer) { b.ptr < |b.m.data| || (b.m.data == [] && b.ptr == 0) }

  // The state of a connection.  'high', 'low' are the lists, 'dw' is the buffer
  // that a direct write has left, 'holder' a sender that has the lock and will
  // check again, 'direct' what the sender that has the lock writes or has
  // 'written'; 'preparing' are the senders that have raised 'sending' and not
  // yet sent their command through 'pipe'; 'freeing' is what a forced close that
  // waits for the lock will raise; 'outs' is what has been raised.  'pieces',
  // 'taken' (messages accepted for writing, in order), 'lost' (some were freed
  // before they were out) and 'cut' (a forced close has freed a message of which a
  // part was out) are there for the specification only.
  datatype Conn = Conn(
    kind: Kind, high: seq<Buffer>, low: seq<Buffer>, wbSize: int, closing: bool, sending: nat,
    dw: Option<Buffer>, holder: Option<Message>, direct: Option<Buffer>, written: bool,
    preparing: seq<Message>, pipe: seq<Cmd>, freeing: Option<Option<Out>>, outs: seq<Out>,
    wire: seq<Byte>, pieces: seq<Piece>, taken: seq<Message>, lost: bool, cut: bool)
  {
    predicate Locked() { holder.Some? || direct.Some? }

    predicate Live() { kind != Invalid && freeing.None? }

    ghost function Waiting(): seq<Buffer> { high + low }

    // The buffer whose bytes must come next, if one was begun.
    ghost function Current(): Option<Buffer> {
      if direct.Some? then direct
      else if dw.Some? then dw
      else if Waiting() != [] then Some(Waiting()[0])
      else None
    }

    ghost function DirectMsg(): seq<Message> {
      if direct.Some? && !(written && direct.value.ptr == |direct.value.m.data|) then [direct.value.m] else []
    }

    ghost function DwMsg(): seq<Message> { if dw.Some? then [dw.value.m] else [] }

    // Only the first buffer may have been begun, and only if no direct write
    // comes before it.
    ghost predicate ListsOk()
    {
      && FreshTail(Waiting()) && (forall k :: 0 <= k < |Waiting()| ==> Unsent(Waiting()[k]))
      && (dw.Some? || direct.Some? ==> Fresh(Waiting()))
      && !(dw.Some? && direct.Some?) && !(holder.Some? && direct.Some?)
      && (dw.Some? ==> Unsent(dw.value))
      && (direct.Some? ==> direct.value.ptr <= |direct.value.m.data| && (!written ==> direct.value.ptr == 0))
      && (!Live() ==> Waiting() == [])
      && (kind == Invalid ==> dw.None? && !Locked())
    }

    ghost predicate WireOk()
    {
      && Sound(pieces) && wire == Bytes(pieces)
      && (Current().Some? && Current().value.ptr > 0 ==> Follows(pieces, Current().value))
      && (Live() ==> forall k :: 0 <= k < |pieces| && !Whole(pieces[k]) ==>
            k == |pieces| - 1 && Current().Some? && Current().value.ptr > 0)
    }

    ghost predicate CountsOk()
    {
      && (Live() ==> wbSize == Pending(high) + Pending(low))
      && sending == |preparing| + Sends(pipe)
    }

    ghost predicate CloseOk()
    {
      && (closing ==> kind == HalfRead || kind == Invalid)
      && Closes(outs) <= 1 && Silent(outs)
      && (kind == HalfRead ==> Closes(outs) == 1)
      && (kind != HalfRead && kind != Invalid ==> Closes(outs) == 0)
      && (freeing == Some(Some(OClose)) ==> kind != HalfRead)
      && (freeing.Some? ==> kind != Invalid && freeing != Some(Some(OData)))
    }

    // Everything accepted, in the order in which it goes out.
    ghost function All(): seq<Message> { Done(pieces) + DirectMsg() + DwMsg() + Msgs(high) + Msgs(low) }

    // In each priority that is in the order in which it was accepted, and all of
    // it as long as nothing has been freed.
    ghost predicate OrderOk()
    {
      && (forall k :: 0 <= k < |low| ==> low[k].m.low)
      && (Live() ==> !lost)
      && Ordered(All(), taken, lost)
    }

    // A direct write has begun a message and not finished it.
    ghost predicate DirectBegun() {
      (direct.Some? && 0 < direct.value.ptr < |direct.value.m.data|) || (dw.Some? && dw.value.ptr > 0)
    }

    // While a forced close waits, a message is torn if the close has freed it, or a
    // direct write is in the midst of one.
    ghost predicate CutOk() { freeing.Some? ==> (Torn(pieces) <==> cut || DirectBegun()) }

    // The invariant while the low list is being sent.
    ghost predicate Core() { ListsOk() && WireOk() && CountsOk() && CloseOk() && OrderOk() && CutOk() }

    ghost predicate Valid() { Core() && Fresh(low) }
  }

  // ------------------------------------------------------------ order

  // 'a' is 'b' without some of its elements.
  ghost predicate Subseq(a: seq<Message>, b: seq<Message>) {
    a == [] || (b != [] && ((a[|a| - 1] == b[|b| - 1] && Subseq(a[..|a| - 1], b[..|b| - 1])) || Subseq(a, b[..|b| - 1])))
  }

  // Of what was accepted, in 'taken', 'all' is out or waits: in order in each
  // priority, and all of it unless something is lost.
  ghost predicate Ordered(all: seq<Message>, taken: seq<Message>, lost: bool) {
    && (lost <==> |all| != |taken|)
    && (forall p: bool {:trigger Class(p, taken)} :: Subseq(Class(p, all), Class(p, taken)))
    && (!lost ==> forall p: bool {:trigger Class(p, taken)} :: Class(p, all) == Class(p, taken))
  }

  lemma {:induction false} SubseqSelf(a: seq<Message>)
    ensures Subseq(a, a)
    decreases |a|
  {
    if a != [] {
      SubseqSelf(a[..|a| - 1]);
    }
  }

  lemma SubseqBoth(a: seq<Message>, b: seq<Message>, m: Message)
    requires Subseq(a, b)
    ensures Subseq(a + [m], b + [m])
  {
    assert (a + [m])[..|a|] == a && (b + [m])[..|b|] == b;
  }

  lemma {:induction false} SubseqLess(a: seq<Message>, b: seq<Message>)
    requires Subseq(a, b) && a != []
    ensures Subseq(a[..|a| - 1], b)
    decreases |b|
  {
    var a', b' := a[..|a| - 1], b[..|b| - 1];
    if a[|a| - 1] == b[|b| - 1] && Subseq(a', b') {
    } else {
      SubseqLess(a, b');
    }
  }

  lemma {:induction false} SubseqPrefix(a: seq<Message>, x: seq<Message>, b: seq<Message>)
    requires Subseq(a + x, b)
    ensures Subseq(a, b)
    decreases |x|
  {
    if x == [] {
      assert a + x == a;
    } else {
      SubseqLess(a + x, b);
      assert (a + x)[..|a + x| - 1] == a + x[..|x| - 1];
      SubseqPrefix(a, x[..|x| - 1], b);
    }
  }

  lemma {:induction false} ClassSizes(a: seq<Message>)
    ensures |a| == |Class(true, a)| + |Class(false, a)|
    decreases |a|
  {
    if a != [] {
      ClassSizes(a[1..]);
    }
  }

  lemma ClassOne(p: bool, m: Message)
    ensures Class(p, [m]) == if m.low == p then [m] else []
  {
    assert [m][1..] == [];
  }

  lemma OrderedMore(all: seq<Message>, taken: seq<Message>, lost: bool, m: Message)
    requires Ordered(all, taken, lost)
    ensures Ordered(all + [m], taken + [m], lost)
  {
    forall p: bool
      ensures Subseq(Class(p, all + [m]), Class(p, taken + [m]))
      ensures !lost ==> Class(p, all + [m]) == Class(p, taken + [m])
    {
      ClassConcat(p, all, [m]);
      ClassConcat(p, taken, [m]);
      ClassOne(p, m);
      assert Subseq(Class(p, all), Class(p, taken));
      assert !lost ==> Class(p, all) == Class(p, taken);
      hide Class, Subseq;
      if m.low == p {
        SubseqBoth(Class(p, all), Class(p, taken), m);
      } else {
        assert Class(p, all) + [] == Class(p, all) && Class(p, taken) + [] == Class(p, taken);
      }
    }
    hide Class, Subseq;
  }

  lemma OrderedSame(all: seq<Message>, taken: seq<Message>)
    requires forall p: bool :: Class(p, all) == Class(p, taken)
    ensures Ordered(all, taken, false)
  {
    ClassSizes(all);
    ClassSizes(taken);
    assert Class(true, all) == Class(true, taken) && Class(false, all) == Class(false, taken);
    forall p: bool ensures Subseq(Class(p, all), Class(p, taken)) {
      SubseqSelf(Class(p, taken));
    }
    hide Class, Subseq;
  }

  lemma SubseqSize(a: seq<Message>, b: seq<Message>)
    requires Subseq(a, b)
    ensures |a| <= |b|
    decreases |b|
  {
  }

  // Something at the end is freed.
  lemma OrderedLess(all: seq<Message>, x: seq<Message>, taken: seq<Message>, lost: bool)
    requires Ordered(all + x, taken, lost)
    ensures Ordered(all, taken, lost || x != [])
  {
    if x == [] {
      assert all + x == all;
    } else {
      forall p: bool ensures Subseq(Class(p, all), Class(p, taken)) {
        ClassConcat(p, all, x);
        assert Subseq(Class(p, all + x), Class(p, taken));
        SubseqPrefix(Class(p, all), Class(p, x), Class(p, taken));
      }
      assert |all| < |taken| by {
        ClassSizes(all + x);
        ClassSizes(taken);
        assert Subseq(Class(true, all + x), Class(true, taken)) && Subseq(Class(false, all + x), Class(false, taken));
        SubseqSize(Class(true, all + x), Class(true, taken));
        SubseqSize(Class(false, all + x), Class(false, taken));
      }
      hide Class, Subseq;
    }
  }

  // ------------------------------------------------------------ lists

  lemma {:induction false} ClassConcat(c: bool, a: seq<Message>, b: seq<Message>)
    ensures Class(c, a + b) == Class(c, a) + Class(c, b)
    decreases |a|
  {
    if a == [] {
      assert a + b == b;
    } else {
      assert (a + b)[1..] == a[1..] + b;
      ClassConcat(c, a[1..], b);
      var first := if a[0].low == c then [a[0]] else [];
      assert Class(c, a + b) == first + (Class(c, a[1..]) + Class(c, b));
      assert Class(c, a) == first + Class(c, a[1..]);
    }
  }

  lemma {:induction false} ClassNone(c: bool, a: seq<Message>)
    requires forall k :: 0 <= k < |a| ==> a[k].low != c
    ensures Class(c, a) == []
    decreases |a|
  {
    if a != [] {
      ClassNone(c, a[1..]);
    }
  }

  lemma {:induction false} MsgsConcat(a: seq<Buffer>, b: seq<Buffer>)
    ensures Msgs(a + b) == Msgs(a) + Msgs(b)
    decreases |a|
  {
    if a == [] {
      assert a + b == b;
    } else {
      assert (a + b)[1..] == a[1..] + b;
      MsgsConcat(a[1..], b);
    }
  }

  lemma {:induction false} MsgsAt(a: seq<Buffer>)
    ensures |Msgs(a)| == |a| && forall k :: 0 <= k < |a| ==> Msgs(a)[k] == a[k].m
    decreases |a|
  {
    if a != [] {
      MsgsAt(a[1..]);
    }
  }

  lemma {:induction false} PendingConcat(a: seq<Buffer>, b: seq<Buffer>)
    ensures Pending(a + b) == Pending(a) + Pending(b)
    decreases |a|
  {
    if a == [] {
      assert a + b == b;
    } else {
      assert (a + b)[1..] == a[1..] + b;
      PendingConcat(a[1..], b);
    }
  }

  lemma {:induction false} SendsConcat(a: seq<Cmd>, b: seq<Cmd>)
    ensures Sends(a + b) == Sends(a) + Sends(b)
    decreases |a|
  {
    if a == [] {
      assert a + b == b;
    } else {
      assert (a + b)[1..] == a[1..] + b;
      SendsConcat(a[1..], b);
    }
  }

  // ------------------------------------------------------------ what steps leave alone

  lemma WireSame(c: Conn, c': Conn)
    requires c.WireOk() && c'.wire == c.wire && c'.pieces == c.pieces && (c'.Live() ==> c.Live())
    requires c'.Current() == c.Current() || (!c'.Live() && (c'.Current().Some? ==> c'.Current().value.ptr == 0))
    ensures c'.WireOk()
  {
    hide Bytes, Conn.Current;
  }

  lemma OrderSame(c: Conn, c': Conn)
    requires c.OrderOk() && c'.taken == c.taken && c'.lost == c.lost && c'.All() == c.All() && (c'.Live() ==> c.Live())
    requires forall k :: 0 <= k < |c'.low| ==> c'.low[k] in c.low || c'.low[k].m.low
    ensures c'.OrderOk()
  {
    hide Class, Conn.All, Ordered;
  }

  // The end of what waits is freed.
  lemma OrderFreed(c: Conn, c': Conn, x: seq<Message>)
    requires c.OrderOk() && c'.taken == c.taken && c.All() == c'.All() + x && c'.lost == (c.lost || x != []) && !c'.Live() && c'.low == []
    ensures c'.OrderOk()
  {
    OrderedLess(c'.All(), x, c.taken, c.lost);
    hide Class, Conn.All, Ordered;
  }

  // The lists, the buffers of direct writes and the stream stay.
  ghost predicate Untouched(c: Conn, c': Conn) {
    && c'.high == c.high && c'.low == c.low && c'.dw == c.dw && c'.direct == c.direct && c'.written == c.written
    && c'.wire == c.wire && c'.pieces == c.pieces && c'.taken == c.taken && c'.lost == c.lost && c'.cut == c.cut
    && c'.freeing == c.freeing && c'.wbSize == c.wbSize && (c'.kind == Invalid <==> c.kind == Invalid)
  }

  lemma UntouchedOk(c: Conn, c': Conn)
    requires c.Valid() && Untouched(c, c') && !(c'.holder.Some? && c'.direct.Some?) && (c'.holder.Some? ==> c'.kind != Invalid)
    requires c'.CloseOk() && c'.sending == |c'.preparing| + Sends(c'.pipe)
    ensures c'.Valid()
  {
    hide Conn.ListsOk, Conn.CloseOk, Conn.WireOk, Conn.OrderOk, Conn.CutOk, Conn.All, Conn.Current, Conn.DirectBegun, Pending, Sends;
    UntouchedLists(c, c');
    UntouchedIs(c, c');
    WireSame(c, c');
    OrderSame(c, c');
    CutSame(c, c');
  }

  lemma UntouchedIs(c: Conn, c': Conn)
    requires Untouched(c, c')
    ensures c'.All() == c.All() && c'.Current() == c.Current() && c'.Live() == c.Live() && c'.DirectBegun() == c.DirectBegun()
  {
    hide Done, Msgs;
    assert c'.Waiting() == c.Waiting();
  }

  lemma UntouchedLists(c: Conn, c': Conn)
    requires c.Valid() && Untouched(c, c') && !(c'.holder.Some? && c'.direct.Some?) && (c'.holder.Some? ==> c'.kind != Invalid)
    ensures c'.ListsOk() && Fresh(c'.low)
  {
    hide Conn.WireOk, Conn.CountsOk, Conn.CloseOk, Conn.OrderOk, Conn.CutOk;
    assert c'.Waiting() == c.Waiting();
  }

  lemma CutSame(c: Conn, c': Conn)
    requires c.CutOk() && c'.pieces == c.pieces && c'.cut == c.cut && (c'.freeing.Some? ==> c.freeing.Some?)
    requires c'.freeing.Some? ==> (c'.DirectBegun() <==> c.DirectBegun())
    ensures c'.CutOk()
  {
    hide Torn, Conn.DirectBegun;
  }

  lemma CountsSame(c: Conn, c': Conn)
    requires c.CountsOk() && c'.sending == c.sending && c'.preparing == c.preparing && c'.pipe == c.pipe
    requires c'.Live() ==> c.Live() && Pending(c'.high) + Pending(c'.low) - c'.wbSize == Pending(c.high) + Pending(c.low) - c.wbSize
    ensures c'.CountsOk()
  {
    hide Sends, Pending;
  }

  // ------------------------------------------------------------ one write of a list head

  ghost function Sel(c: Conn, isLow: bool): seq<Buffer> { if isLow then c.low else c.high }

  ghost function WithList(c: Conn, isLow: bool, l: seq<Buffer>): Conn {
    if isLow then c.(low := l) else c.(high := l)
  }

  // May the head of this list be written?
  ghost predicate Ready(c: Conn, isLow: bool) {
    && c.Core() && c.Live() && c.dw.None? && !c.Locked()
    && (if isLow then c.high == [] else Fresh(c.low))
    && Sel(c, isLow) != []
  }

  ghost function Left(b: Buffer, n: nat): seq<Buffer>
    requires b.ptr + n <= |b.m.data|
  {
    if n == SizeOf(b) then [] else [Buffer(b.m, b.ptr + n)]
  }

  ghost function AfterWrite(c: Conn, isLow: bool, n: nat): Conn
    requires Sel(c, isLow) != [] && n <= SizeOf(Sel(c, isLow)[0])
  {
    var l := Sel(c, isLow);
    var b := l[0];
    WithList(c, isLow, Left(b, n) + l[1..]).(
      wire := c.wire + b.m.data[b.ptr..b.ptr + n], pieces := Wrote(c.pieces, b, n), wbSize := c.wbSize - n)
  }

  lemma AfterIs(c: Conn, isLow: bool, n: nat)
    requires Sel(c, isLow) != [] && n <= SizeOf(Sel(c, isLow)[0])
    ensures var b := Sel(c, isLow)[0];
      var rest, out := if n == SizeOf(b) then [] else [Buffer(b.m, b.ptr + n)], c.wire + b.m.data[b.ptr..b.ptr + n];
      AfterWrite(c, isLow, n) ==
        if isLow then c.(low := rest + c.low[1..], wire := out, pieces := Wrote(c.pieces, b, n), wbSize := c.wbSize - n)
        else c.(high := rest + c.high[1..], wire := out, pieces := Wrote(c.pieces, b, n), wbSize := c.wbSize - n)
  {
    hide Wrote;
  }

  lemma HeadIs(c: Conn, isLow: bool)
    requires Ready(c, isLow)
    ensures c.Waiting() != [] && Sel(c, isLow)[0] == c.Waiting()[0] && c.Current() == Some(c.Waiting()[0])
    ensures c.Waiting()[1..] == Sel(c, isLow)[1..] + (if isLow then [] else c.low)
    ensures Unsent(Sel(c, isLow)[0])
    ensures Sel(c, isLow)[0].ptr > 0 ==> Follows(c.pieces, Sel(c, isLow)[0])
  {
    hide Conn.CountsOk, Conn.CloseOk, Conn.OrderOk, Conn.CutOk, Sound, Bytes;
    assert Unsent(c.Waiting()[0]);
  }

  lemma AfterWaiting(c: Conn, isLow: bool, n: nat)
    requires Ready(c, isLow) && n <= SizeOf(Sel(c, isLow)[0])
    ensures AfterWrite(c, isLow, n).Waiting() == Left(Sel(c, isLow)[0], n) + c.Waiting()[1..]
  {
    var l := Left(Sel(c, isLow)[0], n);
    if isLow {
      assert c.high == [] && c.Waiting() == c.low;
      assert AfterWrite(c, isLow, n).high == [] && AfterWrite(c, isLow, n).low == l + c.low[1..];
    } else {
      assert AfterWrite(c, isLow, n).high == l + c.high[1..] && AfterWrite(c, isLow, n).low == c.low;
    }
    hide Ready, AfterWrite, Left;
    TailOf(l, c.high, c.low);
  }

  lemma TailOf(l: seq<Buffer>, a: seq<Buffer>, b: seq<Buffer>)
    ensures a != [] ==> (l + a[1..]) + b == l + (a + b)[1..]
    ensures b != [] ==> [] + (l + b[1..]) == l + b[1..]
  {
  }

  lemma AfterLists(c: Conn, isLow: bool, n: nat)
    requires Ready(c, isLow) && n <= SizeOf(Sel(c, isLow)[0])
    ensures AfterWrite(c, isLow, n).ListsOk()
  {
    HeadIs(c, isLow);
    AfterWaiting(c, isLow, n);
  }

  // Where the only message begun is 'b', it still is after a write of it.
  lemma WroteTail(ps: seq<Piece>, b: Buffer, n: nat)
    requires Sound(ps) && b.ptr + n <= |b.m.data| && (b.ptr > 0 ==> Follows(ps, b)) && Unsent(b)
    requires forall k :: 0 <= k < |ps| && !Whole(ps[k]) ==> k == |ps| - 1 && b.ptr > 0
    ensures var ps' := Wrote(ps, b, n);
      && (forall k :: 0 <= k < |ps'| && !Whole(ps'[k]) ==> k == |ps'| - 1 && 0 < b.ptr + n < |b.m.data|)
      && (b.ptr + n > 0 ==> Follows(ps', Buffer(b.m, b.ptr + n)))
  {
  }

  lemma AfterWire(c: Conn, isLow: bool, n: nat)
    requires Ready(c, isLow) && n <= SizeOf(Sel(c, isLow)[0])
    ensures AfterWrite(c, isLow, n).WireOk()
    ensures Clean(AfterWrite(c, isLow, n).pieces) <==> Clean(c.pieces)
  {
    WroteHead(c, isLow, n);
    AfterCurrent(c, isLow, n);
    AfterPieces(c, isLow, n);
    hide Conn.Core, Conn.WireOk, Conn.Current, AfterWrite, Ready, Sel, Bytes, Sound, Follows, Clean, Wrote;
    AfterWireIs(c, isLow, n);
  }

  lemma WroteHead(c: Conn, isLow: bool, n: nat)
    requires Ready(c, isLow) && n <= SizeOf(Sel(c, isLow)[0])
    ensures WroteIs(c.pieces, Sel(c, isLow)[0], n)
  {
    HeadIs(c, isLow);
    HeadTail(c, isLow);
    WroteBuffer(c.pieces, Sel(c, isLow)[0], n);
    hide WroteIs, Ready;
  }

  // What a write of a buffer makes of a stream in which nothing else was begun.
  ghost predicate WroteIs(ps: seq<Piece>, b: Buffer, n: nat) {
    var ps' := Wrote(ps, b, n);
    && b.ptr + n <= |b.m.data| && Sound(ps) && Sound(ps') && Bytes(ps') == Bytes(ps) + b.m.data[b.ptr..b.ptr + n]
    && (forall k :: 0 <= k < |ps'| && !Whole(ps'[k]) ==> k == |ps'| - 1 && 0 < b.ptr + n < |b.m.data|)
    && (b.ptr + n > 0 ==> Follows(ps', Buffer(b.m, b.ptr + n)))
    && (Clean(ps') <==> Clean(ps))
  }

  lemma WroteBuffer(ps: seq<Piece>, b: Buffer, n: nat)
    requires Sound(ps) && b.ptr + n <= |b.m.data| && (b.ptr > 0 ==> Follows(ps, b)) && Unsent(b)
    requires (forall k :: 0 <= k < |ps| && !Whole(ps[k]) ==> k == |ps| - 1 && b.ptr > 0) && (b.ptr == 0 ==> !Torn(ps))
    ensures WroteIs(ps, b, n)
  {
    hide Bytes, Wrote, Done, Sound, Follows, Clean, Torn, Whole;
    WroteFacts(ps, b, n);
    WroteClean(ps, b, n);
    WroteTail(ps, b, n);
  }

  lemma AfterPieces(c: Conn, isLow: bool, n: nat)
    requires Sel(c, isLow) != [] && n <= SizeOf(Sel(c, isLow)[0])
    ensures AfterWrite(c, isLow, n).pieces == Wrote(c.pieces, Sel(c, isLow)[0], n)
  {
    hide Wrote;
  }

  // The message that the head of the list was begun with is the only one begun.
  lemma HeadTail(c: Conn, isLow: bool)
    requires Ready(c, isLow)
    ensures var ps, b := c.pieces, Sel(c, isLow)[0];
      && Sound(ps) && (forall k :: 0 <= k < |ps| && !Whole(ps[k]) ==> k == |ps| - 1 && b.ptr > 0)
      && (b.ptr == 0 ==> !Torn(ps))
  {
    HeadIs(c, isLow);
    hide Bytes, Conn.ListsOk, Conn.OrderOk, Conn.CountsOk, Conn.CloseOk, Follows;
  }

  lemma AfterWireIs(c: Conn, isLow: bool, n: nat)
    requires Ready(c, isLow) && n <= SizeOf(Sel(c, isLow)[0])
    requires var b, c', ps' := Sel(c, isLow)[0], AfterWrite(c, isLow, n), Wrote(c.pieces, Sel(c, isLow)[0], n);
      && Sound(ps') && Bytes(ps') == Bytes(c.pieces) + b.m.data[b.ptr..b.ptr + n]
      && (forall k :: 0 <= k < |ps'| && !Whole(ps'[k]) ==> k == |ps'| - 1 && 0 < b.ptr + n < |b.m.data|)
      && (b.ptr + n > 0 ==> Follows(ps', Buffer(b.m, b.ptr + n)))
      && (if b.ptr + n < |b.m.data| then c'.Current() == Some(Buffer(b.m, b.ptr + n))
          else c'.Current().Some? ==> c'.Current().value.ptr == 0)
    ensures AfterWrite(c, isLow, n).WireOk()
  {
    hide Pending, Msgs, Class, Done, Bytes, Wrote, Sel, Follows, Sound, Conn.Current, Conn.ListsOk, Conn.OrderOk, Conn.CountsOk, Conn.CloseOk;
    assert c.WireOk();
  }

  lemma AfterCurrent(c: Conn, isLow: bool, n: nat)
    requires Ready(c, isLow) && n <= SizeOf(Sel(c, isLow)[0])
    ensures var b, cur := Sel(c, isLow)[0], AfterWrite(c, isLow, n).Current();
      if b.ptr + n < |b.m.data| then cur == Some(Buffer(b.m, b.ptr + n)) else cur.Some? ==> cur.value.ptr == 0
  {
    HeadIs(c, isLow);
    AfterWaiting(c, isLow, n);
    hide Wrote, Pending, Msgs, Class, Done, Bytes, Sel;
    var b := Sel(c, isLow)[0];
    var q, q' := c.Waiting(), AfterWrite(c, isLow, n).Waiting();
    assert FreshTail(q);
    if b.ptr + n < |b.m.data| {
      assert q'[0] == Buffer(b.m, b.ptr + n);
    } else if q' != [] {
      assert q'[0] == q[1];
    }
  }

  lemma AfterCounts(c: Conn, isLow: bool, n: nat)
    requires Ready(c, isLow) && n <= SizeOf(Sel(c, isLow)[0])
    ensures AfterWrite(c, isLow, n).CountsOk()
  {
    var l := Sel(c, isLow);
    PendingConcat(Left(l[0], n), l[1..]);
    hide Class, Bytes, Done, Wrote, Msgs, Conn.OrderOk, Conn.WireOk, Conn.ListsOk;
    assert Pending(Left(l[0], n)) == SizeOf(l[0]) - n;
  }

  lemma AllShift(d: seq<Message>, m: Message, t: seq<Message>, l: seq<Message>)
    ensures d + [m] + [] + [] + t + l == d + [] + [] + ([m] + t) + l
    ensures d + [m] + [] + [] + [] + t == d + [] + [] + [] + ([m] + t)
    ensures d + [] == d && [] + t == t
  {
  }

  lemma AfterAll(c: Conn, isLow: bool, n: nat)
    requires Ready(c, isLow) && n <= SizeOf(Sel(c, isLow)[0])
    ensures AfterWrite(c, isLow, n).All() == c.All()
  {
    HeadIs(c, isLow);
    HeadTail(c, isLow);
    var l := Sel(c, isLow);
    var b := l[0];
    WroteFacts(c.pieces, b, n);
    MsgsCut(l, n);
    AfterParts(c, isLow, n);
    assert !c.Locked() && c.dw.None? && (isLow ==> c.high == []);
    hide Ready, AfterWrite, Msgs, Done, Wrote, Left, Bytes, Sound;
    AllShift(Done(c.pieces), b.m, Msgs(l[1..]), Msgs(c.low));
  }

  lemma AfterParts(c: Conn, isLow: bool, n: nat)
    requires Sel(c, isLow) != [] && n <= SizeOf(Sel(c, isLow)[0])
    ensures var c', l := AfterWrite(c, isLow, n), Sel(c, isLow);
      Sel(c', isLow) == Left(l[0], n) + l[1..] && Sel(c', !isLow) == Sel(c, !isLow) && c'.pieces == Wrote(c.pieces, l[0], n) &&
      c'.dw == c.dw && c'.direct == c.direct && c'.written == c.written
  {
    hide Wrote;
  }

  // The messages of a list of which n bytes of the head were written.
  lemma MsgsCut(l: seq<Buffer>, n: nat)
    requires l != [] && n <= SizeOf(l[0])
    ensures Msgs(l) == [l[0].m] + Msgs(l[1..])
    ensures Msgs(Left(l[0], n) + l[1..]) == (if n == SizeOf(l[0]) then [] else [l[0].m]) + Msgs(l[1..])
  {
    MsgsConcat(Left(l[0], n), l[1..]);
    assert n < SizeOf(l[0]) ==> Msgs(Left(l[0], n)) == [l[0].m] + Msgs([]);
  }

  lemma AfterOrder(c: Conn, isLow: bool, n: nat)
    requires Ready(c, isLow) && n <= SizeOf(Sel(c, isLow)[0])
    ensures AfterWrite(c, isLow, n).OrderOk()
  {
    AfterAll(c, isLow, n);
    AfterLow(c, isLow, n);
    hide Class, Bytes, Done, Wrote, Msgs, Pending, Conn.All, Conn.WireOk, Conn.CountsOk, Conn.ListsOk, Conn.CloseOk, Conn.OrderOk;
    OrderSame(c, AfterWrite(c, isLow, n));
  }

  lemma AfterLow(c: Conn, isLow: bool, n: nat)
    requires Ready(c, isLow) && n <= SizeOf(Sel(c, isLow)[0])
    ensures forall k :: 0 <= k < |AfterWrite(c, isLow, n).low| ==> AfterWrite(c, isLow, n).low[k].m.low
  {
    hide Class, Bytes, Done, Wrote, Msgs, Pending, Conn.All, Conn.WireOk, Conn.CountsOk, Conn.ListsOk, Conn.CloseOk;
  }

  lemma AfterWriteOk(c: Conn, isLow: bool, n: nat)
    requires Ready(c, isLow) && n <= SizeOf(Sel(c, isLow)[0])
    ensures AfterWrite(c, isLow, n).Core()
    ensures Clean(AfterWrite(c, isLow, n).pieces) <==> Clean(c.pieces)
  {
    AfterLists(c, isLow, n);
    AfterWire(c, isLow, n);
    AfterCounts(c, isLow, n);
    AfterOrder(c, isLow, n);
    hide Conn.ListsOk, Conn.WireOk, Conn.CountsOk, Conn.OrderOk;
  }

  // ------------------------------------------------------------ other steps, as values

  // A forced close in the socket thread while it has the lock.
  lemma CloseNow(c: Conn)
    requires c.Core() && c.Live() && !c.Locked()
    ensures ForceClosed(c).Valid()
  {
    hide Conn.ListsOk, Conn.WireOk, Conn.CountsOk, Conn.CloseOk, Conn.OrderOk, Conn.CutOk, Conn.All, Conn.Current;
    var c' := ForceClosed(c);
    CloseNowParts(c);
    CloseNowAll(c);
    OrderFreed(c, c', c.DwMsg() + Msgs(c.high) + Msgs(c.low));
    CountsSame(c, c');
    WireSame(c, c');
  }

  lemma CloseNowParts(c: Conn)
    requires c.Core() && c.Live() && !c.Locked()
    ensures var c' := ForceClosed(c); c'.ListsOk() && c'.CloseOk() && c'.CutOk() && Fresh(c'.low) && c'.Current().None? && !c'.Live()
  {
    hide Closes, Silent, Class, Bytes, Done, Pending, Msgs, Sends, Wrote, Follows, Torn, Ordered, Conn.WireOk, Conn.CountsOk, Conn.OrderOk;
    assert ForceClosed(c).Waiting() == [];
  }

  lemma CloseNowAll(c: Conn)
    requires c.Core() && c.Live() && !c.Locked()
    ensures var x := c.DwMsg() + Msgs(c.high) + Msgs(c.low);
      c.All() == ForceClosed(c).All() + x && (x != [] <==> c.high != [] || c.low != [] || c.dw.Some?)
  {
    hide Done, Class, Conn.ListsOk, Conn.WireOk, Conn.CountsOk, Conn.CloseOk, Conn.OrderOk, Conn.CutOk;
    MsgsNone(c.high);
    MsgsNone(c.low);
    FreedTail(Done(c.pieces), c.DwMsg(), Msgs(c.high), Msgs(c.low));
    NoneOf(c.DwMsg(), Msgs(c.high), Msgs(c.low));
  }

  lemma NoneOf(a: seq<Message>, b: seq<Message>, d: seq<Message>)
    ensures a + b + d == [] <==> a == [] && b == [] && d == []
  {
  }

  lemma MsgsNone(l: seq<Buffer>)
    ensures Msgs(l) == [] <==> l == []
  {
  }

  lemma FreedTail(d: seq<Message>, w: seq<Message>, h: seq<Message>, l: seq<Message>)
    ensures d + [] + w + h + l == (d + [] + [] + [] + []) + (w + h + l)
  {
  }

  // The first part of a forced close: the lists are freed.
  ghost function BeginClosed(c: Conn, r: Option<Out>): Conn {
    c.(high := [], low := [], freeing := Some(r), lost := c.lost || c.high != [] || c.low != [], cut := c.high != [] && c.high[0].ptr > 0)
  }

  lemma CloseBegin(c: Conn, r: Option<Out>)
    requires c.Valid() && c.Live() && r != Some(OData) && (r == Some(OClose) ==> c.kind != HalfRead)
    ensures BeginClosed(c, r).Valid()
  {
    hide Conn.ListsOk, Conn.WireOk, Conn.CountsOk, Conn.CloseOk, Conn.OrderOk, Conn.CutOk, Conn.All;
    var c' := BeginClosed(c, r);
    BeginParts(c, r);
    BeginAll(c, r);
    OrderFreed(c, c', Msgs(c.high) + Msgs(c.low));
    CountsSame(c, c');
    BeginWire(c, r);
    BeginCut(c, r);
  }

  lemma BeginParts(c: Conn, r: Option<Out>)
    requires c.Valid() && c.Live() && r != Some(OData) && (r == Some(OClose) ==> c.kind != HalfRead)
    ensures var c' := BeginClosed(c, r); c'.ListsOk() && c'.CloseOk() && Fresh(c'.low) && !c'.Live()
  {
    hide Closes, Silent, Class, Bytes, Done, Pending, Msgs, Sends, Wrote, Follows, Torn, Ordered, Conn.WireOk, Conn.CountsOk, Conn.OrderOk, Conn.CutOk;
    assert BeginClosed(c, r).Waiting() == [];
  }

  lemma BeginAll(c: Conn, r: Option<Out>)
    ensures var x := Msgs(c.high) + Msgs(c.low);
      c.All() == BeginClosed(c, r).All() + x && (x != [] <==> c.high != [] || c.low != [])
  {
    hide Done, Class;
    MsgsNone(c.high);
    MsgsNone(c.low);
    FreedLists(Done(c.pieces) + c.DirectMsg() + c.DwMsg(), Msgs(c.high), Msgs(c.low));
    NoneOf([], Msgs(c.high), Msgs(c.low));
    assert [] + Msgs(c.high) == Msgs(c.high);
  }

  lemma FreedLists(d: seq<Message>, h: seq<Message>, l: seq<Message>)
    ensures d + h + l == (d + [] + []) + (h + l)
  {
  }

  lemma BeginWire(c: Conn, r: Option<Out>)
    requires c.Valid() && c.Live()
    ensures BeginClosed(c, r).WireOk()
  {
    hide Bytes, Sound, Conn.OrderOk, Conn.CountsOk, Conn.CloseOk, Conn.CutOk;
  }

  lemma BeginCut(c: Conn, r: Option<Out>)
    requires c.Valid() && c.Live()
    ensures BeginClosed(c, r).CutOk()
  {
    hide Bytes, Sound, Conn.OrderOk, Conn.CountsOk, Conn.CloseOk, Conn.WireOk;
    HeadOfWaiting(c);
    BegunTorn(c);
    hide Torn;
  }

  lemma HeadOfWaiting(c: Conn)
    requires c.Valid()
    ensures c.Waiting() != [] && c.Waiting()[0].ptr > 0 <==> c.high != [] && c.high[0].ptr > 0
  {
    if c.high == [] {
      assert c.Waiting() == c.low;
    }
  }

  // While it is live, a message is torn exactly when the one whose bytes come next
  // was begun.
  lemma BegunTorn(c: Conn)
    requires c.Valid() && c.Live()
    ensures Torn(c.pieces) <==> c.Current().Some? && 0 < c.Current().value.ptr < |c.Current().value.m.data|
    ensures c.Current().Some? && 0 < c.Current().value.ptr && !c.direct.Some? ==> c.Current().value.ptr < |c.Current().value.m.data|
    ensures c.direct.Some? || c.dw.Some? ==> c.Waiting() == [] || c.Waiting()[0].ptr == 0
  {
    hide Bytes, Sound, Conn.OrderOk, Conn.CountsOk, Conn.CloseOk, Conn.CutOk;
    var cur := c.Current();
    if cur.Some? && 0 < cur.value.ptr {
      assert c.pieces[|c.pieces| - 1] == Piece(cur.value.m, cur.value.ptr);
      if !c.direct.Some? && !c.dw.Some? {
        assert Unsent(c.Waiting()[0]);
      }
    }
  }

  ghost function Raised(outs: seq<Out>, r: Option<Out>): seq<Out> { if r.Some? then outs + [r.value] else outs }

  lemma RaisedFacts(outs: seq<Out>, o: Out)
    requires Silent(outs)
    ensures Closes(outs + [o]) == Closes(outs) + if o == OClose then 1 else 0
    ensures Closes(outs) == 0 || o != OData ==> Silent(outs + [o])
  {
    assert (outs + [o])[..|outs|] == outs;
    if Closes(outs) == 0 {
      NoClose(outs);
    }
  }

  lemma {:induction false} NoClose(outs: seq<Out>)
    requires Closes(outs) == 0
    ensures OClose !in outs
    decreases |outs|
  {
    if outs != [] {
      NoClose(outs[..|outs| - 1]);
      assert outs == outs[..|outs| - 1] + [outs[|outs| - 1]];
    }
  }

  // The second part, once the lock is free.
  ghost function CloseEnded(c: Conn): Conn
    requires c.freeing.Some?
  {
    c.(kind := Invalid, dw := None, freeing := None, outs := Raised(c.outs, c.freeing.value), lost := c.lost || c.dw.Some?)
  }

  lemma CloseEnd(c: Conn)
    requires c.Valid() && c.freeing.Some? && !c.Locked()
    ensures CloseEnded(c).Valid()
  {
    hide Conn.ListsOk, Conn.WireOk, Conn.CountsOk, Conn.CloseOk, Conn.OrderOk, Conn.CutOk, Conn.All, Conn.Current;
    var c' := CloseEnded(c);
    CloseEndClose(c);
    CloseEndParts(c);
    CloseEndAll(c);
    WireSame(c, c');
    CountsSame(c, c');
    OrderFreed(c, c', c.DwMsg());
  }

  lemma CloseEndParts(c: Conn)
    requires c.Valid() && c.freeing.Some? && !c.Locked()
    ensures var c' := CloseEnded(c); c'.ListsOk() && c'.CutOk() && Fresh(c'.low) && c'.Current().None? && !c'.Live() && c'.low == []
  {
    hide Closes, Silent, Class, Bytes, Done, Pending, Msgs, Sends, Wrote, Follows, Torn, Ordered, Raised, Conn.WireOk, Conn.CountsOk, Conn.CloseOk, Conn.OrderOk;
    assert c.Waiting() == [] && CloseEnded(c).Waiting() == [];
    assert |c.Waiting()| == |c.high| + |c.low|;
  }

  lemma CloseEndAll(c: Conn)
    requires c.Valid() && c.freeing.Some? && !c.Locked()
    ensures c.All() == CloseEnded(c).All() + c.DwMsg()
  {
    hide Done, Class, Raised, Conn.WireOk, Conn.CountsOk, Conn.CloseOk, Conn.OrderOk, Conn.CutOk;
    assert |c.Waiting()| == |c.high| + |c.low|;
    MsgsNone(c.high);
    MsgsNone(c.low);
    FreedTail(Done(c.pieces), c.DwMsg(), [], []);
    assert c.DwMsg() + [] + [] == c.DwMsg();
  }

  lemma CloseEndClose(c: Conn)
    requires c.Valid() && c.freeing.Some? && !c.Locked()
    ensures CloseEnded(c).CloseOk()
  {
    hide Closes, Silent, Class, Bytes, Done, Pending, Msgs, Sends, Torn, Ordered, Conn.ListsOk, Conn.WireOk, Conn.CountsOk, Conn.OrderOk, Conn.CutOk;
    if c.freeing.value.Some? {
      RaisedFacts(c.outs, c.freeing.value.value);
    }
  }

  lemma HalfCloseWrite(c: Conn)
    requires c.Core() && c.Live() && !c.closing && c.kind != HalfRead
    ensures c.(kind := HalfWrite).Core()
  {
    hide Closes, Silent, Class, Bytes, Done, Pending, Msgs, Sends;
  }

  // raise_uncomplete: a low message that was begun moves to the empty high list.
  lemma RaiseUncomplete(c: Conn)
    requires c.Core() && c.high == [] && c.low != []
    ensures c.(high := [c.low[0]], low := c.low[1..]).Valid()
  {
    var c' := c.(high := [c.low[0]], low := c.low[1..]);
    RaiseSame(c);
    RaiseFresh(c);
    WireSame(c, c');
    CountsSame(c, c');
    OrderSame(c, c');
    CutSame(c, c');
    hide Class, Bytes, Done, Sends, Closes, Msgs, Pending, Conn.All, Conn.Waiting, Conn.WireOk, Conn.CountsOk, Conn.OrderOk, Ordered, Conn.CutOk;
  }

  lemma RaiseFresh(c: Conn)
    requires c.Core() && c.high == [] && c.low != []
    ensures Fresh(c.low[1..]) && c.Live()
  {
    hide Class, Bytes, Done, Sends, Closes, Msgs, Pending, Conn.WireOk, Conn.CountsOk, Conn.OrderOk, Conn.CloseOk;
    assert c.Waiting() == c.low;
  }

  lemma RaiseSame(c: Conn)
    requires c.Core() && c.high == [] && c.low != []
    ensures var c' := c.(high := [c.low[0]], low := c.low[1..]);
      && c'.Waiting() == c.Waiting() == c.low
      && Pending(c'.high) + Pending(c'.low) == Pending(c.high) + Pending(c.low) && c'.All() == c.All()
  {
    hide Conn.ListsOk, Conn.WireOk, Conn.OrderOk, Conn.CountsOk, Conn.CloseOk, Class, Bytes, Done;
    var c' := c.(high := [c.low[0]], low := c.low[1..]);
    assert c'.high + c'.low == c.low;
    assert Msgs(c'.high) == [c.low[0].m] && Msgs(c.low) == [c.low[0].m] + Msgs(c.low[1..]) && Msgs(c.high) == [];
    assert Pending(c'.high) == SizeOf(c.low[0]);
    Empty(Done(c.pieces) + c.DirectMsg() + c.DwMsg(), Msgs(c'.high), Msgs(c'.low));
  }

  lemma Empty(a: seq<Message>, b: seq<Message>, d: seq<Message>)
    ensures a + [] + (b + d) == a + b + d
  {
  }

  // What a direct write has left goes before the high list.
  lemma DwFirst(c: Conn)
    requires c.Valid() && c.Live() && c.dw.Some?
    ensures DwMoved(c).Valid()
  {
    hide Conn.ListsOk, Conn.WireOk, Conn.CountsOk, Conn.CloseOk, Conn.OrderOk, Conn.CutOk;
    var c' := DwMoved(c);
    DwLists(c);
    DwSame(c);
    hide DwMoved;
    WireSame(c, c');
    CountsSame(c, c');
    OrderSame(c, c');
    DwRest(c);
  }

  ghost function DwMoved(c: Conn): Conn
    requires c.dw.Some?
  {
    c.(high := [c.dw.value] + c.high, dw := None, wbSize := c.wbSize + SizeOf(c.dw.value))
  }

  lemma DwLists(c: Conn)
    requires c.Valid() && c.Live() && c.dw.Some?
    ensures DwMoved(c).ListsOk() && Fresh(DwMoved(c).low) && DwMoved(c).Waiting() == [c.dw.value] + c.Waiting()
  {
    hide Closes, Silent, Class, Bytes, Done, Pending, Msgs, Sends, Wrote, Follows, Torn, Ordered, Conn.WireOk, Conn.CountsOk, Conn.CloseOk, Conn.OrderOk, Conn.CutOk;
    assert DwMoved(c).Waiting() == [c.dw.value] + c.Waiting();
  }

  lemma DwSame(c: Conn)
    requires c.Valid() && c.Live() && c.dw.Some?
    ensures DwMoved(c).All() == c.All() && DwMoved(c).Current() == c.Current() && DwMoved(c).Live()
    ensures Pending(DwMoved(c).high) + Pending(DwMoved(c).low) - DwMoved(c).wbSize == Pending(c.high) + Pending(c.low) - c.wbSize
    ensures DwMoved(c).wire == c.wire && DwMoved(c).pieces == c.pieces && DwMoved(c).taken == c.taken && DwMoved(c).lost == c.lost
    ensures DwMoved(c).sending == c.sending && DwMoved(c).preparing == c.preparing && DwMoved(c).pipe == c.pipe && DwMoved(c).low == c.low
  {
    hide Class, Done, Closes, Silent, Bytes, Sends, Torn, Ordered, Conn.WireOk, Conn.CountsOk, Conn.OrderOk, Conn.CloseOk, Conn.CutOk;
    var c' := DwMoved(c);
    assert c'.high[1..] == c.high;
    assert Msgs(c'.high) == [c.dw.value.m] + Msgs(c.high) && Pending(c'.high) == SizeOf(c.dw.value) + Pending(c.high);
    assert c'.Waiting() == [c.dw.value] + c.Waiting();
    assert c.direct.None? && Done(c.pieces) + [] + [c.dw.value.m] + Msgs(c.high) == Done(c.pieces) + [] + [] + ([c.dw.value.m] + Msgs(c.high));
  }

  lemma DwRest(c: Conn)
    requires c.Valid() && c.Live() && c.dw.Some?
    ensures DwMoved(c).CloseOk() && DwMoved(c).CutOk()
  {
    hide Closes, Silent, Class, Bytes, Done, Pending, Msgs, Sends, Wrote, Follows, Torn, Ordered;
  }

  // Adding a message to a list.
  ghost function Appended(c: Conn, m: Message, toLow: bool): Conn {
    WithList(c, toLow, Sel(c, toLow) + [Buffer(m, 0)]).(wbSize := c.wbSize + |m.data|, taken := c.taken + [m])
  }

  lemma AppendOrder(c: Conn, m: Message, toLow: bool)
    requires c.Valid() && c.Live() && (toLow ==> m.low) && (!toLow && m.low ==> c.low == [])
    ensures Appended(c, m, toLow).OrderOk()
  {
    var c' := Appended(c, m, toLow);
    var d := Done(c.pieces) + c.DirectMsg() + c.DwMsg();
    AppendAll(c, m, toLow);
    LowMsgs(c);
    hide Done, Class, Subseq, Msgs, Conn.All, Conn.Core, Conn.DirectMsg, Conn.DwMsg;
    forall k: bool ensures Class(k, c'.All()) == Class(k, c'.taken) {
      assert Class(k, c.All()) == Class(k, c.taken);
      AppendClass(k, d, Msgs(c.high), Msgs(c.low), m, toLow);
      ClassConcat(k, c.taken, [m]);
    }
    OrderedSame(c'.All(), c'.taken);
  }

  lemma LowMsgs(c: Conn)
    requires c.Valid() && c.Live()
    ensures c.OrderOk() && |Msgs(c.low)| == |c.low| && forall j :: 0 <= j < |c.low| ==> Msgs(c.low)[j].low
  {
    hide Conn.WireOk, Conn.CountsOk, Conn.CloseOk, Conn.ListsOk, Conn.CutOk, Ordered, Msgs, Conn.All;
    MsgsAt(c.low);
  }

  lemma AppendAll(c: Conn, m: Message, toLow: bool)
    ensures var d := Done(c.pieces) + c.DirectMsg() + c.DwMsg();
      Appended(c, m, toLow).All() ==
        if toLow then d + Msgs(c.high) + (Msgs(c.low) + [m]) else d + (Msgs(c.high) + [m]) + Msgs(c.low)
    ensures c.All() == Done(c.pieces) + c.DirectMsg() + c.DwMsg() + Msgs(c.high) + Msgs(c.low)
  {
    MsgsConcat(Sel(c, toLow), [Buffer(m, 0)]);
    assert Msgs([Buffer(m, 0)]) == [m];
    hide Done, Msgs;
  }

  lemma Swap(a: seq<Message>, b: seq<Message>, c: seq<Message>, d: seq<Message>)
    requires c == [] || d == []
    ensures a + b + c + d == a + b + d + c
  {
  }

  lemma AppendClass(k: bool, d: seq<Message>, h: seq<Message>, l: seq<Message>, m: Message, toLow: bool)
    requires (forall j :: 0 <= j < |l| ==> l[j].low) && (!toLow && m.low ==> l == [])
    ensures Class(k, if toLow then d + h + (l + [m]) else d + (h + [m]) + l) == Class(k, d + h + l) + Class(k, [m])
  {
    hide Class;
    if toLow {
      assert d + h + (l + [m]) == d + h + l + [m];
      ClassConcat(k, d + h + l, [m]);
    } else {
      assert d + (h + [m]) + l == d + h + [m] + l;
      ClassConcat(k, d + h + [m], l);
      ClassConcat(k, d + h, [m]);
      ClassConcat(k, d + h, l);
      ClassConcat(k, d, h);
      if !k || l == [] {
        ClassNone(k, l);
      } else {
        ClassNone(k, [m]);
      }
      Swap(Class(k, d), Class(k, h), Class(k, [m]), Class(k, l));
    }
  }

  lemma AppendOk(c: Conn, m: Message, toLow: bool)
    requires c.Valid() && c.Live() && (toLow ==> m.low) && (!toLow && m.low ==> c.low == []) && (toLow ==> c.high + c.low != [])
    ensures Appended(c, m, toLow).Valid()
  {
    var c' := Appended(c, m, toLow);
    AppendOrder(c, m, toLow);
    PendingConcat(Sel(c, toLow), [Buffer(m, 0)]);
    assert Pending([Buffer(m, 0)]) == |m.data|;
    CountsSame(c, c');
    AppendLists(c, m, toLow);
    AppendWire(c, m, toLow);
    hide Conn.ListsOk;
    CutSame(c, c');
    hide Closes, Silent, Class, Bytes, Done, Pending, Msgs, Sends, Wrote, Follows, Torn, Conn.WireOk, Conn.CountsOk, Conn.OrderOk, Conn.All, Ordered, Conn.CutOk;
  }

  lemma AppendWaiting(c: Conn, m: Message, toLow: bool)
    requires c.Valid() && (toLow ==> c.high + c.low != [])
    ensures var q, q' := c.Waiting(), Appended(c, m, toLow).Waiting();
      && |q'| == |q| + 1 && (forall k :: 0 <= k < |q'| ==> q'[k] == Buffer(m, 0) || (k < |q| && q'[k] == q[k]) || (k > 0 && q'[k] == q[k - 1] && q'[k].ptr == 0))
      && (q != [] && (c.high != [] || toLow) ==> q'[0] == q[0])
      && (q' != [] && c.high == [] && !toLow ==> q'[0] == Buffer(m, 0))
  {
    hide Class, Bytes, Done, Sends, Closes, Msgs, Pending, Conn.WireOk, Conn.CountsOk, Conn.OrderOk, Conn.CloseOk;
    var q' := Appended(c, m, toLow).Waiting();
    if toLow {
      assert q' == c.high + c.low + [Buffer(m, 0)];
    } else {
      assert q' == c.high + [Buffer(m, 0)] + c.low;
    }
  }

  lemma AppendLists(c: Conn, m: Message, toLow: bool)
    requires c.Valid() && c.Live() && (toLow ==> c.high + c.low != [])
    ensures Appended(c, m, toLow).ListsOk() && Fresh(Appended(c, m, toLow).low)
  {
    AppendFresh(c, m, toLow);
    hide Class, Bytes, Done, Sends, Closes, Msgs, Pending, Conn.WireOk, Conn.CountsOk, Conn.OrderOk, Conn.CloseOk, Conn.Waiting, Unsent, FreshTail;
    assert Fresh(c.low);
  }

  lemma AppendFresh(c: Conn, m: Message, toLow: bool)
    requires c.Valid() && c.Live() && (toLow ==> c.high + c.low != [])
    ensures var q' := Appended(c, m, toLow).Waiting();
      && FreshTail(q') && (forall k :: 0 <= k < |q'| ==> Unsent(q'[k])) && (Fresh(c.Waiting()) ==> Fresh(q'))
  {
    AppendWaiting(c, m, toLow);
    var q, q' := c.Waiting(), Appended(c, m, toLow).Waiting();
    if q != [] && c.high == [] && !toLow {
      LowHead(c);
    }
    assert FreshTail(q) && forall k :: 0 <= k < |q| ==> Unsent(q[k]);
    hide Appended, Conn.Waiting, Conn.ListsOk, Conn.WireOk, Conn.CountsOk, Conn.OrderOk, Conn.CloseOk;
    forall k | 0 <= k < |q'| ensures (k > 0 ==> q'[k].ptr == 0) && Unsent(q'[k]) && (Fresh(q) ==> q'[k].ptr == 0) {
      assert q'[k] == Buffer(m, 0) || (k < |q| && q'[k] == q[k]) || (k > 0 && q'[k] == q[k - 1] && q'[k].ptr == 0);
    }
  }

  lemma LowHead(c: Conn)
    requires c.Valid() && c.high == [] && c.Waiting() != []
    ensures c.Waiting()[0].ptr == 0
  {
    assert c.Waiting() == c.low;
  }

  lemma AppendWire(c: Conn, m: Message, toLow: bool)
    requires c.Valid() && c.Live() && (toLow ==> c.high + c.low != [])
    ensures Appended(c, m, toLow).WireOk()
  {
    var c' := Appended(c, m, toLow);
    AppendCurrent(c, m, toLow);
    hide Conn.ListsOk, Conn.CountsOk, Conn.OrderOk, Conn.CloseOk, Conn.CutOk, Conn.Current, Bytes, Sound, Follows;
    if c'.Current() == c.Current() {
      WireSame(c, c');
    }
  }

  // What comes next stays, or nothing was begun.
  lemma AppendCurrent(c: Conn, m: Message, toLow: bool)
    requires c.Valid() && c.Live() && (toLow ==> c.high + c.low != [])
    ensures var c' := Appended(c, m, toLow);
      c'.Current() == c.Current() || (c'.Current() == Some(Buffer(m, 0)) && (c.Current().None? || c.Current().value.ptr == 0))
  {
    var c' := Appended(c, m, toLow);
    AppendWaiting(c, m, toLow);
    if c.high == [] && c.Waiting() != [] {
      LowHead(c);
    }
    assert c.high != [] ==> c.Waiting() != [];
    assert c'.dw == c.dw && c'.direct == c.direct;
    hide Appended, Conn.Waiting, Conn.Core, Conn.ListsOk;
  }

  // An event is raised; CLOSE only by a close, DATA only before it.
  lemma RaiseOk(c: Conn, o: Out)
    requires c.Valid() && o != OClose && (o == OData ==> c.kind != HalfRead && c.Live())
    ensures c.(outs := c.outs + [o]).Valid()
  {
    hide Conn.Valid, Conn.CloseOk;
    RaiseClose(c, o);
    SendingIs(c);
    HolderOnce(c);
    UntouchedOk(c, c.(outs := c.outs + [o]));
  }

  lemma RaiseClose(c: Conn, o: Out)
    requires c.Valid() && o != OClose && (o == OData ==> c.kind != HalfRead && c.Live())
    ensures c.(outs := c.outs + [o]).CloseOk()
  {
    hide Closes, Silent, Conn.ListsOk, Conn.WireOk, Conn.CountsOk, Conn.OrderOk, Conn.CutOk;
    RaisedFacts(c.outs, o);
  }

  lemma HolderOnce(c: Conn)
    requires c.Valid()
    ensures !(c.holder.Some? && c.direct.Some?) && (c.holder.Some? ==> c.kind != Invalid)
  {
    hide Conn.WireOk, Conn.CountsOk, Conn.CloseOk, Conn.OrderOk, Conn.CutOk;
  }

  // close_read, with its CLOSE event.
  lemma CloseReadOk(c: Conn, closing: bool)
    requires c.Valid() && c.Live() && c.kind != HalfRead
    ensures c.(kind := HalfRead, closing := closing, outs := c.outs + [OClose]).Valid()
  {
    hide Conn.Valid, Conn.CloseOk;
    CloseReadClose(c, closing);
    SendingIs(c);
    HolderOnce(c);
    UntouchedOk(c, c.(kind := HalfRead, closing := closing, outs := c.outs + [OClose]));
  }

  lemma CloseReadClose(c: Conn, closing: bool)
    requires c.Valid() && c.Live() && c.kind != HalfRead
    ensures c.(kind := HalfRead, closing := closing, outs := c.outs + [OClose]).CloseOk()
  {
    hide Closes, Silent, Conn.ListsOk, Conn.WireOk, Conn.CountsOk, Conn.OrderOk, Conn.CutOk;
    RaisedFacts(c.outs, OClose);
  }

  lemma ConnectedOk(c: Conn)
    requires c.Valid() && c.Live() && (c.kind == Connecting || c.kind == PAccept)
    ensures c.(kind := Connected).Valid()
  {
    hide Conn.Valid, Conn.CloseOk;
    SendingIs(c);
    HolderOnce(c);
    KindClose(c);
    UntouchedOk(c, c.(kind := Connected));
  }

  lemma KindClose(c: Conn)
    requires c.Valid() && c.Live() && (c.kind == Connecting || c.kind == PAccept)
    ensures c.(kind := Connected).CloseOk()
  {
    hide Closes, Silent, Conn.ListsOk, Conn.WireOk, Conn.CountsOk, Conn.OrderOk, Conn.CutOk;
  }

  // The test of can_direct_write.
  predicate CanDirect(c: Conn) { c.high == [] && c.low == [] && c.dw.None? && c.sending == 0 && c.kind == Connected }

  lemma HolderOk(c: Conn, holder: Option<Message>)
    requires c.Valid() && c.direct.None? && (holder.Some? ==> c.kind != Invalid)
    ensures c.(holder := holder).Valid()
  {
    hide Conn.Valid, Conn.CloseOk;
    SendingIs(c);
    SameClose(c, c.(holder := holder));
    UntouchedOk(c, c.(holder := holder));
  }

  lemma SameClose(c: Conn, c': Conn)
    requires c.Valid() && c'.kind == c.kind && c'.closing == c.closing && c'.outs == c.outs && c'.freeing == c.freeing
    ensures c'.CloseOk()
  {
    hide Closes, Silent, Conn.ListsOk, Conn.WireOk, Conn.CountsOk, Conn.OrderOk, Conn.CutOk;
  }

  // The second check has succeeded: the message is accepted.
  lemma AcceptOk(c: Conn, m: Message)
    requires c.Valid() && c.holder == Some(m) && CanDirect(c)
    ensures c.(holder := None, direct := Some(Buffer(m, 0)), written := false, taken := c.taken + [m]).Valid()
  {
    hide Conn.ListsOk, Conn.WireOk, Conn.CountsOk, Conn.CloseOk, Conn.OrderOk, Conn.CutOk;
    var c' := c.(holder := None, direct := Some(Buffer(m, 0)), written := false, taken := c.taken + [m]);
    CountsSame(c, c');
    AcceptLists(c, m);
    AcceptOrder(c, m);
    AcceptRest(c, m);
  }

  lemma AcceptLists(c: Conn, m: Message)
    requires c.Valid() && c.holder == Some(m) && CanDirect(c)
    ensures var c' := c.(holder := None, direct := Some(Buffer(m, 0)), written := false, taken := c.taken + [m]);
      c'.ListsOk() && Fresh(c'.low) && c'.WireOk()
  {
    hide Closes, Silent, Class, Bytes, Done, Pending, Msgs, Sends, Wrote, Torn, Ordered, Conn.CountsOk, Conn.CloseOk, Conn.OrderOk, Conn.CutOk;
    assert c.Waiting() == [];
  }

  lemma AcceptOrder(c: Conn, m: Message)
    requires c.Valid() && c.holder == Some(m) && CanDirect(c)
    ensures c.(holder := None, direct := Some(Buffer(m, 0)), written := false, taken := c.taken + [m]).OrderOk()
  {
    hide Class, Bytes, Done, Pending, Sends, Torn, Ordered, Conn.CountsOk, Conn.CloseOk, Conn.WireOk, Conn.CutOk;
    var c' := c.(holder := None, direct := Some(Buffer(m, 0)), written := false, taken := c.taken + [m]);
    HolderFree(c);
    assert c'.All() == c.All() + [m];
    OrderedMore(c.All(), c.taken, c.lost, m);
  }

  lemma AcceptRest(c: Conn, m: Message)
    requires c.Valid() && c.holder == Some(m) && CanDirect(c)
    ensures var c' := c.(holder := None, direct := Some(Buffer(m, 0)), written := false, taken := c.taken + [m]);
      c'.CloseOk() && c'.CutOk()
  {
    hide Closes, Silent, Class, Bytes, Done, Pending, Msgs, Sends, Wrote, Follows, Torn, Ordered, Conn.CountsOk, Conn.OrderOk, Conn.WireOk;
  }

  ghost function DirectWritten(c: Conn, n: nat): Conn
    requires c.direct.Some? && n <= |c.direct.value.m.data|
  {
    var b := c.direct.value;
    c.(direct := Some(Buffer(b.m, n)), written := true, wire := c.wire + b.m.data[0..n], pieces := Wrote(c.pieces, b, n))
  }

  // The direct write keeps the stream clean unless it follows a message that
  // was begun and freed: that takes a forced close that waits for the lock.
  lemma DirectOk(c: Conn, n: nat)
    requires c.Valid() && c.direct.Some? && !c.written && n <= |c.direct.value.m.data|
    ensures DirectWritten(c, n).Valid()
    ensures Clean(DirectWritten(c, n).pieces) <==> Clean(c.pieces) && !(n > 0 && c.freeing.Some? && c.cut)
  {
    hide Conn.ListsOk, Conn.CutOk, Conn.WireOk, Conn.CountsOk, Conn.OrderOk, Conn.CloseOk, Conn.All, Clean, Wrote, Torn;
    var c' := DirectWritten(c, n);
    DirectClean(c, n);
    DirectLists(c, n);
    SameClose(c, c');
    CountsSame(c, c');
    DirectAll(c, n);
    OrderSame(c, c');
    DirectWire(c, n);
    DirectCut(c, n);
  }

  lemma DirectClean(c: Conn, n: nat)
    requires c.Valid() && c.direct.Some? && !c.written && n <= |c.direct.value.m.data|
    ensures Clean(DirectWritten(c, n).pieces) <==> Clean(c.pieces) && (n > 0 ==> !Torn(c.pieces))
  {
    hide Conn.CutOk, Conn.CountsOk, Conn.OrderOk, Conn.CloseOk, Clean, Wrote, Torn, Sound, Bytes;
    WroteClean(c.pieces, c.direct.value, n);
  }

  lemma DirectLists(c: Conn, n: nat)
    requires c.Valid() && c.direct.Some? && !c.written && n <= |c.direct.value.m.data|
    ensures DirectWritten(c, n).ListsOk() && Fresh(DirectWritten(c, n).low)
  {
    hide Conn.CutOk, Conn.WireOk, Conn.CountsOk, Conn.OrderOk, Conn.CloseOk, Wrote;
    assert DirectWritten(c, n).Waiting() == c.Waiting();
  }

  lemma DirectCut(c: Conn, n: nat)
    requires c.Valid() && c.direct.Some? && !c.written && n <= |c.direct.value.m.data|
    ensures DirectWritten(c, n).CutOk()
    ensures Torn(c.pieces) <==> c.freeing.Some? && c.cut
  {
    var b := c.direct.value;
    hide Bytes, Conn.OrderOk, Conn.CountsOk, Conn.CloseOk;
    WroteTorn(c.pieces, b, n);
    hide Torn, Wrote;
    if c.Live() {
      BegunTorn(c);
    }
  }

  lemma WroteTorn(ps: seq<Piece>, b: Buffer, n: nat)
    requires b.ptr == 0 && n <= |b.m.data|
    ensures Torn(Wrote(ps, b, n)) <==> Torn(ps) || 0 < n < |b.m.data|
  {
    var ps' := Wrote(ps, b, n);
    if ps' != ps {
      assert forall k :: 0 <= k < |ps| ==> ps'[k] == ps[k];
      if Torn(ps) {
        var j :| 0 <= j < |ps| && !Whole(ps[j]);
        assert !Whole(ps'[j]);
      }
      assert Whole(ps'[|ps|]) <==> n == |b.m.data|;
    }
  }

  lemma DirectAll(c: Conn, n: nat)
    requires c.Valid() && c.direct.Some? && !c.written && n <= |c.direct.value.m.data|
    ensures DirectWritten(c, n).All() == c.All()
  {
    var b := c.direct.value;
    WroteFacts(c.pieces, b, n);
    hide Class, Bytes, Done, Wrote, Msgs, Pending, Conn.WireOk, Conn.CountsOk;
    if n == |b.m.data| {
      assert Done(c.pieces) + [b.m] + [] == Done(c.pieces) + [b.m];
    } else {
      assert Done(c.pieces) + [] == Done(c.pieces);
    }
  }

  lemma DirectWire(c: Conn, n: nat)
    requires c.Valid() && c.direct.Some? && !c.written && n <= |c.direct.value.m.data|
    ensures DirectWritten(c, n).WireOk()
  {
    hide Bytes, Wrote, Follows, Sound, Class, Done, Torn, Ordered, Conn.OrderOk, Conn.CountsOk, Conn.CloseOk, Conn.CutOk;
    var b := c.direct.value;
    WroteFacts(c.pieces, b, n);
    if c.Live() {
      LiveTail(c);
      WroteTail(c.pieces, b, n);
    } else if n > 0 {
      WroteFollows(c.pieces, b, n);
    }
    hide Conn.ListsOk;
  }

  // Nothing is begun when a direct write of a live connection starts.
  lemma LiveTail(c: Conn)
    requires c.Valid() && c.Live() && c.direct.Some? && !c.written
    ensures c.direct.value.ptr == 0 && forall k :: 0 <= k < |c.pieces| ==> Whole(c.pieces[k])
  {
    hide Bytes, Follows, Sound, Class, Done, Torn, Ordered, Conn.OrderOk, Conn.CountsOk, Conn.CloseOk, Conn.CutOk;
  }

  lemma WroteFollows(ps: seq<Piece>, b: Buffer, n: nat)
    requires b.ptr == 0 && n <= |b.m.data| && n > 0
    ensures Follows(Wrote(ps, b, n), Buffer(b.m, n))
  {
  }

  ghost function DirectEnded(c: Conn): Conn
    requires c.direct.Some?
  {
    if c.direct.value.ptr == |c.direct.value.m.data| then c.(direct := None) else c.(direct := None, dw := c.direct)
  }

  lemma EndedOk(c: Conn)
    requires c.Valid() && c.direct.Some? && c.written
    ensures DirectEnded(c).Valid()
  {
    hide DirectEnded, Conn.All, Conn.ListsOk, Conn.WireOk, Conn.CountsOk, Conn.CloseOk, Conn.OrderOk, Conn.CutOk;
    var c' := DirectEnded(c);
    EndedLists(c);
    EndedAll(c);
    EndedWire(c);
    EndedRest(c);
    EndedSame(c);
    CountsSame(c, c');
    OrderSame(c, c');
  }

  lemma EndedSame(c: Conn)
    requires c.direct.Some?
    ensures var c' := DirectEnded(c); c' == c.(direct := None, dw := c'.dw)
  {
  }

  lemma EndedLists(c: Conn)
    requires c.Valid() && c.direct.Some? && c.written
    ensures DirectEnded(c).ListsOk() && Fresh(DirectEnded(c).low)
  {
    hide Closes, Silent, Class, Bytes, Done, Pending, Msgs, Sends, Wrote, Follows, Torn, Ordered, Conn.WireOk, Conn.CountsOk, Conn.CloseOk, Conn.OrderOk, Conn.CutOk;
    assert DirectEnded(c).Waiting() == c.Waiting();
  }

  lemma EndedRest(c: Conn)
    requires c.Valid() && c.direct.Some? && c.written
    ensures DirectEnded(c).CloseOk() && DirectEnded(c).CutOk()
  {
    hide Closes, Silent, Class, Bytes, Done, Pending, Msgs, Sends, Wrote, Follows, Torn, Ordered, Conn.WireOk, Conn.CountsOk, Conn.OrderOk;
  }

  lemma EndedAll(c: Conn)
    requires c.Valid() && c.direct.Some? && c.written
    ensures DirectEnded(c).All() == c.All()
  {
    hide Class, Done, Msgs, Conn.WireOk, Conn.CountsOk, Conn.CloseOk, Conn.OrderOk, Conn.CutOk;
    assert c.dw.None?;
    hide Conn.ListsOk;
    SwapNone(Done(c.pieces), c.direct.value.m, Msgs(c.high), Msgs(c.low));
  }

  lemma SwapNone(d: seq<Message>, m: Message, h: seq<Message>, l: seq<Message>)
    ensures d + [m] + [] + h + l == d + [] + [m] + h + l
  {
    assert d + [m] + [] == d + [] + [m];
  }

  lemma EndedWire(c: Conn)
    requires c.Valid() && c.direct.Some? && c.written
    ensures DirectEnded(c).WireOk()
  {
    hide Bytes, Wrote, Sound, Conn.OrderOk, Conn.CountsOk, Conn.CloseOk;
    var c' := DirectEnded(c);
    if c.direct.value.ptr == |c.direct.value.m.data| && c.Waiting() != [] {
      assert Fresh(c.Waiting());
      assert c'.Current().value.ptr == 0;
    }
  }

  lemma PipeOk(c: Conn, sending: nat, preparing: seq<Message>, pipe: seq<Cmd>)
    requires c.Valid() && sending == |preparing| + Sends(pipe)
    ensures c.(sending := sending, preparing := preparing, pipe := pipe).Valid()
  {
    hide Conn.Valid, Conn.CloseOk;
    var c' := c.(sending := sending, preparing := preparing, pipe := pipe);
    HolderOnce(c);
    SameClose(c, c');
    UntouchedOk(c, c');
  }

  lemma ReadyHead(c: Conn, isLow: bool)
    requires Ready(c, isLow)
    ensures Sel(c, isLow) != [] && SizeOf(Sel(c, isLow)[0]) >= 0
  {
    HeadIs(c, isLow);
  }

  function ForceClosed(c: Conn): Conn {
    c.(kind := Invalid, high := [], low := [], dw := None, lost := c.lost || c.high != [] || c.low != [] || c.dw.Some?)
  }

  // The state in which a connection starts.
  predicate Opens(kind: Kind) { kind == Connecting || kind == PAccept || kind == Connected }

  function Fresh0(kind: Kind): Conn {
    Conn(kind, [], [], 0, false, 0, None, None, None, false, [], [], None, [], [], [], [], false, false)
  }

  lemma Fresh0Lists(kind: Kind)
    requires Opens(kind)
    ensures Fresh0(kind).ListsOk()
  {
    hide Conn.OrderOk, Conn.WireOk, Conn.CloseOk, Conn.CountsOk;
    var c := Fresh0(kind);
    assert c.Waiting() == [] && c.Live() && c.dw == None && c.direct == None && c.holder == None;
    hide Fresh0, Conn.Waiting;
  }

  lemma NothingYet()
    ensures Closes([]) == 0 && Silent([]) && Sends([]) == 0 && Pending([]) == 0
  {
  }

  lemma Fresh0Counts(kind: Kind)
    requires Opens(kind)
    ensures Fresh0(kind).CloseOk() && Fresh0(kind).CountsOk()
  {
    NothingYet();
    hide Closes, Silent, Sends, Pending, Conn.OrderOk, Conn.WireOk, Conn.ListsOk;
  }

  lemma Fresh0Wire(kind: Kind)
    requires Opens(kind)
    ensures Fresh0(kind).WireOk() && Fresh0(kind).OrderOk()
  {
    hide Conn.ListsOk, Conn.CountsOk, Conn.CloseOk;
    assert Fresh0(kind).All() == [] == Fresh0(kind).taken;
    hide Class, Conn.All;
  }

  lemma Fresh0Ok(kind: Kind)
    requires Opens(kind)
    ensures Fresh0(kind).Valid()
  {
    hide Conn.ListsOk, Conn.WireOk, Conn.CountsOk, Conn.CloseOk, Conn.OrderOk;
    Fresh0Lists(kind);
    Fresh0Counts(kind);
    Fresh0Wire(kind);
  }

  lemma ValidIs(c: Conn)
    requires c.Valid()
    ensures c.Core() && Fresh(c.low)
  {
  }

  lemma ValidWhen(c: Conn)
    requires c.Core() && Fresh(c.low)
    ensures c.Valid()
  {
  }

  // After the write of a valid connection's list head only a low message may
  // have been begun out of place.
  lemma WriteValid(c: Conn, isLow: bool, n: nat)
    requires Ready(c, isLow) && c.Valid() && n <= SizeOf(Sel(c, isLow)[0])
    ensures var c' := AfterWrite(c, isLow, n);
      c'.Core() && (c'.Valid() || (isLow && n < SizeOf(Sel(c, isLow)[0]) && c'.low != [] && c'.low[0].ptr > 0))
  {
    AfterWriteOk(c, isLow, n);
    var c' := AfterWrite(c, isLow, n);
    hide Conn.ListsOk, Conn.WireOk, Conn.CountsOk, Conn.OrderOk, Conn.CloseOk, Wrote, Clean;
    if isLow && n < SizeOf(Sel(c, isLow)[0]) && n > 0 {
      assert c'.low[0].ptr == c.low[0].ptr + n;
    }
  }

  lemma ReadyWhen(c: Conn, isLow: bool)
    requires c.Valid() && c.Live() && !c.Locked() && c.dw.None? && (isLow ==> c.high == []) && Sel(c, isLow) != []
    ensures Ready(c, isLow)
  {
  }

  lemma AllSent(c: Conn)
    requires c.Core() && c.Live() && c.high == [] && c.low == []
    ensures c.wbSize == 0 && c.Valid()
  {
    hide Conn.ListsOk, Conn.WireOk, Conn.OrderOk, Conn.CloseOk;
  }

  lemma ClosesStay(outs: seq<Out>, o: Out)
    ensures Closes(outs + [o]) == Closes(outs) + if o == OClose then 1 else 0
  {
    assert (outs + [o])[..|outs|] == outs;
  }

  // send_socket drops the message.
  predicate Refused(c: Conn) { c.kind == Invalid || c.kind == HalfWrite || c.kind == PAccept || c.closing }

  // nomore_sending_data
  predicate NoMoreData(c: Conn) { (c.high == [] && c.low == [] && c.dw.None? && c.sending == 0) || c.kind == HalfWrite }

  // How many bytes the kernel takes of a direct write.
  function AckSize(c: Conn, ack: Ack): (n: nat)
    requires c.direct.Some?
    ensures n <= |c.direct.value.m.data|
  {
    if ack.Sz? then if ack.n < |c.direct.value.m.data| then ack.n else |c.direct.value.m.data| else 0
  }

  // The direct write puts bytes behind a message of which a part was out when the
  // forced close that waits for the lock freed it.
  ghost predicate Spoils(c: Conn, ack: Ack)
    requires c.direct.Some?
  {
    AckSize(c, ack) > 0 && c.freeing.Some? && c.cut
  }

  lemma NotEmpty(c: Conn)
    requires !(c.high == [] && c.low == [])
    ensures c.high + c.low != []
  {
    if c.high != [] {
      assert (c.high + c.low)[0] == c.high[0];
    } else {
      assert (c.high + c.low)[0] == c.low[0];
    }
  }

  lemma ClosingOk(c: Conn)
    requires c.Valid() && c.Live() && c.kind == HalfRead
    ensures c.(closing := true).Valid()
  {
    hide Conn.Valid, Conn.CloseOk;
    SendingIs(c);
    HolderOnce(c);
    ClosingClose(c);
    UntouchedOk(c, c.(closing := true));
  }

  lemma ClosingClose(c: Conn)
    requires c.Valid() && c.Live() && c.kind == HalfRead
    ensures c.(closing := true).CloseOk()
  {
    hide Closes, Silent, Conn.ListsOk, Conn.WireOk, Conn.CountsOk, Conn.OrderOk, Conn.CutOk;
  }

  lemma SendingIs(c: Conn)
    requires c.Valid()
    ensures c.sending == |c.preparing| + Sends(c.pipe)
  {
    hide Conn.ListsOk, Conn.WireOk, Conn.OrderOk, Conn.CloseOk, Conn.CutOk, Pending;
  }

  lemma SendsOne(cmd: Cmd)
    ensures Sends([cmd]) == if cmd.CSend? then 1 else 0
  {
  }

  lemma HolderFree(c: Conn)
    requires c.Valid() && c.holder.Some?
    ensures c.direct.None?
  {
    hide Conn.WireOk, Conn.OrderOk, Conn.CloseOk, Conn.CountsOk;
  }

  lemma TakeCommandOk(c: Conn)
    requires c.Valid() && c.pipe != []
    ensures c.pipe[0].CSend? ==> c.sending > 0
    ensures c.(sending := if c.pipe[0].CSend? then c.sending - 1 else c.sending, pipe := c.pipe[1..]).Valid()
  {
    SendingIs(c);
    PipeOk(c, if c.pipe[0].CSend? then c.sending - 1 else c.sending, c.preparing, c.pipe[1..]);
  }

  lemma Fresh0Clean(kind: Kind)
    ensures Clean(Fresh0(kind).pieces)
  {
  }

  // What the invariant says to a user.
  lemma RunFacts(c: Conn)
    requires c.Valid()
    ensures Clean(c.pieces) ==> exists rest: seq<Byte> ::
      c.wire == Flatten(Done(c.pieces)) + rest && (rest == [] || PrefixIn(c.pieces, rest))
    ensures c.Live() ==> c.wbSize == Pending(c.high) + Pending(c.low)
    ensures Closes(c.outs) <= 1 && Silent(c.outs)
    ensures Ordered(c.All(), c.taken, c.lost)
  {
    if Clean(c.pieces) {
      CleanForm(c.pieces);
    }
    hide Clean, Flatten, Done, Bytes, PrefixIn, Class, Conn.All, Closes, Silent, Pending, Conn.ListsOk;
  }

  // The connection without the first command of its pipe.
  ghost function Dequeued(c: Conn): Conn
    requires c.pipe != [] && (c.pipe[0].CSend? ==> c.sending > 0)
  {
    c.(sending := if c.pipe[0].CSend? then c.sending - 1 else c.sending, pipe := c.pipe[1..])
  }

  // A message sent by the socket thread goes to the high list when both are
  // empty, whatever its priority.
  ghost function Queued(c: Conn, m: Message): Conn {
    if Refused(c) then c else Appended(c, m, m.low && !(c.high == [] && c.low == []))
  }

  // A close or a shutdown: at once when there is nothing to send; otherwise the
  // reading side is closed, and the rest after the data.
  ghost function ClosedBy(c: Conn, shutdown: bool): Conn {
    if c.kind == Invalid then c
    else if shutdown || NoMoreData(c) then
      BeginClosed(c, if c.kind == HalfRead then None else Some(OClose))
    else c.(kind := HalfRead, closing := true, outs := if c.kind == HalfRead then c.outs else c.outs + [OClose])
  }
}
