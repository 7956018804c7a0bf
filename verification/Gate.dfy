// The gate's framing: the chunks of a connection wait in a list, and frames of a
// big-endian size of 2 or 4 bytes are cut out of it.

module Gate {

  type Byte = x: int | 0 <= x < 256

  const LIMIT: int := 0x100_0000
  const MESSAGEPOOL: nat := 1023

  // ------------------------------------------------------------ the stream

  // An int of C, of the bytes of a header.
  function Header(b: seq<Byte>): int
    requires |b| == 2 || |b| == 4
  {
    var b0: int, b1: int := b[0], b[1];
    if |b| == 2 then b0 * 0x100 + b1
    else
      var b2: int, b3: int := b[2], b[3];
      (if b0 >= 0x80 then b0 - 0x100 else b0) * 0x100_0000 + b1 * 0x1_0000 + b2 * 0x100 + b3
  }

  // What a stream comes to: the frames, what waits for more, and whether a frame
  // was too long and ended it.
  datatype Parsed = Parsed(frames: seq<seq<Byte>>, rest: seq<Byte>, huge: bool)

  function Before(frames: seq<seq<Byte>>, p: Parsed): Parsed { Parsed(frames + p.frames, p.rest, p.huge) }

  // One header, and its frame when all of that is there.  Without a receiver a frame
  // is not taken out: what it holds is read as headers.
  function Front(hs: nat, receiver: bool, s: seq<Byte>): (p: Parsed)
    requires hs == 2 || hs == 4
    ensures p.huge || p == Parsed([], s, false) || |p.rest| < |s|
  {
    if |s| < hs || Header(s[..hs]) < 0 || |s| - hs < Header(s[..hs]) then Parsed([], s, false)
    else
      var n := Header(s[..hs]);
      if n >= LIMIT then Parsed([], [], true)
      else if n == 0 || !receiver then Parsed([], s[hs..], false)
      else Parsed([s[hs..hs + n]], s[hs + n..], false)
  }

  function Parse(hs: nat, receiver: bool, s: seq<Byte>): Parsed
    requires hs == 2 || hs == 4
    decreases |s|
  {
    var p := Front(hs, receiver, s);
    if p.huge || |p.rest| >= |s| then p else Before(p.frames, Parse(hs, receiver, p.rest))
  }

  // What is there is read in the same way when more follows.
  lemma FrontMore(hs: nat, receiver: bool, a: seq<Byte>, b: seq<Byte>)
    requires hs == 2 || hs == 4
    ensures var p := Front(hs, receiver, a);
      p.huge || |p.rest| < |a| ==> Front(hs, receiver, a + b) == if p.huge then p else p.(rest := p.rest + b)
  {
    hide Header;
    if |a| >= hs && 0 <= Header(a[..hs]) <= |a| - hs {
      var n := Header(a[..hs]);
      assert (a + b)[..hs] == a[..hs];
      assert (a + b)[hs..] == a[hs..] + b && (a + b)[hs + n..] == a[hs + n..] + b && (a + b)[hs..hs + n] == a[hs..hs + n];
    }
  }

  // Parsing may stop anywhere and go on with what is left, unless it has ended.
  lemma {:induction false} ParseSplit(hs: nat, receiver: bool, a: seq<Byte>, b: seq<Byte>)
    requires hs == 2 || hs == 4
    ensures var p := Parse(hs, receiver, a);
      Parse(hs, receiver, a + b) == if p.huge then p else Before(p.frames, Parse(hs, receiver, p.rest + b))
    decreases |a|
  {
    hide Front;
    var p := Front(hs, receiver, a);
    FrontMore(hs, receiver, a, b);
    if p.huge {
    } else if |p.rest| >= |a| {
      BeforeNone(Parse(hs, receiver, a + b));
    } else {
      var q := Parse(hs, receiver, p.rest);
      ParseSplit(hs, receiver, p.rest, b);
      if !q.huge {
        BeforeTwice(p.frames, q.frames, Parse(hs, receiver, q.rest + b));
      }
    }
  }

  lemma FrontWaits(hs: nat, s: seq<Byte>)
    requires hs == 2 || hs == 4
    requires |s| >= hs ==> Header(s[..hs]) < 0 || |s| - hs < Header(s[..hs])
    ensures forall receiver :: Front(hs, receiver, s) == Parsed([], s, false)
  {
    hide Header;
  }

  lemma BeforeNone(p: Parsed)
    ensures Before([], p) == p
  {
    assert [] + p.frames == p.frames;
  }

  lemma BeforeTwice(a: seq<seq<Byte>>, b: seq<seq<Byte>>, p: Parsed)
    ensures Before(a, Before(b, p)) == Before(a + b, p)
  {
    assert a + (b + p.frames) == a + b + p.frames;
  }

  function Encode(hs: nat, n: nat): seq<Byte>
    requires hs == 2 || hs == 4
    requires if hs == 2 then n < 0x1_0000 else n < LIMIT
  {
    if hs == 2 then [n / 0x100, n % 0x100] else [0, n / 0x1_0000, n / 0x100 % 0x100, n % 0x100]
  }

  predicate Sendable(hs: nat, m: seq<Byte>) { 0 < |m| && if hs == 2 then |m| < 0x1_0000 else |m| < LIMIT }

  function Packed(hs: nat, ms: seq<seq<Byte>>): seq<Byte>
    requires (hs == 2 || hs == 4) && forall k :: 0 <= k < |ms| ==> Sendable(hs, ms[k])
  {
    if ms == [] then [] else assert Sendable(hs, ms[0]); Encode(hs, |ms[0]|) + ms[0] + Packed(hs, ms[1..])
  }

  lemma HeaderBack(hs: nat, n: nat)
    requires hs == 2 || hs == 4
    requires if hs == 2 then n < 0x1_0000 else n < LIMIT
    ensures |Encode(hs, n)| == hs && Header(Encode(hs, n)) == n
  {
  }

  // Messages that were framed come back, in order and with nothing left.
  lemma {:induction false} PackedBack(hs: nat, ms: seq<seq<Byte>>)
    requires (hs == 2 || hs == 4) && forall k :: 0 <= k < |ms| ==> Sendable(hs, ms[k])
    ensures Parse(hs, true, Packed(hs, ms)) == Parsed(ms, [], false)
    decreases |ms|
  {
    if ms != [] {
      var h := PackedFirst(hs, ms);
      hide *;
      FirstBack(hs, h, ms[0], Packed(hs, ms[1..]));
      PackedBack(hs, ms[1..]);
      assert [ms[0]] + ms[1..] == ms;
      BeforeIs([ms[0]], Parsed(ms[1..], [], false));
    } else {
      Nothing(hs);
    }
  }

  lemma PackedFirst(hs: nat, ms: seq<seq<Byte>>) returns (h: seq<Byte>)
    requires (hs == 2 || hs == 4) && (forall k :: 0 <= k < |ms| ==> Sendable(hs, ms[k])) && ms != []
    ensures |h| == hs && Header(h) == |ms[0]| && 0 < |ms[0]| < LIMIT && Packed(hs, ms) == h + ms[0] + Packed(hs, ms[1..])
  {
    h := Encode(hs, |ms[0]|);
    HeaderBack(hs, |ms[0]|);
    hide Encode, Header;
  }

  lemma FirstBack(hs: nat, h: seq<Byte>, m: seq<Byte>, rest: seq<Byte>)
    requires (hs == 2 || hs == 4) && |h| == hs && Header(h) == |m| && 0 < |m| < LIMIT
    ensures Parse(hs, true, h + m + rest) == Before([m], Parse(hs, true, rest))
  {
    hide Header;
    var s := h + m + rest;
    assert s[..hs] == h && s[hs..hs + |m|] == m && s[hs + |m|..] == rest;
    assert Front(hs, true, s) == Parsed([m], rest, false);
  }

  // ------------------------------------------------------------ without a receiver

  // The bytes at 'at' are read as a header, and something follows that is long enough.
  predicate Readable(hs: nat, s: seq<Byte>, at: nat)
    requires hs == 2 || hs == 4
  {
    at + hs <= |s| && 0 <= Header(s[at..at + hs]) <= |s| - at - hs
  }

  predicate Passes(hs: nat, s: seq<Byte>, at: nat)
    requires hs == 2 || hs == 4
  {
    Readable(hs, s, at) && Header(s[at..at + hs]) < LIMIT
  }

  // The first k words of a stream pass as headers.
  ghost predicate WordsPass(hs: nat, s: seq<Byte>, k: nat)
    requires hs == 2 || hs == 4
  {
    forall i: nat {:trigger Passes(hs, s, hs * i)} :: i < k ==> Passes(hs, s, hs * i)
  }

  lemma FrontAt(hs: nat, receiver: bool, s: seq<Byte>, at: nat)
    requires (hs == 2 || hs == 4) && at <= |s|
    ensures !Readable(hs, s, at) <==> Front(hs, receiver, s[at..]) == Parsed([], s[at..], false)
    ensures Readable(hs, s, at) && !Passes(hs, s, at) <==> Front(hs, receiver, s[at..]).huge
    ensures Passes(hs, s, at) && !receiver ==> Front(hs, receiver, s[at..]) == Parsed([], s[at + hs..], false)
  {
    hide Header;
    var rest := s[at..];
    if at + hs <= |s| {
      assert rest[..hs] == s[at..at + hs] && rest[hs..] == s[at + hs..];
    }
  }

  // Without a receiver a stream is read word by word: to the first word that does
  // not pass, and no frame comes out.
  lemma {:induction false} Unreceived(hs: nat, s: seq<Byte>, from: nat) returns (k: nat)
    requires (hs == 2 || hs == 4) && hs * from <= |s| && WordsPass(hs, s, from)
    ensures from <= k && hs * k <= |s| && WordsPass(hs, s, k) && !Passes(hs, s, hs * k)
    ensures Parse(hs, false, s[hs * from..]) ==
      if Readable(hs, s, hs * k) then Parsed([], [], true) else Parsed([], s[hs * k..], false)
    decreases |s| - hs * from
  {
    hide Header, Front, Readable, Parse;
    var at := hs * from;
    FrontAt(hs, false, s, at);
    ParseIs(hs, false, s[at..]);
    if Passes(hs, s, at) {
      PassesFits(hs, s, at);
      k := Unreceived(hs, s, from + 1);
      BeforeNone(Parse(hs, false, s[at + hs..]));
    } else {
      k := from;
      HugeRest(hs, false, s[at..]);
    }
  }

  lemma PassesFits(hs: nat, s: seq<Byte>, at: nat)
    requires (hs == 2 || hs == 4) && Passes(hs, s, at)
    ensures Readable(hs, s, at) && at + hs <= |s|
  {
  }

  lemma HugeRest(hs: nat, receiver: bool, s: seq<Byte>)
    requires hs == 2 || hs == 4
    ensures Front(hs, receiver, s).huge ==> Front(hs, receiver, s) == Parsed([], [], true)
  {
  }

  // The rest of a stream waits for more; a huge frame has no rest.
  lemma {:induction false} RestWaits(hs: nat, receiver: bool, s: seq<Byte>) returns (at: nat)
    requires hs == 2 || hs == 4
    ensures var p := Parse(hs, receiver, s);
      at <= |s| && if p.huge then p.rest == [] else p.rest == s[at..] && at == |s| - |p.rest| && !Readable(hs, s, at) && !Passes(hs, s, at)
    decreases |s|
  {
    hide Header, Front, Readable, Passes, Parse;
    var p := Front(hs, receiver, s);
    ParseIs(hs, receiver, s);
    if p.huge {
      HugeRest(hs, receiver, s);
      at := 0;
    } else if |p.rest| >= |s| {
      NothingRead(hs, receiver, s);
      at := 0;
    } else {
      var m := FrontSuffix(hs, receiver, s);
      var q := Parse(hs, receiver, p.rest);
      var at1 := RestWaits(hs, receiver, p.rest);
      at := m + at1;
      ReadableIn(hs, s, m, at1);
      hide Before;
      BeforeIs(p.frames, q);
    }
  }

  lemma ParseIs(hs: nat, receiver: bool, s: seq<Byte>)
    requires hs == 2 || hs == 4
    ensures var p := Front(hs, receiver, s);
      Parse(hs, receiver, s) == if p.huge || |p.rest| >= |s| then p else Before(p.frames, Parse(hs, receiver, p.rest))
  {
    hide Front;
  }

  lemma NothingRead(hs: nat, receiver: bool, s: seq<Byte>)
    requires (hs == 2 || hs == 4) && !Front(hs, receiver, s).huge && |Front(hs, receiver, s).rest| >= |s|
    ensures Front(hs, receiver, s).rest == s == s[0..] && !Readable(hs, s, 0) && !Passes(hs, s, 0)
  {
    hide Header, Readable;
    FrontAt(hs, receiver, s, 0);
  }

  lemma FrontSuffix(hs: nat, receiver: bool, s: seq<Byte>) returns (m: nat)
    requires (hs == 2 || hs == 4) && !Front(hs, receiver, s).huge
    ensures m <= |s| && Front(hs, receiver, s).rest == s[m..]
  {
    hide Header;
    var p := Front(hs, receiver, s);
    m := |s| - |p.rest|;
  }

  lemma ReadableIn(hs: nat, s: seq<Byte>, m: nat, at: nat)
    requires (hs == 2 || hs == 4) && m + at <= |s|
    ensures s[m..][at..] == s[m + at..] && (Readable(hs, s[m..], at) <==> Readable(hs, s, m + at))
    ensures Passes(hs, s[m..], at) <==> Passes(hs, s, m + at)
  {
    hide Header;
    Within(s, m, at, |s| - m);
    if m + at + hs <= |s| {
      Within(s, m, at, at + hs);
    }
  }

  // A part of the end is a part of the whole.
  lemma Within(s: seq<Byte>, m: nat, i: nat, j: nat)
    requires i <= j && m + j <= |s|
    ensures s[m..][i..j] == s[m + i..m + j]
  {
    var a, b := s[m..][i..j], s[m + i..m + j];
    assert |a| == |b|;
    forall k | 0 <= k < |a| ensures a[k] == b[k] {
      assert a[k] == s[m..][i + k] == s[m + i + k];
    }
  }

  // Nothing is lost without a receiver if and only if no frame is reached.
  lemma {:induction false} NothingLostIff(hs: nat, s: seq<Byte>)
    requires hs == 2 || hs == 4
    ensures Parse(hs, false, s) == Parse(hs, true, s) <==> Parse(hs, true, s).frames == []
    decreases |s|
  {
    hide Header;
    var k := Unreceived(hs, s, 0);
    assert s[hs * 0..] == s;
    var p := Front(hs, true, s);
    if !p.huge && |p.rest| < |s| && p.frames == [] {
      assert Front(hs, false, s) == p;
      NothingLostIff(hs, p.rest);
      BeforeNone(Parse(hs, true, p.rest));
      BeforeNone(Parse(hs, false, p.rest));
    }
  }

  // What has been read of a stream, up to its rest or to a frame that was too long,
  // is words that pass as headers.
  ghost predicate AllWords(hs: nat, s: seq<Byte>, p: Parsed)
    requires hs == 2 || hs == 4
  {
    if p.huge then exists k: nat :: WordsPass(hs, s, k) && Readable(hs, s, hs * k) && !Passes(hs, s, hs * k)
    else |p.rest| <= |s| && (|s| - |p.rest|) % hs == 0 && WordsPass(hs, s, (|s| - |p.rest|) / hs)
  }

  // The stream goes on in step, though frames may be lost, if and only if all that
  // was read passes as headers.
  lemma InStepIff(hs: nat, s: seq<Byte>)
    requires hs == 2 || hs == 4
    ensures var p, q := Parse(hs, true, s), Parse(hs, false, s);
      q.rest == p.rest && q.huge == p.huge <==> AllWords(hs, s, p)
  {
    hide Parse, Passes, Readable, WordsPass, Header;
    var p, q := Parse(hs, true, s), Parse(hs, false, s);
    var at := RestWaits(hs, true, s);
    NoneYet(hs, s);
    var k := Unreceived(hs, s, 0);
    var pos := hs * k;
    if p.huge {
      StopsThere(hs, s, k);
    } else {
      StopsAt(hs, s, k, at);
      SameEnd(s, at, pos);
    }
  }

  lemma NoneYet(hs: nat, s: seq<Byte>)
    requires hs == 2 || hs == 4
    ensures s[hs * 0..] == s && WordsPass(hs, s, 0)
  {
  }

  lemma SameEnd(s: seq<Byte>, i: nat, j: nat)
    requires i <= |s| && j <= |s|
    ensures s[i..] == s[j..] <==> i == j
  {
    assert |s[i..]| == |s| - i && |s[j..]| == |s| - j;
  }

  lemma StopsThere(hs: nat, s: seq<Byte>, k: nat)
    requires (hs == 2 || hs == 4) && WordsPass(hs, s, k) && !Passes(hs, s, hs * k)
    ensures Readable(hs, s, hs * k) <==> exists j: nat :: WordsPass(hs, s, j) && Readable(hs, s, hs * j) && !Passes(hs, s, hs * j)
  {
    hide WordsPass, Readable, Passes;
    if j: nat :| WordsPass(hs, s, j) && Readable(hs, s, hs * j) && !Passes(hs, s, hs * j) {
      FirstStop(hs, s, j, k);
    }
  }

  lemma StopsAt(hs: nat, s: seq<Byte>, k: nat, n: nat)
    requires (hs == 2 || hs == 4) && WordsPass(hs, s, k) && !Passes(hs, s, hs * k) && !Passes(hs, s, n)
    ensures hs * k == n <==> n % hs == 0 && WordsPass(hs, s, n / hs)
    ensures Readable(hs, s, hs * k) && !Readable(hs, s, n) ==> hs * k != n
  {
    hide WordsPass, Passes, Readable;
    if n % hs == 0 && WordsPass(hs, s, n / hs) {
      assert hs * (n / hs) == n;
      FirstStop(hs, s, n / hs, k);
    }
    if hs * k == n {
      assert n % hs == 0 && n / hs == k;
    }
  }

  lemma FirstStop(hs: nat, s: seq<Byte>, j: nat, k: nat)
    requires (hs == 2 || hs == 4) && WordsPass(hs, s, j) && !Passes(hs, s, hs * j) && WordsPass(hs, s, k) && !Passes(hs, s, hs * k)
    ensures j == k
  {
    hide Passes;
  }

  // A frame that comes while there is no receiver can put the stream out of step.
  lemma OutOfStep()
    ensures Parse(2, true, [0, 1, 7]) == Parsed([[7]], [], false)
    ensures Parse(2, false, [0, 1, 7]) == Parsed([], [7], false)
  {
    assert Parse(2, true, [0, 1, 7][3..]) == Parsed([], [], false);
    assert [0, 1, 7][2..3] == [7];
    assert Parse(2, false, [0, 1, 7][2..]) == Parsed([], [7], false) by { assert [0, 1, 7][2..] == [7]; }
  }

  // ------------------------------------------------------------ the buffer

  // Nodes for chunks: those that are free, of all that were made.
  class MessagePool {
    var free: nat
    var made: nat

    constructor ()
      ensures free == 0 && made == 0
    {
      free, made := 0, 0;
    }

    ghost function Used(): int
      reads this
    {
      made - free
    }

    method Take()
      modifies this
      ensures Used() == old(Used()) + 1
    {
      if free == 0 {
        made, free := made + MESSAGEPOOL, MESSAGEPOOL;
      }
      free := free - 1;
    }

    method Return()
      modifies this
      ensures Used() == old(Used()) - 1
    {
      free := free + 1;
    }
  }

  function Cat(chunks: seq<seq<Byte>>): seq<Byte> { if chunks == [] then [] else chunks[0] + Cat(chunks[1..]) }

  lemma {:induction false} CatPush(chunks: seq<seq<Byte>>, c: seq<Byte>)
    ensures Cat(chunks + [c]) == Cat(chunks) + c
    decreases |chunks|
  {
    if chunks == [] {
      assert Cat([c]) == c + Cat([]);
    } else {
      CatPush(chunks[1..], c);
      assert (chunks + [c])[1..] == chunks[1..] + [c];
    }
  }

  function Rest(chunks: seq<seq<Byte>>, offset: nat): seq<Byte> {
    if offset <= |Cat(chunks)| then Cat(chunks)[offset..] else []
  }

  lemma CatFirst(chunks: seq<seq<Byte>>, offset: nat)
    requires chunks != [] && offset <= |chunks[0]|
    ensures |Cat(chunks)| >= offset && Cat(chunks)[offset..] == chunks[0][offset..] + Cat(chunks[1..])
    ensures chunks[1..] != [] ==> Cat(chunks[1..]) == chunks[1] + Cat(chunks[2..])
  {
    assert chunks[1..] != [] ==> chunks[1..][1..] == chunks[2..];
  }

  // What is left when bytes of the first chunk are taken.
  lemma FirstTaken(chunks: seq<seq<Byte>>, offset: nat, n: nat)
    requires chunks != [] && offset <= |chunks[0]|
    ensures offset + n <= |chunks[0]| ==> chunks[0][offset..offset + n] + Rest(chunks, offset + n) == Rest(chunks, offset)
    ensures chunks[0][offset..] + Rest(chunks[1..], 0) == Rest(chunks, offset)
  {
    CatFirst(chunks, offset);
    if offset + n <= |chunks[0]| {
      CatFirst(chunks, offset + n);
      Taken(chunks[0][offset..], n, Cat(chunks[1..]));
      assert chunks[0][offset..][..n] == chunks[0][offset..offset + n] && chunks[0][offset..][n..] == chunks[0][offset + n..];
    }
    hide Cat;
  }

  lemma Assoc(a: seq<Byte>, b: seq<Byte>, c: seq<Byte>)
    ensures (a + b) + c == a + (b + c)
  {
  }

  lemma Cut(b: seq<Byte>, c: seq<Byte>)
    ensures (b + c)[..|b|] == b && (b + c)[|b|..] == c
  {
  }

  lemma Taken(c: seq<Byte>, k: nat, d: seq<Byte>)
    requires k <= |c|
    ensures c + d == c[..k] + (c[k..] + d)
    ensures k == |c| ==> c[..k] == c && c[k..] + d == d
  {
  }

  class DataBuffer {
    var header: int
    var offset: nat
    var size: nat
    var chunks: seq<seq<Byte>>
    const pool: MessagePool
    ghost var head: seq<Byte>   // the bytes of the header, while it is known

    ghost predicate Valid(hs: nat)
      reads this
    {
      (hs == 2 || hs == 4) && Listed() && if header == 0 then head == [] else |head| == hs && header == Header(head)
    }

    ghost predicate Listed()
      reads this
    {
      (if chunks == [] then offset == 0 else offset <= |chunks[0]|) && size == |Contents()|
    }

    ghost function Contents(): seq<Byte>
      reads this`chunks, this`offset
    {
      Rest(chunks, offset)
    }

    // What has come and was not handed on.
    ghost function Pending(): seq<Byte>
      reads this
    {
      head + Contents()
    }

    constructor (pool: MessagePool)
      ensures Valid(2) && Valid(4) && Pending() == [] && this.pool == pool && chunks == []
    {
      header, offset, size, chunks, head := 0, 0, 0, [], [];
      this.pool := pool;
    }

    method ReturnMessage()
      requires chunks != []
      modifies this`chunks, pool
      ensures chunks == old(chunks[1..]) && pool.Used() == old(pool.Used()) - 1
    {
      chunks := chunks[1..];
      pool.Return();
    }

    // At most n bytes of the first chunk, which goes when it is used up.
    method TakeFirst(n: nat) returns (b: seq<Byte>)
      requires chunks != [] && offset <= |chunks[0]| && 0 < n
      modifies this`offset, this`chunks, pool
      ensures |b| <= n && b + Contents() == old(Contents())
      ensures if chunks == [] then offset == 0 else offset <= |chunks[0]|
      ensures |chunks| <= |old(chunks)| && (|b| < n ==> |chunks| < |old(chunks)|)
      ensures pool.Used() - |chunks| == old(pool.Used() - |chunks|)
    {
      hide Cat, Rest;
      var current := chunks[0];
      var bsz := |current| - offset;
      FirstTaken(chunks, offset, n);
      if bsz > n {
        b := current[offset..offset + n];
        offset := offset + n;
        return;
      }
      b := current[offset..];
      offset := 0;
      ReturnMessage();
    }

    // Takes bytes from the front, across chunks.
    method Read(n: nat) returns (b: seq<Byte>)
      requires Listed() && 0 < n <= size
      modifies this`size, this`offset, this`chunks, pool
      ensures Listed() && b == old(Contents())[..n] && Contents() == old(Contents())[n..]
      ensures pool.Used() - |chunks| == old(pool.Used() - |chunks|)
    {
      hide Cat, Rest, DataBuffer.Contents;
      size := size - n;
      b := [];
      var left := n;
      while left > 0
        invariant 0 <= left <= |Contents()| == size + left
        invariant if chunks == [] then offset == 0 else offset <= |chunks[0]|
        invariant |b| + left == n && b + Contents() == old(Contents())
        invariant pool.Used() - |chunks| == old(pool.Used() - |chunks|)
        decreases |chunks|, left
      {
        NotEmpty();
        var piece := TakeFirst(left);
        Assoc(b, piece, Contents());
        b := b + piece;
        left := left - |piece|;
      }
      Cut(b, Contents());
    }

    lemma NotEmpty()
      requires |Contents()| > 0
      ensures chunks != []
    {
    }

    method Push(data: seq<Byte>)
      requires Listed()
      modifies this`size, this`chunks, pool
      ensures Listed() && Contents() == old(Contents()) + data
      ensures pool.Used() - |chunks| == old(pool.Used() - |chunks|)
    {
      CatPush(chunks, data);
      pool.Take();
      size := size + |data|;
      chunks := chunks + [data];
    }

    // The size of the next frame when all of it is there, or a negative number.
    method ReadHeader(hs: nat) returns (r: int)
      requires Valid(hs)
      modifies this, pool
      ensures Valid(hs) && pool.Used() - |chunks| == old(pool.Used() - |chunks|)
      ensures r < 0 ==> Pending() == old(Pending()) && forall receiver :: Front(hs, receiver, Pending()) == Parsed([], Pending(), false)
      ensures r >= 0 ==> |old(Pending())| >= hs && Header(old(Pending())[..hs]) == r == header <= size && Contents() == old(Pending())[hs..]
    {
      hide Cat, Front, Header;
      ghost var was := Pending();
      Cut(head, Contents());
      if header == 0 {
        if size < hs {
          FrontWaits(hs, Pending());
          return -1;
        }
        var plen := Read(hs);
        header := Header(plen);
        head := if header == 0 then [] else plen;
        assert header != 0 ==> Pending() == was;
      }
      assert Header(was[..hs]) == header && Contents() == was[hs..];
      if size < header {
        FrontWaits(hs, was);
        return -1;
      }
      if header < 0 {
        FrontWaits(hs, was);
      }
      return header;
    }

    method Reset()
      modifies this`header, this`head
      ensures header == 0 && head == []
    {
      header, head := 0, [];
    }

    method Clear()
      modifies this, pool
      ensures Listed() && Pending() == [] && header == 0 && head == [] && chunks == []
      ensures pool.Used() - |chunks| == old(pool.Used() - |chunks|)
    {
      while chunks != []
        invariant pool.Used() - |chunks| == old(pool.Used() - |chunks|)
        decreases |chunks|
      {
        ReturnMessage();
      }
      header, offset, size, head := 0, 0, 0, [];
    }
  }

  // ------------------------------------------------------------ a connection

  class Connection {
    const buffer: DataBuffer
    var sent: seq<seq<Byte>>   // the frames handed to the receiver
    var closed: bool

    constructor (pool: MessagePool)
      ensures fresh(buffer) && buffer.pool == pool && sent == [] && !closed
      ensures buffer.Valid(2) && buffer.Valid(4) && buffer.Pending() == [] && buffer.chunks == []
    {
      buffer := new DataBuffer(pool);
      sent, closed := [], false;
    }

    method Forward(size: nat, receiver: bool)
      requires buffer.Listed() && 0 < size <= buffer.size
      modifies this`sent, buffer`size, buffer`offset, buffer`chunks, buffer.pool
      ensures buffer.Listed() && buffer.pool.Used() - |buffer.chunks| == old(buffer.pool.Used() - |buffer.chunks|)
      ensures var was := old(buffer.Contents());
        sent == old(sent) + (if receiver then [was[..size]] else []) && buffer.Contents() == if receiver then was[size..] else was
    {
      if !receiver {
        return;
      }
      var temp := buffer.Read(size);
      sent := sent + [temp];
    }

    // A chunk adds exactly the frames that it completes, and leaves what waits.
    method Dispatch(hs: nat, data: seq<Byte>, receiver: bool)
      requires buffer.Valid(hs) && !closed
      modifies this, buffer, buffer.pool
      ensures buffer.Valid(hs) && buffer.pool.Used() - |buffer.chunks| == old(buffer.pool.Used() - |buffer.chunks|)
      ensures var p := Parse(hs, receiver, old(buffer.Pending()) + data);
        sent == old(sent) + p.frames && buffer.Pending() == p.rest && closed == p.huge
    {
      ghost var s := buffer.Pending() + data;
      buffer.Push(data);
      assert buffer.Pending() == s;
      hide *;
      var more := true;
      while more
        invariant buffer.Valid(hs) && (more ==> !closed)
        invariant buffer.pool.Used() - |buffer.chunks| == old(buffer.pool.Used() - |buffer.chunks|)
        invariant Before(old(sent), Parse(hs, receiver, s)) ==
          if more then Before(sent, Parse(hs, receiver, buffer.Pending())) else Parsed(sent, buffer.Pending(), closed)
        decreases |buffer.Pending()|, more
      {
        more := Step(hs, receiver);
      }
      BeforeIs(old(sent), Parse(hs, receiver, s));
    }

    // One turn of the loop.
    method Step(hs: nat, receiver: bool) returns (more: bool)
      requires buffer.Valid(hs) && !closed
      modifies this, buffer, buffer.pool
      ensures buffer.Valid(hs) && buffer.pool.Used() - |buffer.chunks| == old(buffer.pool.Used() - |buffer.chunks|)
      ensures Before(old(sent), Parse(hs, receiver, old(buffer.Pending()))) ==
        if more then Before(sent, Parse(hs, receiver, buffer.Pending())) else Parsed(sent, buffer.Pending(), closed)
      ensures more ==> !closed && |buffer.Pending()| < |old(buffer.Pending())|
      ensures !more ==> |buffer.Pending()| <= |old(buffer.Pending())|
    {
      hide Cat, Rest, Front, Header, Parse, Before;
      ghost var s := buffer.Pending();
      var size := buffer.ReadHeader(hs);
      if size < 0 {
        Waits(sent, hs, receiver, s);
        return false;
      }
      Goes(sent, hs, receiver, s, size);
      if size > 0 {
        if size >= LIMIT {
          buffer.Clear();
          closed := true;
          return false;
        } else {
          Forward(size, receiver);
          buffer.Reset();
        }
      }
      assert buffer.Pending() == buffer.Contents() && sent + [] == sent;
      return true;
    }
  }

  lemma BeforeIs(sent: seq<seq<Byte>>, p: Parsed)
    ensures Before(sent, p) == Parsed(sent + p.frames, p.rest, p.huge)
  {
  }

  lemma Waits(sent: seq<seq<Byte>>, hs: nat, receiver: bool, s: seq<Byte>)
    requires (hs == 2 || hs == 4) && Front(hs, receiver, s) == Parsed([], s, false)
    ensures Before(sent, Parse(hs, receiver, s)) == Parsed(sent, s, false)
  {
    assert sent + [] == sent;
  }

  lemma Goes(sent: seq<seq<Byte>>, hs: nat, receiver: bool, s: seq<Byte>, n: nat)
    requires (hs == 2 || hs == 4) && |s| >= hs && Header(s[..hs]) == n <= |s| - hs
    ensures var c := s[hs..];
      Before(sent, Parse(hs, receiver, s)) ==
      if n >= LIMIT then Parsed(sent, [], true)
      else if n == 0 || !receiver then Before(sent + [], Parse(hs, receiver, c))
      else Before(sent + [c[..n]], Parse(hs, receiver, c[n..]))
  {
    hide Header;
    var p, c := Front(hs, receiver, s), s[hs..];
    assert s[hs..hs + n] == c[..n] && s[hs + n..] == c[n..] && sent + [] == sent;
    if !p.huge {
      BeforeTwice(sent, p.frames, Parse(hs, receiver, p.rest));
    }
  }

  // What has come from the socket, and whether there was a receiver then.
  datatype Chunk = Chunk(data: seq<Byte>, receiver: bool)

  function Data(cs: seq<Chunk>): seq<Byte> { if cs == [] then [] else Data(cs[..|cs| - 1]) + cs[|cs| - 1].data }

  // What the chunks come to, each read with the receiver of its time.
  function Read(hs: nat, cs: seq<Chunk>): Parsed
    requires hs == 2 || hs == 4
  {
    if cs == [] then Parsed([], [], false) else
    var p, c := Read(hs, cs[..|cs| - 1]), cs[|cs| - 1];
    if p.huge then p else Before(p.frames, Parse(hs, c.receiver, p.rest + c.data))
  }

  // Any run of a connection.
  method Drive(hs: nat, cs: seq<Chunk>) returns (c: Connection)
    requires hs == 2 || hs == 4
    ensures var p := Read(hs, cs); c.sent == p.frames && c.closed == p.huge && c.buffer.Pending() == p.rest
  {
    hide Parse, Before, Read, DataBuffer.Pending, DataBuffer.Valid;
    var pool := new MessagePool();
    c := new Connection(pool);
    ReadNone(hs, cs);
    for i := 0 to |cs|
      invariant fresh(c) && fresh(c.buffer) && fresh(c.buffer.pool) && c.buffer.Valid(hs) && !c.closed
      invariant Read(hs, cs[..i]) == Parsed(c.sent, c.buffer.Pending(), false)
    {
      ReadNext(hs, cs, i);
      BeforeIs(c.sent, Parse(hs, cs[i].receiver, c.buffer.Pending() + cs[i].data));
      c.Dispatch(hs, cs[i].data, cs[i].receiver);
      if c.closed {
        ReadEnded(hs, cs, i + 1);
        return;
      }
    }
    assert cs[..|cs|] == cs;
  }

  lemma ReadNone(hs: nat, cs: seq<Chunk>)
    requires hs == 2 || hs == 4
    ensures Read(hs, cs[..0]) == Parsed([], [], false)
  {
  }

  lemma ReadNext(hs: nat, cs: seq<Chunk>, i: nat)
    requires (hs == 2 || hs == 4) && i < |cs|
    ensures var p := Read(hs, cs[..i]);
      Read(hs, cs[..i + 1]) == if p.huge then p else Before(p.frames, Parse(hs, cs[i].receiver, p.rest + cs[i].data))
  {
    hide Parse, Before;
    assert cs[..i + 1][..i] == cs[..i];
  }

  lemma {:induction false} ReadEnded(hs: nat, cs: seq<Chunk>, i: nat)
    requires (hs == 2 || hs == 4) && i <= |cs| && Read(hs, cs[..i]).huge
    ensures Read(hs, cs) == Read(hs, cs[..i])
    decreases |cs| - i
  {
    if i < |cs| {
      ReadNext(hs, cs, i);
      ReadEnded(hs, cs, i + 1);
    } else {
      assert cs[..i] == cs;
    }
  }

  // However a stream is cut into chunks, what comes out is the parse of all of it, if
  // no frame is completed while there is no receiver.
  lemma {:induction false} ReadAll(hs: nat, cs: seq<Chunk>)
    requires hs == 2 || hs == 4
    requires forall i :: 0 <= i < |cs| && !cs[i].receiver ==> Parse(hs, true, Read(hs, cs[..i]).rest + cs[i].data).frames == []
    ensures Read(hs, cs) == Parse(hs, true, Data(cs))
    decreases |cs|
  {
    hide Parse;
    if cs == [] {
      Nothing(hs);
    } else {
      var init, c := cs[..|cs| - 1], cs[|cs| - 1];
      forall i | 0 <= i < |init| ensures init[..i] == cs[..i] {
      }
      ReadAll(hs, init);
      ParseSplit(hs, true, Data(init), c.data);
      NothingLostIff(hs, Read(hs, init).rest + c.data);
    }
  }

  lemma Nothing(hs: nat)
    requires hs == 2 || hs == 4
    ensures Cat([]) == [] && Packed(hs, []) == [] && forall r :: Parse(hs, r, []) == Parsed([], [], false)
  {
    hide Header;
  }

  // ------------------------------------------------------------ the bytes

  // A stream whose header says n, with the highest byte first, comes to nothing before
  // n bytes are there; to an error for 16M or more; to a frame of n bytes and the rest
  // otherwise.  A header of four bytes is negative from 0x80 on in its first byte.
  lemma FrameIs(hs: nat, s: seq<Byte>, n: nat)
    requires (hs == 2 || hs == 4) && |s| >= hs
    requires var a: int, b: int := s[0], s[1]; hs == 2 ==> n == a * 0x100 + b
    requires hs == 4 ==> var a: int, b: int, c: int, d: int := s[0], s[1], s[2], s[3]; a < 0x80 && n == ((a * 0x100 + b) * 0x100 + c) * 0x100 + d
    ensures |s| - hs < n ==> Parse(hs, true, s) == Parsed([], s, false)
    ensures |s| - hs >= n >= 0x100_0000 ==> Parse(hs, true, s) == Parsed([], [], true)
    ensures |s| - hs >= n && 0 < n < 0x100_0000 ==>
      var p := Parse(hs, true, s[hs + n..]); Parse(hs, true, s) == Parsed([s[hs..hs + n]] + p.frames, p.rest, p.huge)
    ensures n == 0 ==> Parse(hs, true, s) == Parse(hs, true, s[hs..])
  {
    HeaderIs(hs, s, n);
    hide Header, Parse;
    ParseIs(hs, true, s);
    BeforeNone(Parse(hs, true, s[hs..]));
  }

  lemma HeaderIs(hs: nat, s: seq<Byte>, n: nat)
    requires (hs == 2 || hs == 4) && |s| >= hs
    requires var a: int, b: int := s[0], s[1]; hs == 2 ==> n == a * 0x100 + b
    requires hs == 4 ==> var a: int, b: int, c: int, d: int := s[0], s[1], s[2], s[3]; a < 0x80 && n == ((a * 0x100 + b) * 0x100 + c) * 0x100 + d
    ensures Header(s[..hs]) == n
  {
    var h := s[..hs];
    assert h[0] == s[0] && h[1] == s[1];
    if hs == 4 {
      assert h[2] == s[2] && h[3] == s[3];
    }
  }
}
