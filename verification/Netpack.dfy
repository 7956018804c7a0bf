// Framing of a byte stream into packages of a 16-bit big-endian size and data:
// however the stream of each connection is cut into chunks, and however the
// chunks of different connections are interleaved, the packages that come out
// for a connection are those of its whole stream.

module Netpack {

  const QUEUESIZE: nat := 1024
  const HASHSIZE: nat := 4096

  type Byte = x: int | 0 <= x < 256

  datatype Option<+T> = None | Some(value: T)

  datatype Package = Package(id: nat, buffer: seq<Byte>)

  // An unfinished package: 'read' is -1 when only the first byte of the size is
  // known, in 'header'; otherwise 'buffer' has the bytes read so far.
  datatype Uncomplete = Uncomplete(id: nat, size: nat, buffer: seq<Byte>, read: int, header: Byte)

  function ReadSize(b: seq<Byte>): nat
    requires |b| >= 2
  {
    var high: int := b[0];
    high * 256 + b[1]
  }

  // ------------------------------------------------------------ the stream

  function Frames(s: seq<Byte>): seq<seq<Byte>>
    decreases |s|
  {
    if |s| < 2 || |s| - 2 < ReadSize(s) then []
    else [s[2..2 + ReadSize(s)]] + Frames(s[2 + ReadSize(s)..])
  }

  function Rest(s: seq<Byte>): seq<Byte>
    decreases |s|
  {
    if |s| < 2 || |s| - 2 < ReadSize(s) then s else Rest(s[2 + ReadSize(s)..])
  }

  // Parsing may stop anywhere and go on with what is left.
  lemma {:induction false} ParseSplit(a: seq<Byte>, b: seq<Byte>)
    ensures Frames(a + b) == Frames(a) + Frames(Rest(a) + b)
    ensures Rest(a + b) == Rest(Rest(a) + b)
    decreases |a|
  {
    hide Frames, Rest, ReadSize;
    if |a| < 2 {
      ShortStream(a);
      assert [] + Frames(a + b) == Frames(a + b);
    } else {
      StreamStep(a);
      if |a| - 2 < ReadSize(a) {
        assert [] + Frames(a + b) == Frames(a + b);
      } else {
        var n := 2 + ReadSize(a);
        SizeMore(a, b);
        StreamStep(a + b);
        assert (a + b)[n..] == a[n..] + b && (a + b)[2..n] == a[2..n];
        ParseSplit(a[n..], b);
        assert [a[2..n]] + (Frames(a[n..]) + Frames(Rest(a[n..]) + b)) == [a[2..n]] + Frames(a[n..]) + Frames(Rest(a[n..]) + b);
      }
    }
  }

  lemma ShortStream(s: seq<Byte>)
    requires |s| < 2
    ensures Frames(s) == [] && Rest(s) == s
  {
  }

  lemma SizeMore(a: seq<Byte>, b: seq<Byte>)
    requires |a| >= 2
    ensures ReadSize(a + b) == ReadSize(a)
  {
    assert (a + b)[0] == a[0] && (a + b)[1] == a[1];
  }

  lemma {:induction false} RestDone(s: seq<Byte>)
    ensures Rest(Rest(s)) == Rest(s) && Frames(Rest(s)) == []
    decreases |s|
  {
    if |s| < 2 || |s| - 2 < ReadSize(s) {
    } else {
      RestDone(s[2 + ReadSize(s)..]);
    }
  }

  // One package ends the stream.
  predicate Alone(s: seq<Byte>) { |s| >= 2 && |s| - 2 == ReadSize(s) }

  lemma AloneIs(s: seq<Byte>)
    ensures Alone(s) <==> |Frames(s)| == 1 && Rest(s) == []
  {
    if |s| >= 2 && |s| - 2 >= ReadSize(s) {
      var more := s[2 + ReadSize(s)..];
      if Frames(more) == [] {
        assert Rest(more) == more;
      }
    }
  }

  // lpack
  function Pack(data: seq<Byte>): (r: Option<seq<Byte>>)
    ensures r.None? <==> |data| >= 0x10000
  {
    if |data| >= 0x10000 then None else Some([|data| / 256, |data| % 256] + data)
  }

  function Packed(ms: seq<seq<Byte>>): seq<Byte>
    requires forall k :: 0 <= k < |ms| ==> |ms[k]| < 0x10000
  {
    if ms == [] then [] else Pack(ms[0]).value + Packed(ms[1..])
  }

  // Packed messages come back, in order and with nothing left.
  lemma {:induction false} PackRoundTrip(ms: seq<seq<Byte>>)
    requires forall k :: 0 <= k < |ms| ==> |ms[k]| < 0x10000
    ensures Frames(Packed(ms)) == ms && Rest(Packed(ms)) == []
    decreases |ms|
  {
    if ms != [] {
      var p, s := Pack(ms[0]).value, Packed(ms);
      assert s == p + Packed(ms[1..]);
      assert ReadSize(s) == |ms[0]|;
      assert s[2..2 + |ms[0]|] == ms[0] && s[2 + |ms[0]|..] == Packed(ms[1..]);
      PackRoundTrip(ms[1..]);
    }
  }

  // ------------------------------------------------------------ unfinished packages

  // The bytes that an unfinished package stands for.
  function Bytes(u: Uncomplete): seq<Byte>
    requires u.read < 0 || u.size < 0x10000
  {
    if u.read < 0 then [u.header] else [u.size / 256, u.size % 256] + u.buffer
  }

  // It is unfinished.
  predicate Open(u: Uncomplete) { if u.read < 0 then u.read == -1 else u.size < 0x10000 && u.read == |u.buffer| < u.size }

  function HashFd(fd: nat): (h: nat)
    ensures h < HASHSIZE
  {
    (fd / 0x100_0000 + fd / 0x1000 + fd) % HASHSIZE
  }

  // The chains hold exactly 'saved', each package once and in its own chain.
  ghost predicate Chained(hs: seq<seq<Uncomplete>>, saved: map<nat, Uncomplete>) {
    && |hs| == HASHSIZE
    && (forall h, k {:trigger hs[h][k]} :: 0 <= h < HASHSIZE && 0 <= k < |hs[h]| ==> InChain(hs[h][k], h, saved))
    && (forall h {:trigger hs[h]} :: 0 <= h < HASHSIZE ==> Distinct(hs[h]))
    && (forall fd {:trigger saved[fd]} :: fd in saved ==> Open(saved[fd]) && saved[fd].id == fd && saved[fd] in hs[HashFd(fd)])
  }

  ghost predicate InChain(u: Uncomplete, h: int, saved: map<nat, Uncomplete>) {
    HashFd(u.id) == h && u.id in saved && saved[u.id] == u
  }

  ghost predicate Distinct(chain: seq<Uncomplete>) {
    forall j, k :: 0 <= j < k < |chain| ==> chain[j].id != chain[k].id
  }

  lemma DistinctCut(chain: seq<Uncomplete>, k: nat)
    requires k < |chain| && Distinct(chain)
    ensures var cut := chain[..k] + chain[k + 1..];
      && Distinct(cut)
      && (forall j {:trigger cut[j]} :: 0 <= j < |cut| ==> cut[j] == chain[if j < k then j else j + 1] && cut[j].id != chain[k].id)
      && (forall u :: u in chain && u != chain[k] ==> u in cut)
  {
    var cut := chain[..k] + chain[k + 1..];
    forall u | u in chain && u != chain[k] ensures u in cut {
      var j :| 0 <= j < |chain| && chain[j] == u;
      assert cut[if j < k then j else j - 1] == u;
    }
  }

  lemma Unlink(hs: seq<seq<Uncomplete>>, saved: map<nat, Uncomplete>, fd: nat, k: nat)
    requires Chained(hs, saved) && k < |hs[HashFd(fd)]| && hs[HashFd(fd)][k].id == fd
    ensures fd in saved && saved[fd] == hs[HashFd(fd)][k]
    ensures Chained(hs[HashFd(fd) := hs[HashFd(fd)][..k] + hs[HashFd(fd)][k + 1..]], saved - {fd})
  {
    var h := HashFd(fd);
    var chain, chain' := hs[h], hs[h][..k] + hs[h][k + 1..];
    var hs', saved' := hs[h := chain'], saved - {fd};
    assert InChain(chain[k], h, saved) && Distinct(chain);
    DistinctCut(chain, k);
    hide HashFd, Open, Distinct;
    forall g, j {:trigger hs'[g][j]} | 0 <= g < HASHSIZE && 0 <= j < |hs'[g]| ensures InChain(hs'[g][j], g, saved') {
      if g == h {
        assert InChain(chain[if j < k then j else j + 1], h, saved);
      } else {
        assert InChain(hs[g][j], g, saved);
      }
    }
    forall x | x in saved' ensures saved'[x] in hs'[HashFd(x)] {
      assert saved[x] in hs[HashFd(x)];
    }
  }

  lemma Link(hs: seq<seq<Uncomplete>>, saved: map<nat, Uncomplete>, u: Uncomplete)
    requires Chained(hs, saved) && u.id !in saved && Open(u)
    ensures Chained(hs[HashFd(u.id) := [u] + hs[HashFd(u.id)]], saved[u.id := u])
  {
    var h := HashFd(u.id);
    var chain := [u] + hs[h];
    var hs', saved' := hs[h := chain], saved[u.id := u];
    assert forall k :: 0 < k < |chain| ==> chain[k] == hs[h][k - 1];
    hide HashFd, Open;
    forall g, j {:trigger hs'[g][j]} | 0 <= g < HASHSIZE && 0 <= j < |hs'[g]| ensures InChain(hs'[g][j], g, saved') {
      if g == h && j > 0 {
        assert InChain(hs[h][j - 1], h, saved);
      } else if g != h {
        assert InChain(hs[g][j], g, saved);
      }
    }
    assert Distinct(chain) by {
      assert Distinct(hs[h]);
      forall k | 0 < k < |chain| ensures chain[k].id != u.id { assert InChain(hs[h][k - 1], h, saved); }
    }
    forall x | x in saved' ensures saved'[x] in hs'[HashFd(x)] {
      if x == u.id {
        assert chain[0] == u;
      } else if HashFd(x) == h {
        var j :| 0 <= j < |hs[h]| && hs[h][j] == saved[x];
        assert chain[j + 1] == saved[x];
      }
    }
  }

  lemma SavedThere(hs: seq<seq<Uncomplete>>, saved: map<nat, Uncomplete>, fd: nat)
    requires Chained(hs, saved)
    ensures fd in saved ==> exists j :: 0 <= j < |hs[HashFd(fd)]| && hs[HashFd(fd)][j].id == fd
  {
    if fd in saved {
      var j :| 0 <= j < |hs[HashFd(fd)]| && hs[HashFd(fd)][j] == saved[fd];
    }
  }

  class Queue {
    var cap: nat
    var head: nat
    var tail: nat
    var hash: array<seq<Uncomplete>>
    var queue: array<Package>
    ghost var saved: map<nat, Uncomplete>
    ghost var emitted: seq<Package>

    ghost predicate Valid()
      reads this, hash
    {
      cap == queue.Length && head < cap && tail < cap && Chained(hash[..], saved)
    }

    // What is left of the stream of a connection.
    ghost function Left(fd: nat): seq<Byte>
      requires Valid()
      reads this, hash
    {
      if fd in saved then Bytes(saved[fd]) else []
    }

    ghost function Contents(): seq<Package>
      requires cap == queue.Length && head < cap && tail < cap
      reads this, queue
    {
      if head <= tail then queue[head..tail] else queue[head..] + queue[..tail]
    }

    constructor ()
      ensures Valid() && fresh(hash) && fresh(queue) && saved == map[] && emitted == [] && Contents() == []
    {
      cap, head, tail := QUEUESIZE, 0, 0;
      hash := new seq<Uncomplete>[HASHSIZE](_ => []);
      queue := new Package[QUEUESIZE](_ => Package(0, []));
      saved, emitted := map[], [];
    }

    // Take the unfinished package of a connection out of its chain.
    method FindUncomplete(fd: nat) returns (r: Option<Uncomplete>)
      requires Valid()
      modifies this`saved, hash
      ensures Valid() && saved == old(saved) - {fd}
      ensures r == if fd in old(saved) then Some(old(saved)[fd]) else None
    {
      hide Chained, HashFd;
      ChainCount(hash[..], saved);
      var h := HashFd(fd);
      var k := 0;
      while k < |hash[h]|
        invariant 0 <= k <= |hash[h]| && hash[..] == old(hash[..]) && saved == old(saved)
        invariant forall j :: 0 <= j < k ==> hash[h][j].id != fd
        decreases |hash[h]| - k
      {
        if hash[h][k].id == fd {
          ghost var hs := hash[..];
          Unlink(hs, saved, fd, k);
          r := Some(hash[h][k]);
          saved := saved - {fd};
          hash[h] := hash[h][..k] + hash[h][k + 1..];
          assert hash[..] == hs[h := hs[h][..k] + hs[h][k + 1..]];
          return;
        }
        k := k + 1;
      }
      r := None;
      SavedThere(hash[..], saved, fd);
      assert saved - {fd} == saved;
    }

    // Put an unfinished package at the front of its chain.
    method SaveUncomplete(u: Uncomplete)
      requires Valid() && u.id !in saved && Open(u)
      modifies this`saved, hash
      ensures Valid() && saved == old(saved)[u.id := u]
    {
      hide Chained, HashFd, Open;
      ChainCount(hash[..], saved);
      ghost var hs := hash[..];
      Link(hs, saved, u);
      var h := HashFd(u.id);
      hash[h] := [u] + hash[h];
      saved := saved[u.id := u];
      assert hash[..] == hs[h := [u] + hs[h]];
    }

    // Twice the room plus one step, the packages at its start.
    method ExpandQueue()
      requires cap == queue.Length && head == tail < cap
      modifies this`cap, this`head, this`tail, this`queue
      ensures cap == queue.Length && head < cap && tail < cap && fresh(queue)
      ensures Contents() == old(queue[head..] + queue[..head])
    {
      var bigger := new Package[cap + QUEUESIZE](_ => Package(0, []));
      ghost var all := queue[head..] + queue[..head];
      var i := 0;
      while i < cap
        invariant 0 <= i <= cap && head == old(head) && cap == old(cap) == queue.Length && queue == old(queue)
        invariant bigger.Length == cap + QUEUESIZE && queue[..] == old(queue[..])
        invariant forall k :: 0 <= k < i ==> bigger[k] == all[k]
      {
        Wrap(head + i, cap);
        bigger[i] := queue[(head + i) % cap];
        i := i + 1;
      }
      assert bigger[0..cap] == all;
      head, tail := 0, cap;
      cap := cap + QUEUESIZE;
      queue := bigger;
    }

    // A finished package waits in the queue.
    method PushData(fd: nat, buffer: seq<Byte>)
      requires Valid()
      modifies this`cap, this`head, this`tail, this`queue, this`emitted, queue
      ensures Valid() && (queue == old(queue) || fresh(queue))
      ensures Contents() == old(Contents()) + [Package(fd, buffer)] && emitted == old(emitted) + [Package(fd, buffer)]
    {
      hide Chained;
      ghost var before := Contents();
      queue[tail] := Package(fd, buffer);
      tail := tail + 1;
      if tail >= cap {
        tail := tail - cap;
      }
      emitted := emitted + [Package(fd, buffer)];
      if head == tail {
        assert queue[head..] + queue[..head] == before + [Package(fd, buffer)];
        ExpandQueue();
      } else {
        assert Contents() == before + [Package(fd, buffer)];
      }
    }

    // lpop
    method Pop() returns (r: Option<Package>)
      requires Valid()
      modifies this`head
      ensures Valid() && r.None? == (old(Contents()) == [])
      ensures old(Contents()) == if r.None? then Contents() else [r.value] + Contents()
    {
      hide Chained;
      if head == tail {
        return None;
      }
      ghost var before := Contents();
      r := Some(queue[head]);
      head := head + 1;
      if head >= cap {
        head := 0;
      }
      assert before == [r.value] + Contents();
    }

    // push_more: what follows a finished package in the same chunk.
    method PushMore(fd: nat, buffer: seq<Byte>)
      requires Valid() && fd !in saved && |buffer| > 0
      modifies this`cap, this`head, this`tail, this`queue, this`emitted, this`saved, queue, hash
      ensures Valid() && (queue == old(queue) || fresh(queue))
      ensures Left(fd) == Rest(buffer) && saved - {fd} == old(saved)
      ensures emitted == old(emitted) + Tagged(fd, Frames(buffer)) && Contents() == old(Contents()) + Tagged(fd, Frames(buffer))
      decreases |buffer|
    {
      hide Chained, HashFd, Frames, Rest, Tagged, ReadSize, Open, Bytes;
      NoneTagged(fd);
      if |buffer| == 1 {
        OneByte(fd, buffer);
        SaveUncomplete(Uncomplete(fd, 0, [], -1, buffer[0]));
        assert saved - {fd} == old(saved);
        return;
      }
      var packSize := ReadSize(buffer);
      var data := buffer[2..];
      if |data| < packSize {
        SizeBytes(fd, buffer);
        SaveUncomplete(Uncomplete(fd, packSize, data, |data|, 0));
        assert saved - {fd} == old(saved);
        return;
      }
      TaggedFirst(fd, buffer);
      PushData(fd, data[..packSize]);
      var more := data[packSize..];
      assert more == buffer[2 + packSize..] && data[..packSize] == buffer[2..2 + packSize];
      if |more| > 0 {
        PushMore(fd, more);
        AppendTwo(old(emitted), Package(fd, data[..packSize]), Tagged(fd, Frames(more)));
        AppendTwo(old(Contents()), Package(fd, data[..packSize]), Tagged(fd, Frames(more)));
      } else {
        EmptyStream();
        assert more == [];
        AppendTwo(old(emitted), Package(fd, data[..packSize]), []);
        AppendTwo(old(Contents()), Package(fd, data[..packSize]), []);
        assert saved - {fd} == old(saved);
      }
    }

    // filter_data_: a chunk of the stream of a connection.  A package that ends
    // the chunk and is the only one is returned; others go to the queue.
    method FilterData(fd: nat, chunk: seq<Byte>) returns (direct: Option<Package>)
      requires Valid() && |chunk| > 0
      modifies this`cap, this`head, this`tail, this`queue, this`emitted, this`saved, queue, hash
      ensures Valid() && (queue == old(queue) || fresh(queue))
      ensures Left(fd) == Rest(old(Left(fd)) + chunk) && saved - {fd} == old(saved) - {fd}
      ensures direct.Some? <==> Alone(old(Left(fd)) + chunk)
      ensures var out := Tagged(fd, Frames(old(Left(fd)) + chunk));
        && emitted == old(emitted) + out
        && (direct.Some? ==> out == [direct.value] && Contents() == old(Contents()))
        && (direct.None? ==> Contents() == old(Contents()) + out)
    {
      hide Chained, HashFd, Frames, Rest, Tagged, ReadSize, Open, Bytes;
      SavedOpen(hash[..], saved, fd);
      var found := FindUncomplete(fd);
      if found.Some? {
        direct := FillUncomplete(fd, found.value, chunk);
      } else {
        direct := FirstChunk(fd, chunk);
      }
    }

    // Fill the unfinished package.
    method FillUncomplete(fd: nat, u: Uncomplete, chunk: seq<Byte>) returns (direct: Option<Package>)
      requires Valid() && fd !in saved && |chunk| > 0 && Open(u) && u.id == fd
      modifies this`cap, this`head, this`tail, this`queue, this`emitted, this`saved, queue, hash
      ensures Valid() && (queue == old(queue) || fresh(queue))
      ensures Left(fd) == Rest(Bytes(u) + chunk) && saved - {fd} == old(saved)
      ensures direct.Some? <==> Alone(Bytes(u) + chunk)
      ensures var out := Tagged(fd, Frames(Bytes(u) + chunk));
        && emitted == old(emitted) + out
        && (direct.Some? ==> out == [direct.value] && Contents() == old(Contents()))
        && (direct.None? ==> Contents() == old(Contents()) + out)
    {
      hide Chained, HashFd, Frames, Rest, Tagged, ReadSize, Open, Bytes;
      NoneTagged(fd);
      direct := None;
      HeaderStep(u, chunk);
      ghost var s := Bytes(u) + chunk;
      var uc, buffer := u, chunk;
      if uc.read < 0 {
        // read size
        var high: int := uc.header;
        uc := uc.(size := high * 256 + buffer[0], buffer := [], read := 0);
        buffer := buffer[1..];
      }
      var need := uc.size - uc.read;
      ghost var size2 := [uc.size / 256, uc.size % 256];
      assert s == size2 + uc.buffer + buffer;
      if |buffer| < need {
        Join(size2, uc.buffer, buffer, |buffer|);
        uc := uc.(buffer := uc.buffer + buffer, read := uc.read + |buffer|);
        ShortStep(fd, s, uc);
        SaveUncomplete(uc);
        assert saved - {fd} == old(saved);
        return;
      }
      var data := uc.buffer + buffer[..need];
      var more := buffer[need..];
      Join(size2, uc.buffer, buffer, need);
      FullStep(fd, s, uc, data, more);
      direct := Finish(fd, data, more);
    }

    // A chunk of a connection that has nothing unfinished.
    method FirstChunk(fd: nat, chunk: seq<Byte>) returns (direct: Option<Package>)
      requires Valid() && fd !in saved && |chunk| > 0
      modifies this`cap, this`head, this`tail, this`queue, this`emitted, this`saved, queue, hash
      ensures Valid() && (queue == old(queue) || fresh(queue))
      ensures Left(fd) == Rest(chunk) && saved - {fd} == old(saved)
      ensures direct.Some? <==> Alone(chunk)
      ensures var out := Tagged(fd, Frames(chunk));
        && emitted == old(emitted) + out
        && (direct.Some? ==> out == [direct.value] && Contents() == old(Contents()))
        && (direct.None? ==> Contents() == old(Contents()) + out)
    {
      hide Chained, HashFd, Frames, Rest, Tagged, ReadSize, Open, Bytes;
      NoneTagged(fd);
      direct := None;
      if |chunk| == 1 {
        OneByte(fd, chunk);
        SaveUncomplete(Uncomplete(fd, 0, [], -1, chunk[0]));
        assert saved - {fd} == old(saved);
        return;
      }
      var packSize := ReadSize(chunk);
      var buffer := chunk[2..];
      if |buffer| < packSize {
        SizeBytes(fd, chunk);
        SaveUncomplete(Uncomplete(fd, packSize, buffer, |buffer|, 0));
        assert saved - {fd} == old(saved);
        return;
      }
      TaggedFirst(fd, chunk);
      assert buffer[..packSize] == chunk[2..2 + packSize] && buffer[packSize..] == chunk[2 + packSize..];
      direct := Finish(fd, buffer[..packSize], buffer[packSize..]);
    }

    // A package is complete: it is returned if the chunk ends with it.
    method Finish(fd: nat, data: seq<Byte>, more: seq<Byte>) returns (direct: Option<Package>)
      requires Valid() && fd !in saved
      modifies this`cap, this`head, this`tail, this`queue, this`emitted, this`saved, queue, hash
      ensures Valid() && (queue == old(queue) || fresh(queue))
      ensures Left(fd) == Rest(more) && saved - {fd} == old(saved)
      ensures direct.Some? <==> more == []
      ensures var out := [Package(fd, data)] + Tagged(fd, Frames(more));
        && emitted == old(emitted) + out
        && (direct.Some? ==> out == [direct.value] && Contents() == old(Contents()))
        && (direct.None? ==> Contents() == old(Contents()) + out)
    {
      hide Chained, HashFd, Frames, Rest, Tagged, ReadSize, Open, Bytes;
      NoneTagged(fd);
      if |more| == 0 {
        EmptyStream();
        assert more == [] && saved - {fd} == old(saved);
        assert [Package(fd, data)] + [] == [Package(fd, data)];
        emitted := emitted + [Package(fd, data)];
        return Some(Package(fd, data));
      }
      PushData(fd, data);
      PushMore(fd, more);
      AppendTwo(old(emitted), Package(fd, data), Tagged(fd, Frames(more)));
      AppendTwo(old(Contents()), Package(fd, data), Tagged(fd, Frames(more)));
      return None;
    }

    // The connection is closed: what is unfinished is dropped.
    method CloseUncomplete(fd: nat)
      requires Valid()
      modifies this`saved, hash
      ensures Valid() && Left(fd) == [] && saved == old(saved) - {fd}
    {
      var _ := FindUncomplete(fd);
    }
  }

  lemma AppendTwo(a: seq<Package>, p: Package, b: seq<Package>)
    ensures a + [p] + b == a + ([p] + b) && a + [] == a && [p] + [] == [p]
  {
  }

  lemma EmptyStream()
    ensures Frames([]) == [] && Rest([]) == []
  {
  }

  lemma OneByte(fd: nat, buffer: seq<Byte>)
    requires |buffer| == 1
    ensures var u := Uncomplete(fd, 0, [], -1, buffer[0]); Open(u) && Bytes(u) == buffer
    ensures Frames(buffer) == [] && Rest(buffer) == buffer
  {
  }

  lemma SavedOpen(hs: seq<seq<Uncomplete>>, saved: map<nat, Uncomplete>, fd: nat)
    requires Chained(hs, saved)
    ensures fd in saved ==> Open(saved[fd]) && saved[fd].id == fd
    ensures fd !in saved ==> forall chunk: seq<Byte> :: [] + chunk == chunk
  {
  }

  // What an unfinished package looks like when its size is known.
  lemma HeaderStep(u: Uncomplete, chunk: seq<Byte>)
    requires Open(u) && |chunk| > 0
    ensures u.read == -1 || 0 <= u.read == |u.buffer| < u.size < 0x10000
    ensures u.read < 0 ==> var high: int := u.header;
      var n := high * 256 + chunk[0];
      0 <= n < 0x10000 && Bytes(u) + chunk == [n / 256, n % 256] + [] + chunk[1..]
    ensures u.read >= 0 ==> Bytes(u) + chunk == [u.size / 256, u.size % 256] + u.buffer + chunk
  {
    TwoBytes(u.header, chunk[0]);
    assert chunk == [chunk[0]] + chunk[1..];
  }

  lemma Join(a: seq<Byte>, b: seq<Byte>, c: seq<Byte>, n: nat)
    requires n <= |c|
    ensures a + b + c == a + (b + c[..n]) + c[n..]
    ensures a + b + c == a + (b + c)
  {
  }

  lemma ShortStep(fd: nat, s: seq<Byte>, u: Uncomplete)
    requires 0 <= u.read == |u.buffer| < u.size < 0x10000 && s == [u.size / 256, u.size % 256] + u.buffer
    ensures Open(u) && Bytes(u) == s && Rest(s) == s && Frames(s) == []
    ensures !Alone(s)
  {
    assert ReadSize(s) == u.size;
  }

  lemma FullStep(fd: nat, s: seq<Byte>, u: Uncomplete, data: seq<Byte>, more: seq<Byte>)
    requires u.size < 0x10000 && |data| == u.size && s == [u.size / 256, u.size % 256] + data + more
    ensures Rest(s) == Rest(more) && Tagged(fd, Frames(s)) == [Package(fd, data)] + Tagged(fd, Frames(more))
    ensures Alone(s) <==> more == []
  {
    assert ReadSize(s) == u.size;
    assert s[2..2 + u.size] == data && s[2 + u.size..] == more;
    TaggedFirst(fd, s);
  }

  lemma Wrap(x: nat, n: nat)
    requires n > 0 && x < 2 * n
    ensures x % n == if x < n then x else x - n
  {
  }

  function Tagged(fd: nat, frames: seq<seq<Byte>>): seq<Package> {
    if frames == [] then [] else [Package(fd, frames[0])] + Tagged(fd, frames[1..])
  }

  lemma NoneTagged(fd: nat)
    ensures Tagged(fd, []) == [] && forall a: seq<Package> :: a + Tagged(fd, []) == a
  {
  }

  lemma TaggedFirst(fd: nat, buffer: seq<Byte>)
    requires |buffer| >= 2 && |buffer| - 2 >= ReadSize(buffer)
    ensures var n := 2 + ReadSize(buffer);
      Tagged(fd, Frames(buffer)) == [Package(fd, buffer[2..n])] + Tagged(fd, Frames(buffer[n..])) && Rest(buffer) == Rest(buffer[n..])
  {
    var n := 2 + ReadSize(buffer);
    assert Frames(buffer) == [buffer[2..n]] + Frames(buffer[n..]);
    assert Frames(buffer)[1..] == Frames(buffer[n..]);
  }

  lemma SizeBytes(fd: nat, buffer: seq<Byte>)
    requires |buffer| >= 2 && |buffer| - 2 < ReadSize(buffer)
    ensures var u := Uncomplete(fd, ReadSize(buffer), buffer[2..], |buffer| - 2, 0); Open(u) && Bytes(u) == buffer
    ensures Frames(buffer) == [] && Rest(buffer) == buffer
  {
    TwoBytes(buffer[0], buffer[1]);
    assert buffer == [buffer[0], buffer[1]] + buffer[2..];
  }

  lemma TwoBytes(h: int, l: int)
    requires 0 <= h < 256 && 0 <= l < 256
    ensures (h * 256 + l) / 256 == h && (h * 256 + l) % 256 == l && h * 256 + l < 0x10000
  {
  }

  lemma ChainCount(hs: seq<seq<Uncomplete>>, saved: map<nat, Uncomplete>)
    requires Chained(hs, saved)
    ensures |hs| == HASHSIZE
  {
  }

  // ------------------------------------------------------------ whole runs

  // A chunk arrives, or a package that waits is taken.
  datatype Event = Arrive(fd: nat, data: seq<Byte>) | Take

  // All that a connection has sent.
  function StreamOf(fd: nat, es: seq<Event>): seq<Byte> {
    if es == [] then [] else
    var e := es[|es| - 1];
    StreamOf(fd, es[..|es| - 1]) + if e.Arrive? && e.fd == fd then e.data else []
  }

  // The packages of one connection, in order.
  function Of(fd: nat, ps: seq<Package>): seq<seq<Byte>> {
    if ps == [] then [] else (if ps[0].id == fd then [ps[0].buffer] else []) + Of(fd, ps[1..])
  }

  // What has been handed out in a run, at once or out of the queue, and what waits.
  datatype Status = Status(delivered: seq<Package>, waiting: seq<Package>)

  function Next(es: seq<Event>, st: Status, e: Event): Status {
    match e
    case Arrive(fd, data) =>
      var s := Rest(StreamOf(fd, es)) + data;
      var out := Tagged(fd, Frames(s));
      if Alone(s) then st.(delivered := st.delivered + out) else st.(waiting := st.waiting + out)
    case Take =>
      if st.waiting == [] then st else Status(st.delivered + [st.waiting[0]], st.waiting[1..])
  }

  function After(es: seq<Event>): Status {
    if es == [] then Status([], []) else Next(es[..|es| - 1], After(es[..|es| - 1]), es[|es| - 1])
  }

  lemma AfterNext(es: seq<Event>, k: nat)
    requires k < |es|
    ensures After(es[..k + 1]) == Next(es[..k], After(es[..k]), es[k])
    ensures forall fd :: StreamOf(fd, es[..k + 1]) == StreamOf(fd, es[..k]) + if es[k].Arrive? && es[k].fd == fd then es[k].data else []
  {
    hide Next;
    assert es[..k + 1][..k] == es[..k];
  }

  lemma {:induction false} OfConcat(fd: nat, a: seq<Package>, b: seq<Package>)
    ensures Of(fd, a + b) == Of(fd, a) + Of(fd, b)
    decreases |a|
  {
    if a == [] {
      assert a + b == b;
    } else {
      assert (a + b)[1..] == a[1..] + b;
      OfConcat(fd, a[1..], b);
    }
  }

  lemma {:induction false} OfTagged(fd: nat, g: nat, frames: seq<seq<Byte>>)
    ensures Of(fd, Tagged(g, frames)) == if fd == g then frames else []
    decreases |frames|
  {
    if frames != [] {
      OfTagged(fd, g, frames[1..]);
      var t := Tagged(g, frames);
      assert t[1..] == Tagged(g, frames[1..]);
    }
  }

  // What arrives for a connection adds the packages that it completes.
  lemma FramesNext(fd: nat, es: seq<Event>, k: nat)
    requires k < |es|
    ensures Frames(StreamOf(fd, es[..k + 1])) == Frames(StreamOf(fd, es[..k])) + More(fd, es[..k], es[k])
  {
    AfterNext(es, k);
    hide Frames, Rest, After, Next;
    var s := StreamOf(fd, es[..k]);
    if es[k].Arrive? && es[k].fd == fd {
      ParseSplit(s, es[k].data);
    } else {
      assert StreamOf(fd, es[..k + 1]) == s + [] == s;
      assert Frames(s) + [] == Frames(s);
    }
  }

  // Nothing is lost or made up: what was handed out and what waits for a connection are
  // the packages of its whole stream.
  lemma {:induction false} NoneLost(fd: nat, es: seq<Event>)
    ensures var st := After(es);
      multiset(Of(fd, st.delivered)) + multiset(Of(fd, st.waiting)) == multiset(Frames(StreamOf(fd, es)))
    decreases |es|
  {
    if es == [] {
      EmptyStream();
    } else {
      var k := |es| - 1;
      var init, e, st := es[..k], es[k], After(es[..k]);
      assert es[..k + 1] == es;
      NoneLost(fd, init);
      AfterNext(es, k);
      FramesNext(fd, es, k);
      hide *;
      BagsStep(fd, init, st, e, Frames(StreamOf(fd, init)));
    }
  }

  // The packages that an event completes for a connection.
  function More(fd: nat, es: seq<Event>, e: Event): seq<seq<Byte>> {
    if e.Arrive? && e.fd == fd then Frames(Rest(StreamOf(fd, es)) + e.data) else []
  }

  lemma BagsStep(fd: nat, es: seq<Event>, st: Status, e: Event, f: seq<seq<Byte>>)
    requires multiset(Of(fd, st.delivered)) + multiset(Of(fd, st.waiting)) == multiset(f)
    ensures var n := Next(es, st, e); multiset(Of(fd, n.delivered)) + multiset(Of(fd, n.waiting)) == multiset(f + More(fd, es, e))
  {
    hide Frames, Rest, StreamOf, Alone, Of, Tagged;
    match e {
      case Arrive(g, data) =>
        var s := Rest(StreamOf(g, es)) + data;
        var out := Tagged(g, Frames(s));
        OfConcat(fd, st.delivered, out);
        OfConcat(fd, st.waiting, out);
        OfTagged(fd, g, Frames(s));
        BagsNext(Of(fd, st.delivered), Of(fd, st.waiting), Of(fd, out), f);
      case Take =>
        OfTake(fd, st);
        assert f + [] == f;
    }
  }

  lemma BagsNext(a: seq<seq<Byte>>, b: seq<seq<Byte>>, c: seq<seq<Byte>>, f: seq<seq<Byte>>)
    requires multiset(a) + multiset(b) == multiset(f)
    ensures multiset(a + c) + multiset(b) == multiset(f + c) && multiset(a) + multiset(b + c) == multiset(f + c)
    ensures multiset(a + []) == multiset(a) && multiset(b + []) == multiset(b) && f + [] == f
  {
    assert a + [] == a && b + [] == b;
  }

  lemma OfTake(fd: nat, st: Status)
    ensures st.waiting != [] ==>
      Of(fd, st.delivered + [st.waiting[0]]) + Of(fd, st.waiting[1..]) == Of(fd, st.delivered) + Of(fd, st.waiting)
    ensures st.waiting != [] ==>
      multiset(Of(fd, st.delivered + [st.waiting[0]])) + multiset(Of(fd, st.waiting[1..])) ==
      multiset(Of(fd, st.delivered)) + multiset(Of(fd, st.waiting))
  {
    if st.waiting != [] {
      var p, w := [st.waiting[0]], st.waiting[1..];
      OfConcat(fd, st.delivered, p);
      OfConcat(fd, p, w);
      assert p + w == st.waiting;
    }
  }

  // A package is handed out at once while another of its connection waits.
  ghost predicate Overtakes(fd: nat, es: seq<Event>, k: nat)
    requires k < |es|
  {
    es[k].Arrive? && es[k].fd == fd && Alone(Rest(StreamOf(fd, es[..k])) + es[k].data) && Of(fd, After(es[..k]).waiting) != []
  }

  // Which packages of a connection's stream have been handed out, and which wait, by
  // their numbers in the stream.
  datatype Where = Where(out: seq<nat>, wait: seq<nat>)
  {
    function All(): seq<nat> { out + wait }
  }

  // The numbers from n on.
  function Span(n: nat, m: nat): (r: seq<nat>)
    ensures |r| == m && forall i :: 0 <= i < m ==> r[i] == n + i
  {
    seq(m, i requires 0 <= i < m => n + i)
  }

  // What an event does to the numbers: those of the packages that it completes are the
  // next ones, and a package that is taken keeps its own.
  function Placing(fd: nat, es: seq<Event>, st: Status, p: Where, e: Event): Where {
    match e
    case Arrive(g, data) =>
      if g != fd then p else
      var s := Rest(StreamOf(fd, es)) + data;
      var next := Span(|Frames(StreamOf(fd, es))|, |Frames(s)|);
      if Alone(s) then p.(out := p.out + next) else p.(wait := p.wait + next)
    case Take =>
      if st.waiting != [] && st.waiting[0].id == fd && p.wait != [] then Where(p.out + [p.wait[0]], p.wait[1..]) else p
  }

  function Places(fd: nat, es: seq<Event>): Where {
    if es == [] then Where([], []) else
    var init := es[..|es| - 1];
    Placing(fd, init, After(init), Places(fd, init), es[|es| - 1])
  }

  // 'ps' are the packages of 'f' with these numbers.
  ghost predicate Picks(ps: seq<seq<Byte>>, f: seq<seq<Byte>>, ix: seq<nat>) {
    |ps| == |ix| && forall i :: 0 <= i < |ix| ==> ix[i] < |f| && ps[i] == f[ix[i]]
  }

  // The numbers tell what was handed out and what waits; each is there once.
  ghost predicate Placed(fd: nat, st: Status, p: Where, f: seq<seq<Byte>>) {
    Parted(Of(fd, st.delivered), Of(fd, st.waiting), p, f)
  }

  ghost predicate Parted(a: seq<seq<Byte>>, b: seq<seq<Byte>>, p: Where, f: seq<seq<Byte>>) {
    Picks(a, f, p.out) && Picks(b, f, p.wait) && multiset(p.All()) == multiset(Span(0, |f|))
  }

  lemma PicksMore(ps: seq<seq<Byte>>, f: seq<seq<Byte>>, ix: seq<nat>, more: seq<seq<Byte>>)
    requires Picks(ps, f, ix)
    ensures Picks(ps, f + more, ix)
    ensures Picks(ps + more, f + more, ix + Span(|f|, |more|))
  {
  }

  lemma SpanMore(n: nat, m: nat)
    ensures Span(0, n) + Span(n, m) == Span(0, n + m) && |Span(n, m)| == m
  {
  }

  // New numbers go to the end of what was handed out, or of what waits.
  lemma NumbersMore(p: Where, n: nat, m: nat)
    requires multiset(p.All()) == multiset(Span(0, n))
    ensures multiset((p.out + Span(n, m)) + p.wait) == multiset(Span(0, n + m))
    ensures multiset(p.out + (p.wait + Span(n, m))) == multiset(Span(0, n + m))
  {
    SpanMore(n, m);
    assert p.out + (p.wait + Span(n, m)) == p.All() + Span(n, m);
  }

  lemma PartedMore(a: seq<seq<Byte>>, b: seq<seq<Byte>>, p: Where, f: seq<seq<Byte>>, x: seq<seq<Byte>>)
    requires Parted(a, b, p, f)
    ensures Parted(a + x, b, p.(out := p.out + Span(|f|, |x|)), f + x)
    ensures Parted(a, b + x, p.(wait := p.wait + Span(|f|, |x|)), f + x)
  {
    hide Picks, Span;
    PicksMore(a, f, p.out, x);
    PicksMore(b, f, p.wait, x);
    NumbersMore(p, |f|, |x|);
  }

  lemma PlacedStep(fd: nat, es: seq<Event>, st: Status, p: Where, e: Event)
    requires Placed(fd, st, p, Frames(StreamOf(fd, es)))
    ensures Placed(fd, Next(es, st, e), Placing(fd, es, st, p, e), Frames(StreamOf(fd, es)) + More(fd, es, e))
  {
    hide Frames, Rest, StreamOf, Alone, Of, Tagged, Parted, Span;
    var f, a, b := Frames(StreamOf(fd, es)), Of(fd, st.delivered), Of(fd, st.waiting);
    NoneMore(a, b, f);
    match e {
      case Arrive(g, data) =>
        var x := Frames(Rest(StreamOf(g, es)) + data);
        OfConcat(fd, st.delivered, Tagged(g, x));
        OfConcat(fd, st.waiting, Tagged(g, x));
        OfTagged(fd, g, x);
        PartedMore(a, b, p, f, x);
      case Take => PlacedTake(fd, es, st, p, f);
    }
  }

  lemma PlacedTake(fd: nat, es: seq<Event>, st: Status, p: Where, f: seq<seq<Byte>>)
    requires Placed(fd, st, p, f)
    ensures Placed(fd, Next(es, st, Take), Placing(fd, es, st, p, Take), f)
  {
    hide Of, Picks, Span;
    if st.waiting != [] {
      OfConcat(fd, st.delivered, [st.waiting[0]]);
      OfFirst(fd, st.waiting);
      if st.waiting[0].id == fd {
        PicksFirst(Of(fd, st.delivered), Of(fd, st.waiting), f, p);
      } else {
        NoneMore(Of(fd, st.delivered), Of(fd, st.waiting[1..]), f);
      }
    }
  }

  lemma NoneMore(a: seq<seq<Byte>>, b: seq<seq<Byte>>, f: seq<seq<Byte>>)
    ensures a + [] == a && [] + b == b && b + [] == b && f + [] == f
  {
  }

  lemma OfFirst(fd: nat, ps: seq<Package>)
    requires ps != []
    ensures Of(fd, [ps[0]]) == if ps[0].id == fd then [ps[0].buffer] else []
    ensures Of(fd, ps) == Of(fd, [ps[0]]) + Of(fd, ps[1..])
  {
    assert [ps[0]][1..] == [];
  }

  lemma PicksFirst(a: seq<seq<Byte>>, b: seq<seq<Byte>>, f: seq<seq<Byte>>, p: Where)
    requires Picks(a, f, p.out) && Picks(b, f, p.wait) && b != []
    ensures p.wait != [] && Picks(a + [b[0]], f, p.out + [p.wait[0]]) && Picks(b[1..], f, p.wait[1..])
    ensures (p.out + [p.wait[0]]) + p.wait[1..] == p.All()
  {
  }

  // In every run the numbers are right.
  lemma {:induction false} PlacesRight(fd: nat, es: seq<Event>)
    ensures Placed(fd, After(es), Places(fd, es), Frames(StreamOf(fd, es)))
    decreases |es|
  {
    if es == [] {
      EmptyStream();
      assert Span(0, 0) == [];
    } else {
      var k := |es| - 1;
      var init := es[..k];
      assert es[..k + 1] == es;
      PlacesRight(fd, init);
      AfterNext(es, k);
      FramesNext(fd, es, k);
      hide Frames, Rest, StreamOf, After, Placed, Next, Placing, More;
      PlacedStep(fd, init, After(init), Places(fd, init), es[k]);
    }
  }

  ghost predicate Rising(ix: seq<nat>) { forall i, j :: 0 <= i < j < |ix| ==> ix[i] < ix[j] }

  // What comes out in the order of the numbers is the whole stream in order.
  lemma AllInOrder(a: seq<seq<Byte>>, b: seq<seq<Byte>>, f: seq<seq<Byte>>, p: Where)
    requires Picks(a, f, p.out) && Picks(b, f, p.wait) && p.All() == Span(0, |f|)
    ensures a + b == f
  {
    forall i | 0 <= i < |f| ensures (a + b)[i] == f[i] {
      assert p.All()[i] == i;
    }
    assert |p.All()| == |f|;
  }

  // The numbers are all in order, or there is an inversion.
  ghost predicate Ordered(good: bool, ix: seq<nat>, n: nat) { if good then ix == Span(0, n) else !Rising(ix) }

  // New numbers at the end keep that; one before numbers that wait is an inversion.
  lemma OrderedMore(good: bool, p: Where, n: nat, m: nat, alone: bool)
    requires Ordered(good, p.All(), n) && (p.wait != [] ==> p.wait[0] < n) && (alone ==> m == 1)
    ensures var p' := if alone then p.(out := p.out + Span(n, m)) else p.(wait := p.wait + Span(n, m));
      Ordered(good && !(alone && p.wait != []), p'.All(), n + m)
  {
    hide Span, Rising;
    if alone && p.wait != [] {
      Inverted(p, n);
    } else {
      SpanMore(n, m);
      assert (p.out + Span(n, m)) + [] == p.out + Span(n, m) && p.out + [] == p.out;
      assert p.out + (p.wait + Span(n, m)) == p.All() + Span(n, m);
      if !good {
        StaysInverted(p.All(), Span(n, m));
      }
    }
  }

  lemma StaysInverted(ix: seq<nat>, more: seq<nat>)
    requires !Rising(ix)
    ensures !Rising(ix + more)
  {
    var i, j :| 0 <= i < j < |ix| && ix[i] >= ix[j];
    assert (ix + more)[i] >= (ix + more)[j];
  }

  lemma Inverted(p: Where, n: nat)
    requires p.wait != [] && p.wait[0] < n
    ensures !Rising((p.out + Span(n, 1)) + p.wait)
  {
    var all := (p.out + Span(n, 1)) + p.wait;
    assert all[|p.out|] == n && all[|p.out| + 1] == p.wait[0];
  }

  ghost predicate Over(fd: nat, es: seq<Event>, st: Status, e: Event) {
    e.Arrive? && e.fd == fd && Alone(Rest(StreamOf(fd, es)) + e.data) && Of(fd, st.waiting) != []
  }

  lemma OrderedStep(fd: nat, es: seq<Event>, st: Status, p: Where, e: Event, good: bool)
    requires Placed(fd, st, p, Frames(StreamOf(fd, es))) && Ordered(good, p.All(), |Frames(StreamOf(fd, es))|)
    ensures Ordered(good && !Over(fd, es, st, e), Placing(fd, es, st, p, e).All(), |Frames(StreamOf(fd, es)) + More(fd, es, e)|)
  {
    hide Frames, Rest, StreamOf, Alone, Of, Span, Rising, Ordered;
    match e {
      case Take => assert Placing(fd, es, st, p, e).All() == p.All();
      case Arrive(g, data) =>
        if g == fd {
          var s := Rest(StreamOf(fd, es)) + data;
          if Alone(s) {
            AloneIs(s);
          }
          OrderedMore(good, p, |Frames(StreamOf(fd, es))|, |Frames(s)|, Alone(s));
        }
    }
  }

  ghost predicate NoneOver(fd: nat, es: seq<Event>) { forall k :: 0 <= k < |es| ==> !Overtakes(fd, es, k) }

  lemma NoneOverNext(fd: nat, es: seq<Event>)
    requires es != []
    ensures var init := es[..|es| - 1];
      NoneOver(fd, es) <==> NoneOver(fd, init) && !Over(fd, init, After(init), es[|es| - 1])
  {
    var k := |es| - 1;
    var init := es[..k];
    hide Over, Overtakes;
    OverIs(fd, es, k);
    forall i | 0 <= i < k ensures Overtakes(fd, init, i) <==> Overtakes(fd, es, i) {
      OvertakesSame(fd, es, k, i);
    }
  }

  lemma OverIs(fd: nat, es: seq<Event>, k: nat)
    requires k < |es|
    ensures Overtakes(fd, es, k) <==> Over(fd, es[..k], After(es[..k]), es[k])
  {
    hide After, StreamOf, Rest, Of, Alone;
  }

  lemma OvertakesSame(fd: nat, es: seq<Event>, k: nat, i: nat)
    requires i < k <= |es|
    ensures Overtakes(fd, es[..k], i) <==> Overtakes(fd, es, i)
  {
    hide After, StreamOf, Rest, Of, Alone;
    assert es[..k][..i] == es[..i];
  }

  lemma {:induction false} OrderedRun(fd: nat, es: seq<Event>)
    ensures Ordered(NoneOver(fd, es), Places(fd, es).All(), |Frames(StreamOf(fd, es))|)
    decreases |es|
  {
    hide Frames, Rest, StreamOf, Alone, Of, Span, Rising, Placed, Placing, More, Over, Overtakes;
    if es == [] {
      EmptyStream();
      Start();
      SpanMore(0, 0);
    } else {
      var k := |es| - 1;
      var init := es[..k];
      assert es[..k + 1] == es;
      OrderedRun(fd, init);
      PlacesRight(fd, init);
      FramesNext(fd, es, k);
      NoneOverNext(fd, es);
      hide Ordered, NoneOver, After;
      OrderedStep(fd, init, After(init), Places(fd, init), es[k], NoneOver(fd, init));
    }
  }

  // The packages of a connection come out in the order of its stream, however the
  // streams are cut and interleaved and whenever the queue is read, if and only if none
  // is handed out while another waits.
  lemma InOrder(fd: nat, es: seq<Event>)
    ensures var st, p := After(es), Places(fd, es);
      && (Rising(p.All()) <==> forall k :: 0 <= k < |es| ==> !Overtakes(fd, es, k))
      && (Rising(p.All()) ==> Of(fd, st.delivered) + Of(fd, st.waiting) == Frames(StreamOf(fd, es)))
  {
    hide Frames, StreamOf, Of, After, Places, Overtakes, Picks;
    OrderedRun(fd, es);
    PlacesRight(fd, es);
    var st, p := After(es), Places(fd, es);
    if forall k :: 0 <= k < |es| ==> !Overtakes(fd, es, k) {
      AllInOrder(Of(fd, st.delivered), Of(fd, st.waiting), Frames(StreamOf(fd, es)), p);
    }
  }

  // It can happen: two packages in one chunk wait, and one in a chunk of its own goes first.
  lemma Overtaken()
    ensures var es := [Arrive(0, [0, 1, 7, 0, 1, 8]), Arrive(0, [0, 1, 9])];
      Overtakes(0, es, 1) && After(es) == Status([Package(0, [9])], [Package(0, [7]), Package(0, [8])])
  {
    TwoFrames();
    TaggedTwo(0, [7], [8]);
    TaggedTwo(0, [9], [9]);
    TwoChunks([0, 1, 7, 0, 1, 8], [0, 1, 9]);
    hide *;
  }

  lemma TwoChunks(ab: seq<Byte>, c: seq<Byte>)
    requires !Alone(ab) && Rest(ab) == [] && Frames(ab) != [] && Alone(c)
    ensures var es := [Arrive(0, ab), Arrive(0, c)];
      Overtakes(0, es, 1) && After(es) == Status(Tagged(0, Frames(c)), Tagged(0, Frames(ab)))
  {
    hide Alone, Rest, Frames, Tagged, After, StreamOf, Of, Next;
    var es := [Arrive(0, ab), Arrive(0, c)];
    assert es[..1] == [Arrive(0, ab)] && es[..2] == es;
    FirstEvent(0, ab);
    AfterNext(es, 1);
    OfTagged(0, 0, Frames(ab));
    assert [] + c == c;
    SecondEvent(es[..1], Tagged(0, Frames(ab)), c);
  }

  lemma SecondEvent(es: seq<Event>, waiting: seq<Package>, c: seq<Byte>)
    requires Rest(StreamOf(0, es)) == [] && Alone(c)
    ensures Next(es, Status([], waiting), Arrive(0, c)) == Status(Tagged(0, Frames(c)), waiting)
  {
    hide Rest, StreamOf, Alone, Frames, Tagged;
    assert [] + c == c && [] + Tagged(0, Frames(c)) == Tagged(0, Frames(c));
  }

  lemma TwoFrames()
    ensures var ab, c: seq<Byte> := [0, 1, 7, 0, 1, 8], [0, 1, 9];
      Frames(ab) == [[7], [8]] && Rest(ab) == [] && Frames(c) == [[9]] && !Alone(ab) && Alone(c)
  {
    var ab, c: seq<Byte> := [0, 1, 7, 0, 1, 8], [0, 1, 9];
    assert ReadSize(ab) == 1 && ReadSize(c) == 1;
    OneFrame(7, [0, 1, 8]);
    OneFrame(8, []);
    OneFrame(9, []);
    EmptyStream();
    assert [0, 1, 7] + [0, 1, 8] == ab && [0, 1, 8] + [] == [0, 1, 8 as Byte] && [0, 1, 9] + [] == c;
    hide Frames, Rest, ReadSize;
  }

  lemma TaggedTwo(fd: nat, a: seq<Byte>, b: seq<Byte>)
    ensures Tagged(fd, [a, b]) == [Package(fd, a), Package(fd, b)] && Tagged(fd, [a]) == [Package(fd, a)]
  {
    assert [a, b][1..] == [b] && [a][1..] == [] && [b][1..] == [];
    assert Tagged(fd, [b]) == [Package(fd, b)] + Tagged(fd, []);
    assert Tagged(fd, [a]) == [Package(fd, a)] + Tagged(fd, []);
  }

  lemma FirstEvent(fd: nat, data: seq<Byte>)
    ensures var out := Tagged(fd, Frames(data));
      After([Arrive(fd, data)]) == if Alone(data) then Status(out, []) else Status([], out)
    ensures StreamOf(fd, [Arrive(fd, data)]) == data
  {
    var es := [Arrive(fd, data)];
    AfterNext(es, 0);
    Start();
    EmptyStream();
    hide Frames, Rest, Tagged, Alone, After, StreamOf;
    assert es[..1] == es && es[..0] == [];
    assert [] + data == data;
    assert [] + Tagged(fd, Frames(data)) == Tagged(fd, Frames(data));
  }

  lemma OneFrame(x: Byte, more: seq<Byte>)
    ensures Frames([0, 1, x] + more) == [[x]] + Frames(more) && Rest([0, 1, x] + more) == Rest(more)
  {
    var s := [0, 1, x] + more;
    assert ReadSize(s) == 1 && s[2..3] == [x] && s[3..] == more;
  }

  // The queue after a run, and what is left of every stream.
  ghost predicate Come(q: Queue, delivered: seq<Package>, es: seq<Event>)
    reads q, q.queue, q.hash
  {
    && q.Valid() && Status(delivered, q.Contents()) == After(es)
    && forall fd: nat :: q.Left(fd) == Rest(StreamOf(fd, es))
  }

  // Any run: what is handed out, what waits, and what is left of every stream.
  method Drive(es: seq<Event>) returns (q: Queue, delivered: seq<Package>)
    requires forall k :: 0 <= k < |es| && es[k].Arrive? ==> |es[k].data| > 0
    ensures fresh(q) && q.Valid()
    ensures Status(delivered, q.Contents()) == After(es)
    ensures forall fd: nat :: q.Left(fd) == Rest(StreamOf(fd, es))
  {
    hide Rest, StreamOf, After;
    q := new Queue();
    delivered := [];
    EmptyStream();
    Start();
    assert es[..0] == [];
    for k := 0 to |es|
      invariant fresh(q) && fresh(q.hash) && fresh(q.queue) && Come(q, delivered, es[..k])
    {
      hide Come;
      if es[k].Arrive? {
        delivered := DriveArrive(q, delivered, es, k);
      } else {
        delivered := DriveTake(q, delivered, es, k);
      }
    }
    assert es[..|es|] == es;
  }

  method DriveArrive(q: Queue, before: seq<Package>, es: seq<Event>, k: nat) returns (delivered: seq<Package>)
    requires k < |es| && es[k].Arrive? && |es[k].data| > 0 && Come(q, before, es[..k])
    modifies q, q.queue, q.hash
    ensures q.hash == old(q.hash) && (q.queue == old(q.queue) || fresh(q.queue)) && Come(q, delivered, es[..k + 1])
  {
    hide Chained, Frames, Rest, StreamOf, Tagged, Alone, After;
    ghost var saved := q.saved;
    AfterNext(es, k);
    delivered := before;
    var direct := q.FilterData(es[k].fd, es[k].data);
    if direct.Some? {
      delivered := delivered + [direct.value];
    }
    forall fd: nat ensures q.Left(fd) == Rest(StreamOf(fd, es[..k + 1])) {
      LeftNext(fd, es, k);
      if fd != es[k].fd {
        OtherSaved(saved, q.saved, es[k].fd, fd);
      }
    }
  }

  method DriveTake(q: Queue, before: seq<Package>, es: seq<Event>, k: nat) returns (delivered: seq<Package>)
    requires k < |es| && es[k].Take? && Come(q, before, es[..k])
    modifies q, q.queue
    ensures q.hash == old(q.hash) && (q.queue == old(q.queue) || fresh(q.queue)) && Come(q, delivered, es[..k + 1])
  {
    hide Chained, Frames, Rest, StreamOf, Tagged, Alone, After;
    ghost var waiting := q.Contents();
    AfterNext(es, k);
    delivered := before;
    var r := q.Pop();
    if r.Some? {
      delivered := delivered + [r.value];
      assert waiting[1..] == q.Contents();
    }
    forall fd: nat ensures q.Left(fd) == Rest(StreamOf(fd, es[..k + 1])) {
      LeftNext(fd, es, k);
    }
  }

  lemma LeftNext(fd: nat, es: seq<Event>, k: nat)
    requires k < |es|
    ensures Rest(StreamOf(fd, es[..k + 1])) ==
      if es[k].Arrive? && es[k].fd == fd then Rest(Rest(StreamOf(fd, es[..k])) + es[k].data) else Rest(StreamOf(fd, es[..k]))
  {
    AfterNext(es, k);
    hide Rest, Frames, After, Next;
    var s := StreamOf(fd, es[..k]);
    if es[k].Arrive? && es[k].fd == fd {
      ParseSplit(s, es[k].data);
    } else {
      assert StreamOf(fd, es[..k + 1]) == s + [] == s;
    }
  }

  lemma OtherSaved(a: map<nat, Uncomplete>, b: map<nat, Uncomplete>, g: nat, fd: nat)
    requires b - {g} == a - {g} && fd != g
    ensures (fd in b <==> fd in a) && (fd in a ==> b[fd] == a[fd])
  {
    assert fd in b - {g} <==> fd in b;
    assert fd in a - {g} <==> fd in a;
    assert fd in a ==> (a - {g})[fd] == a[fd] && (b - {g})[fd] == b[fd];
  }

  lemma Start()
    ensures After([]) == Status([], []) && forall fd: nat :: StreamOf(fd, []) == []
  {
  }

  // ------------------------------------------------------------ the bytes

  // A package is two bytes of its size, the higher one first, and its data; a size that
  // does not fit is refused.
  lemma PackBytes(data: seq<Byte>)
    ensures Pack(data).Some? <==> |data| < 0x1_0000
    ensures Pack(data).Some? ==>
      var r := Pack(data).value; |r| == |data| + 2 && r[2..] == data && var a: int, b: int := r[0], r[1]; a * 0x100 + b == |data|
  {
  }

  // And it is read like that.
  lemma FrameIs(s: seq<Byte>, n: nat)
    requires |s| >= 2 && var a: int, b: int := s[0], s[1]; n == a * 0x100 + b
    ensures |s| - 2 < n ==> Frames(s) == [] && Rest(s) == s
    ensures |s| - 2 >= n ==> Frames(s) == [s[2..2 + n]] + Frames(s[2 + n..]) && Rest(s) == Rest(s[2 + n..])
  {
    SizeRead(s, n);
    hide ReadSize;
    StreamStep(s);
    hide Frames, Rest;
  }

  lemma SizeRead(s: seq<Byte>, n: nat)
    requires |s| >= 2 && var a: int, b: int := s[0], s[1]; n == a * 0x100 + b
    ensures ReadSize(s) == n
  {
  }

  lemma StreamStep(s: seq<Byte>)
    requires |s| >= 2
    ensures |s| - 2 < ReadSize(s) ==> Frames(s) == [] && Rest(s) == s
    ensures |s| - 2 >= ReadSize(s) ==>
      Frames(s) == [s[2..2 + ReadSize(s)]] + Frames(s[2 + ReadSize(s)..]) && Rest(s) == Rest(s[2 + ReadSize(s)..])
  {
    hide ReadSize;
  }
}
