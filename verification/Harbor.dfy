// One link of the harbor: messages wait in a ring until the peer is known, go out as
// frames of a 4-byte big-endian length, and come in through a status machine.

module Harbor {

  type Byte = x: int | 0 <= x < 256
  type Word = x: int | 0 <= x < 0x1_0000_0000

  const HEADER_COOKIE_LENGTH: nat := 12
  const DEFAULT_QUEUE_SIZE: nat := 1024
  const HANDLE_MASK: nat := 0x100_0000

  datatype Cookie = Cookie(source: Word, destination: Word, session: Word)

  datatype Message = Message(cookie: Cookie, buffer: seq<Byte>)

  datatype Option<+T> = Some(value: T) | None

  // ------------------------------------------------------------ the wire

  function ToBigEndian(n: Word): seq<Byte> { [n / 256 / 256 / 256, n / 256 / 256 % 256, n / 256 % 256, n % 256] }

  function FromBigEndian(b: seq<Byte>): Word
    requires |b| == 4
  {
    var b0: int, b1: int, b2: int, b3: int := b[0], b[1], b[2], b[3];
    ((b0 * 256 + b1) * 256 + b2) * 256 + b3
  }

  lemma BigEndianBack(n: Word)
    ensures |ToBigEndian(n)| == 4 && FromBigEndian(ToBigEndian(n)) == n
  {
  }

  function Body(m: Message): seq<Byte> {
    m.buffer + (ToBigEndian(m.cookie.source) + ToBigEndian(m.cookie.destination) + ToBigEndian(m.cookie.session))
  }

  // What is sent for a message; nothing when it is longer than a length can say.
  function Wire(m: Message): seq<Byte> {
    if |m.buffer| + HEADER_COOKIE_LENGTH >= 0x1_0000_0000 then [] else ToBigEndian(|m.buffer| + HEADER_COOKIE_LENGTH) + Body(m)
  }

  function Wires(ms: seq<Message>): seq<Byte> { if ms == [] then [] else Wires(ms[..|ms| - 1]) + Wire(ms[|ms| - 1]) }

  // A local message as it is delivered: the number of the harbor replaces the type in
  // the destination.
  datatype Local = Local(source: Word, destination: Word, kind: nat, session: Word, buffer: seq<Byte>)

  function Deliver(id: Byte, frame: seq<Byte>): Local
    requires |frame| >= HEADER_COOKIE_LENGTH
  {
    var k := |frame| - HEADER_COOKIE_LENGTH;
    var destination := FromBigEndian(frame[k + 4..k + 8]);
    Local(FromBigEndian(frame[k..k + 4]), destination % HANDLE_MASK + id * HANDLE_MASK, destination / HANDLE_MASK,
          FromBigEndian(frame[k + 8..]), frame[..k])
  }

  // The cookie that a sender makes.
  function CookieOf(source: Word, destination: Word, kind: Byte, session: Word): Cookie {
    Cookie(source, kind * HANDLE_MASK + destination % HANDLE_MASK, session)
  }

  // The other side delivers what was sent, to the destination that was meant.
  lemma Delivered(id: Byte, source: Word, destination: Word, kind: Byte, session: Word, buffer: seq<Byte>)
    requires destination / HANDLE_MASK == id
    ensures var m := Message(CookieOf(source, destination, kind, session), buffer);
      |Body(m)| >= HEADER_COOKIE_LENGTH && Deliver(id, Body(m)) == Local(source, destination, kind, session, buffer)
  {
    var c := CookieOf(source, destination, kind, session);
    BigEndianBack(c.source);
    BigEndianBack(c.destination);
    BigEndianBack(c.session);
    hide ToBigEndian, FromBigEndian;
    var f, k := Body(Message(c, buffer)), |buffer|;
    assert f[..k] == buffer && f[k..k + 4] == ToBigEndian(c.source);
    assert f[k + 4..k + 8] == ToBigEndian(c.destination) && f[k + 8..] == ToBigEndian(c.session);
  }

  // ------------------------------------------------------------ the stream

  // The frames of a stream, what waits for more, and whether a length was too long.
  datatype Parsed = Parsed(frames: seq<seq<Byte>>, rest: seq<Byte>, bad: bool)

  function Before(frames: seq<seq<Byte>>, p: Parsed): Parsed { Parsed(frames + p.frames, p.rest, p.bad) }

  function Length(s: seq<Byte>): nat
    requires |s| >= 4
  {
    var b1: int, b2: int, b3: int := s[1], s[2], s[3];
    (b1 * 256 + b2) * 256 + b3
  }

  // An empty frame is seen when more follows.
  predicate Waits(s: seq<Byte>) { |s| < 4 || (s[0] == 0 && (|s| == 4 || |s| - 4 < Length(s))) }

  function Parse(s: seq<Byte>): Parsed
    decreases |s|
  {
    if Waits(s) then Parsed([], s, false)
    else if s[0] != 0 then Parsed([], [], true)
    else Before([s[4..4 + Length(s)]], Parse(s[4 + Length(s)..]))
  }

  lemma BeforeTwice(a: seq<seq<Byte>>, b: seq<seq<Byte>>, p: Parsed)
    ensures Before(a, Before(b, p)) == Before(a + b, p) && Before([], p) == p
  {
    assert a + (b + p.frames) == a + b + p.frames && [] + p.frames == p.frames;
  }

  // Parsing may stop anywhere and go on with what is left, unless it has ended.
  lemma {:induction false} ParseSplit(a: seq<Byte>, b: seq<Byte>)
    ensures var p := Parse(a); Parse(a + b) == if p.bad then p else Before(p.frames, Parse(p.rest + b))
    decreases |a|
  {
    if Waits(a) {
      BeforeTwice([], [], Parse(a + b));
    } else {
      FrontMore(a, b);
      if a[0] == 0 {
        var n := 4 + Length(a);
        ParseSplit(a[n..], b);
        var q := Parse(a[n..]);
        hide Length, Waits;
        if !q.bad {
          BeforeTwice([a[4..n]], q.frames, Parse(q.rest + b));
        }
      }
    }
  }

  lemma FrontMore(a: seq<Byte>, b: seq<Byte>)
    requires !Waits(a)
    ensures !Waits(a + b) && (a + b)[0] == a[0] && Length(a + b) == Length(a)
    ensures a[0] == 0 ==> var n := 4 + Length(a); n <= |a| && (a + b)[n..] == a[n..] + b && (a + b)[4..n] == a[4..n]
  {
    assert (a + b)[0] == a[0] && (a + b)[1] == a[1] && (a + b)[2] == a[2] && (a + b)[3] == a[3];
    assert Length(a + b) == Length(a);
    hide Length;
  }

  predicate Small(m: Message) { |m.buffer| + HEADER_COOKIE_LENGTH < 0x100_0000 }

  function Bodies(ms: seq<Message>): (r: seq<seq<Byte>>)
    ensures |r| == |ms| && forall k :: 0 <= k < |ms| ==> r[k] == Body(ms[k])
  {
    seq(|ms|, k requires 0 <= k < |ms| => Body(ms[k]))
  }

  // One message on the wire is one frame.
  lemma OneWire(m: Message)
    ensures Small(m) ==> Parse(Wire(m)) == Parsed([Body(m)], [], false)
    ensures !Small(m) && |m.buffer| + HEADER_COOKIE_LENGTH < 0x1_0000_0000 ==> Parse(Wire(m)).bad
  {
    var n := |m.buffer| + HEADER_COOKIE_LENGTH;
    if n < 0x1_0000_0000 {
      LengthBack(n, Body(m));
      hide ToBigEndian, Length;
      var s := Wire(m);
      if n < 0x100_0000 {
        assert s[4..4 + n] == Body(m) && s[4 + n..] == [];
      }
    }
  }

  lemma LengthBack(n: Word, b: seq<Byte>)
    ensures var s := ToBigEndian(n) + b; |s| == 4 + |b| && s[4..] == b && (s[0] == 0 <==> n < 0x100_0000) && (n < 0x100_0000 ==> Length(s) == n)
  {
  }

  // Messages that are short enough come out whole and in order.
  lemma {:induction false} WiresBack(ms: seq<Message>)
    requires forall k :: 0 <= k < |ms| ==> Small(ms[k])
    ensures Parse(Wires(ms)) == Parsed(Bodies(ms), [], false)
    decreases |ms|
  {
    hide Wire, Body, Parse, Small;
    if ms != [] {
      var init, last := ms[..|ms| - 1], ms[|ms| - 1];
      WiresBack(init);
      OneWire(last);
      ParseSplit(Wires(init), Wire(last));
      assert [] + Wire(last) == Wire(last);
      assert Bodies(ms) == Bodies(init) + [Body(last)];
    } else {
      assert Bodies(ms) == [];
      Empty();
    }
  }

  lemma Empty()
    ensures Parse([]) == Parsed([], [], false)
  {
  }

  // ------------------------------------------------------------ the ring

  lemma Wrapped(x: nat, n: nat)
    requires 0 < n && x < 2 * n
    ensures x % n == if x < n then x else x - n
  {
  }

  // The messages of a ring: one slot stays free.
  ghost function InRing(data: seq<Message>, head: nat, tail: nat): seq<Message>
    requires head < |data| && tail < |data|
  {
    if head <= tail then data[head..tail] else data[head..] + data[..tail]
  }

  lemma RingMore(was: seq<Message>, now: seq<Message>, head: nat, tail: nat, m: Message)
    requires head < |was| == |now| && tail < |was| && tail != head
    requires var last := if tail == 0 then |was| - 1 else tail - 1; now == was[last := m]
    ensures InRing(now, head, tail) == InRing(was, head, if tail == 0 then |was| - 1 else tail - 1) + [m]
  {
    if tail == 0 {
      assert now[head..] + now[..0] == now[head..];
    }
  }

  lemma RingStart(data: seq<Message>, tail: nat)
    requires tail < |data|
    ensures InRing(data, 0, tail) == data[0..tail]
  {
  }

  lemma RingAll(data: seq<Message>, head: nat, tail: nat)
    requires head < |data| && tail < |data|
    ensures |InRing(data, head, tail)| == if head <= tail then tail - head else |data| - head + tail
    ensures forall i :: 0 <= i < |InRing(data, head, tail)| ==>
      InRing(data, head, tail)[i] == data[if head + i < |data| then head + i else head + i - |data|]
  {
  }

  class MessageQueue {
    var size: nat
    var head: nat
    var tail: nat
    var data: array<Message>

    ghost predicate Valid()
      reads this
    {
      1 < size == data.Length && head < size && tail < size
    }

    ghost function Contents(): seq<Message>
      reads this, data
      requires Valid()
    {
      InRing(data[..], head, tail)
    }

    constructor (init: Message)
      ensures Valid() && Contents() == [] && fresh(data)
    {
      size, head, tail := DEFAULT_QUEUE_SIZE, 0, 0;
      data := new Message[DEFAULT_QUEUE_SIZE](_ => init);
    }

    method Double()
      requires Valid() && (tail + 1) % size == head
      modifies this
      ensures Valid() && fresh(data) && Contents() == old(Contents()) && head == 0 && tail + 1 < size
    {
      Wrapped(tail + 1, size);
      var buffer := Copy();
      RingStart(buffer[..], size - 1);
      data := buffer;
      head := 0;
      tail := size - 1;
      size := size * 2;
    }

    method Copy() returns (buffer: array<Message>)
      requires Valid() && tail + 1 == if head == 0 then size else head
      ensures fresh(buffer) && buffer.Length == 2 * size && buffer[0..size - 1] == Contents()
    {
      var filler := data[0];
      buffer := new Message[size * 2](_ => filler);
      ghost var ring := data[..];
      RingAll(ring, head, tail);
      hide InRing;
      for i := 0 to size - 1
        invariant data[..] == ring && forall k :: 0 <= k < i ==> buffer[k] == InRing(ring, head, tail)[k]
      {
        Wrapped(i + head, size);
        buffer[i] := data[(i + head) % size];
      }
    }

    method Push(m: Message)
      requires Valid()
      modifies this, data
      ensures Valid() && (data == old(data) || fresh(data)) && Contents() == old(Contents()) + [m]
    {
      Wrapped(tail + 1, size);
      if (tail + 1) % size == head {
        Double();
        Wrapped(tail + 1, size);
      }
      Store(m);
    }

    method Store(m: Message)
      requires Valid() && (tail + 1) % size != head
      modifies this, data
      ensures Valid() && data == old(data) && Contents() == old(Contents()) + [m]
    {
      Wrapped(tail + 1, size);
      ghost var ring := data[..];
      data[tail] := m;
      tail := (tail + 1) % size;
      RingMore(ring, data[..], head, tail, m);
      hide InRing;
    }

    method Pop() returns (r: Option<Message>)
      requires Valid()
      modifies this
      ensures Valid() && data == old(data)
      ensures if old(Contents()) == [] then r == None && Contents() == [] else r == Some(old(Contents())[0]) && Contents() == old(Contents())[1..]
    {
      if head == tail {
        return None;
      }
      Wrapped(head + 1, size);
      r := Some(data[head]);
      head := (head + 1) % size;
    }
  }

  // ------------------------------------------------------------ a link

  datatype Status = Wait | Handshake | Header | Content | Down

  datatype Outcome = Written | Queued | Dropped

  class Link {
    const own: Byte              // the number of this harbor
    const id: Byte               // that of the peer
    var fd: nat
    var queue: MessageQueue?
    var status: Status
    var length: nat
    var read: nat
    var size: seq<Byte>          // the header, as far as it has come
    var recv: seq<Byte>          // the frame, as far as it has come
    var wire: seq<Byte>          // what was written to this fd
    var got: seq<seq<Byte>>      // the frames forwarded to local services
    ghost var sent: seq<Message> // the messages on the wire
    ghost var accepted: seq<Message>

    ghost predicate Valid()
      reads this, queue, if queue == null then {} else {queue.data}
    {
      |size| == 4 && (fd == 0 <==> status.Wait? || status.Down?) &&
      (queue != null ==> (status.Wait? || status.Handshake?) && queue.Valid()) &&
      accepted == sent + Waiting() &&
      (fd == 0 || status.Handshake? ==> sent == []) && (status.Down? ==> accepted == []) &&
      (fd != 0 ==> wire == [own] + Wires(sent)) &&
      (status.Wait? || status.Handshake? || status.Down? ==> read == 0 || size[0] != 0) &&
      Reading()
    }

    ghost predicate Reading()
      reads this`status, this`size, this`recv, this`read, this`length
    {
      |size| == 4 &&
      if status.Content? then |recv| == read && size[0] == 0 && length == Length(size) && (read < length || length == read == 0)
      else read < 4
    }

    ghost function Waiting(): seq<Message>
      reads this, queue, if queue == null then {} else {queue.data}
    {
      if queue == null || !queue.Valid() then [] else queue.Contents()
    }

    // The bytes of the unfinished frame.
    ghost function Pending(): seq<Byte>
      reads this
      requires Reading()
    {
      if status.Content? then size + recv else size[..read]
    }

    constructor (own: Byte, id: Byte)
      ensures Valid() && status.Wait? && accepted == [] && got == [] && Pending() == [] && queue == null
      ensures this.own == own && this.id == id
    {
      this.own, this.id := own, id;
      fd, queue, status, length, read := 0, null, Wait, 0, 0;
      size, recv, wire, got, sent, accepted := [0, 0, 0, 0], [], [], [], [], [];
    }

    lemma AllWritten()
      requires Valid() && (status.Header? || status.Content?)
      ensures wire == [own] + Wires(accepted)
    {
      assert accepted == sent;
    }

    // Reading leaves the rest of a link alone.
    twostate lemma StillValid()
      requires old(Valid() && (status.Header? || status.Content?)) && Reading() && (status.Header? || status.Content?)
      requires fd == old(fd) && queue == old(queue) && wire == old(wire) && sent == old(sent) && accepted == old(accepted)
      ensures Valid()
    {
    }

    // A new connection to the peer; 'S' waits for its number, 'A' has been told it.
    method Connect(fd1: nat, started: bool) returns (ok: bool)
      requires Valid() && fd1 != 0
      modifies this, queue
      ensures Valid() && ok == (old(fd) == 0) && got == old(got) && accepted == old(accepted)
      ensures ok ==> fd == fd1 && status == (if started then Handshake else Header) && Pending() == old(Pending())
      ensures queue == old(queue) || queue == null
      ensures !ok ==> status == old(status) && fd == old(fd) && wire == old(wire) && Pending() == old(Pending())
    {
      if fd != 0 {
        return false;
      }
      fd, wire, status := fd1, [own], Handshake;
      assert [own] + Wires([]) == [own];
      if !started {
        DispatchQueue();
      }
      ok := true;
    }

    // ---------------------------------------------------------- sending

    // Nothing that is accepted gets ahead of what was accepted before.
    method SendHandle(m: Message) returns (r: Outcome)
      requires Valid()
      modifies this`queue, this`wire, this`sent, this`accepted, queue, if queue == null then {} else {queue.data}
      ensures Valid()
      ensures r == if old(status).Down? then Dropped else if old(status).Wait? || old(status).Handshake? then Queued else Written
      ensures accepted == if r.Dropped? then old(accepted) else old(accepted) + [m]
      ensures wire == if r.Written? then old(wire) + Wire(m) else old(wire)
      ensures queue == old(queue) || fresh(queue)
      ensures queue != null ==> queue.data == old(if queue == null then null else queue.data) || fresh(queue.data)
    {
      hide Wire, Wires, InRing, Link.Reading;
      if fd == 0 || status.Handshake? {
        if status.Down? {
          return Dropped;
        }
        Enqueue(m);
        return Queued;
      }
      Put(m);
      accepted := accepted + [m];
      r := Written;
    }

    method Enqueue(m: Message)
      requires Valid() && (status.Wait? || status.Handshake?)
      modifies this`queue, this`accepted, queue, if queue == null then {} else {queue.data}
      ensures Valid() && accepted == old(accepted) + [m] && (queue == old(queue) || fresh(queue))
      ensures queue != null ==> queue.data == old(if queue == null then null else queue.data) || fresh(queue.data)
    {
      hide Wire, Wires, InRing, Link.Reading;
      if queue == null {
        queue := new MessageQueue(m);
      }
      assert accepted == sent + queue.Contents();
      queue.Push(m);
      accepted := accepted + [m];
      assert accepted == sent + queue.Contents();
    }

    // send_remote
    method Put(m: Message)
      requires wire == [own] + Wires(sent)
      modifies this`wire, this`sent
      ensures wire == [own] + Wires(sent) && wire == old(wire) + Wire(m) && sent == old(sent) + [m]
    {
      hide Wire;
      wire := wire + Wire(m);
      WiresMore(sent, m);
      sent := sent + [m];
    }

    // Once the peer is known what waits goes out, in order.
    method DispatchQueue()
      requires Valid() && status.Handshake?
      modifies this`queue, this`wire, this`sent, this`status, queue
      ensures Valid() && status.Header? && queue == null && sent == accepted && Pending() == old(Pending())
    {
      hide Wire, Wires, InRing;
      if queue != null {
        assert accepted == sent + queue.Contents();
        PutAll(queue);
      }
      queue := null;
      status := Header;
    }

    method PutAll(q: MessageQueue)
      requires q.Valid() && wire == [own] + Wires(sent)
      modifies this`wire, this`sent, q
      ensures wire == [own] + Wires(sent) && sent == old(sent + q.Contents())
    {
      hide Wire, Wires, MessageQueue.Valid, MessageQueue.Contents;
      ghost var left, all := q.Contents(), sent + q.Contents();
      var m := q.Pop();
      while m.Some?
        invariant q.Valid() && q.data == old(q.data) && wire == [own] + Wires(sent)
        invariant all == sent + left && if m.Some? then left != [] && m.value == left[0] && q.Contents() == left[1..] else left == []
        decreases |left|
      {
        Put(m.value);
        m := q.Pop();
        left := left[1..];
      }
    }

    // ---------------------------------------------------------- receiving

    method Close()
      requires Reading() && !status.Content? && (read == 0 || size[0] != 0)
      modifies this`status, this`fd, this`queue, this`sent, this`accepted
      ensures Valid() && status.Down? && queue == null && Pending() == old(Pending())
    {
      status, fd, queue := Down, 0, null;
      sent, accepted := [], [];
    }

    // Bytes of the header; true when it is complete.
    method TakeHeader(buffer: seq<Byte>) returns (rest: seq<Byte>, done: bool)
      requires Reading() && status.Header?
      modifies this`size, this`read
      ensures |size| == 4 && (done ==> |rest| < |buffer|)
      ensures if done then size + rest == old(Pending()) + buffer && Reading() && Pending() == old(Pending())
              else Reading() && Pending() == old(Pending()) + buffer && |Pending()| < 4
    {
      var need := 4 - read;
      if |buffer| < need {
        size := size[..read] + buffer + size[read + |buffer|..];
        read := read + |buffer|;
        return [], false;
      }
      size := size[..read] + buffer[..need];
      assert buffer == buffer[..need] + buffer[need..];
      return buffer[need..], true;
    }

    // Bytes of the frame; true when it is complete and was forwarded.
    method TakeContent(buffer: seq<Byte>) returns (rest: seq<Byte>, done: bool)
      requires Reading() && status.Content? && buffer != []
      modifies this`recv, this`read, this`length, this`got, this`status
      ensures Reading() && |rest| <= |buffer|
      ensures done ==> FrameTaken(old(Pending()) + buffer, old(got), got, rest) && status.Header? && Pending() == []
      ensures !done ==> status.Content? && got == old(got) && Pending() == old(Pending()) + buffer && Waits(Pending())
    {
      ghost var s := Pending() + buffer;
      assert Length(s) == Length(size) && s[0] == size[0];
      hide Length;
      var need := length - read;
      if |buffer| < need {
        recv := recv + buffer;
        read := read + |buffer|;
        assert Pending() == s;
        return [], false;
      }
      FrameOf(size, recv, buffer, need);
      got := got + [recv + buffer[..need]];
      length, read, recv := 0, 0, [];
      status := Header;
      return buffer[need..], true;
    }

    static ghost predicate FrameTaken(s: seq<Byte>, before: seq<seq<Byte>>, after: seq<seq<Byte>>, rest: seq<Byte>) {
      !Waits(s) && s[0] == 0 && after == before + [s[4..4 + Length(s)]] && rest == s[4 + Length(s)..]
    }

    // A chunk of the stream.  The first byte of all is the number of the peer.
    method PushSocketData(chunk: seq<Byte>)
      requires Valid() && chunk != []
      modifies this, queue
      ensures Valid()
      ensures old(status).Wait? || old(status).Down? ==> got == old(got) && status == old(status)
      ensures old(status).Handshake? && chunk[0] != id ==> status.Down? && got == old(got) && Pending() == old(Pending())
      ensures old(status).Header? || old(status).Content? || (old(status).Handshake? && chunk[0] == id) ==>
        var p := Parse(old(Pending()) + if old(status).Handshake? then chunk[1..] else chunk);
        got == old(got) + p.frames &&
        if p.bad then status.Down? && Pending() == if p.frames == [] then old(Pending()) else []
        else (status.Header? || status.Content?) && Pending() == p.rest && accepted == old(accepted) && sent == accepted
    {
      var buffer := chunk;
      if status.Handshake? {
        if buffer[0] != id {
          Close();
          return;
        }
        buffer := buffer[1..];
        DispatchQueue();
      }
      if status.Header? || status.Content? {
        ReadFrames(buffer);
      }
    }

    method ReadFrames(chunk: seq<Byte>)
      requires Valid() && (status.Header? || (status.Content? && chunk != []))
      modifies this
      ensures Valid() && var p := Parse(old(Pending()) + chunk);
        got == old(got) + p.frames &&
        if p.bad then status.Down? && Pending() == if p.frames == [] then old(Pending()) else []
        else (status.Header? || status.Content?) && Pending() == p.rest && accepted == old(accepted) && sent == accepted
    {
      hide Parse, Before, Waits, Length, Wires, InRing;
      ghost var s := Pending() + chunk;
      var buffer := chunk;
      while true
        invariant Valid() && (status.Header? || (status.Content? && buffer != []))
        invariant accepted == old(accepted) && sent == accepted
        invariant (got == old(got) && Pending() == old(Pending())) || (Pending() == [] && |got| > |old(got)|)
        invariant Before(old(got), Parse(s)) == Before(got, Parse(Pending() + buffer))
        decreases |buffer|, status.Content?
      {
        BeforeIs(old(got), Parse(s));
        var more := Turn(buffer);
        if more.None? {
          return;
        }
        buffer := more.value;
      }
    }

    // The header; what follows it, when that is not empty.
    method HeaderTurn(chunk: seq<Byte>) returns (body: Option<seq<Byte>>)
      requires Valid() && Reading() && sent == accepted && status.Header?
      modifies this
      ensures Valid() && Reading() && got == old(got) && (status.Down? || (accepted == old(accepted) && sent == accepted))
      ensures body.Some? ==> status.Content? && body.value != [] && |body.value| < |chunk| && Pending() + body.value == old(Pending()) + chunk
      ensures body.None? ==> status.Down? || status.Header? || status.Content?
      ensures status.Down? ==> Pending() == old(Pending())
      ensures body.None? ==>
        Before(got, Parse(old(Pending()) + chunk)) == Parsed(got, if status.Down? then [] else Pending(), status.Down?)
    {
      hide Parse, Before, Waits, Length, Wires, InRing, Link.Valid;
      var rest, done := TakeHeader(chunk);
      if !done {
        Short(got, Pending());
        StillValid();
        return None;
      }
      if size[0] != 0 {
        TooLong(got, size, rest);
        Close();
        return None;
      }
      length, read, recv, status := Length(size), 0, [], Content;
      assert Pending() == size;
      StillValid();
      if rest == [] {
        HeaderOnly(got, size);
        assert size + rest == size;
        return None;
      }
      body := Some(rest);
    }

    // One turn of the loop: at most one frame.
    method Turn(chunk: seq<Byte>) returns (more: Option<seq<Byte>>)
      requires Valid() && Reading() && sent == accepted && (status.Header? || (status.Content? && chunk != []))
      modifies this
      ensures Valid() && Reading() && (status.Down? || (accepted == old(accepted) && sent == accepted))
      ensures more.Some? ==> Pending() == [] && |got| > |old(got)|
      ensures status.Down? ==> Pending() == old(Pending()) && got == old(got)
      ensures more.Some? ==> status.Header? && (|more.value| < |chunk| || (|more.value| == |chunk| && old(status).Content?))
      ensures more.Some? ==> Before(old(got), Parse(old(Pending()) + chunk)) == Before(got, Parse(Pending() + more.value))
      ensures more.None? ==> status.Down? || status.Header? || status.Content?
      ensures more.None? ==>
        Before(old(got), Parse(old(Pending()) + chunk)) == Parsed(got, if status.Down? then [] else Pending(), status.Down?)
    {
      hide Parse, Before, Waits, Length, Wires, InRing, Link.Valid;
      ghost var s := Pending() + chunk;
      var buffer := chunk;
      if status.Header? {
        var body := HeaderTurn(buffer);
        if body.None? {
          return None;
        }
        buffer := body.value;
      }
      label reading:
      var rest, done := TakeContent(buffer);
      StillValid@reading();
      if !done {
        Unfinished(got, s);
        return None;
      }
      OneFrame(old(got), s, got, rest);
      assert Pending() + rest == rest;
      if rest == [] {
        Short(got, rest);
        return None;
      }
      more := Some(rest);
    }
  }

  lemma FrameOf(size: seq<Byte>, recv: seq<Byte>, buffer: seq<Byte>, need: nat)
    requires |size| == 4 && need <= |buffer|
    ensures var s, n := size + recv + buffer, 4 + |recv| + need; s[4..n] == recv + buffer[..need] && s[n..] == buffer[need..]
  {
  }

  lemma BeforeIs(got: seq<seq<Byte>>, p: Parsed)
    ensures Before(got, p) == Parsed(got + p.frames, p.rest, p.bad)
  {
  }

  lemma Unfinished(got: seq<seq<Byte>>, s: seq<Byte>)
    requires Waits(s)
    ensures Before(got, Parse(s)) == Parsed(got, s, false)
  {
    assert got + [] == got;
  }

  lemma Short(got: seq<seq<Byte>>, s: seq<Byte>)
    requires |s| < 4
    ensures Before(got, Parse(s)) == Parsed(got, s, false)
  {
    assert got + [] == got;
  }

  lemma HeaderOnly(got: seq<seq<Byte>>, s: seq<Byte>)
    requires |s| == 4 && s[0] == 0
    ensures Before(got, Parse(s)) == Parsed(got, s, false)
  {
    assert got + [] == got;
  }

  lemma TooLong(got: seq<seq<Byte>>, size: seq<Byte>, rest: seq<Byte>)
    requires |size| == 4 && size[0] != 0
    ensures Before(got, Parse(size + rest)) == Parsed(got, [], true)
  {
    assert got + [] == got && (size + rest)[0] == size[0];
  }

  lemma OneFrame(before: seq<seq<Byte>>, s: seq<Byte>, got: seq<seq<Byte>>, rest: seq<Byte>)
    requires Link.FrameTaken(s, before, got, rest)
    ensures Before(before, Parse(s)) == Before(got, Parse(rest))
  {
    BeforeTwice(before, [s[4..4 + Length(s)]], Parse(rest));
  }

  lemma WiresMore(ms: seq<Message>, m: Message)
    ensures Wires(ms + [m]) == Wires(ms) + Wire(m)
  {
    assert (ms + [m])[..|ms|] == ms;
  }

  // After a link was closed for a length that was too long, what had come of that
  // length is still there: if it is any byte, nothing gets through a new connection.
  lemma StaleHeader(p: seq<Byte>, s: seq<Byte>)
    requires 0 < |p| < 4 && p[0] != 0
    ensures Parse(p + s).frames == [] && (|p| + |s| >= 4 ==> Parse(p + s).bad)
  {
    assert (p + s)[0] == p[0];
  }

  // So a link that is connected again works if and only if nothing is left.
  lemma StaleIff(p: seq<Byte>)
    requires |p| < 4 && (p != [] ==> p[0] != 0)
    ensures (forall s :: Parse(p + s).frames == Parse(s).frames) <==> p == []
  {
    if p == [] {
      forall s ensures Parse(p + s).frames == Parse(s).frames {
        assert [] + s == s;
      }
    } else {
      var m := Message(Cookie(0, 0, 0), []);
      OneWire(m);
      StaleHeader(p, Wire(m));
      assert Parse(p + Wire(m)).frames == [] != Parse(Wire(m)).frames;
    }
  }

  // A run to such a link: a length that starts with 1 comes in two pieces.
  method BadLength(own: Byte, peer: Byte) returns (a: Link)
    ensures fresh(a) && a.Valid() && a.status.Down? && a.Pending() == [1] && a.got == [] && a.queue == null
  {
    hide Parse, Wires, InRing;
    a := new Link(own, peer);
    var ok := a.Connect(1, false);
    OneByte();
    a.PushSocketData([1]);
    assert a.Pending() == [1];
    StaleHeader([1], [0, 0, 0]);
    a.PushSocketData([0, 0, 0]);
  }

  // Nothing gets through the next connection of a link that was closed with bytes of
  // a length left.
  method NothingThrough(a: Link, fd: nat, started: bool, chunks: seq<seq<Byte>>)
    requires a.Valid() && a.status.Down? && a.Pending() != [] && a.queue == null && fd != 0
    requires forall k :: 0 <= k < |chunks| ==> chunks[k] != []
    modifies a
    ensures a.Valid() && a.got == old(a.got)
  {
    hide Parse, Wires, InRing;
    var ok := a.Connect(fd, started);
    for k := 0 to |chunks|
      invariant a.Valid() && a.got == old(a.got) && a.queue == null
      invariant a.status.Down? || ((a.status.Header? || a.status.Handshake?) && 0 < |a.Pending()| < 4 && a.Pending()[0] != 0)
    {
      if a.status.Header? || a.status.Handshake? {
        ghost var more := if a.status.Handshake? then chunks[k][1..] else chunks[k];
        StaleHeader(a.Pending(), more);
        StaleRest(a.Pending() + more);
      }
      a.PushSocketData(chunks[k]);
    }
  }

  // The two together.
  method StaleRun(own: Byte, peer: Byte, chunks: seq<seq<Byte>>) returns (a: Link)
    requires forall k :: 0 <= k < |chunks| ==> chunks[k] != []
    ensures a.Valid() && a.got == []
  {
    a := BadLength(own, peer);
    NothingThrough(a, 2, false, chunks);
  }

  lemma OneByte()
    ensures Parse([1]) == Parsed([], [1], false) && [] + [1] == [1 as Byte]
  {
  }

  lemma StaleRest(s: seq<Byte>)
    requires s != [] && s[0] != 0
    ensures |s| < 4 ==> Parse(s) == Parsed([], s, false)
  {
  }

  // What a link has written when it was connected in the midst of its messages.
  method Send(own: Byte, peer: Byte, ms: seq<Message>, before: nat) returns (wire: seq<Byte>)
    requires before <= |ms|
    ensures wire == [own] + Wires(ms)
  {
    hide Wires, Wire, InRing, Link.Valid;
    var a := new Link(own, peer);
    for i := 0 to |ms|
      invariant fresh(a) && a.Valid() && a.accepted == ms[..i] && a.own == own
      invariant a.queue == null || (fresh(a.queue) && fresh(a.queue.data))
      invariant if i <= before then a.status.Wait? else a.status.Header?
    {
      if i == before {
        var ok := a.Connect(1, false);
      }
      var r := a.SendHandle(ms[i]);
      assert ms[..i + 1] == ms[..i] + [ms[i]];
    }
    if before == |ms| {
      var ok := a.Connect(1, false);
    }
    assert ms[..|ms|] == ms;
    a.AllWritten();
    return a.wire;
  }

  // What the peer makes of it, cut anywhere.
  method Receive(own: Byte, peer: Byte, wire: seq<Byte>, cuts: seq<nat>) returns (got: seq<seq<Byte>>)
    requires wire != [] && wire[0] == own && !Parse(wire[1..]).bad
    ensures got == Parse(wire[1..]).frames
  {
    hide Parse, Wires, InRing, Before;
    var b := new Link(peer, own);
    var ok := b.Connect(1, true);
    var at, k := 0, 0;
    Empty();
    while at < |wire|
      invariant fresh(b) && b.Valid() && b.id == own && b.queue == null && at <= |wire|
      invariant at == 0 ==> b.status.Handshake? && b.got == [] && b.Pending() == []
      invariant at > 0 ==> (b.status.Header? || b.status.Content?) && Parse(wire[1..at]) == Parsed(b.got, b.Pending(), false)
    {
      var left := |wire| - at;
      var n := if k < |cuts| && 0 < cuts[k] < left then cuts[k] else left;
      Prefix(wire, at, n, b.got, if at == 0 then [] else b.Pending());
      ghost var pending, got0, chunk := b.Pending(), b.got, wire[at..at + n];
      assert at == 0 ==> chunk[1..] == wire[1..n] && chunk[0] == own;
      BeforeIs(got0, Parse(pending + if at == 0 then chunk[1..] else chunk));
      b.PushSocketData(wire[at..at + n]);
      at, k := at + n, k + 1;
    }
    assert wire[1..at] == wire[1..];
    got := b.got;
  }

  // Going on from a prefix of the wire.
  lemma Prefix(wire: seq<Byte>, at: nat, n: nat, got: seq<seq<Byte>>, pending: seq<Byte>)
    requires 0 < n && at + n <= |wire| && !Parse(wire[1..]).bad
    requires at > 0 ==> Parse(wire[1..at]) == Parsed(got, pending, false)
    requires at == 0 ==> got == [] && pending == []
    ensures var chunk := if at == 0 then wire[1..n] else wire[at..at + n];
      !Parse(pending + chunk).bad && Parse(wire[1..at + n]) == Before(got, Parse(pending + chunk))
  {
    hide Parse;
    var a, b := wire[1..at + n], wire[at + n..];
    assert a + b == wire[1..];
    ParseSplit(a, b);
    if at == 0 {
      assert [] + a == a;
      BeforeTwice([], [], Parse(a));
    } else {
      assert a == wire[1..at] + wire[at..at + n];
      ParseSplit(wire[1..at], wire[at..at + n]);
    }
  }

  // Messages sent before and after the connection arrive once each and in order,
  // however the bytes are cut.
  method Carry(own: Byte, peer: Byte, ms: seq<Message>, before: nat, cuts: seq<nat>) returns (got: seq<seq<Byte>>)
    requires before <= |ms| && forall k :: 0 <= k < |ms| ==> Small(ms[k])
    ensures got == Bodies(ms)
  {
    var wire := Send(own, peer, ms, before);
    WiresBack(ms);
    assert wire[1..] == Wires(ms);
    got := Receive(own, peer, wire, cuts);
  }

  // ------------------------------------------------------------ the bytes

  // Four bytes from place k on, the highest first.
  function Big(s: seq<Byte>, k: nat): nat
    requires k + 4 <= |s|
  {
    var a: int, b: int, c: int, d: int := s[k], s[k + 1], s[k + 2], s[k + 3];
    a * 0x100_0000 + b * 0x1_0000 + c * 0x100 + d
  }

  lemma BigIs(n: Word)
    ensures Big(ToBigEndian(n), 0) == n
  {
  }

  // A message on the wire: the length of all that follows, the data, and the source, the
  // destination and the session of its cookie.
  lemma WireBytes(m: Message)
    requires |m.buffer| + 12 < 0x1_0000_0000
    ensures var w, n := Wire(m), |m.buffer|;
      && |w| == n + 16 && Big(w, 0) == n + 12 && w[4..4 + n] == m.buffer
      && Big(w, n + 4) == m.cookie.source && Big(w, n + 8) == m.cookie.destination && Big(w, n + 12) == m.cookie.session
  {
    var n := |m.buffer|;
    BigIs(n + 12);
    BigIs(m.cookie.source);
    BigIs(m.cookie.destination);
    BigIs(m.cookie.session);
    var a, b, c, d := ToBigEndian(n + 12), ToBigEndian(m.cookie.source), ToBigEndian(m.cookie.destination), ToBigEndian(m.cookie.session);
    hide ToBigEndian;
    var w := Wire(m);
    assert w == a + (m.buffer + (b + c + d));
    assert w[4..4 + n] == m.buffer;
    BigAt(w, 0, a);
    BigAt(w, n + 4, b);
    BigAt(w, n + 8, c);
    BigAt(w, n + 12, d);
  }

  lemma BigAt(w: seq<Byte>, k: nat, b: seq<Byte>)
    requires k + 4 <= |w| && |b| == 4 && w[k] == b[0] && w[k + 1] == b[1] && w[k + 2] == b[2] && w[k + 3] == b[3]
    ensures Big(w, k) == Big(b, 0)
  {
  }

  // A frame is read like that; from 16M on it is an error.
  lemma FrameIs(s: seq<Byte>)
    requires |s| > 4
    ensures Big(s, 0) >= 0x100_0000 ==> Parse(s).bad
    ensures Big(s, 0) < 0x100_0000 && |s| - 4 < Big(s, 0) ==> Parse(s) == Parsed([], s, false)
    ensures Big(s, 0) < 0x100_0000 && |s| - 4 >= Big(s, 0) ==>
      var n := 4 + Big(s, 0); Parse(s) == Before([s[4..n]], Parse(s[n..]))
  {
    BigLength(s);
    hide Length, Big;
  }

  lemma BigLength(s: seq<Byte>)
    requires |s| >= 4
    ensures Big(s, 0) >= 0x100_0000 <==> s[0] != 0
    ensures s[0] == 0 ==> Big(s, 0) == Length(s)
  {
  }
}
