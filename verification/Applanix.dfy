/** Packet framing of the Applanix position stream. */
module Applanix {

  type Byte = b: int | 0 <= b < 256

  const CAPACITY := 6000
  const HEADER := 8
  type Errno = e: int | e != 0 witness 11
  const EAGAIN: Errno := 11
  const EINTR: Errno := 4

  /** Whole length of the packet whose header starts the bytes: the count excludes the header. */
  function PacketLength(b: seq<Byte>): (n: int)
    requires |b| >= HEADER
    ensures n >= HEADER
  {
    var lo: int, hi: int := b[6], b[7];
    lo + 256 * hi + HEADER
  }

  function GroupNumber(b: seq<Byte>): int
    requires |b| >= HEADER
  {
    var lo: int, hi: int := b[4], b[5];
    lo + 256 * hi
  }

  predicate HasPacket(b: seq<Byte>) { |b| >= HEADER && |b| >= PacketLength(b) }

  // ---------------------------------------------------------------- framing of a byte stream

  /** The packets that the headers cut from a byte stream. */
  function Packets(b: seq<Byte>): seq<seq<Byte>>
    decreases |b|
  {
    if HasPacket(b) then [b[..PacketLength(b)]] + Packets(b[PacketLength(b)..]) else []
  }

  /** The incomplete packet at the end. */
  function Leftover(b: seq<Byte>): seq<Byte>
    decreases |b|
  {
    if HasPacket(b) then Leftover(b[PacketLength(b)..]) else b
  }

  function Flatten(ps: seq<seq<Byte>>): seq<Byte> {
    if ps == [] then [] else ps[0] + Flatten(ps[1..])
  }

  /** Exactly one packet: as long as its header says. */
  predicate IsPacket(p: seq<Byte>) { |p| >= HEADER && |p| == PacketLength(p) }

  ghost predicate AllPackets(ps: seq<seq<Byte>>) { forall p :: p in ps ==> IsPacket(p) }

  lemma {:induction false} FlattenAppend(ps: seq<seq<Byte>>, p: seq<Byte>)
    ensures Flatten(ps + [p]) == Flatten(ps) + p
  {
    if ps == [] {
      assert [p][1..] == [];
    } else {
      FlattenAppend(ps[1..], p);
      assert (ps + [p])[1..] == ps[1..] + [p];
    }
  }

  lemma PacketSplits(p: seq<Byte>, rest: seq<Byte>)
    requires IsPacket(p)
    ensures Packets(p + rest) == [p] + Packets(rest) && Leftover(p + rest) == Leftover(rest)
  {
    var b := p + rest;
    assert b[6] == p[6] && b[7] == p[7];
    assert b[..|p|] == p && b[|p|..] == rest;
  }

  lemma AppendAssociates(a: seq<Byte>, b: seq<Byte>, c: seq<Byte>)
    ensures (a + b) + c == a + (b + c)
  {
  }

  lemma FrameFirst(p: seq<Byte>, tail: seq<Byte>, rest: seq<Byte>, qs: seq<seq<Byte>>)
    requires IsPacket(p) && Packets(tail + rest) == qs + Packets(rest) && Leftover(tail + rest) == Leftover(rest)
    ensures Packets((p + tail) + rest) == ([p] + qs) + Packets(rest)
    ensures Leftover((p + tail) + rest) == Leftover(rest)
  {
    AppendAssociates(p, tail, rest);
    PacketSplits(p, tail + rest);
    assert [p] + (qs + Packets(rest)) == ([p] + qs) + Packets(rest);
  }

  /** Packets taken off one by one, with what remains, are the framing of the whole stream. */
  lemma {:induction false} FramingIsUnique(ps: seq<seq<Byte>>, rest: seq<Byte>)
    requires AllPackets(ps)
    ensures Packets(Flatten(ps) + rest) == ps + Packets(rest)
    ensures Leftover(Flatten(ps) + rest) == Leftover(rest)
  {
    if ps == [] {
      assert Flatten(ps) + rest == rest;
    } else {
      FramingIsUnique(ps[1..], rest);
      assert IsPacket(ps[0]);
      FrameFirst(ps[0], Flatten(ps[1..]), rest, ps[1..]);
      assert [ps[0]] + ps[1..] == ps;
    }
  }

  /**
   * Chunking does not matter: two receivers of the same bytes that both wait for more have
   * delivered the same packets and hold the same bytes.
   */
  lemma ChunkingDoesNotMatter(ps: seq<seq<Byte>>, rest: seq<Byte>, qs: seq<seq<Byte>>, rest': seq<Byte>)
    requires AllPackets(ps) && AllPackets(qs) && !HasPacket(rest) && !HasPacket(rest')
    requires Flatten(ps) + rest == Flatten(qs) + rest'
    ensures ps == qs && rest == rest'
  {
    FramingIsUnique(ps, rest);
    FramingIsUnique(qs, rest');
    assert ps + [] == ps && qs + [] == qs;
  }

  /** No packet of the stream is longer than the buffer, nor what there is of the one at its end. */
  ghost predicate Bounded(stream: seq<Byte>) {
    (forall p :: p in Packets(stream) ==> |p| <= CAPACITY) && |Leftover(stream)| <= CAPACITY
  }

  // ---------------------------------------------------------------- the socket

  /** What the socket will answer: data, or a failed call. */
  datatype Arrival = Chunk(bytes: seq<Byte>, time: real) | Fault(errno: Errno)

  function Remaining(arrivals: seq<Arrival>): seq<Byte> {
    if arrivals == [] then []
    else (match arrivals[0] case Chunk(bytes, _) => bytes case Fault(_) => []) + Remaining(arrivals[1..])
  }

  /** Arrivals and bytes still to come. */
  function Backlog(arrivals: seq<Arrival>): nat {
    if arrivals == [] then 0
    else 1 + (match arrivals[0] case Chunk(bytes, _) => |bytes| case Fault(_) => 0) + Backlog(arrivals[1..])
  }

  datatype Received = Got(bytes: seq<Byte>, time: real) | Failed(errno: Errno)

  /** One recv call for at most space bytes: what it returns and what then remains to arrive. */
  function Recv(arrivals: seq<Arrival>, space: nat): (Received, seq<Arrival>) {
    if arrivals == [] then (Failed(EAGAIN), [])
    else if space == 0 then (Got([], 0.0), arrivals)
    else
      match arrivals[0]
      case Fault(e) => (Failed(e), arrivals[1..])
      case Chunk(bytes, time) =>
        if |bytes| <= space then (Got(bytes, time), arrivals[1..])
        else (Got(bytes[..space], time), [Chunk(bytes[space..], time)] + arrivals[1..])
  }

  ghost predicate Conserves(arrivals: seq<Arrival>, space: nat, r: Received, rest: seq<Arrival>) {
    && (r.Got? ==> r.bytes + Remaining(rest) == Remaining(arrivals) && |r.bytes| <= space)
    && (r.Failed? ==> Remaining(rest) == Remaining(arrivals))
    && Backlog(rest) <= Backlog(arrivals)
    && (arrivals != [] && (space > 0 || r.Failed?) ==> Backlog(rest) < Backlog(arrivals))
  }

  lemma SplitChunk(arrivals: seq<Arrival>, space: nat)
    requires arrivals != [] && space > 0 && arrivals[0].Chunk? && |arrivals[0].bytes| > space
    ensures var (r, rest) := Recv(arrivals, space); Conserves(arrivals, space, r, rest)
  {
    var bytes := arrivals[0].bytes;
    var rest := [Chunk(bytes[space..], arrivals[0].time)] + arrivals[1..];
    assert rest[1..] == arrivals[1..];
    assert bytes == bytes[..space] + bytes[space..];
    AppendAssociates(bytes[..space], bytes[space..], Remaining(arrivals[1..]));
  }

  lemma RecvConserves(arrivals: seq<Arrival>, space: nat)
    ensures var (r, rest) := Recv(arrivals, space); Conserves(arrivals, space, r, rest)
  {
    if arrivals != [] && space > 0 && arrivals[0].Chunk? && |arrivals[0].bytes| > space {
      SplitChunk(arrivals, space);
    } else {
      assert [] + Remaining(arrivals) == Remaining(arrivals);
      if arrivals != [] { assert [] + Remaining(arrivals[1..]) == Remaining(arrivals[1..]); }
    }
  }

  /** What recv answers when it is called again while it is interrupted. */
  function Retried(arrivals: seq<Arrival>, space: nat): (Received, seq<Arrival>)
    decreases Backlog(arrivals)
  {
    RecvConserves(arrivals, space);
    var (r, rest) := Recv(arrivals, space);
    if r == Failed(EINTR) then Retried(rest, space) else (r, rest)
  }

  lemma {:induction false} RetriedConserves(arrivals: seq<Arrival>, space: nat)
    ensures var (r, rest) := Retried(arrivals, space); Conserves(arrivals, space, r, rest) && r != Failed(EINTR)
    decreases Backlog(arrivals)
  {
    RecvConserves(arrivals, space);
    var (r, rest) := Recv(arrivals, space);
    if r == Failed(EINTR) { RetriedConserves(rest, space); }
  }

  /** recv, called again while it is interrupted. */
  method RecvRetry(arrivals: seq<Arrival>, space: nat) returns (r: Received, rest: seq<Arrival>)
    ensures (r, rest) == Retried(arrivals, space)
    ensures Conserves(arrivals, space, r, rest) && r != Failed(EINTR)
  {
    RecvConserves(arrivals, space);
    var t := Recv(arrivals, space);
    r, rest := t.0, t.1;
    while r == Failed(EINTR)
      invariant Retried(arrivals, space) == if r == Failed(EINTR) then Retried(rest, space) else (r, rest)
      decreases Backlog(rest) + if r == Failed(EINTR) then 1 else 0
    {
      RecvConserves(rest, space);
      t := Recv(rest, space);
      r, rest := t.0, t.1;
    }
    RetriedConserves(arrivals, space);
  }

  // ---------------------------------------------------------------- reading until a packet is there

  /** How reading ends: its status, the buffer, what is still to arrive, and the time it notes. */
  datatype Reading = Reading(rc: int, buffer: seq<Byte>, arrivals: seq<Arrival>, time: real)

  /** Read once into the free part of the buffer; the time changes if anything came. */
  function ReadOnce(buffer: seq<Byte>, arrivals: seq<Arrival>, time: real): (t: Reading)
    requires |buffer| <= CAPACITY
    ensures |t.buffer| <= CAPACITY && (t.rc == 0 ==> Backlog(t.arrivals) < Backlog(arrivals))
  {
    RetriedConserves(arrivals, CAPACITY - |buffer|);
    var (r, rest) := Retried(arrivals, CAPACITY - |buffer|);
    match r
    case Failed(e) => Reading(e, buffer, rest, time)
    case Got(bytes, now) => if bytes == [] then Reading(EAGAIN, buffer, rest, time) else Reading(0, buffer + bytes, rest, now)
  }

  /** Read until the buffer starts with a whole packet, or nothing more can be had for now. */
  function Fill(buffer: seq<Byte>, arrivals: seq<Arrival>, time: real): Reading
    requires |buffer| <= CAPACITY
    decreases Backlog(arrivals)
  {
    if HasPacket(buffer) then Reading(0, buffer, arrivals, time)
    else
      var t := ReadOnce(buffer, arrivals, time);
      if t.rc != 0 then t else Fill(t.buffer, t.arrivals, t.time)
  }

  lemma ReadConserves(buffer: seq<Byte>, arrivals: seq<Arrival>, time: real)
    requires |buffer| <= CAPACITY
    ensures var t := ReadOnce(buffer, arrivals, time);
      && t.buffer + Remaining(t.arrivals) == buffer + Remaining(arrivals)
      && Backlog(t.arrivals) <= Backlog(arrivals)
      && (t.rc != 0 ==> t.buffer == buffer)
      && (t.rc != 0 && arrivals != [] && |buffer| < CAPACITY ==> Backlog(t.arrivals) < Backlog(arrivals))
  {
    RetriedConserves(arrivals, CAPACITY - |buffer|);
    var (r, rest) := Retried(arrivals, CAPACITY - |buffer|);
    if r.Got? {
      assert r.bytes == [] ==> r.bytes + Remaining(rest) == Remaining(rest);
      AppendAssociates(buffer, r.bytes, Remaining(rest));
    }
  }

  /** Nothing is lost, and a failure leaves fewer arrivals unless the buffer is full. */
  ghost predicate Fills(buffer: seq<Byte>, arrivals: seq<Arrival>, r: Reading) {
    && |r.buffer| <= CAPACITY && r.buffer + Remaining(r.arrivals) == buffer + Remaining(arrivals)
    && (r.rc == 0 <==> HasPacket(r.buffer))
    && Backlog(r.arrivals) <= Backlog(arrivals)
    && (r.rc != 0 && arrivals != [] && |buffer| < CAPACITY ==> Backlog(r.arrivals) < Backlog(arrivals))
  }

  lemma {:induction false} FillFacts(buffer: seq<Byte>, arrivals: seq<Arrival>, time: real)
    requires |buffer| <= CAPACITY
    ensures Fills(buffer, arrivals, Fill(buffer, arrivals, time))
    decreases Backlog(arrivals)
  {
    if !HasPacket(buffer) {
      ReadConserves(buffer, arrivals, time);
      var t := ReadOnce(buffer, arrivals, time);
      if t.rc == 0 { FillFacts(t.buffer, t.arrivals, t.time); }
    }
  }

  /** A full buffer without a whole packet stays as it is for ever. */
  lemma FullStaysFull(buffer: seq<Byte>, arrivals: seq<Arrival>, time: real)
    requires |buffer| == CAPACITY && !HasPacket(buffer) && arrivals != []
    ensures Fill(buffer, arrivals, time) == Reading(EAGAIN, buffer, arrivals, time)
  {}

  /** Moving a packet from the buffer to those delivered keeps the stream together. */
  lemma PacketMoves(ps: seq<seq<Byte>>, b: seq<Byte>, n: nat, rest: seq<Byte>)
    requires n <= |b|
    ensures Flatten(ps + [b[..n]]) + (b[n..] + rest) == Flatten(ps) + (b + rest)
    ensures |Flatten(ps + [b[..n]])| == |Flatten(ps)| + n
  {
    FlattenAppend(ps, b[..n]);
    assert b == b[..n] + b[n..];
    AppendAssociates(b[..n], b[n..], rest);
    AppendAssociates(Flatten(ps), b[..n], b[n..] + rest);
  }

  // ---------------------------------------------------------------- the device

  class Device {
    const packetBuffer: array<Byte>
    var bufferLength: nat
    var arrivals: seq<Arrival>
    var time: real
    ghost const stream: seq<Byte>            // every byte that will ever arrive
    ghost var delivered: seq<seq<Byte>>      // every packet delivered so far
    ghost var lastRead: real                 // when bytes were read last

    constructor (arrivals: seq<Arrival>)
      ensures Valid() && this.arrivals == arrivals && Buffer() == [] && delivered == [] && fresh(packetBuffer)
      ensures stream == Remaining(arrivals) && time == 0.0
    {
      packetBuffer := new Byte[CAPACITY](_ => 0);
      bufferLength, time, delivered, lastRead := 0, 0.0, [], 0.0;
      this.arrivals, stream := arrivals, Remaining(arrivals);
    }

    ghost predicate Valid() reads this, packetBuffer {
      && packetBuffer.Length == CAPACITY && bufferLength <= CAPACITY
      && AllPackets(delivered) && (forall p :: p in delivered ==> |p| <= CAPACITY)
      && Flatten(delivered) + (Buffer() + Remaining(arrivals)) == stream
    }

    ghost function Buffer(): seq<Byte>
      requires packetBuffer.Length == CAPACITY && bufferLength <= CAPACITY
      reads this, packetBuffer
    {
      packetBuffer[..bufferLength]
    }

    /** Read once into the free part of the buffer, and note the time if anything came. */
    method ReadPacket(time: real) returns (rc: int, when: real)
      requires Valid()
      modifies this`bufferLength, this`arrivals, this`lastRead, packetBuffer
      ensures Valid() && Reading(rc, Buffer(), arrivals, when) == old(ReadOnce(Buffer(), arrivals, time))
      ensures if rc == 0 then when == lastRead else lastRead == old(lastRead)
    {
      ReadConserves(Buffer(), arrivals, time);
      var r, rest := RecvRetry(arrivals, CAPACITY - bufferLength);
      arrivals := rest;
      if r.Failed? { return r.errno, time; }
      if r.bytes == [] { return EAGAIN, time; }
      Store(r.bytes);
      lastRead := r.time;
      return 0, r.time;
    }

    method Store(bytes: seq<Byte>)
      requires packetBuffer.Length == CAPACITY && bufferLength + |bytes| <= CAPACITY
      modifies this`bufferLength, packetBuffer
      ensures bufferLength <= CAPACITY && Buffer() == old(Buffer()) + bytes
    {
      var at := bufferLength;
      forall i | 0 <= i < |bytes| { packetBuffer[at + i] := bytes[i]; }
      bufferLength := bufferLength + |bytes|;
    }

    /** All of the stream's packets are out and its unfinished end is in the buffer. */
    ghost predicate Complete() reads this, packetBuffer
      requires Valid()
    {
      delivered == Packets(stream) && Buffer() == Leftover(stream)
    }

    /** The buffer is full, has no whole packet, and bytes are still to come. */
    ghost predicate Stalled() reads this, packetBuffer
      requires Valid()
    {
      bufferLength == CAPACITY && !HasPacket(Buffer()) && Remaining(arrivals) != []
    }

    lemma FramedSoFar()
      requires Valid()
      ensures var rest := Buffer() + Remaining(arrivals);
        Packets(stream) == delivered + Packets(rest) && Leftover(stream) == Leftover(rest)
    {
      FramingIsUnique(delivered, Buffer() + Remaining(arrivals));
    }

    lemma WaitingIsComplete()
      requires Valid() && Remaining(arrivals) == [] && !HasPacket(Buffer())
      ensures Complete() && Bounded(stream)
    {
      FramedSoFar();
      assert Buffer() + [] == Buffer() && delivered + [] == delivered;
    }

    lemma StallIsUnbounded()
      requires Valid() && Stalled()
      ensures !Complete() && !Bounded(stream)
    {
      var rest := Buffer() + Remaining(arrivals);
      FramedSoFar();
      assert rest[6] == Buffer()[6] && rest[7] == Buffer()[7];
      if HasPacket(rest) {
        assert Packets(rest)[0] in Packets(stream);
      }
    }

    /**
     * Deliver the next packet, reading until it is complete. Failure delivers nothing. A group 1
     * packet gets the time of the last read exactly if this call had to read, or had it already.
     */
    method GetPacket() returns (rc: int)
      requires Valid()
      modifies this, packetBuffer
      ensures Valid() && Backlog(arrivals) <= old(Backlog(arrivals))
      ensures var f := old(Fill(Buffer(), arrivals, time));
        && rc == f.rc && arrivals == f.arrivals && (rc != 0 ==> Buffer() == f.buffer)
        && (rc == 0 ==> HasPacket(f.buffer))
        && (rc == 0 && !old(HasPacket(Buffer())) ==> lastRead == f.time)
        && (rc == 0 ==> Buffer() == f.buffer[PacketLength(f.buffer)..])
        && delivered == old(delivered) + (if rc == 0 then [f.buffer[..PacketLength(f.buffer)]] else [])
      ensures rc != 0 ==> !HasPacket(Buffer()) && time == old(time) && delivered == old(delivered)
      ensures rc == 0 ==> |Flatten(delivered)| > |old(Flatten(delivered))|
      ensures rc != 0 && old(arrivals) != [] && old(bufferLength) < CAPACITY ==> Backlog(arrivals) < old(Backlog(arrivals))
      ensures rc == 0 ==> var p := delivered[|old(delivered)|];
        && IsPacket(p) && (GroupNumber(p) != 1 ==> time == old(time))
        && (GroupNumber(p) == 1 ==> (time == lastRead <==> !old(HasPacket(Buffer())) || old(time) == lastRead))
      ensures old(HasPacket(Buffer())) ==> rc == 0 && time == old(time) && lastRead == old(lastRead)
      ensures old(Stalled()) ==> rc == EAGAIN && Stalled() && Buffer() == old(Buffer()) && arrivals == old(arrivals)
    {
      FillFacts(Buffer(), arrivals, time);
      if Stalled() { FullStaysFull(Buffer(), arrivals, time); }
      var status, packetTime := FillBuffer();
      if status != 0 { return status; }
      TakePacket(packetTime);
      rc := 0;
    }

    /** Read until the buffer starts with a whole packet, or nothing more can be had for now. */
    method FillBuffer() returns (rc: int, packetTime: real)
      requires Valid()
      modifies this`bufferLength, this`arrivals, this`lastRead, packetBuffer
      ensures Valid()
      ensures Reading(rc, Buffer(), arrivals, packetTime) == old(Fill(Buffer(), arrivals, time))
      ensures rc == 0 && !old(HasPacket(Buffer())) ==> packetTime == lastRead
      ensures old(HasPacket(Buffer())) ==> packetTime == time && lastRead == old(lastRead)
    {
      packetTime := time;
      while bufferLength < HEADER || bufferLength < PacketLength(packetBuffer[..HEADER])
        invariant Valid()
        invariant Fill(Buffer(), arrivals, packetTime) == old(Fill(Buffer(), arrivals, time))
        invariant packetTime == lastRead || Buffer() == old(Buffer())
        invariant old(HasPacket(Buffer())) ==> Buffer() == old(Buffer()) && packetTime == time && lastRead == old(lastRead)
        decreases Backlog(arrivals)
      {
        var status;
        status, packetTime := ReadPacket(packetTime);
        if status != 0 { return status, packetTime; }
      }
      rc := 0;
    }

    /** Deliver the packet that starts the buffer and move the rest to the front. */
    method TakePacket(packetTime: real)
      requires Valid() && HasPacket(Buffer())
      modifies this`time, this`bufferLength, this`delivered, packetBuffer
      ensures Valid()
      ensures delivered == old(delivered) + [old(Buffer()[..PacketLength(Buffer())])]
      ensures Buffer() == old(Buffer()[PacketLength(Buffer())..])
      ensures time == if old(GroupNumber(Buffer())) == 1 then packetTime else old(time)
      ensures |Flatten(delivered)| > |old(Flatten(delivered))|
    {
      ghost var was := Buffer();
      var length := PacketLength(packetBuffer[..HEADER]);
      assert length == PacketLength(was);
      if GroupNumber(packetBuffer[..HEADER]) == 1 { time := packetTime; }
      PacketMoves(delivered, was, length, Remaining(arrivals));
      delivered := delivered + [was[..length]];
      Discard(length);
    }

    method Discard(length: nat)
      requires packetBuffer.Length == CAPACITY && length <= bufferLength <= CAPACITY
      modifies this`bufferLength, packetBuffer
      ensures bufferLength <= CAPACITY && Buffer() == old(Buffer()[length..])
    {
      bufferLength := bufferLength - length;
      forall i | 0 <= i < bufferLength { packetBuffer[i] := packetBuffer[length + i]; }
    }

    /**
     * The driver's repeated calls, until nothing more can be read. Whatever the chunks and faults,
     * they deliver exactly the packets of the stream if and only if each of them, and what there is
     * of the unfinished one, fits the buffer; otherwise the driver stalls.
     */
    method Drain()
      requires Valid()
      modifies this, packetBuffer
      ensures Valid() && (Complete() <==> Bounded(stream)) && (Stalled() <==> !Complete())
    {
      var rc := GetPacket();
      while rc == 0 || (arrivals != [] && bufferLength < CAPACITY)
        invariant Valid()
        invariant rc != 0 ==> !HasPacket(Buffer())
        decreases |stream| - |Flatten(delivered)|, Backlog(arrivals), rc == 0
      {
        rc := GetPacket();
      }
      if Remaining(arrivals) == [] { WaitingIsComplete(); } else { StallIsUnbounded(); }
    }
  }

  // ---------------------------------------------------------------- what goes wrong

  lemma TwoInOneRead(p: seq<Byte>, q: seq<Byte>, t: real)
    requires IsPacket(p) && IsPacket(q) && |p| + |q| <= CAPACITY
    ensures Fill([], [Chunk(p + q, t)], 0.0) == Reading(0, p + q, [], t)
    ensures HasPacket(p + q) && PacketLength(p + q) == |p| && (p + q)[..|p|] == p && (p + q)[|p|..] == q
    ensures HasPacket(q) && Fill(q, [], 0.0) == Reading(0, q, [], 0.0) && q[..PacketLength(q)] == q
  {
    var b := p + q;
    assert b[6] == p[6] && b[7] == p[7];
    ReadWhole(b, t);
  }

  lemma ReadWhole(b: seq<Byte>, t: real)
    requires b != [] && |b| <= CAPACITY
    ensures ReadOnce([], [Chunk(b, t)], 0.0) == Reading(0, b, [], t)
  {
    assert [] + b == b && [Chunk(b, t)][1..] == [];
  }

  /** A group 1 packet that comes in one read with another packet: its time stamp is the older one. */
  method StaleTimeStamp(p: seq<Byte>, q: seq<Byte>, t: real) returns (d: Device)
    requires IsPacket(p) && IsPacket(q) && |p| + |q| <= CAPACITY && t != 0.0
    requires GroupNumber(p) != 1 && GroupNumber(q) == 1
    ensures d.Valid() && d.delivered == [p, q] && d.lastRead == t && d.time == 0.0
  {
    TwoInOneRead(p, q, t);
    d := new Device([Chunk(p + q, t)]);
    DeliverFirst(d, p, q, t);
    DeliverSecond(d, p, q);
  }

  method DeliverFirst(d: Device, p: seq<Byte>, q: seq<Byte>, t: real)
    requires d.Valid() && d.Buffer() == [] && d.delivered == [] && d.time == 0.0 && IsPacket(p) && GroupNumber(p) != 1
    requires Fill([], d.arrivals, 0.0) == Reading(0, p + q, [], t) && PacketLength(p + q) == |p|
    requires (p + q)[..|p|] == p && (p + q)[|p|..] == q
    modifies d, d.packetBuffer
    ensures d.Valid() && d.Buffer() == q && d.arrivals == [] && d.delivered == [p] && d.lastRead == t && d.time == 0.0
  {
    var rc := d.GetPacket();
    assert d.delivered == [p];
  }

  method DeliverSecond(d: Device, p: seq<Byte>, q: seq<Byte>)
    requires d.Valid() && d.Buffer() == q && d.arrivals == [] && d.delivered == [p] && d.time == 0.0 && HasPacket(q)
    requires Fill(q, [], 0.0) == Reading(0, q, [], 0.0) && q[..PacketLength(q)] == q
    modifies d, d.packetBuffer
    ensures d.Valid() && d.delivered == [p, q] && d.lastRead == old(d.lastRead) && d.time == 0.0
  {
    var rc := d.GetPacket();
    assert d.delivered == [p] + [q];
  }

  lemma OnePacketStream(p: seq<Byte>, t: real)
    requires IsPacket(p)
    ensures Remaining([Chunk(p, t)]) == p && Packets(p) == [p]
  {
    assert p + [] == p && [Chunk(p, t)][1..] == [];
    PacketSplits(p, []);
  }

  lemma NoneOfOversize(ps: seq<seq<Byte>>, qs: seq<seq<Byte>>, p: seq<Byte>)
    requires ps + qs == [p] && |p| > CAPACITY && forall x :: x in ps ==> |x| <= CAPACITY
    ensures ps == []
  {
    if ps != [] { FirstIsMember(ps, qs); }
  }

  lemma FirstIsMember(ps: seq<seq<Byte>>, qs: seq<seq<Byte>>)
    requires ps != []
    ensures (ps + qs)[0] in ps
  {}

  /** A packet longer than the buffer stalls the driver: nothing is delivered, and nothing will be. */
  method OversizeStalls(p: seq<Byte>, t: real) returns (d: Device, rc: int)
    requires IsPacket(p) && |p| > CAPACITY
    ensures d.Valid() && d.Stalled() && d.delivered == [] && rc == EAGAIN
  {
    OnePacketStream(p, t);
    d := new Device([Chunk(p, t)]);
    d.Drain();
    assert p in Packets(d.stream);
    d.FramedSoFar();
    NoneOfOversize(d.delivered, Packets(d.Buffer() + Remaining(d.arrivals)), p);
    rc := d.GetPacket();
  }
}
