/** Homefront's stream: a type, on the way to the client also a channel, a big-endian length, and that many bytes. The
    header is six bytes one way and seven the other.
  */
module Homefront {
  import opened Bytes
  import opened Framing
  import opened Pumping
  import opened Seqs
  import opened Strings

  const MAX_PAYLOAD: nat := 1_000_000
  const CLIENT_HEAD: nat := 2
  const SERVER_HEAD: nat := 3
  const CHANNEL_SERVER: byte := 4
  const PONG: Data := [80, 79, 78, 71]
  const AUTH: Data := [65, 85, 84, 72, 58, 32]
  const AUTH_TRUE: Data := [65, 85, 84, 72, 58, 32, 116, 114, 117, 101]
  const HELLO: Data := [72, 69, 76, 76, 79, 58, 32]

  /** What precedes the length, and the data behind it. */
  datatype Packet = Packet(head: Data, data: Data)

  // ---- big-endian lengths ---------------------------------------------------------------------

  function Backwards(b: Data): (r: Data)
    requires |b| == 4
    ensures |r| == 4
  {
    [b[3], b[2], b[1], b[0]]
  }

  /** `pack(">i", n)`. */
  function PackLength(n: nat): Data
    requires n < I32_LIMIT
  {
    Backwards(PackU32(n))
  }

  function LengthAt(b: Data, offset: nat): int
    requires offset + 4 <= |b|
  {
    AsSigned(UnpackU32(Backwards(b[offset..offset + 4])))
  }

  lemma LengthRead(before: Data, n: nat, after: Data)
    requires n < I32_LIMIT
    ensures LengthAt(before + PackLength(n) + after, |before|) == n
  {
    hide PackU32, UnpackU32;
    var field := PackLength(n);
    assert (before + field + after)[|before|..|before| + 4] == field;
    assert Backwards(field) == PackU32(n);
    UnpackPack(n);
  }

  // ---- the frame, both ways -------------------------------------------------------------------

  /** A frame, `head` being the type, or the type and the channel. */
  function Frame(p: Packet): Data
    requires |p.data| < I32_LIMIT
  {
    p.head + PackLength(|p.data|) + p.data
  }

  /** The front of a buffer, read as a frame with `head` bytes before the length. */
  function ReadWith(head: nat, buffer: Data): Step<Packet> {
    if |buffer| < head + 4 then More
    else
      var length := LengthAt(buffer, head);
      if length < 0 || length > MAX_PAYLOAD then Bad
      else
        var end := head + 4 + length;
        if |buffer| < end then More else Got(Packet(buffer[..head], buffer[head + 4..end]), buffer[end..])
  }

  /** What the client reads. */
  const FROM_SERVER: Reader<Packet> := b => ReadWith(SERVER_HEAD, b)

  /** What the server reads. */
  const FROM_CLIENT: Reader<Packet> := b => ReadWith(CLIENT_HEAD, b)

  lemma MoreBehind(head: nat, x: Data, y: Data)
    ensures ReadWith(head, x).Got? ==>
              ReadWith(head, x + y) == Got(ReadWith(head, x).payload, ReadWith(head, x).rest + y)
    ensures ReadWith(head, x).Bad? ==> ReadWith(head, x + y).Bad?
  {
    if |x| >= head + 4 {
      assert (x + y)[head..head + 4] == x[head..head + 4];
      var length := LengthAt(x, head);
      if 0 <= length <= MAX_PAYLOAD && |x| >= head + 4 + length {
        var end := head + 4 + length;
        assert (x + y)[..head] == x[..head] && (x + y)[head + 4..end] == x[head + 4..end];
        assert (x + y)[end..] == x[end..] + y;
      }
    }
  }

  lemma ReadersStable()
    ensures Stable(FROM_SERVER) && Stable(FROM_CLIENT)
  {
    hide ReadWith;
    forall x: Data, y: Data, head: nat
      ensures ReadWith(head, x).Got? ==>
                ReadWith(head, x + y) == Got(ReadWith(head, x).payload, ReadWith(head, x).rest + y)
      ensures ReadWith(head, x).Bad? ==> ReadWith(head, x + y).Bad?
    {
      MoreBehind(head, x, y);
    }
    forall x: Data, head: nat
      ensures ReadWith(head, x).Got? ==> |ReadWith(head, x).rest| < |x|
    {
      ReadShortens(head, x);
    }
  }

  lemma ReadShortens(head: nat, x: Data)
    ensures ReadWith(head, x).Got? ==> |ReadWith(head, x).rest| < |x|
  {
  }

  /** A frame read with the header it was written with gives back its packet, whatever follows, as long as its data
      is no longer than either side believes; a longer one is refused. */
  lemma FrameRead(p: Packet, more: Data)
    requires |p.data| < I32_LIMIT
    ensures |p.data| <= MAX_PAYLOAD ==> ReadWith(|p.head|, Frame(p) + more) == Got(p, more)
    ensures |p.data| > MAX_PAYLOAD ==> ReadWith(|p.head|, Frame(p) + more).Bad?
  {
    hide LengthAt, PackLength;
    var x := Frame(p) + more;
    assert x == p.head + PackLength(|p.data|) + (p.data + more);
    LengthRead(p.head, |p.data|, p.data + more);
    PackedSize(|p.data|);
    if |p.data| <= MAX_PAYLOAD {
      var end := |p.head| + 4 + |p.data|;
      assert x[..|p.head|] == p.head && x[|p.head| + 4..end] == p.data && x[end..] == more;
    }
  }

  lemma PackedSize(n: nat)
    requires n < I32_LIMIT
    ensures |PackLength(n)| == 4
  {
  }

  /** And the reader waits until all of it is there. */
  lemma FrameWaits(p: Packet, cut: nat)
    requires |p.data| <= MAX_PAYLOAD && cut < |Frame(p)|
    ensures ReadWith(|p.head|, Frame(p)[..cut]).More?
  {
    hide Frame, ReadWith;
    var x, y := Frame(p)[..cut], Frame(p)[cut..];
    FrameRead(p, []);
    assert x + y == Frame(p) == Frame(p) + [];
    MoreBehind(|p.head|, x, y);
    if !ReadWith(|p.head|, x).More? {
      assert false;
    }
  }

  /** A frame byte by byte: what precedes the length, the length, high byte first, and the data. */
  lemma FrameBytes(data: Data)
    requires |data| == 258
    ensures Frame(Packet([83, 65, 4], data)) == [83, 65, 4, 0, 0, 1, 2] + data
  {
    assert PackU32(258) == [2, 1, 0, 0];
  }

  // ---- from the server to the bot -------------------------------------------------------------

  /** What the parser is given for one packet: its channel and its data. */
  type Line = (byte, Data)

  function Channel(p: Packet): byte {
    if |p.head| < SERVER_HEAD then 0 else p.head[2]
  }

  /** `_is_housekeeping`: what the connection keeps to itself. */
  predicate IsVerdict(p: Packet) {
    p.data != PONG && Channel(p) == CHANNEL_SERVER && AUTH <= p.data
  }

  predicate IsHello(p: Packet) {
    p.data != PONG && Channel(p) == CHANNEL_SERVER && !(AUTH <= p.data) && HELLO <= p.data
  }

  function LineOf(p: Packet): seq<Line> {
    if p.data == PONG || IsVerdict(p) || IsHello(p) then [] else [(Channel(p), p.data)]
  }

  function Lines(packets: seq<Packet>): seq<Line> {
    Gather(LineOf, packets)
  }

  /** The login verdict in force, and the server's version, after these packets. */
  function Authed(before: bool, packets: seq<Packet>): bool {
    if packets == [] then before
    else
      var last := packets[|packets| - 1];
      if IsVerdict(last) then last.data == AUTH_TRUE else Authed(before, packets[..|packets| - 1])
  }

  function Version(before: Data, packets: seq<Packet>): Data {
    if packets == [] then before
    else
      var last := packets[|packets| - 1];
      if IsHello(last) then Strip(last.data[|HELLO|..]) else Version(before, packets[..|packets| - 1])
  }

  /** The verdict and the version after a pump: a stream that goes out of step is closed, and the bot logged out. */
  function Heeded(l: Link, l': Link, authed: bool, version: Data, packets: seq<Packet>): (bool, Data) {
    (if l.open && !l'.open then false else Authed(authed, packets), Version(version, packets))
  }

  lemma NothingHeeded(authed: bool, version: Data)
    ensures Lines([]) == [] && Authed(authed, []) == authed && Version(version, []) == version
  {
  }

  class Client {
    const link: Pumping.Client<Packet>
    var authed: bool
    var version: Data

    ghost predicate Valid()
      reads this, link
    {
      link.read == FROM_SERVER && !link.eager
    }

    constructor (input: seq<Recv>)
      ensures Valid() && fresh(link) && link.View() == Opened(input) && !authed && version == []
    {
      link := new Pumping.Client<Packet>(FROM_SERVER, false, input);
      authed, version := false, [];
    }

    /** `_pump`, and what it does with each packet. */
    method PumpLines() returns (lines: seq<Line>)
      requires Valid()
      modifies this, link
      ensures Valid() && Consumes(FROM_SERVER)
      ensures var (after, packets) := Pump(FROM_SERVER, false, old(link.View()), MAX_PUMP);
              && link.View() == after && lines == Lines(packets)
              && (authed, version) == Heeded(old(link.View()), after, old(authed), old(version), packets)
    {
      hide Pump, Lines, Authed, Version;
      ReadersStable();
      var wasOpen := link.open;
      var packets := link.PumpOnce();
      lines := Heed(packets);
      if wasOpen && !link.open {
        authed := false;
      }
    }

    /** What becomes of each packet that was read. */
    method Heed(packets: seq<Packet>) returns (lines: seq<Line>)
      modifies this
      ensures lines == Lines(packets)
      ensures authed == Authed(old(authed), packets) && version == Version(old(version), packets)
    {
      hide ReadWith, Gather;
      NothingHeeded(authed, version);
      lines := [];
      for i := 0 to |packets|
        invariant lines == Lines(packets[..i])
        invariant authed == Authed(old(authed), packets[..i]) && version == Version(old(version), packets[..i])
      {
        var p := packets[i];
        assert packets[..i + 1] == packets[..i] + [p];
        assert packets[..i + 1][..i] == packets[..i];
        GatherOne(LineOf, packets[..i], p);
        if p.data == PONG {
        } else if Channel(p) == CHANNEL_SERVER && AUTH <= p.data {
          authed := p.data == AUTH_TRUE;
        } else if Channel(p) == CHANNEL_SERVER && HELLO <= p.data {
          version := Strip(p.data[|HELLO|..]);
        } else {
          lines := lines + [(Channel(p), p.data)];
        }
      }
      assert packets[..|packets|] == packets;
    }
  }

  /** The lines of `n` pumps. */
  function LinesTimes(l: Link, n: nat): seq<Line>
    requires Consumes(FROM_SERVER)
    decreases n
  {
    if n == 0 then []
    else
      var (l', packets) := Pump(FROM_SERVER, false, l, MAX_PUMP);
      Lines(packets) + LinesTimes(l', n - 1)
  }

  lemma {:induction false} LinesOfPumps(l: Link, n: nat)
    requires Consumes(FROM_SERVER)
    ensures LinesTimes(l, n) == Lines(PumpTimes(FROM_SERVER, false, l, n).1)
    decreases n
  {
    hide Pump;
    if n > 0 {
      var (l', packets) := Pump(FROM_SERVER, false, l, MAX_PUMP);
      LinesOfPumps(l', n - 1);
      GatherAppend(LineOf, packets, PumpTimes(FROM_SERVER, false, l', n - 1).1);
    }
  }

  predicate Sendable(p: Packet, head: nat) {
    |p.head| == head && |p.data| < I32_LIMIT
  }

  function FramesOf(packets: seq<Packet>, head: nat): (frames: seq<Data>)
    requires forall p | p in packets :: Sendable(p, head)
    ensures |frames| == |packets|
    ensures forall i | 0 <= i < |packets| :: |packets[i].data| < I32_LIMIT && frames[i] == Frame(packets[i])
  {
    if packets == [] then []
    else
      assert Sendable(packets[0], head);
      [Frame(packets[0])] + FramesOf(packets[1..], head)
  }

  lemma FramesReadBack(packets: seq<Packet>, head: nat, read: Reader<Packet>)
    requires forall p | p in packets :: Sendable(p, head) && |p.data| <= MAX_PAYLOAD
    requires forall b :: read(b) == ReadWith(head, b)
    ensures forall i | 0 <= i < |packets| :: Frames(read, FramesOf(packets, head)[i], packets[i])
  {
    hide ReadWith, Frame;
    forall i | 0 <= i < |packets|
      ensures Frames(read, FramesOf(packets, head)[i], packets[i])
    {
      var p := packets[i];
      assert p in packets;
      forall y: Data
        ensures read(Frame(p) + y) == Got(p, y)
      {
        FrameRead(p, y);
      }
    }
  }

  /** The login verdict and the version after `n` pumps. */
  function HeedTimes(l: Link, authed: bool, version: Data, n: nat): (bool, Data)
    requires Consumes(FROM_SERVER)
    decreases n
  {
    if n == 0 then (authed, version)
    else
      var (l', packets) := Pump(FROM_SERVER, false, l, MAX_PUMP);
      var (authed', version') := Heeded(l, l', authed, version, packets);
      HeedTimes(l', authed', version', n - 1)
  }

  lemma {:induction false} HeedAppend(authed: bool, version: Data, a: seq<Packet>, b: seq<Packet>)
    ensures Authed(authed, a + b) == Authed(Authed(authed, a), b)
    ensures Version(version, a + b) == Version(Version(version, a), b)
  {
    hide IsVerdict, IsHello;
    if b == [] {
      assert a + b == a;
    } else {
      assert (a + b)[..|a + b| - 1] == a + b[..|b| - 1];
      HeedAppend(authed, version, a, b[..|b| - 1]);
    }
  }

  lemma {:induction false} HeedOfPumps(l: Link, authed: bool, version: Data, n: nat)
    requires Consumes(FROM_SERVER) && PumpTimes(FROM_SERVER, false, l, n).0.open
    ensures var packets := PumpTimes(FROM_SERVER, false, l, n).1;
            HeedTimes(l, authed, version, n) == (Authed(authed, packets), Version(version, packets))
    decreases n
  {
    hide Pump;
    if n > 0 {
      var (l', packets) := Pump(FROM_SERVER, false, l, MAX_PUMP);
      if !l'.open {
        ClosedSilent(FROM_SERVER, false, l', n - 1);
      }
      HeedOfPumps(l', Authed(authed, packets), Version(version, packets), n - 1);
      HeedAppend(authed, version, packets, PumpTimes(FROM_SERVER, false, l', n - 1).1);
    }
  }

  /** On the server's own channel, opening with `text`. */
  predicate Housekeeping(p: Packet, text: Data) {
    |p.head| == SERVER_HEAD && p.head[2] == CHANNEL_SERVER && |p.data| >= |text| && p.data[..|text|] == text
  }

  predicate ForParser(p: Packet) {
    p.data != PONG && !Housekeeping(p, AUTH) && !Housekeeping(p, HELLO)
  }

  /** The lines are those of the packets numbered in `at`, in order, and those are all the packets but a PONG, the login
      verdicts and the greetings. */
  predicate Picked(packets: seq<Packet>, lines: seq<Line>, at: seq<nat>) {
    && |at| == |lines|
    && (forall i | 0 <= i < |at| :: at[i] < |packets| && |packets[at[i]].head| == SERVER_HEAD
                                    && lines[i] == (packets[at[i]].head[2], packets[at[i]].data))
    && (forall i, j | 0 <= i < j < |at| :: at[i] < at[j])
    && (forall k | 0 <= k < |packets| :: k in at <==> ForParser(packets[k]))
  }

  lemma {:induction false} LinesPicked(packets: seq<Packet>) returns (at: seq<nat>)
    requires forall p | p in packets :: |p.head| == SERVER_HEAD
    ensures Picked(packets, Lines(packets), at)
  {
    if packets == [] {
      NothingHeeded(false, []);
      return [];
    }
    hide Gather, ForParser, LineOf, Picked;
    var front, last := packets[..|packets| - 1], packets[|packets| - 1];
    assert packets == front + [last];
    at := LinesPicked(front);
    GatherOne(LineOf, front, last);
    LineForParser(last);
    PickedOne(front, last, Lines(front), at);
    if ForParser(last) {
      at := at + [|front|];
    } else {
      assert Lines(front) + [] == Lines(front);
    }
  }

  lemma PickedOne(front: seq<Packet>, last: Packet, lines: seq<Line>, at: seq<nat>)
    requires Picked(front, lines, at) && |last.head| == SERVER_HEAD
    ensures if ForParser(last) then Picked(front + [last], lines + [(last.head[2], last.data)], at + [|front|])
            else Picked(front + [last], lines, at)
  {
    hide ForParser;
    var packets := front + [last];
    assert forall k | 0 <= k < |front| :: packets[k] == front[k];
    assert forall k | k in at :: k < |front|;
    if ForParser(last) {
      assert (at + [|front|])[|at|] == |front|;
      assert forall k :: k in at + [|front|] <==> k in at || k == |front|;
    }
  }

  lemma LineForParser(p: Packet)
    requires |p.head| == SERVER_HEAD
    ensures LineOf(p) == if ForParser(p) then [(p.head[2], p.data)] else []
  {
  }

  /** The last packet that opens with `text` on the server's channel. */
  predicate LastWith(packets: seq<Packet>, text: Data, k: nat) {
    k < |packets| && Housekeeping(packets[k], text)
    && forall j | k < j < |packets| :: !Housekeeping(packets[j], text)
  }

  predicate NoneWith(packets: seq<Packet>, text: Data) {
    forall p | p in packets :: !Housekeeping(p, text)
  }

  /** The bot counts as logged in exactly when the last verdict says so, and the version is what the last greeting says;
      without one they stay what they were. */
  lemma {:induction false} LastWordCounts(packets: seq<Packet>, authed: bool, version: Data)
    requires forall p | p in packets :: |p.head| == SERVER_HEAD
    ensures forall k: nat | LastWith(packets, AUTH, k) :: Authed(authed, packets) <==> packets[k].data == AUTH_TRUE
    ensures NoneWith(packets, AUTH) ==> Authed(authed, packets) == authed
    ensures forall k: nat | LastWith(packets, HELLO, k) ::
              Version(version, packets) == Strip(packets[k].data[|HELLO|..])
    ensures NoneWith(packets, HELLO) ==> Version(version, packets) == version
  {
    if packets != [] {
      hide Strip, Housekeeping;
      var front, last := packets[..|packets| - 1], packets[|packets| - 1];
      assert packets == front + [last];
      LastWordCounts(front, authed, version);
      HousekeepingIs(last);
      StillLast(packets, AUTH);
      StillLast(packets, HELLO);
    }
  }

  lemma HousekeepingIs(p: Packet)
    requires |p.head| == SERVER_HEAD
    ensures IsVerdict(p) <==> Housekeeping(p, AUTH)
    ensures IsHello(p) <==> Housekeeping(p, HELLO)
  {
    if Housekeeping(p, AUTH) {
      assert p.data[0] == AUTH[0] != PONG[0];
    }
    if Housekeeping(p, HELLO) {
      assert p.data[0] == HELLO[0] != PONG[0] && HELLO[0] != AUTH[0];
    }
  }

  lemma StillLast(packets: seq<Packet>, text: Data)
    requires packets != []
    ensures var front, last := packets[..|packets| - 1], packets[|packets| - 1];
            forall k: nat | LastWith(packets, text, k) ::
              if Housekeeping(last, text) then k == |front| else LastWith(front, text, k) && packets[k] == front[k]
  {
    hide Housekeeping;
  }

  /** What the server sends, cut into any chunks, comes out of the pumps as exactly the lines that are for the parser,
      in order and each once; of the rest, the last verdict and the last greeting are heeded. */
  lemma LinesDelivered(packets: seq<Packet>, input: seq<Recv>, pumps: nat, tail: Data) returns (at: seq<nat>)
    requires forall p | p in packets :: Sendable(p, SERVER_HEAD) && |p.data| <= MAX_PAYLOAD
    requires FROM_SERVER(tail).More? && pumps >= |input|
    requires Heard(input) == Flatten(FramesOf(packets, SERVER_HEAD)) + tail
    ensures Consumes(FROM_SERVER)
    ensures Picked(packets, LinesTimes(Opened(input), pumps), at)
    ensures var (authed, version) := HeedTimes(Opened(input), false, [], pumps);
            && (forall k: nat | LastWith(packets, AUTH, k) :: authed <==> packets[k].data == AUTH_TRUE)
            && (NoneWith(packets, AUTH) ==> !authed)
            && (forall k: nat | LastWith(packets, HELLO, k) :: version == Strip(packets[k].data[|HELLO|..]))
            && (NoneWith(packets, HELLO) ==> version == [])
  {
    hide ReadWith, PumpTimes, Flatten, Heard, Frame, FramesOf, Lines, LinesTimes, HeedTimes, Authed, Version, Picked;
    hide Strip, Housekeeping;
    ReadersStable();
    assert FROM_SERVER([]).More? by {
      ReadShort();
    }
    FramesReadBack(packets, SERVER_HEAD, FROM_SERVER);
    AllDelivered(FROM_SERVER, false, input, pumps, FramesOf(packets, SERVER_HEAD), packets, tail);
    LinesOfPumps(Opened(input), pumps);
    HeedOfPumps(Opened(input), false, [], pumps);
    at := LinesPicked(packets);
    LastWordCounts(packets, false, []);
  }

  lemma ReadShort()
    ensures ReadWith(SERVER_HEAD, []).More? && ReadWith(CLIENT_HEAD, []).More?
  {
  }

  // ---- from the bot to the server -------------------------------------------------------------

  function Front(b: Data): Data {
    if |b| > 16 then b[..16] else b
  }

  const TRANSMISSION: Data := [67, 84]
  const DISCONNECT: Data := [67, 68]
  const PING: Data := [67, 80]

  /** What the server has made of a connection: how often it was pinged, the data of the transmissions, what it found
      malformed, and whether the client has said goodbye. */
  datatype Service = Service(pings: nat, received: seq<Data>, malformed: seq<Data>, stopped: bool)

  const IDLE: Service := Service(0, [], [], false)

  /** `_handle`, short of what a transmission makes the server do. */
  function Handled(s: Service, p: Packet): Service {
    if p.head == PING then s.(pings := s.pings + 1)
    else if p.head == DISCONNECT then s.(stopped := true)
    else if p.head != TRANSMISSION then s.(malformed := s.malformed + [p.head])
    else s.(received := s.received + [p.data])
  }

  function HandledAll(s: Service, packets: seq<Packet>): Service {
    if packets == [] then s else Handled(HandledAll(s, packets[..|packets| - 1]), packets[|packets| - 1])
  }

  /** `_consume`: every whole frame handled; a front that can be no frame is recorded, and the buffer dropped. */
  function Consumed(s: Service, buffer: Data): (Service, Data)
    requires Consumes(FROM_CLIENT)
  {
    var all := ReadAll(FROM_CLIENT, buffer);
    var s' := HandledAll(s, all.payloads);
    if all.bad then (s'.(malformed := s'.malformed + [Front(all.rest)]), []) else (s', all.rest)
  }

  /** The receive loop of `_serve`. It ends when the client has said goodbye, hangs up or has been silent too long, the
      last being a receive that fails. */
  function Served(s: Service, buffer: Data, input: seq<Recv>): Service
    requires Consumes(FROM_CLIENT)
    decreases |input|
  {
    if s.stopped || input == [] || input[0].Broken? || input[0] == Chunk([]) then s
    else
      var (s', rest) := Consumed(s, if input[0].Chunk? then buffer + input[0].data else buffer);
      Served(s', rest, input[1..])
  }

  lemma HandledOne(s: Service, packets: seq<Packet>, p: Packet)
    ensures HandledAll(s, packets + [p]) == Handled(HandledAll(s, packets), p)
  {
    assert (packets + [p])[..|packets|] == packets;
  }

  lemma {:induction false} HandledAppend(s: Service, a: seq<Packet>, b: seq<Packet>)
    ensures HandledAll(s, a + b) == HandledAll(HandledAll(s, a), b)
    decreases |b|
  {
    if b == [] {
      assert a + b == a;
    } else {
      var front, last := b[..|b| - 1], b[|b| - 1];
      HandledAppend(s, a, front);
      HandledOne(s, a + front, last);
      assert a + b == a + front + [last];
    }
  }

  class Server {
    var pings: nat
    var received: seq<Data>
    var malformed: seq<Data>
    var stopped: bool

    ghost function View(): Service
      reads this
    {
      Service(pings, received, malformed, stopped)
    }

    constructor ()
      ensures View() == IDLE
    {
      pings, received, malformed, stopped := 0, [], [], false;
    }

    method Handle(message: Data, data: Data)
      modifies this
      ensures View() == Handled(old(View()), Packet(message, data))
    {
      if message == PING {
        pings := pings + 1;
        return;
      }
      if message == DISCONNECT {
        stopped := true;
        return;
      }
      if message != TRANSMISSION {
        malformed := malformed + [message];
        return;
      }
      received := received + [data];
    }

    method Consume(buffer: Data) returns (rest: Data)
      modifies this
      ensures Consumes(FROM_CLIENT)
      ensures (View(), rest) == Consumed(old(View()), buffer)
    {
      hide ReadAll, Handled, HandledAll, Stable, Consumes, Front;
      ReadersStable();
      FrontKept(FROM_CLIENT, [], []);
      rest := buffer;
      ghost var all := ReadAll(FROM_CLIENT, buffer);
      ghost var done: seq<Packet> := [];
      HandledNone(View());
      while |rest| >= 6
        invariant View() == HandledAll(old(View()), done)
        invariant ReadAll(FROM_CLIENT, rest).bad == all.bad && ReadAll(FROM_CLIENT, rest).rest == all.rest
        invariant done + ReadAll(FROM_CLIENT, rest).payloads == all.payloads
        decreases |rest|
      {
        ReadOne(FROM_CLIENT, rest);
        assert done + [] == done;
        var message, length := rest[..2], LengthAt(rest, 2);
        if length < 0 || length > MAX_PAYLOAD {
          malformed := malformed + [Front(rest)];
          return [];
        }
        if |rest| < 6 + length {
          return;
        }
        var data := rest[6..6 + length];
        ghost var later := ReadAll(FROM_CLIENT, rest[6 + length..]).payloads;
        assert done + ([Packet(message, data)] + later) == done + [Packet(message, data)] + later;
        HandledOne(old(View()), done, Packet(message, data));
        rest := rest[6 + length..];
        Handle(message, data);
        done := done + [Packet(message, data)];
      }
      ReadOne(FROM_CLIENT, rest);
      assert done + [] == done;
    }

    method Serve(input: seq<Recv>)
      modifies this
      ensures Consumes(FROM_CLIENT)
      ensures View() == Served(old(View()), [], input)
    {
      hide Consumed;
      ReadersStable();
      var buffer: Data := [];
      var k := 0;
      while !stopped && k < |input|
        invariant 0 <= k <= |input|
        invariant Served(View(), buffer, input[k..]) == Served(old(View()), [], input)
        decreases |input| - k
      {
        assert input[k..][0] == input[k] && input[k..][1..] == input[k + 1..];
        match input[k] {
          case Broken => return;
          case Quiet =>
          case Chunk(chunk) =>
            if chunk == [] {
              return;
            }
            buffer := buffer + chunk;
        }
        buffer := Consume(buffer);
        k := k + 1;
      }
    }
  }

  lemma HandledNone(s: Service)
    ensures HandledAll(s, []) == s
  {
  }

  // ---- what the server has of what the client sent --------------------------------------------

  function CommandIn(p: Packet): seq<Data> { if p.head == TRANSMISSION then [p.data] else [] }

  function PingIn(p: Packet): seq<()> { if p.head == PING then [()] else [] }

  function UnknownIn(p: Packet): seq<Data> {
    if p.head in {TRANSMISSION, DISCONNECT, PING} then [] else [p.head]
  }

  /** Having handled some packets is having received the data of the transmissions among them, in order, counted the
      pings, recorded the types that are none, and stopped if there was a disconnect. */
  lemma {:induction false} HandledMeans(packets: seq<Packet>)
    ensures var s := HandledAll(IDLE, packets);
            && s.received == Gather(CommandIn, packets) && s.pings == |Gather(PingIn, packets)|
            && s.malformed == Gather(UnknownIn, packets)
            && (s.stopped <==> exists p | p in packets :: p.head == DISCONNECT)
    decreases |packets|
  {
    if packets != [] {
      var front, last := packets[..|packets| - 1], packets[|packets| - 1];
      assert packets == front + [last];
      HandledMeans(front);
      GatherOne(CommandIn, front, last);
      GatherOne(PingIn, front, last);
      GatherOne(UnknownIn, front, last);
    }
  }

  /** A receive loop that neither fails nor meets the end of the stream. */
  predicate Flowing(input: seq<Recv>) {
    forall k | 0 <= k < |input| :: !input[k].Broken? && input[k] != Chunk([])
  }

  /** One receive: the packets it completes are handled, and the others are still ahead. */
  lemma ServedStep(s: Service, buffer: Data, input: seq<Recv>, packets: seq<Packet>)
    requires Stable(FROM_CLIENT) && Flowing(input) && input != [] && !s.stopped
    requires ReadAll(FROM_CLIENT, buffer + Heard(input)) == Parsed(packets, [], false)
    ensures Consumes(FROM_CLIENT)
    ensures var all := ReadAll(FROM_CLIENT, if input[0].Chunk? then buffer + input[0].data else buffer);
            && !all.bad && FROM_CLIENT(all.rest).More?
            && Served(s, buffer, input) == Served(HandledAll(s, all.payloads), all.rest, input[1..])
            && |all.payloads| <= |packets| && all.payloads == packets[..|all.payloads|]
            && ReadAll(FROM_CLIENT, all.rest + Heard(input[1..])) == Parsed(packets[|all.payloads|..], [], false)
  {
    hide ReadAll, ReadWith, Stable, HandledAll;
    FrontKept(FROM_CLIENT, [], []);
    var next := if input[0].Chunk? then buffer + input[0].data else buffer;
    var later := Heard(input[1..]);
    assert buffer + Heard(input) == next + later;
    ReadAllAppend(FROM_CLIENT, next, later);
    RestWaits(FROM_CLIENT, next);
    var got := ReadAll(FROM_CLIENT, next).payloads;
    var rest := ReadAll(FROM_CLIENT, ReadAll(FROM_CLIENT, next).rest + later).payloads;
    assert packets == got + rest;
    assert (got + rest)[..|got|] == got && (got + rest)[|got|..] == rest;
  }

  /** However the stream is cut: the server has handled the packets it holds up to some point, which is the end unless a
      disconnect came before it. */
  lemma {:induction false} ServedInOrder(s: Service, buffer: Data, input: seq<Recv>, packets: seq<Packet>)
    returns (n: nat)
    requires Stable(FROM_CLIENT) && Flowing(input) && !s.stopped && FROM_CLIENT(buffer).More?
    requires ReadAll(FROM_CLIENT, buffer + Heard(input)) == Parsed(packets, [], false)
    ensures Consumes(FROM_CLIENT)
    ensures n <= |packets| && Served(s, buffer, input) == HandledAll(s, packets[..n])
    ensures n < |packets| ==> exists i | 0 <= i < n :: packets[i].head == DISCONNECT
    decreases |input|
  {
    hide ReadAll, ReadWith, Stable, Consumes, HandledAll, Handled, Served, Heard;
    FrontKept(FROM_CLIENT, [], []);
    if input == [] {
      NothingServed(s, buffer);
      n := 0;
    } else {
      ServedStep(s, buffer, input, packets);
      var all := ReadAll(FROM_CLIENT, if input[0].Chunk? then buffer + input[0].data else buffer);
      var got, rest := all.payloads, packets[|all.payloads|..];
      var s' := HandledAll(s, got);
      StoppedBy(s, got);
      if s'.stopped {
        n := |got|;
        ServedStopped(s', all.rest, input[1..]);
        var i :| 0 <= i < |got| && got[i].head == DISCONNECT;
        assert packets[i] == got[i];
      } else {
        var m := ServedInOrder(s', all.rest, input[1..], rest);
        n := |got| + m;
        HandledAppend(s, got, rest[..m]);
        assert packets[..n] == got + rest[..m];
        if m < |rest| {
          var i :| 0 <= i < m && rest[i].head == DISCONNECT;
          assert packets[|got| + i] == rest[i];
        }
      }
    }
  }

  lemma NothingServed(s: Service, buffer: Data)
    requires Consumes(FROM_CLIENT) && FROM_CLIENT(buffer).More?
    ensures Served(s, buffer, []) == s == HandledAll(s, [])
    ensures ReadAll(FROM_CLIENT, buffer + Heard([])).payloads == []
  {
    assert buffer + Heard([]) == buffer;
    ReadNothing(FROM_CLIENT, buffer);
  }

  lemma ServedStopped(s: Service, buffer: Data, input: seq<Recv>)
    requires Consumes(FROM_CLIENT) && s.stopped
    ensures Served(s, buffer, input) == s
  {
  }

  lemma {:induction false} StoppedBy(s: Service, packets: seq<Packet>)
    ensures HandledAll(s, packets).stopped <==>
              s.stopped || exists i | 0 <= i < |packets| :: packets[i].head == DISCONNECT
    decreases |packets|
  {
    if packets != [] {
      var front := packets[..|packets| - 1];
      StoppedBy(s, front);
      if i :| 0 <= i < |packets| && packets[i].head == DISCONNECT {
        assert i < |front| ==> front[i].head == DISCONNECT;
      }
    }
  }

  function Weight(s: Service): nat {
    s.pings + |s.received| + |s.malformed|
  }

  /** Every packet but a disconnect leaves its mark. */
  lemma {:induction false} LeavesMark(s: Service, packets: seq<Packet>)
    ensures Weight(HandledAll(s, packets)) >= Weight(s)
    ensures (exists p | p in packets :: p.head != DISCONNECT) ==> Weight(HandledAll(s, packets)) > Weight(s)
    ensures (forall p | p in packets :: p.head == DISCONNECT) && s.stopped ==> HandledAll(s, packets) == s
    decreases |packets|
  {
    if packets != [] {
      var front := packets[..|packets| - 1];
      LeavesMark(s, front);
      assert packets == front + [packets[|packets| - 1]];
    }
  }

  /** Packets the server understands: not too long, of a type it knows, and after a disconnect nothing more. */
  predicate Orderly(packets: seq<Packet>) {
    && (forall p | p in packets :: |p.data| <= MAX_PAYLOAD && p.head in {TRANSMISSION, DISCONNECT, PING})
    && (forall i, j | 0 <= i < j < |packets| ::
          packets[i].head == DISCONNECT ==> packets[j].head == DISCONNECT)
  }

  /** The server has handled all of these packets, and found nothing malformed. */
  ghost predicate Understood(packets: seq<Packet>, input: seq<Recv>)
    requires Consumes(FROM_CLIENT)
  {
    Served(IDLE, [], input) == HandledAll(IDLE, packets) && HandledAll(IDLE, packets).malformed == []
  }

  lemma OrderlyUnderstood(packets: seq<Packet>, input: seq<Recv>)
    requires Orderly(packets) && forall p | p in packets :: Sendable(p, CLIENT_HEAD)
    requires Flowing(input) && Heard(input) == Flatten(FramesOf(packets, CLIENT_HEAD))
    ensures Consumes(FROM_CLIENT) && Understood(packets, input)
  {
    hide ReadWith, ReadAll, Flatten, Frame, FramesOf, Stable, HandledAll, Heard, Served;
    ReadersStable();
    FrontKept(FROM_CLIENT, [], []);
    FramesReadBack(packets, CLIENT_HEAD, FROM_CLIENT);
    ReadShort();
    ReadFrames(FROM_CLIENT, FramesOf(packets, CLIENT_HEAD), packets, []);
    assert [] + Heard(input) == Flatten(FramesOf(packets, CLIENT_HEAD)) + [];
    var n := ServedInOrder(IDLE, [], input, packets);
    assert packets == packets[..n] + packets[n..];
    HandledAppend(IDLE, packets[..n], packets[n..]);
    if n < |packets| {
      var i :| 0 <= i < n && packets[i].head == DISCONNECT;
      assert packets[..n][i].head == DISCONNECT;
      StoppedBy(IDLE, packets[..n]);
      LeavesMark(HandledAll(IDLE, packets[..n]), packets[n..]);
    } else {
      HandledNone(HandledAll(IDLE, packets[..n]));
    }
    AllKnown(packets);
  }

  lemma {:induction false} AllKnown(packets: seq<Packet>)
    ensures HandledAll(IDLE, packets).malformed == []
       <==> forall p | p in packets :: p.head in {TRANSMISSION, DISCONNECT, PING}
    decreases |packets|
  {
    if packets != [] {
      var front := packets[..|packets| - 1];
      AllKnown(front);
      assert packets == front + [packets[|packets| - 1]];
    }
  }

  // ---- and when it has not --------------------------------------------------------------------

  lemma {:induction false} FramesAppend(a: seq<Packet>, b: seq<Packet>, head: nat)
    requires forall p | p in a + b :: Sendable(p, head)
    ensures (forall p | p in a :: Sendable(p, head)) && forall p | p in b :: Sendable(p, head)
    ensures Flatten(FramesOf(a + b, head)) == Flatten(FramesOf(a, head)) + Flatten(FramesOf(b, head))
  {
    hide FramesOf, Frame, Sendable;
    assert forall p | p in a || p in b :: p in a + b;
    FramesJoin(a, b, head);
    FlattenAppend(FramesOf(a, head), FramesOf(b, head));
  }

  lemma FramesJoin(a: seq<Packet>, b: seq<Packet>, head: nat)
    requires (forall p | p in a + b :: Sendable(p, head)) && (forall p | p in a :: Sendable(p, head))
    requires forall p | p in b :: Sendable(p, head)
    ensures FramesOf(a + b, head) == FramesOf(a, head) + FramesOf(b, head)
  {
    hide Frame, FramesOf;
    forall i | 0 <= i < |a + b|
      ensures FramesOf(a + b, head)[i] == (FramesOf(a, head) + FramesOf(b, head))[i]
    {
    }
  }

  lemma FramesNotEmpty(packets: seq<Packet>)
    requires packets != [] && forall p | p in packets :: Sendable(p, CLIENT_HEAD)
    ensures Flatten(FramesOf(packets, CLIENT_HEAD)) != []
  {
    assert Sendable(packets[0], CLIENT_HEAD);
    assert FramesOf(packets, CLIENT_HEAD)[0] == Frame(packets[0]);
    PackedSize(|packets[0].data|);
  }

  /** Everything in one chunk: what comes of it is what comes of the bytes. */
  lemma ServedAtOnce(whole: Data, later: seq<Recv>)
    requires Consumes(FROM_CLIENT) && whole != []
    requires Consumed(IDLE, whole).0.stopped || later == []
    ensures Served(IDLE, [], [Chunk(whole)] + later) == Consumed(IDLE, whole).0
  {
    hide Consumed;
    assert ([Chunk(whole)] + later)[1..] == later;
    assert [] + whole == whole;
  }

  lemma HeardChunks(a: Data, b: Data)
    ensures Heard([Chunk(a)]) == a && Heard([Chunk(a), Chunk(b)]) == a + b
  {
    assert [Chunk(a)][1..] == [] && [Chunk(a), Chunk(b)][1..] == [Chunk(b)] && [Chunk(b)][1..] == [];
  }

  /** The frames of packets that are short enough, consumed at once. */
  lemma ConsumedWhole(packets: seq<Packet>)
    requires forall p | p in packets :: Sendable(p, CLIENT_HEAD) && |p.data| <= MAX_PAYLOAD
    ensures Consumes(FROM_CLIENT)
    ensures Consumed(IDLE, Flatten(FramesOf(packets, CLIENT_HEAD))) == (HandledAll(IDLE, packets), [])
  {
    hide ReadWith, ReadAll, Flatten, Frame, FramesOf, Stable, HandledAll;
    ReadersStable();
    FrontKept(FROM_CLIENT, [], []);
    FramesReadBack(packets, CLIENT_HEAD, FROM_CLIENT);
    ReadShort();
    ReadFrames(FROM_CLIENT, FramesOf(packets, CLIENT_HEAD), packets, []);
    assert Flatten(FramesOf(packets, CLIENT_HEAD)) + [] == Flatten(FramesOf(packets, CLIENT_HEAD));
  }

  /** A packet too long for the server puts the stream out of step. */
  lemma {:induction false} OversizeBad(packets: seq<Packet>)
    requires Stable(FROM_CLIENT)
    requires forall p | p in packets :: Sendable(p, CLIENT_HEAD)
    requires exists p | p in packets :: |p.data| > MAX_PAYLOAD
    ensures Consumes(FROM_CLIENT) && ReadAll(FROM_CLIENT, Flatten(FramesOf(packets, CLIENT_HEAD))).bad
    decreases |packets|
  {
    hide ReadAll, ReadWith, Frame, Stable;
    FrontKept(FROM_CLIENT, [], []);
    var frames, rest := FramesOf(packets, CLIENT_HEAD), packets[1..];
    assert frames[1..] == FramesOf(rest, CLIENT_HEAD);
    var p, more := packets[0], Flatten(frames[1..]);
    assert p in packets;
    FrameRead(p, more);
    ReadOne(FROM_CLIENT, Frame(p) + more);
    if |p.data| <= MAX_PAYLOAD {
      assert packets == [p] + rest;
      OversizeBad(rest);
    }
  }

  /** A packet that is too long, or of a type the server does not know. */
  lemma NotUnderstoodAtOnce(packets: seq<Packet>) returns (input: seq<Recv>)
    requires packets != [] && forall p | p in packets :: Sendable(p, CLIENT_HEAD)
    requires exists p | p in packets :: |p.data| > MAX_PAYLOAD || p.head !in {TRANSMISSION, DISCONNECT, PING}
    ensures Flowing(input) && Heard(input) == Flatten(FramesOf(packets, CLIENT_HEAD))
    ensures Consumes(FROM_CLIENT) && !Understood(packets, input)
  {
    hide ReadWith, ReadAll, Flatten, Frame, FramesOf, Stable, HandledAll, Heard, Served;
    ReadersStable();
    FrontKept(FROM_CLIENT, [], []);
    var whole := Flatten(FramesOf(packets, CLIENT_HEAD));
    FramesNotEmpty(packets);
    HeardChunks(whole, []);
    input := [Chunk(whole)];
    AllKnown(packets);
    if exists p | p in packets :: |p.data| > MAX_PAYLOAD {
      OversizeBad(packets);
      ServedAtOnce(whole, []);
      assert input + [] == input;
    }
  }

  /** A disconnect that arrives ahead of something else. */
  lemma NotUnderstoodInTwo(packets: seq<Packet>, i: nat, j: nat) returns (input: seq<Recv>)
    requires i < j < |packets| && packets[i].head == DISCONNECT != packets[j].head
    requires forall p | p in packets :: Sendable(p, CLIENT_HEAD) && |p.data| <= MAX_PAYLOAD
    ensures Flowing(input) && Heard(input) == Flatten(FramesOf(packets, CLIENT_HEAD))
    ensures Consumes(FROM_CLIENT) && !Understood(packets, input)
  {
    hide ReadWith, ReadAll, Flatten, Frame, FramesOf, Stable, HandledAll, Heard, Served, Consumed;
    var first, second := packets[..i + 1], packets[i + 1..];
    assert packets == first + second;
    assert first[i] == packets[i] && second[j - i - 1] == packets[j];
    FramesAppend(first, second, CLIENT_HEAD);
    var a, b := Flatten(FramesOf(first, CLIENT_HEAD)), Flatten(FramesOf(second, CLIENT_HEAD));
    FramesNotEmpty(first);
    FramesNotEmpty(second);
    HeardChunks(a, b);
    input := [Chunk(a), Chunk(b)];
    ConsumedWhole(first);
    StoppedBy(IDLE, first);
    ServedAtOnce(a, [Chunk(b)]);
    assert [Chunk(a)] + [Chunk(b)] == input;
    HandledAppend(IDLE, first, second);
    LeavesMark(HandledAll(IDLE, first), second);
  }

  /** The server has handled everything the client sent, in order, and found nothing malformed, however the stream was
      cut up, exactly when no packet is too long, all are of a type it knows, and a disconnect is followed by nothing
      else. */
  lemma MessagesServed(packets: seq<Packet>)
    requires forall p | p in packets :: Sendable(p, CLIENT_HEAD)
    ensures Consumes(FROM_CLIENT)
    ensures Orderly(packets) <==>
              forall input | Flowing(input) && Heard(input) == Flatten(FramesOf(packets, CLIENT_HEAD)) ::
                Understood(packets, input)
  {
    hide Understood, Flatten, FramesOf, Heard, Flowing, Stable, ReadWith, Consumes;
    ReadersStable();
    FrontKept(FROM_CLIENT, [], []);
    if Orderly(packets) {
      forall input | Flowing(input) && Heard(input) == Flatten(FramesOf(packets, CLIENT_HEAD))
        ensures Understood(packets, input)
      {
        OrderlyUnderstood(packets, input);
      }
    } else if p :| p in packets && (|p.data| > MAX_PAYLOAD || p.head !in {TRANSMISSION, DISCONNECT, PING}) {
      var input := NotUnderstoodAtOnce(packets);
    } else {
      var i: nat, j: nat :| i < j < |packets| && packets[i].head == DISCONNECT != packets[j].head;
      var input := NotUnderstoodInTwo(packets, i, j);
    }
  }
}
