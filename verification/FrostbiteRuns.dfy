/** What holds of every run of a Frostbite session, whatever the server sends and however the stream is cut. */
module FrostbiteRuns {
  import opened Wrappers
  import opened Bytes
  import opened Seqs
  import opened Framing
  import opened FrostbiteCodec
  import opened FrostbiteSession

  // ---- reading a history ----------------------------------------------------------------------

  function LineOf(p: Packet): seq<Line> { if p.fromServer && p.words != [] then [p.words] else [] }

  /** An OK with the number of the event, as a response in the server's own numbering. */
  function AckOwedTo(p: Packet): seq<Packet> {
    if p.fromServer && !p.isResponse then [Packet(true, true, p.sequence, [[79, 75]])] else []
  }

  function AckIn(m: Sent): seq<Packet> { if m.packet.fromServer then [m.packet] else [] }

  function CommandIn(m: Sent): seq<Packet> { if m.packet.fromServer then [] else [m.packet] }

  function ChatIn(m: Sent): seq<Line> { if m.chat then [m.packet.words] else [] }

  function SpokenIn(l: Line): seq<Line> { if l == [] then [] else [l] }

  function LineIn(r: Release): seq<Line> { [r.line] }

  /** The lines the parser is owed for the packets decoded so far. */
  function Lines(packets: seq<Packet>): seq<Line> { Gather(LineOf, packets) }

  /** The acknowledgements owed for them, one for each event. */
  function AcksOwed(packets: seq<Packet>): seq<Packet> { Gather(AckOwedTo, packets) }

  function Acks(wire: seq<Sent>): seq<Packet> { Gather(AckIn, wire) }

  function Commands(wire: seq<Sent>): seq<Packet> { Gather(CommandIn, wire) }

  function Chat(wire: seq<Sent>): seq<Line> { Gather(ChatIn, wire) }

  /** A chat line that splits into no words is never sent. */
  function Spoken(lines: seq<Line>): seq<Line> { Gather(SpokenIn, lines) }

  function ReleasedLines(releases: seq<Release>): seq<Line> { Gather(LineIn, releases) }

  /** What the bytes of a stream say, read in one go. */
  ghost function Stream(x: Data): Parsed<Packet> {
    ReadPacketStable();
    ReadAll(ReadPacket, x)
  }

  // ---- the invariant --------------------------------------------------------------------------

  /** Commands are numbered from zero, wrapping at 30 bits. */
  ghost predicate Numbered(commands: seq<Packet>) {
    forall i | 0 <= i < |commands| :: commands[i].sequence == i % SEQUENCE_LIMIT
  }

  /** As long as the stream is in step, the packets decoded so far are the ones its bytes spell. */
  ghost predicate InStep(received: Data, consumed: seq<Packet>, buffer: Data, connected: bool) {
    var all := Stream(received);
    !all.bad ==>
      && consumed <= all.payloads
      && (connected ==> all == Stream(buffer).(payloads := consumed + Stream(buffer).payloads))
  }

  /** Whatever is released because it is due comes at least `interval` after the release before it. */
  ghost predicate Paced(releases: seq<Release>, interval: real) {
    forall i | 0 <= i < |releases| :: releases[i].paced ==> releases[i].time - LastTime(releases[..i]) >= interval
  }

  function LastTime(releases: seq<Release>): real {
    if releases == [] then 0.0 else releases[|releases| - 1].time
  }

  /** Lines: every line owed has been returned or is queued, in order, once. Acknowledgements: one for each event,
      in order. Chat: every line written has been released or is queued, in order, once, and was sent if it has
      words. */
  ghost predicate Inv(s: State) {
    && s.delivered + s.events == Lines(s.consumed)
    && Acks(s.wire) == AcksOwed(s.consumed)
    && Numbered(Commands(s.wire))
    && (s.connected ==> s.sequence == |Commands(s.wire)| % SEQUENCE_LIMIT)
    && InStep(s.received, s.consumed, s.buffer, s.connected)
    && ReleasedLines(s.releases) + s.outbox == s.written
    && (s.connected ==> Chat(s.wire) == Spoken(ReleasedLines(s.releases)))
    && s.lastSay == LastTime(s.releases)
    && Paced(s.releases, s.interval)
  }

  // ---- it holds after every operation ---------------------------------------------------------

  lemma FreshInv(input: seq<Recv>, interval: real)
    ensures Inv(Fresh(input, interval))
  {
  }

  lemma StreamOne(x: Data)
    ensures match ReadPacket(x)
            case More => Stream(x) == Parsed([], x, false)
            case Bad => Stream(x) == Parsed([], x, true)
            case Got(p, rest) => Stream(x) == Stream(rest).(payloads := [p] + Stream(rest).payloads)
    ensures forall y :: ReadPacket(x).Got? ==> ReadPacket(x + y) == Got(ReadPacket(x).payload, ReadPacket(x).rest + y)
    ensures forall y :: ReadPacket(x).Bad? ==> ReadPacket(x + y).Bad?
  {
    hide ReadPacket;
    ReadPacketStable();
    ReadOne(ReadPacket, x);
  }

  /** Receiving keeps the stream in step, and everything but the new packet is as it was. */
  lemma {:induction false} ReceiveInStep(s: State)
    requires InStep(s.received, s.consumed, s.buffer, s.connected)
    ensures var (s', r) := Receive(s);
            && InStep(s'.received, s'.consumed, s'.buffer, s'.connected)
            && s'.consumed == if r.Received? then s.consumed + [r.packet] else s.consumed
    decreases |s.input|
  {
    hide ReadPacket, Stream;
    if s.connected {
      StreamOne(s.buffer);
      match ReadPacket(s.buffer)
      case Bad =>
      case Got(p, rest) =>
        var tail := Stream(rest).payloads;
        assert s.consumed + ([p] + tail) == s.consumed + [p] + tail;
      case More =>
        if s.input != [] && s.input[0].Chunk? && s.input[0].data != [] {
          InStepMore(s, s.input[0].data);
          ReceiveInStep(s.(input := s.input[1..], buffer := s.buffer + s.input[0].data,
                           received := s.received + s.input[0].data));
        }
    }
  }

  /** Bytes that do not complete a packet keep it in step. */
  lemma InStepMore(s: State, data: Data)
    requires InStep(s.received, s.consumed, s.buffer, s.connected) && s.connected && ReadPacket(s.buffer).More?
    ensures InStep(s.received + data, s.consumed, s.buffer + data, s.connected)
  {
    hide ReadPacket;
    ReadPacketStable();
    ReadAllAppend(ReadPacket, s.received, data);
    StreamOne(s.buffer);
    assert !Stream(s.received).bad ==> Stream(s.received) == Parsed(s.consumed + [], s.buffer, false);
    assert s.consumed + [] == s.consumed;
  }

  /** A received packet and what the client does with it. */
  function Taken(s: State): State {
    var (s', r) := Receive(s);
    if r.Received? && r.packet.fromServer then Handle(s', r.packet) else s'
  }

  lemma TakenInv(s: State)
    requires Inv(s)
    ensures Inv(Taken(s))
  {
    hide InStep, Numbered, Paced, LastTime, Gather, ReadPacket;
    var (s', r) := Receive(s);
    ReceiveInStep(s);
    if r.Received? {
      var p := r.packet;
      GatherOne(LineOf, s.consumed, p);
      GatherOne(AckOwedTo, s.consumed, p);
      assert s.delivered + (s.events + LineOf(p)) == s.delivered + s.events + LineOf(p);
      if p.fromServer && !p.isResponse {
        SentOne(s.wire, Sent(AckFor(p), false));
      }
    }
  }

  lemma SentOne(wire: seq<Sent>, m: Sent)
    ensures Acks(wire + [m]) == if m.packet.fromServer then Acks(wire) + [m.packet] else Acks(wire)
    ensures Commands(wire + [m]) == if m.packet.fromServer then Commands(wire) else Commands(wire) + [m.packet]
    ensures Chat(wire + [m]) == if m.chat then Chat(wire) + [m.packet.words] else Chat(wire)
  {
    GatherOne(AckIn, wire, m);
    GatherOne(CommandIn, wire, m);
    GatherOne(ChatIn, wire, m);
  }

  lemma {:induction false} PumpInv(s: State, sequence: nat, left: nat)
    requires Inv(s)
    ensures Inv(Pump(s, sequence, left).0)
    decreases left
  {
    hide Inv, Receive, Handle;
    if left > 0 {
      TakenInv(s);
      if Receive(s).1.Received? {
        PumpInv(Taken(s), sequence, left - 1);
      }
    }
  }

  lemma DrainOne(s: State)
    requires s.connected && !PacketLength(s.buffer).Nonsense?
    requires PacketLength(s.buffer).Known? || Readable(s.input)
    ensures Drain(s).0 == if Receive(s).1.Received? then Drain(Taken(s)).0 else Taken(s)
    ensures Receive(s).1.Received? ==>
              |Taken(s).input| < |s.input| || (|Taken(s).input| == |s.input| && |Taken(s).buffer| < |s.buffer|)
  {
    hide Receive, PacketLength;
  }

  lemma {:induction false} DrainInv(s: State)
    requires Inv(s)
    ensures Inv(Drain(s).0)
    decreases |s.input|, |s.buffer|
  {
    if s.connected && !PacketLength(s.buffer).Nonsense? && (PacketLength(s.buffer).Known? || Readable(s.input)) {
      hide *;
      TakenInv(s);
      DrainOne(s);
      if Receive(s).1.Received? {
        DrainInv(Taken(s));
      }
    } else {
      InvSkips(s, if s.input == [] then [] else s.input[1..]);
    }
  }

  /** The invariant says nothing of what is still to arrive. */
  lemma InvSkips(s: State, input: seq<Recv>)
    requires Inv(s)
    ensures Inv(s.(input := input))
  {
  }

  /** Nor of what commands came to. */
  lemma InvAnswers(s: State, answers: seq<Reply>)
    requires Inv(s)
    ensures Inv(s.(answers := answers))
  {
  }

  lemma NextNumber(count: nat)
    ensures (count % SEQUENCE_LIMIT + 1) % SEQUENCE_LIMIT == (count + 1) % SEQUENCE_LIMIT
    ensures count % SEQUENCE_LIMIT % SEQUENCE_LIMIT == count % SEQUENCE_LIMIT
  {
  }

  /** Below the wrap no two commands share a number. */
  lemma NumbersDistinct(commands: seq<Packet>)
    requires Numbered(commands) && |commands| < SEQUENCE_LIMIT
    ensures forall i | 0 <= i < |commands| :: commands[i].sequence != |commands| % SEQUENCE_LIMIT
  {
    forall i | 0 <= i < |commands|
      ensures commands[i].sequence != |commands| % SEQUENCE_LIMIT
    {
      assert i % SEQUENCE_LIMIT == i;
    }
  }

  lemma NumberedOne(commands: seq<Packet>, p: Packet)
    requires Numbered(commands) && p.sequence == |commands| % SEQUENCE_LIMIT
    ensures Numbered(commands + [p])
  {
  }

  /** The record of a sent command, chat or not. */
  lemma SendNumbered(s: State, words: seq<Word>, chat: bool)
    requires s.connected && Numbered(Commands(s.wire)) && s.sequence == |Commands(s.wire)| % SEQUENCE_LIMIT
    ensures var s' := Send(s, words, chat);
            && Acks(s'.wire) == Acks(s.wire)
            && Chat(s'.wire) == (if chat then Chat(s.wire) + [words] else Chat(s.wire))
            && Commands(s'.wire) == Commands(s.wire) + [Packet(false, false, s.sequence, words)]
            && Numbered(Commands(s'.wire)) && s'.sequence == |Commands(s'.wire)| % SEQUENCE_LIMIT
  {
    NextNumber(|Commands(s.wire)|);
    var p := Packet(false, false, s.sequence, words);
    SentOne(s.wire, Sent(p, chat));
    NumberedOne(Commands(s.wire), p);
  }

  lemma SendInv(s: State, words: seq<Word>)
    requires Inv(s)
    ensures Inv(Send(s, words, false))
  {
    if s.connected {
      SendNumbered(s, words, false);
    }
  }

  lemma CommandInv(s: State, words: seq<Word>)
    requires Inv(s)
    ensures Inv(CommandWords(s, words, false).0)
  {
    SendInv(s, words);
    PumpInv(Send(s, words, false), s.sequence % SEQUENCE_LIMIT, MAX_PUMP);
    var (s', r) := Pump(Send(s, words, false), s.sequence % SEQUENCE_LIMIT, MAX_PUMP);
    InvAnswers(s', s'.answers + [r]);
  }

  lemma PacedOne(releases: seq<Release>, rel: Release, interval: real)
    requires Paced(releases, interval)
    requires rel.paced ==> rel.time - LastTime(releases) >= interval
    ensures Paced(releases + [rel], interval)
  {
    forall i | 0 <= i < |releases + [rel]|
      ensures (releases + [rel])[i].paced ==> (releases + [rel])[i].time - LastTime((releases + [rel])[..i]) >= interval
    {
      assert (releases + [rel])[..i] == releases[..i];
      assert releases[..|releases|] == releases;
    }
  }

  lemma ReleaseRecorded(releases: seq<Release>, rel: Release)
    ensures ReleasedLines(releases + [rel]) == ReleasedLines(releases) + [rel.line]
    ensures Spoken(ReleasedLines(releases) + [rel.line]) == Spoken(ReleasedLines(releases)) + SpokenIn(rel.line)
    ensures LastTime(releases + [rel]) == rel.time
  {
    GatherOne(LineIn, releases, rel);
    GatherOne(SpokenIn, ReleasedLines(releases), rel.line);
  }

  /** The client as a line leaves the queue. */
  function Releasing(s: State, paced: bool, now: real): State
    requires s.outbox != []
  {
    s.(outbox := s.outbox[1..], lastSay := now, releases := s.releases + [Release(s.outbox[0], now, paced)])
  }

  /** A line taken off the queue and, if it has words, sent. */
  lemma ReleaseSent(s: State, paced: bool, now: real)
    requires Inv(s) && s.outbox != []
    requires paced ==> now - s.lastSay >= s.interval
    ensures var s1 := Releasing(s, paced, now);
            Inv(if s.outbox[0] == [] then s1 else Send(s1, s.outbox[0], true))
  {
    hide Gather, Acks, Commands, Chat, Spoken, ReleasedLines, Lines, AcksOwed, Numbered, InStep, Paced, LastTime;
    var line := s.outbox[0];
    var rel := Release(line, now, paced);
    ReleaseRecorded(s.releases, rel);
    PacedOne(s.releases, rel, s.interval);
    assert ReleasedLines(s.releases) + [line] + s.outbox[1..] == ReleasedLines(s.releases) + s.outbox;
    if s.connected && line != [] {
      SendNumbered(Releasing(s, paced, now), line, true);
    }
    assert line == [] ==> Spoken(ReleasedLines(s.releases)) + [] == Spoken(ReleasedLines(s.releases));
  }

  lemma ReleaseInv(s: State, paced: bool, now: real)
    requires Inv(s) && s.outbox != []
    requires paced ==> now - s.lastSay >= s.interval
    ensures Inv(CommandWords(Releasing(s, paced, now), s.outbox[0], true).0)
  {
    hide Inv, Pump;
    ReleaseSent(s, paced, now);
    if s.connected && s.outbox[0] != [] {
      PumpInv(Send(Releasing(s, paced, now), s.outbox[0], true), s.sequence % SEQUENCE_LIMIT, MAX_PUMP);
      var (s', r) := Pump(Send(Releasing(s, paced, now), s.outbox[0], true), s.sequence % SEQUENCE_LIMIT, MAX_PUMP);
      InvAnswers(s', s'.answers + [r]);
    }
  }

  lemma FlushOne(s: State, paced: bool, now: real)
    requires s.outbox != [] && !(paced && now - s.lastSay < s.interval)
    ensures var (s', r) := CommandWords(Releasing(s, paced, now), s.outbox[0], true);
            && |s'.outbox| < |s.outbox|
            && Flush(s, paced, now) == if Survives(r) then Flush(s', paced, now) else (s', Some(r.error))
  {
    hide CommandWords;
    CommandKeepsOutbox(Releasing(s, paced, now), s.outbox[0], true);
  }

  lemma {:induction false} FlushInv(s: State, paced: bool, now: real)
    requires Inv(s)
    ensures Inv(Flush(s, paced, now).0)
    decreases |s.outbox|
  {
    if s.outbox != [] && !(paced && now - s.lastSay < s.interval) {
      hide Inv, CommandWords, Flush, Releasing;
      ReleaseInv(s, paced, now);
      FlushOne(s, paced, now);
      FlushInv(CommandWords(Releasing(s, paced, now), s.outbox[0], true).0, paced, now);
    }
  }

  // ---- runs -----------------------------------------------------------------------------------

  datatype Op = DoCommand(words: seq<Word>, now: real)
              | DoWrite(line: Line, now: real)
              | DoRead(now: real, keepaliveDue: bool, silentTooLong: bool)

  function Apply(s: State, op: Op): State {
    match op
    case DoCommand(words, now) => Command(s, words, now).0
    case DoWrite(line, now) => Write(s, line, now).0
    case DoRead(now, keepaliveDue, silent) => ReadLines(s, now, keepaliveDue, silent).0
  }

  function Run(s: State, ops: seq<Op>): State
    decreases |ops|
  {
    if ops == [] then s else Run(Apply(s, ops[0]), ops[1..])
  }

  lemma HousekeepingInv(s: State, now: real, keepaliveDue: bool)
    requires Inv(s)
    ensures Inv(Housekeeping(s, now, keepaliveDue).0)
  {
    DrainInv(s);
    var s1 := Drain(s).0;
    FlushInv(s1, true, now);
    CommandInv(Flush(s1, true, now).0, [PROBE]);
  }

  lemma ReadInv(s: State, now: real, keepaliveDue: bool, silent: bool)
    requires Inv(s)
    ensures Inv(ReadLines(s, now, keepaliveDue, silent).0)
  {
    hide Numbered, Paced, LastTime, Gather, Housekeeping, CommandWords;
    HousekeepingInv(s, now, keepaliveDue);
    CommandInv(Housekeeping(s, now, keepaliveDue).0, [PROBE]);
  }

  lemma ApplyInv(s: State, op: Op)
    requires Inv(s)
    ensures Inv(Apply(s, op))
  {
    match op
    case DoCommand(words, now) =>
      FlushInv(s, false, now);
      CommandInv(Flush(s, false, now).0, words);
    case DoWrite(line, now) =>
      var s' := s.(outbox := s.outbox + [line], written := s.written + [line]);
      assert ReleasedLines(s.releases) + s'.outbox == ReleasedLines(s.releases) + s.outbox + [line];
      FlushInv(s', true, now);
    case DoRead(now, keepaliveDue, silent) =>
      ReadInv(s, now, keepaliveDue, silent);
  }

  lemma {:induction false} RunInv(s: State, ops: seq<Op>)
    requires Inv(s)
    ensures Inv(Run(s, ops))
    decreases |ops|
  {
    if ops != [] {
      ApplyInv(s, ops[0]);
      RunInv(Apply(s, ops[0]), ops[1..]);
    }
  }

  // ---- the lines that reads return ------------------------------------------------------------

  /** Every line returned by a read, over a run. */
  function Returned(s: State, ops: seq<Op>): seq<Line>
    decreases |ops|
  {
    if ops == [] then []
    else
      (match ops[0]
       case DoRead(now, keepaliveDue, silent) => ReadLines(s, now, keepaliveDue, silent).1
       case _ => []) + Returned(Apply(s, ops[0]), ops[1..])
  }

  lemma {:induction false} FlushKeepsDelivered(s: State, paced: bool, now: real)
    ensures Flush(s, paced, now).0.delivered == s.delivered
    decreases |s.outbox|
  {
    hide CommandWords;
    if s.outbox != [] && !(paced && now - s.lastSay < s.interval) {
      FlushOne(s, paced, now);
      CommandKeepsOutbox(Releasing(s, paced, now), s.outbox[0], true);
      FlushKeepsDelivered(CommandWords(Releasing(s, paced, now), s.outbox[0], true).0, paced, now);
    }
  }

  lemma TakenKeepsDelivered(s: State)
    ensures Taken(s).delivered == s.delivered
  {
  }

  lemma {:induction false} DrainKeepsDelivered(s: State)
    ensures Drain(s).0.delivered == s.delivered
    decreases |s.input|, |s.buffer|
  {
    if s.connected && !PacketLength(s.buffer).Nonsense? && (PacketLength(s.buffer).Known? || Readable(s.input)) {
      hide *;
      TakenKeepsDelivered(s);
      DrainOne(s);
      if Receive(s).1.Received? {
        DrainKeepsDelivered(Taken(s));
      }
    }
  }

  lemma ReadReturns(s: State, now: real, keepaliveDue: bool, silent: bool)
    ensures var (s', lines) := ReadLines(s, now, keepaliveDue, silent); s'.delivered == s.delivered + lines
  {
    hide Drain, Flush, CommandWords;
    DrainKeepsDelivered(s);
    var s1 := Drain(s).0;
    FlushKeepsDelivered(s1, true, now);
    var s2 := Flush(s1, true, now).0;
    CommandKeepsOutbox(s2, [PROBE], false);
    CommandKeepsOutbox(Housekeeping(s, now, keepaliveDue).0, [PROBE], false);
  }

  /** What the session keeps account of is what its reads return. */
  lemma {:induction false} RunReturns(s: State, ops: seq<Op>)
    ensures Run(s, ops).delivered == s.delivered + Returned(s, ops)
    decreases |ops|
  {
    hide Flush, CommandWords, ReadLines;
    if ops != [] {
      match ops[0] {
        case DoCommand(words, now) =>
          FlushKeepsDelivered(s, false, now);
          CommandKeepsOutbox(Flush(s, false, now).0, words, false);
        case DoWrite(line, now) =>
          FlushKeepsDelivered(s.(outbox := s.outbox + [line], written := s.written + [line]), true, now);
        case DoRead(now, keepaliveDue, silent) => ReadReturns(s, now, keepaliveDue, silent);
      }
      RunReturns(Apply(s, ops[0]), ops[1..]);
    }
  }

  // ---- what goes in and what is written -------------------------------------------------------

  /** All the bytes a socket script brings. */
  function DataOf(input: seq<Recv>): Data {
    if input == [] then [] else (if input[0].Chunk? then input[0].data else []) + DataOf(input[1..])
  }

  /** The bytes received and those still to come. */
  function Total(s: State): Data {
    s.received + DataOf(s.input)
  }

  lemma {:induction false} ReceiveTotal(s: State)
    ensures Total(Receive(s).0) == Total(s)
    decreases |s.input|
  {
    if s.connected && ReadPacket(s.buffer).More? && s.input != [] && s.input[0].Chunk? && s.input[0].data != [] {
      var data := s.input[0].data;
      assert s.received + (data + DataOf(s.input[1..])) == s.received + data + DataOf(s.input[1..]);
      ReceiveTotal(s.(input := s.input[1..], buffer := s.buffer + data, received := s.received + data));
    }
  }

  lemma TakenTotal(s: State)
    ensures Total(Taken(s)) == Total(s)
  {
    ReceiveTotal(s);
  }

  lemma {:induction false} PumpTotal(s: State, sequence: nat, left: nat)
    ensures Total(Pump(s, sequence, left).0) == Total(s)
    decreases left
  {
    hide Receive, Handle, Total;
    if left > 0 {
      TakenTotal(s);
      ReceiveTotal(s);
      if Receive(s).1.Received? {
        PumpTotal(Taken(s), sequence, left - 1);
      }
    }
  }

  lemma CommandTotal(s: State, words: seq<Word>, chat: bool)
    ensures Total(CommandWords(s, words, chat).0) == Total(s)
  {
    hide Pump, DataOf;
    if words != [] && s.connected {
      PumpTotal(Send(s, words, chat), s.sequence % SEQUENCE_LIMIT, MAX_PUMP);
    }
  }

  lemma {:induction false} FlushTotal(s: State, paced: bool, now: real)
    ensures Total(Flush(s, paced, now).0) == Total(s) && Flush(s, paced, now).0.written == s.written
    decreases |s.outbox|
  {
    hide CommandWords;
    if s.outbox != [] && !(paced && now - s.lastSay < s.interval) {
      FlushOne(s, paced, now);
      CommandTotal(Releasing(s, paced, now), s.outbox[0], true);
      CommandKeepsOutbox(Releasing(s, paced, now), s.outbox[0], true);
      FlushTotal(CommandWords(Releasing(s, paced, now), s.outbox[0], true).0, paced, now);
    }
  }

  lemma TakenKeepsWritten(s: State)
    ensures Taken(s).written == s.written
  {
  }

  lemma {:induction false} DrainTotal(s: State)
    ensures Total(Drain(s).0) == Total(s) && Drain(s).0.written == s.written
    decreases |s.input|, |s.buffer|
  {
    if s.connected && !PacketLength(s.buffer).Nonsense? && (PacketLength(s.buffer).Known? || Readable(s.input)) {
      hide *;
      TakenTotal(s);
      TakenKeepsWritten(s);
      DrainOne(s);
      if Receive(s).1.Received? {
        DrainTotal(Taken(s));
      }
    }
  }

  lemma ReadTotal(s: State, now: real, keepaliveDue: bool, silent: bool)
    ensures var s' := ReadLines(s, now, keepaliveDue, silent).0; Total(s') == Total(s) && s'.written == s.written
  {
    hide Drain, Flush, CommandWords, DataOf;
    DrainTotal(s);
    var s1 := Drain(s).0;
    FlushTotal(s1, true, now);
    var s2, s3 := Flush(s1, true, now).0, Housekeeping(s, now, keepaliveDue).0;
    CommandTotal(s2, [PROBE], false);
    CommandKeepsOutbox(s2, [PROBE], false);
    CommandTotal(s3, [PROBE], false);
    CommandKeepsOutbox(s3, [PROBE], false);
  }

  function WrittenBy(op: Op): seq<Line> { if op.DoWrite? then [op.line] else [] }

  /** The chat written over a run. */
  function Written(ops: seq<Op>): seq<Line>
    decreases |ops|
  {
    if ops == [] then [] else WrittenBy(ops[0]) + Written(ops[1..])
  }

  lemma ApplyTakes(s: State, op: Op)
    ensures Total(Apply(s, op)) == Total(s) && Apply(s, op).written == s.written + WrittenBy(op)
  {
    hide Flush, CommandWords, ReadLines, DataOf;
    match op
    case DoCommand(words, now) =>
      var f := Flush(s, false, now).0;
      FlushTotal(s, false, now);
      CommandTotal(f, words, false);
      CommandKeepsOutbox(f, words, false);
    case DoWrite(line, now) =>
      FlushTotal(s.(outbox := s.outbox + [line], written := s.written + [line]), true, now);
    case DoRead(now, keepaliveDue, silent) => ReadTotal(s, now, keepaliveDue, silent);
  }

  /** No byte is lost between the socket and the buffer, and no chat on its way into the queue. */
  lemma {:induction false} RunTakes(s: State, ops: seq<Op>)
    ensures Total(Run(s, ops)) == Total(s)
    ensures Run(s, ops).written == s.written + Written(ops)
    decreases |ops|
  {
    hide Apply, WrittenBy, Total;
    if ops != [] {
      ApplyTakes(s, ops[0]);
      RunTakes(Apply(s, ops[0]), ops[1..]);
      assert s.written + WrittenBy(ops[0]) + Written(ops[1..]) == s.written + Written(ops);
    }
  }

  // ---- what a run guarantees ------------------------------------------------------------------

  /** However commands, writes and reads are interleaved, whatever the server sends and however TCP cuts it up: the
      lines its reads returned and the queue are the word lists of the decoded server packets, in arrival order, each
      once, and the acknowledgements sent are one for each event among them, with its number. */
  lemma SessionConservation(input: seq<Recv>, interval: real, ops: seq<Op>)
    ensures var s := Run(Fresh(input, interval), ops);
            && Returned(Fresh(input, interval), ops) + s.events == Lines(s.consumed)
            && Acks(s.wire) == AcksOwed(s.consumed)
  {
    hide Run, Returned, Gather, Numbered, Paced, InStep;
    RunReturns(Fresh(input, interval), ops);
    FreshInv(input, interval);
    RunInv(Fresh(input, interval), ops);
  }

  /** When the server sends whole packets, however its bytes are cut up and whatever silences and failures come between,
      the decoded ones are a prefix of them. Once all the bytes are in and the connection lasts, what was returned, what
      is queued and what is still in the buffer add up to every packet the server sent. */
  lemma StreamConservation(packets: seq<Packet>, frames: seq<Data>, input: seq<Recv>, interval: real, ops: seq<Op>)
    requires |frames| == |packets|
    requires forall i | 0 <= i < |packets| :: Sendable(packets[i]) && frames[i] == WireOf(packets[i])
    requires DataOf(input) == Flatten(frames)
    ensures var s := Run(Fresh(input, interval), ops);
            && s.consumed <= packets
            && (s.connected && DataOf(s.input) == [] ==>
                  Returned(Fresh(input, interval), ops) + s.events + Lines(Stream(s.buffer).payloads) == Lines(packets))
  {
    hide *;
    var s := Run(Fresh(input, interval), ops);
    FreshInv(input, interval);
    RunInv(Fresh(input, interval), ops);
    RunReturns(Fresh(input, interval), ops);
    RunTakes(Fresh(input, interval), ops);
    assert [] + Returned(Fresh(input, interval), ops) == Returned(Fresh(input, interval), ops);
    NothingDelivered(input, interval);
    SplitTotal(s);
    WholeStream(packets, frames, s, DataOf(s.input));
  }

  lemma SplitTotal(s: State)
    ensures Total(s) == s.received + DataOf(s.input)
  {
  }

  lemma NothingDelivered(input: seq<Recv>, interval: real)
    ensures Fresh(input, interval).delivered == [] && Total(Fresh(input, interval)) == DataOf(input)
    ensures Fresh(input, interval).written == []
  {
    assert [] + DataOf(input) == DataOf(input);
  }

  lemma WholeStream(packets: seq<Packet>, frames: seq<Data>, s: State, later: Data)
    requires |frames| == |packets|
    requires forall i | 0 <= i < |packets| :: Sendable(packets[i]) && frames[i] == WireOf(packets[i])
    requires Inv(s) && s.received + later == Flatten(frames)
    ensures s.consumed <= packets
    ensures s.connected && later == [] ==>
              s.delivered + s.events + Lines(Stream(s.buffer).payloads) == Lines(packets)
  {
    hide Gather, Numbered, Paced, LastTime;
    ReadPacketStable();
    StreamRoundTrip(packets, frames, frames);
    ChunkingIrrelevant(ReadPacket, [], frames);
    assert [] + Flatten(frames) == Flatten(frames);
    ReadAllAppend(ReadPacket, s.received, later);
    if s.connected && later == [] {
      assert s.received + later == s.received;
      GatherAppend(LineOf, s.consumed, Stream(s.buffer).payloads);
    }
  }

  lemma {:induction false} ReceiveGrows(s: State)
    ensures var (s', r) := Receive(s);
            if r.Received? then s'.consumed == s.consumed + [r.packet] else s'.consumed == s.consumed
    decreases |s.input|
  {
    if s.connected && ReadPacket(s.buffer).More? && s.input != [] && s.input[0].Chunk? {
      var data := s.input[0].data;
      ReceiveGrows(s.(input := s.input[1..], buffer := s.buffer + data, received := s.received + data));
    }
  }

  /** Taking a packet sends no command and forgets nothing. */
  lemma TakenGrows(s: State)
    ensures var (s', r) := Receive(s);
            && Taken(s).connected == s.connected
            && s.wire <= Taken(s).wire && Commands(Taken(s).wire) == Commands(s.wire)
            && Taken(s).consumed == s'.consumed
            && s'.consumed == (if r.Received? then s.consumed + [r.packet] else s.consumed)
  {
    ReceiveGrows(s);
    var (s', r) := Receive(s);
    if r.Received? && r.packet.fromServer && !r.packet.isResponse {
      SentOne(s.wire, Sent(AckFor(r.packet), false));
    }
  }

  lemma {:induction false} PumpReply(s: State, sequence: nat, left: nat)
    ensures var (s', r) := Pump(s, sequence, left);
            && s'.connected == s.connected
            && s.wire <= s'.wire
            && Commands(s'.wire) == Commands(s.wire)
            && |s'.consumed| >= |s.consumed|
            && (r.Ok? ==>
                  && |s'.consumed| > |s.consumed|
                  && s'.consumed[|s'.consumed| - 1] == Packet(false, true, sequence, [OK] + r.value))
    decreases left
  {
    hide Receive, Handle, Commands;
    if left > 0 {
      TakenGrows(s);
      if Receive(s).1.Received? {
        PumpReply(Taken(s), sequence, left - 1);
      }
    }
  }

  lemma InvNumbered(s: State)
    requires Inv(s) && s.connected
    ensures Numbered(Commands(s.wire)) && s.sequence == |Commands(s.wire)| % SEQUENCE_LIMIT
  {
  }

  /** A reply that is returned is the last packet decoded, a response with the number of the command just sent; in a
      session of at most 2^30 commands no earlier command had that number. */
  lemma ReplyIsMine(s: State, words: seq<Word>, chat: bool)
    requires Inv(s) && s.connected && words != []
    requires CommandWords(s, words, chat).1.Ok?
    ensures var (s', r) := CommandWords(s, words, chat);
            && |s'.consumed| > |s.consumed|
            && s'.consumed[|s'.consumed| - 1] == Packet(false, true, s.sequence, [OK] + r.value)
            && Commands(s'.wire) == Commands(s.wire) + [Packet(false, false, s.sequence, words)]
            && (|Commands(s'.wire)| <= SEQUENCE_LIMIT ==>
                  forall i | 0 <= i < |Commands(s.wire)| :: Commands(s.wire)[i].sequence != s.sequence)
  {
    hide Pump, Inv, Commands, Numbered, Acks, Chat, Gather;
    InvNumbered(s);
    SendNumbered(s, words, chat);
    NextNumber(|Commands(s.wire)|);
    if |Commands(s.wire)| < SEQUENCE_LIMIT {
      NumbersDistinct(Commands(s.wire));
    }
    PumpReply(Send(s, words, chat), s.sequence % SEQUENCE_LIMIT, MAX_PUMP);
  }

  lemma {:induction false} FlushEmpties(s: State, paced: bool, now: real)
    ensures var (s', failed) := Flush(s, paced, now);
            && s'.connected == s.connected && s'.written == s.written
            && (!paced && failed.None? ==> s'.outbox == [])
    decreases |s.outbox|
  {
    if s.outbox != [] && !(paced && now - s.lastSay < s.interval) {
      var line := s.outbox[0];
      var s1 := s.(outbox := s.outbox[1..], lastSay := now, releases := s.releases + [Release(line, now, paced)]);
      CommandKeepsOutbox(s1, line, true);
      if line != [] {
        PumpReply(Send(s1, line, true), s1.sequence % SEQUENCE_LIMIT, MAX_PUMP);
      }
      FlushEmpties(CommandWords(s1, line, true).0, paced, now);
    }
  }

  /** A command that goes out goes out behind all the chat written before it: ahead of it on the wire, in the order
      written and each once, is every line that has words. */
  lemma ChatBeforeCommand(s: State, words: seq<Word>, now: real)
    requires Inv(s) && s.connected && words != []
    requires Flush(s, false, now).1.None?
    ensures var before := Flush(s, false, now).0.wire;
            var after := Command(s, words, now).0.wire;
            && |before| < |after| && after[..|before|] == before
            && after[|before|].packet.words == words && !after[|before|].chat
            && Chat(before) == Spoken(s.written)
  {
    var f := Flush(s, false, now).0;
    FlushInv(s, false, now);
    FlushEmpties(s, false, now);
    PumpReply(Send(f, words, false), f.sequence % SEQUENCE_LIMIT, MAX_PUMP);
    assert ReleasedLines(f.releases) + f.outbox == ReleasedLines(f.releases);
  }

  /** Over any run, chat is released in the order it was written and each line once, and a line released because it
      was due comes at least `interval` after the one released before it. */
  lemma ChatPacing(input: seq<Recv>, interval: real, ops: seq<Op>)
    ensures var s := Run(Fresh(input, interval), ops);
            && ReleasedLines(s.releases) + s.outbox == Written(ops)
            && (s.connected ==> Chat(s.wire) == Spoken(ReleasedLines(s.releases)))
            && Paced(s.releases, s.interval)
  {
    hide Run, Written, Gather, Numbered, Paced, InStep;
    RunTakes(Fresh(input, interval), ops);
    assert [] + Written(ops) == Written(ops);
    FreshInv(input, interval);
    RunInv(Fresh(input, interval), ops);
  }
}
