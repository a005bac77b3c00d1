/** A Frostbite session: one TCP stream that carries the replies to the bot's commands and the events the server
    pushes, and a client that must not lose or repeat either.

    The specification is a function on session states. The socket is a script: every read gives the next entry,
    so a claim about every script is a claim about every server and every way TCP may cut its stream up.
  */
module FrostbiteSession {
  import opened Wrappers
  import opened Bytes
  import opened Framing
  import opened FrostbiteCodec

  /** One read of the socket: bytes (none when the server hung up), silence until the timeout, or an error. */
  datatype Recv = Chunk(data: Data) | Quiet | Broken

  /** A line handed to the parser is the JSON of a word list; the JSON is injective, so the words stand for it. */
  type Line = seq<Word>

  /** `FrostbiteTimeout`, `FrostbiteCommandError` with the server's words, and every other `FrostbiteError`. */
  datatype Failure = Timeout | Refused(words: seq<Word>) | LinkDown

  type Reply = Result<seq<Word>, Failure>

  /** A packet the client sent, and whether it was queued chat. */
  datatype Sent = Sent(packet: Packet, chat: bool)

  /** A chat line leaving the queue, at the clock value the flush read. */
  datatype Release = Release(line: Line, time: real, paced: bool)

  const OK: Word := [79, 75]
  const PROBE: Word := [118, 101, 114, 115, 105, 111, 110]
  const MAX_PUMP: nat := 64

  /** The client's fields, then what has happened so far: bytes received, packets decoded from them, packets sent,
      what each command sent came to, lines returned by `read_lines`, chat passed to `write`, and chat released from the
      queue. */
  datatype State = State(
    buffer: Data, sequence: nat, events: seq<Line>, outbox: seq<Line>, lastSay: real, connected: bool,
    input: seq<Recv>, interval: real,
    received: Data, consumed: seq<Packet>, wire: seq<Sent>, answers: seq<Reply>, delivered: seq<Line>,
    written: seq<Line>, releases: seq<Release>)

  /** A session that has just been opened. */
  function Fresh(input: seq<Recv>, interval: real): State {
    State([], 0, [], [], 0.0, true, input, interval, [], [], [], [], [], [], [])
  }

  // ---- the client -----------------------------------------------------------------------------

  datatype Receipt = Received(packet: Packet) | Nothing | Failed

  /** `_receive`: the next whole packet, reading more of the stream as long as there is none. */
  function Receive(s: State): (r: (State, Receipt))
    ensures r.0 == s.(buffer := r.0.buffer, input := r.0.input, received := r.0.received, consumed := r.0.consumed)
    ensures |r.0.input| <= |s.input|
    ensures r.1.Received? ==> |r.0.input| < |s.input| || |r.0.buffer| < |s.buffer|
    decreases |s.input|
  {
    if !s.connected then (s, Failed)
    else
      match ReadPacket(s.buffer)
      case Bad => (s.(buffer := []), Failed)
      case Got(p, rest) => (s.(buffer := rest, consumed := s.consumed + [p]), Received(p))
      case More =>
        if s.input == [] then (s, Nothing)
        else
          var s' := s.(input := s.input[1..]);
          match s.input[0]
          case Quiet => (s', Nothing)
          case Broken => (s', Failed)
          case Chunk(data) =>
            if data == [] then (s', Failed)
            else Receive(s'.(buffer := s.buffer + data, received := s.received + data))
  }

  function AckFor(p: Packet): Packet {
    Packet(true, true, p.sequence, [OK])
  }

  /** `_handle_server_packet`: acknowledge an event, and queue whatever words it has. */
  function Handle(s: State, p: Packet): State {
    var s' := if p.isResponse then s else s.(wire := s.wire + [Sent(AckFor(p), false)]);
    if p.words == [] then s' else s'.(events := s'.events + [p.words])
  }

  /** The receive loop of `_command_words`, with `left` passes to go. */
  function Pump(s: State, sequence: nat, left: nat): (State, Reply)
    decreases left, |s.input|
  {
    if left == 0 then (s, Err(Timeout))
    else
      var (s', r) := Receive(s);
      match r
      case Failed => (s', Err(LinkDown))
      case Nothing => (s', Err(Timeout))
      case Received(p) =>
        if p.fromServer then Pump(Handle(s', p), sequence, left - 1)
        else if !p.isResponse || p.sequence != sequence then Pump(s', sequence, left - 1)
        else if p.words == [] || p.words[0] != OK then (s', Err(Refused(p.words)))
        else (s', Ok(p.words[1..]))
  }

  function Send(s: State, words: seq<Word>, chat: bool): State {
    var m := Sent(Packet(false, false, s.sequence % SEQUENCE_LIMIT, words), chat);
    s.(sequence := (s.sequence + 1) % SEQUENCE_LIMIT, wire := if s.connected then s.wire + [m] else s.wire)
  }

  /** `_command_words`. */
  function CommandWords(s: State, words: seq<Word>, chat: bool): (State, Reply) {
    if words == [] then (s, Ok([]))
    else if !s.connected then (Send(s, words, chat), Err(LinkDown))
    else
      var (s', r) := Pump(Send(s, words, chat), s.sequence % SEQUENCE_LIMIT, MAX_PUMP);
      (s'.(answers := s'.answers + [r]), r)
  }

  /** A loop that only wants the exchange to happen: a refusal is as good as an answer. */
  predicate Survives(r: Reply) {
    r.Ok? || r.error.Refused?
  }

  /** `_flush_outbox`; the second component is false when it raised. */
  function Flush(s: State, paced: bool, now: real): (State, Option<Failure>)
    decreases |s.outbox|
  {
    if s.outbox == [] || (paced && now - s.lastSay < s.interval) then (s, None)
    else
      var line := s.outbox[0];
      var s1 := s.(outbox := s.outbox[1..], lastSay := now, releases := s.releases + [Release(line, now, paced)]);
      var (s2, r) := CommandWords(s1, line, true);
      CommandKeepsOutbox(s1, line, true);
      if Survives(r) then Flush(s2, paced, now) else (s2, Some(r.error))
  }

  /** Whether `select` finds the socket readable. */
  predicate Readable(input: seq<Recv>) {
    input != [] && !input[0].Quiet?
  }

  /** `_drain`: everything already waiting; false when it raised. */
  function Drain(s: State): (State, bool)
    decreases |s.input|, |s.buffer|
  {
    if !s.connected || PacketLength(s.buffer).Nonsense? then (s, false)
    else if PacketLength(s.buffer).Known? || Readable(s.input) then
      var (s', r) := Receive(s);
      match r
      case Failed => (s', false)
      case Nothing => (s', true)
      case Received(p) => Drain(if p.fromServer then Handle(s', p) else s')
    else
      (if s.input == [] then s else s.(input := s.input[1..]), true)
  }

  /** `_lost`: hang up and forget the half-read packet. The queued events stay. */
  function Lost(s: State): State {
    s.(connected := false, buffer := [])
  }

  /** `write`; the chat goes out now if it is due. */
  function Write(s: State, line: Line, now: real): (State, Option<Failure>) {
    Flush(s.(outbox := s.outbox + [line], written := s.written + [line]), true, now)
  }

  /** `command` and `command_words`: queued chat first, then the command. */
  function Command(s: State, words: seq<Word>, now: real): (State, Reply) {
    var (s', failed) := Flush(s, false, now);
    if failed.Some? then (s', Err(failed.value)) else CommandWords(s', words, false)
  }

  /** The body of the `try` in `read_lines`; false when it raised. */
  function Housekeeping(s: State, now: real, keepaliveDue: bool): (State, bool) {
    var (s1, ok) := Drain(s);
    if !ok then (s1, false)
    else
      var (s2, failed) := Flush(s1, true, now);
      if failed.Some? then (s2, false)
      else if !keepaliveDue then (s2, true)
      else
        var (s3, r) := CommandWords(s2, [PROBE], false);
        (s3, Survives(r))
  }

  /** `read_lines`. The clock decides when a keepalive is due and when silence has lasted too long; both decisions
      are inputs here. A session that has been lost stays lost: reconnecting is not modelled. */
  function ReadLines(s: State, now: real, keepaliveDue: bool, silentTooLong: bool): (State, seq<Line>) {
    if !s.connected then (s, [])
    else
      var (s1, ok) := Housekeeping(s, now, keepaliveDue);
      if !ok then (Lost(s1), [])
      else
        var s2 :=
          if !silentTooLong then s1
          else var (p, r) := CommandWords(s1, [PROBE], false); if Survives(r) then p else Lost(p);
        (s2.(events := [], delivered := s2.delivered + s2.events), s2.events)
  }

  lemma {:induction false} PumpKeepsOutbox(s: State, sequence: nat, left: nat)
    ensures var s' := Pump(s, sequence, left).0;
            s'.outbox == s.outbox && s'.written == s.written && s'.releases == s.releases && s'.lastSay == s.lastSay
            && s'.delivered == s.delivered
            && s'.interval == s.interval && s'.sequence == s.sequence
    decreases left
  {
    if left > 0 {
      var (s', r) := Receive(s);
      match r
      case Received(p) =>
        PumpKeepsOutbox(Handle(s', p), sequence, left - 1);
        PumpKeepsOutbox(s', sequence, left - 1);
      case _ =>
    }
  }

  lemma CommandKeepsOutbox(s: State, words: seq<Word>, chat: bool)
    ensures var s' := CommandWords(s, words, chat).0;
            s'.outbox == s.outbox && s'.written == s.written && s'.releases == s.releases && s'.lastSay == s.lastSay
            && s'.delivered == s.delivered
            && s'.interval == s.interval
  {
    if words != [] && s.connected {
      PumpKeepsOutbox(Send(s, words, chat), s.sequence % SEQUENCE_LIMIT, MAX_PUMP);
    }
  }
}
