/** A BattlEye session: one UDP socket for commands, their replies and the messages the server pushes, resending each
    until it is acknowledged.

    As for Frostbite, the specification is a function on session states and the socket is a script of receives.
  */
module BattleyeSession {
  import opened Wrappers
  import opened Bytes
  import opened BattleyeCodec
  import opened Parts
  import opened Strings

  /** One receive: a datagram that decodes, one that does not, or nothing before the timeout. */
  datatype Recv = Arrived(packet: Packet) | Garbled | Quiet

  /** What identifies a pushed message to the client: its sequence byte and its text. */
  type Key = (byte, Data)

  type Text = Data

  /** What the client sent: a command, chat with the clock value it was released at, an acknowledgement, or the empty
      command that keeps the connection open. */
  datatype Sent = Ask(number: nat, cmd: Text) | Say(number: nat, line: Text, time: real, paced: bool)
                | Ack(sequence: byte) | KeepAlive(number: nat)

  datatype Failure = Timeout | NotConnected

  const SEEN_WINDOW: nat := 16
  const MAX_PUMP: nat := 64
  const PROBE: Text := [112, 108, 97, 121, 101, 114, 115]

  /** The client's fields, then what has happened so far: everything sent, the messages heard (repeats included), the
      lines returned by `read_lines`, and the chat passed to `write`. */
  datatype State = State(
    number: nat, events: seq<Text>, outbox: seq<Text>, lastSay: real, seen: seq<Key>, parts: map<byte, Data>,
    connected: bool, input: seq<Recv>, interval: real,
    wire: seq<Sent>, heard: seq<Key>, delivered: seq<Text>, written: seq<Text>)

  function Fresh(input: seq<Recv>, interval: real): State {
    State(0, [], [], 0.0, [], map[], true, input, interval, [], [], [], [])
  }

  // ---- messages -------------------------------------------------------------------------------

  /** Appending to a `deque(maxlen=16)`. */
  function Remember(seen: seq<Key>, key: Key): seq<Key> {
    (if |seen| < SEEN_WINDOW then seen else seen[1..]) + [key]
  }

  /** `_handle_message`: acknowledge, and queue the text unless this is a repeat still in the window. */
  function Handle(s: State, key: Key): State {
    var s' := s.(wire := s.wire + [Ack(key.0)], heard := s.heard + [key]);
    if key in s.seen then s'
    else
      var text := Strip(key.1);
      s'.(seen := Remember(s.seen, key), events := if text == [] then s.events else s.events + [text])
  }

  // ---- commands -------------------------------------------------------------------------------

  /** `_assemble`: a reply as it is, or one more part of it. */
  function Assemble(parts: map<byte, Data>, data: Data): (map<byte, Data>, Option<Data>) {
    if |data| < 3 || data[0] != 0 then (parts, Some(data))
    else
      var parts' := parts[data[2] := data[3..]];
      if |parts'| < data[1] then (parts', None) else (map[], Some(Join(parts', data[1])))
  }

  /** The receive loop of `command`, with `left` passes to go. */
  function Pump(s: State, number: nat, left: nat): (State, Result<Data, Failure>)
    decreases left, |s.input|
  {
    if left == 0 || s.input == [] then (s, Err(Timeout))
    else
      var s' := s.(input := s.input[1..]);
      match s.input[0]
      case Garbled => (s', Err(Timeout))
      case Quiet => (s', Err(Timeout))
      case Arrived(p) =>
        if p.kind == MESSAGE then Pump(Handle(s', (p.sequence, p.data)), number, left - 1)
        else if p.kind != COMMAND || p.sequence != number then Pump(s', number, left - 1)
        else
          var (parts, reply) := Assemble(s'.parts, p.data);
          match reply
          case Some(data) => (s'.(parts := parts), Ok(data))
          case None => Pump(s'.(parts := parts), number, left - 1)
  }

  function Sending(s: State, m: Sent): State {
    s.(number := (s.number + 1) % 256, wire := s.wire + [m])
  }

  /** `_flush_outbox`. */
  function Flush(s: State, paced: bool, now: real): (r: State)
    ensures r.input == s.input && r.connected == s.connected && r.events == s.events && r.seen == s.seen
    decreases |s.outbox|
  {
    if s.outbox == [] || (paced && now - s.lastSay < s.interval) then s
    else
      var s' := Sending(s, Say(s.number % 256, s.outbox[0], now, paced));
      Flush(s'.(outbox := s.outbox[1..], lastSay := now), paced, now)
  }

  /** `command`. */
  function Command(s: State, cmd: Text, now: real): (State, Result<Data, Failure>) {
    if !s.connected then (s, Err(NotConnected))
    else
      var f := Flush(s, false, now);
      Pump(Sending(f, Ask(f.number % 256, cmd)).(parts := map[]), f.number % 256, MAX_PUMP)
  }

  /** `write`. */
  function Write(s: State, line: Text, now: real): State {
    if !s.connected then s
    else Flush(s.(outbox := s.outbox + [line], written := s.written + [line]), true, now)
  }

  /** `_drain`: every datagram already waiting. */
  function Drain(s: State): State
    decreases |s.input|
  {
    if s.input == [] then s
    else
      var s' := s.(input := s.input[1..]);
      match s.input[0]
      case Quiet => s'
      case Garbled => Drain(s')
      case Arrived(p) => Drain(if p.kind == MESSAGE then Handle(s', (p.sequence, p.data)) else s')
  }

  /** `read_lines`. Whether a keepalive is due is the clock's decision, and an input; so is whether silence has lasted
      too long, with the clock value the probe's own flush reads. A lost session stays lost: reconnecting is not
      modelled. */
  function ReadLines(s: State, now: real, keepaliveDue: bool, probeAt: Option<real>): (State, seq<Text>) {
    if !s.connected then (s, [])
    else
      var s1 := Flush(Drain(s), true, now);
      var s2 := if keepaliveDue then Sending(s1, KeepAlive(s1.number % 256)) else s1;
      var s3 := if probeAt.None? then s2 else Probe(s2, probeAt.value);
      (s3.(events := [], delivered := s3.delivered + s3.events), s3.events)
  }

  /** `_still_there`, and `_lost` when it is not: chat meant for a session that no longer exists is dropped. */
  function Probe(s: State, now: real): State {
    var (s', r) := Command(s, PROBE, now);
    if r.Ok? then s' else s'.(connected := false, outbox := [])
  }
}
