/** The Frostbite client as the object it is: fields updated step by step, loops that pump the socket. Every method is
    proved to do what the session specification says, so everything proved of runs holds of this object. */
module FrostbiteClient {
  import opened Wrappers
  import opened Bytes
  import opened FrostbiteCodec
  import S = FrostbiteSession

  /** One read of the socket: more in the buffer, or what the receive comes to. */
  ghost function MoreBytes(s: S.State): (S.State, Option<S.Receipt>) {
    if s.input == [] then (s, Some(S.Nothing))
    else
      var s' := s.(input := s.input[1..]);
      match s.input[0]
      case Quiet => (s', Some(S.Nothing))
      case Broken => (s', Some(S.Failed))
      case Chunk(data) =>
        if data == [] then (s', Some(S.Failed))
        else (s'.(buffer := s.buffer + data, received := s.received + data), None)
  }

  /** What a receive comes to that finds a packet in the buffer, and one that has to read for it. */
  lemma ReceiveOne(s: S.State)
    requires s.connected
    ensures match PacketLength(s.buffer)
            case Nonsense => S.Receive(s) == (s.(buffer := []), S.Failed)
            case Known(size) =>
              var p := Decode(s.buffer[..size]).value;
              S.Receive(s) == (s.(buffer := s.buffer[size..], consumed := s.consumed + [p]), S.Received(p))
            case Unknown =>
              var (s', stop) := MoreBytes(s);
              S.Receive(s) == if stop.Some? then (s', stop.value) else S.Receive(s')
  {
  }

  class Client {
    var buffer: Data
    var sequence: nat
    var events: seq<S.Line>
    var outbox: seq<S.Line>
    var lastSay: real
    var connected: bool
    var input: seq<S.Recv>
    const interval: real

    // What has happened so far; the program keeps none of it.
    ghost var received: Data
    ghost var consumed: seq<Packet>
    ghost var wire: seq<S.Sent>
    ghost var answers: seq<S.Reply>
    ghost var delivered: seq<S.Line>
    ghost var written: seq<S.Line>
    ghost var releases: seq<S.Release>

    ghost function View(): S.State
      reads this
    {
      S.State(buffer, sequence, events, outbox, lastSay, connected, input, interval,
              received, consumed, wire, answers, delivered, written, releases)
    }

    /** A client whose login has just succeeded. */
    constructor (input: seq<S.Recv>, interval: real)
      ensures View() == S.Fresh(input, interval)
    {
      this.buffer, this.sequence, this.events, this.outbox := [], 0, [], [];
      this.lastSay, this.connected, this.input, this.interval := 0.0, true, input, interval;
      this.received, this.consumed, this.wire := [], [], [];
      this.answers, this.delivered, this.written, this.releases := [], [], [], [];
    }

    method Receive() returns (r: S.Receipt)
      modifies this
      ensures (View(), r) == S.Receive(old(View()))
    {
      if !connected {
        return S.Failed;
      }
      hide S.Receive, MoreBytes;
      while true
        invariant connected && S.Receive(View()) == S.Receive(old(View()))
        decreases |input|
      {
        ReceiveOne(View());
        match PacketLength(buffer)
        case Nonsense =>
          buffer := [];
          return S.Failed;
        case Known(size) =>
          var packet := Decode(buffer[..size]).value;
          buffer := buffer[size..];
          consumed := consumed + [packet];
          return S.Received(packet);
        case Unknown =>
          var stop := ReadMore();
          if stop.Some? {
            return stop.value;
          }
      }
    }

    method ReadMore() returns (stop: Option<S.Receipt>)
      modifies this
      ensures (View(), stop) == MoreBytes(old(View()))
      ensures connected == old(connected) && (stop.None? ==> |input| < |old(input)|)
    {
      if input == [] {
        return Some(S.Nothing);
      }
      var next := input[0];
      input := input[1..];
      match next
      case Quiet => return Some(S.Nothing);
      case Broken => return Some(S.Failed);
      case Chunk(data) =>
        if data == [] {
          return Some(S.Failed);
        }
        buffer := buffer + data;
        received := received + data;
        return None;
    }

    method HandleServerPacket(p: Packet)
      modifies this
      ensures View() == S.Handle(old(View()), p)
    {
      if !p.isResponse {
        wire := wire + [S.Sent(S.AckFor(p), false)];
      }
      if p.words != [] {
        events := events + [p.words];
      }
    }

    method CommandWords(words: seq<Word>, ghost chat: bool) returns (r: S.Reply)
      modifies this
      ensures (View(), r) == S.CommandWords(old(View()), words, chat)
    {
      hide S.Receive, S.Handle;
      if words == [] {
        return Ok([]);
      }
      var number := sequence % SEQUENCE_LIMIT;
      sequence := (sequence + 1) % SEQUENCE_LIMIT;
      if !connected {
        return Err(S.LinkDown);
      }
      wire := wire + [S.Sent(Packet(false, false, number, words), chat)];
      r := AwaitReply(number);
      answers := answers + [r];
    }

    /** The receive loop: at most 64 packets, everything but the reply handled on the way. */
    method AwaitReply(number: nat) returns (r: S.Reply)
      modifies this
      ensures (View(), r) == S.Pump(old(View()), number, S.MAX_PUMP)
    {
      hide S.Receive, S.Handle;
      for i := 0 to S.MAX_PUMP
        invariant S.Pump(View(), number, S.MAX_PUMP - i) == S.Pump(old(View()), number, S.MAX_PUMP)
      {
        var receipt := Receive();
        match receipt
        case Failed => return Err(S.LinkDown);
        case Nothing => return Err(S.Timeout);
        case Received(p) =>
          if p.fromServer {
            HandleServerPacket(p);
          } else if p.isResponse && p.sequence == number {
            if p.words == [] || p.words[0] != S.OK {
              return Err(S.Refused(p.words));
            }
            return Ok(p.words[1..]);
          }
      }
      return Err(S.Timeout);
    }

    method FlushOutbox(paced: bool, now: real) returns (failed: Option<S.Failure>)
      modifies this
      ensures (View(), failed) == S.Flush(old(View()), paced, now)
    {
      while outbox != []
        invariant S.Flush(View(), paced, now) == S.Flush(old(View()), paced, now)
        decreases |outbox|
      {
        if paced && now - lastSay < interval {
          return None;
        }
        var line := outbox[0];
        outbox := outbox[1..];
        lastSay := now;
        releases := releases + [S.Release(line, now, paced)];
        S.CommandKeepsOutbox(View(), line, true);
        var r := CommandWords(line, true);
        if !S.Survives(r) {
          return Some(r.error);
        }
      }
      return None;
    }

    method Drain() returns (ok: bool)
      modifies this
      ensures (View(), ok) == S.Drain(old(View()))
    {
      if !connected {
        return false;
      }
      while true
        invariant connected && S.Drain(View()) == S.Drain(old(View()))
        decreases |input|, |buffer|
      {
        var length := PacketLength(buffer);
        if length.Nonsense? {
          return false;
        }
        if length.Unknown? && !S.Readable(input) {
          if input != [] {
            input := input[1..];
          }
          return true;
        }
        var receipt := Receive();
        match receipt
        case Failed => return false;
        case Nothing => return true;
        case Received(p) =>
          if p.fromServer {
            HandleServerPacket(p);
          }
      }
    }

    method Lost()
      modifies this
      ensures View() == S.Lost(old(View()))
    {
      connected := false;
      buffer := [];
    }

    method Write(line: S.Line, now: real) returns (failed: Option<S.Failure>)
      modifies this
      ensures (View(), failed) == S.Write(old(View()), line, now)
    {
      outbox := outbox + [line];
      written := written + [line];
      failed := FlushOutbox(true, now);
    }

    method Command(words: seq<Word>, now: real) returns (r: S.Reply)
      modifies this
      ensures (View(), r) == S.Command(old(View()), words, now)
    {
      var failed := FlushOutbox(false, now);
      if failed.Some? {
        return Err(failed.value);
      }
      r := CommandWords(words, false);
    }

    method Housekeeping(now: real, keepaliveDue: bool) returns (ok: bool)
      modifies this
      ensures (View(), ok) == S.Housekeeping(old(View()), now, keepaliveDue)
    {
      ok := Drain();
      if !ok {
        return;
      }
      var failed := FlushOutbox(true, now);
      if failed.Some? {
        return false;
      }
      if keepaliveDue {
        var r := CommandWords([S.PROBE], false);
        return S.Survives(r);
      }
    }

    method ReadLines(now: real, keepaliveDue: bool, silentTooLong: bool) returns (lines: seq<S.Line>)
      modifies this
      ensures (View(), lines) == S.ReadLines(old(View()), now, keepaliveDue, silentTooLong)
    {
      if !connected {
        return [];
      }
      var ok := Housekeeping(now, keepaliveDue);
      if !ok {
        Lost();
        return [];
      }
      if silentTooLong {
        var r := CommandWords([S.PROBE], false);
        if !S.Survives(r) {
          Lost();
        }
      }
      lines := events;
      events := [];
      delivered := delivered + lines;
    }
  }
}
