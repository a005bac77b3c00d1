/** The BattlEye client as the object it is. Every method is proved to do what the session specification says. */
module BattleyeClient {
  import opened Wrappers
  import opened Bytes
  import opened BattleyeCodec
  import Parts
  import Strings
  import S = BattleyeSession

  lemma FlushOne(s: S.State, paced: bool, now: real)
    requires s.outbox != [] && !(paced && now - s.lastSay < s.interval)
    ensures var sent := S.Sending(s.(outbox := s.outbox[1..]), S.Say(s.number % 256, s.outbox[0], now, paced));
            S.Flush(s, paced, now) == S.Flush(sent.(lastSay := now), paced, now)
  {
    var m := S.Say(s.number % 256, s.outbox[0], now, paced);
    SendThenTake(s, m, now);
    hide S.Sending;
  }

  lemma SendThenTake(s: S.State, m: S.Sent, now: real)
    requires s.outbox != []
    ensures S.Sending(s.(outbox := s.outbox[1..]), m).(lastSay := now)
         == S.Sending(s, m).(outbox := s.outbox[1..], lastSay := now)
  {
  }

  lemma FlushNothing(s: S.State, paced: bool, now: real)
    ensures s.outbox == [] || (paced && now - s.lastSay < s.interval) ==> S.Flush(s, paced, now) == s
  {
  }

  class Client {
    var number: nat
    var events: seq<S.Text>
    var outbox: seq<S.Text>
    var lastSay: real
    var seen: seq<S.Key>
    var parts: map<byte, Data>
    var connected: bool
    var input: seq<S.Recv>
    const interval: real

    // What has happened so far; the program keeps none of it.
    ghost var wire: seq<S.Sent>
    ghost var heard: seq<S.Key>
    ghost var delivered: seq<S.Text>
    ghost var written: seq<S.Text>

    ghost function View(): S.State
      reads this
    {
      S.State(number, events, outbox, lastSay, seen, parts, connected, input, interval,
              wire, heard, delivered, written)
    }

    /** A client whose login has just been accepted. */
    constructor (input: seq<S.Recv>, interval: real)
      ensures View() == S.Fresh(input, interval)
    {
      this.number, this.events, this.outbox, this.lastSay := 0, [], [], 0.0;
      this.seen, this.parts, this.connected, this.input, this.interval := [], map[], true, input, interval;
      this.wire, this.heard, this.delivered, this.written := [], [], [], [];
    }

    method HandleMessage(p: Packet)
      modifies this
      ensures View() == S.Handle(old(View()), (p.sequence, p.data))
    {
      wire := wire + [S.Ack(p.sequence)];
      heard := heard + [(p.sequence, p.data)];
      var key := (p.sequence, p.data);
      if key in seen {
        return;
      }
      seen := S.Remember(seen, key);
      var text := Strings.Strip(p.data);
      if text != [] {
        events := events + [text];
      }
    }

    method Assemble(data: Data) returns (reply: Option<Data>)
      modifies this
      ensures var (parts', r) := S.Assemble(old(parts), data);
              View() == old(View()).(parts := parts') && reply == r
    {
      if |data| < 3 || data[0] != 0 {
        return Some(data);
      }
      var total, index := data[1], data[2];
      parts := parts[index := data[3..]];
      if |parts| < total {
        return None;
      }
      var joined: Data := [];
      for i := 0 to total
        invariant joined == Parts.Join(parts, i) && View() == old(View()).(parts := parts)
        invariant parts == old(parts)[index := data[3..]]
      {
        joined := joined + (if i in parts then parts[i] else []);
      }
      parts := map[];
      return Some(joined);
    }

    method Send(ghost m: S.Sent) returns (n: nat)
      modifies this
      ensures View() == S.Sending(old(View()), m) && n == old(number) % 256
    {
      n := number % 256;
      number := (number + 1) % 256;
      wire := wire + [m];
    }

    method FlushOutbox(paced: bool, now: real)
      modifies this
      ensures View() == S.Flush(old(View()), paced, now)
    {
      hide S.Flush;
      FlushNothing(View(), paced, now);
      while outbox != []
        invariant S.Flush(View(), paced, now) == S.Flush(old(View()), paced, now)
        decreases |outbox|
      {
        if paced && now - lastSay < interval {
          FlushNothing(View(), paced, now);
          return;
        }
        ghost var before := View();
        var line := outbox[0];
        outbox := outbox[1..];
        var _ := Send(S.Say(number % 256, line, now, paced));
        lastSay := now;
        FlushOne(before, paced, now);
      }
      FlushNothing(View(), paced, now);
    }

    method Command(cmd: S.Text, now: real) returns (r: Result<Data, S.Failure>)
      modifies this
      ensures (View(), r) == S.Command(old(View()), cmd, now)
    {
      if !connected {
        return Err(S.NotConnected);
      }
      FlushOutbox(false, now);
      var n := Send(S.Ask(number % 256, cmd));
      parts := map[];
      ghost var asked := View();
      for i := 0 to S.MAX_PUMP
        invariant S.Pump(View(), n, S.MAX_PUMP - i) == S.Pump(asked, n, S.MAX_PUMP)
      {
        if input == [] {
          break;
        }
        var next := input[0];
        input := input[1..];
        if !next.Arrived? {
          return Err(S.Timeout);
        }
        var p := next.packet;
        if p.kind == MESSAGE {
          HandleMessage(p);
          continue;
        }
        if p.kind != COMMAND || p.sequence != n {
          continue;
        }
        var reply := Assemble(p.data);
        if reply.Some? {
          return Ok(reply.value);
        }
      }
      return Err(S.Timeout);
    }

    method Write(line: S.Text, now: real)
      modifies this
      ensures View() == S.Write(old(View()), line, now)
    {
      if connected {
        outbox := outbox + [line];
        written := written + [line];
        FlushOutbox(true, now);
      }
    }

    method Drain()
      modifies this
      ensures View() == S.Drain(old(View()))
    {
      while input != []
        invariant S.Drain(View()) == S.Drain(old(View()))
        decreases |input|
      {
        var next := input[0];
        input := input[1..];
        if next.Quiet? {
          return;
        }
        if next.Arrived? && next.packet.kind == MESSAGE {
          HandleMessage(next.packet);
        }
      }
    }

    method Probe(now: real)
      modifies this
      ensures View() == S.Probe(old(View()), now)
    {
      var r := Command(S.PROBE, now);
      if r.Err? {
        connected := false;
        outbox := [];
      }
    }

    method ReadLines(now: real, keepaliveDue: bool, probeAt: Option<real>) returns (lines: seq<S.Text>)
      modifies this
      ensures (View(), lines) == S.ReadLines(old(View()), now, keepaliveDue, probeAt)
    {
      if !connected {
        return [];
      }
      Drain();
      FlushOutbox(true, now);
      if keepaliveDue {
        var _ := Send(S.KeepAlive(number % 256));
      }
      if probeAt.Some? {
        Probe(probeAt.value);
      }
      lines := events;
      events := [];
      delivered := delivered + lines;
    }
  }
}
