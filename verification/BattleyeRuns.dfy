/** What holds of every run of a BattlEye session: which messages it delivers, and when its chat goes out. */
module BattleyeRuns {
  import opened Wrappers
  import opened Bytes
  import opened Strings
  import opened Seqs
  import opened BattleyeCodec
  import opened BattleyeSession

  // ---- reading a history ----------------------------------------------------------------------

  function Newest(keys: seq<Key>): seq<Key> {
    if |keys| <= SEEN_WINDOW then keys else keys[|keys| - SEEN_WINDOW..]
  }

  /** The messages a client takes as new when it hears `heard`: all but those among the sixteen it took last. */
  function Accepted(heard: seq<Key>): seq<Key> {
    if heard == [] then []
    else
      var before, key := Accepted(heard[..|heard| - 1]), heard[|heard| - 1];
      if key in Newest(before) then before else before + [key]
  }

  function TextOf(key: Key): seq<Text> { if Strip(key.1) == [] then [] else [Strip(key.1)] }

  function AckOwedTo(key: Key): seq<byte> { [key.0] }

  function AckIn(m: Sent): seq<byte> { if m.Ack? then [m.sequence] else [] }

  function SayIn(m: Sent): seq<Sent> { if m.Say? then [m] else [] }

  function LineIn(m: Sent): seq<Text> { if m.Say? then [m.line] else [] }

  /** The lines the parser is owed for messages: their stripped texts, blank ones left out. */
  function Texts(keys: seq<Key>): seq<Text> { Gather(TextOf, keys) }

  function AcksOwed(heard: seq<Key>): seq<byte> { Gather(AckOwedTo, heard) }

  function Acks(wire: seq<Sent>): seq<byte> { Gather(AckIn, wire) }

  function Says(wire: seq<Sent>): seq<Sent> { Gather(SayIn, wire) }

  function Chat(wire: seq<Sent>): seq<Text> { Gather(LineIn, wire) }

  function LastTime(says: seq<Sent>): real {
    if says != [] && says[|says| - 1].Say? then says[|says| - 1].time else 0.0
  }

  /** Whatever is released because it is due comes at least `interval` after the release before it. */
  ghost predicate Paced(says: seq<Sent>, interval: real) {
    forall i | 0 <= i < |says| ::
      says[i].Say? && (says[i].paced ==> says[i].time - LastTime(says[..i]) >= interval)
  }

  // ---- the invariant --------------------------------------------------------------------------

  /** Messages: every line owed has been returned or is queued, in order, once, and every message heard has been
      acknowledged. Chat: every line written has been sent or is queued, in order, once. */
  ghost predicate Inv(s: State) {
    && s.seen == Newest(Accepted(s.heard))
    && s.delivered + s.events == Texts(Accepted(s.heard))
    && Acks(s.wire) == AcksOwed(s.heard)
    && (s.connected ==> Chat(s.wire) + s.outbox == s.written)
    && s.lastSay == LastTime(Says(s.wire))
    && Paced(Says(s.wire), s.interval)
  }

  lemma FreshInv(input: seq<Recv>, interval: real)
    ensures Inv(Fresh(input, interval))
  {
  }

  lemma SentOne(wire: seq<Sent>, m: Sent)
    ensures Acks(wire + [m]) == if m.Ack? then Acks(wire) + [m.sequence] else Acks(wire)
    ensures Says(wire + [m]) == if m.Say? then Says(wire) + [m] else Says(wire)
    ensures Chat(wire + [m]) == if m.Say? then Chat(wire) + [m.line] else Chat(wire)
  {
    GatherOne(AckIn, wire, m);
    GatherOne(SayIn, wire, m);
    GatherOne(LineIn, wire, m);
  }

  lemma RememberNewest(keys: seq<Key>, key: Key)
    ensures Remember(Newest(keys), key) == Newest(keys + [key])
  {
    if |keys| >= SEEN_WINDOW {
      var from := |keys| - SEEN_WINDOW;
      assert keys[from..][1..] == keys[from + 1..];
      assert (keys + [key])[from + 1..] == keys[from + 1..] + [key];
    }
  }

  lemma AcceptedOne(heard: seq<Key>, key: Key)
    ensures var a := Accepted(heard);
            Accepted(heard + [key]) == if key in Newest(a) then a else a + [key]
  {
    assert (heard + [key])[..|heard|] == heard;
  }

  lemma OwedOne(heard: seq<Key>, accepted: seq<Key>, key: Key)
    ensures AcksOwed(heard + [key]) == AcksOwed(heard) + [key.0]
    ensures Texts(accepted + [key]) == Texts(accepted) + TextOf(key)
  {
    GatherOne(AckOwedTo, heard, key);
    GatherOne(TextOf, accepted, key);
  }

  lemma HandleInv(s: State, key: Key)
    requires Inv(s)
    ensures Inv(Handle(s, key))
  {
    hide Paced, LastTime, Strip, Newest, Accepted, Remember, Gather, Acks, Says, Chat, Texts, AcksOwed;
    AcceptedOne(s.heard, key);
    RememberNewest(Accepted(s.heard), key);
    SentOne(s.wire, Ack(key.0));
    OwedOne(s.heard, Accepted(s.heard), key);
    assert s.delivered + (s.events + TextOf(key)) == s.delivered + s.events + TextOf(key);
  }

  /** The invariant says nothing of what is still to arrive or of a half-assembled reply. */
  lemma InvSkips(s: State, input: seq<Recv>, parts: map<byte, Data>)
    requires Inv(s)
    ensures Inv(s.(input := input, parts := parts))
  {
  }

  lemma {:induction false} PumpInv(s: State, number: nat, left: nat)
    requires Inv(s)
    ensures Inv(Pump(s, number, left).0)
    decreases left, |s.input|
  {
    hide Inv, Handle, Assemble;
    if left > 0 && s.input != [] {
      var s' := s.(input := s.input[1..]);
      InvSkips(s, s.input[1..], s.parts);
      if s.input[0].Arrived? {
        var p := s.input[0].packet;
        if p.kind == MESSAGE {
          HandleInv(s', (p.sequence, p.data));
          PumpInv(Handle(s', (p.sequence, p.data)), number, left - 1);
        } else if p.kind != COMMAND || p.sequence != number {
          PumpInv(s', number, left - 1);
        } else {
          var parts := Assemble(s'.parts, p.data).0;
          InvSkips(s', s'.input, parts);
          PumpInv(s'.(parts := parts), number, left - 1);
        }
      }
    }
  }

  lemma {:induction false} DrainInv(s: State)
    requires Inv(s)
    ensures Inv(Drain(s))
    decreases |s.input|
  {
    if s.input != [] {
      var s' := s.(input := s.input[1..]);
      assert Inv(s');
      if s.input[0].Arrived? && s.input[0].packet.kind == MESSAGE {
        var p := s.input[0].packet;
        HandleInv(s', (p.sequence, p.data));
        DrainInv(Handle(s', (p.sequence, p.data)));
      } else if !s.input[0].Quiet? {
        DrainInv(s');
      }
    }
  }

  lemma PacedOne(says: seq<Sent>, m: Sent, interval: real)
    requires Paced(says, interval) && m.Say?
    requires m.paced ==> m.time - LastTime(says) >= interval
    ensures Paced(says + [m], interval) && LastTime(says + [m]) == m.time
  {
    forall i | 0 <= i < |says + [m]|
      ensures (says + [m])[i].Say?
      ensures (says + [m])[i].paced ==> (says + [m])[i].time - LastTime((says + [m])[..i]) >= interval
    {
      assert (says + [m])[..i] == says[..i];
      assert says[..|says|] == says;
    }
  }

  /** The client after one line has left the queue. */
  function Released(s: State, paced: bool, now: real): State
    requires s.outbox != []
  {
    Sending(s, Say(s.number % 256, s.outbox[0], now, paced)).(outbox := s.outbox[1..], lastSay := now)
  }

  lemma ReleasedInv(s: State, paced: bool, now: real)
    requires Inv(s) && s.outbox != []
    requires paced ==> now - s.lastSay >= s.interval
    ensures Inv(Released(s, paced, now))
  {
    hide Paced, LastTime, Accepted, Newest, Gather, Acks, Says, Chat, Texts, AcksOwed;
    var m := Say(s.number % 256, s.outbox[0], now, paced);
    SentOne(s.wire, m);
    PacedOne(Says(s.wire), m, s.interval);
    assert Chat(s.wire) + [s.outbox[0]] + s.outbox[1..] == Chat(s.wire) + s.outbox;
  }

  lemma {:induction false} FlushInv(s: State, paced: bool, now: real)
    requires Inv(s)
    ensures var s' := Flush(s, paced, now);
            && Inv(s')
            && s'.written == s.written && s'.connected == s.connected
            && (!paced ==> s'.outbox == [])
    decreases |s.outbox|
  {
    hide Inv;
    if s.outbox != [] && !(paced && now - s.lastSay < s.interval) {
      ReleasedInv(s, paced, now);
      FlushInv(Released(s, paced, now), paced, now);
    }
  }

  lemma CommandInv(s: State, cmd: Text, now: real)
    requires Inv(s)
    ensures Inv(Command(s, cmd, now).0)
  {
    if s.connected {
      FlushInv(s, false, now);
      var f := Flush(s, false, now);
      SentOne(f.wire, Ask(f.number % 256, cmd));
      var s' := Sending(f, Ask(f.number % 256, cmd)).(parts := map[]);
      assert Inv(s');
      PumpInv(s', f.number % 256, MAX_PUMP);
    }
  }

  // ---- runs -----------------------------------------------------------------------------------

  datatype Op = DoCommand(cmd: Text, now: real)
              | DoWrite(line: Text, now: real)
              | DoRead(now: real, keepaliveDue: bool, probeAt: Option<real>)

  function Apply(s: State, op: Op): State {
    match op
    case DoCommand(cmd, now) => Command(s, cmd, now).0
    case DoWrite(line, now) => Write(s, line, now)
    case DoRead(now, keepaliveDue, probeAt) => ReadLines(s, now, keepaliveDue, probeAt).0
  }

  function Run(s: State, ops: seq<Op>): State
    decreases |ops|
  {
    if ops == [] then s else Run(Apply(s, ops[0]), ops[1..])
  }

  lemma ReadInv(s: State, now: real, keepaliveDue: bool, probeAt: Option<real>)
    requires Inv(s)
    ensures Inv(ReadLines(s, now, keepaliveDue, probeAt).0)
  {
    hide Drain, Flush, Command, Accepted, Newest, Paced, LastTime;
    DrainInv(s);
    FlushInv(Drain(s), true, now);
    var s1 := Flush(Drain(s), true, now);
    SentOne(s1.wire, KeepAlive(s1.number % 256));
    var s2 := if keepaliveDue then Sending(s1, KeepAlive(s1.number % 256)) else s1;
    assert Inv(s2);
    if probeAt.Some? {
      CommandInv(s2, PROBE, probeAt.value);
      assert Inv(Probe(s2, probeAt.value));
    }
  }

  lemma ApplyInv(s: State, op: Op)
    requires Inv(s)
    ensures Inv(Apply(s, op))
  {
    hide Command, ReadLines, Flush, Accepted, Newest, Paced, LastTime;
    match op
    case DoCommand(cmd, now) => CommandInv(s, cmd, now);
    case DoWrite(line, now) =>
      var s' := s.(outbox := s.outbox + [line], written := s.written + [line]);
      assert Chat(s.wire) + s'.outbox == Chat(s.wire) + s.outbox + [line];
      FlushInv(s', true, now);
    case DoRead(now, keepaliveDue, probeAt) => ReadInv(s, now, keepaliveDue, probeAt);
  }

  lemma {:induction false} RunInv(s: State, ops: seq<Op>)
    requires Inv(s)
    ensures Inv(Run(s, ops))
    decreases |ops|
  {
    if ops != [] {
      ApplyInv(s, ops[0]);
      RunInv(Apply(s, ops[0]), ops[1..]);
    }
  }

  // ---- what comes in --------------------------------------------------------------------------

  /** The pushed messages among what arrives, in order. */
  function Messages(input: seq<Recv>): seq<Key> {
    if input == [] then []
    else
      (if input[0].Arrived? && input[0].packet.kind == MESSAGE
       then [(input[0].packet.sequence, input[0].packet.data)] else []) + Messages(input[1..])
  }

  lemma MessagesAhead(first: Recv, rest: seq<Recv>)
    ensures Messages([first] + rest)
         == (if first.Arrived? && first.packet.kind == MESSAGE
             then [(first.packet.sequence, first.packet.data)] else []) + Messages(rest)
  {
    assert ([first] + rest)[1..] == rest;
  }

  lemma {:induction false} MessagesAppend(a: seq<Recv>, b: seq<Recv>)
    ensures Messages(a + b) == Messages(a) + Messages(b)
  {
    if a == [] {
      assert a + b == b;
    } else {
      assert (a + b)[1..] == a[1..] + b;
      MessagesAppend(a[1..], b);
    }
  }

  /** What was received by the time `after` is still to come. */
  function Used(before: seq<Recv>, after: seq<Recv>): seq<Recv> {
    if |after| <= |before| then before[..|before| - |after|] else before
  }

  /** From one state to the other the socket was read off in order, and the messages among what was read were heard,
      each as often as it arrived and nothing else. */
  ghost predicate Heard(s: State, s': State) {
    && |s'.input| <= |s.input| && Used(s.input, s'.input) + s'.input == s.input
    && s'.heard == s.heard + Messages(Used(s.input, s'.input))
  }

  lemma HeardNothing(s: State, s': State)
    requires s'.input == s.input && s'.heard == s.heard
    ensures Heard(s, s')
  {
    assert Used(s.input, s'.input) == [];
    assert Used(s.input, s'.input) + s'.input == s.input;
  }

  lemma HeardOne(s: State, s': State)
    requires s.input != [] && s'.input == s.input[1..]
    requires s'.heard == s.heard + Messages([s.input[0]])
    ensures Heard(s, s')
  {
    assert Used(s.input, s'.input) == [s.input[0]];
  }

  lemma HeardThen(a: State, b: State, c: State)
    requires Heard(a, b) && Heard(b, c)
    ensures Heard(a, c)
  {
    var first, second := Used(a.input, b.input), Used(b.input, c.input);
    assert a.input == first + second + c.input;
    assert Used(a.input, c.input) == first + second;
    MessagesAppend(first, second);
    assert a.heard + Messages(first) + Messages(second) == a.heard + (Messages(first) + Messages(second));
  }

  /** The client after the next datagram. */
  function Next(s: State): State
    requires s.input != []
  {
    var s' := s.(input := s.input[1..]);
    if s.input[0].Arrived? && s.input[0].packet.kind == MESSAGE
    then Handle(s', (s.input[0].packet.sequence, s.input[0].packet.data)) else s'
  }

  lemma NextHeard(s: State)
    requires s.input != []
    ensures Heard(s, Next(s)) && Next(s).input == s.input[1..]
  {
    MessagesAhead(s.input[0], []);
    assert [s.input[0]] + [] == [s.input[0]];
    HeardOne(s, Next(s));
  }

  lemma {:induction false} PumpHeard(s: State, number: nat, left: nat)
    ensures Heard(s, Pump(s, number, left).0)
    decreases left, |s.input|
  {
    hide Handle, Heard, Assemble;
    if left == 0 || s.input == [] {
      HeardNothing(s, s);
    } else {
      NextHeard(s);
      var s', p := Next(s), s.input[0];
      if p.Arrived? {
        if p.packet.kind == COMMAND && p.packet.sequence == number {
          var (parts, reply) := Assemble(s'.parts, p.packet.data);
          HeardNothing(s', s'.(parts := parts));
          HeardThen(s, s', s'.(parts := parts));
          s' := s'.(parts := parts);
          if reply.Some? {
            return;
          }
        }
        PumpHeard(s', number, left - 1);
        HeardThen(s, s', Pump(s', number, left - 1).0);
      }
    }
  }

  /** Where the first silence is, if there is any. */
  function UpToQuiet(input: seq<Recv>): (n: nat)
    ensures n <= |input|
  {
    if input == [] then 0 else if input[0].Quiet? then 1 else 1 + UpToQuiet(input[1..])
  }

  /** Draining takes everything up to the first silence. */
  lemma {:induction false} DrainHeard(s: State)
    ensures Heard(s, Drain(s)) && Drain(s).input == s.input[UpToQuiet(s.input)..]
    decreases |s.input|
  {
    hide Handle, Heard;
    if s.input == [] {
      HeardNothing(s, s);
    } else {
      NextHeard(s);
      if !s.input[0].Quiet? {
        DrainHeard(Next(s));
        HeardThen(s, Next(s), Drain(Next(s)));
      }
    }
  }

  lemma {:induction false} FlushHeard(s: State, paced: bool, now: real)
    ensures var s' := Flush(s, paced, now);
            Heard(s, s') && s'.heard == s.heard && s'.delivered == s.delivered && s'.written == s.written
    decreases |s.outbox|
  {
    hide Heard;
    if s.outbox == [] || (paced && now - s.lastSay < s.interval) {
      HeardNothing(s, s);
    } else {
      var s' := Released(s, paced, now);
      HeardNothing(s, s');
      FlushHeard(s', paced, now);
      HeardThen(s, s', Flush(s', paced, now));
    }
  }

  lemma CommandHeard(s: State, cmd: Text, now: real)
    ensures Heard(s, Command(s, cmd, now).0)
  {
    hide Heard, Flush, Pump;
    if !s.connected {
      HeardNothing(s, s);
    } else {
      var f := Flush(s, false, now);
      var asking := Sending(f, Ask(f.number % 256, cmd)).(parts := map[]);
      FlushHeard(s, false, now);
      HeardNothing(f, asking);
      HeardThen(s, f, asking);
      PumpHeard(asking, f.number % 256, MAX_PUMP);
      HeardThen(s, asking, Pump(asking, f.number % 256, MAX_PUMP).0);
    }
  }

  lemma ReadHeard(s: State, now: real, keepaliveDue: bool, probeAt: Option<real>)
    ensures Heard(s, ReadLines(s, now, keepaliveDue, probeAt).0)
  {
    hide Heard, Flush, Drain, Command;
    if !s.connected {
      HeardNothing(s, s);
    } else {
      var d := Drain(s);
      DrainHeard(s);
      FlushHeard(d, true, now);
      var s1 := Flush(d, true, now);
      HeardThen(s, d, s1);
      var s2 := if keepaliveDue then Sending(s1, KeepAlive(s1.number % 256)) else s1;
      HeardNothing(s1, s2);
      HeardThen(s, s1, s2);
      var s3 := if probeAt.None? then s2 else Probe(s2, probeAt.value);
      if probeAt.None? {
        HeardNothing(s2, s3);
      } else {
        var c := Command(s2, PROBE, probeAt.value).0;
        CommandHeard(s2, PROBE, probeAt.value);
        HeardNothing(c, s3);
        HeardThen(s2, c, s3);
      }
      HeardThen(s, s2, s3);
      var s4 := ReadLines(s, now, keepaliveDue, probeAt).0;
      HeardNothing(s3, s4);
      HeardThen(s, s3, s4);
    }
  }

  lemma ApplyHeard(s: State, op: Op)
    ensures Heard(s, Apply(s, op))
  {
    hide Heard, Flush, Command, ReadLines;
    match op
    case DoCommand(cmd, now) => CommandHeard(s, cmd, now);
    case DoWrite(line, now) =>
      var s' := s.(outbox := s.outbox + [line], written := s.written + [line]);
      HeardNothing(s, s');
      FlushHeard(s', true, now);
      HeardThen(s, s', Flush(s', true, now));
      HeardNothing(s, s);
    case DoRead(now, keepaliveDue, probeAt) => ReadHeard(s, now, keepaliveDue, probeAt);
  }

  /** Whatever a session is doing, in a command, a write or a read, it hears the messages among what it takes off the
      socket, all of them and in order. */
  lemma {:induction false} RunHeard(s: State, ops: seq<Op>)
    ensures Heard(s, Run(s, ops))
    decreases |ops|
  {
    hide Heard, Apply;
    if ops == [] {
      HeardNothing(s, s);
    } else {
      ApplyHeard(s, ops[0]);
      RunHeard(Apply(s, ops[0]), ops[1..]);
      HeardThen(s, Apply(s, ops[0]), Run(s, ops));
    }
  }

  // ---- what goes out to the caller and comes in from it ---------------------------------------

  /** Every line returned by a read, over a run. */
  function Returned(s: State, ops: seq<Op>): seq<Text>
    decreases |ops|
  {
    if ops == [] then []
    else
      (match ops[0]
       case DoRead(now, keepaliveDue, probeAt) => ReadLines(s, now, keepaliveDue, probeAt).1
       case _ => []) + Returned(Apply(s, ops[0]), ops[1..])
  }

  function WrittenBy(op: Op): seq<Text> { if op.DoWrite? then [op.line] else [] }

  /** The chat written over a run. */
  function Written(ops: seq<Op>): seq<Text>
    decreases |ops|
  {
    if ops == [] then [] else WrittenBy(ops[0]) + Written(ops[1..])
  }

  /** What no receiving, sending or waiting touches. */
  predicate SameAccount(s: State, s': State) {
    s'.delivered == s.delivered && s'.written == s.written && s'.connected == s.connected
  }

  lemma HandleAccount(s: State, key: Key)
    ensures SameAccount(s, Handle(s, key)) && Handle(s, key).input == s.input
  {
  }

  lemma {:induction false} PumpAccount(s: State, number: nat, left: nat)
    ensures SameAccount(s, Pump(s, number, left).0)
    decreases left, |s.input|
  {
    hide Handle, Assemble;
    if left > 0 && s.input != [] && s.input[0].Arrived? {
      var s', p := s.(input := s.input[1..]), s.input[0].packet;
      HandleAccount(s', (p.sequence, p.data));
      PumpAccount(Handle(s', (p.sequence, p.data)), number, left - 1);
      PumpAccount(s', number, left - 1);
      PumpAccount(s'.(parts := Assemble(s'.parts, p.data).0), number, left - 1);
    }
  }

  lemma {:induction false} DrainAccount(s: State)
    ensures SameAccount(s, Drain(s))
    decreases |s.input|
  {
    hide Handle;
    if s.input != [] && !s.input[0].Quiet? {
      var s' := s.(input := s.input[1..]);
      DrainAccount(s');
      if s.input[0].Arrived? {
        var key := (s.input[0].packet.sequence, s.input[0].packet.data);
        HandleAccount(s', key);
        DrainAccount(Handle(s', key));
      }
    }
  }

  lemma CommandAccount(s: State, cmd: Text, now: real)
    ensures SameAccount(s, Command(s, cmd, now).0)
  {
    hide Flush, Pump;
    if s.connected {
      FlushHeard(s, false, now);
      var f := Flush(s, false, now);
      PumpAccount(Sending(f, Ask(f.number % 256, cmd)).(parts := map[]), f.number % 256, MAX_PUMP);
    }
  }

  /** A read accounts for the lines it returns: all that are queued. */
  lemma ReadAccount(s: State, now: real, keepaliveDue: bool, probeAt: Option<real>)
    ensures var (s', lines) := ReadLines(s, now, keepaliveDue, probeAt);
            && s'.delivered == s.delivered + lines && s'.written == s.written && (s'.connected ==> s.connected)
            && (if s.connected then s'.events == [] else lines == [])
  {
    hide Drain, Flush, Command;
    DrainAccount(s);
    FlushHeard(Drain(s), true, now);
    var s1 := Flush(Drain(s), true, now);
    var s2 := if keepaliveDue then Sending(s1, KeepAlive(s1.number % 256)) else s1;
    if probeAt.Some? {
      CommandAccount(s2, PROBE, probeAt.value);
    }
  }

  lemma ApplyAccount(s: State, op: Op)
    ensures var s' := Apply(s, op);
            && s'.delivered == s.delivered + (match op
                 case DoRead(now, keepaliveDue, probeAt) => ReadLines(s, now, keepaliveDue, probeAt).1
                 case _ => [])
            && (s'.connected ==> s.connected)
            && (s.connected ==> s'.written == s.written + WrittenBy(op))
  {
    hide Flush, Command, ReadLines;
    match op
    case DoCommand(cmd, now) => CommandAccount(s, cmd, now);
    case DoWrite(line, now) => FlushHeard(s.(outbox := s.outbox + [line], written := s.written + [line]), true, now);
    case DoRead(now, keepaliveDue, probeAt) => ReadAccount(s, now, keepaliveDue, probeAt);
  }

  lemma {:induction false} RunAccount(s: State, ops: seq<Op>)
    ensures var s' := Run(s, ops);
            && s'.delivered == s.delivered + Returned(s, ops)
            && (s'.connected ==> s.connected && s'.written == s.written + Written(ops))
    decreases |ops|
  {
    hide Apply, WrittenBy, ReadLines;
    if ops != [] {
      ApplyAccount(s, ops[0]);
      RunAccount(Apply(s, ops[0]), ops[1..]);
      assert s.written + WrittenBy(ops[0]) + Written(ops[1..]) == s.written + Written(ops);
    }
  }

  // ---- what a run guarantees ------------------------------------------------------------------

  /** However commands, writes and reads are interleaved and whatever arrives: the lines its reads returned and the
      queue are the texts of the messages taken as new among those that arrived so far, in order, each once, and every
      message that arrived was acknowledged, once for each time. */
  lemma MessagesKept(input: seq<Recv>, interval: real, ops: seq<Op>)
    ensures var s := Run(Fresh(input, interval), ops);
            var used := Used(input, s.input);
            && used + s.input == input && s.heard == Messages(used)
            && Returned(Fresh(input, interval), ops) + s.events == Texts(Accepted(Messages(used)))
            && Acks(s.wire) == AcksOwed(Messages(used))
  {
    hide Run, Returned, Accepted, Gather, Paced, LastTime, Written, Messages;
    var start := Fresh(input, interval);
    FreshInv(input, interval);
    RunInv(start, ops);
    RunHeard(start, ops);
    RunAccount(start, ops);
    assert [] + Returned(start, ops) == Returned(start, ops);
    var used := Used(input, Run(start, ops).input);
    assert [] + Messages(used) == Messages(used);
  }

  /** While the connection lasts chat leaves in the order written, each line once; and over any run a line released
      because it was due comes at least `interval` after the one before it. */
  lemma ChatPacing(input: seq<Recv>, interval: real, ops: seq<Op>)
    ensures var s := Run(Fresh(input, interval), ops);
            && (s.connected ==> Chat(s.wire) + s.outbox == Written(ops))
            && Paced(Says(s.wire), s.interval)
  {
    hide Run, Returned, Accepted, Gather, Paced, LastTime, Written, Messages;
    FreshInv(input, interval);
    RunInv(Fresh(input, interval), ops);
    RunAccount(Fresh(input, interval), ops);
    assert [] + Written(ops) == Written(ops);
  }

  lemma HandleSends(s: State, key: Key)
    ensures s.wire <= Handle(s, key).wire
  {
  }

  lemma {:induction false} PumpSends(s: State, number: nat, left: nat)
    ensures s.wire <= Pump(s, number, left).0.wire
    decreases left, |s.input|
  {
    hide Handle, Assemble;
    if left > 0 && s.input != [] && s.input[0].Arrived? {
      var s', p := s.(input := s.input[1..]), s.input[0].packet;
      HandleSends(s', (p.sequence, p.data));
      PumpSends(Handle(s', (p.sequence, p.data)), number, left - 1);
      PumpSends(s', number, left - 1);
      PumpSends(s'.(parts := Assemble(s'.parts, p.data).0), number, left - 1);
    }
  }

  /** A command goes out behind all the chat written before it. */
  lemma ChatBeforeCommand(s: State, cmd: Text, now: real)
    requires Inv(s) && s.connected
    ensures var before := Flush(s, false, now);
            var after := Command(s, cmd, now).0.wire;
            && before.wire + [Ask(before.number % 256, cmd)] <= after
            && Chat(before.wire) == s.written
  {
    FlushInv(s, false, now);
    var f := Flush(s, false, now);
    assert Chat(f.wire) + [] == Chat(f.wire);
    PumpSends(Sending(f, Ask(f.number % 256, cmd)).(parts := map[]), f.number % 256, MAX_PUMP);
  }
}
