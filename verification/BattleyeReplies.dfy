/** Whose reply a BattlEye command gives back. Commands, chat and keepalives share one counter that wraps at a byte, and
    a reply carries nothing but that byte.
  */
module BattleyeReplies {
  import opened Wrappers
  import opened Bytes
  import opened Seqs
  import opened BattleyeCodec
  import opened BattleyeSession
  import opened BattleyeSplit
  import opened Parts
  import R = BattleyeRuns

  // ---- what a reply is made of ----------------------------------------------------------------

  /** The data of the datagrams that carry the command's number, in order. */
  function Answers(input: seq<Recv>, number: nat): seq<Data> {
    if input == [] then []
    else (if Reply(input[0], number) then [input[0].packet.data] else []) + Answers(input[1..], number)
  }

  /** The reply these come to, put together one at a time until there is one. */
  function Assembled(parts: map<byte, Data>, answers: seq<Data>): Option<Data>
    decreases |answers|
  {
    if answers == [] then None
    else
      var (parts', reply) := Assemble(parts, answers[0]);
      if reply.Some? then reply else Assembled(parts', answers[1..])
  }

  /** `n` datagrams arrived, all of them intact, and those that carry the number make up `reply`. */
  predicate Answered(parts: map<byte, Data>, input: seq<Recv>, number: nat, n: nat, reply: Data) {
    && n <= |input|
    && (forall k | 0 <= k < n :: input[k].Arrived?)
    && Assembled(parts, Answers(input[..n], number)) == Some(reply)
  }

  lemma AnswersFirst(input: seq<Recv>, number: nat, n: nat)
    requires 0 < n <= |input|
    ensures Answers(input[..n], number)
         == (if Reply(input[0], number) then [input[0].packet.data] else []) + Answers(input[1..][..n - 1], number)
  {
    assert input[..n][1..] == input[1..][..n - 1];
  }

  /** Sorting them into the first datagram and the rest. */
  lemma AnsweredRest(parts: map<byte, Data>, input: seq<Recv>, number: nat, n: nat, reply: Data)
    requires 0 < n <= |input| && input[0].Arrived?
    ensures var (parts', now) := Assemble(parts, input[0].packet.data);
            var split := if !Reply(input[0], number) then Answered(parts, input[1..], number, n - 1, reply)
                         else if now.Some? then now == Some(reply) && forall k | 0 < k < n :: input[k].Arrived?
                         else Answered(parts', input[1..], number, n - 1, reply);
            Answered(parts, input, number, n, reply) <==> split
  {
    hide Assemble, Reply;
    AnswersFirst(input, number, n);
    var rest := Answers(input[1..][..n - 1], number);
    assert ([input[0].packet.data] + rest)[1..] == rest;
    assert [] + rest == rest;
    assert forall k | 0 < k < n :: input[k] == input[1..][k - 1];
    assert (forall k | 0 <= k < n :: input[k].Arrived?) <==> forall k | 0 <= k < n - 1 :: input[1..][k].Arrived?;
  }

  lemma {:induction false} PumpAnswered(s: State, number: nat, left: nat, reply: Data) returns (n: nat)
    requires Pump(s, number, left).1 == Ok(reply)
    ensures n <= left && n <= |s.input| && Answered(s.parts, s.input, number, n, reply)
    ensures Pump(s, number, left).0.input == s.input[n..]
    decreases left, |s.input|
  {
    hide Assemble, Reply, Answered, Passed, Handle;
    var rest := s.input[1..];
    PumpStep(s, number, left);
    if !Reply(s.input[0], number) {
      PassedFrame(s);
      n := PumpAnswered(Passed(s), number, left - 1, reply);
    } else if Assemble(s.parts, s.input[0].packet.data).1.Some? {
      n := 0;
    } else {
      var parts := Assemble(s.parts, s.input[0].packet.data).0;
      n := PumpAnswered(s.(input := rest, parts := parts), number, left - 1, reply);
    }
    n := n + 1;
    AnsweredRest(s.parts, s.input, number, n, reply);
    assert s.input[n..] == rest[n - 1..];
  }

  lemma {:induction false} AnsweredPump(s: State, number: nat, left: nat, reply: Data, n: nat)
    requires n <= left && Answered(s.parts, s.input, number, n, reply)
    ensures Pump(s, number, left).1 == Ok(reply)
    decreases left, |s.input|
  {
    hide Assemble, Reply, Passed, Handle;
    assert n > 0;
    AnsweredRest(s.parts, s.input, number, n, reply);
    PumpStep(s, number, left);
    if !Reply(s.input[0], number) {
      PassedFrame(s);
      AnsweredPump(Passed(s), number, left - 1, reply, n - 1);
    } else {
      var (parts, now) := Assemble(s.parts, s.input[0].packet.data);
      if now.None? {
        AnsweredPump(s.(input := s.input[1..], parts := parts), number, left - 1, reply, n - 1);
      }
    }
  }

  lemma {:induction false} PumpTimesOut(s: State, number: nat, left: nat)
    ensures Pump(s, number, left).1.Err? ==> Pump(s, number, left).1 == Err(Timeout)
    decreases left, |s.input|
  {
    hide Assemble, Reply, Passed, Handle;
    if left == 0 || s.input == [] {
      PumpOver(s, number, left);
    } else if s.input[0].Arrived? {
      PumpStep(s, number, left);
      PassedFrame(s);
      PumpTimesOut(Passed(s), number, left - 1);
      var (parts, reply) := Assemble(s.parts, s.input[0].packet.data);
      PumpTimesOut(s.(input := s.input[1..], parts := parts), number, left - 1);
    }
  }

  /** The reply of a command is put together from the datagrams that carry the number just sent, from nothing else and
      from nothing received before: it is given back exactly when some first datagrams, at most 64 and all intact, make
      it up. Otherwise it times out. */
  lemma ReplyExactly(s: State, cmd: Text, now: real, reply: Data)
    requires s.connected
    ensures Command(s, cmd, now).1 == Ok(reply)
       <==> exists n: nat :: n <= MAX_PUMP && Answered(map[], s.input, Asking(s, cmd, now).1, n, reply)
    ensures Command(s, cmd, now).1.Err? ==> Command(s, cmd, now).1 == Err(Timeout)
  {
    hide Flush, Pump, Answered;
    var (asking, number) := Asking(s, cmd, now);
    PumpTimesOut(asking, number, MAX_PUMP);
    if Command(s, cmd, now).1 == Ok(reply) {
      var n := PumpAnswered(asking, number, MAX_PUMP, reply);
    }
    forall n: nat | n <= MAX_PUMP && Answered(map[], s.input, number, n, reply)
      ensures Command(s, cmd, now).1 == Ok(reply)
    {
      AnsweredPump(asking, number, MAX_PUMP, reply, n);
    }
  }

  /** `data` is a part that says it has this index. */
  predicate PartAt(data: Data, index: byte, part: Data) {
    |data| >= 3 && data[0] == 0 && data[2] == index && data[3..] == part
  }

  /** Every stored part was cut from one of these. */
  predicate From(parts: map<byte, Data>, answers: seq<Data>) {
    forall i | i in parts :: exists k | 0 <= k < |answers| :: PartAt(answers[k], i, parts[i])
  }

  /** What that gives: one of the answers as it is, or the join of parts each cut from one of them, as many as the last
      announced. */
  lemma {:induction false} AssembledFrom(parts: map<byte, Data>, before: seq<Data>, answers: seq<Data>)
    returns (stored: map<byte, Data>, last: nat)
    requires From(parts, before) && Assembled(parts, answers).Some?
    ensures last < |answers| && From(stored, before + answers)
    ensures var (answer, reply) := (answers[last], Assembled(parts, answers).value);
            if |answer| < 3 || answer[0] != 0 then reply == answer
            else |stored| >= answer[1] && reply == Join(stored, answer[1])
    decreases |answers|
  {
    var answer := answers[0];
    var (parts', reply) := Assemble(parts, answer);
    if |answer| < 3 || answer[0] != 0 {
      assert From(parts, before + answers) by { FromMore(parts, before, answers); }
      return parts, 0;
    }
    var stored' := parts[answer[2] := answer[3..]];
    FromOne(parts, before, answer);
    if reply.Some? {
      FromMore(stored', before + [answer], answers[1..]);
      assert before + [answer] + answers[1..] == before + answers;
      return stored', 0;
    }
    stored, last := AssembledFrom(stored', before + [answer], answers[1..]);
    assert before + [answer] + answers[1..] == before + answers;
    last := last + 1;
  }

  lemma FromMore(parts: map<byte, Data>, before: seq<Data>, more: seq<Data>)
    requires From(parts, before)
    ensures From(parts, before + more)
  {
    forall i | i in parts
      ensures exists k | 0 <= k < |before + more| :: PartAt((before + more)[k], i, parts[i])
    {
      var k :| 0 <= k < |before| && PartAt(before[k], i, parts[i]);
      assert (before + more)[k] == before[k];
    }
  }

  lemma FromOne(parts: map<byte, Data>, before: seq<Data>, answer: Data)
    requires From(parts, before) && |answer| >= 3 && answer[0] == 0
    ensures From(parts[answer[2] := answer[3..]], before + [answer])
  {
    FromMore(parts, before, [answer]);
    assert (before + [answer])[|before|] == answer;
    assert PartAt(answer, answer[2], answer[3..]);
  }

  // ---- the numbers ----------------------------------------------------------------------------

  function NumberIn(m: Sent): seq<nat> { if m.Ack? then [] else [m.number] }

  /** The numbers sent, in order; an acknowledgement carries the server's. */
  function Numbers(wire: seq<Sent>): seq<nat> { Gather(NumberIn, wire) }

  /** From zero, wrapping at a byte. */
  ghost predicate Counted(numbers: seq<nat>) {
    forall i | 0 <= i < |numbers| :: numbers[i] == i % 256
  }

  /** Whatever is sent is numbered, one after the other. */
  ghost predicate Numbered(s: State) {
    Counted(Numbers(s.wire)) && s.number == |Numbers(s.wire)| % 256
  }

  lemma CountedOne(numbers: seq<nat>)
    requires Counted(numbers)
    ensures Counted(numbers + [|numbers| % 256])
  {
  }

  lemma NextByte(n: nat)
    ensures (n % 256 + 1) % 256 == (n + 1) % 256 && n % 256 % 256 == n % 256
  {
  }

  lemma SendingNumbered(s: State, m: Sent)
    requires Numbered(s) && !m.Ack? && m.number == s.number % 256
    ensures Numbered(Sending(s, m)) && Numbers(Sending(s, m).wire) == Numbers(s.wire) + [|Numbers(s.wire)| % 256]
  {
    hide Counted, Gather;
    GatherOne(NumberIn, s.wire, m);
    NextByte(|Numbers(s.wire)|);
    CountedOne(Numbers(s.wire));
  }

  lemma HandleNumbered(s: State, key: Key)
    requires Numbered(s)
    ensures Numbered(Handle(s, key)) && Numbers(Handle(s, key).wire) == Numbers(s.wire)
  {
    GatherOne(NumberIn, s.wire, Ack(key.0));
  }

  lemma {:induction false} PumpNumbered(s: State, number: nat, left: nat)
    requires Numbered(s)
    ensures var s' := Pump(s, number, left).0;
            Numbered(s') && Numbers(s'.wire) == Numbers(s.wire) && s'.connected == s.connected
    decreases left, |s.input|
  {
    hide Handle, Assemble, Numbers;
    if left > 0 && s.input != [] && s.input[0].Arrived? {
      var s', p := s.(input := s.input[1..]), s.input[0].packet;
      assert Numbered(s');
      if p.kind == MESSAGE {
        HandleNumbered(s', (p.sequence, p.data));
        HandleFields(s', (p.sequence, p.data));
        PumpNumbered(Handle(s', (p.sequence, p.data)), number, left - 1);
      } else if p.kind != COMMAND || p.sequence != number {
        PumpNumbered(s', number, left - 1);
      } else {
        var parts := Assemble(s'.parts, p.data).0;
        assert Numbered(s'.(parts := parts));
        PumpNumbered(s'.(parts := parts), number, left - 1);
      }
    }
  }

  lemma HandleFields(s: State, key: Key)
    ensures Handle(s, key).connected == s.connected && Handle(s, key).input == s.input
  {
  }

  lemma {:induction false} DrainNumbered(s: State)
    requires Numbered(s)
    ensures Numbered(Drain(s))
    decreases |s.input|
  {
    hide Handle, Numbers;
    if s.input != [] {
      var s' := s.(input := s.input[1..]);
      assert Numbered(s');
      if s.input[0].Arrived? && s.input[0].packet.kind == MESSAGE {
        var p := s.input[0].packet;
        HandleNumbered(s', (p.sequence, p.data));
        HandleFields(s', (p.sequence, p.data));
        DrainNumbered(Handle(s', (p.sequence, p.data)));
      } else if !s.input[0].Quiet? {
        DrainNumbered(s');
      }
    }
  }

  lemma {:induction false} FlushNumbered(s: State, paced: bool, now: real)
    requires Numbered(s)
    ensures Numbered(Flush(s, paced, now))
    decreases |s.outbox|
  {
    hide Numbers;
    if s.outbox != [] && !(paced && now - s.lastSay < s.interval) {
      SendingNumbered(s, Say(s.number % 256, s.outbox[0], now, paced));
      var s' := R.Released(s, paced, now);
      assert Numbered(s');
      FlushNumbered(s', paced, now);
    }
  }

  lemma CommandNumbered(s: State, cmd: Text, now: real)
    requires Numbered(s)
    ensures var s' := Command(s, cmd, now).0;
            && Numbered(s')
            && (s.connected ==>
                  && Numbered(Flush(s, false, now))
                  && Asking(s, cmd, now).1 == |Numbers(Flush(s, false, now).wire)| % 256
                  && Numbers(s'.wire) == Numbers(Flush(s, false, now).wire) + [Asking(s, cmd, now).1])
  {
    hide Flush, Pump, Numbers;
    if s.connected {
      FlushNumbered(s, false, now);
      var f := Flush(s, false, now);
      SendingNumbered(f, Ask(f.number % 256, cmd));
      var (asking, number) := Asking(s, cmd, now);
      assert Numbered(asking);
      PumpNumbered(asking, number, MAX_PUMP);
    }
  }

  lemma ReadNumbered(s: State, now: real, keepaliveDue: bool, probeAt: Option<real>)
    requires Numbered(s)
    ensures Numbered(ReadLines(s, now, keepaliveDue, probeAt).0)
  {
    hide Drain, Flush, Command, Numbers;
    DrainNumbered(s);
    FlushNumbered(Drain(s), true, now);
    var s1 := Flush(Drain(s), true, now);
    SendingNumbered(s1, KeepAlive(s1.number % 256));
    var s2 := if keepaliveDue then Sending(s1, KeepAlive(s1.number % 256)) else s1;
    assert Numbered(s2);
    if probeAt.Some? {
      CommandNumbered(s2, PROBE, probeAt.value);
      assert Numbered(Probe(s2, probeAt.value));
    }
  }

  /** However a session is used, what it sends is numbered one after the other. */
  lemma {:induction false} RunNumbered(s: State, ops: seq<R.Op>)
    requires Numbered(s)
    ensures Numbered(R.Run(s, ops))
    decreases |ops|
  {
    hide Command, ReadLines, Flush, Numbers;
    if ops != [] {
      match ops[0] {
        case DoCommand(cmd, now) => CommandNumbered(s, cmd, now);
        case DoWrite(line, now) =>
          var s' := s.(outbox := s.outbox + [line], written := s.written + [line]);
          assert Numbered(s');
          FlushNumbered(s', true, now);
        case DoRead(now, keepaliveDue, probeAt) => ReadNumbered(s, now, keepaliveDue, probeAt);
      }
      RunNumbered(R.Apply(s, ops[0]), ops[1..]);
    }
  }

  lemma FreshNumbered(input: seq<Recv>, interval: real)
    ensures Numbered(Fresh(input, interval)) && Numbers(Fresh(input, interval).wire) == []
  {
  }

  // ---- whose reply it is ----------------------------------------------------------------------

  /** In any run: a command's number is the count of what was sent before it, modulo 256, so another numbered send had
      it exactly when it was a multiple of 256 sends earlier. None of the last 255 did. */
  lemma NumberIsMine(input: seq<Recv>, interval: real, ops: seq<R.Op>, cmd: Text, now: real)
    requires R.Run(Fresh(input, interval), ops).connected
    ensures var s := R.Run(Fresh(input, interval), ops);
            var before := Numbers(Flush(s, false, now).wire);
            var number := Asking(s, cmd, now).1;
            && Numbers(Command(s, cmd, now).0.wire) == before + [number]
            && forall i | 0 <= i < |before| :: before[i] == number <==> (|before| - i) % 256 == 0
  {
    hide R.Run, Flush, Command, Numbers;
    var s := R.Run(Fresh(input, interval), ops);
    FreshNumbered(input, interval);
    RunNumbered(Fresh(input, interval), ops);
    CommandNumbered(s, cmd, now);
    var before := Numbers(Flush(s, false, now).wire);
    forall i | 0 <= i < |before|
      ensures i % 256 == |before| % 256 <==> (|before| - i) % 256 == 0
    {
      SameByte(i, |before|);
    }
  }

  /** So, if every reply met comes within 255 numbered sends of what it answers, a command only takes its own. `of` says
      which numbered send each datagram answers, as far as the server knows. */
  lemma OnlyMine(s: State, cmd: Text, now: real, of: seq<nat>)
    requires Numbered(s) && s.connected && |of| == |s.input|
    requires var count := |Numbers(Flush(s, false, now).wire)|;
             forall k | 0 <= k < |of| && s.input[k].Arrived? && s.input[k].packet.kind == COMMAND ::
               s.input[k].packet.sequence == of[k] % 256 && of[k] <= count
    ensures var count := |Numbers(Flush(s, false, now).wire)|;
            forall k | 0 <= k < |of| && s.input[k].Arrived? && s.input[k].packet.kind == COMMAND ::
              && (Reply(s.input[k], Asking(s, cmd, now).1) <==> (count - of[k]) % 256 == 0)
              && (Reply(s.input[k], Asking(s, cmd, now).1) && count - of[k] < 256 ==> of[k] == count)
  {
    hide Flush, Command, Numbers;
    CommandNumbered(s, cmd, now);
    var count := |Numbers(Flush(s, false, now).wire)|;
    forall k | 0 <= k < |of| && s.input[k].Arrived? && s.input[k].packet.kind == COMMAND
      ensures of[k] % 256 == count % 256 <==> (count - of[k]) % 256 == 0
    {
      SameByte(of[k], count);
    }
  }

  lemma SameByte(a: nat, b: nat)
    requires a <= b
    ensures a % 256 == b % 256 <==> (b - a) % 256 == 0
  {
    assert a == 256 * (a / 256) + a % 256 && b == 256 * (b / 256) + b % 256;
  }

  /** The session after `|cmds|` commands none of which was answered. */
  function Unanswered(cmds: seq<Text>, now: real): (ops: seq<R.Op>)
    ensures |ops| == |cmds| && forall i | 0 <= i < |ops| :: ops[i] == R.DoCommand(cmds[i], now)
  {
    seq(|cmds|, i requires 0 <= i < |cmds| => R.DoCommand(cmds[i], now))
  }

  lemma CommandTimesOut(s: State, cmd: Text, now: real)
    requires s.connected && s.outbox == [] && s.input != [] && s.input[0].Quiet?
    ensures Command(s, cmd, now)
         == (Sending(s, Ask(s.number % 256, cmd)).(parts := map[], input := s.input[1..]), Err(Timeout))
  {
  }

  lemma {:induction false} RunTimesOut(s: State, cmds: seq<Text>, now: real, later: seq<Recv>)
    requires s.connected && s.outbox == [] && |s.input| == |cmds| + |later|
    requires s.input[|cmds|..] == later && forall i | 0 <= i < |cmds| :: s.input[i].Quiet?
    ensures var s' := R.Run(s, Unanswered(cmds, now));
            && s'.connected && s'.outbox == [] && s'.input == later
            && s'.number % 256 == After(s.number, |cmds|)
            && (if cmds == [] then s.wire else s.wire + [Ask(s.number % 256, cmds[0])]) <= s'.wire
    decreases |cmds|
  {
    hide Command, R.Run, Unanswered, After;
    AfterStep(s.number, |cmds|);
    RunFirst(s, cmds, now);
    if cmds != [] {
      CommandTimesOut(s, cmds[0], now);
      var s' := Command(s, cmds[0], now).0;
      assert s'.input[|cmds[1..]|..] == later;
      RunTimesOut(s', cmds[1..], now, later);
    }
  }

  /** The number after so many more. */
  function After(number: nat, more: nat): nat {
    (number + more) % 256
  }

  lemma AfterStep(number: nat, more: nat)
    ensures After(number, more) == if more == 0 then number % 256 else After((number + 1) % 256, more - 1)
  {
  }

  lemma RunFirst(s: State, cmds: seq<Text>, now: real)
    ensures R.Run(s, Unanswered(cmds, now))
         == if cmds == [] then s else R.Run(Command(s, cmds[0], now).0, Unanswered(cmds[1..], now))
  {
    hide Command;
    if cmds != [] {
      assert Unanswered(cmds, now)[1..] == Unanswered(cmds[1..], now);
    }
  }

  /** What the wrap costs: after 256 commands that timed out, the late reply to the first of them is given back as the
      reply to the next one, whatever that is. */
  lemma LateReplyTaken(cmds: seq<Text>, cmd: Text, late: Packet, interval: real, now: real)
    requires |cmds| == 256
    requires late.kind == COMMAND && late.sequence == 0 && (|late.data| < 3 || late.data[0] != 0)
    ensures var input := seq(256, _ => Quiet) + [Arrived(late)];
            var s := R.Run(Fresh(input, interval), Unanswered(cmds, now));
            && s.wire != [] && s.wire[0] == Ask(0, cmds[0])
            && s.connected && Asking(s, cmd, now).1 == 0
            && Command(s, cmd, now).1 == Ok(late.data)
  {
    hide R.Run, Pump, Unanswered;
    var input := seq(256, _ => Quiet) + [Arrived(late)];
    RunTimesOut(Fresh(input, interval), cmds, now, [Arrived(late)]);
    var s := R.Run(Fresh(input, interval), Unanswered(cmds, now));
    var (asking, number) := Asking(s, cmd, now);
    PumpStep(asking, number, MAX_PUMP);
  }

  // ---- what an operation sends, and whether the session survives it -----------------------------

  /** A command, chat or keepalive without its number. */
  function Bare(m: Sent): seq<Sent> {
    match m
    case Ask(_, cmd) => [Ask(0, cmd)]
    case Say(_, line, time, paced) => [Say(0, line, time, paced)]
    case KeepAlive(_) => [KeepAlive(0)]
    case Ack(_) => []
  }

  /** Everything sent but acknowledgements, numbers left out. */
  function Sends(wire: seq<Sent>): seq<Sent> { Gather(Bare, wire) }

  function Said(lines: seq<Text>, time: real, paced: bool): (sent: seq<Sent>)
    ensures |sent| == |lines|
  {
    seq(|lines|, i requires 0 <= i < |lines| => Say(0, lines[i], time, paced))
  }

  lemma SendsOne(wire: seq<Sent>, m: Sent)
    ensures Sends(wire + [m]) == Sends(wire) + Bare(m)
  {
    GatherOne(Bare, wire, m);
  }

  lemma SaidFirst(lines: seq<Text>, k: nat, time: real, paced: bool)
    requires 0 < k <= |lines|
    ensures Said(lines[..k], time, paced) == [Say(0, lines[0], time, paced)] + Said(lines[1..][..k - 1], time, paced)
    ensures lines[1..][k - 1..] == lines[k..]
  {
    assert lines[..k] == [lines[0]] + lines[1..][..k - 1];
  }

  /** A flush sends the front of the queue: all of it unless it is paced, and then the first line, if it is due. */
  lemma {:induction false} FlushSends(s: State, paced: bool, now: real) returns (k: nat)
    ensures var s' := Flush(s, paced, now);
            && k <= |s.outbox| && s'.outbox == s.outbox[k..]
            && Sends(s'.wire) == Sends(s.wire) + Said(s.outbox[..k], now, paced)
            && (!paced ==> k == |s.outbox|)
            && (paced && s.interval > 0.0 ==>
                  k == if s.outbox != [] && now - s.lastSay >= s.interval then 1 else 0)
    decreases |s.outbox|
  {
    hide Sends, Said;
    if s.outbox == [] || (paced && now - s.lastSay < s.interval) {
      NothingSaid(s, now, paced);
      k := 0;
    } else {
      var s' := R.Released(s, paced, now);
      k := FlushSends(s', paced, now);
      k := k + 1;
      SendsOne(s.wire, Say(s.number % 256, s.outbox[0], now, paced));
      SaidFirst(s.outbox, k, now, paced);
      var first, rest := [Say(0, s.outbox[0], now, paced)], Said(s.outbox[1..][..k - 1], now, paced);
      assert Sends(s.wire) + first + rest == Sends(s.wire) + (first + rest);
    }
  }

  lemma NothingSaid(s: State, now: real, paced: bool)
    ensures Sends(s.wire) + Said(s.outbox[..0], now, paced) == Sends(s.wire)
  {
  }

  lemma {:induction false} PumpSendsNothing(s: State, number: nat, left: nat)
    ensures var s' := Pump(s, number, left).0; Sends(s'.wire) == Sends(s.wire) && s'.outbox == s.outbox
    decreases left, |s.input|
  {
    hide Handle, Assemble, Sends;
    if left > 0 && s.input != [] && s.input[0].Arrived? {
      var s', p := s.(input := s.input[1..]), s.input[0].packet;
      HandleSendsNothing(s', (p.sequence, p.data));
      PumpSendsNothing(Handle(s', (p.sequence, p.data)), number, left - 1);
      PumpSendsNothing(s', number, left - 1);
      PumpSendsNothing(s'.(parts := Assemble(s'.parts, p.data).0), number, left - 1);
    }
  }

  lemma HandleSendsNothing(s: State, key: Key)
    ensures var s' := Handle(s, key);
            Sends(s'.wire) == Sends(s.wire) && s'.outbox == s.outbox && s'.lastSay == s.lastSay
            && s'.interval == s.interval && s'.input == s.input
  {
    SendsOne(s.wire, Ack(key.0));
  }

  lemma {:induction false} DrainSendsNothing(s: State)
    ensures var s' := Drain(s);
            Sends(s'.wire) == Sends(s.wire) && s'.outbox == s.outbox && s'.lastSay == s.lastSay
            && s'.interval == s.interval
    decreases |s.input|
  {
    hide Handle, Sends;
    if s.input != [] && !s.input[0].Quiet? {
      var s' := s.(input := s.input[1..]);
      DrainSendsNothing(s');
      if s.input[0].Arrived? {
        var key := (s.input[0].packet.sequence, s.input[0].packet.data);
        HandleSendsNothing(s', key);
        DrainSendsNothing(Handle(s', key));
      }
    }
  }

  /** A command sends the queued chat, all of it, and then itself, once. */
  lemma CommandSends(s: State, cmd: Text, now: real)
    requires s.connected
    ensures var s' := Command(s, cmd, now).0;
            && Sends(s'.wire) == Sends(s.wire) + Said(s.outbox, now, false) + [Ask(0, cmd)]
            && s'.outbox == [] && s'.connected
  {
    hide Flush, Pump, Sends, Said;
    var k := FlushSends(s, false, now);
    assert s.outbox[..k] == s.outbox && s.outbox[k..] == [];
    var f := Flush(s, false, now);
    SendsOne(f.wire, Ask(f.number % 256, cmd));
    var asking := Sending(f, Ask(f.number % 256, cmd)).(parts := map[]);
    PumpSendsNothing(asking, f.number % 256, MAX_PUMP);
    R.PumpAccount(asking, f.number % 256, MAX_PUMP);
  }

  /** What a read sends, apart from acknowledgements, `k` lines of chat being due. */
  function ReadSends(outbox: seq<Text>, k: nat, now: real, keepaliveDue: bool, probeAt: Option<real>): seq<Sent>
    requires k <= |outbox|
  {
    Said(outbox[..k], now, true)
    + (if keepaliveDue then [KeepAlive(0)] else [])
    + (if probeAt.Some? then Said(outbox[k..], probeAt.value, false) + [Ask(0, PROBE)] else [])
  }

  /** The probe is answered from what is still to come. */
  predicate ProbeAnswered(input: seq<Recv>, number: nat, n: nat, reply: Data) {
    n <= MAX_PUMP && Answered(map[], input, number, n, reply)
  }

  /** The session as it comes to the probe. */
  function BeforeProbe(s: State, now: real, keepaliveDue: bool): State {
    var s1 := Flush(Drain(s), true, now);
    if keepaliveDue then Sending(s1, KeepAlive(s1.number % 256)) else s1
  }

  lemma BeforeProbeSends(s: State, now: real, keepaliveDue: bool) returns (k: nat)
    requires Numbered(s) && s.connected
    ensures var s' := BeforeProbe(s, now, keepaliveDue);
            && k <= |s.outbox|
            && (s.interval > 0.0 ==> k == if s.outbox != [] && now - s.lastSay >= s.interval then 1 else 0)
            && Sends(s'.wire) == Sends(s.wire) + ReadSends(s.outbox, k, now, keepaliveDue, None)
            && s'.outbox == s.outbox[k..] && s'.connected && Numbered(s')
            && s'.input == s.input[R.UpToQuiet(s.input)..]
  {
    hide Drain, Flush, Sends, Said, Numbers;
    var d := Drain(s);
    DrainSendsNothing(s);
    DrainNumbered(s);
    R.DrainHeard(s);
    R.DrainAccount(s);
    k := FlushSends(d, true, now);
    FlushNumbered(d, true, now);
    R.FlushHeard(d, true, now);
    var s1 := Flush(d, true, now);
    SendsOne(s1.wire, KeepAlive(s1.number % 256));
    SendingNumbered(s1, KeepAlive(s1.number % 256));
    var said := Said(s.outbox[..k], now, true);
    assert Sends(s.wire) + said + [KeepAlive(0)] == Sends(s.wire) + (said + [KeepAlive(0)] + []);
    assert Sends(s.wire) + said == Sends(s.wire) + (said + [] + []);
  }

  lemma ReadAsProbe(s: State, now: real, keepaliveDue: bool, probeAt: Option<real>)
    requires s.connected
    ensures var s' := ReadLines(s, now, keepaliveDue, probeAt).0;
            var b := BeforeProbe(s, now, keepaliveDue);
            if probeAt.None? then s'.wire == b.wire && s'.outbox == b.outbox && s'.connected == b.connected
            else
              var (c, r) := Command(b, PROBE, probeAt.value);
              && s'.wire == c.wire && s'.outbox == (if r.Ok? then c.outbox else [])
              && s'.connected == (r.Ok? && c.connected)
  {
    hide Drain, Flush, Command;
  }

  /** A read: it sends the chat that is due, a keepalive if one is due and, after too long a silence, the rest of the
      chat and a probe. The session is lost exactly when there is a probe and what arrives behind the first silence does
      not answer it; the chat is dropped then. All that is queued is handed over, whether the session is lost or not. */
  lemma ReadExactly(s: State, now: real, keepaliveDue: bool, probeAt: Option<real>) returns (k: nat)
    requires Numbered(s) && s.connected
    ensures var (s', lines) := ReadLines(s, now, keepaliveDue, probeAt);
            && k <= |s.outbox|
            && (s.interval > 0.0 ==> k == if s.outbox != [] && now - s.lastSay >= s.interval then 1 else 0)
            && Sends(s'.wire) == Sends(s.wire) + ReadSends(s.outbox, k, now, keepaliveDue, probeAt)
            && s'.outbox == (if probeAt.None? then s.outbox[k..] else [])
            && s'.events == [] && s'.delivered == s.delivered + lines
            && (probeAt.None? ==> s'.connected)
            && (probeAt.Some? ==> Numbers(s'.wire) != [] && (s'.connected <==> Answerable(s, s'.wire)))
  {
    hide Drain, Flush, Command, Sends, Said, Numbers, Answered, BeforeProbe, ReadLines, ProbeAnswered, R.UpToQuiet;
    k := BeforeProbeSends(s, now, keepaliveDue);
    R.ReadAccount(s, now, keepaliveDue, probeAt);
    ReadAsProbe(s, now, keepaliveDue, probeAt);
    if probeAt.Some? {
      var b := BeforeProbe(s, now, keepaliveDue);
      CommandSends(b, PROBE, probeAt.value);
      CommandNumbered(b, PROBE, probeAt.value);
      ProbeExactly(b, probeAt.value);
      var sent := Numbers(Command(b, PROBE, probeAt.value).0.wire);
      assert sent[|sent| - 1] == Asking(b, PROBE, probeAt.value).1;
      var front := ReadSends(s.outbox, k, now, keepaliveDue, None);
      var rest := Said(s.outbox[k..], probeAt.value, false);
      assert Sends(s.wire) + front + rest + [Ask(0, PROBE)]
          == Sends(s.wire) + ReadSends(s.outbox, k, now, keepaliveDue, probeAt);
    }
  }

  /** What arrives behind the first silence answers the last numbered send. */
  ghost predicate Answerable(s: State, wire: seq<Sent>)
    requires Numbers(wire) != []
  {
    var number, later := Numbers(wire)[|Numbers(wire)| - 1], s.input[R.UpToQuiet(s.input)..];
    exists n: nat, reply :: ProbeAnswered(later, number, n, reply)
  }

  /** A session that is lost stays as it is: a read gives nothing, a command fails and chat is not taken. */
  lemma LostDoesNothing(s: State, op: R.Op)
    requires !s.connected
    ensures R.Apply(s, op) == s
    ensures op.DoRead? ==> ReadLines(s, op.now, op.keepaliveDue, op.probeAt).1 == []
    ensures op.DoCommand? ==> Command(s, op.cmd, op.now).1 == Err(NotConnected)
  {
    hide Drain, Flush, Pump;
  }

  lemma ProbeExactly(s: State, now: real)
    requires s.connected
    ensures Command(s, PROBE, now).1.Ok? <==>
              exists n: nat, reply :: ProbeAnswered(s.input, Asking(s, PROBE, now).1, n, reply)
  {
    hide Command, Answered, Asking;
    var r := Command(s, PROBE, now).1;
    if r.Ok? {
      ReplyExactly(s, PROBE, now, r.value);
      var n: nat :| n <= MAX_PUMP && Answered(map[], s.input, Asking(s, PROBE, now).1, n, r.value);
      assert ProbeAnswered(s.input, Asking(s, PROBE, now).1, n, r.value);
    }
    forall n: nat, reply | ProbeAnswered(s.input, Asking(s, PROBE, now).1, n, reply)
      ensures r.Ok?
    {
      ReplyExactly(s, PROBE, now, reply);
      assert n <= MAX_PUMP && Answered(map[], s.input, Asking(s, PROBE, now).1, n, reply);
    }
  }
}
