/** What a Frostbite command and a read of the events come to, told by the bytes that can be received and the packets
    they spell, not by the loops that receive them.
  */
module FrostbiteReplies {
  import opened Wrappers
  import opened Bytes
  import opened Seqs
  import opened Framing
  import opened FrostbiteCodec
  import opened FrostbiteSession
  import R = FrostbiteRuns

  // ---- what can be received -------------------------------------------------------------------

  predicate IsData(r: Recv) {
    r.Chunk? && r.data != []
  }

  /** The bytes that come in before the socket is silent, fails or hangs up. */
  function BytesOf(input: seq<Recv>): Data {
    if input != [] && IsData(input[0]) then input[0].data + BytesOf(input[1..]) else []
  }

  /** Whether that is because it fails or hangs up. */
  predicate Breaks(input: seq<Recv>) {
    input != [] && if IsData(input[0]) then Breaks(input[1..]) else !input[0].Quiet?
  }

  /** What is left once that has been seen. */
  function Behind(input: seq<Recv>): seq<Recv> {
    if input == [] then [] else if IsData(input[0]) then Behind(input[1..]) else input[1..]
  }

  /** The packets spelled by the buffer and those bytes. */
  ghost function Incoming(s: State): Parsed<Packet> {
    R.Stream(s.buffer + BytesOf(s.input))
  }

  /** One receive gives the first packet there is to come, and leaves the others to come; or there is none, and it says
      whether that is because the stream is out of step or the socket broke, or because there is silence. */
  lemma {:induction false} ReceiveExactly(s: State)
    requires s.connected
    ensures var (s', r) := Receive(s);
            var all := Incoming(s);
            && s'.connected
            && match r
               case Received(p) =>
                 all.payloads != [] && p == all.payloads[0] && Breaks(s'.input) == Breaks(s.input)
                 && Incoming(s') == all.(payloads := all.payloads[1..]) && Behind(s'.input) == Behind(s.input)
                 && s'.consumed == s.consumed + [p]
               case Nothing =>
                 all == Parsed([], s'.buffer, false) && !Breaks(s.input) && s'.input == Behind(s.input)
                 && s'.consumed == s.consumed
               case Failed => all.payloads == [] && (all.bad || Breaks(s.input)) && s'.consumed == s.consumed
    decreases |s.input|
  {
    hide ReadPacket, R.Stream;
    var ahead := BytesOf(s.input);
    R.StreamOne(s.buffer);
    R.StreamOne(s.buffer + ahead);
    match ReadPacket(s.buffer)
    case Bad =>
    case Got(p, rest) =>
      assert ([p] + R.Stream(rest + ahead).payloads)[1..] == R.Stream(rest + ahead).payloads;
    case More =>
      if s.input != [] && IsData(s.input[0]) {
        var data := s.input[0].data;
        ReceiveExactly(s.(input := s.input[1..], buffer := s.buffer + data, received := s.received + data));
        assert s.buffer + data + BytesOf(s.input[1..]) == s.buffer + ahead;
      } else {
        assert s.buffer + ahead == s.buffer;
      }
  }

  // ---- a command ------------------------------------------------------------------------------

  predicate Mine(p: Packet, number: nat) {
    !p.fromServer && p.isResponse && p.sequence == number
  }

  /** Packet `n` is the first response to command `number`. */
  predicate First(packets: seq<Packet>, number: nat, n: nat) {
    n < |packets| && Mine(packets[n], number) && forall m | 0 <= m < n :: !Mine(packets[m], number)
  }

  predicate NoneMine(packets: seq<Packet>, number: nat) {
    forall p | p in packets :: !Mine(p, number)
  }

  /** How waiting for the response to `number` ends, when `packets` are to come and then nothing for `broken` or for
      silence: it takes `read` packets, `left` at most, and comes to `reply`. */
  ghost predicate Ends(packets: seq<Packet>, broken: bool, number: nat, left: nat, reply: Reply, read: nat) {
    match reply
    case Ok(words) =>
      0 < read <= left && First(packets, number, read - 1) && packets[read - 1].words == [OK] + words
    case Err(Refused(words)) =>
      && 0 < read <= left && First(packets, number, read - 1)
      && packets[read - 1].words == words && (words == [] || words[0] != OK)
    case Err(LinkDown) => read == |packets| < left && NoneMine(packets, number) && broken
    case Err(Timeout) =>
      && read <= |packets| && NoneMine(packets[..read], number)
      && (read == left || (read == |packets| < left && !broken))
  }

  /** There is one way for it to end. */
  lemma EndsOnce(packets: seq<Packet>, broken: bool, number: nat, left: nat, a: Reply, m: nat, b: Reply, n: nat)
    requires Ends(packets, broken, number, left, a, m) && Ends(packets, broken, number, left, b, n)
    ensures a == b && m == n
  {
    if 0 < m <= |packets| && Mine(packets[m - 1], number) {
      SameReply(packets, broken, number, left, a, m, b, n);
    } else if 0 < n <= |packets| && Mine(packets[n - 1], number) {
      SameReply(packets, broken, number, left, b, n, a, m);
    }
  }

  lemma SameReply(packets: seq<Packet>, broken: bool, number: nat, left: nat, a: Reply, m: nat, b: Reply, n: nat)
    requires Ends(packets, broken, number, left, a, m) && Ends(packets, broken, number, left, b, n)
    requires 0 < m <= |packets| && Mine(packets[m - 1], number)
    ensures a == b && m == n
  {
    assert packets[m - 1] in packets;
    if m <= n {
      assert packets[..n][m - 1] == packets[m - 1];
      assert packets[m - 1] in packets[..n];
    }
    if a.Ok? && b.Ok? {
      assert a.value == ([OK] + a.value)[1..] == ([OK] + b.value)[1..] == b.value;
    }
  }

  lemma EndsLater(packets: seq<Packet>, broken: bool, number: nat, left: nat, reply: Reply, read: nat)
    requires packets != [] && left > 0 && !Mine(packets[0], number)
    requires Ends(packets[1..], broken, number, left - 1, reply, read)
    ensures Ends(packets, broken, number, left, reply, read + 1)
  {
    var rest := packets[1..];
    assert packets == [packets[0]] + rest;
    if read <= |rest| {
      assert packets[..read + 1] == [packets[0]] + rest[..read];
    }
    if 0 < read <= |rest| && First(rest, number, read - 1) {
      forall m | 0 <= m < read
        ensures !Mine(packets[m], number)
      {
        assert m > 0 ==> packets[m] == rest[m - 1];
      }
    }
  }

  /** The client after a packet that is not the response it waits for. */
  function Passed(s: State, p: Packet): State {
    if p.fromServer then Handle(s, p) else s
  }

  lemma PassedFrame(s: State, p: Packet)
    ensures var s' := Passed(s, p);
            && s'.connected == s.connected && s'.consumed == s.consumed && s'.input == s.input
            && Incoming(s') == Incoming(s) && s'.answers == s.answers
  {
  }

  /** One turn of the receive loop that gets a packet. */
  lemma PumpOne(s: State, number: nat, left: nat)
    requires left > 0 && Receive(s).1.Received?
    ensures var (s', r) := Receive(s);
            var p := r.packet;
            Pump(s, number, left) ==
              if !Mine(p, number) then Pump(Passed(s', p), number, left - 1)
              else if p.words == [] || p.words[0] != OK then (s', Err(Refused(p.words)))
              else (s', Ok(p.words[1..]))
  {
    hide Receive, Handle;
  }

  /** The receive loop ends as that says, having read exactly the packets it takes. */
  lemma {:induction false} PumpEnds(s: State, number: nat, left: nat) returns (read: nat)
    requires s.connected
    ensures var (s', r) := Pump(s, number, left);
            var all := Incoming(s);
            && read <= |all.payloads| && s'.connected && s'.consumed == s.consumed + all.payloads[..read]
            && Ends(all.payloads, all.bad || Breaks(s.input), number, left, r, read)
            && (GotAnswer(r) ==>
                  && Incoming(s') == all.(payloads := all.payloads[read..])
                  && Breaks(s'.input) == Breaks(s.input) && Behind(s'.input) == Behind(s.input))
    decreases left
  {
    hide Receive, Incoming, Breaks, Behind, Passed, Mine;
    var all := Incoming(s);
    assert s.consumed + [] == s.consumed;
    read := 0;
    if left == 0 {
      return;
    }
    ReceiveExactly(s);
    var (s1, r) := Receive(s);
    if !r.Received? {
      return;
    }
    hide Pump;
    var p := r.packet;
    PumpOne(s, number, left);
    assert all.payloads[..1] == [p];
    if !Mine(p, number) {
      PassedFrame(s1, p);
      read := PumpEnds(Passed(s1, p), number, left - 1);
      EndsLater(all.payloads, all.bad || Breaks(s.input), number, left, Pump(s, number, left).1, read);
      OneMore(s.consumed, all.payloads, read);
    } else if p.words != [] && p.words[0] == OK {
      assert p.words == [OK] + p.words[1..];
    }
    read := read + 1;
  }

  lemma OneMore(consumed: seq<Packet>, packets: seq<Packet>, read: nat)
    requires packets != [] && read < |packets|
    ensures consumed + [packets[0]] + packets[1..][..read] == consumed + packets[..read + 1]
    ensures packets[1..][read..] == packets[read + 1..]
  {
  }

  /** The wait for the next command sent, over the packets still to come. */
  ghost predicate Awaits(s: State, reply: Reply, read: nat) {
    var broken := Incoming(s).bad || Breaks(s.input);
    Ends(Incoming(s).payloads, broken, s.sequence % SEQUENCE_LIMIT, MAX_PUMP, reply, read)
  }

  /** What a command comes to, over the packets still to come: the words of the first response with its number among the
      first 64, or the error it states; and when there is none, whether the stream breaks off before so many. */
  ghost predicate ComesTo(s: State, words: seq<Word>, reply: Reply) {
    if words == [] then reply == Ok([])
    else if !s.connected then reply == Err(LinkDown)
    else exists read :: Awaits(s, reply, read)
  }

  lemma CommandWordsExactly(s: State, words: seq<Word>, chat: bool, reply: Reply)
    ensures CommandWords(s, words, chat).1 == reply <==> ComesTo(s, words, reply)
  {
    hide Incoming, Breaks, Pump, Ends;
    if words != [] && s.connected {
      SendFrame(s, words, chat);
      var read := PumpEnds(Send(s, words, chat), s.sequence % SEQUENCE_LIMIT, MAX_PUMP);
      var r := CommandWords(s, words, chat).1;
      assert Awaits(s, r, read);
      forall other | Awaits(s, reply, other)
        ensures r == reply
      {
        var broken := Incoming(s).bad || Breaks(s.input);
        EndsOnce(Incoming(s).payloads, broken, s.sequence % SEQUENCE_LIMIT, MAX_PUMP, r, read, reply, other);
      }
    }
  }

  lemma SendFrame(s: State, words: seq<Word>, chat: bool)
    ensures var s' := Send(s, words, chat);
            s'.connected == s.connected && s'.consumed == s.consumed && s'.input == s.input
            && Incoming(s') == Incoming(s) && s'.sequence == (s.sequence + 1) % SEQUENCE_LIMIT
  {
  }

  /** It reads no further than it takes to know, and what it did not read is still to come. */
  lemma CommandReads(s: State, words: seq<Word>, chat: bool) returns (read: nat)
    requires s.connected && words != []
    ensures var (s', r) := CommandWords(s, words, chat);
            var all := Incoming(s);
            && Awaits(s, r, read)
            && read <= |all.payloads| && s'.connected && s'.consumed == s.consumed + all.payloads[..read]
            && (GotAnswer(r) ==>
                  && Incoming(s') == all.(payloads := all.payloads[read..])
                  && Breaks(s'.input) == Breaks(s.input) && Behind(s'.input) == Behind(s.input))
  {
    hide Breaks, Pump, Ends, Behind;
    SendFrame(s, words, chat);
    read := PumpEnds(Send(s, words, chat), s.sequence % SEQUENCE_LIMIT, MAX_PUMP);
  }

  /** The same of `command`: behind whatever the queued chat came to. */
  lemma CommandExactly(s: State, words: seq<Word>, now: real, reply: Reply)
    ensures var (f, failed) := Flush(s, false, now);
            var right := if failed.Some? then reply == Err(failed.value) else ComesTo(f, words, reply);
            Command(s, words, now).1 == reply <==> right
  {
    hide ComesTo, CommandWords, Flush;
    CommandWordsExactly(Flush(s, false, now).0, words, false, reply);
  }

  // ---- what an operation sends ----------------------------------------------------------------

  /** The server said something: what was asked for, or that it would not. */
  predicate GotAnswer(r: Reply) {
    match r
    case Ok(_) => true
    case Err(Refused(_)) => true
    case Err(Timeout) => false
    case Err(LinkDown) => false
  }

  lemma SurvivesGot(r: Reply)
    ensures Survives(r) <==> GotAnswer(r)
  {
  }

  predicate AllSurvive(answers: seq<Reply>) {
    forall r | r in answers :: GotAnswer(r)
  }

  function AskedIn(m: Sent): seq<seq<Word>> { if m.packet.fromServer then [] else [m.packet.words] }

  /** The words of the commands sent, queued chat included. */
  function Asked(wire: seq<Sent>): seq<seq<Word>> { Gather(AskedIn, wire) }

  /** Nothing was asked or released. */
  predicate OnlyReceived(s: State, s': State) {
    && Asked(s'.wire) == Asked(s.wire) && s'.answers == s.answers
    && s'.releases == s.releases && s'.outbox == s.outbox && s'.lastSay == s.lastSay && s'.interval == s.interval
    && s'.delivered == s.delivered
  }

  lemma {:induction false} ReceiveOnly(s: State)
    ensures OnlyReceived(s, Receive(s).0)
    decreases |s.input|
  {
  }

  lemma PassedOnly(s: State, p: Packet)
    ensures OnlyReceived(s, Passed(s, p))
  {
    GatherOne(AskedIn, s.wire, Sent(AckFor(p), false));
  }

  lemma {:induction false} PumpOnly(s: State, number: nat, left: nat)
    ensures OnlyReceived(s, Pump(s, number, left).0)
    decreases left
  {
    hide Receive, Passed, Asked;
    if left > 0 {
      ReceiveOnly(s);
      var (s', r) := Receive(s);
      if r.Received? {
        PumpOne(s, number, left);
        PassedOnly(s', r.packet);
        PumpOnly(Passed(s', r.packet), number, left - 1);
      }
    }
  }

  /** A command that is sent is sent once, and what it comes to is recorded. */
  lemma CommandLogs(s: State, words: seq<Word>, chat: bool)
    requires s.connected && words != []
    ensures var (s', r) := CommandWords(s, words, chat);
            && Asked(s'.wire) == Asked(s.wire) + [words] && s'.answers == s.answers + [r] && s'.connected
            && s'.releases == s.releases && s'.outbox == s.outbox && s'.lastSay == s.lastSay
            && s'.interval == s.interval && s'.delivered == s.delivered
  {
    hide Pump, Asked;
    var number := s.sequence % SEQUENCE_LIMIT;
    AskedOne(s.wire, Sent(Packet(false, false, number, words), chat));
    PumpOnly(Send(s, words, chat), number, MAX_PUMP);
    var read := CommandReads(s, words, chat);
  }

  lemma AskedOne(wire: seq<Sent>, m: Sent)
    ensures Asked(wire + [m]) == Asked(wire) + AskedIn(m)
  {
    GatherOne(AskedIn, wire, m);
  }

  /** What a flush does: it releases the front of the queue at the clock's value, asks each line that has words, and
      goes on until one is neither answered nor refused. */
  ghost predicate Flushed(s: State, paced: bool, now: real, s': State, failed: Option<Failure>, rel: seq<Release>,
                          answers: seq<Reply>) {
    && s'.connected && s'.releases == s.releases + rel && s'.answers == s.answers + answers
    && s'.interval == s.interval && s'.delivered == s.delivered
    && (forall r | r in rel :: r.time == now && r.paced == paced)
    && R.ReleasedLines(rel) + s'.outbox == s.outbox
    && Asked(s'.wire) == Asked(s.wire) + R.Spoken(R.ReleasedLines(rel))
    && |R.Spoken(R.ReleasedLines(rel))| == |answers|
    && (failed.None? <==> AllSurvive(answers))
    && (failed.Some? ==> answers != [] && answers[|answers| - 1] == Err(failed.value))
  }

  lemma NothingFlushed(s: State, paced: bool, now: real)
    requires s.connected
    ensures Flushed(s, paced, now, s, None, [], [])
  {
  }

  lemma FlushStep(s: State, paced: bool, now: real, line: Line, s1: State, s2: State, s': State,
                  failed: Option<Failure>, first: seq<Reply>, rel: seq<Release>, answers: seq<Reply>)
    requires s.outbox != [] && line == s.outbox[0] && s1 == R.Releasing(s, paced, now)
    requires s2.releases == s1.releases && s2.outbox == s1.outbox && s2.interval == s1.interval
    requires s2.delivered == s1.delivered && s2.answers == s1.answers + first
    requires Asked(s2.wire) == Asked(s.wire) + R.SpokenIn(line) && |R.SpokenIn(line)| == |first| && AllSurvive(first)
    requires Flushed(s2, paced, now, s', failed, rel, answers)
    ensures Flushed(s, paced, now, s', failed, [Release(line, now, paced)] + rel, first + answers)
  {
    hide Asked, R.ReleasedLines, R.Spoken, R.SpokenIn;
    var one := [Release(line, now, paced)];
    FirstReleased(one[0], rel);
    assert s.releases + one + rel == s.releases + (one + rel);
    assert s.answers + first + answers == s.answers + (first + answers);
    assert [line] + R.ReleasedLines(rel) + s'.outbox == [line] + (R.ReleasedLines(rel) + s'.outbox);
    var said := R.Spoken(R.ReleasedLines(rel));
    assert Asked(s.wire) + R.SpokenIn(line) + said == Asked(s.wire) + (R.SpokenIn(line) + said);
  }

  lemma FirstReleased(first: Release, rel: seq<Release>)
    ensures R.ReleasedLines([first] + rel) == [first.line] + R.ReleasedLines(rel)
    ensures R.Spoken([first.line] + R.ReleasedLines(rel)) == R.SpokenIn(first.line) + R.Spoken(R.ReleasedLines(rel))
  {
    hide Gather;
    GatherAppend(R.LineIn, [first], rel);
    GatherAppend(R.SpokenIn, [first.line], R.ReleasedLines(rel));
    GatherOne(R.LineIn, [], first);
    GatherOne(R.SpokenIn, [], first.line);
    GatherNone();
    assert [] + [first] == [first] && [] + [first.line] == [first.line];
    assert [] + R.SpokenIn(first.line) == R.SpokenIn(first.line);
  }

  lemma GatherNone()
    ensures Gather(R.LineIn, []) == [] && Gather(R.SpokenIn, []) == []
  {
  }

  lemma {:induction false} FlushExactly(s: State, paced: bool, now: real)
    returns (rel: seq<Release>, answers: seq<Reply>)
    requires s.connected
    ensures var (s', failed) := Flush(s, paced, now);
            Flushed(s, paced, now, s', failed, rel, answers)
    decreases |s.outbox|
  {
    hide Flushed, CommandWords, Asked, Gather;
    if s.outbox == [] || (paced && now - s.lastSay < s.interval) {
      NothingFlushed(s, paced, now);
      return [], [];
    }
    var line, s1 := s.outbox[0], R.Releasing(s, paced, now);
    R.FlushOne(s, paced, now);
    var (s2, r) := CommandWords(s1, line, true);
    var first := [r];
    if line == [] {
      NoWords(s1);
      assert Asked(s.wire) + R.SpokenIn(line) == Asked(s.wire);
      first := [];
    } else {
      CommandLogs(s1, line, true);
      if !Survives(r) {
        LastFlushed(s, paced, now, s2, r);
        return [Release(line, now, paced)], [r];
      }
    }
    rel, answers := FlushExactly(s2, paced, now);
    var (s', failed) := Flush(s2, paced, now);
    assert s1.answers + [] == s1.answers;
    FlushStep(s, paced, now, line, s1, s2, s', failed, first, rel, answers);
    rel, answers := [Release(line, now, paced)] + rel, first + answers;
  }

  lemma NoWords(s: State)
    ensures CommandWords(s, [], true) == (s, Ok([]))
  {
  }

  lemma LastFlushed(s: State, paced: bool, now: real, s': State, r: Reply)
    requires s.connected && s.outbox != [] && s.outbox[0] != [] && !Survives(r)
    requires var s1 := R.Releasing(s, paced, now);
             && s'.connected && s'.releases == s1.releases && s'.outbox == s1.outbox && s'.interval == s1.interval
             && s'.delivered == s1.delivered && s'.answers == s1.answers + [r]
             && Asked(s'.wire) == Asked(s.wire) + [s.outbox[0]]
    ensures Flushed(s, paced, now, s', Some(r.error), [Release(s.outbox[0], now, paced)], [r])
  {
    hide Asked;
    SurvivesGot(r);
    assert r in [r];
    var line := s.outbox[0];
    GatherOne(R.LineIn, [], Release(line, now, paced));
    GatherOne(R.SpokenIn, [], line);
    assert [] + [Release(line, now, paced)] == [Release(line, now, paced)] && [] + [line] == [line];
  }

  /** Which lines: the whole queue when it is not paced, and when it is, the first one, if it is due. */
  lemma {:induction false} FlushReleases(s: State, paced: bool, now: real)
    ensures var (s', failed) := Flush(s, paced, now);
            && (!paced && failed.None? ==> s'.outbox == [])
            && (paced && s.interval > 0.0 ==>
                  s'.outbox == if s.outbox != [] && now - s.lastSay >= s.interval then s.outbox[1..] else s.outbox)
    decreases |s.outbox|
  {
    hide CommandWords;
    if s.outbox != [] && !(paced && now - s.lastSay < s.interval) {
      R.FlushOne(s, paced, now);
      CommandKeepsOutbox(R.Releasing(s, paced, now), s.outbox[0], true);
      FlushReleases(CommandWords(R.Releasing(s, paced, now), s.outbox[0], true).0, paced, now);
    }
  }

  // ---- reading the events ---------------------------------------------------------------------

  /** Draining takes every packet that can be received, and fails exactly when what stops it is not silence. */
  lemma {:induction false} DrainExactly(s: State)
    requires s.connected
    ensures var (s', ok) := Drain(s);
            var all := Incoming(s);
            && s'.connected && s'.consumed == s.consumed + all.payloads && OnlyReceived(s, s')
            && (ok <==> !all.bad && !Breaks(s.input))
            && (ok ==> s'.buffer == all.rest && s'.input == Behind(s.input))
    decreases |s.input|, |s.buffer|
  {
    hide Receive, R.Stream, Asked, Handle;
    assert s.consumed + [] == s.consumed;
    if PacketLength(s.buffer).Nonsense? || !(PacketLength(s.buffer).Known? || Readable(s.input)) {
      R.StreamOne(s.buffer);
      R.StreamOne(s.buffer + BytesOf(s.input));
      assert s.buffer + [] == s.buffer;
    } else {
      hide ReadPacket, PacketLength, BytesOf, Breaks, Behind, Incoming, Drain;
      var all := Incoming(s);
      ReceiveExactly(s);
      ReceiveOnly(s);
      DrainNext(s);
      var (s', r) := Receive(s);
      if r.Received? {
        PassedFrame(s', r.packet);
        PassedOnly(s', r.packet);
        assert all.payloads == [all.payloads[0]] + all.payloads[1..];
        assert s.consumed + [r.packet] + all.payloads[1..] == s.consumed + all.payloads;
        DrainExactly(Passed(s', r.packet));
      }
    }
  }

  lemma DrainNext(s: State)
    requires s.connected && !PacketLength(s.buffer).Nonsense?
    requires PacketLength(s.buffer).Known? || Readable(s.input)
    ensures var (s', r) := Receive(s);
            match r
            case Failed => Drain(s) == (s', false)
            case Nothing => Drain(s) == (s', true)
            case Received(p) =>
              && Drain(s) == Drain(Passed(s', p))
              && (|Passed(s', p).input| < |s.input|
                  || (|Passed(s', p).input| == |s.input| && |Passed(s', p).buffer| < |s.buffer|))
  {
    hide Receive, PacketLength;
  }

  function Probes(count: nat): (asked: seq<seq<Word>>)
    ensures |asked| == count
  {
    seq(count, _ => [PROBE])
  }

  lemma MoreProbes(count: nat)
    ensures Probes(count) + [[PROBE]] == Probes(count + 1)
  {
  }

  /** What has been sent and answered by some point of a read. */
  ghost predicate Done(s: State, s': State, now: real, rel: seq<Release>, chat: seq<Reply>, probes: seq<Reply>) {
    && s'.connected && s'.releases == s.releases + rel && s'.answers == s.answers + chat + probes
    && (forall r | r in rel :: r.time == now && r.paced)
    && R.ReleasedLines(rel) + s'.outbox == s.outbox && |R.Spoken(R.ReleasedLines(rel))| == |chat|
    && Asked(s'.wire) == Asked(s.wire) + R.Spoken(R.ReleasedLines(rel)) + Probes(|probes|)
    && s'.delivered == s.delivered
  }

  lemma DoneFlush(s: State, s1: State, now: real, s2: State, failed: Option<Failure>, rel: seq<Release>,
                  chat: seq<Reply>)
    requires OnlyReceived(s, s1) && Flushed(s1, true, now, s2, failed, rel, chat)
    ensures Done(s, s2, now, rel, chat, [])
  {
    hide Asked;
    var said := R.Spoken(R.ReleasedLines(rel));
    assert Asked(s.wire) + said + Probes(0) == Asked(s.wire) + said;
    assert s.answers + chat + [] == s.answers + chat;
  }

  lemma DoneProbe(s: State, s': State, now: real, rel: seq<Release>, chat: seq<Reply>, probes: seq<Reply>)
    requires Done(s, s', now, rel, chat, probes)
    ensures var (s2, r) := CommandWords(s', [PROBE], false);
            Done(s, s2, now, rel, chat, probes + [r])
  {
    hide CommandWords, Asked;
    CommandLogs(s', [PROBE], false);
    MoreProbes(|probes|);
    var r := CommandWords(s', [PROBE], false).1;
    assert s.answers + chat + (probes + [r]) == s.answers + chat + probes + [r];
    var sent := Asked(s.wire) + R.Spoken(R.ReleasedLines(rel));
    assert sent + Probes(|probes|) + [[PROBE]] == sent + (Probes(|probes|) + [[PROBE]]);
  }

  /** Everything that could be received was, the chat that was due was answered or refused, and so was the keepalive. */
  ghost predicate HouseKept(s: State, keepaliveDue: bool, chat: seq<Reply>, probes: seq<Reply>) {
    && !Incoming(s).bad && !Breaks(s.input) && AllSurvive(chat)
    && (keepaliveDue ==> probes != [] && GotAnswer(probes[0]))
  }

  /** How often the server is asked for a sign of life. */
  ghost function ProbesDue(s: State, keepaliveDue: bool, silent: bool, chat: seq<Reply>, probes: seq<Reply>): nat {
    if Incoming(s).bad || Breaks(s.input) || !AllSurvive(chat) then 0
    else if keepaliveDue && !HouseKept(s, keepaliveDue, chat, probes) then 1
    else (if keepaliveDue then 1 else 0) + if silent then 1 else 0
  }

  lemma {:induction false} HousekeepingExactly(s: State, now: real, keepaliveDue: bool)
    returns (rel: seq<Release>, chat: seq<Reply>, probes: seq<Reply>)
    requires s.connected
    ensures var (s', ok) := Housekeeping(s, now, keepaliveDue);
            && Done(s, s', now, rel, chat, probes)
            && (ok <==> HouseKept(s, keepaliveDue, chat, probes))
            && |probes| == ProbesDue(s, keepaliveDue, false, chat, probes)
            && (s.interval > 0.0 && !Incoming(s).bad && !Breaks(s.input) ==>
                  s'.outbox == if s.outbox != [] && now - s.lastSay >= s.interval then s.outbox[1..] else s.outbox)
  {
    hide Drain, Flush, CommandWords, Incoming, Breaks, Asked, R.Spoken, R.ReleasedLines, Done;
    DrainExactly(s);
    var (s1, ok) := Drain(s);
    probes := [];
    if !ok {
      NothingFlushed(s1, true, now);
      DoneFlush(s, s1, now, s1, None, [], []);
      return [], [], [];
    }
    rel, chat := FlushExactly(s1, true, now);
    var (s2, failed) := Flush(s1, true, now);
    DoneFlush(s, s1, now, s2, failed, rel, chat);
    FlushReleases(s1, true, now);
    CommandKeepsOutbox(s2, [PROBE], false);
    if failed.None? && keepaliveDue {
      DoneProbe(s, s2, now, rel, chat, []);
      probes := [CommandWords(s2, [PROBE], false).1];
      assert [] + probes == probes;
    }
  }

  /** A read, told by what could be received and by what its commands came to. The session is kept exactly when nothing
      received was out of step, the socket neither failed nor hung up, and everything sent, the chat that was due, the
      keepalive and the probe after too long a silence, was answered or refused; the probes are sent when they are due.
      The queue is handed over, and emptied, exactly when that is so up to the last probe; otherwise nothing is. */
  lemma ReadExactly(s: State, now: real, keepaliveDue: bool, silent: bool)
    returns (rel: seq<Release>, chat: seq<Reply>, probes: seq<Reply>)
    requires s.connected
    ensures var (s', lines) := ReadLines(s, now, keepaliveDue, silent);
            var kept := HouseKept(s, keepaliveDue, chat, probes);
            && (s'.connected <==> kept && AllSurvive(probes)) && (!s'.connected ==> s'.buffer == [])
            && s'.delivered == s.delivered + lines
            && (if kept then s'.events == [] else lines == [])
            && |probes| == ProbesDue(s, keepaliveDue, silent, chat, probes)
            && s'.releases == s.releases + rel && s'.answers == s.answers + chat + probes
            && (forall r | r in rel :: r.time == now && r.paced)
            && R.ReleasedLines(rel) + s'.outbox == s.outbox && |R.Spoken(R.ReleasedLines(rel))| == |chat|
            && Asked(s'.wire) == Asked(s.wire) + R.Spoken(R.ReleasedLines(rel)) + Probes(|probes|)
            && (s.interval > 0.0 && !Incoming(s).bad && !Breaks(s.input) ==>
                  s'.outbox == if s.outbox != [] && now - s.lastSay >= s.interval then s.outbox[1..] else s.outbox)
  {
    hide Housekeeping, CommandWords, Incoming, Breaks, Asked, R.Spoken, R.ReleasedLines;
    rel, chat, probes := HousekeepingExactly(s, now, keepaliveDue);
    var (s1, ok) := Housekeeping(s, now, keepaliveDue);
    assert s.delivered + [] == s.delivered;
    CommandKeepsOutbox(s1, [PROBE], false);
    if ok && silent {
      DoneProbe(s, s1, now, rel, chat, probes);
      var r := CommandWords(s1, [PROBE], false).1;
      SurvivesGot(r);
      assert forall q :: q in probes + [r] <==> q in probes || q == r;
      probes := probes + [r];
    }
  }

  // ---- from the wire to the caller --------------------------------------------------------------

  lemma {:induction false} WholeInput(input: seq<Recv>)
    requires forall r | r in input :: IsData(r)
    ensures BytesOf(input) == R.DataOf(input) && !Breaks(input)
  {
    if input != [] {
      assert input[0] in input;
      WholeInput(input[1..]);
    }
  }

  /** A server that answers is heard: on a session just opened, with the bytes of the server's packets cut into any
      chunks, the first command gives exactly the words behind the OK of the first response numbered 0, when one is
      among the first 64 packets and opens so. */
  lemma FirstCommandAnswered(packets: seq<Packet>, frames: seq<Data>, input: seq<Recv>, interval: real, now: real,
                             words: seq<Word>, n: nat, reply: seq<Word>)
    requires |frames| == |packets|
    requires forall i | 0 <= i < |packets| :: Sendable(packets[i]) && frames[i] == WireOf(packets[i])
    requires (forall r | r in input :: IsData(r)) && R.DataOf(input) == Flatten(frames)
    requires words != [] && n < MAX_PUMP && First(packets, 0, n) && packets[n].words == [OK] + reply
    ensures Command(Fresh(input, interval), words, now).1 == Ok(reply)
  {
    hide Ends, Flush, CommandWords, ReadChunks, WireOf;
    var s := Fresh(input, interval);
    ReadPacketStable();
    StreamRoundTrip(packets, frames, frames);
    ChunkingIrrelevant(ReadPacket, [], frames);
    WholeInput(input);
    assert [] + Flatten(frames) == Flatten(frames);
    assert Incoming(s).payloads == packets && !Incoming(s).bad;
    FreshFlush(s, now);
    FirstEnds(packets, n, reply);
    assert Awaits(s, Ok(reply), n + 1);
    CommandExactly(s, words, now, Ok(reply));
  }

  lemma FreshFlush(s: State, now: real)
    requires s.outbox == []
    ensures Flush(s, false, now) == (s, None)
  {
  }

  lemma FirstEnds(packets: seq<Packet>, n: nat, reply: seq<Word>)
    requires n < MAX_PUMP && First(packets, 0, n) && packets[n].words == [OK] + reply
    ensures Ends(packets, false, 0, MAX_PUMP, Ok(reply), n + 1)
  {
  }
}
