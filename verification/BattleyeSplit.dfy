/** A BattlEye reply too long for one datagram: the server cuts it into numbered parts, and the client puts them back
    together in whatever order they arrive, among repeats, pushed messages and replies to other commands.
  */
module BattleyeSplit {
  import opened Wrappers
  import opened Bytes
  import opened BattleyeCodec
  import opened BattleyeSession
  import opened Parts
  import R = BattleyeRuns

  // ---- the server's side ----------------------------------------------------------------------

  /** The data of each datagram the reply goes out in. `None` is the `ValueError` of a part number past a byte. */
  function Split(body: Data, maxPacket: nat): Option<seq<Data>>
    requires maxPacket > 0
  {
    if |body| <= maxPacket then Some([body])
    else
      var chunks := Slices(body, maxPacket);
      if |chunks| > 255 then None
      else Some(seq(|chunks|, i requires 0 <= i < |chunks| => Part(|chunks|, i, chunks[i])))
  }

  function Part(total: byte, index: byte, chunk: Data): Data {
    [0, total, index] + chunk
  }

  /** A reply can be sent exactly when 255 parts are enough for it. */
  lemma SplitExact(body: Data, maxPacket: nat)
    requires maxPacket > 0
    ensures Split(body, maxPacket).Some? <==> |body| <= 255 * maxPacket
    ensures |body| <= maxPacket ==> Split(body, maxPacket) == Some([body])
  {
    SlicesEnough(body, maxPacket, 255);
  }

  // ---- the client's side ----------------------------------------------------------------------

  /** One part more: the whole reply when that was the last, otherwise a bigger store. */
  lemma AssemblePart(chunks: seq<Data>, have: set<byte>, index: byte)
    requires |chunks| <= 255 && index < |chunks|
    requires forall i | i in have :: i < |chunks|
    ensures var (parts, reply) := Assemble(Store(chunks, have), Part(|chunks|, index, chunks[index]));
            var now := have + {index};
            if |now| == |chunks| then parts == map[] && reply == Some(Flatten(chunks))
            else |now| < |chunks| && reply == None && parts == Store(chunks, now)
  {
    hide Store, Join, Flatten;
    assert Part(|chunks|, index, chunks[index])[3..] == chunks[index];
    var now := have + {index};
    StoreOne(chunks, have, index);
    AllThere(now, |chunks|);
    if |now| == |chunks| {
      JoinStore(chunks, now, |chunks|);
      assert chunks[..|chunks|] == chunks;
    }
  }

  // ---- what arrives ---------------------------------------------------------------------------

  /** A datagram that belongs to the reply to command `number`. */
  predicate Reply(r: Recv, number: nat) {
    r.Arrived? && r.packet.kind == COMMAND && r.packet.sequence == number
  }

  /** Intact datagrams, those of this reply being its parts; anything else, in any order and any number. */
  predicate Arrivals(input: seq<Recv>, number: nat, chunks: seq<Data>)
    requires |chunks| <= 255
  {
    forall k | 0 <= k < |input| ::
      && input[k].Arrived?
      && (Reply(input[k], number) ==>
            exists i: byte :: i < |chunks| && input[k].packet.data == Part(|chunks|, i, chunks[i]))
  }

  /** The part numbers among them. */
  function Indices(input: seq<Recv>, number: nat): set<byte> {
    set k | 0 <= k < |input| && Reply(input[k], number) && |input[k].packet.data| >= 3 :: input[k].packet.data[2]
  }

  /** A client that has handled these messages, one after the other. */
  function HandleAll(s: State, keys: seq<Key>): State
    decreases |keys|
  {
    if keys == [] then s else HandleAll(Handle(s, keys[0]), keys[1..])
  }

  lemma {:induction false} HandleAllFrame(s: State, keys: seq<Key>, input: seq<Recv>, parts: map<byte, Data>)
    ensures HandleAll(s.(input := input, parts := parts), keys) == HandleAll(s, keys).(input := input, parts := parts)
    decreases |keys|
  {
    if keys != [] {
      HandleAllFrame(Handle(s, keys[0]), keys[1..], input, parts);
    }
  }

  lemma IndicesAhead(first: Recv, rest: seq<Recv>, number: nat)
    ensures Indices([first] + rest, number)
         == (if Reply(first, number) && |first.packet.data| >= 3 then {first.packet.data[2]} else {})
            + Indices(rest, number)
  {
    var all := [first] + rest;
    forall i: byte | i in Indices(rest, number)
      ensures i in Indices(all, number)
    {
      var k :| 0 <= k < |rest| && Reply(rest[k], number) && |rest[k].packet.data| >= 3 && rest[k].packet.data[2] == i;
      assert all[k + 1] == rest[k];
    }
    if Reply(first, number) && |first.packet.data| >= 3 {
      assert all[0] == first;
    }
  }

  lemma HandleFrame(s: State, key: Key, input: seq<Recv>, parts: map<byte, Data>)
    ensures Handle(s.(input := input, parts := parts), key) == Handle(s, key).(input := input, parts := parts)
  {
  }

  /** A message handled first is a message handled first, whatever is still to arrive. */
  lemma AfterMessage(s: State, key: Key, keys: seq<Key>, input: seq<Recv>, later: seq<Recv>)
    ensures HandleAll(Handle(s.(input := input), key), keys).(input := later, parts := map[])
         == HandleAll(s, [key] + keys).(input := later, parts := map[])
  {
    HandleFrame(s, key, input, s.parts);
    HandleAllFrame(Handle(s, key), keys, input, s.parts);
    assert ([key] + keys)[1..] == keys;
  }

  lemma AfterOther(s: State, keys: seq<Key>, input: seq<Recv>, parts: map<byte, Data>, later: seq<Recv>)
    ensures HandleAll(s.(input := input, parts := parts), keys).(input := later, parts := map[])
         == HandleAll(s, keys).(input := later, parts := map[])
  {
    HandleAllFrame(s, keys, input, parts);
  }

  /** The client after a datagram that is no part of the reply. */
  function Passed(s: State): State
    requires s.input != [] && s.input[0].Arrived?
  {
    var s', p := s.(input := s.input[1..]), s.input[0].packet;
    if p.kind == MESSAGE then Handle(s', (p.sequence, p.data)) else s'
  }

  lemma PassedFrame(s: State)
    requires s.input != [] && s.input[0].Arrived?
    ensures Passed(s).input == s.input[1..] && Passed(s).parts == s.parts
  {
  }

  /** One turn of the receive loop on a datagram that decodes. */
  lemma PumpStep(s: State, number: nat, left: nat)
    requires left > 0 && s.input != [] && s.input[0].Arrived?
    ensures !Reply(s.input[0], number) ==> Pump(s, number, left) == Pump(Passed(s), number, left - 1)
    ensures Reply(s.input[0], number) ==>
              var (parts, reply) := Assemble(s.parts, s.input[0].packet.data);
              var s' := s.(input := s.input[1..], parts := parts);
              Pump(s, number, left) == if reply.Some? then (s', Ok(reply.value)) else Pump(s', number, left - 1)
  {
  }

  lemma PumpOver(s: State, number: nat, left: nat)
    requires left == 0 || s.input == []
    ensures Pump(s, number, left) == (s, Err(Timeout))
  {
  }

  lemma NothingAdded(have: set<byte>, input: seq<Recv>, number: nat)
    ensures |have + Indices(input[..0], number)| == |have|
  {
    assert have + Indices(input[..0], number) == have;
  }

  lemma NothingToAdd(have: set<byte>, more: set<byte>, total: nat)
    requires |have| == total && forall i | i in have + more :: i < total
    ensures |have + more| == total
  {
    assert forall i | i in have :: i in have + more;
    AllThere(have, total);
    assert have + more == have;
  }

  lemma AfterPassed(s: State, keys: seq<Key>, later: seq<Recv>)
    requires s.input != [] && s.input[0].Arrived?
    ensures var p := s.input[0].packet;
            var met := if p.kind == MESSAGE then [(p.sequence, p.data)] + keys else keys;
            var after := HandleAll(s, met).(input := later, parts := map[]);
            HandleAll(Passed(s), keys).(input := later, parts := map[]) == after
  {
    var p := s.input[0].packet;
    AfterMessage(s, (p.sequence, p.data), keys, s.input[1..], later);
    AfterOther(s, keys, s.input[1..], s.parts, later);
  }

  lemma NothingYet(s: State, number: nat)
    ensures Indices([], number) == {} && R.Messages([]) == [] && HandleAll(s, []) == s
  {
  }

  /** Sorting what arrives into its first datagram and the rest. */
  lemma FirstOf(input: seq<Recv>, count: nat, number: nat)
    requires 0 < count <= |input|
    ensures Indices(input[..count], number)
         == (if Reply(input[0], number) && |input[0].packet.data| >= 3 then {input[0].packet.data[2]} else {})
            + Indices(input[1..][..count - 1], number)
    ensures R.Messages(input[..count])
         == if input[0].Arrived? && input[0].packet.kind == MESSAGE
            then [(input[0].packet.sequence, input[0].packet.data)] + R.Messages(input[1..][..count - 1])
            else R.Messages(input[1..][..count - 1])
    ensures input[count..] == input[1..][count - 1..]
  {
    var rest := input[1..][..count - 1];
    assert input[..count] == [input[0]] + rest;
    IndicesAhead(input[0], rest, number);
    R.MessagesAhead(input[0], rest);
  }

  /** The outcome of a receive loop, seen from one datagram earlier: no part of the reply. */
  lemma OneBefore(s: State, number: nat, left: nat, next: nat, reply: Data)
    requires left > 0 && s.input != [] && s.input[0].Arrived? && !Reply(s.input[0], number) && next < |s.input|
    requires var rest := s.input[1..];
             Pump(Passed(s), number, left - 1)
             == (HandleAll(Passed(s), R.Messages(rest[..next])).(input := rest[next..], parts := map[]), Ok(reply))
    ensures Pump(s, number, left)
         == (HandleAll(s, R.Messages(s.input[..next + 1])).(input := s.input[next + 1..], parts := map[]), Ok(reply))
  {
    hide HandleAll, Handle, Indices, R.Messages, Pump, Passed, Assemble;
    var rest := s.input[1..];
    PumpStep(s, number, left);
    FirstOf(s.input, next + 1, number);
    AfterPassed(s, R.Messages(rest[..next]), rest[next..]);
  }

  /** Or a part of it that does not complete it. */
  lemma OnePartBefore(s: State, number: nat, left: nat, parts: map<byte, Data>, next: nat, reply: Data)
    requires left > 0 && s.input != [] && Reply(s.input[0], number) && next < |s.input|
    requires Assemble(s.parts, s.input[0].packet.data) == (parts, None)
    requires var rest := s.input[1..];
             var s' := s.(input := rest, parts := parts);
             Pump(s', number, left - 1)
             == (HandleAll(s', R.Messages(rest[..next])).(input := rest[next..], parts := map[]), Ok(reply))
    ensures Pump(s, number, left)
         == (HandleAll(s, R.Messages(s.input[..next + 1])).(input := s.input[next + 1..], parts := map[]), Ok(reply))
  {
    hide HandleAll, Handle, Indices, R.Messages, Pump, Passed, Assemble;
    var rest := s.input[1..];
    PumpStep(s, number, left);
    FirstOf(s.input, next + 1, number);
    AfterOther(s, R.Messages(rest[..next]), rest, parts, rest[next..]);
  }

  /** The receive loop with some parts already stored. `read` is how many datagrams it takes to complete the reply. */
  lemma {:induction false} PumpReassembles(s: State, number: nat, left: nat, chunks: seq<Data>, have: set<byte>,
                                           count: nat)
    returns (read: nat)
    requires |chunks| <= 255 && count <= left && count <= |s.input|
    requires forall i | i in have :: i < |chunks|
    requires |have| < |chunks| && s.parts == Store(chunks, have)
    requires Arrivals(s.input[..count], number, chunks)
    requires |have + Indices(s.input[..count], number)| == |chunks|
    ensures read <= count
    ensures Pump(s, number, left)
         == (HandleAll(s, R.Messages(s.input[..read])).(input := s.input[read..], parts := map[]), Ok(Flatten(chunks)))
    decreases left, |s.input|
  {
    hide HandleAll, Handle, Indices, R.Messages, Flatten, Assemble, Store, Part, Pump, Passed, Arrivals;
    NothingYet(s, number);
    if count == 0 {
      NothingAdded(have, s.input, number);
      assert false;
    }
    var rest := s.input[1..];
    var more := Indices(rest[..count - 1], number);
    FirstOf(s.input, count, number);
    ArrivalsRest(s.input, count, number, chunks);
    PumpStep(s, number, left);
    var p := s.input[0].packet;
    if !Reply(s.input[0], number) {
      assert have + ({} + more) == have + more;
      PassedFrame(s);
      var next := PumpReassembles(Passed(s), number, left - 1, chunks, have, count - 1);
      read := next + 1;
      OneBefore(s, number, left, next, Flatten(chunks));
    } else {
      var i: byte :| i < |chunks| && p.data == Part(|chunks|, i, chunks[i]);
      AssemblePart(chunks, have, i);
      PartIndex(|chunks|, i, chunks[i]);
      assert have + ({i} + more) == have + {i} + more;
      if |have + {i}| == |chunks| {
        read := 1;
        FirstOf(s.input, 1, number);
        assert rest[..0] == [];
      } else {
        var parts := Store(chunks, have + {i});
        var next := PumpReassembles(s.(input := rest, parts := parts), number, left - 1, chunks, have + {i}, count - 1);
        read := next + 1;
        OnePartBefore(s, number, left, parts, next, Flatten(chunks));
      }
    }
  }

  lemma PartIndex(total: byte, index: byte, chunk: Data)
    ensures var d := Part(total, index, chunk);
            |d| >= 3 && d[2] == index
  {
  }

  lemma ArrivalsRest(input: seq<Recv>, count: nat, number: nat, chunks: seq<Data>)
    requires 0 < count <= |input| && |chunks| <= 255
    requires Arrivals(input[..count], number, chunks)
    ensures Arrivals(input[1..][..count - 1], number, chunks)
    ensures input[0].Arrived?
    ensures Reply(input[0], number) ==>
              exists i: byte :: i < |chunks| && input[0].packet.data == Part(|chunks|, i, chunks[i])
  {
    var rest := input[1..][..count - 1];
    forall k | 0 <= k < |rest|
      ensures rest[k] == input[..count][k + 1]
    {
    }
    assert input[..count][0] == input[0];
  }

  /** What is incomplete at the end is incomplete after one part more. */
  lemma StillIncomplete(have: set<byte>, index: byte, more: set<byte>, total: nat)
    requires index < total && (forall i | i in have :: i < total) && (forall i | i in more :: i < total)
    requires |have + ({index} + more)| != total
    ensures |have + {index}| < total && have + {index} + more == have + ({index} + more)
  {
    assert have + ({index} + more) == have + {index} + more;
    forall i | i in have + {index} + more
      ensures i < total
    {
    }
    assert have + {index} <= have + {index} + more;
    AllThere(have + {index}, total);
    if |have + {index}| == total {
      NothingToAdd(have + {index}, more, total);
    }
  }

  lemma {:induction false} PumpIncomplete(s: State, number: nat, left: nat, chunks: seq<Data>, have: set<byte>)
    requires |chunks| <= 255
    requires forall i | i in have :: i < |chunks|
    requires |have| < |chunks| && s.parts == Store(chunks, have)
    requires Arrivals(Waiting(s.input, left), number, chunks)
    requires |have + Indices(Waiting(s.input, left), number)| != |chunks|
    ensures Pump(s, number, left).1 == Err(Timeout)
    decreases left, |s.input|
  {
    hide Handle, Indices, R.Messages, Flatten, Assemble, Store, Part, Pump, Passed, Arrivals, Reply;
    if left == 0 || s.input == [] {
      PumpOver(s, number, left);
    }
    var count := |Waiting(s.input, left)|;
    if count > 0 {
      assert Waiting(s.input, left) == s.input[..count];
      var rest := s.input[1..];
      assert Waiting(rest, left - 1) == rest[..count - 1];
      var more := Indices(rest[..count - 1], number);
      FirstOf(s.input, count, number);
      ArrivalsRest(s.input, count, number, chunks);
      PumpStep(s, number, left);
      var p := s.input[0].packet;
      if !Reply(s.input[0], number) {
        assert have + ({} + more) == have + more;
        PassedFrame(s);
        PumpIncomplete(Passed(s), number, left - 1, chunks, have);
      } else {
        var i: byte :| i < |chunks| && p.data == Part(|chunks|, i, chunks[i]);
        AssemblePart(chunks, have, i);
        PartIndex(|chunks|, i, chunks[i]);
        IndicesFit(rest[..count - 1], number, chunks);
        StillIncomplete(have, i, more, |chunks|);
        PumpIncomplete(s.(input := rest, parts := Store(chunks, have + {i})), number, left - 1, chunks, have + {i});
      }
    }
  }

  /** What a loop of `left` passes can get to see. */
  function Waiting(input: seq<Recv>, left: nat): seq<Recv> {
    if |input| <= left then input else input[..left]
  }

  lemma IndicesFit(input: seq<Recv>, number: nat, chunks: seq<Data>)
    requires |chunks| <= 255 && Arrivals(input, number, chunks)
    ensures forall i | i in Indices(input, number) :: i < |chunks|
  {
  }

  // ---- what a command gives back --------------------------------------------------------------

  /** The client as it starts to wait for the reply to a command, and the command's number. */
  function Asking(s: State, cmd: Text, now: real): (State, nat) {
    var f := Flush(s, false, now);
    (Sending(f, Ask(f.number % 256, cmd)).(parts := map[]), f.number % 256)
  }

  /** A reply that was split comes back whole, and the pushed messages met on the way are handled in order, as soon as
      its parts have arrived: in any order, with repeats, pushed messages and replies to other commands between them,
      as long as no datagram so far was garbled and they took at most 64 receives. */
  lemma SplitReplyWhole(s: State, cmd: Text, now: real, body: Data, maxPacket: nat, chunks: seq<Data>, count: nat)
    returns (read: nat)
    requires s.connected && maxPacket > 0
    requires |body| > maxPacket && Split(body, maxPacket).Some? && chunks == Slices(body, maxPacket)
    requires count <= MAX_PUMP && count <= |s.input|
    requires Arrivals(s.input[..count], Asking(s, cmd, now).1, chunks)
    requires |Indices(s.input[..count], Asking(s, cmd, now).1)| == |chunks|
    ensures read <= count
    ensures Command(s, cmd, now)
         == (HandleAll(Asking(s, cmd, now).0, R.Messages(s.input[..read])).(input := s.input[read..], parts := map[]),
             Ok(body))
  {
    hide Flush, Pump, Slices;
    var (asking, number) := Asking(s, cmd, now);
    SlicesCount(body, maxPacket);
    FlattenSlices(body, maxPacket);
    assert {} + Indices(s.input[..count], number) == Indices(s.input[..count], number);
    assert Store(chunks, {}) == map[];
    read := PumpReassembles(asking, number, MAX_PUMP, chunks, {}, count);
  }

  lemma Owed(s: State)
    requires R.Inv(s)
    ensures s.delivered + s.events == R.Texts(R.Accepted(s.heard))
  {
  }

  lemma Hears(s: State, key: Key)
    ensures Handle(s, key).heard == s.heard + [key]
  {
  }

  /** What the parser is owed afterwards: the messages met on the way, taken as new or dropped as ever, in order. */
  lemma {:induction false} MetOnTheWay(s: State, keys: seq<Key>)
    requires R.Inv(s)
    ensures var s' := HandleAll(s, keys);
            && R.Inv(s') && s'.heard == s.heard + keys
            && s'.delivered + s'.events == R.Texts(R.Accepted(s.heard + keys))
    decreases |keys|
  {
    hide R.Inv, R.Texts, R.Accepted, Handle;
    if keys == [] {
      assert s.heard + keys == s.heard;
      Owed(s);
    } else {
      R.HandleInv(s, keys[0]);
      Hears(s, keys[0]);
      MetOnTheWay(Handle(s, keys[0]), keys[1..]);
      assert s.heard + [keys[0]] + keys[1..] == s.heard + keys;
    }
  }

  /** And it comes back no sooner: while a part is missing, the command times out instead. */
  lemma SplitReplyNeedsAll(s: State, cmd: Text, now: real, body: Data, maxPacket: nat, chunks: seq<Data>)
    requires s.connected && maxPacket > 0
    requires |body| > maxPacket && Split(body, maxPacket).Some? && chunks == Slices(body, maxPacket)
    requires Arrivals(Waiting(s.input, MAX_PUMP), Asking(s, cmd, now).1, chunks)
    requires |Indices(Waiting(s.input, MAX_PUMP), Asking(s, cmd, now).1)| != |chunks|
    ensures Command(s, cmd, now).1 == Err(Timeout)
  {
    hide Flush, Pump, Slices;
    var (asking, number) := Asking(s, cmd, now);
    SlicesCount(body, maxPacket);
    var seen := Waiting(s.input, MAX_PUMP);
    assert {} + Indices(seen, number) == Indices(seen, number);
    assert Store(chunks, {}) == map[];
    PumpIncomplete(asking, number, MAX_PUMP, chunks, {});
  }

  /** A reply that fits one datagram is sent without the part header, and taken for a part when it happens to start
      with the byte that marks one: it is given back exactly when it does not, or is too short to hold a header. */
  lemma WholeReplyExact(body: Data)
    ensures Assemble(map[], body).1 == Some(body) <==> |body| < 3 || body[0] != 0
  {
    if |body| >= 3 && body[0] == 0 {
      var parts := map[][body[2] := body[3..]];
      JoinOne(body[2], body[3..], body[1]);
    }
  }

  lemma {:induction false} JoinOne(index: byte, part: Data, total: nat)
    requires total <= 256
    ensures |Join(map[index := part], total)| <= |part|
    ensures total <= index ==> Join(map[index := part], total) == []
  {
    if total > 0 {
      JoinOne(index, part, total - 1);
    }
  }

  /** Intact datagrams, those of this reply being all of it. */
  predicate WholeArrivals(input: seq<Recv>, number: nat, body: Data) {
    forall k | 0 <= k < |input| :: input[k].Arrived? && (Reply(input[k], number) ==> input[k].packet.data == body)
  }

  lemma WholeArrivalsRest(input: seq<Recv>, count: nat, number: nat, body: Data)
    requires 0 < count <= |input| && WholeArrivals(input[..count], number, body)
    ensures input[0].Arrived? && (Reply(input[0], number) ==> input[0].packet.data == body)
    ensures WholeArrivals(input[1..][..count - 1], number, body)
  {
    var rest := input[1..][..count - 1];
    forall k | 0 <= k < |rest|
      ensures rest[k] == input[..count][k + 1]
    {
    }
    assert input[..count][0] == input[0];
  }

  lemma {:induction false} PumpWhole(s: State, number: nat, left: nat, body: Data, count: nat) returns (read: nat)
    requires |body| < 3 || body[0] != 0
    requires count <= left && count <= |s.input| && s.parts == map[]
    requires WholeArrivals(s.input[..count], number, body)
    requires exists k | 0 <= k < count :: Reply(s.input[k], number)
    ensures read <= count
    ensures Pump(s, number, left)
         == (HandleAll(s, R.Messages(s.input[..read])).(input := s.input[read..], parts := map[]), Ok(body))
    decreases count
  {
    hide HandleAll, Handle, Indices, R.Messages, Pump, Passed;
    WholeArrivalsRest(s.input, count, number, body);
    PumpStep(s, number, left);
    PassedFrame(s);
    if Reply(s.input[0], number) {
      read := 1;
      NothingYet(s, number);
      FirstOf(s.input, 1, number);
      assert s.input[1..][..0] == [];
    } else {
      var k :| 0 <= k < count && Reply(s.input[k], number);
      assert s.input[1..][k - 1] == s.input[k];
      var next := PumpWhole(Passed(s), number, left - 1, body, count - 1);
      read := next + 1;
      OneBefore(s, number, left, next, body);
    }
  }

  /** A reply that fits one datagram and is not mistaken for a part comes back as it was, and the pushed messages met on
      the way are handled in order, whatever else arrives between. */
  lemma WholeReply(s: State, cmd: Text, now: real, body: Data, count: nat) returns (read: nat)
    requires s.connected && (|body| < 3 || body[0] != 0)
    requires count <= MAX_PUMP && count <= |s.input|
    requires WholeArrivals(s.input[..count], Asking(s, cmd, now).1, body)
    requires exists k | 0 <= k < count :: Reply(s.input[k], Asking(s, cmd, now).1)
    ensures read <= count
    ensures Command(s, cmd, now)
         == (HandleAll(Asking(s, cmd, now).0, R.Messages(s.input[..read])).(input := s.input[read..], parts := map[]),
             Ok(body))
  {
    hide Flush, Pump;
    var (asking, number) := Asking(s, cmd, now);
    read := PumpWhole(asking, number, MAX_PUMP, body, count);
  }

  /** What a client makes of a reply it mistakes for a part: it waits for others, or gives back less than the reply. */
  lemma Mistaken(parts: map<byte, Data>, body: Data)
    requires |body| >= 3 && body[0] == 0 && (parts == map[] || parts == map[body[2] := body[3..]])
    ensures var (parts', reply) := Assemble(parts, body);
            if reply.None? then parts' == map[body[2] := body[3..]] else |reply.value| < |body|
  {
    assert parts[body[2] := body[3..]] == map[body[2] := body[3..]];
    JoinOne(body[2], body[3..], body[1]);
  }

  lemma {:induction false} PumpMistaken(s: State, number: nat, left: nat, body: Data)
    requires |body| >= 3 && body[0] == 0 && (s.parts == map[] || s.parts == map[body[2] := body[3..]])
    requires WholeArrivals(Waiting(s.input, left), number, body)
    ensures Pump(s, number, left).1 != Ok(body)
    decreases left, |s.input|
  {
    hide Handle, Pump, Passed, Assemble;
    if left == 0 || s.input == [] {
      PumpOver(s, number, left);
    } else {
      var count := |Waiting(s.input, left)|;
      assert Waiting(s.input, left) == s.input[..count];
      var rest := s.input[1..];
      assert Waiting(rest, left - 1) == rest[..count - 1];
      WholeArrivalsRest(s.input, count, number, body);
      PumpStep(s, number, left);
      if !Reply(s.input[0], number) {
        PassedFrame(s);
        PumpMistaken(Passed(s), number, left - 1, body);
      } else {
        Mistaken(s.parts, body);
        var (parts, reply) := Assemble(s.parts, body);
        if reply.None? {
          PumpMistaken(s.(input := rest, parts := parts), number, left - 1, body);
        }
      }
    }
  }

  /** Of everything a command may receive, an unsplit reply arriving any number of times and other things between: the
      command gives it back exactly when it does not look like a part. */
  lemma WholeReplyCommand(s: State, cmd: Text, now: real, body: Data)
    requires s.connected
    requires WholeArrivals(Waiting(s.input, MAX_PUMP), Asking(s, cmd, now).1, body)
    requires exists k | 0 <= k < |Waiting(s.input, MAX_PUMP)| :: Reply(s.input[k], Asking(s, cmd, now).1)
    ensures Command(s, cmd, now).1 == Ok(body) <==> |body| < 3 || body[0] != 0
  {
    hide Flush, Pump;
    var count := |Waiting(s.input, MAX_PUMP)|;
    assert Waiting(s.input, MAX_PUMP) == s.input[..count];
    if |body| < 3 || body[0] != 0 {
      var read := WholeReply(s, cmd, now, body, count);
    } else {
      var (asking, number) := Asking(s, cmd, now);
      PumpMistaken(asking, number, MAX_PUMP, body);
    }
  }

  /** The input that shows it: the server sends these four bytes as they are, and the command gives back the last. */
  lemma ReplyMistaken(cmd: Text, interval: real)
    ensures var body: Data := [0, 1, 0, 65];
            var s := Fresh([Arrived(Packet(COMMAND, 0, [0] + body, body))], interval);
            Split(body, 1024) == Some([body]) && Command(s, cmd, 0.0).1 == Ok([65])
  {
    hide Pump;
    var body: Data := [0, 1, 0, 65];
    var s := Fresh([Arrived(Packet(COMMAND, 0, [0] + body, body))], interval);
    var (asking, number) := Asking(s, cmd, 0.0);
    assert number == 0 && asking.parts == map[];
    PumpStep(asking, 0, MAX_PUMP);
    assert body[3..] == [65];
    assert Join(map[0 := [65]], 1) == Join(map[0 := [65]], 0) + [65] == [65];
  }
}
