/** Events and their acknowledgements. The server sends an event again until its acknowledgement has arrived, and the
    client, unlike BattlEye's, keeps nothing by which to know a repeat: it queues every copy.
  */
module FrostbiteEvents {
  import opened Bytes
  import opened Seqs
  import opened FrostbiteCodec
  import opened FrostbiteSession
  import R = FrostbiteRuns

  /** An event that is not acknowledged yet, and when it was last sent. Events are numbered as they are pushed; the wire
      carries the number modulo 2^30. */
  datatype Pending = Pending(id: nat, words: seq<Word>, sentAt: real)

  /** What the server puts on the stream: a copy of an event, or the answer to a command. */
  datatype Out = Event(id: nat, words: seq<Word>) | Reply(sequence: nat, words: seq<Word>)

  /** The words of every event pushed, the events not acknowledged, and everything sent. */
  datatype Log = Log(texts: seq<seq<Word>>, pending: seq<Pending>, sent: seq<Out>)

  datatype Step = Push(words: seq<Word>, now: real) | ResendDue(now: real) | Acked(sequence: nat)
                | Answer(sequence: nat, words: seq<Word>)

  function PacketOf(o: Out): Packet {
    match o
    case Event(id, words) => Packet(true, false, id % SEQUENCE_LIMIT, words)
    case Reply(sequence, words) => Packet(false, true, sequence, words)
  }

  predicate IsDue(p: Pending, now: real, after: real) {
    now - p.sentAt >= after
  }

  /** The copies that `_resend_unacked` sends. */
  function Due(pending: seq<Pending>, now: real, after: real): seq<Out> {
    if pending == [] then []
    else
      var last := pending[|pending| - 1];
      Due(pending[..|pending| - 1], now, after) + (if IsDue(last, now, after) then [Event(last.id, last.words)] else [])
  }

  function Stamped(p: Pending, now: real, after: real): Pending {
    if IsDue(p, now, after) then p.(sentAt := now) else p
  }

  lemma DueOne(pending: seq<Pending>, i: nat, now: real, after: real)
    requires i < |pending|
    ensures var copy := if IsDue(pending[i], now, after) then [Event(pending[i].id, pending[i].words)] else [];
            Due(pending[..i + 1], now, after) == Due(pending[..i], now, after) + copy
  {
    assert pending[..i + 1][..i] == pending[..i];
  }

  function Restamped(pending: seq<Pending>, now: real, after: real): (r: seq<Pending>)
    ensures |r| == |pending| && forall i | 0 <= i < |r| :: r[i] == Stamped(pending[i], now, after)
  {
    seq(|pending|, i requires 0 <= i < |pending| => Stamped(pending[i], now, after))
  }

  /** What stays unacknowledged after an acknowledgement of `sequence`. */
  function Without(pending: seq<Pending>, sequence: nat): seq<Pending> {
    if pending == [] then []
    else
      var last := pending[|pending| - 1];
      Without(pending[..|pending| - 1], sequence) + (if last.id % SEQUENCE_LIMIT == sequence then [] else [last])
  }

  function Do(n: Log, step: Step, after: real): Log {
    match step
    case Push(words, now) =>
      Log(n.texts + [words], n.pending + [Pending(|n.texts|, words, now)], n.sent + [Event(|n.texts|, words)])
    case ResendDue(now) =>
      n.(pending := Restamped(n.pending, now, after), sent := n.sent + Due(n.pending, now, after))
    case Acked(sequence) => n.(pending := Without(n.pending, sequence))
    case Answer(sequence, words) => n.(sent := n.sent + [Reply(sequence, words)])
  }

  function Run(steps: seq<Step>, after: real): Log {
    if steps == [] then Log([], [], []) else Do(Run(steps[..|steps| - 1], after), steps[|steps| - 1], after)
  }

  // ---- the server as an object ----------------------------------------------------------------

  class Server {
    const after: real
    var eventSeq: nat
    var pending: seq<Pending>
    var texts: seq<seq<Word>>  // numbers the events; the program keeps only `eventSeq`
    var sent: seq<Out>

    ghost predicate Valid()
      reads this
    {
      eventSeq == |texts| % SEQUENCE_LIMIT
    }

    function View(): Log
      reads this
    {
      Log(texts, pending, sent)
    }

    constructor (after: real)
      ensures Valid() && View() == Run([], after) && this.after == after
    {
      this.after, eventSeq, pending, texts, sent := after, 0, [], [], [];
    }

    method PushEvent(words: seq<Word>, now: real) returns (sequence: nat)
      requires Valid()
      modifies this
      ensures Valid() && View() == Do(old(View()), Push(words, now), after)
      ensures sequence == |old(texts)| % SEQUENCE_LIMIT
    {
      sequence := eventSeq;
      eventSeq := (eventSeq + 1) % SEQUENCE_LIMIT;
      pending := pending + [Pending(|texts|, words, now)];
      sent := sent + [Event(|texts|, words)];
      texts := texts + [words];
    }

    method HandleAck(sequence: nat)
      requires Valid()
      modifies this
      ensures Valid() && View() == Do(old(View()), Acked(sequence), after)
    {
      var kept: seq<Pending> := [];
      for i := 0 to |pending|
        invariant View() == old(View()) && Valid()
        invariant kept == Without(pending[..i], sequence)
      {
        assert pending[..i + 1][..i] == pending[..i];
        if pending[i].id % SEQUENCE_LIMIT != sequence {
          kept := kept + [pending[i]];
        }
      }
      assert pending[..|pending|] == pending;
      pending := kept;
    }

    method ResendUnacked(now: real)
      requires Valid()
      modifies this
      ensures Valid() && View() == Do(old(View()), ResendDue(now), after)
    {
      ghost var was, before := pending, sent;
      for i := 0 to |pending|
        invariant Valid() && texts == old(texts) && |pending| == |was|
        invariant forall j | 0 <= j < |was| :: pending[j] == if j < i then Stamped(was[j], now, after) else was[j]
        invariant sent == before + Due(was[..i], now, after)
      {
        DueOne(was, i, now, after);
        if IsDue(pending[i], now, after) {
          sent := sent + [Event(pending[i].id, pending[i].words)];
          pending := pending[i := pending[i].(sentAt := now)];
        }
      }
      assert was[..|was|] == was;
    }
  }

  // ---- how often an event is sent -------------------------------------------------------------

  function Copies(sent: seq<Out>, id: nat): nat {
    if sent == [] then 0
    else
      var last := sent[|sent| - 1];
      Copies(sent[..|sent| - 1], id) + if last.Event? && last.id == id then 1 else 0
  }

  predicate DueAmong(pending: seq<Pending>, id: nat, now: real, after: real) {
    exists i | 0 <= i < |pending| :: pending[i].id == id && now >= pending[i].sentAt + after
  }

  /** How often an event was sent again: it was still unacknowledged, and long enough ago. */
  function Resends(steps: seq<Step>, id: nat, after: real): nat {
    if steps == [] then 0
    else
      var front, last := steps[..|steps| - 1], steps[|steps| - 1];
      Resends(front, id, after)
      + if last.ResendDue? && DueAmong(Run(front, after).pending, id, last.now, after) then 1 else 0
  }

  /** In the order pushed, each once. */
  ghost predicate Ascending(pending: seq<Pending>) {
    forall i, j | 0 <= i < j < |pending| :: pending[i].id < pending[j].id
  }

  ghost predicate Waiting(pending: seq<Pending>, texts: seq<seq<Word>>) {
    forall p | p in pending :: p.id < |texts| && p.words == texts[p.id]
  }

  /** Every copy sent is a copy of an event that was pushed. */
  ghost predicate Genuine(sent: seq<Out>, texts: seq<seq<Word>>) {
    forall o | o in sent && o.Event? :: o.id < |texts| && o.words == texts[o.id]
  }

  ghost predicate Inv(n: Log) {
    Ascending(n.pending) && Waiting(n.pending, n.texts) && Genuine(n.sent, n.texts)
  }

  lemma {:induction false} DueFrom(pending: seq<Pending>, texts: seq<seq<Word>>, now: real, after: real)
    requires Waiting(pending, texts)
    ensures Genuine(Due(pending, now, after), texts)
  {
    if pending != [] {
      var front := pending[..|pending| - 1];
      assert forall p | p in front :: p in pending;
      DueFrom(front, texts, now, after);
    }
  }

  lemma {:induction false} WithoutFrom(pending: seq<Pending>, sequence: nat)
    ensures forall p :: p in Without(pending, sequence) <==> p in pending && p.id % SEQUENCE_LIMIT != sequence
  {
    if pending != [] {
      var front, last := pending[..|pending| - 1], pending[|pending| - 1];
      assert pending == front + [last];
      WithoutFrom(front, sequence);
    }
  }

  lemma {:induction false} WithoutAscends(pending: seq<Pending>, sequence: nat)
    requires Ascending(pending)
    ensures Ascending(Without(pending, sequence))
  {
    if pending != [] {
      var front, last := pending[..|pending| - 1], pending[|pending| - 1];
      WithoutAscends(front, sequence);
      WithoutFrom(front, sequence);
      var kept := Without(front, sequence);
      forall i | 0 <= i < |kept|
        ensures kept[i].id < last.id
      {
        assert kept[i] in front;
        var j :| 0 <= j < |front| && front[j] == kept[i];
        assert pending[j] == front[j];
      }
    }
  }

  lemma PushKeeps(n: Log, words: seq<Word>, now: real)
    requires Inv(n)
    ensures Inv(Do(n, Push(words, now), 0.0))
  {
    var id := |n.texts|;
    forall i | 0 <= i < |n.pending|
      ensures n.pending[i].id < id
    {
      assert n.pending[i] in n.pending;
    }
  }

  lemma ResendKeeps(n: Log, now: real, after: real)
    requires Inv(n)
    ensures Inv(Do(n, ResendDue(now), after))
  {
    hide Due;
    DueFrom(n.pending, n.texts, now, after);
    var r := Restamped(n.pending, now, after);
    forall p | p in r
      ensures p.id < |n.texts| && p.words == n.texts[p.id]
    {
      var i :| 0 <= i < |r| && r[i] == p;
      assert n.pending[i] in n.pending;
    }
  }

  lemma DoInv(n: Log, step: Step, after: real)
    requires Inv(n)
    ensures Inv(Do(n, step, after))
  {
    match step
    case Push(words, now) => PushKeeps(n, words, now);
    case ResendDue(now) => ResendKeeps(n, now, after);
    case Acked(sequence) =>
      WithoutFrom(n.pending, sequence);
      WithoutAscends(n.pending, sequence);
    case Answer(_, _) =>
  }

  lemma {:induction false} RunInv(steps: seq<Step>, after: real)
    ensures Inv(Run(steps, after))
  {
    hide Inv, Do;
    if steps == [] {
      assert Inv(Log([], [], [])) by { NothingInv(); }
    } else {
      RunInv(steps[..|steps| - 1], after);
      DoInv(Run(steps[..|steps| - 1], after), steps[|steps| - 1], after);
    }
  }

  lemma NothingInv()
    ensures Inv(Log([], [], []))
  {
  }

  lemma {:induction false} CopiesAppend(a: seq<Out>, b: seq<Out>, id: nat)
    ensures Copies(a + b, id) == Copies(a, id) + Copies(b, id)
  {
    if b == [] {
      assert a + b == a;
    } else {
      assert (a + b)[..|a + b| - 1] == a + b[..|b| - 1];
      CopiesAppend(a, b[..|b| - 1], id);
    }
  }

  /** One pass of resending sends at most one copy of each event. */
  lemma {:induction false} DueCopies(pending: seq<Pending>, id: nat, now: real, after: real)
    requires Ascending(pending)
    ensures Copies(Due(pending, now, after), id) == if DueAmong(pending, id, now, after) then 1 else 0
  {
    if pending != [] {
      var front, last := pending[..|pending| - 1], pending[|pending| - 1];
      DueCopies(front, id, now, after);
      var again := if IsDue(last, now, after) then [Event(last.id, last.words)] else [];
      CopiesAppend(Due(front, now, after), again, id);
      assert Copies(again, id) == if IsDue(last, now, after) && last.id == id then 1 else 0;
      assert DueAmong(front, id, now, after) ==> DueAmong(pending, id, now, after) by {
        if DueAmong(front, id, now, after) {
          var i :| 0 <= i < |front| && front[i].id == id && now >= front[i].sentAt + after;
          assert pending[i] == front[i];
        }
      }
    }
  }

  /** The copies one step sends. */
  lemma StepCopies(n: Log, step: Step, id: nat, after: real)
    requires Inv(n)
    ensures var pushed := if step.Push? && id == |n.texts| then 1 else 0;
            var resent := if step.ResendDue? && DueAmong(n.pending, id, step.now, after) then 1 else 0;
            Copies(Do(n, step, after).sent, id) == Copies(n.sent, id) + pushed + resent
  {
    hide Due, Restamped, Without, Inv, DueAmong;
    match step
    case Push(words, now) => CopiesAppend(n.sent, [Event(|n.texts|, words)], id);
    case ResendDue(now) =>
      InvAscending(n);
      CopiesAppend(n.sent, Due(n.pending, now, after), id);
      DueCopies(n.pending, id, now, after);
    case Acked(_) =>
    case Answer(sequence, words) => CopiesAppend(n.sent, [Reply(sequence, words)], id);
  }

  /** An event is sent once when it is pushed, and once more each time it is found waiting too long. */
  lemma {:induction false} CopiesSent(steps: seq<Step>, id: nat, after: real)
    ensures var n := Run(steps, after);
            Copies(n.sent, id) == if id < |n.texts| then 1 + Resends(steps, id, after) else 0
    ensures id >= |Run(steps, after).texts| ==> Resends(steps, id, after) == 0
  {
    hide Inv, DueAmong, Copies;
    if steps == [] {
      NoCopies(id);
    } else {
      var front, last := steps[..|steps| - 1], steps[|steps| - 1];
      var n := Run(front, after);
      CopiesSent(front, id, after);
      RunInv(front, after);
      StepCopies(n, last, id, after);
      if last.ResendDue? && id >= |n.texts| {
        NoneDue(n, id, last.now, after);
      }
    }
  }

  lemma NoCopies(id: nat)
    ensures Copies([], id) == 0
  {
  }

  lemma InvAscending(n: Log)
    requires Inv(n)
    ensures Ascending(n.pending)
  {
  }

  lemma NoneDue(n: Log, id: nat, now: real, after: real)
    requires Inv(n) && id >= |n.texts|
    ensures !DueAmong(n.pending, id, now, after)
  {
    forall i | 0 <= i < |n.pending|
      ensures n.pending[i].id != id
    {
      assert n.pending[i] in n.pending;
    }
  }

  /** The clock value an event was last sent at. */
  function LastSent(steps: seq<Step>, id: nat, after: real): real {
    if steps == [] then 0.0
    else
      var front, last := steps[..|steps| - 1], steps[|steps| - 1];
      var n := Run(front, after);
      if last.Push? && id == |n.texts| then last.now
      else if last.ResendDue? && DueAmong(n.pending, id, last.now, after) then last.now
      else LastSent(front, id, after)
  }

  /** An event that is sent again is sent no sooner than `after` behind the copy before. */
  lemma {:induction false} SentApart(steps: seq<Step>, id: nat, after: real)
    ensures forall p | p in Run(steps, after).pending && p.id == id :: p.sentAt == LastSent(steps, id, after)
    ensures forall now | DueAmong(Run(steps, after).pending, id, now, after) ::
              now >= LastSent(steps, id, after) + after
  {
    hide Due, Inv;
    if steps != [] {
      var front, last := steps[..|steps| - 1], steps[|steps| - 1];
      var n := Run(front, after);
      RunInv(front, after);
      SentApart(front, id, after);
      StampedAt(n, last, id, after);
    }
  }

  /** What a step makes of an event's stamp. */
  lemma StampedAt(n: Log, step: Step, id: nat, after: real)
    requires Inv(n)
    ensures forall p | p in Do(n, step, after).pending && p.id == id ::
              if step.Push? && id == |n.texts| then p.sentAt == step.now
              else if step.ResendDue? && DueAmong(n.pending, id, step.now, after) then p.sentAt == step.now
              else exists q :: q in n.pending && q.id == id && q.sentAt == p.sentAt
  {
    hide Due;
    match step
    case Push(words, now) =>
    case ResendDue(now) => RestampedAt(n, id, now, after);
    case Acked(sequence) => WithoutFrom(n.pending, sequence);
    case Answer(_, _) =>
  }

  lemma RestampedAt(n: Log, id: nat, now: real, after: real)
    requires Inv(n)
    ensures forall p | p in Restamped(n.pending, now, after) && p.id == id ::
              if DueAmong(n.pending, id, now, after) then p.sentAt == now
              else exists q :: q in n.pending && q.id == id && q.sentAt == p.sentAt
  {
    var r := Restamped(n.pending, now, after);
    forall p | p in r && p.id == id
      ensures if DueAmong(n.pending, id, now, after) then p.sentAt == now
              else exists q :: q in n.pending && q.id == id && q.sentAt == p.sentAt
    {
      var i :| 0 <= i < |r| && r[i] == p;
      assert n.pending[i] in n.pending && n.pending[i].id == id;
      if DueAmong(n.pending, id, now, after) {
        var j :| 0 <= j < |n.pending| && n.pending[j].id == id && now >= n.pending[j].sentAt + after;
        assert i == j;
      }
    }
  }

  /** The answers given over a run. */
  function Answers(steps: seq<Step>): seq<Packet> {
    if steps == [] then []
    else
      var last := steps[|steps| - 1];
      Answers(steps[..|steps| - 1]) + if last.Answer? then [Packet(false, true, last.sequence, last.words)] else []
  }

  function AnswerIn(o: Out): seq<Packet> { if PacketOf(o).fromServer then [] else [PacketOf(o)] }

  /** On the stream stand the answers, in the order given and each once, as responses in the client's numbering; and the
      events, as requests in the server's. */
  lemma {:induction false} AnswersSent(steps: seq<Step>, after: real)
    ensures Gather(AnswerIn, Run(steps, after).sent) == Answers(steps)
    ensures forall o | o in Run(steps, after).sent && o.Event? ::
              PacketOf(o) == Packet(true, false, o.id % 0x4000_0000, o.words)
  {
    hide Due, Restamped, Without;
    if steps != [] {
      var front, last := steps[..|steps| - 1], steps[|steps| - 1];
      var n := Run(front, after);
      AnswersSent(front, after);
      match last
      case Push(words, now) => GatherOne(AnswerIn, n.sent, Event(|n.texts|, words));
      case ResendDue(now) =>
        NoAnswersDue(n.pending, now, after);
        GatherAppend(AnswerIn, n.sent, Due(n.pending, now, after));
      case Acked(_) =>
      case Answer(sequence, words) => GatherOne(AnswerIn, n.sent, Reply(sequence, words));
    }
  }

  lemma {:induction false} NoAnswersDue(pending: seq<Pending>, now: real, after: real)
    ensures Gather(AnswerIn, Due(pending, now, after)) == []
  {
    if pending != [] {
      var front, last := pending[..|pending| - 1], pending[|pending| - 1];
      NoAnswersDue(front, now, after);
      GatherOne(AnswerIn, Due(front, now, after), Event(last.id, last.words));
      assert Due(front, now, after) + [] == Due(front, now, after);
    }
  }

  // ---- nothing is sent again once acknowledged ------------------------------------------------

  /** The event is over: pushed, and not waiting. */
  predicate Over(n: Log, id: nat) {
    id < |n.texts| && forall i | 0 <= i < |n.pending| :: n.pending[i].id != id
  }

  lemma OverStays(n: Log, step: Step, id: nat, after: real)
    requires Inv(n) && Over(n, id)
    ensures Over(Do(n, step, after), id)
  {
    match step
    case Acked(sequence) =>
      WithoutFrom(n.pending, sequence);
      var kept := Without(n.pending, sequence);
      forall i | 0 <= i < |kept|
        ensures kept[i].id != id
      {
        assert kept[i] in n.pending;
      }
    case _ =>
  }

  lemma AckedOver(n: Log, id: nat, after: real)
    requires Inv(n) && id < |n.texts|
    ensures Over(Do(n, Acked(id % SEQUENCE_LIMIT), after), id)
  {
    WithoutFrom(n.pending, id % SEQUENCE_LIMIT);
    var kept := Without(n.pending, id % SEQUENCE_LIMIT);
    forall i | 0 <= i < |kept|
      ensures kept[i].id != id
    {
      assert kept[i] in kept;
    }
  }

  lemma {:induction false} OverSince(steps: seq<Step>, k: nat, id: nat, after: real)
    requires k <= |steps| && Over(Run(steps[..k], after), id)
    ensures Over(Run(steps, after), id)
    ensures Resends(steps, id, after) == Resends(steps[..k], id, after)
    decreases |steps|
  {
    if k == |steps| {
      assert steps[..k] == steps;
    } else {
      hide Do, Inv;
      var front := steps[..|steps| - 1];
      assert front[..k] == steps[..k];
      OverSince(front, k, id, after);
      RunInv(front, after);
      OverStays(Run(front, after), steps[|steps| - 1], id, after);
    }
  }

  /** Every copy beyond the first was sent before the event's acknowledgement arrived: once it has, no more are. */
  lemma AckedStops(steps: seq<Step>, k: nat, id: nat, after: real)
    requires k < |steps| && steps[k] == Acked(id % SEQUENCE_LIMIT) && id < |Run(steps[..k], after).texts|
    ensures Resends(steps, id, after) == Resends(steps[..k], id, after)
    ensures Copies(Run(steps, after).sent, id) == 1 + Resends(steps[..k], id, after)
  {
    hide Do, Inv;
    assert steps[..k + 1][..k] == steps[..k];
    RunInv(steps[..k], after);
    AckedOver(Run(steps[..k], after), id, after);
    OverSince(steps, k + 1, id, after);
    CopiesSent(steps, id, after);
  }

  // ---- what the client makes of it ------------------------------------------------------------

  function PacketsOf(sent: seq<Out>): (packets: seq<Packet>)
    ensures |packets| == |sent| && forall i | 0 <= i < |sent| :: packets[i] == PacketOf(sent[i])
  {
    seq(|sent|, i requires 0 <= i < |sent| => PacketOf(sent[i]))
  }

  function IdIn(o: Out): seq<nat> { if o.Event? && o.words != [] then [o.id] else [] }

  /** The events sent, copy by copy; one without words makes no line. */
  function Ids(sent: seq<Out>): seq<nat> { Gather(IdIn, sent) }

  /** The lines that events make. */
  function Spell(texts: seq<seq<Word>>, ids: seq<nat>): seq<Line> {
    if ids == [] then []
    else
      var id := ids[|ids| - 1];
      Spell(texts, ids[..|ids| - 1]) + (if id < |texts| then [texts[id]] else [])
  }

  lemma {:induction false} LinesSpelled(texts: seq<seq<Word>>, sent: seq<Out>)
    requires Genuine(sent, texts)
    ensures R.Lines(PacketsOf(sent)) == Spell(texts, Ids(sent))
  {
    if sent != [] {
      var front, last := sent[..|sent| - 1], sent[|sent| - 1];
      assert sent == front + [last];
      LinesSpelled(texts, front);
      assert PacketsOf(sent)[..|sent| - 1] == PacketsOf(front);
      var ids := Ids(front);
      if last.Event? && last.words != [] {
        assert (ids + [last.id])[..|ids|] == ids;
      } else {
        assert ids + [] == ids;
      }
    }
  }

  lemma {:induction false} IdsCounted(sent: seq<Out>, id: nat)
    requires forall o | o in sent && o.Event? && o.id == id :: o.words != []
    ensures multiset(Ids(sent))[id] == Copies(sent, id)
  {
    if sent != [] {
      var front, last := sent[..|sent| - 1], sent[|sent| - 1];
      assert sent == front + [last];
      IdsCounted(front, id);
      assert Ids(sent) == Ids(front) + IdIn(last);
    }
  }

  /** Against such a server, once the client has received all it sent: the lines returned, queued and still in the
      buffer are those of the events sent, copy by copy in order. Each event that has words is there once, and once more
      for every time it was sent again: more than once exactly when it was found unacknowledged for too long. */
  lemma EventsHandedOver(steps: seq<Step>, after: real, frames: seq<Data>, input: seq<Recv>, interval: real,
                         ops: seq<R.Op>)
    requires var packets := PacketsOf(Run(steps, after).sent);
             |frames| == |packets|
             && forall i | 0 <= i < |packets| :: Sendable(packets[i]) && frames[i] == WireOf(packets[i])
    requires R.DataOf(input) == Flatten(frames)
    requires R.Run(Fresh(input, interval), ops).connected && R.DataOf(R.Run(Fresh(input, interval), ops).input) == []
    ensures var s, n := R.Run(Fresh(input, interval), ops), Run(steps, after);
            var lines := R.Returned(Fresh(input, interval), ops) + s.events;
            lines + R.Lines(R.Stream(s.buffer).payloads) == Spell(n.texts, Ids(n.sent))
    ensures var n := Run(steps, after);
            forall id | 0 <= id < |n.texts| && n.texts[id] != [] ::
              multiset(Ids(n.sent))[id] == 1 + Resends(steps, id, after)
  {
    hide *;
    var s, n := R.Run(Fresh(input, interval), ops), Run(steps, after);
    R.StreamConservation(PacketsOf(n.sent), frames, input, interval, ops);
    RunInv(steps, after);
    SentFrom(n);
    LinesSpelled(n.texts, n.sent);
    forall id | 0 <= id < |n.texts| && n.texts[id] != []
      ensures multiset(Ids(n.sent))[id] == 1 + Resends(steps, id, after)
    {
      CopiesSent(steps, id, after);
      IdsCounted(n.sent, id);
    }
  }

  lemma SentFrom(n: Log)
    requires Inv(n)
    ensures Genuine(n.sent, n.texts)
    ensures forall o | o in n.sent && o.Event? :: o.id < |n.texts| && o.words == n.texts[o.id]
  {
  }

  /** The shortest such run: an event pushed and sent again before anything comes back is on the stream twice. */
  lemma QueuedTwice(words: seq<Word>, after: real)
    requires words != [] && after >= 0.0
    ensures var n := Run([Push(words, 0.0), ResendDue(after)], after);
            Spell(n.texts, Ids(n.sent)) == [words, words]
  {
    var one := Log([words], [Pending(0, words, 0.0)], [Event(0, words)]);
    RunOne([], Push(words, 0.0), after);
    assert [] + [Push(words, 0.0)] == [Push(words, 0.0)];
    RunOne([Push(words, 0.0)], ResendDue(after), after);
    assert [Push(words, 0.0)] + [ResendDue(after)] == [Push(words, 0.0), ResendDue(after)];
    assert Due(one.pending, after, after) == [Event(0, words)] by {
      assert one.pending[..0] == [];
    }
    GatherOne(IdIn, [], Event(0, words));
    GatherOne(IdIn, [Event(0, words)], Event(0, words));
    assert [] + [Event(0, words)] == [Event(0, words)];
    assert [0, 0][..1] == [0] && [0][..0] == [];
    assert Spell([words], [0]) == [words];
  }

  lemma RunOne(steps: seq<Step>, step: Step, after: real)
    ensures Run(steps + [step], after) == Do(Run(steps, after), step, after)
  {
    assert (steps + [step])[..|steps|] == steps;
  }
}
