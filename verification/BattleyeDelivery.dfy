/** Delivery of pushed messages: a server that resends each until it is acknowledged, a client that acknowledges
    everything and drops what it takes for a repeat, and a link between them that loses, repeats, delays and reorders.

    Messages are numbered in the order they were pushed. The number never travels: the wire carries its low byte, the
    client compares that byte and the text, the server compares that byte alone.
  */
module BattleyeDelivery {
  import opened Bytes
  import opened Strings
  import opened Seqs
  import opened BattleyeSession
  import R = BattleyeRuns

  /** A pushed message; `id` is its number, and the rest is on the wire. */
  datatype Message = Message(id: nat, sequence: byte, text: Data)

  /** An acknowledgement of message `id`; only the sequence byte is on the wire. */
  datatype Receipt = Receipt(id: nat, sequence: byte)

  /** The server's unacknowledged messages, every datagram either side ever sent, the client, and the numbers of the
      messages that reached it, repeats included. A datagram that was sent may arrive at any later time, any number
      of times, or never: that is the whole of the link. */
  datatype Net = Net(texts: seq<Data>, pending: seq<Message>, toClient: set<Message>, toServer: set<Receipt>,
                     client: State, arrivals: seq<nat>)

  datatype Step = Push(text: Data) | Resend(m: Message) | Hear(m: Message) | Acked(a: Receipt) | Read

  function Start(client: State): Net {
    Net([], [], {}, {}, client, [])
  }

  // ---- the server -----------------------------------------------------------------------------

  function NewMessage(pushed: nat, text: Data): Message {
    Message(pushed, pushed % 256, text)
  }

  /** What stays unacknowledged after an acknowledgement of `sequence`. */
  function Without(pending: seq<Message>, sequence: byte): seq<Message> {
    if pending == [] then []
    else (if pending[0].sequence == sequence then [] else [pending[0]]) + Without(pending[1..], sequence)
  }

  lemma {:induction false} WithoutKeeps(pending: seq<Message>, sequence: byte)
    ensures forall m :: m in Without(pending, sequence) <==> m in pending && m.sequence != sequence
  {
    if pending != [] {
      WithoutKeeps(pending[1..], sequence);
      assert pending == [pending[0]] + pending[1..];
    }
  }

  lemma {:induction false} WithoutAppend(pending: seq<Message>, m: Message, sequence: byte)
    ensures Without(pending + [m], sequence)
         == Without(pending, sequence) + (if m.sequence == sequence then [] else [m])
  {
    if pending == [] {
      assert pending + [m] == [m];
    } else {
      WithoutAppend(pending[1..], m, sequence);
      var all, head := pending + [m], if pending[0].sequence == sequence then [] else [pending[0]];
      assert all[0] == pending[0] && all[1..] == pending[1..] + [m];
      assert Without(all, sequence) == head + Without(pending[1..] + [m], sequence);
      assert Without(pending, sequence) == head + Without(pending[1..], sequence);
    }
  }

  class Server {
    var messageSeq: byte
    var pending: seq<Message>
    var pushed: nat  // numbers the messages; the program keeps only its low byte
    var sent: seq<Message>

    ghost predicate Valid()
      reads this
    {
      messageSeq == pushed % 256
    }

    constructor ()
      ensures Valid() && pending == [] && pushed == 0 && sent == []
    {
      messageSeq, pending, pushed, sent := 0, [], 0, [];
    }

    method Push(text: Data) returns (sequence: byte)
      requires Valid()
      modifies this
      ensures Valid() && pushed == old(pushed) + 1
      ensures pending == old(pending) + [NewMessage(old(pushed), text)] && sequence == old(pushed) % 256
      ensures sent == old(sent) + [NewMessage(old(pushed), text)]
    {
      sequence := messageSeq;
      messageSeq := (messageSeq + 1) % 256;
      pending := pending + [Message(pushed, sequence, text)];
      sent := sent + [Message(pushed, sequence, text)];
      pushed := pushed + 1;
    }

    method HandleAck(sequence: byte)
      requires Valid()
      modifies this
      ensures Valid() && pushed == old(pushed) && sent == old(sent) && pending == Without(old(pending), sequence)
    {
      var kept: seq<Message> := [];
      for i := 0 to |pending|
        invariant pending == old(pending) && Valid() && pushed == old(pushed) && sent == old(sent)
        invariant kept == Without(pending[..i], sequence)
      {
        WithoutAppend(pending[..i], pending[i], sequence);
        assert pending[..i + 1] == pending[..i] + [pending[i]];
        if pending[i].sequence != sequence {
          kept := kept + [pending[i]];
        }
      }
      assert pending[..|pending|] == pending;
      pending := kept;
    }
  }

  // ---- the protocol ---------------------------------------------------------------------------

  predicate Can(n: Net, step: Step) {
    match step
    case Push(_) => true
    case Resend(m) => m in n.pending
    case Hear(m) => m in n.toClient
    case Acked(a) => a in n.toServer
    case Read => true
  }

  /** A message can arrive from the moment it is pushed, and is sent again as long as it is pending. */
  lemma PushedCanArrive(n: Net, text: Data)
    ensures var (n', m) := (Do(n, Push(text)), NewMessage(|n.texts|, text));
            Can(n', Hear(m)) && Can(n', Resend(m)) && m == Message(|n.texts|, |n.texts| % 256, text)
  {
  }

  function Do(n: Net, step: Step): Net {
    match step
    case Push(text) =>
      var m := NewMessage(|n.texts|, text);
      n.(texts := n.texts + [text], pending := n.pending + [m], toClient := n.toClient + {m})
    case Resend(m) => n.(toClient := n.toClient + {m})
    case Hear(m) =>
      n.(client := Handle(n.client, (m.sequence, m.text)), arrivals := n.arrivals + [m.id],
         toServer := n.toServer + {Receipt(m.id, m.sequence)})
    case Acked(a) => n.(pending := Without(n.pending, a.sequence))
    case Read => n.(client := n.client.(events := [], delivered := n.client.delivered + n.client.events))
  }

  /** Each message that arrived, once, in the order of first arrival. */
  function FirstArrivals(arrivals: seq<nat>): seq<nat> {
    if arrivals == [] then []
    else
      var before, id := FirstArrivals(arrivals[..|arrivals| - 1]), arrivals[|arrivals| - 1];
      if id in before then before else before + [id]
  }

  function Recent(ids: seq<nat>): seq<nat> {
    if |ids| <= SEEN_WINDOW then ids else ids[|ids| - SEEN_WINDOW..]
  }

  /** No two of these are a whole turn of the sequence byte apart. */
  predicate WithinWrap(id: nat, ids: seq<nat>) {
    forall j | j in ids :: id - 256 < j < id + 256
  }

  function Ids(ms: seq<Message>): seq<nat> {
    seq(|ms|, i requires 0 <= i < |ms| => ms[i].id)
  }

  /** The timing the protocol depends on: a message arrives before a wrap separates it from the last sixteen taken,
      a repeat before sixteen others have been taken since, and an acknowledgement before a wrap separates it from
      anything still pending. */
  predicate Timely(n: Net, step: Step) {
    match step
    case Hear(m) =>
      var taken := FirstArrivals(n.arrivals);
      WithinWrap(m.id, Recent(taken)) && (m.id in taken ==> m.id in Recent(taken))
    case Acked(a) => WithinWrap(a.id, Ids(n.pending))
    case _ => true
  }

  /** A run of the protocol: every step is one that can happen. */
  ghost predicate Possible(n: Net, steps: seq<Step>)
    decreases |steps|
  {
    steps != [] ==> Can(n, steps[0]) && Possible(Do(n, steps[0]), steps[1..])
  }

  /** One that keeps to the timing. */
  ghost predicate InTime(n: Net, steps: seq<Step>)
    decreases |steps|
  {
    steps != [] ==> Timely(n, steps[0]) && InTime(Do(n, steps[0]), steps[1..])
  }

  function After(n: Net, steps: seq<Step>): Net
    decreases |steps|
  {
    if steps == [] then n else After(Do(n, steps[0]), steps[1..])
  }

  // ---- the invariant --------------------------------------------------------------------------

  predicate Pushed(texts: seq<Data>, ids: seq<nat>) {
    forall i | 0 <= i < |ids| :: ids[i] < |texts|
  }

  function KeyOf(texts: seq<Data>, id: nat): Key
    requires id < |texts|
  {
    (id % 256, texts[id])
  }

  function Keys(texts: seq<Data>, ids: seq<nat>): seq<Key>
    requires Pushed(texts, ids)
  {
    seq(|ids|, i requires 0 <= i < |ids| => KeyOf(texts, ids[i]))
  }

  predicate Genuine(texts: seq<Data>, m: Message) {
    m.id < |texts| && m == NewMessage(m.id, texts[m.id])
  }

  ghost predicate AllGenuine(texts: seq<Data>, pending: seq<Message>, sent: set<Message>) {
    && (forall m | m in pending :: Genuine(texts, m))
    && (forall m | m in sent :: Genuine(texts, m))
  }

  ghost predicate Answered(arrivals: seq<nat>, receipts: set<Receipt>) {
    forall a | a in receipts :: a.id in arrivals && a.sequence == a.id % 256
  }

  /** Every message pushed has arrived or is still being resent. */
  ghost predicate Covered(texts: seq<Data>, arrivals: seq<nat>, pending: seq<Message>) {
    forall id | 0 <= id < |texts| :: id in arrivals || NewMessage(id, texts[id]) in pending
  }

  ghost predicate TakenRight(texts: seq<Data>, heard: seq<Key>, arrivals: seq<nat>) {
    && Pushed(texts, arrivals) && Pushed(texts, FirstArrivals(arrivals))
    && R.Accepted(heard) == Keys(texts, FirstArrivals(arrivals))
  }

  /** What can go wrong has not: the client has taken each message that arrived once, and what has not arrived is
      still being resent. */
  ghost predicate Right(n: Net) {
    TakenRight(n.texts, n.client.heard, n.arrivals) && Covered(n.texts, n.arrivals, n.pending)
  }

  ghost predicate Inv(n: Net) {
    && R.Inv(n.client)
    && AllGenuine(n.texts, n.pending, n.toClient)
    && Answered(n.arrivals, n.toServer)
    && Right(n)
  }

  lemma FirstArrivalsOne(arrivals: seq<nat>, id: nat)
    ensures var taken := FirstArrivals(arrivals);
            FirstArrivals(arrivals + [id]) == if id in taken then taken else taken + [id]
  {
    assert (arrivals + [id])[..|arrivals|] == arrivals;
  }

  lemma {:induction false} FirstArrivalsOnce(arrivals: seq<nat>)
    ensures var first := FirstArrivals(arrivals);
            && (forall id :: id in first <==> id in arrivals)
            && (forall i, j | 0 <= i < j < |first| :: first[i] != first[j])
  {
    if arrivals != [] {
      hide FirstArrivals;
      var front, last := arrivals[..|arrivals| - 1], arrivals[|arrivals| - 1];
      FirstArrivalsOnce(front);
      FirstArrivalsOne(front, last);
      assert arrivals == front + [last];
      assert forall id :: id in arrivals <==> id in front || id == last;
    }
  }

  lemma WindowKeys(texts: seq<Data>, taken: seq<nat>)
    requires Pushed(texts, taken)
    ensures Pushed(texts, Recent(taken)) && R.Newest(Keys(texts, taken)) == Keys(texts, Recent(taken))
  {
    if |taken| > SEEN_WINDOW {
      var from := |taken| - SEEN_WINDOW;
      var all, recent := Keys(texts, taken), Keys(texts, taken[from..]);
      forall i | 0 <= i < SEEN_WINDOW
        ensures all[from..][i] == recent[i]
      {
        assert taken[from..][i] == taken[from + i];
      }
      assert all[from..] == recent;
    }
  }

  /** One of these messages has the sequence byte and the text of message `id`: itself, or one it is taken for. */
  predicate Twin(texts: seq<Data>, ids: seq<nat>, id: nat)
    requires Pushed(texts, ids) && id < |texts|
  {
    exists i | 0 <= i < |ids| :: ids[i] % 256 == id % 256 && texts[ids[i]] == texts[id]
  }

  /** The client's window against the true one: the key of a message is in it exactly when the window has a twin. */
  lemma SameWindow(texts: seq<Data>, taken: seq<nat>, id: nat)
    requires Pushed(texts, taken) && id < |texts|
    ensures Pushed(texts, Recent(taken))
    ensures KeyOf(texts, id) in R.Newest(Keys(texts, taken)) <==> Twin(texts, Recent(taken), id)
  {
    var recent := Recent(taken);
    WindowKeys(texts, taken);
    hide R.Newest, Recent;
    if i :| 0 <= i < |recent| && KeyOf(texts, recent[i]) == KeyOf(texts, id) {
      assert Keys(texts, recent)[i] == KeyOf(texts, id);
    }
  }

  /** Short of a wrap a message has no twin but itself. */
  lemma OnlyItself(texts: seq<Data>, ids: seq<nat>, id: nat)
    requires Pushed(texts, ids) && id < |texts| && WithinWrap(id, ids)
    ensures Twin(texts, ids, id) <==> id in ids
  {
    if i :| 0 <= i < |ids| && ids[i] % 256 == id % 256 && texts[ids[i]] == texts[id] {
      assert ids[i] in ids;
    }
  }

  lemma RecentTaken(taken: seq<nat>)
    ensures forall j | j in Recent(taken) :: j in taken
  {
  }

  /** What the client does with an arrival is right exactly when a repeat has a twin among the sixteen messages taken
      last and a new message has none: one is then dropped and the other taken. */
  lemma RightExactly(texts: seq<Data>, heard: seq<Key>, arrivals: seq<nat>, id: nat)
    requires Pushed(texts, FirstArrivals(arrivals)) && id < |texts|
    requires R.Accepted(heard) == Keys(texts, FirstArrivals(arrivals))
    ensures var taken := FirstArrivals(arrivals);
            && Pushed(texts, Recent(taken))
            && FirstArrivals(arrivals + [id]) == (if id in taken then taken else taken + [id])
            && (R.Accepted(heard + [KeyOf(texts, id)]) == Keys(texts, FirstArrivals(arrivals + [id])) <==>
                  (id in taken <==> Twin(texts, Recent(taken), id)))
  {
    FirstArrivalsOne(arrivals, id);
    hide FirstArrivals, R.Accepted, R.Newest, Recent, Twin;
    var taken := FirstArrivals(arrivals);
    R.AcceptedOne(heard, KeyOf(texts, id));
    SameWindow(texts, taken, id);
    assert id !in taken ==> Keys(texts, taken + [id]) == Keys(texts, taken) + [KeyOf(texts, id)];
    assert |Keys(texts, taken) + [KeyOf(texts, id)]| != |Keys(texts, taken)|;
  }

  /** Short of a wrap that is: exactly when the arrival is not a repeat from further back than sixteen. */
  lemma TakenIffNotSeen(texts: seq<Data>, heard: seq<Key>, arrivals: seq<nat>, id: nat)
    requires Pushed(texts, FirstArrivals(arrivals)) && id < |texts|
    requires R.Accepted(heard) == Keys(texts, FirstArrivals(arrivals))
    requires WithinWrap(id, Recent(FirstArrivals(arrivals)))
    ensures var taken := FirstArrivals(arrivals);
            && FirstArrivals(arrivals + [id]) == (if id in taken then taken else taken + [id])
            && (R.Accepted(heard + [KeyOf(texts, id)]) == Keys(texts, FirstArrivals(arrivals + [id])) <==>
                  (id in taken ==> id in Recent(taken)))
  {
    hide FirstArrivals, R.Accepted, Recent, Twin, WithinWrap, Keys;
    RightExactly(texts, heard, arrivals, id);
    OnlyItself(texts, Recent(FirstArrivals(arrivals)), id);
    RecentTaken(FirstArrivals(arrivals));
  }

  // ---- which steps are safe -------------------------------------------------------------------

  /** A repeat with a twin among the last sixteen taken, or a new message without. */
  ghost predicate SafeArrival(texts: seq<Data>, arrivals: seq<nat>, id: nat) {
    var taken := FirstArrivals(arrivals);
    Pushed(texts, Recent(taken)) && id < |texts| && (id in taken <==> Twin(texts, Recent(taken), id))
  }

  /** An acknowledgement whose byte no message has that is still to arrive. */
  predicate SafeAck(texts: seq<Data>, arrivals: seq<nat>, sequence: byte) {
    forall id | 0 <= id < |texts| && id !in arrivals :: id % 256 != sequence
  }

  ghost predicate Safe(n: Net, step: Step) {
    match step
    case Hear(m) => SafeArrival(n.texts, n.arrivals, m.id)
    case Acked(a) => SafeAck(n.texts, n.arrivals, a.sequence)
    case _ => true
  }

  ghost predicate AllSafe(n: Net, steps: seq<Step>)
    decreases |steps|
  {
    steps != [] ==> Safe(n, steps[0]) && AllSafe(Do(n, steps[0]), steps[1..])
  }

  /** Nothing is wrong at any point of a run. */
  ghost predicate StaysRight(n: Net, steps: seq<Step>)
    decreases |steps|
  {
    Right(n) && (steps != [] ==> StaysRight(Do(n, steps[0]), steps[1..]))
  }

  lemma PushedFirst(texts: seq<Data>, arrivals: seq<nat>)
    ensures Pushed(texts, FirstArrivals(arrivals)) <==> Pushed(texts, arrivals)
  {
    hide FirstArrivals;
    FirstArrivalsOnce(arrivals);
    var first := FirstArrivals(arrivals);
    if Pushed(texts, arrivals) {
      forall i | 0 <= i < |first|
        ensures first[i] < |texts|
      {
        assert first[i] in first;
        assert first[i] in arrivals;
      }
    }
    if Pushed(texts, first) {
      forall i | 0 <= i < |arrivals|
        ensures arrivals[i] < |texts|
      {
        assert arrivals[i] in arrivals;
        assert arrivals[i] in first;
      }
    }
  }

  lemma HearExactly(texts: seq<Data>, heard: seq<Key>, arrivals: seq<nat>, id: nat)
    requires TakenRight(texts, heard, arrivals) && id < |texts|
    ensures TakenRight(texts, heard + [KeyOf(texts, id)], arrivals + [id]) <==> SafeArrival(texts, arrivals, id)
  {
    hide FirstArrivals, Recent, Keys, R.Accepted, Twin;
    RightExactly(texts, heard, arrivals, id);
    PushedFirst(texts, arrivals + [id]);
  }

  lemma HearInv(n: Net, m: Message)
    requires Inv(n) && m in n.toClient
    ensures var n' := Do(n, Hear(m));
            (Right(n') <==> Safe(n, Hear(m))) && (Right(n') ==> Inv(n'))
  {
    hide R.Inv, TakenRight, SafeArrival, Strip, Remember;
    assert Genuine(n.texts, m);
    R.HandleInv(n.client, (m.sequence, m.text));
    HearExactly(n.texts, n.client.heard, n.arrivals, m.id);
    MoreCovered(n, m);
  }

  lemma MoreCovered(n: Net, m: Message)
    requires Covered(n.texts, n.arrivals, n.pending)
    ensures Covered(n.texts, n.arrivals + [m.id], n.pending)
  {
  }

  lemma PushInv(n: Net, text: Data)
    requires Inv(n)
    ensures Inv(Do(n, Push(text)))
  {
    hide R.Inv, TakenRight, Covered;
    PushTaken(n.texts, text, n.client.heard, n.arrivals);
    PushCovers(n.texts, text, n.arrivals, n.pending);
    var texts := n.texts + [text];
    forall m | Genuine(n.texts, m)
      ensures Genuine(texts, m)
    {
      assert texts[m.id] == n.texts[m.id];
    }
  }

  lemma PushTaken(texts: seq<Data>, text: Data, heard: seq<Key>, arrivals: seq<nat>)
    requires TakenRight(texts, heard, arrivals)
    ensures TakenRight(texts + [text], heard, arrivals)
  {
    hide FirstArrivals, R.Accepted;
    assert Keys(texts + [text], FirstArrivals(arrivals)) == Keys(texts, FirstArrivals(arrivals));
  }

  lemma PushCovers(texts: seq<Data>, text: Data, arrivals: seq<nat>, pending: seq<Message>)
    requires Covered(texts, arrivals, pending)
    ensures Covered(texts + [text], arrivals, pending + [NewMessage(|texts|, text)])
  {
    var now := pending + [NewMessage(|texts|, text)];
    assert now[|pending|] == NewMessage(|texts|, text);
    forall id | 0 <= id < |texts|
      ensures id in arrivals || NewMessage(id, (texts + [text])[id]) in now
    {
      assert (texts + [text])[id] == texts[id];
    }
  }

  /** An acknowledgement loses nothing exactly when no message of its byte is still to arrive. */
  lemma AckedExactly(texts: seq<Data>, arrivals: seq<nat>, pending: seq<Message>, sequence: byte)
    requires Covered(texts, arrivals, pending)
    ensures Covered(texts, arrivals, Without(pending, sequence)) <==> SafeAck(texts, arrivals, sequence)
  {
    WithoutKeeps(pending, sequence);
    if SafeAck(texts, arrivals, sequence) {
      forall id | 0 <= id < |texts| && id !in arrivals
        ensures NewMessage(id, texts[id]) in Without(pending, sequence)
      {
        assert NewMessage(id, texts[id]) in pending;
      }
    }
  }

  /** Short of a wrap it is for a message that has arrived, and for no other. */
  lemma AckedCovers(texts: seq<Data>, arrivals: seq<nat>, pending: seq<Message>, a: Receipt)
    requires Covered(texts, arrivals, pending)
    requires a.id in arrivals && a.sequence == a.id % 256 && WithinWrap(a.id, Ids(pending))
    ensures SafeAck(texts, arrivals, a.sequence)
  {
    forall id | 0 <= id < |texts| && id !in arrivals
      ensures id % 256 != a.sequence
    {
      var i :| 0 <= i < |pending| && pending[i] == NewMessage(id, texts[id]);
      assert Ids(pending)[i] == id;
      assert id in Ids(pending);
    }
  }

  lemma AckedInv(n: Net, a: Receipt)
    requires Inv(n)
    ensures var n' := Do(n, Acked(a));
            (Right(n') <==> Safe(n, Acked(a))) && (Right(n') ==> Inv(n'))
  {
    hide R.Inv, TakenRight, Covered, SafeAck;
    WithoutKeeps(n.pending, a.sequence);
    AckedExactly(n.texts, n.arrivals, n.pending, a.sequence);
  }

  lemma ReadInv(n: Net)
    requires Inv(n)
    ensures Inv(Do(n, Read))
  {
    hide TakenRight, Covered, AllGenuine, Answered, R.Inv;
    HandOver(n.client);
  }

  lemma HandOver(c: State)
    requires R.Inv(c)
    ensures R.Inv(c.(events := [], delivered := c.delivered + c.events))
  {
    hide R.Accepted, R.Newest, R.Texts, R.Acks, R.AcksOwed, R.Chat, R.Says, R.Paced, R.LastTime;
    assert c.delivered + c.events + [] == c.delivered + c.events;
  }

  /** A step leaves everything right exactly when it is safe. */
  lemma StepExactly(n: Net, step: Step)
    requires Inv(n) && Can(n, step)
    ensures Right(Do(n, step)) <==> Safe(n, step)
    ensures Right(Do(n, step)) ==> Inv(Do(n, step))
  {
    hide Right, R.Inv, SafeArrival, SafeAck;
    match step {
      case Push(text) =>
        PushInv(n, text);
        InvRight(Do(n, step));
      case Resend(m) =>
        InvRight(n);
        ResendInv(n, m);
      case Hear(m) => HearInv(n, m);
      case Acked(a) => AckedInv(n, a);
      case Read =>
        ReadInv(n);
        InvRight(Do(n, step));
    }
  }

  lemma InvRight(n: Net)
    requires Inv(n)
    ensures Right(n)
  {
  }

  lemma ResendInv(n: Net, m: Message)
    requires Inv(n) && m in n.pending
    ensures Inv(Do(n, Resend(m))) && Right(Do(n, Resend(m)))
  {
    hide R.Inv, TakenRight, Covered;
  }

  lemma StartInv(client: State)
    requires R.Inv(client) && client.heard == []
    ensures Inv(Start(client))
  {
  }

  /** A run stays right exactly when every step of it is safe. */
  lemma {:induction false} RunExactly(n: Net, steps: seq<Step>)
    requires Inv(n) && Possible(n, steps)
    ensures StaysRight(n, steps) <==> AllSafe(n, steps)
    ensures AllSafe(n, steps) ==> Inv(After(n, steps))
    decreases |steps|
  {
    hide Inv, Right, Safe, Do, Can;
    InvRight(n);
    if steps != [] {
      StepExactly(n, steps[0]);
      if Safe(n, steps[0]) {
        RunExactly(Do(n, steps[0]), steps[1..]);
      } else {
        NotRight(Do(n, steps[0]), steps[1..]);
      }
    }
  }

  lemma NotRight(n: Net, steps: seq<Step>)
    requires !Right(n)
    ensures !StaysRight(n, steps)
  {
  }

  /** The timing makes every step safe. */
  lemma TimelySafe(n: Net, step: Step)
    requires Inv(n) && Can(n, step) && Timely(n, step)
    ensures Safe(n, step)
  {
    hide R.Inv, FirstArrivals, Recent, WithinWrap, Twin, R.Accepted, Keys, SafeAck, Covered;
    match step
    case Hear(m) =>
      assert Genuine(n.texts, m);
      RightExactly(n.texts, n.client.heard, n.arrivals, m.id);
      OnlyItself(n.texts, Recent(FirstArrivals(n.arrivals)), m.id);
      RecentTaken(FirstArrivals(n.arrivals));
    case Acked(a) => AckedCovers(n.texts, n.arrivals, n.pending, a);
    case _ =>
  }

  lemma {:induction false} InTimeSafe(n: Net, steps: seq<Step>)
    requires Inv(n) && Possible(n, steps) && InTime(n, steps)
    ensures AllSafe(n, steps)
    decreases |steps|
  {
    hide Inv, Right, Safe, Do, Can, Timely;
    if steps != [] {
      TimelySafe(n, steps[0]);
      StepExactly(n, steps[0]);
      InTimeSafe(Do(n, steps[0]), steps[1..]);
    }
  }

  // ---- what the protocol guarantees -----------------------------------------------------------

  /** What the client has handed over and still queues is the text of every message that has arrived, blank ones left
      out, each exactly once, in order of first arrival; and a message the server has stopped resending has been taken
      by the client. */
  ghost predicate DeliveredOnce(n: Net) {
    var first := FirstArrivals(n.arrivals);
    && Pushed(n.texts, first)
    && n.client.delivered + n.client.events == R.Texts(Keys(n.texts, first))
    && (forall id :: id in first <==> id in n.arrivals)
    && (forall i, j | 0 <= i < j < |first| :: first[i] != first[j])
    && (forall id | 0 <= id < |n.texts| :: NewMessage(id, n.texts[id]) in n.pending || id in first)
  }

  /** Over any run whose every step is safe each message that arrives is delivered exactly once, and none is given up on
      before it has arrived. */
  lemma ExactlyOnce(input: seq<Recv>, interval: real, steps: seq<Step>)
    requires Possible(Start(Fresh(input, interval)), steps) && AllSafe(Start(Fresh(input, interval)), steps)
    ensures DeliveredOnce(After(Start(Fresh(input, interval)), steps))
  {
    hide After, Possible, AllSafe, FirstArrivals, R.Accepted, R.Texts;
    var s := Start(Fresh(input, interval));
    StartInvFresh(input, interval);
    RunExactly(s, steps);
    FirstArrivalsOnce(After(s, steps).arrivals);
  }

  /** And so over any run that keeps to the timing. */
  lemma ExactlyOnceInTime(input: seq<Recv>, interval: real, steps: seq<Step>)
    requires Possible(Start(Fresh(input, interval)), steps) && InTime(Start(Fresh(input, interval)), steps)
    ensures DeliveredOnce(After(Start(Fresh(input, interval)), steps))
  {
    hide *;
    StartInvFresh(input, interval);
    InTimeSafe(Start(Fresh(input, interval)), steps);
    ExactlyOnce(input, interval, steps);
  }

  lemma StartInvFresh(input: seq<Recv>, interval: real)
    ensures Inv(Start(Fresh(input, interval)))
  {
    StartInv(Fresh(input, interval));
  }

  lemma TakenNothing(texts: seq<Data>)
    ensures TakenRight(texts, [], [])
  {
  }

  lemma {:induction false} HeardRight(texts: seq<Data>, arrivals: seq<nat>)
    requires Pushed(texts, arrivals)
    requires forall k | 0 <= k < |arrivals| :: SafeArrival(texts, arrivals[..k], arrivals[k])
    ensures TakenRight(texts, Keys(texts, arrivals), arrivals)
    decreases |arrivals|
  {
    hide TakenRight, SafeArrival;
    if arrivals == [] {
      TakenNothing(texts);
      assert Keys(texts, []) == [];
    } else {
      var front, last := arrivals[..|arrivals| - 1], arrivals[|arrivals| - 1];
      assert arrivals == front + [last];
      forall k | 0 <= k < |front|
        ensures SafeArrival(texts, front[..k], front[k])
      {
        assert SafeArrival(texts, arrivals[..k], arrivals[k]);
        assert front[..k] == arrivals[..k];
      }
      HeardRight(texts, front);
      assert SafeArrival(texts, arrivals[..|front|], last);
      HearExactly(texts, Keys(texts, front), front, last);
      assert Keys(texts, arrivals) == Keys(texts, front) + [KeyOf(texts, last)];
    }
  }

  /** The same of a whole session, its commands, writes and reads included: whatever it was doing when each message
      reached it, if each was safe then, every message has been delivered exactly once. */
  lemma SessionExactlyOnce(input: seq<Recv>, interval: real, ops: seq<R.Op>, texts: seq<Data>, arrivals: seq<nat>)
    requires Pushed(texts, arrivals)
    requires forall k | 0 <= k < |arrivals| :: SafeArrival(texts, arrivals[..k], arrivals[k])
    requires R.Messages(R.Used(input, R.Run(Fresh(input, interval), ops).input)) == Keys(texts, arrivals)
    ensures Pushed(texts, FirstArrivals(arrivals))
    ensures var s := R.Run(Fresh(input, interval), ops);
            R.Returned(Fresh(input, interval), ops) + s.events == R.Texts(Keys(texts, FirstArrivals(arrivals)))
    ensures (forall id :: id in FirstArrivals(arrivals) <==> id in arrivals)
    ensures var first := FirstArrivals(arrivals);
            forall i, j | 0 <= i < j < |first| :: first[i] != first[j]
  {
    hide R.Run, R.Returned, R.Messages, R.Used, R.Accepted, R.Texts, FirstArrivals, SafeArrival;
    HeardRight(texts, arrivals);
    R.MessagesKept(input, interval, ops);
    FirstArrivalsOnce(arrivals);
  }

  // ---- when the timing is not kept ------------------------------------------------------------

  /** The timing is needed: a repeat that arrives when sixteen others have been taken since is delivered again. */
  lemma LateRepeatTwice(texts: seq<Data>, heard: seq<Key>, arrivals: seq<nat>, id: nat)
    requires Pushed(texts, FirstArrivals(arrivals)) && id in FirstArrivals(arrivals) && id < |texts|
    requires R.Accepted(heard) == Keys(texts, FirstArrivals(arrivals))
    requires WithinWrap(id, Recent(FirstArrivals(arrivals))) && id !in Recent(FirstArrivals(arrivals))
    requires Strip(texts[id]) != []
    ensures var before := R.Accepted(heard);
            KeyOf(texts, id) in before
            && R.Texts(R.Accepted(heard + [KeyOf(texts, id)])) == R.Texts(before) + [Strip(texts[id])]
  {
    var taken := FirstArrivals(arrivals);
    R.AcceptedOne(heard, KeyOf(texts, id));
    SameWindow(texts, taken, id);
    OnlyItself(texts, Recent(taken), id);
    var i :| 0 <= i < |taken| && taken[i] == id;
    assert Keys(texts, taken)[i] == KeyOf(texts, id);
    GatherOne(R.TextOf, R.Accepted(heard), KeyOf(texts, id));
  }

  /** So is the wrap: of 257 messages of one text the last, arriving right after the first, is swallowed, although it
      has never arrived before. */
  lemma WrapSwallows(text: Data)
    ensures var texts := seq(257, i => text);
            var heard, arrivals := [KeyOf(texts, 0)], [0];
            && Pushed(texts, FirstArrivals(arrivals)) && R.Accepted(heard) == Keys(texts, FirstArrivals(arrivals))
            && 256 !in arrivals
            && R.Accepted(heard + [KeyOf(texts, 256)]) == R.Accepted(heard)
  {
    var texts := seq(257, i => text);
    var key := KeyOf(texts, 0);
    R.AcceptedOne([], key);
    FirstArrivalsOne([], 0);
    assert [] + [key] == [key] && [] + [0] == [0];
    R.AcceptedOne([key], KeyOf(texts, 256));
  }

  lemma {:induction false} RunOn(n: Net, first: seq<Step>, rest: seq<Step>)
    ensures After(n, first + rest) == After(After(n, first), rest)
    ensures Possible(n, first + rest) <==> Possible(n, first) && Possible(After(n, first), rest)
    decreases |first|
  {
    hide Do, Can;
    if first == [] {
      assert first + rest == rest;
    } else {
      assert (first + rest)[1..] == first[1..] + rest;
      RunOn(Do(n, first[0]), first[1..], rest);
    }
  }

  lemma {:induction false} PushMany(n: Net, text: Data, k: nat)
    ensures var steps := seq(k, i => Push(text));
            var n' := After(n, steps);
            && Possible(n, steps) && n'.texts == n.texts + seq(k, i => text)
            && n'.arrivals == n.arrivals && n'.toServer == n.toServer
    decreases k
  {
    var steps := seq(k, i => Push(text));
    if k > 0 {
      var next := Do(n, Push(text));
      PushMany(next, text, k - 1);
      assert steps[1..] == seq(k - 1, i => Push(text));
      assert n.texts + [text] + seq(k - 1, i => text) == n.texts + seq(k, i => text);
    }
  }

  lemma AfterTwo(n: Net, a: Step, b: Step)
    ensures After(n, [a, b]) == Do(Do(n, a), b)
    ensures Possible(n, [a, b]) <==> Can(n, a) && Can(Do(n, a), b)
  {
    hide Do, Can;
    assert [a, b][1..] == [b] && [b][1..] == [];
    assert After(Do(n, a), [b]) == Do(Do(n, a), b);
    assert Possible(Do(n, a), [b]) <==> Can(Do(n, a), b);
  }

  /** So it is for acknowledgements: a message is pushed and arrives, 256 more are pushed, and the acknowledgement
      of the first then takes the last off the list, which has not arrived and is not sent again. */
  lemma LateAckLoses(client: State, text: Data)
    ensures var steps := [Push(text), Hear(NewMessage(0, text))] + seq(256, i => Push(text)) + [Acked(Receipt(0, 0))];
            var n := After(Start(client), steps);
            && Possible(Start(client), steps)
            && |n.texts| == 257 && 256 !in n.arrivals && NewMessage(256, text) !in n.pending
  {
    hide Handle;
    var first, last := [Push(text), Hear(NewMessage(0, text))], [Acked(Receipt(0, 0))];
    var pushes := seq(256, i => Push(text));
    var s := Start(client);
    AfterTwo(s, Push(text), Hear(NewMessage(0, text)));
    var n1 := After(s, first);
    PushMany(n1, text, 256);
    RunOn(s, first, pushes);
    RunOn(s, first + pushes, last);
    var n2 := After(n1, pushes);
    assert last[1..] == [];
    assert After(n2, last) == Do(n2, Acked(Receipt(0, 0)));
    WithoutKeeps(n2.pending, 0);
  }
}
