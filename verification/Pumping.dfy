/** The receive loop that two of the clients share: a bounded number of reads, each followed by taking every whole frame
    off the buffer. The socket is a script of what each read gives.
  */
module Pumping {
  import opened Wrappers
  import opened Bytes
  import opened Framing

  const MAX_PUMP: nat := 32

  /** One read: bytes, nothing before the timeout, or a failure. No bytes at all is the other end closing. */
  datatype Recv = Chunk(data: Data) | Quiet | Broken

  datatype Link = Link(buffer: Data, open: bool, connected: bool, input: seq<Recv>)

  function Opened(input: seq<Recv>): Link {
    Link([], true, true, input)
  }

  /** `_receive`. */
  function Receive(l: Link): (Link, Option<Data>) {
    if !l.open || l.input == [] then (l, None)
    else
      var l' := l.(input := l.input[1..]);
      match l.input[0]
      case Quiet => (l', None)
      case Broken => (l'.(connected := false), None)
      case Chunk(data) => if data == [] then (l'.(connected := false), None) else (l', Some(data))
  }

  /** `close`, on a stream that is out of step: what was not read stays unread. */
  function Close(l: Link, unread: Data): Link {
    l.(buffer := unread, open := false, connected := false)
  }

  /** `_pump` with `left` reads to go. An eager one returns as soon as it has something. */
  function Pump<P>(read: Reader<P>, eager: bool, l: Link, left: nat): (Link, seq<P>)
    requires Consumes(read)
    decreases left, |l.input|
  {
    if left == 0 then (l, [])
    else
      var (l', chunk) := Receive(l);
      match chunk
      case None => (l', [])
      case Some(data) =>
        var all := ReadAll(read, l.buffer + data);
        if all.bad then (Close(l', all.rest), all.payloads)
        else
          var now := l'.(buffer := all.rest);
          if eager && all.payloads != [] then (now, all.payloads)
          else
            var (end, more) := Pump(read, eager, now, left - 1);
            (end, all.payloads + more)
  }

  /** What `n` pumps give, one after the other. */
  function PumpTimes<P>(read: Reader<P>, eager: bool, l: Link, n: nat): (Link, seq<P>)
    requires Consumes(read)
    decreases n
  {
    if n == 0 then (l, [])
    else
      var (l', now) := Pump(read, eager, l, MAX_PUMP);
      var (end, later) := PumpTimes(read, eager, l', n - 1);
      (end, now + later)
  }

  /** The bytes a script brings. */
  function Heard(input: seq<Recv>): Data {
    if input == [] then []
    else (if input[0].Chunk? then input[0].data else []) + Heard(input[1..])
  }

  lemma {:induction false} HeardAppend(a: seq<Recv>, b: seq<Recv>)
    ensures Heard(a + b) == Heard(a) + Heard(b)
  {
    if a == [] {
      assert a + b == b;
    } else {
      assert (a + b)[1..] == a[1..] + b;
      HeardAppend(a[1..], b);
    }
  }

  /** A read that tells the client the connection is gone. */
  predicate Fails(r: Recv) {
    r.Broken? || (r.Chunk? && r.data == [])
  }

  predicate IsData(r: Recv) {
    r.Chunk? && r.data != []
  }

  /** `used` was read going from `l` to `l'`, which gave `payloads`: exactly those that the bytes hold. The stream is
      closed exactly when it went out of step, and the client counts as connected until then or until a read fails. */
  ghost predicate Conserves<P>(read: Reader<P>, l: Link, l': Link, used: seq<Recv>, payloads: seq<P>)
    requires Consumes(read)
  {
    var all := ReadAll(read, l.buffer + Heard(used));
    && l.input == used + l'.input
    && payloads == all.payloads
    && l'.open == (l.open && !all.bad)
    && l'.connected == (l.connected && !all.bad && forall r | r in used :: !Fails(r))
    && (l'.open ==> l'.buffer == all.rest)
  }

  lemma ConservesNothing<P>(read: Reader<P>, l: Link)
    requires Consumes(read) && l.open && read(l.buffer).More?
    ensures Conserves(read, l, l, [], [])
  {
    assert l.buffer + Heard([]) == l.buffer;
    assert [] + l.input == l.input;
  }

  /** One read, and everything it completes. */
  lemma ConservesOne<P>(read: Reader<P>, l: Link)
    requires Consumes(read) && l.open && l.input != [] && read(l.buffer).More?
    ensures var (l', chunk) := Receive(l);
            match chunk
            case None => Conserves(read, l, l', [l.input[0]], []) && l'.open && l'.buffer == l.buffer
            case Some(data) =>
              var all := ReadAll(read, l.buffer + data);
              if all.bad then Conserves(read, l, Close(l', all.rest), [l.input[0]], all.payloads)
              else Conserves(read, l, l'.(buffer := all.rest), [l.input[0]], all.payloads) && read(all.rest).More?
  {
    hide ReadAll;
    var head := [l.input[0]];
    var (l', chunk) := Receive(l);
    assert l.input == head + l.input[1..];
    assert head[1..] == [];
    match chunk
    case None =>
      assert l.input[0] in head;
      assert l.buffer + Heard(head) == l.buffer;
      ReadNothing(read, l.buffer);
    case Some(data) =>
      assert Heard(head) == data;
      if !ReadAll(read, l.buffer + data).bad {
        RestWaits(read, l.buffer + data);
      }
  }

  lemma ReadNothing<P>(read: Reader<P>, x: Data)
    requires Consumes(read) && read(x).More?
    ensures ReadAll(read, x) == Parsed([], x, false)
  {
  }

  /** One stretch of reading after another. */
  lemma ConservesThen<P>(read: Reader<P>, l0: Link, l1: Link, l2: Link, u1: seq<Recv>, u2: seq<Recv>, p1: seq<P>,
                         p2: seq<P>)
    requires Stable(read)
    requires Conserves(read, l0, l1, u1, p1) && Conserves(read, l1, l2, u2, p2) && l0.open && l1.open
    ensures Conserves(read, l0, l2, u1 + u2, p1 + p2)
  {
    hide ReadAll, Stable;
    HeardAppend(u1, u2);
    ReadAllAppend(read, l0.buffer + Heard(u1), Heard(u2));
    assert l0.buffer + Heard(u1) + Heard(u2) == l0.buffer + Heard(u1 + u2);
    assert u1 + u2 + l2.input == u1 + (u2 + l2.input);
  }

  /** What is left over holds no whole frame. */
  lemma {:induction false} RestWaits<P>(read: Reader<P>, x: Data)
    requires Consumes(read) && !ReadAll(read, x).bad
    ensures read(ReadAll(read, x).rest).More?
    decreases |x|
  {
    if read(x).Got? {
      RestWaits(read, read(x).rest);
    }
  }

  /** Why a pump that read `used` stopped there and not before: as many reads as it may make, nothing more to read, a
      read without data, a stream out of step or, for an eager one, something to give. */
  ghost predicate Stops<P>(read: Reader<P>, eager: bool, l: Link, l': Link, left: nat, used: seq<Recv>,
                           payloads: seq<P>)
    requires Consumes(read)
  {
    && |used| <= left
    && (forall k | 0 <= k < |used| - 1 :: IsData(used[k]))
    && (eager ==> forall k | 0 <= k < |used| :: ReadAll(read, l.buffer + Heard(used[..k])).payloads == [])
    && (|used| == left || l'.input == [] || (used != [] && !IsData(used[|used| - 1])) || !l'.open
        || (eager && payloads != []))
  }

  lemma StopsThen<P>(read: Reader<P>, eager: bool, l: Link, now: Link, l': Link, left: nat, data: Data, more: seq<Recv>,
                     payloads: seq<P>)
    requires Stable(read) && left > 0 && data != [] && now.buffer == ReadAll(read, l.buffer + data).rest
    requires read(l.buffer).More?
    requires !ReadAll(read, l.buffer + data).bad && (eager ==> ReadAll(read, l.buffer + data).payloads == [])
    requires Stops(read, eager, now, l', left - 1, more, payloads) && (more == [] ==> left == 1 || l'.input == [])
    ensures Stops(read, eager, l, l', left, [Chunk(data)] + more, ReadAll(read, l.buffer + data).payloads + payloads)
  {
    hide Stable, Consumes, ReadAll;
    FrontKept(read, l.buffer, []);
    ReadOne(read, l.buffer);
    var used := [Chunk(data)] + more;
    forall k | 0 <= k < |used| && eager
      ensures ReadAll(read, l.buffer + Heard(used[..k])).payloads == []
    {
      if k == 0 {
        assert l.buffer + Heard([]) == l.buffer && used[..0] == [];
      } else {
        assert used[..k] == [Chunk(data)] + more[..k - 1];
        HeardAppend([Chunk(data)], more[..k - 1]);
        assert Heard([Chunk(data)]) == data + Heard([]) == data;
        assert l.buffer + Heard(used[..k]) == l.buffer + data + Heard(more[..k - 1]);
        ReadAllAppend(read, l.buffer + data, Heard(more[..k - 1]));
      }
    }
  }

  lemma StopsAtOnce<P>(read: Reader<P>, eager: bool, l: Link, l': Link, left: nat, used: seq<Recv>, payloads: seq<P>)
    requires Consumes(read) && read(l.buffer).More? && |used| <= 1 && |used| <= left
    requires |used| == left || l'.input == [] || (used != [] && !IsData(used[0])) || !l'.open
             || (eager && payloads != [])
    ensures Stops(read, eager, l, l', left, used, payloads)
  {
    assert l.buffer + Heard([]) == l.buffer && used[..0] == [];
  }

  /** A pump gives exactly the frames in the bytes it read and those left from before, and reads on as long as it
      may. */
  lemma {:induction false} PumpConserves<P>(read: Reader<P>, eager: bool, l: Link, left: nat) returns (used: seq<Recv>)
    requires Stable(read) && l.open && read(l.buffer).More?
    ensures var (l', payloads) := Pump(read, eager, l, left);
            && Conserves(read, l, l', used, payloads)
            && Stops(read, eager, l, l', left, used, payloads)
            && (l'.open ==> read(l'.buffer).More?)
            && (left > 0 && l.input != [] ==> used != [])
    decreases left
  {
    hide ReadAll, Conserves, Stops, Stable, Consumes;
    FrontKept(read, l.buffer, []);
    if left == 0 || l.input == [] {
      ConservesNothing(read, l);
      used := [];
      StopsAtOnce(read, eager, l, l, left, [], []);
    } else {
      ConservesOne(read, l);
      used := [l.input[0]];
      var (l', chunk) := Receive(l);
      match chunk
      case None => StopsAtOnce(read, eager, l, l', left, used, []);
      case Some(data) =>
        var all := ReadAll(read, l.buffer + data);
        if all.bad {
          StopsAtOnce(read, eager, l, Close(l', all.rest), left, used, all.payloads);
        } else if eager && all.payloads != [] {
          StopsAtOnce(read, eager, l, l'.(buffer := all.rest), left, used, all.payloads);
        } else {
          var now := l'.(buffer := all.rest);
          var more := PumpConserves(read, eager, now, left - 1);
          var (end, later) := Pump(read, eager, now, left - 1);
          ConservesThen(read, l, now, end, used, more, all.payloads, later);
          StopsThen(read, eager, l, now, end, left, data, more, later);
          used := used + more;
        }
    }
  }

  lemma {:induction false} ClosedSilent<P>(read: Reader<P>, eager: bool, l: Link, n: nat)
    requires Consumes(read) && !l.open
    ensures PumpTimes(read, eager, l, n) == (l, [])
    decreases n
  {
    if n > 0 {
      PumpClosed(read, eager, l, MAX_PUMP);
      ClosedSilent(read, eager, l, n - 1);
      var none: seq<P> := [];
      assert none + none == none;
    }
  }

  lemma PumpClosed<P>(read: Reader<P>, eager: bool, l: Link, left: nat)
    requires Consumes(read) && !l.open
    ensures Pump(read, eager, l, left) == (l, [])
  {
  }

  lemma InputLeft<P>(read: Reader<P>, l: Link, l': Link, used: seq<Recv>, payloads: seq<P>)
    requires Consumes(read) && Conserves(read, l, l', used, payloads)
    ensures |l'.input| == |l.input| - |used|
  {
    assert |l.input| == |used| + |l'.input|;
  }

  /** However often the client pumps: exactly the frames in the bytes it has read. With enough pumps it has read them
      all, unless the stream went out of step. */
  lemma {:induction false} PumpTimesConserve<P>(read: Reader<P>, eager: bool, l: Link, n: nat) returns (used: seq<Recv>)
    requires Stable(read) && l.open && read(l.buffer).More?
    ensures var (l', payloads) := PumpTimes(read, eager, l, n);
            && Conserves(read, l, l', used, payloads)
            && (n >= |l.input| && l'.open ==> l'.input == [])
    decreases n
  {
    hide ReadAll, Conserves, Pump;
    if n == 0 {
      ConservesNothing(read, l);
      used := [];
    } else {
      used := PumpConserves(read, eager, l, MAX_PUMP);
      var (l', now) := Pump(read, eager, l, MAX_PUMP);
      InputLeft(read, l, l', used, now);
      if l'.open {
        var more := PumpTimesConserve(read, eager, l', n - 1);
        var (end, later) := PumpTimes(read, eager, l', n - 1);
        ConservesThen(read, l, l', end, used, more, now, later);
        used := used + more;
      } else {
        ClosedSilent(read, eager, l', n - 1);
        assert now + [] == now;
      }
    }
  }

  /** A stream that is in step is in step all along. */
  lemma StillInStep<P>(read: Reader<P>, input: seq<Recv>, used: seq<Recv>, left: seq<Recv>)
    requires Stable(read) && input == used + left && !ReadAll(read, Heard(input)).bad
    ensures !ReadAll(read, [] + Heard(used)).bad
  {
    hide ReadAll;
    HeardAppend(used, left);
    ReadAllAppend(read, Heard(used), Heard(left));
    assert [] + Heard(used) == Heard(used);
  }

  /** A client that pumps until there is nothing left to read has been given exactly the payloads of the frames sent, in
      order: however they were cut into chunks, and whatever timeouts came between them. */
  lemma AllDelivered<P>(read: Reader<P>, eager: bool, input: seq<Recv>, n: nat, frames: seq<Data>, payloads: seq<P>,
                        tail: Data)
    requires Stable(read) && read([]).More? && read(tail).More? && n >= |input|
    requires |frames| == |payloads|
    requires forall i | 0 <= i < |frames| :: Frames(read, frames[i], payloads[i])
    requires Heard(input) == Flatten(frames) + tail
    ensures PumpTimes(read, eager, Opened(input), n).1 == payloads
    ensures PumpTimes(read, eager, Opened(input), n).0.buffer == tail
    ensures PumpTimes(read, eager, Opened(input), n).0.open
    ensures PumpTimes(read, eager, Opened(input), n).0.connected <==> forall r | r in input :: !Fails(r)
  {
    hide ReadAll, PumpTimes;
    var used := PumpTimesConserve(read, eager, Opened(input), n);
    var (end, got) := PumpTimes(read, eager, Opened(input), n);
    ReadFrames(read, frames, payloads, tail);
    if end.open {
      assert used == input;
    } else {
      StillInStep(read, input, used, end.input);
      assert false;
    }
    assert [] + Heard(used) == Flatten(frames) + tail;
  }

  // ---- the client's half, as the object it is -------------------------------------------------

  class Client<!P> {
    const read: Reader<P>
    const eager: bool
    var buffer: Data
    var open: bool
    var connected: bool
    var input: seq<Recv>

    ghost function View(): Link
      reads this
    {
      Link(buffer, open, connected, input)
    }

    constructor (read: Reader<P>, eager: bool, input: seq<Recv>)
      ensures View() == Opened(input) && this.read == read && this.eager == eager
    {
      this.read, this.eager := read, eager;
      this.buffer, this.open, this.connected, this.input := [], true, true, input;
    }

    method ReceiveChunk() returns (chunk: Option<Data>)
      modifies this
      ensures (View(), chunk) == Receive(old(View()))
    {
      if !open || input == [] {
        return None;
      }
      var next := input[0];
      input := input[1..];
      match next
      case Quiet => return None;
      case Broken =>
        connected := false;
        return None;
      case Chunk(data) =>
        if data == [] {
          connected := false;
          return None;
        }
        return Some(data);
    }

    /** Every whole frame off the buffer; false when what follows can be no frame. */
    method TakeFrames() returns (payloads: seq<P>, inStep: bool)
      requires Consumes(read)
      modifies this`buffer
      ensures ReadAll(read, old(buffer)) == Parsed(payloads, buffer, !inStep)
    {
      hide ReadAll;
      payloads := [];
      ghost var all := ReadAll(read, buffer);
      while true
        invariant ReadAll(read, buffer).bad == all.bad && ReadAll(read, buffer).rest == all.rest
        invariant payloads + ReadAll(read, buffer).payloads == all.payloads
        decreases |buffer|
      {
        ReadOne(read, buffer);
        match read(buffer)
        case Bad =>
          assert payloads + [] == payloads;
          return payloads, false;
        case More =>
          assert payloads + [] == payloads;
          return payloads, true;
        case Got(payload, rest) =>
          ghost var later := ReadAll(read, rest).payloads;
          assert payloads + ([payload] + later) == payloads + [payload] + later;
          payloads := payloads + [payload];
          buffer := rest;
      }
    }

    /** `_pump`. */
    method PumpOnce() returns (payloads: seq<P>)
      requires Consumes(read)
      modifies this
      ensures (View(), payloads) == Pump(read, eager, old(View()), MAX_PUMP)
    {
      hide ReadAll, Pump, Consumes;
      payloads := [];
      ghost var whole := Pump(read, eager, View(), MAX_PUMP);
      for i := 0 to MAX_PUMP
        invariant Pump(read, eager, View(), MAX_PUMP - i).0 == whole.0
        invariant payloads + Pump(read, eager, View(), MAX_PUMP - i).1 == whole.1
        invariant eager ==> payloads == []
      {
        PumpOne(read, eager, View(), MAX_PUMP - i);
        var chunk := ReceiveChunk();
        if chunk.None? {
          assert payloads + [] == payloads;
          return;
        }
        buffer := buffer + chunk.value;
        var taken, inStep := TakeFrames();
        ghost var later := Pump(read, eager, View(), MAX_PUMP - i - 1).1;
        assert payloads + (taken + later) == payloads + taken + later;
        payloads := payloads + taken;
        if !inStep {
          open, connected := false, false;
          return;
        }
        if eager && payloads != [] {
          return;
        }
      }
      PumpDone(read, eager, View());
      assert payloads + [] == payloads;
    }
  }

  lemma PumpOne<P>(read: Reader<P>, eager: bool, l: Link, left: nat)
    requires Consumes(read) && left > 0
    ensures var (l', chunk) := Receive(l);
            match chunk
            case None => Pump(read, eager, l, left) == (l', [])
            case Some(data) =>
              var all := ReadAll(read, l.buffer + data);
              var now := l'.(buffer := all.rest);
              if all.bad then Pump(read, eager, l, left) == (Close(l', all.rest), all.payloads)
              else if eager && all.payloads != [] then Pump(read, eager, l, left) == (now, all.payloads)
              else
                && Pump(read, eager, l, left).0 == Pump(read, eager, now, left - 1).0
                && Pump(read, eager, l, left).1 == all.payloads + Pump(read, eager, now, left - 1).1
  {
    hide ReadAll;
  }

  lemma PumpDone<P>(read: Reader<P>, eager: bool, l: Link)
    requires Consumes(read)
    ensures Pump(read, eager, l, 0) == (l, [])
  {
  }
}
