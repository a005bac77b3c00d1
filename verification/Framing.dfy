/** Length-framed messages on a byte stream.

    Four of the protocols read a TCP stream the same way: append what arrived to a buffer, and take frames off
    the front while there are whole ones. What the bot relies on is that the frames do not depend on how the
    stream was cut up, and that holds for any frame reader that is `Stable`: once it has decided, more bytes
    behind the frame do not change its mind.
  */
module Framing {
  import opened Bytes

  /** What a frame reader makes of the front of a buffer. */
  datatype Step<P> = More | Got(payload: P, rest: Data) | Bad

  type Reader<!P> = Data -> Step<P>

  /** Everything read off a buffer: the payloads, what is left, and whether the stream went out of step. */
  datatype Parsed<P> = Parsed(payloads: seq<P>, rest: Data, bad: bool)

  ghost predicate Consumes<P>(read: Reader<P>) {
    forall x :: read(x).Got? ==> |read(x).rest| < |x|
  }

  ghost predicate Stable<P>(read: Reader<P>) {
    && Consumes(read)
    && (forall x, y :: read(x).Got? ==> read(x + y) == Got(read(x).payload, read(x).rest + y))
    && (forall x, y :: read(x).Bad? ==> read(x + y).Bad?)
  }

  /** Take frames until the reader wants more bytes or gives up. */
  function ReadAll<P>(read: Reader<P>, x: Data): Parsed<P>
    requires Consumes(read)
    decreases |x|
  {
    match read(x)
    case More => Parsed([], x, false)
    case Bad => Parsed([], x, true)
    case Got(p, rest) =>
      var tail := ReadAll(read, rest);
      tail.(payloads := [p] + tail.payloads)
  }

  /** Bytes that arrive later only add to what was already read. */
  lemma {:induction false} ReadAllAppend<P>(read: Reader<P>, x: Data, y: Data)
    requires Stable(read)
    ensures var a := ReadAll(read, x);
            if a.bad then
              ReadAll(read, x + y).bad && ReadAll(read, x + y).payloads == a.payloads
            else
              var b := ReadAll(read, a.rest + y);
              ReadAll(read, x + y) == b.(payloads := a.payloads + b.payloads)
    decreases |x|
  {
    hide Stable, Consumes, ReadAll;
    FrontKept(read, x, y);
    ReadOne(read, x);
    ReadOne(read, x + y);
    match read(x)
    case More =>
      assert [] + ReadAll(read, x + y).payloads == ReadAll(read, x + y).payloads;
    case Bad =>
    case Got(p, rest) =>
      ReadAllAppend(read, rest, y);
      var t := ReadAll(read, rest);
      if !t.bad {
        var b := ReadAll(read, t.rest + y);
        assert [p] + (t.payloads + b.payloads) == [p] + t.payloads + b.payloads;
      }
  }

  lemma FrontKept<P>(read: Reader<P>, x: Data, y: Data)
    requires Stable(read)
    ensures Consumes(read)
    ensures read(x).Got? ==> |read(x).rest| < |x| && read(x + y) == Got(read(x).payload, read(x).rest + y)
    ensures read(x).Bad? ==> read(x + y).Bad?
  {
  }

  lemma ReadOne<P>(read: Reader<P>, x: Data)
    requires Consumes(read)
    ensures match read(x)
            case More => ReadAll(read, x) == Parsed([], x, false)
            case Bad => ReadAll(read, x) == Parsed([], x, true)
            case Got(p, rest) =>
              ReadAll(read, x) == ReadAll(read, rest).(payloads := [p] + ReadAll(read, rest).payloads)
  {
  }

  /** Reading chunk by chunk: the loop every client runs, stopping for good once the stream is out of step. */
  function ReadChunks<P>(read: Reader<P>, buffer: Data, chunks: seq<Data>): Parsed<P>
    requires Consumes(read)
    decreases |chunks|
  {
    var now := ReadAll(read, buffer);
    if chunks == [] || now.bad then now
    else
      var later := ReadChunks(read, now.rest + chunks[0], chunks[1..]);
      later.(payloads := now.payloads + later.payloads)
  }

  /** How the stream was cut into chunks makes no difference to what is read off it. */
  lemma {:induction false} ChunkingIrrelevant<P>(read: Reader<P>, buffer: Data, chunks: seq<Data>)
    requires Stable(read)
    ensures var whole := ReadAll(read, buffer + Flatten(chunks));
            var cut := ReadChunks(read, buffer, chunks);
            cut.payloads == whole.payloads && cut.bad == whole.bad && (!cut.bad ==> cut.rest == whole.rest)
    decreases |chunks|
  {
    if chunks == [] {
      assert buffer + Flatten(chunks) == buffer;
    } else {
      var now := ReadAll(read, buffer);
      ReadAllAppend(read, buffer, Flatten(chunks));
      if !now.bad {
        ChunkingIrrelevant(read, now.rest + chunks[0], chunks[1..]);
        assert now.rest + chunks[0] + Flatten(chunks[1..]) == now.rest + Flatten(chunks);
      }
    }
  }

  /** `frame` reads back as `p`, whatever follows it. */
  ghost predicate Frames<P>(read: Reader<P>, frame: Data, p: P) {
    forall y :: read(frame + y) == Got(p, y)
  }

  /** A stream of frames, with a tail the reader cannot finish yet, reads back as exactly their payloads. */
  lemma {:induction false} ReadFrames<P>(read: Reader<P>, frames: seq<Data>, payloads: seq<P>, tail: Data)
    requires Consumes(read) && |frames| == |payloads|
    requires forall i | 0 <= i < |frames| :: Frames(read, frames[i], payloads[i])
    requires read(tail).More?
    ensures ReadAll(read, Flatten(frames) + tail) == Parsed(payloads, tail, false)
    decreases |frames|
  {
    if frames == [] {
      assert Flatten(frames) + tail == tail;
    } else {
      var more := Flatten(frames[1..]) + tail;
      assert Flatten(frames) + tail == frames[0] + more;
      assert Frames(read, frames[0], payloads[0]);
      ReadFrames(read, frames[1..], payloads[1..], tail);
      assert [payloads[0]] + payloads[1..] == payloads;
    }
  }
}
