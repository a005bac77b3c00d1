/** The query client and the query server's splitter as the objects they are, and the question itself: asked again with
    each challenge the server hands out. */
module A2SClient {
  import opened Wrappers
  import opened Bytes
  import opened Parts
  import opened A2S

  // ---- the server's loop ----------------------------------------------------------------------

  method SplitQueryReply(z: Zip, reply: Data, limit: nat, compress: bool) returns (packets: Option<seq<Data>>)
    ensures packets == SplitReply(z, reply, limit, compress)
  {
    if limit == 0 || |reply| <= limit {
      return Some([reply]);
    }
    var chunks := Chunks(z, reply, limit, compress);
    if |chunks| > 255 || limit >= 0x1_0000 || (compress && |reply| >= U32_LIMIT) {
      return None;
    }
    var extra := if compress then Extra(z, reply, true) else [];
    var out: seq<Data> := [];
    while |out| < |chunks|
      invariant |out| <= |chunks|
      invariant forall i | 0 <= i < |out| ::
        out[i] == Fragment(ReplyId(compress), |chunks|, i, limit, Sent(extra, chunks, i))
    {
      var number: byte := |out|;
      out := out + [Fragment(ReplyId(compress), |chunks|, number, limit,
                             (if number == 0 then extra else []) + chunks[number])];
    }
    assert out == SplitReply(z, reply, limit, compress).value;
    return Some(out);
  }

  // ---- the client's objects -------------------------------------------------------------------

  /** `_Reader`: every getter moves past what it read, and fails, without moving, when too little is left. */
  class Reader {
    const data: Data
    var pos: nat

    ghost predicate Valid()
      reads this
    {
      pos <= |data|
    }

    constructor (data: Data)
      ensures Valid() && this.data == data && pos == 0
    {
      this.data, pos := data, 0;
    }

    method Take(count: nat) returns (r: Result<Data, Error>)
      requires Valid()
      modifies this
      ensures Valid()
      ensures if |data| - old(pos) < count then r == Err(Truncated) && pos == old(pos)
              else r == Ok(data[old(pos)..old(pos) + count]) && pos == old(pos) + count
    {
      if |data| - pos < count {
        return Err(Truncated);
      }
      r := Ok(data[pos..pos + count]);
      pos := pos + count;
    }

    method Byte() returns (r: Result<byte, Error>)
      requires Valid()
      modifies this
      ensures Valid()
      ensures if |data| - old(pos) < 1 then r == Err(Truncated) && pos == old(pos)
              else r == Ok(data[old(pos)]) && pos == old(pos) + 1
    {
      var chunk := Take(1);
      r := if chunk.Err? then Err(chunk.error) else Ok(chunk.value[0]);
    }

    method UShort() returns (r: Result<nat, Error>)
      requires Valid()
      modifies this
      ensures Valid()
      ensures if |data| - old(pos) < 2 then r == Err(Truncated) && pos == old(pos)
              else
                && r.Ok? && r.value < 0x1_0000 && PackU16(r.value) == data[old(pos)..old(pos) + 2]
                && pos == old(pos) + 2
    {
      var chunk := Take(2);
      if chunk.Err? {
        return Err(chunk.error);
      }
      var low: int, high: int := chunk.value[0], chunk.value[1];
      r := Ok(low + 0x100 * high);
      assert chunk.value == [low, high];
    }

    method Long() returns (r: Result<int, Error>)
      requires Valid()
      modifies this
      ensures Valid()
      ensures if |data| - old(pos) < 4 then r == Err(Truncated) && pos == old(pos)
              else r == Ok(AsSigned(ReadU32(data, old(pos)))) && pos == old(pos) + 4
    {
      var chunk := Take(4);
      r := if chunk.Err? then Err(chunk.error) else Ok(AsSigned(UnpackU32(chunk.value)));
    }

    function Rest(): Data
      requires Valid()
      reads this
    {
      data[pos..]
    }
  }

  /** `_Fragment`: what is known of a split reply so far. */
  class Partial {
    const total: byte
    const compressed: bool
    var size: int
    var crc: nat
    var parts: map<byte, Data>

    constructor (total: byte, compressed: bool)
      ensures this.total == total && this.compressed == compressed && size == 0 && crc == 0 && parts == map[]
    {
      this.total, this.compressed, size, crc, parts := total, compressed, 0, 0, map[];
    }

    ghost function View(id: int): Progress
      reads this
    {
      Progress(id, total, size, crc, parts)
    }

    /** The fragment at the reader, stored under its number. */
    method Store(id: int, number: byte, reader: Reader) returns (r: Result<(), Error>)
      requires reader.Valid() && compressed == Compressed(id)
      modifies this, reader
      ensures r.Ok? ==> Keep(old(View(id)), number, old(reader.Rest())) == Ok(View(id))
      ensures r.Err? ==> Keep(old(View(id)), number, old(reader.Rest())) == Err(r.error)
    {
      hide AsSigned, UnpackU32, Mask32, Compressed;
      ghost var body := reader.Rest();
      ghost var at := reader.pos;
      if compressed && number == 0 {
        var stated := reader.Long();
        if stated.Err? {
          return Err(stated.error);
        }
        size := stated.value;
        var checksum := reader.Long();
        if checksum.Err? {
          return Err(checksum.error);
        }
        crc := Mask32(checksum.value);
        assert body[0..4] == reader.data[at..at + 4] && body[4..8] == reader.data[at + 4..at + 8];
        assert body[8..] == reader.Rest();
      }
      parts := parts[number := reader.Rest()];
      r := Ok(());
    }
  }

  /** The header of a fragment: id, number of fragments, number of this one. */
  method ReadHeader(reader: Reader) returns (r: Result<(int, byte, byte), Error>)
    requires reader.Valid() && reader.pos == 4 && AsSigned(ReadU32(reader.data, 0)) == SPLIT
    modifies reader
    ensures reader.Valid()
    ensures if |reader.data| < HEADER then r == Err(Truncated)
            else r.Ok? && Parse(reader.data) == Piece(r.value.0, r.value.1, r.value.2, reader.Rest())
  {
    var id := reader.Long();
    if id.Err? {
      return Err(id.error);
    }
    var total := reader.Byte();
    if total.Err? {
      return Err(total.error);
    }
    var number := reader.Byte();
    if number.Err? {
      return Err(number.error);
    }
    var unused := reader.UShort();
    if unused.Err? {
      return Err(unused.error);
    }
    r := Ok((id.value, total.value, number.value));
  }

  method Unpack(z: Zip, fragment: Partial, payload: Data) returns (r: Result<Data, Error>)
    ensures r == Decompress(z, fragment.size, fragment.crc, payload)
  {
    var plain := z.decompress(payload);
    if plain.NotBzip? {
      return Err(WillNotDecompress);
    }
    if plain.CutOff? {
      return Err(EndsEarly);
    }
    if fragment.size != 0 && |plain.data| != fragment.size {
      return Err(WrongLength);
    }
    if fragment.crc != 0 && z.crc(plain.data) != fragment.crc {
      return Err(WrongChecksum);
    }
    r := Ok(plain.data);
  }

  /** Every fragment is there: join them, in the order of their numbers. */
  method Assemble(z: Zip, id: int, fragment: Partial) returns (r: Result<Reader, Error>)
    requires fragment.compressed == Compressed(id)
    ensures r.Ok? ==> fresh(r.value) && r.value.Valid() && r.value.pos == 4
    ensures (if r.Ok? then Ok(r.value.data) else Err(r.error)) == Finish(z, fragment.View(id))
  {
    var joined: Data := [];
    for i := 0 to 256
      invariant joined == Join(fragment.parts, i)
    {
      if i in fragment.parts {
        joined := joined + fragment.parts[i];
      }
    }
    if fragment.compressed {
      var plain := Unpack(z, fragment, joined);
      if plain.Err? {
        return Err(plain.error);
      }
      joined := plain.value;
    }
    var whole := new Reader(joined);
    var kind := whole.Long();
    if kind.Err? {
      return Err(kind.error);
    }
    if kind.value != WHOLE {
      return Err(NotWhole);
    }
    r := Ok(whole);
  }

  /** What the specification makes of the first datagram. */
  lemma OneDatagram(z: Zip, so: Option<Progress>, input: seq<Data>)
    requires input != []
    ensures var v := Parse(Cut(input[0]));
            match v
            case Short => Receive(z, so, input) == Err(Truncated)
            case Complete => Receive(z, so, input) == Ok(Cut(input[0]))
            case Unknown => Receive(z, so, input) == Err(UnknownHeader)
            case Piece(id, total, number, body) =>
              var f := so.Or(Begin(id, total));
              && (f.id != id ==> Receive(z, so, input) == Err(Mixed))
              && (f.id == id && Keep(f, number, body).Err? ==>
                    Receive(z, so, input) == Err(Keep(f, number, body).error))
  {
    hide Parse, Cut, Keep, Finish;
  }

  /** `_receive`: the reader it returns stands behind the header of the whole reply. */
  method ReceiveReply(z: Zip, input: seq<Data>) returns (r: Result<Reader, Error>)
    ensures r.Ok? ==> fresh(r.value) && r.value.Valid() && r.value.pos == 4
    ensures (if r.Ok? then Ok(r.value.data) else Err(r.error)) == Receive(z, None, input)
  {
    hide Receive, Finish, Keep, AsSigned, ReadU32, Compressed;
    var fragment: Partial? := null;
    var fragmentId := 0;
    var k := 0;
    while k < |input|
      invariant 0 <= k <= |input|
      invariant fragment != null ==> fresh(fragment) && fragment.compressed == Compressed(fragmentId)
      invariant Receive(z, None, input)
             == Receive(z, if fragment == null then None else Some(fragment.View(fragmentId)), input[k..])
    {
      ghost var so := if fragment == null then None else Some(fragment.View(fragmentId));
      var datagram := Cut(input[k]);
      OneDatagram(z, so, input[k..]);
      assert input[k..][1..] == input[k + 1..];
      var reader := new Reader(datagram);
      var kind := reader.Long();
      if kind.Err? {
        return Err(kind.error);
      }
      if kind.value == WHOLE {
        return Ok(reader);
      }
      if kind.value != SPLIT {
        return Err(UnknownHeader);
      }
      var header := ReadHeader(reader);
      if header.Err? {
        return Err(header.error);
      }
      var (id, total, number) := header.value;
      if fragment == null {
        fragmentId := id;
        fragment := new Partial(total, Compressed(id));
      } else if id != fragmentId {
        return Err(Mixed);
      }
      ghost var f := fragment.View(fragmentId);
      assert f == so.Or(Begin(id, total));
      ghost var body := reader.Rest();
      var stored := fragment.Store(fragmentId, number, reader);
      if stored.Err? {
        return Err(stored.error);
      }
      ReceiveStep(z, so, f, input[k..]);
      if |fragment.parts| == fragment.total {
        r := Assemble(z, fragmentId, fragment);
        return;
      }
      k := k + 1;
    }
    NothingArrives(z, if fragment == null then None else Some(fragment.View(fragmentId)));
    assert input[k..] == [];
    return Err(NoReply);
  }

  lemma NothingArrives(z: Zip, so: Option<Progress>)
    ensures Receive(z, so, []) == Err(NoReply)
  {
  }

  // ---- asking ---------------------------------------------------------------------------------

  const NO_CHALLENGE := -1
  const CHALLENGE: byte := 0x41
  const MAX_CHALLENGE_RETRIES: nat := 2

  datatype AskError = Failed(error: Error) | Unexpected(kind: byte) | KeptAsking

  /** `_ask` from one attempt on, `arrivals[k]` being what comes in after attempt `k`: the reply, and the challenge each
      attempt carried. */
  function Asked(z: Zip, wanted: byte, challenge: int, arrivals: seq<seq<Data>>): (Result<Data, AskError>, seq<int>)
    decreases |arrivals|
  {
    if arrivals == [] then (Err(KeptAsking), [])
    else
      match Receive(z, None, arrivals[0])
      case Err(e) => (Err(Failed(e)), [challenge])
      case Ok(reply) =>
        if |reply| < 5 then (Err(Failed(Truncated)), [challenge])
        else if reply[4] == wanted then (Ok(reply), [challenge])
        else if reply[4] != CHALLENGE then (Err(Unexpected(reply[4])), [challenge])
        else if |reply| < 9 then (Err(Failed(Truncated)), [challenge])
        else
          var (r, sent) := Asked(z, wanted, AsSigned(ReadU32(reply, 5)), arrivals[1..]);
          (r, [challenge] + sent)
  }

  /** One attempt. */
  lemma AskedOnce(z: Zip, wanted: byte, challenge: int, arrivals: seq<seq<Data>>)
    requires arrivals != []
    ensures var (r, sent) := Asked(z, wanted, challenge, arrivals);
            var later := Asked(z, wanted, AskedNext(z, arrivals[0]), arrivals[1..]);
            match Attempt(z, wanted, arrivals[0])
            case None => r == later.0 && sent == [challenge] + later.1
            case Some(out) => r == out && sent == [challenge]
  {
    hide Receive, AsSigned, ReadU32;
  }

  /** What an attempt comes to, unless it was answered with a challenge. */
  function Attempt(z: Zip, wanted: byte, input: seq<Data>): Option<Result<Data, AskError>> {
    match Receive(z, None, input)
    case Err(e) => Some(Err(Failed(e)))
    case Ok(reply) =>
      if |reply| < 5 then Some(Err(Failed(Truncated)))
      else if reply[4] == wanted then Some(Ok(reply))
      else if reply[4] != CHALLENGE then Some(Err(Unexpected(reply[4])))
      else if |reply| < 9 then Some(Err(Failed(Truncated)))
      else None
  }

  function AskedNext(z: Zip, input: seq<Data>): int {
    match Receive(z, None, input)
    case Err(e) => NO_CHALLENGE
    case Ok(reply) => if |reply| < 9 then NO_CHALLENGE else AsSigned(ReadU32(reply, 5))
  }

  method Ask(z: Zip, wanted: byte, arrivals: seq<seq<Data>>) returns (r: Result<Reader, AskError>, sent: seq<int>)
    requires |arrivals| == MAX_CHALLENGE_RETRIES + 1
    ensures r.Ok? ==> fresh(r.value) && r.value.Valid() && r.value.pos == 5
    ensures (if r.Ok? then Ok(r.value.data) else Err(r.error)) == Asked(z, wanted, NO_CHALLENGE, arrivals).0
    ensures sent == Asked(z, wanted, NO_CHALLENGE, arrivals).1
  {
    hide Receive, AsSigned, ReadU32, Asked;
    var challenge := NO_CHALLENGE;
    sent := [];
    ghost var all := Asked(z, wanted, NO_CHALLENGE, arrivals);
    var k := 0;
    while k < |arrivals|
      invariant 0 <= k <= |arrivals|
      invariant all.0 == Asked(z, wanted, challenge, arrivals[k..]).0
      invariant all.1 == sent + Asked(z, wanted, challenge, arrivals[k..]).1
    {
      assert arrivals[k..][0] == arrivals[k] && arrivals[k..][1..] == arrivals[k + 1..];
      AskedOnce(z, wanted, challenge, arrivals[k..]);
      ghost var later := Asked(z, wanted, AskedNext(z, arrivals[k]), arrivals[k + 1..]).1;
      assert sent + ([challenge] + later) == sent + [challenge] + later;
      sent := sent + [challenge];
      var reader := ReceiveReply(z, arrivals[k]);
      if reader.Err? {
        return Err(Failed(reader.error)), sent;
      }
      var kind := reader.value.Byte();
      if kind.Err? {
        return Err(Failed(kind.error)), sent;
      }
      if kind.value == wanted {
        return Ok(reader.value), sent;
      }
      if kind.value != CHALLENGE {
        return Err(Unexpected(kind.value)), sent;
      }
      var next := reader.value.Long();
      if next.Err? {
        return Err(Failed(next.error)), sent;
      }
      challenge := next.value;
      k := k + 1;
    }
    AskedOut(z, wanted, challenge);
    assert arrivals[k..] == [] && sent + [] == sent;
    return Err(KeptAsking), sent;
  }

  lemma AskedOut(z: Zip, wanted: byte, challenge: int)
    ensures Asked(z, wanted, challenge, []) == (Err(KeptAsking), [])
  {
  }

  /** The reply that hands out a challenge. */
  function ChallengeReply(challenge: i32): Data
  {
    PackU32(Mask32(WHOLE)) + [CHALLENGE] + PackU32(Mask32(challenge))
  }

  lemma ChallengeRead(challenge: i32)
    ensures var d := ChallengeReply(challenge);
            |d| == 9 && HasHeader(d) && d[4] == CHALLENGE && AsSigned(ReadU32(d, 5)) == challenge
  {
    hide PackU32, ReadU32;
    var d := ChallengeReply(challenge);
    ReadPacked([], Mask32(WHOLE), [CHALLENGE] + PackU32(Mask32(challenge)));
    assert [] + PackU32(Mask32(WHOLE)) + ([CHALLENGE] + PackU32(Mask32(challenge))) == d;
    ReadPacked(PackU32(Mask32(WHOLE)) + [CHALLENGE], Mask32(challenge), []);
    assert PackU32(Mask32(WHOLE)) + [CHALLENGE] + PackU32(Mask32(challenge)) + [] == d;
  }

  /** A server that hands out some challenges before it answers gets each of them back, once, in order, and its
      answer is taken exactly when there were no more of them than the client has retries. What arrives after the
      answer is not looked at. */
  lemma {:induction false} ChallengesAnswered(z: Zip, wanted: byte, first: int, challenges: seq<i32>, reply: Data,
                                              arrivals: seq<seq<Data>>)
    requires wanted != CHALLENGE && |reply| >= 5 && reply[4] == wanted
    requires forall k | 0 <= k < Least(|challenges|, |arrivals|) ::
               Receive(z, None, arrivals[k]) == Ok(ChallengeReply(challenges[k]))
    requires |challenges| < |arrivals| ==> Receive(z, None, arrivals[|challenges|]) == Ok(reply)
    ensures Asked(z, wanted, first, arrivals)
         == if |challenges| < |arrivals| then (Ok(reply), [first] + challenges)
            else (Err(KeptAsking), ([first] + challenges)[..|arrivals|])
    decreases |arrivals|
  {
    hide Receive, ReadU32, AsSigned, ChallengeReply;
    if arrivals == [] {
    } else if challenges == [] {
      assert [first] + challenges == [first];
    } else {
      var c := challenges[0];
      ChallengeRead(c);
      ChallengesAnswered(z, wanted, c, challenges[1..], reply, arrivals[1..]);
      assert [c] + challenges[1..] == challenges;
      if |challenges| >= |arrivals| {
        assert [first] + challenges[..|arrivals| - 1] == ([first] + challenges)[..|arrivals|];
      }
    }
  }

  /** Whatever comes after some challenges, short of another, ends the asking: the reply of the kind wanted, or an error
      for any other. */
  lemma {:induction false} ChallengesThen(z: Zip, wanted: byte, first: int, challenges: seq<i32>,
                                          arrivals: seq<seq<Data>>)
    requires wanted != CHALLENGE && |challenges| < |arrivals|
    requires forall k | 0 <= k < |challenges| :: Receive(z, None, arrivals[k]) == Ok(ChallengeReply(challenges[k]))
    requires Attempt(z, wanted, arrivals[|challenges|]).Some?
    ensures Asked(z, wanted, first, arrivals)
         == (Attempt(z, wanted, arrivals[|challenges|]).value, [first] + challenges)
    decreases |challenges|
  {
    hide Receive, ReadU32, AsSigned, ChallengeReply, Attempt, Asked;
    AskedOnce(z, wanted, first, arrivals);
    if challenges == [] {
      assert [first] + challenges == [first];
    } else {
      var c := challenges[0];
      ChallengeNext(z, wanted, c, arrivals[0]);
      ChallengesThen(z, wanted, c, challenges[1..], arrivals[1..]);
      assert [first] + ([c] + challenges[1..]) == [first] + challenges;
    }
  }

  lemma ChallengeNext(z: Zip, wanted: byte, challenge: i32, input: seq<Data>)
    requires wanted != CHALLENGE && Receive(z, None, input) == Ok(ChallengeReply(challenge))
    ensures Attempt(z, wanted, input) == None && AskedNext(z, input) == challenge
  {
    hide Receive, ReadU32, AsSigned, ChallengeReply;
    ChallengeRead(challenge);
  }

  /** The client asking such a server: three attempts, so two challenges. */
  method AskChallenger(z: Zip, wanted: byte, challenges: seq<i32>, reply: Data, arrivals: seq<seq<Data>>)
    returns (r: Result<Reader, AskError>, sent: seq<int>)
    requires wanted != CHALLENGE && |reply| >= 5 && reply[4] == wanted
    requires |arrivals| == MAX_CHALLENGE_RETRIES + 1
    requires forall k | 0 <= k < Least(|challenges|, |arrivals|) ::
               Receive(z, None, arrivals[k]) == Ok(ChallengeReply(challenges[k]))
    requires |challenges| < |arrivals| ==> Receive(z, None, arrivals[|challenges|]) == Ok(reply)
    ensures |challenges| <= MAX_CHALLENGE_RETRIES ==>
              r.Ok? && r.value.data == reply && sent == [NO_CHALLENGE] + challenges
    ensures |challenges| > MAX_CHALLENGE_RETRIES ==>
              r == Err(KeptAsking) && sent == [NO_CHALLENGE] + challenges[..MAX_CHALLENGE_RETRIES]
  {
    hide Receive, Asked, ChallengeReply;
    ChallengesAnswered(z, wanted, NO_CHALLENGE, challenges, reply, arrivals);
    r, sent := Ask(z, wanted, arrivals);
    if |challenges| > MAX_CHALLENGE_RETRIES {
      assert ([NO_CHALLENGE] + challenges)[..3] == [NO_CHALLENGE] + challenges[..2];
    }
  }

  function Least(a: nat, b: nat): nat {
    if a <= b then a else b
  }
}
