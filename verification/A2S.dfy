/** A reply of the Source query protocol that does not fit one datagram: the server numbers the fragments, states the
    length and the checksum of a compressed reply on fragment zero alone, and the client takes them in any order.
  */
module A2S {
  import opened Wrappers
  import opened Bytes
  import opened Parts

  const WHOLE := -1
  const SPLIT := -2
  const RECEIVE_LIMIT: nat := 2 * 1400
  const HEADER: nat := 12
  const REPLY_ID: nat := 0x1234

  /** What unpacking comes to: the data, an `OSError` because it is not bzip2, or a `ValueError` because it ends before
      its end marker. */
  datatype Unzipped = Plain(data: Data) | NotBzip | CutOff

  /** bzip2 and CRC32. */
  datatype Zip = Zip(compress: Data -> Data, decompress: Data -> Unzipped, crc: Data -> u32)

  ghost predicate Lossless(z: Zip) {
    forall x :: z.decompress(z.compress(x)) == Plain(x)
  }

  /** What `_receive` raises. All but the last are `A2SError`s, which callers expect; the last is the `ValueError` of
      data that ends early, let through as it is. */
  datatype Error = Truncated | NoReply | UnknownHeader | Mixed | WillNotDecompress | WrongLength | WrongChecksum
                 | NotWhole | EndsEarly

  // ---- the server -----------------------------------------------------------------------------

  function PackU16(n: nat): Data
    requires n < 0x1_0000
  {
    [n % 0x100, n / 0x100]
  }

  function Fragment(id: u32, total: byte, number: byte, limit: nat, body: Data): Data
    requires limit < 0x1_0000
  {
    PackU32(Mask32(SPLIT)) + PackU32(id) + [total, number] + PackU16(limit) + body
  }

  /** The pieces of the reply as sent, before any header. */
  function Chunks(z: Zip, reply: Data, limit: nat, compress: bool): seq<Data>
    requires limit > 0
  {
    var body := if compress then z.compress(reply) else reply;
    if body == [] then [[]] else Slices(body, limit)
  }

  /** What fragment zero carries ahead of its piece. */
  function Extra(z: Zip, reply: Data, compress: bool): (extra: Data)
    requires |reply| < U32_LIMIT
    ensures |extra| == if compress then 8 else 0
  {
    if compress then PackU32(|reply|) + PackU32(z.crc(reply)) else []
  }

  function ReplyId(compress: bool): u32 {
    REPLY_ID + if compress then I32_LIMIT else 0
  }

  function Sent(extra: Data, chunks: seq<Data>, number: nat): Data
    requires number < |chunks|
  {
    (if number == 0 then extra else []) + chunks[number]
  }

  /** `_split_query_reply`. `None` is the `struct.error` of a field that does not fit. */
  function SplitReply(z: Zip, reply: Data, limit: nat, compress: bool): Option<seq<Data>> {
    if limit == 0 || |reply| <= limit then Some([reply])
    else
      var chunks := Chunks(z, reply, limit, compress);
      if |chunks| > 255 || limit >= 0x1_0000 || (compress && |reply| >= U32_LIMIT) then None
      else
        var extra := if compress then Extra(z, reply, true) else [];
        Some(seq(|chunks|, i requires 0 <= i < |chunks| =>
          Fragment(ReplyId(compress), |chunks|, i, limit, Sent(extra, chunks, i))))
  }

  // ---- the client -----------------------------------------------------------------------------

  /** What a datagram turns out to be. */
  datatype View = Short | Complete | Unknown | Piece(id: int, total: byte, number: byte, body: Data)

  function Parse(d: Data): View {
    if |d| < 4 then Short
    else
      var kind := AsSigned(ReadU32(d, 0));
      if kind == WHOLE then Complete
      else if kind != SPLIT then Unknown
      else if |d| < HEADER then Short
      else Piece(AsSigned(ReadU32(d, 4)), d[8], d[9], d[HEADER..])
  }

  /** By its bytes: four of 0xFF make it a whole reply, and a first byte of 0xFE a fragment, which has a header of
      twelve bytes: the header again, the id, the number of fragments, its own number and two bytes more. */
  lemma DatagramRead(d: Data)
    ensures Parse(d).Complete? <==> |d| >= 4 && d[..4] == [0xFF, 0xFF, 0xFF, 0xFF]
    ensures Parse(d).Piece? <==> |d| >= 12 && d[..4] == [0xFE, 0xFF, 0xFF, 0xFF]
    ensures Parse(d).Short? <==> |d| < 4 || (|d| < 12 && d[..4] == [0xFE, 0xFF, 0xFF, 0xFF])
    ensures Parse(d).Piece? ==>
              && Parse(d).id == AsSigned(UnpackU32([d[4], d[5], d[6], d[7]]))
              && Parse(d).total == d[8] && Parse(d).number == d[9] && Parse(d).body == d[12..]
  {
    if |d| >= 4 {
      assert d[0..4] == [d[0], d[1], d[2], d[3]] == d[..4];
    }
    if |d| >= 12 {
      assert d[4..8] == [d[4], d[5], d[6], d[7]];
    }
  }

  /** A datagram longer than the receive asks for loses its tail. */
  function Cut(d: Data): Data {
    if |d| > RECEIVE_LIMIT then d[..RECEIVE_LIMIT] else d
  }

  /** `_Fragment`, with the id it is a fragment of. */
  datatype Progress = Progress(id: int, total: byte, size: int, crc: nat, parts: map<byte, Data>)

  /** `id & 0x8000_0000` of a number read as signed. */
  predicate Compressed(id: int) {
    Mask32(id) >= I32_LIMIT
  }

  /** One fragment more. */
  function Keep(f: Progress, number: byte, body: Data): Result<Progress, Error> {
    if !Compressed(f.id) || number != 0 then Ok(f.(parts := f.parts[number := body]))
    else if |body| < 8 then Err(Truncated)
    else Ok(f.(size := AsSigned(ReadU32(body, 0)), crc := Mask32(AsSigned(ReadU32(body, 4))),
               parts := f.parts[number := body[8..]]))
  }

  /** `_decompress`. */
  function Decompress(z: Zip, size: int, crc: nat, payload: Data): Result<Data, Error> {
    match z.decompress(payload)
    case NotBzip => Err(WillNotDecompress)
    case CutOff => Err(EndsEarly)
    case Plain(plain) =>
      if size != 0 && |plain| != size then Err(WrongLength)
      else if crc != 0 && z.crc(plain) != crc then Err(WrongChecksum)
      else Ok(plain)
  }

  /** All the fragments are there. */
  function Finish(z: Zip, f: Progress): Result<Data, Error> {
    var joined := Join(f.parts, 256);
    var plain := if Compressed(f.id) then Decompress(z, f.size, f.crc, joined) else Ok(joined);
    if plain.Err? then plain
    else if |plain.value| < 4 then Err(Truncated)
    else if AsSigned(ReadU32(plain.value, 0)) != WHOLE then Err(NotWhole)
    else plain
  }

  function Begin(id: int, total: byte): Progress {
    Progress(id, total, 0, 0, map[])
  }

  /** `_receive`, `input` being the datagrams that come in before the deadline: the whole reply, of which the header
      has been read. */
  function Receive(z: Zip, so: Option<Progress>, input: seq<Data>): Result<Data, Error>
    decreases |input|
  {
    if input == [] then Err(NoReply)
    else
      match Parse(Cut(input[0]))
      case Short => Err(Truncated)
      case Complete => Ok(Cut(input[0]))
      case Unknown => Err(UnknownHeader)
      case Piece(id, total, number, body) =>
        var f := so.Or(Begin(id, total));
        if f.id != id then Err(Mixed)
        else
          var kept := Keep(f, number, body);
          if kept.Err? then Err(kept.error)
          else if |kept.value.parts| == f.total then Finish(z, kept.value)
          else Receive(z, Some(kept.value), input[1..])
  }

  // ---- reassembly, in any order ---------------------------------------------------------------

  /** Every datagram is a fragment of one reply: piece `i` of `chunks`, with `extra` ahead of piece zero. */
  predicate FragmentsOf(input: seq<Data>, id: int, extra: Data, chunks: seq<Data>)
    requires 0 < |chunks| <= 255
  {
    forall k | 0 <= k < |input| :: IsFragment(input[k], id, extra, chunks)
  }

  predicate IsFragment(d: Data, id: int, extra: Data, chunks: seq<Data>)
    requires 0 < |chunks| <= 255
  {
    var v := Parse(Cut(d));
    v.Piece? && v.number < |chunks| && v == Piece(id, |chunks|, v.number, Sent(extra, chunks, v.number))
  }

  /** The fragment numbers that arrived. */
  function Seen(input: seq<Data>): set<byte> {
    set k | 0 <= k < |input| && Parse(Cut(input[k])).Piece? :: Parse(Cut(input[k])).number
  }

  /** The client with the fragments numbered in `have`. */
  function Holding(id: int, extra: Data, chunks: seq<Data>, have: set<byte>): Progress
    requires 0 < |chunks| <= 255 && |extra| == (if Compressed(id) then 8 else 0)
    requires forall i | i in have :: i < |chunks|
  {
    var zero := Compressed(id) && 0 in have;
    Progress(id, |chunks|, if zero then AsSigned(ReadU32(extra, 0)) else 0,
             if zero then Mask32(AsSigned(ReadU32(extra, 4))) else 0, Store(chunks, have))
  }

  lemma KeepNext(id: int, extra: Data, chunks: seq<Data>, have: set<byte>, number: byte)
    requires 0 < |chunks| <= 255 && |extra| == (if Compressed(id) then 8 else 0)
    requires forall i | i in have + {number} :: i < |chunks|
    ensures Keep(Holding(id, extra, chunks, have), number, Sent(extra, chunks, number))
         == Ok(Holding(id, extra, chunks, have + {number}))
  {
    hide Store, ReadU32, AsSigned, Mask32, Compressed;
    assert have <= have + {number};
    StoreOne(chunks, have, number);
    var body := Sent(extra, chunks, number);
    if Compressed(id) && number == 0 {
      assert body[8..] == chunks[0];
      ReadAhead(extra, chunks[0]);
    } else {
      assert body == chunks[number];
    }
  }

  lemma ReadAhead(extra: Data, tail: Data)
    requires |extra| == 8
    ensures ReadU32(extra + tail, 0) == ReadU32(extra, 0) && ReadU32(extra + tail, 4) == ReadU32(extra, 4)
  {
    assert (extra + tail)[0..4] == extra[0..4] && (extra + tail)[4..8] == extra[4..8];
  }

  lemma SeenFirst(input: seq<Data>)
    requires input != [] && Parse(Cut(input[0])).Piece?
    ensures Seen(input) == {Parse(Cut(input[0])).number} + Seen(input[1..])
  {
    hide Parse, Cut;
    forall n: byte | n in Seen(input[1..])
      ensures n in Seen(input)
    {
      var k :| 0 <= k < |input[1..]| && Parse(Cut(input[1..][k])).Piece? && Parse(Cut(input[1..][k])).number == n;
      assert input[k + 1] == input[1..][k];
    }
    forall n: byte | n in Seen(input)
      ensures n == Parse(Cut(input[0])).number || n in Seen(input[1..])
    {
      var k :| 0 <= k < |input| && Parse(Cut(input[k])).Piece? && Parse(Cut(input[k])).number == n;
      if k > 0 {
        assert input[k] == input[1..][k - 1];
      }
    }
  }

  /** One turn of the receive loop on a fragment of the reply in hand. */
  lemma ReceiveStep(z: Zip, so: Option<Progress>, f: Progress, input: seq<Data>)
    requires input != [] && Parse(Cut(input[0])).Piece?
    requires var v := Parse(Cut(input[0])); f == so.Or(Begin(v.id, v.total)) && f.id == v.id
    requires var v := Parse(Cut(input[0])); Keep(f, v.number, v.body).Ok?
    ensures var v := Parse(Cut(input[0]));
            var f' := Keep(f, v.number, v.body).value;
            Receive(z, so, input) == if |f'.parts| == f.total then Finish(z, f') else Receive(z, Some(f'), input[1..])
  {
    hide Parse, Cut, Keep, Finish;
  }

  /** Whatever the order and the repeats, what comes of the fragments is what comes of having them all. */
  lemma {:induction false} ReceiveFragments(z: Zip, so: Option<Progress>, input: seq<Data>, later: seq<Data>, id: int,
                                            extra: Data, chunks: seq<Data>, have: set<byte>, all: set<byte>)
    requires 0 < |chunks| <= 255 && |extra| == (if Compressed(id) then 8 else 0)
    requires forall i: byte :: i in all <==> i < |chunks|
    requires have < all && |all| == |chunks|
    requires so == if have == {} then None else Some(Holding(id, extra, chunks, have))
    requires FragmentsOf(input, id, extra, chunks) && have + Seen(input) == all
    ensures Receive(z, so, input + later) == Finish(z, Holding(id, extra, chunks, all))
    decreases |input|
  {
    hide Parse, Cut, Keep, Finish, Holding, Compressed, Receive, Sent, Seen;
    if input == [] {
      SeenNothing(have);
      assert false;
    }
    var v := Parse(Cut(input[0]));
    assert IsFragment(input[0], id, extra, chunks);
    assert (input + later)[1..] == input[1..] + later;
    HoldingNothing(id, extra, chunks);
    KeepNext(id, extra, chunks, have, v.number);
    HoldingParts(id, extra, chunks, have + {v.number});
    HoldingParts(id, extra, chunks, have);
    ReceiveStep(z, so, Holding(id, extra, chunks, have), input + later);
    SeenFirst(input);
    assert have + {v.number} + Seen(input[1..]) == all;
    AllOrFewer(have + {v.number}, all);
    if have + {v.number} != all {
      ReceiveFragments(z, Some(Holding(id, extra, chunks, have + {v.number})), input[1..], later, id, extra, chunks,
                       have + {v.number}, all);
    }
  }

  lemma AllOrFewer(have: set<byte>, all: set<byte>)
    requires have <= all
    ensures |have| == |all| <==> have == all
  {
    var rest := all - have;
    assert all == have + rest && |all| == |have| + |rest|;
  }

  lemma SeenNothing(have: set<byte>)
    ensures have + Seen([]) == have
  {
    assert have + Seen([]) == have;
  }

  lemma HoldingNothing(id: int, extra: Data, chunks: seq<Data>)
    requires 0 < |chunks| <= 255 && |extra| == (if Compressed(id) then 8 else 0)
    ensures Holding(id, extra, chunks, {}) == Begin(id, |chunks|)
  {
    assert Store(chunks, {}) == map[];
  }

  lemma HoldingParts(id: int, extra: Data, chunks: seq<Data>, have: set<byte>)
    requires 0 < |chunks| <= 255 && |extra| == (if Compressed(id) then 8 else 0)
    requires forall i | i in have :: i < |chunks|
    ensures var f := Holding(id, extra, chunks, have);
            f.id == id && f.total == |chunks| && |f.parts| == |have| && f.parts == Store(chunks, have)
  {
    assert Store(chunks, have).Keys == have;
  }

  // ---- from the server to the client ----------------------------------------------------------

  /** What of a piece gets through: a datagram is cut at the receive limit. */
  function Arriving(chunk: Data): Data {
    if |chunk| > RECEIVE_LIMIT - HEADER then chunk[..RECEIVE_LIMIT - HEADER] else chunk
  }

  lemma ReadHeader(id: u32, rest: Data)
    ensures var d := PackU32(Mask32(SPLIT)) + PackU32(id) + rest;
            |d| == 8 + |rest| && ReadU32(d, 0) == Mask32(SPLIT) && ReadU32(d, 4) == id && d[8..] == rest
  {
    hide PackU32, ReadU32;
    var d := PackU32(Mask32(SPLIT)) + PackU32(id) + rest;
    assert [] + PackU32(Mask32(SPLIT)) + (PackU32(id) + rest) == d;
    ReadPacked([], Mask32(SPLIT), PackU32(id) + rest);
    ReadPacked(PackU32(Mask32(SPLIT)), id, rest);
  }

  /** The client reads off a fragment what the server put on it, short of what was cut. */
  lemma ParseFragment(id: u32, total: byte, number: byte, limit: nat, body: Data)
    requires limit < 0x1_0000
    ensures Parse(Cut(Fragment(id, total, number, limit, body)))
         == Piece(AsSigned(id), total, number, Arriving(body))
    ensures |Fragment(id, total, number, limit, body)| == HEADER + |body|
  {
    hide PackU32, ReadU32, Mask32;
    var tail := Arriving(body);
    var rest := [total, number] + PackU16(limit) + tail;
    var d := Cut(Fragment(id, total, number, limit, body));
    assert d == PackU32(Mask32(SPLIT)) + PackU32(id) + rest;
    ReadHeader(id, rest);
    SplitIsSplit();
    assert d[8] == rest[0] && d[9] == rest[1];
    assert d[HEADER..] == rest[4..] == tail;
  }

  lemma SplitIsSplit()
    ensures AsSigned(Mask32(SPLIT)) == SPLIT
  {
  }

  /** Everything that arrives is one of `packets`, and each of them does: any order, any number of times. */
  predicate Arrivals(input: seq<Data>, packets: seq<Data>) {
    (forall d | d in input :: d in packets) && (forall p | p in packets :: p in input)
  }

  /** The whole of a fragmented reply, in the client's hands. */
  lemma FragmentsReceived(z: Zip, reply: Data, limit: nat, compress: bool, input: seq<Data>, later: seq<Data>,
                          packets: seq<Data>, extra: Data, chunks: seq<Data>, all: set<byte>)
    requires 0 < limit < |reply| && SplitReply(z, reply, limit, compress) == Some(packets)
    requires Arrivals(input, packets)
    requires |reply| < U32_LIMIT || !compress
    requires extra == if compress then Extra(z, reply, true) else []
    requires ChunksArrive(chunks, z, reply, limit, compress)
    requires forall i: byte :: i in all <==> i < |chunks|
    ensures 0 < |chunks| <= 255 && |extra| == (if compress then 8 else 0)
    ensures Compressed(AsSigned(ReplyId(compress))) == compress
    ensures Receive(z, None, input + later) == Finish(z, Holding(AsSigned(ReplyId(compress)), extra, chunks, all))
  {
    hide Receive, Parse, Cut, Finish, Holding, Fragment, Arriving, Extra, Seen, Slices;
    var id := AsSigned(ReplyId(compress));
    IdBit(compress);
    var sent := Chunks(z, reply, limit, compress);
    assert |chunks| == |sent| == |packets|;
    forall i: byte | i < |chunks|
      ensures Parse(Cut(packets[i])) == Piece(id, |chunks|, i, Sent(extra, chunks, i))
    {
      assert packets[i] == Fragment(ReplyId(compress), |sent|, i, limit, Sent(extra, sent, i));
      ParseFragment(ReplyId(compress), |sent|, i, limit, Sent(extra, sent, i));
      ChunkArrives(chunks, z, reply, limit, compress, i);
    }
    forall k | 0 <= k < |input|
      ensures IsFragment(input[k], id, extra, chunks)
    {
      assert input[k] in packets;
    }
    forall i: byte | i in all
      ensures i in Seen(input)
    {
      assert packets[i] in input;
      SeenAt(input, packets[i]);
    }
    SeenFits(input, id, extra, chunks);
    assert {} + Seen(input) == all;
    AllSize(all, |chunks|);
    ReceiveFragments(z, None, input, later, id, extra, chunks, {}, all);
  }

  /** The pieces as they arrive; the header of fragment zero goes ahead of its piece and is never cut. */
  predicate ChunksArrive(chunks: seq<Data>, z: Zip, reply: Data, limit: nat, compress: bool)
    requires limit > 0 && (compress ==> |reply| < U32_LIMIT)
  {
    var sent, extra := Chunks(z, reply, limit, compress), if compress then Extra(z, reply, true) else [];
    && |chunks| == |sent|
    && (forall i | 0 <= i < |sent| :: Arriving(Sent(extra, sent, i)) == Sent(extra, chunks, i))
  }

  lemma ChunkArrives(chunks: seq<Data>, z: Zip, reply: Data, limit: nat, compress: bool, i: nat)
    requires limit > 0 && (compress ==> |reply| < U32_LIMIT)
    requires ChunksArrive(chunks, z, reply, limit, compress) && i < |chunks|
    ensures var extra := if compress then Extra(z, reply, true) else [];
            Arriving(Sent(extra, Chunks(z, reply, limit, compress), i)) == Sent(extra, chunks, i)
  {
  }

  lemma SeenAt(input: seq<Data>, d: Data)
    requires d in input && Parse(Cut(d)).Piece?
    ensures Parse(Cut(d)).number in Seen(input)
  {
    hide Parse, Cut;
  }

  lemma SeenFits(input: seq<Data>, id: int, extra: Data, chunks: seq<Data>)
    requires 0 < |chunks| <= 255 && FragmentsOf(input, id, extra, chunks)
    ensures forall i | i in Seen(input) :: i < |chunks|
  {
    hide Parse, Cut;
    forall i | i in Seen(input)
      ensures i < |chunks|
    {
      var k :| 0 <= k < |input| && Parse(Cut(input[k])).Piece? && Parse(Cut(input[k])).number == i;
      assert IsFragment(input[k], id, extra, chunks);
    }
  }

  lemma AllSize(all: set<byte>, n: nat)
    requires n <= 255 && forall i: byte :: i in all <==> i < n
    ensures |all| == n
  {
    var numbers: set<int> := set i | i in all;
    assert numbers == all && numbers == Numbers(n);
  }

  /** The top bit of an id says that the reply is compressed. */
  lemma IdBitExactly(id: u32)
    ensures Compressed(AsSigned(id)) <==> id >= 0x8000_0000
  {
    MaskRecovers(id);
  }

  lemma IdBit(compress: bool)
    ensures Compressed(AsSigned(ReplyId(compress))) == compress
  {
    MaskRecovers(ReplyId(compress));
  }

  /** The server sends a reply whole when it fits; otherwise it can send it exactly when 255 pieces are enough for what
      is sent and the limit and, for a compressed one, the length fit their fields. */
  lemma SplitExact(z: Zip, reply: Data, limit: nat, compress: bool)
    ensures limit == 0 || |reply| <= limit ==> SplitReply(z, reply, limit, compress) == Some([reply])
    ensures 0 < limit < |reply| ==>
              var body := if compress then z.compress(reply) else reply;
              var able := |body| <= 255 * limit && limit < 0x1_0000 && (compress ==> |reply| < U32_LIMIT);
              SplitReply(z, reply, limit, compress).Some? <==> able
  {
    hide Fragment, Sent, Extra, Slices;
    if limit > 0 {
      SlicesEnough(if compress then z.compress(reply) else reply, limit, 255);
    }
  }

  /** A fragment byte by byte: the split header, the id, both counts, the limit and the piece, low bytes first. */
  lemma FragmentBytes(body: Data)
    ensures Fragment(0x8000_1234, 3, 1, 1248, body)
         == [0xFE, 0xFF, 0xFF, 0xFF, 0x34, 0x12, 0, 0x80, 3, 1, 0xE0, 4] + body
  {
  }

  // ---- the reply comes back -------------------------------------------------------------------

  /** Every reply starts with the four bytes of -1. */
  predicate HasHeader(reply: Data) {
    |reply| >= 4 && AsSigned(ReadU32(reply, 0)) == WHOLE
  }

  predicate Fits(packets: seq<Data>) {
    forall p | p in packets :: |p| <= RECEIVE_LIMIT
  }

  lemma ReadFront(x: Data, y: Data)
    requires |x| >= 4 && |y| >= 4 && x[..4] == y[..4]
    ensures ReadU32(x, 0) == ReadU32(y, 0)
  {
    assert x[0..4] == x[..4] && y[0..4] == y[..4];
  }

  /** A reply sent whole, seen by the client. */
  lemma WholeReceived(z: Zip, reply: Data, input: seq<Data>, later: seq<Data>)
    requires HasHeader(reply) && Arrivals(input, [reply])
    ensures Receive(z, None, input + later) == Ok(Cut(reply))
  {
    assert reply in input;
    assert input[0] in [reply];
    ReadFront(Cut(reply), reply);
  }

  lemma FinishAll(z: Zip, id: int, extra: Data, chunks: seq<Data>, all: set<byte>)
    requires 0 < |chunks| <= 255 && |extra| == (if Compressed(id) then 8 else 0)
    requires forall i: byte :: i in all <==> i < |chunks|
    ensures var plain := if Compressed(id)
              then Decompress(z, AsSigned(ReadU32(extra, 0)), ReadU32(extra, 4), Flatten(chunks))
              else Ok(Flatten(chunks));
            (plain.Ok? && HasHeader(plain.value) ==> Finish(z, Holding(id, extra, chunks, all)) == plain)
            && (plain.Err? ==> Finish(z, Holding(id, extra, chunks, all)) == plain)
            && (Finish(z, Holding(id, extra, chunks, all)).Ok? ==> Finish(z, Holding(id, extra, chunks, all)) == plain)
            && (plain.Ok? ==> Finish(z, Holding(id, extra, chunks, all)) != Err(EndsEarly))
  {
    JoinAll(chunks, all, 256);
    if Compressed(id) {
      MaskRecovers(ReadU32(extra, 4));
    }
  }

  lemma FlattenChunks(z: Zip, reply: Data, limit: nat, compress: bool)
    requires limit > 0
    ensures Flatten(Chunks(z, reply, limit, compress)) == if compress then z.compress(reply) else reply
  {
    FlattenSlices(if compress then z.compress(reply) else reply, limit);
    assert Flatten([[]]) == [] + Flatten([]);
  }

  /** Cutting a piece shortens what they make together. */
  lemma {:induction false} CutShortens(sent: seq<Data>, chunks: seq<Data>)
    requires |sent| == |chunks| && forall i | 0 <= i < |sent| :: chunks[i] == Arriving(sent[i])
    ensures |Flatten(chunks)| <= |Flatten(sent)|
    ensures |Flatten(chunks)| == |Flatten(sent)| ==> chunks == sent
    decreases |sent|
  {
    if sent != [] {
      CutShortens(sent[1..], chunks[1..]);
      assert sent == [sent[0]] + sent[1..] && chunks == [chunks[0]] + chunks[1..];
    }
  }

  lemma PacketSizes(z: Zip, reply: Data, limit: nat, compress: bool, packets: seq<Data>, extra: Data)
    requires 0 < limit < |reply| && SplitReply(z, reply, limit, compress) == Some(packets)
    requires |reply| < U32_LIMIT || !compress
    requires extra == if compress then Extra(z, reply, true) else []
    ensures var sent := Chunks(z, reply, limit, compress);
            && |packets| == |sent|
            && forall i | 0 <= i < |sent| :: |packets[i]| == HEADER + |Sent(extra, sent, i)|
  {
    hide Slices, Extra, PackU32, Fragment, Parse, Cut;
    var sent := Chunks(z, reply, limit, compress);
    forall i | 0 <= i < |sent|
      ensures |packets[i]| == HEADER + |Sent(extra, sent, i)|
    {
      ParseFragment(ReplyId(compress), |sent|, i, limit, Sent(extra, sent, i));
    }
  }

  lemma FirstSlice(reply: Data, limit: nat)
    requires 0 < limit < |reply|
    ensures Slices(reply, limit) != [] && Slices(reply, limit)[0] == reply[..limit]
  {
  }

  /** An uncompressed reply in fragments. */
  lemma PlainFragments(z: Zip, reply: Data, limit: nat, input: seq<Data>, later: seq<Data>, packets: seq<Data>,
                       sent: seq<Data>, chunks: seq<Data>)
    requires 0 < limit < |reply| && SplitReply(z, reply, limit, false) == Some(packets)
    requires HasHeader(reply) && Arrivals(input, packets)
    requires sent == Chunks(z, reply, limit, false) && |chunks| == |sent|
    requires forall i | 0 <= i < |sent| :: chunks[i] == Arriving(sent[i])
    ensures chunks == sent <==> Fits(packets)
    ensures HasHeader(Flatten(chunks)) && Receive(z, None, input + later) == Ok(Flatten(chunks))
  {
    hide Receive, Finish, Holding, Fragment, Slices, Flatten, HasHeader, Arriving;
    var all := FirstNumbers(|chunks|);
    forall i | 0 <= i < |sent|
      ensures Sent([], sent, i) == sent[i] && Sent([], chunks, i) == chunks[i]
    {
    }
    FragmentsReceived(z, reply, limit, false, input, later, packets, [], chunks, all);
    FlattenChunks(z, reply, limit, false);
    FlattenSlices(reply, limit);
    PacketSizes(z, reply, limit, false, packets, []);
    FitsExactly(sent, chunks, packets);
    if chunks != sent {
      FirstSlice(reply, limit);
      FrontKept(reply, sent, chunks, limit);
    }
    FinishAll(z, AsSigned(ReplyId(false)), [], chunks, all);
  }

  /** An uncompressed reply comes back as it was, in whatever order and however often its datagrams arrive, exactly when
      each of them fits the client's receive. One that does not fit is taken all the same, short of what was cut off. */
  lemma PlainReply(z: Zip, reply: Data, limit: nat, input: seq<Data>, later: seq<Data>, packets: seq<Data>)
    requires SplitReply(z, reply, limit, false) == Some(packets) && HasHeader(reply) && Arrivals(input, packets)
    ensures Receive(z, None, input + later).Ok?
    ensures Receive(z, None, input + later) == Ok(reply) <==> Fits(packets)
  {
    if limit == 0 || |reply| <= limit {
      hide Receive;
      WholeReceived(z, reply, input, later);
      assert reply in packets;
    } else {
      hide *;
      var sent := Chunks(z, reply, limit, false);
      var chunks := seq(|sent|, i requires 0 <= i < |sent| => Arriving(sent[i]));
      PlainFragments(z, reply, limit, input, later, packets, sent, chunks);
      FlattenChunks(z, reply, limit, false);
      CutShortens(sent, chunks);
    }
  }

  function FirstBytes(b: Data, n: nat): Data {
    if |b| > n then b[..n] else b
  }

  /** The pieces of a compressed reply as they arrive. Fragment zero has room for less, its header being longer. */
  function CutPieces(sent: seq<Data>): (chunks: seq<Data>)
    ensures |chunks| == |sent|
  {
    seq(|sent|, i requires 0 <= i < |sent| =>
      FirstBytes(sent[i], RECEIVE_LIMIT - HEADER - if i == 0 then 8 else 0))
  }

  lemma CutPiecesArrive(z: Zip, reply: Data, limit: nat)
    requires limit > 0 && |reply| < U32_LIMIT
    ensures ChunksArrive(CutPieces(Chunks(z, reply, limit, true)), z, reply, limit, true)
  {
    hide PackU32, Slices;
    var sent, extra := Chunks(z, reply, limit, true), Extra(z, reply, true);
    var chunks := CutPieces(sent);
    forall i | 0 <= i < |sent|
      ensures Arriving(Sent(extra, sent, i)) == Sent(extra, chunks, i)
    {
      if i == 0 && |extra + sent[0]| > RECEIVE_LIMIT - HEADER {
        assert (extra + sent[0])[..RECEIVE_LIMIT - HEADER] == extra + sent[0][..RECEIVE_LIMIT - HEADER - 8];
      }
    }
  }

  /** What arrives of a compressed reply in fragments. */
  function Arrived(z: Zip, reply: Data, limit: nat): Data
    requires limit > 0
  {
    Flatten(CutPieces(Chunks(z, reply, limit, true)))
  }

  /** A reply in compressed fragments, in the client's hands. */
  lemma CompressedFragments(z: Zip, reply: Data, limit: nat, input: seq<Data>, later: seq<Data>, packets: seq<Data>)
    requires 0 < limit < |reply| && SplitReply(z, reply, limit, true) == Some(packets) && Arrivals(input, packets)
    ensures |reply| < U32_LIMIT
    ensures var plain := Decompress(z, AsSigned(|reply|), z.crc(reply), Arrived(z, reply, limit));
            var r := Receive(z, None, input + later);
            (plain.Ok? && HasHeader(plain.value) ==> r == plain) && (plain.Err? ==> r == plain)
            && (r.Ok? ==> r == plain) && (plain.Ok? ==> r != Err(EndsEarly))
  {
    hide Receive, Fragment, Slices, Flatten, HasHeader, PackU32, ReadU32, Parse, Cut, CutPieces, Decompress, AsSigned;
    var extra, chunks := Extra(z, reply, true), CutPieces(Chunks(z, reply, limit, true));
    var all := FirstNumbers(|chunks|);
    CutPiecesArrive(z, reply, limit);
    FragmentsReceived(z, reply, limit, true, input, later, packets, extra, chunks, all);
    ReadExtra(z, reply);
    FinishAll(z, AsSigned(ReplyId(true)), extra, chunks, all);
  }

  /** A compressed reply comes back as it was, in whatever order and however often its datagrams arrive: one that went
      whole exactly when it fits the client's receive, one in fragments exactly when its length is one that a signed
      32-bit number can state and what arrives of it still decompresses to it. Of one in fragments nothing is ever given
      out that differs from it in length, or in a checksum other than 0. */
  lemma CompressedReply(z: Zip, reply: Data, limit: nat, input: seq<Data>, later: seq<Data>, packets: seq<Data>)
    requires SplitReply(z, reply, limit, true) == Some(packets) && HasHeader(reply) && Arrivals(input, packets)
    ensures Receive(z, None, input + later) == Ok(reply) <==>
              if 0 < limit < |reply| then |reply| < I32_LIMIT && z.decompress(Arrived(z, reply, limit)) == Plain(reply)
              else |reply| <= RECEIVE_LIMIT
    ensures 0 < limit < |reply| && Receive(z, None, input + later).Ok? ==>
              var r := Receive(z, None, input + later).value;
              |r| == |reply| && (z.crc(reply) != 0 ==> z.crc(r) == z.crc(reply))
  {
    if limit == 0 || |reply| <= limit {
      hide Receive;
      WholeReceived(z, reply, input, later);
    } else {
      hide Receive, Slices, Flatten, HasHeader, Arrived;
      CompressedFragments(z, reply, limit, input, later, packets);
    }
  }

  /** What a receive that is too short costs beyond the reply: when the compressed data that arrives ends early, what is
      raised is no `A2SError`. That takes a datagram that does not fit, and happens exactly when what is left unpacks to
      nothing but an early end. */
  lemma CutReplyEscapes(z: Zip, reply: Data, limit: nat, input: seq<Data>, later: seq<Data>, packets: seq<Data>)
    requires SplitReply(z, reply, limit, true) == Some(packets) && HasHeader(reply) && Arrivals(input, packets)
    ensures Receive(z, None, input + later) == Err(EndsEarly)
       <==> 0 < limit < |reply| && z.decompress(Arrived(z, reply, limit)) == CutOff
    ensures Lossless(z) && Fits(packets) ==> Receive(z, None, input + later) != Err(EndsEarly)
  {
    hide Receive, Slices, Flatten, HasHeader, CutPieces, PackU32;
    if limit == 0 || |reply| <= limit {
      WholeReceived(z, reply, input, later);
    } else {
      CompressedFragments(z, reply, limit, input, later, packets);
      if Lossless(z) && Fits(packets) {
        NothingCut(z, reply, limit, packets);
        FlattenChunks(z, reply, limit, true);
      }
    }
  }

  /** When every datagram fits nothing is cut, and the length alone decides. */
  lemma CompressedReplyFits(z: Zip, reply: Data, limit: nat, input: seq<Data>, later: seq<Data>, packets: seq<Data>)
    requires Lossless(z) && SplitReply(z, reply, limit, true) == Some(packets)
    requires HasHeader(reply) && Arrivals(input, packets) && Fits(packets)
    ensures Receive(z, None, input + later) == Ok(reply) <==> |reply| < I32_LIMIT
  {
    hide Receive, Slices, Flatten, HasHeader, PackU32, CutPieces;
    CompressedReply(z, reply, limit, input, later, packets);
    if 0 < limit < |reply| {
      NothingCut(z, reply, limit, packets);
      FlattenChunks(z, reply, limit, true);
    } else {
      assert reply in packets;
    }
  }

  lemma NothingCut(z: Zip, reply: Data, limit: nat, packets: seq<Data>)
    requires 0 < limit < |reply| && SplitReply(z, reply, limit, true) == Some(packets) && Fits(packets)
    ensures CutPieces(Chunks(z, reply, limit, true)) == Chunks(z, reply, limit, true)
  {
    hide Slices, Extra, PackU32, Fragment;
    var sent := Chunks(z, reply, limit, true);
    PacketSizes(z, reply, limit, true, packets, Extra(z, reply, true));
    forall i | 0 <= i < |sent|
      ensures CutPieces(sent)[i] == sent[i]
    {
      assert packets[i] in packets;
    }
  }

  /** The input that shows it: 6000 bytes uncompressed in datagrams of 3000 and a header, of which the client receives
      2800 bytes each. It takes what it has for the reply. */
  lemma CutUnnoticed(z: Zip)
    ensures var reply := [255, 255, 255, 255] + seq(5996, i => 7);
            var packets := SplitReply(z, reply, 3000, false);
            && packets.Some?
            && Receive(z, None, packets.value).Ok? && Receive(z, None, packets.value) != Ok(reply)
  {
    hide Receive, Parse, Cut, PackU32;
    var reply: Data := [255, 255, 255, 255] + seq(5996, i => 7);
    assert reply[0..4] == [255, 255, 255, 255];
    assert HasHeader(reply) by {
      assert UnpackU32([255, 255, 255, 255]) == 0xFFFF_FFFF;
    }
    assert Slices(reply, 3000) == [reply[..3000], reply[3000..]] by {
      assert Slices(reply[3000..], 3000) == [reply[3000..]];
    }
    var packets := SplitReply(z, reply, 3000, false).value;
    PacketSizes(z, reply, 3000, false, packets, []);
    assert |Sent([], [reply[..3000], reply[3000..]], 0)| == 3000;
    assert packets[0] in packets;
    assert packets + [] == packets;
    PlainReply(z, reply, 3000, packets, [], packets);
  }

  lemma ReadExtra(z: Zip, reply: Data)
    requires |reply| < U32_LIMIT
    ensures ReadU32(Extra(z, reply, true), 0) == |reply| && ReadU32(Extra(z, reply, true), 4) == z.crc(reply)
  {
    hide PackU32, ReadU32;
    var size, crc := PackU32(|reply|), PackU32(z.crc(reply));
    ReadPacked([], |reply|, crc);
    ReadPacked(size, z.crc(reply), []);
    assert [] + size + crc == size + crc + [] == Extra(z, reply, true);
  }

  lemma FitsExactly(sent: seq<Data>, chunks: seq<Data>, packets: seq<Data>)
    requires |sent| == |chunks| == |packets|
    requires forall i | 0 <= i < |sent| :: chunks[i] == Arriving(sent[i]) && |packets[i]| == HEADER + |sent[i]|
    ensures chunks == sent <==> Fits(packets)
  {
    if Fits(packets) {
      forall i | 0 <= i < |sent|
        ensures chunks[i] == sent[i]
      {
        assert packets[i] in packets;
      }
    } else {
      var p :| p in packets && |p| > RECEIVE_LIMIT;
      var i :| 0 <= i < |packets| && packets[i] == p;
      assert chunks[i] != sent[i];
    }
  }

  /** When anything is cut, the first piece is a full one, and keeps the header. */
  lemma FrontKept(reply: Data, sent: seq<Data>, chunks: seq<Data>, limit: nat)
    requires limit < |reply| && sent != [] && sent[0] == reply[..limit] && HasHeader(reply)
    requires forall i | 0 <= i < |sent| :: |sent[i]| <= limit
    requires |sent| == |chunks| && forall i | 0 <= i < |sent| :: chunks[i] == Arriving(sent[i])
    requires chunks != sent
    ensures HasHeader(Flatten(chunks))
  {
    assert limit > RECEIVE_LIMIT - HEADER by {
      var i :| 0 <= i < |sent| && chunks[i] != sent[i];
    }
    assert Flatten(chunks) == chunks[0] + Flatten(chunks[1..]);
    assert Flatten(chunks)[..4] == reply[..4];
    ReadFront(Flatten(chunks), reply);
  }

  // ---- what a reply must agree with -----------------------------------------------------------

  /** The last fragment numbered `number` among those seen, as it stands behind the fragment header. */
  function LastBody(seen: seq<Data>, number: byte): Option<Data> {
    if seen == [] then None
    else
      match Parse(Cut(seen[|seen| - 1]))
      case Piece(_, _, n, body) => if n == number then Some(body) else LastBody(seen[..|seen| - 1], number)
      case _ => LastBody(seen[..|seen| - 1], number)
  }

  /** A piece of the reply: the last one seen of its number, without the extra header a compressed fragment zero has. */
  function PieceOf(seen: seq<Data>, id: int, number: byte): Option<Data> {
    match LastBody(seen, number)
    case None => None
    case Some(body) =>
      if !Compressed(id) || number != 0 then Some(body) else if |body| < 8 then None else Some(body[8..])
  }

  /** Fragments of one reply, and what is known from them. */
  ghost predicate Gathered(f: Progress, seen: seq<Data>) {
    && (forall k | 0 <= k < |seen| :: Parse(Cut(seen[k])).Piece? && Parse(Cut(seen[k])).id == f.id)
    && seen != [] && f.total == Parse(Cut(seen[0])).total
    && (forall i: byte :: i in f.parts <==> LastBody(seen, i).Some?)
    && (forall i: byte | i in f.parts :: PieceOf(seen, f.id, i) == Some(f.parts[i]))
    && (if Compressed(f.id) && LastBody(seen, 0).Some?
        then |LastBody(seen, 0).value| >= 8 && f.size == AsSigned(ReadU32(LastBody(seen, 0).value, 0))
             && f.crc == ReadU32(LastBody(seen, 0).value, 4)
        else f.size == 0 && f.crc == 0)
  }

  /** The length and the checksum that fragment zero states; nothing when there has been no fragment zero. */
  function Stated(seen: seq<Data>): Option<(int, nat)> {
    match LastBody(seen, 0)
    case None => None
    case Some(body) => if |body| < 8 then None else Some((AsSigned(ReadU32(body, 0)), ReadU32(body, 4)))
  }

  predicate Agrees(z: Zip, stated: Option<(int, nat)>, plain: Data) {
    stated.Some? ==>
      && (stated.value.0 != 0 ==> |plain| == stated.value.0)
      && (stated.value.1 != 0 ==> z.crc(plain) == stated.value.1)
  }

  /** Why `reply` may be believed: there are as many different fragments as the first one announced, and it is what they
      make; when it was compressed it also agrees with whatever fragment zero states. */
  ghost predicate Vouched(z: Zip, f: Progress, seen: seq<Data>, reply: Data) {
    && Gathered(f, seen) && |f.parts| == f.total && HasHeader(reply)
    && if Compressed(f.id)
       then z.decompress(Join(f.parts, 256)) == Plain(reply) && Agrees(z, Stated(seen), reply)
       else reply == Join(f.parts, 256)
  }

  /** Every fragment from zero up to the number announced is there. */
  predicate NoneMissing(f: Progress) {
    forall i: byte | i < f.total :: i in f.parts
  }

  /** No fragment has a number past the last. */
  predicate NoStrays(f: Progress) {
    forall i | i in f.parts :: i < f.total
  }

  /** As many fragments as announced are all of them exactly when none has a number that is too high. */
  lemma AllOrStrays(f: Progress)
    requires |f.parts| == f.total
    ensures NoneMissing(f) <==> NoStrays(f)
  {
    assert |f.parts.Keys| == f.total;
    if NoStrays(f) {
      AllThere(f.parts.Keys, f.total);
    }
    if NoneMissing(f) {
      AllSize(FirstNumbers(f.total), f.total);
      AllOrFewer(FirstNumbers(f.total), f.parts.Keys);
    }
  }

  /** A decompressed reply is given out exactly when it agrees with what fragment zero states, and it is checked against
      anything only if there is a fragment zero. */
  lemma CheckedExactly(z: Zip, f: Progress, seen: seq<Data>, plain: Data)
    requires Gathered(f, seen) && Compressed(f.id)
    requires z.decompress(Join(f.parts, 256)) == Plain(plain) && HasHeader(plain)
    ensures Finish(z, f) == Ok(plain) <==> Agrees(z, Stated(seen), plain)
    ensures Stated(seen).Some? <==> 0 in f.parts
    ensures 0 !in f.parts ==> Finish(z, f) == Ok(plain)
  {
    hide Join, ReadU32, AsSigned, Mask32;
  }

  /** The numbers of the fragments are never compared with the number announced: of two, those numbered 1 and 2 are
      taken for the whole, and as neither is fragment zero whatever they decompress to is given out unchecked. */
  lemma StraysUnchecked(z: Zip, limit: nat, first: Data, second: Data, plain: Data)
    requires limit < 0x1_0000 && |first| <= RECEIVE_LIMIT - HEADER && |second| <= RECEIVE_LIMIT - HEADER
    requires z.decompress(first + second) == Plain(plain) && HasHeader(plain)
    ensures var d1 := Fragment(ReplyId(true), 2, 1, limit, first);
            var d2 := Fragment(ReplyId(true), 2, 2, limit, second);
            Receive(z, None, [d1, d2]) == Ok(plain)
  {
    hide Parse, Cut, Fragment, Finish, Receive, Compressed, HasHeader;
    var d1, d2 := Fragment(ReplyId(true), 2, 1, limit, first), Fragment(ReplyId(true), 2, 2, limit, second);
    ParseFragment(ReplyId(true), 2, 1, limit, first);
    ParseFragment(ReplyId(true), 2, 2, limit, second);
    IdBit(true);
    var id := AsSigned(ReplyId(true));
    var one := Progress(id, 2, 0, 0, map[1 := first]);
    var two := Progress(id, 2, 0, 0, map[1 := first, 2 := second]);
    assert Begin(id, 2).parts[1 := first] == one.parts && one.parts[2 := second] == two.parts;
    assert |one.parts| == 1 && |two.parts| == 2;
    assert [d1, d2][1..] == [d2];
    ReceiveStep(z, None, Begin(id, 2), [d1, d2]);
    ReceiveStep(z, Some(one), one, [d2]);
    TwoParts(first, second, 256);
    FinishUnchecked(z, two, plain);
  }

  lemma {:induction false} TwoParts(first: Data, second: Data, n: nat)
    requires 3 <= n <= 256
    ensures Join(map[1 := first, 2 := second], n) == first + second
  {
    var parts: map<byte, Data> := map[1 := first, 2 := second];
    if n == 3 {
      assert Join(parts, 0) == [] && Join(parts, 1) == [] && Join(parts, 2) == first;
    } else {
      TwoParts(first, second, n - 1);
    }
  }

  lemma FinishUnchecked(z: Zip, f: Progress, plain: Data)
    requires Compressed(f.id) && f.size == 0 && f.crc == 0 && HasHeader(plain)
    requires z.decompress(Join(f.parts, 256)) == Plain(plain)
    ensures Finish(z, f) == Ok(plain)
  {
    hide Join, Compressed;
  }

  lemma GatheredNext(so: Option<Progress>, seen: seq<Data>, d: Data)
    requires Parse(Cut(d)).Piece?
    requires so.None? <==> seen == []
    requires so.Some? ==> Gathered(so.value, seen) && so.value.id == Parse(Cut(d)).id
    requires var v := Parse(Cut(d)); Keep(so.Or(Begin(v.id, v.total)), v.number, v.body).Ok?
    ensures var v := Parse(Cut(d)); Gathered(Keep(so.Or(Begin(v.id, v.total)), v.number, v.body).value, seen + [d])
  {
    hide Parse, Cut, ReadU32, AsSigned, Mask32, Compressed;
    var v := Parse(Cut(d));
    var f := so.Or(Begin(v.id, v.total));
    var f' := Keep(f, v.number, v.body).value;
    var now := seen + [d];
    assert now[..|seen|] == seen;
    assert forall i: byte :: LastBody(now, i) == if i == v.number then Some(v.body) else LastBody(seen, i);
    if |v.body| >= 8 {
      MaskRecovers(ReadU32(v.body, 4));
    }
    forall k | 0 <= k < |now|
      ensures Parse(Cut(now[k])).Piece? && Parse(Cut(now[k])).id == f'.id
    {
      if k < |seen| {
        assert now[k] == seen[k];
      }
    }
  }

  /** What the receive loop was not stopped by. */
  lemma ReceiveOk(z: Zip, so: Option<Progress>, input: seq<Data>)
    requires Receive(z, so, input).Ok?
    ensures input != []
    ensures var v := Parse(Cut(input[0]));
            || (v.Complete? && Receive(z, so, input) == Ok(Cut(input[0])))
            || (v.Piece? && so.Or(Begin(v.id, v.total)).id == v.id
                && Keep(so.Or(Begin(v.id, v.total)), v.number, v.body).Ok?)
  {
    hide Parse, Cut, Keep, Finish;
  }

  lemma FinishVouched(z: Zip, f: Progress, seen: seq<Data>)
    requires Gathered(f, seen) && |f.parts| == f.total && Finish(z, f).Ok?
    ensures Vouched(z, f, seen, Finish(z, f).value)
  {
    hide Join, ReadU32, AsSigned, Mask32;
  }

  /** Whatever arrives, a reply is given out only if it came whole or is what as many different fragments as announced
      make, agreeing with whatever fragment zero states; and those are all its fragments exactly when no number is too
      high. */
  lemma {:induction false} OnlyVouched(z: Zip, so: Option<Progress>, seen: seq<Data>, input: seq<Data>)
    returns (n: nat, f: Option<Progress>)
    requires so.None? <==> seen == []
    requires so.Some? ==> Gathered(so.value, seen)
    requires Receive(z, so, input).Ok?
    ensures 0 < n <= |input|
    ensures var reply := Receive(z, so, input).value;
            match f
            case None => Parse(Cut(input[n - 1])).Complete? && reply == Cut(input[n - 1])
            case Some(g) => Vouched(z, g, seen + input[..n], reply) && (NoneMissing(g) <==> NoStrays(g))
    decreases |input|
  {
    hide *;
    ReceiveOk(z, so, input);
    var v := Parse(Cut(input[0]));
    if v.Complete? {
      n, f := 1, None;
    } else {
      SoSome(so, Begin(v.id, v.total));
      GatheredNext(so, seen, input[0]);
      var f0 := so.Or(Begin(v.id, v.total));
      ReceiveStep(z, so, f0, input);
      var f' := Keep(f0, v.number, v.body).value;
      KeepTotal(f0, v.number, v.body);
      if |f'.parts| == f'.total {
        n, f := 1, Some(f');
        assert input[..1] == [input[0]];
        FinishVouched(z, f', seen + [input[0]]);
        AllOrStrays(f');
      } else {
        n, f := OnlyVouched(z, Some(f'), seen + [input[0]], input[1..]);
        n := n + 1;
        assert input[1..][..n - 1] == input[1..n];
        assert seen + [input[0]] + input[1..n] == seen + input[..n];
      }
    }
  }

  lemma KeepFails(f: Progress, number: byte, body: Data)
    requires Keep(f, number, body).Err?
    ensures Keep(f, number, body).error == Truncated
  {
  }

  lemma FinishEscapes(z: Zip, f: Progress)
    ensures Finish(z, f) == Err(EndsEarly) <==> Compressed(f.id) && z.decompress(Join(f.parts, 256)) == CutOff
  {
    hide Join, Compressed, ReadU32, AsSigned;
  }

  /** Before its first fragment is taken the receive loop raises nothing else. */
  lemma ReceiveEscapes(z: Zip, so: Option<Progress>, input: seq<Data>)
    requires Receive(z, so, input) == Err(EndsEarly)
    ensures input != []
    ensures var v := Parse(Cut(input[0]));
            && v.Piece? && so.Or(Begin(v.id, v.total)).id == v.id
            && Keep(so.Or(Begin(v.id, v.total)), v.number, v.body).Ok?
  {
    hide Parse, Cut, Finish, Keep;
    if input != [] {
      var v := Parse(Cut(input[0]));
      if v.Piece? {
        var f := so.Or(Begin(v.id, v.total));
        if f.id == v.id && Keep(f, v.number, v.body).Err? {
          KeepFails(f, v.number, v.body);
        }
      }
    }
  }

  /** Whatever arrives, nothing but an `A2SError` is raised, unless as many different fragments of a compressed reply as
      announced are there and what they make is cut off. */
  lemma {:induction false} OnlyCutOffEscapes(z: Zip, so: Option<Progress>, seen: seq<Data>, input: seq<Data>)
    returns (n: nat, f: Progress)
    requires so.None? <==> seen == []
    requires so.Some? ==> Gathered(so.value, seen)
    requires Receive(z, so, input) == Err(EndsEarly)
    ensures 0 < n <= |input| && Gathered(f, seen + input[..n]) && |f.parts| == f.total
    ensures Compressed(f.id) && z.decompress(Join(f.parts, 256)) == CutOff
    decreases |input|
  {
    hide *;
    ReceiveEscapes(z, so, input);
    var v := Parse(Cut(input[0]));
    SoSome(so, Begin(v.id, v.total));
    GatheredNext(so, seen, input[0]);
    var f0 := so.Or(Begin(v.id, v.total));
    ReceiveStep(z, so, f0, input);
    f := Keep(f0, v.number, v.body).value;
    KeepTotal(f0, v.number, v.body);
    if |f.parts| == f.total {
      n := 1;
      assert input[..1] == [input[0]];
      FinishEscapes(z, f);
    } else {
      n, f := OnlyCutOffEscapes(z, Some(f), seen + [input[0]], input[1..]);
      n := n + 1;
      assert input[1..][..n - 1] == input[1..n];
      assert seen + [input[0]] + input[1..n] == seen + input[..n];
    }
  }

  lemma SoSome(so: Option<Progress>, begin: Progress)
    ensures so.Some? ==> so.Or(begin) == so.value
  {
  }

  lemma KeepTotal(f: Progress, number: byte, body: Data)
    requires Keep(f, number, body).Ok?
    ensures Keep(f, number, body).value.total == f.total
  {
  }
}
