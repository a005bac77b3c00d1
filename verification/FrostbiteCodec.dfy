/** The Frostbite RCON packet: words inside a packet, flags inside the sequence word, packets inside a TCP stream.

    Words are byte strings here; the UTF-8 conversion at either end is not modelled.
  */
module FrostbiteCodec {
  import opened Wrappers
  import opened Bytes
  import opened Framing

  type Word = Data

  datatype Packet = Packet(fromServer: bool, isResponse: bool, sequence: nat, words: seq<Word>)

  /** `Overflow` is `struct.error`; `Short` is the "shorter than its own header" failure. */
  datatype CodecError = Overflow | Short

  const FROM_SERVER: nat := 0x8000_0000
  const IS_RESPONSE: nat := 0x4000_0000
  const SEQUENCE_LIMIT: nat := 0x4000_0000
  const HEADER_SIZE: nat := 12

  // ---- encoding -------------------------------------------------------------------------------

  ghost predicate Packable(words: seq<Word>) {
    forall w | w in words :: |w| < U32_LIMIT
  }

  /** Length, bytes and a NUL for each word. */
  ghost function WordBytes(words: seq<Word>): Data
    requires Packable(words)
  {
    if words == [] then [] else PackU32(|words[0]|) + words[0] + [0] + WordBytes(words[1..])
  }

  /** What the words take up on the wire. */
  ghost function BodySize(words: seq<Word>): nat {
    if words == [] then 0 else |words[0]| + 5 + BodySize(words[1..])
  }

  lemma {:induction false} WordBytesSize(words: seq<Word>)
    ensures Packable(words) ==> |WordBytes(words)| == BodySize(words)
    ensures |words| <= BodySize(words)
    ensures BodySize(words) < U32_LIMIT ==> Packable(words)
  {
    if words != [] {
      WordBytesSize(words[1..]);
      assert words == [words[0]] + words[1..];
    }
  }

  lemma {:induction false} WordBytesAppend(words: seq<Word>, word: Word)
    requires Packable(words + [word])
    ensures Packable(words)
    ensures WordBytes(words + [word]) == WordBytes(words) + (PackU32(|word|) + word + [0])
  {
    if words == [] {
      assert words + [word] == [word];
      assert WordBytes([word]) == PackU32(|word|) + word + [0] + WordBytes([]);
    } else {
      assert forall w | w in words :: w in words + [word];
      assert (words + [word])[1..] == words[1..] + [word];
      WordBytesAppend(words[1..], word);
      var first := PackU32(|words[0]|) + words[0] + [0];
      var last := PackU32(|word|) + word + [0];
      assert first + (WordBytes(words[1..]) + last) == first + WordBytes(words[1..]) + last;
    }
  }

  method EncodeWords(words: seq<Word>) returns (out: Result<Data, CodecError>)
    ensures out.Ok? <==> Packable(words)
    ensures out.Ok? ==> out.value == WordBytes(words)
  {
    var buffer: Data := [];
    for i := 0 to |words|
      invariant Packable(words[..i]) && buffer == WordBytes(words[..i])
    {
      var word := words[i];
      if |word| >= U32_LIMIT {
        return Err(Overflow);
      }
      assert words[..i + 1] == words[..i] + [word];
      WordBytesAppend(words[..i], word);
      buffer := buffer + (PackU32(|word|) + word + [0]);
    }
    assert words[..|words|] == words;
    return Ok(buffer);
  }

  /** The sequence word: 30 bits of number, then the two flags on top. */
  function Header(sequence: int, fromServer: bool, response: bool): (h: nat)
    ensures h < U32_LIMIT
  {
    sequence % SEQUENCE_LIMIT + (if fromServer then FROM_SERVER else 0) + (if response then IS_RESPONSE else 0)
  }

  /** Three header fields and a body. */
  function Layout(header: nat, size: nat, count: nat, body: Data): (b: Data)
    requires header < U32_LIMIT && size < U32_LIMIT && count < U32_LIMIT
    ensures |b| == HEADER_SIZE + |body| && b[HEADER_SIZE..] == body
  {
    PackU32(header) + PackU32(size) + PackU32(count) + body
  }

  /** An encoded packet, when the size field can hold its size. */
  ghost function Wire(words: seq<Word>, sequence: int, fromServer: bool, response: bool): (b: Data)
    requires BodySize(words) + HEADER_SIZE < U32_LIMIT
    ensures |b| == BodySize(words) + HEADER_SIZE
  {
    WordBytesSize(words);
    Layout(Header(sequence, fromServer, response), BodySize(words) + HEADER_SIZE, |words|, WordBytes(words))
  }

  /** Framing succeeds exactly when the packet's own size fits its size field. */
  method Encode(words: seq<Word>, sequence: int, fromServer: bool, response: bool)
    returns (out: Result<Data, CodecError>)
    ensures out.Ok? <==> BodySize(words) + HEADER_SIZE < U32_LIMIT
    ensures out.Ok? ==> out.value == Wire(words, sequence, fromServer, response)
  {
    WordBytesSize(words);
    var body := EncodeWords(words);
    if body.Err? {
      return Err(Overflow);
    }
    var size := |body.value| + HEADER_SIZE;
    if size >= U32_LIMIT {
      return Err(Overflow);
    }
    return Ok(Layout(Header(sequence, fromServer, response), size, |words|, body.value));
  }

  // ---- decoding -------------------------------------------------------------------------------

  /** A Python slice: both ends are cut back to the length. */
  function Slice(b: Data, start: nat, end: nat): Data
    requires start <= end
  {
    b[if start < |b| then start else |b|..if end < |b| then end else |b|]
  }

  /** Up to `count` words from `offset` on; a truncated packet gives the words that did arrive. */
  function WordsAt(packet: Data, offset: nat, count: nat): seq<Word>
    decreases count
  {
    if count == 0 || offset + 4 > |packet| then []
    else
      var length := ReadU32(packet, offset);
      [Slice(packet, offset + 4, offset + 4 + length)] + WordsAt(packet, offset + 4 + length + 1, count - 1)
  }

  method DecodeWords(packet: Data, count: nat) returns (words: seq<Word>)
    ensures words == WordsAt(packet, HEADER_SIZE, count)
  {
    hide ReadU32, Slice;
    words := [];
    var offset: nat := HEADER_SIZE;
    for i := 0 to count
      invariant words + WordsAt(packet, offset, count - i) == WordsAt(packet, HEADER_SIZE, count)
    {
      if offset + 4 > |packet| {
        break;
      }
      var length := ReadU32(packet, offset);
      var start := offset + 4;
      words := words + [Slice(packet, start, start + length)];
      offset := start + length + 1;
    }
  }

  /** The flags and number in a sequence word. */
  function FromServerBit(header: nat): bool { header / FROM_SERVER % 2 == 1 }

  function IsResponseBit(header: nat): bool { header / IS_RESPONSE % 2 == 1 }

  function Decode(packet: Data): Result<Packet, CodecError> {
    if |packet| < HEADER_SIZE then Err(Short)
    else
      var header := ReadU32(packet, 0);
      Ok(Packet(FromServerBit(header), IsResponseBit(header), header % SEQUENCE_LIMIT,
                WordsAt(packet, HEADER_SIZE, ReadU32(packet, 8))))
  }

  /** `None`, a size, or the exception for a size smaller than the header. */
  datatype Length = Unknown | Known(size: nat) | Nonsense

  function PacketLength(buffer: Data): (l: Length)
    ensures l.Known? ==> HEADER_SIZE <= l.size <= |buffer|
  {
    if |buffer| < 8 then Unknown
    else
      var size := ReadU32(buffer, 4);
      if size < HEADER_SIZE then Nonsense
      else if |buffer| >= size then Known(size)
      else Unknown
  }

  // ---- what holds of the two together ---------------------------------------------------------

  lemma OneWord(before: Data, word: Word, after: Data, count: nat)
    requires |word| < U32_LIMIT && count > 0
    ensures var taken := before + (PackU32(|word|) + word + [0]);
            WordsAt(taken + after, |before|, count) == [word] + WordsAt(taken + after, |taken|, count - 1)
  {
    hide PackU32, ReadU32;
    var field := PackU32(|word|);
    var packet := before + (field + word + [0]) + after;
    assert packet == before + field + (word + [0] + after);
    ReadPacked(before, |word|, word + [0] + after);
    assert packet[|before| + 4..|before| + 4 + |word|] == word;
  }

  lemma {:induction false} WordsRoundTrip(before: Data, words: seq<Word>)
    requires Packable(words)
    ensures WordsAt(before + WordBytes(words), |before|, |words|) == words
    decreases |words|
  {
    hide PackU32, ReadU32, Slice;
    if words != [] {
      var taken := before + (PackU32(|words[0]|) + words[0] + [0]);
      assert before + WordBytes(words) == taken + WordBytes(words[1..]);
      OneWord(before, words[0], WordBytes(words[1..]), |words|);
      WordsRoundTrip(taken, words[1..]);
      assert words == [words[0]] + words[1..];
    }
  }

  lemma HeaderBits(sequence: nat, fromServer: bool, response: bool)
    requires sequence < SEQUENCE_LIMIT
    ensures var h := Header(sequence, fromServer, response);
            FromServerBit(h) == fromServer && IsResponseBit(h) == response && h % SEQUENCE_LIMIT == sequence
  {
  }

  lemma ThreeFields(f0: Data, f1: Data, f2: Data, body: Data, more: Data)
    requires |f0| == |f1| == |f2| == 4
    ensures var b := f0 + f1 + f2 + body + more;
            b[0..4] == f0 && b[4..8] == f1 && b[8..12] == f2
  {
  }

  lemma LayoutFields(h: nat, n: nat, c: nat, body: Data, more: Data)
    requires h < U32_LIMIT && n < U32_LIMIT && c < U32_LIMIT
    ensures var b := Layout(h, n, c, body) + more;
            ReadU32(b, 0) == h && ReadU32(b, 4) == n && ReadU32(b, 8) == c
  {
    hide PackU32, UnpackU32;
    ThreeFields(PackU32(h), PackU32(n), PackU32(c), body, more);
    UnpackPack(h);
    UnpackPack(n);
    UnpackPack(c);
  }

  lemma WireFields(words: seq<Word>, sequence: int, fromServer: bool, response: bool, more: Data)
    requires BodySize(words) + HEADER_SIZE < U32_LIMIT
    ensures var b := Wire(words, sequence, fromServer, response) + more;
            && ReadU32(b, 0) == Header(sequence, fromServer, response)
            && ReadU32(b, 4) == BodySize(words) + HEADER_SIZE
            && ReadU32(b, 8) == |words|
  {
    hide Layout, ReadU32, Header, WordBytes, BodySize, Packable;
    WordBytesSize(words);
    LayoutFields(Header(sequence, fromServer, response), BodySize(words) + HEADER_SIZE, |words|, WordBytes(words),
                 more);
  }

  /** Decoding an encoded packet gives back its words, its 30-bit number and both flags. */
  lemma CodecRoundTrip(words: seq<Word>, sequence: nat, fromServer: bool, response: bool)
    requires BodySize(words) + HEADER_SIZE < U32_LIMIT && sequence < SEQUENCE_LIMIT
    ensures Decode(Wire(words, sequence, fromServer, response))
         == Ok(Packet(fromServer, response, sequence, words))
  {
    var b := Wire(words, sequence, fromServer, response);
    WordBytesSize(words);
    WireFields(words, sequence, fromServer, response, []);
    assert b + [] == b;
    HeaderBits(sequence, fromServer, response);
    var head := b[..HEADER_SIZE];
    assert b == head + WordBytes(words);
    WordsRoundTrip(head, words);
  }

  /** The length of an encoded packet is known as soon as all of it is there, and not a byte sooner. */
  lemma LengthExact(words: seq<Word>, sequence: int, fromServer: bool, response: bool, more: Data, cut: nat)
    requires BodySize(words) + HEADER_SIZE < U32_LIMIT
    requires cut < |Wire(words, sequence, fromServer, response)|
    ensures var b := Wire(words, sequence, fromServer, response);
            PacketLength(b + more) == Known(|b|) && PacketLength(b[..cut]) == Unknown
  {
    var b := Wire(words, sequence, fromServer, response);
    WireFields(words, sequence, fromServer, response, more);
    if cut >= 8 {
      WireFields(words, sequence, fromServer, response, []);
      assert b + [] == b;
      assert b[..cut][4..8] == b[4..8];
    }
  }

  /** The stream reader: what `_receive` takes off the front of its buffer. */
  function ReadPacket(buffer: Data): Step<Packet> {
    match PacketLength(buffer)
    case Unknown => More
    case Nonsense => Bad
    case Known(size) => Got(Decode(buffer[..size]).value, buffer[size..])
  }

  lemma ReadPacketStable()
    ensures Stable(ReadPacket)
  {
    forall x: Data, y: Data
      ensures ReadPacket(x).Got? ==> ReadPacket(x + y) == Got(ReadPacket(x).payload, ReadPacket(x).rest + y)
      ensures ReadPacket(x).Bad? ==> ReadPacket(x + y).Bad?
    {
      if |x| >= 8 {
        assert (x + y)[4..8] == x[4..8];
        match PacketLength(x)
        case Known(size) =>
          assert (x + y)[..size] == x[..size];
          assert (x + y)[size..] == x[size..] + y;
        case _ =>
      }
    }
  }

  lemma WireFrames(words: seq<Word>, sequence: nat, fromServer: bool, response: bool)
    requires BodySize(words) + HEADER_SIZE < U32_LIMIT && sequence < SEQUENCE_LIMIT
    ensures Frames(ReadPacket, Wire(words, sequence, fromServer, response),
                   Packet(fromServer, response, sequence, words))
  {
    var b := Wire(words, sequence, fromServer, response);
    forall y: Data
      ensures ReadPacket(b + y) == Got(Packet(fromServer, response, sequence, words), y)
    {
      LengthExact(words, sequence, fromServer, response, y, 0);
      CodecRoundTrip(words, sequence, fromServer, response);
      assert (b + y)[..|b|] == b && (b + y)[|b|..] == y;
    }
  }

  ghost predicate Sendable(p: Packet) {
    BodySize(p.words) + HEADER_SIZE < U32_LIMIT && p.sequence < SEQUENCE_LIMIT
  }

  ghost function WireOf(p: Packet): Data
    requires Sendable(p)
  {
    Wire(p.words, p.sequence, p.fromServer, p.isResponse)
  }

  /** Any packets, sent back to back and cut into any chunks, are read back as the same packets in order. */
  lemma StreamRoundTrip(packets: seq<Packet>, frames: seq<Data>, chunks: seq<Data>)
    requires |frames| == |packets|
    requires forall i | 0 <= i < |packets| :: Sendable(packets[i]) && frames[i] == WireOf(packets[i])
    requires Flatten(chunks) == Flatten(frames)
    ensures Consumes(ReadPacket)
    ensures ReadChunks(ReadPacket, [], chunks) == Parsed(packets, [], false)
  {
    ReadPacketStable();
    forall i | 0 <= i < |frames|
      ensures Frames(ReadPacket, frames[i], packets[i])
    {
      var p := packets[i];
      WireFrames(p.words, p.sequence, p.fromServer, p.isResponse);
    }
    ReadFrames(ReadPacket, frames, packets, []);
    assert Flatten(frames) + [] == [] + Flatten(chunks);
    ChunkingIrrelevant(ReadPacket, [], chunks);
  }

  /** Words byte by byte: each behind its length, low byte first, and in front of a NUL. */
  lemma WordsInBytes()
    ensures Packable([[79, 75], []]) && WordBytes([[79, 75], []]) == [2, 0, 0, 0, 79, 75, 0, 0, 0, 0, 0, 0]
  {
    var words: seq<Word> := [[79, 75], []];
    assert words[1..] == [[]] && words[1..][1..] == [];
    assert WordBytes([]) == [];
    assert WordBytes([[]]) == [0, 0, 0, 0, 0];
  }

  /** A header byte by byte: the number with the flags in its top two bits, the size of the packet and the count of its
      words, low bytes first. */
  lemma HeaderInBytes(body: Data)
    ensures Layout(Header(258, true, false), 300, 3, body) == [2, 1, 0, 0x80, 44, 1, 0, 0, 3, 0, 0, 0] + body
    ensures Layout(Header(1, false, true), 12, 0, body) == [1, 0, 0, 0x40, 12, 0, 0, 0, 0, 0, 0, 0] + body
  {
    assert PackU32(0x8000_0102) == [2, 1, 0, 0x80] && PackU32(0x4000_0001) == [1, 0, 0, 0x40];
    assert PackU32(300) == [44, 1, 0, 0] && PackU32(12) == [12, 0, 0, 0];
    assert PackU32(3) == [3, 0, 0, 0] && PackU32(0) == [0, 0, 0, 0];
  }
}
