/** Ravaged's stream: a payload behind its length in decimal, in brackets, with anything before the bracket
    discarded. */
module Ravaged {
  import opened Wrappers
  import opened Bytes
  import opened Decimal
  import opened Framing
  import opened Pumping
  import opened Strings

  const OPEN: byte := 40
  const SHUT: byte := 41
  const MINUS: byte := 45
  const PLUS: byte := 43
  const UNDERSCORE: byte := 95
  const MAX_PAYLOAD: nat := 1_000_000

  // ---- int(text) ------------------------------------------------------------------------------

  predicate IsBlank(c: byte) {
    9 <= c <= 13 || c == 32
  }

  function TrimLeft(text: Text): (t: Text)
    ensures |t| <= |text|
  {
    if text != [] && IsBlank(text[0]) then TrimLeft(text[1..]) else text
  }

  function TrimRight(text: Text): Text {
    if text != [] && IsBlank(text[|text| - 1]) then TrimRight(text[..|text| - 1]) else text
  }

  predicate NumeralText(text: Text) {
    forall i | 0 <= i < |text| :: IsDigit(text[i]) || text[i] == UNDERSCORE
  }

  /** Digits, with single underscores allowed between them. */
  predicate IsNumeral(text: Text) {
    && text != [] && IsDigit(text[0]) && IsDigit(text[|text| - 1])
    && NumeralText(text)
    && (forall i | 0 < i < |text| :: IsDigit(text[i - 1]) || IsDigit(text[i]))
  }

  function Digits(text: Text): (digits: Text)
    requires NumeralText(text)
    ensures AllDigits(digits)
    ensures AllDigits(text) ==> digits == text
  {
    if text == [] then []
    else (if IsDigit(text[0]) then [text[0]] else []) + Digits(text[1..])
  }

  /** Python's `int(text)` of a byte string; `None` is the `ValueError`. */
  function ParseInt(text: Text): Option<int> {
    ReadSigned(TrimRight(TrimLeft(text)))
  }

  /** A sign or none, and a numeral. */
  function ReadSigned(t: Text): Option<int> {
    var signed := t != [] && (t[0] == PLUS || t[0] == MINUS);
    var numeral := if signed then t[1..] else t;
    if !IsNumeral(numeral) || |Digits(numeral)| > MAX_DIGITS then None
    else
      var n: int := Value(Digits(numeral));
      Some(if signed && t[0] == MINUS then -n else n)
  }

  lemma TrimDigits(text: Text)
    requires IsDigits(text)
    ensures TrimRight(TrimLeft(text)) == text
  {
  }

  lemma SignedDigits(text: Text)
    requires IsDigits(text) && |text| <= MAX_DIGITS
    ensures ReadSigned(text) == Some(Value(text))
  {
    hide Value, Digits;
    assert IsDigit(text[0]);
  }

  /** Reading back a number that was printed. */
  lemma ParseShow(n: nat)
    requires |Show(n)| <= MAX_DIGITS
    ensures ParseInt(Show(n)) == Some(n)
  {
    hide Show, Value, ReadSigned, TrimLeft, TrimRight;
    TrimDigits(Show(n));
    SignedDigits(Show(n));
    ValueShow(n);
  }

  /** Tab, line feed, vertical tab, form feed, return and space: white space in a byte string. */
  predicate White(c: byte) {
    c in {9, 10, 11, 12, 13, 32}
  }

  predicate AllBlank(text: Text) {
    forall c | c in text :: White(c)
  }

  /** Digits at both ends, and no underscore next to another. */
  predicate Grouped(text: Text) {
    && text != [] && 48 <= text[0] <= 57 && 48 <= text[|text| - 1] <= 57
    && (forall i | 0 <= i < |text| :: 48 <= text[i] <= 57 || text[i] == 95)
    && (forall i | 0 < i < |text| :: text[i - 1] == 95 ==> text[i] != 95)
  }

  lemma {:induction false} TrimLeftExactly(text: Text) returns (a: Text)
    ensures text == a + TrimLeft(text) && AllBlank(a)
    ensures TrimLeft(text) != [] ==> !White(TrimLeft(text)[0])
  {
    a := [];
    if text != [] && IsBlank(text[0]) {
      a := TrimLeftExactly(text[1..]);
      a := [text[0]] + a;
      assert text == [text[0]] + text[1..];
    }
  }

  lemma {:induction false} TrimRightExactly(text: Text) returns (b: Text)
    ensures text == TrimRight(text) + b && AllBlank(b)
    ensures var t := TrimRight(text); t != [] ==> !White(t[|t| - 1]) && t[0] == text[0]
  {
    b := [];
    if text != [] && IsBlank(text[|text| - 1]) {
      var front, last := text[..|text| - 1], text[|text| - 1];
      b := TrimRightExactly(front);
      b := b + [last];
      assert text == front + [last];
    }
  }

  /** `int` of a byte string takes white space off both ends, then one sign, and reads what is left when it is digits
      with single underscores between them, 4300 digits at most. */
  lemma ParseIntExactly(text: Text) returns (a: Text, sign: Text, numeral: Text, b: Text)
    ensures text == a + (sign + numeral) + b && AllBlank(a) && AllBlank(b)
    ensures sign == [] || sign == [PLUS] || sign == [MINUS]
    ensures sign == [] && numeral != [] ==> numeral[0] != PLUS && numeral[0] != MINUS && !White(numeral[0])
    ensures numeral != [] ==> !White(numeral[|numeral| - 1])
    ensures ParseInt(text) == Denoted(sign, numeral)
  {
    hide White, AllBlank, TrimLeft, TrimRight, ReadSigned, Denoted;
    a := TrimLeftExactly(text);
    b := TrimRightExactly(TrimLeft(text));
    sign, numeral := SignedExactly(TrimRight(TrimLeft(text)));
  }

  /** The number a sign and a numeral denote, if they do. */
  function Denoted(sign: Text, numeral: Text): Option<int> {
    if !Grouped(numeral) || |Digits(numeral)| > MAX_DIGITS then None
    else if sign == [MINUS] then Some(-(Value(Digits(numeral)) as int))
    else Some(Value(Digits(numeral)))
  }

  lemma SignedExactly(t: Text) returns (sign: Text, numeral: Text)
    ensures t == sign + numeral && ReadSigned(t) == Denoted(sign, numeral)
    ensures sign == [] || sign == [PLUS] || sign == [MINUS]
    ensures sign == [] && numeral != [] ==> numeral[0] != PLUS && numeral[0] != MINUS
  {
    hide Value, Digits, IsNumeral, Grouped;
    if t != [] && (t[0] == PLUS || t[0] == MINUS) {
      sign, numeral := t[..1], t[1..];
    } else {
      sign, numeral := [], t;
      assert [] + t == t;
    }
    NumeralGrouped(numeral);
  }

  lemma NumeralGrouped(text: Text)
    ensures IsNumeral(text) <==> Grouped(text)
  {
  }

  lemma NumeralJoin(text: Text, rest: Text)
    requires NumeralText(text) && NumeralText(rest)
    ensures NumeralText(text + rest) && (text != [] ==> NumeralText(text[1..]))
  {
  }

  /** The digits of a numeral are what is left of it without its underscores. */
  lemma {:induction false} DigitsOf(text: Text, rest: Text)
    requires NumeralText(text) && NumeralText(rest)
    ensures NumeralText(text + rest) && Digits(text + rest) == Digits(text) + Digits(rest)
    decreases |text|
  {
    hide IsDigit, NumeralText;
    NumeralJoin(text, rest);
    if text == [] {
      assert text + rest == rest;
    } else {
      assert (text + rest)[1..] == text[1..] + rest;
      DigitsOf(text[1..], rest);
    }
  }

  // ---- the frame reader -----------------------------------------------------------------------

  /** `decode`: more bytes needed, one payload and the rest, or a header that is no plausible length. */
  function ReadFrame(buffer: Data): Step<Data> {
    match Find(buffer, OPEN)
    case None => More
    case Some(start) =>
      var b := buffer[start..];
      match Find(b, SHUT)
      case None => More
      case Some(end) =>
        if end == 0 then Bad
        else
          match ParseInt(b[1..end])
          case None => Bad
          case Some(size) =>
            if size < 0 || size > MAX_PAYLOAD then Bad
            else if |b| < end + 1 + size then More
            else Got(b[end + 1..end + 1 + size], b[end + 1 + size..])
  }

  lemma ReadFrameStable()
    ensures Stable(ReadFrame)
  {
    forall x: Data, y: Data
      ensures ReadFrame(x).Got? ==> ReadFrame(x + y) == Got(ReadFrame(x).payload, ReadFrame(x).rest + y)
      ensures ReadFrame(x).Bad? ==> ReadFrame(x + y).Bad?
    {
      if !ReadFrame(x).More? {
        MoreBehind(x, y);
      }
    }
  }

  lemma MoreBehind(x: Data, y: Data)
    requires !ReadFrame(x).More?
    ensures ReadFrame(x).Got? ==> ReadFrame(x + y) == Got(ReadFrame(x).payload, ReadFrame(x).rest + y)
    ensures ReadFrame(x).Bad? ==> ReadFrame(x + y).Bad?
  {
    hide Find, ParseInt;
    FindMore(x, y, OPEN);
    var start := Find(x, OPEN).value;
    var b := x[start..];
    assert (x + y)[start..] == b + y;
    FindMore(b, y, SHUT);
    var end := Find(b, SHUT).value;
    if end > 0 {
      assert (b + y)[1..end] == b[1..end];
      var size := ParseInt(b[1..end]);
      if size.Some? && 0 <= size.value <= MAX_PAYLOAD {
        var stop := end + 1 + size.value;
        assert (b + y)[end + 1..stop] == b[end + 1..stop];
        assert (b + y)[stop..] == b[stop..] + y;
      }
    }
  }

  // ---- the server's half ----------------------------------------------------------------------

  /** The frame `_send` writes. */
  function Frame(payload: Data): Data {
    [OPEN] + Show(|payload|) + [SHUT] + payload
  }

  lemma {:induction false} DigitsNotMarks(text: Text)
    requires AllDigits(text)
    ensures OPEN !in text && SHUT !in text
  {
  }

  /** Where the reader finds the parts of a frame, junk and all. */
  lemma FrameParts(junk: Data, payload: Data, more: Data)
    requires OPEN !in junk
    ensures var x := junk + Frame(payload) + more;
            var b := Frame(payload) + more;
            var end := 1 + |Show(|payload|)|;
            && Find(x, OPEN) == Some(|junk|) && x[|junk|..] == b
            && Find(b, SHUT) == Some(end) && b[1..end] == Show(|payload|)
            && |b| == end + 1 + |payload| + |more|
            && b[end + 1..end + 1 + |payload|] == payload && b[end + 1 + |payload|..] == more
  {
    hide Find, Show;
    var digits := Show(|payload|);
    var b := Frame(payload) + more;
    assert junk + Frame(payload) + more == junk + b;
    FindPast(junk, b, OPEN);
    DigitsNotMarks(digits);
    assert b == ([OPEN] + digits) + ([SHUT] + payload + more);
    FindPast([OPEN] + digits, [SHUT] + payload + more, SHUT);
  }

  /** The printed length reads back, up to the longest payload a client believes. */
  lemma LengthReads(n: nat)
    requires n <= MAX_PAYLOAD
    ensures ParseInt(Show(n)) == Some(n)
  {
    assert Power10(7) == 10_000_000;
    ShowLength(n, 7);
    ParseShow(n);
  }

  /** A frame, behind any junk without a bracket, gives back its payload whatever follows; one longer than a client
      believes is refused. */
  lemma FrameRead(junk: Data, payload: Data, more: Data)
    requires OPEN !in junk
    ensures |payload| <= MAX_PAYLOAD ==> ReadFrame(junk + Frame(payload) + more) == Got(payload, more)
    ensures |payload| > MAX_PAYLOAD ==> ReadFrame(junk + Frame(payload) + more).Bad?
  {
    hide Find, Show, ParseInt;
    FrameParts(junk, payload, more);
    if |payload| <= MAX_PAYLOAD {
      LengthReads(|payload|);
    } else {
      LongLength(|payload|);
    }
  }

  lemma LongLength(n: nat)
    requires n > MAX_PAYLOAD
    ensures ParseInt(Show(n)).None? || ParseInt(Show(n)).value > MAX_PAYLOAD
  {
    TrimDigits(Show(n));
    ValueShow(n);
  }

  /** And the reader waits until all of it is there. */
  lemma FrameWaits(junk: Data, payload: Data, cut: nat)
    requires OPEN !in junk && |payload| <= MAX_PAYLOAD && cut < |junk + Frame(payload)|
    ensures ReadFrame((junk + Frame(payload))[..cut]).More?
  {
    hide Find, ParseInt, Show;
    var whole := junk + Frame(payload);
    var x, y := whole[..cut], whole[cut..];
    FrameRead(junk, payload, []);
    assert x + y == whole == whole + [];
    if !ReadFrame(x).More? {
      MoreBehind(x, y);
      assert false;
    }
  }

  /** Payloads of any bytes, each framed and with junk before it, cut into any chunks: a client that pumps until nothing
      is left has had exactly those payloads, in order. */
  lemma PayloadsDelivered(input: seq<Recv>, pumps: nat, junk: seq<Data>, payloads: seq<Data>, tail: Data)
    requires |junk| == |payloads| && OPEN !in tail && pumps >= |input|
    requires forall i | 0 <= i < |payloads| :: OPEN !in junk[i] && |payloads[i]| <= MAX_PAYLOAD
    requires Heard(input)
          == Flatten(seq(|payloads|, i requires 0 <= i < |payloads| => junk[i] + Frame(payloads[i]))) + tail
    ensures Consumes(ReadFrame)
    ensures PumpTimes(ReadFrame, true, Opened(input), pumps).1 == payloads
  {
    hide PumpTimes, Heard, Flatten;
    ReadFrameStable();
    var frames := seq(|payloads|, i requires 0 <= i < |payloads| => junk[i] + Frame(payloads[i]));
    forall i | 0 <= i < |frames|
      ensures Frames(ReadFrame, frames[i], payloads[i])
    {
      forall y: Data
        ensures ReadFrame(frames[i] + y) == Got(payloads[i], y)
      {
        FrameRead(junk[i], payloads[i], y);
      }
    }
    AllDelivered(ReadFrame, true, input, pumps, frames, payloads, tail);
  }
}
