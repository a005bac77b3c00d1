/** The order of versions and tags, and the update that order offers. */
module Version {
  import opened Wrappers
  import opened Bytes
  import opened Decimal
  import opened Strings

  const PARTS: nat := 4
  const DOT: byte := 46
  const UNKNOWN_STAGE: nat := 0
  const FINAL_STAGE: nat := 4
  const POST_STAGE: nat := 5

  /** What versions are ordered by: the numbers, the stage, the stage's own number. */
  datatype Key = Key(numbers: seq<nat>, stage: nat, ordinal: nat)

  // ---- the order ------------------------------------------------------------------------------

  predicate NumbersLess(a: seq<nat>, b: seq<nat>)
    requires |a| == |b|
  {
    a != [] && (a[0] < b[0] || (a[0] == b[0] && NumbersLess(a[1..], b[1..])))
  }

  predicate Less(a: Key, b: Key)
    requires |a.numbers| == |b.numbers|
  {
    || NumbersLess(a.numbers, b.numbers)
    || (a.numbers == b.numbers && (a.stage < b.stage || (a.stage == b.stage && a.ordinal < b.ordinal)))
  }

  lemma {:induction false} NumbersTotal(a: seq<nat>, b: seq<nat>)
    requires |a| == |b|
    ensures NumbersLess(a, b) || NumbersLess(b, a) || a == b
    ensures !(NumbersLess(a, b) && NumbersLess(b, a))
    ensures NumbersLess(a, b) || NumbersLess(b, a) ==> a != b
  {
    if a != [] {
      NumbersTotal(a[1..], b[1..]);
      assert a == [a[0]] + a[1..] && b == [b[0]] + b[1..];
    }
  }

  lemma {:induction false} NumbersTransitive(a: seq<nat>, b: seq<nat>, c: seq<nat>)
    requires |a| == |b| == |c| && NumbersLess(a, b) && NumbersLess(b, c)
    ensures NumbersLess(a, c)
  {
    if a[0] == b[0] == c[0] {
      NumbersTransitive(a[1..], b[1..], c[1..]);
    }
  }

  /** Not less is a total preorder. */
  lemma NotLessTransitive(a: Key, b: Key, c: Key)
    requires |a.numbers| == |b.numbers| == |c.numbers| && !Less(b, a) && !Less(c, b)
    ensures !Less(c, a)
  {
    NumbersTotal(a.numbers, b.numbers);
    NumbersTotal(b.numbers, c.numbers);
    NumbersTotal(a.numbers, c.numbers);
    if NumbersLess(a.numbers, b.numbers) && NumbersLess(b.numbers, c.numbers) {
      NumbersTransitive(a.numbers, b.numbers, c.numbers);
    }
  }

  // ---- reading a version ----------------------------------------------------------------------

  predicate IsLetter(c: byte) {
    65 <= c <= 90 || 97 <= c <= 122
  }

  /** How many digits, or letters, the text starts with. */
  function DigitsAhead(text: Text): (n: nat)
    ensures n <= |text| && AllDigits(text[..n]) && (n < |text| ==> !IsDigit(text[n]))
  {
    if text == [] || !IsDigit(text[0]) then 0
    else
      var n := DigitsAhead(text[1..]);
      assert text[..n + 1] == [text[0]] + text[1..][..n];
      n + 1
  }

  function LettersAhead(text: Text): (n: nat)
    ensures n <= |text| && (n < |text| ==> !IsLetter(text[n]))
  {
    if text == [] || !IsLetter(text[0]) then 0 else 1 + LettersAhead(text[1..])
  }

  /** Digits, as they stand in the text. */
  type Digits = text: Text | AllDigits(text) witness []

  /** `\d+(?:\.\d+)*` at the start of the text: the numbers and what follows them. */
  function ReadNumbers(text: Text): (r: (seq<Digits>, Text))
    ensures |r.1| <= |text|
    decreases |text|
  {
    var n := DigitsAhead(text);
    if n == 0 then ([], text)
    else if |text| > n + 1 && text[n] == DOT && IsDigit(text[n + 1]) then
      var (more, rest) := ReadNumbers(text[n + 1..]);
      ([text[..n]] + more, rest)
    else ([text[..n]], text[n..])
  }

  predicate IsSeparator(c: byte) {
    c == 45 || c == DOT || c == 95 || c == 43
  }

  /** `(?:[-._+]?([A-Za-z]+)\.?(\d*))?`: the marker in lower case and its number; no marker is the empty one. */
  function ReadSuffix(text: Text): (Text, Digits) {
    var t := if text != [] && IsSeparator(text[0]) then text[1..] else text;
    var n := LettersAhead(t);
    if n == 0 then ([], [])
    else
      var u := if n < |t| && t[n] == DOT then t[n + 1..] else t[n..];
      (Lower(t[..n]), u[..DigitsAhead(u)])
  }

  function Pad(numbers: seq<nat>): (padded: seq<nat>)
    ensures |padded| == PARTS
  {
    if |numbers| >= PARTS then numbers[..PARTS] else numbers + seq(PARTS - |numbers|, i => 0)
  }

  const STAGES: map<Text, nat> := map[
    Ascii("dev") := 0, Ascii("a") := 1, Ascii("alpha") := 1, Ascii("b") := 2, Ascii("beta") := 2,
    Ascii("c") := 3, Ascii("rc") := 3, Ascii("pre") := 3, Ascii("preview") := 3,
    Ascii("post") := POST_STAGE, Ascii("r") := POST_STAGE, Ascii("rev") := POST_STAGE]

  function Stage(marker: Text): nat {
    if marker == [] then FINAL_STAGE else if marker in STAGES then STAGES[marker] else UNKNOWN_STAGE
  }

  /** Every run of digits in a text that is no version. */
  function AllNumbers(text: Text): seq<Digits>
    decreases |text|
  {
    if text == [] then []
    else
      var n := DigitsAhead(text);
      if n == 0 then AllNumbers(text[1..]) else [text[..n]] + AllNumbers(text[n..])
  }

  /** What is read out of a text before any of it is converted. */
  datatype Reading = Reading(numbers: seq<Digits>, marker: Text, ordinal: Digits)

  function Read(text: Text): Reading {
    var t := Strip(text);
    var u := if t != [] && t[0] == 118 then t[1..] else t;
    var (numbers, rest) := ReadNumbers(u);
    if numbers == [] then Reading(AllNumbers(text), [], [])
    else
      var (marker, ordinal) := ReadSuffix(rest);
      Reading(numbers, marker, ordinal)
  }

  function Values(numbers: seq<Digits>): (values: seq<nat>)
    ensures |values| == |numbers|
  {
    seq(|numbers|, i requires 0 <= i < |numbers| => Value(numbers[i]))
  }

  function KeyFrom(r: Reading): (key: Key)
    ensures |key.numbers| == PARTS
  {
    Key(Pad(Values(r.numbers)), Stage(r.marker), Value(r.ordinal))
  }

  /** Whether `int` takes what is converted: the first four numbers and the ordinal. */
  predicate Converts(r: Reading) {
    && (forall i | 0 <= i < |r.numbers| && i < PARTS :: |r.numbers[i]| <= MAX_DIGITS)
    && |r.ordinal| <= MAX_DIGITS
  }

  function KeyOf(text: Text): (key: Key)
    ensures |key.numbers| == PARTS
  {
    KeyFrom(Read(text))
  }

  predicate Readable(text: Text) {
    Converts(Read(text))
  }

  /** `version_key`. */
  function VersionKey(text: Text): Result<Key, Raised> {
    if Readable(text) then Ok(KeyOf(text)) else Err(ValueError)
  }

  /** `_version_lt`. */
  function VersionLess(left: Text, right: Text): Result<bool, Raised> {
    if Readable(left) && Readable(right) then Ok(Less(KeyOf(left), KeyOf(right))) else Err(ValueError)
  }

  // ---- versions as they are written -----------------------------------------------------------

  /** A marker with what may stand around it: `-rc.1`, `b2`, `.post3`, `-dev`. */
  datatype Suffix = Suffix(separator: Option<byte>, marker: Text, dotted: bool, ordinal: Option<nat>)

  datatype Written = Written(v: bool, numbers: seq<nat>, suffix: Option<Suffix>)

  predicate WellWritten(w: Written) {
    && w.numbers != []
    && (w.suffix.Some? ==>
          && w.suffix.value.marker != [] && (forall c | c in w.suffix.value.marker :: 97 <= LowerByte(c) <= 122)
          && (w.suffix.value.separator.Some? ==> IsSeparator(w.suffix.value.separator.value)))
  }

  function ShowNumbers(numbers: seq<nat>): (text: Text)
    requires numbers != []
    ensures text != [] && IsDigit(text[0]) && IsDigit(text[|text| - 1])
  {
    if |numbers| == 1 then Show(numbers[0]) else Show(numbers[0]) + [DOT] + ShowNumbers(numbers[1..])
  }

  function ShowOrdinal(ordinal: Option<nat>): Digits {
    if ordinal.Some? then Show(ordinal.value) else []
  }

  function ShowSuffix(s: Suffix): Text {
    (if s.separator.Some? then [s.separator.value] else []) + s.marker + (if s.dotted then [DOT] else [])
    + ShowOrdinal(s.ordinal)
  }

  function Write(w: Written): Text
    requires WellWritten(w)
  {
    (if w.v then [118] else []) + ShowNumbers(w.numbers) + (if w.suffix.Some? then ShowSuffix(w.suffix.value) else [])
  }

  lemma {:induction false} DigitsThen(digits: Text, rest: Text)
    requires AllDigits(digits) && (rest == [] || !IsDigit(rest[0]))
    ensures DigitsAhead(digits + rest) == |digits|
  {
    if digits == [] {
      assert digits + rest == rest;
    } else {
      assert (digits + rest)[1..] == digits[1..] + rest;
      DigitsThen(digits[1..], rest);
    }
  }

  lemma {:induction false} LettersThen(letters: Text, rest: Text)
    requires (forall c | c in letters :: IsLetter(c)) && (rest == [] || !IsLetter(rest[0]))
    ensures LettersAhead(letters + rest) == |letters|
  {
    if letters == [] {
      assert letters + rest == rest;
    } else {
      assert letters[0] in letters;
      assert (letters + rest)[1..] == letters[1..] + rest;
      LettersThen(letters[1..], rest);
    }
  }

  /** What follows the numbers goes on with no further one. */
  predicate EndsNumbers(rest: Text) {
    && (rest == [] || !IsDigit(rest[0]))
    && (|rest| > 1 && rest[0] == DOT ==> !IsDigit(rest[1]))
  }

  /** One number, and either a dot with more or what ends them. */
  lemma NumberRead(n: nat, tail: Text)
    requires tail == [] || !IsDigit(tail[0])
    ensures var text := Show(n) + tail;
            var d := DigitsAhead(text);
            d == |Show(n)| > 0 && text[..d] == Show(n) && text[d..] == tail
  {
    DigitsThen(Show(n), tail);
    assert (Show(n) + tail)[..|Show(n)|] == Show(n);
  }

  lemma ReadStep(n: nat, tail: Text)
    requires tail == [] || !IsDigit(tail[0])
    ensures ReadNumbers(Show(n) + tail)
         == if |tail| > 1 && tail[0] == DOT && IsDigit(tail[1])
            then ([Show(n)] + ReadNumbers(tail[1..]).0, ReadNumbers(tail[1..]).1) else ([Show(n)], tail)
  {
    hide Show, DigitsAhead;
    NumberRead(n, tail);
    var text := Show(n) + tail;
    if tail != [] {
      assert text[|Show(n)| + 1..] == tail[1..] && text[|Show(n)|] == tail[0];
    }
  }

  function ShowAll(numbers: seq<nat>): (shown: seq<Digits>)
    ensures |shown| == |numbers|
  {
    seq(|numbers|, i requires 0 <= i < |numbers| => Show(numbers[i]))
  }

  lemma ValuesShown(numbers: seq<nat>)
    ensures Values(ShowAll(numbers)) == numbers
  {
    hide Show, Value;
    forall i | 0 <= i < |numbers|
      ensures Value(ShowAll(numbers)[i]) == numbers[i]
    {
      ValueShow(numbers[i]);
    }
  }

  lemma {:induction false} NumbersRead(numbers: seq<nat>, rest: Text)
    requires numbers != [] && EndsNumbers(rest)
    ensures ReadNumbers(ShowNumbers(numbers) + rest) == (ShowAll(numbers), rest)
    decreases |numbers|
  {
    hide Show, ReadNumbers;
    var n := numbers[0];
    if |numbers| == 1 {
      ReadStep(n, rest);
      assert ShowAll(numbers) == [Show(n)];
    } else {
      var more := ShowNumbers(numbers[1..]) + rest;
      assert ShowNumbers(numbers) + rest == Show(n) + ([DOT] + more);
      ReadStep(n, [DOT] + more);
      assert ([DOT] + more)[1..] == more;
      NumbersRead(numbers[1..], rest);
      assert ShowAll(numbers) == [Show(n)] + ShowAll(numbers[1..]);
    }
  }

  lemma OrdinalRead(ordinal: Option<nat>)
    ensures var number := ShowOrdinal(ordinal);
            && (number == [] || IsDigit(number[0]))
            && number[..DigitsAhead(number)] == number && Value(number) == ordinal.Or(0)
  {
    var number := ShowOrdinal(ordinal);
    DigitsThen(number, []);
    assert number + [] == number && number[..|number|] == number;
    if ordinal.Some? {
      ValueShow(ordinal.value);
    }
  }

  /** A marker, and what stands after it. */
  lemma MarkerRead(marker: Text, dotted: bool, number: Text)
    requires marker != [] && forall c | c in marker :: IsLetter(c)
    requires number == [] || IsDigit(number[0])
    ensures var t := marker + (if dotted then [DOT] else []) + number;
            var n := LettersAhead(t);
            && n == |marker| && t[..n] == marker && IsLetter(t[0])
            && (if n < |t| && t[n] == DOT then t[n + 1..] else t[n..]) == number
  {
    var after := (if dotted then [DOT] else []) + number;
    var t := marker + (if dotted then [DOT] else []) + number;
    assert t == marker + after;
    assert marker[0] in marker;
    LettersThen(marker, after);
    assert t[|marker|..] == after;
  }

  lemma SuffixRead(s: Suffix)
    requires s.marker != [] && forall c | c in s.marker :: IsLetter(c)
    requires s.separator.Some? ==> IsSeparator(s.separator.value)
    ensures ReadSuffix(ShowSuffix(s)) == (Lower(s.marker), ShowOrdinal(s.ordinal))
    ensures EndsNumbers(ShowSuffix(s))
  {
    hide Value, Lower, LettersAhead, DigitsAhead, ShowOrdinal, ShowSuffix;
    var number := ShowOrdinal(s.ordinal);
    var t := s.marker + (if s.dotted then [DOT] else []) + number;
    OrdinalRead(s.ordinal);
    MarkerRead(s.marker, s.dotted, number);
    SuffixText(s);
    assert t == if ShowSuffix(s) != [] && IsSeparator(ShowSuffix(s)[0]) then ShowSuffix(s)[1..] else ShowSuffix(s);
  }

  lemma SuffixText(s: Suffix)
    ensures ShowSuffix(s) == (if s.separator.Some? then [s.separator.value] else [])
                             + (s.marker + (if s.dotted then [DOT] else []) + ShowOrdinal(s.ordinal))
  {
  }

  /** What a version sorts by, read off the way it is written. */
  function KeyWritten(w: Written): Key
    requires WellWritten(w)
  {
    match w.suffix
    case None => Key(Pad(w.numbers), FINAL_STAGE, 0)
    case Some(s) => Key(Pad(w.numbers), Stage(Lower(s.marker)), s.ordinal.Or(0))
  }

  lemma SuffixEnd(s: Suffix)
    requires s.marker != [] && forall c | c in s.marker :: IsLetter(c)
    ensures ShowSuffix(s) != [] && !IsSpace(ShowSuffix(s)[|ShowSuffix(s)| - 1])
  {
    assert s.marker[|s.marker| - 1] in s.marker;
  }

  /** What is read out of a written version. */
  function WrittenReading(w: Written): Reading
    requires WellWritten(w)
  {
    match w.suffix
    case None => Reading(ShowAll(w.numbers), [], [])
    case Some(s) => Reading(ShowAll(w.numbers), Lower(s.marker), ShowOrdinal(s.ordinal))
  }

  lemma MarkerLetters(marker: Text)
    requires forall c | c in marker :: 97 <= LowerByte(c) <= 122
    ensures forall c | c in marker :: IsLetter(c)
  {
  }

  lemma ReadWritten(w: Written)
    requires WellWritten(w)
    ensures Read(Write(w)) == WrittenReading(w)
  {
    hide Strip, ReadNumbers, ReadSuffix, ShowSuffix, ShowNumbers, ShowAll, Lower, AllNumbers;
    var tail := if w.suffix.Some? then ShowSuffix(w.suffix.value) else [];
    var text := Write(w);
    if w.suffix.Some? {
      MarkerLetters(w.suffix.value.marker);
      SuffixRead(w.suffix.value);
      SuffixEnd(w.suffix.value);
    } else {
      SuffixNone();
    }
    StripPlain(text);
    NumbersRead(w.numbers, tail);
    assert (if w.v then text[1..] else text) == ShowNumbers(w.numbers) + tail;
  }

  lemma NoMarker()
    ensures Stage([]) == FINAL_STAGE && Value([]) == 0
  {
  }

  lemma SuffixNone()
    ensures ReadSuffix([]) == ([], [])
  {
  }

  /** The numbers that are converted, and the ordinal, are not too long. */
  predicate ShortEnough(w: Written) {
    && (forall i | 0 <= i < |w.numbers| && i < PARTS :: |Show(w.numbers[i])| <= MAX_DIGITS)
    && (w.suffix.Some? && w.suffix.value.ordinal.Some? ==> |Show(w.suffix.value.ordinal.value)| <= MAX_DIGITS)
  }

  /** The key of a written version, however it is punctuated; and it has none exactly when a number is too long. */
  lemma WrittenRead(w: Written)
    requires WellWritten(w)
    ensures KeyOf(Write(w)) == KeyWritten(w) && (Readable(Write(w)) <==> ShortEnough(w))
    ensures VersionKey(Write(w)) == if ShortEnough(w) then Ok(KeyWritten(w)) else Err(ValueError)
  {
    hide Read, Write, Pad, Stage, Lower, Show, Value;
    ReadWritten(w);
    NoMarker();
    ValuesShown(w.numbers);
    OrdinalRead(if w.suffix.Some? then w.suffix.value.ordinal else None);
  }

  // ---- what is no version -----------------------------------------------------------------------

  /** Of a text that is no version, the runs of digits: whatever stands between them. */
  lemma {:induction false} RunsRead(junk: Text, digits: Text, rest: Text)
    requires (forall c | c in junk :: !IsDigit(c)) && AllDigits(digits) && (rest == [] || !IsDigit(rest[0]))
    ensures AllNumbers(junk + digits + rest) == (if digits == [] then [] else [digits]) + AllNumbers(rest)
    decreases |junk|
  {
    if junk != [] {
      var text := junk + digits + rest;
      assert text[0] == junk[0] && text[1..] == junk[1..] + digits + rest;
      RunsRead(junk[1..], digits, rest);
    } else if digits != [] {
      assert junk + digits + rest == digits + rest;
      DigitsThen(digits, rest);
      assert (digits + rest)[..|digits|] == digits && (digits + rest)[|digits|..] == rest;
    } else {
      assert junk + digits + rest == rest;
    }
  }

  /** A text that does not start with a number, nor with one behind a `v`, counts as a release of the first four
      numbers found anywhere in it. */
  lemma NoVersion(text: Text)
    requires var t := Strip(text); var u := if t != [] && t[0] == 118 then t[1..] else t; u == [] || !IsDigit(u[0])
    ensures VersionKey(text)
         == if forall i | 0 <= i < |AllNumbers(text)| && i < PARTS :: |AllNumbers(text)[i]| <= MAX_DIGITS
            then Ok(Key(Pad(Values(AllNumbers(text))), FINAL_STAGE, 0)) else Err(ValueError)
  {
    hide Strip, AllNumbers, Values, Pad;
    NoMarker();
  }

  // ---- the order of versions ------------------------------------------------------------------

  /** Zeros left off the end make no difference. */
  lemma TrailingZeros(w: Written, zeros: nat)
    requires WellWritten(w)
    ensures var w' := w.(numbers := w.numbers + seq(zeros, i => 0));
            VersionKey(Write(w')) == VersionKey(Write(w))
  {
    hide KeyOf, Readable, Write, VersionKey;
    var w' := w.(numbers := w.numbers + seq(zeros, i => 0));
    assert Pad(w'.numbers) == Pad(w.numbers);
    assert Show(0) == [ZERO];
    ShortSame(w, w');
    WrittenRead(w);
    WrittenRead(w');
  }

  lemma ShortSame(w: Written, w': Written)
    requires w.suffix == w'.suffix && w.numbers <= w'.numbers
    requires forall i | |w.numbers| <= i < |w'.numbers| :: |Show(w'.numbers[i])| <= MAX_DIGITS
    ensures ShortEnough(w) <==> ShortEnough(w')
  {
    hide Show;
    if ShortEnough(w') {
      forall i | 0 <= i < |w.numbers| && i < PARTS
        ensures |Show(w.numbers[i])| <= MAX_DIGITS
      {
        assert w'.numbers[i] == w.numbers[i];
      }
    }
  }

  /** For the same numbers: before the plain version come exactly the marked ones that are no post-releases, after it
      exactly the post-releases, whatever their ordinals. Comparing raises exactly when a number is too long. */
  lemma AroundTheRelease(w: Written)
    requires WellWritten(w)
    ensures var plain := w.(suffix := None);
            var marker := if w.suffix.Some? then Lower(w.suffix.value.marker) else [];
            var post := marker in {Ascii("post"), Ascii("r"), Ascii("rev")};
            if !ShortEnough(w)
            then VersionLess(Write(w), Write(plain)) == VersionLess(Write(plain), Write(w)) == Err(ValueError)
            else
              && VersionLess(Write(w), Write(plain)) == Ok(w.suffix.Some? && !post)
              && VersionLess(Write(plain), Write(w)) == Ok(w.suffix.Some? && post)
  {
    hide KeyOf, Readable, Write, Lower, Pad, NumbersLess, Stage, Show, VersionKey;
    var plain := w.(suffix := None);
    WrittenRead(w);
    WrittenRead(plain);
    NumbersTotal(Pad(w.numbers), Pad(w.numbers));
    if w.suffix.Some? {
      StageOf(Lower(w.suffix.value.marker));
    }
  }

  lemma StageOf(marker: Text)
    requires marker != []
    ensures Stage(marker) != FINAL_STAGE
    ensures Stage(marker) > FINAL_STAGE <==> marker in {Ascii("post"), Ascii("r"), Ascii("rev")}
  {
  }

  /** Of two versions the first number that differs decides, numbers left out being 0, whatever follows. */
  lemma FirstDifference(a: Written, b: Written, k: nat)
    requires WellWritten(a) && WellWritten(b) && ShortEnough(a) && ShortEnough(b) && k < PARTS
    requires Pad(a.numbers)[..k] == Pad(b.numbers)[..k] && Pad(a.numbers)[k] < Pad(b.numbers)[k]
    ensures VersionLess(Write(a), Write(b)) == Ok(true) && VersionLess(Write(b), Write(a)) == Ok(false)
  {
    hide KeyOf, Readable, Write, Lower, Pad, NumbersLess, Stage, Show, VersionKey;
    WrittenRead(a);
    WrittenRead(b);
    DiffersAt(Pad(a.numbers), Pad(b.numbers), k);
    NumbersTotal(Pad(a.numbers), Pad(b.numbers));
  }

  lemma {:induction false} DiffersAt(a: seq<nat>, b: seq<nat>, k: nat)
    requires |a| == |b| && k < |a| && a[..k] == b[..k] && a[k] < b[k]
    ensures NumbersLess(a, b)
  {
    if k > 0 {
      assert a[0] == a[..k][0] == b[..k][0] == b[0];
      assert a[1..][..k - 1] == a[..k][1..] && b[1..][..k - 1] == b[..k][1..];
      DiffersAt(a[1..], b[1..], k - 1);
    }
  }

  /** Padding is zeros at the end, or leaving off what is more than four. */
  lemma PadMeans(numbers: seq<nat>, k: nat)
    requires k < PARTS
    ensures Pad(numbers)[k] == if k < |numbers| then numbers[k] else 0
  {
  }

  /** Where in a release cycle a marker stands: unfinished work, alpha, beta, candidate, and after the release. */
  function Phase(marker: Text): nat {
    if marker in {Ascii("a"), Ascii("alpha")} then 1
    else if marker in {Ascii("b"), Ascii("beta")} then 2
    else if marker in {Ascii("c"), Ascii("rc"), Ascii("pre"), Ascii("preview")} then 3
    else if marker in {Ascii("post"), Ascii("r"), Ascii("rev")} then 5
    else 0
  }

  lemma StageIsPhase(marker: Text)
    requires marker != []
    ensures Stage(marker) == Phase(marker)
  {
    FirstLetters();
  }

  /** No two markers of one length start with the same letter. */
  lemma FirstLetters()
    ensures Ascii("a")[0] == 97 && Ascii("b")[0] == 98 && Ascii("c")[0] == 99 && Ascii("r")[0] == 114
    ensures Ascii("dev")[0] == 100 && Ascii("pre")[0] == 112 && Ascii("rev")[0] == 114
    ensures Ascii("beta")[0] == 98 && Ascii("post")[0] == 112
  {
  }

  /** For the same numbers, two marked versions go by where in the cycle they stand and then by ordinal. */
  lemma AmongTheMarked(a: Written, b: Written)
    requires WellWritten(a) && WellWritten(b) && a.suffix.Some? && b.suffix.Some? && Pad(a.numbers) == Pad(b.numbers)
    ensures var s, t := Phase(Lower(a.suffix.value.marker)), Phase(Lower(b.suffix.value.marker));
            var below := s < t || (s == t && a.suffix.value.ordinal.Or(0) < b.suffix.value.ordinal.Or(0));
            VersionLess(Write(a), Write(b)) == if ShortEnough(a) && ShortEnough(b) then Ok(below) else Err(ValueError)
  {
    hide KeyOf, Readable, Write, Lower, Pad, NumbersLess, Stage, Phase, Show, VersionKey;
    WrittenRead(a);
    WrittenRead(b);
    StageIsPhase(Lower(a.suffix.value.marker));
    StageIsPhase(Lower(b.suffix.value.marker));
    NumbersTotal(Pad(a.numbers), Pad(a.numbers));
  }

  // ---- the tag to install, and whether there is one to offer ----------------------------------

  predicate Exceeds(a: Text, b: Text) {
    Less(KeyOf(b), KeyOf(a))
  }

  /** `resolve_ref`: the ref asked for, or the first tag that no other exceeds; `None` when there are no tags. It raises
      exactly when it has to compare and some tag has a number that is too long. */
  method ResolveRef(tags: seq<Text>, wanted: Text) returns (best: Result<Option<Text>, Raised>)
    ensures best.Err? <==> wanted == [] && |tags| > 1 && exists t | t in tags :: !Readable(t)
    ensures wanted != [] ==> best == Ok(Some(wanted))
    ensures wanted == [] && tags == [] ==> best == Ok(None)
    ensures wanted == [] && tags != [] && best.Ok? ==>
              exists i | 0 <= i < |tags| :: best == Ok(Some(tags[i])) && FirstHighest(tags, i)
  {
    hide KeyOf, Readable, Less;
    if wanted != [] {
      return Ok(Some(wanted));
    }
    if tags == [] {
      return Ok(None);
    }
    var at := 0;
    NotAboveItself(tags[0]);
    for k := 1 to |tags|
      invariant 0 <= at < k && FirstHighest(tags[..k], at)
      invariant k > 1 ==> forall t | t in tags[..k] :: Readable(t)
    {
      ghost var before := at;
      var less := VersionLess(tags[at], tags[k]);
      if less.Err? {
        assert tags[at] in tags && tags[k] in tags;
        return Err(ValueError);
      }
      if less.value {
        at := k;
      }
      HighestSoFar(tags, k, before);
      assert tags[..k + 1] == tags[..k] + [tags[k]];
      assert k == 1 ==> tags[..1] == [tags[0]];
    }
    assert tags[..|tags|] == tags;
    best := Ok(Some(tags[at]));
  }

  /** No tag exceeds this one, and it exceeds every earlier one. */
  predicate FirstHighest(tags: seq<Text>, i: nat)
    requires i < |tags|
  {
    && (forall j | 0 <= j < |tags| :: !Exceeds(tags[j], tags[i]))
    && (forall j | 0 <= j < i :: Exceeds(tags[i], tags[j]))
  }

  lemma NotAboveItself(tag: Text)
    ensures !Exceeds(tag, tag)
  {
    hide KeyOf;
    NumbersTotal(KeyOf(tag).numbers, KeyOf(tag).numbers);
  }

  /** What does not exceed the lower of two does not exceed the higher. */
  lemma BelowBoth(a: Text, b: Text, c: Text)
    requires !Exceeds(a, b) && !Exceeds(b, c)
    ensures !Exceeds(a, c)
  {
    hide KeyOf;
    NotLessTransitive(KeyOf(a), KeyOf(b), KeyOf(c));
  }

  lemma NotBothWays(a: Text, b: Text)
    requires Exceeds(a, b)
    ensures !Exceeds(b, a)
  {
    hide KeyOf;
    NumbersTotal(KeyOf(a).numbers, KeyOf(b).numbers);
  }

  lemma HighestSoFar(tags: seq<Text>, k: nat, at: nat)
    requires at < k < |tags| && FirstHighest(tags[..k], at)
    ensures FirstHighest(tags[..k + 1], if Exceeds(tags[k], tags[at]) then k else at)
  {
    hide Exceeds;
    forall j | 0 <= j < k
      ensures !Exceeds(tags[j], tags[at])
      ensures j < at ==> Exceeds(tags[at], tags[j])
    {
      assert tags[..k][j] == tags[j];
    }
    NotAboveItself(tags[k]);
    if Exceeds(tags[k], tags[at]) {
      NotBothWays(tags[k], tags[at]);
      forall j | 0 <= j < k
        ensures !Exceeds(tags[j], tags[k]) && Exceeds(tags[k], tags[j])
      {
        BelowBoth(tags[j], tags[at], tags[k]);
        if !Exceeds(tags[k], tags[j]) {
          BelowBoth(tags[k], tags[j], tags[at]);
        }
      }
    }
  }

  /** `^v?\d+(\.\d+)*$`. */
  predicate IsRelease(tag: Text) {
    var t := Strip(tag);
    var (numbers, rest) := ReadNumbers(if t != [] && t[0] == 118 then t[1..] else t);
    numbers != [] && rest == []
  }

  /** Numbers with single dots between them. */
  predicate Dotted(text: Text) {
    && text != [] && IsDigit(text[0]) && IsDigit(text[|text| - 1])
    && (forall i | 0 <= i < |text| :: IsDigit(text[i]) || text[i] == DOT)
    && (forall i | 0 < i < |text| :: text[i] == DOT ==> text[i - 1] != DOT)
  }

  lemma {:induction false} NumbersTakeAll(text: Text)
    ensures ReadNumbers(text).0 != [] && ReadNumbers(text).1 == [] <==> Dotted(text)
    decreases |text|
  {
    var n := DigitsAhead(text);
    assert forall i | 0 <= i < n :: text[..n][i] == text[i];
    if n > 0 && |text| > n + 1 && text[n] == DOT && IsDigit(text[n + 1]) {
      var rest := text[n + 1..];
      NumbersTakeAll(rest);
      assert DigitsAhead(rest) > 0;
      assert ReadNumbers(rest).0 != [];
      if Dotted(rest) {
        forall i | 0 <= i < |text|
          ensures IsDigit(text[i]) || text[i] == DOT
          ensures i > 0 && text[i] == DOT ==> text[i - 1] != DOT
        {
          if i > n + 1 {
            assert text[i] == rest[i - n - 1] && text[i - 1] == rest[i - n - 2];
          }
        }
      }
      if Dotted(text) {
        forall i | 0 <= i < |rest|
          ensures IsDigit(rest[i]) || rest[i] == DOT
          ensures i > 0 && rest[i] == DOT ==> rest[i - 1] != DOT
        {
          assert rest[i] == text[i + n + 1];
        }
      }
    }
  }

  /** A release tag is numbers with single dots between them, behind a `v` or not, and white space around it. */
  lemma ReleaseExactly(tag: Text)
    ensures IsRelease(tag) <==>
              var t := Strip(tag); Dotted(t) || (t != [] && t[0] == 118 && Dotted(t[1..]))
  {
    hide Strip, ReadNumbers;
    var t := Strip(tag);
    NumbersTakeAll(if t != [] && t[0] == 118 then t[1..] else t);
  }

  /** `sorted(tags, key=version_key)`, which keeps equal ones in order. */
  function Insert(tag: Text, sorted: seq<Text>): seq<Text> {
    if sorted == [] || !Exceeds(tag, sorted[0]) then [tag] + sorted else [sorted[0]] + Insert(tag, sorted[1..])
  }

  function Sorted(tags: seq<Text>): seq<Text> {
    if tags == [] then [] else Insert(tags[0], Sorted(tags[1..]))
  }

  function Releases(tags: seq<Text>): seq<Text> {
    if tags == [] then [] else (if IsRelease(tags[0]) then [tags[0]] else []) + Releases(tags[1..])
  }

  function DropV(text: Text): Text {
    if text != [] && text[0] == 118 then DropV(text[1..]) else text
  }

  /** The latest release, as the update notice names it; empty when there is none. */
  function Latest(tags: seq<Text>): Text {
    var releases := Sorted(Releases(tags));
    if releases == [] then [] else DropV(releases[|releases| - 1])
  }

  /** `check`, which sorts the releases by their keys, and `UpdateInfo.available` of what it finds. */
  function Available(current: Text, tags: seq<Text>): Result<bool, Raised> {
    if exists t | t in Releases(tags) :: !Readable(t) then Err(ValueError)
    else if Latest(tags) == [] then Ok(false)
    else VersionLess(current, Latest(tags))
  }

  predicate Ascending(tags: seq<Text>) {
    forall i, j | 0 <= i < j < |tags| :: !Exceeds(tags[i], tags[j])
  }

  lemma {:induction false} InsertSorts(tag: Text, sorted: seq<Text>)
    requires Ascending(sorted)
    ensures Ascending(Insert(tag, sorted)) && multiset(Insert(tag, sorted)) == multiset{tag} + multiset(sorted)
  {
    hide Exceeds;
    if sorted == [] || !Exceeds(tag, sorted[0]) {
      forall i | 0 <= i < |sorted|
        ensures !Exceeds(tag, sorted[i])
      {
        if i > 0 {
          BelowBoth(tag, sorted[0], sorted[i]);
        }
      }
    } else {
      var rest := sorted[1..];
      assert sorted == [sorted[0]] + rest;
      InsertSorts(tag, rest);
      NotBothWays(tag, sorted[0]);
      forall x | x in Insert(tag, rest)
        ensures !Exceeds(sorted[0], x)
      {
        assert x in multiset(Insert(tag, rest));
        if x != tag {
          assert x in rest;
        }
      }
    }
  }

  lemma {:induction false} SortedSorts(tags: seq<Text>)
    ensures Ascending(Sorted(tags)) && multiset(Sorted(tags)) == multiset(tags)
  {
    if tags != [] {
      SortedSorts(tags[1..]);
      InsertSorts(tags[0], Sorted(tags[1..]));
      assert tags == [tags[0]] + tags[1..];
    }
  }

  lemma {:induction false} ReleasesExact(tags: seq<Text>, tag: Text)
    ensures tag in Releases(tags) <==> tag in tags && IsRelease(tag)
  {
    if tags != [] {
      ReleasesExact(tags[1..], tag);
    }
  }

  /** Nothing in a list exceeds the last of it sorted. */
  lemma HighestLast(tags: seq<Text>)
    requires tags != []
    ensures var sorted := Sorted(tags);
            sorted != [] && sorted[|sorted| - 1] in tags && forall t | t in tags :: !Exceeds(t, sorted[|sorted| - 1])
  {
    hide Exceeds;
    SortedSorts(tags);
    var sorted := Sorted(tags);
    assert |sorted| == |multiset(sorted)| == |tags|;
    var last := sorted[|sorted| - 1];
    assert last in multiset(tags);
    forall t | t in tags
      ensures !Exceeds(t, last)
    {
      assert t in multiset(sorted);
      var i :| 0 <= i < |sorted| && sorted[i] == t;
      NotAboveItself(last);
    }
  }

  lemma {:induction false} StripRightDrop(text: Text)
    requires |text| >= 2 && !IsSpace(text[0]) && !IsSpace(text[1])
    ensures StripRight(text) != [] && StripRight(text[1..]) == StripRight(text)[1..]
  {
    if IsSpace(text[|text| - 1]) {
      StripRightDrop(text[..|text| - 1]);
      assert text[1..][..|text| - 2] == text[..|text| - 1][1..];
    }
  }

  lemma {:induction false} StripRightPrefix(text: Text)
    ensures StripRight(text) <= text
  {
    if text != [] && IsSpace(text[|text| - 1]) {
      StripRightPrefix(text[..|text| - 1]);
    }
  }

  /** The notice names the release without its `v`, which makes no difference to the order. */
  lemma DropVKeepsKey(tag: Text)
    requires IsRelease(tag)
    ensures Read(DropV(tag)) == Read(tag) && DropV(tag) != []
  {
    hide ReadNumbers, ReadSuffix, AllNumbers;
    StripRightPrefix(tag);
    ReleaseNotEmpty(tag);
    if tag != [] && tag[0] == 118 {
      var t := Strip(tag);
      assert t == StripRight(tag);
      ReleaseStarts(tag);
      StripRightDrop(tag);
      assert DropV(tag) == tag[1..];
      assert Strip(tag[1..]) == t[1..];
    }
  }

  lemma ReleaseNotEmpty(tag: Text)
    requires IsRelease(tag)
    ensures Strip(tag) != [] && tag != []
  {
    StripRightPrefix(StripLeft(tag));
  }

  lemma ReleaseStarts(tag: Text)
    requires IsRelease(tag) && tag != [] && tag[0] == 118
    ensures |tag| >= 2 && IsDigit(tag[1])
  {
    StripRightPrefix(tag);
    var t := Strip(tag);
    assert t == StripRight(tag);
    if t != [] {
      assert t[0] == 118;
      assert DigitsAhead(t[1..]) > 0;
    }
  }

  /** What the notice offers is as high as any release. */
  lemma LatestHighest(tags: seq<Text>, tag: Text)
    requires tag in tags && IsRelease(tag)
    ensures Latest(tags) != [] && !Exceeds(tag, Latest(tags))
    ensures exists t | t in tags :: IsRelease(t) && Read(Latest(tags)) == Read(t)
  {
    hide Read, KeyFrom, IsRelease, Less, Sorted, DropV;
    var releases := Releases(tags);
    ReleasesExact(tags, tag);
    HighestLast(releases);
    var last := Sorted(releases)[|Sorted(releases)| - 1];
    ReleasesExact(tags, last);
    DropVKeepsKey(last);
  }

  lemma NoneToOffer(tags: seq<Text>)
    requires forall tag | tag in tags :: !IsRelease(tag)
    ensures Latest(tags) == []
  {
    hide IsRelease;
    if Releases(tags) != [] {
      ReleasesExact(tags, Releases(tags)[0]);
    }
  }

  lemma ReleasesReadable(tags: seq<Text>)
    ensures (exists t | t in Releases(tags) :: !Readable(t)) <==> exists t | t in tags :: IsRelease(t) && !Readable(t)
  {
    hide Readable, IsRelease;
    forall t
      ensures t in Releases(tags) <==> t in tags && IsRelease(t)
    {
      ReleasesExact(tags, t);
    }
  }

  /** With some release among the tags and nothing too long to read: an update is offered exactly when a release exceeds
      the version that is running. */
  lemma Offered(current: Text, tags: seq<Text>, release: Text)
    requires release in tags && IsRelease(release) && forall t | t in tags && IsRelease(t) :: Readable(t)
    ensures Latest(tags) != [] && VersionLess(current, Latest(tags))
         == if Readable(current) then Ok(exists tag | tag in tags :: IsRelease(tag) && Exceeds(tag, current))
            else Err(ValueError)
  {
    hide Read, KeyFrom, Converts, IsRelease, Less, Latest;
    LatestHighest(tags, release);
    var latest := Latest(tags);
    var t :| t in tags && IsRelease(t) && Read(latest) == Read(t);
    forall tag | tag in tags && IsRelease(tag) && Exceeds(tag, current)
      ensures Exceeds(latest, current)
    {
      LatestHighest(tags, tag);
      if !Exceeds(latest, current) {
        BelowBoth(tag, latest, current);
      }
    }
  }

  /** An update is offered exactly when some release tag exceeds the version that is running; and asking raises exactly
      when there is a release and either one of them or the running version has a number that is too long. */
  lemma OfferedExactly(current: Text, tags: seq<Text>)
    ensures Available(current, tags)
         == if exists t | t in tags :: IsRelease(t) && (!Readable(t) || !Readable(current)) then Err(ValueError)
            else Ok(exists tag | tag in tags :: IsRelease(tag) && Exceeds(tag, current))
  {
    hide Readable, IsRelease, Exceeds, Latest, VersionLess;
    ReleasesReadable(tags);
    if t :| t in tags && IsRelease(t) {
      if forall t | t in tags && IsRelease(t) :: Readable(t) {
        Offered(current, tags, t);
      }
    } else {
      NoneToOffer(tags);
    }
  }
}
