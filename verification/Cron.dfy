/** Crontab fields: what a text denotes, and printing it back. */
module Cron {
  import opened Wrappers
  import opened Bytes
  import opened Decimal
  import opened Strings

  const STAR: byte := 42
  const COMMA: byte := 44
  const DASH: byte := 45
  const SLASH: byte := 47

  datatype Field = Second | Minute | Hour | Day | Month | Weekday

  function Low(f: Field): int {
    if f.Day? || f.Month? then 1 else 0
  }

  function High(f: Field): int {
    match f
    case Second => 59
    case Minute => 59
    case Hour => 23
    case Day => 31
    case Month => 12
    case Weekday => 6
  }

  predicate InRange(f: Field, v: int) {
    Low(f) <= v <= High(f)
  }

  /** The days of each month, in a leap year. */
  const MONTH_DAYS: seq<int> := [31, 29, 31, 30, 31, 30, 31, 31, 30, 31, 30, 31]

  /** The seconds in a unit of the clock, and how many units until it starts again. */
  function Dial(f: Field): (int, int)
    requires !f.Day? && !f.Month?
  {
    match f
    case Second => (1, 60)
    case Minute => (60, 60)
    case Hour => (3600, 24)
    case Weekday => (86400, 7)
  }

  /** The values a field may have are exactly those that occur: what the clock shows at some second, the months, and the
      days some month has. */
  lemma FieldsOccur(f: Field, v: int)
    ensures InRange(f, v) <==>
              match f
              case Month => 1 <= v <= |MONTH_DAYS|
              case Day => v >= 1 && exists m | 0 <= m < |MONTH_DAYS| :: v <= MONTH_DAYS[m]
              case _ => exists t: nat :: Shows(f, t, v)
  {
    if f.Day? {
      assert MONTH_DAYS[0] == 31;
    } else if !f.Month? && InRange(f, v) {
      assert Shows(f, v * Dial(f).0, v);
    }
  }

  /** What the field shows `t` seconds after a Monday midnight. */
  predicate Shows(f: Field, t: nat, v: int)
    requires !f.Day? && !f.Month?
  {
    v == t / Dial(f).0 % Dial(f).1
  }

  /** One fragment: the values from `first` to `last`, `step` apart. */
  datatype Span = Span(first: int, last: int, step: int)

  predicate Holds(s: Span, v: int)
    requires s.step > 0
  {
    s.first <= v <= s.last && (v - s.first) % s.step == 0
  }

  // ---- the grammar ----------------------------------------------------------------------------

  /** `text.partition(mark)`, without the mark. */
  function Partition(text: Text, mark: byte): (Text, Text) {
    match Find(text, mark)
    case None => (text, [])
    case Some(at) => (text[..at], text[at + 1..])
  }

  function Split(text: Text, mark: byte): (parts: seq<Text>)
    ensures parts != []
    decreases |text|
  {
    match Find(text, mark)
    case None => [text]
    case Some(at) => [text[..at]] + Split(text[at + 1..], mark)
  }

  predicate IsNumber(text: Text) {
    IsDigits(text) && |text| <= MAX_DIGITS
  }

  /** `_as_int`; white space around the digits is let through. */
  function AsInt(text: Text): Option<int> {
    if IsNumber(Strip(text)) then Some(Value(Strip(text))) else None
  }

  /** `_parse_fragment`; `None` is the `CronError`. */
  function ParseFragment(f: Field, fragment: Text): (span: Option<Span>)
    ensures span.Some? ==>
              span.value.step > 0 && InRange(f, span.value.first) && InRange(f, span.value.last)
              && span.value.first <= span.value.last
  {
    var (body, stepText) := Partition(fragment, SLASH);
    if fragment == [] || (stepText != [] && (!IsNumber(stepText) || Value(stepText) < 1)) then None
    else
      var step := if stepText != [] then Value(stepText) else 1;
      if body == [STAR] then Some(Span(Low(f), High(f), step))
      else if DASH in body then
        var (startText, endText) := Partition(body, DASH);
        match (AsInt(startText), AsInt(endText))
        case (Some(start), Some(end)) =>
          if start <= end && InRange(f, start) && InRange(f, end) then Some(Span(start, end, step)) else None
        case _ => None
      else
        match AsInt(body)
        case None => None
        case Some(n) =>
          if !InRange(f, n) then None
          else if stepText != [] then Some(Span(n, High(f), step)) else Some(Span(n, n, 1))
  }

  predicate AllParse(f: Field, fragments: seq<Text>) {
    forall i | 0 <= i < |fragments| :: ParseFragment(f, Strip(fragments[i])).Some?
  }

  /** Some fragment holds the value. */
  predicate SomeHolds(f: Field, fragments: seq<Text>, v: int)
    requires AllParse(f, fragments)
  {
    exists i | 0 <= i < |fragments| :: Holds(ParseFragment(f, Strip(fragments[i])).value, v)
  }

  /** What a field's text denotes: `None` for every value, otherwise the union of what its fragments do. */
  function Denotes(f: Field, value: Text): Result<Option<set<int>>, ()> {
    var text := Strip(value);
    if text == [] then Err(())
    else if text == [STAR] then Ok(None)
    else
      var fragments := Split(text, COMMA);
      if !AllParse(f, fragments) then Err(())
      else Ok(Some(set v | Low(f) <= v <= High(f) && SomeHolds(f, fragments, v)))
  }

  /** `range(first, last + 1, step)`. */
  method Values(s: Span) returns (values: set<int>)
    requires s.step > 0
    ensures forall v :: v in values <==> Holds(s, v)
  {
    hide Holds;
    NoneOutside(s);
    values := {};
    var n := s.first;
    ghost var k := 0;
    while n <= s.last
      invariant n == s.first + k * s.step && k >= 0
      invariant forall v :: v in values <==> Holds(s, v) && v < n
      decreases s.last - n
    {
      NextHeld(s, k);
      values := values + {n};
      n := n + s.step;
      k := k + 1;
      OneMoreStep(k - 1, s.step);
    }
  }

  lemma OneMoreStep(k: int, step: int)
    ensures (k + 1) * step == k * step + step
  {
  }

  lemma NoneOutside(s: Span)
    requires s.step > 0
    ensures forall v | v < s.first || v > s.last :: !Holds(s, v)
  {
  }

  /** From one held value to the next there is none. */
  lemma NextHeld(s: Span, k: nat)
    requires s.step > 0 && s.first + k * s.step <= s.last
    ensures var n := s.first + k * s.step;
            Holds(s, n) && forall v | n < v < n + s.step :: !Holds(s, v)
  {
    var n := s.first + k * s.step;
    assert k * s.step >= 0;
    Remainder(k, s.step, 0);
    forall v | n < v < n + s.step
      ensures !Holds(s, v)
    {
      Remainder(k, s.step, v - n);
    }
  }

  lemma Remainder(k: int, step: int, r: int)
    requires 0 <= r < step
    ensures (k * step + r) % step == r
  {
    var x := k * step + r;
    DivMod(x, step);
    var d := k - x / step;
    assert d * step == k * step - x / step * step;
    SmallMultiple(d, step);
  }

  lemma DivMod(x: int, step: int)
    requires step > 0
    ensures x == x / step * step + x % step && 0 <= x % step < step
  {
  }

  lemma SmallMultiple(d: int, step: int)
    requires step > 0 && -step < d * step < step
    ensures d == 0
  {
  }

  /** `parse_field`. */
  method ParseField(f: Field, value: Text) returns (r: Result<Option<set<int>>, ()>)
    ensures r == Denotes(f, value)
  {
    hide ParseFragment, Split, Strip, Holds;
    var text := Strip(value);
    if text == [] {
      return Err(());
    }
    if text == [STAR] {
      return Ok(None);
    }
    var fragments := Split(text, COMMA);
    var values: set<int> := {};
    for i := 0 to |fragments|
      invariant AllParse(f, fragments[..i])
      invariant forall v :: v in values <==> SomeHolds(f, fragments[..i], v)
    {
      var span := ParseFragment(f, Strip(fragments[i]));
      assert fragments[..i + 1] == fragments[..i] + [fragments[i]];
      if span.None? {
        return Err(());
      }
      OneFragmentMore(f, fragments[..i], fragments[i]);
      var more := Values(span.value);
      values := values + more;
    }
    assert fragments[..|fragments|] == fragments;
    Contained(f, fragments);
    assert values == set v | Low(f) <= v <= High(f) && SomeHolds(f, fragments, v);
    return Ok(Some(values));
  }

  lemma OneFragmentMore(f: Field, fragments: seq<Text>, fragment: Text)
    requires AllParse(f, fragments) && ParseFragment(f, Strip(fragment)).Some?
    ensures AllParse(f, fragments + [fragment])
    ensures forall v :: SomeHolds(f, fragments + [fragment], v)
                   <==> SomeHolds(f, fragments, v) || Holds(ParseFragment(f, Strip(fragment)).value, v)
  {
    hide ParseFragment, Strip, Holds;
    var all := fragments + [fragment];
    assert all[|fragments|] == fragment;
    forall v
      ensures SomeHolds(f, all, v) <==> SomeHolds(f, fragments, v) || Holds(ParseFragment(f, Strip(fragment)).value, v)
    {
      if i :| 0 <= i < |fragments| && Holds(ParseFragment(f, Strip(fragments[i])).value, v) {
        assert all[i] == fragments[i];
      }
    }
  }

  lemma Contained(f: Field, fragments: seq<Text>)
    requires AllParse(f, fragments)
    ensures forall v | SomeHolds(f, fragments, v) :: InRange(f, v)
  {
    hide Strip;
  }

  /** Every text that is accepted denotes some value, and values of the field's range only. */
  lemma AcceptedDenotes(f: Field, value: Text)
    requires Denotes(f, value).Ok? && Denotes(f, value).value.Some?
    ensures var values := Denotes(f, value).value.value;
            values != {} && forall v | v in values :: InRange(f, v)
  {
    hide Split, Strip;
    var fragments := Split(Strip(value), COMMA);
    var span := ParseFragment(f, Strip(fragments[0])).value;
    assert Holds(span, span.first);
    assert SomeHolds(f, fragments, span.first);
    assert span.first in Denotes(f, value).value.value;
  }

  // ---- printing a field -----------------------------------------------------------------------

  /** `sorted(values)` of values from `low` to `high`. */
  function Ascending(values: set<int>, low: nat, high: int): seq<nat>
    decreases high - low + 1
  {
    if low > high then [] else (if low in values then [low] else []) + Ascending(values, low + 1, high)
  }

  function Joined(numbers: seq<nat>): Text {
    if numbers == [] then []
    else if |numbers| == 1 then Show(numbers[0])
    else Show(numbers[0]) + [COMMA] + Joined(numbers[1..])
  }

  /** What `describe` shows for a field. */
  function Shown(f: Field, values: Option<set<int>>): Text {
    match values
    case None => [STAR]
    case Some(some) => Joined(Ascending(some, Low(f), High(f)))
  }

  lemma {:induction false} AscendingExact(values: set<int>, low: nat, high: int)
    ensures forall v :: v in Ascending(values, low, high) <==> v in values && low <= v <= high
    ensures Ascending(values, low, high) == [] ==> forall v | v in values :: !(low <= v <= high)
    decreases high - low + 1
  {
    if low <= high {
      AscendingExact(values, low + 1, high);
    }
  }

  lemma {:induction false} AscendingNothing(low: nat, high: int)
    ensures Ascending({}, low, high) == []
    decreases high - low + 1
  {
    if low <= high {
      AscendingNothing(low + 1, high);
    }
  }

  lemma DigitsOnly(n: nat, mark: byte)
    requires !IsDigit(mark)
    ensures mark !in Show(n)
  {
  }

  lemma {:induction false} FindNone(text: Text, mark: byte)
    requires mark !in text
    ensures Find(text, mark) == None
  {
  }

  /** Splitting at the commas gives back the numbers. */
  lemma {:induction false} SplitJoined(numbers: seq<nat>)
    requires numbers != []
    ensures |Split(Joined(numbers), COMMA)| == |numbers|
    ensures forall i | 0 <= i < |numbers| :: Split(Joined(numbers), COMMA)[i] == Show(numbers[i])
    decreases |numbers|
  {
    hide Show, Find;
    var n, text := numbers[0], Joined(numbers);
    DigitsOnly(n, COMMA);
    if |numbers| == 1 {
      FindNone(text, COMMA);
    } else {
      var more := Joined(numbers[1..]);
      assert text == Show(n) + ([COMMA] + more);
      FindPast(Show(n), [COMMA] + more, COMMA);
      assert text[..|Show(n)|] == Show(n) && text[|Show(n)| + 1..] == more;
      SplitJoined(numbers[1..]);
    }
  }

  /** A number of the field's range, printed, is a fragment that holds just it. */
  lemma NumberParses(f: Field, n: nat)
    requires InRange(f, n)
    ensures ParseFragment(f, Strip(Show(n))) == Some(Span(n, n, 1))
  {
    hide Show, Value;
    var text := Show(n);
    StripPlain(text);
    DigitsOnly(n, SLASH);
    DigitsOnly(n, DASH);
    DigitsOnly(n, STAR);
    FindNone(text, SLASH);
    ValueShow(n);
    ShowLength(n, 2);
    assert Power10(2) == 100;
  }

  lemma {:induction false} JoinedEnds(numbers: seq<nat>)
    requires numbers != []
    ensures var text := Joined(numbers);
            text != [] && IsDigit(text[0]) && IsDigit(text[|text| - 1])
    decreases |numbers|
  {
    if |numbers| > 1 {
      JoinedEnds(numbers[1..]);
    }
  }

  /** Reading what was printed gives back the same values, unless there were none, which nothing could be printed
      for. */
  lemma PrintedReadsBack(f: Field, values: Option<set<int>>)
    requires values.Some? ==> forall v | v in values.value :: InRange(f, v)
    ensures Denotes(f, Shown(f, values)) == Ok(values) <==> values != Some({})
  {
    hide Show, Strip, ParseFragment, Split, Joined, Ascending, Holds;
    match values
    case None => StripPlain([STAR]);
    case Some(vs) =>
      var numbers := Ascending(vs, Low(f), High(f));
      AscendingExact(vs, Low(f), High(f));
      NothingShown(f, vs);
      if numbers == [] {
        NothingToRead();
      } else {
        JoinedEnds(numbers);
        StripPlain(Joined(numbers));
        SplitJoined(numbers);
        ShownDenotes(f, vs, numbers, Split(Joined(numbers), COMMA));
      }
  }

  lemma SomeMember<T>(s: set<T>) returns (x: T)
    requires s != {}
    ensures x in s
  {
    x :| x in s;
  }

  /** Nothing is shown for a set exactly when it is empty. */
  lemma NothingShown(f: Field, values: set<int>)
    requires forall v | v in values :: InRange(f, v)
    ensures Ascending(values, Low(f), High(f)) == [] <==> values == {}
  {
    AscendingExact(values, Low(f), High(f));
    if values != {} {
      var v := SomeMember(values);
      assert v in Ascending(values, Low(f), High(f));
    } else {
      AscendingNothing(Low(f), High(f));
    }
  }

  lemma NothingToRead()
    ensures Joined([]) == [] && Strip([]) == []
  {
  }

  lemma HoldsOne(n: int)
    ensures forall v :: Holds(Span(n, n, 1), v) <==> v == n
  {
  }

  lemma ShownDenotes(f: Field, values: set<int>, numbers: seq<nat>, fragments: seq<Text>)
    requires forall v :: v in numbers <==> v in values && InRange(f, v)
    requires forall v | v in values :: InRange(f, v)
    requires |fragments| == |numbers| && forall i | 0 <= i < |numbers| :: fragments[i] == Show(numbers[i])
    ensures AllParse(f, fragments)
    ensures (set v | Low(f) <= v <= High(f) && SomeHolds(f, fragments, v)) == values
  {
    hide Show, Strip, ParseFragment, Holds;
    forall i | 0 <= i < |numbers|
      ensures ParseFragment(f, Strip(fragments[i])) == Some(Span(numbers[i], numbers[i], 1))
      ensures forall v :: Holds(Span(numbers[i], numbers[i], 1), v) <==> v == numbers[i]
    {
      assert numbers[i] in numbers;
      NumberParses(f, numbers[i]);
      HoldsOne(numbers[i]);
    }
    forall v: int
      ensures SomeHolds(f, fragments, v) <==> v in values
    {
      if v in values {
        var i :| 0 <= i < |numbers| && numbers[i] == v;
        assert Holds(ParseFragment(f, Strip(fragments[i])).value, v);
      }
    }
  }

  // ---- the forms a fragment can have ----------------------------------------------------------

  datatype Form = Every | One(n: nat) | Between(start: nat, end: nat)

  function FormText(form: Form): Text {
    match form
    case Every => [STAR]
    case One(n) => Show(n)
    case Between(a, b) => Show(a) + [DASH] + Show(b)
  }

  /** A form with or without a step. */
  function FragmentText(form: Form, step: Option<nat>): Text {
    FormText(form) + (if step.Some? then [SLASH] + Show(step.value) else [])
  }

  /** What the form means: a lone number goes on to the end of the range only when it has a step. */
  function Meaning(f: Field, form: Form, step: Option<nat>): Option<Span> {
    var stride := step.Or(1);
    if stride == 0 then None
    else
      match form
      case Every => Some(Span(Low(f), High(f), stride))
      case One(n) => if InRange(f, n) then Some(Span(n, if step.Some? then High(f) else n, stride)) else None
      case Between(a, b) => if a <= b && InRange(f, a) && InRange(f, b) then Some(Span(a, b, stride)) else None
  }

  lemma FormMarks(form: Form)
    ensures SLASH !in FormText(form)
    ensures FormText(form) != []
    ensures DASH in FormText(form) <==> form.Between?
    ensures FormText(form) == [STAR] <==> form.Every?
  {
    match form
    case Every =>
    case One(n) =>
      DigitsOnly(n, SLASH);
      DigitsOnly(n, DASH);
    case Between(a, b) =>
      DigitsOnly(a, SLASH);
      DigitsOnly(b, SLASH);
      assert FormText(form)[|Show(a)|] == DASH;
  }

  lemma CutAt(before: Text, mark: byte, after: Text)
    requires mark !in before
    ensures Partition(before + [mark] + after, mark) == (before, after)
    ensures Partition(before, mark) == (before, [])
  {
    hide Find;
    FindNone(before, mark);
    FindPast(before, [mark] + after, mark);
    assert before + [mark] + after == before + ([mark] + after);
  }

  /** The number, or one too long for `int`, which is out of every range. */
  lemma NumberRead(f: Field, n: nat)
    ensures InRange(f, n) ==> AsInt(Show(n)) == Some(n)
    ensures AsInt(Show(n)).Some? ==> AsInt(Show(n)) == Some(n)
  {
    hide Show, Value;
    StripPlain(Show(n));
    ValueShow(n);
    ShowLength(n, 2);
    assert Power10(2) == 100;
  }

  lemma StepRead(form: Form, step: Option<nat>)
    requires step.Some? ==> |Show(step.value)| <= MAX_DIGITS
    ensures var (body, stepText) := Partition(FragmentText(form, step), SLASH);
            && body == FormText(form)
            && (stepText != [] <==> step.Some?)
            && (step.Some? ==> IsNumber(stepText) && Value(stepText) == step.value)
  {
    hide Show, Value, Partition, FormText;
    FormMarks(form);
    if step.Some? {
      ValueShow(step.value);
      CutAt(FormText(form), SLASH, Show(step.value));
      assert FragmentText(form, step) == FormText(form) + [SLASH] + Show(step.value);
    } else {
      CutAt(FormText(form), SLASH, []);
      assert FragmentText(form, step) == FormText(form);
    }
  }

  /** Each form is taken exactly when its numbers are in range and in order and its step is not 0, and means what it
      should. */
  lemma FormParses(f: Field, form: Form, step: Option<nat>)
    requires step.Some? ==> |Show(step.value)| <= MAX_DIGITS
    ensures ParseFragment(f, FragmentText(form, step)) == Meaning(f, form, step)
  {
    hide Show, Value, Partition, AsInt, IsNumber;
    StepRead(form, step);
    FormMarks(form);
    match form
    case Every =>
    case One(n) => NumberRead(f, n);
    case Between(a, b) =>
      NumberRead(f, a);
      NumberRead(f, b);
      DigitsOnly(a, DASH);
      CutAt(Show(a), DASH, Show(b));
  }
}
