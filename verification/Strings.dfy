/** Text, as the ASCII bytes it is made of. */
module Strings {
  import opened Wrappers
  import opened Bytes

  /** ASCII white space, as `str.strip` sees it. */
  predicate IsSpace(c: byte) {
    9 <= c <= 13 || 28 <= c <= 32
  }

  function StripLeft(text: Data): Data {
    if text != [] && IsSpace(text[0]) then StripLeft(text[1..]) else text
  }

  function StripRight(text: Data): Data {
    if text != [] && IsSpace(text[|text| - 1]) then StripRight(text[..|text| - 1]) else text
  }

  function Strip(text: Data): Data {
    StripRight(StripLeft(text))
  }

  lemma {:induction false} StripLeftPlain(text: Data)
    ensures text == [] || !IsSpace(text[0]) ==> StripLeft(text) == text
    ensures StripLeft(text) != [] ==> !IsSpace(StripLeft(text)[0])
  {
    if text != [] && IsSpace(text[0]) {
      StripLeftPlain(text[1..]);
    }
  }

  /** Nothing to strip. */
  lemma StripPlain(text: Data)
    requires text != [] && !IsSpace(text[0]) && !IsSpace(text[|text| - 1])
    ensures Strip(text) == text
  {
  }

  /** Tab, line feed, vertical tab, form feed, return, the four separators and space. */
  predicate White(c: byte) {
    c in {9, 10, 11, 12, 13, 28, 29, 30, 31, 32}
  }

  predicate AllSpace(text: Data) {
    forall c | c in text :: White(c)
  }

  lemma {:induction false} StripLeftExactly(text: Data) returns (a: Data)
    ensures text == a + StripLeft(text) && AllSpace(a)
    ensures StripLeft(text) != [] ==> !IsSpace(StripLeft(text)[0])
  {
    a := [];
    if text != [] && IsSpace(text[0]) {
      a := StripLeftExactly(text[1..]);
      a := [text[0]] + a;
      assert text == [text[0]] + text[1..];
    }
  }

  lemma {:induction false} StripRightExactly(text: Data) returns (b: Data)
    ensures text == StripRight(text) + b && AllSpace(b)
    ensures var r := StripRight(text); r != [] ==> !IsSpace(r[|r| - 1]) && r[0] == text[0]
  {
    b := [];
    if text != [] && IsSpace(text[|text| - 1]) {
      var front, last := text[..|text| - 1], text[|text| - 1];
      b := StripRightExactly(front);
      b := b + [last];
      assert text == front + [last];
    }
  }

  /** Stripping takes white space off both ends, and all of it. */
  lemma StripExactly(text: Data) returns (a: Data, b: Data)
    ensures text == a + Strip(text) + b && AllSpace(a) && AllSpace(b)
    ensures var r := Strip(text); r != [] ==> !White(r[0]) && !White(r[|r| - 1])
  {
    a := StripLeftExactly(text);
    b := StripRightExactly(StripLeft(text));
  }

  function LowerByte(c: byte): byte {
    if 65 <= c <= 90 then c + 32 else c
  }

  /** `text.lower()`. */
  function Lower(text: Data): (lower: Data)
    ensures |lower| == |text|
  {
    seq(|text|, i requires 0 <= i < |text| => LowerByte(text[i]))
  }

  /** `text.find(mark)`; `None` is the -1. */
  function Find(text: Data, mark: byte): (at: Option<nat>)
    ensures at.Some? ==> at.value < |text| && text[at.value] == mark && mark !in text[..at.value]
    ensures at.None? ==> mark !in text
  {
    if text == [] then None
    else if text[0] == mark then Some(0)
    else
      match Find(text[1..], mark)
      case None => None
      case Some(k) =>
        assert text[..k + 1] == [text[0]] + text[1..][..k];
        Some(k + 1)
  }

  lemma {:induction false} FindMore(x: Data, y: Data, mark: byte)
    requires Find(x, mark).Some?
    ensures Find(x + y, mark) == Find(x, mark)
  {
    if x[0] != mark {
      assert (x + y)[1..] == x[1..] + y;
      FindMore(x[1..], y, mark);
    }
  }

  lemma {:induction false} FindPast(junk: Data, rest: Data, mark: byte)
    requires mark !in junk && rest != [] && rest[0] == mark
    ensures Find(junk + rest, mark) == Some(|junk|)
  {
    if junk == [] {
      assert junk + rest == rest;
    } else {
      assert (junk + rest)[1..] == junk[1..] + rest;
      FindPast(junk[1..], rest, mark);
    }
  }
}
