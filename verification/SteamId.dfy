/** One Steam account, three spellings. */
module SteamId {
  import opened Wrappers
  import opened Bytes
  import opened Decimal
  import opened Strings

  const STEAM64_BASE: nat := 76561197960265728
  const LEGACY_HEAD: Text := Ascii("steam_")
  const MODERN_HEAD: Text := Ascii("[u:1:")
  const LEGACY_FRONT: Text := Ascii("STEAM_1:")
  const COLON: byte := 58
  const BRACKET: byte := 93

  /** `^STEAM_([0-5]):([01]):(\d+)$`, whatever the case: the low bit, and the digits of the rest. */
  function MatchLegacy(text: Text): (m: Option<(nat, Text)>)
    ensures m.Some? ==> m.value.0 <= 1 && IsDigits(m.value.1)
  {
    if |text| < 11 || Lower(text[..6]) != LEGACY_HEAD then None
    else if !(48 <= text[6] <= 53) || text[7] != COLON || !(48 <= text[8] <= 49) || text[9] != COLON then None
    else if !IsDigits(text[10..]) then None
    else Some((text[8] - ZERO, text[10..]))
  }

  /** `^\[U:1:(\d+)\]$`, whatever the case: the digits. */
  function MatchModern(text: Text): (m: Option<Text>)
    ensures m.Some? ==> IsDigits(m.value)
  {
    if |text| < 7 || Lower(text[..5]) != MODERN_HEAD || text[|text| - 1] != BRACKET then None
    else if !IsDigits(text[5..|text| - 1]) then None
    else Some(text[5..|text| - 1])
  }

  /** `account_id`. */
  function AccountId(value: Text): Result<Option<nat>, Raised> {
    var text := Strip(value);
    if text == [] then Ok(None)
    else if MatchLegacy(text).Some? then
      var (low, digits) := MatchLegacy(text).value;
      match ParseDigits(digits)
      case Err(e) => Err(e)
      case Ok(rest) => Ok(Some(rest * 2 + low))
    else if MatchModern(text).Some? then
      match ParseDigits(MatchModern(text).value)
      case Err(e) => Err(e)
      case Ok(account) => Ok(Some(account))
    else if |text| == 17 && AllDigits(text) && Value(text) > STEAM64_BASE then Ok(Some(Value(text) - STEAM64_BASE))
    else Ok(None)
  }

  /** `to_legacy`. */
  function ToLegacy(account: nat): Result<Text, Raised> {
    match Print(account / 2)
    case Err(e) => Err(e)
    case Ok(rest) => Ok(LEGACY_FRONT + Show(account % 2) + [COLON] + rest)
  }

  /** The modern spelling, which the program reads and never writes. */
  function Modern(account: nat): Text {
    Ascii("[U:1:") + Show(account) + [BRACKET]
  }

  /** `to_steam64`. */
  function ToSteam64(account: nat): Result<Text, Raised> {
    Print(account + STEAM64_BASE)
  }

  /** `canonical`. */
  function Canonical(value: Text): Result<Text, Raised> {
    match AccountId(value)
    case Err(e) => Err(e)
    case Ok(None) => Ok(value)
    case Ok(Some(account)) => ToLegacy(account)
  }

  /** The modern spelling is read back, unless it has too many digits. */
  lemma ModernReadBack(account: nat)
    ensures AccountId(Modern(account))
         == if |Show(account)| <= MAX_DIGITS then Ok(Some(account)) else Err(ValueError)
  {
    var text, digits := Modern(account), Show(account);
    assert text[5..|text| - 1] == digits;
    assert text[..5] == Ascii("[U:1:");
    assert Lower(text[..5]) == MODERN_HEAD;
    ValueShow(account);
    StripPlain(text);
    assert Lower(text[..6])[0] != LEGACY_HEAD[0];
  }

  /** Spelled like a legacy id, with some digit for the universe and some digit for the low bit. */
  predicate LegacyShape(text: Text) {
    && |text| >= 11 && Lower(text[..6]) == LEGACY_HEAD && text[7] == COLON && text[9] == COLON
    && IsDigit(text[6]) && IsDigit(text[8]) && IsDigits(text[10..])
  }

  /** However its head is capitalised, and whichever universe it names from 0 to 5, a legacy spelling is read for the
      account it numbers; any other universe or low bit makes it no Steam id. */
  lemma UniverseIgnored(text: Text)
    requires LegacyShape(text) && |text[10..]| <= MAX_DIGITS
    ensures var (universe, bit, rest) := (text[6] - ZERO, text[8] - ZERO, Value(text[10..]));
            AccountId(text) == Ok(if universe <= 5 && bit <= 1 then Some(2 * rest + bit) else None)
  {
    hide Value, Strip, Lower;
    LegacyPlain(text);
  }

  lemma LegacyPlain(text: Text)
    requires LegacyShape(text)
    ensures Strip(text) == text && MatchModern(text).None? && !AllDigits(text)
  {
    hide Strip;
    assert Lower(text[..6])[0] == LowerByte(text[0]) && Lower(text[..5])[0] == LowerByte(text[0]);
    assert text[|text| - 1] == text[10..][|text[10..]| - 1];
    StripPlain(text);
    assert !IsDigit(text[7]);
  }

  lemma BitShown(bit: nat)
    requires bit <= 1
    ensures Show(bit) == [ZERO + bit]
  {
  }

  lemma LegacySpelled(rest: Text, bit: nat)
    requires IsDigits(rest) && bit <= 1
    ensures var text := LEGACY_FRONT + [ZERO + bit] + [COLON] + rest;
            LegacyShape(text) && text[6] == ZERO + 1 && text[8] == ZERO + bit && text[10..] == rest
  {
    var text := LEGACY_FRONT + [ZERO + bit] + [COLON] + rest;
    assert text[..6] == Ascii("STEAM_");
    assert Lower(text[..6]) == LEGACY_HEAD;
  }

  /** Every account number that has a legacy spelling, from 0, is read back from it. */
  lemma LegacyReadBack(account: nat)
    ensures ToLegacy(account).Ok? <==> |Show(account / 2)| <= MAX_DIGITS
    ensures ToLegacy(account).Ok? ==> AccountId(ToLegacy(account).value) == Ok(Some(account))
  {
    hide Show, Value, AccountId, LegacyShape;
    if ToLegacy(account).Ok? {
      BitShown(account % 2);
      LegacySpelled(Show(account / 2), account % 2);
      ValueShow(account / 2);
      UniverseIgnored(ToLegacy(account).value);
    }
  }

  lemma PrintsIn17(account: nat)
    ensures |Show(account + STEAM64_BASE)| == 17 <==> account + STEAM64_BASE < 100_000_000_000_000_000
  {
    ShowLength(account + STEAM64_BASE, 16);
    ShowLength(account + STEAM64_BASE, 17);
    assert Power10(8) == 100_000_000;
    assert Power10(16) == 10_000_000_000_000_000;
    assert Power10(17) == 10 * Power10(16);
  }

  /** The 64-bit spelling is read back exactly for the accounts that have one: from 1, and of seventeen digits. */
  lemma Steam64ReadBack(account: nat)
    ensures ToSteam64(account).Ok? && AccountId(ToSteam64(account).value) == Ok(Some(account))
       <==> 1 <= account <= 99_999_999_999_999_999 - STEAM64_BASE
  {
    hide Show, Value, Strip;
    var text := Show(account + STEAM64_BASE);
    StripPlain(text);
    PrintsIn17(account);
    ValueShow(account + STEAM64_BASE);
    DigitsAreNeither(text);
  }

  lemma DigitsAreNeither(text: Text)
    requires IsDigits(text)
    ensures MatchLegacy(text).None? && MatchModern(text).None?
  {
    if |text| >= 11 {
      assert Lower(text[..6])[0] != LEGACY_HEAD[0];
    }
  }

  /** An id with more digits than `int` takes. */
  predicate TooLong(text: Text) {
    if MatchLegacy(text).Some? then |MatchLegacy(text).value.1| > MAX_DIGITS
    else MatchModern(text).Some? && |MatchModern(text).value| > MAX_DIGITS
  }

  /** Half of an account number that was read is no more than the number its digits make. */
  lemma HalfPrints(value: Text, account: nat)
    requires AccountId(value) == Ok(Some(account))
    ensures ToLegacy(account).Ok?
  {
    hide Show, Value, Lower;
    var text := Strip(value);
    if MatchLegacy(text).Some? {
      PrintsBelow(account / 2, MatchLegacy(text).value.1);
    } else if MatchModern(text).Some? {
      PrintsBelow(account / 2, MatchModern(text).value);
    } else {
      PrintsBelow(account / 2, text);
    }
  }

  /** `canonical` raises exactly for a Steam id with too many digits: nothing that it reads is too long to write. */
  lemma RaisesExactly(value: Text)
    ensures Canonical(value).Err? <==> AccountId(value).Err?
    ensures AccountId(value).Err? <==> TooLong(Strip(value))
  {
    hide Show, Value, Lower;
    if AccountId(value).Ok? && AccountId(value).value.Some? {
      HalfPrints(value, AccountId(value).value.value);
    }
    if TooLong(Strip(value)) {
      NotEmpty(Strip(value));
    }
  }

  lemma NotEmpty(text: Text)
    requires MatchLegacy(text).Some? || MatchModern(text).Some?
    ensures text != []
  {
  }

  /** Doing it twice is doing it once, for any string at all that it can be done to. */
  lemma CanonicalOnce(value: Text)
    requires Canonical(value).Ok?
    ensures Canonical(Canonical(value).value) == Canonical(value)
  {
    hide Show, Value, Lower, Strip, MatchLegacy, MatchModern;
    if AccountId(value).value.Some? {
      LegacyReadBack(AccountId(value).value.value);
    }
  }

  /** Two spellings that are recognised come out, and come out the same exactly when they name one account. */
  lemma SameAccount(a: Text, b: Text, m: nat, n: nat)
    requires AccountId(a) == Ok(Some(m)) && AccountId(b) == Ok(Some(n))
    ensures Canonical(a).Ok? && Canonical(b).Ok?
    ensures Canonical(a) == Canonical(b) <==> m == n
  {
    hide Show, Value, Lower, Strip, MatchLegacy, MatchModern;
    HalfPrints(a, m);
    HalfPrints(b, n);
    LegacyReadBack(m);
    LegacyReadBack(n);
  }

  /** What is left alone: what is no Steam id, and what is already spelled the way it would be. */
  lemma LeftAlone(value: Text)
    ensures Canonical(value) == Ok(value)
       <==> AccountId(value) == Ok(None) || exists account :: ToLegacy(account) == Ok(value)
  {
    hide Show, Value, Lower, Strip, MatchLegacy, MatchModern;
    if account :| ToLegacy(account) == Ok(value) {
      LegacyReadBack(account);
    }
  }
}
