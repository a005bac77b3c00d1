/** Changing the map on a Frostbite server: the client's index arithmetic against the rotation the server holds, in
    both generations of the protocol, and reading a rotation back page by page. */
module FrostbiteMaps {
  import opened Wrappers
  import opened Decimal
  import opened FrostbiteCodec

  /** A rotation entry. Frostbite 1 has only the name. */
  datatype Entry = Entry(name: Word, gamemode: Word, rounds: Word)

  /** The server's side: the list, the entry being played, the entry to play next, which generation it is, and how
      many entries a page of `mapList.list` holds. */
  datatype Rotation = Rotation(maps: seq<Entry>, index: nat, next: nat, legacy: bool, pageSize: nat)

  /** The verbs the map list answers to. `SetNext` is `mapList.setNextMapIndex` and `mapList.nextLevelIndex`;
      `RunNext` is each of the three spellings of "end the round". */
  datatype Verb = ListMaps | GetIndices | AddMap | InsertMap | SetNext | RunNext

  const OK: Word := Ascii("OK")
  const INVALID_ARGUMENTS: Word := Ascii("InvalidArguments")
  const INVALID_GAMEMODE: Word := Ascii("InvalidGameModeOnMap")
  const INVALID_ROUNDS: Word := Ascii("InvalidRoundsPerMap")
  const INVALID_INDEX: Word := Ascii("InvalidMapIndex")
  const DEFAULT_GAMEMODE: Word := Ascii("ConquestLarge0")
  const DEFAULT_ROUNDS: Word := Ascii("2")
  const MAX_ROTATION: nat := 1000

  /** What comes back of a request whose handling raises: the number in it has more digits than Python reads. */
  const NO_REPLY: seq<Word> := []

  /** `sys.maxsize`: no list is longer. */
  const LIST_LIMIT: nat := 0x7FFF_FFFF_FFFF_FFFF

  /** A server whose list fits Python's memory, and whose indices are indices into such a list. */
  predicate Held(r: Rotation) {
    |r.maps| < LIST_LIMIT && r.index < LIST_LIMIT && r.next < LIST_LIMIT
  }

  /** A number that `isdigit` lets through and `int` refuses. */
  predicate TooLong(text: Word) {
    IsDigits(text) && |text| > MAX_DIGITS
  }

  /** Rounds the server takes. */
  predicate ValidRounds(text: Word) {
    IsDigits(text) && |text| <= MAX_DIGITS && Value(text) >= 1
  }

  function Min(a: nat, b: nat): nat { if a < b then a else b }

  function Insert(maps: seq<Entry>, at: nat, e: Entry): seq<Entry>
    requires at <= |maps|
  {
    maps[..at] + [e] + maps[at..]
  }

  function Remove(maps: seq<Entry>, at: nat): seq<Entry>
    requires at < |maps|
  {
    maps[..at] + maps[at + 1..]
  }

  // ---- the server -----------------------------------------------------------------------------

  function CurrentMap(r: Rotation): Word {
    if r.maps == [] then [] else r.maps[Min(r.index, |r.maps| - 1)].name
  }

  function Names(maps: seq<Entry>): (names: seq<Word>)
    ensures |names| == |maps|
  {
    seq(|maps|, i requires 0 <= i < |maps| => maps[i].name)
  }

  function PageWords(page: seq<Entry>): seq<Word> {
    if page == [] then [] else [page[0].name, page[0].gamemode, page[0].rounds] + PageWords(page[1..])
  }

  function Page(r: Rotation, offset: nat): seq<Entry> {
    r.maps[Min(offset, |r.maps|)..Min(offset + r.pageSize, |r.maps|)]
  }

  function ListReply(r: Rotation, args: seq<Word>): seq<Word> {
    if r.legacy then [OK] + Names(r.maps)
    else if args != [] && TooLong(args[0]) then NO_REPLY
    else
      var page := Page(r, if args != [] && IsDigits(args[0]) then Value(args[0]) else 0);
      [OK, Show(|page|), Show(3)] + PageWords(page)
  }

  function Add(r: Rotation, args: seq<Word>): (Rotation, seq<Word>) {
    if |args| < 3 then (r, [INVALID_ARGUMENTS])
    else if args[1] == [] then (r, [INVALID_GAMEMODE])
    else if TooLong(args[2]) then (r, NO_REPLY)
    else if !ValidRounds(args[2]) then (r, [INVALID_ROUNDS])
    else if |args| > 3 && TooLong(args[3]) then (r, NO_REPLY)
    else
      var at := if |args| > 3 && IsDigits(args[3]) then Value(args[3]) else |r.maps|;
      (r.(maps := Insert(r.maps, Min(at, |r.maps|), Entry(args[0], args[1], args[2]))), [OK])
  }

  function InsertAt(r: Rotation, args: seq<Word>): (Rotation, seq<Word>) {
    if |args| < 2 || !IsDigits(args[0]) then (r, [INVALID_ARGUMENTS])
    else if TooLong(args[0]) then (r, NO_REPLY)
    else (r.(maps := Insert(r.maps, Min(Value(args[0]), |r.maps|), Entry(args[1], [], []))), [OK])
  }

  function SetNextIndex(r: Rotation, args: seq<Word>): (Rotation, seq<Word>) {
    if args == [] then (r, [OK, Show(r.next)])
    else if !IsDigits(args[0]) then (r, [INVALID_ARGUMENTS])
    else if TooLong(args[0]) then (r, NO_REPLY)
    else if Value(args[0]) >= |r.maps| then (r, [INVALID_INDEX])
    else (r.(next := Value(args[0])), [OK])
  }

  function Rotate(r: Rotation): Rotation {
    var index := Min(r.next, if r.maps == [] then 0 else |r.maps| - 1);
    r.(index := index, next := index + 1)
  }

  /** What the server does with a request, and the words it replies with. */
  function Answer(r: Rotation, verb: Verb, args: seq<Word>): (Rotation, seq<Word>) {
    match verb
    case ListMaps => (r, ListReply(r, args))
    case GetIndices => (r, [OK, Show(r.index), Show(r.next)])
    case AddMap => Add(r, args)
    case InsertMap => InsertAt(r, args)
    case SetNext => SetNextIndex(r, args)
    case RunNext => (Rotate(r), [OK])
  }

  // ---- the client -----------------------------------------------------------------------------

  /** The words after `OK`, or `None` for the exception: a refusal, or the timeout when no reply comes. */
  function Granted(reply: seq<Word>): Option<seq<Word>> {
    if reply != [] && reply[0] == OK then Some(reply[1..]) else None
  }

  /** The first word of every row of `stride` words, for at most `count` rows. */
  function FirstOfRows(rows: seq<Word>, stride: nat, count: nat): seq<Word>
    requires stride > 0
    decreases count
  {
    if count == 0 || rows == [] then []
    else [rows[0]] + FirstOfRows(rows[Min(stride, |rows|)..], stride, count - 1)
  }

  function NonEmpty(words: seq<Word>): seq<Word> {
    if words == [] then []
    else (if words[0] == [] then [] else [words[0]]) + NonEmpty(words[1..])
  }

  /** Whether a list of words opens with the two numbers of a Frostbite 2 block. */
  predicate HasHeader(words: seq<Word>) {
    |words| >= 2 && IsDigits(words[0]) && IsDigits(words[1])
  }

  function ParseMapList(words: seq<Word>): Result<seq<Word>, Raised> {
    if !HasHeader(words) then Ok(NonEmpty(words))
    else if TooLong(words[0]) || TooLong(words[1]) then Err(ValueError)
    else if Value(words[1]) < 1 then Ok([])
    else Ok(FirstOfRows(words[2..], Value(words[1]), Value(words[0])))
  }

  /** A server as `get_maps` sees it: the words after `OK`, by how many pages were asked for before and the offset. */
  type Pager = (nat, nat) -> seq<Word>

  /** The paging loop of `get_maps`. */
  function Collect(server: Pager, asked: nat, maps: seq<Word>): Result<seq<Word>, Raised>
    requires |maps| <= MAX_ROTATION
    decreases MAX_ROTATION - |maps|
  {
    match ParseMapList(server(asked, |maps|))
    case Err(e) => Err(e)
    case Ok(page) =>
      if page == [] || |maps + page| > MAX_ROTATION then Ok(maps + page)
      else Collect(server, asked + 1, maps + page)
  }

  /** `get_maps` against a Frostbite 2 server, any server: it ends because every page it goes on from is longer than
      nothing and the whole is bounded. */
  method GetMaps(server: Pager) returns (r: Result<seq<Word>, Raised>)
    ensures r == Collect(server, 0, [])
  {
    var maps: seq<Word> := [];
    var asked := 0;
    while true
      invariant |maps| <= MAX_ROTATION && Collect(server, asked, maps) == Collect(server, 0, [])
      decreases MAX_ROTATION - |maps|
    {
      var page := ParseMapList(server(asked, |maps|));
      if page.Err? {
        return page;
      }
      if page.value == [] {
        assert maps + page.value == maps;
        return Ok(maps);
      }
      maps := maps + page.value;
      asked := asked + 1;
      if |maps| > MAX_ROTATION {
        return Ok(maps);
      }
    }
  }

  /** The rotation server above, asked for a page. */
  function PagerOf(r: Rotation): Pager {
    (asked: nat, offset: nat) => Granted(ListReply(r, [Show(offset)])).Or([])
  }

  function Maps(r: Rotation): Result<seq<Word>, Raised> {
    if r.legacy then ParseMapList(Granted(ListReply(r, [])).Or([])) else Collect(PagerOf(r), 0, [])
  }

  /** `_next_index`: the slot after the map being played, or the end of the list when the server will not say. */
  function NextIndex(r: Rotation): Result<nat, Raised> {
    var reply := Granted(Answer(r, if r.legacy then SetNext else GetIndices, []).1).Or([]);
    if reply != [] && IsDigits(reply[0]) then
      match ParseDigits(reply[0])
      case Err(e) => Err(e)
      case Ok(n) => Ok(n + if r.legacy then 0 else 1)
    else
      match Maps(r)
      case Err(e) => Err(e)
      case Ok(maps) => Ok(|maps|)
  }

  /** `_current_gamemode` (position 3) and `_current_rounds` (position 4): a word of the row being played. The only
      number read is the row length, which this server prints. */
  function CurrentSetting(r: Rotation, position: nat, default: Word): Word
    requires position >= 1
  {
    var indices := Granted(Answer(r, GetIndices, []).1).Or([]);
    if indices == [] || !IsDigits(indices[0]) then default
    else
      var words := Granted(Answer(r, ListMaps, [indices[0]]).1).Or([]);
      if |words| > position >= 2 && IsDigits(words[1]) && Value(words[1]) >= position - 1 then words[position]
      else default
  }

  /** One more request, unless an earlier one was refused. */
  function Then(done: (Rotation, bool), verb: Verb, args: seq<Word>): (Rotation, bool) {
    if !done.1 then done
    else
      var (r, reply) := Answer(done.0, verb, args);
      (r, Granted(reply).Some?)
  }

  /** `change_map`; false when a request was refused and the exception left it. A setting that is empty is one that
      was not given. */
  function ChangeMap(r: Rotation, name: Word, gamemode: Word, rounds: Word): (Rotation, bool) {
    match NextIndex(r)
    case Err(_) => (r, false)
    case Ok(next) =>
      var index := Show(next);
      var placed :=
        if r.legacy then Then((r, true), InsertMap, [index, name])
        else Then((r, true), AddMap, [name, Or(gamemode, CurrentSetting(r, 3, DEFAULT_GAMEMODE)),
                                      Or(rounds, CurrentSetting(r, 4, DEFAULT_ROUNDS)), index]);
      Then(Then(placed, SetNext, [index]), RunNext, [])
  }

  // ---- changing the map plays the map ---------------------------------------------------------

  /** The gamemode and rounds a change keeps when none are given: those of the entry being played. */
  function Playing(r: Rotation): Entry {
    if r.index < |r.maps| && r.pageSize > 0 then r.maps[r.index] else Entry([], DEFAULT_GAMEMODE, DEFAULT_ROUNDS)
  }

  /** Such an index can be printed and read back. */
  lemma IndexReadBack(n: nat)
    requires n <= LIST_LIMIT
    ensures !TooLong(Show(n)) && ParseDigits(Show(n)) == Ok(n) && Value(Show(n)) == n
  {
    hide Show, Value, Power10;
    ValueShow(n);
    TenDigits();
    Power10Sum(10, 10);
    ShowLength(n, 20);
  }

  lemma TenDigits()
    ensures Power10(10) == 10_000_000_000
  {
    assert Power10(5) == 100_000;
    Power10Sum(5, 5);
  }

  lemma CurrentSettings(r: Rotation)
    requires !r.legacy && Held(r)
    ensures CurrentSetting(r, 3, DEFAULT_GAMEMODE) == Playing(r).gamemode
    ensures CurrentSetting(r, 4, DEFAULT_ROUNDS) == Playing(r).rounds
  {
    hide Show, Value;
    ValueShow(3);
    PageReply(r, r.index);
    var page := Page(r, r.index);
    var words := [Show(|page|), Show(3)] + PageWords(page);
    if page != [] {
      assert page[0] == r.maps[r.index];
      assert words[3] == page[0].gamemode && words[4] == page[0].rounds;
    }
  }

  /** Pointing the server at an entry and ending the round: refused past the end, otherwise that entry is played. */
  lemma PointAndPlay(r: Rotation, at: nat)
    requires at <= LIST_LIMIT
    ensures Then(Then((r, true), SetNext, [Show(at)]), RunNext, [])
         == if at < |r.maps| then (r.(index := at, next := at + 1), true) else (r, false)
  {
    hide Show, Value, ParseDigits;
    IndexReadBack(at);
  }

  /** Frostbite 2: the change succeeds exactly when an entry is being played and the mode and rounds to use are ones
      the server takes. Then the server plays the named map, one slot on, and without the new entry the rotation is
      the old one. */
  lemma ChangeMapFrostbite2(r: Rotation, name: Word, gamemode: Word, rounds: Word)
    requires !r.legacy && Held(r)
    ensures var (r', ok) := ChangeMap(r, name, gamemode, rounds);
            var e := Entry(name, Or(gamemode, Playing(r).gamemode), Or(rounds, Playing(r).rounds));
            && (ok <==> r.index < |r.maps| && e.gamemode != []
                        && IsDigits(e.rounds) && |e.rounds| <= 4300 && Value(e.rounds) != 0)
            && (ok ==>
                  && CurrentMap(r') == name
                  && r'.index == r.index + 1 < |r'.maps| && r'.next == r'.index + 1
                  && r'.maps[r'.index] == e && Remove(r'.maps, r'.index) == r.maps)
            && (!ok ==> r'.index == r.index && r'.next == r.next)
            && r'.legacy == r.legacy && r'.pageSize == r.pageSize
  {
    hide Show, Value, CurrentSetting, Maps, SetNextIndex, Rotate, ParseDigits, NextIndex;
    CurrentSettings(r);
    NextSlot(r);
    IndexReadBack(r.index + 1);
    var e := Entry(name, Or(gamemode, Playing(r).gamemode), Or(rounds, Playing(r).rounds));
    var placed := Then((r, true), AddMap, [name, e.gamemode, e.rounds, Show(r.index + 1)]);
    assert placed.1 ==> placed.0 == r.(maps := Insert(r.maps, Min(r.index + 1, |r.maps|), e));
    PointAndPlay(placed.0, r.index + 1);
  }

  /** Frostbite 1, where the slot is the one the server says is next: the change succeeds exactly when that slot is
      not past the end. */
  lemma ChangeMapFrostbite1(r: Rotation, name: Word, gamemode: Word, rounds: Word)
    requires r.legacy && Held(r)
    ensures var (r', ok) := ChangeMap(r, name, gamemode, rounds);
            && (ok <==> r.next <= |r.maps|)
            && (ok ==>
                  && CurrentMap(r') == name
                  && r'.index == r.next < |r'.maps| && r'.next == r'.index + 1
                  && Remove(r'.maps, r'.index) == r.maps)
            && (!ok ==> r'.index == r.index && r'.next == r.next)
            && r'.legacy == r.legacy && r'.pageSize == r.pageSize
  {
    hide Show, Value, Answer, Then, NextIndex;
    NextSlot(r);
    InsertGranted(r, r.next, name);
    PointAndPlay(r.(maps := Insert(r.maps, Min(r.next, |r.maps|), Entry(name, [], []))), r.next);
  }

  lemma NextSlot(r: Rotation)
    requires Held(r)
    ensures NextIndex(r) == Ok(if r.legacy then r.next else r.index + 1)
  {
    hide Show, Value, Maps, ListReply, ParseDigits;
    IndexReadBack(r.next);
    IndexReadBack(r.index);
  }

  lemma InsertGranted(r: Rotation, at: nat, name: Word)
    requires at <= LIST_LIMIT
    ensures Then((r, true), InsertMap, [Show(at), name])
         == (r.(maps := Insert(r.maps, Min(at, |r.maps|), Entry(name, [], []))), true)
  {
    hide Show, Value, Insert, ListReply, SetNextIndex, Rotate, Add, ParseDigits;
    IndexReadBack(at);
  }

  /** A rotation as the server itself leaves it: something is being played, the slot after it is next, and on
      Frostbite 2 every entry has a mode and a number of rounds. */
  ghost predicate WellFormed(r: Rotation) {
    && r.index < |r.maps| && r.next <= |r.maps| && r.pageSize > 0
    && (!r.legacy ==> forall e | e in r.maps :: e.gamemode != [] && ValidRounds(e.rounds))
  }

  lemma InsertedOrOld(maps: seq<Entry>, at: nat, e: Entry)
    requires at <= |maps|
    ensures forall x :: x in Insert(maps, at, e) <==> x == e || x in maps
  {
    assert Insert(maps, at, e)[at] == e;
    assert maps == maps[..at] + maps[at..];
  }

  /** And it does leave it so: of all requests with all arguments, the one that spoils a well-formed rotation is the
      other generation's insert, which puts an entry without a mode on a Frostbite 2 list. */
  lemma AnswerWellFormed(r: Rotation, verb: Verb, args: seq<Word>)
    requires WellFormed(r)
    ensures var (r', reply) := Answer(r, verb, args);
            && (WellFormed(r') <==> r.legacy || !verb.InsertMap? || reply != [OK])
            && r'.legacy == r.legacy
  {
    hide Value, Show, ListReply;
    var at := |r.maps|;
    match verb
    case AddMap =>
      if |args| >= 3 {
        if |args| > 3 && IsDigits(args[3]) {
          at := Min(Value(args[3]), |r.maps|);
        }
        InsertedOrOld(r.maps, at, Entry(args[0], args[1], args[2]));
      }
    case InsertMap =>
      if |args| >= 2 && IsDigits(args[0]) {
        at := Min(Value(args[0]), |r.maps|);
        InsertedOrOld(r.maps, at, Entry(args[1], [], []));
      }
    case _ =>
  }

  /** An entry is added when there are a name, a mode and a positive number of rounds: at the index given, or at the end
      when none is or it is past that; the rest of the list stays as it is. */
  lemma AddPlaces(r: Rotation, args: seq<Word>)
    ensures var (r', reply) := Answer(r, AddMap, args);
            && (reply == [OK] <==> |args| >= 3 && args[1] != [] && IsDigits(args[2]) && |args[2]| <= 4300
                                   && Value(args[2]) != 0 && (|args| > 3 ==> !TooLong(args[3])))
            && (reply == [OK] ==>
                  exists at | 0 <= at <= |r.maps| :: AddedAt(r, r', at, args))
            && (reply != [OK] ==> r' == r)
  {
    hide Value, Show, ListReply;
    WordsDiffer();
    if |args| >= 3 {
      var at := if |args| > 3 && IsDigits(args[3]) then Min(Value(args[3]), |r.maps|) else |r.maps|;
      var maps := Insert(r.maps, at, Entry(args[0], args[1], args[2]));
      assert maps[at] == Entry(args[0], args[1], args[2]) && Remove(maps, at) == r.maps;
      if Answer(r, AddMap, args).1 == [OK] {
        assert AddedAt(r, Answer(r, AddMap, args).0, at, args);
      }
    }
  }

  predicate AddedAt(r: Rotation, r': Rotation, at: nat, args: seq<Word>)
    requires |args| >= 3
  {
    && r' == r.(maps := r'.maps) && at < |r'.maps|
    && r'.maps[at] == Entry(args[0], args[1], args[2]) && Remove(r'.maps, at) == r.maps
    && (if |args| > 3 && IsDigits(args[3]) && Value(args[3]) < |r.maps| then at == Value(args[3]) else at == |r.maps|)
  }

  lemma WordsDiffer()
    ensures OK != INVALID_ARGUMENTS && OK != INVALID_GAMEMODE && OK != INVALID_ROUNDS && OK != INVALID_INDEX
  {
  }

  type Request = (Verb, seq<Word>)

  /** The server after a number of requests. */
  function Served(r: Rotation, requests: seq<Request>): Rotation
    decreases |requests|
  {
    if requests == [] then r else Served(Answer(r, requests[0].0, requests[0].1).0, requests[1..])
  }

  lemma {:induction false} ServedWellFormed(r: Rotation, requests: seq<Request>)
    requires WellFormed(r) && (r.legacy || forall q | q in requests :: !q.0.InsertMap?)
    ensures WellFormed(Served(r, requests))
    decreases |requests|
  {
    hide WellFormed, Answer;
    if requests != [] {
      AnswerWellFormed(r, requests[0].0, requests[0].1);
      ServedWellFormed(Answer(r, requests[0].0, requests[0].1).0, requests[1..]);
    }
  }

  /** "Play this map now", for both generations and for ever after: from a well-formed rotation the change works and
      leaves a well-formed rotation. */
  lemma PlayNow(r: Rotation, name: Word)
    requires WellFormed(r) && |r.maps| < LIST_LIMIT
    ensures var (r', ok) := ChangeMap(r, name, [], []);
            ok && CurrentMap(r') == name && WellFormed(r') && Remove(r'.maps, r'.index) == r.maps
  {
    hide ChangeMap, Value, CurrentMap;
    var (r', ok) := ChangeMap(r, name, [], []);
    if r.legacy {
      ChangeMapFrostbite1(r, name, [], []);
    } else {
      assert r.maps[r.index] in r.maps;
      ChangeMapFrostbite2(r, name, [], []);
      forall e | e in r'.maps
        ensures e.gamemode != [] && ValidRounds(e.rounds)
      {
        if e != r'.maps[r'.index] {
          assert e in Remove(r'.maps, r'.index);
        }
      }
    }
  }

  /** So it works after whatever was asked of the server before, in that generation's own verbs. */
  lemma PlayNowAfter(r: Rotation, requests: seq<Request>, name: Word)
    requires WellFormed(r) && (r.legacy || forall q | q in requests :: !q.0.InsertMap?)
    requires |Served(r, requests).maps| < LIST_LIMIT
    ensures var before := Served(r, requests);
            var (after, ok) := ChangeMap(before, name, [], []);
            ok && CurrentMap(after) == name && WellFormed(after) && Remove(after.maps, after.index) == before.maps
  {
    hide WellFormed, Served, ChangeMap, CurrentMap;
    ServedWellFormed(r, requests);
    PlayNow(Served(r, requests), name);
  }

  // ---- reading the rotation back --------------------------------------------------------------

  lemma {:induction false} PageNames(page: seq<Entry>)
    ensures FirstOfRows(PageWords(page), 3, |page|) == Names(page)
  {
    if page != [] {
      PageNames(page[1..]);
      assert PageWords(page)[Min(3, |PageWords(page)|)..] == PageWords(page[1..]);
      assert Names(page) == [page[0].name] + Names(page[1..]);
    }
  }

  lemma AfterOk(words: seq<Word>)
    ensures Granted([OK] + words) == Some(words)
  {
  }

  lemma PageReply(r: Rotation, offset: nat)
    requires !r.legacy && offset <= LIST_LIMIT
    ensures Granted(ListReply(r, [Show(offset)]))
         == Some([Show(|Page(r, offset)|), Show(3)] + PageWords(Page(r, offset)))
  {
    hide *;
    var page := Page(r, offset);
    PageListed(r, offset);
    AfterOk([Show(|page|), Show(3)] + PageWords(page));
  }

  lemma PageListed(r: Rotation, offset: nat)
    requires !r.legacy && offset <= LIST_LIMIT
    ensures var page := Page(r, offset);
            ListReply(r, [Show(offset)]) == [OK] + ([Show(|page|), Show(3)] + PageWords(page))
  {
    hide Page, PageWords, Show, Value, Names, Ascii, ParseDigits;
    IndexReadBack(offset);
    var page := Page(r, offset);
    assert [OK, Show(|page|), Show(3)] + PageWords(page) == [OK] + ([Show(|page|), Show(3)] + PageWords(page));
  }

  lemma PageRead(r: Rotation, asked: nat, offset: nat)
    requires !r.legacy && offset <= LIST_LIMIT && |r.maps| < LIST_LIMIT
    ensures ParseMapList(PagerOf(r)(asked, offset)) == Ok(Names(Page(r, offset)))
  {
    hide Page, PageWords, Show, Value, ListReply, FirstOfRows, ParseDigits;
    var page := Page(r, offset);
    PageSize(r, offset);
    PageReply(r, offset);
    IndexReadBack(|page|);
    IndexReadBack(3);
    var words := [Show(|page|), Show(3)] + PageWords(page);
    assert words[2..] == PageWords(page);
    PageNames(page);
  }

  lemma PageSize(r: Rotation, offset: nat)
    ensures |Page(r, offset)| <= |r.maps|
  {
  }

  /** Where paging in steps of `p` stops: the first multiple of `p` past the bound. */
  function Horizon(p: nat): nat
    requires p > 0
  {
    p * (MAX_ROTATION / p + 1)
  }

  lemma HorizonPast(p: nat)
    requires p > 0
    ensures Horizon(p) > MAX_ROTATION
  {
  }

  lemma MulMonotone(p: nat, a: nat, b: nat)
    requires a <= b
    ensures p * a <= p * b
  {
  }

  lemma NextPage(p: nat, k: nat)
    requires p > 0 && p * k <= MAX_ROTATION
    ensures p * (k + 1) == p * k + p <= Horizon(p)
    ensures p * (k + 1) > MAX_ROTATION ==> p * (k + 1) == Horizon(p)
  {
    var q := MAX_ROTATION / p;
    assert p * q <= MAX_ROTATION;
    HorizonPast(p);
    if k > q {
      MulMonotone(p, q + 1, k);
      assert false;
    }
    MulMonotone(p, k + 1, q + 1);
    if k < q {
      MulMonotone(p, k + 1, q);
    }
  }

  lemma PageSlice(r: Rotation, offset: nat)
    requires offset <= |r.maps|
    ensures Names(Page(r, offset)) == Names(r.maps)[offset..Min(offset + r.pageSize, |r.maps|)]
  {
  }

  /** One turn of the loop, with the first `from` names in hand. */
  lemma CollectStep(r: Rotation, k: nat, from: nat, to: nat)
    requires !r.legacy && |r.maps| < LIST_LIMIT
    requires from <= MAX_ROTATION && from <= |r.maps| && to == Min(from + r.pageSize, |r.maps|)
    ensures Collect(PagerOf(r), k, Names(r.maps)[..from])
         == if from == to || to > MAX_ROTATION then Ok(Names(r.maps)[..to])
            else Collect(PagerOf(r), k + 1, Names(r.maps)[..to])
  {
    hide ParseMapList, PagerOf, Names, Page;
    var maps := Names(r.maps);
    PageRead(r, k, from);
    PageSlice(r, from);
    assert maps[..from] + maps[from..to] == maps[..to];
  }

  lemma {:induction false} CollectNames(r: Rotation, k: nat)
    requires !r.legacy && r.pageSize > 0 && |r.maps| < LIST_LIMIT
    requires r.pageSize * k <= MAX_ROTATION
    ensures var maps := Names(r.maps);
            Collect(PagerOf(r), k, maps[..Min(r.pageSize * k, |maps|)]) == Ok(maps[..Min(Horizon(r.pageSize), |maps|)])
    decreases |r.maps| - Min(r.pageSize * k, |r.maps|)
  {
    hide Collect, PagerOf, Horizon;
    var n, from, end := |r.maps|, r.pageSize * k, r.pageSize * (k + 1);
    NextPage(r.pageSize, k);
    CollectStep(r, k, Min(from, n), Min(Min(from, n) + r.pageSize, n));
    if from < n && Min(end, n) <= MAX_ROTATION {
      if end <= MAX_ROTATION {
        CollectNames(r, k + 1);
      } else {
        CollectStep(r, k + 1, n, n);
      }
    }
  }

  /** `get_maps` returns the whole rotation whatever the page size, as long as it has at most 1000 entries; of a
      longer one it returns everything up to the first page boundary past that. */
  lemma GetMapsComplete(r: Rotation)
    requires !r.legacy && r.pageSize > 0 && |r.maps| < LIST_LIMIT
    ensures |r.maps| <= MAX_ROTATION ==> Maps(r) == Ok(Names(r.maps))
    ensures Maps(r) == Ok(Names(r.maps)[..Min(Horizon(r.pageSize), |r.maps|)])
  {
    hide Collect, PagerOf, Horizon;
    HorizonPast(r.pageSize);
    CollectNames(r, 0);
    assert Names(r.maps)[..0] == [];
    assert Names(r.maps)[..|r.maps|] == Names(r.maps);
  }

  function RowWords(rows: seq<seq<Word>>): seq<Word> {
    if rows == [] then [] else rows[0] + RowWords(rows[1..])
  }

  function Heads(rows: seq<seq<Word>>): (heads: seq<Word>)
    requires forall i | 0 <= i < |rows| :: rows[i] != []
    ensures |heads| == |rows|
  {
    seq(|rows|, i requires 0 <= i < |rows| => rows[i][0])
  }

  lemma {:induction false} RowsRead(rows: seq<seq<Word>>, stride: nat)
    requires stride > 0 && forall i | 0 <= i < |rows| :: |rows[i]| == stride
    ensures FirstOfRows(RowWords(rows), stride, |rows|) == Heads(rows)
  {
    if rows != [] {
      var words := RowWords(rows);
      RowsRead(rows[1..], stride);
      assert words[Min(stride, |words|)..] == RowWords(rows[1..]);
      assert Heads(rows) == [rows[0][0]] + Heads(rows[1..]);
    }
  }

  /** The length of a row is read, not assumed: whatever words a later version adds to each entry, the first of every
      row is the map's name. */
  lemma AnyRowLength(rows: seq<seq<Word>>, stride: nat)
    requires 0 < stride <= LIST_LIMIT && |rows| <= LIST_LIMIT && forall i | 0 <= i < |rows| :: |rows[i]| == stride
    ensures ParseMapList([Show(|rows|), Show(stride)] + RowWords(rows)) == Ok(Heads(rows))
  {
    hide Show, Value, ParseDigits, FirstOfRows, RowWords;
    IndexReadBack(|rows|);
    IndexReadBack(stride);
    RowsRead(rows, stride);
    assert ([Show(|rows|), Show(stride)] + RowWords(rows))[2..] == RowWords(rows);
  }

  lemma {:induction false} NonEmptyKeeps(words: seq<Word>)
    ensures |NonEmpty(words)| <= |words|
    ensures |NonEmpty(words)| == |words| <==> [] !in words
    ensures [] !in words ==> NonEmpty(words) == words
  {
    if words != [] {
      NonEmptyKeeps(words[1..]);
      assert words == [words[0]] + words[1..];
    }
  }

  lemma {:induction false} FirstOfRowsSize(rows: seq<Word>, stride: nat, count: nat)
    requires stride > 0
    ensures |FirstOfRows(rows, stride, count)| <= |rows|
    decreases count
  {
    if count > 0 && rows != [] {
      var rest := rows[Min(stride, |rows|)..];
      assert |rest| < |rows|;
      FirstOfRowsSize(rest, stride, count - 1);
    }
  }

  /** Frostbite 1 sends a bare list of names. It is read back exactly when no name is empty and the first two do not
      both look like numbers; when they do and one has more digits than Python reads, reading raises. */
  lemma GetMapsFlat(r: Rotation)
    requires r.legacy
    ensures Maps(r) == Ok(Names(r.maps)) <==> [] !in Names(r.maps) && !HasHeader(Names(r.maps))
    ensures Maps(r).Err? <==> |r.maps| >= 2 && HasHeader(Names(r.maps))
                              && (TooLong(r.maps[0].name) || TooLong(r.maps[1].name))
  {
    hide Value, NonEmpty, FirstOfRows;
    var names := Names(r.maps);
    NonEmptyKeeps(names);
    assert ([OK] + names)[1..] == names;
    if HasHeader(names) && Value(names[1]) >= 1 {
      FirstOfRowsSize(names[2..], Value(names[1]), Value(names[0]));
    }
  }

  // ---- the same, as objects -------------------------------------------------------------------

  class Server {
    var maps: seq<Entry>
    var index: nat
    var next: nat
    const legacy: bool
    const pageSize: nat

    function View(): Rotation
      reads this
    {
      Rotation(maps, index, next, legacy, pageSize)
    }

    constructor (r: Rotation)
      ensures View() == r
    {
      maps, index, next, legacy, pageSize := r.maps, r.index, r.next, r.legacy, r.pageSize;
    }

    method Handle(verb: Verb, args: seq<Word>) returns (reply: seq<Word>)
      modifies this
      ensures (View(), reply) == Answer(old(View()), verb, args)
    {
      reply := [OK];
      match verb
      case ListMaps =>
        reply := ListReply(View(), args);
      case GetIndices =>
        reply := [OK, Show(index), Show(next)];
      case AddMap =>
        if |args| < 3 {
          return [INVALID_ARGUMENTS];
        } else if args[1] == [] {
          return [INVALID_GAMEMODE];
        } else if TooLong(args[2]) {
          return NO_REPLY;
        } else if !ValidRounds(args[2]) {
          return [INVALID_ROUNDS];
        }
        var at := |maps|;
        if |args| > 3 && IsDigits(args[3]) {
          if TooLong(args[3]) {
            return NO_REPLY;
          }
          at := Value(args[3]);
        }
        maps := Insert(maps, Min(at, |maps|), Entry(args[0], args[1], args[2]));
      case InsertMap =>
        if |args| < 2 || !IsDigits(args[0]) {
          return [INVALID_ARGUMENTS];
        } else if TooLong(args[0]) {
          return NO_REPLY;
        }
        maps := Insert(maps, Min(Value(args[0]), |maps|), Entry(args[1], [], []));
      case SetNext =>
        if args == [] {
          return [OK, Show(next)];
        } else if !IsDigits(args[0]) {
          return [INVALID_ARGUMENTS];
        } else if TooLong(args[0]) {
          return NO_REPLY;
        } else if Value(args[0]) >= |maps| {
          return [INVALID_INDEX];
        }
        next := Value(args[0]);
      case RunNext =>
        index := Min(next, if maps == [] then 0 else |maps| - 1);
        next := index + 1;
    }
  }

  method Ask(server: Server, verb: Verb, args: seq<Word>) returns (granted: bool)
    modifies server
    ensures (server.View(), granted) == Then((old(server.View()), true), verb, args)
  {
    var reply := server.Handle(verb, args);
    granted := Granted(reply).Some?;
  }

  /** `change_map`, talking to a server; false is the exception. */
  method ChangeMapOn(server: Server, name: Word, gamemode: Word, rounds: Word) returns (ok: bool)
    modifies server
    ensures (server.View(), ok) == ChangeMap(old(server.View()), name, gamemode, rounds)
  {
    var r := server.View();
    var next := NextIndex(r);
    if next.Err? {
      return false;
    }
    var index := Show(next.value);
    if r.legacy {
      ok := Ask(server, InsertMap, [index, name]);
    } else {
      var mode := Or(gamemode, CurrentSetting(r, 3, DEFAULT_GAMEMODE));
      ok := Ask(server, AddMap, [name, mode, Or(rounds, CurrentSetting(r, 4, DEFAULT_ROUNDS)), index]);
    }
    if ok {
      ok := Ask(server, SetNext, [index]);
    }
    if ok {
      ok := Ask(server, RunNext, []);
    }
  }
}
