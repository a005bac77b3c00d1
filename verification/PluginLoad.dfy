/** Which plugins start: the loader's decision, one plugin at a time in load order, against the least fixed point it is
    meant to be. */
module PluginLoad {
  import opened Wrappers
  import opened PluginOrder

  /** What becomes of reading a plugin's own config file: it is read (or none is named), it is not there, or it is there
      and opening or parsing it raises. */
  datatype ConfigFile = Fine | Missing | Unreadable

  /** A configured plugin and what its class says. Importing the class, reading the plugin's own config file and
      checking it are inputs: what reading comes to, and whether the check finds problems. */
  datatype Entry = Entry(name: Name, disabled: bool, parsers: Option<set<string>>, class_: Class, file: ConfigFile,
                         problems: bool)

  datatype Reason = Enabled | DisabledInConfig | WrongGame | RequirementsOff(off: seq<Name>)

  datatype Loaded = Loaded(name: Name, reason: Reason)

  datatype LoadError = ListedTwice(name: Name) | MissingRequirement(name: Name, dep: Name) | Cycle(stuck: seq<Name>)
                     | ConfigMissing(name: Name) | ConfigUnreadable(name: Name) | ConfigProblems(name: Name)

  type Config = map<Name, Entry>

  // ---- the specification ----------------------------------------------------------------------

  /** Everything but the requirements speaks for the plugin. */
  predicate Willing(e: Entry, game: string) {
    !e.disabled && (e.parsers.None? || game in e.parsers.value)
  }

  function Requires(e: Entry): set<Name> {
    set d | d in e.class_.requiresPlugins
  }

  function ClassesOf(config: Config): Classes {
    map n | n in config :: config[n].class_
  }

  /** Every requirement is configured. */
  predicate Complete(config: Config) {
    forall n | n in config :: Requires(config[n]) <= config.Keys
  }

  /** Whatever may run, given that all of `on` does, is in `on`. */
  ghost predicate Closed(config: Config, game: string, on: set<Name>) {
    forall n | n in config && Willing(config[n], game) && Requires(config[n]) <= on :: n in on
  }

  /** The plugins that should run: those that are willing and whose requirements all run, and no others than that
      forces: the least set with the property. */
  ghost predicate EnabledSet(config: Config, game: string, on: set<Name>) {
    && on <= config.Keys
    && (forall n | n in config :: n in on <==> Willing(config[n], game) && Requires(config[n]) <= on)
    && (forall other | Closed(config, game, other) :: on <= other)
  }

  lemma EnabledSetUnique(config: Config, game: string, a: set<Name>, b: set<Name>)
    requires EnabledSet(config, game, a) && EnabledSet(config, game, b)
    ensures a == b
  {
    assert Closed(config, game, a) && Closed(config, game, b);
  }

  /** It is closed under requirements all the way down: along any chain of requirements from a plugin that runs,
      everything runs. */
  lemma {:induction false} EnabledTransitively(config: Config, game: string, on: set<Name>, chain: seq<Name>)
    requires EnabledSet(config, game, on) && chain != [] && chain[0] in on
    requires forall i | 0 <= i < |chain| - 1 :: chain[i] in config && chain[i + 1] in Requires(config[chain[i]])
    ensures chain[|chain| - 1] in on
    decreases |chain|
  {
    if |chain| > 1 {
      EnabledTransitively(config, game, on, chain[1..]);
    }
  }

  // ---- deciding one plugin at a time ----------------------------------------------------------

  /** The plugins enabled by the time those of `order` have been decided. */
  function Decide(config: Config, game: string, order: seq<Name>): (on: set<Name>)
    requires forall n | n in order :: n in config
    ensures on <= Elements(order)
  {
    if order == [] then {}
    else
      var front, last := order[..|order| - 1], order[|order| - 1];
      var on := Decide(config, game, front);
      assert order == front + [last];
      if Willing(config[last], game) && Requires(config[last]) <= on then on + {last} else on
  }

  lemma DecideOne(config: Config, game: string, order: seq<Name>, name: Name)
    requires name in config && forall n | n in order :: n in config
    ensures var on := Decide(config, game, order);
            var runs := Willing(config[name], game) && Requires(config[name]) <= on;
            Decide(config, game, order + [name]) == if runs then on + {name} else on
  {
    assert (order + [name])[..|order|] == order;
  }

  /** `_disable_reason`. */
  function DisableReason(e: Entry, game: string, on: set<Name>): Reason {
    if e.disabled then DisabledInConfig
    else if e.parsers.Some? && game !in e.parsers.value then WrongGame
    else
      var off := Off(e.class_.requiresPlugins, on);
      if off != [] then RequirementsOff(off) else Enabled
  }

  function Off(names: seq<Name>, on: set<Name>): seq<Name> {
    if names == [] then [] else (if names[0] in on then [] else [names[0]]) + Off(names[1..], on)
  }

  lemma {:induction false} OffEmpty(names: seq<Name>, on: set<Name>)
    ensures Off(names, on) == [] <==> forall n | n in names :: n in on
  {
    if names != [] {
      OffEmpty(names[1..], on);
      assert names == [names[0]] + names[1..];
    }
  }

  lemma ReasonRight(e: Entry, game: string, on: set<Name>)
    ensures DisableReason(e, game, on).Enabled? <==> Willing(e, game) && Requires(e) <= on
  {
    OffEmpty(e.class_.requiresPlugins, on);
    assert Requires(e) <= on <==> forall n | n in e.class_.requiresPlugins :: n in on;
  }

  /** A prefix of a load order keeps its dependencies. */
  lemma OrderPrefix(classes: Classes, order: seq<Name>, k: nat)
    requires DependenciesFirst(classes, order) && Distinct(order) && k <= |order|
    ensures DependenciesFirst(classes, order[..k]) && Distinct(order[..k])
  {
    assert forall i | 0 <= i < k :: order[..k][..i] == order[..i];
  }

  /** Deciding in load order is right: a plugin's own decision is never changed by what is decided after it. */
  lemma {:induction false} DecideFixed(config: Config, game: string, order: seq<Name>)
    requires Complete(config) && DependenciesFirst(ClassesOf(config), order) && Distinct(order)
    requires forall n | n in order :: n in config
    ensures var on := Decide(config, game, order);
            forall n | n in order :: n in on <==> Willing(config[n], game) && Requires(config[n]) <= on
    decreases |order|
  {
    if order != [] {
      hide Willing, Requires, Complete, ClassesOf, DependenciesFirst, Decide, Distinct;
      var front, last := order[..|order| - 1], order[|order| - 1];
      assert order == front + [last];
      OrderPrefix(ClassesOf(config), order, |order| - 1);
      DecideFixed(config, game, front);
      var before, on := Decide(config, game, front), Decide(config, game, order);
      DecideOne(config, game, front, last);
      forall n | n in front
        ensures n != last && (n in on <==> Willing(config[n], game) && Requires(config[n]) <= on)
      {
        LastNotNeeded(config, order, n);
        AddOther(Requires(config[n]), before, last);
      }
      assert last !in before;
    }
  }

  lemma AddOther(needs: set<Name>, on: set<Name>, name: Name)
    requires name !in needs
    ensures needs <= on + {name} <==> needs <= on
  {
  }

  /** No plugin needs the one that is placed last. */
  lemma LastNotNeeded(config: Config, order: seq<Name>, name: Name)
    requires Complete(config) && DependenciesFirst(ClassesOf(config), order) && Distinct(order)
    requires order != [] && name in order[..|order| - 1] && forall n | n in order :: n in config
    ensures name in config && name != order[|order| - 1] && order[|order| - 1] !in Requires(config[name])
  {
    var i :| 0 <= i < |order| - 1 && order[i] == name;
    assert order[i] in order;
    NeedsEarlier(config, order, i);
  }

  lemma NeedsEarlier(config: Config, order: seq<Name>, i: nat)
    requires Complete(config) && DependenciesFirst(ClassesOf(config), order) && i < |order| && order[i] in config
    ensures forall d | d in Requires(config[order[i]]) :: d == order[i] || d in order[..i]
  {
    var n := order[i];
    forall d | d in Requires(config[n]) && d != n
      ensures d in order[..i]
    {
      assert d in config.Keys;
      assert d in Dependencies(ClassesOf(config), n);
    }
  }

  lemma {:induction false} DecideLeast(config: Config, game: string, order: seq<Name>, other: set<Name>)
    requires (forall n | n in order :: n in config) && Closed(config, game, other)
    ensures Decide(config, game, order) <= other
    decreases |order|
  {
    if order != [] {
      var front := order[..|order| - 1];
      assert order == front + [order[|order| - 1]];
      DecideLeast(config, game, front, other);
    }
  }

  /** Later decisions are about later plugins. */
  lemma {:induction false} DecideStable(config: Config, game: string, order: seq<Name>, k: nat)
    requires Distinct(order) && k <= |order|
    requires forall n | n in order :: n in config
    ensures forall n | n in order[..k] :: n in config
    ensures forall n | n in order[..k] :: n in Decide(config, game, order) <==> n in Decide(config, game, order[..k])
    decreases |order|
  {
    assert forall n | n in order[..k] :: n in order;
    if k == |order| {
      assert order[..k] == order;
    } else {
      var front, last := order[..|order| - 1], order[|order| - 1];
      assert order == front + [last];
      assert front[..k] == order[..k];
      DecideStable(config, game, front, k);
      assert forall n | n in order[..k] :: n in front && n != last;
    }
  }

  lemma {:induction false} OffSame(names: seq<Name>, a: set<Name>, b: set<Name>)
    requires forall n | n in names :: n in a <==> n in b
    ensures Off(names, a) == Off(names, b)
  {
    if names != [] {
      assert names == [names[0]] + names[1..];
      OffSame(names[1..], a, b);
    }
  }

  /** The reason given when a plugin is reached is the reason that holds in the end. */
  lemma ReasonFinal(config: Config, game: string, order: seq<Name>, i: nat)
    requires Complete(config) && LoadOrder(ClassesOf(config), order) && i < |order|
    requires forall n | n in order :: n in config
    ensures forall n | n in order[..i] :: n in config
    ensures DisableReason(config[order[i]], game, Decide(config, game, order[..i]))
         == DisableReason(config[order[i]], game, Decide(config, game, order))
  {
    var n := order[i];
    assert n in order;
    var sofar, all := Decide(config, game, order[..i]), Decide(config, game, order);
    DecideStable(config, game, order, i);
    DecideStable(config, game, order, i + 1);
    DecideOne(config, game, order[..i], n);
    assert order[..i + 1] == order[..i] + [n];
    assert n !in order[..i];
    NeedsEarlier(config, order, i);
    var names := config[n].class_.requiresPlugins;
    forall d | d in names
      ensures d in sofar <==> d in all
    {
      assert d in Requires(config[n]);
    }
    OffSame(names, sofar, all);
  }

  /** Whatever the order, as long as dependencies come first, the plugins decided on are the ones that should run. */
  lemma DecideEnabled(config: Config, game: string, order: seq<Name>)
    requires Complete(config) && LoadOrder(ClassesOf(config), order)
    ensures forall n :: n in order <==> n in config
    ensures EnabledSet(config, game, Decide(config, game, order))
  {
    ListingElements(ClassesOf(config), order);
    DecideFixed(config, game, order);
    forall other | Closed(config, game, other)
      ensures Decide(config, game, order) <= other
    {
      DecideLeast(config, game, order, other);
    }
  }

  // ---- loading --------------------------------------------------------------------------------

  function Names(entries: seq<Entry>): (names: seq<Name>)
    ensures |names| == |entries| && forall i | 0 <= i < |entries| :: names[i] == entries[i].name
  {
    seq(|entries|, i requires 0 <= i < |entries| => entries[i].name)
  }

  function ConfigOf(entries: seq<Entry>): (config: Config)
    ensures config.Keys == Elements(Names(entries))
  {
    if entries == [] then map[]
    else
      var front, last := entries[..|entries| - 1], entries[|entries| - 1];
      assert Names(entries) == Names(front) + [last.name];
      ConfigOf(front)[last.name := last]
  }

  function LoadedNames(loaded: seq<Loaded>): (names: seq<Name>)
    ensures |names| == |loaded| && forall i | 0 <= i < |loaded| :: names[i] == loaded[i].name
  {
    seq(|loaded|, i requires 0 <= i < |loaded| => loaded[i].name)
  }

  function On(loaded: seq<Loaded>): set<Name> {
    if loaded == [] then {}
    else
      var last := loaded[|loaded| - 1];
      On(loaded[..|loaded| - 1]) + (if last.reason.Enabled? then {last.name} else {})
  }

  predicate Repeated(names: seq<Name>, name: Name) {
    exists i, j | 0 <= i < j < |names| :: names[i] == name == names[j]
  }

  /** What loading comes to: the plugins in the least load order with the right ones enabled, or an exception for one
      of the things an operator has to put right. */
  ghost predicate LoadSpec(entries: seq<Entry>, game: string, r: Result<seq<Loaded>, LoadError>) {
    var names, config := Names(entries), ConfigOf(entries);
    match r
    case Ok(loaded) =>
      && Distinct(names) && Complete(config)
      && LeastOrder(ClassesOf(config), Enumerate(names), LoadedNames(loaded))
      && EnabledSet(config, game, On(loaded))
      && (forall n | n in On(loaded) :: n in config && config[n].file.Fine? && !config[n].problems)
      && (forall n | n in config :: !config[n].file.Unreadable?)
      && (forall l | l in loaded :: l.name in config && l.reason == DisableReason(config[l.name], game, On(loaded)))
    case Err(ListedTwice(n)) => Repeated(names, n)
    case Err(MissingRequirement(n, d)) =>
      Distinct(names) && n in config && d in Requires(config[n]) && d !in config
    case Err(Cycle(stuck)) =>
      && Distinct(names) && Complete(config)
      && Circular(ClassesOf(config)) && Blocked(ClassesOf(config), Enumerate(names), stuck)
    case Err(ConfigMissing(n)) =>
      && Distinct(names) && Complete(config)
      && exists on :: EnabledSet(config, game, on) && n in on && n in config && config[n].file.Missing?
    case Err(ConfigUnreadable(n)) =>
      Distinct(names) && Complete(config) && n in config && config[n].file.Unreadable?
    case Err(ConfigProblems(n)) =>
      && Distinct(names) && Complete(config)
      && exists on :: EnabledSet(config, game, on) && n in on && n in config && config[n].problems
  }

  lemma ConfigOne(entries: seq<Entry>, e: Entry)
    ensures ConfigOf(entries + [e]) == ConfigOf(entries)[e.name := e]
    ensures Distinct(Names(entries + [e])) ==> Distinct(Names(entries)) && e.name !in ConfigOf(entries)
  {
    assert (entries + [e])[..|entries|] == entries;
    var names := Names(entries);
    assert Names(entries + [e]) == names + [e.name];
    assert forall i | 0 <= i < |names| :: (names + [e.name])[i] == names[i];
  }

  lemma DistinctOne(entries: seq<Entry>, e: Entry)
    requires Distinct(Names(entries)) && e.name !in ConfigOf(entries)
    ensures Distinct(Names(entries + [e]))
  {
    hide ConfigOf;
    var names := Names(entries);
    assert Names(entries + [e]) == names + [e.name];
    assert e.name !in Elements(names);
  }

  lemma ListedAgain(entries: seq<Entry>, i: nat)
    requires i < |entries| && entries[i].name in ConfigOf(entries[..i])
    ensures Repeated(Names(entries), entries[i].name)
  {
    hide ConfigOf;
    var names := Names(entries[..i]);
    assert entries[i].name in Elements(names);
    var j :| 0 <= j < |names| && names[j] == entries[i].name;
    assert Names(entries)[j] == Names(entries)[i] == entries[i].name;
  }

  /** The first loop: every name once, or the one that is listed twice. */
  method ByName(entries: seq<Entry>) returns (r: Result<Config, Name>)
    ensures r.Ok? ==> Distinct(Names(entries)) && r.value == ConfigOf(entries)
    ensures r.Err? ==> Repeated(Names(entries), r.error)
  {
    var byName: Config := map[];
    for i := 0 to |entries|
      invariant byName == ConfigOf(entries[..i]) && Distinct(Names(entries[..i]))
    {
      hide ConfigOf, Names, Distinct;
      assert entries[..i + 1] == entries[..i] + [entries[i]];
      if entries[i].name in byName {
        ListedAgain(entries, i);
        return Err(entries[i].name);
      }
      ConfigOne(entries[..i], entries[i]);
      DistinctOne(entries[..i], entries[i]);
      byName := byName[entries[i].name := entries[i]];
    }
    assert entries[..|entries|] == entries;
    return Ok(byName);
  }

  /** The second loop: every requirement is in the config, or the first that is not. */
  method CheckRequirements(config: Config, names: seq<Name>) returns (missing: Option<(Name, Name)>)
    requires forall n :: n in names <==> n in config
    ensures missing.None? ==> Complete(config)
    ensures missing.Some? ==>
              var (n, d) := missing.value; n in config && d in Requires(config[n]) && d !in config
  {
    for i := 0 to |names|
      invariant forall n | n in names[..i] :: Requires(config[n]) <= config.Keys
    {
      assert names[i] in names;
      assert names[..i + 1] == names[..i] + [names[i]];
      var deps := config[names[i]].class_.requiresPlugins;
      for j := 0 to |deps|
        invariant forall d | d in deps[..j] :: d in config
      {
        assert deps[..j + 1] == deps[..j] + [deps[j]];
        if deps[j] !in config {
          return Some((names[i], deps[j]));
        }
      }
      assert deps[..|deps|] == deps;
    }
    assert names[..|names|] == names;
    return None;
  }

  /** What the last loop comes to. */
  ghost predicate Started(config: Config, game: string, order: seq<Name>, r: Result<seq<Loaded>, LoadError>)
    requires forall n | n in order :: n in config
  {
    match r
    case Ok(loaded) =>
      && LoadedNames(loaded) == order && On(loaded) == Decide(config, game, order)
      && (forall n | n in On(loaded) :: n in config && config[n].file.Fine? && !config[n].problems)
      && (forall n | n in order :: !config[n].file.Unreadable?)
      && (forall l | l in loaded :: l.name in config && l.reason == DisableReason(config[l.name], game, On(loaded)))
    case Err(ConfigMissing(n)) => n in config && n in Decide(config, game, order) && config[n].file.Missing?
    case Err(ConfigUnreadable(n)) => n in config && config[n].file.Unreadable?
    case Err(ConfigProblems(n)) => n in config && n in Decide(config, game, order) && config[n].problems
    case _ => false
  }

  lemma NothingLoaded(config: Config, game: string, order: seq<Name>)
    ensures Decide(config, game, order[..0]) == {} == On([]) && LoadedNames([]) == []
  {
  }

  lemma LoadedOne(loaded: seq<Loaded>, l: Loaded)
    ensures LoadedNames(loaded + [l]) == LoadedNames(loaded) + [l.name]
    ensures On(loaded + [l]) == On(loaded) + (if l.reason.Enabled? then {l.name} else {})
  {
    assert (loaded + [l])[..|loaded|] == loaded;
  }

  /** The last loop: each plugin in load order. */
  method Start(config: Config, game: string, order: seq<Name>) returns (r: Result<seq<Loaded>, LoadError>)
    requires Complete(config) && LoadOrder(ClassesOf(config), order)
    requires forall n | n in order :: n in config
    ensures Started(config, game, order, r)
  {
    hide Decide, DisableReason, On, LoadedNames, Requires, Willing, Complete, LoadOrder, ClassesOf;
    var loaded: seq<Loaded> := [];
    var enabledSoFar: set<Name> := {};
    NothingLoaded(config, game, order);
    for i := 0 to |order|
      invariant enabledSoFar == Decide(config, game, order[..i]) == On(loaded)
      invariant LoadedNames(loaded) == order[..i]
      invariant forall n | n in enabledSoFar :: n in config && config[n].file.Fine? && !config[n].problems
      invariant forall n | n in order[..i] :: !config[n].file.Unreadable?
      invariant forall l | l in loaded ::
                  l.name in config && l.reason == DisableReason(config[l.name], game, Decide(config, game, order))
    {
      var name := order[i];
      assert name in order;
      var entry := config[name];
      var reason := DisableReason(entry, game, enabledSoFar);
      ReasonRight(entry, game, enabledSoFar);
      ReasonFinal(config, game, order, i);
      DecideOne(config, game, order[..i], name);
      assert order[..i + 1] == order[..i] + [name];
      DecideGrows(config, game, order[..i + 1], order);
      // Only a missing file is the loader's own error, and only that one is let pass for a plugin that is off.
      if entry.file.Unreadable? {
        return Err(ConfigUnreadable(name));
      }
      if entry.file.Missing? && reason.Enabled? {
        return Err(ConfigMissing(name));
      }
      if reason.Enabled? {
        if entry.problems {
          return Err(ConfigProblems(name));
        }
        enabledSoFar := enabledSoFar + {name};
      }
      LoadedOne(loaded, Loaded(name, reason));
      loaded := loaded + [Loaded(name, reason)];
    }
    assert order[..|order|] == order;
    return Ok(loaded);
  }

  lemma {:induction false} DecideGrows(config: Config, game: string, part: seq<Name>, order: seq<Name>)
    requires part <= order && forall n | n in order :: n in config
    ensures (forall n | n in part :: n in config) && Decide(config, game, part) <= Decide(config, game, order)
    decreases |order|
  {
    assert forall n | n in part :: n in order;
    if part == order {
    } else {
      var front := order[..|order| - 1];
      assert order == front + [order[|order| - 1]];
      assert part <= front;
      DecideGrows(config, game, part, front);
      DecideOne(config, game, front, order[|order| - 1]);
    }
  }

  /** `load_plugins`. */
  method LoadPlugins(entries: seq<Entry>, game: string) returns (r: Result<seq<Loaded>, LoadError>)
    ensures LoadSpec(entries, game, r)
  {
    hide *;
    var byName := ByName(entries);
    if byName.Err? {
      assert LoadSpec(entries, game, Err(ListedTwice(byName.error))) by { TwiceSpec(entries, game, byName.error); }
      return Err(ListedTwice(byName.error));
    }
    var config, names := byName.value, Names(entries);
    ConfigListing(entries);
    var missing := CheckRequirements(config, names);
    if missing.Some? {
      var (n, d) := missing.value;
      MissingSpec(entries, game, n, d);
      return Err(MissingRequirement(n, d));
    }
    var order := OrderNames(ClassesOf(config), names, names);
    if order.Err? {
      CycleSpec(entries, game, order.error);
      return Err(Cycle(order.error));
    }
    LeastIsOrder(ClassesOf(config), Enumerate(names), order.value);
    DecideEnabled(config, game, order.value);
    r := Start(config, game, order.value);
    StartSpec(entries, game, order.value, r);
  }

  lemma ConfigListing(entries: seq<Entry>)
    requires Distinct(Names(entries))
    ensures Listing(ClassesOf(ConfigOf(entries)), Names(entries))
    ensures forall n :: n in Names(entries) <==> n in ConfigOf(entries)
  {
    ListingElements(ClassesOf(ConfigOf(entries)), Names(entries));
  }

  lemma TwiceSpec(entries: seq<Entry>, game: string, name: Name)
    requires Repeated(Names(entries), name)
    ensures LoadSpec(entries, game, Err(ListedTwice(name)))
  {
  }

  lemma MissingSpec(entries: seq<Entry>, game: string, name: Name, dep: Name)
    requires Distinct(Names(entries)) && name in ConfigOf(entries)
    requires dep in Requires(ConfigOf(entries)[name]) && dep !in ConfigOf(entries)
    ensures LoadSpec(entries, game, Err(MissingRequirement(name, dep)))
  {
  }

  lemma CycleSpec(entries: seq<Entry>, game: string, stuck: seq<Name>)
    requires Distinct(Names(entries)) && Complete(ConfigOf(entries)) && Circular(ClassesOf(ConfigOf(entries)))
    requires Blocked(ClassesOf(ConfigOf(entries)), Enumerate(Names(entries)), stuck)
    ensures LoadSpec(entries, game, Err(Cycle(stuck)))
  {
    hide Circular, Blocked;
  }

  lemma StartSpec(entries: seq<Entry>, game: string, order: seq<Name>, r: Result<seq<Loaded>, LoadError>)
    requires Distinct(Names(entries)) && Complete(ConfigOf(entries))
    requires LeastOrder(ClassesOf(ConfigOf(entries)), Enumerate(Names(entries)), order)
    requires forall n :: n in order <==> n in ConfigOf(entries)
    requires EnabledSet(ConfigOf(entries), game, Decide(ConfigOf(entries), game, order))
    requires Started(ConfigOf(entries), game, order, r)
    ensures LoadSpec(entries, game, r)
  {
    hide LeastOrder, EnabledSet, Complete, Distinct, Decide, ConfigOf, Names, On;
  }

  lemma LeastIsOrder(classes: Classes, rank: Ranks, names: seq<Name>)
    requires LeastOrder(classes, rank, names)
    ensures LoadOrder(classes, names)
  {
  }

  // ---- the order of the config list does not matter -------------------------------------------

  lemma {:induction false} ConfigEntries(entries: seq<Entry>)
    requires Distinct(Names(entries))
    ensures forall e :: e in entries <==> e.name in ConfigOf(entries) && ConfigOf(entries)[e.name] == e
    decreases |entries|
  {
    if entries != [] {
      hide ConfigOf, Names;
      var front, last := entries[..|entries| - 1], entries[|entries| - 1];
      assert entries == front + [last];
      ConfigOne(front, last);
      ConfigEntries(front);
      assert last.name !in ConfigOf(front);
      assert forall e :: e in entries <==> e in front || e == last;
    }
  }

  lemma {:induction false} SizeDistinct(names: seq<Name>)
    requires |Elements(names)| == |names|
    ensures Distinct(names)
  {
    if names != [] {
      var front, last := names[..|names| - 1], names[|names| - 1];
      assert names == front + [last];
      assert Elements(names) == Elements(front) + {last};
      ElementsSize(front);
      SizeDistinct(front);
      assert last !in front;
    }
  }

  lemma {:induction false} ElementsSize(names: seq<Name>)
    ensures |Elements(names)| <= |names|
  {
    if names != [] {
      var front, last := names[..|names| - 1], names[|names| - 1];
      assert names == front + [last];
      assert Elements(names) == Elements(front) + {last};
      ElementsSize(front);
    }
  }

  lemma SameNames(entries: seq<Entry>, others: seq<Entry>)
    requires multiset(entries) == multiset(others) && Distinct(Names(entries))
    ensures Distinct(Names(others)) && ConfigOf(entries) == ConfigOf(others)
  {
    hide ConfigOf, Names, Elements, Distinct;
    assert forall e :: e in entries <==> e in multiset(entries);
    assert forall e :: e in others <==> e in multiset(others);
    NamesIncluded(entries, others);
    NamesIncluded(others, entries);
    assert Elements(Names(entries)) == Elements(Names(others));
    DistinctSize(Names(entries));
    assert |entries| == |multiset(entries)| && |others| == |multiset(others)|;
    SizeDistinct(Names(others));
    ConfigEntries(entries);
    ConfigEntries(others);
    var a, b := ConfigOf(entries), ConfigOf(others);
    forall n | n in a
      ensures a[n] == b[n]
    {
      NamedEntry(entries, n);
    }
  }

  lemma NamedEntry(entries: seq<Entry>, name: Name)
    requires Distinct(Names(entries)) && name in ConfigOf(entries)
    ensures ConfigOf(entries)[name] in entries && ConfigOf(entries)[name].name == name
  {
    ConfigEntries(entries);
    assert name in Elements(Names(entries));
    var i :| 0 <= i < |entries| && Names(entries)[i] == name;
    assert entries[i] in entries;
  }

  lemma NamesIncluded(entries: seq<Entry>, others: seq<Entry>)
    requires forall e :: e in entries ==> e in others
    ensures Elements(Names(entries)) <= Elements(Names(others))
  {
    forall n | n in Names(entries)
      ensures n in Names(others)
    {
      var i :| 0 <= i < |entries| && Names(entries)[i] == n;
      assert entries[i] in entries;
      var j :| 0 <= j < |others| && others[j] == entries[i];
      assert Names(others)[j] == n;
    }
  }

  lemma NotRepeated(names: seq<Name>, name: Name)
    requires Distinct(names)
    ensures !Repeated(names, name)
  {
  }

  lemma CompleteHas(config: Config, name: Name, dep: Name)
    requires Complete(config) && name in config && dep in Requires(config[name])
    ensures dep in config
  {
  }

  lemma OrderNotCircular(classes: Classes, rank: Ranks, names: seq<Name>)
    requires LeastOrder(classes, rank, names)
    ensures !Circular(classes)
  {
    forall held | SelfHolding(classes, held)
      ensures held == {}
    {
      HeldNeverPlaced(classes, names, held);
      assert forall n | n in held :: n in Elements(names);
    }
  }

  lemma OnlyEnabledSet(config: Config, game: string, on: set<Name>)
    requires EnabledSet(config, game, on)
    ensures forall other | EnabledSet(config, game, other) :: other == on
  {
    forall other | EnabledSet(config, game, other)
      ensures other == on
    {
      EnabledSetUnique(config, game, other, on);
    }
  }

  /** Every config file that is there can be read, and those of `on` are there and check. */
  predicate Healthy(config: Config, on: set<Name>) {
    && (forall n | n in config :: !config[n].file.Unreadable?)
    && (forall n | n in on :: n in config && config[n].file.Fine? && !config[n].problems)
  }

  /** What it takes for a config to load: no name twice, every requirement configured, no circle, nothing wrong with the
      config file of any plugin that should run, and no config file there, of any plugin, that cannot be read. */
  ghost predicate Loadable(entries: seq<Entry>, game: string) {
    && Distinct(Names(entries)) && Complete(ConfigOf(entries)) && !Circular(ClassesOf(ConfigOf(entries)))
    && exists on :: EnabledSet(ConfigOf(entries), game, on) && Healthy(ConfigOf(entries), on)
  }

  /** `off` is the names of `names` numbered in `at`, in order: those that are not `on`. */
  predicate OffAt(names: seq<Name>, on: set<Name>, off: seq<Name>, at: seq<nat>) {
    && |at| == |off| && (forall i | 0 <= i < |at| :: at[i] < |names| && off[i] == names[at[i]])
    && (forall i, j | 0 <= i < j < |at| :: at[i] < at[j])
    && (forall k | 0 <= k < |names| :: k in at <==> names[k] !in on)
  }

  lemma {:induction false} OffExactly(names: seq<Name>, on: set<Name>) returns (at: seq<nat>)
    ensures OffAt(names, on, Off(names, on), at)
  {
    at := [];
    if names != [] {
      hide Off, OffAt;
      var front, last := names[..|names| - 1], names[|names| - 1];
      assert names == front + [last];
      at := OffExactly(front, on);
      OffOne(front, last, on);
      OffAtOne(front, last, on, Off(front, on), at);
      at := if last in on then at else at + [|front|];
    } else {
      NothingOff(on);
    }
  }

  lemma NothingOff(on: set<Name>)
    ensures OffAt([], on, Off([], on), [])
  {
  }

  lemma {:induction false} OffOne(names: seq<Name>, name: Name, on: set<Name>)
    ensures Off(names + [name], on) == Off(names, on) + if name in on then [] else [name]
  {
    if names != [] {
      assert (names + [name])[1..] == names[1..] + [name];
      OffOne(names[1..], name, on);
    } else {
      assert names + [name] == [name];
    }
  }

  lemma OffAtOne(names: seq<Name>, name: Name, on: set<Name>, off: seq<Name>, at: seq<nat>)
    requires OffAt(names, on, off, at)
    ensures if name in on then OffAt(names + [name], on, off + [], at)
            else OffAt(names + [name], on, off + [name], at + [|names|])
  {
    assert off + [] == off;
    assert forall k :: k in at + [|names|] <==> k in at || k == |names|;
    assert forall k | k in at :: k < |names|;
  }

  /** What the reason given for each loaded plugin means: it was switched off; or it was not, and does not support the
      game; or neither, and the requirements listed, in the order its class has them, are the ones that do not run; or
      it runs. */
  lemma ReasonsMean(entries: seq<Entry>, game: string, loaded: seq<Loaded>, l: Loaded) returns (at: seq<nat>)
    requires LoadSpec(entries, game, Ok(loaded)) && l in loaded
    ensures l.name in ConfigOf(entries)
    ensures var (e, on) := (ConfigOf(entries)[l.name], On(loaded));
            var needs := e.class_.requiresPlugins;
            && (l.reason.DisabledInConfig? <==> e.disabled)
            && (l.reason.WrongGame? <==> !e.disabled && e.parsers.Some? && game !in e.parsers.value)
            && (l.reason.RequirementsOff? <==> Willing(e, game) && exists d | d in needs :: d !in on)
            && (l.reason.RequirementsOff? ==> OffAt(needs, on, l.reason.off, at))
            && (l.reason.Enabled? <==> Willing(e, game) && forall d | d in needs :: d in on)
            && (l.reason.Enabled? <==> l.name in on)
  {
    hide LeastOrder, Complete, Distinct, ConfigOf, Names, On, ClassesOf, Off;
    var e := ConfigOf(entries)[l.name];
    at := OffExactly(e.class_.requiresPlugins, On(loaded));
    OffEmpty(e.class_.requiresPlugins, On(loaded));
    ReasonRight(e, game, On(loaded));
  }

  lemma LoadedIsLoadable(entries: seq<Entry>, game: string, loaded: seq<Loaded>)
    requires LoadSpec(entries, game, Ok(loaded))
    ensures Loadable(entries, game) && EnabledSet(ConfigOf(entries), game, On(loaded))
  {
    hide LeastOrder, Circular, EnabledSet, Complete, Distinct, ConfigOf, Names, On;
    OrderNotCircular(ClassesOf(ConfigOf(entries)), Enumerate(Names(entries)), LoadedNames(loaded));
    assert Healthy(ConfigOf(entries), On(loaded));
  }

  lemma LoadableLoads(entries: seq<Entry>, game: string, error: LoadError)
    requires Loadable(entries, game)
    ensures !LoadSpec(entries, game, Err(error))
  {
    hide LeastOrder, Circular, Blocked, EnabledSet, Complete, Distinct, ConfigOf, Names, On, Repeated, Requires;
    var config := ConfigOf(entries);
    var on :| EnabledSet(config, game, on) && Healthy(config, on);
    OnlyEnabledSet(config, game, on);
    match error
    case ListedTwice(n) => NotRepeated(Names(entries), n);
    case MissingRequirement(n, d) =>
      if n in config && d in Requires(config[n]) {
        CompleteHas(config, n, d);
      }
    case _ =>
  }

  /** Loading succeeds exactly when that is so, whatever the dictionary order. */
  lemma LoadsExactly(entries: seq<Entry>, game: string, r: Result<seq<Loaded>, LoadError>)
    requires LoadSpec(entries, game, r)
    ensures r.Ok? <==> Loadable(entries, game)
  {
    hide LoadSpec, Loadable;
    match r
    case Ok(loaded) => LoadedIsLoadable(entries, game, loaded);
    case Err(e) =>
      if Loadable(entries, game) {
        LoadableLoads(entries, game, e);
      }
  }

  lemma ConfigReplace(entries: seq<Entry>, i: nat, e: Entry)
    requires i < |entries| && e.name == entries[i].name && Distinct(Names(entries))
    ensures Names(entries[i := e]) == Names(entries)
    ensures ConfigOf(entries[i := e]) == ConfigOf(entries)[e.name := e]
  {
    hide ConfigOf, Names, Distinct;
    var others := entries[i := e];
    assert Names(others) == Names(entries);
    ConfigEntries(entries);
    ConfigEntries(others);
    assert others[i] in others && entries[i] in entries;
    forall n | n in ConfigOf(entries) && n != e.name
      ensures ConfigOf(others)[n] == ConfigOf(entries)[n]
    {
      NamedEntry(entries, n);
      var j :| 0 <= j < |entries| && entries[j] == ConfigOf(entries)[n];
      assert others[j] in others;
    }
  }

  /** Who should run does not depend on anyone's config file. */
  lemma SameButFile(config: Config, game: string, name: Name, file: ConfigFile)
    requires name in config
    ensures var config' := config[name := config[name].(file := file)];
            && ClassesOf(config') == ClassesOf(config) && (Complete(config') <==> Complete(config))
            && forall on :: EnabledSet(config', game, on) <==> EnabledSet(config, game, on)
  {
    var config' := config[name := config[name].(file := file)];
    assert forall n | n in config :: Willing(config'[n], game) == Willing(config[n], game);
    assert forall n | n in config :: Requires(config'[n]) == Requires(config[n]);
    assert forall on :: Closed(config', game, on) <==> Closed(config, game, on);
  }

  /** "A plugin that will not run should not be able to break startup over its config file", says the loader. That is so
      exactly of a file that is not there or can be read: whatever the config, such a file of a plugin that should not
      run makes no difference to loading, and one that is there and cannot be read stops it. */
  lemma OffPluginsFile(entries: seq<Entry>, i: nat, game: string, on: set<Name>)
    requires i < |entries| && EnabledSet(ConfigOf(entries), game, on) && entries[i].name !in on
    ensures Loadable(entries, game)
       <==> !entries[i].file.Unreadable? && Loadable(entries[i := entries[i].(file := Fine)], game)
  {
    hide Circular, EnabledSet, Complete, Distinct, ConfigOf, Names, ClassesOf;
    var e := entries[i].(file := Fine);
    assert Names(entries[i := e]) == Names(entries);
    if Distinct(Names(entries)) {
      var config := ConfigOf(entries);
      ConfigReplace(entries, i, e);
      ConfigEntries(entries);
      assert entries[i] in entries;
      SameButFile(config, game, e.name, Fine);
      OnlyEnabledSet(config, game, on);
      assert Healthy(config, on) <==>
        !entries[i].file.Unreadable? && Healthy(config[e.name := e], on);
    }
  }

  lemma Alone(e: Entry, game: string)
    requires e.disabled && e.class_.requiresPlugins == []
    ensures Distinct(Names([e])) && ConfigOf([e]) == map[e.name := e]
    ensures Complete(ConfigOf([e])) && !Circular(ClassesOf(ConfigOf([e]))) && EnabledSet(ConfigOf([e]), game, {})
  {
    assert ConfigOf([e]) == map[e.name := e];
    assert Dependencies(ClassesOf(ConfigOf([e])), e.name) == {};
  }

  /** The least such config: a plugin switched off, on its own, stops the loader when its file is there and does not
      parse, and the same plugin with the file gone does not. */
  lemma OffStillBreaks(e: Entry, game: string, r: Result<seq<Loaded>, LoadError>)
    requires e.disabled && e.class_.requiresPlugins == [] && LoadSpec([e], game, r)
    ensures e.file.Unreadable? ==> r == Err(ConfigUnreadable(e.name))
    ensures !e.file.Unreadable? ==> r.Ok?
  {
    hide LeastOrder, Circular, Blocked, EnabledSet, Complete, Distinct, ConfigOf, Names, On, ClassesOf, Requires;
    Alone(e, game);
    var config := ConfigOf([e]);
    OnlyEnabledSet(config, game, {});
    assert e.name in config;
    LoadsExactly([e], game, r);
    if e.file.Unreadable? {
      match r.error
      case ListedTwice(n) => NotRepeated(Names([e]), n);
      case MissingRequirement(n, d) => CompleteHas(config, n, d);
      case _ =>
    } else {
      assert Healthy(config, {});
    }
  }

  lemma SameLoadable(entries: seq<Entry>, others: seq<Entry>, game: string)
    requires multiset(entries) == multiset(others)
    ensures Loadable(entries, game) <==> Loadable(others, game)
  {
    hide Circular, EnabledSet, Complete, Distinct, ConfigOf, Names, Healthy;
    if Distinct(Names(entries)) {
      SameNames(entries, others);
    } else if Distinct(Names(others)) {
      SameNames(others, entries);
    }
  }

  /** Two configs that list the same plugins in different orders both load or both fail, and enable the same
      plugins. */
  lemma ConfigOrderIrrelevant(entries: seq<Entry>, others: seq<Entry>, game: string,
                              r: Result<seq<Loaded>, LoadError>, r': Result<seq<Loaded>, LoadError>)
    requires multiset(entries) == multiset(others)
    requires LoadSpec(entries, game, r) && LoadSpec(others, game, r')
    ensures r.Ok? <==> r'.Ok?
    ensures r.Ok? ==> On(r.value) == On(r'.value)
  {
    hide LoadSpec, Loadable, ConfigOf, Names, On, EnabledSet;
    LoadsExactly(entries, game, r);
    LoadsExactly(others, game, r');
    SameLoadable(entries, others, game);
    if r.Ok? {
      LoadedIsLoadable(entries, game, r.value);
      LoadedIsLoadable(others, game, r'.value);
      LoadableDistinct(entries, game);
      SameNames(entries, others);
      EnabledSetUnique(ConfigOf(entries), game, On(r.value), On(r'.value));
    }
  }

  lemma LoadableDistinct(entries: seq<Entry>, game: string)
    requires Loadable(entries, game)
    ensures Distinct(Names(entries))
  {
  }
}
