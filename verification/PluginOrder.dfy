/** The order plugins are loaded in: dependencies first, ties in config order. */
module PluginOrder {
  import opened Wrappers

  type Name = string

  /** What a plugin class says about order: hard requirements and soft ones. */
  datatype Class = Class(requiresPlugins: seq<Name>, loadAfter: seq<Name>)

  type Classes = map<Name, Class>

  function Elements(names: seq<Name>): set<Name> {
    set n | n in names
  }

  predicate Distinct(names: seq<Name>) {
    forall i, j | 0 <= i < j < |names| :: names[i] != names[j]
  }

  /** The dependencies that constrain order: configured ones, and not the plugin itself. */
  function Dependencies(classes: Classes, name: Name): set<Name>
    requires name in classes
  {
    set d | d in classes[name].requiresPlugins + classes[name].loadAfter && d in classes && d != name
  }

  /** A list of all the configured names, each once. */
  ghost predicate Listing(classes: Classes, names: seq<Name>) {
    Distinct(names) && Elements(names) == classes.Keys
  }

  // ---- ranks ----------------------------------------------------------------------------------

  type Ranks = map<Name, nat>

  ghost predicate Ranking(rank: Ranks) {
    forall m, n | m in rank && n in rank && m != n :: rank[m] != rank[n]
  }

  function Enumerate(names: seq<Name>): (rank: Ranks)
    requires Distinct(names)
    ensures rank.Keys == Elements(names) && Ranking(rank)
    ensures forall i | 0 <= i < |names| :: rank[names[i]] == i
  {
    if names == [] then map[]
    else
      var front := names[..|names| - 1];
      assert names == front + [names[|names| - 1]];
      Enumerate(front)[names[|names| - 1] := |names| - 1]
  }

  /** In ascending order of rank. */
  ghost predicate Ranked(names: seq<Name>, rank: Ranks) {
    && (forall n | n in names :: n in rank)
    && (names != [] ==> Ranked(names[1..], rank) && forall n | n in names[1..] :: rank[names[0]] < rank[n])
  }

  function InsertByRank(name: Name, names: seq<Name>, rank: Ranks): seq<Name>
    requires name in rank && forall n | n in names :: n in rank
  {
    if names == [] || rank[name] <= rank[names[0]] then [name] + names
    else [names[0]] + InsertByRank(name, names[1..], rank)
  }

  /** `sorted(names, key=rank.__getitem__)`. */
  function SortByRank(names: seq<Name>, rank: Ranks): (sorted: seq<Name>)
    requires forall n | n in names :: n in rank
    ensures forall n :: n in sorted <==> n in names
  {
    if names == [] then []
    else
      assert names == [names[0]] + names[1..];
      var rest := SortByRank(names[1..], rank);
      InsertElements(names[0], rest, rank);
      InsertByRank(names[0], rest, rank)
  }

  lemma {:induction false} InsertElements(name: Name, names: seq<Name>, rank: Ranks)
    requires name in rank && forall n | n in names :: n in rank
    ensures forall n :: n in InsertByRank(name, names, rank) <==> n == name || n in names
  {
    if names != [] && rank[name] > rank[names[0]] {
      assert names == [names[0]] + names[1..];
      InsertElements(name, names[1..], rank);
    }
  }

  lemma {:induction false} InsertRanked(name: Name, names: seq<Name>, rank: Ranks)
    requires name in rank && Ranking(rank) && Ranked(names, rank) && name !in names
    ensures Ranked(InsertByRank(name, names, rank), rank)
  {
    InsertElements(name, names, rank);
    if names != [] {
      assert names == [names[0]] + names[1..];
      if rank[name] > rank[names[0]] {
        InsertElements(name, names[1..], rank);
        InsertRanked(name, names[1..], rank);
      } else {
        assert ([name] + names)[1..] == names;
        assert rank[name] < rank[names[0]];
      }
    }
  }

  lemma {:induction false} SortRanked(names: seq<Name>, rank: Ranks)
    requires Distinct(names) && Ranking(rank) && forall n | n in names :: n in rank
    ensures Ranked(SortByRank(names, rank), rank)
  {
    if names != [] {
      assert names[0] !in names[1..];
      assert forall n | n in names[1..] :: n in names;
      SortRanked(names[1..], rank);
      InsertRanked(names[0], SortByRank(names[1..], rank), rank);
    }
  }

  // ---- what a right order is ------------------------------------------------------------------

  /** Every dependency comes before the plugin that has it. */
  ghost predicate DependenciesFirst(classes: Classes, names: seq<Name>) {
    forall i | 0 <= i < |names| :: names[i] in classes && Dependencies(classes, names[i]) <= Elements(names[..i])
  }

  ghost predicate LoadOrder(classes: Classes, names: seq<Name>) {
    Listing(classes, names) && DependenciesFirst(classes, names)
  }

  /** `d` must come before `n`: it is required by it or to be loaded before it, configured, and another plugin. */
  predicate Before(classes: Classes, d: Name, n: Name) {
    && n in classes && d in classes && d != n
    && (d in classes[n].requiresPlugins || d in classes[n].loadAfter)
  }

  /** In such an order every configured plugin stands once, behind all it requires and all it is to be loaded after. */
  lemma LoadOrderExactly(classes: Classes, names: seq<Name>)
    ensures LoadOrder(classes, names) <==>
              && (forall n :: n in names <==> n in classes)
              && (forall i, j | 0 <= i < j < |names| :: names[i] != names[j])
              && (forall i, j | 0 <= i < j < |names| :: !Before(classes, names[j], names[i]))
  {
    var ordered := forall i, j | 0 <= i < j < |names| :: !Before(classes, names[j], names[i]);
    if (forall n :: n in names <==> n in classes) && Distinct(names) {
      assert Elements(names) == classes.Keys;
      if DependenciesFirst(classes, names) {
        forall i, j | 0 <= i < j < |names|
          ensures !Before(classes, names[j], names[i])
        {
          NotEarlier(names, i, j);
          assert names[j] !in Dependencies(classes, names[i]);
        }
      }
      if ordered {
        forall i | 0 <= i < |names|
          ensures names[i] in classes && Dependencies(classes, names[i]) <= Elements(names[..i])
        {
          assert names[i] in names;
          forall d | d in Dependencies(classes, names[i])
            ensures d in names[..i]
          {
            var j :| 0 <= j < |names| && names[j] == d;
            assert Before(classes, d, names[i]);
          }
        }
      }
    }
    if LoadOrder(classes, names) {
      assert forall n :: n in names <==> n in Elements(names);
    }
  }

  lemma NotEarlier(names: seq<Name>, i: nat, j: nat)
    requires Distinct(names) && i <= j < |names|
    ensures names[j] !in Elements(names[..i])
  {
  }

  /** There is no such order exactly when some plugins wait for one another in a circle: each of them behind another. */
  lemma CircularExactly(classes: Classes)
    ensures Circular(classes) <==> exists held: set<Name> :: held != {} && EachBehind(classes, held)
  {
    hide SelfHolding, EachBehind;
    if held :| held != {} && SelfHolding(classes, held) {
      HoldingExactly(classes, held);
    }
    if held: set<Name> :| held != {} && EachBehind(classes, held) {
      HoldingExactly(classes, held);
    }
  }

  ghost predicate EachBehind(classes: Classes, held: set<Name>) {
    forall n | n in held :: exists d :: d in held && Before(classes, d, n)
  }

  lemma HoldingExactly(classes: Classes, held: set<Name>)
    ensures SelfHolding(classes, held) <==> EachBehind(classes, held)
  {
    forall n | n in held && n in classes
      ensures (exists d :: d in Dependencies(classes, n) && d in held)
              <==> (exists d :: d in held && Before(classes, d, n))
    {
      assert forall d :: d in Dependencies(classes, n) <==> Before(classes, d, n);
    }
  }

  /** Comparing two orders by config rank at the first place they differ. */
  ghost predicate Precedes(rank: Ranks, xs: seq<Name>, ys: seq<Name>) {
    exists k ::
      && 0 <= k < |xs| && k < |ys| && xs[..k] == ys[..k]
      && xs[k] in rank && ys[k] in rank && rank[xs[k]] < rank[ys[k]]
  }

  /** The least of all the orders that put dependencies first. */
  ghost predicate LeastOrder(classes: Classes, rank: Ranks, names: seq<Name>) {
    && LoadOrder(classes, names)
    && forall others | LoadOrder(classes, others) :: others == names || Precedes(rank, names, others)
  }

  /** A set of plugins each of which depends on a member of the set: what makes an order impossible. */
  ghost predicate SelfHolding(classes: Classes, held: set<Name>) {
    forall n | n in held :: n in classes && exists d :: d in Dependencies(classes, n) && d in held
  }

  /** The names, by rank, of the greatest set of plugins that wait for one another; there are some. */
  ghost predicate Blocked(classes: Classes, rank: Ranks, names: seq<Name>) {
    && names != [] && Ranked(names, rank)
    && SelfHolding(classes, Elements(names))
    && (forall held | SelfHolding(classes, held) :: held <= Elements(names))
  }

  /** Whether any plugins wait for one another. */
  ghost predicate Circular(classes: Classes) {
    exists held :: held != {} && SelfHolding(classes, held)
  }

  // ---- what the loop has to keep --------------------------------------------------------------

  /** Everything placed could be placed when it was, and had the least rank of all that could. */
  ghost predicate Greedy(classes: Classes, rank: Ranks, names: seq<Name>) {
    && DependenciesFirst(classes, names)
    && forall i, n | 0 <= i < |names| && n in classes && n in rank && n !in names[..i]
                     && Dependencies(classes, n) <= Elements(names[..i]) ::
         names[i] in rank && rank[names[i]] <= rank[n]
  }

  lemma GreedyOne(classes: Classes, rank: Ranks, names: seq<Name>, name: Name)
    requires Greedy(classes, rank, names)
    requires name in classes && name in rank && Dependencies(classes, name) <= Elements(names)
    requires forall n | n in classes && n in rank && n !in names && Dependencies(classes, n) <= Elements(names) ::
               rank[name] <= rank[n]
    ensures Greedy(classes, rank, names + [name])
  {
    var longer := names + [name];
    assert longer[..|names|] == names;
    assert forall i | 0 <= i < |names| :: longer[..i] == names[..i];
  }

  lemma GreedyIsLeast(classes: Classes, rank: Ranks, names: seq<Name>)
    requires Greedy(classes, rank, names) && Listing(classes, names) && rank.Keys == classes.Keys && Ranking(rank)
    ensures LeastOrder(classes, rank, names)
  {
    forall others | LoadOrder(classes, others) && others != names
      ensures Precedes(rank, names, others)
    {
      DifferSomewhere(names, others);
      var k :| 0 <= k < |names| && k < |others| && names[..k] == others[..k] && names[k] != others[k];
      assert others[k] !in others[..k];
      assert others[k] in Elements(others) && names[k] in Elements(names);
      assert Dependencies(classes, others[k]) <= Elements(names[..k]);
    }
  }

  lemma {:induction false} DistinctSize(names: seq<Name>)
    requires Distinct(names)
    ensures |Elements(names)| == |names|
  {
    if names != [] {
      var front, last := names[..|names| - 1], names[|names| - 1];
      DistinctSize(front);
      assert names == front + [last];
      assert Elements(names) == Elements(front) + {last};
    }
  }

  lemma DifferSomewhere(xs: seq<Name>, ys: seq<Name>)
    requires Distinct(xs) && Distinct(ys) && Elements(xs) == Elements(ys) && xs != ys
    ensures exists k :: 0 <= k < |xs| && k < |ys| && xs[..k] == ys[..k] && xs[k] != ys[k]
  {
    DistinctSize(xs);
    DistinctSize(ys);
    var k := 0;
    while k < |xs| && xs[k] == ys[k]
      invariant k <= |xs| && xs[..k] == ys[..k]
    {
      k := k + 1;
    }
    assert xs[..|xs|] == xs && ys[..|xs|] == ys;
  }

  /** A plugin that waits for its own set is never placed. */
  lemma {:induction false} HeldNeverPlaced(classes: Classes, names: seq<Name>, held: set<Name>)
    requires DependenciesFirst(classes, names) && SelfHolding(classes, held)
    ensures Elements(names) !! held
  {
    if names != [] {
      var front, last := names[..|names| - 1], names[|names| - 1];
      FirstPart(classes, names);
      HeldNeverPlaced(classes, front, held);
      hide DependenciesFirst, SelfHolding, Dependencies;
      NotHeld(classes, Elements(front), last, held);
    }
  }

  lemma FirstPart(classes: Classes, names: seq<Name>)
    requires DependenciesFirst(classes, names) && names != []
    ensures var front, last := names[..|names| - 1], names[|names| - 1];
            && DependenciesFirst(classes, front)
            && last in classes && Dependencies(classes, last) <= Elements(front)
            && Elements(names) == Elements(front) + {last}
  {
    hide Dependencies;
    var front, last := names[..|names| - 1], names[|names| - 1];
    assert forall i | 0 <= i < |front| :: front[..i] == names[..i];
    assert names == front + [last];
  }

  lemma NotHeld(classes: Classes, placed: set<Name>, name: Name, held: set<Name>)
    requires SelfHolding(classes, held) && placed !! held
    requires name in classes && Dependencies(classes, name) <= placed
    ensures name !in held
  {
    hide Dependencies;
  }

  // ---- the algorithm --------------------------------------------------------------------------

  /** What every turn of the loop starts from. */
  ghost predicate State(classes: Classes, rank: Ranks, pending: map<Name, set<Name>>, ready: seq<Name>,
                        ordered: seq<Name>) {
    && Distinct(ordered) && Greedy(classes, rank, ordered)
    && pending.Keys == classes.Keys - Elements(ordered)
    && (forall n | n in pending :: pending[n] == Dependencies(classes, n) - Elements(ordered))
    && Ranked(ready, rank)
    && (forall n :: n in ready <==> n in pending && pending[n] == {})
  }

  /** Take a placed plugin off what the others wait for. `names` is the order the dictionary is gone through in. */
  method Free(pending: map<Name, set<Name>>, names: seq<Name>, name: Name)
    returns (pending': map<Name, set<Name>>, freed: seq<Name>)
    requires Distinct(names) && pending.Keys <= Elements(names)
    ensures pending'.Keys == pending.Keys
    ensures forall n | n in pending :: pending'[n] == pending[n] - {name}
    ensures Distinct(freed)
    ensures forall n :: n in freed <==> n in pending && name in pending[n] && pending[n] - {name} == {}
  {
    pending', freed := pending, [];
    for i := 0 to |names|
      invariant pending'.Keys == pending.Keys && Distinct(freed)
      invariant forall n | n in pending ::
                  pending'[n] == if n in names[..i] then pending[n] - {name} else pending[n]
      invariant forall n :: n in freed <==>
                  n in names[..i] && n in pending && name in pending[n] && pending[n] - {name} == {}
    {
      var other := names[i];
      assert names[..i + 1] == names[..i] + [other];
      assert other !in names[..i];
      if other in pending' && name in pending'[other] {
        pending' := pending'[other := pending'[other] - {name}];
        if pending'[other] == {} {
          freed := freed + [other];
        }
      }
    }
    assert names[..|names|] == names;
    assert forall n | n in pending :: n in Elements(names);
  }

  /** The names of `names` that are ready from the start, in the same order. */
  function Idle(names: seq<Name>, pending: map<Name, set<Name>>): (idle: seq<Name>)
    requires Distinct(names)
    ensures Distinct(idle) && forall n :: n in idle <==> n in names && n in pending && pending[n] == {}
  {
    if names == [] then []
    else
      var front, last := names[..|names| - 1], names[|names| - 1];
      assert names == front + [last];
      Idle(front, pending) + (if last in pending && pending[last] == {} then [last] else [])
  }

  function Among(names: seq<Name>, pending: map<Name, set<Name>>): (left: seq<Name>)
    requires Distinct(names)
    ensures Distinct(left) && forall n :: n in left <==> n in names && n in pending
  {
    if names == [] then []
    else
      var front, last := names[..|names| - 1], names[|names| - 1];
      assert names == front + [last];
      Among(front, pending) + (if last in pending then [last] else [])
  }

  /** One turn of the loop in `order_names`: place the plugin at the head of `ready`. */
  method PlaceOne(classes: Classes, rank: Ranks, names: seq<Name>, pending: map<Name, set<Name>>, ready: seq<Name>,
                  ghost ordered: seq<Name>)
    returns (pending': map<Name, set<Name>>, ready': seq<Name>)
    requires State(classes, rank, pending, ready, ordered) && ready != []
    requires Listing(classes, names) && rank.Keys == classes.Keys && Ranking(rank)
    ensures State(classes, rank, pending', ready', ordered + [ready[0]])
    ensures |pending'| < |pending|
  {
    hide State, Listing, Ranking, Ranked, Distinct;
    var name := ready[0];
    FirstReady(classes, rank, pending, ready, ordered, names);
    pending' := pending - {name};
    assert pending.Keys == pending'.Keys + {name};
    var freed;
    pending', freed := Free(pending', names, name);
    NextState(classes, rank, pending, ready, ordered, pending', freed);
    ready' := ready[1..];
    if freed != [] {
      ready' := SortByRank(ready' + freed, rank);
    }
    assert |pending'.Keys| < |pending.Keys|;
  }

  /** `order_names`. The dictionary may be gone through in any order. The result is the least order that puts every
      dependency first; or the names, by rank, of the greatest set of plugins that wait for one another. */
  method OrderNames(classes: Classes, dictOrder: seq<Name>, configOrder: seq<Name>)
    returns (r: Result<seq<Name>, seq<Name>>)
    requires Listing(classes, dictOrder) && Listing(classes, configOrder)
    ensures r.Ok? ==> LeastOrder(classes, Enumerate(configOrder), r.value)
    ensures r.Err? ==> Blocked(classes, Enumerate(configOrder), r.error)
    ensures r.Err? <==> Circular(classes)
  {
    hide *;
    ListingElements(classes, dictOrder);
    ListingElements(classes, configOrder);
    var rank := Enumerate(configOrder);
    var pending := map n | n in classes :: Dependencies(classes, n);
    ReadyAtStart(classes, rank, dictOrder);
    var ready := SortByRank(Idle(dictOrder, pending), rank);
    var ordered: seq<Name> := [];
    while ready != []
      invariant State(classes, rank, pending, ready, ordered)
      decreases |pending|
    {
      var name := ready[0];
      pending, ready := PlaceOne(classes, rank, dictOrder, pending, ready, ordered);
      ordered := ordered + [name];
    }
    if pending != map[] {
      var stuck := SortByRank(Among(dictOrder, pending), rank) by {
        StateKeys(classes, rank, pending, ready, ordered);
      }
      StuckNames(classes, rank, pending, ordered, dictOrder);
      return Err(stuck);
    }
    Complete(classes, rank, pending, ordered);
    return Ok(ordered);
  }

  lemma StuckElements(pending: map<Name, set<Name>>, stuck: seq<Name>)
    requires pending != map[] && forall n :: n in stuck <==> n in pending
    ensures Elements(stuck) == pending.Keys && pending.Keys != {} && stuck != []
  {
    assert pending.Keys != {};
    var n :| n in pending;
    assert n in stuck;
  }

  /** When nothing is ready but something is left, what is left is what the exception names. */
  lemma StuckNames(classes: Classes, rank: Ranks, pending: map<Name, set<Name>>, ordered: seq<Name>, names: seq<Name>)
    requires State(classes, rank, pending, [], ordered) && pending != map[]
    requires Listing(classes, names) && Ranking(rank) && rank.Keys == classes.Keys
    ensures Blocked(classes, rank, SortByRank(Among(names, pending), rank))
    ensures Circular(classes)
  {
    hide *;
    StuckHolds(classes, rank, pending, ordered);
    ListingElements(classes, names);
    StateKeys(classes, rank, pending, [], ordered);
    var left := Among(names, pending);
    SortRanked(left, rank);
    StuckElements(pending, SortByRank(left, rank));
    MakeBlocked(classes, rank, SortByRank(left, rank));
  }

  lemma MakeBlocked(classes: Classes, rank: Ranks, stuck: seq<Name>)
    requires stuck != [] && Ranked(stuck, rank) && SelfHolding(classes, Elements(stuck))
    requires forall held | SelfHolding(classes, held) :: held <= Elements(stuck)
    ensures Blocked(classes, rank, stuck) && Circular(classes)
  {
    assert stuck[0] in Elements(stuck);
    hide SelfHolding, Elements, Ranked;
  }

  lemma ListingElements(classes: Classes, names: seq<Name>)
    requires Listing(classes, names)
    ensures forall n :: n in names <==> n in classes
    ensures Distinct(names) && Elements(names) == classes.Keys
  {
    assert forall n :: n in names <==> n in Elements(names);
  }

  lemma ReadyAtStart(classes: Classes, rank: Ranks, names: seq<Name>)
    requires Listing(classes, names) && Ranking(rank) && rank.Keys == classes.Keys
    ensures var pending := map n | n in classes :: Dependencies(classes, n);
            State(classes, rank, pending, SortByRank(Idle(names, pending), rank), [])
  {
    hide *;
    var pending := map n | n in classes :: Dependencies(classes, n);
    ListingElements(classes, names);
    SortRanked(Idle(names, pending), rank);
    StartState(classes, rank, SortByRank(Idle(names, pending), rank));
  }

  lemma StartState(classes: Classes, rank: Ranks, ready: seq<Name>)
    requires var pending := map n | n in classes :: Dependencies(classes, n);
             Ranked(ready, rank) && forall n :: n in ready <==> n in pending && pending[n] == {}
    ensures State(classes, rank, map n | n in classes :: Dependencies(classes, n), ready, [])
  {
    hide Dependencies, Ranked;
    assert Elements([]) == {};
  }

  lemma AllPlaced(classes: Classes, rank: Ranks, pending: map<Name, set<Name>>, ordered: seq<Name>)
    requires State(classes, rank, pending, [], ordered) && pending == map[]
    ensures Listing(classes, ordered) && Greedy(classes, rank, ordered) && DependenciesFirst(classes, ordered)
  {
    hide Dependencies;
    forall n | n in ordered
      ensures n in classes
    {
      var i :| 0 <= i < |ordered| && ordered[i] == n;
    }
    assert pending.Keys == {};
    NothingLeft(classes.Keys, Elements(ordered));
    assert Elements(ordered) <= classes.Keys;
  }

  /** When nothing is left to place, the order is complete and nothing holds itself up. */
  lemma Complete(classes: Classes, rank: Ranks, pending: map<Name, set<Name>>, ordered: seq<Name>)
    requires State(classes, rank, pending, [], ordered) && pending == map[]
    requires rank.Keys == classes.Keys && Ranking(rank)
    ensures LeastOrder(classes, rank, ordered)
    ensures !Circular(classes)
  {
    hide State, Dependencies, LeastOrder, Greedy, DependenciesFirst, Ranking;
    AllPlaced(classes, rank, pending, ordered);
    GreedyIsLeast(classes, rank, ordered);
    forall held | SelfHolding(classes, held)
      ensures held == {}
    {
      HeldNeverPlaced(classes, ordered, held);
    }
  }

  /** The ready plugin of least rank is a right one to place next. */
  lemma PlaceNext(classes: Classes, rank: Ranks, pending: map<Name, set<Name>>, ready: seq<Name>, ordered: seq<Name>)
    requires State(classes, rank, pending, ready, ordered) && ready != []
    ensures Distinct(ordered + [ready[0]]) && Greedy(classes, rank, ordered + [ready[0]])
    ensures Elements(ordered + [ready[0]]) == Elements(ordered) + {ready[0]}
  {
    hide Dependencies, Greedy;
    var name := ready[0];
    assert name in ready && ready == [name] + ready[1..];
    NothingLeft(Dependencies(classes, name), Elements(ordered));
    forall n | n in classes && n in rank && n !in ordered && Dependencies(classes, n) <= Elements(ordered)
      ensures rank[name] <= rank[n]
    {
      assert n in pending && pending[n] == {};
    }
    GreedyOne(classes, rank, ordered, name);
  }

  lemma NothingLeft(needed: set<Name>, placed: set<Name>)
    requires needed - placed == {}
    ensures needed <= placed
  {
    assert forall n | n in needed :: n in needed - placed || n in placed;
  }

  lemma DistinctAppend(xs: seq<Name>, ys: seq<Name>)
    requires Distinct(xs) && Distinct(ys) && forall x | x in xs :: x !in ys
    ensures Distinct(xs + ys)
  {
    forall i, j | 0 <= i < j < |xs + ys|
      ensures (xs + ys)[i] != (xs + ys)[j]
    {
      if i < |xs| <= j {
        assert (xs + ys)[i] == xs[i] && xs[i] in xs;
        assert (xs + ys)[j] == ys[j - |xs|] && ys[j - |xs|] in ys;
      }
    }
  }

  /** After it, the rest of what was ready and what waited for it alone are ready, and nothing else. */
  lemma ReadyNext(classes: Classes, rank: Ranks, pending: map<Name, set<Name>>, ready: seq<Name>, ordered: seq<Name>,
                  waiting: map<Name, set<Name>>, freed: seq<Name>)
    requires State(classes, rank, pending, ready, ordered) && ready != []
    requires rank.Keys == classes.Keys
    requires waiting.Keys == pending.Keys - {ready[0]}
    requires forall n | n in waiting :: waiting[n] == pending[n] - {ready[0]}
    requires Distinct(freed)
    requires forall n :: n in freed <==>
               n in waiting && ready[0] in pending[n] && pending[n] - {ready[0]} == {}
    ensures Distinct(ready[1..] + freed) && Ranked(ready[1..], rank)
    ensures forall n | n in ready[1..] + freed :: n in rank
    ensures forall n :: n in ready[1..] + freed <==> n in waiting && waiting[n] == {}
  {
    hide Dependencies, Greedy;
    var name, rest := ready[0], ready[1..];
    assert ready == [name] + rest;
    RankedDistinct(ready, rank);
    assert forall n | n in rest :: n in ready && n != name;
    assert forall n | n in freed :: pending[n] != {};
    DistinctAppend(rest, freed);
  }

  /** One turn of the loop keeps what every turn starts from. */
  lemma NextState(classes: Classes, rank: Ranks, pending: map<Name, set<Name>>, ready: seq<Name>, ordered: seq<Name>,
                  waiting: map<Name, set<Name>>, freed: seq<Name>)
    requires State(classes, rank, pending, ready, ordered) && ready != []
    requires rank.Keys == classes.Keys && Ranking(rank)
    requires waiting.Keys == pending.Keys - {ready[0]}
    requires forall n | n in waiting :: waiting[n] == pending[n] - {ready[0]}
    requires Distinct(freed)
    requires forall n :: n in freed <==>
               n in waiting && ready[0] in pending[n] && pending[n] - {ready[0]} == {}
    ensures forall n | n in ready[1..] + freed :: n in rank
    ensures State(classes, rank, waiting, SortByRank(ready[1..] + freed, rank), ordered + [ready[0]])
    ensures freed == [] ==> State(classes, rank, waiting, ready[1..], ordered + [ready[0]])
  {
    hide Dependencies, Greedy, Ranked, Distinct;
    PlaceNext(classes, rank, pending, ready, ordered);
    ReadyNext(classes, rank, pending, ready, ordered, waiting, freed);
    SortRanked(ready[1..] + freed, rank);
    assert freed == [] ==> ready[1..] + freed == ready[1..];
  }

  lemma FirstReady(classes: Classes, rank: Ranks, pending: map<Name, set<Name>>, ready: seq<Name>, ordered: seq<Name>,
                   names: seq<Name>)
    requires State(classes, rank, pending, ready, ordered) && ready != []
    requires Listing(classes, names)
    ensures ready[0] in pending && pending.Keys <= Elements(names) && Distinct(names)
    ensures forall n | n in ready[1..] :: n in rank
  {
    assert ready[0] in ready;
    assert forall n | n in ready[1..] :: n in ready;
  }

  lemma StateKeys(classes: Classes, rank: Ranks, pending: map<Name, set<Name>>, ready: seq<Name>, ordered: seq<Name>)
    requires State(classes, rank, pending, ready, ordered)
    ensures pending.Keys <= classes.Keys
  {
  }

  lemma {:induction false} RankedDistinct(names: seq<Name>, rank: Ranks)
    requires Ranked(names, rank)
    ensures Distinct(names)
  {
    if names != [] {
      RankedDistinct(names[1..], rank);
      assert names == [names[0]] + names[1..];
      assert names[0] !in names[1..];
    }
  }

  lemma StuckHolds(classes: Classes, rank: Ranks, pending: map<Name, set<Name>>, ordered: seq<Name>)
    requires State(classes, rank, pending, [], ordered)
    ensures SelfHolding(classes, pending.Keys)
    ensures forall held | SelfHolding(classes, held) :: held <= pending.Keys
  {
    hide Dependencies;
    forall n | n in pending
      ensures exists d :: d in Dependencies(classes, n) && d in pending
    {
      assert pending[n] != {};
      var d :| d in pending[n];
      DependenciesConfigured(classes, n);
      assert d in Dependencies(classes, n) && d in pending;
    }
    forall held | SelfHolding(classes, held)
      ensures held <= pending.Keys
    {
      HeldNeverPlaced(classes, ordered, held);
    }
  }

  lemma DependenciesConfigured(classes: Classes, name: Name)
    requires name in classes
    ensures Dependencies(classes, name) <= classes.Keys
  {
  }

  /** The least order is one order: a config fixes it, however the dictionary is gone through. */
  lemma LeastOrderUnique(classes: Classes, rank: Ranks, xs: seq<Name>, ys: seq<Name>)
    requires LeastOrder(classes, rank, xs) && LeastOrder(classes, rank, ys)
    ensures xs == ys
  {
    if xs != ys {
      assert Precedes(rank, xs, ys) && Precedes(rank, ys, xs);
      PrecedesOneWay(rank, xs, ys);
    }
  }

  lemma SameBefore(xs: seq<Name>, ys: seq<Name>, i: nat, j: nat)
    requires i < j <= |xs| && j <= |ys| && xs[..j] == ys[..j]
    ensures xs[i] == ys[i]
  {
    assert xs[..j][i] == ys[..j][i];
  }

  lemma PrecedesOneWay(rank: Ranks, xs: seq<Name>, ys: seq<Name>)
    requires Precedes(rank, xs, ys)
    ensures !Precedes(rank, ys, xs)
  {
    var i :| && 0 <= i < |xs| && i < |ys| && xs[..i] == ys[..i]
             && xs[i] in rank && ys[i] in rank && rank[xs[i]] < rank[ys[i]];
    forall j | 0 <= j < |ys| && j < |xs| && ys[..j] == xs[..j] && ys[j] in rank && xs[j] in rank
      ensures rank[ys[j]] >= rank[xs[j]]
    {
      if i < j {
        SameBefore(xs, ys, i, j);
      } else if j < i {
        SameBefore(xs, ys, j, i);
      }
    }
  }
}
