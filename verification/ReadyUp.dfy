/** The ready-up a match starts with: who is being waited for, and where the countdown has got to. */
module ReadyUp {
  import opened Wrappers

  type Client(==, 0) = nat

  datatype Settings = Settings(nag: real, from: int, step: real)

  /** What a pass of `tick` found. */
  datatype Tick = Waiting(who: seq<Client>) | Ready | Count(count: int) | Start

  datatype State = State(ready: seq<Client>, due: real, count: Option<int>, running: bool)

  const OFF: State := State([], 0.0, None, false)

  function WaitingFor(ready: seq<Client>, players: seq<Client>): (waiting: seq<Client>)
    ensures forall c :: c in waiting <==> c in players && c !in ready
  {
    if players == [] then []
    else (if players[0] in ready then [] else [players[0]]) + WaitingFor(ready, players[1..])
  }

  function Without(ready: seq<Client>, client: Client): seq<Client> {
    if ready == [] then [] else if ready[0] == client then ready[1..] else [ready[0]] + Without(ready[1..], client)
  }

  function Begun(cfg: Settings, now: real): State {
    State([], now + cfg.nag, None, true)
  }

  /** `toggle`. */
  function Toggled(s: State, client: Client): (State, Option<bool>) {
    if !s.running || s.count.Some? then (s, None)
    else if client in s.ready then (s.(ready := Without(s.ready, client)), Some(false))
    else (s.(ready := s.ready + [client]), Some(true))
  }

  /** `tick`, which reads the clock at `t1` and, when something is due, again at `t2`. */
  function Ticked(cfg: Settings, s: State, players: seq<Client>, t1: real, t2: real): (State, Option<Tick>) {
    if !s.running || t1 < s.due then (s, None)
    else if s.count.Some? then
      if s.count.value <= 0 then (OFF, Some(Start))
      else (s.(count := Some(s.count.value - 1), due := t2 + cfg.step), Some(Count(s.count.value)))
    else
      var waiting := WaitingFor(s.ready, players);
      if players == [] || waiting != [] then (s.(due := t2 + cfg.nag), Some(Waiting(waiting)))
      else (s.(count := Some(cfg.from), due := t2 + cfg.step), Some(Ready))
  }

  // ---- runs -----------------------------------------------------------------------------------

  datatype Op = Begin(now: real) | Cancel | Toggle(client: Client) | Pass(players: seq<Client>, t1: real, t2: real)

  /** One thing announced: what, who was there, who had said ready by then, and the two clock values. */
  datatype Entry = Entry(tick: Tick, players: seq<Client>, ready: seq<Client>, t1: real, t2: real)

  /** Where the object is, and what it has announced since the last `begin`. */
  datatype History = History(now: State, log: seq<Entry>)

  function Do(cfg: Settings, h: History, op: Op): History {
    match op
    case Begin(t) => History(Begun(cfg, t), [])
    case Cancel => History(OFF, h.log)
    case Toggle(c) => History(Toggled(h.now, c).0, h.log)
    case Pass(players, t1, t2) =>
      var (s, tick) := Ticked(cfg, h.now, players, t1, t2);
      History(s, if tick.None? then h.log else h.log + [Entry(tick.value, players, h.now.ready, t1, t2)])
  }

  function Run(cfg: Settings, ops: seq<Op>): History {
    if ops == [] then History(OFF, []) else Do(cfg, Run(cfg, ops[..|ops| - 1]), ops[|ops| - 1])
  }

  /** The clock does not go back between the two times a pass reads it. */
  predicate Clocked(op: Op) {
    op.Pass? ==> op.t1 <= op.t2
  }

  // ---- what is announced ----------------------------------------------------------------------

  function Steps(cfg: Settings): nat {
    if cfg.from > 0 then cfg.from else 0
  }

  /** The first `n` announcements, all of them still waiting for somebody. */
  predicate StillWaiting(log: seq<Entry>, n: nat) {
    n <= |log| && forall i | 0 <= i < n :: log[i].tick.Waiting? && Missing(log[i])
  }

  /** Nobody is there, or somebody who is has not said ready; and those are the ones named. */
  predicate Missing(e: Entry)
    requires e.tick.Waiting?
  {
    (e.players == [] || e.tick.who != []) && e.tick.who == WaitingFor(e.ready, e.players)
  }

  /** READY, with somebody there and everybody there ready; then `k` numbers down from the top, each a step after the
      announcement before it, the ready list untouched. */
  predicate CountedDown(cfg: Settings, log: seq<Entry>, at: nat, k: nat) {
    && at + k < |log| && k <= Steps(cfg)
    && log[at].tick == Ready
    && log[at].players != [] && (forall c | c in log[at].players :: c in log[at].ready)
    && (forall j | at < j <= at + k :: NumberAt(cfg, log, at, j))
    && (forall j | at <= j < |log| :: log[j].t1 <= log[j].t2)
  }

  predicate NumberAt(cfg: Settings, log: seq<Entry>, at: nat, j: nat)
    requires at < j < |log|
  {
    && log[j].tick == Count(cfg.from - (j - at) + 1) && log[j].ready == log[at].ready
    && log[j].t1 >= log[j - 1].t2 + cfg.step
  }

  /** The announcements that can stand while a ready-up runs: waiting; or waiting and so far down the countdown. */
  ghost predicate InProgress(cfg: Settings, h: History) {
    h.now.running ==>
      match h.now.count
      case None => StillWaiting(h.log, |h.log|)
      case Some(left) =>
        exists at: nat, k: nat :: Counting(cfg, h, at, k) && left == cfg.from - k
  }

  ghost predicate Counting(cfg: Settings, h: History, at: nat, k: nat) {
    && StillWaiting(h.log, at) && CountedDown(cfg, h.log, at, k) && |h.log| == at + k + 1
    && h.now.ready == h.log[at].ready
    && h.now.due == h.log[at + k].t2 + cfg.step
  }

  /** A whole ready-up: waiting, READY, the countdown, START. */
  ghost predicate Completed(cfg: Settings, log: seq<Entry>, at: nat) {
    var n := Steps(cfg);
    && StillWaiting(log, at) && CountedDown(cfg, log, at, n)
    && |log| == at + n + 2
    && log[at + n + 1].tick == Start && log[at + n + 1].ready == log[at].ready
    && log[at + n + 1].t1 >= log[at + n].t2 + cfg.step
  }

  lemma CountDownOn(cfg: Settings, h: History, op: Op, at: nat, k: nat)
    requires op.Pass? && Clocked(op) && h.now.running && h.now.count == Some(cfg.from - k) && Counting(cfg, h, at, k)
    requires Ticked(cfg, h.now, op.players, op.t1, op.t2).1.Some?
    ensures var h' := Do(cfg, h, op);
            if cfg.from - k > 0 then Counting(cfg, h', at, k + 1) else Completed(cfg, h'.log, at)
  {
    var h' := Do(cfg, h, op);
    assert forall i | 0 <= i < |h.log| :: h'.log[i] == h.log[i];
    forall j | at < j <= at + k
      ensures NumberAt(cfg, h'.log, at, j)
    {
      assert NumberAt(cfg, h.log, at, j);
    }
    forall i | 0 <= i < at
      ensures h'.log[i].tick.Waiting? && Missing(h'.log[i])
    {
      assert h.log[i].tick.Waiting? && Missing(h.log[i]);
    }
    if cfg.from - k > 0 {
      assert NumberAt(cfg, h'.log, at, at + k + 1);
    }
  }

  lemma DoInv(cfg: Settings, h: History, op: Op)
    requires InProgress(cfg, h) && Clocked(op)
    ensures InProgress(cfg, Do(cfg, h, op))
    ensures var h' := Do(cfg, h, op);
            h'.log != h.log && h'.log != [] && h'.log[|h'.log| - 1].tick == Start ==>
              exists at: nat :: Completed(cfg, h'.log, at)
  {
    var h' := Do(cfg, h, op);
    if op.Pass? && Ticked(cfg, h.now, op.players, op.t1, op.t2).1.Some? {
      if h.now.count.Some? {
        var at: nat, k: nat :| Counting(cfg, h, at, k) && h.now.count == Some(cfg.from - k);
        CountDownOn(cfg, h, op, at, k);
      } else {
        assert forall i | 0 <= i < |h.log| :: h'.log[i] == h.log[i];
        if h'.now.count.Some? {
          assert Counting(cfg, h', |h.log|, 0);
        }
      }
    }
  }

  lemma {:induction false} RunInv(cfg: Settings, ops: seq<Op>)
    requires forall op | op in ops :: Clocked(op)
    ensures InProgress(cfg, Run(cfg, ops))
    decreases |ops|
  {
    if ops != [] {
      RunInv(cfg, ops[..|ops| - 1]);
      DoInv(cfg, Run(cfg, ops[..|ops| - 1]), ops[|ops| - 1]);
    }
  }

  lemma OneMore(step: real, k: nat)
    requires k > 0
    ensures step * (k as real) == step * ((k - 1) as real) + step
  {
    assert k as real == (k - 1) as real + 1.0;
  }

  lemma {:induction false} CountdownTakes(cfg: Settings, log: seq<Entry>, at: nat, n: nat, k: nat)
    requires CountedDown(cfg, log, at, n) && k <= n
    ensures log[at + k].t2 >= log[at].t2 + cfg.step * (k as real)
    decreases k
  {
    if k > 0 {
      CountdownTakes(cfg, log, at, n, k - 1);
      OneMore(cfg.step, k);
      assert NumberAt(cfg, log, at, at + k);
      assert log[at + k].t2 >= log[at + k].t1 >= log[at + k - 1].t2 + cfg.step;
    }
  }

  /** Whatever is called and when, a START comes at the end of a whole ready-up: since the last `begin` nothing but
      waiting, one READY with somebody there and everybody there ready, every number from the top down to 1, and START;
      nobody's readiness having changed since READY, and a countdown step and one more for each number having passed. */
  lemma StartTrace(cfg: Settings, ops: seq<Op>) returns (at: nat)
    requires forall op | op in ops :: Clocked(op)
    requires ops != [] && Run(cfg, ops).log != Run(cfg, ops[..|ops| - 1]).log
    requires var log := Run(cfg, ops).log; log != [] && log[|log| - 1].tick == Start
    ensures var log := Run(cfg, ops).log;
            && Completed(cfg, log, at)
            && log[|log| - 1].t1 >= log[at].t2 + cfg.step * ((Steps(cfg) + 1) as real)
  {
    hide Do, CountedDown, StillWaiting;
    var before := ops[..|ops| - 1];
    RunInv(cfg, before);
    DoInv(cfg, Run(cfg, before), ops[|ops| - 1]);
    var log := Run(cfg, ops).log;
    at :| Completed(cfg, log, at);
    CountdownTakes(cfg, log, at, Steps(cfg), Steps(cfg));
    OneMore(cfg.step, Steps(cfg) + 1);
  }

  /** Once the countdown has begun nobody can change their mind: readiness is what it was at READY until START or until
      the ready-up is called off or begun again. */
  lemma FrozenWhileCounting(cfg: Settings, ops: seq<Op>, client: Client)
    requires forall op | op in ops :: Clocked(op)
    requires Run(cfg, ops).now.running && Run(cfg, ops).now.count.Some?
    ensures Toggled(Run(cfg, ops).now, client) == (Run(cfg, ops).now, None)
    ensures exists at: nat | at < |Run(cfg, ops).log| ::
              Run(cfg, ops).log[at].tick == Ready && Run(cfg, ops).now.ready == Run(cfg, ops).log[at].ready
  {
    RunInv(cfg, ops);
  }

  // ---- and it does get there ------------------------------------------------------------------

  /** Passes that each come when one is due. */
  predicate AllDue(cfg: Settings, due: real, passes: seq<Op>)
    decreases |passes|
  {
    passes != [] ==>
      && passes[0].Pass? && due <= passes[0].t1 <= passes[0].t2
      && AllDue(cfg, passes[0].t2 + cfg.step, passes[1..])
  }

  function DoAll(cfg: Settings, h: History, ops: seq<Op>): History
    decreases |ops|
  {
    if ops == [] then h else DoAll(cfg, Do(cfg, h, ops[0]), ops[1..])
  }

  function Announced(log: seq<Entry>): seq<Tick> {
    if log == [] then [] else Announced(log[..|log| - 1]) + [log[|log| - 1].tick]
  }

  function Numbers(n: nat): seq<Tick> {
    if n == 0 then [] else [Count(n)] + Numbers(n - 1)
  }

  lemma AnnouncedMore(log: seq<Entry>, e: Entry)
    ensures Announced(log + [e]) == Announced(log) + [e.tick]
  {
    assert (log + [e])[..|log|] == log;
  }

  /** A pass of the countdown that is due. */
  lemma CountPass(cfg: Settings, h: History, count: int, op: Op)
    requires h.now.running && h.now.count == Some(count) && op.Pass? && h.now.due <= op.t1
    ensures Do(cfg, h, op)
         == if count > 0
            then History(h.now.(count := Some(count - 1), due := op.t2 + cfg.step),
                         h.log + [Entry(Count(count), op.players, h.now.ready, op.t1, op.t2)])
            else History(OFF, h.log + [Entry(Start, op.players, h.now.ready, op.t1, op.t2)])
  {
  }

  lemma Regroup(before: seq<Tick>, tick: Tick, after: seq<Tick>)
    ensures before + [tick] + after + [Start] == before + ([tick] + after) + [Start]
  {
  }

  lemma {:induction false} CountsToStart(cfg: Settings, h: History, count: int, left: nat, passes: seq<Op>)
    requires h.now.running && h.now.count == Some(count) && left == (if count > 0 then count else 0)
    requires |passes| == left + 1 && AllDue(cfg, h.now.due, passes)
    ensures DoAll(cfg, h, passes).now == OFF
    ensures Announced(DoAll(cfg, h, passes).log) == Announced(h.log) + Numbers(left) + [Start]
    decreases left
  {
    hide Do, Announced;
    var op := passes[0];
    CountPass(cfg, h, count, op);
    if left > 0 {
      AnnouncedMore(h.log, Entry(Count(count), op.players, h.now.ready, op.t1, op.t2));
      CountsToStart(cfg, Do(cfg, h, op), count - 1, left - 1, passes[1..]);
      Regroup(Announced(h.log), Count(left), Numbers(left - 1));
    } else {
      AnnouncedMore(h.log, Entry(Start, op.players, h.now.ready, op.t1, op.t2));
      assert passes[1..] == [];
      assert Announced(h.log) + Numbers(0) + [Start] == Announced(h.log) + [Start];
    }
  }

  lemma NobodyMissing(ready: seq<Client>, players: seq<Client>)
    requires forall c | c in players :: c in ready
    ensures WaitingFor(ready, players) == []
  {
    if WaitingFor(ready, players) != [] {
      assert WaitingFor(ready, players)[0] in WaitingFor(ready, players);
    }
  }

  lemma FirstPass(cfg: Settings, h: History, op: Op)
    requires h.now.running && h.now.count.None? && op.Pass? && h.now.due <= op.t1
    requires op.players != [] && forall c | c in op.players :: c in h.now.ready
    ensures Do(cfg, h, op) == History(h.now.(count := Some(cfg.from), due := op.t2 + cfg.step),
                                      h.log + [Entry(Ready, op.players, h.now.ready, op.t1, op.t2)])
  {
    NobodyMissing(h.now.ready, op.players);
  }

  /** With somebody there and everybody there ready, as many passes as it takes, each when it is due, announce
      READY, the whole countdown and START, and nothing else. */
  lemma ReadyToStart(cfg: Settings, h: History, passes: seq<Op>)
    requires h.now.running && h.now.count.None? && |passes| == Steps(cfg) + 2 && AllDue(cfg, h.now.due, passes)
    requires passes[0].players != [] && forall c | c in passes[0].players :: c in h.now.ready
    ensures DoAll(cfg, h, passes).now == OFF
    ensures Announced(DoAll(cfg, h, passes).log) == Announced(h.log) + [Ready] + Numbers(Steps(cfg)) + [Start]
  {
    hide Do, Announced, Numbers;
    FirstPass(cfg, h, passes[0]);
    var h' := Do(cfg, h, passes[0]);
    AnnouncedMore(h.log, Entry(Ready, passes[0].players, h.now.ready, passes[0].t1, passes[0].t2));
    CountsToStart(cfg, h', cfg.from, Steps(cfg), passes[1..]);
  }

  lemma {:induction false} WithoutAt(ready: seq<Client>, i: nat)
    requires i < |ready| && ready[i] !in ready[..i]
    ensures Without(ready, ready[i]) == ready[..i] + ready[i + 1..]
  {
    if i > 0 {
      assert ready[0] in ready[..i] && ready[1..][..i - 1] == ready[1..i];
      WithoutAt(ready[1..], i - 1);
    }
  }

  // ---- who is ready ---------------------------------------------------------------------------

  /** How often `c` has toggled since the last `begin`. */
  function Toggles(ops: seq<Op>, c: Client): nat {
    if ops == [] then 0
    else
      var last := ops[|ops| - 1];
      if last.Begin? then 0 else Toggles(ops[..|ops| - 1], c) + if last == Toggle(c) then 1 else 0
  }

  predicate NobodyTwice(ready: seq<Client>) {
    forall i, j | 0 <= i < j < |ready| :: ready[i] != ready[j]
  }

  predicate IsWaiting(s: State) {
    s.running && s.count.None?
  }

  ghost predicate Listed(ops: seq<Op>, s: State) {
    && NobodyTwice(s.ready)
    && (IsWaiting(s) ==> forall c :: c in s.ready <==> Toggles(ops, c) % 2 == 1)
  }

  lemma {:induction false} WithoutKeeps(ready: seq<Client>, client: Client)
    requires NobodyTwice(ready)
    ensures var rest := Without(ready, client);
            NobodyTwice(rest) && forall c :: c in rest <==> c in ready && c != client
  {
    if ready != [] {
      assert forall c | c in ready[1..] :: c != ready[0];
      WithoutKeeps(ready[1..], client);
      assert ready == [ready[0]] + ready[1..];
      var left := Without(ready[1..], client);
      forall j | 0 <= j < |left|
        ensures left[j] != ready[0]
      {
        assert left[j] in left;
      }
    }
  }

  lemma ToggleListed(s: State, client: Client)
    requires NobodyTwice(s.ready)
    ensures var (s', answer) := Toggled(s, client);
            && NobodyTwice(s'.ready) && IsWaiting(s') == IsWaiting(s)
            && (if IsWaiting(s)
                then answer == Some(client !in s.ready)
                     && forall c :: c in s'.ready <==> (if c == client then c !in s.ready else c in s.ready)
                else answer == None && s' == s)
  {
    WithoutKeeps(s.ready, client);
  }

  lemma OneToggleMore(ops: seq<Op>, op: Op)
    ensures forall c :: Toggles(ops + [op], c)
                     == if op.Begin? then 0 else Toggles(ops, c) + if op == Toggle(c) then 1 else 0
  {
    assert (ops + [op])[..|ops|] == ops;
  }

  lemma DoListed(cfg: Settings, ops: seq<Op>, h: History, op: Op)
    requires Listed(ops, h.now)
    ensures Listed(ops + [op], Do(cfg, h, op).now)
  {
    hide Toggles, Toggled;
    OneToggleMore(ops, op);
    if op.Toggle? {
      ToggleListed(h.now, op.client);
    }
  }

  lemma {:induction false} RunListed(cfg: Settings, ops: seq<Op>)
    ensures Listed(ops, Run(cfg, ops).now)
  {
    hide Do, Listed;
    if ops == [] {
      NobodyListed();
    } else {
      var front := ops[..|ops| - 1];
      RunListed(cfg, front);
      DoListed(cfg, front, Run(cfg, front), ops[|ops| - 1]);
      assert front + [ops[|ops| - 1]] == ops;
    }
  }

  lemma NobodyListed()
    ensures Listed([], OFF)
  {
  }

  /** In any run a player is ready, while others are waited for, exactly when they toggled an odd number of times since
      the last `begin`, and is listed once. A toggle is refused exactly when nobody is waited for; otherwise its answer
      is whether the player is ready now, and it changes nobody else. */
  lemma ReadyExactly(cfg: Settings, ops: seq<Op>, client: Client)
    ensures var s := Run(cfg, ops).now;
            var (s', answer) := Toggled(s, client);
            && NobodyTwice(s.ready)
            && (IsWaiting(s) ==> forall c :: c in s.ready <==> Toggles(ops, c) % 2 == 1)
            && s' == Run(cfg, ops + [Toggle(client)]).now
            && (answer.None? <==> !IsWaiting(s))
            && (IsWaiting(s) ==> answer == Some(Toggles(ops + [Toggle(client)], client) % 2 == 1))
            && (IsWaiting(s) ==> forall c | c != client :: c in s'.ready <==> c in s.ready)
  {
    hide Toggles, Toggled;
    RunListed(cfg, ops);
    OneToggleMore(ops, Toggle(client));
    ToggleListed(Run(cfg, ops).now, client);
    assert (ops + [Toggle(client)])[..|ops|] == ops;
  }

  /** Those waited for are named in the order they are there. */
  lemma {:induction false} NamedInOrder(ready: seq<Client>, some: seq<Client>, others: seq<Client>)
    ensures WaitingFor(ready, some + others) == WaitingFor(ready, some) + WaitingFor(ready, others)
  {
    if some == [] {
      assert some + others == others;
    } else {
      assert (some + others)[1..] == some[1..] + others;
      NamedInOrder(ready, some[1..], others);
    }
  }

  // ---- what a pass announces, and when ----------------------------------------------------------

  /** The clock value of the last `begin`. */
  function BegunAt(ops: seq<Op>): real {
    if ops == [] then 0.0
    else var last := ops[|ops| - 1]; if last.Begin? then last.now else BegunAt(ops[..|ops| - 1])
  }

  /** There has been a `begin`, and no `cancel` since. */
  predicate Called(ops: seq<Op>) {
    ops != [] && var last := ops[|ops| - 1]; last.Begin? || (!last.Cancel? && Called(ops[..|ops| - 1]))
  }

  /** When the next announcement is due: the nag time after `begin` or the last waiting, a step after any other. */
  function NextDue(cfg: Settings, begun: real, log: seq<Entry>): real {
    if log == [] then begun + cfg.nag
    else var last := log[|log| - 1]; last.t2 + if last.tick.Waiting? then cfg.nag else cfg.step
  }

  /** Where the countdown is, from what was announced last. */
  function NextCount(cfg: Settings, log: seq<Entry>): Option<int> {
    if log == [] then None
    else
      match log[|log| - 1].tick
      case Waiting(_) => None
      case Ready => Some(cfg.from)
      case Count(n) => Some(n - 1)
      case Start => None
  }

  ghost predicate OnTime(cfg: Settings, ops: seq<Op>, h: History) {
    && (h.now.running <==> Called(ops) && (h.log == [] || h.log[|h.log| - 1].tick != Start))
    && (h.now.running ==>
          h.now.due == NextDue(cfg, BegunAt(ops), h.log) && h.now.count == NextCount(cfg, h.log))
  }

  lemma DoOnTime(cfg: Settings, ops: seq<Op>, h: History, op: Op)
    requires OnTime(cfg, ops, h)
    ensures OnTime(cfg, ops + [op], Do(cfg, h, op))
  {
    assert (ops + [op])[..|ops|] == ops;
  }

  lemma {:induction false} RunOnTime(cfg: Settings, ops: seq<Op>)
    ensures OnTime(cfg, ops, Run(cfg, ops))
  {
    hide Do, OnTime;
    if ops == [] {
      NothingCalled(cfg);
    } else {
      var front := ops[..|ops| - 1];
      RunOnTime(cfg, front);
      DoOnTime(cfg, front, Run(cfg, front), ops[|ops| - 1]);
      assert front + [ops[|ops| - 1]] == ops;
    }
  }

  lemma NothingCalled(cfg: Settings)
    ensures OnTime(cfg, [], History(OFF, []))
  {
  }

  /** What comes next after these announcements, with these players there. */
  function NextTick(cfg: Settings, log: seq<Entry>, ready: seq<Client>, players: seq<Client>): Tick {
    match NextCount(cfg, log)
    case Some(n) => if n > 0 then Count(n) else Start
    case None =>
      if players != [] && forall c | c in players :: c in ready then Ready else Waiting(WaitingFor(ready, players))
  }

  lemma SomebodyMissing(ready: seq<Client>, players: seq<Client>)
    ensures WaitingFor(ready, players) == [] <==> forall c | c in players :: c in ready
  {
    if forall c | c in players :: c in ready {
      NobodyMissing(ready, players);
    }
  }

  /** In any run, a pass announces something exactly when a ready-up was begun, neither called off nor finished, and the
      next announcement is due; and then just the next one: still waiting, with the names of those who are there and not
      ready; or READY when somebody is there and everybody there is ready; or the next number down; or START. */
  lemma PassExactly(cfg: Settings, ops: seq<Op>, players: seq<Client>, t1: real, t2: real)
    ensures var (before, after) := (Run(cfg, ops), Run(cfg, ops + [Pass(players, t1, t2)]));
            var next := Entry(NextTick(cfg, before.log, before.now.ready, players), players, before.now.ready, t1, t2);
            after.log ==
              if Called(ops) && (before.log == [] || before.log[|before.log| - 1].tick != Start)
                 && t1 >= NextDue(cfg, BegunAt(ops), before.log)
              then before.log + [next] else before.log
  {
    hide Run, Called, BegunAt, WaitingFor;
    RunOnTime(cfg, ops);
    SomebodyMissing(Run(cfg, ops).now.ready, players);
    RunOne(cfg, ops, Pass(players, t1, t2));
  }

  lemma RunOne(cfg: Settings, ops: seq<Op>, op: Op)
    ensures Run(cfg, ops + [op]) == Do(cfg, Run(cfg, ops), op)
  {
    assert (ops + [op])[..|ops|] == ops;
  }

  // ---- from `begin` to START --------------------------------------------------------------------

  lemma {:induction false} RunThenAll(cfg: Settings, ops: seq<Op>, more: seq<Op>)
    ensures Run(cfg, ops + more) == DoAll(cfg, Run(cfg, ops), more)
    decreases |more|
  {
    hide Do;
    if more == [] {
      assert ops + more == ops;
    } else {
      RunOne(cfg, ops, more[0]);
      RunThenAll(cfg, ops + [more[0]], more[1..]);
      assert ops + [more[0]] + more[1..] == ops + more;
    }
  }

  lemma RunNone(cfg: Settings)
    ensures Run(cfg, []) == History(OFF, [])
  {
  }

  function ToggleEach(players: seq<Client>): (ops: seq<Op>)
    ensures |ops| == |players| && forall i | 0 <= i < |ops| :: ops[i] == Toggle(players[i])
  {
    seq(|players|, i requires 0 <= i < |players| => Toggle(players[i]))
  }

  lemma {:induction false} EachReady(cfg: Settings, t: real, players: seq<Client>)
    requires NobodyTwice(players)
    ensures var h := Run(cfg, [Begin(t)] + ToggleEach(players));
            h == History(State(players, t + cfg.nag, None, true), [])
  {
    hide Run;
    RunNone(cfg);
    if players == [] {
      assert [Begin(t)] + ToggleEach(players) == [] + [Begin(t)];
      RunOne(cfg, [], Begin(t));
    } else {
      var front, last := players[..|players| - 1], players[|players| - 1];
      EachReady(cfg, t, front);
      assert [Begin(t)] + ToggleEach(players) == [Begin(t)] + ToggleEach(front) + [Toggle(last)];
      RunOne(cfg, [Begin(t)] + ToggleEach(front), Toggle(last));
      assert front + [last] == players;
      assert forall i | 0 <= i < |front| :: front[i] == players[i] != last;
    }
  }

  /** "Everybody says they are ready and the match starts": `begin`, one toggle by each player there, and passes that
      each come when they are due announce READY, the whole countdown and START, and nothing else. */
  lemma BeginToStart(cfg: Settings, t: real, players: seq<Client>, passes: seq<Op>)
    requires players != [] && NobodyTwice(players)
    requires |passes| == Steps(cfg) + 2 && AllDue(cfg, t + cfg.nag, passes)
    requires passes[0].players != [] && forall c | c in passes[0].players :: c in players
    ensures var h := Run(cfg, [Begin(t)] + ToggleEach(players) + passes);
            h.now == OFF && Announced(h.log) == [Ready] + Numbers(Steps(cfg)) + [Start]
  {
    hide Do, Numbers, Run;
    EachReady(cfg, t, players);
    RunThenAll(cfg, [Begin(t)] + ToggleEach(players), passes);
    ReadyToStart(cfg, Run(cfg, [Begin(t)] + ToggleEach(players)), passes);
    assert [] + [Ready] == [Ready];
  }

  // ---- the object -----------------------------------------------------------------------------

  class Match {
    const cfg: Settings
    var ready: seq<Client>
    var due: real
    var count: Option<int>
    var running: bool

    ghost function View(): State
      reads this
    {
      State(ready, due, count, running)
    }

    constructor (cfg: Settings)
      ensures View() == OFF && this.cfg == cfg
    {
      this.cfg, ready, due, count, running := cfg, [], 0.0, None, false;
    }

    method BeginMatch(now: real)
      modifies this
      ensures View() == Begun(cfg, now)
    {
      ready, count, running := [], None, true;
      due := now + cfg.nag;
    }

    method CancelMatch()
      modifies this
      ensures View() == OFF
    {
      ready, count, running, due := [], None, false, 0.0;
    }

    /** `list.remove`: the first occurrence. */
    method Unready(client: Client)
      requires client in ready
      modifies this`ready
      ensures ready == Without(old(ready), client)
    {
      var i := 0;
      while ready[i] != client
        invariant 0 <= i < |ready| && client in ready && client !in ready[..i]
        decreases |ready| - i
      {
        i := i + 1;
      }
      WithoutAt(ready, i);
      ready := ready[..i] + ready[i + 1..];
    }

    method ToggleReady(client: Client) returns (now: Option<bool>)
      modifies this`ready
      ensures (View(), now) == Toggled(old(View()), client)
    {
      if !running || count.Some? {
        return None;
      }
      if client in ready {
        Unready(client);
        return Some(false);
      }
      ready := ready + [client];
      return Some(true);
    }

    method Pass(players: seq<Client>, t1: real, t2: real) returns (tick: Option<Tick>)
      modifies this
      ensures (View(), tick) == Ticked(cfg, old(View()), players, t1, t2)
    {
      if !running || t1 < due {
        return None;
      }
      if count.Some? {
        tick := CountDown(t2);
        return;
      }
      var waiting := WaitingFor(ready, players);
      if players == [] || waiting != [] {
        due := t2 + cfg.nag;
        return Some(Waiting(waiting));
      }
      count := Some(cfg.from);
      due := t2 + cfg.step;
      return Some(Ready);
    }

    method CountDown(t2: real) returns (tick: Option<Tick>)
      requires running && count.Some?
      modifies this
      ensures if old(count.value) <= 0 then View() == OFF && tick == Some(Start)
              else View() == old(View()).(count := Some(old(count.value) - 1), due := t2 + cfg.step)
                   && tick == Some(Count(old(count.value)))
    {
      var remaining := count.value;
      if remaining <= 0 {
        CancelMatch();
        return Some(Start);
      }
      count := Some(remaining - 1);
      due := t2 + cfg.step;
      return Some(Count(remaining));
    }
  }
}
