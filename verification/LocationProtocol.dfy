/** How concurrent chunk requests share the location of a part: a gate per source, a cache shared by
    all sources, the last location a source fetched itself, and one refresh of an expired reference.
    Callers, sources and the environment take steps in any order. */
module LocationProtocol {
  import opened Bytes

  /** What a fetch returns. Only `reference` is compared; `client` and `born` record whose client
      fetched it and as which step of the run, for the statements below. */
  datatype Location = Location(reference: nat, client: nat, born: nat)

  datatype Source = Source(key: nat, client: nat, useCache: bool)

  /** The sources, and which of them each caller asks. */
  datatype Config = Config(sources: seq<Source>, callers: seq<nat>) {
    predicate Valid() {
      forall c | 0 <= c < |callers| :: callers[c] < |sources|
    }

    function Of(c: nat): Source
      requires Valid() && c < |callers|
    {
      sources[callers[c]]
    }
  }

  datatype Found = Found(location: Location, cached: bool)

  /** Where a chunk request stands. `stale` is the expired location when it asks for the second time. */
  datatype Place =
    | Idle
    | Asking(stale: Option<Location>)
    | AtGate(stale: Option<Location>)
    | Inside(stale: Option<Location>)
    | Fetching(stale: Option<Location>)
    | Fetched(stale: Option<Location>, location: Location)
    | Leaving(stale: Option<Location>, result: Option<Found>)
    | Reading(found: Found, again: bool)
    | Done(ok: bool)

  datatype Caller = Caller(
    place: Place,
    cancelled: bool,
    started: nat,        // the clock when the request began
    startedAt: nat,      // history: the step at which it began
    readCount: nat,      // history: chunk reads issued
    fetches: nat)        // history: metadata fetches issued
  {
    predicate BehindGate() {
      place.Inside? || place.Fetching? || place.Fetched? || place.Leaving?
    }

    function To(next: Place): Caller {
      this.(place := next)
    }
  }

  datatype Shared = Shared(gate: Option<nat>, last: Option<Location>, lastAt: nat, fetches: nat)

  type Cache = map<nat, Location>

  datatype State = State(now: nat, steps: nat, callers: seq<Caller>, sources: seq<Shared>, cache: Cache)

  datatype Answer = Chunk | Expired | Failed

  datatype Action =
    | Begin
    | Ask
    | EnterGate
    | GiveUp
    | LookAgain
    | Fetch(reference: Option<nat>)   // the reply: a location, or a failure
    | Store
    | LeaveGate
    | Read(answer: Answer)
    | Cancel

  datatype Step = By(caller: nat, action: Action) | Tick(elapsed: nat) | Evict(key: nat)

  function Init(cfg: Config): State {
    State(0, 0, seq(|cfg.callers|, _ => Caller(Idle, false, 0, 0, 0, 0)),
          seq(|cfg.sources|, _ => Shared(None, None, 0, 0)), map[])
  }

  /** What a caller sees and changes: itself, its source and the cache. */
  datatype Local = Local(me: Caller, shared: Shared, cache: Cache)

  predicate CanAct(l: Local, action: Action) {
    match action
    case Begin => l.me.place.Idle?
    case Ask => l.me.place.Asking?
    case EnterGate => l.me.place.AtGate? && l.shared.gate.None?
    case GiveUp => l.me.place.AtGate? && l.me.cancelled
    case LookAgain => l.me.place.Inside?
    case Fetch(_) => l.me.place.Fetching?
    case Store => l.me.place.Fetched?
    case LeaveGate => l.me.place.Leaving?
    case Read(_) => l.me.place.Reading?
    case Cancel => true
  }

  /** Once the location is known, or is known to be unobtainable. */
  function Proceed(me: Caller, stale: Option<Location>, result: Option<Found>): Caller {
    match result
    case None => me.To(Done(false))
    case Some(found) => me.To(Reading(found, stale.Some?)).(readCount := me.readCount + 1)
  }

  /** Sends the metadata request. */
  function StartFetch(l: Local, stale: Option<Location>): Local {
    l.(me := l.me.To(Fetching(stale)).(fetches := l.me.fetches + 1), shared := l.shared.(fetches := l.shared.fetches + 1))
  }

  /** A refresh may use the last location only if this source fetched it since the request began,
      and only if it is not the expired one again. */
  predicate FreshEnough(l: Local, stale: Location) {
    l.shared.last.Some? && l.shared.lastAt > l.me.started && l.shared.last.value.reference != stale.reference
  }

  /** The second look, behind the gate. */
  function LookedAgain(source: Source, l: Local, stale: Option<Location>): Local {
    if l.me.cancelled then l.(me := l.me.To(Leaving(stale, None)))
    else if stale.None? then
      if source.key in l.cache then l.(me := l.me.To(Leaving(stale, Some(Found(l.cache[source.key], true)))))
      else StartFetch(l, stale)
    else if FreshEnough(l, stale.value) then l.(me := l.me.To(Leaving(stale, Some(Found(l.shared.last.value, true)))))
    else StartFetch(l.(cache := l.cache - {source.key}), stale)
  }

  function Act(source: Source, c: nat, now: nat, step: nat, l: Local, action: Action): Local
    requires CanAct(l, action)
  {
    match action
    case Begin => l.(me := l.me.To(Asking(None)).(started := now, startedAt := step))
    case Ask =>
      if l.me.cancelled then l.(me := l.me.To(Done(false)))
      else if !source.useCache then StartFetch(l, l.me.place.stale)
      else if l.me.place.stale.None? && source.key in l.cache
      then l.(me := Proceed(l.me, None, Some(Found(l.cache[source.key], true))))
      else l.(me := l.me.To(AtGate(l.me.place.stale)))
    case EnterGate => l.(me := l.me.To(Inside(l.me.place.stale)), shared := l.shared.(gate := Some(c)))
    case GiveUp => l.(me := l.me.To(Done(false)))
    case LookAgain => LookedAgain(source, l, l.me.place.stale)
    case Fetch(None) =>
      var stale := l.me.place.stale;
      l.(me := if source.useCache then l.me.To(Leaving(stale, None)) else Proceed(l.me, stale, None))
    case Fetch(Some(reference)) =>
      var stale, location := l.me.place.stale, Location(reference, source.client, step);
      if !source.useCache then l.(me := Proceed(l.me, stale, Some(Found(location, false))))
      else l.(me := l.me.To(Fetched(stale, location)), shared := l.shared.(last := Some(location), lastAt := now))
    case Store =>
      var place := l.me.place;
      l.(me := l.me.To(Leaving(place.stale, Some(Found(place.location, false)))), cache := l.cache[source.key := place.location])
    case LeaveGate => l.(me := Proceed(l.me, l.me.place.stale, l.me.place.result), shared := l.shared.(gate := None))
    case Read(answer) =>
      var place := l.me.place;
      if answer.Expired? && place.found.cached && !place.again then l.(me := l.me.To(Asking(Some(place.found.location))))
      else l.(me := l.me.To(Done(answer.Chunk?)))
    case Cancel => l.(me := l.me.(cancelled := true))
  }

  predicate Shape(cfg: Config, s: State) {
    cfg.Valid() && |s.callers| == |cfg.callers| && |s.sources| == |cfg.sources|
  }

  function View(cfg: Config, s: State, c: nat): Local
    requires Shape(cfg, s) && c < |cfg.callers|
  {
    Local(s.callers[c], s.sources[cfg.callers[c]], s.cache)
  }

  predicate Enabled(cfg: Config, s: State, step: Step)
    requires Shape(cfg, s)
  {
    step.By? ==> step.caller < |cfg.callers| && CanAct(View(cfg, s, step.caller), step.action)
  }

  function Apply(cfg: Config, s: State, step: Step): (s': State)
    requires Shape(cfg, s) && Enabled(cfg, s, step)
    ensures Shape(cfg, s')
  {
    match step
    case By(c, action) =>
      var l := Act(cfg.Of(c), c, s.now, s.steps, View(cfg, s, c), action);
      State(s.now, s.steps + 1, s.callers[c := l.me], s.sources[cfg.callers[c] := l.shared], l.cache)
    case Tick(elapsed) => s.(now := s.now + elapsed, steps := s.steps + 1)
    case Evict(key) => s.(cache := s.cache - {key}, steps := s.steps + 1)
  }

  /** A caller that holds the gate of its source. */
  predicate HoldsGate(cfg: Config, s: State, c: nat)
    requires Shape(cfg, s) && c < |cfg.callers|
  {
    cfg.Of(c).useCache && s.callers[c].BehindGate()
  }

  /** The gate: who holds it, and that nobody else is behind it. */
  ghost predicate GateInv(cfg: Config, s: State)
    requires Shape(cfg, s)
  {
    && (forall c | 0 <= c < |s.callers| && HoldsGate(cfg, s, c) :: s.sources[cfg.callers[c]].gate == Some(c))
    && (forall i | 0 <= i < |s.sources| && s.sources[i].gate.Some? ::
          && s.sources[i].gate.value < |s.callers| && cfg.callers[s.sources[i].gate.value] == i
          && HoldsGate(cfg, s, s.sources[i].gate.value))
  }

  /** A location fetched by the caller's own source, since the caller's request began. */
  predicate OwnAndNew(source: Source, me: Caller, location: Location) {
    location.client == source.client && me.startedAt < location.born
  }

  predicate Asked(source: Source, me: Caller, stale: Option<Location>, fetches: nat) {
    me.readCount == (if stale.Some? then 1 else 0) && me.fetches == fetches && (stale.Some? ==> source.useCache)
  }

  /** One caller: how often it reads and fetches, and where its second location comes from. */
  predicate CallerInv(source: Source, me: Caller, now: nat, steps: nat) {
    && me.started <= now && (me.place.Idle? || me.startedAt < steps)
    && match me.place
       case Idle => me.readCount == 0 && me.fetches == 0
       case Asking(stale) => Asked(source, me, stale, 0)
       case AtGate(stale) => source.useCache && Asked(source, me, stale, 0)
       case Inside(stale) => source.useCache && Asked(source, me, stale, 0)
       case Fetching(stale) => Asked(source, me, stale, 1)
       case Fetched(stale, location) => source.useCache && Asked(source, me, stale, 1) && OwnAndNew(source, me, location)
       case Leaving(stale, result) =>
         && source.useCache && me.fetches <= 1 && Asked(source, me, stale, me.fetches)
         && (result.Some? && (stale.Some? || !result.value.cached) ==> OwnAndNew(source, me, result.value.location))
         && (result.Some? && result.value.cached ==> me.fetches == 0)
       case Reading(found, again) =>
         && me.readCount == (if again then 2 else 1) && me.fetches <= 1
         && (again || !found.cached ==> OwnAndNew(source, me, found.location))
         && (found.cached ==> source.useCache && me.fetches == 0) && (again ==> source.useCache)
       case Done(_) => me.readCount <= (if source.useCache then 2 else 1) && me.fetches <= 1
  }

  /** The last location of a source is its own, and its time stamp agrees with the order of the run. */
  predicate LastInv(source: Source, shared: Shared, now: nat, steps: nat) {
    shared.last.Some? ==>
      shared.last.value.client == source.client && shared.lastAt <= now && shared.last.value.born < steps
  }

  predicate OrderInv(me: Caller, shared: Shared) {
    !me.place.Idle? && shared.last.Some? && shared.lastAt > me.started ==> me.startedAt < shared.last.value.born
  }

  ghost predicate Inv(cfg: Config, s: State) {
    && Shape(cfg, s) && GateInv(cfg, s)
    && (forall i | 0 <= i < |s.sources| :: LastInv(cfg.sources[i], s.sources[i], s.now, s.steps))
    && (forall c | 0 <= c < |s.callers| :: OrderInv(s.callers[c], s.sources[cfg.callers[c]]))
    && (forall c | 0 <= c < |s.callers| :: CallerInv(cfg.Of(c), s.callers[c], s.now, s.steps))
  }

  /** What an action does to the gate: only entering and leaving change it. */
  lemma ActAtGate(source: Source, c: nat, now: nat, step: nat, l: Local, action: Action)
    requires CanAct(l, action) && CallerInv(source, l.me, now, step)
    ensures var l' := Act(source, c, now, step, l, action);
            if action.EnterGate? then
              l.shared.gate.None? && l'.shared.gate == Some(c) && source.useCache && !l.me.BehindGate() && l'.me.BehindGate()
            else if action.LeaveGate? then
              l'.shared.gate.None? && source.useCache && l.me.BehindGate() && !l'.me.BehindGate()
            else
              l'.shared.gate == l.shared.gate && (source.useCache ==> (l'.me.BehindGate() <==> l.me.BehindGate()))
  {
  }

  lemma GateStep(cfg: Config, s: State, c: nat, action: Action)
    requires Inv(cfg, s) && Enabled(cfg, s, By(c, action))
    ensures GateInv(cfg, Apply(cfg, s, By(c, action)))
  {
    hide Act, CanAct, LastInv, OrderInv, CallerInv;
    ActAtGate(cfg.Of(c), c, s.now, s.steps, View(cfg, s, c), action);
  }

  /** The actions inside the gate and the reply to a metadata request. */
  predicate AtTheGate(action: Action) {
    action.LookAgain? || action.Fetch? || action.Store? || action.LeaveGate?
  }

  lemma GateActKeepsInv(source: Source, c: nat, now: nat, step: nat, l: Local, action: Action)
    requires CanAct(l, action) && CallerInv(source, l.me, now, step) && AtTheGate(action)
    requires LastInv(source, l.shared, now, step) && OrderInv(l.me, l.shared)
    ensures CallerInv(source, Act(source, c, now, step, l, action).me, now, step + 1)
  {
  }

  lemma OtherActKeepsInv(source: Source, c: nat, now: nat, step: nat, l: Local, action: Action)
    requires CanAct(l, action) && CallerInv(source, l.me, now, step) && !AtTheGate(action)
    ensures CallerInv(source, Act(source, c, now, step, l, action).me, now, step + 1)
  {
  }

  lemma ActKeepsLast(source: Source, c: nat, now: nat, step: nat, l: Local, action: Action)
    requires CanAct(l, action) && CallerInv(source, l.me, now, step)
    requires LastInv(source, l.shared, now, step) && OrderInv(l.me, l.shared)
    ensures var l' := Act(source, c, now, step, l, action);
            LastInv(source, l'.shared, now, step + 1) && OrderInv(l'.me, l'.shared)
  {
  }

  /** An action keeps what is known of its caller and its source. */
  lemma ActKeepsInv(source: Source, c: nat, now: nat, step: nat, l: Local, action: Action)
    requires CanAct(l, action) && CallerInv(source, l.me, now, step)
    requires LastInv(source, l.shared, now, step) && OrderInv(l.me, l.shared)
    ensures var l' := Act(source, c, now, step, l, action);
            && CallerInv(source, l'.me, now, step + 1)
            && LastInv(source, l'.shared, now, step + 1) && OrderInv(l'.me, l'.shared)
  {
    hide *;
    if AtTheGate(action) {
      GateActKeepsInv(source, c, now, step, l, action);
    } else {
      OtherActKeepsInv(source, c, now, step, l, action);
    }
    ActKeepsLast(source, c, now, step, l, action);
  }

  /** An action of one caller does not mislead another caller of the same source. */
  lemma ActKeepsOrder(source: Source, c: nat, now: nat, step: nat, l: Local, action: Action, other: Caller)
    requires CanAct(l, action) && OrderInv(other, l.shared) && CallerInv(source, other, now, step)
    ensures OrderInv(other, Act(source, c, now, step, l, action).shared)
    ensures CallerInv(source, other, now, step + 1)
  {
  }

  lemma StepKeepsInv(cfg: Config, s: State, step: Step)
    requires Inv(cfg, s) && Enabled(cfg, s, step)
    ensures Inv(cfg, Apply(cfg, s, step))
  {
    hide Act, CanAct;
    if step.By? {
      hide LastInv, OrderInv, CallerInv, GateInv;
      var c, action, s' := step.caller, step.action, Apply(cfg, s, step);
      var l := View(cfg, s, c);
      GateStep(cfg, s, c, action);
      ActKeepsInv(cfg.Of(c), c, s.now, s.steps, l, action);
      forall d | 0 <= d < |s.callers| && d != c
        ensures OrderInv(s'.callers[d], s'.sources[cfg.callers[d]]) && CallerInv(cfg.Of(d), s'.callers[d], s'.now, s'.steps)
      {
        if cfg.callers[d] == cfg.callers[c] {
          ActKeepsOrder(cfg.Of(c), c, s.now, s.steps, l, action, s.callers[d]);
        } else {
          TimePasses(cfg.Of(d), s.callers[d], s.sources[cfg.callers[d]], s.now, s.steps);
        }
      }
      forall i | 0 <= i < |s.sources| && i != cfg.callers[c]
        ensures LastInv(cfg.sources[i], s'.sources[i], s'.now, s'.steps)
      {
        LastKeeps(cfg.sources[i], s.sources[i], s.now, s.steps);
      }
    }
  }

  lemma TimePasses(source: Source, me: Caller, shared: Shared, now: nat, step: nat)
    requires CallerInv(source, me, now, step) && OrderInv(me, shared)
    ensures CallerInv(source, me, now, step + 1)
  {
  }

  lemma LastKeeps(source: Source, shared: Shared, now: nat, step: nat)
    requires LastInv(source, shared, now, step)
    ensures LastInv(source, shared, now, step + 1)
  {
  }

  ghost predicate Behavior(cfg: Config, states: seq<State>, steps: seq<Step>) {
    && cfg.Valid() && |states| == |steps| + 1 && states[0] == Init(cfg)
    && forall i {:trigger steps[i]} | 0 <= i < |steps| :: Leads(cfg, states[i], steps[i], states[i + 1])
  }

  predicate Leads(cfg: Config, s: State, step: Step, s': State) {
    Shape(cfg, s) && Enabled(cfg, s, step) && s' == Apply(cfg, s, step)
  }

  /** What the surroundings may do at any time: time passes, the cache loses an entry, a request is cancelled, and metadata
      requests and reads end in any way. */
  lemma SurroundingsAreFree(cfg: Config, s: State, c: nat, key: nat, elapsed: nat, reference: Option<nat>, answer: Answer)
    requires Shape(cfg, s) && c < |cfg.callers|
    ensures Enabled(cfg, s, Tick(elapsed)) && Apply(cfg, s, Tick(elapsed)).now == s.now + elapsed
    ensures Enabled(cfg, s, Evict(key)) && Apply(cfg, s, Evict(key)).cache == s.cache - {key}
    ensures Enabled(cfg, s, By(c, Cancel)) && Apply(cfg, s, By(c, Cancel)).callers[c] == s.callers[c].(cancelled := true)
    ensures s.callers[c].place.Fetching? ==> Enabled(cfg, s, By(c, Fetch(reference)))
    ensures s.callers[c].place.Reading? ==> Enabled(cfg, s, By(c, Read(answer)))
    ensures s.callers[c].place.AtGate? && s.callers[c].cancelled ==> Enabled(cfg, s, By(c, GiveUp))
  {
  }

  lemma {:induction false} BehaviorInv(cfg: Config, states: seq<State>, steps: seq<Step>, i: nat)
    requires Behavior(cfg, states, steps) && i < |states|
    ensures Inv(cfg, states[i]) && states[i].steps == i
  {
    if i > 0 {
      hide Inv, Enabled;
      BehaviorInv(cfg, states, steps, i - 1);
      assert Leads(cfg, states[i - 1], steps[i - 1], states[i]);
      StepKeepsInv(cfg, states[i - 1], steps[i - 1]);
    }
  }

  /** While a metadata request of a source is in flight, no other caller of that source is behind the gate,
      whatever the interleaving; a request that has ended does not hold the gate. */
  lemma FetchesExclude(cfg: Config, states: seq<State>, steps: seq<Step>, i: nat, c: nat, d: nat)
    requires Behavior(cfg, states, steps) && i < |states| && c < |cfg.callers| && d < |cfg.callers|
    requires cfg.callers[c] == cfg.callers[d] && cfg.Of(c).useCache
    ensures Shape(cfg, states[i])
    ensures states[i].callers[c].BehindGate() && states[i].callers[d].BehindGate() ==> c == d
    ensures states[i].sources[cfg.callers[c]].gate == Some(c) <==> states[i].callers[c].BehindGate()
    ensures states[i].callers[c].place.Done? ==> states[i].sources[cfg.callers[c]].gate != Some(c)
  {
    hide CallerInv;
    BehaviorInv(cfg, states, steps, i);
    var s := states[i];
    assert HoldsGate(cfg, s, c) <==> s.callers[c].BehindGate();
    assert HoldsGate(cfg, s, d) <==> s.callers[d].BehindGate();
  }

  /** The locations that a caller, its source and the cache know. */
  function Held(place: Place): set<Location> {
    match place
    case Fetched(stale, location) => {location} + Wrapped(stale)
    case Leaving(stale, result) => Wrapped(stale) + if result.Some? then {result.value.location} else {}
    case Reading(found, _) => {found.location}
    case Asking(stale) => Wrapped(stale)
    case AtGate(stale) => Wrapped(stale)
    case Inside(stale) => Wrapped(stale)
    case Fetching(stale) => Wrapped(stale)
    case _ => {}
  }

  function Wrapped(o: Option<Location>): set<Location> {
    if o.Some? then {o.value} else {}
  }

  /** What a caller has to do with the location of part `key`: it holds one for its own part, its source has fetched
      one for that part, or the cache lists one. */
  predicate Knows(source: Source, l: Local, key: nat, location: Location) {
    || (key == source.key && (location in Held(l.me.place) || l.shared.last == Some(location)))
    || (key in l.cache && l.cache[key] == location)
  }

  /** Nobody invents locations: new ones come from the replies to metadata requests, and each stays with its part. */
  lemma ActLearns(source: Source, c: nat, now: nat, step: nat, l: Local, action: Action, key: nat, location: Location)
    requires CanAct(l, action) && Knows(source, Act(source, c, now, step, l, action), key, location)
    ensures Knows(source, l, key, location) ||
            (key == source.key && action == Fetch(Some(location.reference)) && location.client == source.client
             && location.born == step)
  {
  }

  /** A location that was fetched in this run for part `key`, by its client, as the step it names. */
  predicate Genuine(cfg: Config, steps: seq<Step>, key: nat, location: Location)
    requires cfg.Valid()
  {
    && location.born < |steps| && steps[location.born].By? && steps[location.born].caller < |cfg.callers|
    && steps[location.born].action == Fetch(Some(location.reference))
    && cfg.Of(steps[location.born].caller).client == location.client
    && cfg.Of(steps[location.born].caller).key == key
  }

  lemma {:induction false} LocationsAreGenuine(cfg: Config, states: seq<State>, steps: seq<Step>, i: nat, c: nat, key: nat,
                                               location: Location)
    requires Behavior(cfg, states, steps) && i < |states| && c < |cfg.callers|
    requires Shape(cfg, states[i]) && Knows(cfg.Of(c), View(cfg, states[i], c), key, location)
    ensures Genuine(cfg, steps, key, location) && location.born < i
  {
    hide Knows, Act, CanAct;
    if i == 0 {
      NothingKnown(cfg, c, key, location);
      assert false;
    } else {
      var s, step := states[i - 1], steps[i - 1];
      BehaviorInv(cfg, states, steps, i - 1);
      if step.By? {
        var d := step.caller;
        OthersLearn(cfg, s, d, step.action, c, key, location);
        if Knows(cfg.Of(c), View(cfg, s, c), key, location) {
          LocationsAreGenuine(cfg, states, steps, i - 1, c, key, location);
        } else if Knows(cfg.Of(d), View(cfg, s, d), key, location) {
          LocationsAreGenuine(cfg, states, steps, i - 1, d, key, location);
        }
      } else {
        TimeTeachesNothing(cfg, s, step, c, key, location);
        LocationsAreGenuine(cfg, states, steps, i - 1, c, key, location);
      }
    }
  }

  lemma NothingKnown(cfg: Config, c: nat, key: nat, location: Location)
    requires cfg.Valid() && c < |cfg.callers|
    ensures !Knows(cfg.Of(c), View(cfg, Init(cfg), c), key, location)
  {
  }

  lemma TimeTeachesNothing(cfg: Config, s: State, step: Step, c: nat, key: nat, location: Location)
    requires Shape(cfg, s) && Enabled(cfg, s, step) && !step.By? && c < |cfg.callers|
    requires Knows(cfg.Of(c), View(cfg, Apply(cfg, s, step), c), key, location)
    ensures Knows(cfg.Of(c), View(cfg, s, c), key, location)
  {
  }

  lemma OthersLearn(cfg: Config, s: State, d: nat, action: Action, c: nat, key: nat, location: Location)
    requires Shape(cfg, s) && Enabled(cfg, s, By(d, action)) && c < |cfg.callers|
    requires Knows(cfg.Of(c), View(cfg, Apply(cfg, s, By(d, action)), c), key, location)
    ensures Knows(cfg.Of(c), View(cfg, s, c), key, location) || Knows(cfg.Of(d), View(cfg, s, d), key, location) ||
            (key == cfg.Of(d).key && action == Fetch(Some(location.reference)) && location.client == cfg.Of(d).client
             && location.born == s.steps)
  {
    hide Act, CanAct, Held;
    var l' := Act(cfg.Of(d), d, s.now, s.steps, View(cfg, s, d), action);
    if Knows(cfg.Of(d), l', key, location) {
      ActLearns(cfg.Of(d), d, s.now, s.steps, View(cfg, s, d), action, key, location);
    } else {
      assert c != d;
    }
  }

  /** The first step of the request was taken before step `i`. */
  predicate Began(steps: seq<Step>, i: nat, me: Caller, c: nat) {
    !me.place.Idle? ==> me.startedAt < i <= |steps| && steps[me.startedAt] == By(c, Begin)
  }

  lemma {:induction false} BeganAt(cfg: Config, states: seq<State>, steps: seq<Step>, i: nat, c: nat)
    requires Behavior(cfg, states, steps) && i < |states| && c < |cfg.callers|
    ensures Shape(cfg, states[i]) && Began(steps, i, states[i].callers[c], c)
  {
    if i > 0 {
      hide Inv, Began;
      BeganAt(cfg, states, steps, i - 1, c);
      BehaviorInv(cfg, states, steps, i - 1);
      assert Leads(cfg, states[i - 1], steps[i - 1], states[i]);
      BeganStep(cfg, states[i - 1], steps, i - 1, c);
    }
  }

  lemma BeganStep(cfg: Config, s: State, steps: seq<Step>, i: nat, c: nat)
    requires Shape(cfg, s) && i < |steps| && Enabled(cfg, s, steps[i]) && s.steps == i && c < |cfg.callers|
    requires Began(steps, i, s.callers[c], c)
    ensures Began(steps, i + 1, Apply(cfg, s, steps[i]).callers[c], c)
  {
    hide Act, CanAct;
    var step := steps[i];
    if step.By? && step.caller == c {
      ActAtStart(cfg.Of(c), c, s.now, s.steps, View(cfg, s, c), step.action);
    }
  }

  lemma ActAtStart(source: Source, c: nat, now: nat, step: nat, l: Local, action: Action)
    requires CanAct(l, action)
    ensures var me := Act(source, c, now, step, l, action).me;
            if action.Begin? then me.startedAt == step
            else me.startedAt == l.me.startedAt && (me.place.Idle? <==> l.me.place.Idle?)
  {
  }

  /** A chunk request reads at most twice and fetches the location at most once. It reads a second time
      only a location that its own source's client fetched after the request began: the reply to that
      fetch is a step of the run behind the step that began the request. */
  lemma SecondReadIsFresh(cfg: Config, states: seq<State>, steps: seq<Step>, i: nat, c: nat)
    requires Behavior(cfg, states, steps) && i < |states| && c < |cfg.callers|
    ensures Shape(cfg, states[i])
    ensures var me := states[i].callers[c];
            && me.readCount <= (if cfg.Of(c).useCache then 2 else 1) && me.fetches <= 1
            && (me.place.Reading? && me.readCount == 2 ==>
                  var location := me.place.found.location;
                  && location.client == cfg.Of(c).client && Genuine(cfg, steps, cfg.Of(c).key, location)
                  && me.startedAt < location.born < i && steps[me.startedAt] == By(c, Begin))
  {
    BehaviorInv(cfg, states, steps, i);
    BeganAt(cfg, states, steps, i, c);
    var me := states[i].callers[c];
    assert CallerInv(cfg.Of(c), me, states[i].now, states[i].steps);
    if me.place.Reading? && me.readCount == 2 {
      hide Behavior, CallerInv, Genuine;
      LocationsAreGenuine(cfg, states, steps, i, c, cfg.Of(c).key, me.place.found.location);
    }
  }

  /** The metadata replies and the read answers of request `c` in the first `i` steps, in order. */
  function Log(steps: seq<Step>, c: nat, i: nat): seq<Action>
    requires i <= |steps|
  {
    if i == 0 then [] else
      var before, step := Log(steps, c, i - 1), steps[i - 1];
      if step.By? && step.caller == c && (step.action.Fetch? || step.action.Read?) then before + [step.action] else before
  }

  function Cancelled(steps: seq<Step>, c: nat, i: nat): bool
    requires i <= |steps|
  {
    exists k :: 0 <= k < i && steps[k] == By(c, Cancel)
  }

  /** The log as a request in its first or, behind an expired reference, its second round begins. */
  predicate Round(log: seq<Action>, second: bool) {
    if second then |log| == 1 && log[0] == Read(Expired) else |log| == 0
  }

  /** The same, and one entry more. */
  predicate EndsIn(log: seq<Action>, second: bool, last: Action) {
    if second then |log| == 2 && log[0] == Read(Expired) && log[1] == last else |log| == 1 && log[0] == last
  }

  predicate IsReply(action: Action) {
    action.Fetch? && action.reference.Some?
  }

  /** A round ends in a read: of a cached location, or of one for which the metadata request has been answered. */
  predicate ReadLast(log: seq<Action>, second: bool, answer: Answer) {
    || EndsIn(log, second, Read(answer))
    || (second && |log| == 3 && log[0] == Read(Expired) && IsReply(log[1]) && log[2] == Read(answer))
    || (!second && |log| == 2 && IsReply(log[0]) && log[1] == Read(answer))
  }

  /** A request succeeds when a read gives the chunk. */
  predicate Succeeds(log: seq<Action>) {
    ReadLast(log, false, Chunk) || ReadLast(log, true, Chunk)
  }

  /** It fails when it was cancelled before it had a location, when a metadata request fails, when a read fails for another
      reason than an expired reference, or when the reference has expired of a location that it fetched itself, or that it
      reads in its second round. */
  predicate Fails(log: seq<Action>, cancelled: bool) {
    || (cancelled && (Round(log, false) || Round(log, true)))
    || EndsIn(log, false, Fetch(None)) || EndsIn(log, true, Fetch(None))
    || ReadLast(log, false, Failed) || ReadLast(log, true, Failed) || ReadLast(log, true, Expired)
    || (|log| == 2 && ReadLast(log, false, Expired))
  }

  /** What a request has behind it when it stands at `place`. */
  predicate Behind(place: Place, log: seq<Action>, cancelled: bool) {
    match place
    case Idle => log == []
    case Asking(stale) => Round(log, stale.Some?)
    case AtGate(stale) => Round(log, stale.Some?)
    case Inside(stale) => Round(log, stale.Some?)
    case Fetching(stale) => Round(log, stale.Some?)
    case Fetched(stale, location) => EndsIn(log, stale.Some?, Fetch(Some(location.reference)))
    case Leaving(stale, None) => EndsIn(log, stale.Some?, Fetch(None)) || (cancelled && Round(log, stale.Some?))
    case Leaving(stale, Some(found)) => Supplied(log, stale.Some?, found)
    case Reading(found, again) => Supplied(log, again, found)
    case Done(ok) => if ok then Succeeds(log) else Fails(log, cancelled)
  }

  predicate Supplied(log: seq<Action>, second: bool, found: Found) {
    if found.cached then Round(log, second) else EndsIn(log, second, Fetch(Some(found.location.reference)))
  }

  lemma ActIsLogged(source: Source, c: nat, now: nat, step: nat, l: Local, action: Action, log: seq<Action>)
    requires CanAct(l, action) && CallerInv(source, l.me, now, step) && Behind(l.me.place, log, l.me.cancelled)
    ensures var me := Act(source, c, now, step, l, action).me;
            && (me.cancelled <==> l.me.cancelled || action.Cancel?)
            && Behind(me.place, log + (if action.Fetch? || action.Read? then [action] else []), me.cancelled)
  {
    if action.Fetch? || action.Read? {
      var more := log + [action];
      assert |more| == |log| + 1 && more[|log|] == action && (|log| > 0 ==> more[0] == log[0]) && (|log| > 1 ==> more[1] == log[1]);
    } else {
      assert log + [] == log;
      hide ReadLast, EndsIn, Round;
    }
  }

  lemma {:induction false} LogIsBehind(cfg: Config, states: seq<State>, steps: seq<Step>, i: nat, c: nat)
    requires Behavior(cfg, states, steps) && i < |states| && c < |cfg.callers|
    ensures Shape(cfg, states[i]) && (states[i].callers[c].cancelled <==> Cancelled(steps, c, i))
    ensures Behind(states[i].callers[c].place, Log(steps, c, i), states[i].callers[c].cancelled)
  {
    if i > 0 {
      hide Act, CanAct, Behind;
      var s, step := states[i - 1], steps[i - 1];
      LogIsBehind(cfg, states, steps, i - 1, c);
      BehaviorInv(cfg, states, steps, i - 1);
      assert Leads(cfg, s, step, states[i]);
      LogStep(steps, c, i);
      hide Log, Cancelled, Inv, Behavior;
      if step.By? && step.caller == c {
        CallerHolds(cfg, s, c);
        ActIsLogged(cfg.Of(c), c, s.now, s.steps, View(cfg, s, c), step.action, Log(steps, c, i - 1));
      }
    }
  }

  lemma CallerHolds(cfg: Config, s: State, c: nat)
    requires Inv(cfg, s) && c < |cfg.callers|
    ensures Shape(cfg, s) && CallerInv(cfg.Of(c), s.callers[c], s.now, s.steps)
  {
  }

  lemma LogStep(steps: seq<Step>, c: nat, i: nat)
    requires 0 < i <= |steps|
    ensures var step := steps[i - 1];
            && Log(steps, c, i) == Log(steps, c, i - 1)
                 + (if step.By? && step.caller == c && (step.action.Fetch? || step.action.Read?) then [step.action] else [])
            && (Cancelled(steps, c, i) <==> Cancelled(steps, c, i - 1) || step == By(c, Cancel))
  {
    assert Log(steps, c, i - 1) + [] == Log(steps, c, i - 1);
  }

  /** How every request ends, told by the run alone. It succeeds exactly when one of its reads gives the chunk. It fails only
      for a cause: it was cancelled, its metadata request or its read failed, or a reference expired that was not a cached
      one read for the first time. */
  lemma Outcome(cfg: Config, states: seq<State>, steps: seq<Step>, i: nat, c: nat)
    requires Behavior(cfg, states, steps) && i < |states| && c < |cfg.callers|
    ensures Shape(cfg, states[i])
    ensures var place, log := states[i].callers[c].place, Log(steps, c, i);
            && (place == Done(true) <==> Read(Chunk) in log)
            && (place == Done(true) ==> |log| > 0 && log[|log| - 1] == Read(Chunk))
            && (place == Done(false) ==> Fails(log, Cancelled(steps, c, i)))
  {
    hide Behind, Fails, Log, Cancelled;
    LogIsBehind(cfg, states, steps, i, c);
    ChunkEnds(states[i].callers[c].place, Log(steps, c, i), states[i].callers[c].cancelled);
  }

  /** A read that gives the chunk is the end of a request. */
  lemma ChunkEnds(place: Place, log: seq<Action>, cancelled: bool)
    requires Behind(place, log, cancelled)
    ensures place == Done(true) <==> Read(Chunk) in log
    ensures place == Done(true) ==> |log| > 0 && log[|log| - 1] == Read(Chunk)
    ensures place == Done(false) ==> Fails(log, cancelled)
  {
  }

  /** An expired cached reference is refreshed: a request that reads one, is not cancelled and gets a reply to its metadata
      request, if it sends one, reads a second time before it ends. */
  lemma ExpiredIsRefreshed(cfg: Config, states: seq<State>, steps: seq<Step>, i: nat, c: nat)
    requires Behavior(cfg, states, steps) && i < |states| && c < |cfg.callers|
    requires Shape(cfg, states[i]) && states[i].callers[c].place.Done?
    requires Log(steps, c, i) != [] && Log(steps, c, i)[0] == Read(Expired)
    requires !Cancelled(steps, c, i) && Fetch(None) !in Log(steps, c, i)
    ensures var log := Log(steps, c, i); |log| >= 2 && log[|log| - 1].Read?
  {
    LogIsBehind(cfg, states, steps, i, c);
    var log := Log(steps, c, i);
    assert log[|log| - 1] in log;
  }

  /** The last step before `i` that brought a source a location. */
  function LatestFetch(cfg: Config, steps: seq<Step>, source: nat, i: nat): (k: Option<nat>)
    requires cfg.Valid() && i <= |steps|
    ensures k.Some? ==> k.value < i && Brings(cfg, steps[k.value], source)
  {
    if i == 0 then None
    else if Brings(cfg, steps[i - 1], source) then Some(i - 1) else LatestFetch(cfg, steps, source, i - 1)
  }

  predicate Brings(cfg: Config, step: Step, source: nat)
    requires cfg.Valid()
  {
    && step.By? && step.caller < |cfg.callers| && cfg.callers[step.caller] == source
    && step.action.Fetch? && step.action.reference.Some?
  }

  predicate LastIs(cfg: Config, states: seq<State>, steps: seq<Step>, source: nat, shared: Shared, latest: Option<nat>)
    requires cfg.Valid() && source < |cfg.sources| && (latest.Some? ==> latest.value < |states| && latest.value < |steps|)
    requires latest.Some? ==> Brings(cfg, steps[latest.value], source)
  {
    match latest
    case None => shared.last.None?
    case Some(k) =>
      && shared.last == Some(Location(steps[k].action.reference.value, cfg.sources[source].client, k))
      && shared.lastAt == states[k].now
  }

  lemma {:induction false} LastIsLatest(cfg: Config, states: seq<State>, steps: seq<Step>, source: nat, i: nat)
    requires Behavior(cfg, states, steps) && i < |states| && source < |cfg.sources| && cfg.sources[source].useCache
    ensures Shape(cfg, states[i])
    ensures LastIs(cfg, states, steps, source, states[i].sources[source], LatestFetch(cfg, steps, source, i))
  {
    if i > 0 {
      hide Act, CanAct;
      var s, step := states[i - 1], steps[i - 1];
      LastIsLatest(cfg, states, steps, source, i - 1);
      BehaviorInv(cfg, states, steps, i - 1);
      hide Inv;
      assert Leads(cfg, s, step, states[i]);
      if step.By? && cfg.callers[step.caller] == source {
        ActAtLast(cfg.Of(step.caller), step.caller, s.now, s.steps, View(cfg, s, step.caller), step.action);
      }
    }
  }

  lemma ActAtLast(source: Source, c: nat, now: nat, step: nat, l: Local, action: Action)
    requires CanAct(l, action) && source.useCache
    ensures var shared := Act(source, c, now, step, l, action).shared;
            if action.Fetch? && action.reference.Some?
            then shared.last == Some(Location(action.reference.value, source.client, step)) && shared.lastAt == now
            else shared.last == l.shared.last && shared.lastAt == l.shared.lastAt
  {
  }

  lemma {:induction false} StartedAt(cfg: Config, states: seq<State>, steps: seq<Step>, i: nat, c: nat)
    requires Behavior(cfg, states, steps) && i < |states| && c < |cfg.callers|
    ensures Shape(cfg, states[i])
    ensures var me := states[i].callers[c];
            !me.place.Idle? ==> me.startedAt < i && me.started == states[me.startedAt].now
  {
    if i > 0 {
      hide Act, CanAct, Inv;
      var s, step := states[i - 1], steps[i - 1];
      StartedAt(cfg, states, steps, i - 1, c);
      BehaviorInv(cfg, states, steps, i - 1);
      assert Leads(cfg, s, step, states[i]);
      if step.By? && step.caller == c {
        ActAtStart(cfg.Of(c), c, s.now, s.steps, View(cfg, s, c), step.action);
      }
    }
  }

  /** Requests of one source share a refresh: behind the gate, with an expired location, a request sends a metadata request
      if and only if its source has not brought another location since the request began; if it has, that one is used.
      Before it sends one, it takes the expired entry out of the cache. */
  lemma RefreshIsShared(cfg: Config, states: seq<State>, steps: seq<Step>, i: nat, c: nat)
    requires Behavior(cfg, states, steps) && i < |steps| && c < |cfg.callers| && steps[i] == By(c, LookAgain)
    requires Shape(cfg, states[i]) && states[i].callers[c].place.Inside? && states[i].callers[c].place.stale.Some?
    requires !states[i].callers[c].cancelled
    ensures Shape(cfg, states[i + 1])
    ensures var me, me', latest := states[i].callers[c], states[i + 1].callers[c], LatestFetch(cfg, steps, cfg.callers[c], i);
            && me.startedAt < i
            && if latest.Some? && states[latest.value].now > states[me.startedAt].now
                  && steps[latest.value].action.reference != Some(me.place.stale.value.reference)
               then
                 && me'.fetches == me.fetches && me'.place.Leaving? && me'.place.result.Some?
                 && me'.place.result.value.location.born == latest.value
               else
                 me'.fetches == me.fetches + 1 && me'.place.Fetching? && cfg.Of(c).key !in states[i + 1].cache
  {
    BehaviorInv(cfg, states, steps, i);
    StartedAt(cfg, states, steps, i, c);
    assert CallerInv(cfg.Of(c), states[i].callers[c], states[i].now, states[i].steps);
    LastIsLatest(cfg, states, steps, cfg.callers[c], i);
    assert Leads(cfg, states[i], steps[i], states[i + 1]);
    hide Inv, CallerInv, Behavior, LatestFetch;
  }

  /** A cancelled request sends no further metadata request. */
  lemma {:induction false} CancelledFetchesNothing(cfg: Config, states: seq<State>, steps: seq<Step>, i: nat, j: nat, c: nat)
    requires Behavior(cfg, states, steps) && i <= j < |states| && c < |cfg.callers|
    requires Shape(cfg, states[i]) && states[i].callers[c].cancelled
    ensures Shape(cfg, states[j]) && states[j].callers[c].cancelled
    ensures states[j].callers[c].fetches == states[i].callers[c].fetches
    decreases j
  {
    if i < j {
      hide Act, CanAct;
      var s, step := states[j - 1], steps[j - 1];
      CancelledFetchesNothing(cfg, states, steps, i, j - 1, c);
      assert Leads(cfg, s, step, states[j]);
      if step.By? && step.caller == c {
        ActCancelled(cfg.Of(c), c, s.now, s.steps, View(cfg, s, c), step.action);
      }
    }
  }

  lemma ActCancelled(source: Source, c: nat, now: nat, step: nat, l: Local, action: Action)
    requires CanAct(l, action) && l.me.cancelled
    ensures var me := Act(source, c, now, step, l, action).me; me.cancelled && me.fetches == l.me.fetches
  {
  }

  /** How many actions of its own a request has at most before it. */
  function Rank(place: Place): nat {
    match place
    case Idle => 15
    case Asking(stale) => if stale.None? then 14 else 7
    case AtGate(stale) => if stale.None? then 13 else 6
    case Inside(stale) => if stale.None? then 12 else 5
    case Fetching(stale) => if stale.None? then 11 else 4
    case Fetched(stale, _) => if stale.None? then 10 else 3
    case Leaving(stale, _) => if stale.None? then 9 else 2
    case Reading(_, again) => if again then 1 else 8
    case Done(_) => 0
  }

  lemma ActDecreases(source: Source, c: nat, now: nat, step: nat, l: Local, action: Action)
    requires CanAct(l, action)
    ensures var l' := Act(source, c, now, step, l, action);
            if action.Cancel? then l'.me.place == l.me.place else Rank(l'.me.place) < Rank(l.me.place)
  {
  }

  function ActsOnce(step: Step, c: nat): nat {
    if step.By? && step.caller == c && !step.action.Cancel? then 1 else 0
  }

  /** How many of the steps from `i` up to `j` are actions of request `c`, cancellations not counted. */
  function Actions(steps: seq<Step>, c: nat, i: nat, j: nat): nat
    requires i <= j <= |steps|
  {
    if i == j then 0
    else Actions(steps, c, i, j - 1) + ActsOnce(steps[j - 1], c)
  }

  lemma StepDecreases(cfg: Config, s: State, step: Step, s': State, c: nat)
    requires Leads(cfg, s, step, s') && c < |cfg.callers|
    ensures Shape(cfg, s')
    ensures Rank(s'.callers[c].place) + ActsOnce(step, c) <= Rank(s.callers[c].place)
  {
    hide Act, CanAct, Rank;
    if step.By? && step.caller == c {
      ActDecreases(cfg.Of(c), c, s.now, s.steps, View(cfg, s, c), step.action);
    }
  }

  lemma {:induction false} ActionsAreBounded(cfg: Config, states: seq<State>, steps: seq<Step>, c: nat, i: nat, j: nat)
    requires Behavior(cfg, states, steps) && i <= j <= |steps| && c < |cfg.callers|
    ensures Shape(cfg, states[i]) && Shape(cfg, states[j])
    ensures Actions(steps, c, i, j) + Rank(states[j].callers[c].place) <= Rank(states[i].callers[c].place)
    decreases j
  {
    BehaviorInv(cfg, states, steps, i);
    BehaviorInv(cfg, states, steps, j);
    if i < j {
      assert Leads(cfg, states[j - 1], steps[j - 1], states[j]);
      hide Inv, Leads, Rank, Behavior, ActsOnce, Shape;
      assert |states[j].callers| == |states[j - 1].callers| == |states[i].callers| == |cfg.callers|;
      ActionsAreBounded(cfg, states, steps, c, i, j - 1);
      StepDecreases(cfg, states[j - 1], steps[j - 1], states[j], c);
    }
  }

  /** How many actions of its own a caller behind the gate has before it until it leaves. */
  function GateRank(place: Place): nat {
    match place
    case Inside(_) => 3
    case Fetching(_) => 2
    case Fetched(_, _) => 1
    case _ => 0
  }

  lemma ActLeavesGate(source: Source, c: nat, now: nat, step: nat, l: Local, action: Action)
    requires CanAct(l, action) && l.me.BehindGate() && Act(source, c, now, step, l, action).me.BehindGate()
    ensures var l' := Act(source, c, now, step, l, action);
            GateRank(l'.me.place) + (if action.Cancel? then 0 else 1) <= GateRank(l.me.place)
  {
  }

  /** Each action of a caller that stays behind the gate, cancelled or not, brings it closer to leaving. */
  lemma {:induction false} GateIsBrief(cfg: Config, states: seq<State>, steps: seq<Step>, c: nat, i: nat, j: nat)
    requires Behavior(cfg, states, steps) && i <= j <= |steps| && c < |cfg.callers|
    requires forall k | i <= k <= j :: c < |states[k].callers| && states[k].callers[c].BehindGate()
    ensures Actions(steps, c, i, j) + GateRank(states[j].callers[c].place) <= GateRank(states[i].callers[c].place)
    decreases j
  {
    if i < j {
      assert Leads(cfg, states[j - 1], steps[j - 1], states[j]);
      assert states[j - 1].callers[c].BehindGate() && states[j].callers[c].BehindGate();
      hide Behavior, Leads, GateRank;
      GateIsBrief(cfg, states, steps, c, i, j - 1);
      StepLeavesGate(cfg, states[j - 1], steps[j - 1], states[j], c);
    }
  }

  lemma StepLeavesGate(cfg: Config, s: State, step: Step, s': State, c: nat)
    requires Leads(cfg, s, step, s') && c < |cfg.callers| && Shape(cfg, s')
    requires s.callers[c].BehindGate() && s'.callers[c].BehindGate()
    ensures GateRank(s'.callers[c].place)
            + (if step.By? && step.caller == c && !step.action.Cancel? then 1 else 0) <= GateRank(s.callers[c].place)
  {
    hide Act, CanAct, GateRank;
    if step.By? && step.caller == c {
      ActLeavesGate(cfg.Of(c), c, s.now, s.steps, View(cfg, s, c), step.action);
    }
  }

  /** Whoever is behind the gate, cancelled or not, stays for at most three actions of its own, and the next one is
      always possible. In all, a request takes at most fifteen actions. */
  lemma GateIsFreed(cfg: Config, states: seq<State>, steps: seq<Step>, c: nat, i: nat, j: nat) returns (next: Action)
    requires Behavior(cfg, states, steps) && i <= j <= |steps| && c < |cfg.callers|
    requires forall k | i <= k <= j :: c < |states[k].callers| && states[k].callers[c].BehindGate()
    ensures Actions(steps, c, i, j) <= 3 && Actions(steps, c, 0, j) <= 15
    ensures next in {LookAgain, Fetch(None), Store, LeaveGate}
    ensures Shape(cfg, states[j]) && Enabled(cfg, states[j], By(c, next))
  {
    GateIsBrief(cfg, states, steps, c, i, j);
    ActionsAreBounded(cfg, states, steps, c, 0, j);
    assert states[j].callers[c].BehindGate();
    next := match states[j].callers[c].place
            case Inside(_) => LookAgain
            case Fetching(_) => Fetch(None)
            case Fetched(_, _) => Store
            case _ => LeaveGate;
  }

  /** No request is ever stuck: an unfinished one can act, or it waits for a gate whose holder can. */
  lemma NeverStuck(cfg: Config, states: seq<State>, steps: seq<Step>, i: nat, c: nat) returns (d: nat, action: Action)
    requires Behavior(cfg, states, steps) && i < |states| && c < |cfg.callers|
    requires Shape(cfg, states[i]) && !states[i].callers[c].place.Done?
    ensures d < |cfg.callers| && !action.Cancel? && Enabled(cfg, states[i], By(d, action))
    ensures d == c || (states[i].callers[c].place.AtGate? && states[i].sources[cfg.callers[c]].gate == Some(d))
  {
    hide CallerInv;
    BehaviorInv(cfg, states, steps, i);
    var s := states[i];
    var gate := s.sources[cfg.callers[c]].gate;
    d := if s.callers[c].place.AtGate? && gate.Some? then gate.value else c;
    action := match s.callers[d].place
              case Idle => Begin
              case Asking(_) => Ask
              case AtGate(_) => EnterGate
              case Inside(_) => LookAgain
              case Fetching(_) => Fetch(None)
              case Fetched(_, _) => Store
              case Leaving(_, _) => LeaveGate
              case _ => Read(Chunk);
  }

  /** The request has not been sent back for another location. */
  predicate FirstRound(place: Place) {
    place.Idle? || place.Done? || Rank(place) >= 8
  }

  /** A step that takes the location of source `i` away: the entry leaves the cache, a metadata
      request fails, or a cached reference turns out to be expired. */
  predicate Disturbs(cfg: Config, i: nat, step: Step)
    requires cfg.Valid() && i < |cfg.sources|
  {
    match step
    case Evict(key) => key == cfg.sources[i].key
    case Tick(_) => false
    case By(c, action) =>
      && c < |cfg.callers|
      && ((action == Fetch(None) && cfg.callers[c] == i) || (action == Read(Expired) && cfg.Of(c).key == cfg.sources[i].key))
  }

  /** After the first metadata request of source `i`, its location is in the cache or under way to it. */
  ghost predicate OneFetchInv(cfg: Config, s: State, i: nat)
    requires Shape(cfg, s) && i < |s.sources|
  {
    && (forall c | 0 <= c < |s.callers| && cfg.Of(c).key == cfg.sources[i].key :: FirstRound(s.callers[c].place))
    && s.sources[i].fetches <= 1
    && (s.sources[i].fetches == 1 ==> cfg.sources[i].key in s.cache || UnderWay(s, i))
    && (forall c | 0 <= c < |s.callers| && cfg.callers[c] == i && s.callers[c].fetches > 0 :: s.sources[i].fetches == 1)
    && (forall c, d | 0 <= c < d < |s.callers| && cfg.callers[c] == i && cfg.callers[d] == i ::
          s.callers[c].fetches == 0 || s.callers[d].fetches == 0)
  }

  predicate UnderWay(s: State, i: nat)
    requires i < |s.sources|
  {
    && s.sources[i].gate.Some? && s.sources[i].gate.value < |s.callers|
    && (s.callers[s.sources[i].gate.value].place.Fetching? || s.callers[s.sources[i].gate.value].place.Fetched?)
  }

  /** An undisturbed action keeps the request in its first round and the cached location in the cache. */
  lemma ActUndisturbed(source: Source, c: nat, now: nat, step: nat, l: Local, action: Action)
    requires CanAct(l, action) && FirstRound(l.me.place) && action != Read(Expired) && source.useCache
    requires CallerInv(source, l.me, now, step)
    ensures var l' := Act(source, c, now, step, l, action);
            && FirstRound(l'.me.place)
            && (forall k | k in l.cache :: k in l'.cache)
            && (l'.shared.fetches == l.shared.fetches ==> l'.me.fetches == l.me.fetches)
            && (l'.shared.fetches == l.shared.fetches
                || (l'.shared.fetches == l.shared.fetches + 1 && l'.me.fetches == 1 && l.me.place.Inside? && source.key !in l.cache
                    && l'.me.place.Fetching? && l'.shared.gate == l.shared.gate))
            && ((l.me.place.Fetching? || l.me.place.Fetched?) && action != Fetch(None) ==>
                  source.key in l'.cache || ((l'.me.place.Fetching? || l'.me.place.Fetched?) && l'.shared.gate == l.shared.gate))
  {
  }

  lemma ActKeepsOthersKeys(source: Source, c: nat, now: nat, step: nat, l: Local, action: Action, key: nat)
    requires CanAct(l, action) && key in l.cache && (key != source.key || !source.useCache)
    requires CallerInv(source, l.me, now, step)
    ensures key in Act(source, c, now, step, l, action).cache
  {
  }

  lemma UncachedStaysFirst(source: Source, me: Caller, now: nat, steps: nat)
    requires CallerInv(source, me, now, steps) && !source.useCache
    ensures FirstRound(me.place)
  {
  }

  /** An undisturbed step by a caller of another source. */
  lemma OneFetchElsewhere(cfg: Config, s: State, c: nat, action: Action, i: nat)
    requires Inv(cfg, s) && Enabled(cfg, s, By(c, action)) && i < |cfg.sources| && OneFetchInv(cfg, s, i)
    requires cfg.sources[i].useCache && cfg.callers[c] != i && !Disturbs(cfg, i, By(c, action))
    ensures OneFetchInv(cfg, Apply(cfg, s, By(c, action)), i)
  {
    hide Act, CanAct, CallerInv, FirstRound;
    var l, source := View(cfg, s, c), cfg.Of(c);
    var s' := Apply(cfg, s, By(c, action));
    assert CallerInv(source, l.me, s.now, s.steps);
    StepKeepsInv(cfg, s, By(c, action));
    if source.key == cfg.sources[i].key && source.useCache {
      ActUndisturbed(source, c, s.now, s.steps, l, action);
    } else {
      if cfg.sources[i].key in s.cache {
        ActKeepsOthersKeys(source, c, s.now, s.steps, l, action, cfg.sources[i].key);
      }
      if !source.useCache {
        UncachedStaysFirst(source, s'.callers[c], s'.now, s'.steps);
      }
    }
    assert UnderWay(s, i) ==> UnderWay(s', i);
  }

  /** An undisturbed step by a caller of the source itself. */
  lemma OneFetchHere(cfg: Config, s: State, c: nat, action: Action, i: nat)
    requires Inv(cfg, s) && Enabled(cfg, s, By(c, action)) && i < |cfg.sources| && OneFetchInv(cfg, s, i)
    requires cfg.sources[i].useCache && cfg.callers[c] == i && !Disturbs(cfg, i, By(c, action))
    ensures OneFetchInv(cfg, Apply(cfg, s, By(c, action)), i)
  {
    hide Act, CanAct, CallerInv, FirstRound;
    var l, source := View(cfg, s, c), cfg.Of(c);
    var s' := Apply(cfg, s, By(c, action));
    assert CallerInv(source, l.me, s.now, s.steps);
    ActUndisturbed(source, c, s.now, s.steps, l, action);
    ActAtGate(source, c, s.now, s.steps, l, action);
    assert HoldsGate(cfg, s, c) <==> l.me.BehindGate();
  }

  /** With a cache that keeps its entry, and no failing fetch or expired reference, any number of
      requests of one source cause at most one metadata fetch of it. */
  lemma {:induction false} OneFetch(cfg: Config, states: seq<State>, steps: seq<Step>, n: nat, i: nat)
    requires Behavior(cfg, states, steps) && n < |states| && i < |cfg.sources| && cfg.sources[i].useCache
    requires forall k | 0 <= k < n :: !Disturbs(cfg, i, steps[k])
    ensures Shape(cfg, states[n]) && OneFetchInv(cfg, states[n], i)
  {
    if n == 0 {
      OneFetchStarts(cfg, i);
    } else {
      OneFetch(cfg, states, steps, n - 1, i);
      BehaviorInv(cfg, states, steps, n - 1);
      hide Inv, OneFetchInv, Act, CanAct;
      assert Leads(cfg, states[n - 1], steps[n - 1], states[n]);
      OneFetchStep(cfg, states[n - 1], steps[n - 1], i);
    }
  }

  lemma OneFetchStarts(cfg: Config, i: nat)
    requires cfg.Valid() && i < |cfg.sources|
    ensures Shape(cfg, Init(cfg)) && OneFetchInv(cfg, Init(cfg), i)
  {
  }

  /** In terms of the requests: at most one of them has sent a metadata request, and only one. */
  lemma OneRequestFetches(cfg: Config, states: seq<State>, steps: seq<Step>, n: nat, i: nat, c: nat, d: nat)
    requires Behavior(cfg, states, steps) && n < |states| && i < |cfg.sources| && cfg.sources[i].useCache
    requires forall k | 0 <= k < n :: !Disturbs(cfg, i, steps[k])
    requires c < |cfg.callers| && d < |cfg.callers| && cfg.callers[c] == i && cfg.callers[d] == i
    ensures Shape(cfg, states[n])
    ensures states[n].callers[c].fetches > 0 && states[n].callers[d].fetches > 0 ==>
              c == d && states[n].callers[c].fetches == 1
  {
    OneFetch(cfg, states, steps, n, i);
    SecondReadIsFresh(cfg, states, steps, n, c);
  }

  lemma OneFetchStep(cfg: Config, s: State, step: Step, i: nat)
    requires Inv(cfg, s) && Enabled(cfg, s, step) && i < |cfg.sources| && cfg.sources[i].useCache
    requires OneFetchInv(cfg, s, i) && !Disturbs(cfg, i, step)
    ensures OneFetchInv(cfg, Apply(cfg, s, step), i)
  {
    assert Shape(cfg, s);
    hide Inv, OneFetchInv, Act, CanAct;
    match step
    case By(c, action) =>
      if cfg.callers[c] == i {
        OneFetchHere(cfg, s, c, action, i);
      } else {
        OneFetchElsewhere(cfg, s, c, action, i);
      }
    case _ => OneFetchWaits(cfg, s, step, i);
  }

  lemma OneFetchWaits(cfg: Config, s: State, step: Step, i: nat)
    requires Shape(cfg, s) && Enabled(cfg, s, step) && !step.By? && i < |cfg.sources|
    requires OneFetchInv(cfg, s, i) && !Disturbs(cfg, i, step)
    ensures OneFetchInv(cfg, Apply(cfg, s, step), i)
  {
  }

  lemma Continue(cfg: Config, states: seq<State>, steps: seq<Step>, step: Step, s: State)
    requires Behavior(cfg, states, steps) && |states| > 0 && Leads(cfg, states[|states| - 1], step, s)
    ensures Behavior(cfg, states + [s], steps + [step])
  {
    hide Leads;
    var states', steps' := states + [s], steps + [step];
    forall i | 0 <= i < |steps'| ensures Leads(cfg, states'[i], steps'[i], states'[i + 1]) {
      assert i < |steps| ==> steps'[i] == steps[i];
    }
  }

  /** A request that finds neither a cached location nor somebody behind the gate sends a metadata request. */
  lemma ColdRequest(cfg: Config, states: seq<State>, steps: seq<Step>, c: nat)
    returns (states': seq<State>, steps': seq<Step>)
    requires Behavior(cfg, states, steps) && |states| > 0 && Shape(cfg, states[|states| - 1]) && c < |cfg.callers|
    requires var s := states[|states| - 1];
             && s.callers[c].place.Idle? && !s.callers[c].cancelled && cfg.Of(c).useCache
             && cfg.Of(c).key !in s.cache && s.sources[cfg.callers[c]].gate.None?
    ensures Behavior(cfg, states', steps') && |states'| > 0 && Shape(cfg, states'[|states'| - 1])
    ensures var s, s' := states[|states| - 1], states'[|states'| - 1];
            && s'.cache == s.cache && s'.callers == s.callers[c := s'.callers[c]] && s'.callers[c].place.Fetching?
            && s'.sources == s.sources[cfg.callers[c] := s'.sources[cfg.callers[c]]]
  {
    var s := states[|states| - 1];
    var s1 := Apply(cfg, s, By(c, Begin));
    var s2 := Apply(cfg, s1, By(c, Ask));
    var s3 := Apply(cfg, s2, By(c, EnterGate));
    var s4 := Apply(cfg, s3, By(c, LookAgain));
    assert s4.callers[c].place.Fetching?;
    hide Behavior, Apply, Enabled, Act, CanAct;
    Continue(cfg, states, steps, By(c, Begin), s1);
    Continue(cfg, states + [s1], steps + [By(c, Begin)], By(c, Ask), s2);
    Continue(cfg, states + [s1] + [s2], steps + [By(c, Begin)] + [By(c, Ask)], By(c, EnterGate), s3);
    states', steps' := states + [s1] + [s2] + [s3], steps + [By(c, Begin)] + [By(c, Ask)] + [By(c, EnterGate)];
    Continue(cfg, states', steps', By(c, LookAgain), s4);
    states', steps' := states' + [s4], steps' + [By(c, LookAgain)];
  }

  /** The gate is per source: two sources of the same part, each with its own client, may both have a
      metadata request in flight, and fetch the same location twice. */
  lemma SourcesDoNotShareTheGate() returns (cfg: Config, states: seq<State>, steps: seq<Step>)
    ensures Behavior(cfg, states, steps) && |states| > 0
    ensures |cfg.sources| == |cfg.callers| == 2 && cfg.sources[0].key == cfg.sources[1].key
    ensures cfg.sources[0].useCache && cfg.sources[1].useCache && cfg.callers[0] != cfg.callers[1]
    ensures var s := states[|states| - 1];
            Shape(cfg, s) && s.callers[0].place.Fetching? && s.callers[1].place.Fetching?
  {
    cfg := Config([Source(7, 0, true), Source(7, 1, true)], [0, 1]);
    states, steps := [Init(cfg)], [];
    assert Behavior(cfg, states, steps);
    hide Behavior;
    states, steps := ColdRequest(cfg, states, steps, 0);
    states, steps := ColdRequest(cfg, states, steps, 1);
  }
}
