/** The cache of live clients: lookups, the goroutine that keeps each client's connection open, and the
    clean-ups, all interleaved. One step is one critical section, or one action outside the lock. */
module ClientCache {
  import opened Bytes

  type Key = nat

  const IDLE_TIMEOUT: nat := 600

  /** Whether a client is usable, once that is known; the error says why not. */
  datatype Readiness = Undecided | Decided(error: Option<nat>)

  /** Where the goroutine of a client stands: before its callback, inside it with the connection open,
      behind the end of Run, in front of the clean-up, between the clean-up's lock and its cancel. */
  datatype Goroutine = Connecting | Open | Stopped(error: Option<nat>) | Dropping | Cancelling | Finished

  /** History: why a client left the map. */
  datatype Removal = Listed | NotReady | RunEnded | TimedOut | Shutdown | Idle(age: int)

  /** History: who took a client out of the map and has yet to cancel it. */
  datatype Holder = Nobody | Call(call: nat) | Runner

  datatype Client = Client(
    key: Key, lastAt: nat, readiness: Readiness, cancelled: bool, run: Goroutine, removal: Removal, holder: Holder)
  {
    /** Only the first signal counts. */
    function Signal(error: Option<nat>): Client {
      if readiness.Decided? then this else this.(readiness := Decided(error))
    }
  }

  datatype Call =
    | Getting(key: Key)
    | Awaiting(id: nat, creator: bool)
    | Cleaning(id: nat, why: Removal)
    | Closing
    | Reaping(at: nat)     // the clock, read before the lock is taken
    | Holding(ids: set<nat>)
    | Returned(client: Option<nat>)

  datatype State = State(now: nat, m: map<Key, nat>, clients: seq<Client>, calls: seq<Call>)

  datatype Step =
    | Start(call: Call)
    | Lookup(t: nat, made: bool)
    | Wake(t: nat)
    | TimeOut(t: nat)
    | GiveUp(t: nat)
    | Drop(t: nat)
    | CloseAll(t: nat)
    | Reap(t: nat)
    | CancelOne(t: nat, id: nat)
    | Return(t: nat)
    | Authorize(id: nat, error: Option<nat>)
    | RunEnds(id: nat, error: Option<nat>)
    | SignalEnd(id: nat)
    | RunDrop(id: nat)
    | RunCancel(id: nat)
    | Tick(elapsed: nat)

  const STOPPED: nat := 1

  function Init(): State {
    State(0, map[], [], [])
  }

  predicate Enabled(s: State, step: Step) {
    match step
    case Start(call) => call.Getting? || call.Closing? || call == Reaping(s.now)
    case Lookup(t, _) => t < |s.calls| && s.calls[t].Getting? && ListedAt(s, s.calls[t].key)
    case Wake(t) => IsAwaiting(s, t) && s.clients[s.calls[t].id].readiness.Decided?
    case TimeOut(t) => IsAwaiting(s, t)
    case GiveUp(t) => IsAwaiting(s, t)
    case Drop(t) => t < |s.calls| && s.calls[t].Cleaning? && s.calls[t].id < |s.clients|
    case CloseAll(t) => t < |s.calls| && s.calls[t].Closing?
    case Reap(t) => t < |s.calls| && s.calls[t].Reaping?
    case CancelOne(t, id) => t < |s.calls| && s.calls[t].Holding? && id in s.calls[t].ids && id < |s.clients|
    case Return(t) => t < |s.calls| && s.calls[t].Holding? && s.calls[t].ids == {}
    case Authorize(id, _) => id < |s.clients| && s.clients[id].run.Connecting?
    case RunEnds(id, _) => id < |s.clients| && (s.clients[id].run.Connecting? || s.clients[id].run.Open?)
    case SignalEnd(id) => id < |s.clients| && s.clients[id].run.Stopped?
    case RunDrop(id) => id < |s.clients| && s.clients[id].run.Dropping?
    case RunCancel(id) => id < |s.clients| && s.clients[id].run.Cancelling?
    case Tick(_) => true
  }

  predicate ListedAt(s: State, key: Key) {
    key in s.m ==> s.m[key] < |s.clients|
  }

  predicate IsAwaiting(s: State, t: nat) {
    t < |s.calls| && s.calls[t].Awaiting? && s.calls[t].id < |s.clients|
  }

  function WithCall(s: State, t: nat, call: Call): State
    requires t < |s.calls|
  {
    s.(calls := s.calls[t := call])
  }

  function WithClient(s: State, id: nat, client: Client): State
    requires id < |s.clients|
  {
    s.(clients := s.clients[id := client])
  }

  /** Takes the clients `ids` out of the map; `holder` has to cancel them. */
  function Removed(s: State, ids: set<nat>, holder: Holder, why: Client -> Removal): State {
    s.(m := map k | k in s.m && s.m[k] !in ids :: s.m[k],
       clients := seq(|s.clients|, i requires 0 <= i < |s.clients| =>
         if i in ids then s.clients[i].(removal := why(s.clients[i]), holder := holder) else s.clients[i]))
  }

  /** The entry of a client, if the map still holds this very client. */
  function OwnEntry(s: State, id: nat): set<nat>
    requires id < |s.clients|
  {
    var key := s.clients[id].key;
    if key in s.m && s.m[key] == id then {id} else {}
  }

  /** The entries that were idle for too long at the time `at`. */
  function IdleEntries(s: State, at: nat): set<nat> {
    set k | k in s.m && s.m[k] < |s.clients| && at - s.clients[s.m[k]].lastAt > IDLE_TIMEOUT :: s.m[k]
  }

  function Apply(s: State, step: Step): State
    requires Enabled(s, step)
  {
    match step
    case Start(call) => s.(calls := s.calls + [call])
    case Lookup(t, made) =>
      var key := s.calls[t].key;
      if key in s.m then
        var id := s.m[key];
        WithCall(WithClient(s, id, s.clients[id].(lastAt := s.now)), t, Awaiting(id, false))
      else if made then
        var id := |s.clients|;
        WithCall(s.(clients := s.clients + [Client(key, s.now, Undecided, false, Connecting, Listed, Nobody)],
                    m := s.m[key := id]), t, Awaiting(id, true))
      else WithCall(s, t, Returned(None))
    case Wake(t) =>
      var id, creator := s.calls[t].id, s.calls[t].creator;
      WithCall(s, t, if s.clients[id].readiness.error.None? then Returned(Some(id))
                     else if creator then Returned(None) else Cleaning(id, NotReady))
    case TimeOut(t) => WithCall(s, t, if s.calls[t].creator then Cleaning(s.calls[t].id, TimedOut) else Returned(None))
    case GiveUp(t) => WithCall(s, t, Returned(None))
    case Drop(t) =>
      var ids, why := OwnEntry(s, s.calls[t].id), s.calls[t].why;
      WithCall(Removed(s, ids, Call(t), _ => why), t, Holding(ids))
    case CloseAll(t) => WithCall(Removed(s, s.m.Values, Call(t), _ => Shutdown), t, Holding(s.m.Values))
    case Reap(t) =>
      var at := s.calls[t].at;
      WithCall(Removed(s, IdleEntries(s, at), Call(t), (c: Client) => Idle(at - c.lastAt)), t, Holding(IdleEntries(s, at)))
    case CancelOne(t, id) =>
      WithCall(WithClient(s, id, s.clients[id].(cancelled := true, holder := Nobody)), t, Holding(s.calls[t].ids - {id}))
    case Return(t) => WithCall(s, t, Returned(None))
    case Authorize(id, error) =>
      var client := s.clients[id].Signal(error);
      WithClient(s, id, client.(run := if error.Some? then Stopped(error) else Open))
    case RunEnds(id, error) => WithClient(s, id, s.clients[id].(run := Stopped(error)))
    case SignalEnd(id) =>
      var client := s.clients[id];
      WithClient(s, id, client.Signal(if client.run.error.Some? then client.run.error else Some(STOPPED)).(run := Dropping))
    case RunDrop(id) =>
      var ids := OwnEntry(s, id);
      var s' := Removed(s, ids, Runner, _ => RunEnded);
      WithClient(s', id, s'.clients[id].(run := if ids == {} then Finished else Cancelling))
    case RunCancel(id) => WithClient(s, id, s.clients[id].(cancelled := true, holder := Nobody, run := Finished))
    case Tick(elapsed) => s.(now := s.now + elapsed)
  }

  /** What holds of one client, in the map or out of it. */
  predicate ClientInv(s: State, id: nat)
    requires id < |s.clients|
  {
    var c := s.clients[id];
    && (c.removal.Listed? <==> c.key in s.m && s.m[c.key] == id)
    && (c.removal.Listed? ==> !c.cancelled && c.holder.Nobody?)
    && (!c.removal.Listed? && !c.cancelled ==> !c.holder.Nobody?)
    && (c.holder.Call? ==>
          !c.cancelled && c.holder.call < |s.calls| && s.calls[c.holder.call].Holding? && id in s.calls[c.holder.call].ids)
    && (c.holder.Runner? ==> !c.cancelled && c.run.Cancelling?)
    && (c.run.Connecting? ==> c.readiness.Undecided?)
    && (c.run.Open? ==> c.readiness == Decided(None))
    && (c.run.Dropping? || c.run.Cancelling? || c.run.Finished? ==> c.readiness.Decided?)
    && (c.run.Cancelling? ==> c.holder.Runner?)
    && (c.run.Finished? ==> !c.removal.Listed?)
    && Justified(c)
  }

  /** Why a client may leave the map. */
  predicate Justified(c: Client) {
    match c.removal
    case NotReady => c.readiness.Decided? && c.readiness.error.Some?
    case RunEnded => c.run.Cancelling? || c.run.Finished?
    case Idle(age) => age > IDLE_TIMEOUT
    case _ => true
  }

  predicate MapInv(s: State) {
    forall k | k in s.m :: s.m[k] < |s.clients| && s.clients[s.m[k]].key == k
  }

  predicate CallInv(s: State, t: nat)
    requires t < |s.calls|
  {
    match s.calls[t]
    case Awaiting(id, _) => id < |s.clients|
    case Cleaning(id, why) =>
      && id < |s.clients|
      && (why.TimedOut? || (why.NotReady? && s.clients[id].readiness.Decided? && s.clients[id].readiness.error.Some?))
    case Holding(ids) => forall id | id in ids :: id < |s.clients| && s.clients[id].holder == Call(t)
    case Returned(Some(id)) => id < |s.clients| && s.clients[id].readiness == Decided(None)
    case _ => true
  }

  ghost predicate Inv(s: State) {
    && MapInv(s)
    && (forall id | 0 <= id < |s.clients| :: ClientInv(s, id))
    && (forall t | 0 <= t < |s.calls| :: CallInv(s, t))
  }

  predicate Removes(step: Step) {
    step.Drop? || step.CloseAll? || step.Reap? || step.RunDrop?
  }

  /** What taking `ids` out of the map does to one client. */
  lemma RemovedClient(s: State, ids: set<nat>, holder: Holder, why: Client -> Removal, id: nat)
    requires MapInv(s) && id < |s.clients|
    ensures var s', c := Removed(s, ids, holder, why), s.clients[id];
            && |s'.clients| == |s.clients| && s'.calls == s.calls && s'.now == s.now
            && s'.clients[id] == (if id in ids then c.(removal := why(c), holder := holder) else c)
            && (c.key in s'.m && s'.m[c.key] == id <==> c.key in s.m && s.m[c.key] == id && id !in ids)
  {
  }

  lemma RemovalAtClient(s: State, step: Step, id: nat)
    requires Inv(s) && Enabled(s, step) && Removes(step) && id < |s.clients|
    ensures id < |Apply(s, step).clients| && ClientInv(Apply(s, step), id)
  {
    hide Removed;
    assert ClientInv(s, id);
    match step
    case Drop(t) =>
      assert CallInv(s, t);
      var why := s.calls[t].why;
      RemovedClient(s, OwnEntry(s, s.calls[t].id), Call(t), _ => why, id);
    case CloseAll(t) => RemovedClient(s, s.m.Values, Call(t), _ => Shutdown, id);
    case Reap(t) =>
      var at := s.calls[t].at;
      RemovedClient(s, IdleEntries(s, at), Call(t), (c: Client) => Idle(at - c.lastAt), id);
    case RunDrop(d) => RemovedClient(s, OwnEntry(s, d), Runner, _ => RunEnded, id);
  }

  /** The steps of a client's own goroutine. */
  predicate OfGoroutine(step: Step) {
    step.Authorize? || step.RunEnds? || step.SignalEnd? || step.RunCancel?
  }

  lemma GoroutineAtClient(s: State, step: Step, id: nat)
    requires Inv(s) && Enabled(s, step) && OfGoroutine(step) && id < |s.clients|
    ensures id < |Apply(s, step).clients| && ClientInv(Apply(s, step), id)
  {
    hide Removed, OwnEntry, IdleEntries;
    assert ClientInv(s, id);
  }

  lemma OtherAtClient(s: State, step: Step, id: nat)
    requires Inv(s) && Enabled(s, step) && !Removes(step) && !OfGoroutine(step) && id < |s.clients|
    ensures id < |Apply(s, step).clients| && ClientInv(Apply(s, step), id)
  {
    hide Removed, OwnEntry, IdleEntries;
    assert ClientInv(s, id);
    if step.CancelOne? {
      assert CallInv(s, step.t);
    }
  }

  /** The calls: what they hold, and what they return. */
  lemma RemovalAtCall(s: State, step: Step, t: nat)
    requires Inv(s) && Enabled(s, step) && Removes(step) && t < |Apply(s, step).calls|
    ensures CallInv(Apply(s, step), t)
  {
    assert CallInv(s, t);
    assert s.calls[t].Holding? ==> forall id | id in s.calls[t].ids :: ClientInv(s, id);
    assert step.RunDrop? ==> ClientInv(s, step.id);
    assert step.Drop? ==> CallInv(s, step.t) && ClientInv(s, s.calls[step.t].id);
  }

  lemma GoroutineAtCall(s: State, step: Step, t: nat)
    requires Inv(s) && Enabled(s, step) && OfGoroutine(step) && t < |Apply(s, step).calls|
    ensures CallInv(Apply(s, step), t)
  {
    assert step.RunCancel? ==> ClientInv(s, step.id) && s.clients[step.id].holder.Runner?;
    hide ClientInv, Removed, OwnEntry, IdleEntries;
    assert CallInv(s, t);
  }

  lemma OtherAtCall(s: State, step: Step, t: nat)
    requires Inv(s) && Enabled(s, step) && !Removes(step) && !OfGoroutine(step) && t < |Apply(s, step).calls|
    ensures CallInv(Apply(s, step), t)
  {
    hide ClientInv, Removed, OwnEntry, IdleEntries;
    assert t < |s.calls| ==> CallInv(s, t);
    if step.CancelOne? {
      assert CallInv(s, step.t);
    }
  }

  lemma NewClient(s: State, step: Step)
    requires Inv(s) && Enabled(s, step)
    ensures |s.clients| <= |Apply(s, step).clients| <= |s.clients| + 1
    ensures |Apply(s, step).clients| == |s.clients| + 1 ==> ClientInv(Apply(s, step), |s.clients|)
  {
  }

  lemma StepKeepsInv(s: State, step: Step)
    requires Inv(s) && Enabled(s, step)
    ensures Inv(Apply(s, step))
  {
    assert MapInv(Apply(s, step));
    hide ClientInv, CallInv;
    var s' := Apply(s, step);
    NewClient(s, step);
    forall id | 0 <= id < |s'.clients|
      ensures ClientInv(s', id)
    {
      if id < |s.clients| {
        if Removes(step) {
          RemovalAtClient(s, step, id);
        } else if OfGoroutine(step) {
          GoroutineAtClient(s, step, id);
        } else {
          OtherAtClient(s, step, id);
        }
      }
    }
    forall t | 0 <= t < |s'.calls|
      ensures CallInv(s', t)
    {
      if Removes(step) {
        RemovalAtCall(s, step, t);
      } else if OfGoroutine(step) {
        GoroutineAtCall(s, step, t);
      } else {
        OtherAtCall(s, step, t);
      }
    }
  }

  ghost predicate Behavior(states: seq<State>, steps: seq<Step>) {
    && |states| == |steps| + 1 && states[0] == Init()
    && forall i {:trigger steps[i]} | 0 <= i < |steps| :: Leads(states[i], steps[i], states[i + 1])
  }

  predicate Leads(s: State, step: Step, s': State) {
    Enabled(s, step) && s' == Apply(s, step)
  }

  lemma {:induction false} BehaviorInv(states: seq<State>, steps: seq<Step>, i: nat)
    requires Behavior(states, steps) && i < |states|
    ensures Inv(states[i])
  {
    if i > 0 {
      hide Inv, Enabled, Apply;
      BehaviorInv(states, steps, i - 1);
      assert Leads(states[i - 1], steps[i - 1], states[i]);
      StepKeepsInv(states[i - 1], steps[i - 1]);
    } else {
      assert Inv(Init());
    }
  }

  /** A client of a cache is at every moment in exactly one of three situations: it is its key's entry in
      the map, or somebody has taken it out and can cancel it right now, or it is cancelled. */
  lemma NothingLeaks(states: seq<State>, steps: seq<Step>, i: nat, id: nat)
    requires Behavior(states, steps) && i < |states| && id < |states[i].clients|
    ensures var s, c := states[i], states[i].clients[id];
            var listed := c.key in s.m && s.m[c.key] == id;
            var held := !c.holder.Nobody?;
            && (listed || held || c.cancelled)
            && !(listed && held) && !(listed && c.cancelled) && !(held && c.cancelled)
            && (held ==> Enabled(s, if c.holder.Runner? then RunCancel(id) else CancelOne(c.holder.call, id)))
            && (forall k | k in s.m && s.m[k] == id :: k == c.key)
  {
    BehaviorInv(states, steps, i);
    assert ClientInv(states[i], id);
  }

  /** What can never be taken back: the readiness once decided, the departure from the map, its cause,
      and the cancellation. */
  lemma StepIsFinal(s: State, step: Step, id: nat)
    requires Inv(s) && Enabled(s, step) && id < |s.clients|
    ensures var s' := Apply(s, step); id < |s'.clients| && Advanced(s.clients[id], s'.clients[id])
  {
    assert ClientInv(s, id);
    hide Removed;
    match step
    case Drop(t) =>
      assert CallInv(s, t);
      var why := s.calls[t].why;
      RemovedClient(s, OwnEntry(s, s.calls[t].id), Call(t), _ => why, id);
    case CloseAll(t) => RemovedClient(s, s.m.Values, Call(t), _ => Shutdown, id);
    case Reap(t) =>
      var at := s.calls[t].at;
      RemovedClient(s, IdleEntries(s, at), Call(t), (c: Client) => Idle(at - c.lastAt), id);
    case RunDrop(d) => RemovedClient(s, OwnEntry(s, d), Runner, _ => RunEnded, id);
    case _ =>
  }

  predicate Advanced(c: Client, c': Client) {
    && c'.key == c.key
    && (c.readiness.Decided? ==> c'.readiness == c.readiness)
    && (!c.removal.Listed? ==> c'.removal == c.removal)
    && (c.cancelled ==> c'.cancelled)
  }

  /** Over whole runs: readiness is decided at most once, a client that left the map never comes back,
      and a cancelled client stays cancelled. */
  lemma {:induction false} DecisionsAreFinal(states: seq<State>, steps: seq<Step>, i: nat, j: nat, id: nat)
    requires Behavior(states, steps) && i <= j < |states| && id < |states[i].clients|
    ensures id < |states[j].clients| && Advanced(states[i].clients[id], states[j].clients[id])
    decreases j
  {
    if i < j {
      hide Inv, Enabled, Apply;
      DecisionsAreFinal(states, steps, i, j - 1, id);
      BehaviorInv(states, steps, j - 1);
      assert Leads(states[j - 1], steps[j - 1], states[j]);
      StepIsFinal(states[j - 1], steps[j - 1], id);
    }
  }

  /** The step takes client `id` out of the map, for the reason `why`. */
  predicate Takes(s: State, step: Step, id: nat, why: Removal)
    requires Enabled(s, step) && id < |s.clients|
  {
    && s.clients[id].removal.Listed?
    && match step
       case Drop(t) => s.calls[t].id == id && s.calls[t].why == why
       case CloseAll(_) => why == Shutdown
       case Reap(t) => why == Idle(s.calls[t].at - s.clients[id].lastAt) && why.age > IDLE_TIMEOUT
       case RunDrop(d) => d == id && why == RunEnded
       case _ => false
  }

  lemma StepTakes(s: State, step: Step, id: nat)
    requires Inv(s) && Enabled(s, step) && id < |s.clients| && s.clients[id].removal.Listed?
    ensures id < |Apply(s, step).clients|
    ensures var why := Apply(s, step).clients[id].removal; why.Listed? || Takes(s, step, id, why)
  {
    assert ClientInv(s, id);
    hide Removed;
    match step
    case Drop(t) =>
      assert CallInv(s, t);
      var why := s.calls[t].why;
      RemovedClient(s, OwnEntry(s, s.calls[t].id), Call(t), _ => why, id);
    case CloseAll(t) => RemovedClient(s, s.m.Values, Call(t), _ => Shutdown, id);
    case Reap(t) =>
      var at := s.calls[t].at;
      RemovedClient(s, IdleEntries(s, at), Call(t), (c: Client) => Idle(at - c.lastAt), id);
    case RunDrop(d) => RemovedClient(s, OwnEntry(s, d), Runner, _ => RunEnded, id);
    case _ =>
  }

  lemma StepCreates(s: State, step: Step, id: nat)
    requires Enabled(s, step) && |s.clients| <= id < |Apply(s, step).clients|
    ensures Apply(s, step).clients[id].removal.Listed? && Apply(s, step).clients[id].run.Connecting?
  {
  }

  /** A client that is not in the map was taken out by an earlier step of the run. */
  lemma {:induction false} WasTaken(states: seq<State>, steps: seq<Step>, i: nat, id: nat) returns (k: nat)
    requires Behavior(states, steps) && i < |states| && id < |states[i].clients| && !states[i].clients[id].removal.Listed?
    ensures k < i && id < |states[k].clients| && Enabled(states[k], steps[k])
    ensures Takes(states[k], steps[k], id, states[i].clients[id].removal)
  {
    hide Inv, Enabled, Apply, Takes;
    if i == 0 {
      assert false;
    } else {
      k := i - 1;
      BehaviorInv(states, steps, k);
      assert Leads(states[k], steps[k], states[i]);
      if id >= |states[k].clients| {
        StepCreates(states[k], steps[k], id);
        assert false;
      } else if states[k].clients[id].removal.Listed? {
        StepTakes(states[k], steps[k], id);
      } else {
        StepIsFinal(states[k], steps[k], id);
        k := WasTaken(states, steps, k, id);
      }
    }
  }

  /** The step that makes a call clean up after client `id`: the creator's time-out, or the news that it failed. */
  predicate Prompts(s: State, step: Step, t: nat, id: nat, why: Removal) {
    && t < |s.calls| && id < |s.clients|
    && ((why.TimedOut? && step == TimeOut(t) && s.calls[t] == Awaiting(id, true))
        || (why.NotReady? && step == Wake(t) && s.calls[t] == Awaiting(id, false)
            && s.clients[id].readiness.Decided? && s.clients[id].readiness.error.Some?))
  }

  lemma StepPrompts(s: State, step: Step, t: nat)
    requires Enabled(s, step) && t < |Apply(s, step).calls| && Apply(s, step).calls[t].Cleaning?
    ensures var call := Apply(s, step).calls[t];
            (t < |s.calls| && s.calls[t] == call) || Prompts(s, step, t, call.id, call.why)
  {
  }

  lemma {:induction false} WasPrompted(states: seq<State>, steps: seq<Step>, i: nat, t: nat) returns (j: nat)
    requires Behavior(states, steps) && i < |states| && t < |states[i].calls| && states[i].calls[t].Cleaning?
    ensures j < i && Prompts(states[j], steps[j], t, states[i].calls[t].id, states[i].calls[t].why)
  {
    hide Enabled, Apply, Prompts;
    if i == 0 {
      assert false;
    } else {
      j := i - 1;
      assert Leads(states[j], steps[j], states[i]);
      StepPrompts(states[j], steps[j], t);
      if t < |states[j].calls| && states[j].calls[t] == states[i].calls[t] {
        j := WasPrompted(states, steps, j, t);
      }
    }
  }

  /** A call that waits as the creator of a client has created it: with the step that made this client. */
  lemma {:induction false} WasCreated(states: seq<State>, steps: seq<Step>, i: nat, t: nat) returns (j: nat)
    requires Behavior(states, steps) && i < |states| && t < |states[i].calls|
    requires states[i].calls[t].Awaiting? && states[i].calls[t].creator
    ensures j < i && steps[j] == Lookup(t, true) && |states[j].clients| == states[i].calls[t].id < |states[j + 1].clients|
  {
    if i == 0 {
      assert false;
    } else {
      hide Inv;
      j := i - 1;
      assert Leads(states[j], steps[j], states[i]);
      if t < |states[j].calls| && states[j].calls[t] == states[i].calls[t] {
        j := WasCreated(states, steps, j, t);
      }
    }
  }

  /** The step in which the connection of client `id` ended. */
  predicate Ends(step: Step, id: nat) {
    (step.RunEnds? && step.id == id) || (step.Authorize? && step.id == id && step.error.Some?)
  }

  predicate HasEnded(c: Client) {
    !c.run.Connecting? && !c.run.Open?
  }

  lemma StepEnds(s: State, step: Step, id: nat)
    requires Enabled(s, step) && id < |s.clients| && !HasEnded(s.clients[id])
    ensures id < |Apply(s, step).clients| && (HasEnded(Apply(s, step).clients[id]) ==> Ends(step, id))
  {
  }

  lemma {:induction false} ConnectionEnded(states: seq<State>, steps: seq<Step>, i: nat, id: nat) returns (j: nat)
    requires Behavior(states, steps) && i < |states| && id < |states[i].clients| && HasEnded(states[i].clients[id])
    ensures j < i && Ends(steps[j], id)
  {
    hide Enabled, Apply, Ends;
    if i == 0 {
      assert false;
    } else {
      j := i - 1;
      assert Leads(states[j], steps[j], states[i]);
      if id >= |states[j].clients| {
        StepCreates(states[j], steps[j], id);
        assert false;
      } else if HasEnded(states[j].clients[id]) {
        j := ConnectionEnded(states, steps, j, id);
      } else {
        StepEnds(states[j], steps[j], id);
      }
    }
  }

  /** Nobody cancels a client without cause. Some step `k` of the run took it out of the map: a shutdown, or a reap
      that found it idle beyond the limit when it read the clock, or a clean-up. And a clean-up has a cause of its own,
      an earlier step `j`: the time-out of the call that created the client, the news to a waiting call that the client
      is not usable, or the end of its connection. */
  lemma CancelledForCause(states: seq<State>, steps: seq<Step>, i: nat, id: nat) returns (k: nat, j: nat)
    requires Behavior(states, steps) && i < |states| && id < |states[i].clients| && states[i].clients[id].cancelled
    ensures k < i && id < |states[k].clients| && Enabled(states[k], steps[k])
    ensures Takes(states[k], steps[k], id, states[i].clients[id].removal)
    ensures match steps[k]
            case Drop(t) => j < k && Prompts(states[j], steps[j], t, id, states[i].clients[id].removal)
            case RunDrop(_) => j < k && Ends(steps[j], id)
            case _ => steps[k].CloseAll? || steps[k].Reap?
  {
    BehaviorInv(states, steps, i);
    assert ClientInv(states[i], id);
    hide Inv, ClientInv, Apply, Prompts, Ends;
    k := WasTaken(states, steps, i, id);
    j := 0;
    match steps[k]
    case Drop(t) => j := WasPrompted(states, steps, k, t);
    case RunDrop(_) => j := ConnectionEnded(states, steps, k, id);
    case _ =>
  }

  /** Call `t` has to do with the client of `key` alone. */
  predicate IsFor(s: State, t: nat, key: Key)
    requires t < |s.calls|
  {
    match s.calls[t]
    case Getting(k) => k == key
    case Awaiting(id, _) => id < |s.clients| && s.clients[id].key == key
    case Cleaning(id, _) => id < |s.clients| && s.clients[id].key == key
    case Returned(Some(id)) => id < |s.clients| && s.clients[id].key == key
    case Closing => false
    case Reaping(_) => false
    case _ => true
  }

  /** A call stays with what it was started for. */
  predicate StaysWith(s: State, t: nat, call: Call)
    requires t < |s.calls|
  {
    match call
    case Getting(key) => IsFor(s, t, key)
    case _ => s.calls[t] == call || s.calls[t].Holding? || s.calls[t] == Returned(None)
  }

  lemma StepStaysWith(s: State, step: Step, t: nat, call: Call)
    requires Inv(s) && Enabled(s, step) && t < |s.calls| && StaysWith(s, t, call)
    requires call.Getting? || call.Closing? || call.Reaping?
    ensures t < |Apply(s, step).calls| && StaysWith(Apply(s, step), t, call)
  {
    hide ClientInv, CallInv, IdleEntries, OwnEntry;
  }

  /** Every call was started by a step of the run, and a call for a key only ever waits for, cleans up after and returns
      the client of that key. */
  lemma {:induction false} WasStarted(states: seq<State>, steps: seq<Step>, i: nat, t: nat) returns (j: nat)
    requires Behavior(states, steps) && i < |states| && t < |states[i].calls|
    ensures j < i && steps[j].Start? && |states[j].calls| == t && Enabled(states[j], steps[j])
    ensures StaysWith(states[i], t, steps[j].call)
  {
    hide Inv, Enabled, Apply, StaysWith;
    if i == 0 {
      assert false;
    } else {
      j := i - 1;
      BehaviorInv(states, steps, j);
      assert Leads(states[j], steps[j], states[i]);
      if t < |states[j].calls| {
        var started := WasStarted(states, steps, j, t);
        KindOfCall(states[started], steps[started]);
        StepStaysWith(states[j], steps[j], t, steps[started].call);
        j := started;
      } else {
        StepStarts(states[j], steps[j], t);
      }
    }
  }

  lemma KindOfCall(s: State, step: Step)
    requires Enabled(s, step) && step.Start?
    ensures step.call.Getting? || step.call.Closing? || step.call == Reaping(s.now)
  {
  }

  lemma StepStarts(s: State, step: Step, t: nat)
    requires Enabled(s, step) && |s.calls| <= t < |Apply(s, step).calls|
    ensures step.Start? && t == |s.calls| && StaysWith(Apply(s, step), t, step.call)
  {
  }

  /** A call returns the client of the key that it asked for. */
  lemma ReturnsOwnKey(states: seq<State>, steps: seq<Step>, i: nat, t: nat) returns (j: nat)
    requires Behavior(states, steps) && i < |states| && t < |states[i].calls|
    requires states[i].calls[t].Returned? && states[i].calls[t].client.Some?
    ensures j < i && steps[j].Start? && |states[j].calls| == t && steps[j].call.Getting?
    ensures var id := states[i].calls[t].client.value;
            id < |states[i].clients| && states[i].clients[id].key == steps[j].call.key
  {
    j := WasStarted(states, steps, i, t);
    KindOfCall(states[j], steps[j]);
  }

  /** A client is decided ready when it was authorised, and decided unusable with the error of its authorisation or of the
      end of its connection; an end without an error counts as one. */
  predicate Decides(step: Step, id: nat, error: Option<nat>) {
    || step == Authorize(id, error)
    || (error.Some? && step == RunEnds(id, error))
    || (error == Some(STOPPED) && step == RunEnds(id, None))
  }

  /** What the goroutine of a client will signal. */
  predicate WillSignal(c: Client, error: Option<nat>) {
    c.run.Stopped? && error == Some(if c.run.error.Some? then c.run.error.value else STOPPED)
  }

  lemma StepDecides(s: State, step: Step, id: nat, error: Option<nat>)
    requires Inv(s) && Enabled(s, step) && id < |s.clients|
    ensures id < |Apply(s, step).clients|
    ensures var c, c' := s.clients[id], Apply(s, step).clients[id];
            && (c'.readiness == Decided(error) ==> c.readiness == Decided(error) || WillSignal(c, error) || Decides(step, id, error))
            && (WillSignal(c', error) ==> WillSignal(c, error) || Decides(step, id, error))
  {
    hide CallInv, IdleEntries, OwnEntry;
    assert ClientInv(s, id);
    hide ClientInv;
  }

  lemma {:induction false} ReadinessIsGenuine(states: seq<State>, steps: seq<Step>, i: nat, id: nat, error: Option<nat>)
    returns (j: nat)
    requires Behavior(states, steps) && i < |states| && id < |states[i].clients|
    requires states[i].clients[id].readiness == Decided(error) || WillSignal(states[i].clients[id], error)
    ensures j < i && Decides(steps[j], id, error)
  {
    hide Inv, Enabled, Apply, Decides, WillSignal;
    if i == 0 {
      assert false;
    } else {
      j := i - 1;
      BehaviorInv(states, steps, j);
      assert Leads(states[j], steps[j], states[i]);
      if id >= |states[j].clients| {
        StepIsUndecided(states[j], steps[j], id, error);
        assert false;
      } else {
        StepDecides(states[j], steps[j], id, error);
        if !Decides(steps[j], id, error) {
          j := ReadinessIsGenuine(states, steps, j, id, error);
        }
      }
    }
  }

  lemma StepIsUndecided(s: State, step: Step, id: nat, error: Option<nat>)
    requires Enabled(s, step) && |s.clients| <= id < |Apply(s, step).clients|
    ensures Apply(s, step).clients[id].readiness.Undecided? && !WillSignal(Apply(s, step).clients[id], error)
  {
  }

  /** Only an authorised client is handed out. */
  lemma ReturnedIsAuthorised(states: seq<State>, steps: seq<Step>, i: nat, t: nat) returns (j: nat)
    requires Behavior(states, steps) && i < |states| && t < |states[i].calls|
    requires states[i].calls[t].Returned? && states[i].calls[t].client.Some?
    ensures j < i && steps[j] == Authorize(states[i].calls[t].client.value, None)
  {
    BehaviorInv(states, steps, i);
    assert CallInv(states[i], t);
    j := ReadinessIsGenuine(states, steps, i, states[i].calls[t].client.value, None);
  }

  /** A call that waits for a client has looked it up, and waits as its creator exactly if that step has made it; otherwise
      it has found it listed under its key. */
  lemma {:induction false} WasLookedUp(states: seq<State>, steps: seq<Step>, i: nat, t: nat) returns (j: nat)
    requires Behavior(states, steps) && i < |states| && t < |states[i].calls| && states[i].calls[t].Awaiting?
    ensures j < i && steps[j].Lookup? && steps[j].t == t && t < |states[j].calls| && states[j].calls[t].Getting?
    ensures var id, creator, key := states[i].calls[t].id, states[i].calls[t].creator, states[j].calls[t].key;
            && (creator <==> key !in states[j].m)
            && (creator ==> id == |states[j].clients| < |states[j + 1].clients|)
            && (!creator ==> states[j].m[key] == id)
  {
    if i == 0 {
      assert false;
    } else {
      hide Inv;
      j := i - 1;
      assert Leads(states[j], steps[j], states[i]);
      if t < |states[j].calls| && states[j].calls[t] == states[i].calls[t] {
        j := WasLookedUp(states, steps, j, t);
      }
    }
  }

  /** How a wait ends: with the client if it is usable; the creator cleans up after its own time-out, a later call after a
      client that it finds unusable, and nobody else does. */
  lemma WaitEnds(states: seq<State>, steps: seq<Step>, i: nat, t: nat) returns (j: nat)
    requires Behavior(states, steps) && i < |steps| && t < |states[i].calls| && states[i].calls[t].Awaiting?
    requires steps[i] in {Wake(t), TimeOut(t), GiveUp(t)}
    ensures j < i && steps[j].Lookup? && steps[j].t == t && t < |states[j].calls| && states[j].calls[t].Getting?
    ensures t < |states[i + 1].calls| && states[i].calls[t].id < |states[i].clients|
    ensures var id, creator := states[i].calls[t].id, states[j].calls[t].key !in states[j].m;
            var readiness, next := states[i].clients[id].readiness, states[i + 1].calls[t];
            match steps[i]
            case Wake(_) =>
              && readiness.Decided?
              && next == if readiness == Decided(None) then Returned(Some(id))
                         else if creator then Returned(None) else Cleaning(id, NotReady)
            case TimeOut(_) => next == if creator then Cleaning(id, TimedOut) else Returned(None)
            case _ => next == Returned(None)
  {
    j := WasLookedUp(states, steps, i, t);
    assert Leads(states[i], steps[i], states[i + 1]);
  }

  /** What the surroundings may do at any time: time passes, connections end, callers give up, authorisation ends in any way. */
  lemma SurroundingsAreFree(s: State, elapsed: nat, id: nat, error: Option<nat>, t: nat)
    requires id < |s.clients|
    ensures Enabled(s, Tick(elapsed)) && Apply(s, Tick(elapsed)) == s.(now := s.now + elapsed)
    ensures s.clients[id].run.Connecting? || s.clients[id].run.Open? ==>
              Enabled(s, RunEnds(id, error)) && Apply(s, RunEnds(id, error)).clients[id].run == Stopped(error)
    ensures s.clients[id].run.Connecting? ==> Enabled(s, Authorize(id, error))
    ensures t < |s.calls| && s.calls[t].Awaiting? && s.calls[t].id == id ==> Enabled(s, TimeOut(t)) && Enabled(s, GiveUp(t))
  {
  }

  /** Step `k` is a lookup that found or made client `id`. */
  predicate LooksUp(states: seq<State>, steps: seq<Step>, k: nat, id: nat)
    requires k < |steps| && |states| == |steps| + 1
  {
    steps[k].Lookup? && steps[k].t < |states[k + 1].calls|
    && states[k + 1].calls[steps[k].t].Awaiting? && states[k + 1].calls[steps[k].t].id == id
  }

  /** When client `id` was last looked up before step `i`. */
  function LastLookup(states: seq<State>, steps: seq<Step>, i: nat, id: nat): nat
    requires i <= |steps| && |states| == |steps| + 1
  {
    if i == 0 then 0
    else if LooksUp(states, steps, i - 1, id) then states[i - 1].now else LastLookup(states, steps, i - 1, id)
  }

  lemma {:induction false} LastAtIsLookup(states: seq<State>, steps: seq<Step>, i: nat, id: nat)
    requires Behavior(states, steps) && i < |states| && id < |states[i].clients|
    ensures states[i].clients[id].lastAt == LastLookup(states, steps, i, id)
  {
    hide Inv, Enabled, Apply;
    if i == 0 {
      assert false;
    } else {
      var s, step := states[i - 1], steps[i - 1];
      BehaviorInv(states, steps, i - 1);
      assert Leads(s, step, states[i]);
      StepAtLastAt(s, step, id);
      if id < |s.clients| {
        LastAtIsLookup(states, steps, i - 1, id);
      }
    }
  }

  lemma StepAtLastAt(s: State, step: Step, id: nat)
    requires Inv(s) && Enabled(s, step) && id < |Apply(s, step).clients|
    ensures var s' := Apply(s, step);
            var looksUp := step.Lookup? && step.t < |s'.calls| && s'.calls[step.t].Awaiting? && s'.calls[step.t].id == id;
            && (id >= |s.clients| ==> looksUp)
            && s'.clients[id].lastAt == if looksUp then s.now else s.clients[id].lastAt
  {
    hide ClientInv, CallInv, IdleEntries, OwnEntry;
  }

  /** A reap takes out exactly the listed clients whose last lookup was too long ago when it read the clock, and holds them. */
  lemma ReapTakesIdle(states: seq<State>, steps: seq<Step>, i: nat, t: nat, id: nat) returns (j: nat)
    requires Behavior(states, steps) && i < |steps| && steps[i] == Reap(t)
    requires id < |states[i].clients| && states[i].clients[id].removal.Listed?
    ensures j < i && steps[j].Start? && |states[j].calls| == t && id < |states[i + 1].clients|
    ensures var idle := states[j].now - LastLookup(states, steps, i, id) > IDLE_TIMEOUT;
            && (states[i + 1].clients[id].removal.Listed? <==> !idle)
            && t < |states[i + 1].calls| && states[i + 1].calls[t].Holding? && (id in states[i + 1].calls[t].ids <==> idle)
  {
    BehaviorInv(states, steps, i);
    assert ClientInv(states[i], id);
    assert Leads(states[i], steps[i], states[i + 1]);
    LastAtIsLookup(states, steps, i, id);
    j := WasStarted(states, steps, i, t);
    KindOfCall(states[j], steps[j]);
    hide LastLookup, Behavior, Inv;
    EntriesById(states[i], states[j].now, id);
  }

  lemma EntriesById(s: State, at: nat, id: nat)
    requires MapInv(s) && id < |s.clients| && ClientInv(s, id) && s.clients[id].removal.Listed?
    ensures id in IdleEntries(s, at) <==> at - s.clients[id].lastAt > IDLE_TIMEOUT
  {
  }

  /** A shutdown leaves no entry behind, and holds all clients that were listed. */
  lemma CloseEmptiesMap(states: seq<State>, steps: seq<Step>, i: nat, t: nat)
    requires Behavior(states, steps) && i < |steps| && steps[i] == CloseAll(t)
    ensures states[i + 1].m == map[] && t < |states[i + 1].calls|
    ensures states[i + 1].calls[t] == Holding(states[i].m.Values)
    ensures forall id | 0 <= id < |states[i].clients| && states[i].clients[id].removal.Listed? :: id in states[i].m.Values
  {
    BehaviorInv(states, steps, i);
    assert Leads(states[i], steps[i], states[i + 1]);
    forall id | 0 <= id < |states[i].clients| && states[i].clients[id].removal.Listed?
      ensures id in states[i].m.Values
    {
      assert ClientInv(states[i], id);
      assert states[i].clients[id].key in states[i].m;
    }
  }

  /** An entry of the map is never overwritten. */
  lemma StepOverwritesNothing(s: State, step: Step, key: Key)
    requires Enabled(s, step) && key in s.m
    ensures key in Apply(s, step).m ==> Apply(s, step).m[key] == s.m[key]
  {
  }

  /** If a key has another client later on, it was without one in between. */
  lemma {:induction false} ReplacedOnlyAfterRemoval(states: seq<State>, steps: seq<Step>, i: nat, j: nat, key: Key) returns (k: nat)
    requires Behavior(states, steps) && i <= j < |states|
    requires key in states[i].m && key in states[j].m && states[i].m[key] != states[j].m[key]
    ensures i < k < j && key !in states[k].m
    decreases j
  {
    hide Enabled, Apply;
    if key !in states[j - 1].m {
      k := j - 1;
    } else {
      assert Leads(states[j - 1], steps[j - 1], states[j]);
      StepOverwritesNothing(states[j - 1], steps[j - 1], key);
      k := ReplacedOnlyAfterRemoval(states, steps, i, j - 1, key);
    }
  }

  /** The steps of a clean-up on behalf of client `id`. */
  predicate CleansUp(s: State, step: Step, id: nat) {
    match step
    case Drop(t) => t < |s.calls| && s.calls[t].Cleaning? && s.calls[t].id == id
    case CancelOne(_, d) => d == id
    case RunDrop(d) => d == id
    case RunCancel(d) => d == id
    case _ => false
  }

  /** A late clean-up never touches the replacement: all other clients keep their entries and stay as they are. */
  lemma CleanupSparesOthers(states: seq<State>, steps: seq<Step>, i: nat, id: nat, other: nat, key: Key)
    requires Behavior(states, steps) && i < |steps| && CleansUp(states[i], steps[i], id)
    requires other != id && other < |states[i].clients|
    ensures other < |states[i + 1].clients| && states[i + 1].clients[other] == states[i].clients[other]
    ensures key in states[i].m && states[i].m[key] == other <==> key in states[i + 1].m && states[i + 1].m[key] == other
  {
    BehaviorInv(states, steps, i);
    assert Leads(states[i], steps[i], states[i + 1]);
  }

  /** Nobody waits for a client in vain: either it is decided, and the waiting call can go on, or the
      goroutine of the client can take a step; and a goroutine that has ended leaves no entry behind.
      A call only ever returns a client that became ready. */
  lemma WaitersAreServed(states: seq<State>, steps: seq<Step>, i: nat, t: nat) returns (next: Step)
    requires Behavior(states, steps) && i < |states| && t < |states[i].calls|
    ensures var s := states[i];
            match s.calls[t]
            case Awaiting(id, _) =>
              && id < |s.clients| && Enabled(s, next)
              && (next == Wake(t) || next == SignalEnd(id) || next == Authorize(id, None))
              && (s.clients[id].readiness.Decided? ==> next == Wake(t))
              && (s.clients[id].run.Finished? ==> forall k | k in s.m :: s.m[k] != id)
            case Returned(Some(id)) => id < |s.clients| && s.clients[id].readiness == Decided(None)
            case _ => true
  {
    BehaviorInv(states, steps, i);
    var s := states[i];
    assert CallInv(s, t);
    next := Tick(0);
    if s.calls[t].Awaiting? {
      var id := s.calls[t].id;
      assert ClientInv(s, id);
      next := if s.clients[id].readiness.Decided? then Wake(t)
              else if s.clients[id].run.Connecting? then Authorize(id, None) else SignalEnd(id);
    }
  }
}
