/** The single-flight snapshot cache. `get` is cut at its lock regions: sampling the clock, the region that
    hits, joins or leads, the region that publishes a finished load, and the select that wakes or cancels.
    `Step` interleaves any number of callers; `SnapshotCache` is the mutable object, proved against it. */
module SnapshotCaching {
  import opened Text

  datatype Snapshot = Snapshot(payload: string)
  type Error = string

  const NoSnapshot := Snapshot("")

  // ----- the cache as a value -----

  /** One load. `closes` counts the closings of its `done` channel; `finishedAt` is the step that closed it. */
  datatype Load = Load(closes: nat, snapshot: Snapshot, err: Option<Error>, cachedAt: Option<int>, finishedAt: nat)

  const FreshLoad := Load(0, NoSnapshot, None, None, 0)

  /** `inFlight` and the callers name a load by its position in `loads`, the history of all loads. */
  datatype Cache = Cache(ttl: int, snapshot: Snapshot, cachedAt: int, hasValue: bool, inFlight: Option<nat>, loads: seq<Load>)

  datatype Entered = GotHit(snapshot: Snapshot, cachedAt: int) | Joined(load: nat) | Led(load: nat)

  predicate Fresh(c: Cache, force: bool, now: int) {
    !force && c.hasValue && now - c.cachedAt < c.ttl
  }

  function EnterCache(c: Cache, force: bool, now: int): (Cache, Entered) {
    if Fresh(c, force, now) then
      (c, GotHit(c.snapshot, c.cachedAt))
    else if c.inFlight.Some? then
      (c, Joined(c.inFlight.value))
    else
      (c.(inFlight := Some(|c.loads|), loads := c.loads + [FreshLoad]), Led(|c.loads|))
  }

  function FinishLoad(load: Load, snapshot: Snapshot, err: Option<Error>, now: int, step: nat): Load {
    Load(load.closes + 1, snapshot, err, if err.None? then Some(now) else load.cachedAt, step)
  }

  function FinishCache(c: Cache, l: nat, snapshot: Snapshot, err: Option<Error>, now: int, step: nat): Cache
    requires l < |c.loads|
  {
    var c' := if err.None? then c.(snapshot := snapshot, cachedAt := now, hasValue := true) else c;
    c'.(inFlight := None, loads := c.loads[l := FinishLoad(c.loads[l], snapshot, err, now, step)])
  }

  // ----- callers and interleaving -----

  datatype Status = HitStatus | SharedStatus | MissStatus | DisabledStatus
  datatype Reply = Reply(status: Status, snapshot: Snapshot, cachedAt: Option<int>, err: Option<Error>)

  /** Where a reply came from: the cached value read at a step, a finished load, a cancelled wait, or a bypass. */
  datatype Source = FromCache(at: nat) | FromLoad(load: nat) | FromCancel(load: nat) | FromBypass

  datatype Phase = Sampled | Waiting(load: nat) | Loading(load: nat) | Bypassing | Returned(reply: Reply, source: Source)
  datatype Caller = Caller(force: bool, now: int, entered: nat, phase: Phase)

  /** `clock` is what `time.Now()` reads; `steps` numbers the steps taken so far. */
  datatype System = System(cache: Cache, callers: map<nat, Caller>, clock: int, steps: nat)

  datatype Action =
    | Call(caller: nat, force: bool)
    | Enter(caller: nat)
    | Finish(caller: nat, snapshot: Snapshot, err: Option<Error>)
    | Wake(caller: nat)
    | Cancel(caller: nat, reason: Error)
    | EndBypass(caller: nat, snapshot: Snapshot, err: Option<Error>)
    | Tick(now: int)

  predicate Enabled(s: System, a: Action) {
    match a
    case Call(c, _) => c !in s.callers
    case Enter(c) => c in s.callers && s.callers[c].phase == Sampled
    case Finish(c, _, _) =>
      c in s.callers && s.callers[c].phase.Loading? && s.callers[c].phase.load < |s.cache.loads|
    case Wake(c) =>
      && c in s.callers && s.callers[c].phase.Waiting? && s.callers[c].phase.load < |s.cache.loads|
      && s.cache.loads[s.callers[c].phase.load].closes > 0
    case Cancel(c, _) => c in s.callers && s.callers[c].phase.Waiting?
    case EndBypass(c, _, _) => c in s.callers && s.callers[c].phase == Bypassing
    case Tick(_) => true
  }

  function LoadReply(status: Status, load: Load): Reply {
    Reply(status, load.snapshot, load.cachedAt, load.err)
  }

  function Move(s: System, c: nat, p: Phase): System
    requires c in s.callers
  {
    s.(callers := s.callers[c := s.callers[c].(phase := p)], steps := s.steps + 1)
  }

  function Step(s: System, a: Action): System
    requires Enabled(s, a)
  {
    match a
    case Call(c, force) =>
      var phase := if s.cache.ttl < 0 then Bypassing else Sampled;
      s.(callers := s.callers[c := Caller(force, s.clock, s.steps, phase)], steps := s.steps + 1)
    case Enter(c) =>
      var (cache, entered) := EnterCache(s.cache, s.callers[c].force, s.callers[c].now);
      var phase := match entered
        case GotHit(snapshot, cachedAt) => Returned(Reply(HitStatus, snapshot, Some(cachedAt), None), FromCache(s.steps))
        case Joined(l) => Waiting(l)
        case Led(l) => Loading(l);
      Move(s, c, phase).(cache := cache)
    case Finish(c, snapshot, err) =>
      var l := s.callers[c].phase.load;
      var cache := FinishCache(s.cache, l, snapshot, err, s.clock, s.steps);
      Move(s, c, Returned(LoadReply(MissStatus, cache.loads[l]), FromLoad(l))).(cache := cache)
    case Wake(c) =>
      var l := s.callers[c].phase.load;
      Move(s, c, Returned(LoadReply(SharedStatus, s.cache.loads[l]), FromLoad(l)))
    case Cancel(c, reason) =>
      Move(s, c, Returned(Reply(SharedStatus, NoSnapshot, None, Some(reason)), FromCancel(s.callers[c].phase.load)))
    case EndBypass(c, snapshot, err) =>
      Move(s, c, Returned(Reply(DisabledStatus, snapshot, None, err), FromBypass))
    case Tick(now) => s.(clock := now, steps := s.steps + 1)
  }

  const DefaultTtl := 10_000_000_000

  function NewCache(ttl: int): Cache {
    Cache(if ttl == 0 then DefaultTtl else ttl, NoSnapshot, 0, false, None, [])
  }

  ghost predicate Run(ttl: int, states: seq<System>, actions: seq<Action>) {
    && |states| == |actions| + 1
    && states[0].cache == NewCache(ttl) && states[0].callers == map[]
    && forall i :: 0 <= i < |actions| ==> Enabled(states[i], actions[i]) && states[i + 1] == Step(states[i], actions[i])
  }

  // ----- what every reachable state satisfies -----

  predicate Succeeded(load: Load) {
    load.closes == 1 && load.err.None?
  }

  ghost predicate LatestSuccess(loads: seq<Load>, l: nat) {
    l < |loads| && Succeeded(loads[l]) && forall k :: l < k < |loads| ==> !Succeeded(loads[k])
  }

  /** Exactly the last load can be unfinished, and then it is the one in flight. */
  ghost predicate LoadsInv(c: Cache, steps: nat) {
    && (c.inFlight.Some? ==> c.inFlight.value == |c.loads| - 1)
    && (forall l :: 0 <= l < |c.loads| ==> c.loads[l].closes == if c.inFlight == Some(l) then 0 else 1)
    && (forall l :: 0 <= l < |c.loads| && c.loads[l].closes == 1 ==>
          c.loads[l].finishedAt < steps && (c.loads[l].err.None? <==> c.loads[l].cachedAt.Some?))
    && (forall k, l :: 0 <= k < l < |c.loads| && c.loads[l].closes == 1 ==>
          c.loads[k].finishedAt < c.loads[l].finishedAt)
    && (forall l :: 0 <= l < |c.loads| && c.inFlight == Some(l) ==> c.loads[l] == FreshLoad)
  }

  /** The cached value is the one that load l brought, and no later load succeeded. */
  ghost predicate Publishes(c: Cache, l: nat) {
    LatestSuccess(c.loads, l) && c.loads[l].snapshot == c.snapshot && c.loads[l].cachedAt == Some(c.cachedAt)
  }

  /** The cached value is that of the latest successful load; failed loads leave no trace in it. */
  ghost predicate ValueInv(c: Cache) {
    && (!c.hasValue ==> forall l :: 0 <= l < |c.loads| ==> !Succeeded(c.loads[l]))
    && (c.hasValue ==> exists l: nat :: Publishes(c, l))
  }

  /** A hit at step `at` returned the latest load published before it, within the time to live. */
  ghost predicate HitFrom(c: Cache, caller: Caller, reply: Reply, at: nat, l: nat) {
    && l < |c.loads| && Succeeded(c.loads[l]) && c.loads[l].finishedAt < at
    && reply == LoadReply(HitStatus, c.loads[l])
    && c.loads[l].cachedAt.Some? && caller.now - c.loads[l].cachedAt.value < c.ttl
    && forall k :: l < k < |c.loads| && Succeeded(c.loads[k]) ==> c.loads[k].finishedAt >= at
  }

  /** `later` load: closed after the caller entered `get`. */
  ghost predicate ClosedAfter(c: Cache, l: nat, entered: nat) {
    l < |c.loads| && c.loads[l].closes == 1 && c.loads[l].finishedAt > entered
  }

  ghost predicate CallerInv(c: Cache, caller: Caller, steps: nat) {
    && caller.entered < steps
    && (c.ttl < 0 <==> caller.phase.Bypassing? || (caller.phase.Returned? && caller.phase.source.FromBypass?))
    && match caller.phase
       case Sampled => true
       case Bypassing => true
       case Loading(l) => c.inFlight == Some(l)
       case Waiting(l) => l < |c.loads| && (c.loads[l].closes == 1 ==> ClosedAfter(c, l, caller.entered))
       case Returned(reply, FromLoad(l)) =>
         && ClosedAfter(c, l, caller.entered) && reply == LoadReply(reply.status, c.loads[l])
         && (reply.status == SharedStatus || reply.status == MissStatus)
       case Returned(reply, FromCache(at)) =>
         && !caller.force && at < steps && caller.entered < at
         && exists l: nat :: HitFrom(c, caller, reply, at, l)
       case Returned(reply, FromCancel(_)) => reply.status == SharedStatus && reply.err.Some?
       case Returned(reply, FromBypass) => reply.status == DisabledStatus
  }

  ghost predicate Inv(s: System) {
    && LoadsInv(s.cache, s.steps)
    && ValueInv(s.cache)
    && (forall c :: c in s.callers ==> CallerInv(s.cache, s.callers[c], s.steps))
    && (forall c, d :: c in s.callers && d in s.callers && s.callers[c].phase.Loading? && s.callers[d].phase.Loading? ==> c == d)
    && (s.cache.inFlight.Some? ==> exists c :: c in s.callers && s.callers[c].phase == Loading(s.cache.inFlight.value))
  }

  lemma CallInv(s: System, c: nat, force: bool)
    requires Inv(s) && Enabled(s, Call(c, force))
    ensures Inv(Step(s, Call(c, force)))
  {
    var t := Step(s, Call(c, force));
    forall d | d in s.callers
      ensures CallerInv(t.cache, t.callers[d], t.steps)
    {
      assert CallerInv(s.cache, s.callers[d], s.steps);
    }
    if s.cache.inFlight.Some? {
      var d :| d in s.callers && s.callers[d].phase == Loading(s.cache.inFlight.value);
      assert t.callers[d].phase == Loading(t.cache.inFlight.value);
    }
  }

  /** The part of the invariant about one leader, after a step that changes neither loads nor leaders. */
  lemma LeaderKept(s: System, t: System, c: nat)
    requires Inv(s) && c in s.callers && t.callers.Keys == s.callers.Keys
    requires t.cache.inFlight == s.cache.inFlight
    requires !s.callers[c].phase.Loading? && !t.callers[c].phase.Loading?
    requires forall d :: d in s.callers && d != c ==> t.callers[d] == s.callers[d]
    ensures t.cache.inFlight.Some? ==> exists d :: d in t.callers && t.callers[d].phase == Loading(t.cache.inFlight.value)
  {
    if s.cache.inFlight.Some? {
      var d :| d in s.callers && s.callers[d].phase == Loading(s.cache.inFlight.value);
      assert t.callers[d].phase == Loading(t.cache.inFlight.value);
    }
  }

  lemma EnterHitInv(s: System, c: nat)
    requires Inv(s) && Enabled(s, Enter(c)) && Fresh(s.cache, s.callers[c].force, s.callers[c].now)
    ensures Inv(Step(s, Enter(c)))
  {
    var t := Step(s, Enter(c));
    assert CallerInv(s.cache, s.callers[c], s.steps);
    var l: nat :| Publishes(s.cache, l);
    assert HitFrom(t.cache, t.callers[c], t.callers[c].phase.reply, s.steps, l);
    forall d | d in t.callers
      ensures CallerInv(t.cache, t.callers[d], t.steps)
    {
      assert CallerInv(s.cache, s.callers[d], s.steps);
    }
    LeaderKept(s, t, c);
  }

  /** What a caller knows survives any growth of the load history that leaves closed loads alone. */
  lemma KeepCaller(c: Cache, c': Cache, caller: Caller, steps: nat)
    requires CallerInv(c, caller, steps) && !caller.phase.Loading?
    requires c'.ttl == c.ttl && |c.loads| <= |c'.loads|
    requires forall l :: 0 <= l < |c.loads| && c.loads[l].closes == 1 ==> c'.loads[l] == c.loads[l]
    requires forall l :: 0 <= l < |c'.loads| && c'.loads[l].closes == 1 && (l < |c.loads| ==> c.loads[l].closes != 1) ==>
               c'.loads[l].finishedAt >= steps
    ensures CallerInv(c', caller, steps + 1)
  {
    if caller.phase.Returned? && caller.phase.source.FromCache? {
      var reply, at := caller.phase.reply, caller.phase.source.at;
      var l: nat :| HitFrom(c, caller, reply, at, l);
      forall k | l < k < |c'.loads| && Succeeded(c'.loads[k])
        ensures c'.loads[k].finishedAt >= at
      {
        if k < |c.loads| && c.loads[k].closes == 1 {
          assert Succeeded(c.loads[k]);
        }
      }
      assert HitFrom(c', caller, reply, at, l);
    }
  }

  lemma EnterCacheInv(c: Cache, force: bool, now: int, steps: nat)
    requires LoadsInv(c, steps) && ValueInv(c)
    ensures LoadsInv(EnterCache(c, force, now).0, steps + 1) && ValueInv(EnterCache(c, force, now).0)
  {
    var c' := EnterCache(c, force, now).0;
    if c' != c {
      assert c' == c.(loads := c.loads + [FreshLoad], inFlight := Some(|c.loads|));
      hide EnterCache;
      assert forall l :: 0 <= l < |c.loads| ==> c'.loads[l] == c.loads[l];
      assert c'.loads[|c.loads|] == FreshLoad;
      if c.hasValue {
        var l: nat :| Publishes(c, l);
        assert Publishes(c', l);
      }
    }
  }

  lemma EnterLeadInv(s: System, c: nat)
    requires Inv(s) && Enabled(s, Enter(c))
    requires !Fresh(s.cache, s.callers[c].force, s.callers[c].now) && s.cache.inFlight.None?
    ensures Inv(Step(s, Enter(c)))
  {
    var t := Step(s, Enter(c));
    EnterCacheInv(s.cache, s.callers[c].force, s.callers[c].now, s.steps);
    assert CallerInv(s.cache, s.callers[c], s.steps);
    forall d | d in t.callers
      ensures CallerInv(t.cache, t.callers[d], t.steps)
      ensures d != c ==> !t.callers[d].phase.Loading?
    {
      assert CallerInv(s.cache, s.callers[d], s.steps);
      if d != c {
        KeepCaller(s.cache, t.cache, s.callers[d], s.steps);
      }
    }
    assert t.callers[c].phase == Loading(t.cache.inFlight.value);
  }

  lemma EnterJoinInv(s: System, c: nat)
    requires Inv(s) && Enabled(s, Enter(c))
    requires !Fresh(s.cache, s.callers[c].force, s.callers[c].now) && s.cache.inFlight.Some?
    ensures Inv(Step(s, Enter(c)))
  {
    var t := Step(s, Enter(c));
    forall d | d in t.callers
      ensures CallerInv(t.cache, t.callers[d], t.steps)
    {
      assert CallerInv(s.cache, s.callers[d], s.steps);
    }
    LeaderKept(s, t, c);
  }

  lemma FinishCacheInv(c: Cache, l: nat, snapshot: Snapshot, err: Option<Error>, now: int, steps: nat)
    requires LoadsInv(c, steps) && ValueInv(c) && c.inFlight == Some(l)
    ensures var c' := FinishCache(c, l, snapshot, err, now, steps);
            LoadsInv(c', steps + 1) && ValueInv(c')
  {
    var c' := FinishCache(c, l, snapshot, err, now, steps);
    assert c'.loads[l] == FinishLoad(FreshLoad, snapshot, err, now, steps);
    assert forall k :: 0 <= k < l ==> c'.loads[k] == c.loads[k];
    if err.None? {
      assert Publishes(c', l);
    } else if c.hasValue {
      var k: nat :| Publishes(c, k);
      assert Publishes(c', k);
    }
  }

  lemma FinishInv(s: System, c: nat, snapshot: Snapshot, err: Option<Error>)
    requires Inv(s) && Enabled(s, Finish(c, snapshot, err))
    ensures Inv(Step(s, Finish(c, snapshot, err)))
  {
    var t := Step(s, Finish(c, snapshot, err));
    var l := s.callers[c].phase.load;
    assert CallerInv(s.cache, s.callers[c], s.steps);
    FinishCacheInv(s.cache, l, snapshot, err, s.clock, s.steps);
    forall d | d in t.callers
      ensures CallerInv(t.cache, t.callers[d], t.steps)
      ensures !t.callers[d].phase.Loading?
    {
      assert CallerInv(s.cache, s.callers[d], s.steps);
      if d != c {
        KeepCaller(s.cache, t.cache, s.callers[d], s.steps);
      }
    }
  }

  /** Waking, cancelling and ending a bypass touch one caller only. */
  lemma LeaveInv(s: System, a: Action)
    requires Inv(s) && Enabled(s, a) && (a.Wake? || a.Cancel? || a.EndBypass?)
    ensures Inv(Step(s, a))
  {
    var t := Step(s, a);
    assert CallerInv(s.cache, s.callers[a.caller], s.steps);
    LeavingCaller(s, a);
    LeaderKept(s, t, a.caller);
    hide ValueInv;
    forall d | d in t.callers
      ensures CallerInv(t.cache, t.callers[d], t.steps)
    {
      assert CallerInv(s.cache, s.callers[d], s.steps);
    }
  }

  lemma LeavingCaller(s: System, a: Action)
    requires Inv(s) && Enabled(s, a) && (a.Wake? || a.Cancel? || a.EndBypass?)
    ensures var t := Step(s, a);
            && t.cache == s.cache && t.steps == s.steps + 1 && t.callers.Keys == s.callers.Keys
            && (forall d :: d in s.callers && d != a.caller ==> t.callers[d] == s.callers[d])
            && CallerInv(t.cache, t.callers[a.caller], t.steps)
  {
    hide ValueInv;
    assert CallerInv(s.cache, s.callers[a.caller], s.steps);
  }

  lemma TickInv(s: System, now: int)
    requires Inv(s)
    ensures Inv(Step(s, Tick(now)))
  {
    var t := Step(s, Tick(now));
    forall d | d in t.callers
      ensures CallerInv(t.cache, t.callers[d], t.steps)
    {
      assert CallerInv(s.cache, s.callers[d], s.steps);
    }
  }

  lemma StepInv(s: System, a: Action)
    requires Inv(s) && Enabled(s, a)
    ensures Inv(Step(s, a))
  {
    match a
    case Call(c, force) => CallInv(s, c, force);
    case Enter(c) =>
      if Fresh(s.cache, s.callers[c].force, s.callers[c].now) {
        EnterHitInv(s, c);
      } else if s.cache.inFlight.Some? {
        EnterJoinInv(s, c);
      } else {
        EnterLeadInv(s, c);
      }
    case Finish(c, snapshot, err) => FinishInv(s, c, snapshot, err);
    case Wake(_) => LeaveInv(s, a);
    case Cancel(_, _) => LeaveInv(s, a);
    case EndBypass(_, _, _) => LeaveInv(s, a);
    case Tick(now) => TickInv(s, now);
  }

  /** Every state of every run satisfies the invariant. */
  lemma {:induction false} RunInv(ttl: int, states: seq<System>, actions: seq<Action>, i: nat)
    requires Run(ttl, states, actions) && i < |states|
    ensures Inv(states[i])
  {
    if i > 0 {
      RunInv(ttl, states, actions, i - 1);
      StepInv(states[i - 1], actions[i - 1]);
    }
  }

  // ----- the guarantees, over whole runs -----

  /** A forced call never returns the cached value; whatever it returns comes from a load that
      completed after the call entered, or is its own cancellation or bypass. Every shared or missed
      result is that of such a load, unchanged. */
  lemma ResultsAreOfLaterLoads(ttl: int, states: seq<System>, actions: seq<Action>, i: nat, c: nat)
    requires Run(ttl, states, actions) && i < |states|
    requires c in states[i].callers && states[i].callers[c].phase.Returned?
    ensures var s, caller := states[i], states[i].callers[c];
            var reply, source := caller.phase.reply, caller.phase.source;
            && (caller.force ==> !source.FromCache?)
            && (reply.status == MissStatus || (reply.status == SharedStatus && !source.FromCancel?) ==>
                  && source.FromLoad? && ClosedAfter(s.cache, source.load, caller.entered)
                  && reply == LoadReply(reply.status, s.cache.loads[source.load]))
            && (reply.status == HitStatus ==>
                  source.FromCache? && exists l: nat :: HitFrom(s.cache, caller, reply, source.at, l))
            && (reply.status == DisabledStatus <==> s.cache.ttl < 0)
  {
    RunInv(ttl, states, actions, i);
    assert CallerInv(states[i].cache, states[i].callers[c], states[i].steps);
  }

  /** At most one load runs, `inFlight` names it exactly while its leader runs it, every other load has
      closed its channel exactly once, and the cached value is that of the latest successful load. */
  lemma SingleFlight(ttl: int, states: seq<System>, actions: seq<Action>, i: nat)
    requires Run(ttl, states, actions) && i < |states|
    ensures var s := states[i];
            && (forall c, d :: c in s.callers && d in s.callers && s.callers[c].phase.Loading? && s.callers[d].phase.Loading? ==> c == d)
            && (forall l: nat :: s.cache.inFlight == Some(l) <==> exists c :: c in s.callers && s.callers[c].phase == Loading(l))
            && (forall l :: 0 <= l < |s.cache.loads| ==>
                  s.cache.loads[l].closes == if s.cache.inFlight == Some(l) then 0 else 1)
            && ValueInv(s.cache)
  {
    RunInv(ttl, states, actions, i);
    var s := states[i];
    forall c | c in s.callers && s.callers[c].phase.Loading?
      ensures s.cache.inFlight == Some(s.callers[c].phase.load)
    {
      assert CallerInv(s.cache, s.callers[c], s.steps);
    }
  }

  /** Nothing a call has returned, and no result of a closed load, changes afterwards. */
  lemma {:induction false} ResultsAreFinal(ttl: int, states: seq<System>, actions: seq<Action>, i: nat, j: nat)
    requires Run(ttl, states, actions) && i <= j < |states|
    ensures |states[i].cache.loads| <= |states[j].cache.loads|
    ensures forall l :: 0 <= l < |states[i].cache.loads| && states[i].cache.loads[l].closes == 1 ==>
              states[j].cache.loads[l] == states[i].cache.loads[l]
    ensures forall c :: c in states[i].callers && states[i].callers[c].phase.Returned? ==>
              c in states[j].callers && states[j].callers[c] == states[i].callers[c]
  {
    hide Inv, Step, Enabled;
    if i < j {
      ResultsAreFinal(ttl, states, actions, i, j - 1);
      RunInv(ttl, states, actions, j - 1);
      StepKeepsResults(states[j - 1], actions[j - 1]);
    }
  }

  lemma StepKeepsResults(s: System, a: Action)
    requires Inv(s) && Enabled(s, a)
    ensures var t := Step(s, a);
            && |s.cache.loads| <= |t.cache.loads|
            && (forall l :: 0 <= l < |s.cache.loads| && s.cache.loads[l].closes == 1 ==> t.cache.loads[l] == s.cache.loads[l])
            && (forall c :: c in s.callers && s.callers[c].phase.Returned? ==> c in t.callers && t.callers[c] == s.callers[c])
  {
    hide ValueInv;
    if a.Finish? {
      assert CallerInv(s.cache, s.callers[a.caller], s.steps);
    }
  }

  ghost predicate MonotoneClock(states: seq<System>) {
    forall i :: 0 <= i < |states| - 1 ==> states[i].clock <= states[i + 1].clock
  }

  /** Under a clock that never goes back, the cached value never gets older. */
  lemma {:induction false} CachedAtNeverDecreases(ttl: int, states: seq<System>, actions: seq<Action>, i: nat, j: nat)
    requires Run(ttl, states, actions) && i <= j < |states|
    requires MonotoneClock(states) && states[i].cache.hasValue
    ensures states[j].cache.hasValue && states[i].cache.cachedAt <= states[j].cache.cachedAt
  {
    CachedAtBehindClock(ttl, states, actions, j);
    if i < j {
      CachedAtNeverDecreases(ttl, states, actions, i, j - 1);
      CachedAtBehindClock(ttl, states, actions, j - 1);
      assert states[j] == Step(states[j - 1], actions[j - 1]);
    }
  }

  lemma {:induction false} CachedAtBehindClock(ttl: int, states: seq<System>, actions: seq<Action>, i: nat)
    requires Run(ttl, states, actions) && i < |states| && MonotoneClock(states)
    ensures states[i].cache.hasValue ==> states[i].cache.cachedAt <= states[i].clock
  {
    if i > 0 {
      CachedAtBehindClock(ttl, states, actions, i - 1);
      assert states[i] == Step(states[i - 1], actions[i - 1]);
      assert states[i - 1].clock <= states[i].clock;
    }
  }

  /** No lost wake-up: a caller that has not returned can step itself, or waits for a load whose leader can finish. */
  lemma NoLostWakeup(ttl: int, states: seq<System>, actions: seq<Action>, i: nat, c: nat, snapshot: Snapshot, err: Option<Error>)
    requires Run(ttl, states, actions) && i < |states|
    requires c in states[i].callers && !states[i].callers[c].phase.Returned?
    ensures var s := states[i];
            || Enabled(s, Enter(c)) || Enabled(s, Finish(c, snapshot, err)) || Enabled(s, EndBypass(c, snapshot, err))
            || Enabled(s, Wake(c))
            || exists d :: d in s.callers && s.callers[d].phase == Loading(s.callers[c].phase.load) && Enabled(s, Finish(d, snapshot, err))
  {
    RunInv(ttl, states, actions, i);
    var s := states[i];
    assert CallerInv(s.cache, s.callers[c], s.steps);
    if s.callers[c].phase.Waiting? && s.cache.loads[s.callers[c].phase.load].closes == 0 {
      var d :| d in s.callers && s.callers[d].phase == Loading(s.cache.inFlight.value);
      assert Enabled(s, Finish(d, snapshot, err));
    }
  }

  // ----- what each step decides and delivers -----

  lemma {:induction false} TtlStays(ttl: int, states: seq<System>, actions: seq<Action>, i: nat)
    requires Run(ttl, states, actions) && i < |states|
    ensures states[i].cache.ttl == if ttl == 0 then 10_000_000_000 else ttl
  {
    if i > 0 {
      TtlStays(ttl, states, actions, i - 1);
      assert states[i] == Step(states[i - 1], actions[i - 1]);
    }
  }

  /** Load l brought the latest value there is, and it is younger than the time to live. */
  ghost predicate Serves(loads: seq<Load>, l: nat, ttl: int, now: int) {
    LatestSuccess(loads, l) && loads[l].cachedAt.Some? && now - loads[l].cachedAt.value < ttl
  }

  /** Some load serves a call with this clock reading. */
  ghost predicate Servable(loads: seq<Load>, ttl: int, now: int) { exists l: nat :: Serves(loads, l, ttl, now) }

  /** The result that a hit has: that of the latest successful load. */
  ghost predicate IsLatest(loads: seq<Load>, reply: Reply) {
    exists l: nat :: LatestSuccess(loads, l) && reply == Reply(HitStatus, loads[l].snapshot, loads[l].cachedAt, None)
  }

  ghost predicate SomeoneLoads(s: System, l: nat) { exists d :: d in s.callers && s.callers[d].phase == Loading(l) }
  ghost predicate NobodyLoads(s: System) { forall d :: d in s.callers ==> !s.callers[d].phase.Loading? }

  /** What the first lock region does, in terms of the loads so far: an unforced call returns at once, with the result of
      the latest successful load, exactly if there is one younger than the time to live; any other call waits for the
      load in flight if there is one, and starts a load exactly if there is none. Nothing else changes. */
  lemma EnterDecides(ttl: int, states: seq<System>, actions: seq<Action>, i: nat, c: nat)
    requires Run(ttl, states, actions) && i < |actions| && actions[i] == Enter(c)
    ensures var s, t := states[i], states[i + 1]; var caller, next := s.callers[c], t.callers[c].phase;
            var serves := !caller.force && Servable(s.cache.loads, if ttl == 0 then 10_000_000_000 else ttl, caller.now);
            && (next.Returned? <==> serves)
            && (next.Waiting? <==> !serves && !NobodyLoads(s))
            && (next.Loading? <==> !serves && NobodyLoads(s))
            && (next.Returned? ==> IsLatest(s.cache.loads, next.reply) && t.cache == s.cache)
            && (next.Waiting? ==> SomeoneLoads(s, next.load) && t.cache == s.cache)
            && (next.Loading? ==> next.load == |s.cache.loads| && t.cache == s.cache.(inFlight := Some(next.load), loads := s.cache.loads + [FreshLoad]))
            && t.callers == s.callers[c := caller.(phase := next)]
  {
    var s, t := states[i], states[i + 1];
    TtlStays(ttl, states, actions, i);
    RunInv(ttl, states, actions, i);
    ValueServes(s.cache, s.callers[c].now);
    LeaderIsInFlight(s);
    hide Inv, Servable, IsLatest;
    assert t == Step(s, Enter(c));
  }

  /** The cached value and its age, in terms of the loads. */
  lemma ValueServes(c: Cache, now: int)
    requires ValueInv(c)
    ensures c.hasValue && now - c.cachedAt < c.ttl <==> Servable(c.loads, c.ttl, now)
    ensures c.hasValue ==> IsLatest(c.loads, Reply(HitStatus, c.snapshot, Some(c.cachedAt), None))
  {
    OneLatest(c);
    hide LatestSuccess;
    if c.hasValue && now - c.cachedAt < c.ttl {
      var l: nat :| LatestSuccess(c.loads, l);
      assert Serves(c.loads, l, c.ttl, now);
    }
  }

  /** There is a value exactly if a load succeeded, and it is that of the latest one. */
  lemma OneLatest(c: Cache)
    requires ValueInv(c)
    ensures c.hasValue <==> exists l: nat :: LatestSuccess(c.loads, l)
    ensures forall l: nat :: LatestSuccess(c.loads, l) ==> c.loads[l].snapshot == c.snapshot && c.loads[l].cachedAt == Some(c.cachedAt)
  {
    if c.hasValue {
      var k: nat :| Publishes(c, k);
      forall l: nat | LatestSuccess(c.loads, l)
        ensures l == k
      {
      }
    }
  }

  lemma LeaderIsInFlight(s: System)
    requires Inv(s)
    ensures s.cache.inFlight.None? <==> NobodyLoads(s)
    ensures s.cache.inFlight.Some? ==> SomeoneLoads(s, s.cache.inFlight.value)
  {
    forall d | d in s.callers && s.callers[d].phase.Loading?
      ensures s.cache.inFlight == Some(s.callers[d].phase.load)
    {
      assert CallerInv(s.cache, s.callers[d], s.steps);
    }
  }

  /** Step k ended load l with this result, at this clock. */
  ghost predicate Brought(states: seq<System>, actions: seq<Action>, k: int, l: nat, snapshot: Snapshot, cachedAt: Option<int>, err: Option<Error>) {
    && 0 <= k < |actions| && k < |states| && actions[k].Finish? && actions[k].caller in states[k].callers
    && states[k].callers[actions[k].caller].phase == Loading(l)
    && snapshot == actions[k].snapshot && err == actions[k].err
    && cachedAt == if err.None? then Some(states[k].clock) else None
  }

  ghost predicate BroughtBefore(states: seq<System>, actions: seq<Action>, i: int, l: nat, load: Load) {
    exists k :: 0 <= k < i && Brought(states, actions, k, l, load.snapshot, load.cachedAt, load.err)
  }

  /** Every closed load holds what its leader's load delivered, and the time of that if it succeeded. */
  lemma {:induction false} LoadsAreBrought(ttl: int, states: seq<System>, actions: seq<Action>, i: nat)
    requires Run(ttl, states, actions) && i < |states|
    ensures forall l: nat :: l < |states[i].cache.loads| && states[i].cache.loads[l].closes == 1 ==> BroughtBefore(states, actions, i, l, states[i].cache.loads[l])
  {
    if i > 0 {
      var s, t, a := states[i - 1], states[i], actions[i - 1];
      LoadsAreBrought(ttl, states, actions, i - 1);
      RunInv(ttl, states, actions, i - 1);
      assert t == Step(s, a);
      forall l: nat | l < |t.cache.loads| && t.cache.loads[l].closes == 1
        ensures BroughtBefore(states, actions, i, l, t.cache.loads[l])
      {
        if l < |s.cache.loads| && s.cache.loads[l].closes == 1 {
          StepKeepsResults(s, a);
          BroughtLater(states, actions, i - 1, i, l, s.cache.loads[l]);
        } else {
          ClosingStep(s, a, l);
          assert Brought(states, actions, i - 1, l, t.cache.loads[l].snapshot, t.cache.loads[l].cachedAt, t.cache.loads[l].err);
        }
      }
    }
  }

  lemma BroughtLater(states: seq<System>, actions: seq<Action>, i: int, j: int, l: nat, load: Load)
    requires i <= j && BroughtBefore(states, actions, i, l, load)
    ensures BroughtBefore(states, actions, j, l, load)
  {
    hide Brought;
  }

  /** The step that closes a load. */
  lemma ClosingStep(s: System, a: Action, l: nat)
    requires Inv(s) && Enabled(s, a) && l < |Step(s, a).cache.loads| && Step(s, a).cache.loads[l].closes == 1
    requires l < |s.cache.loads| ==> s.cache.loads[l].closes != 1
    ensures var load := Step(s, a).cache.loads[l];
            && a.Finish? && s.callers[a.caller].phase == Loading(l) && load.snapshot == a.snapshot && load.err == a.err
            && load.cachedAt == if a.err.None? then Some(s.clock) else None
  {
    hide ValueInv;
    if a.Finish? {
      assert CallerInv(s.cache, s.callers[a.caller], s.steps);
    }
  }

  /** Where the result of a returned call comes from: its own bypass or cancellation, or the delivery of a load, its own
      exactly if the status is a miss. */
  ghost predicate Delivered(states: seq<System>, actions: seq<Action>, i: int, c: nat, reply: Reply, source: Source) {
    match source
    case FromCache(_) => reply.status == HitStatus
    case FromBypass => reply.status == DisabledStatus && reply.cachedAt == None && exists k :: 0 <= k < i && k < |actions| && actions[k] == EndBypass(c, reply.snapshot, reply.err)
    case FromCancel(_) => exists k :: 0 <= k < i && k < |actions| && actions[k].Cancel? && actions[k].caller == c && reply == Reply(SharedStatus, NoSnapshot, None, Some(actions[k].reason))
    case FromLoad(l) =>
      && (reply.status == MissStatus || reply.status == SharedStatus)
      && exists k :: 0 <= k < i && Brought(states, actions, k, l, reply.snapshot, reply.cachedAt, reply.err) && (reply.status == MissStatus <==> actions[k].caller == c)
  }

  lemma DeliveredLater(states: seq<System>, actions: seq<Action>, i: int, j: int, c: nat, reply: Reply, source: Source)
    requires i <= j && Delivered(states, actions, i, c, reply, source)
    ensures Delivered(states, actions, j, c, reply, source)
  {
    match source
    case FromCache(_) =>
    case FromBypass =>
    case FromCancel(_) =>
    case FromLoad(l) =>
      var k :| 0 <= k < i && Brought(states, actions, k, l, reply.snapshot, reply.cachedAt, reply.err) && (reply.status == MissStatus <==> actions[k].caller == c);
  }

  /** No result is made up: what a call returns is what was delivered to it or to the load that it shared. */
  lemma {:induction false} RepliesAreDelivered(ttl: int, states: seq<System>, actions: seq<Action>, i: nat, c: nat)
    requires Run(ttl, states, actions) && i < |states| && c in states[i].callers && states[i].callers[c].phase.Returned?
    ensures Delivered(states, actions, i, c, states[i].callers[c].phase.reply, states[i].callers[c].phase.source)
  {
    hide Inv, Delivered, Brought;
    if i > 0 {
      var s, a := states[i - 1], actions[i - 1];
      RunInv(ttl, states, actions, i - 1);
      assert states[i] == Step(s, a);
      if c in s.callers && s.callers[c].phase.Returned? {
        StepKeepsResults(s, a);
        RepliesAreDelivered(ttl, states, actions, i - 1, c);
        DeliveredLater(states, actions, i - 1, i, c, s.callers[c].phase.reply, s.callers[c].phase.source);
      } else {
        ReplyOfStep(ttl, states, actions, i - 1, c);
      }
    }
  }

  lemma ReplyOfStep(ttl: int, states: seq<System>, actions: seq<Action>, i: nat, c: nat)
    requires Run(ttl, states, actions) && i < |actions|
    requires c in states[i + 1].callers && states[i + 1].callers[c].phase.Returned? && (c in states[i].callers ==> !states[i].callers[c].phase.Returned?)
    ensures Delivered(states, actions, i + 1, c, states[i + 1].callers[c].phase.reply, states[i + 1].callers[c].phase.source)
  {
    hide Inv;
    var s, a := states[i], actions[i];
    assert states[i + 1] == Step(s, a);
    if a.Finish? {
      ReplyOfFinish(ttl, states, actions, i, c);
    } else if a.Wake? {
      ReplyOfWake(ttl, states, actions, i, c);
    } else {
      assert a.EndBypass? ==> actions[i] == EndBypass(c, states[i + 1].callers[c].phase.reply.snapshot, states[i + 1].callers[c].phase.reply.err);
      hide Brought;
    }
  }

  lemma ReplyOfFinish(ttl: int, states: seq<System>, actions: seq<Action>, i: nat, c: nat)
    requires Run(ttl, states, actions) && i < |actions| && actions[i].Finish? && c in states[i + 1].callers && states[i + 1].callers[c].phase.Returned?
    requires c in states[i].callers ==> !states[i].callers[c].phase.Returned?
    ensures Delivered(states, actions, i + 1, c, states[i + 1].callers[c].phase.reply, states[i + 1].callers[c].phase.source)
  {
    var s, a := states[i], actions[i];
    RunInv(ttl, states, actions, i);
    assert states[i + 1] == Step(s, a) && a.caller == c;
    var l := s.callers[c].phase.load;
    assert CallerInv(s.cache, s.callers[c], s.steps);
    ClosingStep(s, a, l);
    assert Brought(states, actions, i, l, a.snapshot, if a.err.None? then Some(s.clock) else None, a.err);
    hide Inv, Brought;
  }

  lemma ReplyOfWake(ttl: int, states: seq<System>, actions: seq<Action>, i: nat, c: nat)
    requires Run(ttl, states, actions) && i < |actions| && actions[i].Wake? && c in states[i + 1].callers && states[i + 1].callers[c].phase.Returned?
    requires c in states[i].callers ==> !states[i].callers[c].phase.Returned?
    ensures Delivered(states, actions, i + 1, c, states[i + 1].callers[c].phase.reply, states[i + 1].callers[c].phase.source)
  {
    var s, a := states[i], actions[i];
    RunInv(ttl, states, actions, i);
    assert states[i + 1] == Step(s, a) && a.caller == c;
    var l := s.callers[c].phase.load;
    assert s.cache.loads[l].closes == 1;
    hide Inv, Step, Enabled;
    LoadsAreBrought(ttl, states, actions, i);
    var k :| 0 <= k < i && Brought(states, actions, k, l, s.cache.loads[l].snapshot, s.cache.loads[l].cachedAt, s.cache.loads[l].err);
    LeaderHasReturned(ttl, states, actions, k, i);
  }

  lemma LeaderHasReturned(ttl: int, states: seq<System>, actions: seq<Action>, k: nat, i: nat)
    requires Run(ttl, states, actions) && k < i < |states| && actions[k].Finish?
    ensures actions[k].caller in states[i].callers && states[i].callers[actions[k].caller].phase.Returned?
  {
    assert states[k + 1] == Step(states[k], actions[k]);
    ResultsAreFinal(ttl, states, actions, k + 1, i);
  }

  ghost predicate CalledBefore(states: seq<System>, actions: seq<Action>, i: int, c: nat, caller: Caller) {
    exists k :: 0 <= k < i && k < |actions| && k < |states| && actions[k] == Call(c, caller.force) && states[k].clock == caller.now && states[k].steps == caller.entered
  }

  /** A call decides by its own request and by the clock at its entry. */
  lemma {:induction false} CallersAreCalls(ttl: int, states: seq<System>, actions: seq<Action>, i: nat, c: nat)
    requires Run(ttl, states, actions) && i < |states| && c in states[i].callers
    ensures CalledBefore(states, actions, i, c, states[i].callers[c])
  {
    if i > 0 {
      var s, a := states[i - 1], actions[i - 1];
      assert states[i] == Step(s, a);
      if c in s.callers {
        CallersAreCalls(ttl, states, actions, i - 1, c);
      } else {
        assert actions[i - 1] == Call(c, states[i].callers[c].force);
      }
    }
  }

  // ----- the mutable cache -----

  class SnapshotLoad {
    var closes: nat
    var snapshot: Snapshot
    var err: Option<Error>
    var cachedAt: Option<int>
    ghost var finishedAt: nat

    constructor ()
      ensures View() == FreshLoad
    {
      closes, snapshot, err, cachedAt, finishedAt := 0, NoSnapshot, None, None, 0;
    }

    ghost function View(): Load
      reads this
    {
      Load(closes, snapshot, err, cachedAt, finishedAt)
    }
  }

  class SnapshotCache {
    const ttl: int
    var snapshot: Snapshot
    var cachedAt: int
    var hasValue: bool
    var inFlight: SnapshotLoad?
    ghost var loads: seq<SnapshotLoad>

    ghost predicate Valid()
      reads this
    {
      && (forall k, l :: 0 <= k < l < |loads| ==> loads[k] != loads[l])
      && (inFlight != null ==> loads != [] && inFlight == loads[|loads| - 1])
    }

    ghost function View(): Cache
      reads this, loads
    {
      Cache(ttl, snapshot, cachedAt, hasValue, if inFlight == null || loads == [] then None else Some(|loads| - 1),
            seq(|loads|, l requires 0 <= l < |loads| reads this, loads => loads[l].View()))
    }

    constructor (requested: int)
      ensures Valid() && View() == NewCache(requested)
    {
      ttl := if requested == 0 then DefaultTtl else requested;
      snapshot, cachedAt, hasValue, inFlight, loads := NoSnapshot, 0, false, null, [];
    }

    /** The first lock region: hit, join the load in flight, or publish a new load and lead it. */
    method Enter(force: bool, now: int) returns (hit: bool, value: Snapshot, at: int, leads: bool, load: SnapshotLoad?)
      requires Valid()
      modifies this`inFlight, this`loads
      ensures Valid()
      ensures hit ==> load == null && loads == old(loads)
      ensures !hit && !leads ==> load == old(inFlight) && load != null && loads == old(loads) && loads != []
      ensures !hit && leads ==> load != null && fresh(load) && loads == old(loads) + [load]
      ensures (View(), if hit then GotHit(value, at) else if leads then Led(|loads| - 1) else Joined(|loads| - 1))
           == EnterCache(old(View()), force, now)
    {
      if !force && hasValue && now - cachedAt < ttl {
        return true, snapshot, cachedAt, false, null;
      }
      if inFlight != null {
        return false, NoSnapshot, 0, false, inFlight;
      }
      var published := new SnapshotLoad();
      inFlight := published;
      loads := loads + [published];
      assert View().loads == old(View()).loads + [FreshLoad];
      return false, NoSnapshot, 0, true, published;
    }

    /** The second lock region: the leader publishes what its load returned and wakes the joiners. */
    method Finish(load: SnapshotLoad, value: Snapshot, failure: Option<Error>, now: int, ghost step: nat) returns (reply: Reply)
      requires Valid() && inFlight == load
      modifies this, load
      ensures Valid() && loads == old(loads)
      ensures View() == FinishCache(old(View()), |loads| - 1, value, failure, now, step)
      ensures reply == LoadReply(MissStatus, load.View())
    {
      if failure.None? {
        snapshot, cachedAt, hasValue := value, now, true;
        load.cachedAt := Some(now);
      }
      load.snapshot, load.err := value, failure;
      inFlight := null;
      load.closes := load.closes + 1;
      load.finishedAt := step;
      return Reply(MissStatus, value, load.cachedAt, failure);
    }
  }
}
