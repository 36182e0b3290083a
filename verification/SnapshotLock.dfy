/**
 * scripts/build-pglite-snapshot.ts: the lock directory that keeps concurrent snapshot
 * builders apart. mkdir and rmdir are atomic; everything between two of them can be
 * interleaved with the steps of other builders, with crashes, and with time passing.
 */
module SnapshotLock {
  import opened Results

  /** The lock directory: which mkdir made it, when, and for whom. */
  datatype Lock = Lock(gen: nat, mtime: int, owner: nat)

  /** Where a builder stands; `Owning` is the time its `ownLock` flag is set. */
  datatype Phase =
    | Idle
    | Waiting(deadline: int)
    | Looking
    | SawStale(gen: nat)
    | Retrying
    | Owning(gen: nat, since: int)
    | Unlocked
    | Gone

  datatype State = State(now: int, made: nat, lock: Option<Lock>, builders: seq<Phase>)

  /** Each builder's wait window, and the longest a live builder holds the lock. */
  datatype Config = Config(timeouts: seq<nat>, hold: nat)

  datatype Event =
    | Mkdir(b: nat)
    | Wake(b: nat)
    | FindFresh(b: nat)
    | Look(b: nat)
    | Remove(b: nat)
    | Retry(b: nat)
    | Finish(b: nat)
    | Crash(b: nat)
    | Tick(d: nat)

  /** No live holder outlasts any builder's wait window. */
  ghost predicate HoldsAreShort(c: Config) {
    forall i | 0 <= i < |c.timeouts| :: c.hold <= c.timeouts[i]
  }

  ghost predicate Init(c: Config, s: State) {
    && |s.builders| == |c.timeouts|
    && (forall i | 0 <= i < |s.builders| :: s.builders[i] == Idle)
    && (s.lock.Some? ==> s.lock.value.gen < s.made)
  }

  ghost predicate Enabled(c: Config, s: State, e: Event) {
    match e
    case Tick(d) => forall i | 0 <= i < |s.builders| && s.builders[i].Owning? :: s.now + d - s.builders[i].since <= c.hold
    case Mkdir(b) => b < |s.builders| && s.builders[b].Idle?
    case Wake(b) => b < |s.builders| && s.builders[b].Waiting? && (s.lock.None? || s.now >= s.builders[b].deadline)
    case FindFresh(b) => b < |s.builders| && s.builders[b].Looking?
    case Look(b) => b < |s.builders| && s.builders[b].Looking?
    case Remove(b) => b < |s.builders| && s.builders[b].SawStale?
    case Retry(b) => b < |s.builders| && s.builders[b].Retrying?
    case Finish(b) => b < |s.builders| && (s.builders[b].Owning? || s.builders[b].Unlocked?)
    case Crash(b) => b < |s.builders| && !s.builders[b].Gone?
  }

  function At(s: State, b: nat, p: Phase): State
    requires b < |s.builders|
  {
    s.(builders := s.builders[b := p])
  }

  /** A successful mkdir by builder `b`. */
  function Acquire(s: State, b: nat): State
    requires b < |s.builders|
  {
    At(s, b, Owning(s.made, s.now)).(lock := Some(Lock(s.made, s.now, b)), made := s.made + 1)
  }

  ghost function Apply(c: Config, s: State, e: Event): (t: State)
    requires |s.builders| == |c.timeouts| && Enabled(c, s, e)
    ensures |t.builders| == |s.builders|
  {
    match e
    case Tick(d) => s.(now := s.now + d)
    case Mkdir(b) => if s.lock.None? then Acquire(s, b) else At(s, b, Waiting(s.now + c.timeouts[b]))
    case Wake(b) => At(s, b, Looking)
    case FindFresh(b) => At(s, b, Gone)
    case Look(b) =>
      if s.lock.Some? && s.now - s.lock.value.mtime > c.timeouts[b] then At(s, b, SawStale(s.lock.value.gen))
      else At(s, b, Retrying)
    case Remove(b) => if s.lock.Some? then At(s, b, Retrying).(lock := None) else At(s, b, Unlocked)
    case Retry(b) => if s.lock.None? then Acquire(s, b) else At(s, b, Unlocked)
    case Finish(b) => if s.builders[b].Owning? then At(s, b, Gone).(lock := None) else At(s, b, Gone)
    case Crash(b) => At(s, b, Gone)
  }

  /** The age check and the rmdir act as one step: what is removed is the directory that was found stale. */
  ghost predicate Atomic(s: State, e: Event) {
    e.Remove? && e.b < |s.builders| && s.builders[e.b].SawStale? && s.lock.Some? ==>
      s.lock.value.gen == s.builders[e.b].gen
  }

  /** A run: every event enabled where it happens. */
  ghost predicate IsRun(c: Config, s: State, events: seq<Event>)
    decreases |events|
  {
    |s.builders| == |c.timeouts| &&
    (events == [] || (Enabled(c, s, events[0]) && IsRun(c, Apply(c, s, events[0]), events[1..])))
  }

  ghost predicate AtomicRun(c: Config, s: State, events: seq<Event>)
    requires IsRun(c, s, events)
    decreases |events|
  {
    events == [] || (Atomic(s, events[0]) && AtomicRun(c, Apply(c, s, events[0]), events[1..]))
  }

  ghost function After(c: Config, s: State, events: seq<Event>): (t: State)
    requires IsRun(c, s, events)
    ensures |t.builders| == |s.builders| == |c.timeouts|
    decreases |events|
  {
    if events == [] then s else After(c, Apply(c, s, events[0]), events[1..])
  }

  // ----- exactly which runs are safe -----

  /** A builder's flag and the directory agree: whoever believes it owns the lock made the directory that is there. */
  ghost predicate OwnsIt(s: State, b: nat)
    requires b < |s.builders| && s.builders[b].Owning?
  {
    s.lock == Some(Lock(s.builders[b].gen, s.builders[b].since, b))
  }

  ghost predicate AllOwn(s: State) {
    forall b | 0 <= b < |s.builders| && s.builders[b].Owning? :: OwnsIt(s, b)
  }

  ghost predicate SafeRun(c: Config, s: State, events: seq<Event>)
    requires IsRun(c, s, events)
    decreases |events|
  {
    AllOwn(s) && (events == [] || SafeRun(c, Apply(c, s, events[0]), events[1..]))
  }

  /** A takeover's rmdir meets no directory that a live builder made and still holds. */
  ghost predicate Harmless(s: State, e: Event) {
    e.Remove? && s.lock.Some? ==>
      forall b | 0 <= b < |s.builders| && s.builders[b].Owning? :: s.builders[b].gen != s.lock.value.gen
  }

  ghost predicate HarmlessRun(c: Config, s: State, events: seq<Event>)
    requires IsRun(c, s, events)
    decreases |events|
  {
    events == [] || (Harmless(s, events[0]) && HarmlessRun(c, Apply(c, s, events[0]), events[1..]))
  }

  lemma StepKeepsOwners(c: Config, s: State, e: Event)
    requires |s.builders| == |c.timeouts| && AllOwn(s) && Enabled(c, s, e)
    ensures AllOwn(Apply(c, s, e)) <==> Harmless(s, e)
  {
    var t := Apply(c, s, e);
    if Harmless(s, e) {
      forall b | 0 <= b < |t.builders| && t.builders[b].Owning? ensures OwnsIt(t, b) {
        assert s.builders[b].Owning? ==> OwnsIt(s, b);
        assert forall o | 0 <= o < |s.builders| && s.builders[o].Owning? :: OwnsIt(s, o);
      }
    } else {
      var b :| 0 <= b < |s.builders| && s.builders[b].Owning? && s.builders[b].gen == s.lock.value.gen;
      assert t.builders[b].Owning? && !OwnsIt(t, b);
    }
  }

  /** From a state where flags and directory agree, they agree all along a run if and only if its takeovers are harmless. */
  lemma {:induction false} SafeExactlyWhenHarmless(c: Config, s: State, events: seq<Event>)
    requires IsRun(c, s, events) && AllOwn(s)
    ensures SafeRun(c, s, events) <==> HarmlessRun(c, s, events)
    decreases |events|
  {
    if events != [] {
      var t := Apply(c, s, events[0]);
      StepKeepsOwners(c, s, events[0]);
      if AllOwn(t) {
        SafeExactlyWhenHarmless(c, t, events[1..]);
      } else {
        assert !SafeRun(c, t, events[1..]);
      }
    }
  }

  lemma AtMostOneOwner(s: State, a: nat, b: nat)
    requires AllOwn(s) && a < |s.builders| && b < |s.builders| && s.builders[a].Owning? && s.builders[b].Owning?
    ensures a == b
  {
  }

  // ----- takeovers are harmless when the age check and the rmdir are one step -----

  ghost predicate Inv(c: Config, s: State) {
    && |s.builders| == |c.timeouts|
    && AllOwn(s)
    && (s.lock.Some? ==> s.lock.value.gen < s.made)
    && (forall o | 0 <= o < |s.builders| && s.builders[o].Owning? :: s.now - s.builders[o].since <= c.hold)
    && (forall b | 0 <= b < |s.builders| && s.builders[b].SawStale? :: s.builders[b].gen < s.made && Abandoned(s, s.builders[b].gen))
  }

  ghost predicate Abandoned(s: State, gen: nat) {
    forall o | 0 <= o < |s.builders| && s.builders[o].Owning? :: s.builders[o].gen != gen
  }

  lemma StaleIsAbandoned(c: Config, s: State, b: nat)
    requires HoldsAreShort(c) && Inv(c, s) && b < |s.builders|
    requires s.lock.Some? && s.now - s.lock.value.mtime > c.timeouts[b]
    ensures Abandoned(s, s.lock.value.gen)
  {
  }

  lemma HarmlessKeepsInv(c: Config, s: State, e: Event)
    requires HoldsAreShort(c) && Inv(c, s) && Enabled(c, s, e) && Harmless(s, e)
    ensures Inv(c, Apply(c, s, e))
  {
    StepKeepsOwners(c, s, e);
    hide Harmless, AllOwn;
    var t := Apply(c, s, e);
    if e.Look? && t.builders[e.b].SawStale? {
      StaleIsAbandoned(c, s, e.b);
    }
    forall b | 0 <= b < |t.builders| && t.builders[b].SawStale? ensures Abandoned(t, t.builders[b].gen) {
      assert Abandoned(s, t.builders[b].gen);
    }
  }

  lemma StepKeepsInv(c: Config, s: State, e: Event)
    requires HoldsAreShort(c) && Inv(c, s) && Enabled(c, s, e) && Atomic(s, e)
    ensures Harmless(s, e) && Inv(c, Apply(c, s, e))
  {
    AtomicIsHarmless(c, s, e);
    HarmlessKeepsInv(c, s, e);
  }

  lemma AtomicIsHarmless(c: Config, s: State, e: Event)
    requires Inv(c, s) && Enabled(c, s, e) && Atomic(s, e)
    ensures Harmless(s, e)
  {
  }

  lemma {:induction false} AtomicRunIsHarmless(c: Config, s: State, events: seq<Event>)
    requires HoldsAreShort(c) && Inv(c, s) && IsRun(c, s, events) && AtomicRun(c, s, events)
    ensures HarmlessRun(c, s, events) && Inv(c, After(c, s, events))
    decreases |events|
  {
    if events != [] {
      StepKeepsInv(c, s, events[0]);
      AtomicRunIsHarmless(c, Apply(c, s, events[0]), events[1..]);
    }
  }

  /**
   * With that, and no live holder outlasting a wait window, every run of any number of
   * builders, crashes included, keeps flags and directory in agreement throughout.
   */
  lemma AtomicRunsAreSafe(c: Config, s: State, events: seq<Event>)
    requires HoldsAreShort(c) && Init(c, s) && IsRun(c, s, events) && AtomicRun(c, s, events)
    ensures SafeRun(c, s, events) && AllOwn(After(c, s, events))
  {
    AtomicRunIsHarmless(c, s, events);
    SafeExactlyWhenHarmless(c, s, events);
  }

  // ----- exactly which runs are safe, told by what a log of them shows -----

  /**
   * What a log of mkdirs, age checks, rmdirs and crashes shows of a takeover: the directory
   * removed is the one found stale, or is older than the run, or its maker is gone.
   */
  predicate ShownHarmless(s: State, first: nat, e: Event)
    requires e.Remove? ==> e.b < |s.builders| && s.builders[e.b].SawStale?
  {
    e.Remove? && s.lock.Some? ==>
      var lock := s.lock.value;
      || lock.gen == s.builders[e.b].gen || lock.gen < first
      || (lock.owner < |s.builders| && s.builders[lock.owner].Gone?)
  }

  ghost predicate ShownHarmlessRun(c: Config, s: State, first: nat, events: seq<Event>)
    requires IsRun(c, s, events)
    decreases |events|
  {
    events == [] || (ShownHarmless(s, first, events[0]) && ShownHarmlessRun(c, Apply(c, s, events[0]), first, events[1..]))
  }

  /** Directories made in the run belong to their makers until these are gone. */
  ghost predicate MakersKnown(s: State, first: nat) {
    && first <= s.made
    && (forall b | 0 <= b < |s.builders| && s.builders[b].Owning? :: s.builders[b].gen >= first)
    && (s.lock.Some? && s.lock.value.gen >= first ==>
         var lock := s.lock.value;
         lock.owner < |s.builders| &&
         (s.builders[lock.owner].Gone? || s.builders[lock.owner] == Owning(lock.gen, lock.mtime)))
  }

  lemma StepKeepsMakersKnown(c: Config, s: State, first: nat, e: Event)
    requires |s.builders| == |c.timeouts| && Enabled(c, s, e) && AllOwn(s) && MakersKnown(s, first)
    ensures MakersKnown(Apply(c, s, e), first)
  {
    if e.Finish? && s.builders[e.b].Owning? {
      assert OwnsIt(s, e.b);
    }
  }

  lemma ShownIsHarmless(c: Config, s: State, first: nat, e: Event)
    requires Inv(c, s) && MakersKnown(s, first) && Enabled(c, s, e)
    ensures ShownHarmless(s, first, e) <==> Harmless(s, e)
  {
    if e.Remove? && s.lock.Some? {
      var lock := s.lock.value;
      if ShownHarmless(s, first, e) {
        forall b | 0 <= b < |s.builders| && s.builders[b].Owning? ensures s.builders[b].gen != lock.gen {
          assert OwnsIt(s, b);
          assert Abandoned(s, s.builders[e.b].gen);
        }
      }
    }
  }

  lemma {:induction false} SafeWhileShown(c: Config, s: State, first: nat, events: seq<Event>)
    requires HoldsAreShort(c) && Inv(c, s) && MakersKnown(s, first) && IsRun(c, s, events)
    ensures SafeRun(c, s, events) <==> ShownHarmlessRun(c, s, first, events)
    decreases |events|
  {
    hide Harmless, ShownHarmless, MakersKnown, Apply, Enabled;
    if events != [] {
      var e, t := events[0], Apply(c, s, events[0]);
      ShownIsHarmless(c, s, first, e);
      StepKeepsOwners(c, s, e);
      StepKeepsMakersKnown(c, s, first, e);
      if Harmless(s, e) {
        HarmlessKeepsInv(c, s, e);
        SafeWhileShown(c, t, first, events[1..]);
      } else {
        assert !SafeRun(c, t, events[1..]);
      }
    }
  }

  /** With no live holder outlasting a wait window, a run is safe if and only if its log shows each takeover harmless. */
  lemma SafeExactlyWhenShown(c: Config, s: State, events: seq<Event>)
    requires HoldsAreShort(c) && Init(c, s) && IsRun(c, s, events)
    ensures SafeRun(c, s, events) <==> ShownHarmlessRun(c, s, s.made, events)
  {
    SafeWhileShown(c, s, s.made, events);
  }

  /** A builder that finishes while it owns the lock then removes the directory it made, and disturbs no other. */
  lemma FinishRemovesOwnLock(c: Config, s: State, b: nat)
    requires |s.builders| == |c.timeouts| && AllOwn(s) && b < |s.builders| && s.builders[b].Owning?
    ensures s.lock.Some? && s.lock.value.owner == b
    ensures var t := Apply(c, s, Finish(b)); t.lock == None && AllOwn(t) && forall o | 0 <= o < |t.builders| :: !t.builders[o].Owning?
  {
  }

  // ----- the code's age check and rmdir are two steps -----

  const THREE := Config([1, 1, 1], 1)

  const TORN: seq<Event> := [
    Mkdir(0), Mkdir(1), Mkdir(2), Crash(0), Tick(2), Wake(1), Wake(2), Look(1), Look(2),
    Remove(1), Retry(1), Remove(2), Retry(2)]

  const STALE := Some(Lock(0, 0, 0))

  const TORN_STATES: seq<State> := [
    State(0, 0, None, [Idle, Idle, Idle]),
    State(0, 1, STALE, [Owning(0, 0), Idle, Idle]),
    State(0, 1, STALE, [Owning(0, 0), Waiting(1), Idle]),
    State(0, 1, STALE, [Owning(0, 0), Waiting(1), Waiting(1)]),
    State(0, 1, STALE, [Gone, Waiting(1), Waiting(1)]),
    State(2, 1, STALE, [Gone, Waiting(1), Waiting(1)]),
    State(2, 1, STALE, [Gone, Looking, Waiting(1)]),
    State(2, 1, STALE, [Gone, Looking, Looking]),
    State(2, 1, STALE, [Gone, SawStale(0), Looking]),
    State(2, 1, STALE, [Gone, SawStale(0), SawStale(0)]),
    State(2, 1, None, [Gone, Retrying, SawStale(0)]),
    State(2, 2, Some(Lock(1, 2, 1)), [Gone, Owning(1, 2), SawStale(0)]),
    State(2, 2, None, [Gone, Owning(1, 2), Retrying]),
    State(2, 3, Some(Lock(2, 2, 2)), [Gone, Owning(1, 2), Owning(2, 2)])]

  ghost predicate Goes(s: State, e: Event, t: State) {
    |s.builders| == 3 && Enabled(THREE, s, e) && Apply(THREE, s, e) == t
  }

  lemma TornStep(k: nat)
    requires k < 13
    ensures Goes(TORN_STATES[k], TORN[k], TORN_STATES[k + 1])
  {
    if k < 4 {
    } else if k < 8 {
    } else {
    }
  }

  lemma {:induction false} TornFrom(k: nat)
    requires k <= 13
    ensures |TORN_STATES[k].builders| == 3 && IsRun(THREE, TORN_STATES[k], TORN[k..])
    ensures After(THREE, TORN_STATES[k], TORN[k..]) == TORN_STATES[13]
    decreases 13 - k
  {
    hide Enabled, Apply;
    if k < 13 {
      TornStep(k);
      TornFrom(k + 1);
      assert TORN[k..][1..] == TORN[k + 1..] && TORN[k..][0] == TORN[k];
    }
  }

  /**
   * As two steps they are not safe: two waiters find the same crashed builder's lock
   * stale, and the slower one removes the faster one's new, live lock. Both then own it.
   */
  lemma {:induction false} SplitTakeoverTears()
    ensures HoldsAreShort(THREE)
    ensures var s := State(0, 0, None, [Idle, Idle, Idle]);
      && Init(THREE, s) && IsRun(THREE, s, TORN)
      && After(THREE, s, TORN).builders[1].Owning? && After(THREE, s, TORN).builders[2].Owning?
  {
    hide IsRun, After;
    TornFrom(0);
    assert TORN[0..] == TORN;
    assert TORN_STATES[13] == State(2, 3, Some(Lock(2, 2, 2)), [Gone, Owning(1, 2), Owning(2, 2)]);
  }

  // ----- progress -----

  /** A crashed builder's lock does not stay for ever: a waiter past its window, left alone, takes it over. */
  lemma StaleLockIsTakenOver(c: Config, s: State, b: nat)
    requires |s.builders| == |c.timeouts| && b < |s.builders| && s.builders[b].Waiting?
    requires s.lock.Some? && s.now >= s.builders[b].deadline && s.now - s.lock.value.mtime > c.timeouts[b]
    ensures var events := [Wake(b), Look(b), Remove(b), Retry(b)];
      && IsRun(c, s, events) && AtomicRun(c, s, events)
      && After(c, s, events).builders[b] == Owning(s.made, s.now)
      && After(c, s, events).lock == Some(Lock(s.made, s.now, b))
  {
    var events := [Wake(b), Look(b), Remove(b), Retry(b)];
    var s1 := Apply(c, s, Wake(b));
    var s2 := Apply(c, s1, Look(b));
    var s3 := Apply(c, s2, Remove(b));
    var s4 := Apply(c, s3, Retry(b));
    LastStep(c, s3, Retry(b));
    FirstStep(c, s2, Remove(b), [Retry(b)]);
    FirstStep(c, s1, Look(b), [Remove(b), Retry(b)]);
    FirstStep(c, s, Wake(b), [Look(b), Remove(b), Retry(b)]);
    assert events == [Wake(b)] + [Look(b), Remove(b), Retry(b)];
  }

  lemma LastStep(c: Config, s: State, e: Event)
    requires |s.builders| == |c.timeouts| && Enabled(c, s, e)
    ensures IsRun(c, s, [e]) && After(c, s, [e]) == Apply(c, s, e)
    ensures Atomic(s, e) ==> AtomicRun(c, s, [e])
  {
  }

  lemma FirstStep(c: Config, s: State, e: Event, rest: seq<Event>)
    requires |s.builders| == |c.timeouts| && Enabled(c, s, e) && IsRun(c, Apply(c, s, e), rest)
    ensures IsRun(c, s, [e] + rest) && After(c, s, [e] + rest) == After(c, Apply(c, s, e), rest)
    ensures Atomic(s, e) && AtomicRun(c, Apply(c, s, e), rest) ==> AtomicRun(c, s, [e] + rest)
  {
  }
}
