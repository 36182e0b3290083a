/**
 * src/commands/agent-register.ts: concurrent registrations. No unique index guards client
 * names; each transaction takes a lock on a hash of its name, looks for a live client of
 * that name among the committed rows, and inserts. The lock goes when the transaction ends.
 */
module RegistrationProtocol {
  import opened Registration

  datatype Phase = Ready | Holding | Checked | Inserted(id: string) | Ended

  /** One register call: the client it is to write, and how far its transaction has come. */
  datatype Tx = Tx(client: Client, phase: Phase)

  /** Committed rows, the advisory locks held and by which transaction, and the transactions. */
  datatype State = State(rows: map<string, Client>, locks: map<int, nat>, txs: seq<Tx>)

  /** The hash under which a name is locked (names may collide), whether the brain marks deletion, and whether locks exclude. */
  datatype Config = Config(key: string -> int, hasDeletedAt: bool, locking: bool)

  datatype Event =
    | Lock(t: nat)
    | Check(t: nat)
    | Insert(t: nat, id: string)
    | Commit(t: nat)
    | Rollback(t: nat)
    | Revoke(row: string)

  predicate InTransaction(p: Phase) {
    p.Holding? || p.Checked? || p.Inserted?
  }

  function KeyOf(c: Config, s: State, t: nat): int
    requires t < |s.txs|
  {
    c.key(s.txs[t].client.name)
  }

  ghost predicate Enabled(c: Config, s: State, e: Event) {
    match e
    case Lock(t) => t < |s.txs| && s.txs[t].phase.Ready? && (c.locking ==> KeyOf(c, s, t) !in s.locks)
    case Check(t) => t < |s.txs| && s.txs[t].phase.Holding?
    case Insert(t, id) => t < |s.txs| && s.txs[t].phase.Checked? && id !in s.rows && forall u | u in s.txs :: u.phase != Inserted(id)
    case Commit(t) => t < |s.txs| && s.txs[t].phase.Inserted?
    case Rollback(t) => t < |s.txs| && InTransaction(s.txs[t].phase)
    case Revoke(row) => row in s.rows
  }

  function To(s: State, t: nat, p: Phase): State
    requires t < |s.txs|
  {
    s.(txs := s.txs[t := s.txs[t].(phase := p)])
  }

  /** The transaction ends and its lock is released. */
  function End(c: Config, s: State, t: nat): State
    requires t < |s.txs|
  {
    To(s, t, Ended).(locks := s.locks - {KeyOf(c, s, t)})
  }

  ghost function Apply(c: Config, s: State, e: Event): State
    requires Enabled(c, s, e)
  {
    match e
    case Lock(t) => To(s, t, Holding).(locks := s.locks[KeyOf(c, s, t) := t])
    case Check(t) => if NameTaken(s.rows, s.txs[t].client.name, c.hasDeletedAt) then End(c, s, t) else To(s, t, Checked)
    case Insert(t, id) => To(s, t, Inserted(id))
    case Commit(t) => End(c, s, t).(rows := s.rows[s.txs[t].phase.id := s.txs[t].client])
    case Rollback(t) => End(c, s, t)
    case Revoke(row) => s.(rows := s.rows[row := s.rows[row].(deleted := true)])
  }

  ghost predicate IsRun(c: Config, s: State, events: seq<Event>)
    decreases |events|
  {
    events == [] || (Enabled(c, s, events[0]) && IsRun(c, Apply(c, s, events[0]), events[1..]))
  }

  ghost function After(c: Config, s: State, events: seq<Event>): State
    requires IsRun(c, s, events)
    decreases |events|
  {
    if events == [] then s else After(c, Apply(c, s, events[0]), events[1..])
  }

  // ----- the invariant -----

  /** No two live clients share a name. */
  ghost predicate UniqueNames(rows: map<string, Client>) {
    forall a, b | a in rows && b in rows && !rows[a].deleted && !rows[b].deleted && rows[a].name == rows[b].name :: a == b
  }

  ghost predicate NoLiveClient(rows: map<string, Client>, name: string) {
    forall id | id in rows && rows[id].name == name :: rows[id].deleted
  }

  ghost predicate HoldsItsLock(c: Config, s: State, t: nat)
    requires t < |s.txs|
  {
    KeyOf(c, s, t) in s.locks && s.locks[KeyOf(c, s, t)] == t
  }

  ghost predicate Inv(c: Config, s: State) {
    && UniqueNames(s.rows)
    && (forall t | 0 <= t < |s.txs| && InTransaction(s.txs[t].phase) :: HoldsItsLock(c, s, t))
    && (forall t | 0 <= t < |s.txs| && (s.txs[t].phase.Checked? || s.txs[t].phase.Inserted?) ::
          NoLiveClient(s.rows, s.txs[t].client.name))
  }

  ghost predicate Init(c: Config, s: State) {
    UniqueNames(s.rows) && s.locks == map[] && forall t | 0 <= t < |s.txs| :: s.txs[t].phase == Ready
  }

  /** Two transactions inside cannot be after the same name: they would hold the same lock. */
  lemma OneTransactionPerName(c: Config, s: State, t: nat, u: nat)
    requires Inv(c, s) && t < |s.txs| && u < |s.txs|
    requires InTransaction(s.txs[t].phase) && InTransaction(s.txs[u].phase)
    requires s.txs[t].client.name == s.txs[u].client.name
    ensures t == u
  {
  }

  lemma EndKeepsLocks(c: Config, s: State, t: nat)
    requires Inv(c, s) && t < |s.txs| && InTransaction(s.txs[t].phase)
    ensures Inv(c, End(c, s, t))
  {
  }

  lemma CommitKeepsInv(c: Config, s: State, t: nat)
    requires Inv(c, s) && Enabled(c, s, Commit(t))
    ensures Inv(c, Apply(c, s, Commit(t)))
  {
  }

  lemma StepKeepsInv(c: Config, s: State, e: Event)
    requires c.locking && Inv(c, s) && Enabled(c, s, e)
    ensures Inv(c, Apply(c, s, e))
  {
    var n := Apply(c, s, e);
    match e {
      case Commit(t) => CommitKeepsInv(c, s, t);
      case Rollback(t) => EndKeepsLocks(c, s, t);
      case Check(t) =>
        if NameTaken(s.rows, s.txs[t].client.name, c.hasDeletedAt) {
          EndKeepsLocks(c, s, t);
        } else {
          KeepsLocks(c, s, n);
        }
      case Insert(t, id) => KeepsLocks(c, s, n);
      case Lock(t) =>
        forall u | 0 <= u < |n.txs| && InTransaction(n.txs[u].phase) ensures HoldsItsLock(c, n, u) {
          assert u != t ==> HoldsItsLock(c, s, u);
        }
      case Revoke(row) =>
        forall t | 0 <= t < |n.txs| && (n.txs[t].phase.Checked? || n.txs[t].phase.Inserted?)
          ensures NoLiveClient(n.rows, n.txs[t].client.name)
        {
          assert NoLiveClient(s.rows, n.txs[t].client.name);
        }
        KeepsLocks(c, s, n);
    }
  }

  lemma KeepsLocks(c: Config, s: State, n: State)
    requires Inv(c, s) && n.locks == s.locks && |n.txs| == |s.txs|
    requires forall t | 0 <= t < |s.txs| :: n.txs[t].client == s.txs[t].client && (InTransaction(n.txs[t].phase) ==> InTransaction(s.txs[t].phase))
    ensures forall t | 0 <= t < |n.txs| && InTransaction(n.txs[t].phase) :: HoldsItsLock(c, n, t)
  {
  }

  lemma {:induction false} RunKeepsInv(c: Config, s: State, events: seq<Event>)
    requires c.locking && Inv(c, s) && IsRun(c, s, events)
    ensures Inv(c, After(c, s, events))
    decreases |events|
  {
    if events != [] {
      StepKeepsInv(c, s, events[0]);
      RunKeepsInv(c, Apply(c, s, events[0]), events[1..]);
    }
  }

  /**
   * In every interleaving of any number of registrations, commits, rollbacks and
   * revocations, no two live clients share a name, whatever names the hash confuses.
   */
  lemma NamesStayUnique(c: Config, s: State, events: seq<Event>)
    requires c.locking && Init(c, s) && IsRun(c, s, events)
    ensures UniqueNames(After(c, s, events).rows)
  {
    RunKeepsInv(c, s, events);
  }

  /** And live clients that write to the workspace derived from their name never share it. */
  lemma DerivedWorkspacesStayDistinct(c: Config, s: State, events: seq<Event>, a: string, b: string)
    requires c.locking && Init(c, s) && IsRun(c, s, events)
    requires var rows := After(c, s, events).rows;
      && a in rows && b in rows && a != b && !rows[a].deleted && !rows[b].deleted
      && rows[a].writeSource == DerivedWorkspace(rows[a].name)
      && rows[b].writeSource == DerivedWorkspace(rows[b].name)
    ensures var rows := After(c, s, events).rows; rows[a].writeSource != rows[b].writeSource
  {
    NamesStayUnique(c, s, events);
    var rows := After(c, s, events).rows;
    if rows[a].writeSource == rows[b].writeSource {
      DerivedInjective(rows[a].name, rows[b].name);
    }
  }

  lemma DerivedInjective(m: string, n: string)
    requires DerivedWorkspace(m) == DerivedWorkspace(n)
    ensures m == n
  {
    assert |m| == |n|;
    assert m == DerivedWorkspace(m)[..|m|];
    assert n == DerivedWorkspace(n)[..|n|];
  }

  // ----- without the lock -----

  const TWIN := Client("bot", "bot-workspace", ["bot-workspace"], false)

  const RACE := [Lock(0), Lock(1), Check(0), Check(1), Insert(0, "a"), Insert(1, "b"), Commit(0), Commit(1)]

  function Twins(locks: map<int, nat>, p: Phase, q: Phase, rows: map<string, Client>): State {
    State(rows, locks, [Tx(TWIN, p), Tx(TWIN, q)])
  }

  /** The states the race goes through. */
  function RaceStates(key: int): seq<State> {
    [
      Twins(map[], Ready, Ready, map[]),
      Twins(map[key := 0], Holding, Ready, map[]),
      Twins(map[key := 1], Holding, Holding, map[]),
      Twins(map[key := 1], Checked, Holding, map[]),
      Twins(map[key := 1], Checked, Checked, map[]),
      Twins(map[key := 1], Inserted("a"), Checked, map[]),
      Twins(map[key := 1], Inserted("a"), Inserted("b"), map[]),
      Twins(map[], Ended, Inserted("b"), map["a" := TWIN]),
      Twins(map[], Ended, Ended, map["a" := TWIN, "b" := TWIN])
    ]
  }

  ghost predicate Goes(c: Config, s: State, e: Event, t: State) {
    Enabled(c, s, e) && Apply(c, s, e) == t
  }

  lemma RaceSteps(c: Config, k: nat)
    requires !c.locking && k < |RACE|
    ensures var states := RaceStates(c.key("bot")); Goes(c, states[k], RACE[k], states[k + 1])
  {
    hide NameTaken;
    RaceNameFree(c);
  }

  lemma RaceNameFree(c: Config)
    ensures !NameTaken(map[], "bot", c.hasDeletedAt)
  {
  }

  lemma {:induction false} RunAlong(c: Config, states: seq<State>, events: seq<Event>)
    requires |states| == |events| + 1
    requires forall k | 0 <= k < |events| :: Goes(c, states[k], events[k], states[k + 1])
    ensures IsRun(c, states[0], events) && After(c, states[0], events) == states[|events|]
    decreases |events|
  {
    if events != [] {
      hide Enabled, Apply;
      assert Goes(c, states[0], events[0], states[1]);
      RunAlong(c, states[1..], events[1..]);
    }
  }

  /**
   * The check alone would not do: without the lock, two transactions that both check before
   * either commits leave two live clients of one name.
   */
  lemma CheckAloneIsNotEnough(c: Config)
    requires !c.locking
    ensures var s := Twins(map[], Ready, Ready, map[]);
      Init(c, s) && IsRun(c, s, RACE) && !UniqueNames(After(c, s, RACE).rows)
  {
    var states := RaceStates(c.key("bot"));
    EmptyIsUnique();
    hide Goes, IsRun, After, RaceStates, UniqueNames;
    RaceEnds(c.key("bot"));
    forall k | 0 <= k < |RACE| ensures Goes(c, states[k], RACE[k], states[k + 1]) {
      RaceSteps(c, k);
    }
    RunAlong(c, states, RACE);
  }

  lemma EmptyIsUnique()
    ensures UniqueNames(map[])
  {
  }

  lemma RaceEnds(key: int)
    ensures |RaceStates(key)| == |RACE| + 1 && RaceStates(key)[0] == Twins(map[], Ready, Ready, map[])
    ensures !UniqueNames(RaceStates(key)[|RACE|].rows)
  {
    var rows := RaceStates(key)[8].rows;
    assert rows == map["a" := TWIN, "b" := TWIN];
    assert rows["a"] == rows["b"] == TWIN && "a" != "b";
  }

  /** The lock is what the promise rests on: names stay unique in every run if and only if locks exclude. */
  lemma UniqueExactlyWithLock(c: Config)
    ensures c.locking <==> forall s, events | Init(c, s) && IsRun(c, s, events) :: UniqueNames(After(c, s, events).rows)
  {
    if c.locking {
      forall s, events | Init(c, s) && IsRun(c, s, events) ensures UniqueNames(After(c, s, events).rows) {
        NamesStayUnique(c, s, events);
      }
    } else {
      CheckAloneIsNotEnough(c);
    }
  }
}
