/**
 * src/commands/agent-register.ts: how `agent register` resolves a preset into a write
 * source and a read grant, and what one registration leaves in the database.
 */
module Registration {
  import opened Results
  import opened Sorting
  import opened Text

  const WORKSPACE_SUFFIX := "-workspace"
  const WORKSPACE_NAME_MAX := 22
  const ALL_SOURCES := "__all__"

  datatype Reason =
    | InvalidArgument | UnknownSource | ArchivedSource | DirtySource | DuplicateName
    | BrainTooOld | MintFailed | ServeTooOld

  // ----- arguments -----

  datatype Preset = DailyDriver | CodingAgent | NoPreset

  datatype Flags = Flags(name: string, preset: Preset, source: Option<string>, federatedRead: Option<seq<string>>, allowOldServe: bool)

  /** SOURCE_ID_RE: 1 to 32 lowercase letters, digits and inner hyphens. */
  predicate IsSourceId(s: string) {
    && 1 <= |s| <= 32
    && (forall c | c in s :: IsLower(c) || IsDigit(c) || c == '-')
    && s[0] != '-' && s[|s| - 1] != '-'
  }

  /** `[...new Set(ids)]`: first occurrences, in order. */
  function Distinct(ids: seq<string>): (r: seq<string>)
    ensures NoDup(r) && forall x :: x in r <==> x in ids
  {
    if ids == [] then [] else
      var front, last := ids[..|ids| - 1], ids[|ids| - 1];
      assert ids == front + [last];
      var r := Distinct(front);
      if last in r then r else r + [last]
  }

  /** Some part of the value is not blank, and all that are not are source ids (so none is the wildcard). */
  ghost predicate IsSourceList(v: string) {
    && (exists part | part in Split(v, ',') :: Trim(part) != "")
    && (forall part | part in Split(v, ',') && Trim(part) != "" :: IsSourceId(Trim(part)))
  }

  /** The value of `--federated-read`: distinct source ids, at least one, never the wildcard. */
  method ParseFederatedRead(v: string) returns (result: Result<seq<string>, Reason>)
    ensures result.Ok? <==> IsSourceList(v)
    ensures result.Ok? ==> result.value == Distinct(NonEmptyTrimmed(Split(v, ',')))
    ensures result.Ok? ==> NoDup(result.value) && result.value != [] && forall id | id in result.value :: IsSourceId(id)
    ensures result.Ok? ==> forall id :: id in result.value <==> id != "" && exists part | part in Split(v, ',') :: Trim(part) == id
    ensures result.Err? ==> result.error == InvalidArgument
  {
    hide Split, Trim, IsSourceId;
    var parts := Split(v, ',');
    var ids: seq<string> := [];
    for i := 0 to |parts|
      invariant ids == NonEmptyTrimmed(parts[..i])
    {
      assert parts[..i + 1][..i] == parts[..i];
      var id := Trim(parts[i]);
      if id != "" {
        ids := ids + [id];
      }
    }
    assert parts[..|parts|] == parts;
    var distinct := Distinct(ids);
    forall id ensures id in distinct <==> id != "" && exists part | part in parts :: Trim(part) == id {
      NonEmptyTrimmedMembers(parts, id);
    }
    if |distinct| == 0 {
      assert forall part | part in parts :: Trim(part) !in distinct;
      return Err(InvalidArgument);
    }
    assert distinct[0] in distinct;
    for i := 0 to |distinct|
      invariant forall j | 0 <= j < i :: IsSourceId(distinct[j])
    {
      if distinct[i] == ALL_SOURCES || !IsSourceId(distinct[i]) {
        WildcardIsNoSourceId();
        assert distinct[i] in distinct;
        return Err(InvalidArgument);
      }
    }
    assert forall part | part in parts && Trim(part) != "" :: Trim(part) in distinct;
    result := Ok(distinct);
  }

  lemma WildcardIsNoSourceId()
    ensures !IsSourceId(ALL_SOURCES)
  {
    assert ALL_SOURCES[0] == '_' && ALL_SOURCES[0] in ALL_SOURCES;
  }

  /** What the parser lets through. */
  ghost predicate Parsed(flags: Flags) {
    flags.federatedRead.Some? ==> NoDup(flags.federatedRead.value)
  }

  // ----- presets -----

  datatype Grant = Explicit(ids: seq<string>) | Snapshot

  datatype Resolved = Resolved(writeSource: string, federatedRead: Grant, workspaceDerived: bool)

  function DerivedWorkspace(name: string): string {
    name + WORKSPACE_SUFFIX
  }

  lemma NoDupSnoc(ids: seq<string>, last: string)
    ensures NoDup(ids + [last]) <==> NoDup(ids) && last !in ids
  {
    var all := ids + [last];
    if NoDup(all) {
      forall i, j | 0 <= i < j < |ids| ensures ids[i] != ids[j] {
        assert all[i] != all[j];
      }
      forall i | 0 <= i < |ids| ensures ids[i] != last {
        assert all[i] != all[|ids|];
      }
    }
  }

  function Without(ids: seq<string>, id: string): (r: seq<string>)
    ensures forall x :: x in r <==> x in ids && x != id
    ensures NoDup(ids) ==> NoDup(r)
  {
    if ids == [] then [] else
      var front, last := ids[..|ids| - 1], ids[|ids| - 1];
      assert ids == front + [last];
      NoDupSnoc(front, last);
      var r := Without(front, id);
      NoDupSnoc(r, last);
      if last == id then r else r + [last]
  }

  function ResolvePreset(flags: Flags): Result<Resolved, Reason> {
    var source := if flags.source.Some? then flags.source.value else "default";
    match flags.preset
    case DailyDriver =>
      Ok(Resolved(source, if flags.federatedRead.Some? then Explicit(flags.federatedRead.value) else Snapshot, false))
    case CodingAgent =>
      if flags.federatedRead.None? || flags.federatedRead.value == [] then Err(MintFailed)
      else if flags.source.None? && (|flags.name| > WORKSPACE_NAME_MAX || !IsSourceId(DerivedWorkspace(flags.name))) then Err(MintFailed)
      else
        var ws := if flags.source.Some? then flags.source.value else DerivedWorkspace(flags.name);
        Ok(Resolved(ws, Explicit([ws] + Without(flags.federatedRead.value, ws)), flags.source.None?))
    case NoPreset =>
      Ok(Resolved(source, Explicit(if flags.federatedRead.Some? then flags.federatedRead.value else [source]), false))
  }

  lemma ResolvedGrantIsDistinct(flags: Flags)
    requires Parsed(flags) && ResolvePreset(flags).Ok?
    ensures var r := ResolvePreset(flags).value; r.federatedRead.Explicit? ==> NoDup(r.federatedRead.ids)
  {
    if flags.preset.CodingAgent? {
      var ws := ResolvePreset(flags).value.writeSource;
      var others := Without(flags.federatedRead.value, ws);
      assert ws !in others && NoDup(others);
    }
  }

  predicate IsWorkspace(id: string) {
    EndsWith(id, WORKSPACE_SUFFIX)
  }

  /** The sources a snapshot grants, and the agent workspaces it leaves out. */
  method SnapshotGrantSources(ids: seq<string>) returns (granted: seq<string>, excluded: seq<string>)
    ensures forall id :: id in granted <==> id in ids && !IsWorkspace(id)
    ensures forall id :: id in excluded <==> id in ids && IsWorkspace(id)
    ensures multiset(granted) + multiset(excluded) == multiset(ids)
    ensures NoDup(ids) ==> NoDup(granted)
  {
    granted, excluded := [], [];
    for i := 0 to |ids|
      invariant forall id :: id in granted <==> id in ids[..i] && !IsWorkspace(id)
      invariant forall id :: id in excluded <==> id in ids[..i] && IsWorkspace(id)
      invariant multiset(granted) + multiset(excluded) == multiset(ids[..i])
      invariant NoDup(ids) ==> NoDup(granted)
    {
      assert ids[..i + 1] == ids[..i] + [ids[i]];
      if IsWorkspace(ids[i]) {
        excluded := excluded + [ids[i]];
      } else {
        granted := granted + [ids[i]];
      }
    }
    assert ids[..|ids|] == ids;
  }

  // ----- the database -----

  datatype Source = Source(archived: bool, hasLocalPath: bool, pages: nat, facts: nat, files: nat)

  const NEW_SOURCE := Source(false, false, 0, 0, 0)

  datatype Client = Client(name: string, writeSource: string, grant: seq<string>, deleted: bool)

  predicate IsClean(s: Source) {
    !s.hasLocalPath && s.pages == 0 && s.facts == 0 && s.files == 0
  }

  predicate IsLive(sources: map<string, Source>, id: string) {
    id in sources && !sources[id].archived
  }

  /** Clients of a name; a brain without the deleted_at column counts deleted ones too. */
  predicate NameTaken(clients: map<string, Client>, name: string, hasDeletedAt: bool) {
    exists id | id in clients :: clients[id].name == name && (hasDeletedAt ==> !clients[id].deleted)
  }

  /** What lies outside: the columns found, a fresh id, and whether and where the database or the tail fails. */
  datatype Columns = Columns(scoped: bool, deletedAt: bool)

  datatype TxFailure = NoFailure | AtLock | AtWorkspace | AtInsert | AtCommit

  datatype Tail = Fine | AuditOrPrintThrows | ExchangeFails | ServeProvenOld

  datatype Outcome = Registered(id: string, grant: seq<string>) | Failed(reason: Reason, clientId: Option<string>)

  /** What is wrong with granting a source. */
  function Fault(sources: map<string, Source>, id: string): Option<Reason> {
    if id !in sources then Some(UnknownSource)
    else if sources[id].archived then Some(ArchivedSource)
    else None
  }

  /** The first fault in a list of sources. */
  function FirstFault(sources: map<string, Source>, ids: seq<string>): (r: Option<Reason>)
    ensures r.None? <==> forall id | id in ids :: IsLive(sources, id)
  {
    if ids == [] then None else
      var front, last := ids[..|ids| - 1], ids[|ids| - 1];
      assert ids == front + [last];
      var r := FirstFault(sources, front);
      assert Fault(sources, last).None? <==> IsLive(sources, last);
      assert last in ids && forall id :: id in ids <==> id in front || id == last;
      if r.Some? then r else Fault(sources, last)
  }

  lemma {:induction false} FirstFaultOfDistinct(sources: map<string, Source>, ids: seq<string>)
    ensures FirstFault(sources, Distinct(ids)) == FirstFault(sources, ids)
  {
    if ids != [] {
      var front, last := ids[..|ids| - 1], ids[|ids| - 1];
      FirstFaultOfDistinct(sources, front);
      if last !in Distinct(front) {
        assert Distinct(ids) == Distinct(front) + [last];
      }
    }
  }

  /** The checks on explicit sources: each exists and is not archived. */
  method ValidateSourceIds(sources: map<string, Source>, ids: seq<string>) returns (bad: Option<Reason>)
    ensures bad == FirstFault(sources, ids)
    ensures bad.None? <==> forall id | id in ids :: IsLive(sources, id)
    ensures bad.Some? ==> bad.value in {UnknownSource, ArchivedSource}
  {
    var unique := Distinct(ids);
    FirstFaultOfDistinct(sources, ids);
    hide FirstFault, IsLive;
    assert unique[..0] == [];
    for i := 0 to |unique|
      invariant FirstFault(sources, unique[..i]) == None
    {
      FirstFaultStep(sources, unique, i);
      if unique[i] !in sources {
        FaultStays(sources, unique, i + 1);
        return Some(UnknownSource);
      }
      if sources[unique[i]].archived {
        FaultStays(sources, unique, i + 1);
        return Some(ArchivedSource);
      }
    }
    assert unique[..|unique|] == unique;
    bad := None;
  }

  lemma FirstFaultStep(sources: map<string, Source>, ids: seq<string>, i: nat)
    requires i < |ids| && FirstFault(sources, ids[..i]).None?
    ensures FirstFault(sources, ids[..i + 1]) == Fault(sources, ids[i])
  {
    assert ids[..i + 1][..i] == ids[..i];
  }

  lemma {:induction false} FaultStays(sources: map<string, Source>, ids: seq<string>, i: nat)
    requires i <= |ids| && FirstFault(sources, ids[..i]).Some?
    ensures FirstFault(sources, ids) == FirstFault(sources, ids[..i])
  {
    if i == |ids| {
      assert ids[..i] == ids;
    } else {
      assert ids[..|ids| - 1][..i] == ids[..i];
      FaultStays(sources, ids[..|ids| - 1], i);
    }
  }

  /** The sources whose existence a grant depends on; a derived workspace may yet be created. */
  function ToCheck(preset: Resolved): (ids: seq<string>)
    ensures forall id :: id in ids <==>
      && (id == preset.writeSource || (preset.federatedRead.Explicit? && id in preset.federatedRead.ids))
      && !(preset.workspaceDerived && preset.federatedRead.Explicit? && id == preset.writeSource)
  {
    match preset.federatedRead
    case Snapshot => [preset.writeSource]
    case Explicit(ids) =>
      if preset.workspaceDerived then Without(ids, preset.writeSource) else ids + [preset.writeSource]
  }

  /** What stands against using a source as a derived workspace. */
  function WorkspaceFault(sources: map<string, Source>, id: string): Option<Reason> {
    if id !in sources then None
    else if sources[id].archived then Some(ArchivedSource)
    else if !IsClean(sources[id]) then Some(DirtySource)
    else None
  }

  /** `ensureWorkspaceSource`: create it when missing, reuse it only when clean. */
  method EnsureWorkspaceSource(sources: map<string, Source>, id: string)
    returns (result: Result<(map<string, Source>, bool), Reason>)
    ensures if result.Err? then Some(result.error) == WorkspaceFault(sources, id) else WorkspaceFault(sources, id).None?
    ensures result.Ok? ==>
      && var (after, created) := result.value;
      && IsLive(after, id) && IsClean(after[id])
      && after.Keys == sources.Keys + {id} && (forall other | other in sources :: after[other] == sources[other])
      && created == (id !in sources) && (created ==> after[id] == NEW_SOURCE)
  {
    if id in sources {
      var existing := sources[id];
      if existing.archived {
        return Err(ArchivedSource);
      }
      if existing.hasLocalPath || existing.pages > 0 || existing.facts > 0 || existing.files > 0 {
        return Err(DirtySource);
      }
      return Ok((sources, false));
    }
    result := Ok((sources[id := NEW_SOURCE], true));
  }

  // ----- when a registration goes through -----

  /** The write source, from the flags alone: `--source`, else a coding agent's own workspace, else `default`. */
  function WriteSourceFor(flags: Flags): string {
    match flags.source
    case Some(id) => id
    case None => if flags.preset.CodingAgent? then flags.name + "-workspace" else "default"
  }

  predicate DerivesWorkspace(flags: Flags) {
    flags.preset.CodingAgent? && flags.source.None?
  }

  /** A coding agent has to say what it reads, and a workspace derived from its name has to be a source id. */
  predicate FlagsResolve(flags: Flags) {
    flags.preset.CodingAgent? ==>
      && flags.federatedRead.Some? && flags.federatedRead.value != []
      && (flags.source.None? ==> |flags.name| <= 22 && IsSourceId(flags.name + "-workspace"))
  }

  /** What a caller can look up beforehand: the flags resolve, the sources are there, the name and the workspace are free. */
  ghost predicate CanRegister(sources: map<string, Source>, clients: map<string, Client>, flags: Flags, columns: Columns) {
    var ws := WriteSourceFor(flags);
    && FlagsResolve(flags)
    && (!DerivesWorkspace(flags) ==> ws in sources && !sources[ws].archived)
    && (flags.federatedRead.Some? ==> forall id | id in flags.federatedRead.value && !(DerivesWorkspace(flags) && id == ws) ::
          id in sources && !sources[id].archived)
    && columns.scoped
    && (forall row | row in clients && clients[row].name == flags.name :: columns.deletedAt && clients[row].deleted)
    && (DerivesWorkspace(flags) && ws in sources ==>
          var s := sources[ws]; !s.archived && !s.hasLocalPath && s.pages == 0 && s.facts == 0 && s.files == 0)
  }

  /** The preset, as the flags ask. */
  lemma ResolvesAsAsked(flags: Flags)
    ensures ResolvePreset(flags) == Err(MintFailed) <==> !FlagsResolve(flags)
    ensures ResolvePreset(flags).Ok? <==> FlagsResolve(flags)
    ensures FlagsResolve(flags) ==>
      var preset := ResolvePreset(flags).value;
      && preset.writeSource == WriteSourceFor(flags)
      && preset.workspaceDerived == DerivesWorkspace(flags)
      && (preset.federatedRead.Snapshot? <==> flags.preset.DailyDriver? && flags.federatedRead.None?)
      && (preset.federatedRead.Explicit? ==> forall id :: id in preset.federatedRead.ids || id == preset.writeSource <==>
            id == preset.writeSource || (flags.federatedRead.Some? && id in flags.federatedRead.value))
  {
    hide IsSourceId, NoDup;
  }

  /** SOURCE_ID_RE, as its pattern reads: one letter or digit, or two with at most 30 of them and hyphens between. */
  lemma SourceIdsAre(s: string)
    ensures IsSourceId(s) <==>
      && (forall c | c in s :: 'a' <= c <= 'z' || '0' <= c <= '9' || c == '-')
      && s != "" && s[0] != '-' && s[|s| - 1] != '-' && (|s| == 1 || |s[1..|s| - 1]| <= 30)
  {
  }

  /** Whether the transaction fails at a statement it reaches. */
  predicate Interrupted(flags: Flags, failure: TxFailure) {
    failure.AtLock? || failure.AtInsert? || failure.AtCommit?
    || (failure.AtWorkspace? && ResolvePreset(flags).Ok? && ResolvePreset(flags).value.workspaceDerived)
  }

  /** The sources to check are those asked for. */
  lemma ChecksAsAsked(sources: map<string, Source>, flags: Flags)
    ensures FlagsResolve(flags) ==>
      ((forall id | id in ToCheck(ResolvePreset(flags).value) :: IsLive(sources, id)) <==>
        && (!DerivesWorkspace(flags) ==> IsLive(sources, WriteSourceFor(flags)))
        && (flags.federatedRead.Some? ==> forall id | id in flags.federatedRead.value && !(DerivesWorkspace(flags) && id == WriteSourceFor(flags)) ::
              IsLive(sources, id)))
  {
    if FlagsResolve(flags) {
      ResolvesAsAsked(flags);
      var preset := ResolvePreset(flags).value;
      hide ResolvePreset, IsLive, FlagsResolve, WriteSourceFor;
      forall id ensures id in ToCheck(preset) <==>
        || (id == WriteSourceFor(flags) && !DerivesWorkspace(flags))
        || (flags.federatedRead.Some? && id in flags.federatedRead.value && !(DerivesWorkspace(flags) && id == WriteSourceFor(flags)))
      {
      }
    }
  }

  /** Why nothing is committed: the first obstacle in the order in which the lane meets them. */
  ghost function Refusal(sources: map<string, Source>, clients: map<string, Client>, flags: Flags, columns: Columns, failure: TxFailure)
    : (r: Option<Reason>)
    ensures r.None? <==> CanRegister(sources, clients, flags, columns) && !Interrupted(flags, failure)
  {
    ResolvesAsAsked(flags);
    ChecksAsAsked(sources, flags);
    match ResolvePreset(flags)
    case Err(e) => Some(e)
    case Ok(preset) =>
      var fault := FirstFault(sources, ToCheck(preset));
      var taken := if preset.workspaceDerived then WorkspaceFault(sources, preset.writeSource) else None;
      if fault.Some? then fault
      else if !columns.scoped then Some(BrainTooOld)
      else if failure.AtLock? then Some(MintFailed)
      else if NameTaken(clients, flags.name, columns.deletedAt) then Some(DuplicateName)
      else if taken.Some? then taken
      else if Interrupted(flags, failure) then Some(MintFailed)
      else None
  }

  /** Why a committed registration is still reported as failed. */
  function LateFailure(flags: Flags, tail: Tail): Option<Reason> {
    match tail
    case Fine => None
    case AuditOrPrintThrows => Some(MintFailed)
    case ExchangeFails => Some(MintFailed)
    case ServeProvenOld => if flags.allowOldServe then None else Some(ServeTooOld)
  }

  /** The refusals a caller can act on: a brain without the columns, a taken name, a workspace in use. */
  lemma RefusesFor(sources: map<string, Source>, clients: map<string, Client>, flags: Flags, columns: Columns, failure: TxFailure)
    ensures var r, ws := Refusal(sources, clients, flags, columns, failure), WriteSourceFor(flags);
      var asked := FlagsResolve(flags) && FirstFault(sources, ToCheck(ResolvePreset(flags).value)).None?;
      var free := forall row | row in clients && clients[row].name == flags.name :: columns.deletedAt && clients[row].deleted;
      && (r == Some(BrainTooOld) <==> asked && !columns.scoped)
      && (r == Some(DuplicateName) <==> asked && columns.scoped && !failure.AtLock? && !free)
      && (r == Some(DirtySource) <==>
          && asked && columns.scoped && !failure.AtLock? && free
          && DerivesWorkspace(flags) && ws in sources && !sources[ws].archived
          && (sources[ws].hasLocalPath || sources[ws].pages > 0 || sources[ws].facts > 0 || sources[ws].files > 0))
  {
    ResolvesAsAsked(flags);
    hide ResolvePreset, ToCheck, FlagsResolve, WriteSourceFor;
    if ResolvePreset(flags).Ok? {
      FaultsAre(sources, ToCheck(ResolvePreset(flags).value));
    }
  }

  lemma {:induction false} FaultsAre(sources: map<string, Source>, ids: seq<string>)
    ensures FirstFault(sources, ids).Some? ==> FirstFault(sources, ids).value in {UnknownSource, ArchivedSource}
  {
    if ids != [] {
      FaultsAre(sources, ids[..|ids| - 1]);
    }
  }

  /** A committed registration is reported as failed when the audit, printing or the exchange fails, or the serve is too old. */
  lemma LateFailuresAre(flags: Flags, tail: Tail)
    ensures LateFailure(flags, tail) == None <==> tail.Fine? || (tail.ServeProvenOld? && flags.allowOldServe)
    ensures LateFailure(flags, tail) == Some(ServeTooOld) <==> tail.ServeProvenOld? && !flags.allowOldServe
    ensures LateFailure(flags, tail) == Some(MintFailed) <==> tail.AuditOrPrintThrows? || tail.ExchangeFails?
  {
  }

  /** What the caller is told once the client is committed. */
  function Report(flags: Flags, tail: Tail, id: string, grant: seq<string>): Outcome {
    match LateFailure(flags, tail)
    case None => Registered(id, grant)
    case Some(reason) => Failed(reason, Some(id))
  }

  /** The sources once a missing derived workspace has been created. */
  function WithWorkspace(sources: map<string, Source>, preset: Resolved): map<string, Source> {
    if preset.workspaceDerived && preset.writeSource !in sources then sources[preset.writeSource := NEW_SOURCE] else sources
  }

  lemma DerivedPreset(flags: Flags)
    requires ResolvePreset(flags).Ok? && ResolvePreset(flags).value.workspaceDerived
    ensures ResolvePreset(flags).value.writeSource == DerivedWorkspace(flags.name)
  {
  }

  class Brain {
    var sources: map<string, Source>
    var clients: map<string, Client>

    /** The read grant before the transaction, checked source by source, write source included. */
    method ResolveGrant(flags: Flags, preset: Resolved) returns (result: Result<seq<string>, Reason>)
      requires Parsed(flags) && ResolvePreset(flags) == Ok(preset)
      ensures result.Ok? <==> forall id | id in ToCheck(preset) :: IsLive(sources, id)
      ensures result.Err? ==> Some(result.error) == FirstFault(sources, ToCheck(preset))
      ensures result.Ok? ==> NoDup(result.value) && preset.writeSource in result.value
      ensures result.Ok? ==> forall id | id in result.value ::
        IsLive(sources, id) || (preset.workspaceDerived && id == preset.writeSource)
      ensures result.Ok? && preset.federatedRead.Snapshot? ==> forall id ::
        id in result.value <==> id == preset.writeSource || (IsLive(sources, id) && !IsWorkspace(id))
      ensures result.Ok? && preset.federatedRead.Explicit? ==> forall id ::
        id in result.value <==> id == preset.writeSource || id in preset.federatedRead.ids
    {
      ResolvedGrantIsDistinct(flags);
      var federated: seq<string>;
      if preset.federatedRead.Snapshot? {
        var all := ListOf(set id | id in sources && !sources[id].archived);
        var granted, excluded := SnapshotGrantSources(all);
        federated := granted;
        if preset.writeSource !in federated || flags.source.Some? {
          var bad := ValidateSourceIds(sources, [preset.writeSource]);
          if bad.Some? {
            return Err(bad.value);
          }
          assert preset.writeSource in [preset.writeSource];
        }
      } else {
        federated := preset.federatedRead.ids;
        var toCheck := if preset.workspaceDerived then Without(federated, preset.writeSource) else federated;
        if !preset.workspaceDerived {
          toCheck := toCheck + [preset.writeSource];
        }
        var bad := ValidateSourceIds(sources, toCheck);
        if bad.Some? {
          return Err(bad.value);
        }
        assert forall id | id in federated && !(preset.workspaceDerived && id == preset.writeSource) :: id in toCheck;
        assert !preset.workspaceDerived ==> preset.writeSource in toCheck;
      }
      if preset.writeSource !in federated {
        federated := federated + [preset.writeSource];
      }
      result := Ok(federated);
    }

    /**
     * The register lane. It commits exactly when nothing refuses it; then exactly one good
     * client is new, whatever fails afterwards, and otherwise nothing has changed.
     */
    method Register(flags: Flags, columns: Columns, newId: string, failure: TxFailure, tail: Tail) returns (out: Outcome)
      requires Parsed(flags) && newId !in clients
      modifies this
      ensures var refusal := Refusal(old(sources), old(clients), flags, columns, failure); refusal.Some? ==>
        out == Failed(refusal.value, None) && clients == old(clients) && sources == old(sources)
      ensures Refusal(old(sources), old(clients), flags, columns, failure).None? ==>
        && newId in clients
        && clients == old(clients)[newId := clients[newId]]
        && sources == WithWorkspace(old(sources), ResolvePreset(flags).value)
        && GoodClient(sources, flags, ResolvePreset(flags).value, clients[newId])
        && AsAsked(flags, old(sources), clients[newId])
        && out == Report(flags, tail, newId, clients[newId].grant)
      ensures out.Registered? <==>
        && old(CanRegister(sources, clients, flags, columns))
        && !Interrupted(flags, failure) && LateFailure(flags, tail).None?
    {
      var resolved := ResolvePreset(flags);
      if resolved.Err? {
        return Failed(resolved.error, None);
      }
      var preset := resolved.value;
      var grant := ResolveGrant(flags, preset);
      if grant.Err? {
        return Failed(grant.error, None);
      }
      if !columns.scoped {
        return Failed(BrainTooOld, None);
      }
      if preset.workspaceDerived {
        DerivedPreset(flags);
      }
      GrantIsAsAsked(flags, sources, Client(flags.name, preset.writeSource, grant.value, false));
      hide AsAsked, ResolvePreset, FirstFault, ToCheck, NameTaken, DerivedWorkspace, IsWorkspace, IsClean, NoDup;
      var txSources, txClients := sources, clients;
      if failure.AtLock? {
        return Failed(MintFailed, None);
      }
      if NameTaken(txClients, flags.name, columns.deletedAt) {
        return Failed(DuplicateName, None);
      }
      if preset.workspaceDerived {
        var ensured := EnsureWorkspaceSource(txSources, preset.writeSource);
        if ensured.Err? {
          return Failed(ensured.error, None);
        }
        if failure.AtWorkspace? {
          return Failed(MintFailed, None);
        }
        txSources := ensured.value.0;
        assert txSources == WithWorkspace(sources, preset);
      }
      if failure.AtInsert? {
        return Failed(MintFailed, None);
      }
      txClients := txClients[newId := Client(flags.name, preset.writeSource, grant.value, false)];
      if failure.AtCommit? {
        return Failed(MintFailed, None);
      }
      sources, clients := txSources, txClients;
      match tail {
        case Fine =>
        case AuditOrPrintThrows =>
          return Failed(MintFailed, Some(newId));
        case ExchangeFails =>
          return Failed(MintFailed, Some(newId));
        case ServeProvenOld =>
          if !flags.allowOldServe {
            return Failed(ServeTooOld, Some(newId));
          }
      }
      out := Registered(newId, grant.value);
    }
  }

  /** The client as its flags ask: it may read its write source and the sources requested, or those of a snapshot. */
  ghost predicate AsAsked(flags: Flags, sources: map<string, Source>, c: Client) {
    && c.writeSource == WriteSourceFor(flags)
    && forall id :: id in c.grant <==>
        || id == WriteSourceFor(flags)
        || match flags.federatedRead
           case Some(ids) => id in ids
           case None =>
             flags.preset.DailyDriver? && id in sources && !sources[id].archived && !EndsWith(id, "-workspace")
  }

  lemma GrantIsAsAsked(flags: Flags, sources: map<string, Source>, c: Client)
    requires ResolvePreset(flags).Ok? && c.writeSource == ResolvePreset(flags).value.writeSource
    requires var preset := ResolvePreset(flags).value;
      && (preset.federatedRead.Snapshot? ==> forall id ::
            id in c.grant <==> id == preset.writeSource || (IsLive(sources, id) && !IsWorkspace(id)))
      && (preset.federatedRead.Explicit? ==> forall id ::
            id in c.grant <==> id == preset.writeSource || id in preset.federatedRead.ids)
    ensures AsAsked(flags, sources, c)
  {
    ResolvesAsAsked(flags);
    hide ResolvePreset, FlagsResolve, WriteSourceFor;
  }

  /** What a client row promises its agent, as of the call that wrote it. */
  ghost predicate GoodClient(sources: map<string, Source>, flags: Flags, preset: Resolved, c: Client) {
    && c.name == flags.name && !c.deleted
    && c.writeSource == preset.writeSource
    && NoDup(c.grant) && c.writeSource in c.grant
    && (forall id | id in c.grant :: IsLive(sources, id))
    && (preset.federatedRead.Snapshot? ==> forall id | id in c.grant :: IsWorkspace(id) ==> id == c.writeSource)
    && (preset.workspaceDerived ==> c.writeSource == DerivedWorkspace(c.name) && IsClean(sources[c.writeSource]))
  }
}
