/**
 * src/commands/agent-logs.ts: `agent logs --follow`, which polls two growing histories and
 * prints what is newer than the newest timestamp printed so far.
 */
module FollowLogs {
  import opened Results
  import opened Sorting

  datatype Origin = Audit | Message

  /** An event: the history it is in, its place there, and its timestamp. */
  datatype Event = Event(origin: Origin, index: nat, ts: int)

  /** The timestamps of the two append-only histories in full; each poll sees a prefix of each. */
  datatype Histories = Histories(audit: seq<int>, messages: seq<int>)

  datatype View = View(audit: nat, messages: nat)

  predicate Fits(h: Histories, v: View) {
    v.audit <= |h.audit| && v.messages <= |h.messages|
  }

  function EventsOf(origin: Origin, ts: seq<int>): (es: seq<Event>)
    ensures |es| == |ts| && forall i | 0 <= i < |es| :: es[i] == Event(origin, i, ts[i])
  {
    seq(|ts|, i requires 0 <= i < |ts| => Event(origin, i, ts[i]))
  }

  predicate ByTs(a: Event, b: Event) { a.ts <= b.ts }

  /** The audit reader's list, which comes sorted, then the messages in their own order. */
  function Timeline(h: Histories, v: View): seq<Event>
    requires Fits(h, v)
  {
    Sort(ByTs, EventsOf(Audit, h.audit[..v.audit])) + EventsOf(Message, h.messages[..v.messages])
  }

  predicate Newer(ts: int, since: Option<int>) {
    since.None? || ts > since.value
  }

  function NewerOnes(es: seq<Event>, since: Option<int>): seq<Event> {
    if es == [] then [] else
      var e := es[|es| - 1];
      NewerOnes(es[..|es| - 1], since) + if Newer(e.ts, since) then [e] else []
  }

  /** The higher of the watermark and the timestamps printed. */
  function MaxTs(since: Option<int>, printed: seq<Event>): Option<int> {
    if printed == [] then since else
      var max := MaxTs(since, printed[..|printed| - 1]);
      var ts := printed[|printed| - 1].ts;
      if Newer(ts, max) then Some(ts) else max
  }

  function Poll(h: Histories, v: View, since: Option<int>): seq<Event>
    requires Fits(h, v)
  {
    Sort(ByTs, NewerOnes(Timeline(h, v), since))
  }

  method DumpSince(h: Histories, v: View, since: Option<int>) returns (printed: seq<Event>, maxTs: Option<int>)
    requires Fits(h, v)
    ensures printed == Poll(h, v, since) && maxTs == MaxTs(since, printed)
  {
    hide Sort, NewerOnes, MaxTs, EventsOf;
    var audit := Sort(ByTs, EventsOf(Audit, h.audit[..v.audit]));
    var messages := EventsOf(Message, h.messages[..v.messages]);
    var merged: seq<Event> := [];
    var timeline := audit + messages;
    NothingNewer(since);
    for i := 0 to |audit|
      invariant merged == NewerOnes(timeline[..i], since)
    {
      NewerStep(timeline, since, i);
      if since.Some? && audit[i].ts <= since.value {
        continue;
      }
      merged := merged + [audit[i]];
    }
    for i := 0 to |messages|
      invariant merged == NewerOnes(timeline[..|audit| + i], since)
    {
      NewerStep(timeline, since, |audit| + i);
      if since.Some? && messages[i].ts <= since.value {
        continue;
      }
      merged := merged + [messages[i]];
    }
    assert timeline[..|timeline|] == timeline == Timeline(h, v);
    var sorted := Sort(ByTs, merged);
    printed, maxTs := [], since;
    for i := 0 to |sorted|
      invariant printed == sorted[..i] && maxTs == MaxTs(since, printed)
    {
      MaxTsStep(since, printed, sorted[i]);
      printed := printed + [sorted[i]];
      if maxTs.None? || sorted[i].ts > maxTs.value {
        maxTs := Some(sorted[i].ts);
      }
    }
  }

  lemma NothingNewer(since: Option<int>)
    ensures NewerOnes([], since) == [] && MaxTs(since, []) == since
  {
  }

  lemma NewerStep(es: seq<Event>, since: Option<int>, i: nat)
    requires i < |es|
    ensures NewerOnes(es[..i + 1], since) == NewerOnes(es[..i], since) + if Newer(es[i].ts, since) then [es[i]] else []
  {
    assert es[..i + 1][..i] == es[..i];
  }

  lemma MaxTsStep(since: Option<int>, printed: seq<Event>, e: Event)
    ensures MaxTs(since, printed + [e]) == if Newer(e.ts, MaxTs(since, printed)) then Some(e.ts) else MaxTs(since, printed)
  {
    assert (printed + [e])[..|printed|] == printed;
  }

  // ----- a whole run -----

  /** The watermark after some polls, and everything printed by then. */
  function Watermark(h: Histories, views: seq<View>, since: Option<int>): Option<int>
    requires forall k | 0 <= k < |views| :: Fits(h, views[k])
  {
    if views == [] then since else
      var before := Watermark(h, views[..|views| - 1], since);
      MaxTs(before, Poll(h, views[|views| - 1], before))
  }

  function Output(h: Histories, views: seq<View>, since: Option<int>): seq<Event>
    requires forall k | 0 <= k < |views| :: Fits(h, views[k])
  {
    if views == [] then [] else
      var front := views[..|views| - 1];
      Output(h, front, since) + Poll(h, views[|views| - 1], Watermark(h, front, since))
  }

  /** The polls made: without --follow only the first; otherwise up to a terminal job status, or an abort. */
  function Polled(follow: bool, terminal: seq<bool>): nat {
    if !follow || terminal == [] then 0
    else if terminal[0] then 1
    else 1 + Polled(follow, terminal[1..])
  }

  lemma {:induction false} PolledBound(follow: bool, terminal: seq<bool>)
    ensures Polled(follow, terminal) <= |terminal|
  {
    if follow && terminal != [] {
      PolledBound(follow, terminal[1..]);
    }
  }

  lemma {:induction false} PolledFrom(terminal: seq<bool>, i: nat)
    requires i <= |terminal| && forall j | 0 <= j < i :: !terminal[j]
    ensures Polled(true, terminal) == i + Polled(true, terminal[i..])
  {
    if i == 0 {
      assert terminal[0..] == terminal;
    } else {
      PolledFrom(terminal[1..], i - 1);
      assert terminal[1..][i - 1..] == terminal[i..];
    }
  }

  /** Without --follow there is no poll; with it, polls go on up to the first terminal status. */
  lemma PolledExactly(follow: bool, terminal: seq<bool>)
    ensures !follow ==> Polled(follow, terminal) == 0
    ensures follow && (forall i | 0 <= i < |terminal| :: !terminal[i]) ==> Polled(follow, terminal) == |terminal|
    ensures follow ==> forall k | 0 <= k < |terminal| && terminal[k] && forall i | 0 <= i < k :: !terminal[i] ::
      Polled(follow, terminal) == k + 1
  {
    if follow {
      if forall i | 0 <= i < |terminal| :: !terminal[i] {
        PolledFrom(terminal, |terminal|);
      }
      forall k | 0 <= k < |terminal| && terminal[k] && forall i | 0 <= i < k :: !terminal[i]
        ensures Polled(follow, terminal) == k + 1
      {
        PolledFrom(terminal, k);
      }
    }
  }

  /** `runAgentLogs`: `views[0]` is the seeded dump, then one view and one status for each poll. */
  method RunAgentLogs(h: Histories, since: Option<int>, follow: bool, views: seq<View>, terminal: seq<bool>) returns (out: seq<Event>)
    requires |views| == |terminal| + 1 && forall k | 0 <= k < |views| :: Fits(h, views[k])
    ensures Polled(follow, terminal) <= |terminal|
    ensures out == Output(h, views[..1 + Polled(follow, terminal)], since)
  {
    hide Poll, MaxTs;
    PolledBound(follow, terminal);
    var lastTs := since;
    out, lastTs := DumpSince(h, views[0], lastTs);
    OutputStep(h, views, 0, since);
    assert [] + out == out;
    if !follow {
      return;
    }
    for i := 0 to |terminal|
      invariant forall j | 0 <= j < i :: !terminal[j]
      invariant out == Output(h, views[..1 + i], since)
      invariant lastTs == Watermark(h, views[..1 + i], since)
    {
      var printed;
      printed, lastTs := DumpSince(h, views[i + 1], lastTs);
      out := out + printed;
      OutputStep(h, views, i + 1, since);
      PolledFrom(terminal, i);
      if terminal[i] {
        return;
      }
    }
    PolledFrom(terminal, |terminal|);
  }

  lemma {:induction false} OutputStep(h: Histories, views: seq<View>, k: nat, since: Option<int>)
    requires k < |views| && forall j | 0 <= j < |views| :: Fits(h, views[j])
    ensures var before := Watermark(h, views[..k], since);
      && Output(h, views[..k + 1], since) == Output(h, views[..k], since) + Poll(h, views[k], before)
      && Watermark(h, views[..k + 1], since) == MaxTs(before, Poll(h, views[k], before))
    ensures Watermark(h, [], since) == since && Output(h, [], since) == []
    ensures views[..0] == []
  {
    assert views[..k + 1][..k] == views[..k];
  }

  // ----- what is printed -----

  predicate Visible(h: Histories, v: View, e: Event)
    requires Fits(h, v)
  {
    match e.origin
    case Audit => e.index < v.audit && h.audit[e.index] == e.ts
    case Message => e.index < v.messages && h.messages[e.index] == e.ts
  }

  lemma ByTsIsTotal()
    ensures TotalPreorder(ByTs)
  {
  }

  lemma EventsOfMembers(origin: Origin, ts: seq<int>, e: Event)
    ensures e in EventsOf(origin, ts) <==> e.origin == origin && e.index < |ts| && ts[e.index] == e.ts
    ensures NoDup(EventsOf(origin, ts))
  {
  }

  lemma SortMembers(es: seq<Event>, e: Event)
    ensures e in Sort(ByTs, es) <==> e in es
    ensures SortedBy(ByTs, Sort(ByTs, es))
    ensures NoDup(es) ==> NoDup(Sort(ByTs, es))
  {
    ByTsIsTotal();
    SortSorts(ByTs, es);
    assert e in Sort(ByTs, es) <==> e in multiset(Sort(ByTs, es));
    assert e in es <==> e in multiset(es);
    if NoDup(es) {
      NoDupOfPermutation(es, Sort(ByTs, es));
    }
  }

  lemma TimelineMembers(h: Histories, v: View, e: Event)
    requires Fits(h, v)
    ensures e in Timeline(h, v) <==> Visible(h, v, e)
    ensures NoDup(Timeline(h, v))
  {
    hide Sort, EventsOf;
    var audit, messages := EventsOf(Audit, h.audit[..v.audit]), EventsOf(Message, h.messages[..v.messages]);
    EventsOfMembers(Audit, h.audit[..v.audit], e);
    EventsOfMembers(Message, h.messages[..v.messages], e);
    SortMembers(audit, e);
    var sorted := Sort(ByTs, audit);
    forall i | 0 <= i < |sorted| ensures sorted[i].origin == Audit {
      SortMembers(audit, sorted[i]);
      EventsOfMembers(Audit, h.audit[..v.audit], sorted[i]);
    }
  }

  lemma {:induction false} NewerMembers(es: seq<Event>, since: Option<int>)
    ensures forall e :: e in NewerOnes(es, since) <==> e in es && Newer(e.ts, since)
    ensures NoDup(es) ==> NoDup(NewerOnes(es, since))
  {
    if es != [] {
      var front, e := es[..|es| - 1], es[|es| - 1];
      assert es == front + [e];
      NewerMembers(front, since);
      assert NoDup(es) ==> NoDup(front) && e !in front;
    }
  }

  /** One poll prints exactly the visible events newer than the watermark, each once, in order. */
  lemma PollPrints(h: Histories, v: View, since: Option<int>, e: Event)
    requires Fits(h, v)
    ensures e in Poll(h, v, since) <==> Visible(h, v, e) && Newer(e.ts, since)
    ensures NoDup(Poll(h, v, since)) && SortedBy(ByTs, Poll(h, v, since))
  {
    hide Timeline, NewerOnes, Sort, Visible;
    TimelineMembers(h, v, e);
    NewerMembers(Timeline(h, v), since);
    SortMembers(NewerOnes(Timeline(h, v), since), e);
  }

  lemma {:induction false} MaxTsBounds(since: Option<int>, printed: seq<Event>)
    ensures var max := MaxTs(since, printed);
      && (since.Some? ==> max.Some? && max.value >= since.value)
      && (forall e | e in printed :: max.Some? && e.ts <= max.value)
      && (max == since || exists e | e in printed :: max == Some(e.ts))
  {
    if printed != [] {
      var front, e := printed[..|printed| - 1], printed[|printed| - 1];
      assert printed == front + [e];
      MaxTsBounds(since, front);
      assert e in printed;
    }
  }

  lemma {:induction false} WatermarkBounds(h: Histories, views: seq<View>, since: Option<int>)
    requires forall k | 0 <= k < |views| :: Fits(h, views[k])
    ensures var max := Watermark(h, views, since);
      && (since.Some? ==> max.Some? && max.value >= since.value)
      && forall e | e in Output(h, views, since) :: max.Some? && e.ts <= max.value
  {
    hide Poll, MaxTs;
    if views != [] {
      var front, v := views[..|views| - 1], views[|views| - 1];
      WatermarkBounds(h, front, since);
      var before := Watermark(h, front, since);
      MaxTsBounds(before, Poll(h, v, before));
    }
  }

  lemma AppendNewer(a: seq<Event>, b: seq<Event>, mark: Option<int>)
    requires SortedBy(ByTs, a) && SortedBy(ByTs, b) && NoDup(a) && NoDup(b)
    requires forall e | e in a :: mark.Some? && e.ts <= mark.value
    requires forall e | e in b :: Newer(e.ts, mark)
    ensures SortedBy(ByTs, a + b) && NoDup(a + b)
  {
  }

  /** Over a whole run no event is printed twice and printed timestamps never decrease. */
  lemma {:induction false} PrintedOnceInOrder(h: Histories, views: seq<View>, since: Option<int>)
    requires forall k | 0 <= k < |views| :: Fits(h, views[k])
    ensures NoDup(Output(h, views, since)) && SortedBy(ByTs, Output(h, views, since))
  {
    hide Poll, MaxTs, NoDup;
    if views == [] {
      NothingPrinted(h, since);
    } else {
      var front, v := views[..|views| - 1], views[|views| - 1];
      PrintedOnceInOrder(h, front, since);
      WatermarkBounds(h, front, since);
      var before := Watermark(h, front, since);
      var printed := Poll(h, v, before);
      PollPrints(h, v, before, Event(Audit, 0, 0));
      forall e | e in printed ensures Newer(e.ts, before) {
        PollPrints(h, v, before, e);
      }
      AppendNewer(Output(h, front, since), printed, before);
    }
  }

  lemma NothingPrinted(h: Histories, since: Option<int>)
    ensures NoDup(Output(h, [], since))
  {
  }

  /** An event that has not appeared yet. */
  predicate Unseen(h: Histories, views: seq<View>, e: Event)
    requires forall k | 0 <= k < |views| :: Fits(h, views[k])
  {
    forall k | 0 <= k < |views| :: !Visible(h, views[k], e)
  }

  lemma {:induction false} PrintedWasVisible(h: Histories, views: seq<View>, since: Option<int>, e: Event)
    requires forall k | 0 <= k < |views| :: Fits(h, views[k])
    requires Unseen(h, views, e)
    ensures e !in Output(h, views, since)
  {
    hide Poll, Visible;
    if views != [] {
      var front, v := views[..|views| - 1], views[|views| - 1];
      PrintedWasVisible(h, front, since, e);
      PollPrints(h, v, Watermark(h, front, since), e);
    }
  }

  lemma {:induction false} OldNeverPrinted(h: Histories, views: seq<View>, k: nat, since: Option<int>, e: Event)
    requires k <= |views| && forall j | 0 <= j < |views| :: Fits(h, views[j])
    requires e !in Output(h, views[..k], since) && !Newer(e.ts, Watermark(h, views[..k], since))
    ensures e !in Output(h, views, since) && !Newer(e.ts, Watermark(h, views, since))
    decreases |views|
  {
    hide Poll, MaxTs;
    if k == |views| {
      assert views[..k] == views;
    } else {
      var front, v := views[..|views| - 1], views[|views| - 1];
      assert front[..k] == views[..k];
      OldNeverPrinted(h, front, k, since, e);
      var before := Watermark(h, front, since);
      PollPrints(h, v, before, e);
      MaxTsBounds(before, Poll(h, v, before));
    }
  }

  lemma {:induction false} OutputGrows(h: Histories, views: seq<View>, k: nat, since: Option<int>, e: Event)
    requires k <= |views| && forall j | 0 <= j < |views| :: Fits(h, views[j])
    requires e in Output(h, views[..k], since)
    ensures e in Output(h, views, since)
    decreases |views|
  {
    hide Poll;
    if k == |views| {
      assert views[..k] == views;
    } else {
      var front := views[..|views| - 1];
      assert front[..k] == views[..k];
      OutputGrows(h, front, k, since, e);
    }
  }

  /**
   * Exactly when an event is printed: it is, and at the very poll where it first appears,
   * if its timestamp is then above the watermark; otherwise no later poll prints it either.
   */
  lemma {:induction false} PrintedExactlyAtFirstSight(h: Histories, views: seq<View>, since: Option<int>, k: nat, e: Event)
    requires k < |views| && forall j | 0 <= j < |views| :: Fits(h, views[j])
    requires Unseen(h, views[..k], e) && Visible(h, views[k], e)
    ensures e in Output(h, views, since) <==> Newer(e.ts, Watermark(h, views[..k], since))
    ensures e in Output(h, views, since) <==> e in Poll(h, views[k], Watermark(h, views[..k], since))
  {
    hide Poll, MaxTs, Visible, Output, Watermark;
    var before := Watermark(h, views[..k], since);
    var printed := Poll(h, views[k], before);
    PrintedWasVisible(h, views[..k], since, e);
    PollPrints(h, views[k], before, e);
    OutputStep(h, views, k, since);
    MaxTsBounds(before, printed);
    if Newer(e.ts, before) {
      OutputGrows(h, views, k + 1, since, e);
    } else {
      OldNeverPrinted(h, views, k + 1, since, e);
    }
  }
}
