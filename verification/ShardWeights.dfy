/** scripts/mine-shard-weights.ts: per-file running times mined from the timestamps of a CI log. */
module ShardWeights {
  /** A test file's start in a job's log; timestamps are whole milliseconds. */
  datatype TimingEvent = TimingEvent(job: string, ts: int, file: string)

  function JobEvents(events: seq<TimingEvent>, job: string): (r: seq<TimingEvent>)
    ensures forall e | e in r :: e.job == job && e in events
  {
    if events == [] then [] else
      var e := events[|events| - 1];
      JobEvents(events[..|events| - 1], job) + if e.job == job then [e] else []
  }

  /** Position `i` of a job's own events times its file: the next event follows, and not earlier. */
  predicate TimesAt(own: seq<TimingEvent>, i: int, file: string, d: int) {
    0 <= i < |own| - 1 && own[i].file == file && d == own[i + 1].ts - own[i].ts && d >= 0
  }

  ghost predicate Times(own: seq<TimingEvent>, file: string, d: int) {
    exists i :: TimesAt(own, i, file, d)
  }

  ghost predicate Observed(events: seq<TimingEvent>, file: string, d: int) {
    exists job :: Times(JobEvents(events, job), file, d)
  }

  ghost predicate AllObserved(events: seq<TimingEvent>, w: map<string, nat>) {
    forall file | file in w :: Observed(events, file, w[file])
  }

  /** The mined weights: the files some job timed, each with the longest time observed. */
  ghost predicate AreWeights(events: seq<TimingEvent>, w: map<string, nat>) {
    && AllObserved(events, w)
    && (forall file, d | Observed(events, file, d) :: file in w && d <= w[file])
  }

  ghost predicate Grouped(events: seq<TimingEvent>, byJob: map<string, seq<TimingEvent>>) {
    forall job :: JobEvents(events, job) == if job in byJob then byJob[job] else []
  }

  lemma GroupStep(events: seq<TimingEvent>, byJob: map<string, seq<TimingEvent>>, e: TimingEvent)
    requires Grouped(events, byJob)
    ensures Grouped(events + [e], byJob[e.job := (if e.job in byJob then byJob[e.job] else []) + [e]])
  {
  }

  /** Each job's bucket holds its own events, in log order. */
  method GroupByJob(events: seq<TimingEvent>) returns (byJob: map<string, seq<TimingEvent>>)
    ensures Grouped(events, byJob)
  {
    byJob := map[];
    assert Grouped(events[..0], byJob);
    hide Grouped;
    for i := 0 to |events|
      invariant Grouped(events[..i], byJob)
    {
      var e := events[i];
      assert events[..i + 1] == events[..i] + [e];
      GroupStep(events[..i], byJob, e);
      byJob := byJob[e.job := (if e.job in byJob then byJob[e.job] else []) + [e]];
    }
    assert events[..|events|] == events;
  }

  method ComputeWeights(events: seq<TimingEvent>) returns (w: map<string, nat>)
    ensures AreWeights(events, w)
  {
    var byJob := GroupByJob(events);
    hide Observed, Times, JobEvents;
    w := map[];
    var todo := byJob.Keys;
    while todo != {}
      invariant todo <= byJob.Keys
      invariant AllObserved(events, w)
      invariant forall job, file, d | job in byJob.Keys - todo && Times(byJob[job], file, d) :: file in w && d <= w[file]
    {
      var job :| job in todo;
      ghost var attributed;
      w, attributed := AddJob(events, job, byJob[job], w);
      todo := todo - {job};
    }
    forall file, d | Observed(events, file, d) ensures file in w && d <= w[file] {
      var job := ObservingJob(events, file, d);
      assert job in byJob.Keys - todo;
    }
  }

  lemma ObservingJob(events: seq<TimingEvent>, file: string, d: int) returns (job: string)
    requires Observed(events, file, d)
    ensures Times(JobEvents(events, job), file, d) && JobEvents(events, job) != []
  {
    job :| Times(JobEvents(events, job), file, d);
  }

  /** The inner loop of `computeWeights`, over one job's events; `attributed` adds up the deltas it does not skip. */
  method AddJob(ghost events: seq<TimingEvent>, ghost job: string, own: seq<TimingEvent>, before: map<string, nat>)
    returns (w: map<string, nat>, ghost attributed: int)
    requires own == JobEvents(events, job)
    requires AllObserved(events, before)
    ensures AllObserved(events, w)
    ensures forall file | file in before :: file in w && before[file] <= w[file]
    ensures forall file, d | Times(own, file, d) :: file in w && d <= w[file]
    ensures attributed == Attributed(own)
  {
    hide JobEvents, AllObserved, Times, Recorded, Dominates, Attributed;
    w, attributed := before, 0;
    AtFirst(own, w);
    AttributedShort(own);
    var i := 0;
    while i + 1 < |own|
      invariant 0 <= i
      invariant AllObserved(events, w)
      invariant Dominates(w, before)
      invariant Recorded(own, i, w)
      invariant i < |own| ==> attributed == Attributed(own[..i + 1])
      invariant i >= |own| ==> attributed == Attributed(own)
    {
      var file := own[i].file;
      var delta := own[i + 1].ts - own[i].ts;
      ghost var was := w;
      AttributedStep(own, i);
      if delta >= 0 {
        attributed := attributed + delta;
        if file !in w || delta > w[file] {
          ObservedAt(events, job, i, w);
          w := w[file := delta];
        }
      }
      RecordedStep(own, i, was, w, before);
      i := i + 1;
    }
    RecordedAll(own, i, w);
    assert i < |own| ==> own[..i + 1] == own;
    assert forall file | file in before :: file in w && before[file] <= w[file] by { DominatesMeans(w, before); }
  }

  ghost predicate Dominates(w: map<string, nat>, before: map<string, nat>) {
    forall file | file in before :: file in w && before[file] <= w[file]
  }

  lemma DominatesMeans(w: map<string, nat>, before: map<string, nat>)
    requires Dominates(w, before)
    ensures forall file | file in before :: file in w && before[file] <= w[file]
  {
  }

  lemma AtFirst(own: seq<TimingEvent>, w: map<string, nat>)
    ensures Dominates(w, w) && Recorded(own, 0, w)
  {
  }

  lemma RecordedStep(own: seq<TimingEvent>, i: nat, was: map<string, nat>, w: map<string, nat>, before: map<string, nat>)
    requires i + 1 < |own| && Recorded(own, i, was) && Dominates(was, before)
    requires var file, delta := own[i].file, own[i + 1].ts - own[i].ts;
      w == if delta >= 0 && (file !in was || delta > was[file]) then was[file := delta] else was
    ensures Recorded(own, i + 1, w) && Dominates(w, before)
  {
  }

  ghost predicate Recorded(own: seq<TimingEvent>, upTo: nat, w: map<string, nat>) {
    forall k | 0 <= k < upTo && k + 1 < |own| && own[k].ts <= own[k + 1].ts ::
      own[k].file in w && own[k + 1].ts - own[k].ts <= w[own[k].file]
  }

  lemma RecordedAll(own: seq<TimingEvent>, upTo: nat, w: map<string, nat>)
    requires Recorded(own, upTo, w) && upTo + 1 >= |own|
    ensures forall file, d | Times(own, file, d) :: file in w && d <= w[file]
  {
  }

  lemma ObservedAt(events: seq<TimingEvent>, job: string, i: nat, w: map<string, nat>)
    requires var own := JobEvents(events, job); i + 1 < |own| && own[i].ts <= own[i + 1].ts
    requires AllObserved(events, w)
    ensures var own := JobEvents(events, job); AllObserved(events, w[own[i].file := own[i + 1].ts - own[i].ts])
  {
    hide JobEvents;
    var own := JobEvents(events, job);
    assert TimesAt(own, i, own[i].file, own[i + 1].ts - own[i].ts);
    assert Times(own, own[i].file, own[i + 1].ts - own[i].ts);
    assert Observed(events, own[i].file, own[i + 1].ts - own[i].ts);
  }

  lemma {:induction false} WeightsUnique(events: seq<TimingEvent>, w: map<string, nat>, v: map<string, nat>)
    requires AreWeights(events, w) && AreWeights(events, v)
    ensures w == v
  {
    forall file | file in w ensures file in v && w[file] <= v[file] {
      assert Observed(events, file, w[file]);
    }
    forall file | file in v ensures file in w && v[file] <= w[file] {
      assert Observed(events, file, v[file]);
    }
  }

  /** However the jobs' lines are interleaved in the log, the weights are the same. */
  lemma {:induction false} InterleavingIrrelevant(events: seq<TimingEvent>, others: seq<TimingEvent>, w: map<string, nat>, v: map<string, nat>)
    requires forall job :: JobEvents(events, job) == JobEvents(others, job)
    requires AreWeights(events, w) && AreWeights(others, v)
    ensures w == v
  {
    forall file, d ensures Observed(events, file, d) <==> Observed(others, file, d) {
      if Observed(events, file, d) {
        var job :| Times(JobEvents(events, job), file, d);
        assert Times(JobEvents(others, job), file, d);
      }
      if Observed(others, file, d) {
        var job :| Times(JobEvents(others, job), file, d);
        assert Times(JobEvents(events, job), file, d);
      }
    }
    assert AreWeights(events, v);
    WeightsUnique(events, w, v);
  }

  // ----- a job's deltas -----

  /** The time the loop attributes to a job's files, negative deltas skipped. */
  function Attributed(own: seq<TimingEvent>): int {
    if |own| < 2 then 0 else
      var n := |own|;
      var delta := own[n - 1].ts - own[n - 2].ts;
      Attributed(own[..n - 1]) + if delta >= 0 then delta else 0
  }

  lemma AttributedShort(own: seq<TimingEvent>)
    ensures |own| < 2 ==> Attributed(own) == 0
    ensures own != [] ==> Attributed(own[..1]) == 0
  {
  }

  lemma AttributedStep(own: seq<TimingEvent>, i: nat)
    requires i + 1 < |own|
    ensures var delta := own[i + 1].ts - own[i].ts;
      Attributed(own[..i + 2]) == Attributed(own[..i + 1]) + if delta >= 0 then delta else 0
  {
    assert own[..i + 2][..i + 1] == own[..i + 1];
  }

  predicate InOrder(own: seq<TimingEvent>) {
    forall i | 0 <= i && i + 1 < |own| :: own[i].ts <= own[i + 1].ts
  }

  /**
   * The deltas of a job telescope to last minus first exactly when its timestamps never
   * decrease; a log out of order attributes more time than the job took.
   */
  lemma {:induction false} DeltasTelescopeExactly(own: seq<TimingEvent>)
    requires own != []
    ensures Attributed(own) >= own[|own| - 1].ts - own[0].ts
    ensures Attributed(own) == own[|own| - 1].ts - own[0].ts <==> InOrder(own)
  {
    if |own| >= 2 {
      var n := |own|;
      var front := own[..n - 1];
      DeltasTelescopeExactly(front);
      assert InOrder(own) <==> InOrder(front) && own[n - 2].ts <= own[n - 1].ts by {
        if InOrder(own) {
          assert own[n - 2].ts <= own[(n - 2) + 1].ts;
          forall i | 0 <= i && i + 1 < |front| ensures front[i].ts <= front[i + 1].ts {
            assert own[i].ts <= own[i + 1].ts;
          }
        } else {
          var i :| 0 <= i && i + 1 < |own| && own[i].ts > own[i + 1].ts;
          assert i + 1 < n - 1 ==> front[i].ts > front[i + 1].ts;
        }
      }
    }
  }
}
