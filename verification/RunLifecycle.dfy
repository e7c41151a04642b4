/** What callers of StartRun and GetRun can rely on: the status machine of a run
    record, and when identical requests share one run. */
module RunLifecycle {
  import opened Wrappers
  import opened RunServer
  import opened RunProtocol

  // ---- Status ----

  ghost function StageOrder(stage: Stage): nat {
    match stage
    case NotStarted => 0
    case Import => 1
    case ExtractFeatures => 2
    case LinkBuildings => 3
  }

  /** One status step at most: pending, running, then one terminal status that
      nothing changes again; the start time is stamped on leaving pending. */
  ghost predicate MovesTo(a: Run, b: Run) {
    && (a.status.Terminal() ==> b == a)
    && (a.status == Running ==> b.status == Running || b.status.Terminal())
    && (a.status == Pending ==> b.status == Pending || b.status == Running)
    && (b.startedAt.Some? <==> b.status != Pending)
    && (a.startedAt.Some? ==> b.startedAt == a.startedAt)
    && b.createdAt == a.createdAt
    && StageOrder(a.stage) <= StageOrder(b.stage) <= StageOrder(a.stage) + 1
    && (b.error != "" ==> b.status == Failed)
  }

  lemma StatusStep(s: Sys, e: Event, i: RunId)
    requires Inv(s) && Enabled(s, e) && i in s.shared.runs
    ensures i in Next(s, e).shared.runs
    ensures MovesTo(s.shared.runs[i], Next(s, e).shared.runs[i])
  {
    assert RecordFits(s.threads[i].phase, s.shared.runs[i]);
    match e
    case Publish(j, _) => assert j !in s.shared.runs;
    case Accept(_, _) => assert |s.threads| !in s.shared.runs;
    case Start(j, _) => assert RecordFits(s.threads[j].phase, s.shared.runs[j]);
    case Enter(j, _) => assert RecordFits(s.threads[j].phase, s.shared.runs[j]);
    case Finish(j, _, _, _) => assert RecordFits(s.threads[j].phase, s.shared.runs[j]);
    case _ =>
  }

  /** A record is never lost, and a terminal one never changes, however long the
      schedule goes on. */
  lemma {:induction false} TerminalIsFinal(s: Sys, es: seq<Event>, i: RunId)
    requires Inv(s) && Exec(s, es).Some? && i in s.shared.runs
    ensures var t := Exec(s, es).value;
            && i in t.shared.runs
            && (s.shared.runs[i].status.Terminal() ==> t.shared.runs[i] == s.shared.runs[i])
            && (s.shared.runs[i].startedAt.Some? ==> t.shared.runs[i].startedAt == s.shared.runs[i].startedAt)
    decreases |es|
  {
    if es != [] {
      StatusStep(s, es[0], i);
      InvariantKept(s, es[0]);
      TerminalIsFinal(Next(s, es[0]), es[1..], i);
    }
  }

  /** What a run finishes with is what everyone polls from then on: its outcome, and a
      failure's error text. */
  lemma OutcomeIsReported(s: Sys, i: nat, now: Time, outcome: Status, error: string, later: seq<Event>)
    requires Inv(s) && Enabled(s, Finish(i, now, outcome, error))
    requires Exec(Next(s, Finish(i, now, outcome, error)), later).Some?
    ensures var t := Exec(Next(s, Finish(i, now, outcome, error)), later).value;
            && i in t.shared.runs
            && t.shared.runs[i].status == outcome && t.shared.runs[i].error == error && t.shared.runs[i].updatedAt == now
            && i in s.shared.runs && t.shared.runs[i].stage == s.shared.runs[i].stage
            && t.shared.runs[i].createdAt == s.shared.runs[i].createdAt
            && t.shared.runs[i].startedAt == s.shared.runs[i].startedAt
  {
    var e := Finish(i, now, outcome, error);
    assert RecordFits(s.threads[i].phase, s.shared.runs[i]);
    InvariantKept(s, e);
    TerminalIsFinal(Next(s, e), later, i);
  }

  lemma {:induction false} ExecConcat(s: Sys, first: seq<Event>, more: seq<Event>)
    requires Exec(s, first).Some?
    ensures Exec(s, first + more) == Exec(Exec(s, first).value, more)
    decreases |first|
  {
    if first == [] {
      assert first + more == more;
    } else {
      assert (first + more)[1..] == first[1..] + more;
      ExecConcat(Next(s, first[0]), first[1..], more);
    }
  }

  lemma OneMoreEvent(es: seq<Event>, e: Event)
    requires Exec(INITIAL, es).Some? && Enabled(Exec(INITIAL, es).value, e)
    ensures Exec(INITIAL, es + [e]) == Some(Next(Exec(INITIAL, es).value, e))
  {
    ExecConcat(INITIAL, es, [e]);
    assert [e][1..] == [];
    var s := Exec(INITIAL, es).value;
    assert Exec(s, [e]) == Exec(Next(s, e), [e][1..]);
  }

  /** The one run of a new server, when it works in its stage k. */
  lemma {:induction false} FirstRunWorks(key: Key, k: nat) returns (es: seq<Event>)
    requires k <= 3
    ensures Exec(INITIAL, es).Some?
    ensures var s := Exec(INITIAL, es).value; |s.threads| == 1 && s.threads[0].key == key && s.threads[0].phase == Working(k)
  {
    if k == 0 {
      es := [Accept(key, 0), Check(0), Start(0, 0)];
      var s1 := Next(INITIAL, es[0]);
      var s2 := Next(s1, es[1]);
      var s3 := Next(s2, es[2]);
      assert es[1..] == [es[1], es[2]] && es[1..][1..] == [es[2]] && es[1..][1..][1..] == [];
      assert Exec(s2, [es[2]]) == Some(s3);
      assert Exec(s1, [es[1], es[2]]) == Some(s3);
    } else {
      var before := FirstRunWorks(key, k - 1);
      OneMoreEvent(before, Enter(0, 0));
      es := before + [Enter(0, 0)];
    }
  }

  /** Every outcome can come about: a run can fail in each of its stages with any error
      text, and after the last it can have completed or found no data. */
  lemma EachOutcomeIsPossible(key: Key, k: nat, outcome: Status, error: string) returns (es: seq<Event>)
    requires 1 <= k <= 3
    requires outcome == Failed || (k == 3 && error == "" && (outcome == Completed || outcome == NoData))
    ensures Exec(INITIAL, es).Some?
    ensures var s := Exec(INITIAL, es).value;
            && 0 in s.shared.runs && s.shared.runs[0].status == outcome && s.shared.runs[0].error == error
            && s.shared.runs[0].stage == (match k case 1 => Import case 2 => ExtractFeatures case _ => LinkBuildings)
  {
    var before := FirstRunWorks(key, k);
    var s := Exec(INITIAL, before).value;
    InitialInvariant();
    InvariantReached(INITIAL, before);
    assert RecordFits(s.threads[0].phase, s.shared.runs[0]);
    var e := Finish(0, 0, outcome, error);
    OneMoreEvent(before, e);
    es := before + [e];
  }

  /** While it works, a run is polled as running since the moment it started, in the stage
      it entered last. */
  lemma ProgressIsReported(s: Sys, e: Event)
    requires Inv(s) && Enabled(s, e) && (e.Publish? || e.Start? || e.Enter?)
    ensures var t, i := Next(s, e), e.run;
            && i in t.shared.runs
            && match e
               case Publish(_, now) => t.shared.runs[i] == Run(Pending, "", NotStarted, now, None, now)
               case Start(_, now) =>
                 && t.shared.runs[i].status == Running && t.shared.runs[i].startedAt == Some(now)
                 && t.shared.runs[i].stage == NotStarted && t.shared.runs[i].updatedAt == now
               case Enter(_, now) =>
                 && t.shared.runs[i].status == Running && t.shared.runs[i].updatedAt == now
                 && t.shared.runs[i].stage == (match s.threads[i].phase.stages
                                               case 0 => Import
                                               case 1 => ExtractFeatures
                                               case _ => LinkBuildings)
               case _ => true
  {
    if !e.Publish? {
      assert RecordFits(s.threads[e.run].phase, s.shared.runs[e.run]);
    }
  }

  /** In every reachable state the start time is set exactly on runs that have left
      pending, and a released run has a terminal record. */
  lemma RecordsTellThePhase(es: seq<Event>, i: nat)
    requires Exec(INITIAL, es).Some? && i < |Exec(INITIAL, es).value.threads|
    ensures var s := Exec(INITIAL, es).value;
            && (s.threads[i].phase != Registered <==> i in s.shared.runs)
            && (i in s.shared.runs ==>
                  && (s.shared.runs[i].startedAt.Some? <==> s.shared.runs[i].status != Pending)
                  && (s.shared.runs[i].status.Terminal() <==> s.threads[i].phase in {Finished, Released}))
  {
    InitialInvariant();
    InvariantReached(INITIAL, es);
  }

  // ---- De-duplication ----

  predicate Unreleased(s: Sys, i: nat) {
    i < |s.threads| && s.threads[i].phase != Released
  }

  ghost predicate DistinctKeys(s: Sys) {
    forall i: nat, j: nat :: i < j && Unreleased(s, i) && Unreleased(s, j) ==> s.threads[i].key != s.threads[j].key
  }

  /** The in-flight table is exactly the map from the unreleased runs' keys to them. */
  ghost predicate InflightExact(s: Sys) {
    && (forall i: nat :: Unreleased(s, i) ==>
          s.threads[i].key in s.shared.inflight && s.shared.inflight[s.threads[i].key] == i)
    && (forall key :: key in s.shared.inflight ==>
          Unreleased(s, s.shared.inflight[key]) && s.threads[s.shared.inflight[key]].key == key)
  }

  /** The one step that can break the table: a caller whose joined record had
      vanished registers anew while the key is in flight. */
  predicate Overwrites(s: Sys, e: Event)
    requires Enabled(s, e)
  {
    e.RegisterAnew? && s.callers[e.caller].key in s.shared.inflight
  }

  /** A step that registers and releases nothing. */
  lemma ExactWhenQuiet(s: Sys, t: Sys)
    requires InflightExact(s) && t.shared.inflight == s.shared.inflight && |t.threads| == |s.threads|
    requires forall i :: 0 <= i < |s.threads| ==>
      t.threads[i].key == s.threads[i].key && (t.threads[i].phase == Released <==> s.threads[i].phase == Released)
    ensures InflightExact(t)
  {
    forall i: nat | Unreleased(t, i)
      ensures t.threads[i].key in t.shared.inflight && t.shared.inflight[t.threads[i].key] == i
    {
      assert Unreleased(s, i);
    }
    forall key | key in t.shared.inflight
      ensures Unreleased(t, t.shared.inflight[key]) && t.threads[t.shared.inflight[key]].key == key
    {
      assert Unreleased(s, s.shared.inflight[key]);
    }
  }

  /** A new run under a key that is not in flight. */
  lemma ExactWithNew(s: Sys, t: Sys, key: Key, phase: Phase)
    requires InflightExact(s) && key !in s.shared.inflight && phase != Released
    requires t.threads == s.threads + [Thread(key, phase)]
    requires t.shared.inflight == s.shared.inflight[key := |s.threads|]
    ensures InflightExact(t)
  {
    forall i: nat | Unreleased(t, i)
      ensures t.threads[i].key in t.shared.inflight && t.shared.inflight[t.threads[i].key] == i
    {
      if i < |s.threads| {
        assert Unreleased(s, i);
      }
    }
    forall k | k in t.shared.inflight
      ensures Unreleased(t, t.shared.inflight[k]) && t.threads[t.shared.inflight[k]].key == k
    {
      if k != key {
        assert Unreleased(s, s.shared.inflight[k]);
      }
    }
  }

  lemma ExactAfterRelease(s: Sys, t: Sys, r: nat)
    requires InflightExact(s) && Unreleased(s, r) && t.threads == SetPhase(s.threads, r, Released)
    requires t.shared.inflight == s.shared.inflight - {s.threads[r].key}
    ensures InflightExact(t)
  {
    forall i: nat | Unreleased(t, i)
      ensures t.threads[i].key in t.shared.inflight && t.shared.inflight[t.threads[i].key] == i
    {
      assert i != r && Unreleased(s, i);
    }
    forall k | k in t.shared.inflight
      ensures Unreleased(t, t.shared.inflight[k]) && t.threads[t.shared.inflight[k]].key == k
    {
      assert Unreleased(s, s.shared.inflight[k]);
    }
  }

  lemma ExactKept(s: Sys, e: Event)
    requires InflightExact(s) && Enabled(s, e) && !Overwrites(s, e)
    ensures InflightExact(Next(s, e))
  {
    var t := Next(s, e);
    match e
    case Request(key) =>
      if key in s.shared.inflight {
        ExactWhenQuiet(s, t);
      } else {
        ExactWithNew(s, t, key, Registered);
      }
    case RegisterAnew(c) => ExactWithNew(s, t, s.callers[c].key, Registered);
    case Accept(key, _) =>
      if key in s.shared.inflight {
        ExactWhenQuiet(s, t);
      } else {
        ExactWithNew(s, t, key, Wanting);
      }
    case Release(i) => ExactAfterRelease(s, t, i);
    case _ => ExactWhenQuiet(s, t);
  }

  lemma OverwriteDuplicates(s: Sys, e: Event)
    requires Inv(s) && Enabled(s, e) && Overwrites(s, e)
    ensures !DistinctKeys(Next(s, e))
  {
    var t, key := Next(s, e), s.callers[e.caller].key;
    var i := s.shared.inflight[key];
    assert s.threads[i].key == key && s.threads[i].phase != Released;
    assert Unreleased(t, i) && Unreleased(t, |s.threads|) && i < |s.threads|;
    assert t.threads[i].key == t.threads[|s.threads|].key;
  }

  ghost predicate DistinctThroughout(s: Sys, es: seq<Event>)
    decreases |es|
  {
    DistinctKeys(s) && (es != [] && Enabled(s, es[0]) ==> DistinctThroughout(Next(s, es[0]), es[1..]))
  }

  predicate NeverOverwrites(s: Sys, es: seq<Event>)
    decreases |es|
  {
    es != [] && Enabled(s, es[0]) ==> !Overwrites(s, es[0]) && NeverOverwrites(Next(s, es[0]), es[1..])
  }

  /** At the code's own grain, identical requests never run twice at once along a
      schedule if and only if no caller ever registers anew over a key in flight. */
  lemma {:induction false} DedupExactlyWithoutOverwrite(s: Sys, es: seq<Event>)
    requires Inv(s) && InflightExact(s) && Exec(s, es).Some?
    ensures DistinctThroughout(s, es) <==> NeverOverwrites(s, es)
    ensures NeverOverwrites(s, es) ==> InflightExact(Exec(s, es).value)
    decreases |es|
  {
    if es != [] {
      InvariantKept(s, es[0]);
      if Overwrites(s, es[0]) {
        OverwriteDuplicates(s, es[0]);
      } else {
        ExactKept(s, es[0]);
        DedupExactlyWithoutOverwrite(Next(s, es[0]), es[1..]);
      }
    }
  }

  /** The window is real: a second identical request between the key's and the
      record's publication starts a second run. Exclusion still holds. */
  lemma DuplicateRunTrace(key: Key) returns (es: seq<Event>)
    ensures Exec(INITIAL, es).Some?
    ensures var s := Exec(INITIAL, es).value;
            Unreleased(s, 0) && Unreleased(s, 1) && s.threads[0].key == key == s.threads[1].key
            && !DistinctKeys(s) && Exclusive(s)
  {
    es := [Request(key), Request(key), LookUp(0), RegisterAnew(0)];
    var s1 := Next(INITIAL, es[0]);
    var s2 := Next(s1, es[1]);
    var s3 := Next(s2, es[2]);
    var s4 := Next(s3, es[3]);
    assert es[1..] == [es[1], es[2], es[3]] && es[1..][1..] == [es[2], es[3]];
    assert es[1..][1..][1..] == [es[3]] && es[1..][1..][1..][1..] == [];
    assert Exec(s3, [es[3]]) == Some(s4);
    assert Exec(s2, [es[2], es[3]]) == Some(s4);
    assert Unreleased(s4, 0) && Unreleased(s4, 1);
    ExclusionAlways(es);
  }

  // ---- Registration as one step ----

  ghost predicate Coarse(e: Event) {
    e.Accept? || e.Check? || e.Start? || e.Enter? || e.Finish? || e.Release?
  }

  /** Accept is the two writes of StartRun with nothing in between. */
  lemma AcceptIsRequestThenPublish(s: Sys, key: Key, now: Time)
    requires key !in s.shared.inflight
    ensures Enabled(Next(s, Request(key)), Publish(|s.threads|, now))
    ensures Next(Next(s, Request(key)), Publish(|s.threads|, now)) == Next(s, Accept(key, now))
  {
  }

  /** With registration as one step, on every schedule: unreleased runs have
      pairwise distinct keys, the in-flight table is exactly their index, and
      every accepted run can be polled. */
  lemma CoarseDedup(es: seq<Event>)
    requires Exec(INITIAL, es).Some? && forall k :: 0 <= k < |es| ==> Coarse(es[k])
    ensures var s := Exec(INITIAL, es).value;
            InflightExact(s) && DistinctKeys(s) && forall i: nat :: i < |s.threads| ==> i in s.shared.runs
  {
    InitialInvariant();
    CoarseNeverOverwrites(INITIAL, es);
    DedupExactlyWithoutOverwrite(INITIAL, es);
    InvariantReached(INITIAL, es);
  }

  lemma {:induction false} CoarseNeverOverwrites(s: Sys, es: seq<Event>)
    requires Exec(s, es).Some? && forall k :: 0 <= k < |es| ==> Coarse(es[k])
    requires forall i: nat :: i < |s.threads| ==> s.threads[i].phase != Registered
    ensures NeverOverwrites(s, es)
    ensures forall i: nat :: i < |Exec(s, es).value.threads| ==> Exec(s, es).value.threads[i].phase != Registered
    decreases |es|
  {
    if es != [] {
      assert Coarse(es[0]);
      CoarseNeverOverwrites(Next(s, es[0]), es[1..]);
    }
  }

  /** What a step does to a key in flight while the table is exact. */
  lemma ExactJoin(s: Sys, e: Event, key: Key)
    requires Inv(s) && InflightExact(s) && Enabled(s, e) && Coarse(e) && key in s.shared.inflight
    ensures var run, t := s.shared.inflight[key], Next(s, e);
            && (e.Accept? && e.key == key ==> t == s.(callers := s.callers + [Answered(run)]))
            && (key !in t.shared.inflight ==> e == Release(run))
            && (key in t.shared.inflight ==> t.shared.inflight[key] == run)
  {
    if e.Release? {
      assert Unreleased(s, e.run);
    }
  }

  /** Then an identical request is answered with the one run that serves its key,
      and a key leaves the table only when its run has a terminal record. */
  lemma CoarseJoin(es: seq<Event>, e: Event, key: Key)
    requires Exec(INITIAL, es).Some? && forall k :: 0 <= k < |es| ==> Coarse(es[k])
    requires var s := Exec(INITIAL, es).value; Coarse(e) && Enabled(s, e) && key in s.shared.inflight
    ensures var s, t := Exec(INITIAL, es).value, Next(Exec(INITIAL, es).value, e);
            var run := s.shared.inflight[key];
            && run in s.shared.runs
            && (e.Accept? && e.key == key ==> t == s.(callers := s.callers + [Answered(run)]))
            && (key !in t.shared.inflight ==> e == Release(run) && s.shared.runs[run].status.Terminal())
            && (key in t.shared.inflight ==> t.shared.inflight[key] == run)
  {
    CoarseDedup(es);
    InitialInvariant();
    InvariantReached(INITIAL, es);
    var s := Exec(INITIAL, es).value;
    assert Unreleased(s, s.shared.inflight[key]);
    ExactJoin(s, e, key);
  }
}
