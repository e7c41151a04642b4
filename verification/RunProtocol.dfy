/** Every interleaving of StartRun callers and run goroutines over the server's
    shared state. One event is one critical section of RunServer (or one status
    write), so the grain is the code's own locking. */
module RunProtocol {
  import opened Geometry
  import opened Wrappers
  import opened RunServer
  import opened Sequences

  /** Where executeRun stands. Registered is the window in which the in-flight key
      is visible but the run record is not. Acquired holds the region before the
      status says so; Working counts the stages entered. */
  datatype Phase = Registered | Wanting | Acquired | Working(stages: nat) | Finished | Released {
    predicate Holds() {
      Acquired? || Working? || Finished?
    }
  }

  /** The goroutine of run i is threads[i]. */
  datatype Thread = Thread(key: Key, phase: Phase)

  /** A StartRun call that found its key in flight. */
  datatype Caller = Looking(key: Key, id: RunId) | Vanished(key: Key) | Answered(id: RunId)

  datatype Sys = Sys(shared: Shared, threads: seq<Thread>, callers: seq<Caller>)

  datatype Event =
    | Request(key: Key)                       // StartRun, first critical section
    | LookUp(caller: nat)                     // its GetRun
    | RegisterAnew(caller: nat)               // its second critical section
    | Publish(run: nat, now: Time)            // the record write, then the goroutine starts
    | Accept(key: Key, now: Time)             // StartRun as one step: the coarse grain
    | Check(run: nat)
    | Start(run: nat, now: Time)
    | Enter(run: nat, now: Time)
    | Finish(run: nat, now: Time, outcome: Status, error: string)
    | Release(run: nat)

  const INITIAL := Sys(Shared([], {}, map[], map[]), [], [])

  function StageAt(stages: nat): Stage {
    match stages
    case 0 => NotStarted
    case 1 => Import
    case 2 => ExtractFeatures
    case _ => LinkBuildings
  }

  predicate Enabled(s: Sys, e: Event) {
    match e
    case Request(_) => true
    case LookUp(c) => c < |s.callers| && s.callers[c].Looking?
    case RegisterAnew(c) => c < |s.callers| && s.callers[c].Vanished?
    case Publish(i, _) => i < |s.threads| && s.threads[i].phase == Registered
    case Accept(key, _) => true
    case Check(i) => i < |s.threads| && s.threads[i].phase == Wanting && i !in s.shared.waiting
    case Start(i, _) => i < |s.threads| && s.threads[i].phase == Acquired
    case Enter(i, _) => i < |s.threads| && s.threads[i].phase.Working? && s.threads[i].phase.stages < 3
    case Finish(i, _, outcome, error) =>
      // Only a failure carries an error, and it can end any stage; the row count
      // that tells completed from no_data is read after the last one.
      && i < |s.threads| && s.threads[i].phase.Working? && s.threads[i].phase.stages > 0
      && outcome.Terminal()
      && (outcome != Failed ==> s.threads[i].phase.stages == 3 && error == "")
    case Release(i) => i < |s.threads| && s.threads[i].phase == Finished
  }

  function SetPhase(threads: seq<Thread>, i: nat, phase: Phase): (r: seq<Thread>)
    requires i < |threads|
  {
    threads[i := threads[i].(phase := phase)]
  }

  function Next(s: Sys, e: Event): Sys
    requires Enabled(s, e)
  {
    var newId := |s.threads|;
    match e
    case Request(key) =>
      if key in s.shared.inflight then s.(callers := s.callers + [Looking(key, s.shared.inflight[key])])
      else s.(shared := Register(s.shared, key, newId), threads := s.threads + [Thread(key, Registered)])
    case LookUp(c) =>
      var look := s.callers[c];
      s.(callers := s.callers[c := if look.id in s.shared.runs then Answered(look.id) else Vanished(look.key)])
    case RegisterAnew(c) =>
      var key := s.callers[c].key;
      Sys(Register(s.shared, key, newId), s.threads + [Thread(key, Registered)], s.callers[c := Answered(newId)])
    case Publish(i, now) =>
      s.(shared := RunServer.Publish(s.shared, i, now), threads := SetPhase(s.threads, i, Wanting))
    case Accept(key, now) =>
      if key in s.shared.inflight then s.(callers := s.callers + [Answered(s.shared.inflight[key])])
      else s.(shared := RunServer.Publish(Register(s.shared, key, newId), newId, now),
              threads := s.threads + [Thread(key, Wanting)])
    case Check(i) =>
      var want := s.threads[i].key.Hold();
      s.(shared := CheckRegion(s.shared, i, want),
         threads := if Blocked(s.shared.active, want) then s.threads else SetPhase(s.threads, i, Acquired))
    case Start(i, now) =>
      s.(shared := SetRunStatus(s.shared, i, Running, "", now), threads := SetPhase(s.threads, i, Working(0)))
    case Enter(i, now) =>
      var k := s.threads[i].phase.stages + 1;
      s.(shared := SetRunStage(s.shared, i, StageAt(k), now), threads := SetPhase(s.threads, i, Working(k)))
    case Finish(i, now, outcome, error) =>
      s.(shared := SetRunStatus(s.shared, i, outcome, error, now), threads := SetPhase(s.threads, i, Finished))
    case Release(i) =>
      s.(shared := ReleaseRegion(s.shared, s.threads[i].key), threads := SetPhase(s.threads, i, Released))
  }

  /** The state after a schedule, or None when some event of it was not enabled. */
  function Exec(s: Sys, es: seq<Event>): Option<Sys>
    decreases |es|
  {
    if es == [] then Some(s)
    else if Enabled(s, es[0]) then Exec(Next(s, es[0]), es[1..])
    else None
  }

  // ---- The invariant ----

  ghost function Holders(threads: seq<Thread>, r: Region): set<nat> {
    set i: nat | i < |threads| && threads[i].phase.Holds() && threads[i].key.Hold() == r
  }

  /** active is, as a multiset, the regions of the runs between acquire and release. */
  ghost predicate ActiveIsHolds(s: Sys) {
    forall r :: multiset(s.shared.active)[r] == |Holders(s.threads, r)|
  }

  ghost predicate PairwiseFree(active: seq<Region>) {
    forall i, j :: 0 <= i < j < |active| ==> !active[i].Conflicts(active[j])
  }

  /** No wake-up is lost: whoever sleeps is still blocked. */
  ghost predicate SleepersBlocked(s: Sys) {
    forall i :: i in s.shared.waiting ==>
      i < |s.threads| && s.threads[i].phase == Wanting && Blocked(s.shared.active, s.threads[i].key.Hold())
  }

  /** What the record of a run in this phase looks like. */
  predicate RecordFits(phase: Phase, run: Run) {
    match phase
    case Registered => false
    case Wanting => run.status == Pending && run.startedAt == None && run.stage == NotStarted && run.error == ""
    case Acquired => run.status == Pending && run.startedAt == None && run.stage == NotStarted && run.error == ""
    case Working(k) =>
      k <= 3 && run.status == Running && run.startedAt.Some? && run.stage == StageAt(k) && run.error == ""
    case _ =>
      && run.status.Terminal() && run.startedAt.Some? && run.stage != NotStarted
      && (run.status != Failed ==> run.error == "" && run.stage == LinkBuildings)
  }

  ghost predicate RecordsFit(s: Sys) {
    && (forall i :: i in s.shared.runs ==> i < |s.threads| && RecordFits(s.threads[i].phase, s.shared.runs[i]))
    && (forall i: nat :: i < |s.threads| && s.threads[i].phase != Registered ==> i in s.shared.runs)
  }

  ghost predicate InflightLive(s: Sys) {
    forall key :: key in s.shared.inflight ==>
      && s.shared.inflight[key] < |s.threads|
      && s.threads[s.shared.inflight[key]].key == key
      && s.threads[s.shared.inflight[key]].phase != Released
  }

  ghost predicate Inv(s: Sys) {
    ActiveIsHolds(s) && PairwiseFree(s.shared.active) && SleepersBlocked(s) && RecordsFit(s) && InflightLive(s)
  }

  lemma HoldersUnchanged(a: seq<Thread>, b: seq<Thread>, r: Region)
    requires |a| <= |b|
    requires forall i :: 0 <= i < |a| ==> a[i].key == b[i].key && (a[i].phase.Holds() <==> b[i].phase.Holds())
    requires forall i :: |a| <= i < |b| ==> !b[i].phase.Holds()
    ensures Holders(a, r) == Holders(b, r)
  {
  }

  lemma ActiveAfterQuietStep(s: Sys, t: Sys)
    requires ActiveIsHolds(s) && s.shared.active == t.shared.active
    requires |s.threads| <= |t.threads|
    requires forall i :: 0 <= i < |s.threads| ==>
      s.threads[i].key == t.threads[i].key && (s.threads[i].phase.Holds() <==> t.threads[i].phase.Holds())
    requires forall i :: |s.threads| <= i < |t.threads| ==> !t.threads[i].phase.Holds()
    ensures ActiveIsHolds(t)
  {
    forall r ensures multiset(t.shared.active)[r] == |Holders(t.threads, r)| {
      HoldersUnchanged(s.threads, t.threads, r);
    }
  }

  /** One run starting to hold its region. */
  lemma HolderMore(a: seq<Thread>, b: seq<Thread>, i: nat, r: Region)
    requires i < |a| == |b| && a[i].key == b[i].key && !a[i].phase.Holds() && b[i].phase.Holds()
    requires forall j :: 0 <= j < |a| && j != i ==> a[j] == b[j]
    ensures |Holders(b, r)| == |Holders(a, r)| + if a[i].key.Hold() == r then 1 else 0
  {
    if a[i].key.Hold() == r {
      assert Holders(b, r) == Holders(a, r) + {i};
    } else {
      assert Holders(b, r) == Holders(a, r);
    }
  }

  lemma ActiveAfterAcquire(s: Sys, i: nat)
    requires ActiveIsHolds(s) && Enabled(s, Check(i)) && !Blocked(s.shared.active, s.threads[i].key.Hold())
    ensures ActiveIsHolds(Next(s, Check(i)))
  {
    var t, mine := Next(s, Check(i)), s.threads[i].key.Hold();
    forall r ensures multiset(t.shared.active)[r] == |Holders(t.threads, r)| {
      HolderMore(s.threads, t.threads, i, r);
    }
  }

  lemma ActiveAfterRelease(s: Sys, i: nat)
    requires ActiveIsHolds(s) && Enabled(s, Release(i))
    ensures s.threads[i].key.Hold() in s.shared.active
    ensures ActiveIsHolds(Next(s, Release(i)))
  {
    var t, mine := Next(s, Release(i)), s.threads[i].key.Hold();
    assert i in Holders(s.threads, mine);
    assert mine in multiset(s.shared.active);
    RemoveFirstDropsOne(s.shared.active, mine);
    forall r ensures multiset(t.shared.active)[r] == |Holders(t.threads, r)| {
      HolderMore(t.threads, s.threads, i, r);
    }
  }

  lemma FreeAfterRemoval(active: seq<Region>, r: Region)
    requires PairwiseFree(active) && r in active
    ensures PairwiseFree(RemoveFirst(active, r))
  {
    var gap := RemoveFirstIsOneGap(active, r);
    var rest := RemoveFirst(active, r);
    forall i, j | 0 <= i < j < |rest| ensures !rest[i].Conflicts(rest[j]) {
      assert rest[i] == active[if i < gap then i else i + 1];
      assert rest[j] == active[if j < gap then j else j + 1];
    }
  }

  /** Only Check can extend the active list and only Release can shorten it. */
  lemma LockInvariant(s: Sys, e: Event)
    requires Inv(s) && Enabled(s, e)
    ensures ActiveIsHolds(Next(s, e)) && PairwiseFree(Next(s, e).shared.active)
  {
    match e
    case Check(i) =>
      if Blocked(s.shared.active, s.threads[i].key.Hold()) {
        ActiveAfterQuietStep(s, Next(s, e));
      } else {
        ActiveAfterAcquire(s, i);
      }
    case Release(i) =>
      ActiveAfterRelease(s, i);
      FreeAfterRemoval(s.shared.active, s.threads[i].key.Hold());
    case _ => ActiveAfterQuietStep(s, Next(s, e));
  }

  lemma SleepInvariant(s: Sys, e: Event)
    requires Inv(s) && Enabled(s, e)
    ensures SleepersBlocked(Next(s, e))
  {
    var t := Next(s, e);
    forall i | i in t.shared.waiting
      ensures i < |t.threads| && t.threads[i].phase == Wanting && Blocked(t.shared.active, t.threads[i].key.Hold())
    {
      var want := t.threads[i].key.Hold();
      if i in s.shared.waiting {
        var k :| 0 <= k < |s.shared.active| && s.shared.active[k].Conflicts(want);
        assert t.shared.active[k].Conflicts(want);
      }
    }
  }

  lemma RecordsAfterWrite(s: Sys, t: Sys, i: nat, phase: Phase, run: Run)
    requires RecordsFit(s) && i < |s.threads|
    requires t.threads == SetPhase(s.threads, i, phase) && t.shared.runs == s.shared.runs[i := run]
    requires RecordFits(phase, run)
    ensures RecordsFit(t)
  {
  }

  lemma RecordInvariant(s: Sys, e: Event)
    requires Inv(s) && Enabled(s, e)
    ensures RecordsFit(Next(s, e))
  {
    var t := Next(s, e);
    match e
    case Request(_) =>
    case LookUp(_) =>
    case RegisterAnew(_) =>
    case Accept(_, _) =>
    case Publish(i, _) => RecordsAfterWrite(s, t, i, Wanting, t.shared.runs[i]);
    case Check(i) =>
      if t.threads != s.threads {
        RecordsAfterWrite(s, t, i, Acquired, s.shared.runs[i]);
      }
    case Start(i, _) => RecordsAfterWrite(s, t, i, Working(0), t.shared.runs[i]);
    case Enter(i, _) => RecordsAfterWrite(s, t, i, t.threads[i].phase, t.shared.runs[i]);
    case Finish(i, _, _, _) => RecordsAfterWrite(s, t, i, Finished, t.shared.runs[i]);
    case Release(i) => RecordsAfterWrite(s, t, i, Released, s.shared.runs[i]);
  }

  lemma InflightInvariant(s: Sys, e: Event)
    requires Inv(s) && Enabled(s, e)
    ensures InflightLive(Next(s, e))
  {
    var t := Next(s, e);
    forall key | key in t.shared.inflight
      ensures t.shared.inflight[key] < |t.threads| && t.threads[t.shared.inflight[key]].key == key
      ensures t.threads[t.shared.inflight[key]].phase != Released
    {
      if key in s.shared.inflight && t.shared.inflight[key] == s.shared.inflight[key] {
        assert s.threads[s.shared.inflight[key]].key == key;
      }
    }
  }

  lemma InvariantKept(s: Sys, e: Event)
    requires Inv(s) && Enabled(s, e)
    ensures Inv(Next(s, e))
  {
    LockInvariant(s, e);
    SleepInvariant(s, e);
    RecordInvariant(s, e);
    InflightInvariant(s, e);
  }

  lemma {:induction false} InvariantReached(s: Sys, es: seq<Event>)
    requires Inv(s) && Exec(s, es).Some?
    ensures Inv(Exec(s, es).value)
    decreases |es|
  {
    if es != [] {
      InvariantKept(s, es[0]);
      InvariantReached(Next(s, es[0]), es[1..]);
    }
  }

  lemma InitialInvariant()
    ensures Inv(INITIAL)
  {
    forall r ensures multiset(INITIAL.shared.active)[r] == |Holders(INITIAL.threads, r)| {
      assert Holders(INITIAL.threads, r) == {};
    }
  }

  // ---- Exclusion, over every schedule ----

  ghost predicate Exclusive(s: Sys) {
    forall i: nat, j: nat :: i < j < |s.threads| && s.threads[i].phase.Holds() && s.threads[j].phase.Holds() ==>
      !s.threads[i].key.Hold().Conflicts(s.threads[j].key.Hold())
  }

  lemma ConflictsIsSymmetric(a: Region, b: Region)
    ensures a.Conflicts(b) <==> b.Conflicts(a)
  {
  }

  lemma TwoPlaces(active: seq<Region>, r: Region) returns (i: nat, j: nat)
    requires multiset(active)[r] >= 2
    ensures i < j < |active| && active[i] == r && active[j] == r
  {
    i :| 0 <= i < |active| && active[i] == r;
    var rest := active[..i] + active[i + 1..];
    WithoutOne(active, i);
    assert r in multiset(rest);
    var k :| 0 <= k < |rest| && rest[k] == r;
    j := if k < i then k else k + 1;
    if j < i {
      i, j := j, i;
    }
  }

  lemma HoldersExclude(s: Sys)
    requires Inv(s)
    ensures Exclusive(s)
  {
    var active := s.shared.active;
    forall i: nat, j: nat | i < j < |s.threads| && s.threads[i].phase.Holds() && s.threads[j].phase.Holds()
      ensures !s.threads[i].key.Hold().Conflicts(s.threads[j].key.Hold())
    {
      var a, b := s.threads[i].key.Hold(), s.threads[j].key.Hold();
      assert i in Holders(s.threads, a) && j in Holders(s.threads, b);
      if a == b {
        assert {i, j} <= Holders(s.threads, a);
        SubsetSize({i, j}, Holders(s.threads, a));
        var k, l := TwoPlaces(active, a);
      } else {
        assert a in multiset(active) && b in multiset(active);
        var k :| 0 <= k < |active| && active[k] == a;
        var l :| 0 <= l < |active| && active[l] == b;
        ConflictsIsSymmetric(a, b);
      }
    }
  }

  /** In every reachable state no two runs that hold their region overlap on one
      database, so a ground point is worked on by at most one of them. */
  lemma ExclusionAlways(es: seq<Event>)
    requires Exec(INITIAL, es).Some?
    ensures var s := Exec(INITIAL, es).value;
            && Exclusive(s)
            && ActiveIsHolds(s)
            && forall i: nat, j: nat, x: real, y: real ::
                 i < |s.threads| && j < |s.threads| && s.threads[i].phase.Holds() && s.threads[j].phase.Holds()
                 && s.threads[i].key.db == s.threads[j].key.db
                 && s.threads[i].key.bbox.Covers(x, y) && s.threads[j].key.bbox.Covers(x, y)
                 ==> i == j
  {
    InitialInvariant();
    InvariantReached(INITIAL, es);
    HoldersExclude(Exec(INITIAL, es).value);
  }

  /** Some other run holds ground of the same database that this run also covers. */
  ghost predicate Contested(s: Sys, i: nat)
    requires i < |s.threads|
  {
    exists j: nat :: j < |s.threads| && s.threads[j].phase.Holds() && s.threads[j].key.db == s.threads[i].key.db
                     && ShareGround(s.threads[j].key.bbox, s.threads[i].key.bbox)
  }

  lemma BlockedByHolder(s: Sys, i: nat)
    requires Inv(s) && i < |s.threads|
    requires forall j :: 0 <= j < |s.threads| ==> s.threads[j].key.bbox.Ordered()
    ensures Blocked(s.shared.active, s.threads[i].key.Hold()) <==> Contested(s, i)
  {
    var active, want := s.shared.active, s.threads[i].key.Hold();
    if Blocked(active, want) {
      var k :| 0 <= k < |active| && active[k].Conflicts(want);
      assert multiset(active)[active[k]] > 0;
      var holders := Holders(s.threads, active[k]);
      assert holders != {};
      var j :| j in holders;
      OverlapsIsCommonGround(s.threads[j].key.bbox, s.threads[i].key.bbox);
    }
    if Contested(s, i) {
      var j: nat :| j < |s.threads| && s.threads[j].phase.Holds() && s.threads[j].key.db == s.threads[i].key.db
                    && ShareGround(s.threads[j].key.bbox, s.threads[i].key.bbox);
      OverlapsIsCommonGround(s.threads[j].key.bbox, s.threads[i].key.bbox);
      assert j in Holders(s.threads, s.threads[j].key.Hold());
      assert s.threads[j].key.Hold() in multiset(active);
      var k :| 0 <= k < |active| && active[k] == s.threads[j].key.Hold();
    }
  }

  /** In every reachable state a run that looks for its region gets it at once, or is put
      to sleep, exactly when some holder on its database covers ground that it also covers:
      runs on other databases or on separate ground never wait for each other. */
  lemma WaitsExactlyWhenContested(es: seq<Event>, i: nat)
    requires Exec(INITIAL, es).Some? && Enabled(Exec(INITIAL, es).value, Check(i))
    requires var s := Exec(INITIAL, es).value; forall j :: 0 <= j < |s.threads| ==> s.threads[j].key.bbox.Ordered()
    ensures var s := Exec(INITIAL, es).value;
            var t := Next(s, Check(i));
            if Contested(s, i) then t.threads[i].phase == Wanting && i in t.shared.waiting
            else t.threads[i].phase == Acquired && i !in t.shared.waiting
  {
    InitialInvariant();
    InvariantReached(INITIAL, es);
    BlockedByHolder(Exec(INITIAL, es).value, i);
  }

  /** A polled status of running always means the run holds its region. */
  lemma RunningHolds(es: seq<Event>, i: nat)
    requires Exec(INITIAL, es).Some? && i in Exec(INITIAL, es).value.shared.runs
    requires Exec(INITIAL, es).value.shared.runs[i].status == Running
    ensures var s := Exec(INITIAL, es).value;
            i < |s.threads| && s.threads[i].phase.Holds() && s.threads[i].key.Hold() in s.shared.active
  {
    InitialInvariant();
    InvariantReached(INITIAL, es);
    var s := Exec(INITIAL, es).value;
    assert i in Holders(s.threads, s.threads[i].key.Hold());
    assert s.threads[i].key.Hold() in multiset(s.shared.active);
  }

  /** No wake-up is lost: in every reachable state a sleeping run is blocked by a
      hold of that moment, so nothing sleeps while nothing is held. */
  lemma NoLostWakeup(es: seq<Event>)
    requires Exec(INITIAL, es).Some?
    ensures var s := Exec(INITIAL, es).value;
            && (forall i :: i in s.shared.waiting ==>
                  i < |s.threads| && Blocked(s.shared.active, s.threads[i].key.Hold()))
            && (s.shared.active == [] ==> s.shared.waiting == {})
  {
    InitialInvariant();
    InvariantReached(INITIAL, es);
  }

  /** Two runs of the schedule hold the very same region at its end. */
  ghost predicate HeldTwice(es: seq<Event>, r: Region) {
    Exec(INITIAL, es).Some?
    && exists i: nat, j: nat :: i < j < |Exec(INITIAL, es).value.threads|
         && Exec(INITIAL, es).value.threads[i].phase.Holds() && Exec(INITIAL, es).value.threads[i].key.Hold() == r
         && Exec(INITIAL, es).value.threads[j].phase.Holds() && Exec(INITIAL, es).value.threads[j].key.Hold() == r
  }

  /** The lock keeps a region to one run exactly when its box is in corner order:
      a box with swapped corners does not overlap even itself, and nothing on the
      way to StartRun puts the corners in order. */
  lemma OneHolderExactlyForOrderedBoxes(r: Region)
    ensures (exists es :: HeldTwice(es, r)) <==> !r.bbox.Ordered()
  {
    forall es | HeldTwice(es, r) ensures !r.bbox.Ordered() {
      ExclusionAlways(es);
      assert !r.Conflicts(r);
    }
    if !r.bbox.Ordered() {
      var es := SwappedCornersTrace(r);
    }
  }

  lemma FourSteps(s0: Sys, es: seq<Event>, s1: Sys, s2: Sys, s3: Sys, s4: Sys)
    requires |es| == 4
    requires Enabled(s0, es[0]) && s1 == Next(s0, es[0]) && Enabled(s1, es[1]) && s2 == Next(s1, es[1])
    requires Enabled(s2, es[2]) && s3 == Next(s2, es[2]) && Enabled(s3, es[3]) && s4 == Next(s3, es[3])
    ensures Exec(s0, es) == Some(s4)
  {
    var es1 := es[1..];
    var es2 := es1[1..];
    var es3 := es2[1..];
    assert es3[1..] == [];
    assert Exec(s3, es3) == Some(s4);
    assert Exec(s2, es2) == Some(s4);
    assert Exec(s1, es1) == Some(s4);
  }

  lemma SwappedCornersTrace(r: Region) returns (es: seq<Event>)
    requires !r.bbox.Ordered()
    ensures HeldTwice(es, r)
  {
    es := [Accept(Key(r.db, r.bbox, "intersects"), 0), Accept(Key(r.db, r.bbox, "contains"), 0), Check(0), Check(1)];
    var s1 := Next(INITIAL, es[0]);
    var s2 := Next(s1, es[1]);
    var s3 := Next(s2, es[2]);
    assert !Blocked(s3.shared.active, r);
    var s4 := Next(s3, es[3]);
    assert s4.threads[0].phase == Acquired && s4.threads[1].phase == Acquired;
    FourSteps(INITIAL, es, s1, s2, s3, s4);
  }
}
