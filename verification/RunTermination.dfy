/** Once no new request arrives, every schedule of the server ends, with every
    region released. The measure charges each release for the re-checks it causes. */
module RunTermination {
  import opened RunServer
  import opened RunProtocol

  /** Everything but the arrival of a request. */
  predicate Internal(e: Event) {
    !e.Request? && !e.Accept?
  }

  function ThreadRank(t: Thread, asleep: bool): nat {
    match t.phase
    case Registered => 9
    case Wanting => if asleep then 7 else 8
    case Acquired => 6
    case Working(k) => if k <= 3 then 5 - k else 0
    case Finished => 1
    case Released => 0
  }

  function CallerRank(c: Caller): nat {
    match c
    case Looking(_, _) => 11
    case Vanished(_) => 10
    case Answered(_) => 0
  }

  function Sum(a: seq<nat>): nat {
    if a == [] then 0 else a[0] + Sum(a[1..])
  }

  function ThreadRanks(s: Sys): seq<nat> {
    seq(|s.threads|, i requires 0 <= i < |s.threads| => ThreadRank(s.threads[i], i in s.shared.waiting))
  }

  function CallerRanks(s: Sys): seq<nat> {
    seq(|s.callers|, i requires 0 <= i < |s.callers| => CallerRank(s.callers[i]))
  }

  function OpenThreads(s: Sys): seq<nat> {
    seq(|s.threads|, i requires 0 <= i < |s.threads| => if s.threads[i].phase == Released then 0 else 1)
  }

  function OpenCallers(s: Sys): seq<nat> {
    seq(|s.callers|, i requires 0 <= i < |s.callers| => if s.callers[i].Answered? then 0 else 1)
  }

  /** Runs and callers not yet done, the places they can ever take, and how far
      they are from their next release. */
  function Open(s: Sys): nat {
    Sum(OpenThreads(s)) + Sum(OpenCallers(s))
  }

  function Places(s: Sys): nat {
    |s.threads| + Sum(OpenCallers(s))
  }

  function Distance(s: Sys): nat {
    Sum(ThreadRanks(s)) + Sum(CallerRanks(s))
  }

  lemma {:induction false} ProductIsNatural(a: nat, b: nat)
    ensures a * b >= 0
  {
    if a > 0 {
      ProductIsNatural(a - 1, b);
      assert a * b == (a - 1) * b + b;
    }
  }

  function Measure(s: Sys): nat {
    var open, weight := Open(s), 11 * Places(s) + 1;
    ProductIsNatural(open, weight);
    open * weight + Distance(s)
  }

  lemma {:induction false} SumAfterUpdate(a: seq<nat>, b: seq<nat>, i: nat)
    requires i < |a| == |b| && b == a[i := b[i]]
    ensures Sum(b) == Sum(a) - a[i] + b[i]
  {
    if i > 0 {
      assert b[1..] == a[1..][i - 1 := b[1..][i - 1]];
      SumAfterUpdate(a[1..], b[1..], i - 1);
    } else {
      assert b[1..] == a[1..];
    }
  }

  lemma {:induction false} SumAfterAppend(a: seq<nat>, x: nat)
    ensures Sum(a + [x]) == Sum(a) + x
  {
    if a != [] {
      assert (a + [x])[1..] == a[1..] + [x];
      SumAfterAppend(a[1..], x);
    }
  }

  lemma {:induction false} SumBound(a: seq<nat>, weights: seq<nat>, c: nat)
    requires |a| == |weights| && forall i :: 0 <= i < |a| ==> a[i] <= c * weights[i]
    ensures Sum(a) <= c * Sum(weights)
  {
    if a != [] {
      SumBound(a[1..], weights[1..], c);
    }
  }

  lemma {:induction false} SumOfOnes(a: seq<nat>)
    requires forall i :: 0 <= i < |a| ==> a[i] <= 1
    ensures Sum(a) <= |a|
  {
    if a != [] {
      SumOfOnes(a[1..]);
    }
  }

  lemma DistanceBound(s: Sys)
    ensures Distance(s) <= 11 * Places(s)
  {
    SumBound(ThreadRanks(s), OpenThreads(s), 11);
    SumOfOnes(OpenThreads(s));
    SumBound(CallerRanks(s), OpenCallers(s), 11);
  }

  /** A step of one thread that neither releases nor wakes anyone. */
  lemma ThreadStep(s: Sys, t: Sys, i: nat)
    requires i < |s.threads| && |t.threads| == |s.threads| && t.callers == s.callers
    requires forall j :: 0 <= j < |s.threads| && j != i ==>
      t.threads[j] == s.threads[j] && (j in t.shared.waiting <==> j in s.shared.waiting)
    requires s.threads[i].phase != Released && t.threads[i].phase != Released
    requires ThreadRank(t.threads[i], i in t.shared.waiting) < ThreadRank(s.threads[i], i in s.shared.waiting)
    ensures Open(t) == Open(s) && Places(t) == Places(s) && Distance(t) < Distance(s)
  {
    SumAfterUpdate(ThreadRanks(s), ThreadRanks(t), i);
    assert OpenThreads(t) == OpenThreads(s);
    assert CallerRanks(t) == CallerRanks(s) && OpenCallers(t) == OpenCallers(s);
  }

  lemma LookUpStep(s: Sys, c: nat)
    requires Enabled(s, LookUp(c))
    ensures var t := Next(s, LookUp(c)); Open(t) <= Open(s) && Places(t) <= Places(s) && Distance(t) < Distance(s)
  {
    var t := Next(s, LookUp(c));
    SumAfterUpdate(CallerRanks(s), CallerRanks(t), c);
    SumAfterUpdate(OpenCallers(s), OpenCallers(t), c);
    assert ThreadRanks(t) == ThreadRanks(s) && OpenThreads(t) == OpenThreads(s);
  }

  /** One more thread takes the place its caller kept free. */
  lemma RegisterStep(s: Sys, c: nat)
    requires Inv(s) && Enabled(s, RegisterAnew(c))
    ensures var t := Next(s, RegisterAnew(c)); Open(t) <= Open(s) && Places(t) <= Places(s) && Distance(t) < Distance(s)
  {
    var t := Next(s, RegisterAnew(c));
    SumAfterUpdate(CallerRanks(s), CallerRanks(t), c);
    SumAfterUpdate(OpenCallers(s), OpenCallers(t), c);
    OneMoreThread(s, t, s.callers[c].key);
    SumAfterAppend(ThreadRanks(s), 9);
    SumAfterAppend(OpenThreads(s), 1);
  }

  lemma OneMoreThread(s: Sys, t: Sys, key: Key)
    requires SleepersBlocked(s) && t.threads == s.threads + [Thread(key, Registered)]
    requires t.shared.waiting == s.shared.waiting
    ensures ThreadRanks(t) == ThreadRanks(s) + [9] && OpenThreads(t) == OpenThreads(s) + [1]
  {
  }

  /** A release may wake every sleeper, but one run less is open. */
  lemma ReleaseStep(s: Sys, i: nat)
    requires Enabled(s, Release(i))
    ensures var t := Next(s, Release(i)); Open(t) == Open(s) - 1 && Places(t) == Places(s)
  {
    var t := Next(s, Release(i));
    SumAfterUpdate(OpenThreads(s), OpenThreads(t), i);
    assert OpenCallers(t) == OpenCallers(s);
  }

  lemma LexicographicDrop(open: nat, open': nat, places: nat, places': nat, distance: nat, distance': nat)
    requires places' <= places && distance' <= 11 * places'
    requires open' < open || (open' == open && distance' < distance)
    ensures open' * (11 * places' + 1) + distance' < open * (11 * places + 1) + distance
  {
    var m, n := 11 * places + 1, 11 * places' + 1;
    assert open' * n <= open' * m;
    if open' < open {
      assert (open' + 1) * m <= open * m;
    }
  }

  lemma StepShrinks(s: Sys, e: Event)
    requires Inv(s) && Enabled(s, e) && Internal(e)
    ensures Places(Next(s, e)) <= Places(s)
    ensures Open(Next(s, e)) < Open(s) || (Open(Next(s, e)) == Open(s) && Distance(Next(s, e)) < Distance(s))
  {
    var t := Next(s, e);
    match e
    case LookUp(c) => LookUpStep(s, c);
    case RegisterAnew(c) => RegisterStep(s, c);
    case Release(i) => ReleaseStep(s, i);
    case Publish(i, _) => ThreadStep(s, t, i);
    case Check(i) => ThreadStep(s, t, i);
    case Start(i, _) => ThreadStep(s, t, i);
    case Enter(i, _) => ThreadStep(s, t, i);
    case Finish(i, _, _, _) =>
      assert RecordFits(s.threads[i].phase, s.shared.runs[i]);
      ThreadStep(s, t, i);
  }

  lemma MeasureDecreases(s: Sys, e: Event)
    requires Inv(s) && Enabled(s, e) && Internal(e)
    ensures Measure(Next(s, e)) < Measure(s)
  {
    var t := Next(s, e);
    StepShrinks(s, e);
    DistanceBound(t);
    LexicographicDrop(Open(s), Open(t), Places(s), Places(t), Distance(s), Distance(t));
  }

  /** No schedule without new requests is longer than the measure of its start. */
  lemma {:induction false} SchedulesEnd(s: Sys, es: seq<Event>)
    requires Inv(s) && Exec(s, es).Some? && forall k :: 0 <= k < |es| ==> Internal(es[k])
    ensures |es| + Measure(Exec(s, es).value) <= Measure(s)
    decreases |es|
  {
    if es != [] {
      assert Internal(es[0]);
      MeasureDecreases(s, es[0]);
      InvariantKept(s, es[0]);
      SchedulesEnd(Next(s, es[0]), es[1..]);
    }
  }

  predicate Done(s: Sys) {
    && (forall i :: 0 <= i < |s.threads| ==> s.threads[i].phase == Released)
    && (forall c :: 0 <= c < |s.callers| ==> s.callers[c].Answered?)
  }

  /** While anything is open, something can move: sleepers wait only for holders,
      and holders never wait. */
  lemma Progress(s: Sys) returns (e: Event)
    requires Inv(s) && !Done(s)
    ensures Internal(e) && Enabled(s, e)
  {
    if c: nat :| c < |s.callers| && !s.callers[c].Answered? {
      e := if s.callers[c].Looking? then LookUp(c) else RegisterAnew(c);
    } else {
      var i: nat :| i < |s.threads| && s.threads[i].phase != Released;
      if i in s.shared.waiting {
        var k :| 0 <= k < |s.shared.active| && s.shared.active[k].Conflicts(s.threads[i].key.Hold());
        assert multiset(s.shared.active)[s.shared.active[k]] > 0;
        var j :| j in Holders(s.threads, s.shared.active[k]);
        e := ThreadMove(s, j);
      } else {
        e := ThreadMove(s, i);
      }
    }
  }

  lemma ThreadMove(s: Sys, i: nat) returns (e: Event)
    requires Inv(s) && i < |s.threads| && s.threads[i].phase != Released && i !in s.shared.waiting
    ensures Internal(e) && Enabled(s, e)
  {
    match s.threads[i].phase
    case Registered => e := Publish(i, 0);
    case Wanting => e := Check(i);
    case Acquired => e := Start(i, 0);
    case Working(k) =>
      assert RecordFits(s.threads[i].phase, s.shared.runs[i]);
      e := if k < 3 then Enter(i, 0) else Finish(i, 0, Completed, "");
    case Finished => e := Release(i);
  }

  lemma HeadIsHeld(s: Sys)
    requires Inv(s) && s.shared.active != []
    ensures exists i: nat :: i < |s.threads| && s.threads[i].phase.Holds()
  {
    assert multiset(s.shared.active)[s.shared.active[0]] > 0;
    var i :| i in Holders(s.threads, s.shared.active[0]);
  }

  /** A schedule that cannot be continued has released everything: no region is
      held, nobody sleeps, no key is in flight and every record is terminal. */
  lemma StuckMeansAllReleased(es: seq<Event>)
    requires Exec(INITIAL, es).Some?
    requires forall e :: Internal(e) ==> !Enabled(Exec(INITIAL, es).value, e)
    ensures var s := Exec(INITIAL, es).value;
            && Done(s) && s.shared.active == [] && s.shared.waiting == {} && s.shared.inflight == map[]
            && forall i: nat :: i < |s.threads| ==> i in s.shared.runs && s.shared.runs[i].status.Terminal()
  {
    InitialInvariant();
    InvariantReached(INITIAL, es);
    var s := Exec(INITIAL, es).value;
    if !Done(s) {
      var e := Progress(s);
      assert false;
    }
    if s.shared.active != [] {
      HeadIsHeld(s);
      assert false;
    }
    forall i: nat | i < |s.threads| ensures i in s.shared.runs && s.shared.runs[i].status.Terminal() {
      assert RecordFits(s.threads[i].phase, s.shared.runs[i]);
    }
  }
}
