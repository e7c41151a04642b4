/** The state one API server shares between its request handlers and its run
    goroutines, with one method per critical section (one activeMu or runsMu
    hold), each proved against a function of the shared state. */
module RunServer {
  import opened Geometry
  import opened Wrappers

  type RunId = nat
  type Time = int

  datatype Status = Pending | Running | Completed | NoData | Failed {
    predicate Terminal() {
      Completed? || NoData? || Failed?
    }
  }

  datatype Stage = NotStarted | Import | ExtractFeatures | LinkBuildings

  datatype Run = Run(
    status: Status, error: string, stage: Stage,
    createdAt: Time, startedAt: Option<Time>, updatedAt: Time)

  /** What an active run holds: a box of one database. */
  datatype Region = Region(db: string, bbox: Bbox) {
    predicate Conflicts(other: Region) {
      db == other.db && bbox.Overlaps(other.bbox)
    }
  }

  /** Two requests with one key would do identical work. */
  datatype Key = Key(db: string, bbox: Bbox, mode: string) {
    function Hold(): Region {
      Region(db, bbox)
    }
  }

  /** active and waiting are the region lock and the waiters of its condition
      variable; inflight joins identical requests; runs is what callers poll. */
  datatype Shared = Shared(
    active: seq<Region>, waiting: set<RunId>, inflight: map<Key, RunId>, runs: map<RunId, Run>)

  predicate Blocked(active: seq<Region>, want: Region) {
    exists i :: 0 <= i < |active| && active[i].Conflicts(want)
  }

  function RemoveFirst(active: seq<Region>, r: Region): seq<Region> {
    if active == [] then []
    else if active[0] == r then active[1..]
    else [active[0]] + RemoveFirst(active[1..], r)
  }

  lemma {:induction false} RemoveFirstDropsOne(active: seq<Region>, r: Region)
    requires r in active
    ensures multiset(active) == multiset(RemoveFirst(active, r)) + multiset{r}
  {
    assert active == [active[0]] + active[1..];
    if active[0] != r {
      RemoveFirstDropsOne(active[1..], r);
    }
  }

  /** Removal keeps the order of the rest: it is the list without position i. */
  lemma {:induction false} RemoveFirstIsOneGap(active: seq<Region>, r: Region) returns (i: nat)
    requires r in active
    ensures i < |active| && active[i] == r && r !in active[..i]
    ensures RemoveFirst(active, r) == active[..i] + active[i + 1..]
  {
    if active[0] == r {
      i := 0;
    } else {
      var j := RemoveFirstIsOneGap(active[1..], r);
      i := j + 1;
      assert active[1..][..j] == active[1..i] && active[1..][j + 1..] == active[i + 1..];
      assert active[..i] == [active[0]] + active[1..i];
    }
  }

  /** Where a scan for the first r stands at position i: r is there, or further on. */
  lemma RemoveAt(active: seq<Region>, r: Region, i: nat)
    requires i < |active| && active[i] == r
    requires RemoveFirst(active, r) == active[..i] + RemoveFirst(active[i..], r)
    ensures RemoveFirst(active, r) == active[..i] + active[i + 1..]
  {
    assert active[i..][1..] == active[i + 1..];
  }

  lemma SkipAt(active: seq<Region>, r: Region, i: nat)
    requires i < |active| && active[i] != r
    requires RemoveFirst(active, r) == active[..i] + RemoveFirst(active[i..], r)
    ensures RemoveFirst(active, r) == active[..i + 1] + RemoveFirst(active[i + 1..], r)
  {
    assert active[i..][1..] == active[i + 1..];
    assert active[..i + 1] == active[..i] + [active[i]];
  }

  /** The three critical sections of the region lock. */
  function CheckRegion(s: Shared, id: RunId, want: Region): Shared {
    if Blocked(s.active, want) then s.(waiting := s.waiting + {id})
    else s.(active := s.active + [want], waiting := s.waiting - {id})
  }

  function ReleaseRegion(s: Shared, key: Key): Shared {
    s.(active := RemoveFirst(s.active, key.Hold()), inflight := s.inflight - {key}, waiting := {})
  }

  function Register(s: Shared, key: Key, id: RunId): Shared {
    s.(inflight := s.inflight[key := id])
  }

  function UpdateRun(s: Shared, id: RunId, change: (Run, Time) -> Run, now: Time): Shared {
    if id in s.runs then s.(runs := s.runs[id := change(s.runs[id], now).(updatedAt := now)]) else s
  }

  function WithStatus(run: Run, status: Status, error: string, now: Time): Run {
    run.(status := status, error := error,
         startedAt := if status == Running && run.startedAt.None? then Some(now) else run.startedAt)
  }

  function SetRunStatus(s: Shared, id: RunId, status: Status, error: string, now: Time): Shared {
    UpdateRun(s, id, (run: Run, t: Time) => WithStatus(run, status, error, t), now)
  }

  function SetRunStage(s: Shared, id: RunId, stage: Stage, now: Time): Shared {
    UpdateRun(s, id, (run: Run, t: Time) => run.(stage := stage), now)
  }

  function NewRun(now: Time): Run {
    Run(Pending, "", NotStarted, now, None, now)
  }

  function Publish(s: Shared, id: RunId, now: Time): Shared {
    s.(runs := s.runs[id := NewRun(now)])
  }

  class Server {
    var active: seq<Region>
    var waiting: set<RunId>
    var inflight: map<Key, RunId>
    var runs: map<RunId, Run>

    function State(): Shared
      reads this
    {
      Shared(active, waiting, inflight, runs)
    }

    constructor ()
      ensures State() == Shared([], {}, map[], map[])
    {
      active, waiting, inflight, runs := [], {}, map[], map[];
    }

    /** The read-only scan under activeMu (Go: conflictsLocked). */
    method ConflictsLocked(want: Region) returns (blocked: bool)
      ensures blocked <==> Blocked(active, want)
    {
      for i := 0 to |active|
        invariant !Blocked(active[..i], want)
      {
        if active[i].db == want.db && active[i].bbox.Overlaps(want.bbox) {
          return true;
        }
      }
      assert active[..|active|] == active;
      return false;
    }

    /** One pass of acquireRegion's loop, from taking activeMu (or waking up) to
        either waiting on the condition variable or holding the region. */
    method TryAcquire(id: RunId, want: Region) returns (held: bool)
      modifies this`active, this`waiting
      ensures State() == CheckRegion(old(State()), id, want)
      ensures held <==> !Blocked(old(active), want)
    {
      var blocked := ConflictsLocked(want);
      if blocked {
        waiting := waiting + {id};
      } else {
        waiting := waiting - {id};
        active := active + [want];
      }
      held := !blocked;
    }

    /** releaseRegion: drop the first equal hold and the key, wake every waiter. */
    method Release(key: Key)
      modifies this`active, this`waiting, this`inflight
      ensures State() == ReleaseRegion(old(State()), key)
    {
      ghost var r, was, removed := key.Hold(), active, false;
      var i := 0;
      while i < |active|
        invariant 0 <= i <= |active| && active == was && inflight == old(inflight) && !removed
        invariant RemoveFirst(was, r) == was[..i] + RemoveFirst(was[i..], r)
      {
        if active[i].db == key.db && active[i].bbox == key.bbox {
          RemoveAt(was, r, i);
          removed := true;
          active := active[..i] + active[i + 1..];
          break;
        }
        SkipAt(was, r, i);
        i := i + 1;
      }
      if !removed {
        assert was[..i] == was && was[i..] == [];
      }
      inflight := inflight - {key};
      waiting := {};
    }

    /** StartRun's first critical section: join the run serving this key, or
        register a new one under it. */
    method JoinOrRegister(key: Key, newId: RunId) returns (serving: Option<RunId>)
      modifies this`inflight
      ensures key in old(inflight) ==> serving == Some(old(inflight)[key]) && State() == old(State())
      ensures key !in old(inflight) ==> serving == None && State() == Register(old(State()), key, newId)
    {
      if key in inflight {
        return Some(inflight[key]);
      }
      inflight := inflight[key := newId];
      return None;
    }

    /** StartRun's critical section after the joined run's record was not found. */
    method RegisterAnew(key: Key, newId: RunId)
      modifies this`inflight
      ensures State() == Register(old(State()), key, newId)
    {
      inflight := inflight - {key};
      inflight := inflight[key := newId];
    }

    method PublishRun(id: RunId, now: Time)
      modifies this`runs
      ensures State() == Publish(old(State()), id, now)
    {
      runs := runs[id := NewRun(now)];
    }

    method GetRun(id: RunId) returns (run: Option<Run>)
      ensures run == if id in runs then Some(runs[id]) else None
    {
      if id !in runs {
        return None;
      }
      return Some(runs[id]);
    }

    /** updateRun: an unknown id is ignored. */
    method Update(id: RunId, change: (Run, Time) -> Run, now: Time)
      modifies this`runs
      ensures State() == UpdateRun(old(State()), id, change, now)
    {
      if id !in runs {
        return;
      }
      runs := runs[id := change(runs[id], now).(updatedAt := now)];
    }

    method SetStatus(id: RunId, status: Status, error: string, now: Time)
      modifies this`runs
      ensures State() == SetRunStatus(old(State()), id, status, error, now)
      ensures id in old(runs) ==>
                var was, run := old(runs)[id], runs[id];
                && run.status == status && run.error == error && run.updatedAt == now
                && run.stage == was.stage && run.createdAt == was.createdAt
                && (status == Running && was.startedAt.None? ==> run.startedAt == Some(now))
                && (status != Running || was.startedAt.Some? ==> run.startedAt == was.startedAt)
      ensures runs.Keys == old(runs).Keys && forall j :: j in runs && j != id ==> runs[j] == old(runs)[j]
    {
      Update(id, (run: Run, t: Time) => WithStatus(run, status, error, t), now);
    }

    method SetStage(id: RunId, stage: Stage, now: Time)
      modifies this`runs
      ensures State() == SetRunStage(old(State()), id, stage, now)
      ensures id in old(runs) ==> runs[id] == old(runs)[id].(stage := stage, updatedAt := now)
      ensures runs.Keys == old(runs).Keys && forall j :: j in runs && j != id ==> runs[j] == old(runs)[j]
    {
      Update(id, (run: Run, t: Time) => run.(stage := stage), now);
    }
  }
}
