/**
 * The container record store: for each task name, the records of the
 * containers the scheduler created or observed, keyed by the 12-character
 * short form of the container ID. Also the effect of the scheduler's own
 * start and stop actions on a task's records.
 */
module Records {
  import opened Wrappers
  import opened Status

  /** One container record: its last known state and whether the current listing pass saw it. */
  datatype Container = Container(state: State, updated: bool)

  /** The records of one task, by short container ID. */
  type Entry = map<string, Container>

  /** Records of every registered task, by task name. */
  type Ledger = map<string, Entry>

  /** Errors the scheduler returns to its caller. */
  datatype Error = NoContainerToStop(task: string) | ListFailed

  /** A container ID as the runtime hands it out: at least 12 characters long. */
  type FullId = s: string | |s| >= 12 witness "000000000000"

  /**
   * Outcomes of the runtime calls made for task `n`'s attempt `j` within one
   * scaling pass: the ID a create call returns (None when it fails), and
   * whether the start and the stop calls succeed.
   */
  datatype Runtime = Runtime(
    create: (string, nat) -> Option<FullId>,
    start: (string, nat) -> bool,
    stop: (string, nat) -> bool)

  /** The key a container is recorded under. */
  function ShortId(id: string): (s: string)
    requires |id| >= 12
    ensures |s| == 12 && s == id[..12]
  {
    id[..12]
  }

  /** Every key of every entry is a short container ID. */
  ghost predicate ShortKeys(tc: Ledger)
  {
    forall n, id :: n in tc && id in tc[n] ==> |id| == 12
  }

  /** The records of task `n`; a task without an entry has none. */
  function EntryOf(tc: Ledger, n: string): Entry
  {
    if n in tc then tc[n] else map[]
  }

  /** The IDs of the records in state running. */
  function RunningIds(m: Entry): set<string>
  {
    set id | id in m && m[id].state == Running
  }

  /**
   * `after` differs from `before` only in records that were running and are
   * now stopping or removing.
   */
  ghost predicate StopsApplied(before: Entry, after: Entry)
  {
    && after.Keys == before.Keys
    && forall id :: id in before ==>
         || after[id] == before[id]
         || (before[id].state == Running && after[id].state in {Stopping, Removing}
             && after[id].updated == before[id].updated)
  }

  /** Marking one running record as stopping or removing takes exactly that record out of the running set. */
  lemma StopOneRunning(m: Entry, victim: string, st: State)
    requires victim in RunningIds(m) && st in {Stopping, Removing}
    ensures RunningIds(m[victim := m[victim].(state := st)]) == RunningIds(m) - {victim}
    ensures |RunningIds(m[victim := m[victim].(state := st)])| == |RunningIds(m)| - 1
    ensures StopsApplied(m, m[victim := m[victim].(state := st)])
  {
    var m' := m[victim := m[victim].(state := st)];
    assert RunningIds(m') == RunningIds(m) - {victim};
  }

  /** Marks the record `victim` of task `n` with state `st`. */
  function MarkRecord(tc: Ledger, n: string, victim: string, st: State): Ledger
    requires n in tc && victim in tc[n]
  {
    tc[n := tc[n][victim := tc[n][victim].(state := st)]]
  }

  /**
   * After `j` stop attempts for task `n`: only `n`'s records changed, only
   * from running to stopping or removing, and `j` of them (or all, if
   * fewer were running) left the running set.
   */
  ghost predicate StoppedSoFar(tc0: Ledger, tc: Ledger, n: string, j: nat)
  {
    && tc.Keys == tc0.Keys
    && (forall m :: m in tc0 && m != n ==> tc[m] == tc0[m])
    && StopsApplied(EntryOf(tc0, n), EntryOf(tc, n))
    && |RunningIds(EntryOf(tc, n))| == if |RunningIds(EntryOf(tc0, n))| < j then 0 else |RunningIds(EntryOf(tc0, n))| - j
  }

  /** One more stop attempt: a failing one when nothing is running, a successful one otherwise. */
  lemma StopStep(tc0: Ledger, tc: Ledger, n: string, j: nat, victim: string, st: State)
    requires StoppedSoFar(tc0, tc, n, j)
    requires victim in RunningIds(EntryOf(tc, n)) && st in {Stopping, Removing}
    ensures n in tc && StoppedSoFar(tc0, MarkRecord(tc, n, victim, st), n, j + 1)
    ensures |RunningIds(EntryOf(tc0, n))| > j
  {
    StopOneRunning(tc[n], victim, st);
    StopsAppliedTransitive(EntryOf(tc0, n), tc[n], MarkRecord(tc, n, victim, st)[n]);
  }

  lemma StopStepFails(tc0: Ledger, tc: Ledger, n: string, j: nat)
    requires StoppedSoFar(tc0, tc, n, j) && RunningIds(EntryOf(tc, n)) == {}
    ensures StoppedSoFar(tc0, tc, n, j + 1)
    ensures |RunningIds(EntryOf(tc0, n))| <= j
  {
  }

  lemma StopsAppliedTransitive(a: Entry, b: Entry, c: Entry)
    requires StopsApplied(a, b) && StopsApplied(b, c)
    ensures StopsApplied(a, c)
  {
  }

  /** Stopping records never adds a running one. */
  lemma StopsAppliedShrinksRunning(before: Entry, after: Entry)
    requires StopsApplied(before, after)
    ensures RunningIds(after) <= RunningIds(before)
  {
  }

  /** The records after one start attempt: what a successful create and, then, start leave behind. */
  function StartEffect(m: Entry, created: Option<FullId>, started: bool): Entry
  {
    match created
    case None => m
    case Some(id) => m[ShortId(id) := Container(if started then Starting else Created, false)]
  }

  /** The records of task `n` after its first `d` start attempts of a pass. */
  function Launched(m: Entry, rt: Runtime, n: string, d: nat): Entry
  {
    if d == 0 then m
    else StartEffect(Launched(m, rt, n, d - 1), rt.create(n, d - 1), rt.start(n, d - 1))
  }

  /** The short IDs the first `d` create calls for task `n` returned. */
  ghost function CreatedIds(rt: Runtime, n: string, d: nat): set<string>
  {
    set j | 0 <= j < d && rt.create(n, j).Some? :: ShortId(rt.create(n, j).value)
  }

  /** A record whose ID no create call returned is untouched by the start attempts. */
  lemma {:induction false} LaunchedElsewhere(m: Entry, rt: Runtime, n: string, d: nat, id: string)
    requires id !in CreatedIds(rt, n, d)
    ensures id in Launched(m, rt, n, d) <==> id in m
    ensures id in m ==> Launched(m, rt, n, d)[id] == m[id]
  {
    if d > 0 {
      assert CreatedIds(rt, n, d - 1) <= CreatedIds(rt, n, d);
      LaunchedElsewhere(m, rt, n, d - 1, id);
      if rt.create(n, d - 1).Some? {
        assert ShortId(rt.create(n, d - 1).value) in CreatedIds(rt, n, d);
      }
    }
  }

  /**
   * A create that succeeded, and whose short ID no later create of the pass
   * reused, leaves one record under that ID: starting when the start call
   * succeeded, created when it failed.
   */
  lemma {:induction false} LaunchedAt(m: Entry, rt: Runtime, n: string, d: nat, j: nat)
    requires j < d && rt.create(n, j).Some?
    requires forall k :: j < k < d && rt.create(n, k).Some? ==>
      ShortId(rt.create(n, k).value) != ShortId(rt.create(n, j).value)
    ensures ShortId(rt.create(n, j).value) in Launched(m, rt, n, d)
    ensures Launched(m, rt, n, d)[ShortId(rt.create(n, j).value)] ==
      Container(if rt.start(n, j) then Starting else Created, false)
  {
    if j < d - 1 {
      LaunchedAt(m, rt, n, d - 1, j);
    }
  }

  /** Launched records are fresh: never marked seen, always created or starting. */
  lemma {:induction false} LaunchedFresh(m: Entry, rt: Runtime, n: string, d: nat, id: string)
    requires id in Launched(m, rt, n, d)
    ensures (id in m && Launched(m, rt, n, d)[id] == m[id]) ||
      (id in CreatedIds(rt, n, d) && Launched(m, rt, n, d)[id].state in {Created, Starting}
       && !Launched(m, rt, n, d)[id].updated)
  {
    if d > 0 {
      assert CreatedIds(rt, n, d - 1) <= CreatedIds(rt, n, d);
      var prev := Launched(m, rt, n, d - 1);
      var c := rt.create(n, d - 1);
      if c.Some? && id == ShortId(c.value) {
        assert id in CreatedIds(rt, n, d);
      } else {
        LaunchedFresh(m, rt, n, d - 1, id);
      }
    }
  }

}
