/**
 * The scale plan of one scaling pass: which tasks get stop or start
 * attempts, how many, and in which order they are issued.
 */
module Planning {
  import opened Wrappers
  import opened Demand
  import opened Records

  /** One actuation attempt issued for a task. */
  datatype Unit = Stop(task: string) | Start(task: string)

  /** Too many replicas committed, and no change in flight. */
  predicate TooMany(t: Task)
  {
    t.demand < t.requested && t.requested == t.running
  }

  /** Too few replicas committed, and no change in flight. */
  predicate TooFew(t: Task)
  {
    t.demand > t.requested && t.requested == t.running
  }

  predicate Wants(t: Task, down: bool)
  {
    if down then TooMany(t) else TooFew(t)
  }

  /** The distance between a task's demand and its committed count. */
  function Gap(t: Task): nat
  {
    if t.demand < t.requested then t.requested - t.demand else t.demand - t.requested
  }

  function Repeat(u: Unit, k: nat): (r: seq<Unit>)
    ensures |r| == k && forall p :: 0 <= p < k ==> r[p] == u
  {
    if k == 0 then [] else Repeat(u, k - 1) + [u]
  }

  /** The positions among the first `k` tasks that need scaling down (`down`) or up, in order. */
  function Indices(items: seq<Task>, k: nat, down: bool): (idx: seq<nat>)
    requires k <= |items|
    ensures forall b :: 0 <= b < |idx| ==> idx[b] < k
  {
    if k == 0 then []
    else Indices(items, k - 1, down) + (if Wants(items[k - 1], down) then [k - 1] else [])
  }

  /** `Indices` holds exactly the wanted positions, each once, in increasing order. */
  lemma {:induction false} IndicesSpec(items: seq<Task>, k: nat, down: bool)
    requires k <= |items|
    ensures forall b :: 0 <= b < |Indices(items, k, down)| ==>
      Indices(items, k, down)[b] < k && Wants(items[Indices(items, k, down)[b]], down)
    ensures forall x :: 0 <= x < k ==> (x in Indices(items, k, down) <==> Wants(items[x], down))
    ensures forall b, c :: 0 <= b < c < |Indices(items, k, down)| ==>
      Indices(items, k, down)[b] < Indices(items, k, down)[c]
  {
    if k > 0 {
      IndicesSpec(items, k - 1, down);
      var prev := Indices(items, k - 1, down);
      assert Indices(items, k, down) == prev + (if Wants(items[k - 1], down) then [k - 1] else []);
      assert k - 1 !in prev;
    }
  }

  /** Positions that are all valid and pairwise distinct. */
  predicate Distinct(items: seq<Task>, idx: seq<nat>)
  {
    && (forall b :: 0 <= b < |idx| ==> idx[b] < |items|)
    && (forall b, c :: 0 <= b < c < |idx| ==> idx[b] != idx[c])
  }

  /** The names of the tasks at the positions `idx`. */
  function NamesAt(items: seq<Task>, idx: seq<nat>): set<string>
    requires forall b :: 0 <= b < |idx| ==> idx[b] < |items|
  {
    set b | 0 <= b < |idx| :: items[idx[b]].name
  }

  /** The attempts issued for the tasks at `idx`, in order: `Gap` of them per task. */
  function Units(items: seq<Task>, idx: seq<nat>, down: bool): seq<Unit>
    requires forall b :: 0 <= b < |idx| ==> idx[b] < |items|
  {
    if idx == [] then []
    else
      var t := items[idx[|idx| - 1]];
      Units(items, idx[..|idx| - 1], down) + Repeat(if down then Stop(t.name) else Start(t.name), Gap(t))
  }

  /** Every attempt of one pass: all stops first, then all starts. */
  function Plan(items: seq<Task>): seq<Unit>
  {
    Units(items, Indices(items, |items|, true), true) + Units(items, Indices(items, |items|, false), false)
  }

  /** The error a scaling pass returns: the outcome of its last stop attempt. */
  function PassError(items: seq<Task>, tc: Ledger): Option<Error>
  {
    var idx := Indices(items, |items|, true);
    if idx == [] then None else StopOutcome(items[idx[|idx| - 1]], tc)
  }

  /**
   * The outcome of the last of a task's stop attempts: it fails when the
   * task has fewer running records than attempts.
   */
  function StopOutcome(t: Task, tc: Ledger): Option<Error>
  {
    if |RunningIds(EntryOf(tc, t.name))| < t.requested - t.demand then Some(NoContainerToStop(t.name)) else None
  }

  /**
   * Task `t`'s stop attempts are done: its records changed only from running
   * to stopping or removing, and `Gap(t)` of them (all, if fewer were
   * running) left the running set.
   */
  ghost predicate StopsDone(tc0: Ledger, tc: Ledger, t: Task)
  {
    && StopsApplied(EntryOf(tc0, t.name), EntryOf(tc, t.name))
    && |RunningIds(EntryOf(tc, t.name))| ==
         if |RunningIds(EntryOf(tc0, t.name))| < Gap(t) then 0 else |RunningIds(EntryOf(tc0, t.name))| - Gap(t)
  }

  lemma {:induction false} UnitsKind(items: seq<Task>, idx: seq<nat>, down: bool)
    requires forall b :: 0 <= b < |idx| ==> idx[b] < |items|
    ensures forall p :: 0 <= p < |Units(items, idx, down)| ==> Units(items, idx, down)[p].Stop? == down
    decreases |idx|
  {
    if idx != [] {
      UnitsKind(items, idx[..|idx| - 1], down);
    }
  }

  /** Units only read the tasks at the positions they are given. */
  lemma {:induction false} UnitsFrame(items: seq<Task>, items': seq<Task>, idx: seq<nat>, down: bool)
    requires forall b :: 0 <= b < |idx| ==> idx[b] < |items| && idx[b] < |items'| && items[idx[b]] == items'[idx[b]]
    ensures Units(items, idx, down) == Units(items', idx, down)
    decreases |idx|
  {
    if idx != [] {
      UnitsFrame(items, items', idx[..|idx| - 1], down);
    }
  }

  lemma RepeatCount(u: Unit, k: nat, v: Unit)
    ensures multiset(Repeat(u, k))[v] == if u == v then k else 0
  {
    if k > 0 {
      RepeatCount(u, k - 1, v);
    }
  }

  /** With unique names, task `x` receives `Gap` attempts if it is among `idx` and none otherwise. */
  lemma {:induction false} UnitsCount(items: seq<Task>, idx: seq<nat>, down: bool, x: nat)
    requires UniqueNames(items) && Distinct(items, idx) && x < |items|
    ensures multiset(Units(items, idx, down))[Stop(items[x].name)] == (if down && x in idx then Gap(items[x]) else 0)
    ensures multiset(Units(items, idx, down))[Start(items[x].name)] == (if !down && x in idx then Gap(items[x]) else 0)
    decreases |idx|
  {
    if idx != [] {
      var front, y := idx[..|idx| - 1], idx[|idx| - 1];
      assert idx == front + [y];
      UnitsCount(items, front, down, x);
      var t := items[y];
      var u := if down then Stop(t.name) else Start(t.name);
      RepeatCount(u, Gap(t), Stop(items[x].name));
      RepeatCount(u, Gap(t), Start(items[x].name));
      assert y == x ==> x !in front;
      assert y != x ==> t.name != items[x].name;
    }
  }

  /** In a pass's plan every stop attempt comes before every start attempt. */
  lemma PlanStopsFirst(items: seq<Task>)
    ensures forall p, q :: 0 <= p < q < |Plan(items)| && Plan(items)[p].Start? ==> Plan(items)[q].Start?
  {
    var downs := Units(items, Indices(items, |items|, true), true);
    var ups := Units(items, Indices(items, |items|, false), false);
    UnitsKind(items, Indices(items, |items|, true), true);
    UnitsKind(items, Indices(items, |items|, false), false);
    assert forall p :: 0 <= p < |Plan(items)| ==> (Plan(items)[p].Stop? <==> p < |downs|);
  }

  /**
   * Each task that has too many replicas gets exactly `requested - demand`
   * stop attempts, each task with too few exactly `demand - requested` start
   * attempts, and every other task none.
   */
  lemma PlanCounts(items: seq<Task>, x: nat)
    requires UniqueNames(items) && x < |items|
    ensures multiset(Plan(items))[Stop(items[x].name)] ==
      if TooMany(items[x]) then items[x].requested - items[x].demand else 0
    ensures multiset(Plan(items))[Start(items[x].name)] ==
      if TooFew(items[x]) then items[x].demand - items[x].requested else 0
  {
    var downs := Indices(items, |items|, true);
    var ups := Indices(items, |items|, false);
    IndicesSpec(items, |items|, true);
    IndicesSpec(items, |items|, false);
    UnitsCount(items, downs, true, x);
    UnitsCount(items, ups, false, x);
    assert x in downs <==> TooMany(items[x]);
    assert x in ups <==> TooFew(items[x]);
  }

  /** A task already mid-change, or already at its demand, gets no attempt at all. */
  lemma PlanSkips(items: seq<Task>, x: nat)
    requires UniqueNames(items) && x < |items|
    requires items[x].requested != items[x].running || items[x].demand == items[x].requested
    ensures Stop(items[x].name) !in Plan(items) && Start(items[x].name) !in Plan(items)
  {
    PlanCounts(items, x);
  }

  /**
   * When every task is either mid-change or already at its demand, a pass
   * issues nothing.
   */
  lemma BalancedPlanIsEmpty(items: seq<Task>)
    requires forall x :: 0 <= x < |items| ==>
      items[x].requested != items[x].running || items[x].demand == items[x].requested
    ensures Plan(items) == []
  {
    IndicesSpec(items, |items|, true);
    IndicesSpec(items, |items|, false);
  }

  // Bookkeeping of the scaling loops: what holds once the tasks at `done`
  // have had their attempts.

  /** The tasks at `done` have `requested` set to their demand; the others are as they were. */
  ghost predicate Settled(items0: seq<Task>, items: seq<Task>, done: seq<nat>)
  {
    && |items| == |items0|
    && forall x :: 0 <= x < |items0| ==>
         items[x] == (if x in done then items0[x].(requested := items0[x].demand) else items0[x])
  }

  lemma SettledStep(items0: seq<Task>, items: seq<Task>, done: seq<nat>, i: nat)
    requires Settled(items0, items, done) && i < |items0| && i !in done
    ensures items[i] == items0[i]
    ensures Settled(items0, items[i := items[i].(requested := items[i].demand)], done + [i])
  {
  }

  /** The tasks at `done` have had their stop attempts; no other task's records changed. */
  ghost predicate DownDone(tc0: Ledger, tc: Ledger, items0: seq<Task>, done: seq<nat>)
    requires forall b :: 0 <= b < |done| ==> done[b] < |items0|
  {
    && tc.Keys == tc0.Keys
    && (forall n :: n in tc0 && n !in NamesAt(items0, done) ==> tc[n] == tc0[n])
    && (forall b :: 0 <= b < |done| ==> StopsDone(tc0, tc, items0[done[b]]))
  }

  /** The tasks at `done` have had their start attempts; no other task's records changed. */
  ghost predicate UpDone(tc0: Ledger, tc: Ledger, items0: seq<Task>, done: seq<nat>, rt: Runtime)
    requires forall b :: 0 <= b < |done| ==> done[b] < |items0|
  {
    && tc.Keys == tc0.Keys
    && (forall n :: n in tc0 && n !in NamesAt(items0, done) ==> tc[n] == tc0[n])
    && (forall b :: 0 <= b < |done| ==> var t := items0[done[b]];
          t.name in tc0 && tc[t.name] == Launched(tc0[t.name], rt, t.name, Gap(t)))
  }

  /** The attempts for one more selected task are appended to those issued so far. */
  lemma UnitsSnoc(items: seq<Task>, idx: seq<nat>, a: nat, down: bool)
    requires Distinct(items, idx) && a < |idx|
    ensures Units(items, idx[..a + 1], down) ==
      Units(items, idx[..a], down) + Repeat(if down then Stop(items[idx[a]].name) else Start(items[idx[a]].name), Gap(items[idx[a]]))
  {
    assert idx[..a + 1][..a] == idx[..a];
  }

  /** The loops over `idx` visit each position once: `idx[a]` is not among those visited before. */
  lemma PrefixStep(items0: seq<Task>, idx: seq<nat>, a: nat)
    requires Distinct(items0, idx) && a < |idx|
    ensures idx[..a + 1] == idx[..a] + [idx[a]]
    ensures idx[a] !in idx[..a] && Distinct(items0, idx[..a])
  {
  }

  /** With unique names, a task not yet done has a name no done task has. */
  lemma FreshName(items0: seq<Task>, done: seq<nat>, i: nat)
    requires UniqueNames(items0) && Distinct(items0, done) && i < |items0| && i !in done
    ensures items0[i].name !in NamesAt(items0, done)
    ensures NamesAt(items0, done + [i]) == NamesAt(items0, done) + {items0[i].name}
  {
    var d' := done + [i];
    forall n | n in NamesAt(items0, d')
      ensures n in NamesAt(items0, done) + {items0[i].name}
    {
      var b :| 0 <= b < |d'| && items0[d'[b]].name == n;
      if b < |done| {
        assert items0[done[b]].name == n;
      }
    }
    forall n | n in NamesAt(items0, done) + {items0[i].name}
      ensures n in NamesAt(items0, d')
    {
      if n == items0[i].name {
        assert d'[|done|] == i;
      } else {
        var b :| 0 <= b < |done| && items0[done[b]].name == n;
        assert d'[b] == done[b];
      }
    }
  }

  lemma DistinctSnoc(items0: seq<Task>, done: seq<nat>, i: nat)
    requires Distinct(items0, done) && i < |items0| && i !in done
    ensures Distinct(items0, done + [i])
  {
    var d' := done + [i];
    assert forall b :: 0 <= b < |done| ==> d'[b] == done[b];
  }

  lemma DownStep(tc0: Ledger, tc: Ledger, tc': Ledger, items0: seq<Task>, done: seq<nat>, i: nat)
    requires UniqueNames(items0) && Distinct(items0, done) && i < |items0| && i !in done
    requires DownDone(tc0, tc, items0, done)
    requires tc'.Keys == tc.Keys
    requires forall n :: n in tc && n != items0[i].name ==> tc'[n] == tc[n]
    requires StopsDone(tc, tc', items0[i])
    ensures EntryOf(tc, items0[i].name) == EntryOf(tc0, items0[i].name)
    ensures StopOutcome(items0[i], tc) == StopOutcome(items0[i], tc0)
    ensures Distinct(items0, done + [i])
    ensures DownDone(tc0, tc', items0, done + [i])
  {
    FreshName(items0, done, i);
    DistinctSnoc(items0, done, i);
    var d' := done + [i];
    forall b | 0 <= b < |d'|
      ensures StopsDone(tc0, tc', items0[d'[b]])
    {
      if b < |done| {
        var t := items0[done[b]];
        assert d'[b] == done[b];
        assert t.name in NamesAt(items0, done);
        assert StopsDone(tc0, tc, t);
      } else {
        assert d'[b] == i;
      }
    }
  }

  lemma UpStep(tc0: Ledger, tc: Ledger, tc': Ledger, items0: seq<Task>, done: seq<nat>, i: nat, rt: Runtime)
    requires UniqueNames(items0) && Distinct(items0, done) && i < |items0| && i !in done
    requires UpDone(tc0, tc, items0, done, rt) && items0[i].name in tc0
    requires tc' == tc[items0[i].name := Launched(tc[items0[i].name], rt, items0[i].name, Gap(items0[i]))]
    ensures tc[items0[i].name] == tc0[items0[i].name]
    ensures Distinct(items0, done + [i])
    ensures UpDone(tc0, tc', items0, done + [i], rt)
  {
    FreshName(items0, done, i);
    DistinctSnoc(items0, done, i);
    var d' := done + [i];
    forall b | 0 <= b < |d'|
      ensures var t := items0[d'[b]]; t.name in tc0 && tc'[t.name] == Launched(tc0[t.name], rt, t.name, Gap(t))
    {
      if b < |done| {
        var t := items0[done[b]];
        assert d'[b] == done[b];
        assert t.name in NamesAt(items0, done);
      } else {
        assert d'[b] == i;
      }
    }
  }

  /** No task called `n` is scaled in this pass. */
  predicate Idle(items: seq<Task>, n: string)
  {
    forall x :: 0 <= x < |items| && items[x].name == n ==> !TooMany(items[x]) && !TooFew(items[x])
  }

  /** `down` and `up` are the positions of the too-many and the too-few tasks, each once. */
  ghost predicate Split(items0: seq<Task>, down: seq<nat>, up: seq<nat>)
  {
    && Distinct(items0, down) && Distinct(items0, up)
    && (forall x :: 0 <= x < |items0| ==> (x in down <==> TooMany(items0[x])))
    && (forall x :: 0 <= x < |items0| ==> (x in up <==> TooFew(items0[x])))
  }

  lemma SplitOf(items0: seq<Task>)
    ensures Split(items0, Indices(items0, |items0|, true), Indices(items0, |items0|, false))
  {
    IndicesSpec(items0, |items0|, true);
    IndicesSpec(items0, |items0|, false);
  }

  /** The scale-down loop leaves the names and the scale-up candidates as they were. */
  lemma AfterScaleDown(items0: seq<Task>, itemsMid: seq<Task>, down: seq<nat>, up: seq<nat>)
    requires UniqueNames(items0) && Split(items0, down, up)
    requires Settled(items0, itemsMid, down)
    ensures UniqueNames(itemsMid) && Distinct(itemsMid, up)
    ensures forall x :: 0 <= x < |items0| && TooFew(items0[x]) ==> itemsMid[x] == items0[x]
  {
    assert forall x :: 0 <= x < |items0| ==> itemsMid[x].name == items0[x].name;
  }

  /** After the scale-down loop the scale-up loop's demands on its input still hold. */
  lemma ReadyForScaleUp(items0: seq<Task>, itemsMid: seq<Task>, down: seq<nat>, up: seq<nat>, tc0: Ledger, tcMid: Ledger)
    requires UniqueNames(items0) && Split(items0, down, up) && Settled(items0, itemsMid, down)
    requires tcMid.Keys == tc0.Keys
    requires forall x :: 0 <= x < |items0| && TooFew(items0[x]) ==> items0[x].name in tc0
    ensures UniqueNames(itemsMid) && Distinct(itemsMid, up)
    ensures forall b :: 0 <= b < |up| ==> TooFew(itemsMid[up[b]]) && itemsMid[up[b]].name in tcMid
    ensures Units(itemsMid, up, false) == Units(items0, up, false)
  {
    AfterScaleDown(items0, itemsMid, down, up);
    assert forall b :: 0 <= b < |up| ==> up[b] in up;
    UnitsFrame(items0, itemsMid, up, false);
  }

  /** A name lies among `NamesAt(items, idx)` only through the one task that has it. */
  lemma NameAtUnique(items: seq<Task>, idx: seq<nat>, x: nat)
    requires UniqueNames(items) && Distinct(items, idx) && x < |items|
    ensures items[x].name in NamesAt(items, idx) <==> x in idx
  {
    if items[x].name in NamesAt(items, idx) {
      var b :| 0 <= b < |idx| && items[idx[b]].name == items[x].name;
      assert idx[b] == x;
    }
    if x in idx {
      var b :| 0 <= b < |idx| && idx[b] == x;
      assert items[idx[b]].name in NamesAt(items, idx);
    }
  }

  lemma StoppedAfterPass(items0: seq<Task>, itemsMid: seq<Task>, tc0: Ledger, tcMid: Ledger, tcEnd: Ledger,
                         down: seq<nat>, up: seq<nat>, rt: Runtime, x: nat)
    requires UniqueNames(items0) && Split(items0, down, up) && Settled(items0, itemsMid, down)
    requires DownDone(tc0, tcMid, items0, down) && UpDone(tcMid, tcEnd, itemsMid, up, rt)
    requires x < |items0| && TooMany(items0[x])
    ensures StopsDone(tc0, tcEnd, items0[x])
  {
    AfterScaleDown(items0, itemsMid, down, up);
    var b :| 0 <= b < |down| && down[b] == x;
    assert StopsDone(tc0, tcMid, items0[down[b]]);
    assert itemsMid[x].name == items0[x].name;
    NameAtUnique(itemsMid, up, x);
  }

  lemma StartedAfterPass(items0: seq<Task>, itemsMid: seq<Task>, tc0: Ledger, tcMid: Ledger, tcEnd: Ledger,
                         down: seq<nat>, up: seq<nat>, rt: Runtime, x: nat)
    requires UniqueNames(items0) && Split(items0, down, up) && Settled(items0, itemsMid, down)
    requires DownDone(tc0, tcMid, items0, down) && UpDone(tcMid, tcEnd, itemsMid, up, rt)
    requires x < |items0| && TooFew(items0[x])
    ensures items0[x].name in tc0
    ensures tcEnd[items0[x].name] == Launched(tc0[items0[x].name], rt, items0[x].name, Gap(items0[x]))
  {
    AfterScaleDown(items0, itemsMid, down, up);
    var c :| 0 <= c < |up| && up[c] == x;
    assert itemsMid[up[c]] == items0[x];
    NameAtUnique(items0, down, x);
  }

  lemma IdleAfterPass(items0: seq<Task>, itemsMid: seq<Task>, tc0: Ledger, tcMid: Ledger, tcEnd: Ledger,
                      down: seq<nat>, up: seq<nat>, rt: Runtime, n: string)
    requires UniqueNames(items0) && Split(items0, down, up) && Settled(items0, itemsMid, down)
    requires DownDone(tc0, tcMid, items0, down) && UpDone(tcMid, tcEnd, itemsMid, up, rt)
    requires n in tc0 && Idle(items0, n)
    ensures tcEnd[n] == tc0[n]
  {
    AfterScaleDown(items0, itemsMid, down, up);
    forall b | 0 <= b < |down|
      ensures items0[down[b]].name != n
    {
      assert down[b] in down;
    }
    forall c | 0 <= c < |up|
      ensures itemsMid[up[c]].name != n
    {
      assert up[c] in up;
    }
  }

  /**
   * What the two loops of a pass add up to: every scaled task ends at its
   * demand, too-many tasks have had their stops, too-few tasks their starts,
   * and nothing else changed.
   */
  lemma PassComposition(items0: seq<Task>, itemsMid: seq<Task>, itemsEnd: seq<Task>,
                        tc0: Ledger, tcMid: Ledger, tcEnd: Ledger, down: seq<nat>, up: seq<nat>, rt: Runtime)
    requires UniqueNames(items0) && Split(items0, down, up)
    requires Settled(items0, itemsMid, down) && Settled(itemsMid, itemsEnd, up)
    requires DownDone(tc0, tcMid, items0, down) && UpDone(tcMid, tcEnd, itemsMid, up, rt)
    ensures |itemsEnd| == |items0|
    ensures forall x :: 0 <= x < |items0| ==>
      itemsEnd[x] == (if TooMany(items0[x]) || TooFew(items0[x]) then items0[x].(requested := items0[x].demand) else items0[x])
    ensures tcEnd.Keys == tc0.Keys
    ensures forall x :: 0 <= x < |items0| && TooMany(items0[x]) ==> StopsDone(tc0, tcEnd, items0[x])
    ensures forall x :: 0 <= x < |items0| && TooFew(items0[x]) ==>
      items0[x].name in tc0 && tcEnd[items0[x].name] == Launched(tc0[items0[x].name], rt, items0[x].name, Gap(items0[x]))
    ensures forall n :: n in tc0 && Idle(items0, n) ==> tcEnd[n] == tc0[n]
  {
    forall x | 0 <= x < |items0| && TooMany(items0[x])
      ensures StopsDone(tc0, tcEnd, items0[x])
    {
      StoppedAfterPass(items0, itemsMid, tc0, tcMid, tcEnd, down, up, rt, x);
    }
    forall x | 0 <= x < |items0| && TooFew(items0[x])
      ensures items0[x].name in tc0 && tcEnd[items0[x].name] == Launched(tc0[items0[x].name], rt, items0[x].name, Gap(items0[x]))
    {
      StartedAfterPass(items0, itemsMid, tc0, tcMid, tcEnd, down, up, rt, x);
    }
    forall n | n in tc0 && Idle(items0, n)
      ensures tcEnd[n] == tc0[n]
    {
      IdleAfterPass(items0, itemsMid, tc0, tcMid, tcEnd, down, up, rt, n);
    }
  }
}
