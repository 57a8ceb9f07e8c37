/**
 * What one listing pass does to the record store, stated as functions of the
 * store before the pass, the managed task names (the names in the task
 * collection) and the reported container list: flags are cleared, the
 * reports are folded in one after the other, and records that were not seen
 * and are known to be going away are dropped.
 */
module Observation {
  import opened Wrappers
  import opened Status
  import opened Records
  import opened Demand

  /** The label key whose value names the task that owns a container. */
  const LabelKey: string := "com.microscaling.microscaling-in-a-box"

  /** One entry of the runtime's container list. */
  datatype Reported = Reported(id: string, status: string, labels: map<string, string>)

  function LabelOf(c: Reported): Option<string>
  {
    if LabelKey in c.labels then Some(c.labels[LabelKey]) else None
  }

  /** The container carries the ownership label and names a managed task. */
  predicate Claims(c: Reported, names: set<string>)
  {
    LabelOf(c).Some? && LabelOf(c).value in names
  }

  /**
   * Every claimed container names a task that has an entry and has a full
   * container ID (its short form is taken).
   */
  predicate Processable(tc: Ledger, names: set<string>, cs: seq<Reported>)
  {
    forall c :: c in cs && Claims(c, names) ==> LabelOf(c).value in tc && |c.id| >= 12
  }

  /** The record a report speaks of, before it is applied: an absent one counts as unset. */
  function Prior(m: Entry, id: string): State
  {
    if id in m then m[id].state else Unset
  }

  function ResetEntry(m: Entry): Entry
  {
    map id | id in m :: m[id].(updated := false)
  }

  /** Phase one: clear the seen flag of every record of a managed task. */
  function Reset(tc: Ledger, names: set<string>): Ledger
  {
    map n | n in tc :: if n in names then ResetEntry(tc[n]) else tc[n]
  }

  /** Phase two, one report: record what the runtime says about a claimed container. */
  function ObserveOne(tc: Ledger, names: set<string>, c: Reported): (r: Ledger)
    requires Claims(c, names) ==> LabelOf(c).value in tc && |c.id| >= 12
    ensures r.Keys == tc.Keys
  {
    if !Claims(c, names) then tc
    else
      var n, id := LabelOf(c).value, ShortId(c.id);
      tc[n := tc[n][id := Container(Apply(Prior(tc[n], id), StatusToState(c.status)), true)]]
  }

  /** Phase two: the reports folded in, in list order. */
  function ObserveAll(tc: Ledger, names: set<string>, cs: seq<Reported>): (r: Ledger)
    requires Processable(tc, names, cs)
    ensures r.Keys == tc.Keys
    decreases |cs|
  {
    if cs == [] then tc
    else
      var front := cs[..|cs| - 1];
      assert forall c :: c in front ==> c in cs;
      ObserveOne(ObserveAll(tc, names, front), names, cs[|cs| - 1])
  }

  /** A record that was not seen and whose container is being removed or has exited. */
  predicate Doomed(r: Container)
  {
    !r.updated && (r.state == Removing || r.state == Exited)
  }

  function CollectEntry(m: Entry): Entry
  {
    map id | id in m && !Doomed(m[id]) :: m[id]
  }

  /** Phase three: drop the doomed records of every managed task. */
  function Collect(tc: Ledger, names: set<string>): Ledger
  {
    map n | n in tc :: if n in names then CollectEntry(tc[n]) else tc[n]
  }

  /** The record store after a listing pass. */
  function Reconcile(tc: Ledger, names: set<string>, cs: seq<Reported>): (r: Ledger)
    requires Processable(tc, names, cs)
    ensures r.Keys == tc.Keys
  {
    Collect(ObserveAll(Reset(tc, names), names, cs), names)
  }

  /** The states reported, in list order, for the container recorded as `id` under task `n`. */
  function Sightings(cs: seq<Reported>, n: string, id: string): seq<State>
    decreases |cs|
  {
    if cs == [] then []
    else
      var c := cs[|cs| - 1];
      Sightings(cs[..|cs| - 1], n, id) +
        (if LabelOf(c) == Some(n) && |c.id| >= 12 && c.id[..12] == id then [StatusToState(c.status)] else [])
  }

  /** The number of reported containers labelled with task `n` whose status reads as running. */
  function RunningCount(cs: seq<Reported>, n: string): nat
    decreases |cs|
  {
    if cs == [] then 0
    else
      var c := cs[|cs| - 1];
      RunningCount(cs[..|cs| - 1], n) + (if LabelOf(c) == Some(n) && StatusToState(c.status) == Running then 1 else 0)
  }

  lemma {:induction false} SightingsAppend(a: seq<Reported>, b: seq<Reported>, n: string, id: string)
    ensures Sightings(a + b, n, id) == Sightings(a, n, id) + Sightings(b, n, id)
    decreases |b|
  {
    if b != [] {
      var front := b[..|b| - 1];
      assert (a + b)[..|a + b| - 1] == a + front;
      SightingsAppend(a, front, n, id);
    } else {
      assert a + b == a;
    }
  }

  lemma {:induction false} RunningCountAppend(a: seq<Reported>, b: seq<Reported>, n: string)
    ensures RunningCount(a + b, n) == RunningCount(a, n) + RunningCount(b, n)
    decreases |b|
  {
    if b != [] {
      var front := b[..|b| - 1];
      assert (a + b)[..|a + b| - 1] == a + front;
      RunningCountAppend(a, front, n);
    } else {
      assert a + b == a;
    }
  }

  /**
   * Folding the reports in, record by record: a managed task's record
   * that was reported holds the state its reports settle on and is marked
   * seen; one that was not reported is as it was; nothing else is added.
   * Entries of unmanaged names are untouched.
   */
  lemma {:induction false} ObserveAllAt(tc: Ledger, names: set<string>, cs: seq<Reported>, n: string, id: string)
    requires Processable(tc, names, cs) && n in tc
    ensures n !in names ==> ObserveAll(tc, names, cs)[n] == tc[n]
    ensures n in names ==>
      (id in ObserveAll(tc, names, cs)[n] <==> id in tc[n] || Sightings(cs, n, id) != [])
    ensures n in names && Sightings(cs, n, id) != [] ==>
      ObserveAll(tc, names, cs)[n][id] == Container(Settle(Prior(tc[n], id), Sightings(cs, n, id)), true)
    ensures n in names && Sightings(cs, n, id) == [] && id in tc[n] ==>
      ObserveAll(tc, names, cs)[n][id] == tc[n][id]
    decreases |cs|
  {
    if cs != [] {
      var front, c := cs[..|cs| - 1], cs[|cs| - 1];
      assert forall c' :: c' in front ==> c' in cs;
      ObserveAllAt(tc, names, front, n, id);
      var s0 := Sightings(front, n, id);
      var s := Sightings(cs, n, id);
      if n in names && Claims(c, names) && LabelOf(c).value == n && ShortId(c.id) == id {
        assert s == s0 + [StatusToState(c.status)];
        assert s[..|s| - 1] == s0;
      } else if n in names {
        assert s == s0;
      }
    }
  }

  /**
   * The record store after a listing pass, record by record. For a
   * managed task: a reported container's record exists, holds the state
   * its reports settle on from its prior state, and is marked seen; an
   * unreported record is dropped exactly when it is removing or exited, and
   * otherwise kept with its state and its seen flag cleared; no other record
   * appears. Entries of unmanaged names are untouched.
   */
  lemma ReconcileAt(tc: Ledger, names: set<string>, cs: seq<Reported>, n: string, id: string)
    requires Processable(tc, names, cs) && n in tc
    ensures n !in names ==> Reconcile(tc, names, cs)[n] == tc[n]
    ensures n in names && Sightings(cs, n, id) != [] ==>
      && id in Reconcile(tc, names, cs)[n]
      && Reconcile(tc, names, cs)[n][id] == Container(Settle(Prior(tc[n], id), Sightings(cs, n, id)), true)
    ensures n in names && Sightings(cs, n, id) == [] ==>
      && (id in Reconcile(tc, names, cs)[n] <==> id in tc[n] && tc[n][id].state !in {Removing, Exited})
      && (id in Reconcile(tc, names, cs)[n] ==> Reconcile(tc, names, cs)[n][id] == tc[n][id].(updated := false))
  {
    var reset := Reset(tc, names);
    ObserveAllAt(reset, names, cs, n, id);
    if n in names {
      assert Prior(reset[n], id) == Prior(tc[n], id);
    }
  }

  /** A listing pass run a second time over the same list leaves the store as the first left it. */
  lemma ReconcileIdempotent(tc: Ledger, names: set<string>, cs: seq<Reported>)
    requires Processable(tc, names, cs)
    ensures Processable(Reconcile(tc, names, cs), names, cs)
    ensures Reconcile(Reconcile(tc, names, cs), names, cs) == Reconcile(tc, names, cs)
  {
    var r1 := Reconcile(tc, names, cs);
    var r2 := Reconcile(r1, names, cs);
    forall n | n in tc
      ensures r2[n] == r1[n]
    {
      forall id
        ensures (id in r2[n] <==> id in r1[n]) && (id in r1[n] ==> r2[n][id] == r1[n][id])
      {
        ReconcileAt(tc, names, cs, n, id);
        ReconcileAt(r1, names, cs, n, id);
        if n in names && Sightings(cs, n, id) != [] {
          SettleIdempotent(Prior(tc[n], id), Sightings(cs, n, id));
        }
      }
    }
  }

  /**
   * A reported container that does not claim a managed task (no label,
   * or a label naming a task the scheduler does not manage) changes neither
   * the store nor any running count, wherever it stands in the list.
   */
  lemma IgnoresUnclaimed(tc: Ledger, names: set<string>, a: seq<Reported>, c: Reported, b: seq<Reported>)
    requires !Claims(c, names) && Processable(tc, names, a + b)
    ensures Processable(tc, names, a + [c] + b)
    ensures Reconcile(tc, names, a + [c] + b) == Reconcile(tc, names, a + b)
    ensures forall n :: n in names ==> RunningCount(a + [c] + b, n) == RunningCount(a + b, n)
  {
    var with, without := a + [c] + b, a + b;
    assert forall c' :: c' in with ==> c' in without || c' == c;
    var r1, r2 := Reconcile(tc, names, with), Reconcile(tc, names, without);
    forall n | n in names
      ensures RunningCount(with, n) == RunningCount(without, n)
    {
      RunningCountAppend(a + [c], b, n);
      RunningCountAppend(a, [c], n);
      RunningCountAppend(a, b, n);
      assert RunningCount([c], n) == 0 by { assert [c][..0] == []; }
    }
    forall n | n in tc
      ensures n in r1 && n in r2 && r1[n] == r2[n]
    {
      forall id
        ensures (id in r1[n] <==> id in r2[n]) && (id in r1[n] ==> r1[n][id] == r2[n][id])
      {
        SightingsAppend(a + [c], b, n, id);
        SightingsAppend(a, [c], n, id);
        SightingsAppend(a, b, n, id);
        if n in names {
          assert Sightings([c], n, id) == [] by { assert [c][..0] == []; }
        }
        if n in names {
          assert Sightings(with, n, id) == Sightings(without, n, id);
        }
        ReconcileAt(tc, names, with, n, id);
        ReconcileAt(tc, names, without, n, id);
      }
    }
  }

  /** Clearing the flags of one more managed task. */
  lemma ResetStep(tc: Ledger, names: set<string>, n: string)
    ensures Reset(tc, names + {n}) ==
      (var r := Reset(tc, names); if n in r then r[n := ResetEntry(r[n])] else r)
  {
    var r := Reset(tc, names);
    if n in r {
      assert ResetEntry(ResetEntry(tc[n])) == ResetEntry(tc[n]);
    }
  }

  /** Sweeping one more managed task. */
  lemma CollectStep(tc: Ledger, names: set<string>, n: string)
    ensures Collect(tc, names + {n}) ==
      (var r := Collect(tc, names); if n in r then r[n := CollectEntry(r[n])] else r)
  {
    var r := Collect(tc, names);
    if n in r {
      assert CollectEntry(CollectEntry(tc[n])) == CollectEntry(tc[n]);
    }
  }

  /** Folding in the reports one at a time. */
  lemma ObserveStep(tc: Ledger, names: set<string>, cs: seq<Reported>, k: nat)
    requires Processable(tc, names, cs) && k < |cs|
    ensures Processable(tc, names, cs[..k]) && Processable(tc, names, cs[..k + 1])
    ensures ObserveAll(tc, names, cs[..k + 1]) == ObserveOne(ObserveAll(tc, names, cs[..k]), names, cs[k])
    ensures forall n ::
      RunningCount(cs[..k + 1], n) == RunningCount(cs[..k], n) + (if LabelOf(cs[k]) == Some(n) && StatusToState(cs[k].status) == Running then 1 else 0)
  {
    assert forall c :: c in cs[..k + 1] ==> c in cs;
    assert cs[..k + 1][..k] == cs[..k];
  }

  /**
   * The running count a listing pass gives task `x`: reports are credited to
   * the first task of their label's name, so a later task of the same name
   * stays at zero.
   */
  function Counted(items: seq<Task>, cs: seq<Reported>, x: nat): nat
    requires x < |items|
  {
    if Find(items, items[x].name) == Some(x) then RunningCount(cs, items[x].name) else 0
  }

  /** The running counts of `items` are those credited from `cs`, all else as in `items0`. */
  ghost predicate CountsFrom(items0: seq<Task>, items: seq<Task>, cs: seq<Reported>)
  {
    && |items| == |items0|
    && forall x :: 0 <= x < |items0| ==> items[x] == items0[x].(running := Counted(items0, cs, x))
  }

  /** The counts after one more report: one more running replica for the first task of its label's name, if it reads as running. */
  function Credit(items0: seq<Task>, items: seq<Task>, c: Reported): seq<Task>
    requires |items| == |items0|
  {
    if LabelOf(c).Some? && Find(items0, LabelOf(c).value).Some? && StatusToState(c.status) == Running then
      var f := Find(items0, LabelOf(c).value).value;
      items[f := items[f].(running := items[f].running + 1)]
    else items
  }

  lemma CountStep(items0: seq<Task>, items: seq<Task>, cs: seq<Reported>, k: nat)
    requires k < |cs| && CountsFrom(items0, items, cs[..k])
    ensures CountsFrom(items0, Credit(items0, items, cs[k]), cs[..k + 1])
  {
    assert cs[..k + 1][..k] == cs[..k];
  }

  /**
   * Counting again over the same list, starting from counts a pass already
   * produced, gives the same counts: the credit depends on the task names
   * alone, and those a pass leaves unchanged.
   */
  lemma RecountStable(items0: seq<Task>, items1: seq<Task>, cs: seq<Reported>)
    requires CountsFrom(items0, items1, cs)
    ensures forall x :: 0 <= x < |items0| ==> Counted(items1, cs, x) == Counted(items0, cs, x)
  {
    forall x | 0 <= x < |items0|
      ensures Counted(items1, cs, x) == Counted(items0, cs, x)
    {
      FindByNames(items1, items0, items0[x].name);
    }
  }

}
