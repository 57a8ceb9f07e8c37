/**
 * The Docker-backed scheduler: the container record store it keeps, the
 * start and stop actions for one container, the scaling pass and the
 * listing pass. Each runtime call is replaced by its outcome, given as an
 * input, and each background unit of work runs to completion in place.
 */
module Scheduler {
  import opened Wrappers
  import opened Status
  import opened Demand
  import opened Records
  import opened Planning
  import opened Observation

  /** Clears the seen flag of every record of one task. */
  method ClearFlags(entry: Entry) returns (cleared: Entry)
    ensures cleared == ResetEntry(entry)
  {
    cleared := entry;
    var pending := entry.Keys;
    while pending != {}
      invariant pending <= entry.Keys
      invariant cleared.Keys == entry.Keys
      invariant forall id :: id in entry ==>
        cleared[id] == if id in pending then entry[id] else entry[id].(updated := false)
      decreases pending
    {
      var id :| id in pending;
      cleared := cleared[id := cleared[id].(updated := false)];
      pending := pending - {id};
    }
  }

  /** Deletes the records of one task that were not seen and are removing or exited. */
  method Sweep(entry: Entry) returns (kept: Entry)
    ensures kept == CollectEntry(entry)
  {
    kept := entry;
    var pending := entry.Keys;
    while pending != {}
      invariant pending <= entry.Keys
      invariant kept.Keys <= entry.Keys
      invariant forall id :: id in entry ==>
        (id in kept <==> id in pending || !Doomed(entry[id])) && (id in kept ==> kept[id] == entry[id])
      decreases pending
    {
      var id :| id in pending;
      var cc := kept[id];
      if !cc.updated {
        if cc.state == Removing || cc.state == Exited {
          kept := kept - {id};
        }
      }
      pending := pending - {id};
    }
    assert kept.Keys == CollectEntry(entry).Keys;
  }

  /**
   * The selection loop of a scaling pass: the positions of the tasks to
   * scale down and of those to scale up, in collection order.
   */
  method Select(items: seq<Task>) returns (tooMany: seq<nat>, tooFew: seq<nat>)
    ensures tooMany == Indices(items, |items|, true)
    ensures tooFew == Indices(items, |items|, false)
  {
    tooMany, tooFew := [], [];
    var i := 0;
    while i < |items|
      invariant 0 <= i <= |items|
      invariant tooFew == Indices(items, i, false)
      invariant tooMany == Indices(items, i, true)
    {
      var task := items[i];
      if task.demand > task.requested && task.requested == task.running {
        tooFew := tooFew + [i];
      }
      if task.demand < task.requested && task.requested == task.running {
        tooMany := tooMany + [i];
      }
      i := i + 1;
    }
  }

  class DockerScheduler {
    /** Records by task name, then by short container ID. */
    var taskContainers: Ledger

    ghost predicate Valid()
      reads this
    {
      ShortKeys(taskContainers)
    }

    constructor ()
      ensures Valid() && taskContainers == map[]
    {
      taskContainers := map[];
    }

    /** Registers a task: its entry is (re)set to empty, whether or not it existed. */
    method InitScheduler(name: string)
      requires Valid()
      modifies this
      ensures Valid()
      ensures taskContainers == old(taskContainers)[name := map[]]
    {
      taskContainers := taskContainers[name := map[]];
    }

    /**
     * Starts one container of task `name`: a successful create records it as
     * created under its short ID, and a successful start then marks it starting.
     */
    method StartTask(name: string, created: Option<FullId>, started: bool)
      requires Valid()
      requires created.Some? ==> name in taskContainers
      modifies this
      ensures Valid()
      ensures created.None? ==> taskContainers == old(taskContainers)
      ensures created.Some? ==>
        taskContainers == old(taskContainers)[name := StartEffect(old(taskContainers)[name], created, started)]
    {
      if created.None? {
        return;
      }
      var containerID := ShortId(created.value);
      taskContainers := taskContainers[name := taskContainers[name][containerID := Container(Created, false)]];
      if !started {
        return;
      }
      var entry := taskContainers[name];
      taskContainers := taskContainers[name := entry[containerID := entry[containerID].(state := Starting)]];
      assert entry[containerID := entry[containerID].(state := Starting)] ==
        old(taskContainers)[name][containerID := Container(Starting, false)];
    }

    /**
     * Stops one running container of task `name`, chosen freely among its
     * running records (`victim`): the record becomes stopping, and removing
     * once the stop call succeeds. With no running record it fails and
     * changes nothing.
     */
    method StopTask(name: string, stopped: bool) returns (err: Option<Error>, victim: string)
      requires Valid()
      modifies this
      ensures Valid()
      ensures err.None? <==> RunningIds(EntryOf(old(taskContainers), name)) != {}
      ensures err.Some? ==>
        err == Some(NoContainerToStop(name)) && victim == "" && taskContainers == old(taskContainers)
      ensures err.None? ==>
        && victim in RunningIds(EntryOf(old(taskContainers), name))
        && taskContainers == MarkRecord(old(taskContainers), name, victim, if stopped then Removing else Stopping)
    {
      var these := EntryOf(taskContainers, name);
      victim := "";
      var pending := these.Keys;
      while pending != {}
        invariant pending <= these.Keys
        invariant victim == ""
        invariant forall id :: id in these && id !in pending ==> these[id].state != Running
        decreases pending
      {
        var id :| id in pending;
        if these[id].state == Running {
          victim := id;
          break;
        }
        pending := pending - {id};
      }
      if victim == "" {
        assert RunningIds(these) == {};
        err := Some(NoContainerToStop(name));
        return;
      }
      assert victim in RunningIds(these);
      taskContainers := taskContainers[name := these[victim := these[victim].(state := Stopping)]];
      err := None;
      if stopped {
        var entry := taskContainers[name];
        taskContainers := taskContainers[name := entry[victim := entry[victim].(state := Removing)]];
        assert entry[victim := entry[victim].(state := Removing)] == these[victim := these[victim].(state := Removing)];
      }
    }

    /** The stop attempts of one task that has too many replicas, with `requested` lowered once per attempt. */
    method StopRepeatedly(tasks: Tasks, i: nat, rt: Runtime) returns (err: Option<Error>, units: seq<Unit>)
      requires Valid()
      requires i < |tasks.items| && tasks.items[i].demand < tasks.items[i].requested
      modifies this, tasks
      ensures Valid()
      ensures tasks.items == old(tasks.items)[i := old(tasks.items)[i].(requested := old(tasks.items)[i].demand)]
      ensures units == Repeat(Stop(old(tasks.items)[i].name), Gap(old(tasks.items)[i]))
      ensures err == StopOutcome(old(tasks.items)[i], old(taskContainers))
      ensures taskContainers.Keys == old(taskContainers).Keys
      ensures forall n :: n in old(taskContainers) && n != old(tasks.items)[i].name ==>
        taskContainers[n] == old(taskContainers)[n]
      ensures StopsDone(old(taskContainers), taskContainers, old(tasks.items)[i])
    {
      var task := tasks.items[i];
      var diff := task.requested - task.demand;
      ghost var items0, tc0 := tasks.items, taskContainers;
      units := [];
      err := None;
      var j := 0;
      while j < diff
        invariant 0 <= j <= diff
        invariant Valid()
        invariant |tasks.items| == |items0| && tasks.items == items0[i := task.(requested := task.requested - j)]
        invariant units == Repeat(Stop(task.name), j)
        invariant StoppedSoFar(tc0, taskContainers, task.name, j)
        invariant j > 0 ==> err == if |RunningIds(EntryOf(tc0, task.name))| < j then Some(NoContainerToStop(task.name)) else None
      {
        ghost var before := taskContainers;
        var e, victim := StopTask(task.name, rt.stop(task.name, j));
        if e.None? {
          StopStep(tc0, before, task.name, j, victim, if rt.stop(task.name, j) then Removing else Stopping);
        } else {
          StopStepFails(tc0, before, task.name, j);
        }
        err := e;
        ghost var cur := tasks.items;
        tasks.items := tasks.items[i := task.(requested := task.requested - j - 1)];
        ReplaceTwice(items0, i, cur[i], tasks.items[i]);
        units := units + [Stop(task.name)];
        j := j + 1;
      }
    }

    /** The start attempts of one task that has too few replicas, with `requested` raised once per attempt. */
    method StartRepeatedly(tasks: Tasks, i: nat, rt: Runtime) returns (units: seq<Unit>)
      requires Valid()
      requires i < |tasks.items| && tasks.items[i].requested < tasks.items[i].demand
      requires tasks.items[i].name in taskContainers
      modifies this, tasks
      ensures Valid()
      ensures tasks.items == old(tasks.items)[i := old(tasks.items)[i].(requested := old(tasks.items)[i].demand)]
      ensures units == Repeat(Start(old(tasks.items)[i].name), Gap(old(tasks.items)[i]))
      ensures taskContainers == old(taskContainers)[old(tasks.items)[i].name :=
        Launched(old(taskContainers)[old(tasks.items)[i].name], rt, old(tasks.items)[i].name, Gap(old(tasks.items)[i]))]
    {
      var task := tasks.items[i];
      var diff := task.demand - task.requested;
      units := [];
      var j := 0;
      while j < diff
        invariant 0 <= j <= diff
        invariant Valid()
        invariant tasks.items == old(tasks.items)[i := task.(requested := task.requested + j)]
        invariant units == Repeat(Start(task.name), j)
        invariant taskContainers ==
          old(taskContainers)[task.name := Launched(old(taskContainers)[task.name], rt, task.name, j)]
      {
        StartTask(task.name, rt.create(task.name, j), rt.start(task.name, j));
        tasks.items := tasks.items[i := tasks.items[i].(requested := tasks.items[i].requested + 1)];
        units := units + [Start(task.name)];
        j := j + 1;
      }
    }


    /** One round of the scale-down loop: the stop attempts of the `a`-th selected task. */
    method StopSelected(tasks: Tasks, idx: seq<nat>, a: nat, rt: Runtime, ghost items0: seq<Task>, ghost tc0: Ledger)
      returns (err: Option<Error>, units: seq<Unit>)
      requires Valid()
      requires UniqueNames(items0) && Distinct(items0, idx) && a < |idx| && TooMany(items0[idx[a]])
      requires Settled(items0, tasks.items, idx[..a]) && DownDone(tc0, taskContainers, items0, idx[..a])
      modifies this, tasks
      ensures Valid()
      ensures Settled(items0, tasks.items, idx[..a + 1]) && DownDone(tc0, taskContainers, items0, idx[..a + 1])
      ensures units == Repeat(Stop(items0[idx[a]].name), Gap(items0[idx[a]]))
      ensures err == StopOutcome(items0[idx[a]], tc0)
    {
      var i := idx[a];
      PrefixStep(items0, idx, a);
      SettledStep(items0, tasks.items, idx[..a], i);
      ghost var before := taskContainers;
      err, units := StopRepeatedly(tasks, i, rt);
      DownStep(tc0, before, taskContainers, items0, idx[..a], i);
    }

    /** The scale-down loop: the stop attempts of the tasks at `idx`, in order. */
    method ScaleDown(tasks: Tasks, idx: seq<nat>, rt: Runtime) returns (err: Option<Error>, units: seq<Unit>)
      requires Valid()
      requires UniqueNames(tasks.items) && Distinct(tasks.items, idx)
      requires forall b :: 0 <= b < |idx| ==> TooMany(tasks.items[idx[b]])
      modifies this, tasks
      ensures Valid()
      ensures Settled(old(tasks.items), tasks.items, idx)
      ensures units == Units(old(tasks.items), idx, true)
      ensures err == if idx == [] then None else StopOutcome(old(tasks.items)[idx[|idx| - 1]], old(taskContainers))
      ensures DownDone(old(taskContainers), taskContainers, old(tasks.items), idx)
    {
      ghost var items0, tc0 := tasks.items, taskContainers;
      err := None;
      units := [];
      var a := 0;
      while a < |idx|
        invariant 0 <= a <= |idx|
        invariant Valid()
        invariant Settled(items0, tasks.items, idx[..a])
        invariant units == Units(items0, idx[..a], true)
        invariant err == if a == 0 then None else StopOutcome(items0[idx[a - 1]], tc0)
        invariant DownDone(tc0, taskContainers, items0, idx[..a])
      {
        var e, more := StopSelected(tasks, idx, a, rt, items0, tc0);
        UnitsSnoc(items0, idx, a, true);
        err := e;
        units := units + more;
        a := a + 1;
      }
      assert idx[..a] == idx;
    }

    /** The scale-up loop: the start attempts of the tasks at `idx`, in order. */
    method ScaleUp(tasks: Tasks, idx: seq<nat>, rt: Runtime) returns (units: seq<Unit>)
      requires Valid()
      requires UniqueNames(tasks.items) && Distinct(tasks.items, idx)
      requires forall b :: 0 <= b < |idx| ==> TooFew(tasks.items[idx[b]]) && tasks.items[idx[b]].name in taskContainers
      modifies this, tasks
      ensures Valid()
      ensures Settled(old(tasks.items), tasks.items, idx)
      ensures units == Units(old(tasks.items), idx, false)
      ensures UpDone(old(taskContainers), taskContainers, old(tasks.items), idx, rt)
    {
      ghost var items0, tc0 := tasks.items, taskContainers;
      units := [];
      var a := 0;
      while a < |idx|
        invariant 0 <= a <= |idx|
        invariant Valid()
        invariant Settled(items0, tasks.items, idx[..a])
        invariant units == Units(items0, idx[..a], false)
        invariant UpDone(tc0, taskContainers, items0, idx[..a], rt)
      {
        var i := idx[a];
        PrefixStep(items0, idx, a);
        SettledStep(items0, tasks.items, idx[..a], i);
        ghost var before := taskContainers;
        var more := StartRepeatedly(tasks, i, rt);
        UpStep(tc0, before, taskContainers, items0, idx[..a], i, rt);
        UnitsSnoc(items0, idx, a, false);
        units := units + more;
        a := a + 1;
      }
      assert idx[..a] == idx;
    }

    /**
     * One scaling pass. Tasks with too many replicas and no change in flight
     * get `requested - demand` stop attempts, then tasks with too few get
     * `demand - requested` start attempts; `requested` moves by one per
     * attempt, whatever its outcome. The pass returns the outcome of its
     * last stop attempt.
     */
    method StopStartTasks(tasks: Tasks, rt: Runtime) returns (err: Option<Error>, units: seq<Unit>)
      requires Valid()
      requires UniqueNames(tasks.items)
      requires forall x :: 0 <= x < |tasks.items| && TooFew(tasks.items[x]) ==> tasks.items[x].name in taskContainers
      modifies this, tasks
      ensures Valid()
      ensures |tasks.items| == |old(tasks.items)|
      ensures forall x :: 0 <= x < |tasks.items| ==>
        (var t := old(tasks.items)[x]; tasks.items[x] == if TooMany(t) || TooFew(t) then t.(requested := t.demand) else t)
      ensures units == Plan(old(tasks.items))
      ensures err == PassError(old(tasks.items), old(taskContainers))
      ensures taskContainers.Keys == old(taskContainers).Keys
      ensures forall x :: 0 <= x < |old(tasks.items)| && TooMany(old(tasks.items)[x]) ==>
        StopsDone(old(taskContainers), taskContainers, old(tasks.items)[x])
      ensures forall x :: 0 <= x < |old(tasks.items)| && TooFew(old(tasks.items)[x]) ==>
        (var t := old(tasks.items)[x]; taskContainers[t.name] == Launched(old(taskContainers)[t.name], rt, t.name, Gap(t)))
      ensures forall n :: n in old(taskContainers) && Idle(old(tasks.items), n) ==>
        taskContainers[n] == old(taskContainers)[n]
    {
      ghost var items0, tc0 := tasks.items, taskContainers;
      var tooMany, tooFew := Select(tasks.items);
      SplitOf(items0);
      IndicesSpec(items0, |items0|, true);
      err, units := ScaleDown(tasks, tooMany, rt);
      ghost var itemsMid, tcMid := tasks.items, taskContainers;
      ReadyForScaleUp(items0, itemsMid, tooMany, tooFew, tc0, tcMid);
      var more := ScaleUp(tasks, tooFew, rt);
      units := units + more;
      PassComposition(items0, itemsMid, tasks.items, tc0, tcMid, taskContainers, tooMany, tooFew, rt);
    }

    /** Listing pass, first loop: zero every task's running count and clear the seen flags of its records. */
    method ResetCounts(tasks: Tasks)
      requires Valid()
      modifies this, tasks
      ensures Valid()
      ensures |tasks.items| == |old(tasks.items)|
      ensures forall x :: 0 <= x < |tasks.items| ==> tasks.items[x] == old(tasks.items)[x].(running := 0)
      ensures taskContainers == Reset(old(taskContainers), Names(old(tasks.items)))
    {
      ghost var items0, tc0 := tasks.items, taskContainers;
      var i := 0;
      while i < |tasks.items|
        invariant 0 <= i <= |tasks.items| == |items0|
        invariant Valid()
        invariant forall x :: 0 <= x < |items0| ==>
          tasks.items[x] == (if x < i then items0[x].(running := 0) else items0[x])
        invariant taskContainers == Reset(tc0, Names(items0[..i]))
      {
        var t := tasks.items[i];
        tasks.items := tasks.items[i := t.(running := 0)];
        NamesSnoc(items0, i);
        ResetStep(tc0, Names(items0[..i]), t.name);
        if t.name in taskContainers {
          var cleared := ClearFlags(taskContainers[t.name]);
          taskContainers := taskContainers[t.name := cleared];
        }
        i := i + 1;
      }
      assert items0[..i] == items0;
    }

    /** Records one report about container `id` of task `name`: its state moves as the report says, and it is marked seen. */
    method RecordReport(name: string, id: string, observed: State)
      requires Valid()
      requires name in taskContainers && |id| == 12
      modifies this
      ensures Valid()
      ensures taskContainers == old(taskContainers)[name :=
        old(taskContainers)[name][id := Container(Apply(Prior(old(taskContainers)[name], id), observed), true)]]
    {
      var record := if id in taskContainers[name] then taskContainers[name][id] else Container(Unset, false);
      var state := record.state;
      if observed == Running {
        if state == Starting || state == Unset {
          state := Running;
        }
      } else if observed == Dead {
        state := Dead;
      }
      taskContainers := taskContainers[name := taskContainers[name][id := Container(state, true)]];
    }

    /**
     * One report of the listing pass: a container claiming a task of the
     * collection has its record updated and, when running, is credited to
     * that task.
     */
    method ObserveReport(tasks: Tasks, c: Reported, ghost items0: seq<Task>)
      requires Valid()
      requires |tasks.items| == |items0| && forall x :: 0 <= x < |items0| ==> tasks.items[x].name == items0[x].name
      requires Claims(c, Names(items0)) ==> LabelOf(c).value in taskContainers && |c.id| >= 12
      modifies this, tasks
      ensures Valid()
      ensures taskContainers == ObserveOne(old(taskContainers), Names(items0), c)
      ensures tasks.items == Credit(items0, old(tasks.items), c)
    {
      ghost var before := tasks.items;
      if LabelKey in c.labels {
        var name := c.labels[LabelKey];
        assert LabelOf(c) == Some(name);
        FindByNames(tasks.items, items0, name);
        var found := Find(tasks.items, name);
        if found.Some? {
          var x := found.value;
          var newState := StatusToState(c.status);
          if newState == Running {
            tasks.items := tasks.items[x := tasks.items[x].(running := tasks.items[x].running + 1)];
          }
          assert tasks.items == Credit(items0, before, c);
          RecordReport(name, c.id[..12], newState);
        }
      }
    }

    /** Listing pass, second loop: record each claimed report and count the running ones. */
    method ObserveReports(tasks: Tasks, cs: seq<Reported>)
      requires Valid()
      requires Processable(taskContainers, Names(tasks.items), cs)
      requires forall x :: 0 <= x < |tasks.items| ==> tasks.items[x].running == 0
      modifies this, tasks
      ensures Valid()
      ensures taskContainers == ObserveAll(old(taskContainers), Names(old(tasks.items)), cs)
      ensures |tasks.items| == |old(tasks.items)|
      ensures forall x :: 0 <= x < |tasks.items| ==>
        tasks.items[x] == old(tasks.items)[x].(running := Counted(old(tasks.items), cs, x))
    {
      ghost var items0, tc0 := tasks.items, taskContainers;
      ghost var names := Names(items0);
      assert CountsFrom(items0, tasks.items, cs[..0]);
      var k := 0;
      while k < |cs|
        invariant 0 <= k <= |cs|
        invariant Valid()
        invariant taskContainers == ObserveAll(tc0, names, cs[..k])
        invariant CountsFrom(items0, tasks.items, cs[..k])
      {
        ObserveStep(tc0, names, cs, k);
        CountStep(items0, tasks.items, cs, k);
        ObserveReport(tasks, cs[k], items0);
        k := k + 1;
      }
      assert cs[..k] == cs;
    }

    /** Listing pass, third loop: drop the unseen records of every task that are removing or exited. */
    method CollectRecords(tasks: Tasks)
      requires Valid()
      modifies this
      ensures Valid()
      ensures taskContainers == Collect(old(taskContainers), Names(tasks.items))
    {
      ghost var tc0 := taskContainers;
      var i := 0;
      while i < |tasks.items|
        invariant 0 <= i <= |tasks.items|
        invariant Valid()
        invariant taskContainers == Collect(tc0, Names(tasks.items[..i]))
      {
        var t := tasks.items[i];
        NamesSnoc(tasks.items, i);
        CollectStep(tc0, Names(tasks.items[..i]), t.name);
        if t.name in taskContainers {
          var kept := Sweep(taskContainers[t.name]);
          taskContainers := taskContainers[t.name := kept];
        }
        i := i + 1;
      }
      assert tasks.items[..i] == tasks.items;
    }

    /**
     * The listing pass. When the container list cannot be fetched nothing
     * changes. Otherwise every task's running count is reset and recounted
     * from the list, every record of a managed task has its seen flag
     * cleared, each claimed report is recorded, and the unseen records of
     * removing or exited containers are dropped.
     */
    method CountAllTasks(tasks: Tasks, listing: Option<seq<Reported>>) returns (err: Option<Error>)
      requires Valid()
      requires listing.Some? ==> Processable(taskContainers, Names(tasks.items), listing.value)
      modifies this, tasks
      ensures Valid()
      ensures listing.None? ==>
        err == Some(ListFailed) && taskContainers == old(taskContainers) && tasks.items == old(tasks.items)
      ensures listing.Some? ==> err.None?
      ensures listing.Some? ==> taskContainers == Reconcile(old(taskContainers), Names(old(tasks.items)), listing.value)
      ensures listing.Some? ==> |tasks.items| == |old(tasks.items)| && forall x :: 0 <= x < |tasks.items| ==>
        tasks.items[x] == old(tasks.items)[x].(running := Counted(old(tasks.items), listing.value, x))
    {
      if listing.None? {
        return Some(ListFailed);
      }
      var cs := listing.value;
      ghost var items0, tc0 := tasks.items, taskContainers;
      ghost var names := Names(items0);
      ResetCounts(tasks);
      ghost var itemsR, tcR := tasks.items, taskContainers;
      SameNames(itemsR, items0);
      ObserveReports(tasks, cs);
      ghost var itemsO, tcO := tasks.items, taskContainers;
      forall x | 0 <= x < |items0|
        ensures Counted(itemsR, cs, x) == Counted(items0, cs, x)
      {
        FindByNames(itemsR, items0, items0[x].name);
      }
      SameNames(itemsO, items0);
      CollectRecords(tasks);
      assert taskContainers == Collect(ObserveAll(Reset(tc0, names), names, cs), names);
      err := None;
    }
  }

}
