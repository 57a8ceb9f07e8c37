/**
 * The task collection the scheduler reads and updates: each task's desired
 * count (`demand`), the count the scheduler has committed to (`requested`)
 * and the count last observed live (`running`).
 */
module Demand {
  import opened Wrappers

  datatype Task = Task(name: string, demand: int, requested: int, running: int)

  /** The mutable, shared task collection; the order of `items` is the order tasks are visited in. */
  class Tasks {
    var items: seq<Task>

    constructor (items: seq<Task>)
      ensures this.items == items
    {
      this.items := items;
    }
  }

  function Names(items: seq<Task>): set<string>
  {
    set x | 0 <= x < |items| :: items[x].name
  }

  /** Task names identify tasks. */
  predicate UniqueNames(items: seq<Task>)
  {
    forall x, y :: 0 <= x < y < |items| ==> items[x].name != items[y].name
  }

  /** Lookup by name: the position of the first task called `name`, or None when no task is. */
  function Find(items: seq<Task>, name: string): (r: Option<nat>)
    ensures r.Some? ==> r.value < |items| && items[r.value].name == name
    ensures r.Some? ==> forall x :: 0 <= x < r.value ==> items[x].name != name
    ensures r.None? <==> name !in Names(items)
  {
    if items == [] then None
    else if items[0].name == name then Some(0)
    else
      match Find(items[1..], name)
      case None =>
        assert forall x :: 0 < x < |items| ==> items[x].name == items[1..][x - 1].name;
        None
      case Some(k) => Some(k + 1)
  }

  /** Extending a prefix by one task adds that task's name. */
  lemma NamesSnoc(items: seq<Task>, i: nat)
    requires i < |items|
    ensures Names(items[..i + 1]) == Names(items[..i]) + {items[i].name}
  {
    var p, q := items[..i + 1], items[..i];
    assert forall x :: 0 <= x < i ==> p[x] == q[x];
    assert p[i] == items[i];
  }

  /** Lookup depends on the names alone. */
  lemma FindByNames(a: seq<Task>, b: seq<Task>, name: string)
    requires |a| == |b| && forall x :: 0 <= x < |a| ==> a[x].name == b[x].name
    ensures Find(a, name) == Find(b, name)
  {
    assert Names(a) == Names(b);
  }

  /** Tasks that agree on their names have the same name set. */
  lemma SameNames(a: seq<Task>, b: seq<Task>)
    requires |a| == |b| && forall x :: 0 <= x < |a| ==> a[x].name == b[x].name
    ensures Names(a) == Names(b)
  {
  }

  lemma ReplaceTwice(items: seq<Task>, i: nat, t: Task, t': Task)
    requires i < |items|
    ensures items[i := t][i := t'] == items[i := t']
  {
  }

}
