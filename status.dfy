/**
 * Container states, the classification of Docker status strings and the
 * transition a record undergoes when the runtime reports a state for it.
 */
module Status {
  import opened Strings

  /**
   * The states a container record can hold. `Unset` is the empty state of a
   * record created for a container first seen in a listing; `Unknown` is the
   * classification of a status string matching none of the known markers.
   */
  datatype State = Unset | Created | Starting | Running | Stopping | Removing | Exited | Dead | Unknown

  /** The canonical state for a runtime status string; the markers are tried in a fixed order. */
  function StatusToState(status: string): (s: State)
    ensures s in {Running, Removing, Exited, Dead, Unknown}
  {
    if Contains(status, "Up") then Running
    else if Contains(status, "Removal") then Removing
    else if Contains(status, "Exit") then Exited
    else if Contains(status, "Dead") then Dead
    else Unknown
  }

  /**
   * Each classification holds exactly when its marker occurs and no marker
   * of higher priority does: "Up" wins over everything else.
   */
  lemma StatusPriority(status: string)
    ensures StatusToState(status) == Running <==> Occurs(status, "Up")
    ensures StatusToState(status) == Removing <==> !Occurs(status, "Up") && Occurs(status, "Removal")
    ensures StatusToState(status) == Exited <==>
      !Occurs(status, "Up") && !Occurs(status, "Removal") && Occurs(status, "Exit")
    ensures StatusToState(status) == Dead <==>
      !Occurs(status, "Up") && !Occurs(status, "Removal") && !Occurs(status, "Exit") && Occurs(status, "Dead")
    ensures StatusToState(status) == Unknown <==>
      !Occurs(status, "Up") && !Occurs(status, "Removal") && !Occurs(status, "Exit") && !Occurs(status, "Dead")
  {
    ContainsIffOccurs(status, "Up");
    ContainsIffOccurs(status, "Removal");
    ContainsIffOccurs(status, "Exit");
    ContainsIffOccurs(status, "Dead");
  }

  /**
   * The state a record takes when the runtime reports `observed` for it:
   * a report of running only promotes a record that is starting or unset,
   * a report of dead always wins, and every other report leaves it alone.
   */
  function Apply(prior: State, observed: State): (r: State)
    ensures prior == Dead || observed == Dead ==> r == Dead
    ensures r != prior ==> r == observed && (observed == Running || observed == Dead)
  {
    match observed
    case Running => if prior == Starting || prior == Unset then Running else prior
    case Dead => Dead
    case _ => prior
  }

  /** The state after applying a sequence of reports, oldest first. */
  function Settle(prior: State, reports: seq<State>): State
    decreases |reports|
  {
    if reports == [] then prior
    else Apply(Settle(prior, reports[..|reports| - 1]), reports[|reports| - 1])
  }

  /**
   * What a sequence of reports does to a record, independent of their order:
   * any dead report makes it dead; otherwise a running report promotes a
   * starting or unset record; otherwise it keeps its state.
   */
  lemma {:induction false} SettleClosedForm(prior: State, reports: seq<State>)
    ensures Settle(prior, reports) ==
      if Dead in reports then Dead
      else if Running in reports && (prior == Starting || prior == Unset) then Running
      else prior
    decreases |reports|
  {
    if reports != [] {
      var front, last := reports[..|reports| - 1], reports[|reports| - 1];
      assert reports == front + [last];
      SettleClosedForm(prior, front);
    }
  }

  /** Applying the same reports a second time changes nothing. */
  lemma SettleIdempotent(prior: State, reports: seq<State>)
    ensures Settle(Settle(prior, reports), reports) == Settle(prior, reports)
  {
    SettleClosedForm(prior, reports);
    SettleClosedForm(Settle(prior, reports), reports);
  }

  /**
   * A record the scheduler is terminating is never put back to running by
   * reports: it keeps its state unless a report says the container is dead.
   */
  lemma TerminatingNotRevived(prior: State, reports: seq<State>)
    requires prior == Stopping || prior == Removing
    ensures Settle(prior, reports) == (if Dead in reports then Dead else prior)
  {
    SettleClosedForm(prior, reports);
  }

}
