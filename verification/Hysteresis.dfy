/** The 64-unit hysteresis of consider_route bounds route flapping: with the
    metrics of a slot fixed, however feasibility, exported routes and the clock
    change between calls, only 1025 calls can ever change the installed route. */
module Hysteresis {
  import opened Selection

  /** One call of consider_route: on which route, and what it sees. */
  datatype Call = Call(env: Env, sources: Sources, k: nat)

  predicate Applicable(slot: Slot, c: Call) {
    Known(c.sources, slot) && c.k < |slot|
  }

  predicate AllApplicable(slot: Slot, calls: seq<Call>)
    decreases |calls|
  {
    calls == [] ||
    (Applicable(slot, calls[0]) &&
     AllApplicable(Consider(calls[0].env, calls[0].sources, slot, calls[0].k), calls[1..]))
  }

  /** How many of the calls install or switch. */
  function SwitchCount(slot: Slot, calls: seq<Call>): nat
    requires AllApplicable(slot, calls)
    decreases |calls|
  {
    if calls == [] then 0
    else
      var c := calls[0];
      (if Switches(c.env, c.sources, slot, c.k) then 1 else 0) +
      SwitchCount(Consider(c.env, c.sources, slot, c.k), calls[1..])
  }

  /** How many switches a slot can still make. */
  function Budget(slot: Slot): nat {
    if !HasInstalled(slot) then 1025
    else if Metric(slot[0]) >= INFINITY then 1024
    else Metric(slot[0]) / 64
  }

  /** A switch puts route k in force, and either leaves nothing, leaves infinity,
      or lowers the installed metric by at least 64. */
  lemma SwitchSpends(slot: Slot, c: Call)
    requires Applicable(slot, c) && Switches(c.env, c.sources, slot, c.k)
    ensures var after := Consider(c.env, c.sources, slot, c.k);
            && HasInstalled(after)
            && Budget(after) < Budget(slot)
            && (HasInstalled(slot) && Metric(slot[0]) < INFINITY ==> Metric(after[0]) + 64 <= Metric(slot[0]))
  {
  }

  lemma {:induction false} AtMost1025Switches(slot: Slot, calls: seq<Call>)
    requires AllApplicable(slot, calls)
    ensures SwitchCount(slot, calls) <= Budget(slot) <= 1025
    decreases |calls|
  {
    if calls != [] {
      var c := calls[0];
      if Switches(c.env, c.sources, slot, c.k) {
        SwitchSpends(slot, c);
      }
      AtMost1025Switches(Consider(c.env, c.sources, slot, c.k), calls[1..]);
    }
  }
}
