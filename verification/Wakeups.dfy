/** The hand-off between concurrent writers and the router worker: every load, compare and
    exchange, push, drain and clear is its own step (`mark_dirty_fast` in `src/sched.rs`,
    `drain_router_sources` and `advance_router` in `src/engine/mod.rs`). */
module Wakeups {
  import opened Common

  /** One source topic. `loading` marks have yet to read the dirty flag, `casing` have read it
      clear and are about to claim it, `pushing` has claimed it and not yet queued the
      topic. `drained`: the worker took the topic off the ready set and has not cleared the
      flag. `todo`: routers on the worker's list. `active`: passes under way, with the head
      each read. */
  datatype State = State(
    head: nat,
    cursors: seq<nat>,
    flag: bool,
    loading: nat,
    casing: nat,
    pushing: bool,
    queued: bool,
    drained: bool,
    todo: set<nat>,
    active: map<nat, nat>)

  datatype Step =
    | Publish(n: nat)             // a writer publishes and is about to mark
    | Load
    | Claim
    | Push
    | Drain
    | Clear
    | Begin(i: nat)               // a pass of router i starts: by the worker or a reader
    | Finish(i: nat, c: nat)      // it ends at cursor c, anywhere up to the head it read

  function Do(s: State, step: Step): State {
    match step
    case Publish(n) => s.(head := s.head + n, loading := s.loading + 1)
    case Load =>
      if s.loading == 0 then s
      else if s.flag then s.(loading := s.loading - 1)
      else s.(loading := s.loading - 1, casing := s.casing + 1)
    case Claim =>
      if s.casing == 0 then s
      else if s.flag then s.(casing := s.casing - 1)
      else s.(casing := s.casing - 1, flag := true, pushing := true)
    case Push => if s.pushing then s.(pushing := false, queued := true) else s
    case Drain => if s.queued && !s.drained && s.todo == {} then s.(queued := false, drained := true) else s
    case Clear => if s.drained then s.(drained := false, flag := false, todo := Range(0, |s.cursors|)) else s
    case Begin(i) =>
      if i < |s.cursors| && i !in s.active then s.(todo := s.todo - {i}, active := s.active[i := s.head]) else s
    case Finish(i, c) =>
      if i in s.active && i < |s.cursors| && s.cursors[i] <= c && (c <= s.active[i] || c == s.cursors[i]) then
        s.(cursors := s.cursors[i := c], active := s.active - {i},
           loading := if c < s.active[i] then s.loading + 1 else s.loading)
      else s
  }

  function Run(s: State, steps: seq<Step>): State {
    if steps == [] then s else Do(Run(s, steps[..|steps| - 1]), steps[|steps| - 1])
  }

  function Quiet(head: nat, routers: nat): State {
    State(head, seq(routers, i => head), false, 0, 0, false, false, false, {}, map[])
  }

  /** A set flag is queued, about to be queued, or drained and not yet cleared: one of them. */
  ghost predicate FlagIsHeld(s: State) { Ind(s.flag) == Ind(s.queued) + Ind(s.pushing) + Ind(s.drained) }

  /** A router that is behind is flagged, on the worker's list, about to be marked, or in a
      pass that read the current head. */
  ghost predicate Covered(s: State, i: nat)
    requires i < |s.cursors|
  {
    s.cursors[i] < s.head ==>
        s.flag || i in s.todo || s.loading + s.casing > 0 || (i in s.active && s.active[i] == s.head)
  }

  ghost predicate Inv(s: State) {
    && FlagIsHeld(s)
    && (forall i :: 0 <= i < |s.cursors| ==> Covered(s, i))
    && (forall i :: i in s.active ==> i < |s.cursors| && s.active[i] <= s.head)
  }

  lemma StepKeepsInv(s: State, step: Step)
    requires Inv(s)
    ensures Inv(Do(s, step)) && |Do(s, step).cursors| == |s.cursors|
  {
    var s1 := Do(s, step);
    forall i | 0 <= i < |s1.cursors| ensures Covered(s1, i) { assert Covered(s, i); }
  }

  lemma {:induction false} RunKeepsInv(head: nat, routers: nat, steps: seq<Step>)
    ensures Inv(Run(Quiet(head, routers), steps))
  {
    if steps != [] {
      RunKeepsInv(head, routers, steps[..|steps| - 1]);
      StepKeepsInv(Run(Quiet(head, routers), steps[..|steps| - 1]), steps[|steps| - 1]);
    }
  }

  /** No lost wake-up: in every run, once every mark has been made and no pass is under way,
      a source some router is behind on is flagged or on the worker's list; and a set flag
      is on its way to the worker. */
  lemma NoLostWakeup(head: nat, routers: nat, steps: seq<Step>, i: nat)
    requires var s := Run(Quiet(head, routers), steps);
             i < |s.cursors| && s.cursors[i] < s.head && s.loading == 0 && s.casing == 0 && s.active == map[]
    ensures var s := Run(Quiet(head, routers), steps);
            && (i in s.todo || s.queued || s.pushing || s.drained)
            && (s.flag <==> s.queued || s.pushing || s.drained)
  {
    RunKeepsInv(head, routers, steps);
    assert Covered(Run(Quiet(head, routers), steps), i);
  }
}
