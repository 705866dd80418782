/**
 Online restart: processes pass the execution lock on through a control lock. Any number of processes may be
 started or may crash at any time.
 */
module Watchdog {
  import opened Wrappers

  /** Where the watchdog of a process stands between two lock operations. */
  datatype Phase =
    | WaitControl
    | WaitExecution
    | Handover
    | Executing
    | Probing
    | GivingUp
    | Stopped

  /** The locks a phase holds. */
  predicate HoldsControl(ph: Phase) {
    ph.WaitExecution? || ph.Handover? || ph.Probing?
  }

  predicate HoldsExecution(ph: Phase) {
    ph.Handover? || ph.Executing? || ph.Probing? || ph.GivingUp?
  }

  datatype State = State(procs: map<nat, Phase>, control: Option<nat>, execution: Option<nat>)

  const Initial := State(map[], None, None)

  /** One lock operation of a process that changes something; failed attempts that are retried change nothing. */
  datatype Step =
    | Spawn(p: nat)
    | TakeControl(p: nat)
    | TakeExecution(p: nat)
    | ReleaseControl(p: nat)
    | Probe(p: nat)
    | Refused(p: nat)
    | ReleaseExecution(p: nat)
    | Crash(p: nat)

  predicate Enabled(s: State, step: Step) {
    var p := step.p;
    if step.Spawn? then p !in s.procs
    else
      && p in s.procs
      && match step
         case TakeControl(_) => s.procs[p].WaitControl? && s.control.None?
         case TakeExecution(_) => s.procs[p].WaitExecution? && s.execution.None?
         case ReleaseControl(_) => s.procs[p].Handover? || s.procs[p].Probing?
         case Probe(_) => s.procs[p].Executing? && s.control.None?
         case Refused(_) => s.procs[p].Executing? && s.control.Some?
         case ReleaseExecution(_) => s.procs[p].GivingUp?
         case _ => !s.procs[p].Stopped?
  }

  function NewPhase(step: Step): Phase {
    match step
    case Spawn(_) => WaitControl
    case TakeControl(_) => WaitExecution
    case TakeExecution(_) => Handover
    case ReleaseControl(_) => Executing
    case Probe(_) => Probing
    case Refused(_) => GivingUp
    case ReleaseExecution(_) => Stopped
    case Crash(_) => Stopped
  }

  function Apply(s: State, step: Step): State {
    State(
      s.procs[step.p := NewPhase(step)],
      match step
      case TakeControl(p) => Some(p)
      case Probe(p) => Some(p)
      case ReleaseControl(_) => None
      case Crash(p) => if s.control == Some(p) then None else s.control
      case _ => s.control,
      match step
      case TakeExecution(p) => Some(p)
      case ReleaseExecution(_) => None
      case Crash(p) => if s.execution == Some(p) then None else s.execution
      case _ => s.execution)
  }

  predicate ValidRun(s: State, steps: seq<Step>)
    decreases |steps|
  {
    steps == [] || (Enabled(s, steps[0]) && ValidRun(Apply(s, steps[0]), steps[1..]))
  }

  function Exec(s: State, steps: seq<Step>): State
    decreases |steps|
  {
    if steps == [] then s else Exec(Apply(s, steps[0]), steps[1..])
  }

  /** A lock is held by exactly the process whose phase says so. */
  ghost predicate Inv(s: State) {
    && (forall p: nat :: p in s.procs ==> (HoldsControl(s.procs[p]) <==> s.control == Some(p)))
    && (forall p: nat :: p in s.procs ==> (HoldsExecution(s.procs[p]) <==> s.execution == Some(p)))
    && (s.control.Some? ==> s.control.value in s.procs)
    && (s.execution.Some? ==> s.execution.value in s.procs)
  }

  lemma StepKeeps(s: State, step: Step)
    requires Inv(s) && Enabled(s, step)
    ensures Inv(Apply(s, step))
  {
  }

  lemma {:induction false} RunKeeps(s: State, steps: seq<Step>)
    requires Inv(s) && ValidRun(s, steps)
    ensures Inv(Exec(s, steps))
    decreases |steps|
  {
    hide Inv;
    if steps != [] {
      StepKeeps(s, steps[0]);
      RunKeeps(Apply(s, steps[0]), steps[1..]);
    }
  }

  /** In no run do two processes execute at the same time, however many are started or crash. */
  lemma OneExecutor(steps: seq<Step>, p: nat, q: nat)
    requires ValidRun(Initial, steps)
    ensures
      var s := Exec(Initial, steps);
      p in s.procs && q in s.procs && HoldsExecution(s.procs[p]) && HoldsExecution(s.procs[q]) ==> p == q
  {
    RunKeeps(Initial, steps);
  }

  /** A process gives up execution only when another one holds the control lock and waits to execute. */
  lemma GivesUpToHeir(steps: seq<Step>, p: nat) returns (heir: nat)
    requires ValidRun(Initial, steps) && Enabled(Exec(Initial, steps), Refused(p))
    ensures
      var s := Exec(Initial, steps);
      heir != p && heir in s.procs && s.procs[heir].WaitExecution? && s.control == Some(heir)
  {
    RunKeeps(Initial, steps);
    heir := Exec(Initial, steps).control.value;
  }

  /** Who executes goes on executing until it is refused the control lock or crashes, whatever the others do. */
  lemma {:induction false} ExecutingStays(s: State, steps: seq<Step>, p: nat)
    requires Inv(s) && ValidRun(s, steps) && p in s.procs && s.procs[p] in {Handover, Executing, Probing}
    requires Refused(p) !in steps && Crash(p) !in steps
    ensures Exec(s, steps).execution == Some(p) && p in Exec(s, steps).procs
    ensures Exec(s, steps).procs[p] in {Handover, Executing, Probing}
    decreases |steps|
  {
    if steps != [] {
      StepKeeps(s, steps[0]);
      assert steps[0] in steps;
      ExecutingStays(Apply(s, steps[0]), steps[1..], p);
    }
  }

  /** Probing finds nobody and changes nothing. */
  lemma ProbeIsHarmless(s: State, p: nat)
    requires Inv(s) && p in s.procs && s.procs[p].Executing? && s.control.None?
    ensures Enabled(s, Probe(p)) && Enabled(Apply(s, Probe(p)), ReleaseControl(p))
    ensures Apply(Apply(s, Probe(p)), ReleaseControl(p)) == s
  {
    assert Apply(Apply(s, Probe(p)), ReleaseControl(p)).procs == s.procs;
  }

  /** `steps` lead from `s` to `end`. */
  predicate Leads(s: State, steps: seq<Step>, end: State) {
    ValidRun(s, steps) && Exec(s, steps) == end
  }

  lemma LeadsCons(s: State, step: Step, steps: seq<Step>, end: State)
    requires Enabled(s, step) && Leads(Apply(s, step), steps, end)
    ensures Leads(s, [step] + steps, end)
  {
    assert ([step] + steps)[1..] == steps;
  }

  /** A restart succeeds: a process `q` started beside `p`, which executes, takes over, and `p` stops. */
  lemma RestartSucceeds(s: State, p: nat, q: nat)
    requires Inv(s) && p in s.procs && s.procs[p].Executing? && s.control.None? && q !in s.procs
    ensures Leads(s, [Spawn(q), TakeControl(q), Refused(p), ReleaseExecution(p), TakeExecution(q), ReleaseControl(q)],
                  State(s.procs[p := Stopped][q := Executing], None, Some(q)))
  {
    var s1 := Apply(s, Spawn(q));
    var s2 := Apply(s1, TakeControl(q));
    var s3 := Apply(s2, Refused(p));
    var s4 := Apply(s3, ReleaseExecution(p));
    var s5 := Apply(s4, TakeExecution(q));
    var end := State(s.procs[p := Stopped][q := Executing], None, Some(q));
    assert Enabled(s, Spawn(q)) && Enabled(s1, TakeControl(q)) && Enabled(s2, Refused(p));
    assert Enabled(s3, ReleaseExecution(p)) && Enabled(s4, TakeExecution(q)) && Enabled(s5, ReleaseControl(q));
    assert Apply(s5, ReleaseControl(q)).procs == end.procs;
    assert Leads(end, [], end);
    hide Leads, Enabled, Apply;
    LeadsCons(s5, ReleaseControl(q), [], end);
    LeadsCons(s4, TakeExecution(q), [ReleaseControl(q)], end);
    LeadsCons(s3, ReleaseExecution(p), [TakeExecution(q), ReleaseControl(q)], end);
    LeadsCons(s2, Refused(p), [ReleaseExecution(p), TakeExecution(q), ReleaseControl(q)], end);
    LeadsCons(s1, TakeControl(q), [Refused(p), ReleaseExecution(p), TakeExecution(q), ReleaseControl(q)], end);
    LeadsCons(s, Spawn(q),
              [TakeControl(q), Refused(p), ReleaseExecution(p), TakeExecution(q), ReleaseControl(q)], end);
  }

  predicate CrashFree(steps: seq<Step>) {
    forall step :: step in steps ==> !step.Crash?
  }

  /** `heir` waits to execute, and nobody but `giver` can still hold the execution lock. */
  ghost predicate HandingOver(s: State, giver: nat, heir: nat) {
    && Inv(s) && giver in s.procs && heir in s.procs && giver != heir && s.procs[heir].WaitExecution?
    && (s.execution.None? || (s.execution == Some(giver) && s.procs[giver].GivingUp?))
  }

  /** Without crashes the heir is the next to take the execution lock, whatever the other processes do. */
  lemma {:induction false} HeirIsNext(s: State, steps: seq<Step>, giver: nat, heir: nat, k: nat)
    requires HandingOver(s, giver, heir) && ValidRun(s, steps) && CrashFree(steps)
    requires k < |steps| && steps[k].TakeExecution? && forall j :: 0 <= j < k ==> !steps[j].TakeExecution?
    ensures steps[k].p == heir
    decreases |steps|
  {
    var step := steps[0];
    if k > 0 {
      assert !step.TakeExecution? && !step.Crash?;
      HeirIsNext(Apply(s, step), steps[1..], giver, heir, k - 1);
    }
  }

  /** From the moment a process gives up, its heir executes next: the two results in one run. */
  lemma HandOff(before: seq<Step>, p: nat, after: seq<Step>, k: nat) returns (heir: nat)
    requires ValidRun(Initial, before) && Enabled(Exec(Initial, before), Refused(p))
    requires ValidRun(Apply(Exec(Initial, before), Refused(p)), after) && CrashFree(after)
    requires k < |after| && after[k].TakeExecution? && forall j :: 0 <= j < k ==> !after[j].TakeExecution?
    ensures
      var s := Exec(Initial, before);
      heir in s.procs && s.procs[heir].WaitExecution? && after[k].p == heir
  {
    heir := GivesUpToHeir(before, p);
    RunKeeps(Initial, before);
    var s := Exec(Initial, before);
    StepKeeps(s, Refused(p));
    HeirIsNext(Apply(s, Refused(p)), after, p, heir, k);
  }

  /** After a hand-off the heir can indeed go on: nothing else has to happen but the release. */
  lemma HeirCanExecute(s: State, giver: nat, heir: nat)
    requires HandingOver(s, giver, heir)
    ensures
      var steps := (if s.execution.None? then [] else [ReleaseExecution(giver)]) + [TakeExecution(heir)];
      ValidRun(s, steps) && Exec(s, steps).execution == Some(heir)
  {
    if s.execution.None? {
      assert [] + [TakeExecution(heir)] == [TakeExecution(heir)];
    } else {
      var steps := [ReleaseExecution(giver)] + [TakeExecution(heir)];
      var s1 := Apply(s, ReleaseExecution(giver));
      assert steps[1..] == [TakeExecution(heir)] && s1.procs[heir].WaitExecution?;
      assert Exec(s1, [TakeExecution(heir)]) == Apply(s1, TakeExecution(heir));
    }
  }

  /** A crash of the heir breaks the chain: another process can then execute first. */
  lemma CrashedHeirIsSkipped(s: State, giver: nat, heir: nat, other: nat)
    requires HandingOver(s, giver, heir) && s.execution.None? && other in s.procs && s.procs[other].WaitControl?
    ensures
      var steps := [Crash(heir), TakeControl(other), TakeExecution(other)];
      ValidRun(s, steps) && Exec(s, steps).execution == Some(other)
  {
    var s1 := Apply(s, Crash(heir));
    var s2 := Apply(s1, TakeControl(other));
    var steps := [Crash(heir), TakeControl(other), TakeExecution(other)];
    assert steps[1..] == [TakeControl(other), TakeExecution(other)];
    assert steps[1..][1..] == [TakeExecution(other)];
    assert s.control == Some(heir) && s1.control.None? && s1.procs[other].WaitControl?;
    assert ValidRun(s2, [TakeExecution(other)]);
    assert ValidRun(s1, steps[1..]);
    assert Exec(s2, [TakeExecution(other)]) == Apply(s2, TakeExecution(other));
    assert Exec(s1, steps[1..]) == Exec(s2, [TakeExecution(other)]);
  }
}
