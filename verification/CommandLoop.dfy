/** `run_command`: the loop that serves controls, the expiry and the exit of one command. */
module CommandLoop {
  import opened Wrappers

  const TIMEOUT_EXIT_CODE := 124
  const CONTROL_CAPACITY := 32

  datatype Action = Write(delta: seq<bv8>, closeStdin: bool) | Resize(rows: nat, cols: nat) | Terminate

  /** A control request; `id` stands for its sender. */
  datatype Control = Control(id: nat, action: Action)

  datatype Result = Done | StdinNotEnabled | StdinClosed | ResizeFailed | NoLongerRunning
  datatype Outcome = Outcome(id: nat, result: Result)

  /** What the handler answers; `accepted` is whether the process took the input or the new size. */
  function Handle(streamStdin: bool, action: Action, accepted: bool): Result {
    match action
    case Write(delta, _) =>
      if !streamStdin then StdinNotEnabled
      else if |delta| > 0 && !accepted then StdinClosed
      else Done
    case Resize(_, _) => if accepted then Done else ResizeFailed
    case Terminate => Done
  }

  /** Running; the loop has ended with a code and output is being drained; or the command is over and its
      control receiver gone. */
  datatype Phase = Running | Draining(code: int) | Over(code: int)

  /** `waiting` are senders still blocked on a full queue. `issued` and `outcomes` record the run. */
  datatype Task = Task(
    streamStdin: bool,
    phase: Phase,
    controlOpen: bool,
    timedOut: bool,
    terminating: bool,
    waiting: seq<Control>,
    queue: seq<Control>,
    issued: set<nat>,
    outcomes: seq<Outcome>)

  function Start(streamStdin: bool): Task {
    Task(streamStdin, Running, true, false, false, [], [], {}, [])
  }

  datatype Step =
    | Issue(control: Control)
    | Accept
    | Serve(accepted: bool)
    | SendersGone
    | Expire
    | Exit(code: Option<int>)
    | Finish

  predicate Enabled(s: Task, step: Step) {
    match step
    case Issue(c) => c.id !in s.issued && s.controlOpen
    case Accept => !s.phase.Over? && |s.waiting| > 0 && |s.queue| < CONTROL_CAPACITY
    case Serve(_) => s.phase.Running? && s.controlOpen && |s.queue| > 0
    case SendersGone => s.phase.Running? && s.controlOpen && s.queue == [] && s.waiting == []
    case Expire => s.phase.Running? && !s.timedOut
    case Exit(_) => s.phase.Running?
    case Finish => s.phase.Draining?
  }

  function Dismissed(controls: seq<Control>): seq<Outcome> {
    if |controls| == 0 then []
    else Dismissed(controls[..|controls| - 1]) + [Outcome(controls[|controls| - 1].id, NoLongerRunning)]
  }

  function ExitCode(timedOut: bool, code: Option<int>): int {
    if timedOut then TIMEOUT_EXIT_CODE else match code case Some(c) => c case None => -1
  }

  function Apply(s: Task, step: Step): Task
    requires Enabled(s, step)
  {
    match step
    case Issue(c) =>
      var s' := s.(issued := s.issued + {c.id});
      if s.phase.Over? then s'.(outcomes := s.outcomes + [Outcome(c.id, NoLongerRunning)])
      else s'.(waiting := s.waiting + [c])
    case Accept => s.(waiting := s.waiting[1..], queue := s.queue + [s.waiting[0]])
    case Serve(accepted) =>
      var c := s.queue[0];
      s.(queue := s.queue[1..],
         terminating := s.terminating || c.action.Terminate?,
         outcomes := s.outcomes + [Outcome(c.id, Handle(s.streamStdin, c.action, accepted))])
    case SendersGone => s.(controlOpen := false, terminating := true)
    case Expire => s.(timedOut := true, terminating := true)
    case Exit(code) => s.(phase := Draining(ExitCode(s.timedOut, code)))
    case Finish =>
      s.(phase := Over(s.phase.code), waiting := [], queue := [],
         outcomes := s.outcomes + Dismissed(s.queue + s.waiting))
  }

  function After(streamStdin: bool, steps: seq<Step>): Option<Task> {
    if |steps| == 0 then Some(Start(streamStdin))
    else match After(streamStdin, steps[..|steps| - 1])
      case None => None
      case Some(s) => if Enabled(s, steps[|steps| - 1]) then Some(Apply(s, steps[|steps| - 1])) else None
  }

  // ---- Every control has one outcome ----

  function CountOutcomes(outcomes: seq<Outcome>, id: nat): nat {
    if |outcomes| == 0 then 0
    else CountOutcomes(outcomes[..|outcomes| - 1], id) + (if outcomes[|outcomes| - 1].id == id then 1 else 0)
  }

  function CountControls(controls: seq<Control>, id: nat): nat {
    if |controls| == 0 then 0
    else CountControls(controls[..|controls| - 1], id) + (if controls[|controls| - 1].id == id then 1 else 0)
  }

  lemma {:induction false} CountOutcomesConcat(a: seq<Outcome>, b: seq<Outcome>, id: nat)
    ensures CountOutcomes(a + b, id) == CountOutcomes(a, id) + CountOutcomes(b, id)
  {
    if |b| == 0 {
      assert a + b == a;
    } else {
      assert (a + b)[..|a + b| - 1] == a + b[..|b| - 1];
      CountOutcomesConcat(a, b[..|b| - 1], id);
    }
  }

  lemma {:induction false} CountControlsConcat(a: seq<Control>, b: seq<Control>, id: nat)
    ensures CountControls(a + b, id) == CountControls(a, id) + CountControls(b, id)
  {
    if |b| == 0 {
      assert a + b == a;
    } else {
      assert (a + b)[..|a + b| - 1] == a + b[..|b| - 1];
      CountControlsConcat(a, b[..|b| - 1], id);
    }
  }

  lemma {:induction false} CountDismissed(controls: seq<Control>, id: nat)
    ensures CountOutcomes(Dismissed(controls), id) == CountControls(controls, id)
  {
    if |controls| > 0 {
      var rest := controls[..|controls| - 1];
      CountDismissed(rest, id);
      assert Dismissed(controls)[..|Dismissed(controls)| - 1] == Dismissed(rest);
    }
  }

  lemma CountOne(c: Control, o: Outcome, id: nat)
    ensures CountControls([c], id) == if c.id == id then 1 else 0
    ensures CountOutcomes([o], id) == if o.id == id then 1 else 0
  {
    assert [c][..0] == [] && [o][..0] == [];
  }

  /** How often `id` stands for a control that is waiting, queued or settled. */
  function Weight(s: Task, id: nat): nat {
    CountControls(s.waiting, id) + CountControls(s.queue, id) + CountOutcomes(s.outcomes, id)
  }

  ghost predicate Conserved(s: Task) {
    && (forall id :: Weight(s, id) == if id in s.issued then 1 else 0)
    && (s.phase.Over? ==> s.waiting == [] && s.queue == [])
    && |s.queue| <= CONTROL_CAPACITY
  }

  lemma IssueWeight(s: Task, c: Control, id: nat)
    requires Enabled(s, Issue(c))
    ensures Weight(Apply(s, Issue(c)), id) == Weight(s, id) + (if c.id == id then 1 else 0)
  {
    CountOne(c, Outcome(c.id, NoLongerRunning), id);
    CountControlsConcat(s.waiting, [c], id);
    CountOutcomesConcat(s.outcomes, [Outcome(c.id, NoLongerRunning)], id);
  }

  lemma AcceptWeight(s: Task, id: nat)
    requires Enabled(s, Accept)
    ensures Weight(Apply(s, Accept), id) == Weight(s, id)
  {
    var c := s.waiting[0];
    assert s.waiting == [c] + s.waiting[1..];
    CountControlsConcat([c], s.waiting[1..], id);
    CountControlsConcat(s.queue, [c], id);
  }

  lemma ServeWeight(s: Task, accepted: bool, id: nat)
    requires Enabled(s, Serve(accepted))
    ensures Weight(Apply(s, Serve(accepted)), id) == Weight(s, id)
  {
    var c := s.queue[0];
    var o := Outcome(c.id, Handle(s.streamStdin, c.action, accepted));
    CountOne(c, o, id);
    assert s.queue == [c] + s.queue[1..];
    CountControlsConcat([c], s.queue[1..], id);
    CountOutcomesConcat(s.outcomes, [o], id);
  }

  lemma FinishWeight(s: Task, id: nat)
    requires Enabled(s, Finish)
    ensures Weight(Apply(s, Finish), id) == Weight(s, id)
  {
    CountOutcomesConcat(s.outcomes, Dismissed(s.queue + s.waiting), id);
    CountDismissed(s.queue + s.waiting, id);
    CountControlsConcat(s.queue, s.waiting, id);
  }

  lemma ApplyWeight(s: Task, step: Step, id: nat)
    requires Enabled(s, step)
    ensures Weight(Apply(s, step), id) == Weight(s, id) + (if step.Issue? && step.control.id == id then 1 else 0)
  {
    match step {
      case Issue(c) => IssueWeight(s, c, id);
      case Accept => AcceptWeight(s, id);
      case Serve(accepted) => ServeWeight(s, accepted, id);
      case Finish => FinishWeight(s, id);
      case _ =>
    }
  }

  /** Under any interleaving every control has at most one outcome; once the command is over, exactly
      one; and nothing that was not issued has any. */
  lemma {:induction false} ControlsConserved(streamStdin: bool, steps: seq<Step>)
    requires After(streamStdin, steps).Some?
    ensures var s := After(streamStdin, steps).value;
      && Conserved(s)
      && (forall id :: CountOutcomes(s.outcomes, id) <= 1)
      && (s.phase.Over? ==> forall id :: CountOutcomes(s.outcomes, id) == if id in s.issued then 1 else 0)
  {
    if |steps| > 0 {
      var step := steps[|steps| - 1];
      ControlsConserved(streamStdin, steps[..|steps| - 1]);
      var s := After(streamStdin, steps[..|steps| - 1]).value;
      forall id ensures Weight(Apply(s, step), id) == if id in Apply(s, step).issued then 1 else 0 {
        ApplyWeight(s, step, id);
        assert Weight(s, id) == if id in s.issued then 1 else 0;
      }
    }
    var s := After(streamStdin, steps).value;
    forall id ensures CountOutcomes(s.outcomes, id) <= 1 {
      assert Weight(s, id) == if id in s.issued then 1 else 0;
    }
    if s.phase.Over? {
      forall id ensures CountOutcomes(s.outcomes, id) == if id in s.issued then 1 else 0 {
        assert Weight(s, id) == if id in s.issued then 1 else 0;
      }
    }
  }

  // ---- First come, first served ----

  function OutcomeIds(outcomes: seq<Outcome>): seq<nat> {
    seq(|outcomes|, i requires 0 <= i < |outcomes| => outcomes[i].id)
  }

  function ControlIds(controls: seq<Control>): seq<nat> {
    seq(|controls|, i requires 0 <= i < |controls| => controls[i].id)
  }

  /** The senders, in the order they issued their controls. */
  function IssuedIds(steps: seq<Step>): seq<nat> {
    if |steps| == 0 then []
    else
      var last := steps[|steps| - 1];
      IssuedIds(steps[..|steps| - 1]) + (if last.Issue? then [last.control.id] else [])
  }

  function Line(s: Task): seq<nat> {
    OutcomeIds(s.outcomes) + ControlIds(s.queue) + ControlIds(s.waiting)
  }

  lemma {:induction false} DismissedIds(controls: seq<Control>)
    ensures OutcomeIds(Dismissed(controls)) == ControlIds(controls)
  {
    if |controls| > 0 {
      DismissedIds(controls[..|controls| - 1]);
      assert ControlIds(controls) == ControlIds(controls[..|controls| - 1]) + [controls[|controls| - 1].id];
      assert OutcomeIds(Dismissed(controls)) ==
        OutcomeIds(Dismissed(controls[..|controls| - 1])) + [controls[|controls| - 1].id];
    }
  }

  lemma IdsConcat(a: seq<Control>, b: seq<Control>)
    ensures ControlIds(a + b) == ControlIds(a) + ControlIds(b)
  {
  }

  lemma OutcomeIdsConcat(a: seq<Outcome>, b: seq<Outcome>)
    ensures OutcomeIds(a + b) == OutcomeIds(a) + OutcomeIds(b)
  {
  }

  lemma AcceptLine(s: Task)
    requires Enabled(s, Accept)
    ensures Line(Apply(s, Accept)) == Line(s)
  {
    var c := s.waiting[0];
    assert s.waiting == [c] + s.waiting[1..];
    IdsConcat([c], s.waiting[1..]);
    IdsConcat(s.queue, [c]);
  }

  lemma ServeLine(s: Task, accepted: bool)
    requires Enabled(s, Serve(accepted))
    ensures Line(Apply(s, Serve(accepted))) == Line(s)
  {
    var c := s.queue[0];
    var o := Outcome(c.id, Handle(s.streamStdin, c.action, accepted));
    assert s.queue == [c] + s.queue[1..];
    IdsConcat([c], s.queue[1..]);
    OutcomeIdsConcat(s.outcomes, [o]);
    assert OutcomeIds([o]) == ControlIds([c]);
  }

  lemma IssueLine(s: Task, c: Control)
    requires Enabled(s, Issue(c)) && (s.phase.Over? ==> s.queue == [] && s.waiting == [])
    ensures Line(Apply(s, Issue(c))) == Line(s) + [c.id]
  {
    IdsConcat(s.waiting, [c]);
    assert ControlIds([c]) == [c.id];
    OutcomeIdsConcat(s.outcomes, [Outcome(c.id, NoLongerRunning)]);
    assert OutcomeIds([Outcome(c.id, NoLongerRunning)]) == [c.id];
  }

  lemma FinishLine(s: Task)
    requires Enabled(s, Finish)
    ensures Line(Apply(s, Finish)) == Line(s)
  {
    var left := s.queue + s.waiting;
    DismissedIds(left);
    IdsConcat(s.queue, s.waiting);
    OutcomeIdsConcat(s.outcomes, Dismissed(left));
  }

  lemma ApplyLine(s: Task, step: Step)
    requires Enabled(s, step) && (s.phase.Over? ==> s.queue == [] && s.waiting == [])
    ensures Line(Apply(s, step)) == Line(s) + (if step.Issue? then [step.control.id] else [])
  {
    assert Line(s) + [] == Line(s);
    match step {
      case Issue(c) => IssueLine(s, c);
      case Accept => AcceptLine(s);
      case Serve(accepted) => ServeLine(s, accepted);
      case Finish => FinishLine(s);
      case _ =>
    }
  }

  /** In every run controls are answered in the order they were issued: the answered ones, the queued
      ones and the waiting ones are, in that order, all the issued ones. */
  lemma {:induction false} FirstComeFirstServed(streamStdin: bool, steps: seq<Step>)
    requires After(streamStdin, steps).Some?
    ensures Line(After(streamStdin, steps).value) == IssuedIds(steps)
  {
    if |steps| > 0 {
      FirstComeFirstServed(streamStdin, steps[..|steps| - 1]);
      ControlsConserved(streamStdin, steps[..|steps| - 1]);
      ApplyLine(After(streamStdin, steps[..|steps| - 1]).value, steps[|steps| - 1]);
    }
  }

  // ---- The exit code ----

  ghost predicate Expired(steps: seq<Step>) {
    exists i :: 0 <= i < |steps| && steps[i].Expire?
  }

  lemma ExpiredPush(steps: seq<Step>, step: Step)
    ensures Expired(steps + [step]) <==> Expired(steps) || step.Expire?
  {
    var all := steps + [step];
    if Expired(steps) {
      var i :| 0 <= i < |steps| && steps[i].Expire?;
      assert all[i].Expire?;
    } else if step.Expire? {
      assert all[|steps|].Expire?;
    }
  }

  lemma ApplyTimedOut(s: Task, step: Step)
    requires Enabled(s, step)
    ensures Apply(s, step).timedOut <==> s.timedOut || step.Expire?
  {
  }

  lemma {:induction false} TimedOutTracksExpiry(streamStdin: bool, steps: seq<Step>)
    requires After(streamStdin, steps).Some?
    ensures After(streamStdin, steps).value.timedOut <==> Expired(steps)
  {
    if |steps| > 0 {
      var rest, step := steps[..|steps| - 1], steps[|steps| - 1];
      assert steps == rest + [step];
      TimedOutTracksExpiry(streamStdin, rest);
      ApplyTimedOut(After(streamStdin, rest).value, step);
      ExpiredPush(rest, step);
    }
  }

  lemma AfterPush(streamStdin: bool, steps: seq<Step>, step: Step)
    ensures After(streamStdin, steps + [step]) ==
            match After(streamStdin, steps)
            case None => None
            case Some(s) => if Enabled(s, step) then Some(Apply(s, step)) else None
  {
    assert (steps + [step])[..|steps|] == steps;
  }

  lemma CodeKept(s: Task, step: Step)
    requires Enabled(s, step) && !s.phase.Running?
    ensures !Apply(s, step).phase.Running? && Apply(s, step).phase.code == s.phase.code
  {
  }

  /** The code of a run is fixed at its exit: 124 if the expiry came first, otherwise the process's
      own code, or -1 when it has none; whatever follows leaves it. */
  lemma {:induction false} ReportedCode(streamStdin: bool, before: seq<Step>, code: Option<int>, after: seq<Step>)
    requires After(streamStdin, before + [Exit(code)] + after).Some?
    ensures var s := After(streamStdin, before + [Exit(code)] + after).value;
      && !s.phase.Running?
      && s.phase.code == (if Expired(before) then 124 else match code case Some(c) => c case None => -1)
    decreases |after|
  {
    if |after| == 0 {
      assert before + [Exit(code)] + after == before + [Exit(code)];
      AfterPush(streamStdin, before, Exit(code));
      TimedOutTracksExpiry(streamStdin, before);
    } else {
      var after', last := after[..|after| - 1], after[|after| - 1];
      var upto := before + [Exit(code)] + after';
      assert before + [Exit(code)] + after == upto + [last];
      AfterPush(streamStdin, upto, last);
      ReportedCode(streamStdin, before, code, after');
      CodeKept(After(streamStdin, upto).value, last);
    }
  }

  // ---- What controls are answered ----

  /** The answer to a control that is served: input needs streaming to be enabled and, when there is any,
      a process that takes it; a new size needs a process that takes it. */
  ghost predicate AnswerIs(streamStdin: bool, action: Action, accepted: bool, result: Result) {
    && (result == StdinNotEnabled <==> action.Write? && !streamStdin)
    && (result == StdinClosed <==> action.Write? && streamStdin && action.delta != [] && !accepted)
    && (result == ResizeFailed <==> action.Resize? && !accepted)
    && result != NoLongerRunning
  }

  function AllGone(controls: seq<Control>): seq<Outcome> {
    seq(|controls|, i requires 0 <= i < |controls| => Outcome(controls[i].id, NoLongerRunning))
  }

  lemma {:induction false} DismissedExactly(controls: seq<Control>)
    ensures Dismissed(controls) == AllGone(controls)
  {
    if |controls| > 0 {
      DismissedExactly(controls[..|controls| - 1]);
    }
  }

  /** The outcomes of one step: serving answers the first queued control, the end of the command tells all
      queued and waiting ones that it no longer runs, and so is told a control issued after that. */
  lemma StepAnswers(s: Task, step: Step)
    requires Enabled(s, step)
    ensures var s' := Apply(s, step);
      match step
      case Serve(accepted) =>
        && |s'.outcomes| == |s.outcomes| + 1 && s'.outcomes[..|s.outcomes|] == s.outcomes
        && s'.outcomes[|s.outcomes|].id == s.queue[0].id && s'.queue == s.queue[1..]
        && AnswerIs(s.streamStdin, s.queue[0].action, accepted, s'.outcomes[|s.outcomes|].result)
      case Finish => s'.outcomes == s.outcomes + AllGone(s.queue + s.waiting) && s'.queue == s'.waiting == []
      case Issue(c) =>
        if s.phase.Over? then s'.outcomes == s.outcomes + AllGone([c]) && s'.waiting == s.waiting
        else s'.outcomes == s.outcomes && s'.waiting == s.waiting + [c]
      case _ => s'.outcomes == s.outcomes
  {
    if step.Finish? {
      DismissedExactly(s.queue + s.waiting);
    }
  }

  // ---- The queue and the request to terminate ----

  lemma StepBounded(s: Task, step: Step)
    requires Enabled(s, step) && |s.queue| <= 32
    ensures |Apply(s, step).queue| <= 32
  {
  }

  lemma {:induction false} QueueBounded(streamStdin: bool, steps: seq<Step>)
    requires After(streamStdin, steps).Some?
    ensures |After(streamStdin, steps).value.queue| <= 32
  {
    if |steps| > 0 {
      QueueBounded(streamStdin, steps[..|steps| - 1]);
      StepBounded(After(streamStdin, steps[..|steps| - 1]).value, steps[|steps| - 1]);
    }
  }

  /** The step asks the process to end: a terminate that is served, no more senders, or the expiry. */
  predicate AsksToEnd(s: Task, step: Step) {
    step.SendersGone? || step.Expire? || (step.Serve? && |s.queue| > 0 && s.queue[0].action.Terminate?)
  }

  predicate Asked(streamStdin: bool, steps: seq<Step>) {
    |steps| > 0 &&
      var before := steps[..|steps| - 1];
      || Asked(streamStdin, before)
      || match After(streamStdin, before) case Some(s) => AsksToEnd(s, steps[|steps| - 1]) case None => false
  }

  lemma StepTerminating(s: Task, step: Step)
    requires Enabled(s, step)
    ensures Apply(s, step).terminating <==> s.terminating || AsksToEnd(s, step)
  {
  }

  /** In every run the process has been asked to end exactly when one of those steps was taken. */
  lemma {:induction false} TerminatingExactly(streamStdin: bool, steps: seq<Step>)
    requires After(streamStdin, steps).Some?
    ensures After(streamStdin, steps).value.terminating <==> Asked(streamStdin, steps)
  {
    if |steps| > 0 {
      TerminatingExactly(streamStdin, steps[..|steps| - 1]);
      StepTerminating(After(streamStdin, steps[..|steps| - 1]).value, steps[|steps| - 1]);
    }
  }

  // ---- When a step can come ----

  ghost predicate Exited(steps: seq<Step>) {
    exists i :: 0 <= i < |steps| && steps[i].Exit?
  }

  ghost predicate Finished(steps: seq<Step>) {
    exists i :: 0 <= i < |steps| && steps[i].Finish?
  }

  ghost predicate Abandoned(steps: seq<Step>) {
    exists i :: 0 <= i < |steps| && steps[i].SendersGone?
  }

  lemma HistoryPush(steps: seq<Step>, step: Step)
    ensures Exited(steps + [step]) <==> Exited(steps) || step.Exit?
    ensures Finished(steps + [step]) <==> Finished(steps) || step.Finish?
    ensures Abandoned(steps + [step]) <==> Abandoned(steps) || step.SendersGone?
  {
    var all := steps + [step];
    assert all[|steps|] == step;
    assert forall i :: 0 <= i < |steps| ==> all[i] == steps[i];
  }

  lemma StepHistory(s: Task, step: Step)
    requires Enabled(s, step)
    ensures var s' := Apply(s, step);
      && (s'.phase.Running? <==> s.phase.Running? && !step.Exit?)
      && (s'.phase.Over? <==> s.phase.Over? || step.Finish?)
      && (s'.controlOpen <==> s.controlOpen && !step.SendersGone?)
      && s'.issued == s.issued + (if step.Issue? then {step.control.id} else {})
  {
  }

  lemma {:induction false} StateTracksHistory(streamStdin: bool, steps: seq<Step>)
    requires After(streamStdin, steps).Some?
    ensures var s := After(streamStdin, steps).value;
      && (s.phase.Running? <==> !Exited(steps)) && (s.phase.Over? <==> Finished(steps))
      && (s.controlOpen <==> !Abandoned(steps))
      && forall id :: id in s.issued <==> id in IssuedIds(steps)
  {
    if |steps| > 0 {
      var rest, step := steps[..|steps| - 1], steps[|steps| - 1];
      assert steps == rest + [step];
      StateTracksHistory(streamStdin, rest);
      HistoryPush(rest, step);
      StepHistory(After(streamStdin, rest).value, step);
    }
  }

  ghost predicate InTurn(s: Task, steps: seq<Step>, step: Step) {
    match step
    case Issue(c) => c.id !in IssuedIds(steps) && !Abandoned(steps)
    case Accept => !Finished(steps) && s.waiting != [] && |s.queue| < 32
    case Serve(_) => !Exited(steps) && !Abandoned(steps) && s.queue != []
    case SendersGone => !Exited(steps) && !Abandoned(steps) && |s.outcomes| == |IssuedIds(steps)|
    case Expire => !Exited(steps) && !Expired(steps)
    case Exit(_) => !Exited(steps)
    case Finish => Exited(steps) && !Finished(steps)
  }

  /** In every run: a control can be issued under a new id while there are senders; it is accepted while
      there is room for it; the loop serves the queue, sees the senders gone once all they issued is
      answered, and expires once, all until the exit, which comes once and is followed by one end. */
  lemma StepPossible(streamStdin: bool, steps: seq<Step>, step: Step)
    requires After(streamStdin, steps).Some?
    ensures Enabled(After(streamStdin, steps).value, step) <==> InTurn(After(streamStdin, steps).value, steps, step)
  {
    StateTracksHistory(streamStdin, steps);
    TimedOutTracksExpiry(streamStdin, steps);
    FirstComeFirstServed(streamStdin, steps);
    LineLength(After(streamStdin, steps).value);
  }

  lemma LineLength(s: Task)
    ensures |Line(s)| == |s.outcomes| + |s.queue| + |s.waiting|
  {
  }

  // ---- The loop itself ----

  lemma {:induction false} PrefixEnabled(streamStdin: bool, steps: seq<Step>, n: nat)
    requires n <= |steps| && After(streamStdin, steps).Some?
    ensures After(streamStdin, steps[..n]).Some?
    ensures n < |steps| ==> Enabled(After(streamStdin, steps[..n]).value, steps[n])
    ensures n < |steps| ==>
      After(streamStdin, steps[..n + 1]) == Some(Apply(After(streamStdin, steps[..n]).value, steps[n]))
  {
    if n == |steps| {
      assert steps[..n] == steps;
    } else if n == |steps| - 1 {
      assert steps[..n + 1] == steps;
    } else {
      PrefixEnabled(streamStdin, steps[..|steps| - 1], n);
      assert steps[..|steps| - 1][..n] == steps[..n] && steps[..|steps| - 1][..n + 1] == steps[..n + 1];
    }
  }

  /** `run_command` up to the exit code, over a schedule of what its select takes and what its senders
      do meanwhile. It ends at the first exit, and leaves exactly the state of the run so far. */
  method RunCommand(streamStdin: bool, schedule: seq<Step>)
    returns (exitCode: Option<int>, outcomes: seq<Outcome>, taken: nat)
    requires After(streamStdin, schedule).Some?
    ensures taken <= |schedule| && After(streamStdin, schedule[..taken]).Some?
    ensures outcomes == After(streamStdin, schedule[..taken]).value.outcomes
    ensures After(streamStdin, schedule[..taken]).value.phase ==
      (match exitCode case Some(c) => Draining(c) case None => Running)
    ensures exitCode.Some? ==>
      && taken > 0 && schedule[taken - 1].Exit?
      && (forall i :: 0 <= i < taken - 1 ==> !schedule[i].Exit?)
      && exitCode.value == ExitCode(Expired(schedule[..taken - 1]), schedule[taken - 1].code)
    ensures exitCode.None? ==> taken == |schedule| && forall i :: 0 <= i < |schedule| ==> !schedule[i].Exit?
  {
    var task;
    task, taken := Select(streamStdin, schedule);
    RunningMeansNoExit(streamStdin, schedule[..taken]);
    assert forall i :: 0 <= i < taken ==> schedule[i] == schedule[..taken][i];
    exitCode, outcomes := None, task.outcomes;
    if taken < |schedule| {
      exitCode := Some(ExitCode(task.timedOut, schedule[taken].code));
      ExitStep(streamStdin, schedule, taken, task);
      taken := taken + 1;
    }
  }

  lemma ExitStep(streamStdin: bool, schedule: seq<Step>, n: nat, task: Task)
    requires n < |schedule| && schedule[n].Exit? && After(streamStdin, schedule).Some?
    requires After(streamStdin, schedule[..n]) == Some(task)
    ensures After(streamStdin, schedule[..n + 1]) ==
      Some(task.(phase := Draining(ExitCode(task.timedOut, schedule[n].code))))
    ensures task.timedOut <==> Expired(schedule[..n])
  {
    PrefixEnabled(streamStdin, schedule, n);
    TimedOutTracksExpiry(streamStdin, schedule[..n]);
  }

  /** The loop, until an exit comes or the schedule ends. */
  method Select(streamStdin: bool, schedule: seq<Step>) returns (task: Task, taken: nat)
    requires After(streamStdin, schedule).Some?
    ensures taken <= |schedule| && After(streamStdin, schedule[..taken]) == Some(task) && task.phase.Running?
    ensures taken < |schedule| ==> schedule[taken].Exit?
  {
    task, taken := Start(streamStdin), 0;
    assert schedule[..0] == [];
    while taken < |schedule| && !schedule[taken].Exit?
      invariant taken <= |schedule|
      invariant After(streamStdin, schedule[..taken]) == Some(task) && task.phase.Running?
    {
      OneStepOn(streamStdin, schedule, taken, task);
      task := TakeOne(task, schedule[taken]);
      taken := taken + 1;
    }
  }

  lemma {:induction false} RunningMeansNoExit(streamStdin: bool, steps: seq<Step>)
    requires After(streamStdin, steps).Some? && After(streamStdin, steps).value.phase.Running?
    ensures forall i :: 0 <= i < |steps| ==> !steps[i].Exit?
  {
    if |steps| > 0 {
      RunningMeansNoExit(streamStdin, steps[..|steps| - 1]);
    }
  }

  lemma OneStepOn(streamStdin: bool, schedule: seq<Step>, n: nat, task: Task)
    requires n < |schedule| && After(streamStdin, schedule).Some? && !schedule[n].Exit?
    requires After(streamStdin, schedule[..n]) == Some(task) && task.phase.Running?
    ensures Enabled(task, schedule[n]) && Apply(task, schedule[n]).phase.Running?
    ensures After(streamStdin, schedule[..n + 1]) == Some(Apply(task, schedule[n]))
  {
    PrefixEnabled(streamStdin, schedule, n);
  }

  /** One turn of the select, or one move of a sender, on the loop's variables. */
  method TakeOne(task: Task, step: Step) returns (r: Task)
    requires Enabled(task, step) && task.phase.Running? && !step.Exit?
    ensures r == Apply(task, step)
  {
    var controlOpen, timedOut, terminating := task.controlOpen, task.timedOut, task.terminating;
    var queue, waiting, outcomes, issued := task.queue, task.waiting, task.outcomes, task.issued;
    match step {
      case Issue(c) =>
        waiting, issued := waiting + [c], issued + {c.id};
      case Accept =>
        queue, waiting := queue + [waiting[0]], waiting[1..];
      case Serve(accepted) =>
        var control := queue[0];
        queue := queue[1..];
        terminating := terminating || control.action.Terminate?;
        outcomes := outcomes + [Outcome(control.id, Handle(task.streamStdin, control.action, accepted))];
      case SendersGone =>
        controlOpen, terminating := false, true;
      case Expire =>
        timedOut, terminating := true, true;
    }
    r := Task(task.streamStdin, task.phase, controlOpen, timedOut, terminating, waiting, queue, issued, outcomes);
  }
}
