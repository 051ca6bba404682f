/** The per-thread state behind turn, item, rollback and interrupt messages. Each handler runs as one
    step; requests and events arrive in any order. */
module ThreadEvents {
  import opened Wrappers

  type RequestId = nat
  type TurnId = string
  type ItemId = string

  datatype ErrorInfo = ThreadRollbackFailed | OtherInfo(code: nat)
  datatype TurnError = TurnError(message: string, info: Option<ErrorInfo>)
  datatype TurnStatus = Completed | Failed | Interrupted

  datatype Problem =
    | NoTurns | NoThread | AlreadyRollingBack | NoRollout | UnreadableRollout | CoreRefused | NotSubmitted
  datatype Reply = InterruptDone | RollbackDone | InvalidRequest(why: Problem) | InternalError(why: Problem)

  /** What the rollback event finds when it reads the rollout back. */
  datatype Rollout = Readable | Missing | Unreadable

  datatype Output =
    | TurnCompleted(turn: TurnId, status: TurnStatus, failure: Option<TurnError>)
    | ErrorNotification(error: TurnError, willRetry: bool)
    | ItemStarted(item: ItemId)
    | ItemCompleted(item: ItemId)
    | Replied(request: RequestId, reply: Reply)

  /** `affects_turn_status`: every error but a failed rollback. */
  predicate AffectsTurn(e: TurnError) {
    e.info != Some(ThreadRollbackFailed)
  }

  /** `ThreadState` as far as these handlers use it. `submitting` is the rollback whose operation is
      being submitted; `requested` and `log` record the run so far. */
  datatype State = State(
    interrupts: seq<RequestId>,
    rollback: Option<RequestId>,
    submitting: Option<RequestId>,
    fileStarted: set<ItemId>,
    lastError: Option<TurnError>,
    requested: set<RequestId>,
    log: seq<Output>)

  const EMPTY := State([], None, None, {}, None, {}, [])

  datatype Step =
    | RequestInterrupt(request: RequestId, found: bool)
    | RequestRollback(request: RequestId, numTurns: nat, found: bool)
    | RollbackSubmitted(ok: bool)
    | TurnComplete(turn: TurnId)
    | TurnAborted(turn: TurnId)
    | ErrorEvent(error: TurnError)
    | StreamError(error: TurnError)
    | PatchStarts(item: ItemId)
    | PatchEnds(item: ItemId)
    | ThreadRolledBack(rollout: Rollout)

  /** Request ids are fresh; a request is taken only when no rollback is being submitted. */
  predicate Enabled(s: State, step: Step) {
    match step
    case RequestInterrupt(r, _) => r !in s.requested && s.submitting.None?
    case RequestRollback(r, _, _) => r !in s.requested && s.submitting.None?
    case RollbackSubmitted(_) => s.submitting.Some?
    case _ => true
  }

  function Emit(s: State, o: Output): State {
    s.(log := s.log + [o])
  }

  function InterruptReplies(pending: seq<RequestId>): seq<Output> {
    if |pending| == 0 then []
    else InterruptReplies(pending[..|pending| - 1]) + [Replied(pending[|pending| - 1], InterruptDone)]
  }

  /** The pending rollback, if any, is taken and answered. */
  function AnswerRollback(s: State, reply: Reply): State {
    match s.rollback
    case None => s
    case Some(r) => Emit(s.(rollback := None), Replied(r, reply))
  }

  function RollbackReply(rollout: Rollout): Reply {
    match rollout
    case Readable => RollbackDone
    case Missing => InvalidRequest(NoRollout)
    case Unreadable => InternalError(UnreadableRollout)
  }

  function Apply(s: State, step: Step): State
    requires Enabled(s, step)
  {
    match step
    case RequestInterrupt(r, found) =>
      var s' := s.(requested := s.requested + {r});
      if !found then Emit(s', Replied(r, InvalidRequest(NoThread)))
      else s'.(interrupts := s.interrupts + [r])
    case RequestRollback(r, numTurns, found) =>
      var s' := s.(requested := s.requested + {r});
      if numTurns == 0 then Emit(s', Replied(r, InvalidRequest(NoTurns)))
      else if !found then Emit(s', Replied(r, InvalidRequest(NoThread)))
      else if s.rollback.Some? then Emit(s', Replied(r, InvalidRequest(AlreadyRollingBack)))
      else s'.(rollback := Some(r), submitting := Some(r))
    case RollbackSubmitted(ok) =>
      if ok then s.(submitting := None)
      else Emit(s.(rollback := None, submitting := None), Replied(s.submitting.value, InternalError(NotSubmitted)))
    case TurnComplete(turn) =>
      var o := match s.lastError
        case Some(e) => TurnCompleted(turn, Failed, Some(e))
        case None => TurnCompleted(turn, Completed, None);
      Emit(s.(fileStarted := {}, lastError := None), o)
    case TurnAborted(turn) =>
      s.(interrupts := [], fileStarted := {}, lastError := None,
         log := s.log + InterruptReplies(s.interrupts) + [TurnCompleted(turn, Interrupted, None)])
    case ErrorEvent(e) =>
      if !AffectsTurn(e) then AnswerRollback(s, InvalidRequest(CoreRefused))
      else Emit(s.(lastError := Some(e)), ErrorNotification(e, false))
    case StreamError(e) => Emit(s, ErrorNotification(e, true))
    case PatchStarts(item) =>
      if item in s.fileStarted then s else Emit(s.(fileStarted := s.fileStarted + {item}), ItemStarted(item))
    case PatchEnds(item) => Emit(s.(fileStarted := s.fileStarted - {item}), ItemCompleted(item))
    case ThreadRolledBack(rollout) => AnswerRollback(s, RollbackReply(rollout))
  }

  function After(steps: seq<Step>): Option<State> {
    if |steps| == 0 then Some(EMPTY)
    else match After(steps[..|steps| - 1])
      case None => None
      case Some(s) => if Enabled(s, steps[|steps| - 1]) then Some(Apply(s, steps[|steps| - 1])) else None
  }

  // ---- When a step can come ----

  /** A rollback took the slot, and its operation is still being submitted. */
  predicate BeingSubmitted(steps: seq<Step>) {
    |steps| > 0 &&
      var before, last := steps[..|steps| - 1], steps[|steps| - 1];
      match last
      case RollbackSubmitted(_) => false
      case RequestRollback(_, numTurns, found) =>
        || BeingSubmitted(before)
        || (numTurns > 0 && found && After(before).Some? && After(before).value.rollback == None)
      case _ => BeingSubmitted(before)
  }

  ghost predicate Made(steps: seq<Step>, r: RequestId) {
    exists i :: 0 <= i < |steps| && Asks(steps[i], r)
  }

  predicate Asks(step: Step, r: RequestId) {
    (step.RequestInterrupt? || step.RequestRollback?) && step.request == r
  }

  lemma MadePush(steps: seq<Step>, step: Step, r: RequestId)
    ensures Made(steps + [step], r) <==> Made(steps, r) || Asks(step, r)
  {
    var all := steps + [step];
    assert all[|steps|] == step;
    assert forall i :: 0 <= i < |steps| ==> all[i] == steps[i];
  }

  lemma {:induction false} RequestsTracked(steps: seq<Step>, r: RequestId)
    requires After(steps).Some?
    ensures r in After(steps).value.requested <==> Made(steps, r)
    ensures After(steps).value.submitting.Some? <==> BeingSubmitted(steps)
  {
    if |steps| > 0 {
      var rest, step := steps[..|steps| - 1], steps[|steps| - 1];
      assert steps == rest + [step];
      RequestsTracked(rest, r);
      MadePush(rest, step, r);
    }
  }

  ghost predicate InTurn(steps: seq<Step>, step: Step) {
    match step
    case RequestInterrupt(r, _) => !Made(steps, r) && !BeingSubmitted(steps)
    case RequestRollback(r, _, _) => !Made(steps, r) && !BeingSubmitted(steps)
    case RollbackSubmitted(_) => BeingSubmitted(steps)
    case _ => true
  }

  /** In every run requests come one at a time: a new one only when no rollback is being submitted, and the
      end of a submission only when one is. Events can come at any time. */
  lemma StepPossible(steps: seq<Step>, step: Step)
    requires After(steps).Some?
    ensures Enabled(After(steps).value, step) <==> InTurn(steps, step)
  {
    RequestsTracked(steps, if step.RequestInterrupt? || step.RequestRollback? then step.request else 0);
  }

  // ---- Turns ----

  predicate EndsTurn(step: Step) {
    step.TurnComplete? || step.TurnAborted?
  }

  predicate IsTurnError(step: Step) {
    step.ErrorEvent? && step.error.info != Some(ThreadRollbackFailed)
  }

  /** `e` is the last error that affects the turn, and no turn ended after it. */
  ghost predicate IsLatestError(steps: seq<Step>, e: TurnError) {
    exists j :: 0 <= j < |steps| && steps[j] == ErrorEvent(e) && IsTurnError(steps[j])
      && forall i :: j < i < |steps| ==> !EndsTurn(steps[i]) && !IsTurnError(steps[i])
  }

  lemma LatestErrorStep(steps: seq<Step>, step: Step, e: TurnError)
    ensures IsLatestError(steps + [step], e) <==>
      (if EndsTurn(step) then false else if IsTurnError(step) then step.error == e else IsLatestError(steps, e))
  {
    var all := steps + [step];
    if IsLatestError(all, e) {
      var j :| 0 <= j < |all| && all[j] == ErrorEvent(e) && IsTurnError(all[j])
        && forall i :: j < i < |all| ==> !EndsTurn(all[i]) && !IsTurnError(all[i]);
      if j < |steps| {
        assert !EndsTurn(all[|steps|]) && !IsTurnError(all[|steps|]);
        assert forall i :: j < i < |steps| ==> steps[i] == all[i];
        assert steps[j] == ErrorEvent(e);
      }
    }
    if IsTurnError(step) && step.error == e {
      assert all[|steps|] == ErrorEvent(e);
    } else if !EndsTurn(step) && !IsTurnError(step) && IsLatestError(steps, e) {
      var j :| 0 <= j < |steps| && steps[j] == ErrorEvent(e) && IsTurnError(steps[j])
        && forall i :: j < i < |steps| ==> !EndsTurn(steps[i]) && !IsTurnError(steps[i]);
      assert all[j] == ErrorEvent(e);
      assert forall i :: j < i < |all| ==> !EndsTurn(all[i]) && !IsTurnError(all[i]);
    }
  }

  lemma {:induction false} LastErrorIsLatest(steps: seq<Step>, e: TurnError)
    requires After(steps).Some?
    ensures After(steps).value.lastError == Some(e) <==> IsLatestError(steps, e)
  {
    if |steps| > 0 {
      var rest, step := steps[..|steps| - 1], steps[|steps| - 1];
      assert steps == rest + [step];
      LastErrorIsLatest(rest, e);
      LatestErrorStep(rest, step, e);
    }
  }

  /** A completed turn is reported failed with `e` exactly when `e` is the latest error that affects it
      since the previous turn ended, and otherwise completed without error; an aborted turn is
      reported interrupted without error; and no error outlives its turn. */
  lemma TurnEndReported(steps: seq<Step>, turn: TurnId, e: TurnError)
    requires After(steps).Some?
    ensures var s := After(steps).value;
      var done, aborted := Apply(s, TurnComplete(turn)), Apply(s, TurnAborted(turn));
      && (done.log == s.log + [TurnCompleted(turn, Failed, Some(e))] <==> IsLatestError(steps, e))
      && ((forall x :: !IsLatestError(steps, x)) ==> done.log == s.log + [TurnCompleted(turn, Completed, None)])
      && aborted.log[|aborted.log| - 1] == TurnCompleted(turn, Interrupted, None)
      && done.lastError == None && aborted.lastError == None
  {
    var s := After(steps).value;
    LastErrorIsLatest(steps, e);
    var done := Apply(s, TurnComplete(turn));
    assert done.log[|s.log|] ==
      if s.lastError.Some? then TurnCompleted(turn, Failed, s.lastError) else TurnCompleted(turn, Completed, None);
    assert (s.log + [TurnCompleted(turn, Failed, Some(e))])[|s.log|] == TurnCompleted(turn, Failed, Some(e));
    if s.lastError.Some? {
      LastErrorIsLatest(steps, s.lastError.value);
    }
  }

  // ---- File changes ----

  predicate Closes(o: Output, item: ItemId) {
    o == ItemCompleted(item) || o.TurnCompleted?
  }

  /** Started and, since then, neither completed nor cut off by the end of a turn. */
  predicate OpenIn(log: seq<Output>, item: ItemId) {
    |log| > 0 &&
    var last := log[|log| - 1];
    if Closes(last, item) then false else last == ItemStarted(item) || OpenIn(log[..|log| - 1], item)
  }

  lemma OpenPush(log: seq<Output>, o: Output, item: ItemId)
    ensures OpenIn(log + [o], item) == if Closes(o, item) then false else o == ItemStarted(item) || OpenIn(log, item)
  {
    assert (log + [o])[..|log|] == log;
  }

  /** One message sent, and what it does to the started set. */
  lemma SentKeepsOpen(log: seq<Output>, o: Output, started: set<ItemId>, started': set<ItemId>, item: ItemId)
    requires item in started <==> OpenIn(log, item)
    requires item in started' <==> !Closes(o, item) && (o == ItemStarted(item) || item in started)
    ensures item in started' <==> OpenIn(log + [o], item)
  {
    OpenPush(log, o, item);
  }

  /** What a step sends last, if it sends anything. */
  function LastSent(s: State, step: Step): Option<Output>
    requires Enabled(s, step)
  {
    match step
    case RequestInterrupt(r, found) => if found then None else Some(Replied(r, InvalidRequest(NoThread)))
    case RequestRollback(r, numTurns, found) =>
      if numTurns == 0 then Some(Replied(r, InvalidRequest(NoTurns)))
      else if !found then Some(Replied(r, InvalidRequest(NoThread)))
      else if s.rollback.Some? then Some(Replied(r, InvalidRequest(AlreadyRollingBack))) else None
    case RollbackSubmitted(ok) => if ok then None else Some(Replied(s.submitting.value, InternalError(NotSubmitted)))
    case TurnComplete(turn) =>
      Some(TurnCompleted(turn, if s.lastError.Some? then Failed else Completed, s.lastError))
    case TurnAborted(turn) => Some(TurnCompleted(turn, Interrupted, None))
    case ErrorEvent(e) =>
      if AffectsTurn(e) then Some(ErrorNotification(e, false)) else TakenReply(s, InvalidRequest(CoreRefused))
    case StreamError(e) => Some(ErrorNotification(e, true))
    case PatchStarts(item) => if item in s.fileStarted then None else Some(ItemStarted(item))
    case PatchEnds(item) => Some(ItemCompleted(item))
    case ThreadRolledBack(rollout) => TakenReply(s, RollbackReply(rollout))
  }

  function TakenReply(s: State, reply: Reply): Option<Output> {
    match s.rollback case Some(r) => Some(Replied(r, reply)) case None => None
  }

  /** The messages before the last: only an abort has any. */
  function SentBefore(s: State, step: Step): seq<Output> {
    if step.TurnAborted? then InterruptReplies(s.interrupts) else []
  }

  lemma ApplyLog(s: State, step: Step)
    requires Enabled(s, step)
    ensures Apply(s, step).log ==
            s.log + SentBefore(s, step) + (match LastSent(s, step) case Some(o) => [o] case None => [])
  {
    assert s.log + [] == s.log;
  }

  lemma ApplyStarted(s: State, step: Step, item: ItemId)
    requires Enabled(s, step)
    ensures item in Apply(s, step).fileStarted <==>
            match LastSent(s, step)
            case Some(o) => !Closes(o, item) && (o == ItemStarted(item) || item in s.fileStarted)
            case None => item in s.fileStarted
  {
  }

  lemma ApplyKeepsOpen(s: State, step: Step, item: ItemId)
    requires Enabled(s, step) && (item in s.fileStarted <==> OpenIn(s.log, item))
    ensures item in Apply(s, step).fileStarted <==> OpenIn(Apply(s, step).log, item)
  {
    ApplyLog(s, step);
    ApplyStarted(s, step, item);
    var before := SentBefore(s, step);
    match LastSent(s, step) {
      case None =>
        assert s.log + before + [] == s.log;
      case Some(o) =>
        if step.TurnAborted? {
          OpenPush(s.log + before, o, item);
        } else {
          assert s.log + before == s.log;
          SentKeepsOpen(s.log, o, s.fileStarted, Apply(s, step).fileStarted, item);
        }
    }
  }

  lemma {:induction false} StartedIsOpen(steps: seq<Step>, item: ItemId)
    requires After(steps).Some?
    ensures item in After(steps).value.fileStarted <==> OpenIn(After(steps).value.log, item)
  {
    if |steps| > 0 {
      StartedIsOpen(steps[..|steps| - 1], item);
      ApplyKeepsOpen(After(steps[..|steps| - 1]).value, steps[|steps| - 1], item);
    }
  }

  /** Between two starts of an item its completion or a turn's end was reported. */
  ghost predicate ClosedBetween(log: seq<Output>, item: ItemId) {
    forall i, j :: 0 <= i < j < |log| && log[i] == ItemStarted(item) && log[j] == ItemStarted(item) ==>
      exists k :: i < k < j && Closes(log[k], item)
  }

  lemma {:induction false} NotOpenWasClosed(log: seq<Output>, item: ItemId, i: nat)
    requires !OpenIn(log, item) && i < |log| && log[i] == ItemStarted(item)
    ensures exists k :: i < k < |log| && Closes(log[k], item)
  {
    var last := |log| - 1;
    if Closes(log[last], item) {
      assert i < last < |log|;
    } else {
      var rest := log[..last];
      NotOpenWasClosed(rest, item, i);
      var k :| i < k < |rest| && Closes(rest[k], item);
      assert Closes(log[k], item);
    }
  }

  lemma ClosedBetweenPush(log: seq<Output>, o: Output, item: ItemId)
    requires ClosedBetween(log, item) && (o == ItemStarted(item) ==> !OpenIn(log, item))
    ensures ClosedBetween(log + [o], item)
  {
    var all := log + [o];
    forall i, j | 0 <= i < j < |all| && all[i] == ItemStarted(item) && all[j] == ItemStarted(item)
      ensures exists k :: i < k < j && Closes(all[k], item)
    {
      if j < |log| {
        var k :| i < k < j && Closes(log[k], item);
        assert Closes(all[k], item);
      } else {
        NotOpenWasClosed(log, item, i);
        var k :| i < k < |log| && Closes(log[k], item);
        assert Closes(all[k], item);
      }
    }
  }

  lemma {:induction false} ClosedBetweenInterrupts(log: seq<Output>, pending: seq<RequestId>, item: ItemId)
    requires ClosedBetween(log, item)
    ensures ClosedBetween(log + InterruptReplies(pending), item)
  {
    if |pending| == 0 {
      assert log + [] == log;
    } else {
      var rest, last := pending[..|pending| - 1], Replied(pending[|pending| - 1], InterruptDone);
      ClosedBetweenInterrupts(log, rest, item);
      assert log + InterruptReplies(pending) == (log + InterruptReplies(rest)) + [last];
      ClosedBetweenPush(log + InterruptReplies(rest), last, item);
    }
  }

  lemma ApplyClosedBetween(s: State, step: Step, item: ItemId)
    requires Enabled(s, step) && ClosedBetween(s.log, item) && (item in s.fileStarted <==> OpenIn(s.log, item))
    ensures ClosedBetween(Apply(s, step).log, item)
  {
    ApplyLog(s, step);
    var before := SentBefore(s, step);
    if step.TurnAborted? {
      ClosedBetweenInterrupts(s.log, s.interrupts, item);
    } else {
      assert s.log + before == s.log;
    }
    match LastSent(s, step) {
      case None => assert s.log + before + [] == s.log + before;
      case Some(o) => ClosedBetweenPush(s.log + before, o, item);
    }
  }

  /** In every run a file change is never reported started again before it was reported completed or
      a turn ended. */
  lemma {:induction false} NoDoubleStart(steps: seq<Step>, item: ItemId)
    requires After(steps).Some?
    ensures ClosedBetween(After(steps).value.log, item)
  {
    if |steps| > 0 {
      var rest := steps[..|steps| - 1];
      NoDoubleStart(rest, item);
      StartedIsOpen(rest, item);
      ApplyClosedBetween(After(rest).value, steps[|steps| - 1], item);
    }
  }

  // ---- Answers to requests ----

  function CountReplies(log: seq<Output>, r: RequestId): nat {
    if |log| == 0 then 0
    else
      var last := log[|log| - 1];
      CountReplies(log[..|log| - 1], r) + (if last.Replied? && last.request == r then 1 else 0)
  }

  function CountPending(pending: seq<RequestId>, r: RequestId): nat {
    if |pending| == 0 then 0
    else CountPending(pending[..|pending| - 1], r) + (if pending[|pending| - 1] == r then 1 else 0)
  }

  lemma CountRepliesPush(log: seq<Output>, o: Output, r: RequestId)
    ensures CountReplies(log + [o], r) == CountReplies(log, r) + (if o.Replied? && o.request == r then 1 else 0)
  {
    assert (log + [o])[..|log|] == log;
  }

  lemma {:induction false} CountInterruptReplies(log: seq<Output>, pending: seq<RequestId>, r: RequestId)
    ensures CountReplies(log + InterruptReplies(pending), r) == CountReplies(log, r) + CountPending(pending, r)
  {
    if |pending| == 0 {
      assert log + [] == log;
    } else {
      var rest, last := pending[..|pending| - 1], Replied(pending[|pending| - 1], InterruptDone);
      CountInterruptReplies(log, rest, r);
      assert log + InterruptReplies(pending) == (log + InterruptReplies(rest)) + [last];
      CountRepliesPush(log + InterruptReplies(rest), last, r);
    }
  }

  /** Answers given to `r`, plus one for each place where it still waits. */
  function Weight(s: State, r: RequestId): nat {
    CountReplies(s.log, r) + CountPending(s.interrupts, r) + (if s.rollback == Some(r) then 1 else 0)
  }

  /** A failed submission finds its own request still in the slot: no rollback event came first. */
  predicate Orderly(s: State, step: Step) {
    step == RollbackSubmitted(false) ==> s.rollback == s.submitting
  }

  predicate OrderlyRun(steps: seq<Step>) {
    |steps| > 0 ==>
      && OrderlyRun(steps[..|steps| - 1])
      && After(steps[..|steps| - 1]).Some?
      && Orderly(After(steps[..|steps| - 1]).value, steps[|steps| - 1])
  }

  lemma InterruptWeight(s: State, q: RequestId, found: bool, r: RequestId)
    requires Enabled(s, RequestInterrupt(q, found))
    ensures Weight(Apply(s, RequestInterrupt(q, found)), r) == Weight(s, r) + (if r == q then 1 else 0)
  {
    assert (s.interrupts + [q])[..|s.interrupts|] == s.interrupts;
    CountRepliesPush(s.log, Replied(q, InvalidRequest(NoThread)), r);
  }

  lemma AbortWeight(s: State, turn: TurnId, r: RequestId)
    ensures Weight(Apply(s, TurnAborted(turn)), r) == Weight(s, r)
  {
    CountInterruptReplies(s.log, s.interrupts, r);
    CountRepliesPush(s.log + InterruptReplies(s.interrupts), TurnCompleted(turn, Interrupted, None), r);
  }

  lemma EmitWeight(s: State, o: Output, r: RequestId)
    ensures Weight(Emit(s, o), r) == Weight(s, r) + (if o.Replied? && o.request == r then 1 else 0)
  {
    CountRepliesPush(s.log, o, r);
  }

  lemma RollbackWeight(s: State, q: RequestId, numTurns: nat, found: bool, r: RequestId)
    requires Enabled(s, RequestRollback(q, numTurns, found))
    ensures Weight(Apply(s, RequestRollback(q, numTurns, found)), r) == Weight(s, r) + (if r == q then 1 else 0)
  {
    var s' := s.(requested := s.requested + {q});
    var problem := if numTurns == 0 then NoTurns else if !found then NoThread else AlreadyRollingBack;
    EmitWeight(s', Replied(q, InvalidRequest(problem)), r);
  }

  lemma SubmittedWeight(s: State, ok: bool, r: RequestId)
    requires Enabled(s, RollbackSubmitted(ok)) && Orderly(s, RollbackSubmitted(ok))
    ensures Weight(Apply(s, RollbackSubmitted(ok)), r) == Weight(s, r)
  {
    EmitWeight(s.(rollback := None, submitting := None), Replied(s.submitting.value, InternalError(NotSubmitted)), r);
  }

  lemma AnswerWeight(s: State, reply: Reply, r: RequestId)
    ensures Weight(AnswerRollback(s, reply), r) == Weight(s, r)
  {
    if s.rollback.Some? {
      EmitWeight(s.(rollback := None), Replied(s.rollback.value, reply), r);
    }
  }

  lemma NotifyWeight(s: State, step: Step, r: RequestId)
    requires step.TurnComplete? || step.StreamError? || step.PatchStarts? || step.PatchEnds? || IsTurnError(step)
    ensures Weight(Apply(s, step), r) == Weight(s, r)
  {
    var s' := Apply(s, step);
    if s'.log != s.log {
      EmitWeight(s, s'.log[|s.log|], r);
    }
  }

  /** A step weighs on a request only when it brings it. */
  lemma ApplyWeight(s: State, step: Step, r: RequestId)
    requires Enabled(s, step) && Orderly(s, step)
    ensures Weight(Apply(s, step), r) ==
      Weight(s, r) + (if r in Apply(s, step).requested && r !in s.requested then 1 else 0)
  {
    match step {
      case RequestInterrupt(q, found) => InterruptWeight(s, q, found, r);
      case RequestRollback(q, numTurns, found) => RollbackWeight(s, q, numTurns, found, r);
      case RollbackSubmitted(ok) => SubmittedWeight(s, ok, r);
      case TurnAborted(turn) => AbortWeight(s, turn, r);
      case ThreadRolledBack(rollout) => AnswerWeight(s, RollbackReply(rollout), r);
      case ErrorEvent(e) =>
        if AffectsTurn(e) {
          NotifyWeight(s, step, r);
        } else {
          AnswerWeight(s, InvalidRequest(CoreRefused), r);
        }
      case _ => NotifyWeight(s, step, r);
    }
  }

  ghost predicate Accounted(s: State) {
    && (forall r :: Weight(s, r) == if r in s.requested then 1 else 0)
    && (s.rollback.Some? ==> s.rollback.value in s.requested)
    && (s.submitting.Some? ==> s.submitting.value in s.requested)
    && (s.submitting.Some? ==> CountPending(s.interrupts, s.submitting.value) == 0)
  }

  lemma {:induction false} OrderlyAccounted(steps: seq<Step>)
    requires OrderlyRun(steps) && After(steps).Some?
    ensures Accounted(After(steps).value)
  {
    if |steps| > 0 {
      var rest, step := steps[..|steps| - 1], steps[|steps| - 1];
      OrderlyAccounted(rest);
      var s, s' := After(rest).value, After(steps).value;
      forall r ensures Weight(s', r) == if r in s'.requested then 1 else 0 {
        ApplyWeight(s, step, r);
        assert Weight(s, r) == if r in s.requested then 1 else 0;
      }
      if s'.submitting.Some? {
        var q := s'.submitting.value;
        assert Weight(s, q) == if q in s.requested then 1 else 0;
      }
    }
  }

  predicate Answers(o: Option<Output>, r: RequestId) {
    o.Some? && o.value.Replied? && o.value.request == r
  }

  /** The replies a step gives `r`. */
  lemma ApplyReplies(s: State, step: Step, r: RequestId)
    requires Enabled(s, step)
    ensures CountReplies(Apply(s, step).log, r) ==
            CountReplies(s.log, r) + (if step.TurnAborted? then CountPending(s.interrupts, r) else 0)
              + (if Answers(LastSent(s, step), r) then 1 else 0)
  {
    ApplyLog(s, step);
    var before := SentBefore(s, step);
    if step.TurnAborted? {
      CountInterruptReplies(s.log, s.interrupts, r);
    } else {
      assert s.log + before == s.log;
    }
    match LastSent(s, step) {
      case None => assert s.log + before + [] == s.log + before;
      case Some(o) => CountRepliesPush(s.log + before, o, r);
    }
  }

  lemma {:induction false} DisorderDoubles(steps: seq<Step>)
    requires After(steps).Some? && !OrderlyRun(steps)
    ensures exists r :: CountReplies(After(steps).value.log, r) >= 2
  {
    var rest, step := steps[..|steps| - 1], steps[|steps| - 1];
    var s := After(rest).value;
    if !OrderlyRun(rest) {
      DisorderDoubles(rest);
      var r :| CountReplies(s.log, r) >= 2;
      ApplyReplies(s, step, r);
      assert CountReplies(After(steps).value.log, r) >= 2;
    } else {
      OrderlyAccounted(rest);
      var r := s.submitting.value;
      assert Weight(s, r) == 1;
      CountRepliesPush(s.log, Replied(r, InternalError(NotSubmitted)), r);
      assert CountReplies(After(steps).value.log, r) >= 2;
    }
  }

  /** In every run each request is answered at most once exactly when no rollback event comes between
      reserving the slot and a failed submission. Then a thread has at most one rollback in flight,
      every request either waits or has had its one answer, and an answered rollback has left the slot. */
  lemma AnsweredAtMostOnce(steps: seq<Step>)
    requires After(steps).Some?
    ensures (forall r :: CountReplies(After(steps).value.log, r) <= 1) <==> OrderlyRun(steps)
    ensures OrderlyRun(steps) ==> Accounted(After(steps).value)
  {
    if OrderlyRun(steps) {
      OrderlyAccounted(steps);
      var s := After(steps).value;
      forall r ensures CountReplies(s.log, r) <= 1 {
        assert Weight(s, r) == if r in s.requested then 1 else 0;
      }
    } else {
      DisorderDoubles(steps);
    }
  }

  /** A rollback event between reserving the slot and the failed submission answers a request twice. */
  lemma EarlyEventAnswersTwice(r: RequestId)
    ensures var steps := [RequestRollback(r, 1, true), ThreadRolledBack(Readable), RollbackSubmitted(false)];
      After(steps).Some? && CountReplies(After(steps).value.log, r) == 2
  {
    var a, b, c := RequestRollback(r, 1, true), ThreadRolledBack(Readable), RollbackSubmitted(false);
    assert After([]) == Some(EMPTY);
    assert [a][..0] == [] && [a, b][..1] == [a] && [a, b, c][..2] == [a, b];
    var one, two := Replied(r, RollbackDone), Replied(r, InternalError(NotSubmitted));
    assert After([a]) == Some(Apply(EMPTY, a));
    assert After([a, b]) == Some(Apply(Apply(EMPTY, a), b));
    assert After([a, b]).value.log == [] + [one];
    assert After([a, b, c]).value.log == ([] + [one]) + [two];
    CountRepliesPush([], one, r);
    CountRepliesPush([] + [one], two, r);
  }

  /** All that the state says of one request. */
  datatype Standing = Standing(replies: nat, pending: nat, slot: bool, submitting: bool, requested: bool)

  function StandingOf(s: State, r: RequestId): Standing {
    Standing(CountReplies(s.log, r), CountPending(s.interrupts, r),
             s.rollback == Some(r), s.submitting == Some(r), r in s.requested)
  }

  predicate Brings(step: Step, r: RequestId) {
    (step.RequestInterrupt? || step.RequestRollback?) && step.request == r
  }

  /** How a step moves the standing of `r`; `last` is whether its last message answers `r`. */
  predicate Moved(a: Standing, b: Standing, step: Step, r: RequestId, last: bool) {
    && b.requested == (a.requested || Brings(step, r)) && !(a.requested && Brings(step, r))
    && b.replies == a.replies + (if step.TurnAborted? then a.pending else 0) + (if last then 1 else 0)
    && (last ==> Brings(step, r) || a.slot || a.submitting)
    && (if step.TurnAborted? then b.pending == 0 else a.pending <= b.pending <= a.pending + 1)
    && (b.slot || b.submitting ==> a.slot || a.submitting || Brings(step, r))
    && (b.pending > a.pending ==> Brings(step, r) && !last && b.slot == a.slot && b.submitting == a.submitting)
  }

  lemma CountPendingPush(pending: seq<RequestId>, q: RequestId, r: RequestId)
    ensures CountPending(pending + [q], r) == CountPending(pending, r) + (if q == r then 1 else 0)
  {
    assert (pending + [q])[..|pending|] == pending;
  }

  lemma ApplyPending(s: State, step: Step, r: RequestId)
    requires Enabled(s, step)
    ensures CountPending(Apply(s, step).interrupts, r) ==
            if step.TurnAborted? then 0
            else if Brings(step, r) && step.RequestInterrupt? && step.found then CountPending(s.interrupts, r) + 1
            else CountPending(s.interrupts, r)
  {
    if step.RequestInterrupt? {
      CountPendingPush(s.interrupts, step.request, r);
    }
  }

  lemma ApplySlots(s: State, step: Step, r: RequestId)
    requires Enabled(s, step)
    ensures var s' := Apply(s, step);
      && (r in s'.requested <==> r in s.requested || Brings(step, r))
      && (s'.rollback == Some(r) ==> s.rollback == Some(r) || (Brings(step, r) && step.RequestRollback?))
      && (s'.submitting == Some(r) ==> s.submitting == Some(r) || (Brings(step, r) && step.RequestRollback?))
      && (step.RequestInterrupt? ==> s'.rollback == s.rollback && s'.submitting == s.submitting)
    ensures Answers(LastSent(s, step), r) ==>
      s.rollback == Some(r) || s.submitting == Some(r) || (Brings(step, r) && (step.RequestInterrupt? ==> !step.found))
  {
  }

  lemma ApplyMoved(s: State, step: Step, r: RequestId)
    requires Enabled(s, step)
    ensures Moved(StandingOf(s, r), StandingOf(Apply(s, step), r), step, r, Answers(LastSent(s, step), r))
  {
    ApplyReplies(s, step, r);
    ApplyPending(s, step, r);
    ApplySlots(s, step, r);
    assert step.RequestInterrupt? && step.found ==> LastSent(s, step) == None;
  }

  /** A waiting interrupt waits in one place only and has no reply; a request not made has neither. */
  predicate Undisturbed(a: Standing) {
    && (a.pending > 0 ==> a.pending == 1 && a.replies == 0 && !a.slot && !a.submitting && a.requested)
    && (!a.requested ==> a.replies == 0 && !a.slot && !a.submitting)
  }

  lemma MovedUndisturbed(a: Standing, b: Standing, step: Step, r: RequestId, last: bool)
    requires Moved(a, b, step, r, last) && Undisturbed(a)
    ensures Undisturbed(b)
  {
  }

  lemma {:induction false} RunUndisturbed(steps: seq<Step>, r: RequestId)
    requires After(steps).Some?
    ensures Undisturbed(StandingOf(After(steps).value, r))
  {
    if |steps| > 0 {
      RunUndisturbed(steps[..|steps| - 1], r);
      var s, step := After(steps[..|steps| - 1]).value, steps[|steps| - 1];
      ApplyMoved(s, step, r);
      MovedUndisturbed(StandingOf(s, r), StandingOf(Apply(s, step), r), step, r, Answers(LastSent(s, step), r));
    }
  }

  /** In every run an abort answers every interrupt then waiting exactly once, in the order they came,
      before it reports the turn's end, and leaves none waiting. */
  lemma AbortAnswersInterrupts(steps: seq<Step>, turn: TurnId, r: RequestId)
    requires After(steps).Some? && CountPending(After(steps).value.interrupts, r) > 0
    ensures var s, s' := After(steps).value, Apply(After(steps).value, TurnAborted(turn));
      && CountReplies(s.log, r) == 0 && CountReplies(s'.log, r) == 1
      && s'.interrupts == []
      && s'.log == s.log +
           seq(|s.interrupts|, i requires 0 <= i < |s.interrupts| => Replied(s.interrupts[i], InterruptDone))
                   + [TurnCompleted(turn, Interrupted, None)]
  {
    var s := After(steps).value;
    RunUndisturbed(steps, r);
    ApplyReplies(s, TurnAborted(turn), r);
    InterruptRepliesInOrder(s.interrupts);
  }

  lemma {:induction false} InterruptRepliesInOrder(pending: seq<RequestId>)
    ensures InterruptReplies(pending) ==
      seq(|pending|, i requires 0 <= i < |pending| => Replied(pending[i], InterruptDone))
  {
    if |pending| > 0 {
      InterruptRepliesInOrder(pending[..|pending| - 1]);
    }
  }

  /** A step that takes the pending rollback out of its slot. */
  predicate Settles(step: Step) {
    || step.ThreadRolledBack? || step == RollbackSubmitted(false)
    || (step.ErrorEvent? && step.error.info == Some(ThreadRollbackFailed))
  }

  /** Answered once and waiting nowhere. */
  const FINISHED := Standing(1, 0, false, false, true)

  /** `q` has had its one reply, an error, and waits nowhere. */
  ghost predicate Refused(s: State, q: RequestId) {
    StandingOf(s, q) == FINISHED && exists k :: 0 <= k < |s.log| && IsRefusal(s.log[k], q)
  }

  predicate IsRefusal(o: Output, q: RequestId) {
    o.Replied? && o.request == q && o.reply.InvalidRequest?
  }

  lemma MovedFinished(a: Standing, b: Standing, step: Step, r: RequestId, last: bool)
    requires Moved(a, b, step, r, last) && a == FINISHED
    ensures b == FINISHED
  {
  }

  lemma ApplyRefused(s: State, step: Step, q: RequestId)
    requires Enabled(s, step) && Refused(s, q)
    ensures Refused(Apply(s, step), q)
  {
    ApplyMoved(s, step, q);
    MovedFinished(StandingOf(s, q), StandingOf(Apply(s, step), q), step, q, Answers(LastSent(s, step), q));
    ApplyLog(s, step);
    var k :| 0 <= k < |s.log| && IsRefusal(s.log[k], q);
    assert IsRefusal(Apply(s, step).log[k], q);
  }

  lemma RefusedOnArrival(s: State, step: Step)
    requires Enabled(s, step) && step.RequestRollback? && s.rollback.Some? && Undisturbed(StandingOf(s, step.request))
    ensures Refused(Apply(s, step), step.request)
  {
    ApplyReplies(s, step, step.request);
    assert IsRefusal(Apply(s, step).log[|s.log|], step.request);
  }

  lemma SlotKept(s: State, step: Step, r: RequestId)
    requires Enabled(s, step) && s.rollback == Some(r) && Undisturbed(StandingOf(s, r)) && !Settles(step)
    ensures Apply(s, step).rollback == Some(r)
    ensures CountReplies(Apply(s, step).log, r) == CountReplies(s.log, r)
  {
    ApplyReplies(s, step, r);
  }

  ghost predicate AllRefused(s: State, during: seq<Step>) {
    forall i :: 0 <= i < |during| && during[i].RequestRollback? ==> Refused(s, during[i].request)
  }

  lemma RefusalsKept(s: State, init: seq<Step>, last: Step)
    requires Enabled(s, last) && s.rollback.Some? && AllRefused(s, init)
    requires last.RequestRollback? ==> Undisturbed(StandingOf(s, last.request))
    ensures AllRefused(Apply(s, last), init + [last])
  {
    var during := init + [last];
    forall i | 0 <= i < |during| && during[i].RequestRollback? ensures Refused(Apply(s, last), during[i].request) {
      if i < |init| {
        ApplyRefused(s, last, init[i].request);
      } else {
        RefusedOnArrival(s, last);
      }
    }
  }

  lemma AfterPush(steps: seq<Step>, step: Step)
    ensures After(steps + [step]) ==
            match After(steps)
            case None => None
            case Some(s) => if Enabled(s, step) then Some(Apply(s, step)) else None
  {
    assert (steps + [step])[..|steps|] == steps;
  }

  /** From when a rollback holds the slot until an event or a failed submission settles it, whatever
      else happens it keeps the slot and gets no reply, and every rollback asked for meanwhile gets
      exactly one, an error. */
  lemma {:induction false} RollbackHoldsSlot(before: seq<Step>, during: seq<Step>, r: RequestId)
    requires After(before).Some? && After(before).value.rollback == Some(r)
    requires After(before + during).Some? && forall i :: 0 <= i < |during| ==> !Settles(during[i])
    ensures var s, s' := After(before).value, After(before + during).value;
      && s'.rollback == Some(r)
      && CountReplies(s'.log, r) == CountReplies(s.log, r)
      && AllRefused(s', during)
    decreases |during|
  {
    if |during| == 0 {
      assert before + during == before;
    } else {
      var init, last := during[..|during| - 1], during[|during| - 1];
      assert during == init + [last];
      assert before + during == (before + init) + [last];
      AfterPush(before + init, last);
      RollbackHoldsSlot(before, init, r);
      var s := After(before + init).value;
      RunUndisturbed(before + init, r);
      SlotKept(s, last, r);
      if last.RequestRollback? {
        RunUndisturbed(before + init, last.request);
      }
      RefusalsKept(s, init, last);
    }
  }

  /** What the step that settles a rollback answers: done when the rollout could be read back, otherwise
      why not. */
  function SettledBy(step: Step): Reply
    requires Settles(step)
  {
    match step
    case ThreadRolledBack(Readable) => RollbackDone
    case ThreadRolledBack(Missing) => InvalidRequest(NoRollout)
    case ThreadRolledBack(Unreadable) => InternalError(UnreadableRollout)
    case ErrorEvent(_) => InvalidRequest(CoreRefused)
    case RollbackSubmitted(_) => InternalError(NotSubmitted)
  }

  /** A rollback that holds the slot is answered by the first step that settles it, as that step says,
      and the slot is free again. */
  lemma RollbackSettled(before: seq<Step>, during: seq<Step>, settle: Step, r: RequestId)
    requires After(before).Some? && After(before).value.rollback == Some(r)
    requires After(before + during).Some? && forall i :: 0 <= i < |during| ==> !Settles(during[i])
    requires Settles(settle) && Enabled(After(before + during).value, settle)
    requires settle.RollbackSubmitted? ==> After(before + during).value.submitting == Some(r)
    ensures var s := After(before + during).value;
      && Apply(s, settle).log == s.log + [Replied(r, SettledBy(settle))]
      && Apply(s, settle).rollback == None
  {
    RollbackHoldsSlot(before, during, r);
  }

  /** What becomes of a rollback request, by the state before: without turns, without a thread or while
      another holds the slot it is refused with that reason; else it takes the slot and is submitted. */
  lemma RollbackDecided(s: State, r: RequestId, numTurns: nat, found: bool)
    requires Enabled(s, RequestRollback(r, numTurns, found))
    ensures var s' := Apply(s, RequestRollback(r, numTurns, found));
      var refusal := if numTurns == 0 then Some(NoTurns) else if !found then Some(NoThread)
                     else if s.rollback.Some? then Some(AlreadyRollingBack) else None;
      && s'.interrupts == s.interrupts && s'.fileStarted == s.fileStarted && s'.lastError == s.lastError
      && match refusal
         case Some(why) =>
           s'.log == s.log + [Replied(r, InvalidRequest(why))] && s'.rollback == s.rollback && s'.submitting == None
         case None => s'.log == s.log && s'.rollback == s'.submitting == Some(r)
  {
  }

  /** An interrupt for a thread that is not there is refused, any other waits behind those before it. */
  lemma InterruptDecided(s: State, r: RequestId, found: bool)
    requires Enabled(s, RequestInterrupt(r, found))
    ensures var s' := Apply(s, RequestInterrupt(r, found));
      && s'.interrupts == (if found then s.interrupts + [r] else s.interrupts)
      && s'.log == (if found then s.log else s.log + [Replied(r, InvalidRequest(NoThread))])
      && s'.rollback == s.rollback && s'.submitting == s.submitting
  {
  }

  /** In every run a file change that is not open in the log is reported started and its end is reported
      completed; an error that affects the turn is reported as final and a stream error as one that is
      retried. */
  lemma StepReported(steps: seq<Step>, step: Step)
    requires After(steps).Some? && Enabled(After(steps).value, step)
    ensures var s := After(steps).value;
      var sent := Apply(s, step).log;
      match step
      case PatchStarts(item) => sent == if OpenIn(s.log, item) then s.log else s.log + [ItemStarted(item)]
      case PatchEnds(item) => sent == s.log + [ItemCompleted(item)]
      case StreamError(e) => sent == s.log + [ErrorNotification(e, true)]
      case ErrorEvent(e) => IsTurnError(step) ==> sent == s.log + [ErrorNotification(e, false)]
      case _ => true
  {
    if step.PatchStarts? {
      StartedIsOpen(steps, step.item);
    }
  }

  /** A rollback asked for while another is in flight gets one error reply and leaves that one, and
      every other request, as it was. */
  lemma RefusedRollbackDisturbsNothing(s: State, r: RequestId, numTurns: nat, found: bool, other: RequestId)
    requires Enabled(s, RequestRollback(r, numTurns, found)) && s.rollback.Some? && other != r
    ensures var s' := Apply(s, RequestRollback(r, numTurns, found));
      && s'.rollback == s.rollback && s'.submitting == s.submitting
      && Weight(s', other) == Weight(s, other)
      && CountReplies(s'.log, r) == CountReplies(s.log, r) + 1
  {
    var s' := Apply(s, RequestRollback(r, numTurns, found));
    var o := s'.log[|s.log|];
    CountRepliesPush(s.log, o, r);
    CountRepliesPush(s.log, o, other);
  }

  // ---- The handlers ----

  /** The locked state of one thread, the messages it has sent, and, for the proof, the request whose
      rollback is being submitted and the requests seen. */
  class ThreadState {
    var pendingInterrupts: seq<RequestId>
    var pendingRollbacks: Option<RequestId>
    var fileChangeStarted: set<ItemId>
    var lastError: Option<TurnError>
    var sent: seq<Output>
    ghost var submitting: Option<RequestId>
    ghost var requested: set<RequestId>

    ghost function View(): State
      reads this
    {
      State(pendingInterrupts, pendingRollbacks, submitting, fileChangeStarted, lastError, requested, sent)
    }

    constructor ()
      ensures View() == EMPTY
    {
      pendingInterrupts, pendingRollbacks, fileChangeStarted, lastError, sent := [], None, {}, None, [];
      submitting, requested := None, {};
    }

    method TurnInterrupt(r: RequestId, found: bool)
      requires Enabled(View(), RequestInterrupt(r, found))
      modifies this
      ensures View() == Apply(old(View()), RequestInterrupt(r, found))
    {
      requested := requested + {r};
      if !found {
        sent := sent + [Replied(r, InvalidRequest(NoThread))];
        return;
      }
      pendingInterrupts := pendingInterrupts + [r];
    }

    /** Up to the submission; `submit` tells whether there is one. */
    method ThreadRollback(r: RequestId, numTurns: nat, found: bool) returns (submit: bool)
      requires Enabled(View(), RequestRollback(r, numTurns, found))
      modifies this
      ensures View() == Apply(old(View()), RequestRollback(r, numTurns, found))
      ensures submit <==> submitting == Some(r)
    {
      requested := requested + {r};
      submit := false;
      if numTurns == 0 {
        sent := sent + [Replied(r, InvalidRequest(NoTurns))];
        return;
      }
      if !found {
        sent := sent + [Replied(r, InvalidRequest(NoThread))];
        return;
      }
      var alreadyInProgress := false;
      if pendingRollbacks.Some? {
        alreadyInProgress := true;
      } else {
        pendingRollbacks := Some(r);
      }
      if alreadyInProgress {
        sent := sent + [Replied(r, InvalidRequest(AlreadyRollingBack))];
        return;
      }
      submitting, submit := Some(r), true;
    }

    /** After the submission of `r`. */
    method Submitted(r: RequestId, ok: bool)
      requires submitting == Some(r)
      modifies this
      ensures View() == Apply(old(View()), RollbackSubmitted(ok))
    {
      submitting := None;
      if !ok {
        pendingRollbacks := None;
        sent := sent + [Replied(r, InternalError(NotSubmitted))];
      }
    }

    method OnTurnComplete(turn: TurnId)
      modifies this
      ensures View() == Apply(old(View()), TurnComplete(turn))
    {
      var error := lastError;
      fileChangeStarted, lastError := {}, None;
      var status := if error.Some? then Failed else Completed;
      sent := sent + [TurnCompleted(turn, status, error)];
    }

    method OnTurnAborted(turn: TurnId)
      modifies this
      ensures View() == Apply(old(View()), TurnAborted(turn))
    {
      var pending, replies := pendingInterrupts, sent;
      pendingInterrupts := [];
      for i := 0 to |pending|
        invariant replies == sent + InterruptReplies(pending[..i])
      {
        replies := replies + [Replied(pending[i], InterruptDone)];
        assert pending[..i + 1][..i] == pending[..i];
      }
      assert pending[..|pending|] == pending;
      fileChangeStarted, lastError := {}, None;
      sent := replies + [TurnCompleted(turn, Interrupted, None)];
    }

    method OnError(e: TurnError)
      modifies this
      ensures View() == Apply(old(View()), ErrorEvent(e))
    {
      if e.info == Some(ThreadRollbackFailed) {
        TakeRollback(InvalidRequest(CoreRefused));
        return;
      }
      if !AffectsTurn(e) {
        return;
      }
      lastError := Some(e);
      sent := sent + [ErrorNotification(e, false)];
    }

    method TakeRollback(reply: Reply)
      modifies this
      ensures View() == AnswerRollback(old(View()), reply)
    {
      var pending := pendingRollbacks;
      pendingRollbacks := None;
      if pending.Some? {
        sent := sent + [Replied(pending.value, reply)];
      }
    }

    method OnThreadRolledBack(rollout: Rollout)
      modifies this
      ensures View() == Apply(old(View()), ThreadRolledBack(rollout))
    {
      TakeRollback(RollbackReply(rollout));
    }

    method OnPatchStarts(item: ItemId)
      modifies this
      ensures View() == Apply(old(View()), PatchStarts(item))
    {
      var firstStart := item !in fileChangeStarted;
      fileChangeStarted := fileChangeStarted + {item};
      if firstStart {
        sent := sent + [ItemStarted(item)];
      }
    }

    method CompleteFileChangeItem(item: ItemId)
      modifies this
      ensures View() == Apply(old(View()), PatchEnds(item))
    {
      fileChangeStarted := fileChangeStarted - {item};
      sent := sent + [ItemCompleted(item)];
    }
  }
}
