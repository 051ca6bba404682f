/** `CommandExecManager`: the table of running commands, keyed by connection and process id. */
module CommandSessions {
  import opened Wrappers

  type ConnectionId = nat
  type RequestId = nat

  datatype ProcessId = Generated(n: int) | Client(name: string)
  datatype Key = Key(connection: ConnectionId, process: ProcessId)
  datatype Session = Active(request: RequestId) | UnsupportedWindowsSandbox

  datatype StartError = NeedsProcessId | StreamingOnWindows | CapOnWindows | EmptyCommand | DuplicateId | SpawnFailed

  datatype StartParams = StartParams(
    request: RequestId,
    connection: ConnectionId,
    processId: Option<string>,
    streaming: bool,
    windowsSandbox: bool,
    defaultCap: bool,
    emptyCommand: bool)

  const I64_MAX := 0x7fff_ffff_ffff_ffff
  const I64_MIN := -0x8000_0000_0000_0000

  /** `AtomicI64::fetch_add(1)`. */
  function Increment(n: int): int {
    if n == I64_MAX then I64_MIN else n + 1
  }

  // ---- The manager ----

  datatype Manager = Manager(sessions: map<Key, Session>, nextId: int)

  /** A start that is let in: the key it runs under, and whether it has an entry in the table. */
  datatype Admission = Admitted(key: Key, registered: bool) | Refused(error: StartError)

  function Admit(m: Manager, p: StartParams): (Manager, Admission) {
    if p.processId.None? && p.streaming then (m, Refused(NeedsProcessId))
    else
      var process := match p.processId case Some(name) => Client(name) case None => Generated(m.nextId);
      var m' := if p.processId.None? then m.(nextId := Increment(m.nextId)) else m;
      var key := Key(p.connection, process);
      if p.windowsSandbox then
        if p.streaming then (m', Refused(StreamingOnWindows))
        else if !p.defaultCap then (m', Refused(CapOnWindows))
        else if process.Generated? then (m', Admitted(key, false))
        else if key in m.sessions then (m', Refused(DuplicateId))
        else (m'.(sessions := m.sessions[key := UnsupportedWindowsSandbox]), Admitted(key, true))
      else if p.emptyCommand then (m', Refused(EmptyCommand))
      else if key in m.sessions then (m', Refused(DuplicateId))
      else (m'.(sessions := m.sessions[key := Active(p.request)]), Admitted(key, true))
  }

  predicate Belongs(key: Key, connection: ConnectionId) {
    key.connection == connection
  }

  /** The object: each method does what the function on its value says. */
  class CommandExecManager {
    var sessions: map<Key, Session>
    var nextGeneratedProcessId: int

    ghost function View(): Manager
      reads this
    {
      Manager(sessions, nextGeneratedProcessId)
    }

    constructor ()
      ensures View() == Manager(map[], 1)
    {
      sessions := map[];
      nextGeneratedProcessId := 1;
    }

    /** `start` up to the point where the command is spawned. */
    method Start(p: StartParams) returns (r: Admission)
      modifies this
      ensures (View(), r) == Admit(old(View()), p)
    {
      if p.processId.None? && p.streaming {
        return Refused(NeedsProcessId);
      }
      var process: ProcessId;
      match p.processId {
        case None =>
          process := Generated(nextGeneratedProcessId);
          nextGeneratedProcessId := Increment(nextGeneratedProcessId);
        case Some(name) =>
          process := Client(name);
      }
      var key := Key(p.connection, process);
      if p.windowsSandbox {
        if p.streaming {
          return Refused(StreamingOnWindows);
        }
        if !p.defaultCap {
          return Refused(CapOnWindows);
        }
        if process.Client? {
          if key in sessions {
            return Refused(DuplicateId);
          }
          sessions := sessions[key := UnsupportedWindowsSandbox];
          return Admitted(key, true);
        }
        return Admitted(key, false);
      }
      if p.emptyCommand {
        return Refused(EmptyCommand);
      }
      if key in sessions {
        return Refused(DuplicateId);
      }
      sessions := sessions[key := Active(p.request)];
      return Admitted(key, true);
    }

    method Remove(key: Key)
      modifies this
      ensures View() == old(View()).(sessions := old(sessions) - {key})
    {
      sessions := sessions - {key};
    }

    /** `connection_closed`: every session of the connection is removed, and the active ones are sent
        a terminate. */
    method ConnectionClosed(connection: ConnectionId) returns (terminated: set<RequestId>)
      modifies this
      ensures View() == Close(old(View()), connection)
      ensures terminated == ActiveRequests(old(View()), connection)
    {
      var keys := set key | key in sessions && Belongs(key, connection);
      ghost var all, before := keys, View();
      terminated := {};
      while keys != {}
        invariant keys <= all
        invariant nextGeneratedProcessId == before.nextId
        invariant sessions == before.sessions - (all - keys)
        invariant terminated ==
          set key | key in all - keys && before.sessions[key].Active? :: before.sessions[key].request
        decreases keys
      {
        var key :| key in keys;
        var session := sessions[key];
        sessions := sessions - {key};
        keys := keys - {key};
        ghost var done := terminated;
        if session.Active? {
          terminated := terminated + {session.request};
        }
        CollectOne(before, all, keys, key, done, terminated);
      }
      assert all - {} == all;
      assert sessions == Close(before, connection).sessions;
    }
  }

  lemma CollectOne(m: Manager, all: set<Key>, keys: set<Key>, key: Key, done: set<RequestId>, done': set<RequestId>)
    requires all <= m.sessions.Keys && key in all && key !in keys
    requires done == set k | k in all - (keys + {key}) && m.sessions[k].Active? :: m.sessions[k].request
    requires done' == if m.sessions[key].Active? then done + {m.sessions[key].request} else done
    ensures done' == set k | k in all - keys && m.sessions[k].Active? :: m.sessions[k].request
  {
    assert forall k :: k in all - keys <==> k in all - (keys + {key}) || k == key;
    if m.sessions[key].Active? {
      forall r | r in done' ensures exists k :: k in all - keys && m.sessions[k].Active? && m.sessions[k].request == r {
        if r == m.sessions[key].request {
          assert key in all - keys;
        }
      }
    }
  }

  function Close(m: Manager, connection: ConnectionId): Manager {
    m.(sessions := map key | key in m.sessions && !Belongs(key, connection) :: m.sessions[key])
  }

  function ActiveRequests(m: Manager, connection: ConnectionId): set<RequestId> {
    set key | key in m.sessions && Belongs(key, connection) && m.sessions[key].Active? :: m.sessions[key].request
  }

  // ---- Runs ----

  datatype Stage = Spawning | Executing | Answered

  /** A command that was let in and has not yet been removed from the table. */
  datatype Command = Command(key: Key, registered: bool, windows: bool, stage: Stage)

  /** `started`, `replies`, `generated`, `orphans` and `terminated` record the run so far; `orphans` are
      the commands that were live when their connection was closed. */
  datatype World = World(
    manager: Manager,
    live: map<RequestId, Command>,
    started: set<RequestId>,
    replies: seq<RequestId>,
    generated: nat,
    orphans: set<RequestId>,
    terminated: set<RequestId>)

  const EMPTY := World(Manager(map[], 1), map[], {}, [], 0, {}, {})

  datatype Step =
    | Begin(params: StartParams)
    | Spawned(request: RequestId, ok: bool)
    | Complete(request: RequestId)
    | Unregister(request: RequestId)
    | Closed(connection: ConnectionId)

  predicate Enabled(s: World, step: Step) {
    match step
    case Begin(p) => p.request !in s.started
    case Spawned(r, _) => r in s.live && s.live[r].stage.Spawning?
    case Complete(r) => r in s.live && s.live[r].stage.Executing?
    case Unregister(r) => r in s.live && s.live[r].stage.Answered?
    case Closed(_) => true
  }

  /** A start request has been decided. */
  function Enter(s: World, p: StartParams, manager: Manager, admission: Admission): World {
    var s' := s.(manager := manager, started := s.started + {p.request},
                 generated := if p.processId.None? && !p.streaming then s.generated + 1 else s.generated);
    match admission
    case Refused(_) => s'.(replies := s.replies + [p.request])
    case Admitted(key, registered) =>
      s'.(live := s.live[p.request := Command(key, registered, p.windowsSandbox,
                                              if p.windowsSandbox then Executing else Spawning)])
  }

  function Apply(s: World, step: Step): World
    requires Enabled(s, step)
  {
    match step
    case Begin(p) => Enter(s, p, Admit(s.manager, p).0, Admit(s.manager, p).1)
    case Spawned(r, ok) =>
      if ok then s.(live := s.live[r := s.live[r].(stage := Executing)])
      else s.(live := s.live - {r}, replies := s.replies + [r], manager := Drop(s.manager, s.live[r].key))
    case Complete(r) =>
      s.(live := s.live[r := s.live[r].(stage := Answered)], replies := s.replies + [r])
    case Unregister(r) =>
      s.(live := s.live - {r}, manager := Drop(s.manager, s.live[r].key))
    case Closed(c) =>
      s.(manager := Close(s.manager, c), orphans := s.orphans + LiveOn(s, c),
         terminated := s.terminated + ActiveRequests(s.manager, c))
  }

  function LiveOn(s: World, c: ConnectionId): set<RequestId> {
    set r | r in s.live && Belongs(s.live[r].key, c)
  }

  function Drop(m: Manager, key: Key): Manager {
    m.(sessions := m.sessions - {key})
  }

  function After(steps: seq<Step>): Option<World> {
    if |steps| == 0 then Some(EMPTY)
    else match After(steps[..|steps| - 1])
      case None => None
      case Some(s) => if Enabled(s, steps[|steps| - 1]) then Some(Apply(s, steps[|steps| - 1])) else None
  }

  /** Whether a start is let in, and why not otherwise: streaming needs a client's process id; the windows
      sandbox takes no streaming and no output cap of its own; elsewhere the command must not be empty; and
      the id must be free, unless it is generated under the windows sandbox, where none is registered. */
  lemma AdmitDecided(m: Manager, p: StartParams)
    ensures var (m', r) := Admit(m, p);
      var name := match p.processId case Some(id) => Client(id) case None => Generated(m.nextId);
      var key := Key(p.connection, name);
      var unregistered := p.windowsSandbox && p.processId.None?;
      var refusal :=
        if p.processId.None? && p.streaming then Some(NeedsProcessId)
        else if p.windowsSandbox && p.streaming then Some(StreamingOnWindows)
        else if p.windowsSandbox && !p.defaultCap then Some(CapOnWindows)
        else if !p.windowsSandbox && p.emptyCommand then Some(EmptyCommand)
        else if !unregistered && key in m.sessions then Some(DuplicateId)
        else None;
      && m'.nextId == (if p.processId.Some? || p.streaming then m.nextId
                       else if m.nextId == 0x7fff_ffff_ffff_ffff then -0x8000_0000_0000_0000 else m.nextId + 1)
      && match refusal
         case Some(why) => r == Refused(why) && m'.sessions == m.sessions
         case None =>
           && r == Admitted(key, !unregistered)
           && m'.sessions == if unregistered then m.sessions
                             else if p.windowsSandbox then m.sessions[key := UnsupportedWindowsSandbox]
                             else m.sessions[key := Active(p.request)]
  {
  }

  /** The parameter checks that come before the table is looked at. */
  predicate PassesChecks(p: StartParams) {
    if p.windowsSandbox then !p.streaming && p.defaultCap else !p.emptyCommand
  }

  /** The step starts a command under the client id of a command that has outlived its connection. */
  predicate Reuses(s: World, step: Step) {
    && step.Begin? && step.params.processId.Some? && PassesChecks(step.params)
    && exists r :: r in s.live && r in s.orphans
         && s.live[r].key == Key(step.params.connection, Client(step.params.processId.value))
  }

  predicate NoReuse(steps: seq<Step>) {
    |steps| > 0 ==>
      && NoReuse(steps[..|steps| - 1])
      && After(steps[..|steps| - 1]).Some?
      && !Reuses(After(steps[..|steps| - 1]).value, steps[|steps| - 1])
  }

  // ---- One reply per start ----

  function Count(replies: seq<RequestId>, r: RequestId): nat {
    if |replies| == 0 then 0
    else Count(replies[..|replies| - 1], r) + (if replies[|replies| - 1] == r then 1 else 0)
  }

  predicate Unanswered(s: World, r: RequestId) {
    r in s.live && !s.live[r].stage.Answered?
  }

  ghost predicate OneReplyEach(s: World) {
    && s.live.Keys <= s.started
    && forall r :: Count(s.replies, r) == Due(s, r)
  }

  lemma CountPush(replies: seq<RequestId>, x: RequestId, r: RequestId)
    ensures Count(replies + [x], r) == Count(replies, r) + (if x == r then 1 else 0)
  {
    assert (replies + [x])[..|replies|] == replies;
  }

  /** How many replies `r` should have had. */
  function Due(s: World, r: RequestId): nat {
    if r in s.started && !Unanswered(s, r) then 1 else 0
  }

  lemma EnterReplyCount(s: World, p: StartParams, manager: Manager, admission: Admission, r: RequestId)
    requires p.request !in s.started && s.live.Keys <= s.started && Count(s.replies, r) == Due(s, r)
    ensures Count(Enter(s, p, manager, admission).replies, r) == Due(Enter(s, p, manager, admission), r)
  {
    CountPush(s.replies, p.request, r);
  }

  lemma ApplyReplyCount(s: World, step: Step, r: RequestId)
    requires Enabled(s, step) && s.live.Keys <= s.started && Count(s.replies, r) == Due(s, r)
    ensures Count(Apply(s, step).replies, r) == Due(Apply(s, step), r)
  {
    match step {
      case Begin(p) => EnterReplyCount(s, p, Admit(s.manager, p).0, Admit(s.manager, p).1, r);
      case Spawned(q, ok) => CountPush(s.replies, q, r);
      case Complete(q) => CountPush(s.replies, q, r);
      case Unregister(q) =>
      case Closed(_) =>
    }
  }

  lemma ApplyOneReplyEach(s: World, step: Step)
    requires Enabled(s, step) && OneReplyEach(s)
    ensures OneReplyEach(Apply(s, step))
  {
    forall r ensures Count(Apply(s, step).replies, r) == Due(Apply(s, step), r) {
      ApplyReplyCount(s, step, r);
    }
    assert Apply(s, step).live.Keys <= Apply(s, step).started;
  }

  /** In every run a start request has exactly one reply once it has been refused or has finished, and
      none before. */
  lemma {:induction false} StartsAnsweredOnce(steps: seq<Step>)
    requires After(steps).Some?
    ensures OneReplyEach(After(steps).value)
  {
    if |steps| > 0 {
      StartsAnsweredOnce(steps[..|steps| - 1]);
      ApplyOneReplyEach(After(steps[..|steps| - 1]).value, steps[|steps| - 1]);
    }
  }

  // ---- From start to end ----

  /** The start request `r` was let in. */
  predicate LetIn(steps: seq<Step>, r: RequestId) {
    |steps| > 0 &&
      var before, last := steps[..|steps| - 1], steps[|steps| - 1];
      || LetIn(before, r)
      || (last.Begin? && last.params.request == r && After(before).Some?
          && Admit(After(before).value.manager, last.params).1.Admitted?)
  }

  /** It was let in under the windows sandbox. */
  predicate OnWindows(steps: seq<Step>, r: RequestId) {
    |steps| > 0 &&
      var before, last := steps[..|steps| - 1], steps[|steps| - 1];
      OnWindows(before, r) || (last.Begin? && last.params.request == r && last.params.windowsSandbox)
  }

  ghost predicate Requested(steps: seq<Step>, r: RequestId) {
    exists i :: 0 <= i < |steps| && steps[i].Begin? && steps[i].params.request == r
  }

  lemma RequestedPush(steps: seq<Step>, step: Step, r: RequestId)
    ensures Requested(steps + [step], r) <==> Requested(steps, r) || (step.Begin? && step.params.request == r)
  {
    var all := steps + [step];
    assert all[|steps|] == step;
    assert forall i :: 0 <= i < |steps| ==> all[i] == steps[i];
  }

  /** It was let in, and neither did its spawn fail nor was it unregistered. */
  predicate InTable(steps: seq<Step>, r: RequestId) {
    LetIn(steps, r) && Spawned(r, false) !in steps && Unregister(r) !in steps
  }

  ghost predicate Untouched(steps: seq<Step>, r: RequestId) {
    && !LetIn(steps, r) && !OnWindows(steps, r)
    && Spawned(r, true) !in steps && Spawned(r, false) !in steps && Complete(r) !in steps && Unregister(r) !in steps
  }

  /** What the run so far says of `r`. */
  ghost predicate Tracked(s: World, steps: seq<Step>, r: RequestId) {
    && (r in s.started <==> Requested(steps, r))
    && (!Requested(steps, r) ==> Untouched(steps, r))
    && (r in s.live <==> InTable(steps, r))
    && (r in s.live ==> StageIs(s.live[r], steps, r))
  }

  predicate StageIs(c: Command, steps: seq<Step>, r: RequestId) {
    && c.windows == OnWindows(steps, r)
    && (c.stage == Spawning <==> !OnWindows(steps, r) && Spawned(r, true) !in steps)
    && (c.stage == Answered <==> Complete(r) in steps)
  }

  lemma TrackedStep(s: World, rest: seq<Step>, step: Step, r: RequestId)
    requires After(rest) == Some(s) && Enabled(s, step) && Tracked(s, rest, r)
    ensures Tracked(Apply(s, step), rest + [step], r)
  {
    var steps := rest + [step];
    assert steps[..|rest|] == rest && steps[|rest|] == step;
    RequestedPush(rest, step, r);
  }

  /** In every run a command is live from when it is let in until its spawn fails or it is unregistered;
      under the windows sandbox it executes at once, elsewhere once it was spawned; and it is answered once
      it has completed. */
  lemma {:induction false} CommandTracked(steps: seq<Step>, r: RequestId)
    requires After(steps).Some?
    ensures Tracked(After(steps).value, steps, r)
  {
    if |steps| > 0 {
      var rest, step := steps[..|steps| - 1], steps[|steps| - 1];
      assert steps == rest + [step];
      CommandTracked(rest, r);
      TrackedStep(After(rest).value, rest, step, r);
    }
  }

  ghost predicate InTurn(steps: seq<Step>, step: Step) {
    match step
    case Begin(p) => !Requested(steps, p.request)
    case Spawned(r, _) => InTable(steps, r) && !OnWindows(steps, r) && Spawned(r, true) !in steps
    case Complete(r) =>
      InTable(steps, r) && (OnWindows(steps, r) || Spawned(r, true) in steps) && Complete(r) !in steps
    case Unregister(r) => InTable(steps, r) && Complete(r) in steps
    case Closed(_) => true
  }

  /** So each step can come exactly in its turn. */
  lemma StepPossible(steps: seq<Step>, step: Step)
    requires After(steps).Some?
    ensures Enabled(After(steps).value, step) <==> InTurn(steps, step)
  {
    match step {
      case Begin(p) => CommandTracked(steps, p.request);
      case Spawned(r, _) => CommandTracked(steps, r);
      case Complete(r) => CommandTracked(steps, r);
      case Unregister(r) => CommandTracked(steps, r);
      case Closed(_) =>
    }
  }

  // ---- No two live commands share a key ----

  function EntryOf(r: RequestId, c: Command): Session {
    if c.windows then UnsupportedWindowsSandbox else Active(r)
  }

  ghost predicate KeysUnique(s: World) {
    forall r, q :: r in s.live && q in s.live && r != q ==> s.live[r].key != s.live[q].key
  }

  /** The owner of a table entry. */
  predicate Owns(s: World, r: RequestId, key: Key) {
    r in s.live && s.live[r].key == key && s.live[r].registered && r !in s.orphans
  }

  ghost predicate TableMatches(s: World) {
    && (forall r :: r in s.live && s.live[r].registered && r !in s.orphans ==>
          s.live[r].key in s.manager.sessions && s.manager.sessions[s.live[r].key] == EntryOf(r, s.live[r]))
    && (forall r :: r in s.live && r in s.orphans ==> s.live[r].key !in s.manager.sessions)
    && (forall key :: key in s.manager.sessions ==> exists r :: Owns(s, r, key))
  }

  /** What holds of generated ids in every run: each is below the counter. */
  ghost predicate GeneratedFresh(s: World) {
    && s.manager.nextId == 1 + s.generated
    && (forall r :: r in s.live && s.live[r].key.process.Generated? ==> s.live[r].key.process.n < s.manager.nextId)
    && (forall r :: r in s.live && !s.live[r].registered ==> s.live[r].key.process.Generated?)
    && (forall key :: key in s.manager.sessions && key.process.Generated? ==> key.process.n < s.manager.nextId)
  }

  ghost predicate Consistent(s: World) {
    KeysUnique(s) && TableMatches(s) && s.live.Keys <= s.started && s.orphans <= s.started
  }

  lemma ApplyFresh(s: World, step: Step)
    requires Enabled(s, step) && GeneratedFresh(s) && Apply(s, step).generated < 0x7fff_ffff_ffff_ffff
    ensures GeneratedFresh(Apply(s, step))
  {
  }

  lemma {:induction false} RunFresh(steps: seq<Step>)
    requires After(steps).Some? && After(steps).value.generated < 0x7fff_ffff_ffff_ffff
    ensures GeneratedFresh(After(steps).value)
  {
    if |steps| > 0 {
      var step, s := steps[|steps| - 1], After(steps[..|steps| - 1]).value;
      assert s.generated <= Apply(s, step).generated;
      RunFresh(steps[..|steps| - 1]);
      ApplyFresh(s, step);
    }
  }

  /** In every run, short of the counter wrapping around, a generated id is not refused as a duplicate. */
  lemma GeneratedNeverCollides(steps: seq<Step>, p: StartParams)
    requires After(steps).Some? && After(steps).value.generated < 0x7fff_ffff_ffff_ffff && p.processId.None?
    ensures Admit(After(steps).value.manager, p).1 != Refused(DuplicateId)
  {
    RunFresh(steps);
    var m := After(steps).value.manager;
    assert Key(p.connection, Generated(m.nextId)) !in m.sessions;
  }

  lemma {:induction false} PrefixEnabled(steps: seq<Step>, k: nat)
    requires k <= |steps| && After(steps).Some?
    ensures After(steps[..k]).Some? && After(steps[..k]).value.generated <= After(steps).value.generated
  {
    if k == |steps| {
      assert steps[..k] == steps;
    } else {
      PrefixEnabled(steps[..|steps| - 1], k);
      assert steps[..|steps| - 1][..k] == steps[..k];
    }
  }

  /** Two ids generated in one run differ, whichever connections they are for. */
  lemma GeneratedIdsDiffer(steps: seq<Step>, i: nat, j: nat)
    requires i < j < |steps| && After(steps).Some? && After(steps).value.generated < 0x7fff_ffff_ffff_ffff
    requires steps[i].Begin? && steps[i].params.processId.None? && steps[j].Begin? && steps[j].params.processId.None?
    ensures After(steps[..i]).Some? && After(steps[..j]).Some?
    ensures var a := Admit(After(steps[..i]).value.manager, steps[i].params).1;
      var b := Admit(After(steps[..j]).value.manager, steps[j].params).1;
      a.Admitted? && b.Admitted? ==> a.key.process != b.key.process
  {
    PrefixEnabled(steps, i);
    PrefixEnabled(steps, i + 1);
    PrefixEnabled(steps, j);
    PrefixEnabled(steps[..j], i + 1);
    assert steps[..j][..i + 1] == steps[..i + 1];
    assert steps[..i + 1][..i] == steps[..i] && steps[..i + 1][i] == steps[i];
    RunFresh(steps[..i]);
    RunFresh(steps[..j]);
  }

  /** A key that is let in belongs to no live command, unless an orphan's id is used again. */
  lemma AdmittedKeyFree(s: World, p: StartParams)
    requires Consistent(s) && GeneratedFresh(s) && !Reuses(s, Begin(p)) && Admit(s.manager, p).1.Admitted?
    ensures forall r :: r in s.live ==> s.live[r].key != Admit(s.manager, p).1.key
  {
  }

  lemma BeginTable(s: World, p: StartParams)
    requires Enabled(s, Begin(p)) && TableMatches(s) && s.live.Keys <= s.started && s.orphans <= s.started
    requires Admit(s.manager, p).1.Admitted? ==> forall r :: r in s.live ==> s.live[r].key != Admit(s.manager, p).1.key
    ensures TableMatches(Apply(s, Begin(p)))
  {
    var s' := Apply(s, Begin(p));
    forall key | key in s'.manager.sessions ensures exists r :: Owns(s', r, key) {
      if key in s.manager.sessions {
        var r :| Owns(s, r, key);
        assert Owns(s', r, key);
      } else {
        assert Owns(s', p.request, key);
      }
    }
  }

  lemma BeginConsistent(s: World, p: StartParams)
    requires Enabled(s, Begin(p)) && Consistent(s) && GeneratedFresh(s) && !Reuses(s, Begin(p))
    ensures Consistent(Apply(s, Begin(p)))
  {
    if Admit(s.manager, p).1.Admitted? {
      AdmittedKeyFree(s, p);
    }
    BeginTable(s, p);
  }

  lemma RestageConsistent(s: World, r: RequestId, stage: Stage, replies: seq<RequestId>)
    requires Consistent(s) && r in s.live
    ensures Consistent(s.(live := s.live[r := s.live[r].(stage := stage)], replies := replies))
  {
    var s' := s.(live := s.live[r := s.live[r].(stage := stage)], replies := replies);
    forall q | q in s.live ensures s'.live[q].key == s.live[q].key {
    }
    forall key | key in s'.manager.sessions ensures exists q :: Owns(s', q, key) {
      var q :| Owns(s, q, key);
      assert Owns(s', q, key);
    }
  }

  lemma RemoveConsistent(s: World, r: RequestId, replies: seq<RequestId>)
    requires Consistent(s) && r in s.live
    ensures Consistent(s.(live := s.live - {r}, replies := replies, manager := Drop(s.manager, s.live[r].key)))
  {
    var s' := s.(live := s.live - {r}, replies := replies, manager := Drop(s.manager, s.live[r].key));
    forall key | key in s'.manager.sessions ensures exists q :: Owns(s', q, key) {
      var q :| Owns(s, q, key);
      assert Owns(s', q, key);
    }
  }

  lemma CloseConsistent(s: World, c: ConnectionId)
    requires Consistent(s)
    ensures Consistent(Apply(s, Closed(c)))
  {
    var s' := Apply(s, Closed(c));
    forall key | key in s'.manager.sessions ensures exists q :: Owns(s', q, key) {
      var q :| Owns(s, q, key);
      assert Owns(s', q, key);
    }
  }

  lemma ApplyConsistent(s: World, step: Step)
    requires Enabled(s, step) && Consistent(s) && GeneratedFresh(s) && !Reuses(s, step)
    ensures Consistent(Apply(s, step))
  {
    match step {
      case Begin(p) => BeginConsistent(s, p);
      case Spawned(r, ok) =>
        if ok {
          RestageConsistent(s, r, Executing, s.replies);
        } else {
          RemoveConsistent(s, r, s.replies + [r]);
        }
      case Complete(r) => RestageConsistent(s, r, Answered, s.replies + [r]);
      case Unregister(r) => RemoveConsistent(s, r, s.replies);
      case Closed(c) => CloseConsistent(s, c);
    }
  }

  /** As long as no orphan's id is used again, no two live commands share a connection and process id,
      and the table holds exactly the registered commands whose connection is still open. */
  lemma {:induction false} LiveKeysUnique(steps: seq<Step>)
    requires NoReuse(steps) && After(steps).Some? && After(steps).value.generated < 0x7fff_ffff_ffff_ffff
    ensures Consistent(After(steps).value)
  {
    if |steps| > 0 {
      var step, s := steps[|steps| - 1], After(steps[..|steps| - 1]).value;
      assert s.generated <= After(steps).value.generated;
      LiveKeysUnique(steps[..|steps| - 1]);
      RunFresh(steps[..|steps| - 1]);
      ApplyConsistent(s, step);
    }
  }

  /** Using an orphan's id again puts two live commands under one key. */
  lemma ReuseCollides(s: World, step: Step)
    requires Enabled(s, step) && Consistent(s) && Reuses(s, step)
    ensures !KeysUnique(Apply(s, step))
  {
    var p := step.params;
    var key := Key(p.connection, Client(p.processId.value));
    var r :| r in s.live && r in s.orphans && s.live[r].key == key;
    assert Admit(s.manager, p).1 == Admitted(key, true);
    var s' := Apply(s, step);
    assert s'.live[r].key == s'.live[p.request].key && r != p.request;
  }

  ghost predicate UniqueThroughout(steps: seq<Step>) {
    forall k :: 0 <= k <= |steps| ==> After(steps[..k]).Some? && KeysUnique(After(steps[..k]).value)
  }

  lemma UniqueBefore(steps: seq<Step>)
    requires |steps| > 0 && UniqueThroughout(steps)
    ensures UniqueThroughout(steps[..|steps| - 1])
  {
    var init := steps[..|steps| - 1];
    forall k | 0 <= k <= |init| ensures After(init[..k]).Some? && KeysUnique(After(init[..k]).value) {
      assert init[..k] == steps[..k];
    }
  }

  lemma {:induction false} UniqueMeansNoReuse(steps: seq<Step>)
    requires After(steps).Some? && After(steps).value.generated < 0x7fff_ffff_ffff_ffff && UniqueThroughout(steps)
    ensures NoReuse(steps)
  {
    if |steps| > 0 {
      var step, s := steps[|steps| - 1], After(steps[..|steps| - 1]).value;
      assert s.generated <= After(steps).value.generated;
      UniqueBefore(steps);
      UniqueMeansNoReuse(steps[..|steps| - 1]);
      LiveKeysUnique(steps[..|steps| - 1]);
      assert steps[..|steps|] == steps;
      if Reuses(s, step) {
        ReuseCollides(s, step);
      }
    }
  }

  lemma {:induction false} PrefixNoReuse(steps: seq<Step>, k: nat)
    requires k <= |steps| && NoReuse(steps)
    ensures NoReuse(steps[..k])
  {
    if k == |steps| {
      assert steps[..k] == steps;
    } else {
      PrefixNoReuse(steps[..|steps| - 1], k);
      assert steps[..|steps| - 1][..k] == steps[..k];
    }
  }

  /** In every run, short of the counter wrapping around, no two live commands ever share a connection
      and process id exactly when no start uses the id of a command that outlived its connection. */
  lemma KeysUniqueExactly(steps: seq<Step>)
    requires After(steps).Some? && After(steps).value.generated < 0x7fff_ffff_ffff_ffff
    ensures UniqueThroughout(steps) <==> NoReuse(steps)
  {
    if UniqueThroughout(steps) {
      UniqueMeansNoReuse(steps);
    }
    if NoReuse(steps) {
      forall k | 0 <= k <= |steps| ensures After(steps[..k]).Some? && KeysUnique(After(steps[..k]).value) {
        PrefixEnabled(steps, k);
        PrefixNoReuse(steps, k);
        LiveKeysUnique(steps[..k]);
      }
    }
  }

  /** Closing a connection removes its sessions from the table and leaves all others as they are. As long as
      no orphan's id was used again, it sends a terminate to exactly the commands of the connection that can
      take one and were not sent one when the connection closed before. */
  lemma CloseTerminatesAll(steps: seq<Step>, c: ConnectionId)
    requires After(steps).Some? && After(steps).value.generated < 0x7fff_ffff_ffff_ffff
    ensures var s, s' := After(steps).value, Apply(After(steps).value, Closed(c));
      && (forall key :: key in s'.manager.sessions <==> key in s.manager.sessions && key.connection != c)
      && (forall key :: key in s'.manager.sessions ==> s'.manager.sessions[key] == s.manager.sessions[key])
      && (NoReuse(steps) ==> forall r :: r in s'.terminated <==> r in s.terminated || Signalled(s, r, c))
  {
    var s := After(steps).value;
    if NoReuse(steps) {
      LiveKeysUnique(steps);
      RegisteredUnlessWindows(steps);
      forall r ensures r in ActiveRequests(s.manager, c) <==> Signalled(s, r, c) {
        SignalledExactly(s, r, c);
      }
    }
  }

  /** A command of the connection that can take a terminate and has not outlived it. */
  predicate Signalled(s: World, r: RequestId, c: ConnectionId) {
    r in s.live && s.live[r].key.connection == c && !s.live[r].windows && r !in s.orphans
  }

  lemma SignalledExactly(s: World, r: RequestId, c: ConnectionId)
    requires Consistent(s) && (forall q :: q in s.live && !s.live[q].windows ==> s.live[q].registered)
    ensures r in ActiveRequests(s.manager, c) <==> Signalled(s, r, c)
  {
    if r in ActiveRequests(s.manager, c) {
      var key :| key in s.manager.sessions && Belongs(key, c) && s.manager.sessions[key] == Active(r);
      var q :| Owns(s, q, key);
    }
    if Signalled(s, r, c) {
      var key := s.live[r].key;
      assert key in s.manager.sessions && s.manager.sessions[key] == Active(r) && Belongs(key, c);
    }
  }

  lemma {:induction false} RegisteredUnlessWindows(steps: seq<Step>)
    requires After(steps).Some?
    ensures forall r :: r in After(steps).value.live && !After(steps).value.live[r].windows ==>
      After(steps).value.live[r].registered
  {
    if |steps| > 0 {
      RegisteredUnlessWindows(steps[..|steps| - 1]);
    }
  }

  /** A connection that is closed and then used again can run two commands under one key: the first is
      still live when its entry is gone. */
  lemma ReusedConnectionSharesKey()
    ensures var p := StartParams(0, 1, Some("p"), false, false, true, false);
      var steps := [Begin(p), Closed(1), Begin(p.(request := 1))];
      After(steps).Some? && !KeysUnique(After(steps).value)
  {
    var p := StartParams(0, 1, Some("p"), false, false, true, false);
    var steps := [Begin(p), Closed(1), Begin(p.(request := 1))];
    var key := Key(1, Client("p"));
    assert Admit(EMPTY.manager, p).1 == Admitted(key, true);
    var one := Apply(EMPTY, Begin(p));
    assert one.live[0].key == key;
    assert After(steps[..1]) == Some(one) by {
      assert steps[..1][..0] == [] && steps[..1][0] == Begin(p);
    }
    var two := Apply(one, Closed(1));
    assert two.manager.sessions == map[];
    assert After(steps[..2]) == Some(two) by {
      assert steps[..2][..1] == steps[..1] && steps[..2][1] == Closed(1);
    }
    assert Admit(two.manager, p.(request := 1)).1 == Admitted(key, true);
    var three := Apply(two, Begin(p.(request := 1)));
    assert three.live[0].key == key && three.live[1].key == key;
    assert steps[2] == Begin(p.(request := 1));
    assert After(steps) == Some(three);
  }
}
