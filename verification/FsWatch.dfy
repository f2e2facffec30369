/** The watch table and the handshake that makes `unwatch` wait for the watch task to be gone. Each
    step is what one caller does under the lock, or one await of a task resuming. */
module FsWatch {
  type TaskId = string
  type Call = string

  datatype Key = Key(connection: string, watchId: string)

  /** Where the watch task is. `Picked`: its select chose an event over the terminate channel, and the
      notification is not out yet. `Sending`: the notification is out and its write is being awaited. */
  datatype Place = NotStarted | Selecting | Picked | Sending | Exited

  /** The watch task's end of the terminate channel: nothing yet, an unwatch call waiting to be released,
      or the sending half dropped with the table entry. */
  datatype Inbox = Empty | Terminate(call: Call) | SenderGone

  datatype Task = Task(key: Key, place: Place, inbox: Inbox)

  /** An `unwatch` that removed an entry: about to signal its task, waiting, or returned. */
  datatype Unwatch = Removed(task: TaskId) | Waiting(task: TaskId) | Returned(task: TaskId)

  datatype State = State(
    entries: map<Key, TaskId>,
    tasks: map<TaskId, Task>,
    calls: map<Call, Unwatch>,
    notifications: seq<TaskId>)

  const Start := State(map[], map[], map[], [])

  datatype Step =
    | WatchInsert(key: Key, task: TaskId)
    | WatchRefuse(key: Key)
    | TaskStart(task: TaskId)
    | TaskPick(task: TaskId)
    | TaskSkip(task: TaskId)
    | TaskSend(task: TaskId)
    | TaskSent(task: TaskId)
    | TaskTerminate(task: TaskId)
    | TaskSourceEnded(task: TaskId)
    | UnwatchRemove(call: Call, connection: string, watchId: string)
    | UnwatchSignal(call: Call)
    | UnwatchReturn(call: Call)
    | ConnectionClosed(connection: string)

  predicate At(s: State, t: TaskId, place: Place) { t in s.tasks && s.tasks[t].place == place }

  /** The sender handed over for a call is dropped: the watch task took it, or died with it. */
  predicate ReleasedBy(s: State, call: Call, t: TaskId) {
    t in s.tasks && s.tasks[t].inbox != Terminate(call)
  }

  predicate Enabled(s: State, step: Step) {
    match step
    case WatchInsert(key, t) => key !in s.entries && t !in s.tasks
    case WatchRefuse(key) => key in s.entries
    case TaskStart(t) => At(s, t, NotStarted)
    case TaskPick(t) => At(s, t, Selecting) && s.tasks[t].inbox.Empty?
    case TaskSkip(t) => At(s, t, Picked)
    case TaskSend(t) => At(s, t, Picked)
    case TaskSent(t) => At(s, t, Sending)
    case TaskTerminate(t) => At(s, t, Selecting) && !s.tasks[t].inbox.Empty?
    case TaskSourceEnded(t) => At(s, t, Selecting)
    case UnwatchRemove(call, connection, watchId) => call !in s.calls && Key(connection, watchId) in s.entries
    case UnwatchSignal(call) => call in s.calls && s.calls[call].Removed? && s.calls[call].task in s.tasks
    case UnwatchReturn(call) => call in s.calls && s.calls[call].Waiting? && ReleasedBy(s, call, s.calls[call].task)
    case ConnectionClosed(_) => true
  }

  function Move(s: State, t: TaskId, place: Place): State
    requires t in s.tasks
  {
    s.(tasks := s.tasks[t := s.tasks[t].(place := place)])
  }

  /** A task that leaves its loop drops its end of the channel and whatever was in it. */
  function Exit(s: State, t: TaskId): State
    requires t in s.tasks
  {
    s.(tasks := s.tasks[t := s.tasks[t].(place := Exited, inbox := SenderGone)])
  }

  function Next(s: State, step: Step): State
    requires Enabled(s, step)
  {
    match step
    case WatchInsert(key, t) =>
      s.(entries := s.entries[key := t], tasks := s.tasks[t := Task(key, NotStarted, Empty)])
    case WatchRefuse(_) => s
    case TaskStart(t) => Move(s, t, Selecting)
    case TaskPick(t) => Move(s, t, Picked)
    // An event without paths is not sent.
    case TaskSkip(t) => Move(s, t, Selecting)
    case TaskSend(t) => Move(s, t, Sending).(notifications := s.notifications + [t])
    case TaskSent(t) => Move(s, t, Selecting)
    case TaskTerminate(t) => Exit(s, t)
    case TaskSourceEnded(t) => Exit(s, t)
    case UnwatchRemove(call, connection, watchId) =>
      var key := Key(connection, watchId);
      s.(entries := s.entries - {key}, calls := s.calls[call := Removed(s.entries[key])])
    case UnwatchSignal(call) =>
      var t := s.calls[call].task;
      var task := s.tasks[t];
      // Signalling a task that is gone drops the sender on the spot.
      s.(tasks := s.tasks[t := if task.place.Exited? then task else task.(inbox := Terminate(call))],
         calls := s.calls[call := Waiting(t)])
    case UnwatchReturn(call) => s.(calls := s.calls[call := Returned(s.calls[call].task)])
    case ConnectionClosed(connection) =>
      s.(entries := map key | key in s.entries && key.connection != connection :: s.entries[key],
         tasks := map t | t in s.tasks :: if Dropped(s, connection, t) then s.tasks[t].(inbox := SenderGone) else s.tasks[t])
  }

  /** The entry of this task goes away with its connection. */
  predicate Dropped(s: State, connection: string, t: TaskId) {
    t in s.tasks && s.tasks[t].key.connection == connection && s.tasks[t].key in s.entries && s.entries[s.tasks[t].key] == t
  }

  ghost predicate Reaches(s: State, steps: seq<Step>, u: State)
    decreases |steps|
  {
    if steps == [] then s == u else Enabled(s, steps[0]) && Reaches(Next(s, steps[0]), steps[1..], u)
  }

  // ---------------------------------------------------------------- what every step keeps

  /** An entry owns its task: that task is there and has not been told anything, except that it may
      have ended by itself. */
  predicate EntryOk(s: State, key: Key) {
    key in s.entries ==>
      && s.entries[key] in s.tasks && s.tasks[s.entries[key]].key == key
      && (s.tasks[s.entries[key]].place.Exited? || s.tasks[s.entries[key]].inbox.Empty?)
  }

  /** A call owns the watch task it took out of the table, until that task is gone. */
  predicate CallOk(s: State, call: Call) {
    call in s.calls ==>
      var t := s.calls[call].task;
      && t in s.tasks
      && (forall key :: key in s.entries ==> s.entries[key] != t)
      && (s.tasks[t].place.Exited? ||
          match s.calls[call]
          case Removed(_) => s.tasks[t].inbox.Empty?
          case Waiting(_) => s.tasks[t].inbox == Terminate(call)
          case Returned(_) => false)
  }

  /** No two calls own one task. */
  predicate Exclusive(s: State) {
    forall a, b :: a in s.calls && b in s.calls && a != b ==> s.calls[a].task != s.calls[b].task
  }

  /** A task that is gone holds no message. */
  predicate Quiet(s: State, t: TaskId) {
    t in s.tasks && s.tasks[t].place.Exited? ==> s.tasks[t].inbox.SenderGone?
  }

  ghost predicate Inv(s: State) {
    && (forall key :: EntryOk(s, key))
    && (forall call :: CallOk(s, call))
    && Exclusive(s)
    && (forall t :: Quiet(s, t))
  }

  /** Steps of a task change that task alone. */
  lemma TaskStepKeeps(s: State, step: Step)
    requires Inv(s) && Enabled(s, step)
    requires || step.TaskStart? || step.TaskPick? || step.TaskSkip? || step.TaskSend? || step.TaskSent?
             || step.TaskTerminate? || step.TaskSourceEnded?
    ensures Inv(Next(s, step))
  {
    var u := Next(s, step);
    forall key ensures EntryOk(u, key) { assert EntryOk(s, key); }
    forall call ensures CallOk(u, call) { assert CallOk(s, call); }
    forall t ensures Quiet(u, t) { assert Quiet(s, t); }
  }

  lemma WatchKeeps(s: State, step: Step)
    requires Inv(s) && Enabled(s, step) && step.WatchInsert?
    ensures Inv(Next(s, step))
  {
    var u := Next(s, step);
    forall key ensures EntryOk(u, key) { assert EntryOk(s, key); }
    forall call ensures CallOk(u, call) { assert CallOk(s, call); }
    forall t ensures Quiet(u, t) { assert Quiet(s, t); }
  }

  lemma RemoveKeeps(s: State, step: Step)
    requires Inv(s) && Enabled(s, step) && step.UnwatchRemove?
    ensures Inv(Next(s, step))
  {
    var u := Next(s, step);
    var key := Key(step.connection, step.watchId);
    assert EntryOk(s, key);
    forall k ensures EntryOk(u, k) { assert EntryOk(s, k); }
    forall call ensures CallOk(u, call) {
      assert CallOk(s, call);
      forall k | k in u.entries ensures u.entries[k] != s.entries[key] { assert EntryOk(s, k); }
    }
    forall t ensures Quiet(u, t) { assert Quiet(s, t); }
    forall call | call in s.calls ensures s.calls[call].task != s.entries[key] { assert CallOk(s, call); }
  }

  lemma CallStepKeeps(s: State, step: Step)
    requires Inv(s) && Enabled(s, step) && (step.UnwatchSignal? || step.UnwatchReturn?)
    ensures Inv(Next(s, step))
  {
    var u := Next(s, step);
    assert CallOk(s, step.call);
    forall k ensures EntryOk(u, k) { assert EntryOk(s, k); }
    forall call ensures CallOk(u, call) { assert CallOk(s, call); }
    forall t ensures Quiet(u, t) { assert Quiet(s, t); }
  }

  lemma ConnectionClosedKeeps(s: State, step: Step)
    requires Inv(s) && step.ConnectionClosed?
    ensures Inv(Next(s, step))
  {
    var u := Next(s, step);
    forall k ensures EntryOk(u, k) { assert EntryOk(s, k); }
    forall call ensures CallOk(u, call) { assert CallOk(s, call); }
    forall t ensures Quiet(u, t) { assert Quiet(s, t); }
  }

  /** Every step keeps the invariant, lets no task come back, and adds at most a notification of a
      task that is still in its loop. */
  lemma NextKeeps(s: State, step: Step)
    requires Inv(s) && Enabled(s, step)
    ensures Inv(Next(s, step))
    ensures forall t :: At(s, t, Exited) ==> At(Next(s, step), t, Exited)
    ensures Next(s, step).notifications == s.notifications + if step.TaskSend? then [step.task] else []
    ensures forall i :: |s.notifications| <= i < |Next(s, step).notifications| ==> !At(s, Next(s, step).notifications[i], Exited)
  {
    hide Inv;
    if step.WatchInsert? { WatchKeeps(s, step); }
    else if step.UnwatchRemove? { RemoveKeeps(s, step); }
    else if step.UnwatchSignal? || step.UnwatchReturn? { CallStepKeeps(s, step); }
    else if step.ConnectionClosed? { ConnectionClosedKeeps(s, step); }
    else if !step.WatchRefuse? { TaskStepKeeps(s, step); }
  }

  lemma {:induction false} RunKeeps(s: State, steps: seq<Step>, u: State)
    requires Inv(s) && Reaches(s, steps, u)
    ensures Inv(u)
    ensures forall t :: At(s, t, Exited) ==> At(u, t, Exited)
    ensures s.notifications <= u.notifications
    ensures forall i :: |s.notifications| <= i < |u.notifications| ==> !At(s, u.notifications[i], Exited)
    decreases |steps|
  {
    hide Inv, Next, Enabled, At;
    if steps != [] {
      NextKeeps(s, steps[0]);
      RunKeeps(Next(s, steps[0]), steps[1..], u);
    }
  }

  /** Under every interleaving: when an `unwatch` that removed an entry has returned, that entry's
      task is gone for good, and no later notification is its. */
  lemma {:induction false} NoNotificationAfterUnwatch(before: seq<Step>, s: State, after: seq<Step>, u: State, call: Call)
    requires Reaches(Start, before, s) && Reaches(s, after, u)
    requires call in s.calls && s.calls[call].Returned?
    ensures At(u, s.calls[call].task, Exited)
    ensures s.notifications <= u.notifications
    ensures s.calls[call].task !in u.notifications[|s.notifications|..]
  {
    assert Inv(Start);
    RunKeeps(Start, before, s);
    RunKeeps(s, after, u);
    hide Reaches;
    var t := s.calls[call].task;
    assert CallOk(s, call);
    var later := u.notifications[|s.notifications|..];
    forall i | 0 <= i < |later| ensures later[i] != t {
      assert later[i] == u.notifications[|s.notifications| + i];
    }
  }

  /** The wait is needed: here the signal is given while the watch task holds an event it picked, and the
      notification goes out after it. */
  lemma SignalAloneIsNotEnough(key: Key, t: TaskId, call: Call)
    ensures var before := [WatchInsert(key, t), TaskStart(t), TaskPick(t)]
                          + [UnwatchRemove(call, key.connection, key.watchId), UnwatchSignal(call)];
            var s := State(map[], map[t := Task(key, Picked, Terminate(call))], map[call := Waiting(t)], []);
            && Reaches(Start, before, s)
            && Enabled(s, TaskSend(t)) && Next(s, TaskSend(t)).notifications == [t]
            && !Enabled(s, UnwatchReturn(call))
  {
    hide Reaches;
    var s := State(map[], map[t := Task(key, Picked, Terminate(call))], map[call := Waiting(t)], []);
    PicksAnEvent(key, t, [UnwatchRemove(call, key.connection, key.watchId), UnwatchSignal(call)], s) by {
      SignalsMeanwhile(key, t, call);
    }
  }

  lemma PicksAnEvent(key: Key, t: TaskId, rest: seq<Step>, u: State)
    requires Reaches(State(map[key := t], map[t := Task(key, Picked, Empty)], map[], []), rest, u)
    ensures Reaches(Start, [WatchInsert(key, t), TaskStart(t), TaskPick(t)] + rest, u)
  {
    hide Reaches;
    var s0 := State(map[key := t], map[t := Task(key, NotStarted, Empty)], map[], []);
    var s1 := Move(s0, t, Selecting);
    ReachesOne(s1, TaskPick(t), rest, u) by {
      assert Move(s1, t, Picked) == State(map[key := t], map[t := Task(key, Picked, Empty)], map[], []);
    }
    ReachesOne(s0, TaskStart(t), [TaskPick(t)] + rest, u);
    ReachesOne(Start, WatchInsert(key, t), [TaskStart(t)] + ([TaskPick(t)] + rest), u) by {
      assert Next(Start, WatchInsert(key, t)) == s0;
    }
    assert [WatchInsert(key, t)] + ([TaskStart(t)] + ([TaskPick(t)] + rest)) == [WatchInsert(key, t), TaskStart(t), TaskPick(t)] + rest;
  }

  lemma SignalsMeanwhile(key: Key, t: TaskId, call: Call)
    ensures var s := State(map[key := t], map[t := Task(key, Picked, Empty)], map[], []);
            var u := State(map[], map[t := Task(key, Picked, Terminate(call))], map[call := Waiting(t)], []);
            Reaches(s, [UnwatchRemove(call, key.connection, key.watchId), UnwatchSignal(call)], u)
  {
    var s := State(map[key := t], map[t := Task(key, Picked, Empty)], map[], []);
    var u := State(map[], map[t := Task(key, Picked, Terminate(call))], map[call := Waiting(t)], []);
    var mid := State(map[], map[t := Task(key, Picked, Empty)], map[call := Removed(t)], []);
    var remove := UnwatchRemove(call, key.connection, key.watchId);
    assert Next(s, remove) == mid by {
      assert Key(key.connection, key.watchId) == key;
      assert s.entries - {key} == map[];
    }
    assert Next(mid, UnwatchSignal(call)) == u;
    ReachesOne(mid, UnwatchSignal(call), [], u);
    ReachesOne(s, remove, [UnwatchSignal(call)], u);
  }

  lemma ReachesOne(s: State, step: Step, rest: seq<Step>, u: State)
    requires Enabled(s, step) && Reaches(Next(s, step), rest, u)
    ensures Reaches(s, [step] + rest, u)
  {
    assert ([step] + rest)[1..] == rest;
  }

  /** The watch task has been told to stop, or is gone. */
  predicate Stopping(s: State, t: TaskId) { t in s.tasks && !s.tasks[t].inbox.Empty? }

  function Count(ts: seq<TaskId>, t: TaskId): nat { multiset(ts)[t] }

  /** The notifications a stopping watch task can still send: the one it has picked. */
  function Left(s: State, t: TaskId): nat { if At(s, t, Picked) then 1 else 0 }

  lemma StopStep(s: State, step: Step, t: TaskId)
    requires Stopping(s, t) && Enabled(s, step)
    ensures var u := Next(s, step);
            Stopping(u, t) && Count(u.notifications, t) + Left(u, t) <= Count(s.notifications, t) + Left(s, t)
  {
  }

  /** A watch task told to stop sends at most the one notification it had already picked. */
  lemma {:induction false} AtMostOneAfterSignal(s: State, steps: seq<Step>, u: State, t: TaskId)
    requires Stopping(s, t) && Reaches(s, steps, u)
    ensures Stopping(u, t)
    ensures Count(u.notifications, t) + Left(u, t) <= Count(s.notifications, t) + Left(s, t)
    decreases |steps|
  {
    hide Stopping, Count, Left, Next, Enabled;
    if steps != [] {
      StopStep(s, steps[0], t);
      AtMostOneAfterSignal(Next(s, steps[0]), steps[1..], u, t);
    }
  }

  /** The step takes this entry out of the table. */
  predicate TakesOut(step: Step, key: Key) {
    || (step.UnwatchRemove? && step.connection == key.connection && step.watchId == key.watchId)
    || (step.ConnectionClosed? && step.connection == key.connection)
  }

  /** An entry is in the table from its watch until its own connection unwatches it or closes, and
      belongs to the same task all the while. */
  lemma EntryStaysWithItsConnection(s: State, step: Step, key: Key)
    requires Enabled(s, step)
    ensures var u := Next(s, step);
            && (key in u.entries <==> (step.WatchInsert? && step.key == key) || (key in s.entries && !TakesOut(step, key)))
            && (key in u.entries ==> u.entries[key] == if key in s.entries then s.entries[key] else step.task)
  {
  }

  /** Closing a connection leaves none of its entries, tells each watch task to stop, and touches no
      other entry, task or call; and whatever happens afterwards, each of those tasks sends at most the
      notification it had already picked. */
  lemma {:induction false} ConnectionClosedStopsAll(before: seq<Step>, s: State, connection: string, after: seq<Step>, w: State)
    requires Reaches(Start, before, s) && Reaches(Next(s, ConnectionClosed(connection)), after, w)
    ensures var u := Next(s, ConnectionClosed(connection));
            && (forall key :: key in u.entries <==> key in s.entries && key.connection != connection)
            && (forall key :: key in u.entries ==> u.entries[key] == s.entries[key])
            && (forall t :: t in s.tasks && (forall key :: key in s.entries && key.connection == connection ==> s.entries[key] != t)
                  ==> t in u.tasks && u.tasks[t] == s.tasks[t])
            && u.calls == s.calls && u.notifications == s.notifications
    ensures forall key :: key in s.entries && key.connection == connection ==>
              var t := s.entries[key];
              && Stopping(Next(s, ConnectionClosed(connection)), t) && Stopping(w, t)
              && Count(w.notifications, t) <= Count(s.notifications, t) + Left(s, t)
  {
    assert Inv(Start);
    RunKeeps(Start, before, s);
    hide Reaches, Count, CallOk, Quiet;
    var u := Next(s, ConnectionClosed(connection));
    forall key | key in s.entries && key.connection == connection
      ensures Stopping(u, s.entries[key]) && Stopping(w, s.entries[key])
      ensures Count(w.notifications, s.entries[key]) <= Count(s.notifications, s.entries[key]) + Left(s, s.entries[key])
    {
      assert EntryOk(s, key);
      AtMostOneAfterSignal(u, after, w, s.entries[key]);
    }
  }

  /** How many steps of its own a watch task told to stop is away from being gone. */
  function Rank(s: State, t: TaskId): nat
    requires t in s.tasks
  {
    match s.tasks[t].place
    case Exited => 0
    case Selecting => 1
    case Sending => 2
    case NotStarted => 2
    case Picked => 3
  }

  predicate StepOf(step: Step, t: TaskId) {
    && (|| step.TaskStart? || step.TaskPick? || step.TaskSkip? || step.TaskSend? || step.TaskSent?
        || step.TaskTerminate? || step.TaskSourceEnded?)
    && step.task == t
  }

  /** No step takes a watch task told to stop further from its end, and each of its own brings it
      nearer; so it takes at most three. */
  lemma StoppingAdvances(s: State, step: Step, t: TaskId)
    requires Stopping(s, t) && Enabled(s, step)
    ensures var u := Next(s, step);
            Stopping(u, t) && Rank(u, t) <= Rank(s, t) && (StepOf(step, t) ==> Rank(u, t) < Rank(s, t))
  {
  }

  /** An unwatch is never stuck: it can return, or its watch task has a step to take, which brings it
      nearer to its end. */
  lemma {:induction false} HandshakeCanFinish(before: seq<Step>, s: State, call: Call)
    requires Reaches(Start, before, s) && call in s.calls && s.calls[call].Waiting?
    ensures var t := s.calls[call].task;
            || Enabled(s, UnwatchReturn(call))
            || (t in s.tasks && exists step :: StepOf(step, t) && Enabled(s, step) && Rank(Next(s, step), t) < Rank(s, t))
  {
    assert Inv(Start);
    RunKeeps(Start, before, s);
    hide Reaches, Next;
    assert CallOk(s, call);
    var t := s.calls[call].task;
    assert Quiet(s, t);
    if !Enabled(s, UnwatchReturn(call)) {
      var step := OwnStep(s, t);
      StoppingAdvances(s, step, t);
    }
  }

  function OwnStep(s: State, t: TaskId): (step: Step)
    requires Stopping(s, t) && !At(s, t, Exited)
    ensures StepOf(step, t) && Enabled(s, step)
  {
    match s.tasks[t].place
    case NotStarted => TaskStart(t)
    case Selecting => TaskTerminate(t)
    case Picked => TaskSend(t)
    case Sending => TaskSent(t)
  }
}
