/** Clear timers for A2UI actions: a finished action stays visible for ten seconds and is then removed.
    Timers are handles into the runtime's timer queue; what matters of them is which action each one
    clears and when.
 */
module A2UITimers {
  import opened JsonText
  import opened Wrappers

  type Key = Text

  datatype Status = Queued | Running | Completed | Failed | Cancelled

  datatype Task = Task(id: string, title: string, loopId: Option<string>, status: Status, error: Option<string>)

  datatype ActionState = ActionState(
    surfaceId: Text, sourceId: Text, taskId: string, title: string, loopId: Option<string>, status: Status,
    error: Option<string>, updatedAt: int)

  const FINAL_CLEAR_MS := 10000

  predicate AutoClears(s: Status)
  {
    s == Completed || s == Cancelled
  }

  /** JSON.stringify([surfaceId, sourceId]) */
  function ActionKey(surfaceId: Text, sourceId: Text): Key
  {
    Print(Arr([Str(surfaceId), Str(sourceId)]))
  }

  lemma ActionKeyText(surfaceId: Text, sourceId: Text)
    ensures ActionKey(surfaceId, sourceId) == [0x5B] + Quote(surfaceId) + [0x2C] + Quote(sourceId) + [0x5D]
  {
    var items := [Str(surfaceId), Str(sourceId)];
    assert items[1..] == [Str(sourceId)];
    assert PrintItems(items[1..]) == Quote(sourceId);
    assert PrintItems(items) == Quote(surfaceId) + [COMMA] + Quote(sourceId);
  }

  /** Different surface and source pairs never share a key. */
  lemma ActionKeysAreDistinct(a: Text, b: Text, c: Text, d: Text)
    ensures ActionKey(a, b) == ActionKey(c, d) <==> a == c && b == d
  {
    if ActionKey(a, b) == ActionKey(c, d) {
      var x, y := Arr([Str(a), Str(b)]), Arr([Str(c), Str(d)]);
      PrintIsInjective(x, y);
      assert x.items[0] == y.items[0] && x.items[1] == y.items[1];
    }
  }

  /** Time stamps come from the wall clock, which may jump; timers run on the monotonic clock. */
  datatype Clock = Clock(wall: int, mono: int)

  /** A pending timer: the action state it was set for, and when it may fire. */
  datatype Pending = Pending(taskId: string, status: Status, due: int)

  /** Action states and, for each key with a live timer, what that timer will do. */
  datatype Board = Board(states: map<Key, ActionState>, live: map<Key, Pending>)

  // ---------------------------------------------------------------------------------------------
  // Events
  // ---------------------------------------------------------------------------------------------

  function Without<V>(m: map<Key, V>, key: Key): map<Key, V>
  {
    m - {key}
  }

  function Synced(live: map<Key, Pending>, key: Key, taskId: string, status: Status, mono: int): map<Key, Pending>
  {
    if AutoClears(status) then live[key := Pending(taskId, status, mono + FINAL_CLEAR_MS)] else Without(live, key)
  }

  function QueuedState(surfaceId: Text, sourceId: Text, task: Task, wall: int): ActionState
  {
    ActionState(surfaceId, sourceId, task.id, task.title, task.loopId, task.status, task.error, wall)
  }

  function ActionQueued(b: Board, surfaceId: Text, sourceId: Text, task: Task, c: Clock): Board
  {
    if sourceId == [] then b
    else
      var key := ActionKey(surfaceId, sourceId);
      Board(b.states[key := QueuedState(surfaceId, sourceId, task, c.wall)], Synced(b.live, key, task.id, task.status, c.mono))
  }

  function Updated(s: ActionState, task: Task, wall: int): ActionState
  {
    s.(title := task.title, loopId := task.loopId, status := task.status, error := task.error, updatedAt := wall)
  }

  function MatchingKeys(b: Board, taskId: string): set<Key>
  {
    set k | k in b.states && b.states[k].taskId == taskId
  }

  /** Every action of the task takes the task's status and has its timer set anew or removed. */
  function TaskUpdated(b: Board, task: Task, c: Clock): Board
  {
    var matching := MatchingKeys(b, task.id);
    Board(UpdateStates(b.states, matching, task, c.wall), SyncKeys(b.live, matching, task.id, task.status, c.mono))
  }

  function UpdateStates(states: map<Key, ActionState>, keys: set<Key>, task: Task, wall: int): map<Key, ActionState>
  {
    map k | k in states :: if k in keys then Updated(states[k], task, wall) else states[k]
  }

  function SyncKeys(live: map<Key, Pending>, keys: set<Key>, taskId: string, status: Status, mono: int): map<Key, Pending>
  {
    if AutoClears(status) then live + (map k | k in keys :: Pending(taskId, status, mono + FINAL_CLEAR_MS)) else live - keys
  }

  function SurfaceKeys(b: Board, surfaceId: Text): set<Key>
  {
    set k | k in b.states && b.states[k].surfaceId == surfaceId
  }

  function SurfaceDeleted(b: Board, surfaceId: Text): Board
  {
    var gone := SurfaceKeys(b, surfaceId);
    Board(b.states - gone, b.live - gone)
  }

  /** The callback removes the entry only if it still has the timer's task and status. */
  function Fired(b: Board, key: Key): Board
    requires key in b.live
  {
    var p := b.live[key];
    var stale := key !in b.states || b.states[key].taskId != p.taskId || b.states[key].status != p.status;
    Board(if stale then b.states else Without(b.states, key), Without(b.live, key))
  }

  datatype Event =
    | Queueing(surfaceId: Text, sourceId: Text, task: Task)
    | Updating(task: Task)
    | Deleting(surfaceId: Text)
    | DeletingAll
    | Firing(key: Key)

  function Step(b: Board, e: Event, c: Clock): Board
  {
    match e
    case Queueing(surfaceId, sourceId, task) => ActionQueued(b, surfaceId, sourceId, task, c)
    case Updating(task) => TaskUpdated(b, task, c)
    case Deleting(surfaceId) => SurfaceDeleted(b, surfaceId)
    case DeletingAll => Board(map[], map[])
    case Firing(key) => if key in b.live && b.live[key].due <= c.mono then Fired(b, key) else b
  }

  lemma SyncOneMore(live: map<Key, Pending>, done: set<Key>, key: Key, taskId: string, status: Status, mono: int)
    ensures Synced(SyncKeys(live, done, taskId, status, mono), key, taskId, status, mono) ==
            SyncKeys(live, done + {key}, taskId, status, mono)
  {
  }

  // ---------------------------------------------------------------------------------------------
  // The store as the program runs it
  // ---------------------------------------------------------------------------------------------

  class RuntimeStore {
    var actionStates: map<Key, ActionState>
    var clearTimers: map<Key, nat>
    var queue: map<nat, (Key, Pending)>
    var nextHandle: nat

    /** Every key's timer is in the queue, and nothing else is. */
    ghost predicate Valid()
      reads this
    {
      && (forall k :: k in clearTimers ==> clearTimers[k] in queue && queue[clearTimers[k]].0 == k)
      && (forall h :: h in queue ==> queue[h].0 in clearTimers && clearTimers[queue[h].0] == h && h < nextHandle)
    }

    ghost function Live(): map<Key, Pending>
      requires Valid()
      reads this
    {
      map k | k in clearTimers :: queue[clearTimers[k]].1
    }

    ghost function View(): Board
      requires Valid()
      reads this
    {
      Board(actionStates, Live())
    }

    constructor ()
      ensures Valid() && View() == Board(map[], map[])
    {
      actionStates, clearTimers, queue, nextHandle := map[], map[], map[], 1;
    }

    method ClearActionTimer(key: Key)
      requires Valid()
      modifies this`clearTimers, this`queue
      ensures Valid() && Live() == Without(old(Live()), key)
    {
      if key in clearTimers {
        queue := queue - {clearTimers[key]};
      }
      clearTimers := clearTimers - {key};
    }

    method SetTimer(key: Key, p: Pending)
      requires Valid() && key !in clearTimers
      modifies this`clearTimers, this`queue, this`nextHandle
      ensures Valid() && Live() == old(Live())[key := p]
    {
      var timer := nextHandle;
      queue := queue[timer := (key, p)];
      nextHandle := nextHandle + 1;
      clearTimers := clearTimers[key := timer];
      assert forall k :: k in old(clearTimers) ==> k != key && clearTimers[k] == old(clearTimers[k]) && clearTimers[k] != timer;
    }

    method SyncActionAutoClear(key: Key, taskId: string, status: Status, mono: int)
      requires Valid()
      modifies this`clearTimers, this`queue, this`nextHandle
      ensures Valid() && Live() == Synced(old(Live()), key, taskId, status, mono)
    {
      ClearActionTimer(key);
      assert key !in Live();
      if !AutoClears(status) {
        return;
      }
      SetTimer(key, Pending(taskId, status, mono + FINAL_CLEAR_MS));
    }

    method HandleActionQueued(surfaceId: Text, sourceId: Text, task: Task, c: Clock)
      requires Valid()
      modifies this
      ensures Valid() && View() == ActionQueued(old(View()), surfaceId, sourceId, task, c)
    {
      if sourceId == [] {
        return;
      }
      var key := ActionKey(surfaceId, sourceId);
      actionStates := actionStates[key := QueuedState(surfaceId, sourceId, task, c.wall)];
      SyncActionAutoClear(key, task.id, task.status, c.mono);
    }

    method HandleDaemonTaskUpdate(task: Task, c: Clock)
      requires Valid()
      modifies this
      ensures Valid() && View() == TaskUpdated(old(View()), task, c)
    {
      var matching := set k | k in actionStates && actionStates[k].taskId == task.id;
      assert matching == MatchingKeys(View(), task.id);
      if matching == {} {
        assert UpdateStates(actionStates, matching, task, c.wall) == actionStates;
        assert SyncKeys(Live(), matching, task.id, task.status, c.mono) == Live();
        return;
      }
      UpdateActionStates(matching, task, c.wall);
      SyncActions(matching, task.id, task.status, c.mono);
    }

    method UpdateActionStates(matching: set<Key>, task: Task, wall: int)
      requires Valid()
      requires matching <= actionStates.Keys && forall k :: k in matching ==> actionStates[k].taskId == task.id
      modifies this`actionStates
      ensures actionStates == UpdateStates(old(actionStates), matching, task, wall)
    {
      var next, rest := actionStates, matching;
      while rest != {}
        invariant rest <= matching && next == UpdateStates(actionStates, matching - rest, task, wall)
        decreases rest
      {
        var key :| key in rest;
        if key in next && next[key].taskId == task.id {
          next := next[key := Updated(next[key], task, wall)];
        }
        rest := rest - {key};
      }
      assert matching - rest == matching;
      actionStates := next;
    }

    method SyncActions(matching: set<Key>, taskId: string, status: Status, mono: int)
      requires Valid() && matching <= actionStates.Keys
      requires forall k :: k in matching ==> actionStates[k].taskId == taskId && actionStates[k].status == status
      modifies this`clearTimers, this`queue, this`nextHandle
      ensures Valid() && Live() == SyncKeys(old(Live()), matching, taskId, status, mono)
    {
      var rest := matching;
      assert SyncKeys(Live(), {}, taskId, status, mono) == Live() && matching - rest == {};
      while rest != {}
        invariant rest <= matching && Valid()
        invariant Live() == SyncKeys(old(Live()), matching - rest, taskId, status, mono)
        decreases rest
      {
        var key :| key in rest;
        SyncOneMore(old(Live()), matching - rest, key, taskId, status, mono);
        if actionStates[key].taskId == taskId {
          SyncActionAutoClear(key, taskId, actionStates[key].status, mono);
        }
        assert matching - (rest - {key}) == (matching - rest) + {key};
        rest := rest - {key};
      }
      assert matching - rest == matching;
    }

    method ClearActionTimersForSurface(surfaceId: Text)
      requires Valid()
      modifies this`clearTimers, this`queue
      ensures Valid() && Live() == old(Live()) - SurfaceKeys(old(View()), surfaceId)
    {
      ghost var before := View();
      var gone := set k | k in actionStates && actionStates[k].surfaceId == surfaceId;
      var rest := gone;
      while rest != {}
        invariant rest <= gone && Valid() && Live() == before.live - (gone - rest)
        decreases rest
      {
        var key :| key in rest;
        ClearActionTimer(key);
        rest := rest - {key};
        assert before.live - (gone - rest) == Live();
      }
      assert gone - rest == gone && gone == SurfaceKeys(before, surfaceId);
    }

    method HandleDelete(surfaceId: Text)
      requires Valid()
      modifies this
      ensures Valid() && View() == SurfaceDeleted(old(View()), surfaceId)
    {
      var kept := map k | k in actionStates && actionStates[k].surfaceId != surfaceId :: actionStates[k];
      ClearActionTimersForSurface(surfaceId);
      assert kept == actionStates - SurfaceKeys(old(View()), surfaceId);
      actionStates := kept;
    }

    /** Both handleDeleteAll and resetAll. */
    method HandleDeleteAll()
      requires Valid()
      modifies this
      ensures Valid() && View() == Board(map[], map[])
    {
      var handles := clearTimers.Values;
      while handles != {}
        invariant forall h :: h in queue ==> h in handles
        decreases handles
      {
        var h :| h in handles;
        queue := queue - {h};
        handles := handles - {h};
      }
      clearTimers, actionStates := map[], map[];
      assert queue == map[];
    }

    /** The runtime runs a due callback once. */
    method Fire(handle: nat)
      requires Valid() && handle in queue
      modifies this
      ensures Valid() && View() == Fired(old(View()), old(queue[handle].0))
    {
      var (key, p) := queue[handle];
      queue := queue - {handle};
      if key in actionStates && actionStates[key].taskId == p.taskId && actionStates[key].status == p.status {
        actionStates := actionStates - {key};
      }
      clearTimers := clearTimers - {key};
    }
  }

  // ---------------------------------------------------------------------------------------------
  // Timers agree with actions
  // ---------------------------------------------------------------------------------------------

  /** The keys with a live timer are exactly those whose action is completed or cancelled, each timer
      carries that action's task and status, and every action sits under its own key. */
  ghost predicate Agrees(b: Board)
  {
    forall k :: AgreesAt(b, k)
  }

  predicate AgreesAt(b: Board, k: Key)
  {
    && (k in b.live <==> k in b.states && AutoClears(b.states[k].status))
    && (k in b.live ==> b.live[k].taskId == b.states[k].taskId && b.live[k].status == b.states[k].status)
    && (k in b.states ==> k == ActionKey(b.states[k].surfaceId, b.states[k].sourceId))
  }

  lemma StepKeepsAgreement(b: Board, e: Event, c: Clock)
    requires Agrees(b)
    ensures Agrees(Step(b, e, c))
  {
    forall k ensures AgreesAt(Step(b, e, c), k) {
      assert AgreesAt(b, k);
      if e.Firing? {
        assert AgreesAt(b, e.key);
      }
    }
  }

  type Schedule = seq<(Event, Clock)>

  function Run(b: Board, events: Schedule): Board
  {
    if events == [] then b
    else
      var n := |events| - 1;
      Step(Run(b, events[..n]), events[n].0, events[n].1)
  }

  /** After every run of handlers and firings, under any clocks, timers and actions agree. */
  lemma {:induction false} RunKeepsAgreement(b: Board, events: Schedule)
    requires Agrees(b)
    ensures Agrees(Run(b, events))
    decreases |events|
  {
    if events != [] {
      var n := |events| - 1;
      RunKeepsAgreement(b, events[..n]);
      StepKeepsAgreement(Run(b, events[..n]), events[n].0, events[n].1);
    }
  }

  /** A firing timer removes exactly its own action, and only a finished one. */
  lemma FiringRemovesExactlyItsAction(b: Board, key: Key)
    requires Agrees(b) && key in b.live
    ensures key in b.states && AutoClears(b.states[key].status)
    ensures Fired(b, key) == Board(b.states - {key}, b.live - {key})
  {
    assert AgreesAt(b, key);
  }

  /** Deleting a surface leaves no action and no timer of it, and every other action as it was. */
  lemma DeletedSurfaceLeavesNothing(b: Board, surfaceId: Text, k: Key)
    requires Agrees(b)
    ensures var b' := SurfaceDeleted(b, surfaceId);
            && (k in b'.live ==> k in b'.states)
            && (k in b'.states <==> k in b.states && b.states[k].surfaceId != surfaceId)
            && (k in b'.states ==> b'.states[k] == b.states[k] && (k in b'.live <==> k in b.live)
                                   && (k in b.live ==> b'.live[k] == b.live[k]))
  {
    assert AgreesAt(b, k);
  }

  // ---------------------------------------------------------------------------------------------
  // How long a finished action stays
  // ---------------------------------------------------------------------------------------------

  /** The event queues the action of the key or updates its task. */
  predicate Changes(b: Board, e: Event, key: Key)
  {
    || (e.Queueing? && e.sourceId != [] && key == ActionKey(e.surfaceId, e.sourceId))
    || (e.Updating? && key in b.states && b.states[key].taskId == e.task.id)
  }

  /** The event is about another action: it neither replaces nor updates nor deletes this one. */
  predicate LeavesAlone(e: Event, s: ActionState)
  {
    match e
    case Queueing(surfaceId, sourceId, _) => surfaceId != s.surfaceId || sourceId != s.sourceId
    case Updating(task) => task.id != s.taskId
    case Deleting(surfaceId) => surfaceId != s.surfaceId
    case DeletingAll => false
    case Firing(_) => true
  }

  /** A change takes the wall clock's time stamp, and a finished action a timer on the monotonic clock. */
  lemma ChangeSetsTimer(b: Board, e: Event, c: Clock, key: Key)
    requires Agrees(b) && Changes(b, e, key)
    ensures var b' := Step(b, e, c);
            && key in b'.states && b'.states[key].updatedAt == c.wall
            && (key in b'.live <==> AutoClears(b'.states[key].status))
            && (key in b'.live ==> b'.live[key].due == c.mono + FINAL_CLEAR_MS)
  {
    assert AgreesAt(b, key);
  }

  /** The timer of the key runs out: its callback runs when it is due. */
  predicate RunsOut(event: (Event, Clock), key: Key, due: int)
  {
    event.0 == Firing(key) && due <= event.1.mono
  }

  predicate RanOut(events: Schedule, key: Key, due: int)
  {
    exists i :: 0 <= i < |events| && RunsOut(events[i], key, due)
  }

  /** The action of the key as it was, timer included. */
  predicate Same(b: Board, b': Board, key: Key)
    requires key in b.states
  {
    && key in b'.states && b'.states[key] == b.states[key]
    && (key in b'.live <==> key in b.live) && (key in b.live ==> b'.live[key] == b.live[key])
  }

  lemma OtherEventLeaves(b: Board, e: Event, c: Clock, key: Key, s: ActionState)
    requires Agrees(b) && LeavesAlone(e, s) && key == ActionKey(s.surfaceId, s.sourceId)
    requires key in b.states ==> b.states[key] == s
    requires key in b.live ==> !RunsOut((e, c), key, b.live[key].due)
    ensures var b' := Step(b, e, c);
            if key in b.states then Same(b, b', key) else key !in b'.states
  {
    assert AgreesAt(b, key);
    if e.Queueing? {
      ActionKeysAreDistinct(e.surfaceId, e.sourceId, s.surfaceId, s.sourceId);
    } else if e.Firing? {
      assert AgreesAt(b, e.key);
    }
  }

  /** From its last change at `c` on, an action that nothing else touches stays on the board, unchanged and
      with its timer, exactly until its own timer runs out ten seconds later on the monotonic clock; if it is
      not finished it has no timer and stays. Jumps of the wall clock play no part. */
  lemma {:induction false} StaysExactlyUntilItsTimerRunsOut(b: Board, e: Event, c: Clock, events: Schedule, key: Key)
    requires Agrees(b) && Changes(b, e, key)
    requires var s := Step(b, e, c).states;
             key in s && forall i :: 0 <= i < |events| ==> LeavesAlone(events[i].0, s[key])
    ensures var b', later := Step(b, e, c), Run(Step(b, e, c), events);
            if AutoClears(b'.states[key].status) && RanOut(events, key, c.mono + FINAL_CLEAR_MS)
            then key !in later.states && key !in later.live
            else Same(b', later, key)
    decreases |events|
  {
    var b', due := Step(b, e, c), c.mono + FINAL_CLEAR_MS;
    StepKeepsAgreement(b, e, c);
    ChangeSetsTimer(b, e, c, key);
    assert AgreesAt(b', key);
    if events != [] {
      var n := |events| - 1;
      var before, last := Run(b', events[..n]), events[n];
      StaysExactlyUntilItsTimerRunsOut(b, e, c, events[..n], key);
      RunKeepsAgreement(b', events[..n]);
      StepKeepsAgreement(before, last.0, last.1);
      assert AgreesAt(Step(before, last.0, last.1), key);
      assert RanOut(events, key, due) <==> RanOut(events[..n], key, due) || RunsOut(last, key, due);
      if key in before.live && RunsOut(last, key, due) {
        FiringRemovesExactlyItsAction(before, key);
      } else {
        OtherEventLeaves(before, last.0, last.1, key, b'.states[key]);
      }
    }
  }

  // ---------------------------------------------------------------------------------------------
  // What each event does, key by key
  // ---------------------------------------------------------------------------------------------

  /** The board after an action took the task at `c`: a completed or cancelled one is cleared 10000 ms later,
      any other has no timer. */
  predicate TookTask(b: Board, key: Key, task: Task, c: Clock)
  {
    && key in b.states && b.states[key].taskId == task.id && b.states[key].title == task.title
    && b.states[key].loopId == task.loopId && b.states[key].status == task.status
    && b.states[key].error == task.error && b.states[key].updatedAt == c.wall
    && (task.status == Completed || task.status == Cancelled ==>
          key in b.live && b.live[key] == Pending(task.id, task.status, c.mono + 10000))
    && (task.status == Queued || task.status == Running || task.status == Failed ==> key !in b.live)
  }

  predicate Untouched(b: Board, b': Board, key: Key)
  {
    && (key in b'.states <==> key in b.states) && (key in b.states ==> b'.states[key] == b.states[key])
    && (key in b'.live <==> key in b.live) && (key in b.live ==> b'.live[key] == b.live[key])
  }

  /** Queueing stores the action under the JSON text of its surface and source, and nothing without a source. */
  lemma QueueingIsExact(b: Board, surfaceId: Text, sourceId: Text, task: Task, c: Clock)
    ensures var b' := Step(b, Queueing(surfaceId, sourceId, task), c);
            if |sourceId| == 0 then b' == b
            else
              var key := [0x5B] + Quote(surfaceId) + [0x2C] + Quote(sourceId) + [0x5D];
              && TookTask(b', key, task, c)
              && b'.states[key].surfaceId == surfaceId && b'.states[key].sourceId == sourceId
              && forall k :: k != key ==> Untouched(b, b', k)
  {
    ActionKeyText(surfaceId, sourceId);
  }

  /** An update of a task reaches every action of the task and no other, and none moves. */
  lemma UpdatingIsExact(b: Board, task: Task, c: Clock, k: Key)
    ensures var b' := Step(b, Updating(task), c);
            if k in b.states && b.states[k].taskId == task.id then
              && TookTask(b', k, task, c)
              && b'.states[k].surfaceId == b.states[k].surfaceId && b'.states[k].sourceId == b.states[k].sourceId
            else Untouched(b, b', k)
  {
  }

  /** Deleting takes the actions of the surface, or all of them, with their timers. */
  lemma DeletingIsExact(b: Board, surfaceId: Text, c: Clock, k: Key)
    ensures var b' := Step(b, Deleting(surfaceId), c);
            if k in b.states && b.states[k].surfaceId == surfaceId then k !in b'.states && k !in b'.live
            else Untouched(b, b', k)
    ensures k !in Step(b, DeletingAll, c).states && k !in Step(b, DeletingAll, c).live
  {
  }

  /** A callback that is due uses up its timer, and removes its action if task and status are still those it
      was set for; an early one does nothing. */
  lemma FiringIsExact(b: Board, key: Key, c: Clock, k: Key)
    ensures var b' := Step(b, Firing(key), c);
            if k == key && key in b.live && b.live[key].due <= c.mono then
              && k !in b'.live
              && (k in b'.states <==>
                    k in b.states && (b.states[k].taskId != b.live[k].taskId || b.states[k].status != b.live[k].status))
              && (k in b'.states ==> b'.states[k] == b.states[k])
            else Untouched(b, b', k)
  {
  }
}
