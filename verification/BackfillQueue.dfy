/**
  The lazy backfill protocol as interleaved atomic steps: publishers reserve a key under its lock, try a non-blocking
  send into the shared bounded queue and roll back when it is full; one worker drains the queue.
 */
module BackfillQueue {
  import opened Options

  const QUEUE_SIZE: nat := 64

  /** What is being deduplicated: a room's summary or a member's profile. */
  datatype Key = RoomKey(id: string) | UserKey(id: string)

  /** The room of a member task is only a hint. */
  datatype Task = Task(key: Key, hint: string)

  /** A publisher between reserving and being done; refused means it found the queue full. */
  datatype Hold = Hold(task: Task, refused: bool)

  /**
    How far the worker is with its task. A room task defers its release before it does anything else; a member task
    first looks up whether the user is already known by name, and returns from there if so.
   */
  datatype Phase =
    | Entered
    | Running
    | Ended(how: Ending)

  datatype Ending = AlreadyKnown | Returned | Panicked

  /** A task in the worker's hands; deferred says whether its release is on the stack of deferred calls. */
  datatype Work = Work(task: Task, phase: Phase, deferred: bool)

  /**
    The two pending sets appear as one set of tagged keys; leaked is a history of keys no task stands for, and known
    are the users the member cache has a name or an avatar for.
   */
  datatype State = State(
    pending: set<Key>, queue: seq<Task>, holding: map<nat, Hold>, worker: Option<Work>, leaked: set<Key>,
    known: set<Key>)

  const START: State := State({}, [], map[], None, {}, {})

  datatype Step =
    | Reserve(p: nat, task: Task)
    | Send(p: nat)
    | FindFull(p: nat)
    | RollBack(p: nat)
    /** The sync stream brings a user's name, or a prune forgets the user. */
    | Learn(user: Key)
    | Forget(user: Key)
    | Dequeue
    /** Past the check for known users, if there is one, the release is deferred. */
    | DeferRelease
    /** The early return of a member task whose user is already known by name. */
    | SkipKnown
    | Return
    /** The body panics; neither deferring nor looking up a user can. */
    | Panic
    /** The deferred calls run, the recovery among them, and the worker turns to the next task. */
    | Unwind

  predicate Enabled(s: State, a: Step)
  {
    match a
    case Reserve(p, task) => p !in s.holding && task.key.id != ""
    case Send(p) => p in s.holding && !s.holding[p].refused && |s.queue| < QUEUE_SIZE
    case FindFull(p) => p in s.holding && !s.holding[p].refused && |s.queue| >= QUEUE_SIZE
    case RollBack(p) => p in s.holding && s.holding[p].refused
    case Dequeue => s.worker.None? && s.queue != []
    case Learn(user) => user.UserKey?
    case Forget(user) => user.UserKey?
    case DeferRelease => s.worker.Some? && s.worker.value.phase == Entered && !IsKnown(s)
    case SkipKnown => s.worker.Some? && s.worker.value.phase == Entered && IsKnown(s)
    case Return => s.worker.Some? && s.worker.value.phase == Running
    case Panic => s.worker.Some? && s.worker.value.phase == Running
    case Unwind => s.worker.Some? && s.worker.value.phase.Ended?
  }

  /** The task in hand is a member's and the user is known by name. */
  predicate IsKnown(s: State)
    requires s.worker.Some?
  {
    s.worker.value.task.key.UserKey? && s.worker.value.task.key in s.known
  }

  function EndTask(s: State, how: Ending): State
    requires s.worker.Some?
  {
    s.(worker := Some(s.worker.value.(phase := Ended(how))))
  }

  function Next(s: State, a: Step): State
    requires Enabled(s, a)
  {
    match a
    case Reserve(p, task) =>
      if task.key in s.pending then s
      else s.(pending := s.pending + {task.key}, holding := s.holding[p := Hold(task, false)])
    case Send(p) => s.(queue := s.queue + [s.holding[p].task], holding := s.holding - {p})
    case FindFull(p) => s.(holding := s.holding[p := Hold(s.holding[p].task, true)])
    case RollBack(p) => s.(pending := s.pending - {s.holding[p].task.key}, holding := s.holding - {p})
    case Learn(user) => s.(known := s.known + {user})
    case Forget(user) => s.(known := s.known - {user})
    case Dequeue => s.(queue := s.queue[1..], worker := Some(Work(s.queue[0], Entered, false)))
    case DeferRelease => s.(worker := Some(s.worker.value.(phase := Running, deferred := true)))
    case SkipKnown => EndTask(s, AlreadyKnown)
    case Return => EndTask(s, Returned)
    case Panic => EndTask(s, Panicked)
    case Unwind =>
      var k := s.worker.value.task.key;
      if s.worker.value.deferred then s.(pending := s.pending - {k}, worker := None)
      else s.(worker := None, leaked := s.leaked + {k})
  }

  // ---- where a key can be ----

  datatype Place = AtPublisher(p: nat) | InQueue(i: nat) | AtWorker

  predicate At(s: State, place: Place, k: Key)
  {
    match place
    case AtPublisher(p) => p in s.holding && s.holding[p].task.key == k
    case InQueue(i) => i < |s.queue| && s.queue[i].key == k
    case AtWorker => s.worker.Some? && s.worker.value.task.key == k
  }

  ghost predicate Somewhere(s: State, k: Key) { exists place :: At(s, place, k) }

  /** No key is in two places, and the pending keys are those in some place plus the leaked ones. */
  ghost predicate Inv(s: State)
  {
    && |s.queue| <= QUEUE_SIZE
    && (forall k, a, b :: At(s, a, k) && At(s, b, k) ==> a == b)
    && (forall k :: k in s.pending <==> Somewhere(s, k) || k in s.leaked)
    && (forall k :: k in s.leaked ==> !Somewhere(s, k) && k.UserKey?)
    && (s.worker.Some? ==> DeferredInTime(s.worker.value))
  }

  /** The release is deferred exactly when the body has started; what ends before that is a member task. */
  predicate DeferredInTime(w: Work)
  {
    match w.phase
    case Entered => !w.deferred
    case Running => w.deferred
    case Ended(AlreadyKnown) => !w.deferred && w.task.key.UserKey?
    case Ended(_) => w.deferred
  }

  // ---- every interleaving ----

  /** Each place a step leaves occupied was occupied by the same key before, or just became so. */
  lemma ReserveKeepsInv(s: State, p: nat, task: Task)
    requires Inv(s) && Enabled(s, Reserve(p, task))
    ensures Inv(Next(s, Reserve(p, task)))
  {
    if task.key !in s.pending {
      var s' := Next(s, Reserve(p, task));
      assert forall place, k :: At(s', place, k) <==> At(s, place, k) || (place == AtPublisher(p) && k == task.key);
      assert !Somewhere(s, task.key);
      KeysWhere(s, s', task.key, AtPublisher(p));
    }
  }

  /** If exactly one key gains a place, the occupied keys grow by that key. */
  lemma KeysWhere(s: State, s': State, k: Key, place: Place)
    requires forall place', k' :: At(s', place', k') <==> At(s, place', k') || (place' == place && k' == k)
    ensures forall k' :: Somewhere(s', k') <==> Somewhere(s, k') || k' == k
  {
    assert At(s', place, k);
    forall k'
      ensures Somewhere(s', k') <==> Somewhere(s, k') || k' == k
    {
      if Somewhere(s, k') {
        var place' :| At(s, place', k');
        assert At(s', place', k');
      }
      if Somewhere(s', k') {
        var place' :| At(s', place', k');
        assert At(s, place', k') || k' == k;
      }
    }
  }

  /** A step that moves keys from place to place, dropping none. */
  lemma KeysMoved(s: State, s': State, move: Place -> Place)
    requires forall place, k :: At(s, place, k) ==> At(s', move(place), k)
    requires forall place, k :: At(s', place, k) ==> Somewhere(s, k)
    ensures forall k :: Somewhere(s', k) <==> Somewhere(s, k)
  {
    forall k
      ensures Somewhere(s', k) <==> Somewhere(s, k)
    {
      if Somewhere(s, k) {
        var place :| At(s, place, k);
        assert At(s', move(place), k);
      }
    }
  }

  lemma SendKeepsInv(s: State, p: nat)
    requires Inv(s) && Enabled(s, Send(p))
    ensures Inv(Next(s, Send(p)))
  {
    var s', n := Next(s, Send(p)), |s.queue|;
    var move := (place: Place) => if place == AtPublisher(p) then InQueue(n) else place;
    forall place, k | At(s', place, k)
      ensures At(s, if place == InQueue(n) then AtPublisher(p) else place, k)
    {
    }
    KeysMoved(s, s', move);
  }

  lemma DequeueKeepsInv(s: State)
    requires Inv(s) && Enabled(s, Dequeue)
    ensures Inv(Next(s, Dequeue))
  {
    var s' := Next(s, Dequeue);
    var move := (place: Place) =>
      if place == InQueue(0) then AtWorker else if place.InQueue? && place.i > 0 then InQueue(place.i - 1) else place;
    forall place, k | At(s', place, k)
      ensures At(s, if place == AtWorker then InQueue(0) else if place.InQueue? then InQueue(place.i + 1) else place, k)
    {
    }
    forall place, k | At(s, place, k)
      ensures At(s', move(place), k)
    {
    }
    KeysMoved(s, s', move);
  }

  /** A step that empties one place releases the key that was there and no other. */
  lemma KeyReleased(s: State, s': State, place: Place, k: Key)
    requires Inv(s) && At(s, place, k)
    requires forall place', k' :: At(s', place', k') <==> At(s, place', k') && place' != place
    ensures forall k' :: Somewhere(s', k') <==> Somewhere(s, k') && k' != k
  {
    forall k'
      ensures Somewhere(s', k') <==> Somewhere(s, k') && k' != k
    {
      if Somewhere(s, k') && k' != k {
        var place' :| At(s, place', k');
        assert At(s', place', k');
      }
      if Somewhere(s', k') {
        var place' :| At(s', place', k');
        assert At(s, place', k') && place' != place;
      }
    }
  }

  lemma RollBackKeepsInv(s: State, p: nat)
    requires Inv(s) && Enabled(s, RollBack(p))
    ensures Inv(Next(s, RollBack(p)))
  {
    var k := s.holding[p].task.key;
    assert At(s, AtPublisher(p), k);
    KeyReleased(s, Next(s, RollBack(p)), AtPublisher(p), k);
  }

  /** Unwinding runs the deferred release if there is one; a task without one leaves its key behind. */
  lemma UnwindKeepsInv(s: State)
    requires Inv(s) && Enabled(s, Unwind)
    ensures Inv(Next(s, Unwind))
  {
    var k := s.worker.value.task.key;
    assert At(s, AtWorker, k);
    KeyReleased(s, Next(s, Unwind), AtWorker, k);
  }

  /** Steps within the queue's or the worker's own bookkeeping move no key. */
  lemma NothingMoves(s: State, a: Step)
    requires Inv(s) && Enabled(s, a)
    requires !a.Reserve? && !a.Send? && !a.RollBack? && !a.Dequeue? && !a.Unwind?
    ensures Inv(Next(s, a))
  {
    assert forall place, k :: At(Next(s, a), place, k) <==> At(s, place, k);
    KeysMoved(s, Next(s, a), (place: Place) => place);
  }

  lemma StepKeepsInv(s: State, a: Step)
    requires Inv(s) && Enabled(s, a)
    ensures Inv(Next(s, a))
  {
    match a {
      case Reserve(p, task) => ReserveKeepsInv(s, p, task);
      case Send(p) => SendKeepsInv(s, p);
      case RollBack(p) => RollBackKeepsInv(s, p);
      case Dequeue => DequeueKeepsInv(s);
      case Unwind => UnwindKeepsInv(s);
      case _ => NothingMoves(s, a);
    }
  }

  /** A run: any interleaving of enabled steps. */
  ghost predicate IsRun(s: State, steps: seq<Step>, s': State)
    decreases |steps|
  {
    if steps == [] then s' == s
    else Enabled(s, steps[0]) && IsRun(Next(s, steps[0]), steps[1..], s')
  }

  lemma {:induction false} RunKeepsInv(s: State, steps: seq<Step>, s': State)
    requires Inv(s) && IsRun(s, steps, s')
    ensures Inv(s')
    decreases |steps|
  {
    if steps != [] {
      StepKeepsInv(s, steps[0]);
      RunKeepsInv(Next(s, steps[0]), steps[1..], s');
    }
  }

  // ---- rooms ----

  function ReservedRooms(s: State): set<Key>
  {
    set p | p in s.holding && s.holding[p].task.key.RoomKey? :: s.holding[p].task.key
  }

  function QueuedRooms(s: State): set<Key>
  {
    set t | t in s.queue && t.key.RoomKey? :: t.key
  }

  function RoomsInFlight(s: State): set<Key>
  {
    if s.worker.Some? && s.worker.value.task.key.RoomKey? then {s.worker.value.task.key} else {}
  }

  function PendingRooms(s: State): set<Key> { set k | k in s.pending && k.RoomKey? }

  /**
    In every reachable state the pending rooms are exactly the disjoint union of the rooms reserved but not yet sent,
    the rooms queued and the room in flight; none occurs twice among them and the queue is within bounds.
   */
  lemma PendingRoomsArePartitioned(steps: seq<Step>, s: State)
    requires IsRun(START, steps, s)
    ensures PendingRooms(s) == ReservedRooms(s) + QueuedRooms(s) + RoomsInFlight(s)
    ensures ReservedRooms(s) !! QueuedRooms(s) !! RoomsInFlight(s)
    ensures forall p, q :: p in s.holding && q in s.holding && s.holding[p].task.key == s.holding[q].task.key ==> p == q
    ensures forall i, j :: 0 <= i < j < |s.queue| ==> s.queue[i].key != s.queue[j].key
    ensures |s.queue| <= QUEUE_SIZE
  {
    RunKeepsInv(START, steps, s);
    forall k: Key
      ensures k in PendingRooms(s) <==> k in ReservedRooms(s) + QueuedRooms(s) + RoomsInFlight(s)
      ensures !(k in ReservedRooms(s) && k in QueuedRooms(s))
      ensures !(k in ReservedRooms(s) + QueuedRooms(s) && k in RoomsInFlight(s))
    {
      RoomPlaces(s, k);
    }
    forall i, j | 0 <= i < j < |s.queue|
      ensures s.queue[i].key != s.queue[j].key
    {
      assert At(s, InQueue(i), s.queue[i].key) && At(s, InQueue(j), s.queue[j].key);
    }
    forall p, q | p in s.holding && q in s.holding && s.holding[p].task.key == s.holding[q].task.key
      ensures p == q
    {
      assert At(s, AtPublisher(p), s.holding[p].task.key) && At(s, AtPublisher(q), s.holding[p].task.key);
    }
  }

  /** A pending room is in exactly one of the three sets, and only pending rooms are. */
  lemma RoomPlaces(s: State, k: Key)
    requires Inv(s)
    ensures k in PendingRooms(s) <==> k in ReservedRooms(s) || k in QueuedRooms(s) || k in RoomsInFlight(s)
    ensures !(k in ReservedRooms(s) && k in QueuedRooms(s))
    ensures !((k in ReservedRooms(s) || k in QueuedRooms(s)) && k in RoomsInFlight(s))
  {
    if k in ReservedRooms(s) {
      var p :| p in s.holding && s.holding[p].task.key == k;
      assert At(s, AtPublisher(p), k);
    }
    if k in QueuedRooms(s) {
      var i :| 0 <= i < |s.queue| && s.queue[i].key == k;
      assert At(s, InQueue(i), k);
    }
    if k in RoomsInFlight(s) {
      assert At(s, AtWorker, k);
    }
    if k in PendingRooms(s) {
      var place :| At(s, place, k);
    }
  }

  /** A publisher that finds the queue full gives back its own key, which nobody else holds, and touches no other. */
  lemma FullQueueDropsOwnKeyOnly(steps: seq<Step>, s: State, p: nat)
    requires IsRun(START, steps, s) && Enabled(s, RollBack(p))
    ensures var k := s.holding[p].task.key; var s' := Next(s, RollBack(p));
            && k in s.pending && k !in s'.pending && !Somewhere(s', k)
            && s'.pending == s.pending - {k} && s'.queue == s.queue && s'.worker == s.worker
            && s'.holding == s.holding - {p}
  {
    RunKeepsInv(START, steps, s);
    StepKeepsInv(s, RollBack(p));
    assert At(s, AtPublisher(p), s.holding[p].task.key);
  }

  /** Once publishers, queue and worker are at rest no room is left pending, panics included. */
  lemma NoRoomLeaks(steps: seq<Step>, s: State)
    requires IsRun(START, steps, s)
    requires s.holding == map[] && s.queue == [] && s.worker == None
    ensures PendingRooms(s) == {} && s.pending == s.leaked
  {
    RunKeepsInv(START, steps, s);
    forall k: Key
      ensures !Somewhere(s, k)
    {
    }
  }

  // ---- members ----

  /** At most one task is outstanding per user, and whoever has one is pending. */
  lemma OneTaskPerUser(steps: seq<Step>, s: State, k: Key, a: Place, b: Place)
    requires IsRun(START, steps, s) && At(s, a, k) && At(s, b, k)
    ensures a == b && k in s.pending
  {
    RunKeepsInv(START, steps, s);
  }

  /** A key leaks in exactly one way: a task is unwound that ended in front of its deferred release. */
  lemma LeaksExactlyWhenSkipped(steps: seq<Step>, s: State, a: Step, k: Key)
    requires IsRun(START, steps, s) && Enabled(s, a)
    ensures k in s.pending && Somewhere(s, k) && k in Next(s, a).pending && !Somewhere(Next(s, a), k)
            <==> a.Unwind? && At(s, AtWorker, k) && s.worker.value.phase == Ended(AlreadyKnown)
    ensures a.Unwind? && s.worker.value.phase == Ended(AlreadyKnown) ==> s.worker.value.task.key.UserKey?
  {
    RunKeepsInv(START, steps, s);
    StepKeepsInv(s, a);
    if a.Unwind? && At(s, AtWorker, k) {
      assert Somewhere(s, k);
    }
  }

  /** Past its check a task keeps the release it has or has not deferred. */
  lemma {:induction false} TaskPersists(s: State, steps: seq<Step>, s': State)
    requires IsRun(s, steps, s') && s.worker.Some? && s.worker.value.phase != Entered && Unwind !in steps
    ensures s'.worker.Some? && s'.worker.value.task == s.worker.value.task
    ensures s'.worker.value.deferred == s.worker.value.deferred && s'.worker.value.phase != Entered
    decreases |steps|
  {
    if steps != [] {
      assert steps[0] in steps && forall a <- steps[1..] :: a in steps;
      TaskPersists(Next(s, steps[0]), steps[1..], s');
    }
  }

  /**
    A user whose task the worker takes leaks if and only if the user is known by name at that moment, whatever happens
    until the task is unwound, panics and later changes of what is known included.
   */
  lemma LeaksExactlyWhenKnown(steps: seq<Step>, s: State, check: Step, after: seq<Step>, s': State)
    requires IsRun(START, steps, s) && s.worker.Some? && s.worker.value.phase == Entered
    requires (check.SkipKnown? || check.DeferRelease?) && Enabled(s, check)
    requires IsRun(Next(s, check), after, s') && Unwind !in after && Enabled(s', Unwind)
    ensures var k, end := s.worker.value.task.key, Next(s', Unwind);
            && !Somewhere(end, k)
            && (k in end.pending <==> k.UserKey? && k in s.known)
            && (k in end.leaked <==> k.UserKey? && k in s.known)
  {
    var k := s.worker.value.task.key;
    RunKeepsInv(START, steps, s);
    StepKeepsInv(s, check);
    RunKeepsInv(Next(s, check), after, s');
    StepKeepsInv(s', Unwind);
    TaskPersists(Next(s, check), after, s');
    assert At(s', AtWorker, k);
    KeyReleased(s', Next(s', Unwind), AtWorker, k);
  }

  /** A room task never ends in front of its release, so unwinding gives its key back, panic or not. */
  lemma RoomIsReleased(steps: seq<Step>, s: State)
    requires IsRun(START, steps, s) && Enabled(s, Unwind) && s.worker.value.task.key.RoomKey?
    ensures var k := s.worker.value.task.key; var s' := Next(s, Unwind);
            k in s.pending && s'.pending == s.pending - {k} && !Somewhere(s', k) && s'.leaked == s.leaked
  {
    RunKeepsInv(START, steps, s);
    StepKeepsInv(s, Unwind);
    assert At(s, AtWorker, s.worker.value.task.key);
  }

  /** A leaked user stays pending and is never queued or resolved again, in any continuation of the run. */
  lemma {:induction false} LeakedUserIsNeverResolved(s: State, steps: seq<Step>, s': State, k: Key)
    requires Inv(s) && IsRun(s, steps, s') && k in s.leaked
    ensures k in s'.leaked && k in s'.pending && !Somewhere(s', k)
    decreases |steps|
  {
    if steps == [] {
    } else {
      StepKeepsInv(s, steps[0]);
      LeakedUserIsNeverResolved(Next(s, steps[0]), steps[1..], s', k);
    }
  }

  /** Such a run exists: one member task for a user whose name arrives before the worker gets to it. */
  lemma LeakHappens(id: string, hint: string)
    requires id != ""
    ensures var task := Task(UserKey(id), hint);
            var steps := [Reserve(0, task), Send(0), Learn(task.key), Dequeue, SkipKnown, Unwind];
            IsRun(START, steps, State({task.key}, [], map[], None, {task.key}, {task.key}))
  {
    var task := Task(UserKey(id), hint);
    var s1 := Next(START, Reserve(0, task));
    var s2 := Next(s1, Send(0));
    var s3 := Next(s2, Learn(task.key));
    var s4 := Next(s3, Dequeue);
    var s5 := Next(s4, SkipKnown);
    var s6 := Next(s5, Unwind);
    assert s2 == State({task.key}, [task], map[], None, {}, {});
    assert s4 == State({task.key}, [], map[], Some(Work(task, Entered, false)), {}, {task.key});
    assert s6 == State({task.key}, [], map[], None, {task.key}, {task.key});
    assert IsRun(s6, [], s6);
    RunCons(s5, Unwind, [], s6);
    RunCons(s4, SkipKnown, [Unwind], s6);
    RunCons(s3, Dequeue, [SkipKnown, Unwind], s6);
    RunCons(s2, Learn(task.key), [Dequeue, SkipKnown, Unwind], s6);
    RunCons(s1, Send(0), [Learn(task.key), Dequeue, SkipKnown, Unwind], s6);
    RunCons(START, Reserve(0, task), [Send(0), Learn(task.key), Dequeue, SkipKnown, Unwind], s6);
  }

  lemma RunCons(s: State, a: Step, rest: seq<Step>, s': State)
    requires Enabled(s, a) && IsRun(Next(s, a), rest, s')
    ensures IsRun(s, [a] + rest, s')
  {
    assert ([a] + rest)[1..] == rest;
  }

  // ---- what is reserved, sent and taken ----

  /**
    A reservation is granted exactly when the key has no task anywhere and has not leaked; the publisher then holds
    the very task it asked for, and otherwise nothing changes.
   */
  lemma ReservationIsGranted(steps: seq<Step>, s: State, p: nat, task: Task)
    requires IsRun(START, steps, s) && Enabled(s, Reserve(p, task))
    ensures var s' := Next(s, Reserve(p, task));
            if !Somewhere(s, task.key) && task.key !in s.leaked then
              && s'.holding == s.holding[p := Hold(task, false)] && s'.pending == s.pending + {task.key}
              && s'.queue == s.queue && s'.worker == s.worker
            else s' == s
  {
    RunKeepsInv(START, steps, s);
  }

  /** The task a step sends, if any. */
  function Sends(s: State, a: Step): seq<Task>
    requires Enabled(s, a)
  {
    if a.Send? then [s.holding[a.p].task] else []
  }

  /** The task the worker turns to in a step, if any. */
  function Takes(s: State, a: Step): seq<Task>
    requires Enabled(s, a)
  {
    match Next(s, a).worker
    case Some(w) => if s.worker.None? then [w.task] else []
    case None => []
  }

  /** The tasks sent by the steps of a run, in order. */
  function SentBy(s: State, steps: seq<Step>): seq<Task>
    decreases |steps|
  {
    if steps == [] || !Enabled(s, steps[0]) then []
    else Sends(s, steps[0]) + SentBy(Next(s, steps[0]), steps[1..])
  }

  /** The tasks the worker turns to in a run, in order. */
  function TakenBy(s: State, steps: seq<Step>): seq<Task>
    decreases |steps|
  {
    if steps == [] || !Enabled(s, steps[0]) then []
    else Takes(s, steps[0]) + TakenBy(Next(s, steps[0]), steps[1..])
  }

  lemma StepIsFifo(s: State, a: Step)
    requires Enabled(s, a)
    ensures s.queue + Sends(s, a) == Takes(s, a) + Next(s, a).queue
  {
  }

  lemma FifoChain(q: seq<Task>, a: seq<Task>, b: seq<Task>, t: seq<Task>, sent: seq<Task>, taken: seq<Task>,
                  q': seq<Task>)
    requires q + a == b + t && t + sent == taken + q'
    ensures q + (a + sent) == (b + taken) + q'
  {
    assert q + (a + sent) == (q + a) + sent == b + (t + sent);
    assert b + (taken + q') == (b + taken) + q';
  }

  /** First in, first out, and nothing is lost: what was queued and sent is what was taken and is queued. */
  lemma {:induction false} QueueIsFifo(s: State, steps: seq<Step>, s': State)
    requires IsRun(s, steps, s')
    ensures s.queue + SentBy(s, steps) == TakenBy(s, steps) + s'.queue
    decreases |steps|
  {
    if steps != [] {
      var a, t := steps[0], Next(s, steps[0]);
      QueueIsFifo(t, steps[1..], s');
      StepIsFifo(s, a);
      FifoChain(s.queue, Sends(s, a), Takes(s, a), t.queue, SentBy(t, steps[1..]), TakenBy(t, steps[1..]), s'.queue);
    }
  }

  /** A held task stays the same until it is sent or dropped, whatever the others do. */
  lemma HeldTaskStays(s: State, a: Step, p: nat)
    requires Enabled(s, a) && p in s.holding
    ensures p in Next(s, a).holding ==> Next(s, a).holding[p].task == s.holding[p].task
    ensures p !in Next(s, a).holding ==> a == Send(p) || a == RollBack(p)
  {
  }

  // ---- the protocol never gets stuck ----

  /** No publisher is under way, nothing is queued and the worker waits. */
  predicate AtRest(s: State) { s.holding == map[] && s.queue == [] && s.worker.None? }

  /** The steps that work off what there is; the others bring something new. */
  predicate WorksOff(a: Step) { !a.Reserve? && !a.Learn? && !a.Forget? }

  function Unrefused(s: State): set<nat> { set p | p in s.holding && !s.holding[p].refused }

  /** How many steps the work at hand can take at most. */
  function Load(s: State): nat
  {
    |s.holding| + 5 * |Unrefused(s)| + 5 * |s.queue|
    + match s.worker
      case None => 0
      case Some(w) => if w.phase.Entered? then 3 else if w.phase.Running? then 2 else 1
  }

  lemma {:induction false} RemovalShrinks<K, V>(m: map<K, V>, k: K)
    requires k in m
    ensures |m - {k}| == |m| - 1
  {
    assert (m - {k}).Keys == m.Keys - {k};
    assert |m.Keys| == |m| && |(m - {k}).Keys| == |m - {k}|;
  }

  lemma SendShrinks(s: State, p: nat)
    requires Enabled(s, Send(p))
    ensures Load(Next(s, Send(p))) < Load(s)
  {
    RemovalShrinks(s.holding, p);
    assert Unrefused(Next(s, Send(p))) == Unrefused(s) - {p};
  }

  lemma FindFullShrinks(s: State, p: nat)
    requires Enabled(s, FindFull(p))
    ensures Load(Next(s, FindFull(p))) < Load(s)
  {
    var s' := Next(s, FindFull(p));
    assert Unrefused(s') == Unrefused(s) - {p};
    assert s'.holding.Keys == s.holding.Keys;
    assert |s'.holding| == |s'.holding.Keys| && |s.holding| == |s.holding.Keys|;
  }

  lemma RollBackShrinks(s: State, p: nat)
    requires Enabled(s, RollBack(p))
    ensures Load(Next(s, RollBack(p))) < Load(s)
  {
    RemovalShrinks(s.holding, p);
    assert Unrefused(Next(s, RollBack(p))) == Unrefused(s);
  }

  lemma WorkerShrinks(s: State, a: Step)
    requires Enabled(s, a) && WorksOff(a) && !a.Send? && !a.FindFull? && !a.RollBack?
    ensures Load(Next(s, a)) < Load(s)
  {
    assert Unrefused(Next(s, a)) == Unrefused(s);
  }

  /** Each of these steps brings the protocol closer to rest. */
  lemma WorkShrinks(s: State, a: Step)
    requires Enabled(s, a) && WorksOff(a)
    ensures Load(Next(s, a)) < Load(s)
  {
    match a {
      case Send(p) => SendShrinks(s, p);
      case FindFull(p) => FindFullShrinks(s, p);
      case RollBack(p) => RollBackShrinks(s, p);
      case _ => WorkerShrinks(s, a);
    }
  }

  /** In every state that is not at rest one of them can be taken, whoever is where. */
  lemma NeverStuck(s: State)
    requires !AtRest(s)
    ensures exists a :: WorksOff(a) && Enabled(s, a)
  {
    if s.worker.Some? {
      var next := match s.worker.value.phase
                  case Entered => if IsKnown(s) then SkipKnown else DeferRelease
                  case Running => Return
                  case Ended(_) => Unwind;
      assert WorksOff(next) && Enabled(s, next);
    } else if s.queue != [] {
      assert WorksOff(Dequeue) && Enabled(s, Dequeue);
    } else {
      var p :| p in s.holding;
      var next := if s.holding[p].refused then RollBack(p) else Send(p);
      assert WorksOff(next) && Enabled(s, next);
    }
  }

  /**
    So once nothing new arrives, every schedule works everything off within a number of steps known beforehand: it can
    be no longer, and a schedule that can go no further has come to rest.
   */
  lemma {:induction false} EveryScheduleEnds(s: State, steps: seq<Step>, s': State)
    requires IsRun(s, steps, s') && forall a <- steps :: WorksOff(a)
    ensures |steps| + Load(s') <= Load(s)
    ensures AtRest(s') <==> forall a :: WorksOff(a) ==> !Enabled(s', a)
    decreases |steps|
  {
    if steps == [] {
      if !AtRest(s) {
        NeverStuck(s);
      }
    } else {
      assert steps[0] in steps && forall a <- steps[1..] :: a in steps;
      WorkShrinks(s, steps[0]);
      EveryScheduleEnds(Next(s, steps[0]), steps[1..], s');
    }
  }
}
