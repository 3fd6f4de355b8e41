/** The reload protocol of the file driver: `dedup` and `listenAndRefresh` in `config/driver/file/file.go`.

    Three kinds of goroutine take part.  `dedup` takes file events and arms or resets one timer per path.  A
    timer that fires runs a goroutine of its own, which deletes the path's timer from the map and then sends
    the path over an unbuffered channel.  `listenAndRefresh` receives paths, reads the file, and runs
    `CacheFrom` and `ExecuteHook` under separate locks.  Every action that another goroutine can come between
    is one step here, so a run is any interleaving of them with writes to the files. */
module FileReload {
  import opened Wrappers
  import opened FileNode

  /** The path of a file.  Nothing depends on how it is spelled. */
  type Path(==, !new)

  /** A timer is known by its number; `owner` in `State` tells the path its callback was made for. */
  type Timer = nat

  datatype FileEvent = FileEvent(path: Path, createOrWrite: bool)

  /** Where `dedup` is. */
  datatype Dedup =
    | Selecting
    | Resetting(timer: Timer)
    | Creating(path: Path)
    | Storing(timer: Timer)

  /** Where `listenAndRefresh` is. */
  datatype Worker =
    | Waiting
    | Received(path: Path)
    | Reading(path: Path)
    | Loaded(path: Path, outcome: Option<File>)
    | Stored(path: Path, file: File)

  /** One loaded file.  `disk` is what it decodes to, or None while it cannot be read or decoded, and `version`
      counts the writes to it.  `slots` is its node.  `seen` is the version at the start of the last read;
      `accepted` and `reloads` count the events taken for the path and the reads started. */
  datatype Tracked = Tracked(
    watched: bool,
    disk: Option<File>,
    version: nat,
    slots: Slots,
    seen: nat,
    accepted: nat,
    reloads: nat)

  datatype State = State(
    files: map<Path, Tracked>,
    queue: seq<FileEvent>,
    dedup: Dedup,
    timers: map<Path, Timer>,
    owner: seq<Path>,
    armed: set<Timer>,
    fired: multiset<Path>,
    sending: multiset<Path>,
    worker: Worker)

  datatype Step =
    // the outside world
    | Write(path: Path, content: Option<File>, coalesced: bool)
    | Remove(path: Path)
    | OnKeyChange(path: Path, key: Key, hook: Hook)
    // dedup
    | TakeEvent
    | ResetTimer
    | CreateTimer
    | StoreTimer
    // a timer and its goroutine
    | Fire(timer: Timer)
    | DeleteTimer(path: Path)
    | Send(path: Path)
    // listenAndRefresh
    | StartRead
    | EndRead(outcome: Option<File>)
    | DropFailed
    | Cache
    | Execute

  predicate Outside(step: Step) {
    step.Write? || step.Remove? || step.OnKeyChange?
  }

  predicate Watched(s: State, p: Path) {
    p in s.files && s.files[p].watched
  }

  /** The timers in the map and in `dedup`'s hands are known, and a path is mapped to a timer of its own. */
  ghost predicate TimersMatch(s: State) {
    && (forall t :: t in s.armed ==> t < |s.owner|)
    && (forall p :: p in s.timers ==> s.timers[p] < |s.owner| && s.owner[s.timers[p]] == p)
    && (s.dedup.Resetting? || s.dedup.Storing? ==> s.dedup.timer < |s.owner|)
  }

  /** Only watched paths are under way. */
  ghost predicate OnlyWatched(s: State) {
    && (forall t :: 0 <= t < |s.owner| ==> Watched(s, s.owner[t]))
    && (s.dedup.Creating? ==> Watched(s, s.dedup.path))
    && (forall p :: p in s.fired ==> Watched(s, p))
    && (forall p :: p in s.sending ==> Watched(s, p))
    && (!s.worker.Waiting? ==> Watched(s, s.worker.path))
  }

  ghost predicate WellFormed(s: State) {
    TimersMatch(s) && OnlyWatched(s)
  }

  ghost predicate Enabled(s: State, step: Step) {
    match step
    case Write(path, _, coalesced) =>
      path in s.files && (coalesced ==> s.queue != [] && s.queue[|s.queue| - 1] == FileEvent(path, true))
    case Remove(path) => path in s.files
    case OnKeyChange(path, _, _) => Watched(s, path)
    case TakeEvent => s.dedup.Selecting? && s.queue != []
    case ResetTimer => s.dedup.Resetting?
    case CreateTimer => s.dedup.Creating?
    case StoreTimer => s.dedup.Storing? && s.dedup.timer < |s.owner|
    case Fire(timer) => timer in s.armed && timer < |s.owner|
    case DeleteTimer(path) => path in s.fired
    case Send(path) => path in s.sending && s.worker.Waiting?
    case StartRead => s.worker.Received? && Watched(s, s.worker.path)
    // A read of a file that is there and was not written meanwhile gives its content; any other read may
    // give anything, a mixture of two writes included.
    case EndRead(outcome) =>
      && s.worker.Reading? && Watched(s, s.worker.path)
      && var f := s.files[s.worker.path]; f.seen == f.version && f.disk.Some? ==> outcome == f.disk
    case DropFailed => s.worker.Loaded? && s.worker.outcome.None?
    case Cache => s.worker.Loaded? && s.worker.outcome.Some? && Watched(s, s.worker.path)
    case Execute => s.worker.Stored? && Watched(s, s.worker.path)
  }

  ghost function Apply(s: State, step: Step): State
    requires Enabled(s, step)
  {
    match step
    case Write(path, content, coalesced) =>
      var f := s.files[path];
      s.(files := s.files[path := f.(disk := content, version := f.version + 1)],
         queue := if coalesced then s.queue else s.queue + [FileEvent(path, true)])
    case Remove(path) =>
      s.(files := s.files[path := s.files[path].(disk := None)], queue := s.queue + [FileEvent(path, false)])
    case OnKeyChange(path, key, hook) =>
      s.(files := s.files[path := s.files[path].(slots := Registered(s.files[path].slots, key, hook))])
    case TakeEvent =>
      var e, rest := s.queue[0], s.(queue := s.queue[1..]);
      if !e.createOrWrite || !Watched(s, e.path) then
        rest
      else
        rest.(files := s.files[e.path := s.files[e.path].(accepted := s.files[e.path].accepted + 1)],
              dedup := if e.path in s.timers then Resetting(s.timers[e.path]) else Creating(e.path))
    case ResetTimer =>
      s.(armed := s.armed + {s.dedup.timer}, dedup := Selecting)
    case CreateTimer =>
      s.(owner := s.owner + [s.dedup.path], armed := s.armed + {|s.owner|}, dedup := Storing(|s.owner|))
    case StoreTimer =>
      s.(timers := s.timers[s.owner[s.dedup.timer] := s.dedup.timer], dedup := Selecting)
    case Fire(timer) =>
      s.(armed := s.armed - {timer}, fired := s.fired + multiset{s.owner[timer]})
    case DeleteTimer(path) =>
      s.(timers := s.timers - {path}, fired := s.fired - multiset{path}, sending := s.sending + multiset{path})
    case Send(path) =>
      s.(sending := s.sending - multiset{path}, worker := Received(path))
    case StartRead =>
      var p, f := s.worker.path, s.files[s.worker.path];
      s.(worker := Reading(p), files := s.files[p := f.(seen := f.version, reloads := f.reloads + 1)])
    case EndRead(outcome) =>
      s.(worker := Loaded(s.worker.path, outcome))
    case DropFailed =>
      s.(worker := Waiting)
    case Cache =>
      var p, file := s.worker.path, s.worker.outcome.value;
      s.(files := s.files[p := s.files[p].(slots := Cached(s.files[p].slots, file))], worker := Stored(p, file))
    case Execute =>
      var p, file := s.worker.path, s.worker.file;
      s.(files := s.files[p := s.files[p].(slots := Cleared(s.files[p].slots, file.Keys))], worker := Waiting)
  }

  // ---------- What every step keeps ----------

  /** Something under way will make `listenAndRefresh` start another read of the file. */
  ghost predicate Pending(s: State, p: Path) {
    || FileEvent(p, true) in s.queue
    || TakenFor(s, p)
    || (exists t :: t in s.armed && t < |s.owner| && s.owner[t] == p)
    || p in s.fired
    || p in s.sending
    || s.worker == Received(p)
  }

  /** `dedup` has taken an event of this path and not yet set its timer going. */
  predicate TakenFor(s: State, p: Path) {
    (s.dedup.Resetting? && s.dedup.timer < |s.owner| && s.owner[s.dedup.timer] == p) || s.dedup == Creating(p)
  }

  /** The node answers every read from this file. */
  ghost predicate Shows(slots: Slots, file: File) {
    forall key :: View(slots, key) == Lookup(file, key)
  }

  /** No update is lost: a file with a version not yet read has a read on its way. */
  ghost predicate Covered(s: State) {
    forall p :: Watched(s, p) ==>
      s.files[p].seen <= s.files[p].version && (Pending(s, p) || s.files[p].seen == s.files[p].version)
  }

  /** A file whose last version was read is what the node shows, unless that read is still being worked on. */
  ghost predicate FaithfulTo(worker: Worker, p: Path, f: Tracked) {
    f.seen == f.version && f.disk.Some? && worker != Reading(p) ==>
      if worker.Loaded? && worker.path == p then worker.outcome == f.disk else Shows(f.slots, f.disk.value)
  }

  ghost predicate Faithful(s: State) {
    forall p :: Watched(s, p) ==> FaithfulTo(s.worker, p, s.files[p])
  }

  /** Hook flags are up only between `CacheFrom` and `ExecuteHook`, on that node and for keys of that file. */
  ghost predicate FlagsOnlyFor(worker: Worker, p: Path, slots: Slots) {
    forall key :: Flagged(slots, key) ==> worker.Stored? && worker.path == p && key in worker.file
  }

  ghost predicate FlagsInWindow(s: State) {
    forall p :: Watched(s, p) ==> FlagsOnlyFor(s.worker, p, s.files[p].slots)
  }

  ghost function ArmedFor(s: State, p: Path): set<Timer> {
    set t | t in s.armed && t < |s.owner| && s.owner[t] == p
  }

  /** A path is read at most once for every event accepted for it. */
  ghost predicate Bounded(s: State) {
    forall p :: Watched(s, p) ==> s.files[p].reloads + UnderWay(s, p) <= s.files[p].accepted
  }

  ghost function UnderWay(s: State, p: Path): nat {
    (if TakenFor(s, p) then 1 else 0) + |ArmedFor(s, p)| + s.fired[p] + s.sending[p]
    + if s.worker == Received(p) then 1 else 0
  }

  ghost predicate Inv(s: State) {
    WellFormed(s) && Covered(s) && Faithful(s) && FlagsInWindow(s) && Bounded(s)
  }

  predicate OfDedup(step: Step) {
    step.TakeEvent? || step.ResetTimer? || step.CreateTimer? || step.StoreTimer?
  }

  lemma StepTimersMatch(s: State, step: Step)
    requires Enabled(s, step) && TimersMatch(s)
    ensures TimersMatch(Apply(s, step))
  {
  }

  lemma StepWatched(s: State, step: Step)
    requires Enabled(s, step)
    ensures forall p :: Watched(Apply(s, step), p) <==> Watched(s, p)
  {
    forall p ensures Watched(Apply(s, step), p) <==> Watched(s, p) {
      WatchedStays(s, step, p);
    }
  }

  lemma WatchedStays(s: State, step: Step, p: Path)
    requires Enabled(s, step)
    ensures Watched(Apply(s, step), p) <==> Watched(s, p)
  {
    if OfDedup(step) || step.Fire? || step.DeleteTimer? || step.Send? {
      QueueKeepsWatched(s, step, p);
    }
  }

  lemma QueueKeepsWatched(s: State, step: Step, p: Path)
    requires Enabled(s, step) && (OfDedup(step) || step.Fire? || step.DeleteTimer? || step.Send?)
    ensures Watched(Apply(s, step), p) <==> Watched(s, p)
  {
  }

  lemma StepOnlyWatched(s: State, step: Step)
    requires Enabled(s, step) && WellFormed(s)
    ensures OnlyWatched(Apply(s, step))
  {
    var s' := Apply(s, step);
    StepWatched(s, step);
    if OfDedup(step) {
      DedupOnlyWatched(s, step);
    } else if step.Fire? || step.DeleteTimer? || step.Send? {
      TimerOnlyWatched(s, step);
    } else {
      assert s'.owner == s.owner && s'.dedup == s.dedup && s'.fired == s.fired && s'.sending == s.sending;
      assert s'.worker.Waiting? || (s'.worker.path == s.worker.path && !s.worker.Waiting?);
    }
  }

  lemma DedupOnlyWatched(s: State, step: Step)
    requires Enabled(s, step) && WellFormed(s) && OfDedup(step)
    ensures OnlyWatched(Apply(s, step))
  {
    match step
    case TakeEvent => TakeOnlyWatched(s);
    case ResetTimer => ResetOnlyWatched(s);
    case CreateTimer => CreateOnlyWatched(s);
    case StoreTimer => StoreOnlyWatched(s);
  }

  lemma TakeOnlyWatched(s: State)
    requires Enabled(s, TakeEvent) && WellFormed(s)
    ensures OnlyWatched(Apply(s, TakeEvent))
  {
    var s' := Apply(s, TakeEvent);
    StepWatched(s, TakeEvent);
    assert s'.owner == s.owner && s'.fired == s.fired && s'.sending == s.sending && s'.worker == s.worker;
    assert s'.dedup.Creating? ==> Watched(s, s'.dedup.path);
  }

  lemma ResetOnlyWatched(s: State)
    requires Enabled(s, ResetTimer) && WellFormed(s)
    ensures OnlyWatched(Apply(s, ResetTimer))
  {
  }

  lemma StoreOnlyWatched(s: State)
    requires Enabled(s, StoreTimer) && WellFormed(s)
    ensures OnlyWatched(Apply(s, StoreTimer))
  {
  }

  lemma CreateOnlyWatched(s: State)
    requires Enabled(s, CreateTimer) && WellFormed(s)
    ensures OnlyWatched(Apply(s, CreateTimer))
  {
    var owner := Apply(s, CreateTimer).owner;
    assert forall t :: 0 <= t < |owner| ==> Watched(s, owner[t]);
  }

  lemma TimerOnlyWatched(s: State, step: Step)
    requires Enabled(s, step) && WellFormed(s) && (step.Fire? || step.DeleteTimer? || step.Send?)
    ensures OnlyWatched(Apply(s, step))
  {
    match step
    case Fire(timer) => FireOnlyWatched(s, timer);
    case DeleteTimer(path) => DeleteOnlyWatched(s, path);
    case Send(path) => SendOnlyWatched(s, path);
  }

  lemma FireOnlyWatched(s: State, timer: Timer)
    requires Enabled(s, Fire(timer)) && WellFormed(s)
    ensures OnlyWatched(Apply(s, Fire(timer)))
  {
    var fired := Apply(s, Fire(timer)).fired;
    assert forall p :: p in fired ==> p in s.fired || p == s.owner[timer];
  }

  lemma DeleteOnlyWatched(s: State, path: Path)
    requires Enabled(s, DeleteTimer(path)) && WellFormed(s)
    ensures OnlyWatched(Apply(s, DeleteTimer(path)))
  {
    var s' := Apply(s, DeleteTimer(path));
    assert forall p :: p in s'.fired ==> p in s.fired;
    assert forall p :: p in s'.sending ==> p in s.sending || p == path;
  }

  lemma SendOnlyWatched(s: State, path: Path)
    requires Enabled(s, Send(path)) && WellFormed(s)
    ensures OnlyWatched(Apply(s, Send(path)))
  {
    var sending := Apply(s, Send(path)).sending;
    assert forall p :: p in sending ==> p in s.sending;
  }

  lemma StepCovered(s: State, step: Step)
    requires Enabled(s, step) && TimersMatch(s) && Covered(s)
    ensures Covered(Apply(s, step))
  {
    var s' := Apply(s, step);
    forall p | Watched(s', p)
      ensures s'.files[p].seen <= s'.files[p].version && (Pending(s', p) || s'.files[p].seen == s'.files[p].version)
    {
      WatchedStays(s, step, p);
      SeenStays(s, step, p);
      if Pending(s, p) {
        PendingStays(s, step, p);
      }
    }
  }

  /** A file falls behind only by a write, which leaves an event, and a read that starts brings it up to date. */
  lemma SeenStays(s: State, step: Step, p: Path)
    requires Enabled(s, step) && Watched(s, p) && s.files[p].seen <= s.files[p].version
    ensures var s' := Apply(s, step);
            && p in s'.files && s'.files[p].seen <= s'.files[p].version
            && (s.files[p].seen == s.files[p].version ==>
                  s'.files[p].seen == s'.files[p].version || FileEvent(p, true) in s'.queue)
            && (step.StartRead? && s.worker == Received(p) ==> s'.files[p].seen == s'.files[p].version)
  {
  }

  /** What is under way for a path stays under way until its read starts. */
  lemma PendingStays(s: State, step: Step, p: Path)
    requires Enabled(s, step) && TimersMatch(s) && Watched(s, p) && Pending(s, p)
    ensures Pending(Apply(s, step), p) || (step.StartRead? && s.worker == Received(p))
  {
    match step
    case TakeEvent => TakePends(s, p);
    case ResetTimer => ResetPends(s, p);
    case CreateTimer => CreatePends(s, p);
    case Fire(timer) => FirePends(s, timer, p);
    case _ => OtherPends(s, step, p);
  }

  lemma TakePends(s: State, p: Path)
    requires Enabled(s, TakeEvent) && TimersMatch(s) && Watched(s, p) && Pending(s, p)
    ensures Pending(Apply(s, TakeEvent), p)
  {
    assert s.queue == [s.queue[0]] + Apply(s, TakeEvent).queue;
  }

  lemma ResetPends(s: State, p: Path)
    requires Enabled(s, ResetTimer) && TimersMatch(s) && Pending(s, p)
    ensures Pending(Apply(s, ResetTimer), p)
  {
    var s' := Apply(s, ResetTimer);
    assert s.dedup.timer in s'.armed;
    if t :| t in s.armed && t < |s.owner| && s.owner[t] == p {
      assert t in s'.armed;
    }
  }

  lemma CreatePends(s: State, p: Path)
    requires Enabled(s, CreateTimer) && Pending(s, p)
    ensures Pending(Apply(s, CreateTimer), p)
  {
    var s' := Apply(s, CreateTimer);
    assert |s.owner| in s'.armed;
    if t :| t in s.armed && t < |s.owner| && s.owner[t] == p {
      assert t in s'.armed && s'.owner[t] == p;
    }
  }

  lemma FirePends(s: State, timer: Timer, p: Path)
    requires Enabled(s, Fire(timer)) && Pending(s, p)
    ensures Pending(Apply(s, Fire(timer)), p)
  {
    var s' := Apply(s, Fire(timer));
    assert s.owner[timer] in s'.fired;
    if t :| t in s.armed && t < |s.owner| && s.owner[t] == p && t != timer {
      assert t in s'.armed;
    }
  }

  lemma OtherPends(s: State, step: Step, p: Path)
    requires Enabled(s, step) && Pending(s, p) && (!OfDedup(step) || step.StoreTimer?) && !step.Fire?
    ensures Pending(Apply(s, step), p) || (step.StartRead? && s.worker == Received(p))
  {
  }

  lemma StepFaithful(s: State, step: Step)
    requires Enabled(s, step) && Covered(s) && Faithful(s)
    ensures Faithful(Apply(s, step))
  {
    forall p | Watched(Apply(s, step), p) ensures FaithfulTo(Apply(s, step).worker, p, Apply(s, step).files[p]) {
      assert Watched(s, p);
      FaithfulAt(s, step, p);
    }
  }

  lemma FaithfulAt(s: State, step: Step, p: Path)
    requires Enabled(s, step) && Watched(s, p)
    requires FaithfulTo(s.worker, p, s.files[p]) && s.files[p].seen <= s.files[p].version
    ensures FaithfulTo(Apply(s, step).worker, p, Apply(s, step).files[p])
  {
    match step
    case OnKeyChange(path, key, hook) =>
      ShowsRegistered(s.files[path].slots, key, hook);
    case Cache =>
      ShowsCached(s.files[s.worker.path].slots, s.worker.outcome.value);
    case Execute =>
      ShowsCleared(s.files[s.worker.path].slots, s.worker.file.Keys);
    case TakeEvent =>
      var e := s.queue[0];
      assert Apply(s, step).worker == s.worker;
      assert Apply(s, step).files[p].slots == s.files[p].slots && Apply(s, step).files[p].disk == s.files[p].disk;
    case _ =>
  }

  lemma ShowsRegistered(slots: Slots, key: Key, hook: Hook)
    ensures forall file :: Shows(slots, file) ==> Shows(Registered(slots, key, hook), file)
  {
    forall other ensures View(Registered(slots, key, hook), other) == View(slots, other) {
      RegisteredFacts(slots, key, hook, other);
    }
  }

  lemma ShowsCached(slots: Slots, file: File)
    ensures Shows(Cached(slots, file), file)
  {
    forall key ensures View(Cached(slots, file), key) == Lookup(file, key) {
      CachedFacts(slots, file, key);
    }
  }

  lemma ShowsCleared(slots: Slots, done: set<Key>)
    ensures forall file :: Shows(slots, file) ==> Shows(Cleared(slots, done), file)
  {
    forall key ensures View(Cleared(slots, done), key) == View(slots, key) {
      ClearedFacts(slots, done, key);
    }
  }

  lemma StepFlags(s: State, step: Step)
    requires Enabled(s, step) && FlagsInWindow(s)
    ensures FlagsInWindow(Apply(s, step))
  {
    forall p | Watched(Apply(s, step), p)
      ensures FlagsOnlyFor(Apply(s, step).worker, p, Apply(s, step).files[p].slots)
    {
      assert Watched(s, p);
      FlagsAt(s, step, p);
    }
  }

  lemma FlagsAt(s: State, step: Step, p: Path)
    requires Enabled(s, step) && Watched(s, p)
    requires FlagsOnlyFor(s.worker, p, s.files[p].slots)
    ensures FlagsOnlyFor(Apply(s, step).worker, p, Apply(s, step).files[p].slots)
  {
    var s' := Apply(s, step);
    forall key | Flagged(s'.files[p].slots, key)
      ensures s'.worker.Stored? && s'.worker.path == p && key in s'.worker.file
    {
      var up := Flagged(s.files[p].slots, key);
      match step
      case OnKeyChange(path, k, hook) =>
        RegisteredFacts(s.files[path].slots, k, hook, key);
      case Cache =>
        CachedFacts(s.files[s.worker.path].slots, s.worker.outcome.value, key);
      case Execute =>
        ClearedFacts(s.files[s.worker.path].slots, s.worker.file.Keys, key);
      case _ =>
    }
  }

  lemma StepBounded(s: State, step: Step)
    requires Enabled(s, step) && TimersMatch(s) && Bounded(s)
    ensures Bounded(Apply(s, step))
  {
    var s' := Apply(s, step);
    forall p | Watched(s', p) ensures s'.files[p].reloads + UnderWay(s', p) <= s'.files[p].accepted {
      assert Watched(s, p);
      if step.TakeEvent? {
        TakeBounded(s, p);
      } else if step.ResetTimer? {
        ResetBounded(s, p);
      } else if step.CreateTimer? {
        CreateBounded(s, p);
      } else if step.Fire? {
        FireBounded(s, step.timer, p);
      } else {
        OtherBounded(s, step, p);
      }
    }
  }

  lemma OtherBounded(s: State, step: Step, p: Path)
    requires Enabled(s, step) && Watched(s, p) && s.files[p].reloads + UnderWay(s, p) <= s.files[p].accepted
    requires !step.TakeEvent? && !step.ResetTimer? && !step.CreateTimer? && !step.Fire?
    ensures Watched(Apply(s, step), p)
    ensures Apply(s, step).files[p].reloads + UnderWay(Apply(s, step), p) <= Apply(s, step).files[p].accepted
  {
    WatchedStays(s, step, p);
    if step.DeleteTimer? || step.Send? || step.StartRead? {
      PassedOn(s, step, p);
    } else {
      NothingMoves(s, step, p);
    }
  }

  /** What is under way for a path goes one step further, or turns into a reload. */
  lemma PassedOn(s: State, step: Step, p: Path)
    requires Enabled(s, step) && Watched(s, p) && (step.DeleteTimer? || step.Send? || step.StartRead?)
    ensures Watched(Apply(s, step), p) && Apply(s, step).files[p].accepted == s.files[p].accepted
    ensures Apply(s, step).files[p].reloads + UnderWay(Apply(s, step), p) == s.files[p].reloads + UnderWay(s, p)
  {
    assert ArmedFor(Apply(s, step), p) == ArmedFor(s, p);
  }

  lemma NothingMoves(s: State, step: Step, p: Path)
    requires Enabled(s, step) && Watched(s, p)
    requires !OfDedup(step) || step.StoreTimer?
    requires !step.Fire? && !step.DeleteTimer? && !step.Send? && !step.StartRead?
    ensures var s' := Apply(s, step);
            && Watched(s', p) && s'.files[p].accepted == s.files[p].accepted
            && s'.files[p].reloads == s.files[p].reloads && UnderWay(s', p) == UnderWay(s, p)
  {
    assert ArmedFor(Apply(s, step), p) == ArmedFor(s, p);
  }

  /** Setting a timer going turns the event in hand into an armed timer. */
  lemma ResetBounded(s: State, p: Path)
    requires s.dedup.Resetting? && TimersMatch(s)
    ensures UnderWay(Apply(s, ResetTimer), p) <= UnderWay(s, p)
  {
    var s' := Apply(s, ResetTimer);
    if TakenFor(s, p) {
      assert ArmedFor(s', p) == ArmedFor(s, p) + {s.dedup.timer};
    } else {
      assert ArmedFor(s', p) == ArmedFor(s, p);
    }
  }

  lemma CreateBounded(s: State, p: Path)
    requires s.dedup.Creating? && TimersMatch(s)
    ensures UnderWay(Apply(s, CreateTimer), p) <= UnderWay(s, p)
  {
    var s' := Apply(s, CreateTimer);
    assert ArmedFor(s', p) == if TakenFor(s, p) then ArmedFor(s, p) + {|s.owner|} else ArmedFor(s, p);
  }

  lemma TakeBounded(s: State, p: Path)
    requires Enabled(s, TakeEvent) && TimersMatch(s) && Watched(s, p)
    requires s.files[p].reloads + UnderWay(s, p) <= s.files[p].accepted
    ensures Watched(Apply(s, TakeEvent), p)
    ensures Apply(s, TakeEvent).files[p].reloads + UnderWay(Apply(s, TakeEvent), p)
            <= Apply(s, TakeEvent).files[p].accepted
  {
    var s' := Apply(s, TakeEvent);
    assert ArmedFor(s', p) == ArmedFor(s, p);
    assert TakenFor(s', p) ==> s.queue[0].path == p;
  }

  lemma FireBounded(s: State, timer: Timer, p: Path)
    requires Enabled(s, Fire(timer))
    ensures UnderWay(Apply(s, Fire(timer)), p) == UnderWay(s, p)
  {
    ArmedWithout(s, timer, p);
  }

  lemma ArmedWithout(s: State, timer: Timer, p: Path)
    requires Enabled(s, Fire(timer))
    ensures |ArmedFor(Apply(s, Fire(timer)), p)| == |ArmedFor(s, p)| - if s.owner[timer] == p then 1 else 0
  {
    var after := ArmedFor(Apply(s, Fire(timer)), p);
    if s.owner[timer] == p {
      assert timer in ArmedFor(s, p) && after == ArmedFor(s, p) - {timer};
    } else {
      assert after == ArmedFor(s, p);
    }
  }

  // ---------- Bursts ----------

  /** The steps by which `dedup` deals with an event that it accepts. */
  ghost function Settle(s: State): seq<Step> {
    if s.queue != [] && s.queue[0].path in s.timers then [TakeEvent, ResetTimer] else [TakeEvent, CreateTimer, StoreTimer]
  }

  /** An accepted event whose path has an armed timer in the map starts nothing new: the timer is set again and all that
      is under way stays as it was.  Otherwise one more timer is armed, and the path has one in the map. */
  lemma EventsCoalesce(s: State, p: Path)
    requires TimersMatch(s) && Watched(s, p) && s.dedup == Selecting && s.queue != [] && s.queue[0] == FileEvent(p, true)
    ensures exists t :: && Runs(s, Settle(s), t) && t.dedup == Selecting && t.queue == s.queue[1..]
                        && t.worker == s.worker && t.fired == s.fired && t.sending == s.sending
                        && p in t.files && t.files[p].accepted == s.files[p].accepted + 1 && p in t.timers && t.timers[p] in t.armed
                        && (p in s.timers ==> t.timers == s.timers && t.owner == s.owner && t.armed == s.armed + {s.timers[p]})
                        && (p !in s.timers ==> t.timers == s.timers[p := |s.owner|] && t.owner == s.owner + [p]
                                               && t.armed == s.armed + {|s.owner|})
  {
    var one := Apply(s, TakeEvent);
    if p in s.timers {
      var t := Apply(one, ResetTimer);
      assert [ResetTimer][1..] == [] && Runs(one, [ResetTimer], t);
      assert [TakeEvent, ResetTimer][1..] == [ResetTimer];
      assert Runs(s, Settle(s), t);
    } else {
      var two := Apply(one, CreateTimer);
      var t := Apply(two, StoreTimer);
      assert two.owner[|s.owner|] == p;
      assert [StoreTimer][1..] == [] && Runs(two, [StoreTimer], t);
      assert [CreateTimer, StoreTimer][1..] == [StoreTimer] && Runs(one, [CreateTimer, StoreTimer], t);
      assert [TakeEvent, CreateTimer, StoreTimer][1..] == [CreateTimer, StoreTimer];
      assert Runs(s, Settle(s), t);
    }
  }

  // ---------- Undisturbed passes ----------

  lemma TwoSteps(s: State, a: Step, b: Step)
    requires Enabled(s, a) && Enabled(Apply(s, a), b)
    ensures Runs(s, [a, b], Apply(Apply(s, a), b))
  {
    var t := Apply(Apply(s, a), b);
    assert [b][1..] == [] && Runs(Apply(s, a), [b], t);
    assert [a, b][1..] == [b];
  }

  /** A timer that fires takes its path out of the map and sends it on. */
  lemma FiredTimerSends(s: State, timer: Timer)
    requires Enabled(s, Fire(timer)) && s.worker == Waiting && s.sending == multiset{}
    ensures var p := s.owner[timer];
            var t := s.(armed := s.armed - {timer}, timers := s.timers - {p}, worker := Received(p));
            Runs(s, [Fire(timer), DeleteTimer(p), Send(p)], t)
  {
    var p, one := s.owner[timer], Apply(s, Fire(timer));
    var two := Apply(one, DeleteTimer(p));
    TwoSteps(one, DeleteTimer(p), Send(p));
    assert [Fire(timer), DeleteTimer(p), Send(p)][1..] == [DeleteTimer(p), Send(p)];
    assert two.fired == s.fired && two.sending - multiset{p} == multiset{};
  }

  /** A reload reads the file, takes the node through `CacheFrom` and `ExecuteHook`, and waits again. */
  lemma ReloadGoesThrough(s: State, p: Path, file: File)
    requires s.worker == Received(p) && Watched(s, p)
    requires s.files[p].disk.Some? ==> s.files[p].disk == Some(file)
    ensures var f := s.files[p];
            var g := f.(seen := f.version, reloads := f.reloads + 1, slots := Cleared(Cached(f.slots, file), file.Keys));
            Runs(s, [StartRead, EndRead(Some(file)), Cache, Execute], s.(worker := Waiting, files := s.files[p := g]))
  {
    var read := s.files[p].(seen := s.files[p].version, reloads := s.files[p].reloads + 1);
    var mid := s.(worker := Loaded(p, Some(file)), files := s.files[p := read]);
    TwoSteps(s, StartRead, EndRead(Some(file)));
    assert Runs(s, [StartRead, EndRead(Some(file))], mid);
    StoreGoesThrough(mid, p, file);
    var end := s.files[p := read.(slots := Cleared(Cached(read.slots, file), file.Keys))];
    assert mid.files[p := read.(slots := Cleared(Cached(read.slots, file), file.Keys))] == end;
    RunsTogether(s, [StartRead, EndRead(Some(file))], mid, [Cache, Execute], s.(worker := Waiting, files := end));
    assert [StartRead, EndRead(Some(file))] + [Cache, Execute] == [StartRead, EndRead(Some(file)), Cache, Execute];
  }

  lemma StoreGoesThrough(s: State, p: Path, file: File)
    requires s.worker == Loaded(p, Some(file)) && Watched(s, p)
    ensures var g := s.files[p].(slots := Cleared(Cached(s.files[p].slots, file), file.Keys));
            Runs(s, [Cache, Execute], s.(worker := Waiting, files := s.files[p := g]))
  {
    var f, one := s.files[p], Apply(s, Cache);
    var g := f.(slots := Cleared(Cached(f.slots, file), file.Keys));
    TwoSteps(s, Cache, Execute);
    assert s.files[p := f.(slots := Cached(f.slots, file))][p := g] == s.files[p := g];
  }

  /** A read that fails leaves the node alone. */
  lemma FailedReloadGoesThrough(s: State, p: Path)
    requires s.worker == Received(p) && Watched(s, p) && s.files[p].disk.None?
    ensures var g := s.files[p].(seen := s.files[p].version, reloads := s.files[p].reloads + 1);
            Runs(s, [StartRead, EndRead(None), DropFailed], s.(worker := Waiting, files := s.files[p := g]))
  {
    TwoSteps(Apply(s, StartRead), EndRead(None), DropFailed);
    assert [StartRead, EndRead(None), DropFailed][1..] == [EndRead(None), DropFailed];
  }

  // ---------- Whole runs ----------

  /** The watch has just begun: nothing is under way, every watched file that can be read is what its node shows,
      and no flag is up.  Hooks may be registered already. */
  ghost predicate Started(s: State) {
    && s.queue == [] && s.dedup == Selecting && s.timers == map[] && s.owner == [] && s.armed == {}
    && s.fired == multiset{} && s.sending == multiset{} && s.worker == Waiting
    && forall p :: Watched(s, p) ==>
         var f := s.files[p];
         && f.seen == f.version && f.reloads == 0 && NoFlags(f.slots)
         && (f.disk.Some? ==> Shows(f.slots, f.disk.value))
  }

  /** The steps are possible one after the other and lead from `s` to `t`. */
  ghost predicate Runs(s: State, steps: seq<Step>, t: State)
    decreases |steps|
  {
    if steps == [] then s == t
    else Enabled(s, steps[0]) && Runs(Apply(s, steps[0]), steps[1..], t)
  }

  lemma {:induction false} RunKeepsInv(s: State, steps: seq<Step>, t: State)
    requires Inv(s) && Runs(s, steps, t)
    ensures Inv(t)
    decreases |steps|
  {
    if steps != [] {
      StepTimersMatch(s, steps[0]);
      StepOnlyWatched(s, steps[0]);
      StepCovered(s, steps[0]);
      StepFaithful(s, steps[0]);
      StepFlags(s, steps[0]);
      StepBounded(s, steps[0]);
      RunKeepsInv(Apply(s, steps[0]), steps[1..], t);
    }
  }

  lemma StartedInv(s: State)
    requires Started(s)
    ensures Inv(s)
  {
    forall p | Watched(s, p) ensures UnderWay(s, p) == 0 {
      assert ArmedFor(s, p) == {};
    }
  }

  /** In every state that any interleaving reaches, a watched file with an unread version has a read under way,
      and its node shows it as soon as its last version has been read and worked on; flags are up only in their
      window, and no path has been read more often than events were accepted for it. */
  lemma NoLostUpdate(s: State, steps: seq<Step>, t: State)
    requires Started(s) && Runs(s, steps, t)
    ensures WellFormed(t) && Covered(t) && Faithful(t) && FlagsInWindow(t)
    ensures forall p :: Watched(t, p) ==> t.files[p].reloads <= t.files[p].accepted
  {
    StartedInv(s);
    RunKeepsInv(s, steps, t);
  }

  ghost predicate Quiescent(s: State) {
    && s.queue == [] && s.dedup == Selecting && s.armed == {}
    && s.fired == multiset{} && s.sending == multiset{} && s.worker == Waiting
  }

  /** Whenever nothing is left to do, every watched file that can be read is what its node shows. */
  lemma QuiescentIsInSync(s: State, steps: seq<Step>, t: State)
    requires Started(s) && Runs(s, steps, t) && Quiescent(t)
    ensures forall p :: Watched(t, p) && t.files[p].disk.Some? ==> Shows(t.files[p].slots, t.files[p].disk.value)
    ensures forall p :: Watched(t, p) ==> NoFlags(t.files[p].slots)
  {
    NoLostUpdate(s, steps, t);
    forall p | Watched(t, p)
      ensures t.files[p].disk.Some? ==> Shows(t.files[p].slots, t.files[p].disk.value)
      ensures NoFlags(t.files[p].slots)
    {
      assert !Pending(t, p);
      assert FaithfulTo(t.worker, p, t.files[p]) && FlagsOnlyFor(t.worker, p, t.files[p].slots);
    }
  }

  // ---------- It comes to rest ----------

  /** An upper bound on the driver's own steps that are still to come. */
  ghost function Work(s: State): nat {
    11 * |s.queue| + DedupWork(s.dedup) + 8 * |s.armed| + 7 * |s.fired| + 6 * |s.sending| + WorkerWork(s.worker)
  }

  function DedupWork(dedup: Dedup): nat {
    match dedup
    case Selecting => 0
    case Storing(_) => 1
    case Resetting(_) => 9
    case Creating(_) => 10
  }

  function WorkerWork(worker: Worker): nat {
    match worker
    case Waiting => 0
    case Received(_) => 5
    case Reading(_) => 4
    case Loaded(_, _) => 3
    case Stored(_, _) => 2
  }

  /** Every step of the driver itself uses up some of the work. */
  lemma OwnStepsUseWork(s: State, step: Step)
    requires Enabled(s, step) && !Outside(step)
    ensures Work(Apply(s, step)) < Work(s)
  {
    match step
    case ResetTimer => ArmedGrows(s.armed, s.dedup.timer);
    case CreateTimer => ArmedGrows(s.armed, |s.owner|);
    case Fire(timer) => FireUsesWork(s, timer);
    case DeleteTimer(path) => DeleteUsesWork(s, path);
    case Send(path) => SendUsesWork(s, path);
    case _ =>
  }

  lemma FireUsesWork(s: State, timer: Timer)
    requires Enabled(s, Fire(timer))
    ensures Work(Apply(s, Fire(timer))) == Work(s) - 1
  {
    assert |s.armed - {timer}| == |s.armed| - 1;
  }

  lemma DeleteUsesWork(s: State, path: Path)
    requires Enabled(s, DeleteTimer(path))
    ensures Work(Apply(s, DeleteTimer(path))) == Work(s) - 1
  {
    OneLess(s.fired, path);
  }

  lemma SendUsesWork(s: State, path: Path)
    requires Enabled(s, Send(path))
    ensures Work(Apply(s, Send(path))) == Work(s) - 1
  {
    OneLess(s.sending, path);
  }

  lemma OneLess(paths: multiset<Path>, path: Path)
    requires path in paths
    ensures |paths - multiset{path}| == |paths| - 1
  {
  }

  lemma ArmedGrows(armed: set<Timer>, timer: Timer)
    ensures |armed + {timer}| <= |armed| + 1
  {
    if timer in armed {
      assert armed + {timer} == armed;
    }
  }

  /** Until everything is at rest, the driver has a step to take. */
  lemma NeverStuck(s: State)
    requires WellFormed(s) && !Quiescent(s)
    ensures exists step :: Enabled(s, step) && !Outside(step)
  {
    if s.worker.Waiting? && s.dedup.Selecting? && s.queue == [] && s.armed == {} {
      if p :| p in s.fired {
        assert Enabled(s, DeleteTimer(p));
      } else {
        assert s.sending != multiset{};
        var p :| p in s.sending;
        assert Enabled(s, Send(p));
      }
    } else {
      var step :=
        match s.worker
        case Received(_) => StartRead
        case Reading(p) => EndRead(s.files[p].disk)
        case Loaded(_, outcome) => if outcome.None? then DropFailed else Cache
        case Stored(_, _) => Execute
        case Waiting =>
          match s.dedup
          case Resetting(_) => ResetTimer
          case Creating(_) => CreateTimer
          case Storing(_) => StoreTimer
          case Selecting => if s.queue != [] then TakeEvent else var t :| t in s.armed; Fire(t);
      assert Enabled(s, step) && !Outside(step);
    }
  }

  /** Once the outside world is silent, the driver takes at most `Work(t)` steps, whatever their order, and when it
      can take no more, every watched file that can be read is what its node shows. */
  lemma {:induction false} ComesToRestInSync(s: State, steps: seq<Step>, t: State, own: seq<Step>, u: State)
    requires Started(s) && Runs(s, steps, t)
    requires Runs(t, own, u) && forall i :: 0 <= i < |own| ==> !Outside(own[i])
    ensures |own| <= Work(t)
    ensures (forall step :: Enabled(u, step) ==> Outside(step)) ==>
              forall p :: Watched(u, p) && u.files[p].disk.Some? ==> Shows(u.files[p].slots, u.files[p].disk.value)
  {
    NoLostUpdate(s, steps, t);
    OwnRun(t, own, u);
    RunsTogether(s, steps, t, own, u);
    NoLostUpdate(s, steps + own, u);
    if forall step :: Enabled(u, step) ==> Outside(step) {
      if !Quiescent(u) {
        NeverStuck(u);
      }
      QuiescentIsInSync(s, steps + own, u);
    }
  }

  lemma {:induction false} OwnRun(t: State, own: seq<Step>, u: State)
    requires Runs(t, own, u) && forall i :: 0 <= i < |own| ==> !Outside(own[i])
    ensures |own| + Work(u) <= Work(t)
    decreases |own|
  {
    if own != [] {
      OwnStepsUseWork(t, own[0]);
      OwnRun(Apply(t, own[0]), own[1..], u);
    }
  }

  lemma {:induction false} RunsTogether(s: State, steps: seq<Step>, t: State, more: seq<Step>, u: State)
    requires Runs(s, steps, t) && Runs(t, more, u)
    ensures Runs(s, steps + more, u)
    decreases |steps|
  {
    if steps == [] {
      assert steps + more == more;
    } else {
      assert (steps + more)[1..] == steps[1..] + more;
      RunsTogether(Apply(s, steps[0]), steps[1..], t, more, u);
    }
  }
}
