/** The calls that hooks receive while the goroutines of `config/driver/file/file.go` interleave in any way. */
module FileHookLog {
  import opened Wrappers
  import opened FileNode
  import opened FileReload

  /** A run as one file sees it: the reloads and registrations so far, and, between `CacheFrom` and `ExecuteHook` of its
      node, the file being reloaded and the registrations that have slipped in. */
  datatype Seen = Seen(events: seq<Event>, reloading: Option<File>, meanwhile: seq<Registration>)

  const NOTHING := Seen([], None, [])

  ghost function Watching(seen: Seen, s: State, step: Step, p: Path): Seen
    requires Enabled(s, step)
  {
    match step
    case OnKeyChange(path, key, hook) =>
      if path != p then seen
      else if seen.reloading.None? then seen.(events := seen.events + [Register(Registration(key, hook))])
      else seen.(meanwhile := seen.meanwhile + [Registration(key, hook)])
    case Cache =>
      if s.worker.path != p then seen else Seen(seen.events, s.worker.outcome, [])
    case Execute =>
      if s.worker.path != p then seen else Seen(seen.events + [Reload(s.worker.file, seen.meanwhile)], None, [])
    case _ => seen
  }

  ghost function WatchingRun(seen: Seen, s: State, steps: seq<Step>, t: State, p: Path): Seen
    requires Runs(s, steps, t)
    decreases |steps|
  {
    if steps == [] then seen
    else WatchingRun(Watching(seen, s, steps[0], p), Apply(s, steps[0]), steps[1..], t, p)
  }

  /** The calls for a key that a step makes: those due when `ExecuteHook` runs. */
  ghost function CallsMade(s: State, step: Step, p: Path, key: Key): seq<Call>
    requires Enabled(s, step)
  {
    if step.Execute? && s.worker.path == p then Due(s.files[p].slots, s.worker.file, key) else []
  }

  ghost function AllCallsMade(s: State, steps: seq<Step>, t: State, p: Path, key: Key): seq<Call>
    requires Runs(s, steps, t)
    decreases |steps|
  {
    if steps == [] then []
    else CallsMade(s, steps[0], p, key) + AllCallsMade(Apply(s, steps[0]), steps[1..], t, p, key)
  }

  lemma {:induction false} AfterOneMore(slots: Slots, events: seq<Event>, event: Event, key: Key)
    ensures AfterAll(slots, events + [event]) == After(AfterAll(slots, events), event)
    ensures AllMade(slots, events + [event], key) == AllMade(slots, events, key) + Made(AfterAll(slots, events), event, key)
    decreases |events|
  {
    var all := events + [event];
    if events == [] {
      assert all[0] == event && all[1..] == [];
    } else {
      var next := After(slots, events[0]);
      assert all[0] == events[0] && all[1..] == events[1..] + [event];
      AfterOneMore(next, events[1..], event, key);
      Grouping(Made(slots, events[0], key), AllMade(next, events[1..], key), Made(AfterAll(slots, events), event, key));
    }
  }

  /** What the node holds is what these reloads and registrations make of its first content. */
  ghost predicate Explains(seen: Seen, start: Slots, s: State, p: Path) {
    && Watched(s, p)
    && seen.reloading == (if s.worker.Stored? && s.worker.path == p then Some(s.worker.file) else None)
    && s.files[p].slots ==
       match seen.reloading
       case None => AfterAll(start, seen.events)
       case Some(file) => RegisterAll(Cached(AfterAll(start, seen.events), file), seen.meanwhile)
  }

  ghost predicate StepExplains(seen: Seen, start: Slots, s: State, step: Step, p: Path, key: Key)
    requires Enabled(s, step)
  {
    var next := Watching(seen, s, step, p);
    && Explains(next, start, Apply(s, step), p)
    && AllMade(start, next.events, key) == AllMade(start, seen.events, key) + CallsMade(s, step, p, key)
  }

  lemma StepExplained(seen: Seen, start: Slots, s: State, step: Step, p: Path, key: Key)
    requires Enabled(s, step) && Explains(seen, start, s, p)
    ensures StepExplains(seen, start, s, step, p, key)
  {
    match step
    case OnKeyChange(path, k, hook) => RegistrationExplained(seen, start, s, path, Registration(k, hook), p, key);
    case Execute => ReloadExplained(seen, start, s, p, key);
    case Cache =>
    case _ => NothingHappens(seen, start, s, step, p, key);
  }

  lemma NothingHappens(seen: Seen, start: Slots, s: State, step: Step, p: Path, key: Key)
    requires Enabled(s, step) && Explains(seen, start, s, p)
    requires !step.OnKeyChange? && !step.Execute? && !step.Cache?
    ensures StepExplains(seen, start, s, step, p, key)
  {
    NodeUntouched(s, step, p);
    StillExplained(seen, start, s, Apply(s, step), p);
  }

  lemma NodeUntouched(s: State, step: Step, p: Path)
    requires Enabled(s, step) && Watched(s, p) && !step.OnKeyChange? && !step.Execute? && !step.Cache?
    ensures var s' := Apply(s, step);
            && Watched(s', p) && s'.files[p].slots == s.files[p].slots
            && (s'.worker == s.worker || (!s'.worker.Stored? && !s.worker.Stored?))
  {
    if OfDedup(step) || step.Fire? || step.DeleteTimer? || step.Send? {
      QueueUntouched(s, step, p);
    }
  }

  lemma QueueUntouched(s: State, step: Step, p: Path)
    requires Enabled(s, step) && Watched(s, p) && (OfDedup(step) || step.Fire? || step.DeleteTimer? || step.Send?)
    ensures var s' := Apply(s, step);
            && Watched(s', p) && s'.files[p].slots == s.files[p].slots
            && (s'.worker == s.worker || (!s'.worker.Stored? && !s.worker.Stored?))
  {
  }

  lemma StillExplained(seen: Seen, start: Slots, s: State, s': State, p: Path)
    requires Explains(seen, start, s, p)
    requires Watched(s', p) && s'.files[p].slots == s.files[p].slots
    requires s'.worker == s.worker || (!s'.worker.Stored? && !s.worker.Stored?)
    ensures Explains(seen, start, s', p)
  {
  }

  lemma RegistrationExplained(seen: Seen, start: Slots, s: State, path: Path, r: Registration, p: Path, key: Key)
    requires Watched(s, path) && Explains(seen, start, s, p)
    ensures StepExplains(seen, start, s, OnKeyChange(path, r.key, r.hook), p, key)
  {
    if path == p {
      if seen.reloading.None? {
        AfterOneMore(start, seen.events, Register(r), key);
      } else {
        OneMoreRegistered(Cached(AfterAll(start, seen.events), seen.reloading.value), seen.meanwhile, r);
      }
    }
  }

  lemma ReloadExplained(seen: Seen, start: Slots, s: State, p: Path, key: Key)
    requires Enabled(s, Execute) && Explains(seen, start, s, p)
    ensures StepExplains(seen, start, s, Execute, p, key)
  {
    if s.worker.path == p {
      AfterOneMore(start, seen.events, Reload(s.worker.file, seen.meanwhile), key);
    }
  }

  lemma {:induction false} RunExplained(seen: Seen, start: Slots, s: State, steps: seq<Step>, t: State, p: Path, key: Key)
    requires Explains(seen, start, s, p) && Runs(s, steps, t)
    ensures var after := WatchingRun(seen, s, steps, t, p);
            && Explains(after, start, t, p)
            && AllMade(start, after.events, key) == AllMade(start, seen.events, key) + AllCallsMade(s, steps, t, p, key)
    decreases |steps|
  {
    if steps != [] {
      var next := Watching(seen, s, steps[0], p);
      StepExplained(seen, start, s, steps[0], p, key);
      RunExplained(next, start, Apply(s, steps[0]), steps[1..], t, p, key);
      Grouping(AllMade(start, seen.events, key), CallsMade(s, steps[0], p, key),
               AllCallsMade(Apply(s, steps[0]), steps[1..], t, p, key));
    }
  }

  /** In every interleaving, the calls that the hooks of a watched file's key have received are exactly those told from
      the files that were reloaded, one after the other, and from the registrations, wherever these fell between the
      steps of the goroutines. */
  lemma HookLogOverRuns(s: State, steps: seq<Step>, t: State, p: Path, key: Key)
    requires Started(s) && Runs(s, steps, t) && Watched(s, p)
    ensures var events := WatchingRun(NOTHING, s, steps, t, p).events;
            var slots := s.files[p].slots;
            AllCallsMade(s, steps, t, p, key) == Told(View(slots, key), HooksOf(slots, key), events, key)
  {
    MadeFromStart(s, steps, t, p, key);
    HookLogExact(s.files[p].slots, WatchingRun(NOTHING, s, steps, t, p).events, key);
  }

  lemma MadeFromStart(s: State, steps: seq<Step>, t: State, p: Path, key: Key)
    requires Started(s) && Runs(s, steps, t) && Watched(s, p)
    ensures NoFlags(s.files[p].slots)
    ensures AllMade(s.files[p].slots, WatchingRun(NOTHING, s, steps, t, p).events, key) == AllCallsMade(s, steps, t, p, key)
  {
    var calls := AllCallsMade(s, steps, t, p, key);
    RunExplained(NOTHING, s.files[p].slots, s, steps, t, p, key);
    assert AllMade(s.files[p].slots, [], key) + calls == calls;
  }

  /** And when all is at rest, no reload is half done, and the node is what these events make of its first content. */
  lemma AtRestExplained(s: State, steps: seq<Step>, t: State, p: Path)
    requires Started(s) && Runs(s, steps, t) && Watched(s, p) && Quiescent(t)
    ensures Watched(t, p) && t.files[p].slots == AfterAll(s.files[p].slots, WatchingRun(NOTHING, s, steps, t, p).events)
  {
    var key: Key := *;
    RunExplained(NOTHING, s.files[p].slots, s, steps, t, p, key);
  }
}
