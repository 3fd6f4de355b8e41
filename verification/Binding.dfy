/** Struct fields bound to configuration keys: `handleLazyOrWatchedField` and `TryLoad` in `config/load.go`, and how a
    watched field follows a file node. */
module Binding {
  import opened Wrappers
  import opened FileNode

  /** A decoded field value. */
  type Value(==, !new)

  /** What decoding a key's text into the field's type gives, or None for an error. */
  type Decoder = string -> Option<Value>

  datatype Outcome = Loaded | NotFound | DecodeFailed | NotWatchable

  /** The field after its watch callback has run. */
  function Called(decode: Decoder, field: Option<Value>, text: string): Option<Value> {
    if decode(text).Some? then decode(text) else field
  }

  /** The field after its load function has run against what the store holds for the key. */
  function Filled(decode: Decoder, field: Option<Value>, stored: Option<string>): Option<Value> {
    match stored
    case None => field
    case Some(text) => Called(decode, field, text)
  }

  function LoadOutcome(decode: Decoder, stored: Option<string>): Outcome {
    match stored
    case None => NotFound
    case Some(text) => if decode(text).Some? then Loaded else DecodeFailed
  }

  class Field {
    const decode: Decoder
    /** The pointer that the struct holds: None while it is nil. */
    var value: Option<Value>
    /** A load function is kept for `TryLoad`. */
    var lazy: bool

    constructor (decode: Decoder)
      ensures this.decode == decode && value == None && !lazy
    {
      this.decode, value, lazy := decode, None, false;
    }

    method Callback(text: string) returns (ok: bool)
      modifies this`value
      ensures ok == decode(text).Some? && value == Called(decode, old(value), text)
      ensures value == if ok then decode(text) else old(value)
    {
      var decoded := decode(text);
      if decoded.None? {
        return false;
      }
      value := decoded;
      return true;
    }

    method LoadFunc(stored: Option<string>) returns (outcome: Outcome)
      modifies this`value
      ensures outcome == LoadOutcome(decode, stored) && value == Filled(decode, old(value), stored)
      ensures outcome.NotFound? <==> stored.None?
      ensures outcome.DecodeFailed? <==> stored.Some? && decode(stored.value).None?
      ensures outcome.Loaded? <==> stored.Some? && decode(stored.value).Some?
      ensures value == if outcome.Loaded? then decode(stored.value) else old(value)
    {
      if stored.None? {
        return NotFound;
      }
      var decoded := decode(stored.value);
      if decoded.None? {
        return DecodeFailed;
      }
      value := decoded;
      return Loaded;
    }

    /** `handleLazyOrWatchedField`, where `watchable` tells whether the callback could be registered. */
    method Bind(watch: bool, lazy: bool, watchable: bool, stored: Option<string>) returns (outcome: Outcome)
      modifies this
      ensures watch && !watchable ==> outcome == NotWatchable && value == old(value) && this.lazy == old(this.lazy)
      ensures (!watch || watchable) && lazy ==> outcome == Loaded && value == old(value) && this.lazy
      ensures (!watch || watchable) && !lazy ==>
                outcome == LoadOutcome(decode, stored) && value == Filled(decode, old(value), stored)
      ensures !lazy && outcome == Loaded ==> value.Some?
      ensures outcome.NotWatchable? <==> watch && !watchable
      ensures outcome.NotFound? <==> !outcome.NotWatchable? && !lazy && stored.None?
      ensures outcome.DecodeFailed? <==> !outcome.NotWatchable? && !lazy && stored.Some? && decode(stored.value).None?
      ensures value == if !lazy && outcome.Loaded? then decode(stored.value) else old(value)
    {
      if watch && !watchable {
        return NotWatchable;
      }
      if lazy {
        this.lazy := true;
        return Loaded;
      }
      outcome := LoadFunc(stored);
    }

    /** A field that is set is never loaded again. */
    method TryLoad(stored: Option<string>) returns (result: Option<Value>, outcome: Outcome)
      modifies this`value
      ensures value == if old(value).Some? || !lazy then old(value) else Filled(decode, old(value), stored)
      ensures result == value
      ensures outcome == if old(value).Some? then Loaded else if !lazy then NotFound else LoadOutcome(decode, stored)
      ensures old(value).Some? ==> outcome.Loaded? && value == old(value)
      ensures outcome.Loaded? <==> value.Some?
      ensures outcome.NotFound? <==> old(value).None? && (!lazy || stored.None?)
      ensures old(value).None? && value.Some? ==> stored.Some? && value == decode(stored.value)
    {
      if value.Some? {
        return value, Loaded;
      }
      if !lazy {
        return None, NotFound;
      }
      outcome := LoadFunc(stored);
      return value, outcome;
    }
  }

  // ---------- A watched field and its file ----------

  /** What goes on around a bound field.  A reload of its file is `CacheFrom` and, later, `ExecuteHook`; hooks may be
      registered at any time.  A load reads the text and decodes it, and stores the value later; several may be under
      way, and one may begin at any time, as a field found nil can be set by the time its text is read. */
  datatype Step =
    | Cache(file: File)
    | Execute
    | AddHook(registration: Registration)
    | Fetch(reader: nat)
    | Store(reader: nat)

  /** `reloading` is the file between the two halves of a reload, and `loads` what has been read and not stored.  `told`
      is kept for the statements only: what the files held for the key that the hooks have run for, beginning with
      what was there when the field was bound. */
  datatype State = State(
    slots: Slots,
    reloading: Option<File>,
    field: Option<Value>,
    loads: map<nat, Value>,
    told: seq<Option<string>>)

  /** A watched field: its decoder, its hook and its key. */
  datatype Bound = Bound(decode: Decoder, hook: Hook, key: Key)

  /** The field after those of the calls that are to its own hook. */
  function CalledAll(b: Bound, field: Option<Value>, calls: seq<Call>): Option<Value>
    decreases |calls|
  {
    if calls == [] then field
    else CalledAll(b, if calls[0].hook == b.hook then Called(b.decode, field, calls[0].value) else field, calls[1..])
  }

  predicate Enabled(s: State, step: Step) {
    match step
    case Cache(_) => s.reloading.None?
    case Execute => s.reloading.Some?
    case AddHook(_) => true
    case Fetch(reader) => reader !in s.loads
    case Store(reader) => reader in s.loads
  }

  ghost function Apply(b: Bound, s: State, step: Step): State
    requires Enabled(s, step)
  {
    match step
    case Cache(file) => s.(slots := Cached(s.slots, file), reloading := Some(file))
    case Execute =>
      var file := s.reloading.value;
      s.(slots := Cleared(s.slots, file.Keys), reloading := None,
         field := CalledAll(b, s.field, Due(s.slots, file, b.key)), told := s.told + [Lookup(file, b.key)])
    case AddHook(r) => s.(slots := Registered(s.slots, r.key, r.hook))
    case Fetch(reader) =>
      var text := View(s.slots, b.key);
      if text.Some? && b.decode(text.value).Some? then s.(loads := s.loads[reader := b.decode(text.value).value]) else s
    case Store(reader) => s.(field := Some(s.loads[reader]), loads := s.loads - {reader})
  }

  ghost predicate Runs(b: Bound, s: State, steps: seq<Step>, u: State)
    decreases |steps|
  {
    if steps == [] then s == u else Enabled(s, steps[0]) && Runs(b, Apply(b, s, steps[0]), steps[1..], u)
  }

  /** The decoding of the last text that is present and can be decoded. */
  function LastGood(decode: Decoder, texts: seq<Option<string>>): Option<Value> {
    if texts == [] then None
    else
      var last := texts[|texts| - 1];
      if last.Some? && decode(last.value).Some? then decode(last.value)
      else LastGood(decode, texts[..|texts| - 1])
  }

  /** The field holds what its key last held that could be decoded. */
  ghost predicate InStep(b: Bound, s: State) {
    s.field == LastGood(b.decode, s.told)
  }

  // ---------- What every step keeps ----------

  /** The hook is registered; between reloads the node shows what the hooks were told last; and within a reload a text
      that they have not been told is flagged. */
  ghost predicate Inv(b: Bound, s: State) {
    && s.told != [] && b.hook in HooksOf(s.slots, b.key)
    && var last, now := s.told[|s.told| - 1], View(s.slots, b.key);
    match s.reloading
    case None => !Flagged(s.slots, b.key) && last == now
    case Some(file) =>
      && now == Lookup(file, b.key) && (Flagged(s.slots, b.key) ==> b.key in file)
      && (now.Some? && now != last ==> Flagged(s.slots, b.key))
  }

  /** The step calls the field's hook with a text that can be decoded. */
  ghost predicate Sets(b: Bound, s: State, step: Step) {
    && step.Execute? && s.reloading.Some? && b.key in s.reloading.value && Flagged(s.slots, b.key)
    && b.decode(Text(s.reloading.value[b.key])).Some?
  }

  lemma {:induction false} CallsOfOneValue(b: Bound, field: Option<Value>, hooks: seq<Hook>, text: string)
    ensures CalledAll(b, field, Calling(b.key, hooks, text)) == if b.hook in hooks then Called(b.decode, field, text) else field
    decreases |hooks|
  {
    if hooks != [] {
      assert Calling(b.key, hooks, text)[1..] == Calling(b.key, hooks[1..], text);
      var next := if hooks[0] == b.hook then Called(b.decode, field, text) else field;
      CallsOfOneValue(b, next, hooks[1..], text);
    }
  }

  lemma LastGoodAfter(decode: Decoder, texts: seq<Option<string>>, text: Option<string>)
    ensures LastGood(decode, texts + [text]) ==
            if text.Some? && decode(text.value).Some? then decode(text.value) else LastGood(decode, texts)
  {
    assert (texts + [text])[..|texts|] == texts;
  }

  /** The second half of a reload either sets the field to what its key now holds, or leaves both the field and the last
      good text as they were. */
  lemma ExecuteFollows(b: Bound, s: State)
    requires Inv(b, s) && s.reloading.Some?
    ensures var next := Apply(b, s, Execute);
            && Inv(b, next)
            && if Sets(b, s, Execute) then InStep(b, next) && next.field.Some?
               else next.field == s.field && LastGood(b.decode, next.told) == LastGood(b.decode, s.told)
  {
    var file := s.reloading.value;
    ClearedFacts(s.slots, file.Keys, b.key);
    LastGoodAfter(b.decode, s.told, Lookup(file, b.key));
    if b.key in file && Flagged(s.slots, b.key) {
      CallsOfOneValue(b, s.field, s.slots[b.key].hooks, Text(file[b.key]));
    }
    assert s.told == s.told[..|s.told| - 1] + [s.told[|s.told| - 1]];
    LastGoodAfter(b.decode, s.told[..|s.told| - 1], s.told[|s.told| - 1]);
  }

  lemma StepFollows(b: Bound, s: State, step: Step)
    requires Inv(b, s) && Enabled(s, step)
    ensures var next := Apply(b, s, step);
            && Inv(b, next) && (s.field.Some? ==> next.field.Some?)
            && (step.Store? ==> next.told == s.told)
            && (!step.Store? ==>
                  if Sets(b, s, step) then InStep(b, next) && next.field.Some?
                  else next.field == s.field && LastGood(b.decode, next.told) == LastGood(b.decode, s.told))
  {
    match step
    case Cache(file) => CachedFacts(s.slots, file, b.key);
    case Execute => ExecuteFollows(b, s);
    case AddHook(r) => RegisteredFacts(s.slots, r.key, r.hook, b.key);
    case Fetch(_) =>
    case Store(_) =>
  }

  // ---------- Whole runs ----------

  /** The field has just been bound, and is nil. */
  ghost predicate Started(b: Bound, s: State) {
    Inv(b, s) && s.field == None && s.loads == map[] && s.told == [View(s.slots, b.key)]
  }

  /** Binding starts such a run, in between reloads or in the middle of one. */
  lemma BoundStarts(b: Bound, slots: Slots, reloading: Option<File>)
    requires match reloading
             case None => !Flagged(slots, b.key)
             case Some(file) => View(slots, b.key) == Lookup(file, b.key) && (Flagged(slots, b.key) ==> b.key in file)
    ensures Started(b, State(Registered(slots, b.key, b.hook), reloading, None, map[], [View(slots, b.key)]))
  {
    RegisteredFacts(slots, b.key, b.hook, b.key);
  }

  lemma {:induction false} RunKeepsInv(b: Bound, s: State, steps: seq<Step>, u: State)
    requires Inv(b, s) && Runs(b, s, steps, u)
    ensures Inv(b, u) && (s.field.Some? ==> u.field.Some?)
    decreases |steps|
  {
    if steps != [] {
      StepFollows(b, s, steps[0]);
      RunKeepsInv(b, Apply(b, s, steps[0]), steps[1..], u);
    }
  }

  predicate NoStores(steps: seq<Step>) {
    forall i :: 0 <= i < |steps| ==> !steps[i].Store?
  }

  /** Some step of the run calls the field's hook with a text that can be decoded. */
  ghost predicate SetsDuring(b: Bound, s: State, steps: seq<Step>, u: State)
    requires Runs(b, s, steps, u)
    decreases |steps|
  {
    steps != [] && (Sets(b, s, steps[0]) || SetsDuring(b, Apply(b, s, steps[0]), steps[1..], u))
  }

  /** While nothing is stored, hooks bring the field in step for good, and without them neither the field nor the last
      good text changes. */
  lemma {:induction false} WithoutStores(b: Bound, s: State, steps: seq<Step>, u: State)
    requires Inv(b, s) && Runs(b, s, steps, u) && NoStores(steps)
    ensures Inv(b, u)
    ensures if SetsDuring(b, s, steps, u) then InStep(b, u) && u.field.Some?
            else u.field == s.field && LastGood(b.decode, u.told) == LastGood(b.decode, s.told)
    decreases |steps|
  {
    if steps != [] {
      assert !steps[0].Store?;
      StepFollows(b, s, steps[0]);
      WithoutStores(b, Apply(b, s, steps[0]), steps[1..], u);
    }
  }

  /** A load stores what it has read.  At any time after, until another load stores, the field is out of step exactly when
      the value stored was not the last good one at that moment and no hook has set the field since. */
  lemma StaleExactlyWhen(b: Bound, s: State, steps: seq<Step>, t: State, reader: nat, more: seq<Step>, u: State)
    requires Started(b, s) && Runs(b, s, steps, t) && reader in t.loads
    requires Runs(b, Apply(b, t, Store(reader)), more, u) && NoStores(more)
    ensures u.field.Some?
    ensures !InStep(b, u) <==>
            && Some(t.loads[reader]) != LastGood(b.decode, t.told)
            && !SetsDuring(b, Apply(b, t, Store(reader)), more, u)
  {
    RunKeepsInv(b, s, steps, t);
    StepFollows(b, t, Store(reader));
    WithoutStores(b, Apply(b, t, Store(reader)), more, u);
  }

  /** The race is real: a load reads `a`, the file changes to `c` and the hook sets the field, and only then the load
      stores what it has read.  Nothing is under way any more and the field is out of step. */
  lemma StaleField(b: Bound, a: string, c: string)
    requires b.decode(a).Some? && b.decode(c).Some? && b.decode(a) != b.decode(c)
    ensures exists s, steps, u :: && Started(b, s) && Runs(b, s, steps, u) && u.reloading.None? && u.loads == map[]
                                  && u.field == b.decode(a) && View(u.slots, b.key) == Some(c)
  {
    var before, after: File := map[b.key := Some(a)], map[b.key := Some(c)];
    var slots := Cached(map[], before);
    CachedFacts(map[], before, b.key);
    BoundStarts(b, slots, None);
    var s0 := State(Registered(slots, b.key, b.hook), None, None, map[], [Some(a)]);
    RegisteredFacts(slots, b.key, b.hook, b.key);
    var s1 := Apply(b, s0, Fetch(0));
    var s2 := Apply(b, s1, Cache(after));
    var s3 := Apply(b, s2, Execute);
    var u := Apply(b, s3, Store(0));
    CachedFacts(s1.slots, after, b.key);
    ClearedFacts(s2.slots, after.Keys, b.key);
    FourSteps(b, s0, Fetch(0), Cache(after), Execute, Store(0));
    assert u.loads == map[];
  }

  lemma FourSteps(b: Bound, s: State, i: Step, j: Step, k: Step, l: Step)
    requires Enabled(s, i) && Enabled(Apply(b, s, i), j) && Enabled(Apply(b, Apply(b, s, i), j), k)
    requires Enabled(Apply(b, Apply(b, Apply(b, s, i), j), k), l)
    ensures Runs(b, s, [i, j, k, l], Apply(b, Apply(b, Apply(b, Apply(b, s, i), j), k), l))
  {
    var t := Apply(b, Apply(b, Apply(b, s, i), j), k);
    assert [l][1..] == [] && Runs(b, t, [l], Apply(b, t, l));
    assert [k, l][1..] == [l] && Runs(b, Apply(b, Apply(b, s, i), j), [k, l], Apply(b, t, l));
    assert [j, k, l][1..] == [k, l] && Runs(b, Apply(b, s, i), [j, k, l], Apply(b, t, l));
    assert [i, j, k, l][1..] == [j, k, l];
  }

  // ---------- Loads that nothing comes between ----------

  /** What a load has read is stored at once. */
  predicate AtOnce(steps: seq<Step>) {
    forall i :: 0 <= i < |steps| && steps[i].Store? ==> i > 0 && steps[i - 1] == Fetch(steps[i].reader)
  }

  /** The field is nil, in step, or already at what a reload is about to tell the hooks. */
  ghost predicate AheadAtMost(b: Bound, s: State) {
    s.field.Some? ==>
      || InStep(b, s)
      || (s.reloading.Some? && View(s.slots, b.key).Some? && s.field == b.decode(View(s.slots, b.key).value))
  }

  lemma StepKeepsUp(b: Bound, s: State, step: Step)
    requires Inv(b, s) && Enabled(s, step) && !step.Store? && AheadAtMost(b, s)
    ensures Inv(b, Apply(b, s, step)) && AheadAtMost(b, Apply(b, s, step))
  {
    StepFollows(b, s, step);
    match step
    case Execute =>
      assert s.told == s.told[..|s.told| - 1] + [s.told[|s.told| - 1]];
      LastGoodAfter(b.decode, s.told[..|s.told| - 1], s.told[|s.told| - 1]);
    case AddHook(r) => RegisteredFacts(s.slots, r.key, r.hook, b.key);
    case _ =>
  }

  lemma LoadKeepsUp(b: Bound, s: State, reader: nat)
    requires Inv(b, s) && Enabled(s, Fetch(reader)) && AheadAtMost(b, s)
    requires Enabled(Apply(b, s, Fetch(reader)), Store(reader))
    ensures var u := Apply(b, Apply(b, s, Fetch(reader)), Store(reader)); Inv(b, u) && AheadAtMost(b, u)
  {
    assert s.told == s.told[..|s.told| - 1] + [s.told[|s.told| - 1]];
    LastGoodAfter(b.decode, s.told[..|s.told| - 1], s.told[|s.told| - 1]);
  }

  lemma {:induction false} LoadsAtOnceKeepUp(b: Bound, s: State, steps: seq<Step>, u: State)
    requires Inv(b, s) && AheadAtMost(b, s) && Runs(b, s, steps, u) && AtOnce(steps)
    ensures Inv(b, u) && AheadAtMost(b, u)
    decreases |steps|
  {
    if steps != [] {
      var next := Apply(b, s, steps[0]);
      if |steps| > 1 && steps[1].Store? {
        LoadKeepsUp(b, s, steps[1].reader);
        assert steps[1..][1..] == steps[2..];
        LoadsAtOnceKeepUp(b, Apply(b, next, steps[1]), steps[2..], u);
      } else {
        assert !steps[0].Store?;
        StepKeepsUp(b, s, steps[0]);
        LoadsAtOnceKeepUp(b, next, steps[1..], u);
      }
    }
  }

  /** Over any run in which nothing comes between the two halves of a load, a watched field that is not nil holds, between
      reloads, the decoding of the last text of its key that was present and could be decoded; and in every run it never
      becomes nil again. */
  lemma FieldFollowsStore(b: Bound, s: State, steps: seq<Step>, t: State, more: seq<Step>, u: State)
    requires Started(b, s) && Runs(b, s, steps, t) && Runs(b, t, more, u)
    ensures AtOnce(steps) && t.reloading.None? && t.field.Some? ==> InStep(b, t)
    ensures t.field.Some? ==> u.field.Some?
  {
    RunKeepsInv(b, s, steps, t);
    RunKeepsInv(b, t, more, u);
    if AtOnce(steps) {
      LoadsAtOnceKeepUp(b, s, steps, t);
    }
  }
}
