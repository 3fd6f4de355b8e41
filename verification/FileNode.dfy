/** One configuration file held in memory: `config/driver/file/file_node.go`.

    A node keeps, for every key, the current text, whether the key exists, its hooks and a flag saying that
    the hooks have to run.  A removed key with hooks stays as a tombstone.  The calls that hooks receive are
    recorded in `calls`. */
module FileNode {
  import opened Wrappers

  /** Keys are strings of which only equality matters. */
  type Key(==, !new, 00)

  /** A registered hook function. */
  type Hook(==, !new)

  datatype Call = Call(key: Key, hook: Hook, value: string)

  /** A decoded file: a key maps to its text, or to None for a nil `*field` (a null value). */
  type File = map<Key, Option<string>>

  function Text(field: Option<string>): string {
    match field
    case None => ""
    case Some(text) => text
  }

  /** What a reader should get for `key` from a file. */
  function Lookup(file: File, key: Key): Option<string> {
    if key in file then Some(Text(file[key])) else None
  }

  // ---------- The entries as values ----------

  datatype Slot = Slot(value: string, present: bool, hooks: seq<Hook>, hookFlag: bool)

  type Slots = map<Key, Slot>

  function View(slots: Slots, key: Key): Option<string> {
    if key in slots && slots[key].present then Some(slots[key].value) else None
  }

  function HooksOf(slots: Slots, key: Key): seq<Hook> {
    if key in slots then slots[key].hooks else []
  }

  predicate Flagged(slots: Slots, key: Key) {
    key in slots && slots[key].hookFlag
  }

  ghost predicate NoFlags(slots: Slots) {
    forall key :: !Flagged(slots, key)
  }

  /** The slot of a key that the file has. */
  function Stored(slots: Slots, key: Key, text: string): Slot {
    if key !in slots then
      Slot(text, true, [], false)
    else if !slots[key].present || slots[key].value != text then
      Slot(text, true, slots[key].hooks, slots[key].hookFlag || slots[key].hooks != [])
    else
      slots[key]
  }

  /** The file has something for the hooks of the key: a text that is new. */
  predicate HasNews(slot: Slot, file: File, key: Key) {
    && key in file && slot.hooks != []
    && (slot.present ==> slot.value != match file[key] case None => "" case Some(text) => text)
  }

  /** One slot after a load, told field by field: the key exists exactly when the file has it, with the file's text; its
      hooks are those it had; and its flag is up if it was or if there is news for hooks. */
  predicate IsLoaded(slot: Slot, before: Slots, file: File, key: Key) {
    && (slot.present <==> key in file)
    && slot.value == (if key in file && file[key].Some? then file[key].value else "")
    && slot.hooks == (if key in before then before[key].hooks else [])
    && (slot.hookFlag <==> key in before && (before[key].hookFlag || HasNews(before[key], file, key)))
  }

  lemma CachedSlot(slots: Slots, file: File, key: Key)
    ensures key in Cached(slots, file) <==> key in file || (key in slots && slots[key].hooks != [])
    ensures key in Cached(slots, file) ==> IsLoaded(Cached(slots, file)[key], slots, file, key)
  {
  }

  /** The slots while `CacheFrom` has stored the keys of `done`. */
  function Storing(slots: Slots, file: File, done: set<Key>): Slots
    requires done <= file.Keys
  {
    map key | key in slots.Keys + done :: if key in done then Stored(slots, key, Text(file[key])) else slots[key]
  }

  /** The slots once the keys of `gone`, which the file lacks, have been dropped or made tombstones. */
  function Dropping(slots: Slots, gone: set<Key>): Slots {
    map key | key in slots && !(key in gone && slots[key].hooks == []) ::
      if key in gone then slots[key].(value := "", present := false) else slots[key]
  }

  /** `CacheFrom`: first the keys of the file, then the others. */
  function Cached(slots: Slots, file: File): Slots {
    Dropping(Storing(slots, file, file.Keys), slots.Keys - file.Keys)
  }

  /** `OnKeyChange` on a watched node. */
  function Registered(slots: Slots, key: Key, hook: Hook): Slots {
    slots[key := if key in slots then slots[key].(hooks := slots[key].hooks + [hook])
                 else Slot("", false, [hook], false)]
  }

  /** The flags after `ExecuteHook`. */
  function Cleared(slots: Slots, done: set<Key>): Slots {
    map key | key in slots :: if key in done then slots[key].(hookFlag := false) else slots[key]
  }

  function Calling(key: Key, hooks: seq<Hook>, value: string): (calls: seq<Call>)
    ensures |calls| == |hooks| && forall i :: 0 <= i < |calls| ==> calls[i] == Call(key, hooks[i], value)
  {
    seq(|hooks|, i requires 0 <= i < |hooks| => Call(key, hooks[i], value))
  }

  /** The calls that `ExecuteHook` makes for `key`. */
  function Due(slots: Slots, file: File, key: Key): seq<Call> {
    if key in file && Flagged(slots, key) then Calling(key, slots[key].hooks, Text(file[key])) else []
  }

  /** The hooks are called one after the other, in this order, with the text. */
  predicate IsBatch(calls: seq<Call>, key: Key, hooks: seq<Hook>, text: string) {
    |calls| == |hooks| && forall i :: 0 <= i < |calls| ==> calls[i] == Call(key, hooks[i], text)
  }

  /** What is due for a key is all of its hooks in registration order if its flag is up, and nothing otherwise. */
  lemma DueIsBatch(slots: Slots, file: File, key: Key)
    ensures if key in file && key in slots && slots[key].hookFlag
            then IsBatch(Due(slots, file, key), key, slots[key].hooks,
                         match file[key] case None => "" case Some(text) => text)
            else Due(slots, file, key) == []
  {
  }

  function CallsOf(calls: seq<Call>, key: Key): seq<Call> {
    if calls == [] then []
    else CallsOf(calls[..|calls| - 1], key)
         + if calls[|calls| - 1].key == key then [calls[|calls| - 1]] else []
  }

  lemma {:induction false} CallsOfAppend(calls: seq<Call>, more: seq<Call>, key: Key)
    ensures CallsOf(calls + more, key) == CallsOf(calls, key) + CallsOf(more, key)
  {
    if more == [] {
      assert calls + more == calls;
    } else {
      var front, last := more[..|more| - 1], more[|more| - 1];
      assert (calls + more)[..|calls + more| - 1] == calls + front;
      CallsOfAppend(calls, front, key);
    }
  }

  lemma CallsOfOne(call: Call, key: Key)
    ensures CallsOf([call], key) == if call.key == key then [call] else []
  {
    assert [call][..0] == [];
  }

  lemma {:induction false} CallsOfCalling(key: Key, hooks: seq<Hook>, value: string, other: Key)
    ensures CallsOf(Calling(key, hooks, value), other) == if other == key then Calling(key, hooks, value) else []
  {
    if hooks != [] {
      var front := hooks[..|hooks| - 1];
      assert Calling(key, hooks, value)[..|hooks| - 1] == Calling(key, front, value);
      assert Calling(key, hooks, value) == Calling(key, front, value) + [Call(key, hooks[|hooks| - 1], value)];
      CallsOfCalling(key, front, value, other);
    }
  }

  /** The calls of `ExecuteHook` when it visits the keys in this order. */
  function DueInOrder(slots: Slots, file: File, order: seq<Key>): seq<Call> {
    if order == [] then []
    else DueInOrder(slots, file, order[..|order| - 1]) + Due(slots, file, order[|order| - 1])
  }

  predicate Distinct(order: seq<Key>) {
    forall i, j :: 0 <= i < j < |order| ==> order[i] != order[j]
  }

  /** The keys of the file, each once, in some order. */
  ghost predicate Lists(order: seq<Key>, keys: set<Key>) {
    Distinct(order) && forall key :: key in order <==> key in keys
  }

  lemma ListsStep(order: seq<Key>, keys: set<Key>, k: Key)
    requires Lists(order, keys) && k !in keys
    ensures Lists(order + [k], keys + {k})
  {
  }

  lemma DueStep(calls: seq<Call>, slots: Slots, file: File, order: seq<Key>, k: Key)
    ensures calls + DueInOrder(slots, file, order) + Due(slots, file, k) == calls + DueInOrder(slots, file, order + [k])
  {
    assert (order + [k])[..|order|] == order;
  }

  lemma CallsOfDue(slots: Slots, file: File, k: Key, key: Key)
    ensures CallsOf(Due(slots, file, k), key) == if k == key then Due(slots, file, key) else []
  {
    if k in file && Flagged(slots, k) {
      CallsOfCalling(k, slots[k].hooks, Text(file[k]), key);
    }
  }

  /** The order does not show in the record of any one key. */
  lemma {:induction false} RecordOfKey(slots: Slots, file: File, order: seq<Key>, key: Key)
    requires Distinct(order)
    ensures CallsOf(DueInOrder(slots, file, order), key) == if key in order then Due(slots, file, key) else []
    decreases |order|
  {
    if order != [] {
      var front, k := order[..|order| - 1], order[|order| - 1];
      DistinctFront(order);
      RecordOfKey(slots, file, front, key);
      CallsOfAppend(DueInOrder(slots, file, front), Due(slots, file, k), key);
      CallsOfDue(slots, file, k, key);
    }
  }

  lemma DistinctFront(order: seq<Key>)
    requires order != [] && Distinct(order)
    ensures var front, k := order[..|order| - 1], order[|order| - 1];
            Distinct(front) && k !in front && forall key :: key in order <==> key in front || key == k
  {
    var front, k := order[..|order| - 1], order[|order| - 1];
    assert order == front + [k];
  }

  lemma AllBatches(slots: Slots, file: File, order: seq<Key>)
    requires Lists(order, file.Keys)
    ensures forall k ::
              var mine := CallsOf(DueInOrder(slots, file, order), k);
              if k in file && k in slots && slots[k].hookFlag
              then IsBatch(mine, k, slots[k].hooks, match file[k] case None => "" case Some(text) => text)
              else mine == []
  {
    forall k ensures CallsOf(DueInOrder(slots, file, order), k) == if k in file then Due(slots, file, k) else [] {
      RecordOfKey(slots, file, order, k);
    }
    forall k { DueIsBatch(slots, file, k); }
  }

  /** The keys are visited one after the other. */
  lemma {:induction false} DueInOrderJoins(slots: Slots, file: File, a: seq<Key>, b: seq<Key>)
    ensures DueInOrder(slots, file, a + b) == DueInOrder(slots, file, a) + DueInOrder(slots, file, b)
    decreases |b|
  {
    if b == [] {
      assert a + b == a;
    } else {
      assert (a + b)[..|a + b| - 1] == a + b[..|b| - 1];
      DueInOrderJoins(slots, file, a, b[..|b| - 1]);
    }
  }

  lemma StoringStep(slots: Slots, file: File, done: set<Key>, k: Key)
    requires done <= file.Keys && k in file && k !in done
    ensures var s := Storing(slots, file, done);
            s[k := Stored(s, k, Text(file[k]))] == Storing(slots, file, done + {k})
  {
  }

  lemma DroppingStep(slots: Slots, gone: set<Key>, k: Key)
    requires k !in gone
    ensures Dropping(Dropping(slots, gone), {k}) == Dropping(slots, gone + {k})
  {
  }

  lemma ClearedStep(slots: Slots, file: File, done: set<Key>, k: Key)
    requires k !in done
    ensures Cleared(Cleared(slots, done), {k}) == Cleared(slots, done + {k})
    ensures Due(Cleared(slots, done), file, k) == Due(slots, file, k)
  {
  }

  // ---------- The node ----------

  class Entry {
    var value: string
    var hooks: seq<Hook>
    var present: bool
    var hookFlag: bool

    constructor (value: string, present: bool)
      ensures Value() == Slot(value, present, [], false)
    {
      this.value, this.present := value, present;
      hooks, hookFlag := [], false;
    }

    ghost function Value(): Slot
      reads this
    {
      Slot(value, present, hooks, hookFlag)
    }
  }

  class Node {
    var watch: bool
    var entries: map<Key, Entry>
    var calls: seq<Call>

    /** The entries that the node has made. */
    ghost var owned: set<Entry>

    /** No two keys share an entry. */
    ghost predicate Valid()
      reads this`entries, this`owned
    {
      && (forall k :: k in entries ==> entries[k] in owned)
      && forall k, l :: k in entries && l in entries && entries[k] == entries[l] ==> k == l
    }

    ghost function State(): Slots
      requires Valid()
      reads this`entries, this`owned, owned
    {
      map key | key in entries :: entries[key].Value()
    }

    constructor ()
      ensures Valid() && entries == map[] && owned == {} && calls == [] && !watch
    {
      watch, entries, owned, calls := false, map[], {}, [];
    }

    method CacheFrom(fields: File)
      requires Valid()
      modifies this`entries, this`owned, owned
      ensures Valid() && fresh(owned - old(owned))
      ensures State() == Cached(old(State()), fields)
      ensures forall k :: k in entries <==> k in fields || (k in old(entries) && old(State())[k].hooks != [])
      ensures forall k :: k in entries ==> IsLoaded(entries[k].Value(), old(State()), fields, k)
    {
      ghost var was := State();
      StoreFields(fields);
      assert State().Keys - fields.Keys == old(State()).Keys - fields.Keys;
      DropOthers(fields);
      forall k
        ensures k in entries <==> k in fields || (k in was && was[k].hooks != [])
        ensures k in entries ==> IsLoaded(entries[k].Value(), was, fields, k)
      {
        CachedSlot(was, fields, k);
        assert k in entries ==> State()[k] == entries[k].Value();
      }
    }

    /** The loop over the loaded fields. */
    method StoreFields(fields: File)
      requires Valid()
      modifies this`entries, this`owned, owned
      ensures Valid() && fresh(owned - old(owned))
      ensures State() == Storing(old(State()), fields, fields.Keys)
    {
      ghost var was := State();
      ghost var done := {};
      var todo := fields.Keys;
      while todo != {}
        invariant done !! todo && done + todo == fields.Keys
        invariant Valid() && fresh(owned - old(owned))
        invariant State() == Storing(was, fields, done)
        decreases todo
      {
        var k :| k in todo;
        StoringStep(was, fields, done, k);
        StoreKey(k, Text(fields[k]));
        todo, done := todo - {k}, done + {k};
      }
      assert done == fields.Keys;
    }

    /** The loop over the entries. */
    method DropOthers(fields: File)
      requires Valid()
      modifies this`entries, this`owned, owned
      ensures Valid() && fresh(owned - old(owned))
      ensures State() == Dropping(old(State()), old(State()).Keys - fields.Keys)
    {
      ghost var was := State();
      ghost var gone := {};
      var todo := entries.Keys;
      while todo != {}
        invariant Valid() && fresh(owned - old(owned))
        invariant todo <= State().Keys && gone !! todo && gone + (todo - fields.Keys) == was.Keys - fields.Keys
        invariant State() == Dropping(was, gone)
        decreases todo
      {
        var k :| k in todo;
        todo := todo - {k};
        if k !in fields {
          DroppingStep(was, gone, k);
          DropKey(k);
          gone := gone + {k};
        }
      }
      assert gone == was.Keys - fields.Keys;
    }

    /** The body of the loop over the loaded fields. */
    method StoreKey(k: Key, value: string)
      requires Valid()
      modifies this`entries, this`owned, owned
      ensures Valid() && fresh(owned - old(owned))
      ensures State() == old(State())[k := Stored(old(State()), k, value)]
    {
      if k in entries {
        var e := entries[k];
        if !e.present || e.value != value {
          e.present := true;
          e.value := value;
          if |e.hooks| > 0 {
            e.hookFlag := true;
          }
        }
      } else {
        AddEntry(k, value, true);
      }
    }

    /** The body of the loop over the entries, for a key that the file lacks. */
    method DropKey(k: Key)
      requires Valid() && k in entries
      modifies this`entries, this`owned, owned
      ensures Valid() && owned == old(owned)
      ensures State() == Dropping(old(State()), {k})
    {
      var e := entries[k];
      if |e.hooks| == 0 {
        entries := entries - {k};
      } else {
        e.value := "";
        e.present := false;
      }
    }

    method OnKeyChange(key: Key, hook: Hook) returns (ok: bool)
      requires Valid()
      modifies this`entries, this`owned, owned
      ensures Valid() && fresh(owned - old(owned))
      ensures ok == watch
      ensures ok ==> State() == Registered(old(State()), key, hook)
      ensures ok ==> && key in entries && entries[key].hooks == (if key in old(entries) then old(State())[key].hooks else []) + [hook]
                     && (key !in old(entries) ==> !entries[key].present && !entries[key].hookFlag)
      ensures !ok ==> State() == old(State())
    {
      if !watch {
        return false;
      }
      if key !in entries {
        AddEntry(key, "", false);
      }
      assert [] + [hook] == [hook];
      AddHook(key, hook);
      assert entries[key].Value() == State()[key];
      return true;
    }

    method AddEntry(key: Key, value: string, present: bool)
      requires Valid() && key !in entries
      modifies this`entries, this`owned
      ensures Valid() && fresh(owned - old(owned)) && key in entries
      ensures State() == old(State())[key := Slot(value, present, [], false)]
    {
      var e := new Entry(value, present);
      entries, owned := entries[key := e], owned + {e};
    }

    method AddHook(key: Key, hook: Hook)
      requires Valid() && key in entries
      modifies entries[key]
      ensures Valid()
      ensures State() == old(State())[key := old(State())[key].(hooks := old(State())[key].hooks + [hook])]
    {
      var e := entries[key];
      e.hooks := e.hooks + [hook];
    }

    method ExecuteHook(fields: File) returns (ghost order: seq<Key>)
      requires Valid()
      modifies this`calls, owned
      ensures Valid()
      ensures State() == Cleared(old(State()), fields.Keys)
      ensures Lists(order, fields.Keys) && calls == old(calls) + DueInOrder(old(State()), fields, order)
      ensures entries == old(entries) && forall k :: k in entries ==>
                entries[k].Value() == old(State())[k].(hookFlag := old(State())[k].hookFlag && k !in fields)
      ensures old(calls) <= calls && forall k ::
                var mine := CallsOf(calls[|old(calls)|..], k);
                if k in fields && k in entries && old(State())[k].hookFlag
                then IsBatch(mine, k, entries[k].hooks, match fields[k] case None => "" case Some(text) => text)
                else mine == []
    {
      ghost var was := State();
      order := [];
      ghost var done := {};
      var todo := fields.Keys;
      while todo != {}
        invariant done !! todo && done + todo == fields.Keys && Lists(order, done)
        invariant Valid() && entries == old(entries)
        invariant State() == Cleared(was, done)
        invariant calls == old(calls) + DueInOrder(was, fields, order)
        decreases todo
      {
        var k :| k in todo;
        ClearedStep(was, fields, done, k);
        FireKey(k, fields);
        ListsStep(order, done, k);
        DueStep(old(calls), was, fields, order, k);
        order := order + [k];
        todo, done := todo - {k}, done + {k};
      }
      assert done == fields.Keys;
      AllBatches(was, fields, order);
      assert calls[|old(calls)|..] == DueInOrder(was, fields, order);
      forall k | k in entries ensures entries[k].Value() == was[k].(hookFlag := was[k].hookFlag && k !in fields) {
        assert entries[k].Value() == State()[k];
      }
    }

    /** The body of that loop. */
    method FireKey(k: Key, fields: File)
      requires Valid() && k in fields
      modifies this`calls, owned
      ensures Valid() && entries == old(entries)
      ensures State() == Cleared(old(State()), {k})
      ensures calls == old(calls) + Due(old(State()), fields, k)
    {
      if k !in entries {
        assert Cleared(State(), {k}) == State();
        return;
      }
      var e := entries[k];
      if e.hookFlag && |e.hooks| > 0 {
        RunHooks(k, e.hooks, Text(fields[k]));
      }
      LowerFlag(k);
    }

    method LowerFlag(k: Key)
      requires Valid() && k in entries
      modifies entries[k]
      ensures Valid()
      ensures State() == Cleared(old(State()), {k})
    {
      entries[k].hookFlag := false;
    }

    method RunHooks(k: Key, hooks: seq<Hook>, value: string)
      modifies this`calls
      ensures calls == old(calls) + Calling(k, hooks, value)
    {
      var i := 0;
      while i < |hooks|
        invariant 0 <= i <= |hooks|
        invariant calls == old(calls) + Calling(k, hooks[..i], value)
      {
        assert Calling(k, hooks[..i + 1], value) == Calling(k, hooks[..i], value) + [Call(k, hooks[i], value)];
        calls := calls + [Call(k, hooks[i], value)];
        i := i + 1;
      }
      assert hooks[..i] == hooks;
    }

    /** `UnsafeGet` and `GetString`: the text and true, or false. */
    method GetString(key: Key) returns (value: string, ok: bool)
      requires Valid()
      ensures (if ok then Some(value) else None) == View(State(), key)
      ensures ok <==> key in entries && entries[key].present
      ensures ok ==> value == entries[key].value
    {
      if key !in entries {
        return "", false;
      }
      var e := entries[key];
      if !e.present {
        return "", false;
      }
      return e.value, true;
    }
  }

  // ---------- What one load keeps ----------

  /** After `CacheFrom` a read answers from that file alone, whatever the node held before, every hook is still
      registered, and, if no flag was left over, the flagged keys are those of the file that changed and have
      hooks. */
  lemma CachedFacts(slots: Slots, file: File, key: Key)
    ensures View(Cached(slots, file), key) == Lookup(file, key)
    ensures HooksOf(Cached(slots, file), key) == HooksOf(slots, key)
    ensures !Flagged(slots, key) ==>
              (Flagged(Cached(slots, file), key) <==>
               key in file && Lookup(file, key) != View(slots, key) && HooksOf(slots, key) != [])
  {
    assert key in Cached(slots, file) <==> key in file || HooksOf(slots, key) != [];
  }

  lemma RegisteredFacts(slots: Slots, key: Key, hook: Hook, other: Key)
    ensures View(Registered(slots, key, hook), other) == View(slots, other)
    ensures HooksOf(Registered(slots, key, hook), other) == HooksOf(slots, other) + if other == key then [hook] else []
    ensures Flagged(Registered(slots, key, hook), other) == Flagged(slots, other)
  {
  }

  lemma ClearedFacts(slots: Slots, done: set<Key>, key: Key)
    ensures View(Cleared(slots, done), key) == View(slots, key)
    ensures HooksOf(Cleared(slots, done), key) == HooksOf(slots, key)
    ensures Flagged(Cleared(slots, done), key) <==> Flagged(slots, key) && key !in done
  {
  }

  // ---------- Whole runs ----------

  datatype Registration = Registration(key: Key, hook: Hook)

  /** A reload is `CacheFrom`, then registrations that slip in between the two locks, then `ExecuteHook`. */
  datatype Event =
    | Reload(file: File, meanwhile: seq<Registration>)
    | Register(registration: Registration)

  function RegisterAll(slots: Slots, registrations: seq<Registration>): Slots
    decreases |registrations|
  {
    if registrations == [] then slots
    else RegisterAll(Registered(slots, registrations[0].key, registrations[0].hook), registrations[1..])
  }

  ghost function After(slots: Slots, event: Event): Slots {
    match event
    case Reload(file, meanwhile) => Cleared(RegisterAll(Cached(slots, file), meanwhile), file.Keys)
    case Register(r) => Registered(slots, r.key, r.hook)
  }

  /** The calls of `key` that an event adds to the node's record. */
  ghost function Made(slots: Slots, event: Event, key: Key): seq<Call> {
    match event
    case Reload(file, meanwhile) => Due(RegisterAll(Cached(slots, file), meanwhile), file, key)
    case Register(_) => []
  }

  ghost function AllMade(slots: Slots, events: seq<Event>, key: Key): seq<Call>
    decreases |events|
  {
    if events == [] then [] else Made(slots, events[0], key) + AllMade(After(slots, events[0]), events[1..], key)
  }

  ghost function AfterAll(slots: Slots, events: seq<Event>): Slots
    decreases |events|
  {
    if events == [] then slots else AfterAll(After(slots, events[0]), events[1..])
  }

  /** The hooks that a list of registrations adds to `key`, in order. */
  function Added(registrations: seq<Registration>, key: Key): seq<Hook> {
    if registrations == [] then []
    else (if registrations[0].key == key then [registrations[0].hook] else []) + Added(registrations[1..], key)
  }

  /** The record of one key told without entries, tombstones or flags: at each reload, when the key is in the new
      file with a text other than the one in the file before (or was not in it), every hook known by then is
      called with the new text, in registration order, unless the key had no hook before that reload began. */
  ghost function Told(before: Option<string>, hooks: seq<Hook>, events: seq<Event>, key: Key): seq<Call>
    decreases |events|
  {
    if events == [] then []
    else match events[0]
      case Register(r) => Told(before, hooks + Added([r], key), events[1..], key)
      case Reload(file, meanwhile) =>
        var now, known := Lookup(file, key), hooks + Added(meanwhile, key);
        (if now.Some? && now != before && hooks != []
         then seq(|known|, i requires 0 <= i < |known| => Call(key, known[i], now.value)) else [])
        + Told(now, known, events[1..], key)
  }

  lemma {:induction false} RegisterAllFacts(slots: Slots, registrations: seq<Registration>, key: Key)
    ensures var after := RegisterAll(slots, registrations);
            && View(after, key) == View(slots, key)
            && HooksOf(after, key) == HooksOf(slots, key) + Added(registrations, key)
            && Flagged(after, key) == Flagged(slots, key)
    decreases |registrations|
  {
    if registrations != [] {
      var r := registrations[0];
      RegisteredFacts(slots, r.key, r.hook, key);
      RegisterAllFacts(Registered(slots, r.key, r.hook), registrations[1..], key);
    }
  }

  lemma {:induction false} OneMoreRegistered(slots: Slots, registrations: seq<Registration>, r: Registration)
    ensures RegisterAll(slots, registrations + [r]) == Registered(RegisterAll(slots, registrations), r.key, r.hook)
    decreases |registrations|
  {
    var all := registrations + [r];
    if registrations == [] {
      assert all[0] == r && all[1..] == [];
    } else {
      assert all[0] == registrations[0] && all[1..] == registrations[1..] + [r];
      OneMoreRegistered(Registered(slots, all[0].key, all[0].hook), registrations[1..], r);
    }
  }

  /** One event, seen from one key. */
  lemma AfterFacts(slots: Slots, event: Event, key: Key)
    requires NoFlags(slots)
    ensures NoFlags(After(slots, event))
    ensures View(After(slots, event), key) == if event.Reload? then Lookup(event.file, key) else View(slots, key)
    ensures HooksOf(After(slots, event), key) ==
            HooksOf(slots, key) + Added(if event.Reload? then event.meanwhile else [event.registration], key)
    ensures Made(slots, event, key) == Told(View(slots, key), HooksOf(slots, key), [event], key)
  {
    match event
    case Register(r) =>
      RegisteredFacts(slots, r.key, r.hook, key);
      forall other ensures !Flagged(After(slots, event), other) {
        RegisteredFacts(slots, r.key, r.hook, other);
      }
    case Reload(file, meanwhile) =>
      var cached := Cached(slots, file);
      var registered := RegisterAll(cached, meanwhile);
      CachedFacts(slots, file, key);
      RegisterAllFacts(cached, meanwhile, key);
      ClearedFacts(registered, file.Keys, key);
      forall other ensures !Flagged(After(slots, event), other) {
        CachedFacts(slots, file, other);
        RegisterAllFacts(cached, meanwhile, other);
        ClearedFacts(registered, file.Keys, other);
      }
  }

  /** The hooks that a list of registrations adds are those for the key, in order. */
  lemma {:induction false} AddedJoins(a: seq<Registration>, b: seq<Registration>, key: Key)
    ensures Added(a + b, key) == Added(a, key) + Added(b, key)
    decreases |a|
  {
    if a == [] {
      assert a + b == b;
    } else {
      assert (a + b)[0] == a[0] && (a + b)[1..] == a[1..] + b;
      AddedJoins(a[1..], b, key);
      Grouping(if a[0].key == key then [a[0].hook] else [], Added(a[1..], key), Added(b, key));
    }
  }

  lemma AddedOne(r: Registration, key: Key)
    ensures Added([r], key) == if r.key == key then [r.hook] else []
  {
    assert Added([r][1..], key) == [];
  }

  /** A reload calls the hooks of a key exactly when the file has a text for it that readers did not see before and there
      was a hook for it: every hook known by then once, with that text, those registered earlier before those
      registered later. */
  lemma OneBatch(slots: Slots, file: File, meanwhile: seq<Registration>, key: Key)
    requires NoFlags(slots)
    ensures var made, before := Made(slots, Reload(file, meanwhile), key), HooksOf(slots, key);
            var text := if key in file && file[key].Some? then file[key].value else "";
            if key in file && before != [] && !(key in slots && slots[key].present && slots[key].value == text)
            then IsBatch(made, key, before + Added(meanwhile, key), text)
            else made == []
  {
    AfterFacts(slots, Reload(file, meanwhile), key);
    assert Told(Lookup(file, key), HooksOf(slots, key) + Added(meanwhile, key), [], key) == [];
  }

  /** Over any run of reloads and registrations, the record of every key is exactly the one told from the file
      contents, and no flag is left between reloads. */
  lemma {:induction false} HookLogExact(slots: Slots, events: seq<Event>, key: Key)
    requires NoFlags(slots)
    ensures AllMade(slots, events, key) == Told(View(slots, key), HooksOf(slots, key), events, key)
    ensures NoFlags(AfterAll(slots, events))
    decreases |events|
  {
    if events != [] {
      AfterFacts(slots, events[0], key);
      HookLogExact(After(slots, events[0]), events[1..], key);
    }
  }
}
