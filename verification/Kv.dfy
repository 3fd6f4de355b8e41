/** The read-through cache of one etcd prefix: `etcdutil/kv.go`.

    An entry holds a value, or is a tombstone for a key that etcd does not have.  The calls that hooks receive
    are recorded in `calls`. */
module Kv {
  import opened Wrappers
  import Watcher

  type Hook(==, !new)

  datatype Call = Call(key: string, hook: Hook, value: string)

  /** What is cached for a key: its value, or None for a tombstone. */
  type Cache = map<string, Option<string>>

  datatype Change = Put(key: string, value: string) | Delete(key: string) | Other(key: string)

  /** What etcd answers to a read of one key. */
  datatype Reply = Found(value: string) | NotFound | Failed

  // ---------- Keys ----------

  function CacheKey(prefix: string, key: string): string {
    if Watcher.HasPrefix(key, prefix) then key[|prefix|..] else key
  }

  function EtcdKey(prefix: string, key: string): string {
    if Watcher.HasPrefix(key, prefix) then key else prefix + key
  }

  /** A reader asks etcd for the key whose events go to the slot it reads and fills, even when the prefix is
      repeated inside the key or has been put in front already; and two names share a slot exactly when they
      name the same key of etcd. */
  lemma SlotsFollowKeys(prefix: string, key: string, other: string)
    ensures EtcdKey(prefix, key) == prefix + CacheKey(prefix, key)
    ensures Watcher.HasPrefix(EtcdKey(prefix, key), prefix)
    ensures EtcdKey(prefix, key)[|prefix|..] == CacheKey(prefix, key)
    ensures EtcdKey(prefix, EtcdKey(prefix, key)) == EtcdKey(prefix, key)
    ensures CacheKey(prefix, key) == CacheKey(prefix, other) <==> EtcdKey(prefix, key) == EtcdKey(prefix, other)
    ensures if Watcher.HasPrefix(key, prefix) then EtcdKey(prefix, key) == key else CacheKey(prefix, key) == key
  {
    assert (prefix + key)[|prefix|..] == key;
    assert Watcher.HasPrefix(key, prefix) ==> prefix + key[|prefix|..] == key;
    assert Watcher.HasPrefix(other, prefix) ==> prefix + other[|prefix|..] == other;
    assert EtcdKey(prefix, other)[|prefix|..] == CacheKey(prefix, other);
  }

  // ---------- The cache as a value ----------

  /** The cache after an event for the slot `key`: only what is cached changes. */
  function Handled(cache: Cache, key: string, value: Option<string>): Cache {
    if key in cache then cache[key := value] else cache
  }

  /** A put changes what a reader of the cached key sees. */
  predicate Changes(cache: Cache, key: string, value: string) {
    key in cache && cache[key] != Some(value)
  }

  /** The cache after a reader brings in what it fetched: a key cached meanwhile stays as it is. */
  function Inserted(cache: Cache, key: string, value: Option<string>): Cache {
    if key in cache then cache else cache[key := value]
  }

  /** The cache after a reader keeps what etcd answered: a missing key as a tombstone, a failure not at all. */
  function Kept(cache: Cache, key: string, reply: Reply): Cache {
    match reply
    case Found(value) => Inserted(cache, key, Some(value))
    case NotFound => Inserted(cache, key, None)
    case Failed => cache
  }

  /** The cache after `Preload` has taken in the keys it found. */
  function Preloaded(cache: Cache, found: map<string, string>): Cache {
    map k | k in cache.Keys + found.Keys :: if k in found then Some(found[k]) else cache[k]
  }

  /** The hooks are called one after the other, in this order, with the value. */
  predicate IsBatch(calls: seq<Call>, key: string, hooks: seq<Hook>, value: string) {
    |calls| == |hooks| && forall i :: 0 <= i < |calls| ==> calls[i] == Call(key, hooks[i], value)
  }

  function Calling(key: string, hooks: seq<Hook>, value: string): (calls: seq<Call>)
    ensures IsBatch(calls, key, hooks, value)
  {
    seq(|hooks|, i requires 0 <= i < |hooks| => Call(key, hooks[i], value))
  }

  function HooksOf(hooks: map<string, seq<Hook>>, key: string): seq<Hook> {
    if key in hooks then hooks[key] else []
  }

  // ---------- The object ----------

  class Entry {
    var value: string
    var present: bool

    constructor (value: string, present: bool)
      ensures this.value == value && this.present == present
    {
      this.value, this.present := value, present;
    }

    ghost function Slot(): Option<string>
      reads this
    {
      if present then Some(value) else None
    }
  }

  class Kv {
    const prefix: string
    var entries: map<string, Entry>
    var hooks: map<string, seq<Hook>>
    var calls: seq<Call>
    /** The entries that have been made. */
    ghost var owned: set<Entry>

    ghost predicate Valid()
      reads this
    {
      && (forall k :: k in entries ==> entries[k] in owned)
      && forall k, l :: k in entries && l in entries && entries[k] == entries[l] ==> k == l
    }

    ghost function Cached(): Cache
      requires Valid()
      reads this, owned
    {
      map k | k in entries :: entries[k].Slot()
    }

    constructor (prefix: string)
      ensures this.prefix == prefix && Valid() && Cached() == map[] && hooks == map[] && calls == [] && owned == {}
    {
      this.prefix := prefix;
      entries, hooks, calls, owned := map[], map[], [], {};
    }

    method AddEntry(key: string, value: string, present: bool)
      requires Valid() && key !in entries
      modifies this`entries, this`owned
      ensures Valid() && fresh(owned - old(owned))
      ensures Cached() == old(Cached())[key := if present then Some(value) else None]
    {
      var e := new Entry(value, present);
      entries, owned := entries[key := e], owned + {e};
    }

    method SetEntry(key: string, value: string, present: bool)
      requires Valid() && key in entries
      modifies entries[key]
      ensures Valid()
      ensures Cached() == old(Cached())[key := if present then Some(value) else None]
    {
      var e := entries[key];
      e.value := value;
      e.present := present;
    }

    /** The events of other prefixes never come here, so that the key is never cut short. */
    method Handle(event: Change)
      requires Valid() && Watcher.HasPrefix(event.key, prefix)
      modifies this`calls, owned
      ensures Valid() && owned == old(owned) && entries == old(entries)
      ensures var key := event.key[|prefix|..];
              match event
              case Put(_, value) =>
                && Cached() == Handled(old(Cached()), key, Some(value))
                && calls == old(calls) + if Changes(old(Cached()), key, value)
                                         then Calling(key, HooksOf(hooks, key), value) else []
              case Delete(_) => Cached() == Handled(old(Cached()), key, None) && calls == old(calls)
              case Other(_) => Cached() == old(Cached()) && calls == old(calls)
      ensures forall k :: k in Cached() <==> k in old(Cached())
      ensures forall k :: k in Cached() && k != event.key[|prefix|..] ==> Cached()[k] == old(Cached())[k]
      ensures var key := event.key[|prefix|..];
              key in Cached() ==> Cached()[key] == match event
                                                   case Put(_, value) => Some(value)
                                                   case Delete(_) => None
                                                   case Other(_) => old(Cached())[key]
      ensures var key := event.key[|prefix|..];
              if event.Put? && key in old(Cached()) && old(Cached())[key] != Some(event.value)
              then old(calls) <= calls && IsBatch(calls[|old(calls)|..], key, if key in hooks then hooks[key] else [], event.value)
              else calls == old(calls)
    {
      var key := event.key[|prefix|..];
      match event
      case Put(_, value) =>
        if key !in entries {
          return;
        }
        var e := entries[key];
        assert Cached()[key] == e.Slot();
        if !e.present || e.value != value {
          SetEntry(key, value, true);
          RunHooks(key, HooksOf(hooks, key), value);
        }
      case Delete(_) =>
        if key in entries {
          SetEntry(key, "", false);
        }
      case Other(_) =>
    }

    method RunHooks(key: string, toRun: seq<Hook>, value: string)
      modifies this`calls
      ensures calls == old(calls) + Calling(key, toRun, value)
    {
      var i := 0;
      while i < |toRun|
        invariant 0 <= i <= |toRun|
        invariant calls == old(calls) + Calling(key, toRun[..i], value)
      {
        assert Calling(key, toRun[..i + 1], value) == Calling(key, toRun[..i], value) + [Call(key, toRun[i], value)];
        calls := calls + [Call(key, toRun[i], value)];
        i := i + 1;
      }
      assert toRun[..i] == toRun;
    }

    method OnKeyChange(key: string, hook: Hook) returns (ok: bool)
      modifies this`hooks
      ensures ok
      ensures var slot := CacheKey(prefix, key);
              hooks == old(hooks)[slot := (if slot in old(hooks) then old(hooks)[slot] else []) + [hook]]
    {
      var slot := CacheKey(prefix, key);
      hooks := hooks[slot := HooksOf(hooks, slot) + [hook]];
      return true;
    }

    method GetStringFromCache(key: string) returns (value: string, cached: bool, present: bool)
      requires Valid()
      ensures cached <==> key in Cached()
      ensures cached ==> (if present then Some(value) else None) == Cached()[key]
    {
      if key !in entries {
        return "", false, false;
      }
      var e := entries[key];
      return e.value, true, e.present;
    }

    /** Both inserts, `cacheWhenNotFound` and `cacheNilWhenNotFound`. */
    method CacheWhenNotFound(key: string, value: string, present: bool) returns (added: bool)
      requires Valid()
      modifies this`entries, this`owned
      ensures Valid() && fresh(owned - old(owned))
      ensures added <==> key !in old(Cached())
      ensures Cached() == Inserted(old(Cached()), key, if present then Some(value) else None)
      ensures Cached() == if key in old(Cached()) then old(Cached())
                          else old(Cached())[key := if present then Some(value) else None]
    {
      if key in entries {
        return false;
      }
      AddEntry(key, value, present);
      return true;
    }

    /** `GetNoCache` asks for the key whose events go to the slot of this one, whether or not it came with the prefix. */
    method GetNoCache(key: string, etcd: string -> Reply) returns (reply: Reply)
      ensures reply == etcd(prefix + CacheKey(prefix, key))
    {
      SlotsFollowKeys(prefix, key, key);
      return etcd(EtcdKey(prefix, key));
    }

    /** Events and inserts of others, one after the other. */
    method Others(steps: seq<Step>)
      requires Valid() && ForPrefix(prefix, steps)
      modifies this`entries, this`owned, this`calls, owned
      ensures Valid() && fresh(owned - old(owned))
      ensures Cached() == CacheAfter(prefix, old(Cached()), steps)
      ensures calls == old(calls) + CallsDuring(prefix, hooks, old(Cached()), steps)
    {
      ghost var was := Cached();
      var i := 0;
      while i < |steps|
        invariant 0 <= i <= |steps| && Valid() && fresh(owned - old(owned))
        invariant Cached() == CacheAfter(prefix, was, steps[..i])
        invariant calls == old(calls) + CallsDuring(prefix, hooks, was, steps[..i])
      {
        assert steps[..i + 1][..i] == steps[..i];
        CallsStep(prefix, hooks, was, steps[..i + 1], old(calls));
        match steps[i] {
          case Event(change) => Handle(change);
          case Insert(key, value) =>
            var _ := CacheWhenNotFound(key, if value.None? then "" else value.value, value.Some?);
        }
        i := i + 1;
      }
      assert steps[..i] == steps;
    }

    /** `Get`, `GetString` and `UnsafeGet`, where `meanwhile` is what others do between the fetch and the insert.  A key
        that is cached by then keeps its entry, and the reader still gets what it fetched. */
    method GetString(key: string, etcd: string -> Reply, meanwhile: seq<Step>) returns (reply: Reply)
      requires Valid() && ForPrefix(prefix, meanwhile)
      modifies this`entries, this`owned, this`calls, owned
      ensures Valid() && fresh(owned - old(owned))
      ensures reply == Told(old(Cached()), CacheKey(prefix, key), etcd(prefix + CacheKey(prefix, key)))
      ensures CacheKey(prefix, key) in old(Cached()) ==>
                && Cached() == old(Cached()) && calls == old(calls)
                && reply == (match old(Cached())[CacheKey(prefix, key)] case Some(value) => Found(value) case None => NotFound)
      ensures CacheKey(prefix, key) !in old(Cached()) ==>
                && reply == etcd(prefix + CacheKey(prefix, key))
                && Cached() == Kept(CacheAfter(prefix, old(Cached()), meanwhile), CacheKey(prefix, key), reply)
                && calls == old(calls) + CallsDuring(prefix, hooks, old(Cached()), meanwhile)
      ensures CacheKey(prefix, key) !in old(Cached()) ==>
                var slot, before := CacheKey(prefix, key), CacheAfter(prefix, old(Cached()), meanwhile);
                && (slot !in before ==> match reply
                                        case Found(value) => slot in Cached() && Cached()[slot] == Some(value)
                                        case NotFound => slot in Cached() && Cached()[slot] == None
                                        case Failed => slot !in Cached())
                && (slot in before ==> slot in Cached() && Cached()[slot] == before[slot])
                && forall k :: k != slot ==> (k in Cached() <==> k in before) && (k in before ==> Cached()[k] == before[k])
    {
      var slot := CacheKey(prefix, key);
      var value, cached, present := GetStringFromCache(slot);
      if cached {
        return if present then Found(value) else NotFound;
      }
      SlotsFollowKeys(prefix, key, key);
      var realKey := EtcdKey(prefix, key);
      reply := GetNoCache(realKey, etcd);
      Others(meanwhile);
      match reply
      case Failed =>
      case NotFound =>
        var _ := CacheWhenNotFound(slot, "", false);
      case Found(b) =>
        var _ := CacheWhenNotFound(slot, b, true);
    }

    /** The locked part of `Preload`, for the keys that etcd returned, each without its prefix. */
    method Preload(kvs: seq<(string, string)>)
      requires Valid()
      modifies this`entries, this`owned, owned
      ensures Valid() && fresh(owned - old(owned))
      ensures Cached() == Preloaded(old(Cached()), FoundMap(kvs))
      ensures forall k :: k in Cached() <==> k in old(Cached()) || exists i :: 0 <= i < |kvs| && kvs[i].0 == k
      ensures forall i :: IsLastOf(kvs, i) ==> kvs[i].0 in Cached() && Cached()[kvs[i].0] == Some(kvs[i].1)
      ensures forall k :: k in Cached() && (forall i :: 0 <= i < |kvs| ==> kvs[i].0 != k) ==> Cached()[k] == old(Cached())[k]
    {
      ghost var was := Cached();
      var i := 0;
      while i < |kvs|
        invariant 0 <= i <= |kvs| && Valid() && fresh(owned - old(owned))
        invariant Cached() == Preloaded(was, FoundMap(kvs[..i]))
      {
        var (key, value) := kvs[i];
        assert kvs[..i + 1][..i] == kvs[..i];
        PreloadedStep(was, FoundMap(kvs[..i]), key, value);
        if key !in entries {
          AddEntry(key, value, true);
        } else {
          var e := entries[key];
          assert Cached()[key] == e.Slot();
          if !e.present || e.value != value {
            SetEntry(key, value, true);
          }
        }
        i := i + 1;
      }
      assert kvs[..i] == kvs;
      FoundMapIs(kvs);
    }
  }

  /** No later pair has the same key. */
  ghost predicate IsLastOf(kvs: seq<(string, string)>, i: int) {
    0 <= i < |kvs| && forall j :: i < j < |kvs| ==> kvs[j].0 != kvs[i].0
  }

  /** What etcd returned is read back: the keys of the pairs, each with its last value. */
  lemma {:induction false} FoundMapIs(kvs: seq<(string, string)>)
    ensures forall k :: k in FoundMap(kvs) <==> exists i :: 0 <= i < |kvs| && kvs[i].0 == k
    ensures forall i :: IsLastOf(kvs, i) ==> kvs[i].0 in FoundMap(kvs) && FoundMap(kvs)[kvs[i].0] == kvs[i].1
    decreases |kvs|
  {
    if kvs != [] {
      var front, last := kvs[..|kvs| - 1], kvs[|kvs| - 1];
      assert kvs == front + [last];
      FoundMapIs(front);
      forall k ensures k in FoundMap(kvs) <==> exists i :: 0 <= i < |kvs| && kvs[i].0 == k {
        if i :| 0 <= i < |front| && front[i].0 == k {
          assert kvs[i].0 == k;
        }
        assert kvs[|front|].0 == last.0;
      }
      forall i | IsLastOf(kvs, i) ensures kvs[i].0 in FoundMap(kvs) && FoundMap(kvs)[kvs[i].0] == kvs[i].1 {
        if i < |front| {
          assert kvs[|front|].0 != kvs[i].0;
          assert front[i] == kvs[i] && IsLastOf(front, i);
        }
      }
    }
  }

  function FoundMap(kvs: seq<(string, string)>): map<string, string> {
    if kvs == [] then map[] else FoundMap(kvs[..|kvs| - 1])[kvs[|kvs| - 1].0 := kvs[|kvs| - 1].1]
  }

  lemma PreloadedStep(cache: Cache, found: map<string, string>, key: string, value: string)
    ensures Preloaded(cache, found[key := value]) == Preloaded(cache, found)[key := Some(value)]
  {
  }

  // ---------- When hooks fire ----------

  /** What happens to the cache, one locked section at a time. */
  datatype Step = Event(change: Change) | Insert(key: string, value: Option<string>)

  /** The slot that an event of this Kv is for. */
  function SlotOf(prefix: string, change: Change): string
    requires Watcher.HasPrefix(change.key, prefix)
  {
    change.key[|prefix|..]
  }

  predicate ForPrefix(prefix: string, steps: seq<Step>) {
    forall i :: 0 <= i < |steps| && steps[i].Event? ==> Watcher.HasPrefix(steps[i].change.key, prefix)
  }

  function CacheAfter(prefix: string, cache: Cache, steps: seq<Step>): Cache
    requires ForPrefix(prefix, steps)
  {
    if steps == [] then cache
    else
      var before := CacheAfter(prefix, cache, steps[..|steps| - 1]);
      match steps[|steps| - 1]
      case Insert(key, value) => Inserted(before, key, value)
      case Event(Put(k, value)) => Handled(before, k[|prefix|..], Some(value))
      case Event(Delete(k)) => Handled(before, k[|prefix|..], None)
      case Event(Other(_)) => before
  }

  /** The calls that hooks receive meanwhile: all hooks of a slot, in order, at every put that changes what is cached. */
  function CallsDuring(prefix: string, hooks: map<string, seq<Hook>>, cache: Cache, steps: seq<Step>): seq<Call>
    requires ForPrefix(prefix, steps)
  {
    if steps == [] then []
    else
      var front, last := steps[..|steps| - 1], steps[|steps| - 1];
      CallsDuring(prefix, hooks, cache, front) + CallsAt(prefix, hooks, CacheAfter(prefix, cache, front), last)
  }

  function CallsAt(prefix: string, hooks: map<string, seq<Hook>>, cache: Cache, step: Step): seq<Call>
    requires step.Event? ==> Watcher.HasPrefix(step.change.key, prefix)
  {
    if step.Event? && step.change.Put? && Changes(cache, SlotOf(prefix, step.change), step.change.value) then
      Calling(SlotOf(prefix, step.change), HooksOf(hooks, SlotOf(prefix, step.change)), step.change.value)
    else []
  }

  lemma CallsStep(prefix: string, hooks: map<string, seq<Hook>>, cache: Cache, steps: seq<Step>, before: seq<Call>)
    requires steps != [] && ForPrefix(prefix, steps)
    ensures var front, last := steps[..|steps| - 1], steps[|steps| - 1];
            before + CallsDuring(prefix, hooks, cache, front) + CallsAt(prefix, hooks, CacheAfter(prefix, cache, front), last)
            == before + CallsDuring(prefix, hooks, cache, steps)
  {
  }

  /** A step of a run, told slot by slot.  An event touches its own slot if that is cached: a put stores its value, a
      delete leaves a tombstone.  An insert fills a slot that is not cached.  And hooks run exactly at puts that change
      what is cached for the slot, tombstones included: all hooks of the slot, in order, with the new value. */
  lemma StepBySlot(prefix: string, hooks: map<string, seq<Hook>>, cache: Cache, steps: seq<Step>, i: nat)
    requires ForPrefix(prefix, steps) && i < |steps|
    ensures var before, after := CacheAfter(prefix, cache, steps[..i]), CacheAfter(prefix, cache, steps[..i + 1]);
            var made, all := CallsDuring(prefix, hooks, cache, steps[..i]), CallsDuring(prefix, hooks, cache, steps[..i + 1]);
            match steps[i]
            case Event(Put(k, value)) =>
              var slot := k[|prefix|..];
              && after == (if slot in before then before[slot := Some(value)] else before)
              && (if slot in before && after[slot] != before[slot]
                  then made <= all && IsBatch(all[|made|..], slot, if slot in hooks then hooks[slot] else [], value)
                  else all == made)
            case Event(Delete(k)) =>
              var slot := k[|prefix|..];
              after == (if slot in before then before[slot := None] else before) && all == made
            case Event(Other(_)) => after == before && all == made
            case Insert(slot, value) =>
              after == (if slot in before then before else before[slot := value]) && all == made
  {
    assert steps[..i + 1][..i] == steps[..i];
  }

  /** What a reader is told, if etcd's answer would be `fetched`. */
  function Told(cache: Cache, slot: string, fetched: Reply): Reply {
    if slot in cache then (match cache[slot] case Some(value) => Found(value) case None => NotFound) else fetched
  }

  /** A reader that comes after another one, with nothing in between, is told the same, whatever etcd would answer by then,
      unless the first one's fetch failed; then it asks etcd itself. */
  lemma SecondReadAgrees(cache: Cache, slot: string, fetched: Reply, later: Reply)
    ensures var reply := Told(cache, slot, fetched);
            var after := if slot in cache then cache else Kept(cache, slot, fetched);
            Told(after, slot, later) == if reply.Failed? then later else reply
  {
  }

  predicate PutsSlot(prefix: string, step: Step, slot: string) {
    step.Event? && step.change.Put? && Watcher.HasPrefix(step.change.key, prefix) && SlotOf(prefix, step.change) == slot
  }

  predicate DeletesSlot(prefix: string, step: Step, slot: string) {
    step.Event? && step.change.Delete? && Watcher.HasPrefix(step.change.key, prefix) && SlotOf(prefix, step.change) == slot
  }

  /** The hooks of the slot run at step `i`. */
  predicate FiresAt(prefix: string, cache: Cache, steps: seq<Step>, i: int, slot: string)
    requires ForPrefix(prefix, steps)
  {
    && 0 <= i < |steps|
    && PutsSlot(prefix, steps[i], slot)
    && Changes(CacheAfter(prefix, cache, steps[..i]), slot, steps[i].change.value)
  }

  /** Hooks fire twice in a row with the same value only when a delete of the key was handled in between. */
  lemma RepeatNeedsDelete(prefix: string, cache: Cache, steps: seq<Step>, i: int, j: int, slot: string)
    requires ForPrefix(prefix, steps)
    requires i < j && FiresAt(prefix, cache, steps, i, slot) && FiresAt(prefix, cache, steps, j, slot)
    requires forall m :: i < m < j ==> !FiresAt(prefix, cache, steps, m, slot)
    requires steps[i].change.value == steps[j].change.value
    ensures exists m :: i < m < j && DeletesSlot(prefix, steps[m], slot)
  {
    if forall m :: i < m < j ==> !DeletesSlot(prefix, steps[m], slot) {
      ValueStays(prefix, cache, steps, i, j, slot);
    }
  }

  lemma {:induction false} ValueStays(prefix: string, cache: Cache, steps: seq<Step>, i: int, j: int, slot: string)
    requires ForPrefix(prefix, steps)
    requires i < j <= |steps| && FiresAt(prefix, cache, steps, i, slot)
    requires forall m :: i < m < j ==> !FiresAt(prefix, cache, steps, m, slot) && !DeletesSlot(prefix, steps[m], slot)
    ensures var after := CacheAfter(prefix, cache, steps[..j]);
            slot in after && after[slot] == Some(steps[i].change.value)
    decreases j
  {
    assert steps[..j][..j - 1] == steps[..j - 1];
    if j - 1 > i {
      ValueStays(prefix, cache, steps, i, j - 1, slot);
      assert !FiresAt(prefix, cache, steps, j - 1, slot) && !DeletesSlot(prefix, steps[j - 1], slot);
    }
  }
}
