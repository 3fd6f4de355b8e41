/** The cache of one prefix against the history of etcd, with readers, preloads and a watch running side by side:
    `etcdutil/kv.go`.

    A revision is a number of changes made so far, to keys of this prefix, named as the cache names them.  The
    watch delivers the changes in order and late.  A reader that misses fetches the key at some revision and
    inserts what it got in a later step, and a preload does the same for all keys of the prefix. */
module KvCoherence {
  import opened Wrappers
  import opened Kv

  type Value = Option<string>

  datatype Written = Written(key: string, value: Value)

  type Reader = nat

  /** A value fetched at a revision, on its way into the cache. */
  datatype Fetched = Fetched(key: string, revision: nat, value: Value)

  /** `raced` is kept for the statement only: the keys whose last insert came after the watch had already handled a
      newer change of them, with none handled since. */
  datatype State = State(
    history: seq<Written>,
    delivered: nat,
    cache: Cache,
    fetches: map<Reader, Fetched>,
    preloads: map<Reader, nat>,
    raced: set<string>)

  datatype Step =
    | Write(change: Written)
    | Deliver
    | Fetch(reader: Reader, key: string)
    | Fill(reader: Reader)
    | PreloadFetch(reader: Reader)
    | PreloadStore(reader: Reader)

  // ---------- The history ----------

  /** The value of a key once the first `n` changes are made. */
  function At(history: seq<Written>, n: nat, key: string): Value
    requires n <= |history|
  {
    if n == 0 then None
    else if history[n - 1].key == key then history[n - 1].value
    else At(history, n - 1, key)
  }

  /** What becomes of a cached value when the changes from `from` up to `to` are handled. */
  function Replay(history: seq<Written>, from: nat, until: nat, key: string, value: Value): Value
    requires from <= until <= |history|
    decreases until
  {
    if from == until then value
    else if history[until - 1].key == key then history[until - 1].value
    else Replay(history, from, until - 1, key, value)
  }

  ghost predicate ChangedBetween(history: seq<Written>, from: nat, until: nat, key: string)
    requires until <= |history|
  {
    exists i :: from <= i < until && history[i].key == key
  }

  /** The keys that exist at a revision, with their values. */
  ghost function Living(history: seq<Written>, n: nat): map<string, string>
    requires n <= |history|
  {
    map k | k in (set i | 0 <= i < n :: history[i].key) && At(history, n, k).Some? :: At(history, n, k).value
  }

  // ---------- Steps ----------

  predicate Enabled(s: State, step: Step) {
    match step
    case Write(_) => true
    case Deliver => s.delivered < |s.history|
    case Fetch(reader, _) => reader !in s.fetches
    case Fill(reader) => reader in s.fetches
    case PreloadFetch(reader) => reader !in s.preloads
    case PreloadStore(reader) => reader in s.preloads
  }

  /** The watch has handled a change of the key made after that revision. */
  ghost predicate Overtaken(s: State, revision: nat, key: string) {
    exists i :: revision <= i < s.delivered && i < |s.history| && s.history[i].key == key
  }

  ghost function Apply(s: State, step: Step): State
    requires InBounds(s) && Enabled(s, step)
  {
    match step
    case Write(change) => s.(history := s.history + [change])
    case Deliver =>
      var e := s.history[s.delivered];
      s.(delivered := s.delivered + 1, cache := Handled(s.cache, e.key, e.value), raced := s.raced - {e.key})
    case Fetch(reader, key) =>
      var n := |s.history|;
      s.(fetches := s.fetches[reader := Fetched(key, n, At(s.history, n, key))])
    case Fill(reader) =>
      var f := s.fetches[reader];
      s.(fetches := s.fetches - {reader}, cache := Inserted(s.cache, f.key, f.value),
         raced := if f.key !in s.cache && Overtaken(s, f.revision, f.key) then s.raced + {f.key} else s.raced)
    case PreloadFetch(reader) =>
      s.(preloads := s.preloads[reader := |s.history|])
    case PreloadStore(reader) =>
      var found := Living(s.history, s.preloads[reader]);
      s.(preloads := s.preloads - {reader}, cache := Preloaded(s.cache, found),
         raced := (s.raced - found.Keys) + set k | k in found && Overtaken(s, s.preloads[reader], k))
  }

  /** The machine's insert is the one of `Kv.GetString`: a value or a tombstone goes in for a key that is not cached, and
      nothing else changes. */
  lemma FillIsKept(s: State, reader: Reader)
    requires InBounds(s) && reader in s.fetches
    ensures var f, after := s.fetches[reader], Apply(s, Fill(reader)).cache;
            && after == Kept(s.cache, f.key, match f.value case Some(value) => Found(value) case None => NotFound)
            && f.key in after && after[f.key] == (if f.key in s.cache then s.cache[f.key] else f.value)
            && forall k :: k != f.key ==> (k in after <==> k in s.cache) && (k in after ==> after[k] == s.cache[k])
  {
  }

  /** And a preload puts in every key that exists at its revision, with its value, and leaves the others alone. */
  lemma PreloadIsKept(s: State, reader: Reader, key: string)
    requires InBounds(s) && reader in s.preloads
    ensures var then', after := At(s.history, s.preloads[reader], key), Apply(s, PreloadStore(reader)).cache;
            if then'.Some? then key in after && after[key] == then'
            else (key in after <==> key in s.cache) && (key in after ==> after[key] == s.cache[key])
  {
    WrittenIfSome(s.history, s.preloads[reader], key);
  }

  lemma {:induction false} WrittenIfSome(history: seq<Written>, n: nat, key: string)
    requires n <= |history|
    ensures At(history, n, key).Some? ==> exists i :: 0 <= i < n && history[i].key == key
    decreases n
  {
    if n > 0 {
      if history[n - 1].key != key {
        WrittenIfSome(history, n - 1, key);
      } else {
        assert history[n - 1].key == key;
      }
    }
  }

  ghost predicate InBounds(s: State) {
    && s.delivered <= |s.history|
    && (forall r :: r in s.fetches ==> s.fetches[r].revision <= |s.history|)
    && forall r :: r in s.preloads ==> s.preloads[r] <= |s.history|
  }

  // ---------- Coherence ----------

  /** Handling the changes that are still to be delivered turns the entry into etcd's current value. */
  ghost predicate Coherent(s: State, key: string)
    requires InBounds(s) && key in s.cache
  {
    Replay(s.history, s.delivered, |s.history|, key, s.cache[key]) == At(s.history, |s.history|, key)
  }

  /** The key really had this value at some revision. */
  ghost predicate Real(history: seq<Written>, key: string, value: Value) {
    exists n: nat :: n <= |history| && At(history, n, key) == value
  }

  ghost predicate Inv(s: State) {
    && InBounds(s)
    && (forall key :: key in s.cache && key !in s.raced ==> Coherent(s, key))
    && (forall key :: key in s.cache ==> Real(s.history, key, s.cache[key]))
    && (forall r :: r in s.fetches ==> s.fetches[r].value == At(s.history, s.fetches[r].revision, s.fetches[r].key))
  }

  /** The watch is in place, what was preloaded is coherent with it, and nobody is under way. */
  ghost predicate Started(s: State) {
    && s.delivered <= |s.history| && s.fetches == map[] && s.preloads == map[] && s.raced == {}
    && forall key :: key in s.cache ==> Coherent(s, key) && Real(s.history, key, s.cache[key])
  }

  // ---------- About histories ----------

  lemma {:induction false} AtOfLonger(history: seq<Written>, more: seq<Written>, n: nat, key: string)
    requires n <= |history|
    ensures At(history + more, n, key) == At(history, n, key)
    decreases n
  {
    if n > 0 {
      AtOfLonger(history, more, n - 1, key);
    }
  }

  lemma {:induction false} ReplayOfLonger(history: seq<Written>, more: seq<Written>, from: nat, until: nat, key: string, value: Value)
    requires from <= until <= |history|
    ensures Replay(history + more, from, until, key, value) == Replay(history, from, until, key, value)
    decreases until
  {
    if from < until {
      ReplayOfLonger(history, more, from, until - 1, key, value);
    }
  }

  /** The value of a key is that of its last change, and none before the first. */
  lemma {:induction false} AtIsLast(history: seq<Written>, n: nat, key: string)
    requires n <= |history|
    ensures if exists i :: 0 <= i < n && history[i].key == key
            then exists i :: && 0 <= i < n && history[i].key == key && history[i].value == At(history, n, key)
                             && forall j :: i < j < n ==> history[j].key != key
            else At(history, n, key) == None
    decreases n
  {
    if n > 0 {
      if history[n - 1].key == key {
        assert history[n - 1].value == At(history, n, key);
      } else {
        AtIsLast(history, n - 1, key);
      }
    }
  }

  /** Replaying over the value at a revision gives the value at the end, also from before that revision. */
  lemma {:induction false} ReplayIsAt(history: seq<Written>, from: nat, revision: nat, until: nat, key: string)
    requires from <= revision <= until <= |history|
    ensures Replay(history, from, until, key, At(history, revision, key)) == At(history, until, key)
    decreases until
  {
    if from < until && history[until - 1].key != key {
      if revision == until {
        ReplayIsAt(history, from, revision - 1, until - 1, key);
      } else {
        ReplayIsAt(history, from, revision, until - 1, key);
      }
    }
  }

  lemma {:induction false} SameUnlessChanged(history: seq<Written>, from: nat, until: nat, key: string, value: Value)
    requires from <= until <= |history|
    ensures !ChangedBetween(history, from, until, key) ==>
              At(history, until, key) == At(history, from, key) && Replay(history, from, until, key, value) == value
    ensures ChangedBetween(history, from, until, key) ==> Replay(history, from, until, key, value) == At(history, until, key)
    decreases until
  {
    if from < until {
      SameUnlessChanged(history, from, until - 1, key, value);
      if history[until - 1].key != key {
        assert ChangedBetween(history, from, until - 1, key) <==> ChangedBetween(history, from, until, key);
      }
    }
  }

  lemma {:induction false} ReplayFirst(history: seq<Written>, from: nat, until: nat, key: string, value: Value)
    requires from < until <= |history|
    ensures Replay(history, from, until, key, value)
            == Replay(history, from + 1, until, key, if history[from].key == key then history[from].value else value)
    decreases until
  {
    if from + 1 < until {
      ReplayFirst(history, from, until - 1, key, value);
    }
  }

  // ---------- What an insert does ----------

  /** What was fetched at a revision is coherent unless the watch has overtaken it. */
  lemma FetchedIsCoherent(s: State, revision: nat, key: string)
    requires InBounds(s) && revision <= |s.history| && !Overtaken(s, revision, key)
    ensures Replay(s.history, s.delivered, |s.history|, key, At(s.history, revision, key)) == At(s.history, |s.history|, key)
  {
    if revision < s.delivered {
      SameUnlessChanged(s.history, revision, s.delivered, key, None);
      ReplayIsAt(s.history, s.delivered, s.delivered, |s.history|, key);
    } else {
      ReplayIsAt(s.history, s.delivered, revision, |s.history|, key);
    }
  }

  /** An insert that leaves the key stale has been overtaken: the watch had already handled a newer change. */
  lemma StaleIsOvertaken(s: State, reader: Reader)
    requires InBounds(s) && reader in s.fetches && s.fetches[reader].key !in s.cache
    requires var f := s.fetches[reader]; f.value == At(s.history, f.revision, f.key)
    ensures var f := s.fetches[reader];
            InBounds(Apply(s, Fill(reader))) && (!Coherent(Apply(s, Fill(reader)), f.key) ==> Overtaken(s, f.revision, f.key))
  {
    var f := s.fetches[reader];
    if !Overtaken(s, f.revision, f.key) {
      FetchedIsCoherent(s, f.revision, f.key);
    }
  }

  // ---------- Every step ----------

  lemma RealOfLonger(history: seq<Written>, more: seq<Written>, key: string, value: Value)
    requires Real(history, key, value)
    ensures Real(history + more, key, value)
  {
    var n: nat :| n <= |history| && At(history, n, key) == value;
    AtOfLonger(history, more, n, key);
  }

  lemma WriteInv(s: State, change: Written)
    requires Inv(s)
    ensures Inv(Apply(s, Write(change)))
  {
    var s', n := Apply(s, Write(change)), |s.history|;
    forall key | key in s.cache && key !in s.raced ensures Coherent(s', key) {
      assert Coherent(s, key);
      AtOfLonger(s.history, [change], n, key);
      ReplayOfLonger(s.history, [change], s.delivered, n, key, s.cache[key]);
    }
    forall key | key in s.cache ensures Real(s'.history, key, s.cache[key]) {
      RealOfLonger(s.history, [change], key, s.cache[key]);
    }
    forall r | r in s.fetches ensures s.fetches[r].value == At(s'.history, s.fetches[r].revision, s.fetches[r].key) {
      AtOfLonger(s.history, [change], s.fetches[r].revision, s.fetches[r].key);
    }
  }

  lemma DeliverInv(s: State)
    requires Inv(s) && Enabled(s, Deliver)
    ensures Inv(Apply(s, Deliver))
  {
    var s', d, n := Apply(s, Deliver), s.delivered, |s.history|;
    var e := s.history[d];
    forall key | key in s'.cache && key !in s'.raced ensures Coherent(s', key) {
      if key == e.key {
        assert At(s.history, d + 1, key) == e.value;
        ReplayIsAt(s.history, d + 1, d + 1, n, key);
      } else {
        assert Coherent(s, key);
        ReplayFirst(s.history, d, n, key, s.cache[key]);
      }
    }
    forall key | key in s'.cache ensures Real(s.history, key, s'.cache[key]) {
      if key == e.key {
        assert At(s.history, d + 1, key) == e.value;
      } else {
        assert Real(s.history, key, s.cache[key]);
      }
    }
  }

  lemma FillInv(s: State, reader: Reader)
    requires Inv(s) && reader in s.fetches
    ensures Inv(Apply(s, Fill(reader)))
  {
    var s', f := Apply(s, Fill(reader)), s.fetches[reader];
    forall key | key in s'.cache && key !in s'.raced ensures Coherent(s', key) {
      if key in s.cache {
        assert Coherent(s, key);
      } else {
        FetchedIsCoherent(s, f.revision, f.key);
      }
    }
    forall key | key in s'.cache ensures Real(s.history, key, s'.cache[key]) {
      if key in s.cache {
        assert Real(s.history, key, s.cache[key]);
      } else {
        assert At(s.history, f.revision, key) == f.value;
      }
    }
  }

  lemma PreloadInv(s: State, reader: Reader)
    requires Inv(s) && reader in s.preloads
    ensures Inv(Apply(s, PreloadStore(reader)))
  {
    var s', r := Apply(s, PreloadStore(reader)), s.preloads[reader];
    var found := Living(s.history, r);
    forall key | key in s'.cache && key !in s'.raced ensures Coherent(s', key) {
      if key in found {
        FetchedIsCoherent(s, r, key);
      } else {
        assert Coherent(s, key);
      }
    }
    forall key | key in s'.cache ensures Real(s.history, key, s'.cache[key]) {
      if key in found {
        assert At(s.history, r, key) == s'.cache[key];
      } else {
        assert Real(s.history, key, s.cache[key]);
      }
    }
  }

  lemma StepInv(s: State, step: Step)
    requires Inv(s) && Enabled(s, step)
    ensures Inv(Apply(s, step))
  {
    match step
    case Write(change) => WriteInv(s, change);
    case Deliver => DeliverInv(s);
    case Fill(reader) => FillInv(s, reader);
    case PreloadStore(reader) => PreloadInv(s, reader);
    case Fetch(reader, key) =>
      forall k | k in s.cache && k !in s.raced ensures Coherent(Apply(s, step), k) {
        assert Coherent(s, k);
      }
    case PreloadFetch(_) =>
      forall k | k in s.cache && k !in s.raced ensures Coherent(Apply(s, step), k) {
        assert Coherent(s, k);
      }
  }

  // ---------- Whole runs ----------

  ghost predicate Runs(s: State, steps: seq<Step>, t: State)
    decreases |steps|
  {
    if steps == [] then s == t
    else InBounds(s) && Enabled(s, steps[0]) && Runs(Apply(s, steps[0]), steps[1..], t)
  }

  lemma {:induction false} RunKeepsInv(s: State, steps: seq<Step>, t: State)
    requires Inv(s) && Runs(s, steps, t)
    ensures Inv(t)
    decreases |steps|
  {
    if steps != [] {
      StepInv(s, steps[0]);
      RunKeepsInv(Apply(s, steps[0]), steps[1..], t);
    }
  }

  /** In every state that any interleaving reaches, each cached key whose insert was not overtaken is coherent, and
      every cached value is one that the key really had. */
  lemma CacheCoherence(s: State, steps: seq<Step>, t: State)
    requires Started(s) && Runs(s, steps, t)
    ensures InBounds(t)
    ensures forall key :: key in t.cache && key !in t.raced ==> Coherent(t, key)
    ensures forall key :: key in t.cache ==> Real(t.history, key, t.cache[key])
  {
    RunKeepsInv(s, steps, t);
  }

  predicate NoPreloads(steps: seq<Step>) {
    forall i :: 0 <= i < |steps| ==> !steps[i].PreloadStore?
  }

  /** Whatever an entry is at some time, from then on it goes through the changes that the watch delivers, and through
      nothing else while nobody preloads. */
  lemma {:induction false} EntryFollowsWatch(t: State, more: seq<Step>, u: State, key: string)
    requires InBounds(t) && key in t.cache && Runs(t, more, u) && NoPreloads(more)
    ensures InBounds(u) && t.delivered <= u.delivered && t.history <= u.history && key in u.cache
    ensures u.cache[key] == Replay(u.history, t.delivered, u.delivered, key, t.cache[key])
    decreases |more|
  {
    if more != [] {
      var next := Apply(t, more[0]);
      assert !more[0].PreloadStore?;
      EntryFollowsWatch(next, more[1..], u, key);
      if more[0].Deliver? {
        assert u.history[t.delivered] == t.history[t.delivered];
        ReplayFirst(u.history, t.delivered, u.delivered, key, t.cache[key]);
      }
    }
  }

  /** So an entry is coherent, at any later time, exactly when its key has changed again after what the watch had
      delivered when the entry was there first, or the entry was then what the watch had delivered last. */
  lemma CoherentExactlyWhen(t: State, more: seq<Step>, u: State, key: string)
    requires InBounds(t) && key in t.cache && Runs(t, more, u) && NoPreloads(more)
    ensures InBounds(u) && key in u.cache && t.delivered <= |u.history|
    ensures Coherent(u, key) <==>
            ChangedBetween(u.history, t.delivered, |u.history|, key) || t.cache[key] == At(t.history, t.delivered, key)
  {
    EntryFollowsWatch(t, more, u, key);
    var d, n := t.delivered, |u.history|;
    assert u.history == t.history + u.history[|t.history|..];
    AtOfLonger(t.history, u.history[|t.history|..], d, key);
    SameUnlessChanged(u.history, d, u.delivered, key, t.cache[key]);
    SameUnlessChanged(u.history, u.delivered, n, key, u.cache[key]);
    ChangedParts(u.history, d, u.delivered, n, key);
    ReplayIsAt(u.history, u.delivered, u.delivered, n, key);
  }

  lemma ChangedParts(history: seq<Written>, from: nat, mid: nat, until: nat, key: string)
    requires from <= mid <= until <= |history|
    ensures ChangedBetween(history, from, until, key) <==>
            ChangedBetween(history, from, mid, key) || ChangedBetween(history, mid, until, key)
  {
  }

  /** When the watch has delivered everything, an entry is etcd's current value exactly when, at any earlier time since
      the last preload, it was what the watch had delivered last or its key has changed after that; an entry that was
      not overtaken always is. */
  lemma CaughtUpIsCurrent(s: State, steps: seq<Step>, t: State, more: seq<Step>, u: State, key: string)
    requires Started(s) && Runs(s, steps, t) && InBounds(t) && key in t.cache
    requires Runs(t, more, u) && NoPreloads(more) && u.delivered == |u.history|
    ensures InBounds(u) && key in u.cache && t.delivered <= |u.history|
    ensures u.cache[key] == At(u.history, |u.history|, key) <==>
            ChangedBetween(u.history, t.delivered, |u.history|, key) || t.cache[key] == At(t.history, t.delivered, key)
    ensures key !in t.raced ==> u.cache[key] == At(u.history, |u.history|, key)
  {
    CoherentExactlyWhen(t, more, u, key);
    if key !in t.raced {
      NotOvertakenStaysCoherent(s, steps, t, more, u, key);
    }
  }

  lemma NotOvertakenStaysCoherent(s: State, steps: seq<Step>, t: State, more: seq<Step>, u: State, key: string)
    requires Started(s) && Runs(s, steps, t) && key in t.cache && key !in t.raced
    requires Runs(t, more, u) && NoPreloads(more)
    ensures InBounds(u) && key in u.cache && Coherent(u, key)
  {
    RunKeepsInv(s, steps, t);
    RunKeepsInv(t, more, u);
    StaysCoherent(t, more, u, key);
  }

  /** A reader inserts what it fetched.  At any time after, in any run without preloads, the key is stale exactly when
      the value fetched was not the one that the watch had delivered last before the insert, and the key has not changed
      since; and then the insert had been overtaken.  Once the watch has caught up, stale means a wrong value. */
  lemma StaleExactlyWhen(s: State, steps: seq<Step>, t: State, reader: Reader, more: seq<Step>, u: State)
    requires Started(s) && Runs(s, steps, t) && InBounds(t)
    requires reader in t.fetches && t.fetches[reader].key !in t.cache
    requires Runs(Apply(t, Fill(reader)), more, u) && NoPreloads(more)
    ensures var f := t.fetches[reader];
            && InBounds(u) && f.key in u.cache && t.delivered <= |u.history|
            && (!Coherent(u, f.key) <==>
                f.value != At(t.history, t.delivered, f.key) && !ChangedBetween(u.history, t.delivered, |u.history|, f.key))
            && (!Coherent(u, f.key) ==> Overtaken(t, f.revision, f.key))
            && (u.delivered == |u.history| ==> (Coherent(u, f.key) <==> u.cache[f.key] == At(u.history, |u.history|, f.key)))
  {
    RunKeepsInv(s, steps, t);
    var f, filled := t.fetches[reader], Apply(t, Fill(reader));
    CoherentExactlyWhen(filled, more, u, f.key);
    EntryFollowsWatch(filled, more, u, f.key);
    StaleIsOvertaken(t, reader);
    CoherentExactlyWhen(filled, [], filled, f.key);
    if ChangedBetween(t.history, t.delivered, |t.history|, f.key) {
      var i :| t.delivered <= i < |t.history| && t.history[i].key == f.key;
      assert u.history[i].key == f.key;
    }
  }

  /** An overtaken key is coherent again from the next change of it that the watch delivers, and stays so as long as
      no preload writes over it. */
  lemma {:induction false} RegainedAtNextChange(s: State, steps: seq<Step>, t: State, more: seq<Step>, u: State, key: string)
    requires Started(s) && Runs(s, steps, t)
    requires t.delivered < |t.history| && t.history[t.delivered].key == key && key in t.cache
    requires InBounds(t) && Runs(Apply(t, Deliver), more, u)
    requires NoPreloads(more)
    ensures InBounds(u) && key in u.cache && Coherent(u, key)
  {
    RunKeepsInv(s, steps, t);
    StepInv(t, Deliver);
    RunKeepsInv(Apply(t, Deliver), more, u);
    StaysCoherent(Apply(t, Deliver), more, u, key);
  }

  lemma {:induction false} StaysCoherent(t: State, more: seq<Step>, u: State, key: string)
    requires key in t.cache && key !in t.raced && Runs(t, more, u)
    requires NoPreloads(more)
    ensures key in u.cache && key !in u.raced
    decreases |more|
  {
    if more != [] {
      assert !more[0].PreloadStore?;
      StaysCoherent(Apply(t, more[0]), more[1..], u, key);
    }
  }

  /** The race is real: a reader fetches `a`, the key changes to `b` and the watch handles that while the key is not
      cached, and only then the reader inserts `a`.  Everything is delivered and the cache is wrong. */
  lemma StaleForever(key: string)
    ensures exists s, steps, t ::
              && Started(s) && Runs(s, steps, t) && InBounds(t)
              && t.delivered == |t.history| && t.fetches == map[]
              && key in t.cache && t.cache[key] == Some("a") && At(t.history, |t.history|, key) == Some("b")
  {
    var a, b := Written(key, Some("a")), Written(key, Some("b"));
    var s0 := State([a], 1, map[], map[], map[], {});
    var s1 := Apply(s0, Fetch(0, key));
    var s2 := Apply(s1, Write(b));
    var s3 := Apply(s2, Deliver);
    var s4 := Apply(s3, Fill(0));
    assert At(s0.history, 1, key) == Some("a");
    assert s2.history == [a, b];
    assert Runs(s4, [], s4);
    assert [Fill(0)][1..] == [];
    assert Runs(s3, [Fill(0)], s4);
    assert [Deliver, Fill(0)][1..] == [Fill(0)];
    assert Runs(s2, [Deliver, Fill(0)], s4);
    assert [Write(b), Deliver, Fill(0)][1..] == [Deliver, Fill(0)];
    assert Runs(s1, [Write(b), Deliver, Fill(0)], s4);
    var steps := [Fetch(0, key), Write(b), Deliver, Fill(0)];
    assert steps[1..] == [Write(b), Deliver, Fill(0)];
    assert Runs(s0, steps, s4);
    assert s4.fetches == map[];
    assert Started(s0);
  }
}
