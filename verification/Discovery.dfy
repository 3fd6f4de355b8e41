/** Service discovery: the host list of `etcdutil/discovery.go`, kept from put and delete events, and its
    agreement with the registry in etcd. */
module Discovery {
  import opened Wrappers
  import opened RoundRobin

  /** Keys and hosts are strings.  Nothing but their equality, and for hosts their validity, plays a part. */
  type Name(==, !new)

  /** `value` and `previous` are the host strings that a put or a delete event carries. */
  datatype Event = Put(key: Name, value: Name) | Delete(key: Name, previous: Option<Name>) | Other

  /** Whether `net.SplitHostPort` accepts a Name. */
  type Validity = Name -> bool

  function IndexOf(hosts: seq<Name>, host: Name): (i: nat)
    ensures i <= |hosts|
    ensures i < |hosts| <==> host in hosts
    ensures i < |hosts| ==> hosts[i] == host && host !in hosts[..i]
  {
    if hosts == [] || hosts[0] == host then 0 else 1 + IndexOf(hosts[1..], host)
  }

  function Added(hosts: seq<Name>, host: Name): seq<Name> {
    if host in hosts then hosts else hosts + [host]
  }

  function Removed(hosts: seq<Name>, host: Name): seq<Name> {
    var i := IndexOf(hosts, host);
    if i == |hosts| then hosts else hosts[..i] + hosts[i + 1..]
  }

  /** The host list after an event. */
  function Handled(valid: Validity, hosts: seq<Name>, event: Event): seq<Name> {
    match event
    case Put(_, value) => if valid(value) then Added(hosts, value) else hosts
    case Delete(_, Some(previous)) => Removed(hosts, previous)
    case Delete(_, None) => hosts
    case Other => hosts
  }

  class Discovery {
    const valid: Validity
    /** The list is never changed in place: `add` and `del` store a new array. */
    var hosts: array<Name>
    /** A 32-bit counter. */
    var n: nat

    ghost predicate Valid()
      reads this
    {
      n < WORD
    }

    /** `NewDiscovery`, with the values that etcd returned. */
    constructor (valid: Validity, values: seq<Name>)
      ensures this.valid == valid && Valid() && n == 0 && fresh(hosts)
      ensures hosts[..] == ValidOnes(valid, values)
      ensures forall host :: host in hosts[..] <==> valid(host) && host in values
    {
      ValidOnesAre(valid, values);
      this.valid := valid;
      var list := ValidOnes(valid, values);
      hosts := new Name[|list|](i requires 0 <= i < |list| => list[i]);
      n := 0;
    }

    method Resolve() returns (host: Option<Name>)
      requires Valid()
      modifies this`n
      ensures Valid()
      ensures host == if hosts.Length == 0 then None else Some(hosts[Pick(if hosts.Length == 1 then 0 else old(n), hosts.Length)])
      ensures n == if hosts.Length <= 1 then old(n) else (old(n) + 1) % WORD
      ensures hosts.Length == 1 ==> host == Some(hosts[0])
      ensures hosts.Length >= 2 ==> host == Some(hosts[old(n) % hosts.Length])
    {
      if hosts.Length == 0 {
        return None;
      }
      if hosts.Length == 1 {
        return Some(hosts[0]);
      }
      var ticket := n;
      n := (n + 1) % WORD;
      return Some(hosts[Pick(ticket, hosts.Length)]);
    }

    method Handle(event: Event)
      modifies this`hosts
      ensures hosts[..] == Handled(valid, old(hosts[..]), event)
      ensures old(hosts)[..] == old(hosts[..])
      ensures var was := old(hosts[..]);
              match event
              case Put(_, host) => hosts[..] == if valid(host) && host !in was then was + [host] else was
              case Delete(_, Some(host)) => hosts[..] == if host in was then was[..IndexOf(was, host)] + was[IndexOf(was, host) + 1..] else was
              case _ => hosts[..] == was
    {
      match event
      case Put(_, host) =>
        if valid(host) {
          Add(host);
        }
      case Delete(_, Some(previous)) => Del(previous);
      case Delete(_, None) =>
      case Other =>
    }

    /** A snapshot of the list that a reader holds stays as it was. */
    method Add(host: Name)
      modifies this`hosts
      ensures hosts[..] == Added(old(hosts[..]), host)
      ensures old(hosts)[..] == old(hosts[..])
    {
      var p := hosts;
      for i := 0 to p.Length
        invariant host !in p[..i]
      {
        if p[i] == host {
          assert host in p[..];
          return;
        }
      }
      var newHosts := new Name[p.Length + 1](_ => host);
      forall i | 0 <= i < p.Length {
        newHosts[i] := p[i];
      }
      newHosts[p.Length] := host;
      hosts := newHosts;
      assert p[..p.Length] == p[..];
    }

    method Del(host: Name)
      modifies this`hosts
      ensures hosts[..] == Removed(old(hosts[..]), host)
      ensures old(hosts)[..] == old(hosts[..])
    {
      var p := hosts;
      var idx := -1;
      for i := 0 to p.Length
        invariant idx == -1 && host !in p[..i]
      {
        if p[i] == host {
          idx := i;
          break;
        }
      }
      if idx == -1 {
        assert p[..p.Length] == p[..];
        return;
      }
      IndexIs(p[..], host, idx);
      if p.Length == 1 {
        hosts := new Name[0];
      } else {
        hosts := CopyWithout(p, idx);
        assert p[..][..idx] == p[..idx] && p[..][idx + 1..] == p[idx + 1..];
      }
    }

    /** A new array without the element at `idx`. */
    static method CopyWithout(p: array<Name>, idx: nat) returns (newHosts: array<Name>)
      requires idx < p.Length
      ensures fresh(newHosts) && newHosts[..] == p[..idx] + p[idx + 1..]
    {
      var any := p[idx];
      newHosts := new Name[p.Length - 1](_ => any);
      forall i | 0 <= i < idx {
        newHosts[i] := p[i];
      }
      forall i | idx <= i < p.Length - 1 {
        newHosts[i] := p[i + 1];
      }
      assert newHosts[..idx] == p[..idx] && newHosts[idx..] == p[idx + 1..];
      assert newHosts[..] == newHosts[..idx] + newHosts[idx..];
    }
  }

  lemma IndexIs(hosts: seq<Name>, host: Name, i: nat)
    requires i < |hosts| && hosts[i] == host && host !in hosts[..i]
    ensures IndexOf(hosts, host) == i
  {
  }

  function ValidOnes(valid: Validity, values: seq<Name>): seq<Name> {
    if values == [] then []
    else (if valid(values[0]) then [values[0]] else []) + ValidOnes(valid, values[1..])
  }

  lemma {:induction false} ValidOnesAre(valid: Validity, values: seq<Name>)
    ensures forall host :: host in ValidOnes(valid, values) <==> valid(host) && host in values
    ensures NoRepeat(values) ==> NoRepeat(ValidOnes(valid, values))
    decreases |values|
  {
    if values != [] {
      var rest := ValidOnes(valid, values[1..]);
      ValidOnesAre(valid, values[1..]);
      assert values == [values[0]] + values[1..];
      if NoRepeat(values) {
        assert values[0] !in values[1..];
      }
    }
  }

  /** They keep their order. */
  lemma {:induction false} ValidOnesJoin(valid: Validity, a: seq<Name>, b: seq<Name>)
    ensures ValidOnes(valid, a + b) == ValidOnes(valid, a) + ValidOnes(valid, b)
    decreases |a|
  {
    if a == [] {
      assert a + b == b;
    } else {
      assert (a + b)[0] == a[0] && (a + b)[1..] == a[1..] + b;
      ValidOnesJoin(valid, a[1..], b);
      Grouping(if valid(a[0]) then [a[0]] else [], ValidOnes(valid, a[1..]), ValidOnes(valid, b));
    }
  }

  // ---------- The registry ----------

  /** The keys under the service name and their values. */
  type Registry = map<Name, Name>

  /** The event tells what happened to the registry. */
  predicate Happens(registry: Registry, event: Event) {
    match event
    case Put(_, _) => true
    case Delete(key, Some(previous)) => key in registry && registry[key] == previous
    case Delete(key, None) => key in registry
    case Other => true
  }

  function After(registry: Registry, event: Event): Registry {
    match event
    case Put(key, value) => registry[key := value]
    case Delete(key, _) => registry - {key}
    case Other => registry
  }

  predicate NoRepeat(hosts: seq<Name>) {
    forall i, j :: 0 <= i < j < |hosts| ==> hosts[i] != hosts[j]
  }

  /** The list holds the valid hosts of the live keys, each once. */
  ghost predicate Agrees(valid: Validity, hosts: seq<Name>, registry: Registry) {
    NoRepeat(hosts) && forall host :: host in hosts <==> valid(host) && host in registry.Values
  }

  /** No other key than this one has the value. */
  predicate OnlyAt(registry: Registry, key: Name, value: Name) {
    forall k :: k in registry && registry[k] == value ==> k == key
  }

  /** The handler deals with the event as the registry does: a put takes no valid host away from under a key without
      leaving it to another key, and a delete takes away a host that no other key has and that it names. */
  predicate Faithful(valid: Validity, registry: Registry, event: Event) {
    match event
    case Put(key, value) =>
      key in registry && registry[key] != value && valid(registry[key]) ==> !OnlyAt(registry, key, registry[key])
    case Delete(key, previous) =>
      key in registry && valid(registry[key]) ==> (previous.Some? <==> OnlyAt(registry, key, registry[key]))
    case Other => true
  }

  lemma RemovedFacts(hosts: seq<Name>, host: Name)
    requires NoRepeat(hosts)
    ensures NoRepeat(Removed(hosts, host))
    ensures forall h :: h in Removed(hosts, host) <==> h in hosts && h != host
  {
    var i, after := IndexOf(hosts, host), Removed(hosts, host);
    if i < |hosts| {
      forall h | h in hosts && h != host ensures h in after {
        var j :| 0 <= j < |hosts| && hosts[j] == h;
        assert after[if j < i then j else j - 1] == h;
      }
    }
  }

  /** A host is a value after the event if it was one and did not go with the event's key, or has come with it. */
  ghost predicate ValuesRule(registry: Registry, event: Event, host: Name) {
    host in After(registry, event).Values <==>
      match event
      case Other => host in registry.Values
      case _ =>
        var key := event.key;
        || (event.Put? && host == event.value)
        || (host in registry.Values && !(key in registry && registry[key] == host && OnlyAt(registry, key, host)))
  }

  lemma ValuesAfter(registry: Registry, event: Event, host: Name)
    requires Happens(registry, event)
    ensures ValuesRule(registry, event, host)
  {
    var after := After(registry, event);
    if !event.Other? {
      if host in registry.Values && !(event.key in registry && registry[event.key] == host && OnlyAt(registry, event.key, host)) {
        var k :| k in registry && registry[k] == host && k != event.key;
        assert k in after && after[k] == host;
      }
      if event.Put? {
        assert event.key in after && after[event.key] == event.value;
      }
    }
  }

  /** Agreement survives an event exactly when the event is of that kind. */
  lemma AgreesExactlyWhen(valid: Validity, hosts: seq<Name>, registry: Registry, event: Event)
    requires Agrees(valid, hosts, registry) && Happens(registry, event)
    ensures Agrees(valid, Handled(valid, hosts, event), After(registry, event)) <==> Faithful(valid, registry, event)
  {
    forall host ensures ValuesRule(registry, event, host) {
      ValuesAfter(registry, event, host);
    }
    match event
    case Put(key, value) =>
      if !Faithful(valid, registry, event) {
        var gone := registry[key];
        assert gone in registry.Values && gone in Handled(valid, hosts, event);
        assert ValuesRule(registry, event, gone);
      } else {
        forall host
          ensures host in Handled(valid, hosts, event) <==> valid(host) && host in After(registry, event).Values {
          assert ValuesRule(registry, event, host);
        }
      }
    case Delete(key, previous) =>
      var v := registry[key];
      assert v in registry.Values && ValuesRule(registry, event, v);
      RemovedFacts(hosts, v);
      if Faithful(valid, registry, event) {
        forall host
          ensures host in Handled(valid, hosts, event) <==> valid(host) && host in After(registry, event).Values {
          assert ValuesRule(registry, event, host);
        }
      } else {
        assert v in Handled(valid, hosts, event) <==> previous.None?;
      }
    case Other =>
  }

  /** The list that a discovery starts with agrees with the registry it was read from, if no two keys share a host, and it
      then is the values of these keys in their order. */
  lemma StartAgrees(valid: Validity, registry: Registry, keys: seq<Name>)
    requires Lists(keys, registry)
    ensures Agrees(valid, ValidOnes(valid, HostsOf(registry, keys)), registry)
    ensures (forall key :: key in keys ==> valid(registry[key])) ==>
              ValidOnes(valid, HostsOf(registry, keys)) == HostsOf(registry, keys)
  {
    var values := HostsOf(registry, keys);
    ValidOnesAre(valid, values);
    forall host ensures host in values <==> host in registry.Values {
      if key :| key in registry && registry[key] == host {
        assert key in keys;
        var i :| 0 <= i < |keys| && keys[i] == key;
        assert values[i] == host;
      }
    }
    if forall key :: key in keys ==> valid(registry[key]) {
      AllValid(valid, values);
    }
  }

  lemma {:induction false} AllValid(valid: Validity, values: seq<Name>)
    requires forall i :: 0 <= i < |values| ==> valid(values[i])
    ensures ValidOnes(valid, values) == values
    decreases |values|
  {
    if values != [] {
      AllValid(valid, values[1..]);
    }
  }

  // ---------- Whole runs ----------

  function AfterAll(registry: Registry, events: seq<Event>): Registry
    decreases |events|
  {
    if events == [] then registry else AfterAll(After(registry, events[0]), events[1..])
  }

  ghost predicate Happen(registry: Registry, events: seq<Event>)
    decreases |events|
  {
    events != [] ==> Happens(registry, events[0]) && Happen(After(registry, events[0]), events[1..])
  }

  /** Every event is dealt with as the registry does it at its time. */
  ghost predicate AllFaithful(valid: Validity, registry: Registry, events: seq<Event>)
    decreases |events|
  {
    events != [] ==> Faithful(valid, registry, events[0]) && AllFaithful(valid, After(registry, events[0]), events[1..])
  }

  /** The list agrees with the registry at the start and after every event. */
  ghost predicate AgreesThroughout(valid: Validity, hosts: seq<Name>, registry: Registry, events: seq<Event>)
    decreases |events|
  {
    && Agrees(valid, hosts, registry)
    && (events != [] ==> AgreesThroughout(valid, Handled(valid, hosts, events[0]), After(registry, events[0]), events[1..]))
  }

  /** Over any run the list agrees with the registry all along exactly when every event is of that kind at its time. */
  lemma {:induction false} AgreesThroughoutExactlyWhen(valid: Validity, hosts: seq<Name>, registry: Registry,
                                                       events: seq<Event>)
    requires Agrees(valid, hosts, registry) && Happen(registry, events)
    ensures AgreesThroughout(valid, hosts, registry, events) <==> AllFaithful(valid, registry, events)
    decreases |events|
  {
    if events != [] {
      AgreesExactlyWhen(valid, hosts, registry, events[0]);
      if Faithful(valid, registry, events[0]) {
        AgreesThroughoutExactlyWhen(valid, Handled(valid, hosts, events[0]), After(registry, events[0]), events[1..]);
      }
    }
  }

  // ---------- Runs of registrars ----------

  /** What registrars and the watch make of live keys: a put names a valid host that is the key's own if the key is
      live, and no other live key's; a delete takes away a live key and names its host. */
  ghost predicate ByRegistrars(valid: Validity, registry: Registry, event: Event) {
    match event
    case Put(key, value) => valid(value) && forall k :: k in registry ==> (registry[k] == value <==> k == key)
    case Delete(key, previous) => key in registry && previous == Some(registry[key])
    case Other => true
  }

  /** Every event of the run is of that kind at its time.  A key may come back, and so may a host under a new key, once
      the older key is gone. */
  ghost predicate RunByRegistrars(valid: Validity, registry: Registry, events: seq<Event>)
    decreases |events|
  {
    events != [] ==>
      ByRegistrars(valid, registry, events[0]) && RunByRegistrars(valid, After(registry, events[0]), events[1..])
  }

  /** The live keys in the order of their registration; putting a live key again does not move it. */
  function KeysAfter(keys: seq<Name>, event: Event): seq<Name> {
    match event
    case Put(key, _) => Added(keys, key)
    case Delete(key, _) => Removed(keys, key)
    case Other => keys
  }

  function LiveKeys(keys: seq<Name>, events: seq<Event>): seq<Name>
    decreases |events|
  {
    if events == [] then keys else LiveKeys(KeysAfter(keys, events[0]), events[1..])
  }

  function HandleAll(valid: Validity, hosts: seq<Name>, events: seq<Event>): seq<Name>
    decreases |events|
  {
    if events == [] then hosts else HandleAll(valid, Handled(valid, hosts, events[0]), events[1..])
  }

  /** The keys are those of the registry, each once, and they have different hosts. */
  ghost predicate Lists(keys: seq<Name>, registry: Registry) {
    && NoRepeat(keys) && (forall key :: key in keys <==> key in registry)
    && forall i, j :: 0 <= i < j < |keys| ==> registry[keys[i]] != registry[keys[j]]
  }

  ghost function HostsOf(registry: Registry, keys: seq<Name>): (hosts: seq<Name>)
    requires forall key :: key in keys ==> key in registry
    ensures |hosts| == |keys| && forall i :: 0 <= i < |hosts| ==> hosts[i] == registry[keys[i]]
  {
    seq(|keys|, i requires 0 <= i < |keys| => registry[keys[i]])
  }

  lemma PutStep(valid: Validity, registry: Registry, keys: seq<Name>, key: Name, value: Name)
    requires Lists(keys, registry) && ByRegistrars(valid, registry, Put(key, value))
    ensures var after := registry[key := value];
            && Lists(Added(keys, key), after)
            && HostsOf(after, Added(keys, key)) == Added(HostsOf(registry, keys), value)
  {
    var hosts := HostsOf(registry, keys);
    if key in keys {
      var i :| 0 <= i < |keys| && keys[i] == key;
      assert hosts[i] == value && registry[key := value] == registry;
    } else {
      forall i | 0 <= i < |keys| ensures registry[keys[i]] != value {
        assert keys[i] in keys;
      }
    }
  }

  lemma DeleteStep(registry: Registry, keys: seq<Name>, key: Name)
    requires Lists(keys, registry) && key in registry
    ensures Lists(Removed(keys, key), registry - {key})
    ensures HostsOf(registry - {key}, Removed(keys, key)) == Removed(HostsOf(registry, keys), registry[key])
  {
    RemovedLists(registry, keys, key);
    HostIndex(registry, keys, key);
    var i, hosts := IndexOf(keys, key), HostsOf(registry, keys);
    assert Removed(hosts, registry[key]) == hosts[..i] + hosts[i + 1..];
    HostsCut(registry, registry - {key}, keys, Removed(keys, key), i);
  }

  lemma HostIndex(registry: Registry, keys: seq<Name>, key: Name)
    requires Lists(keys, registry) && key in registry
    ensures IndexOf(HostsOf(registry, keys), registry[key]) == IndexOf(keys, key) < |keys|
  {
    var i, hosts := IndexOf(keys, key), HostsOf(registry, keys);
    forall j | 0 <= j < i ensures hosts[j] != registry[key] {
      assert hosts[j] == registry[keys[j]] && hosts[i] == registry[keys[i]];
    }
    IndexIs(hosts, registry[key], i);
  }

  lemma HostsCut(registry: Registry, after: Registry, keys: seq<Name>, gone: seq<Name>, i: nat)
    requires Lists(keys, registry) && Lists(gone, after) && after.Keys <= registry.Keys
    requires forall key :: key in after ==> after[key] == registry[key]
    requires i < |keys| && gone == keys[..i] + keys[i + 1..]
    ensures var hosts := HostsOf(registry, keys); HostsOf(after, gone) == hosts[..i] + hosts[i + 1..]
  {
    var hosts := HostsOf(registry, keys);
    CutAt(keys, i);
    CutAt(hosts, i);
    forall j | 0 <= j < |gone| ensures HostsOf(after, gone)[j] == (hosts[..i] + hosts[i + 1..])[j] {
      assert gone[j] in gone && gone[j] == keys[Uncut(i, j)];
    }
  }

  lemma CutAt<T>(s: seq<T>, i: nat)
    requires i < |s|
    ensures var after := s[..i] + s[i + 1..];
            |after| == |s| - 1 && forall j :: 0 <= j < |after| ==> after[j] == s[Uncut(i, j)]
  {
  }

  /** Where an element stood before the one at `i` was taken out. */
  function Uncut(i: nat, j: nat): nat {
    if j < i then j else j + 1
  }

  lemma RemovedLists(registry: Registry, keys: seq<Name>, key: Name)
    requires Lists(keys, registry) && key in registry
    ensures Lists(Removed(keys, key), registry - {key})
  {
    var i, gone := IndexOf(keys, key), Removed(keys, key);
    RemovedFacts(keys, key);
    CutAt(keys, i);
    forall j, k | 0 <= j < k < |gone| ensures registry[gone[j]] != registry[gone[k]] {
      assert Uncut(i, j) < Uncut(i, k);
    }
  }

  /** Over any run of registrations, renewals and deregistrations, restarts under new keys included, the list is exactly
      the hosts of the live keys, in the order of registration and without repetition. */
  lemma {:induction false} HostsAreLive(valid: Validity, registry: Registry, keys: seq<Name>, events: seq<Event>)
    requires Lists(keys, registry) && RunByRegistrars(valid, registry, events)
    ensures var live, after := LiveKeys(keys, events), AfterAll(registry, events);
            && Lists(live, after) && HandleAll(valid, HostsOf(registry, keys), events) == HostsOf(after, live)
            && NoRepeat(HostsOf(after, live))
    decreases |events|
  {
    if events != [] {
      match events[0] {
        case Put(key, value) => PutStep(valid, registry, keys, key, value);
        case Delete(key, _) => DeleteStep(registry, keys, key);
        case Other =>
      }
      HostsAreLive(valid, After(registry, events[0]), KeysAfter(keys, events[0]), events[1..]);
    }
  }

  /** A service that stops and starts again, with a new key for the same host, is such a run. */
  lemma RestartIsSuchARun(valid: Validity, old': Name, new': Name, host: Name)
    requires old' != new' && valid(host)
    ensures var events := [Put(old', host), Delete(old', Some(host)), Put(new', host)];
            RunByRegistrars(valid, map[], events) && HandleAll(valid, [], events) == [host]
  {
    var events := [Put(old', host), Delete(old', Some(host)), Put(new', host)];
    assert events[1..] == [Delete(old', Some(host)), Put(new', host)] && events[1..][1..] == [Put(new', host)];
    assert [Put(new', host)][1..] == [];
    var one := After(map[], events[0]);
    assert After(one, events[1]) == map[];
    assert RunByRegistrars(valid, map[], [Put(new', host)]);
    assert RunByRegistrars(valid, one, events[1..]);
    HandleTwo(valid, [], events[0], events[1], [events[2]]);
    assert [events[0], events[1]] + [events[2]] == events;
    assert IndexOf([host], host) == 0 && Removed([host], host) == [];
    HandleTwo(valid, [], events[2], Other, []);
  }

  /** Other clients of etcd can break the agreement: a put that replaces a key's host leaves the old one in the list,
      and deleting one of two keys with the same host takes it off the list. */
  lemma ForeignPutsBreakAgreement(valid: Validity, a: Name, b: Name, h: Name, g: Name)
    requires a != b && h != g && valid(h) && valid(g)
    ensures var events := [Put(a, h), Put(a, g)]; h in HandleAll(valid, [], events)
    ensures var events := [Put(a, h), Put(b, h), Delete(a, Some(h))]; HandleAll(valid, [], events) == []
  {
    HandleTwo(valid, [], Put(a, h), Put(a, g), []);
    assert [Put(a, h), Put(a, g)] + [] == [Put(a, h), Put(a, g)];
    assert Added(Added([], h), g) == [h, g];
    HandleTwo(valid, [], Put(a, h), Put(b, h), [Delete(a, Some(h))]);
    assert Added(Added([], h), h) == [h];
    HandleTwo(valid, [h], Delete(a, Some(h)), Other, []);
    assert IndexOf([h], h) == 0 && Removed([h], h) == [];
    assert [Delete(a, Some(h))][1..] == [];
  }

  lemma HandleTwo(valid: Validity, hosts: seq<Name>, e: Event, f: Event, more: seq<Event>)
    ensures HandleAll(valid, hosts, [e, f] + more) == HandleAll(valid, Handled(valid, Handled(valid, hosts, e), f), more)
  {
    assert ([e, f] + more)[1..] == [f] + more && ([f] + more)[1..] == more;
  }
}
