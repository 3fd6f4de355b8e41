/** The etcd driver: the rule loop of `NewAdvanced`, `OnKeyChange` and `Close` in `config/driver/etcd/etcd.go`, over
    the caches of `Kv` and the watches of `Watcher`.  What etcd answers to the preload of a path is a parameter. */
module EtcdDriver {
  import opened Wrappers
  import opened Rules
  import Kv
  import Watcher

  type Store = string -> Option<seq<(string, string)>>

  /** The cache of a path right after the rules have been read. */
  ghost function Loaded(path: string, preload: bool, store: Store): Kv.Cache {
    if preload && store(path).Some? then Kv.Preloaded(map[], Kv.FoundMap(store(path).value)) else map[]
  }

  /** After a preload a cache holds the keys that etcd returned, each with its last value, and no others; without one it
      holds nothing. */
  lemma LoadedIs(path: string, preload: bool, store: Store, key: string)
    ensures !preload || store(path).None? ==> key !in Loaded(path, preload, store)
    ensures preload && store(path).Some? ==>
              var kvs := store(path).value;
              && (key in Loaded(path, preload, store) <==> exists i :: 0 <= i < |kvs| && kvs[i].0 == key)
              && forall i :: Kv.IsLastOf(kvs, i) && kvs[i].0 == key ==> Loaded(path, preload, store)[key] == Some(kvs[i].1)
  {
    if store(path).Some? {
      Kv.FoundMapIs(store(path).value);
    }
  }

  ghost predicate PreloadWorks(rules: seq<Rule>, preload: bool, store: Store) {
    preload ==> forall i :: 0 <= i < |rules| ==> store(rules[i].path).Some?
  }

  /** The watched paths, each once, in the order in which the rules first ask to watch them. */
  function WatchOrder(rules: seq<Rule>): seq<string> {
    if rules == [] then []
    else
      var front, last := WatchOrder(rules[..|rules| - 1]), rules[|rules| - 1];
      if last.watch && last.path !in front then front + [last.path] else front
  }

  /** Later rules come later: they add to what earlier ones watch, at the end. */
  lemma {:induction false} WatchOrderGrows(rules: seq<Rule>, more: seq<Rule>)
    ensures WatchOrder(rules) <= WatchOrder(rules + more)
    decreases |more|
  {
    if more == [] {
      assert rules + more == rules;
    } else {
      assert (rules + more)[..|rules + more| - 1] == rules + more[..|more| - 1];
      WatchOrderGrows(rules, more[..|more| - 1]);
    }
  }

  /** The caches of these paths as observers, numbered in the order of attachment. */
  function Numbered(paths: seq<string>): (r: seq<Watcher.Observer>)
    ensures |r| == |paths| && forall i :: 0 <= i < |r| ==> r[i] == Watcher.Observer(i, paths[i])
  {
    seq(|paths|, i requires 0 <= i < |paths| => Watcher.Observer(i, paths[i]))
  }

  lemma {:induction false} WatchOrderFacts(rules: seq<Rule>)
    ensures forall p :: p in WatchOrder(rules) <==> WatchedBy(rules, p)
    ensures forall i, j :: 0 <= i < j < |WatchOrder(rules)| ==> WatchOrder(rules)[i] != WatchOrder(rules)[j]
    ensures WatchOrder(rules) == [] <==> !AnyWatch(rules)
    decreases |rules|
  {
    if rules != [] {
      var front, last := rules[..|rules| - 1], rules[|rules| - 1];
      assert rules == front + [last];
      WatchOrderFacts(front);
      AnyWatchStep(front, last);
      forall p ensures p in WatchOrder(rules) <==> WatchedBy(rules, p) {
        WatchedByStep(front, last, p);
      }
    }
  }

  ghost function PathsOf(nodes: map<Namespace, Kv.Kv>): map<Namespace, string> {
    map np | np in nodes :: nodes[np].prefix
  }

  /** A new cache for this path, holding what the preload found and no hooks. */
  ghost predicate Fresh(node: Kv.Kv, path: string, preload: bool, store: Store)
    reads node, node.owned
  {
    && node.prefix == path && node.Valid()
    && node.Cached() == Loaded(path, preload, store) && node.hooks == map[] && node.calls == []
  }

  /** The entries of these caches. */
  ghost function Owned<K>(nodes: map<K, Kv.Kv>): set<Kv.Entry>
    reads nodes.Values
  {
    set np, e | np in nodes && e in nodes[np].owned :: e
  }

  /** Every namespace leads to the cache of the path of the rule it follows, and two namespaces share a cache exactly
      when they have the same path. */
  ghost predicate Built(rules: seq<Rule>, preload: bool, store: Store, nodes: map<Namespace, Kv.Kv>)
    reads nodes.Values, Owned(nodes)
  {
    && Placed(rules, PathsOf(nodes))
    && (forall np, nq :: np in nodes && nq in nodes ==> (nodes[np] == nodes[nq] <==> nodes[np].prefix == nodes[nq].prefix))
    && forall np :: np in nodes ==> Fresh(nodes[np], nodes[np].prefix, preload, store)
  }

  class Driver {
    const closeClient: bool
    var closed: bool
    var namespace2node: map<Namespace, Kv.Kv>
    var watcher: Watcher.Watcher?
    /** How often the client has been closed, and the context of the watches been cancelled. */
    var clientCloses: nat
    var cancels: nat

    constructor (closeClient: bool)
      ensures this.closeClient == closeClient && !closed && clientCloses == 0 && cancels == 0
      ensures namespace2node == map[] && watcher == null
    {
      this.closeClient := closeClient;
      closed, clientCloses, cancels, namespace2node, watcher := false, 0, 0, map[], null;
    }

    /** `NewAdvanced`, from where the client has been made.  When no rule has a namespace, the client stays open. */
    static method New(rules: seq<Rule>, commonPrefixMinLen: int, preload: bool, closeClient: bool, store: Store)
      returns (d: Driver, ok: bool)
      ensures fresh(d) && !d.closed && d.cancels == 0 && d.closeClient == closeClient
      ensures ok <==> PreloadWorks(rules, preload, store) && AnyNamespace(rules)
      ensures d.clientCloses == if closeClient && !PreloadWorks(rules, preload, store) then 1 else 0
      ensures ok ==> Built(rules, preload, store, d.namespace2node)
      ensures ok ==> (d.watcher != null <==> AnyWatch(rules))
      ensures ok && d.watcher != null ==>
                && d.watcher.Valid() && d.watcher.observers == Numbered(WatchOrder(rules))
                && d.watcher.commonPrefixMinLen == if commonPrefixMinLen <= 0 then 4 else commonPrefixMinLen
    {
      d := new Driver(closeClient);
      var watcher := new Watcher.Watcher(if commonPrefixMinLen <= 0 then 4 else commonPrefixMinLen);
      ok := d.Start(rules, preload, store, watcher);
    }

    method Start(rules: seq<Rule>, preload: bool, store: Store, watcher: Watcher.Watcher) returns (ok: bool)
      requires namespace2node == map[] && this.watcher == null && watcher.Valid() && watcher.observers == []
      modifies this`namespace2node, this`clientCloses, this`watcher, watcher`observers, watcher`prefixes
      ensures ok <==> PreloadWorks(rules, preload, store) && AnyNamespace(rules)
      ensures clientCloses == old(clientCloses) + if closeClient && !PreloadWorks(rules, preload, store) then 1 else 0
      ensures ok ==> Built(rules, preload, store, namespace2node)
      ensures ok ==> this.watcher == if AnyWatch(rules) then watcher else null
      ensures ok ==> watcher.Valid() && watcher.observers == Numbered(WatchOrder(rules))
    {
      ok := LoadRules(rules, preload, store, watcher);
      if !ok {
        return;
      }
      NamespacesMapped(rules, namespace2node);
      WatchOrderFacts(rules);
      if |namespace2node| == 0 {
        return false;
      }
      if |watcher.observers| > 0 {
        this.watcher := watcher;
      }
    }

    /** The loop over the rules. */
    method LoadRules(rules: seq<Rule>, preload: bool, store: Store, watcher: Watcher.Watcher) returns (ok: bool)
      requires namespace2node == map[] && watcher.Valid() && watcher.observers == []
      modifies this`namespace2node, this`clientCloses, watcher`observers, watcher`prefixes
      ensures ok <==> PreloadWorks(rules, preload, store)
      ensures clientCloses == old(clientCloses) + if !ok && closeClient then 1 else 0
      ensures ok ==> Built(rules, preload, store, namespace2node)
      ensures ok ==> watcher.Valid() && watcher.observers == Numbered(WatchOrder(rules))
    {
      var path2node: map<string, Kv.Kv> := map[];
      var watchPath: set<string> := {};
      var i := 0;
      while i < |rules|
        invariant 0 <= i <= |rules|
        invariant clientCloses == old(clientCloses)
        invariant PreloadWorks(rules[..i], preload, store)
        invariant Mapped(rules[..i], path2node, namespace2node)
        invariant AllFresh(path2node, preload, store)
        invariant watchPath == (set p | p in WatchOrder(rules[..i]))
        invariant watcher.Valid() && watcher.observers == Numbered(WatchOrder(rules[..i]))
      {
        assert rules[..i + 1] == rules[..i] + [rules[i]];
        path2node, ok := AddRule(rules[..i], rules[i], path2node, preload, store);
        if !ok {
          if closeClient {
            clientCloses := clientCloses + 1;
          }
          return;
        }
        watchPath := WatchRule(rules[..i], rules[i], watchPath, watcher);
        i := i + 1;
      }
      assert rules[..i] == rules;
      ok := true;
    }

    /** The body of the loop, without watching. */
    method AddRule(ghost rules: seq<Rule>, cfg: Rule, path2node: map<string, Kv.Kv>, preload: bool, store: Store)
      returns (path2node': map<string, Kv.Kv>, ok: bool)
      requires Mapped(rules, path2node, namespace2node) && AllFresh(path2node, preload, store)
      requires PreloadWorks(rules, preload, store)
      modifies this`namespace2node
      ensures ok <==> PreloadWorks(rules + [cfg], preload, store)
      ensures ok ==> Mapped(rules + [cfg], path2node', namespace2node) && AllFresh(path2node', preload, store)
    {
      path2node', ok := path2node, true;
      PreloadStep(rules, cfg, preload, store);
      if cfg.path !in path2node {
        var node;
        node, ok := NewNode(cfg.path, preload, store);
        if !ok {
          return;
        }
        path2node' := path2node[cfg.path := node];
      }
      MappedStep(rules, cfg, path2node, path2node', namespace2node);
      Bind(cfg.namespaces, path2node'[cfg.path]);
    }

    /** A path is attached when the first rule asks to watch it. */
    method WatchRule(ghost rules: seq<Rule>, cfg: Rule, watchPath: set<string>, watcher: Watcher.Watcher)
      returns (watchPath': set<string>)
      requires watchPath == (set p | p in WatchOrder(rules))
      requires watcher.Valid() && watcher.observers == Numbered(WatchOrder(rules))
      modifies watcher`observers, watcher`prefixes
      ensures watchPath' == set p | p in WatchOrder(rules + [cfg])
      ensures watcher.Valid() && watcher.observers == Numbered(WatchOrder(rules + [cfg]))
    {
      watchPath' := watchPath;
      assert (rules + [cfg])[..|rules|] == rules;
      if cfg.watch && cfg.path !in watchPath {
        watchPath' := watchPath + {cfg.path};
        watcher.Attach(Watcher.Observer(|watcher.observers|, cfg.path));
      }
    }

    /** The cache of a path that no earlier rule has. */
    method NewNode(path: string, preload: bool, store: Store) returns (node: Kv.Kv, ok: bool)
      ensures ok <==> !preload || store(path).Some?
      ensures fresh(node) && fresh(node.owned)
      ensures ok ==> Fresh(node, path, preload, store)
    {
      node := new Kv.Kv(path);
      ok := true;
      if preload {
        match store(path)
        case None => ok := false;
        case Some(kvs) => node.Preload(kvs);
      }
    }

    method Bind(namespaces: seq<Namespace>, node: Kv.Kv)
      modifies this`namespace2node
      ensures namespace2node == Bound(old(namespace2node), namespaces, node)
    {
      var i := 0;
      while i < |namespaces|
        invariant 0 <= i <= |namespaces|
        invariant namespace2node == Bound(old(namespace2node), namespaces[..i], node)
      {
        assert namespaces[..i + 1] == namespaces[..i] + [namespaces[i]];
        namespace2node := namespace2node[namespaces[i] := node];
        i := i + 1;
      }
      assert namespaces[..i] == namespaces;
    }

    ghost function Target(namespace: Namespace): set<Kv.Kv>
      reads this
    {
      if namespace in namespace2node then {namespace2node[namespace]} else {}
    }

    /** A hook is taken exactly when the namespace is known and the path of its cache is watched; it then goes to
        that cache and to no other. */
    method OnKeyChange(namespace: Namespace, key: string, hook: Kv.Hook) returns (ok: bool)
      requires watcher != null
      modifies Target(namespace)`hooks
      ensures ok <==> && namespace in namespace2node
                      && exists i :: 0 <= i < |watcher.observers| && watcher.observers[i].prefix == namespace2node[namespace].prefix
      ensures namespace in namespace2node ==>
                var node := namespace2node[namespace];
                var slot := Kv.CacheKey(node.prefix, key);
                node.hooks == if ok then old(node.hooks)[slot := Kv.HooksOf(old(node.hooks), slot) + [hook]]
                              else old(node.hooks)
    {
      if namespace !in namespace2node {
        return false;
      }
      var node := namespace2node[namespace];
      var observed := watcher.HasObserver(node.prefix);
      if !observed {
        return false;
      }
      ok := node.OnKeyChange(key, hook);
    }

    method Close()
      modifies this`closed, this`clientCloses, this`cancels
      ensures closed
      ensures cancels == old(cancels) + if old(closed) then 0 else 1
      ensures clientCloses == old(clientCloses) + if !old(closed) && closeClient then 1 else 0
    {
      if closed {
        return;
      }
      if closeClient {
        clientCloses := clientCloses + 1;
      }
      cancels := cancels + 1;
      closed := true;
    }
  }

  /** There is one cache for each path, and the namespaces share them. */
  ghost predicate Mapped(rules: seq<Rule>, path2node: map<string, Kv.Kv>, nodes: map<Namespace, Kv.Kv>) {
    path2node.Keys == Paths(rules) && Shared(path2node, nodes) && Placed(rules, PathsOf(nodes))
  }

  ghost predicate Shared(path2node: map<string, Kv.Kv>, nodes: map<Namespace, Kv.Kv>) {
    && (forall p :: p in path2node ==> path2node[p].prefix == p)
    && forall np :: np in nodes ==> nodes[np].prefix in path2node && path2node[nodes[np].prefix] == nodes[np]
  }

  ghost predicate AllFresh(path2node: map<string, Kv.Kv>, preload: bool, store: Store)
    reads path2node.Values, Owned(path2node)
  {
    forall p :: p in path2node ==> Fresh(path2node[p], p, preload, store)
  }

  lemma MappedStep(rules: seq<Rule>, rule: Rule, path2node: map<string, Kv.Kv>, path2node': map<string, Kv.Kv>,
                   nodes: map<Namespace, Kv.Kv>)
    requires Mapped(rules, path2node, nodes)
    requires rule.path in path2node' && path2node'[rule.path].prefix == rule.path
    requires path2node' == if rule.path in path2node then path2node else path2node[rule.path := path2node'[rule.path]]
    ensures Mapped(rules + [rule], path2node', Bound(nodes, rule.namespaces, path2node'[rule.path]))
  {
    PathsStep(rules, rule);
    PlacedStep(rules, PathsOf(nodes), rule);
    SharedStep(path2node, path2node', nodes, rule.namespaces, rule.path);
  }

  lemma SharedStep(path2node: map<string, Kv.Kv>, path2node': map<string, Kv.Kv>, nodes: map<Namespace, Kv.Kv>,
                   namespaces: seq<Namespace>, path: string)
    requires Shared(path2node, nodes) && path in path2node' && path2node'[path].prefix == path
    requires path2node' == if path in path2node then path2node else path2node[path := path2node'[path]]
    ensures Shared(path2node', Bound(nodes, namespaces, path2node'[path]))
    ensures PathsOf(Bound(nodes, namespaces, path2node'[path])) == Bound(PathsOf(nodes), namespaces, path)
  {
  }

  lemma NamespacesMapped(rules: seq<Rule>, nodes: map<Namespace, Kv.Kv>)
    requires Placed(rules, PathsOf(nodes))
    ensures |nodes| == 0 <==> !AnyNamespace(rules)
  {
    NamespacesPlaced(rules, PathsOf(nodes));
    assert PathsOf(nodes).Keys == nodes.Keys;
    assert |nodes| == |nodes.Keys| && |PathsOf(nodes)| == |PathsOf(nodes).Keys|;
  }

  lemma PreloadStep(rules: seq<Rule>, rule: Rule, preload: bool, store: Store)
    requires PreloadWorks(rules, preload, store)
    ensures PreloadWorks(rules + [rule], preload, store) <==> !preload || store(rule.path).Some?
    ensures preload && rule.path in Paths(rules) ==> store(rule.path).Some?
  {
    var all := rules + [rule];
    assert all[|rules|] == rule;
  }

  // ---------- One cache, one call ----------

  lemma {:induction false} ReceivedOnce(paths: seq<string>, event: Watcher.Event, i: nat)
    requires i < |paths|
    ensures multiset(Watcher.Receivers(Numbered(paths), event))[Watcher.Observer(i, paths[i])]
            == if !event.kind.Other? && Watcher.HasPrefix(event.key, paths[i]) then 1 else 0
    decreases |paths|
  {
    var last := |paths| - 1;
    var o := Watcher.Observer(i, paths[i]);
    assert Numbered(paths)[..last] == Numbered(paths[..last]);
    if i < last {
      ReceivedOnce(paths[..last], event, i);
    } else {
      Watcher.ReceiverMatches(Numbered(paths[..last]), event);
      assert o !in Numbered(paths[..last]);
    }
  }

  /** Over all watches of a driver built from rules whose watched paths are not shorter than the minimum length, an
      event is handled once by the cache of each watched path that its key lies under, and by no other. */
  lemma EachCacheHandlesOnce(rules: seq<Rule>, size: nat, event: Watcher.Event, i: nat)
    requires size >= 1 && forall p :: WatchedBy(rules, p) ==> |p| >= size
    requires i < |WatchOrder(rules)|
    ensures var observers := Numbered(WatchOrder(rules));
            var calls := Watcher.Calls(Watcher.Watches(Watcher.PrefixesOf(observers), size), observers, event);
            && multiset(calls)[observers[i]]
               == (if !event.kind.Other? && Watcher.HasPrefix(event.key, observers[i].prefix) then 1 else 0)
            && forall o :: o in calls ==> o in observers
  {
    WatchOrderFacts(rules);
    var observers := Numbered(WatchOrder(rules));
    assert Watcher.AllLong(Watcher.PrefixesOf(observers), size);
    Watcher.LongPrefixesGiveOnce(observers, size, event);
    ReceivedOnce(WatchOrder(rules), event, i);
    Watcher.ReceiverMatches(observers, event);
  }
}
