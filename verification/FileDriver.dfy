/** The file driver around its nodes: `New`, `loadToBuf`, the reload of one path, the readers and `Close` in
    `config/driver/file/file.go`.

    All files are decoded into one shared map `buf`, and decoding into a map that is not empty merges with
    what is there.  What decoding a file gives comes from outside as an `Outcome`.  A node stands here for the
    value that `FileNode.Node.State` gives, and a namespace leads to the path of its node. */
module FileDriver {
  import opened Wrappers
  import opened FileNode
  import opened Rules

  /** A decoded file, or a failure that has left some fields in the buffer. */
  datatype Outcome = Decoded(file: File) | Failed(partial: File)

  /** How setting up the directory watch goes: no watcher can be made, or a directory cannot be added to it. */
  datatype Watching = NoWatcher | CannotAdd | Watches

  type Disk = string -> Outcome

  datatype NodeValue = NodeValue(watch: bool, slots: Slots, calls: seq<Call>)

  /** The driver's maps are those of the rules: one node for each path, holding that file alone and watched if any
      rule of the path asks for it, and every namespace at the path of the rule it follows. */
  ghost predicate Built(rules: seq<Rule>, disk: Disk, nodes: map<string, NodeValue>, paths: map<Namespace, string>) {
    && nodes.Keys == Paths(rules)
    && (forall p :: p in nodes ==>
          disk(p).Decoded? && nodes[p] == NodeValue(WatchedBy(rules, p), Cached(map[], disk(p).file), []))
    && Placed(rules, paths)
  }

  ghost predicate AllDecode(rules: seq<Rule>, disk: Disk) {
    forall i :: 0 <= i < |rules| ==> disk(rules[i].path).Decoded?
  }

  class Driver {
    var namespace2node: map<Namespace, string>
    var filepath2node: map<string, NodeValue>
    var buf: File
    var watching: bool
    var closed: bool
    /** How often the directory watcher has been closed. */
    var watcherCloses: nat

    /** Between two loads the buffer is empty. */
    ghost predicate Valid()
      reads this
    {
      buf == map[] && forall np :: np in namespace2node ==> namespace2node[np] in filepath2node
    }

    constructor ()
      ensures Valid() && namespace2node == map[] && filepath2node == map[]
      ensures !watching && !closed && watcherCloses == 0
    {
      namespace2node, filepath2node, buf := map[], map[], map[];
      watching, closed, watcherCloses := false, false, 0;
    }

    /** Decoding merges into `buf`, and on failure may have merged a part. */
    method LoadToBuf(outcome: Outcome) returns (ok: bool)
      modifies this`buf
      ensures ok == outcome.Decoded?
      ensures buf == old(buf) + if ok then outcome.file else outcome.partial
    {
      match outcome
      case Decoded(file) =>
        buf := buf + file;
        ok := true;
      case Failed(partial) =>
        buf := buf + partial;
        ok := false;
    }

    /** `New`.  A watcher that has been made is closed when a directory cannot be added to it. */
    static method New(rules: seq<Rule>, disk: Disk, watching: Watching) returns (d: Driver, ok: bool)
      ensures fresh(d)
      ensures ok <==> AllDecode(rules, disk) && AnyNamespace(rules) && (AnyWatch(rules) ==> watching.Watches?)
      ensures ok ==> d.Valid() && Built(rules, disk, d.filepath2node, d.namespace2node)
      ensures ok ==> !d.closed && d.watching == AnyWatch(rules)
      ensures !ok && d.closed <==> AllDecode(rules, disk) && AnyNamespace(rules) && AnyWatch(rules) && !watching.Watches?
      ensures d.watcherCloses == if !ok && d.closed && watching.CannotAdd? then 1 else 0
      ensures !ok ==> (d.watching <==> d.watcherCloses == 1)
    {
      d := new Driver();
      var watch;
      ok, watch := d.LoadRules(rules, disk);
      if !ok {
        return;
      }
      NamespacesPlaced(rules, d.namespace2node);
      BuiltDecodes(rules, disk, d.filepath2node, d.namespace2node);
      if |d.namespace2node| == 0 {
        return d, false;
      }
      if watch {
        d.watching := !watching.NoWatcher?;
        if !watching.Watches? {
          d.Close();
          ok := false;
        }
      }
    }

    /** The loop over the rules. */
    method LoadRules(rules: seq<Rule>, disk: Disk) returns (ok: bool, watch: bool)
      requires Valid() && filepath2node == map[] && namespace2node == map[]
      modifies this`buf, this`filepath2node, this`namespace2node
      ensures !ok ==> !AllDecode(rules, disk)
      ensures ok ==> Valid() && Built(rules, disk, filepath2node, namespace2node) && watch == AnyWatch(rules)
    {
      watch := false;
      var i := 0;
      while i < |rules|
        invariant 0 <= i <= |rules| && Valid()
        invariant Built(rules[..i], disk, filepath2node, namespace2node)
        invariant watch == AnyWatch(rules[..i])
      {
        ghost var nodes, paths := filepath2node, namespace2node;
        ok := AddRule(rules[i], disk(rules[i].path));
        if !ok {
          return;
        }
        BuiltStep(rules[..i], disk, nodes, paths, rules[i], filepath2node);
        AnyWatchStep(rules[..i], rules[i]);
        assert rules[..i + 1] == rules[..i] + [rules[i]];
        watch := watch || rules[i].watch;
        i := i + 1;
      }
      assert rules[..i] == rules;
      ok := true;
    }

    /** The body of the loop over the rules.  It stops half way when the file cannot be loaded. */
    method AddRule(rule: Rule, outcome: Outcome) returns (ok: bool)
      requires Valid()
      modifies this`buf, this`filepath2node, this`namespace2node
      ensures ok <==> rule.path in old(filepath2node) || outcome.Decoded?
      ensures ok ==> Valid()
      ensures ok ==>
                var node := if rule.path in old(filepath2node) then old(filepath2node)[rule.path]
                            else NodeValue(false, Cached(map[], outcome.file), []);
                && filepath2node == old(filepath2node)[rule.path := node.(watch := rule.watch || node.watch)]
                && namespace2node == Bound(old(namespace2node), rule.namespaces, rule.path)
    {
      if rule.path !in filepath2node {
        ok := LoadToBuf(outcome);
        if !ok {
          return;
        }
        assert buf == outcome.file;
        filepath2node := filepath2node[rule.path := NodeValue(false, Cached(map[], buf), [])];
        buf := map[];
      }
      if rule.watch {
        filepath2node := filepath2node[rule.path := filepath2node[rule.path].(watch := true)];
      }
      Bind(rule.namespaces, rule.path);
      ok := true;
    }

    method Bind(namespaces: seq<Namespace>, path: string)
      requires path in filepath2node
      modifies this`namespace2node
      ensures namespace2node == Bound(old(namespace2node), namespaces, path)
    {
      var i := 0;
      while i < |namespaces|
        invariant 0 <= i <= |namespaces|
        invariant namespace2node == Bound(old(namespace2node), namespaces[..i], path)
      {
        assert namespaces[..i + 1] == namespaces[..i] + [namespaces[i]];
        namespace2node := namespace2node[namespaces[i] := path];
        i := i + 1;
      }
      assert namespaces[..i] == namespaces;
    }

    /** One reload of `listenAndRefresh`.  If the node is watched, `meanwhile` is registered on it between the two locked
        sections.  The calls that are due are made, in the order in which the keys are met. */
    method Refresh(path: string, outcome: Outcome, meanwhile: seq<Registration>) returns (ghost order: seq<Key>)
      requires Valid()
      modifies this`buf, this`filepath2node
      ensures Valid() && filepath2node.Keys == old(filepath2node).Keys
      ensures forall p :: p in filepath2node && (p != path || outcome.Failed?) ==> filepath2node[p] == old(filepath2node)[p]
      ensures path in filepath2node && outcome.Decoded? ==>
                && Lists(order, outcome.file.Keys)
                && filepath2node[path] == Refreshed(old(filepath2node)[path], outcome.file, meanwhile, order)
      ensures path in filepath2node && outcome.Decoded? ==>
                var was, now := old(filepath2node)[path], filepath2node[path];
                && now.watch == was.watch && was.calls <= now.calls
                && forall key ::
                     && View(now.slots, key) == Lookup(outcome.file, key)
                     && HooksOf(now.slots, key) == HooksOf(was.slots, key) + (if was.watch then Added(meanwhile, key) else [])
                     && (Flagged(now.slots, key) ==> Flagged(was.slots, key) && key !in outcome.file)
    {
      order := [];
      if path !in filepath2node {
        return;
      }
      var ok := LoadToBuf(outcome);
      if !ok {
        buf := map[];
        return;
      }
      assert buf == outcome.file;
      var node := filepath2node[path];
      filepath2node := filepath2node[path := node.(slots := Cached(node.slots, buf))];
      assert RegisterAll(Cached(node.slots, buf), []) == Cached(node.slots, buf);
      var _ := RegisterHere(path, meanwhile);
      order := FireNode(path);
      buf := map[];
      forall key {
        RefreshedFacts(node, outcome.file, meanwhile, order, key);
      }
    }

    method RegisterHere(path: string, registrations: seq<Registration>) returns (ok: bool)
      requires path in filepath2node
      modifies this`filepath2node
      ensures ok == old(filepath2node)[path].watch
      ensures var node := old(filepath2node)[path];
              filepath2node == old(filepath2node)[path :=
                                 if ok then node.(slots := RegisterAll(node.slots, registrations)) else node]
    {
      var node := filepath2node[path];
      if !node.watch {
        assert filepath2node[path := node] == filepath2node;
        return false;
      }
      var i := 0;
      while i < |registrations|
        invariant 0 <= i <= |registrations|
        invariant filepath2node == old(filepath2node)[path :=
                                     node.(slots := RegisterAll(node.slots, registrations[..i]))]
      {
        var r := registrations[i];
        assert registrations[..i + 1] == registrations[..i] + [r];
        OneMoreRegistered(node.slots, registrations[..i], r);
        var now := filepath2node[path];
        filepath2node := filepath2node[path := now.(slots := Registered(now.slots, r.key, r.hook))];
        i := i + 1;
      }
      assert registrations[..i] == registrations;
      return true;
    }

    /** `ExecuteHook` on the node, with the buffer. */
    method FireNode(path: string) returns (ghost order: seq<Key>)
      requires path in filepath2node
      modifies this`filepath2node
      ensures Lists(order, buf.Keys)
      ensures var node := old(filepath2node)[path];
              filepath2node == old(filepath2node)[path :=
                                 node.(slots := Cleared(node.slots, buf.Keys),
                                       calls := node.calls + DueInOrder(node.slots, buf, order))]
    {
      var node := filepath2node[path];
      order := [];
      var todo, calls := buf.Keys, node.calls;
      ghost var done := {};
      while todo != {}
        invariant done !! todo && done + todo == buf.Keys && Lists(order, done)
        invariant filepath2node == old(filepath2node)
        invariant calls == node.calls + DueInOrder(node.slots, buf, order)
        decreases todo
      {
        var k :| k in todo;
        DueStep(node.calls, node.slots, buf, order, k);
        ListsStep(order, done, k);
        calls := calls + Due(node.slots, buf, k);
        order := order + [k];
        todo, done := todo - {k}, done + {k};
      }
      assert done == buf.Keys;
      filepath2node := filepath2node[path := node.(slots := Cleared(node.slots, buf.Keys), calls := calls)];
    }

    /** `Get` and `GetString`.  Right after `New`, a namespace answers as the file of the rule it follows does, and one
        that no rule lists does not answer. */
    method GetString(namespace: Namespace, key: Key) returns (value: Option<string>)
      requires Valid()
      ensures value == if namespace in namespace2node
                       then View(filepath2node[namespace2node[namespace]].slots, key) else None
      ensures forall rules: seq<Rule>, disk: Disk, i: int ::
                Built(rules, disk, filepath2node, namespace2node) && Decides(rules, i, namespace) ==>
                disk(rules[i].path).Decoded? && value == Lookup(disk(rules[i].path).file, key)
      ensures forall rules: seq<Rule>, disk: Disk ::
                Built(rules, disk, filepath2node, namespace2node) && NotListed(rules, namespace) ==> value == None
    {
      forall rules: seq<Rule>, disk: Disk, i: int
        | Built(rules, disk, filepath2node, namespace2node) && Decides(rules, i, namespace)
        ensures namespace in namespace2node && disk(rules[i].path).Decoded?
        ensures View(filepath2node[namespace2node[namespace]].slots, key) == Lookup(disk(rules[i].path).file, key)
      {
        ReadsItsOwnFile(rules, disk, filepath2node, namespace2node, i, namespace, key);
      }
      if namespace !in namespace2node {
        return None;
      }
      return View(filepath2node[namespace2node[namespace]].slots, key);
    }

    method OnKeyChange(namespace: Namespace, key: Key, hook: Hook) returns (ok: bool)
      requires Valid()
      modifies this`filepath2node
      ensures Valid() && filepath2node.Keys == old(filepath2node).Keys
      ensures ok <==> namespace in namespace2node && old(filepath2node)[namespace2node[namespace]].watch
      ensures !ok ==> filepath2node == old(filepath2node)
      ensures ok ==> var p := namespace2node[namespace];
                     filepath2node == old(filepath2node)[p := old(filepath2node)[p].(
                                        slots := Registered(old(filepath2node)[p].slots, key, hook))]
    {
      if namespace !in namespace2node {
        return false;
      }
      var p := namespace2node[namespace];
      var node := filepath2node[p];
      if !node.watch {
        return false;
      }
      filepath2node := filepath2node[p := node.(slots := Registered(node.slots, key, hook))];
      return true;
    }

    method Close()
      modifies this`closed, this`watcherCloses
      ensures closed
      ensures watcherCloses == old(watcherCloses) + if !old(closed) && watching then 1 else 0
    {
      if closed {
        return;
      }
      closed := true;
      if watching {
        watcherCloses := watcherCloses + 1;
      }
    }
  }

  /** The node after a reload: its slots go through the reload with what was registered meanwhile, and the calls due are
      added to its record in the order in which the keys are met. */
  ghost function Refreshed(node: NodeValue, file: File, meanwhile: seq<Registration>, order: seq<Key>): NodeValue {
    var registrations := if node.watch then meanwhile else [];
    node.(slots := After(node.slots, Reload(file, registrations)),
          calls := node.calls + DueInOrder(RegisterAll(Cached(node.slots, file), registrations), file, order))
  }

  /** A reload as one key sees it. */
  lemma RefreshedFacts(node: NodeValue, file: File, meanwhile: seq<Registration>, order: seq<Key>, key: Key)
    ensures var after, registrations := Refreshed(node, file, meanwhile, order), if node.watch then meanwhile else [];
            && View(after.slots, key) == Lookup(file, key)
            && HooksOf(after.slots, key) == HooksOf(node.slots, key) + Added(registrations, key)
            && (Flagged(after.slots, key) ==> Flagged(node.slots, key) && key !in file)
  {
    var registrations := if node.watch then meanwhile else [];
    var cached := Cached(node.slots, file);
    CachedFacts(node.slots, file, key);
    RegisterAllFacts(cached, registrations, key);
    ClearedFacts(RegisterAll(cached, registrations), file.Keys, key);
  }

  predicate NotListed(rules: seq<Rule>, namespace: Namespace) {
    forall i :: 0 <= i < |rules| ==> namespace !in rules[i].namespaces
  }

  lemma BuiltStep(rules: seq<Rule>, disk: Disk, nodes: map<string, NodeValue>, paths: map<Namespace, string>, rule: Rule,
                  nodes': map<string, NodeValue>)
    requires Built(rules, disk, nodes, paths) && disk(rule.path).Decoded?
    requires var watched := rule.watch || (rule.path in nodes && nodes[rule.path].watch);
             nodes' == nodes[rule.path := NodeValue(watched, Cached(map[], disk(rule.path).file), [])]
    ensures Built(rules + [rule], disk, nodes', Bound(paths, rule.namespaces, rule.path))
  {
    var all, paths' := rules + [rule], Bound(paths, rule.namespaces, rule.path);
    PathsStep(rules, rule);
    forall p ensures WatchedBy(all, p) <==> WatchedBy(rules, p) || (p == rule.path && rule.watch) {
      WatchedByStep(rules, rule, p);
    }
    PlacedStep(rules, paths, rule);
  }

  lemma BuiltDecodes(rules: seq<Rule>, disk: Disk, nodes: map<string, NodeValue>, paths: map<Namespace, string>)
    requires Built(rules, disk, nodes, paths)
    ensures AllDecode(rules, disk)
  {
    forall i | 0 <= i < |rules| ensures disk(rules[i].path).Decoded? {
      assert rules[i].path in Paths(rules);
    }
  }

  /** Right after `New`, a namespace answers from the one file of the rule it follows, and from nothing that the
      buffer held for other files. */
  lemma ReadsItsOwnFile(rules: seq<Rule>, disk: Disk, nodes: map<string, NodeValue>, paths: map<Namespace, string>,
                        i: int, namespace: Namespace, key: Key)
    requires Built(rules, disk, nodes, paths) && Decides(rules, i, namespace)
    ensures namespace in paths && paths[namespace] in nodes && disk(rules[i].path).Decoded?
    ensures View(nodes[paths[namespace]].slots, key) == Lookup(disk(rules[i].path).file, key)
  {
    assert rules[i].path in Paths(rules);
    CachedFacts(map[], disk(rules[i].path).file, key);
  }

  /** The node of a path after a series of reloads. */
  ghost function Reloaded(slots: Slots, outcomes: seq<Outcome>): Slots
    decreases |outcomes|
  {
    if outcomes == [] then slots
    else
      var before, last := Reloaded(slots, outcomes[..|outcomes| - 1]), outcomes[|outcomes| - 1];
      if last.Failed? then before else Cleared(Cached(before, last.file), last.file.Keys)
  }

  /** After any number of reloads of a path, good ones and failed ones, its node answers from the last file that
      decoded, and from that file alone. */
  lemma {:induction false} ReloadsAreIsolated(slots: Slots, outcomes: seq<Outcome>, i: nat, key: Key)
    requires i < |outcomes| && outcomes[i].Decoded?
    requires forall j :: i < j < |outcomes| ==> outcomes[j].Failed?
    ensures View(Reloaded(slots, outcomes), key) == Lookup(outcomes[i].file, key)
    ensures HooksOf(Reloaded(slots, outcomes), key) == HooksOf(slots, key)
    decreases |outcomes|
  {
    var front := outcomes[..|outcomes| - 1];
    ReloadsKeepHooks(slots, front, key);
    if i == |outcomes| - 1 {
      var before := Reloaded(slots, front);
      CachedFacts(before, outcomes[i].file, key);
      ClearedFacts(Cached(before, outcomes[i].file), outcomes[i].file.Keys, key);
    } else {
      ReloadsAreIsolated(slots, front, i, key);
    }
  }

  lemma {:induction false} ReloadsKeepHooks(slots: Slots, outcomes: seq<Outcome>, key: Key)
    ensures HooksOf(Reloaded(slots, outcomes), key) == HooksOf(slots, key)
    decreases |outcomes|
  {
    if outcomes != [] {
      var front, last := outcomes[..|outcomes| - 1], outcomes[|outcomes| - 1];
      ReloadsKeepHooks(slots, front, key);
      if last.Decoded? {
        CachedFacts(Reloaded(slots, front), last.file, key);
        ClearedFacts(Cached(Reloaded(slots, front), last.file), last.file.Keys, key);
      }
    }
  }
}
