/** Configuration rules, as `config/meta/config.go` declares them, and the namespace map that both drivers build from
    them. */
module Rules {

  /** Namespaces are strings of which only equality matters. */
  type Namespace(==, !new)

  datatype Rule = Rule(path: string, namespaces: seq<Namespace>, watch: bool)

  ghost function Paths(rules: seq<Rule>): set<string> {
    set i | 0 <= i < |rules| :: rules[i].path
  }

  ghost predicate WatchedBy(rules: seq<Rule>, path: string) {
    exists i :: 0 <= i < |rules| && rules[i].path == path && rules[i].watch
  }

  /** The rule that a namespace follows: the last one that lists it. */
  ghost predicate Decides(rules: seq<Rule>, i: int, namespace: Namespace) {
    && 0 <= i < |rules| && namespace in rules[i].namespaces
    && forall j :: i < j < |rules| ==> namespace !in rules[j].namespaces
  }

  ghost predicate AnyNamespace(rules: seq<Rule>) {
    exists i :: 0 <= i < |rules| && rules[i].namespaces != []
  }

  ghost predicate AnyWatch(rules: seq<Rule>) {
    exists i :: 0 <= i < |rules| && rules[i].watch
  }

  /** Every namespace of the rules leads to the path of the rule it follows, and no other one leads anywhere. */
  ghost predicate Placed(rules: seq<Rule>, paths: map<Namespace, string>) {
    && (forall np :: np in paths ==> exists i :: Decides(rules, i, np))
    && (forall i, np :: Decides(rules, i, np) ==> np in paths && paths[np] == rules[i].path)
  }

  function Bound<T>(m: map<Namespace, T>, namespaces: seq<Namespace>, target: T): map<Namespace, T> {
    map np | np in m.Keys + (set n | n in namespaces) :: if np in namespaces then target else m[np]
  }

  lemma PlacedStep(rules: seq<Rule>, paths: map<Namespace, string>, rule: Rule)
    requires Placed(rules, paths)
    ensures Placed(rules + [rule], Bound(paths, rule.namespaces, rule.path))
  {
    var all, paths' := rules + [rule], Bound(paths, rule.namespaces, rule.path);
    forall np ensures np in paths' ==> exists i :: Decides(all, i, np) {
      if np in rule.namespaces {
        assert Decides(all, |rules|, np);
      } else if np in paths {
        var i :| Decides(rules, i, np);
        assert Decides(all, i, np);
      }
    }
    forall i, np | Decides(all, i, np) ensures np in paths' && paths'[np] == all[i].path {
      if i < |rules| {
        assert all[|rules|] == rule && np !in rule.namespaces;
        assert Decides(rules, i, np) by {
          forall j | i < j < |rules| ensures np !in rules[j].namespaces {
            assert all[j] == rules[j];
          }
        }
      }
    }
  }

  /** The rules name no namespace exactly when the map stays empty. */
  lemma NamespacesPlaced(rules: seq<Rule>, paths: map<Namespace, string>)
    requires Placed(rules, paths)
    ensures |paths| == 0 <==> !AnyNamespace(rules)
  {
    forall np | np in paths ensures AnyNamespace(rules) {
      var i :| Decides(rules, i, np);
    }
    if i :| 0 <= i < |rules| && rules[i].namespaces != [] {
      LastRule(rules, rules[i].namespaces[0], i);
    }
  }

  lemma LastRule(rules: seq<Rule>, namespace: Namespace, i: nat)
    requires i < |rules| && namespace in rules[i].namespaces
    ensures exists j :: Decides(rules, j, namespace)
    decreases |rules| - i
  {
    if j :| i < j < |rules| && namespace in rules[j].namespaces {
      LastRule(rules, namespace, j);
    } else {
      assert Decides(rules, i, namespace);
    }
  }

  lemma PathsStep(rules: seq<Rule>, rule: Rule)
    ensures Paths(rules + [rule]) == Paths(rules) + {rule.path}
  {
    var all := rules + [rule];
    assert all[|rules|] == rule;
    forall i | 0 <= i < |rules| ensures rules[i].path in Paths(all) {
      assert all[i] == rules[i];
    }
  }

  lemma WatchedByStep(rules: seq<Rule>, rule: Rule, p: string)
    ensures WatchedBy(rules + [rule], p) <==> WatchedBy(rules, p) || (p == rule.path && rule.watch)
  {
    var all := rules + [rule];
    if i :| 0 <= i < |rules| && rules[i].path == p && rules[i].watch {
      assert all[i] == rules[i];
    }
    if p == rule.path && rule.watch {
      assert all[|rules|] == rule;
    }
  }

  lemma AnyWatchStep(rules: seq<Rule>, rule: Rule)
    ensures AnyWatch(rules + [rule]) <==> AnyWatch(rules) || rule.watch
  {
    var all := rules + [rule];
    assert all[|rules|] == rule && forall i :: 0 <= i < |rules| ==> all[i] == rules[i];
  }
}
