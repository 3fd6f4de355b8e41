/** Watch prefixes and event dispatch: `etcdutil/watcher.go`.

    `Attach` keeps a list of prefixes to watch, merging each new observer's prefix with the first one it shares
    enough with.  `Run` starts one watch for each prefix, and every watch hands each event it gets to all
    observers whose own prefix matches the key. */
module Watcher {

  /** An observer is known by its number, since two of them may have the same prefix. */
  datatype Observer = Observer(id: nat, prefix: string)

  datatype Kind = Put | Delete | Other

  datatype Event = Event(kind: Kind, key: string)

  predicate HasPrefix(s: string, p: string) {
    p <= s
  }

  // ---------- Common prefixes ----------

  /** The longest common prefix of two strings. */
  function Lcp(s: string, t: string): (p: string)
    ensures p <= s && p <= t
  {
    if s == [] || t == [] || s[0] != t[0] then [] else [s[0]] + Lcp(s[1..], t[1..])
  }

  lemma {:induction false} LcpIsLongest(s: string, t: string, q: string)
    requires HasPrefix(s, q) && HasPrefix(t, q)
    ensures HasPrefix(Lcp(s, t), q)
    decreases s
  {
    if q != [] {
      assert s[0] == q[0] && t[0] == q[0];
      LcpIsLongest(s[1..], t[1..], q[1..]);
    }
  }

  lemma LcpOfPrefix(s: string, t: string)
    ensures s <= t ==> Lcp(s, t) == s
    ensures t <= s ==> Lcp(s, t) == t
  {
    if s <= t {
      LcpIsLongest(s, t, s);
    }
    if t <= s {
      LcpIsLongest(s, t, t);
    }
  }

  /** What `commonPrefix` returns: the longest common prefix, but nothing when it is shorter than `size` and is
      neither of the two strings. */
  function CommonPrefix(s: string, t: string, size: nat): (r: string)
    ensures r <= s && r <= t
    ensures s <= t ==> r == s
    ensures t <= s ==> r == t
    ensures r != "" && r != s && r != t ==> |r| >= size
  {
    var p := Lcp(s, t);
    LcpOfPrefix(s, t);
    if p == s || p == t then p else if |p| < size then "" else p
  }

  method FindCommonPrefix(s: string, t: string, size: nat) returns (r: string)
    ensures r == CommonPrefix(s, t, size)
  {
    var i := 0;
    while i < |s| && i < |t| && s[i] == t[i]
      invariant i <= |s| && i <= |t| && s[..i] == t[..i]
    {
      i := i + 1;
    }
    var prefix := s[..i];
    LcpIs(s, t, i);
    if prefix == s || prefix == t {
      return prefix;
    }
    if |prefix| < size {
      return "";
    }
    return prefix;
  }

  lemma LcpIs(s: string, t: string, i: nat)
    requires i <= |s| && i <= |t| && s[..i] == t[..i]
    requires i == |s| || i == |t| || s[i] != t[i]
    ensures Lcp(s, t) == s[..i]
  {
    LcpIsLongest(s, t, s[..i]);
    assert |Lcp(s, t)| <= i;
  }

  // ---------- Attach ----------

  /** The prefixes after `Attach`: the first one with a common prefix gives way to it, or the new prefix goes last. */
  function Attached(prefixes: seq<string>, prefix: string, size: nat): seq<string> {
    if prefixes == [] then [prefix]
    else
      var c := CommonPrefix(prefix, prefixes[0], size);
      if c != "" then [c] + prefixes[1..] else [prefixes[0]] + Attached(prefixes[1..], prefix, size)
  }

  /** The prefixes after attaching observers with these prefixes one after the other. */
  function Watches(observed: seq<string>, size: nat): seq<string> {
    if observed == [] then []
    else Attached(Watches(observed[..|observed| - 1], size), observed[|observed| - 1], size)
  }

  function PrefixesOf(observers: seq<Observer>): (r: seq<string>)
    ensures |r| == |observers| && forall i :: 0 <= i < |r| ==> r[i] == observers[i].prefix
  {
    seq(|observers|, i requires 0 <= i < |observers| => observers[i].prefix)
  }

  lemma PrefixesStep(observers: seq<Observer>, observer: Observer, size: nat)
    ensures Watches(PrefixesOf(observers + [observer]), size)
            == Attached(Watches(PrefixesOf(observers), size), observer.prefix, size)
  {
    var after := PrefixesOf(observers + [observer]);
    assert after[..|after| - 1] == PrefixesOf(observers);
  }

  class Watcher {
    var observers: seq<Observer>
    var prefixes: seq<string>
    var commonPrefixMinLen: nat
    /** Every call of an observer's `Handle`, in order. */
    var handled: seq<(Observer, Event)>

    ghost predicate Valid()
      reads this
    {
      commonPrefixMinLen >= 1 && prefixes == Watches(PrefixesOf(observers), commonPrefixMinLen)
    }

    constructor (commonPrefixMinLen: int)
      ensures Valid() && observers == [] && handled == []
      ensures this.commonPrefixMinLen == if commonPrefixMinLen > 1 then commonPrefixMinLen else 1
    {
      observers, prefixes, handled := [], [], [];
      this.commonPrefixMinLen := if commonPrefixMinLen > 1 then commonPrefixMinLen else 1;
    }

    method Attach(observer: Observer)
      requires Valid()
      modifies this`observers, this`prefixes
      ensures Valid() && observers == old(observers) + [observer]
      ensures prefixes == Attached(old(prefixes), observer.prefix, commonPrefixMinLen)
      ensures var was, size := old(prefixes), commonPrefixMinLen;
              || (prefixes == was + [observer.prefix]
                  && forall i :: 0 <= i < |was| ==> CommonPrefix(observer.prefix, was[i], size) == "")
              || exists i :: && 0 <= i < |was| && CommonPrefix(observer.prefix, was[i], size) != ""
                             && (forall j :: 0 <= j < i ==> CommonPrefix(observer.prefix, was[j], size) == "")
                             && prefixes == was[i := CommonPrefix(observer.prefix, was[i], size)]
    {
      PrefixesStep(observers, observer, commonPrefixMinLen);
      MergePrefix(observer.prefix);
      observers := observers + [observer];
    }

    /** The loop over the prefixes. */
    method MergePrefix(prefix: string)
      modifies this`prefixes
      ensures prefixes == Attached(old(prefixes), prefix, commonPrefixMinLen)
      ensures var was, size := old(prefixes), commonPrefixMinLen;
              || (prefixes == was + [prefix] && forall i :: 0 <= i < |was| ==> CommonPrefix(prefix, was[i], size) == "")
              || exists i :: && 0 <= i < |was| && CommonPrefix(prefix, was[i], size) != ""
                             && (forall j :: 0 <= j < i ==> CommonPrefix(prefix, was[j], size) == "")
                             && prefixes == was[i := CommonPrefix(prefix, was[i], size)]
    {
      var hasCommonPrefix := false;
      var i := 0;
      while i < |prefixes|
        invariant 0 <= i <= |prefixes| && prefixes == old(prefixes) && !hasCommonPrefix
        invariant forall j :: 0 <= j < i ==> CommonPrefix(prefix, prefixes[j], commonPrefixMinLen) == ""
      {
        var cpx := FindCommonPrefix(prefix, prefixes[i], commonPrefixMinLen);
        if cpx != "" {
          AttachedAt(prefixes, prefix, commonPrefixMinLen, i);
          prefixes := prefixes[i := cpx];
          hasCommonPrefix := true;
          break;
        }
        i := i + 1;
      }
      if !hasCommonPrefix {
        AttachedLast(prefixes, prefix, commonPrefixMinLen);
        prefixes := prefixes + [prefix];
      }
    }

    method HasObserver(prefix: string) returns (r: bool)
      ensures r <==> exists i :: 0 <= i < |observers| && observers[i].prefix == prefix
    {
      for i := 0 to |observers|
        invariant forall j :: 0 <= j < i ==> observers[j].prefix != prefix
      {
        if observers[i].prefix == prefix {
          return true;
        }
      }
      return false;
    }

    /** What one watch does with one event it receives. */
    method Dispatch(event: Event)
      modifies this`handled
      ensures handled == old(handled) + With(Receivers(observers, event), event)
    {
      if event.kind != Put && event.kind != Delete {
        return;
      }
      var i := 0;
      while i < |observers|
        invariant 0 <= i <= |observers|
        invariant handled == old(handled) + With(Receivers(observers[..i], event), event)
      {
        assert observers[..i + 1][..i] == observers[..i];
        if HasPrefix(event.key, observers[i].prefix) {
          WithStep(old(handled), Receivers(observers[..i], event), observers[i], event);
          handled := handled + [(observers[i], event)];
        }
        i := i + 1;
      }
      assert observers[..i] == observers;
    }
  }

  // ---------- Dispatch ----------

  /** The observers that one watch hands the event to. */
  function Receivers(observers: seq<Observer>, event: Event): seq<Observer> {
    if event.kind.Other? || observers == [] then []
    else
      var front, last := observers[..|observers| - 1], observers[|observers| - 1];
      Receivers(front, event) + if HasPrefix(event.key, last.prefix) then [last] else []
  }

  /** The calls of `Handle` that an event causes over all watches. */
  function Calls(prefixes: seq<string>, observers: seq<Observer>, event: Event): seq<Observer> {
    if prefixes == [] then []
    else
      var front, last := prefixes[..|prefixes| - 1], prefixes[|prefixes| - 1];
      Calls(front, observers, event) + if HasPrefix(event.key, last) then Receivers(observers, event) else []
  }

  function With(observers: seq<Observer>, event: Event): (calls: seq<(Observer, Event)>)
    ensures |calls| == |observers| && forall i :: 0 <= i < |calls| ==> calls[i] == (observers[i], event)
  {
    seq(|observers|, i requires 0 <= i < |observers| => (observers[i], event))
  }

  lemma WithJoins(some: seq<Observer>, more: seq<Observer>, event: Event)
    ensures With(some + more, event) == With(some, event) + With(more, event)
  {
  }

  lemma WithStep(before: seq<(Observer, Event)>, some: seq<Observer>, one: Observer, event: Event)
    ensures before + With(some, event) + [(one, event)] == before + With(some + [one], event)
  {
  }

  // ---------- Every observer is covered ----------

  ghost predicate Covers(prefixes: seq<string>, prefix: string) {
    exists i :: 0 <= i < |prefixes| && HasPrefix(prefix, prefixes[i])
  }

  ghost predicate MadeFor(watch: string, observed: seq<string>) {
    exists j :: 0 <= j < |observed| && HasPrefix(observed[j], watch)
  }

  /** Every watch is a prefix of some observer's prefix. */
  ghost predicate Useful(prefixes: seq<string>, observed: seq<string>) {
    forall i :: 0 <= i < |prefixes| ==> MadeFor(prefixes[i], observed)
  }

  lemma {:induction false} AttachedCovers(prefixes: seq<string>, prefix: string, size: nat, p: string)
    requires Covers(prefixes, p) || p == prefix
    ensures Covers(Attached(prefixes, prefix, size), p)
    decreases prefixes
  {
    var after := Attached(prefixes, prefix, size);
    if prefixes == [] {
      assert HasPrefix(p, after[0]);
    } else {
      var c, rest := CommonPrefix(prefix, prefixes[0], size), prefixes[1..];
      if c != "" {
        if p == prefix {
          assert HasPrefix(p, after[0]);
        } else {
          var i :| 0 <= i < |prefixes| && HasPrefix(p, prefixes[i]);
          assert HasPrefix(p, after[i]);
        }
      } else if p != prefix && HasPrefix(p, prefixes[0]) {
        assert HasPrefix(p, after[0]);
      } else {
        if p != prefix {
          var i :| 0 <= i < |prefixes| && HasPrefix(p, prefixes[i]);
          assert HasPrefix(p, rest[i - 1]);
        }
        AttachedCovers(rest, prefix, size, p);
        var k :| 0 <= k < |Attached(rest, prefix, size)| && HasPrefix(p, Attached(rest, prefix, size)[k]);
        assert HasPrefix(p, after[k + 1]);
      }
    }
  }

  lemma {:induction false} AttachedUseful(prefixes: seq<string>, prefix: string, size: nat, observed: seq<string>)
    requires Useful(prefixes, observed) && MadeFor(prefix, observed)
    ensures Useful(Attached(prefixes, prefix, size), observed)
    decreases prefixes
  {
    if prefixes != [] {
      var c := CommonPrefix(prefix, prefixes[0], size);
      if c != "" {
        var j :| 0 <= j < |observed| && HasPrefix(observed[j], prefix);
        assert HasPrefix(observed[j], c);
      } else {
        AttachedUseful(prefixes[1..], prefix, size, observed);
      }
    }
  }

  /** Whatever is attached, and whatever the minimum length, every observer's prefix is covered by a watch, and
      every watch was made for some observer. */
  lemma {:induction false} AllCovered(observed: seq<string>, size: nat)
    ensures forall j :: 0 <= j < |observed| ==> Covers(Watches(observed, size), observed[j])
    ensures Useful(Watches(observed, size), observed)
    decreases |observed|
  {
    if observed != [] {
      var front, last := observed[..|observed| - 1], observed[|observed| - 1];
      var before := Watches(front, size);
      AllCovered(front, size);
      forall j | 0 <= j < |observed| ensures Covers(Attached(before, last, size), observed[j]) {
        assert j < |front| ==> front[j] == observed[j];
        AttachedCovers(before, last, size, observed[j]);
      }
      forall i | 0 <= i < |before| ensures MadeFor(before[i], observed) {
        assert MadeFor(before[i], front);
        var j :| 0 <= j < |front| && HasPrefix(front[j], before[i]);
        assert HasPrefix(observed[j], before[i]);
      }
      assert MadeFor(last, observed) by {
        assert HasPrefix(observed[|front|], last);
      }
      AttachedUseful(before, last, size, observed);
    }
  }

  // ---------- Exactly once ----------

  /** No watched prefix is a prefix of another one. */
  ghost predicate Antichain(prefixes: seq<string>) {
    forall i, j :: 0 <= i < |prefixes| && 0 <= j < |prefixes| && i != j ==> !HasPrefix(prefixes[j], prefixes[i])
  }

  /** The event makes each matching observer handle it once, in the order of attachment, and no other observer. */
  ghost predicate Once(prefixes: seq<string>, observers: seq<Observer>, event: Event) {
    Calls(prefixes, observers, event) == Receivers(observers, event)
  }

  /** Over all events, dispatch is exactly once just when no watched prefix is a prefix of another. */
  lemma OnceExactlyWhenAntichain(observers: seq<Observer>, size: nat)
    ensures var prefixes := Watches(PrefixesOf(observers), size);
            (forall event :: Once(prefixes, observers, event)) <==> Antichain(prefixes)
  {
    var observed := PrefixesOf(observers);
    var prefixes := Watches(observed, size);
    AllCovered(observed, size);
    if Antichain(prefixes) {
      forall event ensures Once(prefixes, observers, event) {
        OnceIfAntichain(prefixes, observers, event);
      }
    } else {
      TwiceIfNotAntichain(prefixes, observers);
    }
  }

  lemma TwiceIfNotAntichain(prefixes: seq<string>, observers: seq<Observer>)
    requires Useful(prefixes, PrefixesOf(observers)) && !Antichain(prefixes)
    ensures exists event :: !Once(prefixes, observers, event)
  {
    var i, j :| 0 <= i < |prefixes| && 0 <= j < |prefixes| && i != j && HasPrefix(prefixes[j], prefixes[i]);
    assert MadeFor(prefixes[j], PrefixesOf(observers));
    var k :| 0 <= k < |PrefixesOf(observers)| && HasPrefix(PrefixesOf(observers)[k], prefixes[j]);
    var event := Event(Put, observers[k].prefix);
    ReceiversAre(observers, event, k);
    TwoMatches(prefixes, observers, event, if i < j then i else j, if i < j then j else i);
    assert !Once(prefixes, observers, event);
  }

  lemma {:induction false} ReceiversAre(observers: seq<Observer>, event: Event, k: nat)
    requires k < |observers| && HasPrefix(event.key, observers[k].prefix) && !event.kind.Other?
    ensures observers[k] in Receivers(observers, event)
    decreases |observers|
  {
    if k < |observers| - 1 {
      ReceiversAre(observers[..|observers| - 1], event, k);
    }
  }

  /** The receivers stand in order of attachment. */
  lemma {:induction false} ReceiversJoin(a: seq<Observer>, b: seq<Observer>, event: Event)
    ensures Receivers(a + b, event) == Receivers(a, event) + Receivers(b, event)
    decreases |b|
  {
    if b == [] {
      assert a + b == a;
    } else {
      assert (a + b)[..|a + b| - 1] == a + b[..|b| - 1];
      ReceiversJoin(a, b[..|b| - 1], event);
    }
  }

  lemma ReceiversOfOne(o: Observer, event: Event)
    ensures Receivers([o], event) == if !event.kind.Other? && o.prefix <= event.key then [o] else []
  {
    assert Receivers([o][..0], event) == [];
  }

  lemma {:induction false} ReceiverMatches(observers: seq<Observer>, event: Event)
    ensures forall o :: o in Receivers(observers, event) ==> o in observers && HasPrefix(event.key, o.prefix)
    decreases |observers|
  {
    if observers != [] {
      ReceiverMatches(observers[..|observers| - 1], event);
    }
  }

  lemma {:induction false} NoMatch(prefixes: seq<string>, observers: seq<Observer>, event: Event)
    requires forall i :: 0 <= i < |prefixes| ==> !HasPrefix(event.key, prefixes[i])
    ensures Calls(prefixes, observers, event) == []
    decreases |prefixes|
  {
    if prefixes != [] {
      NoMatch(prefixes[..|prefixes| - 1], observers, event);
    }
  }

  lemma {:induction false} OneMatch(prefixes: seq<string>, observers: seq<Observer>, event: Event, i: nat)
    requires i < |prefixes| && HasPrefix(event.key, prefixes[i])
    requires forall j :: 0 <= j < |prefixes| && j != i ==> !HasPrefix(event.key, prefixes[j])
    ensures Calls(prefixes, observers, event) == Receivers(observers, event)
    decreases |prefixes|
  {
    var front := prefixes[..|prefixes| - 1];
    if i < |front| {
      OneMatch(front, observers, event, i);
    } else {
      NoMatch(front, observers, event);
    }
  }

  lemma {:induction false} SomeMatch(prefixes: seq<string>, observers: seq<Observer>, event: Event, i: nat)
    requires i < |prefixes| && HasPrefix(event.key, prefixes[i])
    ensures |Calls(prefixes, observers, event)| >= |Receivers(observers, event)|
    decreases |prefixes|
  {
    if i < |prefixes| - 1 {
      SomeMatch(prefixes[..|prefixes| - 1], observers, event, i);
    }
  }

  lemma {:induction false} TwoMatches(prefixes: seq<string>, observers: seq<Observer>, event: Event, i: nat, j: nat)
    requires i < j < |prefixes| && HasPrefix(event.key, prefixes[i]) && HasPrefix(event.key, prefixes[j])
    ensures |Calls(prefixes, observers, event)| >= 2 * |Receivers(observers, event)|
    decreases |prefixes|
  {
    var front := prefixes[..|prefixes| - 1];
    if j < |front| {
      TwoMatches(front, observers, event, i, j);
    } else {
      SomeMatch(front, observers, event, i);
    }
  }

  lemma OnceIfAntichain(prefixes: seq<string>, observers: seq<Observer>, event: Event)
    requires Antichain(prefixes)
    requires forall k :: 0 <= k < |observers| ==> Covers(prefixes, observers[k].prefix)
    ensures Once(prefixes, observers, event)
  {
    if i :| 0 <= i < |prefixes| && HasPrefix(event.key, prefixes[i]) {
      forall j | 0 <= j < |prefixes| && j != i ensures !HasPrefix(event.key, prefixes[j]) {
        if HasPrefix(event.key, prefixes[j]) {
          PrefixesCompare(event.key, prefixes[i], prefixes[j]);
        }
      }
      OneMatch(prefixes, observers, event, i);
    } else {
      NoMatch(prefixes, observers, event);
      ReceiverMatches(observers, event);
      if Receivers(observers, event) != [] {
        var o := Receivers(observers, event)[0];
        assert o in Receivers(observers, event);
        var i :| 0 <= i < |prefixes| && HasPrefix(o.prefix, prefixes[i]);
        assert HasPrefix(event.key, prefixes[i]);
      }
    }
  }

  lemma PrefixesCompare(s: string, p: string, q: string)
    requires HasPrefix(s, p) && HasPrefix(s, q)
    ensures HasPrefix(p, q) || HasPrefix(q, p)
  {
  }

  // ---------- Grouping ----------

  /** `p` is the longest common prefix of the strings of a group. */
  ghost predicate IsLcp(p: string, group: set<string>) {
    && (forall s :: s in group ==> HasPrefix(s, p))
    && forall q :: AllHavePrefix(group, q) ==> HasPrefix(p, q)
  }

  ghost predicate AllHavePrefix(group: set<string>, q: string) {
    forall s :: s in group ==> HasPrefix(s, q)
  }

  /** The first `size` characters, or all there are. */
  function Head(s: string, size: nat): string {
    if |s| <= size then s else s[..size]
  }

  ghost function Group(all: set<string>, head: string, size: nat): set<string> {
    set s | s in all && Head(s, size) == head
  }

  ghost predicate IsLcpOfGroup(p: string, all: set<string>, size: nat) {
    && |p| >= size
    && Group(all, Head(p, size), size) != {}
    && IsLcp(p, Group(all, Head(p, size), size))
  }

  ghost predicate HeadsDiffer(prefixes: seq<string>, size: nat) {
    forall i, j :: 0 <= i < j < |prefixes| ==> Head(prefixes[i], size) != Head(prefixes[j], size)
  }

  /** The heads that the prefixes have are all there are. */
  ghost predicate HeadsKnown(prefixes: seq<string>, all: set<string>, size: nat) {
    forall s :: s in all ==> HasHead(prefixes, Head(s, size), size)
  }

  ghost predicate HasHead(prefixes: seq<string>, head: string, size: nat) {
    exists i :: 0 <= i < |prefixes| && Head(prefixes[i], size) == head
  }

  /** The prefixes are, each once, the longest common prefixes of the groups of strings that agree on their first
      `size` characters. */
  ghost predicate Grouped(prefixes: seq<string>, all: set<string>, size: nat) {
    && (forall i :: 0 <= i < |prefixes| ==> IsLcpOfGroup(prefixes[i], all, size))
    && HeadsDiffer(prefixes, size)
    && HeadsKnown(prefixes, all, size)
  }

  ghost predicate AllLong(observed: seq<string>, size: nat) {
    forall i :: 0 <= i < |observed| ==> |observed[i]| >= size
  }

  ghost function SetOf(observed: seq<string>): set<string> {
    set i | 0 <= i < |observed| :: observed[i]
  }

  lemma SameHead(p: string, s: string, size: nat)
    requires HasPrefix(s, p) && |p| >= size
    ensures Head(p, size) == Head(s, size)
  {
    assert p[..size] == s[..size];
  }

  /** Long strings have a common prefix for `commonPrefix` exactly when their heads agree. */
  lemma CommonIffSameHead(s: string, t: string, size: nat)
    requires 1 <= size <= |s| && size <= |t|
    ensures CommonPrefix(s, t, size) != "" <==> Head(s, size) == Head(t, size)
    ensures Head(s, size) == Head(t, size) ==> CommonPrefix(s, t, size) == Lcp(s, t) && |Lcp(s, t)| >= size
  {
    if Head(s, size) == Head(t, size) {
      assert s[..size] == Head(s, size) && t[..size] == Head(t, size);
      LcpIsLongest(s, t, s[..size]);
    } else {
      if |Lcp(s, t)| >= size {
        SameHead(Lcp(s, t), s, size);
        SameHead(Lcp(s, t), t, size);
      }
    }
  }

  lemma {:induction false} AttachedAt(prefixes: seq<string>, s: string, size: nat, i: nat)
    requires i < |prefixes| && CommonPrefix(s, prefixes[i], size) != ""
    requires forall j :: 0 <= j < i ==> CommonPrefix(s, prefixes[j], size) == ""
    ensures Attached(prefixes, s, size) == prefixes[i := CommonPrefix(s, prefixes[i], size)]
    decreases i
  {
    var c := CommonPrefix(s, prefixes[i], size);
    if i > 0 {
      AttachedAt(prefixes[1..], s, size, i - 1);
    }
    UpdateAt(prefixes, i, c);
  }

  lemma UpdateAt<T>(s: seq<T>, i: nat, c: T)
    requires i < |s|
    ensures s[i := c] == if i == 0 then [c] + s[1..] else [s[0]] + s[1..][i - 1 := c]
  {
  }

  lemma {:induction false} AttachedLast(prefixes: seq<string>, s: string, size: nat)
    requires forall j :: 0 <= j < |prefixes| ==> CommonPrefix(s, prefixes[j], size) == ""
    ensures Attached(prefixes, s, size) == prefixes + [s]
    decreases |prefixes|
  {
    if prefixes != [] {
      AttachedLast(prefixes[1..], s, size);
    }
  }

  lemma LcpJoins(p: string, group: set<string>, s: string)
    requires IsLcp(p, group)
    ensures IsLcp(Lcp(s, p), group + {s})
  {
    var r := Lcp(s, p);
    forall q | AllHavePrefix(group + {s}, q) ensures HasPrefix(r, q) {
      assert AllHavePrefix(group, q) && s in group + {s};
      LcpIsLongest(s, p, q);
    }
  }

  lemma GroupedStep(prefixes: seq<string>, all: set<string>, s: string, size: nat)
    requires Grouped(prefixes, all, size) && 1 <= size <= |s|
    ensures Grouped(Attached(prefixes, s, size), all + {s}, size)
  {
    forall j | 0 <= j < |prefixes|
      ensures CommonPrefix(s, prefixes[j], size) != "" <==> Head(s, size) == Head(prefixes[j], size)
    {
      assert IsLcpOfGroup(prefixes[j], all, size);
      CommonIffSameHead(s, prefixes[j], size);
    }
    if i :| 0 <= i < |prefixes| && Head(prefixes[i], size) == Head(s, size) {
      AttachedAt(prefixes, s, size, i);
      JoinGroup(prefixes, all, s, size, i);
    } else {
      AttachedLast(prefixes, s, size);
      NewGroup(prefixes, all, s, size);
    }
  }

  lemma OtherGroup(p: string, all: set<string>, s: string, size: nat)
    requires IsLcpOfGroup(p, all, size) && Head(p, size) != Head(s, size)
    ensures IsLcpOfGroup(p, all + {s}, size)
  {
    assert Group(all + {s}, Head(p, size), size) == Group(all, Head(p, size), size);
  }

  lemma GrownGroup(p: string, all: set<string>, s: string, size: nat)
    requires IsLcpOfGroup(p, all, size) && 1 <= size <= |s| && Head(p, size) == Head(s, size)
    ensures var r := CommonPrefix(s, p, size); Head(r, size) == Head(p, size) && IsLcpOfGroup(r, all + {s}, size)
  {
    CommonIffSameHead(s, p, size);
    var r, group := Lcp(s, p), Group(all, Head(p, size), size);
    SameHead(r, p, size);
    assert Group(all + {s}, Head(r, size), size) == group + {s};
    LcpJoins(p, group, s);
  }

  lemma JoinGroup(prefixes: seq<string>, all: set<string>, s: string, size: nat, i: nat)
    requires Grouped(prefixes, all, size) && 1 <= size <= |s|
    requires i < |prefixes| && Head(prefixes[i], size) == Head(s, size)
    ensures Grouped(prefixes[i := CommonPrefix(s, prefixes[i], size)], all + {s}, size)
  {
    assert IsLcpOfGroup(prefixes[i], all, size);
    GrownGroup(prefixes[i], all, s, size);
    var after := prefixes[i := CommonPrefix(s, prefixes[i], size)];
    SameHeads(prefixes, i, after[i], size);
    assert HasHead(after, Head(s, size), size) by {
      assert Head(after[i], size) == Head(s, size);
    }
    forall j | 0 <= j < |after| ensures IsLcpOfGroup(after[j], all + {s}, size) {
      if j != i {
        assert IsLcpOfGroup(prefixes[j], all, size);
        OtherGroup(prefixes[j], all, s, size);
      }
    }
  }

  lemma SameHeads(prefixes: seq<string>, i: nat, p: string, size: nat)
    requires i < |prefixes| && Head(p, size) == Head(prefixes[i], size)
    ensures HeadsDiffer(prefixes, size) ==> HeadsDiffer(prefixes[i := p], size)
    ensures forall head :: HasHead(prefixes, head, size) ==> HasHead(prefixes[i := p], head, size)
  {
    var after := prefixes[i := p];
    forall head | HasHead(prefixes, head, size) ensures HasHead(after, head, size) {
      var j :| 0 <= j < |prefixes| && Head(prefixes[j], size) == head;
      assert Head(after[j], size) == head;
    }
  }

  lemma NewGroup(prefixes: seq<string>, all: set<string>, s: string, size: nat)
    requires Grouped(prefixes, all, size) && 1 <= size <= |s|
    requires forall i :: 0 <= i < |prefixes| ==> Head(prefixes[i], size) != Head(s, size)
    ensures Grouped(prefixes + [s], all + {s}, size)
  {
    var after := prefixes + [s];
    assert Group(all + {s}, Head(s, size), size) == {s};
    assert IsLcpOfGroup(s, all + {s}, size) by {
      forall q | AllHavePrefix({s}, q) ensures HasPrefix(s, q) {
        assert s in {s};
      }
    }
    forall j | 0 <= j < |after| ensures IsLcpOfGroup(after[j], all + {s}, size) {
      if j < |prefixes| {
        assert IsLcpOfGroup(prefixes[j], all, size);
        OtherGroup(prefixes[j], all, s, size);
      }
    }
    forall t | t in all + {s} ensures HasHead(after, Head(t, size), size) {
      if t in all {
        assert HasHead(prefixes, Head(t, size), size);
        var j :| 0 <= j < |prefixes| && Head(prefixes[j], size) == Head(t, size);
        assert after[j] == prefixes[j];
      } else {
        assert after[|prefixes|] == t;
      }
    }
  }

  lemma SetOfStep(v: seq<string>)
    requires v != []
    ensures SetOf(v) == SetOf(v[..|v| - 1]) + {v[|v| - 1]}
  {
    var front := v[..|v| - 1];
    assert forall i :: 0 <= i < |front| ==> front[i] == v[i];
  }

  /** With no prefix shorter than the minimum length, attaching computes the longest common prefix of every group
      of observers that agree on that many characters. */
  lemma {:induction false} WatchesAreGrouped(observed: seq<string>, size: nat)
    requires size >= 1 && AllLong(observed, size)
    ensures Grouped(Watches(observed, size), SetOf(observed), size)
    decreases |observed|
  {
    if observed != [] {
      var front, last := observed[..|observed| - 1], observed[|observed| - 1];
      WatchesAreGrouped(front, size);
      GroupedStep(Watches(front, size), SetOf(front), last, size);
      SetOfStep(observed);
    }
  }

  /** So the order of attachment and repeated attachments do not matter: the same prefixes give the same watches,
      with none watched twice. */
  lemma OrderDoesNotMatter(observed: seq<string>, again: seq<string>, size: nat)
    requires size >= 1 && AllLong(observed, size) && AllLong(again, size)
    requires SetOf(observed) == SetOf(again)
    ensures SetOf(Watches(observed, size)) == SetOf(Watches(again, size))
    ensures |Watches(observed, size)| == |Watches(again, size)| == |SetOf(Watches(again, size))|
  {
    WatchesAreGrouped(observed, size);
    WatchesAreGrouped(again, size);
    var v, w := Watches(observed, size), Watches(again, size);
    GroupedInto(v, w, SetOf(again), size);
    GroupedInto(w, v, SetOf(again), size);
    DistinctCount(v, size);
    DistinctCount(w, size);
  }

  lemma GroupedInto(v: seq<string>, w: seq<string>, all: set<string>, size: nat)
    requires Grouped(v, all, size) && Grouped(w, all, size)
    ensures SetOf(v) <= SetOf(w)
  {
    forall p | p in SetOf(v) ensures p in SetOf(w) {
      assert IsLcpOfGroup(p, all, size);
      var group := Group(all, Head(p, size), size);
      var s :| s in group;
      assert HasHead(w, Head(s, size), size);
      var j :| 0 <= j < |w| && Head(w[j], size) == Head(s, size);
      assert IsLcpOfGroup(w[j], all, size);
      assert AllHavePrefix(group, p) && AllHavePrefix(group, w[j]);
      assert HasPrefix(p, w[j]) && HasPrefix(w[j], p);
      assert w[j] == p;
    }
  }

  lemma {:induction false} DistinctCount(v: seq<string>, size: nat)
    requires HeadsDiffer(v, size)
    ensures |SetOf(v)| == |v|
    decreases |v|
  {
    if v == [] {
      assert SetOf(v) == {};
    } else {
      var front, last := v[..|v| - 1], v[|v| - 1];
      DistinctCount(front, size);
      SetOfStep(v);
      assert last !in SetOf(front);
    }
  }

  /** And no watched prefix is then a prefix of another, so that every event reaches every matching observer once. */
  lemma LongPrefixesGiveOnce(observers: seq<Observer>, size: nat, event: Event)
    requires size >= 1 && AllLong(PrefixesOf(observers), size)
    ensures Antichain(Watches(PrefixesOf(observers), size))
    ensures Once(Watches(PrefixesOf(observers), size), observers, event)
  {
    var prefixes := Watches(PrefixesOf(observers), size);
    WatchesAreGrouped(PrefixesOf(observers), size);
    forall i, j | 0 <= i < |prefixes| && 0 <= j < |prefixes| && i != j ensures !HasPrefix(prefixes[j], prefixes[i]) {
      assert IsLcpOfGroup(prefixes[i], SetOf(PrefixesOf(observers)), size);
      assert IsLcpOfGroup(prefixes[j], SetOf(PrefixesOf(observers)), size);
      if HasPrefix(prefixes[j], prefixes[i]) {
        SameHead(prefixes[i], prefixes[j], size);
      }
    }
    OnceExactlyWhenAntichain(observers, size);
  }

  /** Without the length hypothesis watches can overlap: with a minimum of 4, the prefixes `/ab`, `/ac` and `/`
      are watched as `/` and `/ac`, so that an event under `/ac` is handled twice. */
  lemma ShortPrefixesOverlap()
    ensures var observers := [Observer(0, "/ab"), Observer(1, "/ac"), Observer(2, "/")];
            var prefixes := Watches(PrefixesOf(observers), 4);
            && prefixes == ["/", "/ac"]
            && Calls(prefixes, observers, Event(Put, "/ac"))
               == [Observer(1, "/ac"), Observer(2, "/"), Observer(1, "/ac"), Observer(2, "/")]
  {
    var observers := [Observer(0, "/ab"), Observer(1, "/ac"), Observer(2, "/")];
    var event := Event(Put, "/ac");
    assert PrefixesOf(observers) == ["/ab", "/ac", "/"];
    ShortWatches();
    ShortReceivers();
    var watches := ["/", "/ac"];
    assert watches[..1] == ["/"] && watches[..1][..0] == [];
    assert Calls([], observers, event) == [];
    assert Calls(["/"], observers, event) == [observers[1], observers[2]];
  }

  lemma ShortReceivers()
    ensures Receivers([Observer(0, "/ab"), Observer(1, "/ac"), Observer(2, "/")], Event(Put, "/ac"))
            == [Observer(1, "/ac"), Observer(2, "/")]
  {
    var observers := [Observer(0, "/ab"), Observer(1, "/ac"), Observer(2, "/")];
    var event := Event(Put, "/ac");
    assert observers[..2] == [observers[0], observers[1]] && observers[..2][..1] == [observers[0]];
    assert [observers[0]][..0] == [] && !HasPrefix("/ac", "/ab") by {
      assert "/ac"[2] != "/ab"[2];
    }
    assert Receivers([observers[0]], event) == [];
    assert Receivers([observers[0], observers[1]], event) == [observers[1]];
  }

  lemma ShortWatches()
    ensures Watches(["/ab", "/ac", "/"], 4) == ["/", "/ac"]
  {
    LcpIs("/ac", "/ab", 2);
    LcpIs("/", "/ab", 1);
    var two := ["/ab", "/ac"];
    assert two[..1] == ["/ab"] && two[..1][..0] == [];
    assert Watches(["/ab"], 4) == ["/ab"];
    assert ["/ab"][1..] == [];
    assert Watches(two, 4) == ["/ab", "/ac"];
    assert ["/ab", "/ac", "/"][..2] == two;
    assert two[1..] == ["/ac"];
  }
}
