/** Exactly when `Attach` in `etcdutil/watcher.go` leaves no watched prefix under another, told from the prefixes that
    are attached and their order. */
module Overlap {
  import opened Watcher

  // ---------- One attachment ----------

  /** The two agree on fewer than `size` characters. */
  ghost predicate Apart(p: string, q: string, size: nat) {
    forall r :: HasPrefix(p, r) && HasPrefix(q, r) ==> |r| < size
  }

  /** The watches are not empty, none is under another, and any two agree on fewer than `size` characters. */
  ghost predicate Spread(prefixes: seq<string>, size: nat) {
    && (forall i :: 0 <= i < |prefixes| ==> prefixes[i] != "")
    && Antichain(prefixes)
    && forall i, j :: 0 <= i < |prefixes| && 0 <= j < |prefixes| && i != j ==> Apart(prefixes[i], prefixes[j], size)
  }

  /** Two watches are under this prefix. */
  ghost predicate CoversTwo(prefixes: seq<string>, s: string) {
    exists i, j :: 0 <= i < j < |prefixes| && HasPrefix(prefixes[i], s) && HasPrefix(prefixes[j], s)
  }

  lemma {:induction false} FirstMatch(prefixes: seq<string>, s: string, size: nat) returns (i: nat)
    ensures i <= |prefixes| && forall j :: 0 <= j < i ==> CommonPrefix(s, prefixes[j], size) == ""
    ensures if i < |prefixes|
            then CommonPrefix(s, prefixes[i], size) != ""
                 && Attached(prefixes, s, size) == prefixes[i := CommonPrefix(s, prefixes[i], size)]
            else Attached(prefixes, s, size) == prefixes + [s]
  {
    i := 0;
    while i < |prefixes| && CommonPrefix(s, prefixes[i], size) == ""
      invariant i <= |prefixes| && forall j :: 0 <= j < i ==> CommonPrefix(s, prefixes[j], size) == ""
    {
      i := i + 1;
    }
    if i < |prefixes| {
      AttachedAt(prefixes, s, size, i);
    } else {
      AttachedLast(prefixes, s, size);
    }
  }

  /** Two prefixes that have no common prefix in the sense of `Attach`: neither is under the other, and they agree on
      fewer than `size` characters. */
  lemma NoCommonPrefix(s: string, t: string, size: nat)
    requires size >= 1 && s != "" && t != "" && CommonPrefix(s, t, size) == ""
    ensures !HasPrefix(s, t) && !HasPrefix(t, s) && Apart(s, t, size)
  {
    if HasPrefix(s, t) {
      LcpIsLongest(s, t, t);
    }
    if HasPrefix(t, s) {
      LcpIsLongest(s, t, s);
    }
    forall r | HasPrefix(s, r) && HasPrefix(t, r) ensures |r| < size {
      LcpIsLongest(s, t, r);
    }
  }

  /** Taking a watch back to one of its prefixes. */
  lemma Shortened(prefixes: seq<string>, size: nat, i: nat, c: string)
    requires Spread(prefixes, size) && i < |prefixes| && c != "" && HasPrefix(prefixes[i], c)
    ensures Antichain(prefixes[i := c]) <==> forall j :: 0 <= j < |prefixes| && j != i ==> !HasPrefix(prefixes[j], c)
    ensures Antichain(prefixes[i := c]) ==> Spread(prefixes[i := c], size)
  {
    var after := prefixes[i := c];
    if Antichain(after) {
      forall j | 0 <= j < |prefixes| && j != i ensures !HasPrefix(prefixes[j], c) {
        assert !HasPrefix(after[j], after[i]);
      }
      forall j, k | 0 <= j < |after| && 0 <= k < |after| && j != k ensures Apart(after[j], after[k], size) {
        assert Apart(prefixes[j], prefixes[k], size);
      }
    } else {
      var j, k :| 0 <= j < |after| && 0 <= k < |after| && j != k && HasPrefix(after[k], after[j]);
      assert !HasPrefix(prefixes[k], prefixes[j]);
    }
  }

  /** From watches that are apart, attaching a prefix keeps them apart exactly when it does not cover two of them. */
  lemma StaysApartExactlyWhen(prefixes: seq<string>, s: string, size: nat)
    requires size >= 1 && Spread(prefixes, size) && s != ""
    ensures Antichain(Attached(prefixes, s, size)) <==> !CoversTwo(prefixes, s)
    ensures !CoversTwo(prefixes, s) ==> Spread(Attached(prefixes, s, size), size)
  {
    var i := FirstMatch(prefixes, s, size);
    if i == |prefixes| {
      forall j | 0 <= j < |prefixes|
        ensures !HasPrefix(s, prefixes[j]) && !HasPrefix(prefixes[j], s) && Apart(s, prefixes[j], size)
      {
        NoCommonPrefix(s, prefixes[j], size);
      }
    } else {
      var w := prefixes[i];
      var c := CommonPrefix(s, w, size);
      Shortened(prefixes, size, i, c);
      if c == s {
        CoversAnother(prefixes, s, i);
      } else {
        CoversNoTwo(prefixes, s, size, i);
        forall j | 0 <= j < |prefixes| && j != i ensures !HasPrefix(prefixes[j], c) {
          assert Apart(w, prefixes[j], size) && !HasPrefix(prefixes[j], w);
        }
      }
    }
  }

  lemma CoversAnother(prefixes: seq<string>, s: string, i: nat)
    requires i < |prefixes| && HasPrefix(prefixes[i], s)
    ensures CoversTwo(prefixes, s) <==> exists j :: 0 <= j < |prefixes| && j != i && HasPrefix(prefixes[j], s)
  {
  }

  lemma CoversNoTwo(prefixes: seq<string>, s: string, size: nat, i: nat)
    requires Spread(prefixes, size) && i < |prefixes|
    requires CommonPrefix(s, prefixes[i], size) !in ["", s]
    ensures !CoversTwo(prefixes, s)
  {
    forall j, k | 0 <= j < k < |prefixes| && HasPrefix(prefixes[j], s) ensures !HasPrefix(prefixes[k], s) {
      assert Apart(prefixes[j], prefixes[k], size);
      if HasPrefix(prefixes[k], s) {
        UnderBoth(prefixes[i], prefixes[j], prefixes[k], s, size);
      }
    }
  }

  lemma UnderBoth(w: string, p: string, q: string, s: string, size: nat)
    requires HasPrefix(p, s) && HasPrefix(q, s) && CommonPrefix(s, w, size) !in ["", s]
    ensures (HasPrefix(p, w) && HasPrefix(q, w)) || !Apart(p, q, size)
  {
    var r := Lcp(s, w);
    assert HasPrefix(p, r) && HasPrefix(q, r);
  }

  /** Once a watch is under another, it stays so. */
  lemma OverlapStays(prefixes: seq<string>, s: string, size: nat)
    requires !Antichain(prefixes)
    ensures !Antichain(Attached(prefixes, s, size))
  {
    var j, k :| 0 <= j < |prefixes| && 0 <= k < |prefixes| && j != k && HasPrefix(prefixes[k], prefixes[j]);
    var i := FirstMatch(prefixes, s, size);
    var after := Attached(prefixes, s, size);
    if i == k {
      PrefixesCompare(prefixes[k], prefixes[j], after[k]);
      assert HasPrefix(after[k], after[j]) || HasPrefix(after[j], after[k]);
    } else {
      assert HasPrefix(after[k], after[j]);
    }
  }

  // ---------- Attaching one after the other ----------

  /** The prefix attached at `n` covers two earlier ones that agree on fewer than `size` characters, and none of the
      earlier ones had brought these two together. */
  ghost predicate Spoils(observed: seq<string>, size: nat, n: int, i: int, j: int) {
    && 0 <= i < n < |observed| && 0 <= j < n
    && HasPrefix(observed[i], observed[n]) && HasPrefix(observed[j], observed[n])
    && Apart(observed[i], observed[j], size)
    && forall m :: 0 <= m < n ==> !(HasPrefix(observed[i], observed[m]) && HasPrefix(observed[j], observed[m]))
  }

  /** No prefix spoils the watches, and an empty one stands alone. */
  ghost predicate Separable(observed: seq<string>, size: nat) {
    if "" in observed then |observed| == 1 else forall n, i, j :: !Spoils(observed, size, n, i, j)
  }

  /** What the watches have in common with the prefixes attached, as long as none is under another. */
  ghost predicate Stands(prefixes: seq<string>, observed: seq<string>, size: nat) {
    && Spread(prefixes, size)
    && (forall k :: 0 <= k < |prefixes| ==> |prefixes[k]| >= size || prefixes[k] in observed)
    && (forall i :: 0 <= i < |observed| ==> Covers(prefixes, observed[i]))
    && Useful(prefixes, observed)
  }

  lemma SpoilsIfCoversTwo(prefixes: seq<string>, observed: seq<string>, size: nat, s: string)
    requires Stands(prefixes, observed, size) && CoversTwo(prefixes, s)
    ensures SpoilsLast(observed, s, size)
  {
    var k, l :| 0 <= k < l < |prefixes| && HasPrefix(prefixes[k], s) && HasPrefix(prefixes[l], s);
    var i := MadeForWhich(prefixes, observed, k);
    var j := MadeForWhich(prefixes, observed, l);
    NotTogether(prefixes, observed, size, k, l, observed[i], observed[j]);
    PrefixOfPrefix(observed[i], prefixes[k], s);
    PrefixOfPrefix(observed[j], prefixes[l], s);
    SpoilsBy(observed, size, s, i, j);
  }

  lemma MadeForWhich(prefixes: seq<string>, observed: seq<string>, k: nat) returns (i: nat)
    requires Useful(prefixes, observed) && k < |prefixes|
    ensures i < |observed| && HasPrefix(observed[i], prefixes[k])
  {
    assert MadeFor(prefixes[k], observed);
    i :| 0 <= i < |observed| && HasPrefix(observed[i], prefixes[k]);
  }

  lemma PrefixOfPrefix(p: string, q: string, r: string)
    requires HasPrefix(p, q) && HasPrefix(q, r)
    ensures HasPrefix(p, r)
  {
  }

  lemma SpoilsBy(observed: seq<string>, size: nat, s: string, i: nat, j: nat)
    requires i < |observed| && j < |observed| && HasPrefix(observed[i], s) && HasPrefix(observed[j], s)
    requires Apart(observed[i], observed[j], size)
    requires forall t :: t in observed ==> !(HasPrefix(observed[i], t) && HasPrefix(observed[j], t))
    ensures Spoils(observed + [s], size, |observed|, i, j) && SpoilsLast(observed, s, size)
  {
    var all := observed + [s];
    forall m | 0 <= m < |observed| ensures !(HasPrefix(all[i], all[m]) && HasPrefix(all[j], all[m])) {
      assert all[m] == observed[m] && all[m] in observed;
    }
  }

  /** Prefixes under different watches are apart, and nothing attached covers both. */
  lemma NotTogether(prefixes: seq<string>, observed: seq<string>, size: nat, k: nat, l: nat, p: string, q: string)
    requires Stands(prefixes, observed, size) && k < |prefixes| && l < |prefixes| && k != l
    requires HasPrefix(p, prefixes[k]) && HasPrefix(q, prefixes[l])
    ensures Apart(p, q, size)
    ensures forall t :: t in observed ==> !(HasPrefix(p, t) && HasPrefix(q, t))
  {
    assert Apart(prefixes[k], prefixes[l], size);
    forall r | HasPrefix(p, r) && HasPrefix(q, r) ensures |r| < size && r !in observed {
      Between(prefixes[k], prefixes[l], p, q, r);
      if m :| 0 <= m < |observed| && observed[m] == r {
        assert Covers(prefixes, observed[m]);
        UnderNone(prefixes, k, l, r);
      }
    }
  }

  lemma UnderNone(prefixes: seq<string>, k: nat, l: nat, r: string)
    requires Antichain(prefixes) && k < |prefixes| && l < |prefixes| && k != l && Covers(prefixes, r)
    ensures !HasPrefix(prefixes[k], r) || !HasPrefix(prefixes[l], r)
  {
    var w :| 0 <= w < |prefixes| && HasPrefix(r, prefixes[w]);
    var other := if w == k then l else k;
    assert !HasPrefix(prefixes[other], prefixes[w]);
  }

  /** What two strings under different watches have in common, the watches have in common. */
  lemma Between(a: string, b: string, p: string, q: string, r: string)
    requires !HasPrefix(a, b) && !HasPrefix(b, a)
    requires HasPrefix(p, a) && HasPrefix(q, b) && HasPrefix(p, r) && HasPrefix(q, r)
    ensures HasPrefix(a, r) && HasPrefix(b, r)
  {
    PrefixesCompare(p, a, r);
    PrefixesCompare(q, b, r);
    if HasPrefix(r, a) {
      PrefixesCompare(q, a, b);
    } else if HasPrefix(r, b) {
      PrefixesCompare(p, a, b);
    }
  }

  lemma CoversTwoIfSpoils(prefixes: seq<string>, observed: seq<string>, size: nat, s: string, i: int, j: int)
    requires Stands(prefixes, observed, size) && Spoils(observed + [s], size, |observed|, i, j)
    ensures CoversTwo(prefixes, s)
  {
    var p, q := observed[i], observed[j];
    SpoiledWhat(observed, size, s, i, j);
    var k := CoveredBy(prefixes, observed, i);
    var l := CoveredBy(prefixes, observed, j);
    NotBoth(prefixes[k], observed, p, q, size);
    assert k != l;
    Between(prefixes[k], prefixes[l], p, q, s);
  }

  lemma CoveredBy(prefixes: seq<string>, observed: seq<string>, i: nat) returns (k: nat)
    requires i < |observed| && forall m :: 0 <= m < |observed| ==> Covers(prefixes, observed[m])
    ensures k < |prefixes| && HasPrefix(observed[i], prefixes[k])
  {
    assert Covers(prefixes, observed[i]);
    k :| 0 <= k < |prefixes| && HasPrefix(observed[i], prefixes[k]);
  }

  /** A watch covers no two prefixes that are apart and that nothing attached covers. */
  lemma NotBoth(watch: string, observed: seq<string>, p: string, q: string, size: nat)
    requires |watch| >= size || watch in observed
    requires Apart(p, q, size) && forall t :: t in observed ==> !(HasPrefix(p, t) && HasPrefix(q, t))
    ensures !(HasPrefix(p, watch) && HasPrefix(q, watch))
  {
  }

  lemma SpoiledWhat(observed: seq<string>, size: nat, s: string, i: int, j: int)
    requires Spoils(observed + [s], size, |observed|, i, j)
    ensures 0 <= i < |observed| && 0 <= j < |observed|
    ensures HasPrefix(observed[i], s) && HasPrefix(observed[j], s) && Apart(observed[i], observed[j], size)
    ensures forall t :: t in observed ==> !(HasPrefix(observed[i], t) && HasPrefix(observed[j], t))
  {
    var all := observed + [s];
    assert all[i] == observed[i] && all[j] == observed[j] && all[|observed|] == s;
    forall t | t in observed ensures !(HasPrefix(observed[i], t) && HasPrefix(observed[j], t)) {
      var m :| 0 <= m < |observed| && observed[m] == t;
      assert all[m] == t;
    }
  }

  lemma StandsStep(prefixes: seq<string>, observed: seq<string>, size: nat, s: string)
    requires size >= 1 && Stands(prefixes, observed, size) && s != "" && !CoversTwo(prefixes, s)
    ensures Stands(Attached(prefixes, s, size), observed + [s], size)
  {
    StaysApartExactlyWhen(prefixes, s, size);
    CoversStep(prefixes, observed, size, s);
    UsefulStep(prefixes, observed, size, s);
    ShortStep(prefixes, observed, size, s);
  }

  lemma CoversStep(prefixes: seq<string>, observed: seq<string>, size: nat, s: string)
    requires forall i :: 0 <= i < |observed| ==> Covers(prefixes, observed[i])
    ensures var all := observed + [s]; forall i :: 0 <= i < |all| ==> Covers(Attached(prefixes, s, size), all[i])
  {
    var all := observed + [s];
    forall i | 0 <= i < |all| ensures Covers(Attached(prefixes, s, size), all[i]) {
      assert i < |observed| ==> all[i] == observed[i];
      AttachedCovers(prefixes, s, size, all[i]);
    }
  }

  lemma UsefulStep(prefixes: seq<string>, observed: seq<string>, size: nat, s: string)
    requires Useful(prefixes, observed)
    ensures Useful(Attached(prefixes, s, size), observed + [s])
  {
    var all := observed + [s];
    forall k | 0 <= k < |prefixes| ensures MadeFor(prefixes[k], all) {
      assert MadeFor(prefixes[k], observed);
      var i :| 0 <= i < |observed| && HasPrefix(observed[i], prefixes[k]);
      assert HasPrefix(all[i], prefixes[k]);
    }
    assert MadeFor(s, all) by {
      assert HasPrefix(all[|observed|], s);
    }
    AttachedUseful(prefixes, s, size, all);
  }

  /** A short watch is always one of the prefixes attached. */
  lemma ShortStep(prefixes: seq<string>, observed: seq<string>, size: nat, s: string)
    requires forall k :: 0 <= k < |prefixes| ==> |prefixes[k]| >= size || prefixes[k] in observed
    ensures var after := Attached(prefixes, s, size);
            forall k :: 0 <= k < |after| ==> |after[k]| >= size || after[k] in observed + [s]
  {
    var i := FirstMatch(prefixes, s, size);
    var after := Attached(prefixes, s, size);
    forall k | 0 <= k < |after| ensures |after[k]| >= size || after[k] in observed + [s] {
      if k < |prefixes| && k != i {
        assert after[k] == prefixes[k];
      }
    }
  }

  lemma {:induction false} StandsExactlyWhen(observed: seq<string>, size: nat)
    requires size >= 1 && "" !in observed
    ensures Antichain(Watches(observed, size)) <==> Separable(observed, size)
    ensures Antichain(Watches(observed, size)) ==> Stands(Watches(observed, size), observed, size)
    decreases |observed|
  {
    if observed != [] {
      var front, s := observed[..|observed| - 1], observed[|observed| - 1];
      var before := Watches(front, size);
      assert observed == front + [s];
      StandsExactlyWhen(front, size);
      StandsOn(before, front, size, s);
    }
  }

  lemma StandsOn(prefixes: seq<string>, observed: seq<string>, size: nat, s: string)
    requires size >= 1 && "" !in observed + [s]
    requires Antichain(prefixes) <==> Separable(observed, size)
    requires Antichain(prefixes) ==> Stands(prefixes, observed, size)
    ensures Antichain(Attached(prefixes, s, size)) <==> Separable(observed + [s], size)
    ensures Antichain(Attached(prefixes, s, size)) ==> Stands(Attached(prefixes, s, size), observed + [s], size)
  {
    assert s in observed + [s];
    SeparableStep(observed, s, size);
    if !Antichain(prefixes) {
      OverlapStays(prefixes, s, size);
    } else {
      LastStep(prefixes, observed, size, s);
    }
  }

  lemma LastStep(prefixes: seq<string>, observed: seq<string>, size: nat, s: string)
    requires size >= 1 && Stands(prefixes, observed, size) && s != ""
    ensures Antichain(Attached(prefixes, s, size)) <==> !SpoilsLast(observed, s, size)
    ensures Antichain(Attached(prefixes, s, size)) ==> Stands(Attached(prefixes, s, size), observed + [s], size)
  {
    StaysApartExactlyWhen(prefixes, s, size);
    if CoversTwo(prefixes, s) {
      SpoilsIfCoversTwo(prefixes, observed, size, s);
    } else {
      StandsStep(prefixes, observed, size, s);
      if SpoilsLast(observed, s, size) {
        var i, j :| Spoils(observed + [s], size, |observed|, i, j);
        CoversTwoIfSpoils(prefixes, observed, size, s, i, j);
      }
    }
  }

  ghost predicate SpoilsLast(observed: seq<string>, s: string, size: nat) {
    exists i, j :: Spoils(observed + [s], size, |observed|, i, j)
  }

  /** What was attached later does not matter. */
  lemma SeparableStep(front: seq<string>, s: string, size: nat)
    requires "" !in front + [s]
    ensures Separable(front + [s], size) <==> Separable(front, size) && !SpoilsLast(front, s, size)
  {
    var all := front + [s];
    assert "" !in front by {
      assert forall t :: t in front ==> t in all;
    }
    forall n, i, j | n < |front| ensures Spoils(all, size, n, i, j) <==> Spoils(front, size, n, i, j) {
      assert forall m :: 0 <= m < |front| ==> all[m] == front[m];
    }
    assert forall n, i, j :: Spoils(all, size, n, i, j) ==> n < |front| || n == |front|;
  }

  lemma {:induction false} EmptyNeverMerges(observed: seq<string>, size: nat)
    ensures |Watches(observed, size)| >= (if |observed| < 2 then |observed| else if "" in observed then 2 else 1)
    ensures observed == [""] ==> Watches(observed, size) == [""]
    decreases |observed|
  {
    if observed != [] {
      var front, s := observed[..|observed| - 1], observed[|observed| - 1];
      assert observed == front + [s];
      EmptyNeverMerges(front, size);
      var i := FirstMatch(Watches(front, size), s, size);
      if front == [""] {
        assert CommonPrefix(s, "", size) == "";
      }
    }
  }

  /** No watched prefix is under another exactly when the prefixes were attached in an order in which none covers two
      earlier ones that nothing had brought together. */
  lemma ApartExactlyWhen(observed: seq<string>, size: nat)
    requires size >= 1
    ensures Antichain(Watches(observed, size)) <==> Separable(observed, size)
  {
    if "" in observed {
      EmptyNeverMerges(observed, size);
      AllCovered(observed, size);
      var prefixes := Watches(observed, size);
      var k :| 0 <= k < |observed| && observed[k] == "";
      assert Covers(prefixes, "");
      var w :| 0 <= w < |prefixes| && HasPrefix("", prefixes[w]);
      if |observed| == 1 {
        assert observed == [""];
      } else {
        var other := if w == 0 then 1 else 0;
        assert HasPrefix(prefixes[other], prefixes[w]);
      }
    } else {
      StandsExactlyWhen(observed, size);
    }
  }

  /** Prefixes that are not shorter than the minimum length meet the condition, in any order. */
  lemma LongIsSeparable(observed: seq<string>, size: nat)
    requires size >= 1 && AllLong(observed, size)
    ensures Separable(observed, size)
  {
    forall n, i, j | 0 <= n < |observed| && 0 <= i < n && 0 <= j < n
      ensures HasPrefix(observed[i], observed[n]) && HasPrefix(observed[j], observed[n]) ==>
                !Apart(observed[i], observed[j], size)
    {
      assert |observed[n]| >= size;
    }
  }

  /** So, for whatever is attached and in whatever order, every event is handled once by each matching observer and by
      no other, exactly under this condition on the prefixes attached. */
  lemma OnceExactlyWhen(observers: seq<Observer>, size: nat)
    requires size >= 1
    ensures (forall event :: Once(Watches(PrefixesOf(observers), size), observers, event))
            <==> Separable(PrefixesOf(observers), size)
  {
    OnceExactlyWhenAntichain(observers, size);
    ApartExactlyWhen(PrefixesOf(observers), size);
  }
}
