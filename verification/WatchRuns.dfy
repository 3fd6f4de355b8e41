/** The watches of `etcdutil/watcher.go` running side by side, each in a goroutine of its own and at its own speed. */
module WatchRuns {
  import opened Watcher
  import opened Overlap

  /** How many of etcd's events each watch has gone through, and every call of an observer's `Handle`, in order. */
  datatype State = State(taken: seq<nat>, handled: seq<(Observer, Event)>)

  /** The watch at `i` goes on by one event.  It does not get those whose keys lie elsewhere. */
  function Step(prefixes: seq<string>, observers: seq<Observer>, history: seq<Event>, s: State, i: nat): State
    requires |s.taken| == |prefixes|
  {
    if i >= |prefixes| || s.taken[i] >= |history| then s
    else
      var e := history[s.taken[i]];
      State(s.taken[i := s.taken[i] + 1],
            s.handled + if HasPrefix(e.key, prefixes[i]) then With(Receivers(observers, e), e) else [])
  }

  /** The watches take turns as the schedule says. */
  function Run(prefixes: seq<string>, observers: seq<Observer>, history: seq<Event>, schedule: seq<nat>): (s: State)
    ensures |s.taken| == |prefixes| && forall i :: 0 <= i < |prefixes| ==> s.taken[i] <= |history|
  {
    if schedule == [] then State(seq(|prefixes|, _ => 0), [])
    else
      var n := |schedule| - 1;
      Step(prefixes, observers, history, Run(prefixes, observers, history, schedule[..n]), schedule[n])
  }

  /** The events that this observer has handled. */
  function EventsOf(handled: seq<(Observer, Event)>, o: Observer): seq<Event> {
    if handled == [] then []
    else
      var n := |handled| - 1;
      EventsOf(handled[..n], o) + if handled[n].0 == o then [handled[n].1] else []
  }

  predicate IsFor(event: Event, o: Observer) {
    !event.kind.Other? && HasPrefix(event.key, o.prefix)
  }

  /** The puts and deletes under this observer's prefix. */
  function Meant(history: seq<Event>, o: Observer): seq<Event> {
    if history == [] then []
    else
      var n := |history| - 1;
      Meant(history[..n], o) + if IsFor(history[n], o) then [history[n]] else []
  }

  predicate Distinct(observers: seq<Observer>) {
    forall i, j :: 0 <= i < j < |observers| ==> observers[i] != observers[j]
  }

  lemma {:induction false} EventsOfJoins(a: seq<(Observer, Event)>, b: seq<(Observer, Event)>, o: Observer)
    ensures EventsOf(a + b, o) == EventsOf(a, o) + EventsOf(b, o)
    decreases |b|
  {
    if b == [] {
      assert a + b == a;
    } else {
      var n := |b| - 1;
      assert (a + b)[..|a + b| - 1] == a + b[..n];
      EventsOfJoins(a, b[..n], o);
    }
  }

  lemma OneHanded(to: Observer, event: Event, o: Observer)
    ensures EventsOf([(to, event)], o) == if to == o then [event] else []
  {
    assert [(to, event)][..0] == [];
  }

  lemma HandedToOne(to: Observer, event: Event, o: Observer)
    ensures EventsOf(With(Receivers([to], event), event), o) == if to == o && IsFor(event, o) then [event] else []
  {
    ReceiversOfOne(to, event);
    OneHanded(to, event, o);
    assert With([to], event) == [(to, event)] && With([], event) == [];
  }

  lemma HandedOneMore(front: seq<Observer>, last: Observer, event: Event, o: Observer)
    ensures EventsOf(With(Receivers(front + [last], event), event), o)
            == EventsOf(With(Receivers(front, event), event), o) + EventsOf(With(Receivers([last], event), event), o)
  {
    var some, more := Receivers(front, event), Receivers([last], event);
    ReceiversJoin(front, [last], event);
    WithJoins(some, more, event);
    EventsOfJoins(With(some, event), With(more, event), o);
  }

  /** A watch hands an event to an observer once or not at all. */
  lemma {:induction false} HandedOnce(observers: seq<Observer>, event: Event, o: Observer)
    requires Distinct(observers)
    ensures EventsOf(With(Receivers(observers, event), event), o) == if o in observers && IsFor(event, o) then [event] else []
    decreases |observers|
  {
    if observers != [] {
      var front, last := observers[..|observers| - 1], observers[|observers| - 1];
      assert observers == front + [last] && last !in front;
      HandedOnce(front, event, o);
      HandedOneMore(front, last, event, o);
      HandedToOne(last, event, o);
    }
  }

  /** A watch that is not the observer's own never hands it anything. */
  lemma OtherWatch(prefixes: seq<string>, o: Observer, w: nat, i: nat, event: Event)
    requires Antichain(prefixes) && w < |prefixes| && HasPrefix(o.prefix, prefixes[w])
    requires i < |prefixes| && HasPrefix(event.key, prefixes[i]) && IsFor(event, o)
    ensures i == w
  {
    PrefixesCompare(event.key, prefixes[i], prefixes[w]);
  }

  /** The observer has handled exactly what is meant for it among the events that the watch has gone through. */
  ghost predicate KeepsStep(history: seq<Event>, s: State, o: Observer, w: int)
    requires 0 <= w < |s.taken| && s.taken[w] <= |history|
  {
    EventsOf(s.handled, o) == Meant(history[..s.taken[w]], o)
  }

  lemma MeantStep(history: seq<Event>, n: nat, o: Observer)
    requires n < |history|
    ensures Meant(history[..n + 1], o) == Meant(history[..n], o) + if IsFor(history[n], o) then [history[n]] else []
  {
    assert history[..n + 1][..n] == history[..n];
  }

  lemma StepKeepsStep(prefixes: seq<string>, observers: seq<Observer>, history: seq<Event>, s: State, i: nat,
                      o: Observer, w: nat)
    requires Antichain(prefixes) && Distinct(observers) && o in observers
    requires w < |prefixes| && HasPrefix(o.prefix, prefixes[w])
    requires |s.taken| == |prefixes| && i < |prefixes| && s.taken[i] < |history| && s.taken[w] <= |history|
    requires KeepsStep(history, s, o, w)
    ensures KeepsStep(history, Step(prefixes, observers, history, s, i), o, w)
  {
    var e := history[s.taken[i]];
    MeantStep(history, s.taken[i], o);
    assert s.handled + [] == s.handled;
    if HasPrefix(e.key, prefixes[i]) {
      EventsOfJoins(s.handled, With(Receivers(observers, e), e), o);
      HandedOnce(observers, e, o);
      if IsFor(e, o) {
        OtherWatch(prefixes, o, w, i, e);
      }
    } else if i == w {
      assert !IsFor(e, o);
    }
  }

  /** However the watches interleave, at any time an observer has handled exactly the events meant for it among those
      that its watch has gone through: each once, in the order in which etcd made them, and no others. */
  lemma {:induction false} HandledInOrder(prefixes: seq<string>, observers: seq<Observer>, history: seq<Event>,
                                          schedule: seq<nat>, o: Observer, w: nat)
    requires Antichain(prefixes) && Distinct(observers) && o in observers
    requires w < |prefixes| && HasPrefix(o.prefix, prefixes[w])
    ensures KeepsStep(history, Run(prefixes, observers, history, schedule), o, w)
    decreases |schedule|
  {
    if schedule != [] {
      var n := |schedule| - 1;
      var i, s := schedule[n], Run(prefixes, observers, history, schedule[..n]);
      HandledInOrder(prefixes, observers, history, schedule[..n], o, w);
      if i < |prefixes| && s.taken[i] < |history| {
        StepKeepsStep(prefixes, observers, history, s, i, o, w);
      }
    }
  }

  /** So it is for all observers of a watcher, every history and every interleaving, exactly when the prefixes attached
      are separable. */
  lemma EachInOrderExactlyWhen(observers: seq<Observer>, size: nat)
    requires size >= 1 && Distinct(observers)
    ensures (forall history, schedule :: InOrder(observers, size, history, schedule)) <==> Separable(PrefixesOf(observers), size)
  {
    var prefixes := Watches(PrefixesOf(observers), size);
    ApartExactlyWhen(PrefixesOf(observers), size);
    if Antichain(prefixes) {
      forall history, schedule ensures InOrder(observers, size, history, schedule) {
        forall o, w | o in observers && 0 <= w < |prefixes| && HasPrefix(o.prefix, prefixes[w])
          ensures KeepsStep(history, Run(prefixes, observers, history, schedule), o, w)
        {
          HandledInOrder(prefixes, observers, history, schedule, o, w);
        }
      }
    } else {
      AllCovered(PrefixesOf(observers), size);
      TwiceSomewhere(prefixes, observers);
      var history, schedule, o, w :| o in observers && 0 <= w < |prefixes| && HasPrefix(o.prefix, prefixes[w])
                                     && !KeepsStep(history, Run(prefixes, observers, history, schedule), o, w);
      assert !InOrder(observers, size, history, schedule);
    }
  }

  /** Every observer keeps step with each watch that covers it. */
  ghost predicate InOrder(observers: seq<Observer>, size: nat, history: seq<Event>, schedule: seq<nat>) {
    var prefixes := Watches(PrefixesOf(observers), size);
    forall o, w :: o in observers && 0 <= w < |prefixes| && HasPrefix(o.prefix, prefixes[w]) ==>
      KeepsStep(history, Run(prefixes, observers, history, schedule), o, w)
  }

  /** With one watch under another, an event under both that only one of them has gone through is out of step with the
      other. */
  lemma TwiceSomewhere(prefixes: seq<string>, observers: seq<Observer>)
    requires !Antichain(prefixes) && Useful(prefixes, PrefixesOf(observers)) && Distinct(observers)
    ensures exists history, schedule, o, w :: o in observers && 0 <= w < |prefixes| && HasPrefix(o.prefix, prefixes[w])
                                              && !KeepsStep(history, Run(prefixes, observers, history, schedule), o, w)
  {
    var i, j :| 0 <= i < |prefixes| && 0 <= j < |prefixes| && i != j && HasPrefix(prefixes[j], prefixes[i]);
    assert MadeFor(prefixes[j], PrefixesOf(observers));
    var k :| 0 <= k < |PrefixesOf(observers)| && HasPrefix(PrefixesOf(observers)[k], prefixes[j]);
    TwiceAt(prefixes, observers, i, j, observers[k]);
  }

  lemma TwiceAt(prefixes: seq<string>, observers: seq<Observer>, i: nat, j: nat, o: Observer)
    requires i < |prefixes| && j < |prefixes| && i != j && HasPrefix(o.prefix, prefixes[i])
    requires Distinct(observers) && o in observers
    ensures !KeepsStep([Event(Put, o.prefix)], Run(prefixes, observers, [Event(Put, o.prefix)], [i]), o, j)
  {
    var e := Event(Put, o.prefix);
    OneTurn(prefixes, observers, e, i);
    HandedOnce(observers, e, o);
  }

  lemma OneTurn(prefixes: seq<string>, observers: seq<Observer>, e: Event, i: nat)
    requires i < |prefixes| && HasPrefix(e.key, prefixes[i])
    ensures var s := Run(prefixes, observers, [e], [i]);
            && s.handled == With(Receivers(observers, e), e)
            && forall j :: 0 <= j < |prefixes| && j != i ==> s.taken[j] == 0
  {
    assert [i][..0] == [];
    var none := Run(prefixes, observers, [e], []);
    assert none.handled == [] && forall j :: 0 <= j < |prefixes| ==> none.taken[j] == 0;
    assert [] + With(Receivers(observers, e), e) == With(Receivers(observers, e), e);
  }
}
