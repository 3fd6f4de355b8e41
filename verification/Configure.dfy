/** Building a configuration from its drivers, and closing it: `newConfigure` and `Close` in `config/configure.go`,
    over drivers whose `Close` has one effect, as in `config/driver/file/file.go` and `config/driver/etcd/etcd.go`. */
module Configure {
  import opened Rules

  class Driver {
    const namespaces: seq<Namespace>
    var closed: bool
    /** How often what the driver holds has been released. */
    var closes: nat

    constructor (namespaces: seq<Namespace>)
      ensures this.namespaces == namespaces && !closed && closes == 0
    {
      this.namespaces, closed, closes := namespaces, false, 0;
    }

    method Close()
      modifies this
      ensures closed && closes == old(closes) + if old(closed) then 0 else 1
    {
      if closed {
        return;
      }
      closes := closes + 1;
      closed := true;
    }
  }

  /** What opening the driver of one configuration gives. */
  datatype Outcome = Opened(driver: Driver) | Failed

  ghost predicate Claims(outcomes: seq<Outcome>, i: int, namespace: Namespace) {
    0 <= i < |outcomes| && outcomes[i].Opened? && namespace in outcomes[i].driver.namespaces
  }

  ghost predicate NoRepeats(names: seq<Namespace>) {
    forall a, b :: 0 <= a < b < |names| ==> names[a] != names[b]
  }

  /** Construction cannot get past this outcome: it is a failure, or its namespaces are not all new. */
  ghost predicate Bad(outcomes: seq<Outcome>, k: int) {
    && 0 <= k < |outcomes|
    && (|| outcomes[k].Failed?
        || !NoRepeats(outcomes[k].driver.namespaces)
        || exists i, np :: i < k && Claims(outcomes, i, np) && np in outcomes[k].driver.namespaces)
  }

  ghost predicate FirstBad(outcomes: seq<Outcome>, k: int) {
    Bad(outcomes, k) && forall i :: i < k ==> !Bad(outcomes, i)
  }

  /** The drivers are different objects, and new. */
  ghost predicate Distinct(outcomes: seq<Outcome>)
    reads DriversOf(outcomes)
  {
    && (forall i, j :: 0 <= i < j < |outcomes| && outcomes[i].Opened? && outcomes[j].Opened? ==>
                         outcomes[i].driver != outcomes[j].driver)
    && forall d :: d in DriversOf(outcomes) ==> !d.closed && d.closes == 0
  }

  ghost function DriversOf(outcomes: seq<Outcome>): set<Driver> {
    set i | 0 <= i < |outcomes| && outcomes[i].Opened? :: outcomes[i].driver
  }

  /** The map leads from every claimed namespace to the driver that claims it, and from no other. */
  ghost predicate IsUnion(ds: map<Namespace, Driver>, outcomes: seq<Outcome>) {
    && (forall np :: np in ds ==> exists i :: Claims(outcomes, i, np))
    && forall i, np :: Claims(outcomes, i, np) ==> np in ds && ds[np] == outcomes[i].driver
  }

  /** Of the drivers, those are closed that were opened before `k` and have a namespace, and the one at `k`; each
      just once. */
  ghost predicate ClosedUpTo(outcomes: seq<Outcome>, k: int)
    reads DriversOf(outcomes)
  {
    forall i :: 0 <= i < |outcomes| && outcomes[i].Opened? ==>
      var d := outcomes[i].driver;
      d.closed == (i == k || (i < k && d.namespaces != [])) && d.closes == if d.closed then 1 else 0
  }

  class Configure {
    var ds: map<Namespace, Driver>

    constructor ()
      ensures ds == map[]
    {
      ds := map[];
    }

    method Close()
      modifies ds.Values
      ensures forall d :: d in ds.Values ==> d.closed && d.closes == old(d.closes) + if old(d.closed) then 0 else 1
    {
      var rest := ds.Keys;
      while rest != {}
        invariant rest <= ds.Keys
        invariant forall np :: np in ds && np !in rest ==> ds[np].closed
        invariant forall d :: d in ds.Values ==> || (d.closed == old(d.closed) && d.closes == old(d.closes))
                                                 || (d.closed && !old(d.closed) && d.closes == old(d.closes) + 1)
      {
        var np :| np in rest;
        ds[np].Close();
        rest := rest - {np};
      }
    }

    /** The loop over the namespaces of one driver.  It stops at the first one that is taken. */
    method Claim(d: Driver) returns (i: nat)
      modifies this`ds
      ensures i <= |d.namespaces| && ds == Bound(old(ds), d.namespaces[..i], d)
      ensures NoRepeats(d.namespaces[..i]) && forall a :: 0 <= a < i ==> d.namespaces[a] !in old(ds)
      ensures i < |d.namespaces| ==> d.namespaces[i] in ds
    {
      i := 0;
      while i < |d.namespaces| && d.namespaces[i] !in ds
        invariant 0 <= i <= |d.namespaces| && ds == Bound(old(ds), d.namespaces[..i], d)
        invariant NoRepeats(d.namespaces[..i]) && forall a :: 0 <= a < i ==> d.namespaces[a] !in old(ds)
      {
        assert d.namespaces[..i + 1] == d.namespaces[..i] + [d.namespaces[i]];
        ds := ds[d.namespaces[i] := d];
        i := i + 1;
      }
    }

    /** A driver with a namespace that is taken is closed, and so are all drivers before it. */
    method AddDriver(d: Driver) returns (ok: bool)
      modifies this`ds, d, ds.Values
      ensures ok <==> NoRepeats(d.namespaces) && forall np :: np in d.namespaces ==> np !in old(ds)
      ensures ok ==> ds == Bound(old(ds), d.namespaces, d)
      ensures ok ==> forall e :: e == d || e in old(ds).Values ==> e.closed == old(e.closed) && e.closes == old(e.closes)
      ensures !ok ==> forall e :: e == d || e in old(ds).Values ==>
                        e.closed && e.closes == old(e.closes) + if old(e.closed) then 0 else 1
    {
      var i := Claim(d);
      ghost var all := d.namespaces;
      if i < |d.namespaces| {
        Taken(old(ds), d, i);
        d.Close();
        Close();
        return false;
      }
      assert all[..i] == all;
      return true;
    }

    /** `newConfigure`: it succeeds exactly when nothing is bad, and then the map is the disjoint union of all the
        drivers' namespaces; otherwise it leaves every driver opened so far closed that has a namespace. */
    static method New(outcomes: seq<Outcome>) returns (cfg: Configure, ok: bool)
      requires Distinct(outcomes)
      modifies DriversOf(outcomes)
      ensures fresh(cfg)
      ensures ok <==> forall k :: !Bad(outcomes, k)
      ensures ok ==> IsUnion(cfg.ds, outcomes) && ClosedUpTo(outcomes, -1)
      ensures !ok ==> exists k :: FirstBad(outcomes, k) && ClosedUpTo(outcomes, k)
    {
      cfg := new Configure();
      var i := 0;
      while i < |outcomes|
        invariant 0 <= i <= |outcomes| && fresh(cfg)
        invariant forall k :: k < i ==> !Bad(outcomes, k)
        invariant IsUnion(cfg.ds, outcomes[..i])
        invariant Distinct(outcomes)
      {
        ValuesAre(cfg.ds, outcomes, i);
        match outcomes[i]
        case Failed =>
          cfg.Close();
          assert FirstBad(outcomes, i) && ClosedUpTo(outcomes, i);
          return cfg, false;
        case Opened(d) =>
          ghost var before := cfg.ds;
          BadExactlyWhen(before, outcomes, i);
          ok := cfg.AddDriver(d);
          if !ok {
            assert FirstBad(outcomes, i) && ClosedUpTo(outcomes, i);
            return;
          }
          UnionStep(before, outcomes, i);
        i := i + 1;
      }
      assert outcomes[..i] == outcomes;
      ok := true;
    }
  }

  /** A namespace that is found in the map is either an older driver's or a repeated one. */
  lemma Taken(ds: map<Namespace, Driver>, d: Driver, i: nat)
    requires i < |d.namespaces| && d.namespaces[i] in Bound(ds, d.namespaces[..i], d)
    requires forall a :: 0 <= a < i ==> d.namespaces[a] !in ds
    ensures !NoRepeats(d.namespaces) || (d.namespaces[i] in d.namespaces && d.namespaces[i] in ds)
    ensures ds.Values <= Bound(ds, d.namespaces[..i], d).Values <= ds.Values + {d}
  {
    var after := Bound(ds, d.namespaces[..i], d);
    forall np | np in ds ensures ds[np] in after.Values {
      assert after[np] == ds[np];
    }
  }

  lemma ValuesAre(ds: map<Namespace, Driver>, outcomes: seq<Outcome>, i: nat)
    requires i <= |outcomes| && IsUnion(ds, outcomes[..i])
    ensures ds.Values <= DriversOf(outcomes)
    ensures forall j :: 0 <= j < i && outcomes[j].Opened? ==>
                          (outcomes[j].driver.namespaces != [] ==> outcomes[j].driver in ds.Values)
    ensures forall d :: d in ds.Values ==>
                          exists j :: 0 <= j < i && outcomes[j] == Opened(d) && d.namespaces != []
  {
    forall np | np in ds
      ensures exists j :: 0 <= j < i && outcomes[j] == Opened(ds[np]) && ds[np].namespaces != []
    {
      var j :| Claims(outcomes[..i], j, np);
      assert outcomes[j] == Opened(ds[np]);
    }
    forall j | 0 <= j < i && outcomes[j].Opened? && outcomes[j].driver.namespaces != []
      ensures outcomes[j].driver in ds.Values
    {
      assert Claims(outcomes[..i], j, outcomes[j].driver.namespaces[0]);
    }
  }

  lemma BadExactlyWhen(ds: map<Namespace, Driver>, outcomes: seq<Outcome>, i: nat)
    requires i < |outcomes| && outcomes[i].Opened? && IsUnion(ds, outcomes[..i])
    ensures var names := outcomes[i].driver.namespaces;
            Bad(outcomes, i) <==> !NoRepeats(names) || exists np :: np in names && np in ds
  {
    var names := outcomes[i].driver.namespaces;
    forall np | np in names && np in ds ensures Bad(outcomes, i) {
      var j :| Claims(outcomes[..i], j, np);
      assert Claims(outcomes, j, np);
    }
    forall j, np | j < i && Claims(outcomes, j, np) && np in names ensures np in ds {
      assert Claims(outcomes[..i], j, np);
    }
  }

  lemma UnionStep(ds: map<Namespace, Driver>, outcomes: seq<Outcome>, i: nat)
    requires i < |outcomes| && outcomes[i].Opened? && IsUnion(ds, outcomes[..i]) && !Bad(outcomes, i)
    ensures IsUnion(Bound(ds, outcomes[i].driver.namespaces, outcomes[i].driver), outcomes[..i + 1])
  {
    var d := outcomes[i].driver;
    var after, now := Bound(ds, d.namespaces, d), outcomes[..i + 1];
    forall np | np in after ensures exists j :: Claims(now, j, np) {
      if np in d.namespaces {
        assert Claims(now, i, np);
      } else {
        var j :| Claims(outcomes[..i], j, np);
        assert Claims(now, j, np);
      }
    }
    forall j, np | Claims(now, j, np) ensures np in after && after[np] == now[j].driver {
      if j < i {
        assert Claims(outcomes, j, np) && Claims(outcomes[..i], j, np);
      }
    }
  }

  /** Nothing is bad exactly when every driver opens and no namespace is claimed twice. */
  lemma NothingBadMeansDisjoint(outcomes: seq<Outcome>)
    ensures (forall k :: !Bad(outcomes, k)) <==>
            && (forall i :: 0 <= i < |outcomes| ==> outcomes[i].Opened? && NoRepeats(outcomes[i].driver.namespaces))
            && forall i, j, np :: Claims(outcomes, i, np) && Claims(outcomes, j, np) ==> i == j
  {
    if forall k :: !Bad(outcomes, k) {
      forall i, j, np | Claims(outcomes, i, np) && Claims(outcomes, j, np) ensures i == j {
        assert !Bad(outcomes, i) && !Bad(outcomes, j);
      }
      forall i | 0 <= i < |outcomes|
        ensures outcomes[i].Opened? && NoRepeats(outcomes[i].driver.namespaces)
      {
        assert !Bad(outcomes, i);
      }
    } else {
      var k :| Bad(outcomes, k);
      if outcomes[k].Opened? && NoRepeats(outcomes[k].driver.namespaces) {
        var i, np :| i < k && Claims(outcomes, i, np) && np in outcomes[k].driver.namespaces;
        assert Claims(outcomes, k, np);
      }
    }
  }
}
