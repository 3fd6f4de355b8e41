/** The round robin of `Discovery.Resolve` in `etcdutil/discovery.go`: a counter that wraps at 32 bits, taken modulo
    the number of hosts. */
module RoundRobin {

  const WORD := 0x1_0000_0000

  /** The host that `Resolve` picks with the ticket `n`. */
  function Pick(n: nat, hosts: nat): (i: nat)
    requires hosts >= 1
    ensures i < hosts
  {
    n % hosts
  }

  // ---------- Division ----------

  lemma {:induction false} MulBound(k: int, d: nat)
    requires d > 0
    ensures k >= 1 ==> k * d >= d
    ensures k <= -1 ==> k * d + d <= 0
    decreases if k < 0 then -k else k
  {
    if k > 1 {
      MulBound(k - 1, d);
      assert k * d == (k - 1) * d + d;
    } else if k < -1 {
      MulBound(k + 1, d);
      assert k * d == (k + 1) * d - d;
    }
  }

  lemma Distributes(x: int, y: int, d: int)
    ensures (x + y) * d == x * d + y * d
  {
  }

  lemma Euclid(m: nat, d: nat)
    requires d > 0
    ensures m == (m / d) * d + m % d && m % d < d
  {
  }

  lemma UniqueQuotient(x: int, y: int, d: nat, r: nat, s: nat)
    requires r < d && s < d && x * d + r == y * d + s
    ensures x == y && r == s
  {
    var k := x - y;
    Distributes(k, y, d);
    MulBound(k, d);
  }

  lemma DivModIs(m: nat, d: nat, q: nat, r: nat)
    requires d > 0 && m == q * d + r && r < d
    ensures m / d == q && m % d == r
  {
    Euclid(m, d);
    UniqueQuotient(m / d, q, d, m % d, r);
  }

  lemma SumDivMod(a: nat, b: nat, d: nat)
    requires d > 0
    ensures var carry := if a % d + b % d < d then 0 else 1;
            (a + b) / d == a / d + b / d + carry && (a + b) % d == a % d + b % d - carry * d
  {
    var q, p, r, s := a / d, b / d, a % d, b % d;
    Euclid(a, d);
    Euclid(b, d);
    Distributes(q, p, d);
    if r + s < d {
      DivModIs(a + b, d, q + p, r + s);
    } else {
      Distributes(q + p, 1, d);
      DivModIs(a + b, d, q + p + 1, r + s - d);
    }
  }

  lemma CeilingNearFloor(count: nat, hosts: nat)
    requires hosts >= 1
    ensures (count + hosts - 1) / hosts <= count / hosts + 1
  {
    SumDivMod(count, hosts - 1, hosts);
    DivModIs(hosts - 1, hosts, 0, hosts - 1);
  }

  lemma ModWrap(x: nat)
    ensures (x + WORD) % WORD == x % WORD
  {
  }

  lemma DropRemainder(m: nat, d: nat)
    requires d > 0
    ensures m % d <= m && (m - m % d) % d == 0 && 0 % d == 0
  {
    Euclid(m, d);
    MulBound(m / d, d);
    DivModIs(m - m % d, d, m / d, 0);
  }

  lemma TwoStretches(start: nat, r: nat, hosts: nat, h: nat)
    requires hosts >= 1 && start + r == WORD
    ensures Picks(start, r + r, hosts, h) == Picks(start, r, hosts, h) + Picks(0, r, hosts, h)
  {
    PicksSplit(start, r, r, hosts, h);
    PicksWrap(0, r, hosts, h);
  }

  // ---------- Counting picks ----------

  /** How many of the `count` tickets from `start` on pick host `h`, with the counter wrapping at its word size. */
  function Picks(start: nat, count: nat, hosts: nat, h: nat): nat
    requires hosts >= 1
  {
    if count == 0 then 0
    else Picks(start, count - 1, hosts, h) + if Pick((start + count - 1) % WORD, hosts) == h then 1 else 0
  }

  /** How many of the numbers below `m` are `h` modulo `hosts`. */
  function Below(m: nat, hosts: nat, h: nat): nat
    requires h < hosts
  {
    m / hosts + if m % hosts > h then 1 else 0
  }

  lemma BelowStep(m: nat, hosts: nat, h: nat)
    requires h < hosts
    ensures Below(m + 1, hosts, h) == Below(m, hosts, h) + if m % hosts == h then 1 else 0
  {
    var q, r := m / hosts, m % hosts;
    if r + 1 < hosts {
      DivModIs(m + 1, hosts, q, r + 1);
    } else {
      DivModIs(m + 1, hosts, q + 1, 0);
    }
  }

  lemma {:induction false} PicksBelow(start: nat, count: nat, hosts: nat, h: nat)
    requires h < hosts && start + count <= WORD
    ensures Picks(start, count, hosts, h) == Below(start + count, hosts, h) - Below(start, hosts, h)
    decreases count
  {
    if count > 0 {
      PicksBelow(start, count - 1, hosts, h);
      BelowStep(start + count - 1, hosts, h);
      TicketIs(start + count - 1);
    }
  }

  lemma TicketIs(n: nat)
    requires n < WORD
    ensures n % WORD == n
  {
  }

  lemma BelowSpread(start: nat, count: nat, hosts: nat, h: nat)
    requires h < hosts
    ensures count / hosts <= Below(start + count, hosts, h) - Below(start, hosts, h) <= (count + hosts - 1) / hosts
  {
    SumDivMod(start, count, hosts);
    SumDivMod(count, hosts - 1, hosts);
    DivModIs(hosts - 1, hosts, 0, hosts - 1);
  }

  /** With a fixed list, consecutive tickets without a wrap of the counter pick every host floor or ceiling of the
      average number of times. */
  lemma RoundRobinBalance(start: nat, count: nat, hosts: nat, h: nat)
    requires h < hosts && start + count <= WORD
    ensures count / hosts <= Picks(start, count, hosts, h) <= (count + hosts - 1) / hosts
  {
    PicksBelow(start, count, hosts, h);
    BelowSpread(start, count, hosts, h);
  }

  lemma {:induction false} PicksSplit(start: nat, some: nat, more: nat, hosts: nat, h: nat)
    requires hosts >= 1
    ensures Picks(start, some + more, hosts, h) == Picks(start, some, hosts, h) + Picks(start + some, more, hosts, h)
    decreases more
  {
    if more > 0 {
      PicksSplit(start, some, more - 1, hosts, h);
      assert start + (some + more) - 1 == (start + some) + more - 1;
    }
  }

  lemma {:induction false} PicksWrap(start: nat, count: nat, hosts: nat, h: nat)
    requires hosts >= 1
    ensures Picks(start + WORD, count, hosts, h) == Picks(start, count, hosts, h)
    decreases count
  {
    if count > 0 {
      PicksWrap(start, count - 1, hosts, h);
      ModWrap(start + count - 1);
      assert start + WORD + count - 1 == start + count - 1 + WORD;
    }
  }

  /** On any stretch that crosses the wrap of the counter at most once, two hosts' counts differ by at most 2. */
  lemma RoundRobinAcrossWrap(start: nat, count: nat, hosts: nat, h: nat, g: nat)
    requires h < hosts && g < hosts && start < WORD && start + count <= 2 * WORD
    ensures Picks(start, count, hosts, h) - Picks(start, count, hosts, g) <= 2
  {
    var some := if start + count <= WORD then count else WORD - start;
    var more := count - some;
    PicksSplit(start, some, more, hosts, h);
    PicksSplit(start, some, more, hosts, g);
    RoundRobinBalance(start, some, hosts, h);
    RoundRobinBalance(start, some, hosts, g);
    CeilingNearFloor(some, hosts);
    if more > 0 {
      PicksWrap(0, more, hosts, h);
      PicksWrap(0, more, hosts, g);
      RoundRobinBalance(0, more, hosts, h);
      RoundRobinBalance(0, more, hosts, g);
      CeilingNearFloor(more, hosts);
    }
  }

  /** Every stretch of tickets is balanced, however long it is. */
  ghost predicate AlwaysBalanced(hosts: nat)
    requires hosts >= 1
  {
    forall start: nat, count: nat, h: nat, g: nat :: start < WORD && h < hosts && g < hosts ==>
      Picks(start, count, hosts, h) - Picks(start, count, hosts, g) <= 1
  }

  /** The wrap shows exactly when the number of hosts does not divide the number of tickets. */
  lemma BalancedExactlyWhenDivides(hosts: nat)
    requires 1 <= hosts < WORD
    ensures AlwaysBalanced(hosts) <==> WORD % hosts == 0
  {
    if WORD % hosts == 0 {
      forall start: nat, count: nat, h: nat, g: nat | start < WORD && h < hosts && g < hosts
        ensures Picks(start, count, hosts, h) - Picks(start, count, hosts, g) <= 1 {
        SeamlessWrap(start, count, hosts, h);
        SeamlessWrap(start, count, hosts, g);
        BelowSpread(start, count, hosts, h);
        BelowSpread(start, count, hosts, g);
        CeilingNearFloor(count, hosts);
      }
    } else {
      UnbalancedAtWrap(hosts);
    }
  }

  lemma {:induction false} SeamlessWrap(start: nat, count: nat, hosts: nat, h: nat)
    requires h < hosts && WORD % hosts == 0
    ensures Picks(start, count, hosts, h) == Below(start + count, hosts, h) - Below(start, hosts, h)
    decreases count
  {
    if count > 0 {
      SeamlessWrap(start, count - 1, hosts, h);
      var x := start + count - 1;
      BelowStep(x, hosts, h);
      WrapKeepsRemainder(x, hosts);
    }
  }

  lemma {:induction false} WrapKeepsRemainder(x: nat, hosts: nat)
    requires hosts >= 1 && WORD % hosts == 0
    ensures (x % WORD) % hosts == x % hosts
  {
    if x >= WORD {
      ModWrap(x - WORD);
      WrapKeepsRemainder(x - WORD, hosts);
      SumDivMod(x - WORD, WORD, hosts);
    } else {
      TicketIs(x);
    }
  }

  /** The tickets just before and just after the wrap pick the first hosts twice and the last host never. */
  lemma UnbalancedAtWrap(hosts: nat)
    requires 1 <= hosts < WORD && WORD % hosts != 0
    ensures !AlwaysBalanced(hosts)
  {
    var r := WORD % hosts;
    var start, last := WORD - r, hosts - 1;
    DropRemainder(WORD, hosts);
    FirstOfEach(start, r, hosts);
    FirstOfEach(0, r, hosts);
    TwoStretches(start, r, hosts, 0);
    TwoStretches(start, r, hosts, last);
    assert start < WORD;
    assert Picks(start, r + r, hosts, 0) - Picks(start, r + r, hosts, last) == 2;
  }

  /** From a ticket for the first host, fewer tickets than hosts pick the first host once and the last one never. */
  lemma FirstOfEach(start: nat, r: nat, hosts: nat)
    requires 1 <= r < hosts && start % hosts == 0 && start + r <= WORD
    ensures Picks(start, r, hosts, 0) == 1 && Picks(start, r, hosts, hosts - 1) == 0
  {
    PicksBelow(start, r, hosts, 0);
    PicksBelow(start, r, hosts, hosts - 1);
    DivModIs(r, hosts, 0, r);
    SumDivMod(start, r, hosts);
  }
}
