/** The bounded two-way mapping between domains and synthetic addresses. */
module FakeDns {
  import opened Common

  /** A domain as the bytes of its text. */
  type Name = seq<byte>

  const DNS_ADDR: u32 := 0xC612_0001 // 198.18.0.1
  const POOL_START: u32 := 0xC612_0002 // 198.18.0.2
  const POOL_END: u32 := 0xC613_FFFE // 198.19.255.254
  const POOL_SIZE: nat := 131069

  datatype Mapping = Mapping(domainToIp: map<Name, u32>, ipToDomain: map<u32, Name>, nextOffset: nat)

  const EMPTY := Mapping(map[], map[], 0)

  class FakeDns {
    var domainToIp: map<Name, u32>
    var ipToDomain: map<u32, Name>
    var nextOffset: nat

    function View(): Mapping
      reads this
    {
      Mapping(domainToIp, ipToDomain, nextOffset)
    }

    constructor ()
      ensures View() == EMPTY
    {
      domainToIp, ipToDomain, nextOffset := map[], map[], 0;
    }

    method Resolve(domain: Name) returns (ip: u32)
      requires nextOffset < POOL_SIZE
      modifies this
      ensures View() == Resolved(old(View()), domain)
      ensures ip == AddressOf(old(View()), domain)
    {
      if domain in domainToIp {
        return domainToIp[domain];
      }
      ip := POOL_START + nextOffset;
      nextOffset := (nextOffset + 1) % POOL_SIZE;
      if ip in ipToDomain {
        var previous := ipToDomain[ip];
        ipToDomain := ipToDomain - {ip};
        domainToIp := domainToIp - {previous};
      }
      ipToDomain := ipToDomain[ip := domain];
      domainToIp := domainToIp[domain := ip];
    }

    function Lookup(ip: u32): Option<Name>
      reads this
    {
      if ip in ipToDomain then Some(ipToDomain[ip]) else None
    }
  }

  predicate IsFakeIp(ip: u32) {
    ip == DNS_ADDR || POOL_START <= ip <= POOL_END
  }

  function AddressOf(m: Mapping, domain: Name): u32
    requires m.nextOffset < POOL_SIZE
  {
    if domain in m.domainToIp then m.domainToIp[domain] else POOL_START + m.nextOffset
  }

  /** One `resolve` call on values. */
  function Resolved(m: Mapping, domain: Name): (r: Mapping)
    requires m.nextOffset < POOL_SIZE
    ensures r.nextOffset < POOL_SIZE
  {
    if domain in m.domainToIp then m
    else
      var ip := POOL_START + m.nextOffset;
      var evicted := if ip in m.ipToDomain then m.domainToIp - {m.ipToDomain[ip]} else m.domainToIp;
      Mapping(evicted[domain := ip], m.ipToDomain[ip := domain], (m.nextOffset + 1) % POOL_SIZE)
  }

  // ---- The window of live allocations ----

  /** The address given to the i-th fresh domain ever allocated. */
  function Address(i: nat): (ip: u32)
    ensures POOL_START <= ip <= POOL_END
    ensures ip != DNS_ADDR
  {
    POOL_START + i % POOL_SIZE
  }

  predicate Live(history: seq<Name>, i: int) {
    0 <= i < |history| && |history| - POOL_SIZE <= i
  }

  /** Every live allocation is recorded in both directions. */
  ghost predicate Records(m: Mapping, history: seq<Name>) {
    forall i :: Live(history, i) ==>
      && Address(i) in m.ipToDomain && m.ipToDomain[Address(i)] == history[i]
      && history[i] in m.domainToIp && m.domainToIp[history[i]] == Address(i)
  }

  ghost predicate OnlyLiveAddresses(m: Mapping, history: seq<Name>) {
    forall ip :: ip in m.ipToDomain ==> exists i :: Live(history, i) && Address(i) == ip
  }

  ghost predicate OnlyLiveDomains(m: Mapping, history: seq<Name>) {
    forall d :: d in m.domainToIp ==> exists i :: Live(history, i) && history[i] == d
  }

  /** The mapping is exactly the last POOL_SIZE entries of the allocation history. */
  ghost predicate Window(m: Mapping, history: seq<Name>) {
    && m.nextOffset == |history| % POOL_SIZE
    && Records(m, history) && OnlyLiveAddresses(m, history) && OnlyLiveDomains(m, history)
  }

  lemma ModDistinct(i: nat, j: nat)
    requires i < j < i + POOL_SIZE
    ensures Address(i) != Address(j)
  {
    var q, r := i / POOL_SIZE, j / POOL_SIZE;
    assert i == q * POOL_SIZE + i % POOL_SIZE && j == r * POOL_SIZE + j % POOL_SIZE;
  }

  lemma SameSlot(i: nat)
    ensures Address(i + POOL_SIZE) == Address(i)
  {
  }

  lemma NextSlot(n: nat)
    ensures (n % POOL_SIZE + 1) % POOL_SIZE == (n + 1) % POOL_SIZE
  {
  }

  /** Within a window addresses and domains are both free of repetitions. */
  lemma WindowIsOneToOne(m: Mapping, history: seq<Name>, i: nat, j: nat)
    requires Records(m, history) && Live(history, i) && Live(history, j) && i != j
    ensures Address(i) != Address(j) && history[i] != history[j]
  {
    if i < j {
      ModDistinct(i, j);
    } else {
      ModDistinct(j, i);
    }
  }

  /** What happens to an allocation that stays inside the window. */
  lemma EntryIsKept(m: Mapping, history: seq<Name>, domain: Name, i: nat)
    requires Window(m, history) && domain !in m.domainToIp
    requires Live(history + [domain], i) && i < |history|
    ensures var next := Resolved(m, domain);
            && Address(i) in next.ipToDomain && next.ipToDomain[Address(i)] == history[i]
            && history[i] in next.domainToIp && next.domainToIp[history[i]] == Address(i)
  {
    var ip := Address(|history|);
    assert ip == POOL_START + m.nextOffset;
    ModDistinct(i, |history|);
    assert Live(history, i) && history[i] != domain;
    if ip in m.ipToDomain {
      var k :| Live(history, k) && Address(k) == ip;
      WindowIsOneToOne(m, history, k, i);
    }
  }

  /** What happens to the allocation that leaves the window. */
  lemma OldestIsEvicted(m: Mapping, history: seq<Name>, domain: Name)
    requires Window(m, history) && |history| >= POOL_SIZE && domain !in m.domainToIp
    ensures var oldest := |history| - POOL_SIZE;
            && AddressOf(m, domain) == Address(oldest)
            && history[oldest] !in Resolved(m, domain).domainToIp
            && Resolved(m, domain).ipToDomain[Address(oldest)] == domain
  {
    var oldest := |history| - POOL_SIZE;
    SameSlot(oldest);
    assert Address(|history|) == POOL_START + m.nextOffset;
    assert Live(history, oldest);
  }

  /** Each fresh allocation slides the window by one; a repeated domain leaves it alone. */
  lemma ResolveSlidesWindow(m: Mapping, history: seq<Name>, domain: Name)
    requires Window(m, history)
    ensures domain in m.domainToIp ==> Window(Resolved(m, domain), history)
    ensures domain !in m.domainToIp ==> Window(Resolved(m, domain), history + [domain])
  {
    if domain !in m.domainToIp {
      assert Resolved(m, domain).nextOffset == |history + [domain]| % POOL_SIZE by {
        NextSlot(|history|);
      }
      SlidesRecords(m, history, domain);
      SlidesDomains(m, history, domain);
      SlidesAddresses(m, history, domain);
    }
  }

  lemma SlidesRecords(m: Mapping, history: seq<Name>, domain: Name)
    requires Window(m, history) && domain !in m.domainToIp
    ensures Records(Resolved(m, domain), history + [domain])
  {
    var next, longer := Resolved(m, domain), history + [domain];
    assert AddressOf(m, domain) == Address(|history|);
    forall i | Live(longer, i)
      ensures Address(i) in next.ipToDomain && next.ipToDomain[Address(i)] == longer[i]
      ensures longer[i] in next.domainToIp && next.domainToIp[longer[i]] == Address(i)
    {
      if i < |history| {
        EntryIsKept(m, history, domain, i);
      }
    }
  }

  lemma SlidesDomains(m: Mapping, history: seq<Name>, domain: Name)
    requires Window(m, history) && domain !in m.domainToIp
    ensures OnlyLiveDomains(Resolved(m, domain), history + [domain])
  {
    var next, longer := Resolved(m, domain), history + [domain];
    forall d | d in next.domainToIp ensures exists i :: Live(longer, i) && longer[i] == d {
      if d == domain {
        assert Live(longer, |history|) && longer[|history|] == d;
      } else {
        var i :| Live(history, i) && history[i] == d;
        if i == |history| - POOL_SIZE {
          OldestIsEvicted(m, history, domain);
        }
        assert Live(longer, i) && longer[i] == d;
      }
    }
  }

  lemma SlidesAddresses(m: Mapping, history: seq<Name>, domain: Name)
    requires Window(m, history) && domain !in m.domainToIp
    ensures OnlyLiveAddresses(Resolved(m, domain), history + [domain])
  {
    var next, longer := Resolved(m, domain), history + [domain];
    assert Address(|history|) == POOL_START + m.nextOffset;
    forall a | a in next.ipToDomain ensures exists i :: Live(longer, i) && Address(i) == a {
      if a == Address(|history|) {
        assert Live(longer, |history|);
      } else {
        var i :| Live(history, i) && Address(i) == a;
        if i == |history| - POOL_SIZE {
          SameSlot(i);
        }
        assert Live(longer, i);
      }
    }
  }

  // ---- Every sequence of calls ----

  datatype Run = Run(mapping: Mapping, history: seq<Name>)

  /** The state and the allocation history after resolving each of `domains` in turn. */
  function ResolveAll(start: Run, domains: seq<Name>): Run
    requires start.mapping.nextOffset < POOL_SIZE
    ensures ResolveAll(start, domains).mapping.nextOffset < POOL_SIZE
    decreases |domains|
  {
    if domains == [] then start
    else
      var m := start.mapping;
      var history := if domains[0] in m.domainToIp then start.history else start.history + [domains[0]];
      ResolveAll(Run(Resolved(m, domains[0]), history), domains[1..])
  }

  lemma {:induction false} WindowIsKept(start: Run, domains: seq<Name>)
    requires Window(start.mapping, start.history)
    ensures var end := ResolveAll(start, domains);
            Window(end.mapping, end.history) && start.history <= end.history
    decreases |domains|
  {
    if domains != [] {
      var m := start.mapping;
      ResolveSlidesWindow(m, start.history, domains[0]);
      var history := if domains[0] in m.domainToIp then start.history else start.history + [domains[0]];
      WindowIsKept(Run(Resolved(m, domains[0]), history), domains[1..]);
    }
  }

  ghost predicate ExactInverses(m: Mapping) {
    && (forall d :: d in m.domainToIp ==> m.domainToIp[d] in m.ipToDomain && m.ipToDomain[m.domainToIp[d]] == d)
    && (forall ip :: ip in m.ipToDomain ==> m.ipToDomain[ip] in m.domainToIp && m.domainToIp[m.ipToDomain[ip]] == ip)
  }

  function LastEntries(history: seq<Name>): seq<Name> {
    if |history| <= POOL_SIZE then history else history[|history| - POOL_SIZE..]
  }

  lemma WindowHoldsInverses(m: Mapping, history: seq<Name>)
    requires Window(m, history)
    ensures ExactInverses(m)
  {
    forall d | d in m.domainToIp
      ensures m.domainToIp[d] in m.ipToDomain && m.ipToDomain[m.domainToIp[d]] == d
    {
      var i :| Live(history, i) && history[i] == d;
    }
    forall ip | ip in m.ipToDomain
      ensures m.ipToDomain[ip] in m.domainToIp && m.domainToIp[m.ipToDomain[ip]] == ip
    {
      var i :| Live(history, i) && Address(i) == ip;
    }
  }

  lemma WindowHoldsLastEntries(m: Mapping, history: seq<Name>)
    requires Window(m, history)
    ensures m.domainToIp.Keys == (set d | d in LastEntries(history))
  {
    var last := LastEntries(history);
    var base := |history| - |last|;
    forall d ensures d in m.domainToIp.Keys <==> d in last {
      if d in m.domainToIp {
        var i :| Live(history, i) && history[i] == d;
        assert last[i - base] == d;
      }
      if d in last {
        var k :| 0 <= k < |last| && last[k] == d;
        assert Live(history, base + k);
      }
    }
  }

  lemma WindowCountsEntries(m: Mapping, history: seq<Name>)
    requires Window(m, history)
    ensures |m.ipToDomain| == |LastEntries(history)|
  {
    var base := |history| - |LastEntries(history)|;
    forall ip: u32 ensures ip in m.ipToDomain <==> Allocated(base, |history|, ip) {
      if ip in m.ipToDomain {
        var i :| Live(history, i) && Address(i) == ip;
        AllocationIsUnique(base, i);
      }
      if Allocated(base, |history|, ip) {
        assert Live(history, AllocatedAt(base, ip));
      }
    }
    WindowSize(m.ipToDomain.Keys, base, |history|);
  }

  /** After any calls whatsoever: inverse maps, holding the newest POOL_SIZE allocations, inside the pool. */
  lemma AfterAnyCalls(domains: seq<Name>)
    ensures var end := ResolveAll(Run(EMPTY, []), domains);
            && ExactInverses(end.mapping)
            && end.mapping.domainToIp.Keys == (set d | d in LastEntries(end.history))
            && |end.mapping.ipToDomain| == |LastEntries(end.history)| == Min(|end.history|, 131069)
            && (forall ip :: ip in end.mapping.ipToDomain ==> 0xC612_0002 <= ip <= 0xC613_FFFE)
  {
    WindowIsKept(Run(EMPTY, []), domains);
    var end := ResolveAll(Run(EMPTY, []), domains);
    WindowHoldsInverses(end.mapping, end.history);
    WindowHoldsLastEntries(end.mapping, end.history);
    WindowCountsEntries(end.mapping, end.history);
  }

  /** The one index in [base, base + POOL_SIZE) whose slot is `ip`. */
  function AllocatedAt(base: nat, ip: int): (i: nat) {
    base + (ip - POOL_START - base) % POOL_SIZE
  }

  predicate Allocated(base: nat, end: nat, ip: u32) {
    AllocatedAt(base, ip) < end && Address(AllocatedAt(base, ip)) == ip
  }

  lemma AllocationIsUnique(base: nat, i: nat)
    requires base <= i < base + POOL_SIZE
    ensures AllocatedAt(base, Address(i)) == i
  {
    var a, q := i / POOL_SIZE, (i % POOL_SIZE - base) / POOL_SIZE;
    assert AllocatedAt(base, Address(i)) == i - (a + q) * POOL_SIZE;
  }

  /** Counting addresses one allocation at a time. */
  lemma {:induction false} WindowSize(addresses: set<u32>, base: nat, end: nat)
    requires base <= end <= base + POOL_SIZE
    requires forall ip: u32 :: ip in addresses <==> Allocated(base, end, ip)
    ensures |addresses| == end - base
    decreases end - base
  {
    if base == end {
      assert addresses == {};
    } else {
      var newest := Address(end - 1);
      AllocationIsUnique(base, end - 1);
      WindowSize(addresses - {newest}, base, end - 1);
      assert addresses == addresses - {newest} + {newest};
    }
  }

  /** A domain keeps its address while fewer than POOL_SIZE fresh domains follow it. */
  lemma AddressIsStable(start: Run, domains: seq<Name>, i: nat)
    requires Window(start.mapping, start.history) && Live(start.history, i)
    ensures var end := ResolveAll(start, domains);
            && |end.history| - i <= POOL_SIZE ==>
               && Address(i) in end.mapping.ipToDomain
               && end.mapping.ipToDomain[Address(i)] == start.history[i]
               && AddressOf(end.mapping, start.history[i]) == Address(i)
  {
    WindowIsKept(start, domains);
    var end := ResolveAll(start, domains);
    if |end.history| - i <= POOL_SIZE {
      assert Live(end.history, i) && end.history[i] == start.history[i];
    }
  }
}
