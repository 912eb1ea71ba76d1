/** Outbound routing: the mutable prefix trie, the rule list it is built from, and route selection. */
module Rule {
  import opened Bits
  import opened Common

  datatype ProxyConfig =
    | Direct
    | Socks5(addr: string, auth: Option<(string, string)>)
    | Http(addr: string, auth: Option<(string, string)>)

  /** The first `len` bits of an address, as a number below two to the power `len`. */
  datatype Prefix = Prefix(len: nat, bits: nat)

  /** What is left of an address when its host bits are shifted out. */
  function PrefixOf(value: nat, len: nat): Prefix
    requires len <= 32
  {
    Prefix(len, Shr(value, 32 - len))
  }

  function Child(key: Prefix, bit: nat): Prefix {
    Prefix(key.len + 1, 2 * key.bits + bit)
  }

  lemma ChildInjective(key: Prefix, bit: nat)
    requires bit < 2
    ensures forall k, b :: 0 <= b < 2 && Child(k, b) == Child(key, bit) ==> k == key && b == bit
    ensures forall k, b :: Child(k, b) != k && Child(k, b) != Prefix(0, 0)
  {
  }

  lemma NextBit(value: nat, i: nat)
    requires i < 32
    ensures PrefixOf(value, i + 1) == Child(PrefixOf(value, i), Shr(value, 31 - i) % 2)
  {
    assert Shr(value, 32 - i) == Shr(value, 31 - i) / 2;
  }

  class TrieNode {
    var children: seq<TrieNode?>
    var action: Option<ProxyConfig>
    ghost const key: Prefix

    constructor (ghost key: Prefix)
      ensures children == [null, null] && action == None && this.key == key
    {
      this.key := key;
      children := [null, null];
      action := None;
    }
  }

  class PrefixTrie {
    const root: TrieNode
    // The node reached by following the bits of each prefix from the root.
    ghost var nodes: map<Prefix, TrieNode>
    ghost var repr: set<TrieNode>

    ghost predicate Valid()
      reads this, repr
    {
      && Prefix(0, 0) in nodes && nodes[Prefix(0, 0)] == root
      && (forall k :: k in nodes ==> nodes[k] in repr && nodes[k].key == k && |nodes[k].children| == 2)
      && (forall k, b :: k in nodes && 0 <= b < 2 ==>
            nodes[k].children[b] == if Child(k, b) in nodes then nodes[Child(k, b)] else null)
      && (forall k, b :: 0 <= b < 2 && Child(k, b) in nodes ==> k in nodes)
    }

    /** The abstract value: which prefixes carry an action. */
    ghost function Contents(): map<Prefix, ProxyConfig>
      requires Valid()
      reads this, repr
    {
      map k | k in nodes && nodes[k].action.Some? :: nodes[k].action.value
    }

    constructor ()
      ensures Valid() && fresh(repr)
      ensures Contents() == map[]
    {
      root := new TrieNode(Prefix(0, 0));
      new;
      nodes := map[Prefix(0, 0) := root];
      repr := {root};
    }

    /** The child for a bit, made empty if it is missing. */
    method ChildOrNew(node: TrieNode, bit: nat, ghost key: Prefix) returns (child: TrieNode)
      requires Valid() && bit < 2 && key in nodes && nodes[key] == node
      modifies this, node`children
      ensures Valid() && fresh(repr - old(repr))
      ensures Child(key, bit) in nodes && nodes[Child(key, bit)] == child
      ensures Contents() == old(Contents())
    {
      if node.children[bit] != null {
        child := node.children[bit];
      } else {
        child := new TrieNode(Child(key, bit));
        Attach(node, bit, child, key);
        assert forall k :: k in old(nodes) ==> nodes[k].action == old(nodes[k].action);
      }
    }

    method Attach(node: TrieNode, bit: nat, child: TrieNode, ghost key: Prefix)
      requires Valid() && bit < 2 && key in nodes && nodes[key] == node && Child(key, bit) !in nodes
      requires child !in repr && child.key == Child(key, bit) && child.children == [null, null] && child.action.None?
      modifies this, node`children
      ensures Valid() && repr == old(repr) + {child}
      ensures nodes == old(nodes)[Child(key, bit) := child]
    {
      ChildInjective(key, bit);
      assert forall b :: 0 <= b < 2 ==> Child(Child(key, bit), b) !in nodes;
      node.children := node.children[bit := child];
      nodes := nodes[Child(key, bit) := child];
      repr := repr + {child};
    }

    method Insert(value: u32, prefix: nat, action: ProxyConfig)
      requires Valid() && prefix <= 32
      modifies this, repr
      ensures Valid() && fresh(repr - old(repr))
      ensures Contents() == AddRule(old(Contents()), PrefixOf(value, prefix), action)
    {
      var node := root;
      var i := 0;
      ghost var key := Prefix(0, 0);
      ShiftedOut(value);
      while i < prefix
        invariant 0 <= i <= prefix && key == PrefixOf(value, i)
        invariant Valid() && fresh(repr - old(repr))
        invariant key in nodes && nodes[key] == node
        invariant Contents() == old(Contents())
      {
        var bit := Shr(value, 31 - i) % 2;
        NextBit(value, i);
        node := ChildOrNew(node, bit, key);
        key := Child(key, bit);
        i := i + 1;
      }
      SetAction(node, action, key);
    }

    /** The end of an insertion: an action already present wins. */
    method SetAction(node: TrieNode, action: ProxyConfig, ghost key: Prefix)
      requires Valid() && key in nodes && nodes[key] == node
      modifies node`action
      ensures Valid()
      ensures Contents() == AddRule(old(Contents()), key, action)
    {
      if node.action.None? {
        node.action := Some(action);
      }
    }

    method Get(value: u32) returns (best: Option<ProxyConfig>)
      requires Valid()
      ensures best == Longest(Contents(), value, 32)
    {
      var node := root;
      best := node.action;
      var i := 0;
      assert PrefixOf(value, 0) == Prefix(0, 0) by { ShiftedOut(value); }
      while i < 32
        invariant 0 <= i <= 32
        invariant PrefixOf(value, i) in nodes && nodes[PrefixOf(value, i)] == node
        invariant best == Longest(Contents(), value, i)
      {
        var bit := Shr(value, 31 - i) % 2;
        NextBit(value, i);
        if node.children[bit] == null {
          NoDeeper(value, i + 1, 32);
          break;
        }
        node := node.children[bit];
        if node.action.Some? {
          best := node.action;
        }
        i := i + 1;
      }
    }

    /** Once a prefix is missing from the trie, every longer one is missing too. */
    lemma NoDeeper(value: nat, i: nat, j: nat)
      requires Valid() && 0 < i <= j <= 32
      requires PrefixOf(value, i) !in nodes
      ensures PrefixOf(value, j) !in nodes
      ensures Longest(Contents(), value, j) == Longest(Contents(), value, i - 1)
    {
      if i < j {
        NoDeeper(value, i, j - 1);
        NextBit(value, j - 1);
      }
    }
  }

  lemma ShrByte(value: nat, n: nat)
    ensures Shr(value, n + 8) == Shr(value, n) / 256
  {
    var x := Shr(value, n);
    assert Shr(value, n + 2) == x / 4;
    assert Shr(value, n + 4) == x / 16;
    assert Shr(value, n + 6) == x / 64;
  }

  // ---- Which addresses a rule covers, and which route that gives ----

  /** The range of addresses of a network: its address rounded down, and as many as its host bits can tell apart. */
  predicate InNetwork(address: u32, network: u32, prefix: nat)
    requires prefix <= 32
  {
    var size := Pow2(32 - prefix);
    network / size * size <= address < network / size * size + size
  }

  /** A network rule covers exactly its range, an address rule its address, a domain rule nothing. */
  lemma CoversExactly(rule: RuleSpec, address: u32)
    requires rule.Valid()
    ensures rule.Covers(address) <==>
            match rule.on
            case Ip(only) => address == only
            case Cidr(network, prefix) => InNetwork(address, network, prefix)
            case Domain(_) => false
  {
    match rule.on
    case Ip(only) =>
    case Cidr(network, prefix) =>
      ShrDivides(address, 32 - prefix);
      ShrDivides(network, 32 - prefix);
      DivIs(address, Pow2(32 - prefix), network / Pow2(32 - prefix));
    case Domain(_) =>
  }

  /** For instance a /24: the last byte does not matter, every other does. */
  lemma CoversLastByte(network: u32, address: u32, proxy: ProxyConfig)
    ensures RuleSpec(Cidr(network, 24), proxy).Covers(address) <==> address / 256 == network / 256
  {
    ShrByte(address, 0);
    ShrByte(network, 0);
  }

  /** An address has no bits left once all 32 are shifted out. */
  lemma ShiftedOut(value: u32)
    ensures Shr(value, 32) == 0
  {
    ShrByte(value, 0);
    ShrByte(value, 8);
    ShrByte(value, 16);
    ShrByte(value, 24);
  }

  /** Inserting keeps the action a prefix already has. */
  function AddRule(contents: map<Prefix, ProxyConfig>, key: Prefix, action: ProxyConfig)
    : map<Prefix, ProxyConfig>
  {
    if key in contents then contents else contents[key := action]
  }

  /** The action of the longest stored prefix of `value` that has at most `len` bits. */
  function Longest(contents: map<Prefix, ProxyConfig>, value: nat, len: nat): Option<ProxyConfig>
    requires len <= 32
  {
    if PrefixOf(value, len) in contents then Some(contents[PrefixOf(value, len)])
    else if len == 0 then None
    else Longest(contents, value, len - 1)
  }

  // ---- The rule list, and the flat scan it means ----

  /** `domain:` compiles to an anchored case-insensitive pattern, `domain-regex:` is used as written. */
  datatype Pattern = Anchored(name: string) | Regex(source: string)

  datatype RuleMatch =
    | Ip(address: u32)
    | Cidr(network: u32, prefix: byte)
    | Domain(pattern: Pattern)

  datatype RuleSpec = RuleSpec(on: RuleMatch, proxy: ProxyConfig) {
    predicate Valid() {
      on.Cidr? ==> on.prefix <= 32
    }

    predicate IsIp() {
      !on.Domain?
    }

    function PrefixLength(): (n: nat)
      requires Valid()
      ensures n <= 32
    {
      if on.Cidr? then on.prefix else 32
    }

    function Network(): u32
      requires IsIp()
    {
      if on.Cidr? then on.network else on.address
    }

    /** The address and the network agree once the host bits of both are dropped. */
    predicate Covers(address: u32)
      requires Valid()
    {
      IsIp() && Shr(address, 32 - PrefixLength()) == Shr(Network(), 32 - PrefixLength())
    }
  }

  predicate AllValid(rules: seq<RuleSpec>) {
    forall i :: 0 <= i < |rules| ==> rules[i].Valid()
  }

  /** Rule `k` covers the address, no covering rule is more specific, and no equally specific one is earlier. */
  ghost predicate Wins(rules: seq<RuleSpec>, address: u32, k: nat)
    requires AllValid(rules)
  {
    && k < |rules| && rules[k].Covers(address)
    && forall j :: 0 <= j < |rules| && rules[j].Covers(address) ==>
         rules[j].PrefixLength() < rules[k].PrefixLength()
         || (rules[j].PrefixLength() == rules[k].PrefixLength() && k <= j)
  }

  /** The winner found by one pass over the list. */
  function FlatScan(rules: seq<RuleSpec>, address: u32): (k: Option<nat>)
    requires AllValid(rules)
    ensures k.Some? ==> Wins(rules, address, k.value)
    ensures k.None? ==> forall j :: 0 <= j < |rules| ==> !rules[j].Covers(address)
  {
    if rules == [] then None
    else
      var last := |rules| - 1;
      var best := FlatScan(rules[..last], address);
      if rules[last].Covers(address)
         && (best.None? || rules[best.value].PrefixLength() < rules[last].PrefixLength())
      then Some(last)
      else best
  }

  function KeyOf(rule: RuleSpec): Prefix
    requires rule.Valid() && rule.IsIp()
  {
    PrefixOf(rule.Network(), rule.PrefixLength())
  }

  /** What the trie holds after every rule has been inserted in order. */
  function Build(rules: seq<RuleSpec>): map<Prefix, ProxyConfig>
    requires AllValid(rules)
  {
    if rules == [] then map[]
    else
      var last := rules[|rules| - 1];
      var before := Build(rules[..|rules| - 1]);
      if last.IsIp() then AddRule(before, KeyOf(last), last.proxy) else before
  }

  ghost predicate FirstWithKey(rules: seq<RuleSpec>, key: Prefix, k: nat)
    requires AllValid(rules)
  {
    && k < |rules| && rules[k].IsIp() && KeyOf(rules[k]) == key
    && forall j :: 0 <= j < k && rules[j].IsIp() ==> KeyOf(rules[j]) != key
  }

  lemma {:induction false} BuildHoldsKeys(rules: seq<RuleSpec>, key: Prefix)
    requires AllValid(rules)
    ensures key in Build(rules) <==> exists k :: 0 <= k < |rules| && rules[k].IsIp() && KeyOf(rules[k]) == key
  {
    if rules != [] {
      BuildHoldsKeys(rules[..|rules| - 1], key);
    }
  }

  lemma {:induction false} BuildKeepsFirst(rules: seq<RuleSpec>, key: Prefix, k: nat)
    requires AllValid(rules) && FirstWithKey(rules, key, k)
    ensures key in Build(rules) && Build(rules)[key] == rules[k].proxy
  {
    var init := rules[..|rules| - 1];
    if k < |init| {
      assert FirstWithKey(init, key, k);
      BuildKeepsFirst(init, key, k);
    } else {
      BuildHoldsKeys(init, key);
    }
  }

  lemma {:induction false} LongestIsAt(contents: map<Prefix, ProxyConfig>, value: nat, at: nat, top: nat)
    requires at <= top <= 32 && PrefixOf(value, at) in contents
    requires forall len :: at < len <= top ==> PrefixOf(value, len) !in contents
    ensures Longest(contents, value, top) == Some(contents[PrefixOf(value, at)])
  {
    if at < top {
      LongestIsAt(contents, value, at, top - 1);
    }
  }

  lemma {:induction false} LongestIsAbsent(contents: map<Prefix, ProxyConfig>, value: nat, top: nat)
    requires top <= 32
    requires forall len :: 0 <= len <= top ==> PrefixOf(value, len) !in contents
    ensures Longest(contents, value, top) == None
  {
    if 0 < top {
      LongestIsAbsent(contents, value, top - 1);
    }
  }

  /** A rule covers an address exactly when the rule's key is one of the address's prefixes. */
  lemma CoversByKey(rule: RuleSpec, address: u32, len: nat)
    requires rule.Valid() && rule.IsIp() && len <= 32
    ensures KeyOf(rule) == PrefixOf(address, len) <==> rule.Covers(address) && rule.PrefixLength() == len
  {
  }

  /** The trie returns the route of the winning rule. */
  lemma TrieFindsWinner(rules: seq<RuleSpec>, address: u32, k: nat)
    requires AllValid(rules) && Wins(rules, address, k)
    ensures Longest(Build(rules), address, 32) == Some(rules[k].proxy)
  {
    var at := rules[k].PrefixLength();
    forall len | at < len <= 32 ensures PrefixOf(address, len) !in Build(rules) {
      BuildHoldsKeys(rules, PrefixOf(address, len));
      forall j | 0 <= j < |rules| && rules[j].IsIp() ensures KeyOf(rules[j]) != PrefixOf(address, len) {
        CoversByKey(rules[j], address, len);
      }
    }
    var key := PrefixOf(address, at);
    forall j | 0 <= j < k && rules[j].IsIp() ensures KeyOf(rules[j]) != key {
      CoversByKey(rules[j], address, at);
    }
    assert FirstWithKey(rules, key, k);
    BuildKeepsFirst(rules, key, k);
    LongestIsAt(Build(rules), address, at, 32);
  }

  lemma TrieFindsNothing(rules: seq<RuleSpec>, address: u32)
    requires AllValid(rules)
    requires forall j :: 0 <= j < |rules| ==> !rules[j].Covers(address)
    ensures Longest(Build(rules), address, 32) == None
  {
    forall len | 0 <= len <= 32 ensures PrefixOf(address, len) !in Build(rules) {
      BuildHoldsKeys(rules, PrefixOf(address, len));
      forall j | 0 <= j < |rules| && rules[j].IsIp() ensures KeyOf(rules[j]) != PrefixOf(address, len) {
        CoversByKey(rules[j], address, len);
      }
    }
    LongestIsAbsent(Build(rules), address, 32);
  }

  /** Building the trie rule by rule and walking it is the flat scan of the rule list. */
  lemma TrieRefinesFlatScan(rules: seq<RuleSpec>, address: u32)
    requires AllValid(rules)
    ensures Longest(Build(rules), address, 32) == ScanRoute(rules, address)
  {
    match FlatScan(rules, address)
    case Some(k) => TrieFindsWinner(rules, address, k);
    case None => TrieFindsNothing(rules, address);
  }

  function ScanRoute(rules: seq<RuleSpec>, address: u32): Option<ProxyConfig>
    requires AllValid(rules)
  {
    match FlatScan(rules, address)
    case Some(k) => Some(rules[k].proxy)
    case None => None
  }

  /** Only the IP rules matter to an address, wherever domain rules are placed among them. */
  lemma {:induction false} DomainRulesAreTransparent(rules: seq<RuleSpec>, address: u32)
    requires AllValid(rules)
    ensures AllValid(IpRules(rules))
    ensures ScanRoute(rules, address) == ScanRoute(IpRules(rules), address)
    ensures Build(IpRules(rules)) == Build(rules)
  {
    BuildIgnoresDomains(rules);
    TrieRefinesFlatScan(rules, address);
    TrieRefinesFlatScan(IpRules(rules), address);
  }

  function IpRules(rules: seq<RuleSpec>): seq<RuleSpec> {
    if rules == [] then []
    else
      var init, last := rules[..|rules| - 1], rules[|rules| - 1];
      if last.IsIp() then IpRules(init) + [last] else IpRules(init)
  }

  lemma BuildSnoc(rules: seq<RuleSpec>, last: RuleSpec)
    requires AllValid(rules) && last.Valid() && last.IsIp()
    ensures AllValid(rules + [last])
    ensures Build(rules + [last]) == AddRule(Build(rules), KeyOf(last), last.proxy)
  {
    assert (rules + [last])[..|rules|] == rules;
  }

  lemma {:induction false} BuildIgnoresDomains(rules: seq<RuleSpec>)
    requires AllValid(rules)
    ensures AllValid(IpRules(rules)) && Build(IpRules(rules)) == Build(rules)
  {
    if rules != [] {
      var init, last := rules[..|rules| - 1], rules[|rules| - 1];
      BuildIgnoresDomains(init);
      if last.IsIp() {
        BuildSnoc(IpRules(init), last);
      }
    }
  }

  // ---- The compiled rules and route selection ----

  function DomainPatterns(rules: seq<RuleSpec>): seq<Pattern> {
    if rules == [] then []
    else
      var init, last := rules[..|rules| - 1], rules[|rules| - 1];
      if last.on.Domain? then DomainPatterns(init) + [last.on.pattern] else DomainPatterns(init)
  }

  function DomainActions(rules: seq<RuleSpec>): (actions: seq<ProxyConfig>)
    ensures |actions| == |DomainPatterns(rules)|
  {
    if rules == [] then []
    else
      var init, last := rules[..|rules| - 1], rules[|rules| - 1];
      if last.on.Domain? then DomainActions(init) + [last.proxy] else DomainActions(init)
  }

  class RuleMatcher {
    var patterns: seq<Pattern>
    var actions: seq<ProxyConfig>
    const cidr: PrefixTrie

    ghost predicate Valid()
      reads this, cidr, cidr.repr
    {
      cidr.Valid() && |actions| == |patterns|
    }

    /** The matcher holds exactly these rules. */
    ghost predicate Holds(rules: seq<RuleSpec>)
      requires AllValid(rules)
      reads this, cidr, cidr.repr
    {
      && Valid()
      && cidr.Contents() == Build(rules)
      && patterns == DomainPatterns(rules) && actions == DomainActions(rules)
    }

    constructor ()
      ensures Holds([]) && fresh(cidr) && fresh(cidr.repr)
    {
      cidr := new PrefixTrie();
      patterns, actions := [], [];
    }

    /** One turn of the loop over the specifications; fails on a prefix longer than an address. */
    method AddSpec(rule: RuleSpec, ghost before: seq<RuleSpec>) returns (ok: bool)
      requires AllValid(before) && Holds(before)
      modifies this, cidr, cidr.repr
      ensures ok <==> rule.Valid()
      ensures ok ==> AllValid(before + [rule]) && Holds(before + [rule])
      ensures fresh(cidr.repr - old(cidr.repr))
    {
      assert (before + [rule])[..|before|] == before;
      match rule.on {
        case Ip(address) =>
          cidr.Insert(address, 32, rule.proxy);
        case Cidr(network, prefix) =>
          if prefix > 32 {
            return false;
          }
          cidr.Insert(network, prefix, rule.proxy);
        case Domain(pattern) =>
          patterns := patterns + [pattern];
          actions := actions + [rule.proxy];
      }
      ok := true;
    }

    /** Adds rules in order and stops at the first invalid one. */
    method FromSpecs(rules: seq<RuleSpec>) returns (ok: bool)
      requires Holds([])
      modifies this, cidr, cidr.repr
      ensures ok <==> AllValid(rules)
      ensures ok ==> Holds(rules)
      ensures fresh(cidr.repr - old(cidr.repr))
    {
      var i := 0;
      while i < |rules|
        invariant 0 <= i <= |rules|
        invariant AllValid(rules[..i]) && Holds(rules[..i])
        invariant fresh(cidr.repr - old(cidr.repr))
      {
        ok := AddSpec(rules[i], rules[..i]);
        if !ok {
          return;
        }
        assert rules[..i] + [rules[i]] == rules[..i + 1];
        i := i + 1;
      }
      assert rules[..i] == rules;
      ok := true;
    }

    method MatchIp(ip: u32, ghost rules: seq<RuleSpec>) returns (route: Option<ProxyConfig>)
      requires AllValid(rules) && Holds(rules)
      ensures route == ScanRoute(rules, ip)
    {
      route := cidr.Get(ip);
      TrieRefinesFlatScan(rules, ip);
    }

    /** The lowest index of a matching pattern selects the action. */
    method MatchDomain(host: string, matches: (Pattern, string) -> bool, ghost rules: seq<RuleSpec>)
      returns (route: Option<ProxyConfig>)
      requires AllValid(rules) && Holds(rules)
      ensures route == FirstDomainRoute(rules, host, matches)
    {
      var i := 0;
      while i < |patterns|
        invariant 0 <= i <= |patterns|
        invariant forall j :: 0 <= j < i ==> !matches(patterns[j], host)
      {
        if matches(patterns[i], host) {
          FirstDomainIs(rules, host, matches, i);
          return Some(actions[i]);
        }
        i := i + 1;
      }
      NoDomainMatches(rules, host, matches);
      route := None;
    }
  }

  /** Reference: the first rule of the list that is a domain rule matching the host. */
  function FirstDomainRoute(rules: seq<RuleSpec>, host: string, matches: (Pattern, string) -> bool)
    : Option<ProxyConfig>
  {
    if rules == [] then None
    else if rules[0].on.Domain? && matches(rules[0].on.pattern, host) then Some(rules[0].proxy)
    else FirstDomainRoute(rules[1..], host, matches)
  }

  lemma {:induction false} FirstDomainRouteSnoc(init: seq<RuleSpec>, last: RuleSpec, host: string,
                                                matches: (Pattern, string) -> bool)
    ensures FirstDomainRoute(init + [last], host, matches) ==
            if FirstDomainRoute(init, host, matches).Some? then FirstDomainRoute(init, host, matches)
            else if last.on.Domain? && matches(last.on.pattern, host) then Some(last.proxy) else None
  {
    if init == [] {
      assert init + [last] == [last];
      assert [last][1..] == [];
    } else {
      assert (init + [last])[1..] == init[1..] + [last];
      FirstDomainRouteSnoc(init[1..], last, host, matches);
    }
  }

  lemma {:induction false} FirstDomainIs(rules: seq<RuleSpec>, host: string, matches: (Pattern, string) -> bool, i: nat)
    requires i < |DomainPatterns(rules)| && matches(DomainPatterns(rules)[i], host)
    requires forall j :: 0 <= j < i ==> !matches(DomainPatterns(rules)[j], host)
    ensures FirstDomainRoute(rules, host, matches) == Some(DomainActions(rules)[i])
  {
    var init, last := rules[..|rules| - 1], rules[|rules| - 1];
    assert rules == init + [last];
    FirstDomainRouteSnoc(init, last, host, matches);
    assert forall j :: 0 <= j < |DomainPatterns(init)| ==> DomainPatterns(init)[j] == DomainPatterns(rules)[j];
    if i < |DomainPatterns(init)| {
      FirstDomainIs(init, host, matches, i);
    } else {
      NoDomainMatches(init, host, matches);
    }
  }

  lemma {:induction false} NoDomainMatches(rules: seq<RuleSpec>, host: string, matches: (Pattern, string) -> bool)
    requires forall j :: 0 <= j < |DomainPatterns(rules)| ==> !matches(DomainPatterns(rules)[j], host)
    ensures FirstDomainRoute(rules, host, matches) == None
  {
    if rules != [] {
      var init, last := rules[..|rules| - 1], rules[|rules| - 1];
      assert rules == init + [last];
      FirstDomainRouteSnoc(init, last, host, matches);
      assert forall j :: 0 <= j < |DomainPatterns(init)| ==> DomainPatterns(init)[j] == DomainPatterns(rules)[j];
      NoDomainMatches(init, host, matches);
      assert last.on.Domain? ==> DomainPatterns(rules)[|DomainPatterns(init)|] == last.on.pattern;
    }
  }

  datatype ProxyTarget =
    | DomainTarget(host: string, port: u16)
    | Ipv4Target(ip: u32, port: u16)
    | Ipv6Target(port: u16)

  predicate IsLocal(ip: u32) {
    ip / 0x100_0000 == 127 || ip == 0
  }

  /** What the documentation promises: rules, then the local default, then `-x`. */
  function RouteOf(rules: seq<RuleSpec>, fallback: ProxyConfig, matches: (Pattern, string) -> bool, target: ProxyTarget)
    : ProxyConfig
    requires AllValid(rules)
  {
    match target
    case DomainTarget(host, _) =>
      (match FirstDomainRoute(rules, host, matches) case Some(proxy) => proxy case None => fallback)
    case Ipv4Target(ip, _) =>
      (match FlatScan(rules, ip)
       case Some(k) => rules[k].proxy
       case None => if IsLocal(ip) then Direct else fallback)
    case Ipv6Target(_) => fallback
  }

  method ProxyFor(matcher: RuleMatcher, fallback: ProxyConfig, matches: (Pattern, string) -> bool,
                  target: ProxyTarget, ghost rules: seq<RuleSpec>)
    returns (route: ProxyConfig)
    requires AllValid(rules) && matcher.Holds(rules)
    ensures route == RouteOf(rules, fallback, matches, target)
  {
    var matched := None;
    match target {
      case DomainTarget(host, _) =>
        matched := matcher.MatchDomain(host, matches, rules);
      case Ipv4Target(ip, _) =>
        matched := matcher.MatchIp(ip, rules);
        if matched.None? && IsLocal(ip) {
          matched := Some(Direct);
        }
      case Ipv6Target(_) =>
    }
    route := if matched.Some? then matched.value else fallback;
  }

  /** Rules, the local default and the default route, each said of the addresses themselves. */
  lemma RouteIs(rules: seq<RuleSpec>, fallback: ProxyConfig, matches: (Pattern, string) -> bool, ip: u32, port: u16)
    requires AllValid(rules)
    ensures RouteOf(rules, fallback, matches, Ipv6Target(port)) == fallback
    ensures var route := RouteOf(rules, fallback, matches, Ipv4Target(ip, port));
            && (forall k: nat :: Wins(rules, ip, k) ==> route == rules[k].proxy)
            && ((forall j :: 0 <= j < |rules| ==> !rules[j].Covers(ip)) ==>
                route == if 0x7F00_0000 <= ip <= 0x7FFF_FFFF || ip == 0 then Direct else fallback)
  {
    forall k: nat | Wins(rules, ip, k)
      ensures FlatScan(rules, ip) == Some(k)
    {
      var best := FlatScan(rules, ip);
      assert best.Some?;
      OneWinner(rules, ip, k, best.value);
    }
  }

  lemma OneWinner(rules: seq<RuleSpec>, address: u32, k: nat, j: nat)
    requires AllValid(rules) && Wins(rules, address, k) && Wins(rules, address, j)
    ensures k == j
  {
  }

  /** A domain takes the route of the first rule whose pattern matches it, and never an IP rule or the local default. */
  lemma DomainRouteIs(rules: seq<RuleSpec>, fallback: ProxyConfig, matches: (Pattern, string) -> bool, host: string,
                      port: u16, k: nat)
    requires AllValid(rules) && k <= |rules|
    requires forall j :: 0 <= j < k ==> !(rules[j].on.Domain? && matches(rules[j].on.pattern, host))
    requires k < |rules| ==> rules[k].on.Domain? && matches(rules[k].on.pattern, host)
    ensures RouteOf(rules, fallback, matches, DomainTarget(host, port)) ==
            if k < |rules| then rules[k].proxy else fallback
  {
    FirstDomainRouteIs(rules, host, matches, k);
  }

  lemma {:induction false} FirstDomainRouteIs(rules: seq<RuleSpec>, host: string, matches: (Pattern, string) -> bool,
                                              k: nat)
    requires k <= |rules|
    requires forall j :: 0 <= j < k ==> !(rules[j].on.Domain? && matches(rules[j].on.pattern, host))
    requires k < |rules| ==> rules[k].on.Domain? && matches(rules[k].on.pattern, host)
    ensures FirstDomainRoute(rules, host, matches) == if k < |rules| then Some(rules[k].proxy) else None
  {
    if rules != [] && k > 0 {
      FirstDomainRouteIs(rules[1..], host, matches, k - 1);
    }
  }
}
