/** The access-rule engine: dimension matching and first-match evaluation with lazy grantee lookup. */
module AccessRules {
  import opened Bytes
  import opened Results

  datatype Kind = CommandFilter | UserLogin | AssetConnectionReview | DataMasking | ConnectionMethod
  datatype Action = Accept | Deny | Review | Notify | Alert
  datatype GranteeType = User | Group | Department | Role
  type Grantees = map<GranteeType, seq<uint64>>

  /** A parsed dimension selector. */
  datatype Selector = Selector(
    all: bool, userIDs: seq<uint64>, groupIDs: seq<uint64>, deptIDs: seq<uint64>, roleIDs: seq<uint64>,
    nodeIDs: seq<uint64>, assetGroupIDs: seq<uint64>, tagIDs: seq<uint64>, credentialIDs: seq<uint64>)

  /** A 16-byte address, as net.ParseIP returns it. */
  type IP = a: bytes | |a| == 16 witness [0, 0, 0, 0, 0, 0, 0, 0, 0, 0, 0, 0, 0, 0, 0, 0]

  /** One entry of an IP rule after parsing; None is an address that does not parse. */
  datatype IPEntry = Blank | Star | Cidr(text: string) | Range(lo: Option<IP>, hi: Option<IP>) | Single(ip: Option<IP>)

  /** None is a blank rule or a lone star: no restriction. */
  type IPRule = Option<seq<IPEntry>>

  datatype Rule = Rule(
    action: Action, validFrom: Option<int>, validTo: Option<int>,
    users: Selector, assets: Selector, accounts: Selector, ipRule: IPRule, timeWindow: string, spec: string)

  datatype Input = Input(
    userID: uint64, nodeID: uint64, nodeGroupIDs: seq<uint64>, nodeTagIDs: seq<uint64>, credentialID: uint64,
    clientIP: Option<IP>, now: int, protocol: string, command: string, grantees: Option<Grantees>)

  /** The string-valued conditions and CIDR blocks, whose parsing is not modelled. */
  datatype Parsers = Parsers(
    cidrHas: (string, IP) -> bool, inWindow: (string, int) -> bool,
    commandMatches: (string, string) -> bool, methodMatches: (string, string) -> bool)

  /** `rule` is the position of the matching rule in the source's order. */
  datatype Decision = Decision(matched: bool, action: Action, rule: Option<nat>)

  const ACCEPT := Decision(false, Accept, None)

  // ---- Sets and addresses -------------------------------------------------------------------

  ghost predicate Shares(a: seq<uint64>, b: seq<uint64>) {
    exists x :: x in a && x in b
  }

  method Intersects(a: seq<uint64>, b: seq<uint64>) returns (r: bool)
    ensures r <==> Shares(a, b)
  {
    if |a| == 0 || |b| == 0 {
      return false;
    }
    var members: set<uint64> := {};
    for i := 0 to |a|
      invariant forall x :: x in members <==> x in a[..i]
    {
      members := members + {a[i]};
    }
    assert a[..|a|] == a;
    for j := 0 to |b|
      invariant forall y | y in b[..j] :: y !in a
    {
      if b[j] in members {
        return true;
      }
    }
    assert b[..|b|] == b;
    return false;
  }

  /** The 128-bit number an address stands for. */
  function Number(a: IP): nat { FromBigEndian(a) }

  lemma {:induction false} FirstDifferenceDecides(a: bytes, b: bytes, i: nat)
    requires |a| == |b| && i < |a| && a[..i] == b[..i] && a[i] < b[i]
    ensures FromBigEndian(a) < FromBigEndian(b)
    decreases |a|
  {
    var n := |a| - 1;
    if i < n {
      assert a[..n][..i] == a[..i] && b[..n][..i] == b[..i];
      FirstDifferenceDecides(a[..n], b[..n], i);
    }
  }

  /** Byte-wise comparison is comparison of the 128-bit numbers. */
  method BytesCompareIP(a: IP, b: IP) returns (r: int)
    ensures r == -1 || r == 0 || r == 1
    ensures r < 0 <==> Number(a) < Number(b)
    ensures r > 0 <==> Number(a) > Number(b)
    ensures r == 0 <==> a == b
  {
    for i := 0 to 16
      invariant a[..i] == b[..i]
    {
      if a[i] != b[i] {
        if a[i] < b[i] {
          FirstDifferenceDecides(a, b, i);
          return -1;
        }
        FirstDifferenceDecides(b, a, i);
        return 1;
      }
      assert a[..i + 1] == a[..i] + [a[i]] && b[..i + 1] == b[..i] + [b[i]];
    }
    assert a[..16] == a && b[..16] == b;
    return 0;
  }

  ghost predicate EntryCovers(p: Parsers, entry: IPEntry, ip: IP) {
    match entry
    case Blank => false
    case Star => true
    case Cidr(text) => p.cidrHas(text, ip)
    case Range(lo, hi) => lo.Some? && hi.Some? && Number(lo.value) <= Number(ip) <= Number(hi.value)
    case Single(one) => one == Some(ip)
  }

  ghost predicate IPCovered(p: Parsers, rule: IPRule, client: Option<IP>) {
    rule.None? || (client.Some? && exists k :: 0 <= k < |rule.value| && EntryCovers(p, rule.value[k], client.value))
  }

  method MatchIP(p: Parsers, rule: IPRule, client: Option<IP>) returns (r: bool)
    ensures r <==> IPCovered(p, rule, client)
  {
    if rule.None? {
      return true;
    }
    if client.None? {
      return false;
    }
    var ip := client.value;
    for k := 0 to |rule.value|
      invariant forall j | 0 <= j < k :: !EntryCovers(p, rule.value[j], ip)
    {
      match rule.value[k] {
        case Blank =>
        case Star =>
          return true;
        case Cidr(text) =>
          if p.cidrHas(text, ip) {
            return true;
          }
        case Range(lo, hi) =>
          if lo.Some? && hi.Some? {
            var low := BytesCompareIP(ip, lo.value);
            var high := BytesCompareIP(ip, hi.value);
            if low >= 0 && high <= 0 {
              return true;
            }
          }
        case Single(one) =>
          if one.Some? && one.value == ip {
            return true;
          }
      }
    }
    return false;
  }

  // ---- What it takes for a rule to match ----------------------------------------------------

  function IDsOf(g: Grantees, t: GranteeType): seq<uint64> {
    if t in g then g[t] else []
  }

  ghost predicate UserCovered(sel: Selector, g: Option<Grantees>, userID: uint64) {
    || sel.all
    || userID in sel.userIDs
    || (g.Some? && (|| (Group in g.value && Shares(sel.groupIDs, g.value[Group]))
                    || (Department in g.value && Shares(sel.deptIDs, g.value[Department]))
                    || (Role in g.value && Shares(sel.roleIDs, g.value[Role]))))
  }

  ghost predicate AssetCovered(sel: Selector, input: Input) {
    || sel.all
    || (input.nodeID != 0 && input.nodeID in sel.nodeIDs)
    || Shares(sel.assetGroupIDs, input.nodeGroupIDs)
    || Shares(sel.tagIDs, input.nodeTagIDs)
  }

  predicate AccountCovered(sel: Selector, credentialID: uint64) {
    sel.all || (credentialID != 0 && credentialID in sel.credentialIDs)
  }

  /** Both ends of the validity period are inclusive. */
  predicate WithinValidity(r: Rule, now: int) {
    (r.validFrom.Some? ==> r.validFrom.value <= now) && (r.validTo.Some? ==> now <= r.validTo.value)
  }

  /** Every dimension of the rule holds for a user with these grantees. */
  ghost predicate Applies(p: Parsers, kind: Kind, r: Rule, input: Input, g: Option<Grantees>) {
    && (r.validFrom.Some? ==> r.validFrom.value <= input.now)
    && (r.validTo.Some? ==> input.now <= r.validTo.value)
    && UserCovered(r.users, g, input.userID)
    && AssetCovered(r.assets, input)
    && (r.accounts.all || (input.credentialID != 0 && input.credentialID in r.accounts.credentialIDs))
    && IPCovered(p, r.ipRule, input.clientIP)
    && p.inWindow(r.timeWindow, input.now)
    && (kind == CommandFilter ==> p.commandMatches(r.spec, input.command))
    && (kind == ConnectionMethod ==> p.methodMatches(r.spec, input.protocol))
  }

  lemma NotInForce(p: Parsers, kind: Kind, r: Rule, input: Input)
    requires !WithinValidity(r, input.now)
    ensures forall g :: !Applies(p, kind, r, input, g)
  {
  }

  /** The decision names the first rule, in the source's order, that applies; or accepts when none does. */
  ghost predicate IsFirstMatch(p: Parsers, kind: Kind, rules: seq<Rule>, input: Input, g: Option<Grantees>,
                               d: Decision) {
    if d.matched then
      && d.rule.Some? && d.rule.value < |rules| && Applies(p, kind, rules[d.rule.value], input, g)
      && d.action == rules[d.rule.value].action
      && forall j | 0 <= j < d.rule.value :: !Applies(p, kind, rules[j], input, g)
    else
      d == Decision(false, Accept, None) && forall j | 0 <= j < |rules| :: !Applies(p, kind, rules[j], input, g)
  }

  method MatchUser(sel: Selector, g: Option<Grantees>, userID: uint64) returns (r: bool)
    ensures r <==> UserCovered(sel, g, userID)
  {
    if sel.all || userID in sel.userIDs {
      return true;
    }
    if g.None? {
      return false;
    }
    var byGroup := Intersects(sel.groupIDs, IDsOf(g.value, Group));
    var byDept := Intersects(sel.deptIDs, IDsOf(g.value, Department));
    var byRole := Intersects(sel.roleIDs, IDsOf(g.value, Role));
    return byGroup || byDept || byRole;
  }

  method MatchAsset(sel: Selector, input: Input) returns (r: bool)
    ensures r <==> AssetCovered(sel, input)
  {
    if sel.all || (input.nodeID != 0 && input.nodeID in sel.nodeIDs) {
      return true;
    }
    var byGroup := Intersects(sel.assetGroupIDs, input.nodeGroupIDs);
    var byTag := Intersects(sel.tagIDs, input.nodeTagIDs);
    return byGroup || byTag;
  }

  // ---- The grantee resolver -----------------------------------------------------------------

  /** The outcome of one lookup: an error, or a set that may be nil. */
  datatype Lookup = Failed | Found(grantees: Option<Grantees>)

  /** Answers the n-th lookup with `outcomes(n)` and counts how often it is asked. */
  class Resolver {
    const outcomes: nat -> Lookup
    var calls: nat

    constructor (outcomes: nat -> Lookup)
      ensures this.outcomes == outcomes && calls == 0
    {
      this.outcomes, calls := outcomes, 0;
    }

    method GranteesForUser() returns (r: Lookup)
      modifies this
      ensures calls == old(calls) + 1 && r == outcomes(old(calls))
    {
      r := outcomes(calls);
      calls := calls + 1;
    }
  }

  /** What a lookup adds to what is known. */
  function Gained(l: Lookup): Option<Grantees> {
    match l case Failed => None case Found(g) => g
  }

  /** What resolving before the first rule would give, if the lookup then yields `first`. */
  function Upfront(input: Input, resolver: bool, first: Option<Grantees>): Option<Grantees> {
    if input.grantees.Some? || input.userID == 0 || !resolver then input.grantees else first
  }

  /** The remembered grantees and the number of lookups made so far. */
  datatype Knowledge = Knowledge(grantees: Option<Grantees>, calls: nat)

  /** What is known when rule i is tested: a rule in its validity period that is not for everybody
      triggers a lookup as long as nothing is known, so a failed lookup is tried again later. */
  function KnownAt(rules: seq<Rule>, input: Input, resolver: bool, outcomes: nat -> Lookup, calls: nat,
                   i: int): Knowledge
    requires -1 <= i < |rules|
    decreases i + 1
  {
    if i == -1 then Knowledge(input.grantees, calls)
    else
      var k := KnownAt(rules, input, resolver, outcomes, calls, i - 1);
      if WithinValidity(rules[i], input.now) && !rules[i].users.all && k.grantees.None? && input.userID != 0 && resolver
      then Knowledge(Gained(outcomes(k.calls)), k.calls + 1)
      else k
  }

  /** The first rule that applies under what is known when it is tested. */
  ghost predicate IsLazyMatch(p: Parsers, kind: Kind, rules: seq<Rule>, input: Input, resolver: bool,
                              outcomes: nat -> Lookup, calls: nat, d: Decision)
  {
    if d.matched then
      && d.rule.Some? && d.rule.value < |rules| && d.action == rules[d.rule.value].action
      && LazilyApplies(p, kind, rules, input, resolver, outcomes, calls, d.rule.value)
      && forall j | 0 <= j < d.rule.value :: !LazilyApplies(p, kind, rules, input, resolver, outcomes, calls, j)
    else
      && d == Decision(false, Accept, None)
      && forall j | 0 <= j < |rules| :: !LazilyApplies(p, kind, rules, input, resolver, outcomes, calls, j)
  }

  ghost predicate LazilyApplies(p: Parsers, kind: Kind, rules: seq<Rule>, input: Input, resolver: bool,
                                outcomes: nat -> Lookup, calls: nat, i: int)
    requires 0 <= i < |rules|
  {
    Applies(p, kind, rules[i], input, KnownAt(rules, input, resolver, outcomes, calls, i).grantees)
  }

  /** A set that can make no difference: it names no group, department or role. */
  predicate Idle(g: Grantees) {
    IDsOf(g, Group) == [] && IDsOf(g, Department) == [] && IDsOf(g, Role) == []
  }

  /** The lookup that yields the first set, when that is not the very first lookup. */
  ghost predicate FirstSetAt(outcomes: nat -> Lookup, calls: nat, n: nat) {
    n > calls && Gained(outcomes(n)).Some? && forall m: nat | calls <= m < n :: Gained(outcomes(m)).None?
  }

  /** The first lookup yields a set, or the set found first later on, if any, is idle. */
  ghost predicate Harmless(outcomes: nat -> Lookup, calls: nat) {
    Gained(outcomes(calls)).Some? || forall n: nat | FirstSetAt(outcomes, calls, n) :: Idle(Gained(outcomes(n)).value)
  }

  /** Two states of knowledge under which every rule decides alike. */
  predicate Alike(a: Option<Grantees>, b: Option<Grantees>) {
    a == b || (a.None? && b.Some? && Idle(b.value)) || (b.None? && a.Some? && Idle(a.value))
  }

  lemma AlikeApplies(p: Parsers, kind: Kind, r: Rule, input: Input, a: Option<Grantees>, b: Option<Grantees>)
    requires Alike(a, b) || !WithinValidity(r, input.now) || r.users.all
    ensures Applies(p, kind, r, input, a) <==> Applies(p, kind, r, input, b)
  {
    if WithinValidity(r, input.now) {
      assert UserCovered(r.users, a, input.userID) <==> UserCovered(r.users, b, input.userID);
    }
  }

  /** A rule that makes the engine look up grantees as long as it knows none. */
  predicate Asks(r: Rule, now: int) { WithinValidity(r, now) && !r.users.all }

  /** What is known at rule i: as many lookups have been made as it took to find a set, or as rules have
      asked. */
  lemma {:induction false} KnownSoFar(rules: seq<Rule>, input: Input, resolver: bool, outcomes: nat -> Lookup,
                                      calls: nat, i: int)
    requires -1 <= i < |rules|
    ensures var k := KnownAt(rules, input, resolver, outcomes, calls, i);
      && k.calls >= calls
      && (k.calls == calls ==> k.grantees == input.grantees)
      && (k.calls > calls ==> k.grantees == Gained(outcomes(k.calls - 1)))
      && (forall m: nat | calls <= m < k.calls - 1 :: Gained(outcomes(m)).None?)
      && (i >= 0 && Asks(rules[i], input.now) && input.grantees.None? && input.userID != 0 && resolver ==>
        k.calls > calls)
      && (input.grantees.Some? || input.userID == 0 || !resolver ==> k.calls == calls)
    decreases i + 1
  {
    if i >= 0 {
      KnownSoFar(rules, input, resolver, outcomes, calls, i - 1);
    }
  }

  lemma HarmlessKnowledge(rules: seq<Rule>, input: Input, resolver: bool, outcomes: nat -> Lookup, calls: nat, i: nat)
    requires Harmless(outcomes, calls) && i < |rules| && Asks(rules[i], input.now)
    ensures Alike(KnownAt(rules, input, resolver, outcomes, calls, i).grantees,
                  Upfront(input, resolver, Gained(outcomes(calls))))
  {
    hide Idle;
    hide IDsOf;
    KnownSoFar(rules, input, resolver, outcomes, calls, i);
    var k := KnownAt(rules, input, resolver, outcomes, calls, i);
    hide KnownAt;
    if k.calls > calls + 1 {
      assert Gained(outcomes(calls)).None?;
      if k.grantees.Some? {
        assert FirstSetAt(outcomes, calls, k.calls - 1);
      }
    }
  }

  /** The engine's decision is the one a single lookup up front leads to. */
  ghost predicate SameDecision(p: Parsers, kind: Kind, rules: seq<Rule>, input: Input, outcomes: nat -> Lookup,
                               calls: nat) {
    forall d :: IsLazyMatch(p, kind, rules, input, true, outcomes, calls, d)
      <==> IsFirstMatch(p, kind, rules, input, Upfront(input, true, Gained(outcomes(calls))), d)
  }

  lemma DecidedAlike(p: Parsers, kind: Kind, rules: seq<Rule>, input: Input, outcomes: nat -> Lookup, calls: nat)
    requires forall i | 0 <= i < |rules| ::
      LazilyApplies(p, kind, rules, input, true, outcomes, calls, i)
      <==> Applies(p, kind, rules[i], input, Upfront(input, true, Gained(outcomes(calls))))
    ensures SameDecision(p, kind, rules, input, outcomes, calls)
  {
    hide Applies;
    hide LazilyApplies;
    hide Upfront;
  }

  lemma HarmlessDecides(p: Parsers, kind: Kind, rules: seq<Rule>, input: Input, outcomes: nat -> Lookup, calls: nat)
    requires Harmless(outcomes, calls)
    ensures SameDecision(p, kind, rules, input, outcomes, calls)
  {
    hide Applies;
    hide KnownAt;
    var up := Upfront(input, true, Gained(outcomes(calls)));
    forall i | 0 <= i < |rules|
      ensures LazilyApplies(p, kind, rules, input, true, outcomes, calls, i) <==> Applies(p, kind, rules[i], input, up)
    {
      if Asks(rules[i], input.now) {
        HarmlessKnowledge(rules, input, true, outcomes, calls, i);
      }
      AlikeApplies(p, kind, rules[i], input, KnownAt(rules, input, true, outcomes, calls, i).grantees, up);
    }
    DecidedAlike(p, kind, rules, input, outcomes, calls);
  }

  /** For every set of rules and every input, deciding lazily is deciding after one lookup up front,
      exactly when the first lookup yields a set or the set found first later on is idle. */
  lemma LazyIsUpfrontExactly(outcomes: nat -> Lookup, calls: nat)
    ensures (forall p, kind, rules, input :: SameDecision(p, kind, rules, input, outcomes, calls))
       <==> Harmless(outcomes, calls)
  {
    if Harmless(outcomes, calls) {
      forall p, kind, rules, input ensures SameDecision(p, kind, rules, input, outcomes, calls) {
        HarmlessDecides(p, kind, rules, input, outcomes, calls);
      }
    } else {
      var p, rules, input := LazyDiffers(outcomes, calls);
      assert !SameDecision(p, UserLogin, rules, input, outcomes, calls);
    }
  }

  /** A rule for whoever shares one of these ids, without any other restriction. */
  function ShareRule(groups: seq<uint64>, depts: seq<uint64>, roles: seq<uint64>): Rule {
    var everything := Selector(true, [], [], [], [], [], [], [], []);
    Rule(Deny, None, None, Selector(false, [], groups, depts, roles, [], [], [], []), everything, everything, None,
         "", "")
  }

  const OPEN_PARSERS := Parsers((s, ip) => true, (s, n) => true, (s, c) => true, (s, m) => true)
  const SOME_USER := Input(1, 0, [], [], 0, None, 0, "", "", None)

  lemma ShareRuleApplies(groups: seq<uint64>, depts: seq<uint64>, roles: seq<uint64>, g: Option<Grantees>)
    ensures Applies(OPEN_PARSERS, UserLogin, ShareRule(groups, depts, roles), SOME_USER, g)
       <==> g.Some? && (|| Shares(groups, IDsOf(g.value, Group)) || Shares(depts, IDsOf(g.value, Department))
                        || Shares(roles, IDsOf(g.value, Role)))
  {
  }

  lemma {:induction false} AllAsking(rules: seq<Rule>, input: Input, outcomes: nat -> Lookup, calls: nat, i: nat)
    requires i < |rules| && (forall j | 0 <= j < |rules| :: Asks(rules[j], input.now))
    requires input.grantees.None? && input.userID != 0
    requires forall m: nat | calls <= m < calls + i :: Gained(outcomes(m)).None?
    ensures KnownAt(rules, input, true, outcomes, calls, i) == Knowledge(Gained(outcomes(calls + i)), calls + i + 1)
  {
    if i > 0 {
      AllAsking(rules, input, outcomes, calls, i - 1);
    } else {
      assert KnownAt(rules, input, true, outcomes, calls, -1) == Knowledge(None, calls);
    }
  }

  /** Rules that ask until the set turns up, and then hit it. */
  lemma LazyDiffers(outcomes: nat -> Lookup, calls: nat) returns (p: Parsers, rules: seq<Rule>, input: Input)
    requires !Harmless(outcomes, calls)
    ensures !SameDecision(p, UserLogin, rules, input, outcomes, calls)
  {
    p, input := OPEN_PARSERS, SOME_USER;
    var n: nat :| FirstSetAt(outcomes, calls, n) && !Idle(Gained(outcomes(n)).value);
    var g := Gained(outcomes(n)).value;
    var groups, depts, roles := IDsOf(g, Group), IDsOf(g, Department), IDsOf(g, Role);
    var rule := ShareRule(groups, depts, roles);
    rules := seq(n - calls + 1, _ => rule);
    var last := n - calls;
    AllAsking(rules, input, outcomes, calls, last);
    ShareRuleApplies(groups, depts, roles, Some(g));
    ShareRuleApplies(groups, depts, roles, None);
    SharesItself(groups);
    SharesItself(depts);
    SharesItself(roles);
    hide Applies;
    assert LazilyApplies(p, UserLogin, rules, input, true, outcomes, calls, last);
    assert IsFirstMatch(p, UserLogin, rules, input, None, ACCEPT);
    assert !IsLazyMatch(p, UserLogin, rules, input, true, outcomes, calls, ACCEPT);
  }

  lemma SharesItself(a: seq<uint64>)
    ensures Shares(a, a) <==> a != []
  {
    if a != [] {
      assert a[0] in a;
    }
  }

  /** What a caller can see beforehand: with grantees given, no user, or at most one rule that asks, the
      lookups decide nothing. */
  lemma FewAskingRules(p: Parsers, kind: Kind, rules: seq<Rule>, input: Input, outcomes: nat -> Lookup, calls: nat)
    requires input.grantees.Some? || input.userID == 0
      || forall i, j | 0 <= i < j < |rules| :: !(Asks(rules[i], input.now) && Asks(rules[j], input.now))
    ensures SameDecision(p, kind, rules, input, outcomes, calls)
  {
    hide Applies;
    var up := Upfront(input, true, Gained(outcomes(calls)));
    forall i | 0 <= i < |rules|
      ensures LazilyApplies(p, kind, rules, input, true, outcomes, calls, i) <==> Applies(p, kind, rules[i], input, up)
    {
      if Asks(rules[i], input.now) {
        KnownSoFar(rules, input, true, outcomes, calls, i);
        if input.grantees.None? && input.userID != 0 {
          NoneAsked(rules, input, outcomes, calls, i - 1);
        }
      }
      AlikeApplies(p, kind, rules[i], input, KnownAt(rules, input, true, outcomes, calls, i).grantees, up);
    }
    DecidedAlike(p, kind, rules, input, outcomes, calls);
  }

  lemma {:induction false} NoneAsked(rules: seq<Rule>, input: Input, outcomes: nat -> Lookup, calls: nat, i: int)
    requires -1 <= i < |rules| && forall j | 0 <= j <= i :: !Asks(rules[j], input.now)
    ensures KnownAt(rules, input, true, outcomes, calls, i) == Knowledge(input.grantees, calls)
    decreases i + 1
  {
    if i >= 0 {
      NoneAsked(rules, input, outcomes, calls, i - 1);
    }
  }

  /** One resolver that fails and then recovers: the first of two rules is passed over and the second
      decides, which no single lookup up front would have given. */
  lemma FlakyLookupDecidesDifferently(p: Parsers, input: Input, group: uint64)
    returns (rules: seq<Rule>, outcomes: nat -> Lookup)
    requires input.grantees.None? && input.userID != 0 && p.inWindow("", input.now)
    ensures IsLazyMatch(p, UserLogin, rules, input, true, outcomes, 0, Decision(true, Review, Some(1)))
    ensures Gained(outcomes(0)).None? && IsFirstMatch(p, UserLogin, rules, input, None, ACCEPT)
    ensures Gained(outcomes(1)).Some?
      && IsFirstMatch(p, UserLogin, rules, input, Gained(outcomes(1)), Decision(true, Deny, Some(0)))
  {
    var g: Grantees := map[Group := [group]];
    var deny := ShareRule([group], [], []);
    rules := [deny, deny.(action := Review)];
    outcomes := (n: nat) => if n == 0 then Failed else Found(Some(g));
    SharesItself([group]);
    AllAsking(rules, input, outcomes, 0, 0);
    AllAsking(rules, input, outcomes, 0, 1);
  }

  /** A first lookup that yields a set is the only one. */
  lemma AtMostOneLookup(rules: seq<Rule>, input: Input, resolver: bool, outcomes: nat -> Lookup, calls: nat, i: int)
    requires -1 <= i < |rules| && Gained(outcomes(calls)).Some?
    ensures var k := KnownAt(rules, input, resolver, outcomes, calls, i);
      calls <= k.calls <= calls + 1 && (k.calls > calls ==> k.grantees == Gained(outcomes(calls)))
  {
    KnownSoFar(rules, input, resolver, outcomes, calls, i);
    var k := KnownAt(rules, input, resolver, outcomes, calls, i);
    assert k.calls > calls + 1 ==> Gained(outcomes(calls)).None?;
  }

  /** There is no lookup at all for callers that bring their own set, or no user, or without a resolver. */
  lemma NoLookup(rules: seq<Rule>, input: Input, resolver: bool, outcomes: nat -> Lookup, calls: nat, i: int)
    requires -1 <= i < |rules| && (input.grantees.Some? || input.userID == 0 || !resolver)
    ensures KnownAt(rules, input, resolver, outcomes, calls, i) == Knowledge(input.grantees, calls)
  {
    KnownSoFar(rules, input, resolver, outcomes, calls, i);
  }

  /** The feature a kind needs, or "" for the kinds that are always on. */
  function KindFeature(kind: Kind): string {
    match kind
    case AssetConnectionReview => "connection_review"
    case DataMasking => "data_masking"
    case ConnectionMethod => "connection_method"
    case _ => ""
  }

  class Engine {
    const parsers: Parsers
    const resolver: Option<Resolver>
    /** Licensed features, or None when nothing is gated. */
    const edition: Option<set<string>>

    constructor (parsers: Parsers, resolver: Option<Resolver>, edition: Option<set<string>>)
      ensures this.parsers == parsers && this.resolver == resolver && this.edition == edition
    {
      this.parsers, this.resolver, this.edition := parsers, resolver, edition;
    }

    predicate Gated(kind: Kind) {
      KindFeature(kind) != "" && edition.Some? && KindFeature(kind) !in edition.value
    }

    /** The rules come from the store in priority order; None is a store error. */
    method Evaluate(kind: Kind, rules: Option<seq<Rule>>, input: Input) returns (d: Decision, failed: bool)
      modifies if resolver.Some? then {resolver.value} else {}
      ensures kind == CommandFilter || kind == UserLogin || edition.None? ==>
        Decided(kind, rules, input, old(Calls()), d, failed)
      ensures kind == AssetConnectionReview && edition.Some? ==>
        if "connection_review" in edition.value then Decided(kind, rules, input, old(Calls()), d, failed)
        else PassedOver(old(Calls()), d, failed)
      ensures kind == DataMasking && edition.Some? ==>
        if "data_masking" in edition.value then Decided(kind, rules, input, old(Calls()), d, failed)
        else PassedOver(old(Calls()), d, failed)
      ensures kind == ConnectionMethod && edition.Some? ==>
        if "connection_method" in edition.value then Decided(kind, rules, input, old(Calls()), d, failed)
        else PassedOver(old(Calls()), d, failed)
    {
      if Gated(kind) {
        return ACCEPT, false;
      }
      d, failed := FirstMatch(kind, rules, input);
    }

    /** The loop over the rules. */
    method FirstMatch(kind: Kind, rules: Option<seq<Rule>>, input: Input) returns (d: Decision, failed: bool)
      modifies if resolver.Some? then {resolver.value} else {}
      ensures Decided(kind, rules, input, old(Calls()), d, failed)
    {
      d, failed := ACCEPT, false;
      if rules.None? {
        failed := true;
        return;
      }
      hide Applies;
      var grantees := input.grantees;
      ghost var first := Calls();
      for i := 0 to |rules.value|
        invariant Knowledge(grantees, Calls()) == KnownAt(rules.value, input, resolver.Some?, Outcomes(), first, i - 1)
        invariant forall j | 0 <= j < i ::
          !LazilyApplies(parsers, kind, rules.value, input, resolver.Some?, Outcomes(), first, j)
      {
        var r := rules.value[i];
        if !WithinValidity(r, input.now) {
          NotInForce(parsers, kind, r, input);
          continue;
        }
        if !r.users.all && grantees.None? && input.userID != 0 && resolver.Some? {
          var got := resolver.value.GranteesForUser();
          if got.Found? {
            grantees := got.grantees;
          }
        }
        var applies := RuleApplies(kind, r, input, grantees);
        if applies {
          return Decision(true, r.action, Some(i)), false;
        }
      }
    }

    /** The rules decide, unless the store failed; lookups are made up to the deciding rule. */
    ghost predicate Decided(kind: Kind, rules: Option<seq<Rule>>, input: Input, first: nat, d: Decision, failed: bool)
      reads if resolver.Some? then {resolver.value} else {}
    {
      && (failed <==> rules.None?)
      && (failed ==> d == Decision(false, Accept, None) && Calls() == first)
      && (!failed ==>
            && IsLazyMatch(parsers, kind, rules.value, input, resolver.Some?, Outcomes(), first, d)
            && Calls() == KnownAt(rules.value, input, resolver.Some?, Outcomes(), first,
                                  if d.matched then d.rule.value else |rules.value| - 1).calls)
    }

    /** The rules are not even asked for. */
    ghost predicate PassedOver(first: nat, d: Decision, failed: bool)
      reads if resolver.Some? then {resolver.value} else {}
    {
      !failed && d == Decision(false, Accept, None) && Calls() == first
    }

    ghost function Outcomes(): nat -> Lookup {
      if resolver.Some? then resolver.value.outcomes else (n: nat) => Failed
    }

    ghost function Calls(): nat
      reads if resolver.Some? then {resolver.value} else {}
    {
      if resolver.Some? then resolver.value.calls else 0
    }

    /** The remaining dimensions of a rule that is within its validity period. */
    method RuleApplies(kind: Kind, r: Rule, input: Input, grantees: Option<Grantees>) returns (applies: bool)
      requires WithinValidity(r, input.now)
      ensures applies <==> Applies(parsers, kind, r, input, grantees)
    {
      applies := MatchUser(r.users, grantees, input.userID);
      if !applies {
        return;
      }
      applies := MatchAsset(r.assets, input);
      if !applies || !AccountCovered(r.accounts, input.credentialID) {
        return false;
      }
      applies := MatchIP(parsers, r.ipRule, input.clientIP);
      if !applies || !parsers.inWindow(r.timeWindow, input.now) {
        return false;
      }
      if kind == CommandFilter && !parsers.commandMatches(r.spec, input.command) {
        return false;
      }
      if kind == ConnectionMethod && !parsers.methodMatches(r.spec, input.protocol) {
        return false;
      }
      return true;
    }
  }
}
