/** What the migration means: which requests the migrated config admits, compared with the
    original one, for every config, route, request and outside world. */
module MigrationMeaning {
  import opened Network
  import opened AccessList
  import opened Chain
  import opened Migration
  import opened Wrappers

  // ----- the list and what replaces it on a route -----

  predicate Detaches(list: List) {
    list.satisfyAny && !NeedsAttachment(list)
  }

  function MovedNets(list: List): seq<Net> {
    ParseNets(if list.satisfyAny then AllowFromOf(list.rules) else [])
  }

  /** What a route that named the list asks of a request: before, the list itself... */
  predicate Before(list: List, r: Request, w: World) {
    Pass(Compile(list, w.ledger), r, w)
  }

  /** ...and after, the new middleware and, unless it was detached, the cleared list. */
  predicate After(list: List, r: Request, w: World) {
    && BasicAuthPass(if list.satisfyAny then AllowFromOf(list.rules) else [], list.basicAuth, r, w)
    && (Detaches(list) || Pass(Compile(Cleared(list), w.ledger), r, w))
  }

  /** A detaching default-deny list holds a bare IPv4-mapped literal whose IPv4 address no unscoped
      rule covers as compiled. */
  predicate Widens(list: List) {
    && Detaches(list)
    && list.defaultAction != Some(Allow)
    && exists r | r in list.rules ::
         Moves(r) && IsMapped(r.cidr) && forall q | q in list.rules && Moves(q) :: !RuleCovers(q, V4(r.cidr.addr.a))
  }

  // ----- lemmas about the pieces -----

  /** An address is exempt in the middleware iff some moved literal, as ParseNet reads it, covers it. */
  lemma ExemptIff(rules: seq<Rule>, ip: IP)
    ensures InNets(ip, ParseNets(AllowFromOf(rules)))
       <==> exists r | r in rules :: Moves(r) && ParseNet(r.cidr).Some? && Contains(ParseNet(r.cidr).value, ip)
  {
    var lits := AllowFromOf(rules);
    forall n ensures n in ParseNets(lits) <==> exists r | r in rules :: Moves(r) && ParseNet(r.cidr) == Some(n) {
      ParseNetsMembers(lits, n);
      forall l { AllowFromMembers(rules, l); }
    }
  }

  /** The verdict of a list all of whose rules are literal allow rules. */
  lemma LiteralVerdict(list: List, r: Request, w: World)
    requires !NeedsAttachment(list) && r.ip.Some?
    ensures AddressOk(list, r, w) <==>
      || list.defaultAction == Some(Allow)
      || exists q | q in list.rules :: RuleCovers(q, r.ip.value) && InScope(q, r)
  {
    forall q | q in list.rules ensures Applies(list, q, r, w) <==> RuleCovers(q, r.ip.value) && InScope(q, r) {
    }
    if exists q | q in list.rules :: Applies(list, q, r, w) {
      var i := SomeFirst(list, |list.rules|, r, w);
      assert list.rules[i] in list.rules;
    }
  }

  /** Where some rule applies, one is the first. */
  lemma SomeFirst(list: List, k: nat, r: Request, w: World) returns (i: nat)
    requires r.ip.Some? && k <= |list.rules| && exists j | 0 <= j < k :: Applies(list, list.rules[j], r, w)
    ensures i < k && FirstToApply(list, i, r, w)
  {
    i := 0;
    while !Applies(list, list.rules[i], r, w)
      invariant i < k && forall j | 0 <= j < i :: !Applies(list, list.rules[j], r, w)
      decreases k - i
    {
      i := i + 1;
    }
  }

  /** Before and After in one place: the pass rule, once the users are known to be there. */
  lemma PassRules(list: List, r: Request, w: World)
    requires list.basicAuth != []
    ensures var ok := AddressOk(list, r, w); var auth := CredentialsOk(list.basicAuth, r, w);
      && (Before(list, r, w) <==>
          if !HasDimension(list) then auth else if list.satisfyAny then ok || auth else ok && auth)
      && (After(list, r, w) <==>
          && (auth || (list.satisfyAny && IpIn(r, MovedNets(list))))
          && (Detaches(list) || if HasDimension(list) then ok else list.defaultAction != Some(Deny)))
  {
    PassIff(list, r, w);
    PassIff(Cleared(list), r, w);
    VerifyIff(list.basicAuth, r, w);
    ClearedApplies(list, r, w);
  }

  /** Clearing the credentials leaves the address verdict alone. */
  lemma ClearedApplies(list: List, r: Request, w: World)
    ensures AddressOk(Cleared(list), r, w) <==> AddressOk(list, r, w)
    ensures HasDimension(Cleared(list)) <==> HasDimension(list)
  {
    VerdictIff(list, r, w);
    VerdictIff(Cleared(list), r, w);
    HasRuleIff(list, w.ledger);
    HasRuleIff(Cleared(list), w.ledger);
  }

  // ----- never wider, exactly when -----

  lemma NeverWider(list: List, r: Request, w: World)
    requires list.basicAuth != [] && !Widens(list) && After(list, r, w)
    ensures Before(list, r, w)
  {
    PassRules(list, r, w);
    if list.satisfyAny && IpIn(r, MovedNets(list)) {
      ExemptIff(list.rules, r.ip.value);
      var q :| q in list.rules && Moves(q) && ParseNet(q.cidr).Some? && Contains(ParseNet(q.cidr).value, r.ip.value);
      assert HasRule(list);
      if Detaches(list) {
        LiteralVerdict(list, r, w);
        if !IsMapped(q.cidr) {
          ParsersAgree(q.cidr);
          assert RuleCovers(q, r.ip.value);
        } else {
          assert r.ip.value == V4(q.cidr.addr.a) by { assert BlockSize(32, 32) == 1; }
        }
      }
    }
  }

  const NO_WORLD := World(map[], false, _ => None, (_, _) => false, (_, _, _) => true)

  /** No path is longer. */
  function Longest(paths: seq<string>): (n: nat)
    ensures forall p | p in paths :: |p| <= n
  {
    if paths == [] then 0 else Longest(paths[..|paths| - 1]) + |paths[|paths| - 1]|
  }

  function LongestOf(rules: seq<Rule>): (n: nat)
    ensures forall q, p | q in rules && p in q.paths :: |p| <= n
  {
    if rules == [] then 0 else LongestOf(rules[..|rules| - 1]) + Longest(rules[|rules| - 1].paths)
  }

  /** An absolute path no rule lists. */
  lemma UnlistedPath(rules: seq<Rule>) returns (path: string)
    ensures path != "" && path[0] == '/' && forall q | q in rules :: path !in q.paths
  {
    path := "/" + seq(LongestOf(rules), _ => 'x');
  }

  lemma WidensWitness(list: List) returns (r: Request)
    requires list.basicAuth != [] && Widens(list)
    ensures After(list, r, NO_WORLD) && !Before(list, r, NO_WORLD) && r.path != "" && r.path[0] == '/'
  {
    var q :| q in list.rules && Moves(q) && IsMapped(q.cidr)
      && forall p | p in list.rules && Moves(p) :: !RuleCovers(p, V4(q.cidr.addr.a));
    var path := UnlistedPath(list.rules);
    r := Request(Some(V4(q.cidr.addr.a)), path, "GET", None);
    PassRules(list, r, NO_WORLD);
    LiteralVerdict(list, r, NO_WORLD);
    ExemptIff(list.rules, r.ip.value);
    assert Contains(ParseNet(q.cidr).value, r.ip.value);
    forall p | p in list.rules && RuleCovers(p, r.ip.value) ensures p.PathScoped() {
    }
  }

  /** The migration admits nothing new for a list iff the list does not hold such a literal. */
  lemma NeverWidensIff(list: List)
    requires list.basicAuth != []
    ensures (forall r, w :: After(list, r, w) ==> Before(list, r, w)) <==> !Widens(list)
  {
    if Widens(list) {
      var r := WidensWitness(list);
    } else {
      forall r, w | After(list, r, w) ensures Before(list, r, w) { NeverWider(list, r, w); }
    }
  }

  /** A list that widens: its only rule allows the literal ::ffff:1.2.3.4. */
  function MappedList(): List {
    List("l", true, [User("u", "h")], [Rule(Allow, Bare(Mapped4(0x01020304)), "", [], [])], [], None, None)
  }

  lemma WideningExample()
    ensures var list := MappedList();
      Widens(list) && exists r: Request, w: World ::
                        r.path != "" && r.path[0] == '/' && After(list, r, w) && !Before(list, r, w)
  {
    var rule := Rule(Allow, Bare(Mapped4(0x01020304)), "", [], []);
    var list := MappedList();
    assert rule in list.rules && Moves(rule) && IsMapped(rule.cidr) && !RuleCovers(rule, V4(0x01020304));
    assert Widens(list);
    var r := WidensWitness(list);
  }

  // ----- exact, exactly when -----

  /** Without satisfyAny the meaning is kept iff the cleared list still has a dimension or does
      not deny by default. */
  lemma StrictExactIff(list: List)
    requires list.basicAuth != [] && !list.satisfyAny
    ensures (forall r, w :: After(list, r, w) <==> Before(list, r, w))
       <==> HasDimension(list) || list.defaultAction != Some(Deny)
  {
    if HasDimension(list) || list.defaultAction != Some(Deny) {
      forall r, w ensures After(list, r, w) <==> Before(list, r, w) { PassRules(list, r, w); }
    } else {
      var r, w := ValidCredentials(list);
      PassRules(list, r, w);
      assert Before(list, r, w) && !After(list, r, w);
    }
  }

  /** A satisfyAny list that stays attached keeps its meaning only in the corner where it has no
      dimension left to become mandatory and does not deny by default. */
  lemma AttachedExactIff(list: List)
    requires list.basicAuth != [] && list.satisfyAny && NeedsAttachment(list)
    ensures (forall r, w :: After(list, r, w) <==> Before(list, r, w))
       <==> !HasDimension(list) && list.defaultAction != Some(Deny)
  {
    if !HasDimension(list) && list.defaultAction != Some(Deny) {
      forall r, w ensures After(list, r, w) <==> Before(list, r, w) {
        PassRules(list, r, w);
        if r.ip.Some? { ExemptIff(list.rules, r.ip.value); }
      }
    } else {
      var r, w := ValidCredentials(list);
      PassRules(list, r, w);
      assert Before(list, r, w) && !After(list, r, w);
    }
  }

  /** A request with accepted credentials and no resolvable address. */
  lemma ValidCredentials(list: List) returns (r: Request, w: World)
    requires list.basicAuth != []
    ensures r.ip.None? && CredentialsOk(list.basicAuth, r, w)
  {
    r := Request(None, "/", "GET", Some((list.basicAuth[|list.basicAuth| - 1].username, "")));
    w := NO_WORLD.(compare := (_, _) => true);
  }

  /** The addresses a detaching list admits without a password, for some path and method. */
  predicate AdmitsAlone(list: List, ip: IP) {
    (list.defaultAction == Some(Allow) && HasDimension(list)) || exists q | q in list.rules :: RuleCovers(q, ip)
  }

  /** A validated rule's paths are absolute, so none is empty. */
  predicate PathsValid(list: List) {
    forall q | q in list.rules :: "" !in q.paths
  }

  /** A detaching list keeps its meaning iff it does not widen and the moved networks cover
      exactly the addresses it admitted without a password. */
  lemma DetachedExactIff(list: List)
    requires list.basicAuth != [] && Detaches(list) && PathsValid(list)
    ensures (forall r, w :: After(list, r, w) <==> Before(list, r, w))
       <==> !Widens(list) && (forall ip :: InNets(ip, MovedNets(list)) <==> AdmitsAlone(list, ip))
  {
    NeverWidensIff(list);
    if forall r, w :: After(list, r, w) <==> Before(list, r, w) {
      forall ip ensures InNets(ip, MovedNets(list)) <==> AdmitsAlone(list, ip) {
        if InNets(ip, MovedNets(list)) {
          PasswordlessIff(list, Request(Some(ip), "/", "GET", None));
        }
        if AdmitsAlone(list, ip) {
          var r := Request(Some(ip), "/", "GET", None);
          if q :| q in list.rules && RuleCovers(q, ip) && q.PathScoped() {
            r := r.(path := q.paths[0], verb := q.EffectiveMethods()[0]);
            assert q.paths[0] in q.paths && r.verb in q.EffectiveMethods();
            MethodsCompiled(q, r.verb);
          }
          PasswordlessIff(list, r);
        }
      }
    } else if !Widens(list) && forall ip :: InNets(ip, MovedNets(list)) <==> AdmitsAlone(list, ip) {
      forall r, w ensures After(list, r, w) <==> Before(list, r, w) {
        PassRules(list, r, w);
        if r.ip.Some? { LiteralVerdict(list, r, w); }
        if After(list, r, w) { NeverWider(list, r, w); }
      }
    }
  }

  /** A request without credentials at a detaching list, spelled out on both sides. */
  lemma PasswordlessIff(list: List, r: Request)
    requires list.basicAuth != [] && Detaches(list) && r.ip.Some? && r.credentials.None?
    ensures After(list, r, NO_WORLD) <==> InNets(r.ip.value, MovedNets(list))
    ensures Before(list, r, NO_WORLD) <==>
      (&& HasDimension(list)
       && (|| list.defaultAction == Some(Allow)
           || exists q | q in list.rules ::
                RuleCovers(q, r.ip.value) && InScope(q, r)))
  {
    PassRules(list, r, NO_WORLD);
    LiteralVerdict(list, r, NO_WORLD);
  }

  /** The conditions an operator can read off the list under which its meaning is kept. */
  predicate KeepsMeaning(list: List) {
    if !list.satisfyAny then HasDimension(list) || list.defaultAction != Some(Deny)
    else
      && Detaches(list)
      && list.defaultAction != Some(Allow)
      && forall q | q in list.rules :: !q.PathScoped() && !IsMapped(q.cidr)
  }

  lemma KeepsMeaningExact(list: List, r: Request, w: World)
    requires list.basicAuth != [] && KeepsMeaning(list)
    ensures After(list, r, w) <==> Before(list, r, w)
  {
    PassRules(list, r, w);
    if list.satisfyAny && r.ip.Some? {
      LiteralVerdict(list, r, w);
      ExemptIff(list.rules, r.ip.value);
      forall q | q in list.rules ensures Moves(q) && RuleNet(q.cidr) == ParseNet(q.cidr) { ParsersAgree(q.cidr); }
    }
  }

  // ----- the whole config -----

  predicate Valid(cfg: Config) {
    && UniqueHosts(cfg.hosts)
    && (forall i, j | 0 <= i < j < |cfg.lists| :: cfg.lists[i].name != cfg.lists[j].name)
    && (forall i, j | 0 <= i < j < |cfg.middlewares| :: cfg.middlewares[i].name != cfg.middlewares[j].name)
    && (forall h | h in cfg.hosts :: RefsResolve(cfg, h))
  }

  predicate HasList(cfg: Config, n: string) { ListNamed(cfg.lists, n) }

  predicate HasMiddleware(cfg: Config, n: string) { MiddlewareNamed(cfg.middlewares, n) }

  predicate RefsResolve(cfg: Config, h: Host) {
    && (forall n | n in h.accessLists :: HasList(cfg, n))
    && (forall n | n in h.middlewares :: HasMiddleware(cfg, n))
    && (forall l | l in h.locations ::
          (forall n | n in l.accessLists :: HasList(cfg, n))
            && (forall n | n in l.middlewares :: HasMiddleware(cfg, n)))
  }

  /** A migration the handler goes through with. */
  predicate Migratable(cfg: Config, list: List, mwName: string) {
    Valid(cfg) && list in cfg.lists && list.basicAuth != [] && !HasMiddleware(cfg, mwName)
  }

  predicate ListNamed(lists: seq<List>, n: string) { exists x | x in lists :: x.name == n }

  lemma OneMoreList(lists: seq<List>, last: List, n: string)
    ensures ListNamed(lists + [last], n) <==> ListNamed(lists, n) || n == last.name
  {
    if n == last.name { assert last in lists + [last]; }
    if x :| x in lists && x.name == n { assert x in lists + [last]; }
  }

  lemma {:induction false} ListMapNames(lists: seq<List>, n: string)
    ensures n in ListMap(lists) <==> ListNamed(lists, n)
  {
    if lists != [] {
      ListMapNames(lists[..|lists| - 1], n);
      assert lists == lists[..|lists| - 1] + [lists[|lists| - 1]];
      OneMoreList(lists[..|lists| - 1], lists[|lists| - 1], n);
    }
  }

  lemma {:induction false} ListMapAt(lists: seq<List>, al: List)
    requires al in lists && forall i, j | 0 <= i < j < |lists| :: lists[i].name != lists[j].name
    ensures al.name in ListMap(lists) && ListMap(lists)[al.name] == al
  {
    var init, last := lists[..|lists| - 1], lists[|lists| - 1];
    if al != last {
      var i :| 0 <= i < |lists| && lists[i] == al;
      assert init[i] == al;
      ListMapAt(init, al);
    }
  }

  predicate MiddlewareNamed(mws: seq<Middleware>, n: string) { exists x | x in mws :: x.name == n }

  lemma OneMoreMiddleware(mws: seq<Middleware>, last: Middleware, n: string)
    ensures MiddlewareNamed(mws + [last], n) <==> MiddlewareNamed(mws, n) || n == last.name
  {
    if n == last.name { assert last in mws + [last]; }
    if x :| x in mws && x.name == n { assert x in mws + [last]; }
  }

  lemma {:induction false} MiddlewareMapNames(mws: seq<Middleware>, n: string)
    ensures n in MiddlewareMap(mws) <==> MiddlewareNamed(mws, n)
  {
    if mws != [] {
      MiddlewareMapNames(mws[..|mws| - 1], n);
      assert mws == mws[..|mws| - 1] + [mws[|mws| - 1]];
      OneMoreMiddleware(mws[..|mws| - 1], mws[|mws| - 1], n);
    }
  }

  /** The registry after the migration: the cleared list and the new middleware, nothing else. */
  lemma MigratedRegistry(cfg: Config, list: List, mwName: string)
    requires Migratable(cfg, list, mwName)
    ensures var reg, reg' := RegistryOf(cfg), RegistryOf(MigratedConfig(cfg, list, mwName));
      && list.name in reg.lists && reg.lists[list.name] == list && mwName !in reg.middlewares
      && reg'.lists == reg.lists[list.name := Cleared(list)]
      && reg'.middlewares == reg.middlewares[mwName := AuthMiddleware(list, PlanOf(cfg, list, mwName))]
  {
    var cfg' := MigratedConfig(cfg, list, mwName);
    var mw := AuthMiddleware(list, PlanOf(cfg, list, mwName));
    ListMapAt(cfg.lists, list);
    MiddlewareMapNames(cfg.middlewares, mwName);
    assert cfg'.middlewares[..|cfg.middlewares|] == cfg.middlewares;
    ReplacedListMap(cfg.lists, list);
  }

  lemma {:induction false} ReplacedListMap(lists: seq<List>, list: List)
    ensures ListMap(ReplaceList(lists, Cleared(list)))
         == if list.name in ListMap(lists) then ListMap(lists)[list.name := Cleared(list)] else ListMap(lists)
  {
    if lists != [] {
      var init, out := lists[..|lists| - 1], ReplaceList(lists, Cleared(list));
      ReplacedListMap(init, list);
      assert out[..|out| - 1] == ReplaceList(init, Cleared(list));
    }
  }

  lemma {:induction false} WithoutMembers(names: seq<string>, drop: string, n: string)
    ensures n in Without(names, drop) <==> n in names && n != drop
  {
    if names != [] {
      WithoutMembers(names[..|names| - 1], drop, n);
      assert names == names[..|names| - 1] + [names[|names| - 1]];
    }
  }

  /** The names on a migrated route: the list gone where it detaches, the middleware added
      wherever the list was, everything else as before. */
  lemma MigratedRoute(cfg: Config, list: List, mwName: string, h: Host, loc: Option<nat>)
    requires loc.Some? ==> loc.value < |h.locations|
    ensures var p := PlanOf(cfg, list, mwName); var h' := MigrateHost(h, list.name, p);
      && |h'.locations| == |h.locations|
      && (loc.Some? ==> h'.locations[loc.value].path == h.locations[loc.value].path)
      && var a, b := RouteOf(h, loc), RouteOf(h', loc);
         && b.host == a.host && b.auth == a.auth && b.rateLimit == a.rateLimit
         && (forall n :: n in b.accessLists <==> n in a.accessLists && !(p.detach && n == list.name))
         && (forall n :: n in b.middlewares <==> n in a.middlewares || (n == mwName && list.name in a.accessLists))
  {
    var p := PlanOf(cfg, list, mwName);
    MigratedOwn(h, list.name, p);
    if loc.Some? { MigratedLocation(h, list.name, p, loc.value); }
  }

  /** The host's half: what its own names become. */
  lemma MigratedOwn(h: Host, list: string, p: Plan)
    ensures var h' := MigrateHost(h, list, p);
      && |h'.locations| == |h.locations| && h'.name == h.name && h'.auth == h.auth && h'.rateLimit == h.rateLimit
      && (forall n :: n in h'.accessLists <==> n in h.accessLists && !(p.detach && n == list))
      && (forall n :: n in h'.middlewares <==> n in h.middlewares || (n == p.middleware && list in h.accessLists))
  {
    forall n ensures n in Without(h.accessLists, list) <==> n in h.accessLists && n != list {
      WithoutMembers(h.accessLists, list, n);
    }
  }

  /** The location's half. */
  lemma MigratedLocation(h: Host, list: string, p: Plan, j: nat)
    requires j < |h.locations|
    ensures var l, l' := h.locations[j], MigrateHost(h, list, p).locations[j];
      && l'.path == l.path && l'.auth == l.auth && l'.rateLimit == l.rateLimit
      && (forall n :: n in l'.accessLists <==> n in l.accessLists && !(p.detach && n == list))
      && (forall n :: n in l'.middlewares <==> n in l.middlewares || (n == p.middleware && list in l.accessLists))
  {
    var l := h.locations[j];
    assert MigrateHost(h, list, p).locations[j] == MigrateLocation(l, list, p);
    forall n ensures n in Without(l.accessLists, list) <==> n in l.accessLists && n != list {
      WithoutMembers(l.accessLists, list, n);
    }
  }

  /** Rate-limit exemptions through "@<list>" read only the rules, which the migration keeps. */
  lemma {:induction false} ExemptNetsKept(reg: Registry, list: List, mws: map<string, Middleware>, exempt: seq<Exempt>,
                                          ledger: Ledger)
    requires list.name in reg.lists && reg.lists[list.name] == list
    ensures ExemptNets(Registry(reg.lists[list.name := Cleared(list)], mws), exempt, ledger)
      == ExemptNets(reg, exempt, ledger)
  {
    if exempt != [] {
      ExemptNetsKept(reg, list, mws, exempt[..|exempt| - 1], ledger);
      AllowNetsKept(list, list.rules, ledger);
    }
  }

  lemma {:induction false} AllowNetsKept(list: List, rules: seq<Rule>, ledger: Ledger)
    ensures AllowNets(Cleared(list), rules, ledger) == AllowNets(list, rules, ledger)
  {
    if rules != [] { AllowNetsKept(list, rules[..|rules| - 1], ledger); }
  }

  lemma GateKept(reg: Registry, list: List, mws: map<string, Middleware>, spec: Spec, host: string, r: Request,
                 w: World)
    requires list.name in reg.lists && reg.lists[list.name] == list
    ensures GatePass(Registry(reg.lists[list.name := Cleared(list)], mws), spec, host, r, w)
      <==> GatePass(reg, spec, host, r, w)
  {
    if spec.RateLimit? { ExemptNetsKept(reg, list, mws, spec.exempt, w.ledger); }
  }

  /** Every gate of a route but the list: nothing the migration touches. */
  predicate OthersPass(reg: Registry, route: Route, list: string, r: Request, w: World) {
    && Resolves(reg, route)
    && (forall n | n in route.accessLists && n != list :: Pass(Compile(reg.lists[n], w.ledger), r, w))
    && (forall n | n in route.middlewares :: GatePass(reg, reg.middlewares[n].spec, route.host, r, w))
    && (forall s | s in route.auth + route.rateLimit :: GatePass(reg, s, route.host, r, w))
  }

  lemma RouteResolves(cfg: Config, h: Host, loc: Option<nat>)
    requires Valid(cfg) && h in cfg.hosts && (loc.Some? ==> loc.value < |h.locations|)
    ensures Resolves(RegistryOf(cfg), RouteOf(h, loc))
  {
    forall n { ListMapNames(cfg.lists, n); }
    forall n { MiddlewareMapNames(cfg.middlewares, n); }
    if loc.Some? { assert h.locations[loc.value] in h.locations; }
  }

  /** A route admits what its other gates admit and the list (before) or its replacement (after)
      lets through; a route that does not name the list is untouched. */
  lemma MigratedAdmits(cfg: Config, list: List, mwName: string, h: Host, loc: Option<nat>, r: Request, w: World)
    requires Migratable(cfg, list, mwName) && h in cfg.hosts && (loc.Some? ==> loc.value < |h.locations|)
    ensures var h' := MigrateHost(h, list.name, PlanOf(cfg, list, mwName));
      var reg, reg' := RegistryOf(cfg), RegistryOf(MigratedConfig(cfg, list, mwName));
      var route := RouteOf(h, loc);
      && |h'.locations| == |h.locations|
      && (Admits(reg, route, r, w) <==>
            OthersPass(reg, route, list.name, r, w) && (list.name in route.accessLists ==> Before(list, r, w)))
      && (Admits(reg', RouteOf(h', loc), r, w) <==>
            OthersPass(reg, route, list.name, r, w) && (list.name in route.accessLists ==> After(list, r, w)))
  {
    var p := PlanOf(cfg, list, mwName);
    var reg, reg' := RegistryOf(cfg), RegistryOf(MigratedConfig(cfg, list, mwName));
    var route, route' := RouteOf(h, loc), RouteOf(MigrateHost(h, list.name, p), loc);
    MigratedRegistry(cfg, list, mwName);
    MigratedRoute(cfg, list, mwName, h, loc);
    RouteResolves(cfg, h, loc);
    SplitAdmits(reg, reg', list, p, route, route', r, w);
  }

  /** What the registries and the routes are to each other is all that matters. */
  lemma SplitAdmits(reg: Registry, reg': Registry, list: List, p: Plan, route: Route, route': Route, r: Request,
                    w: World)
    requires list.name in reg.lists && reg.lists[list.name] == list && p.middleware !in reg.middlewares
      && Resolves(reg, route)
    requires p.allowFrom == if list.satisfyAny then AllowFromOf(list.rules) else []
    requires p.detach == Detaches(list)
    requires reg'.lists == reg.lists[list.name := Cleared(list)]
    requires reg'.middlewares == reg.middlewares[p.middleware := AuthMiddleware(list, p)]
    requires route'.host == route.host && route'.auth == route.auth && route'.rateLimit == route.rateLimit
    requires forall n :: n in route'.accessLists <==> n in route.accessLists && !(p.detach && n == list.name)
    requires forall n ::
               n in route'.middlewares <==>
                 n in route.middlewares || (n == p.middleware && list.name in route.accessLists)
    ensures Admits(reg, route, r, w) <==>
      OthersPass(reg, route, list.name, r, w) && (list.name in route.accessLists ==> Before(list, r, w))
    ensures Admits(reg', route', r, w) <==>
      OthersPass(reg, route, list.name, r, w) && (list.name in route.accessLists ==> After(list, r, w))
  {
    ListGates(reg, reg', list, p.detach, route.accessLists, route'.accessLists, r, w);
    MiddlewareGates(reg, reg', list, p, route, route', r, w);
    forall s | s in route.auth + route.rateLimit
      ensures GatePass(reg', s, route.host, r, w) <==> GatePass(reg, s, route.host, r, w)
    {
      GateKept(reg, list, reg'.middlewares, s, route.host, r, w);
    }
  }

  lemma ListGates(reg: Registry, reg': Registry, list: List, detach: bool, names: seq<string>, names': seq<string>,
                  r: Request, w: World)
    requires reg'.lists == reg.lists[list.name := Cleared(list)]
    requires forall n | n in names :: n in reg.lists
    requires forall n :: n in names' <==> n in names && !(detach && n == list.name)
    ensures (forall n | n in names' :: Pass(Compile(reg'.lists[n], w.ledger), r, w)) <==>
      && (forall n | n in names && n != list.name :: Pass(Compile(reg.lists[n], w.ledger), r, w))
      && (list.name in names && !detach ==> Pass(Compile(Cleared(list), w.ledger), r, w))
  {
    assert forall n | n in names && n != list.name :: n in names' && reg'.lists[n] == reg.lists[n];
  }

  lemma MiddlewareGates(reg: Registry, reg': Registry, list: List, p: Plan, route: Route, route': Route, r: Request,
                        w: World)
    requires list.name in reg.lists && reg.lists[list.name] == list && p.middleware !in reg.middlewares
    requires reg'.lists == reg.lists[list.name := Cleared(list)]
    requires reg'.middlewares == reg.middlewares[p.middleware := AuthMiddleware(list, p)]
    requires forall n | n in route.middlewares :: n in reg.middlewares
    requires forall n ::
               n in route'.middlewares <==>
                 n in route.middlewares || (n == p.middleware && list.name in route.accessLists)
    ensures (forall n | n in route'.middlewares :: GatePass(reg', reg'.middlewares[n].spec, route.host, r, w)) <==>
      && (forall n | n in route.middlewares :: GatePass(reg, reg.middlewares[n].spec, route.host, r, w))
      && (list.name in route.accessLists ==> BasicAuthPass(p.allowFrom, list.basicAuth, r, w))
  {
    forall n | n in route.middlewares
      ensures n in route'.middlewares
      ensures GatePass(reg', reg'.middlewares[n].spec, route.host, r, w)
        <==> GatePass(reg, reg.middlewares[n].spec, route.host, r, w)
    {
      GateKept(reg, list, reg'.middlewares, reg.middlewares[n].spec, route.host, r, w);
    }
    assert list.name in route.accessLists ==> p.middleware in route'.middlewares;
  }

  // ----- main results -----

  /** Whatever the config, host, location, request and world: what the migrated config admits, the
      original admitted. */
  lemma MigrationNeverWidens(cfg: Config, list: List, mwName: string, h: Host, loc: Option<nat>, r: Request, w: World)
    requires Migratable(cfg, list, mwName) && h in cfg.hosts && (loc.Some? ==> loc.value < |h.locations|)
    requires !Widens(list)
    ensures var h' := MigrateHost(h, list.name, PlanOf(cfg, list, mwName));
      && h' in MigratedConfig(cfg, list, mwName).hosts && |h'.locations| == |h.locations|
      && (Admits(RegistryOf(MigratedConfig(cfg, list, mwName)), RouteOf(h', loc), r, w) ==>
            Admits(RegistryOf(cfg), RouteOf(h, loc), r, w))
  {
    MigratedAdmits(cfg, list, mwName, h, loc, r, w);
    MigratedHostIn(cfg, list, mwName, h);
    if After(list, r, w) { NeverWider(list, r, w); }
  }

  /** The host asks for the list and nothing else. */
  predicate AsksOnly(h: Host, list: string) {
    h.accessLists == [list] && h.middlewares == [] && h.auth.None? && h.rateLimit.None?
  }

  /** That premise is needed: on a host that asks for the list and nothing else the migration admits
      nothing new iff the list does not widen. */
  lemma HostNeverWidensIff(cfg: Config, list: List, mwName: string, h: Host)
    requires Migratable(cfg, list, mwName) && h in cfg.hosts && AsksOnly(h, list.name)
    ensures var h' := MigrateHost(h, list.name, PlanOf(cfg, list, mwName));
      (forall r, w :: Admits(RegistryOf(MigratedConfig(cfg, list, mwName)), RouteOf(h', None), r, w)
                      ==> Admits(RegistryOf(cfg), RouteOf(h, None), r, w))
      <==> !Widens(list)
  {
    var h' := MigrateHost(h, list.name, PlanOf(cfg, list, mwName));
    var reg, reg' := RegistryOf(cfg), RegistryOf(MigratedConfig(cfg, list, mwName));
    RouteResolves(cfg, h, None);
    forall r, w
      ensures Admits(reg', RouteOf(h', None), r, w) <==> After(list, r, w)
      ensures Admits(reg, RouteOf(h, None), r, w) <==> Before(list, r, w)
    {
      MigratedAdmits(cfg, list, mwName, h, None, r, w);
      assert OthersPass(reg, RouteOf(h, None), list.name, r, w);
    }
    NeverWidensIff(list);
  }

  /** Every list that widens opens a whole configuration: one host behind it. */
  lemma WidensOneHost(list: List, mwName: string, h: Host)
    requires list.basicAuth != [] && Widens(list) && AsksOnly(h, list.name) && h.locations == []
    ensures var cfg := Config([list], [], [h]); var h' := MigrateHost(h, list.name, PlanOf(cfg, list, mwName));
      && Migratable(cfg, list, mwName)
      && exists r, w :: Admits(RegistryOf(MigratedConfig(cfg, list, mwName)), RouteOf(h', None), r, w)
                        && !Admits(RegistryOf(cfg), RouteOf(h, None), r, w)
  {
    var cfg := Config([list], [], [h]);
    assert list in cfg.lists;
    HostNeverWidensIff(cfg, list, mwName, h);
  }

  /** Admission is unchanged wherever the list keeps its meaning, and on every route that does not
      name the list, unconditionally. */
  lemma MigrationExact(cfg: Config, list: List, mwName: string, h: Host, loc: Option<nat>, r: Request, w: World)
    requires Migratable(cfg, list, mwName) && h in cfg.hosts && (loc.Some? ==> loc.value < |h.locations|)
    requires list.name in RouteOf(h, loc).accessLists ==> KeepsMeaning(list)
    ensures var h' := MigrateHost(h, list.name, PlanOf(cfg, list, mwName));
      && h' in MigratedConfig(cfg, list, mwName).hosts && |h'.locations| == |h.locations|
      && (Admits(RegistryOf(MigratedConfig(cfg, list, mwName)), RouteOf(h', loc), r, w) <==>
            Admits(RegistryOf(cfg), RouteOf(h, loc), r, w))
  {
    MigratedAdmits(cfg, list, mwName, h, loc, r, w);
    MigratedHostIn(cfg, list, mwName, h);
    if KeepsMeaning(list) { KeepsMeaningExact(list, r, w); }
  }

  lemma MigratedHostIn(cfg: Config, list: List, mwName: string, h: Host)
    requires h in cfg.hosts
    ensures MigrateHost(h, list.name, PlanOf(cfg, list, mwName)) in MigratedConfig(cfg, list, mwName).hosts
  {
    var i :| 0 <= i < |cfg.hosts| && cfg.hosts[i] == h;
    assert MigratedConfig(cfg, list, mwName).hosts[i] == MigrateHost(h, list.name, PlanOf(cfg, list, mwName));
  }

  /** The migrated config is valid again: names stay unique and no reference dangles. */
  lemma MigrationKeepsValid(cfg: Config, list: List, mwName: string)
    requires Migratable(cfg, list, mwName)
    ensures Valid(MigratedConfig(cfg, list, mwName))
    ensures !HasBasicAuth(MigratedConfig(cfg, list, mwName), list.name)
  {
    var cfg', p := MigratedConfig(cfg, list, mwName), PlanOf(cfg, list, mwName);
    forall n ensures HasList(cfg', n) <==> HasList(cfg, n) {
      forall i | 0 <= i < |cfg.lists| ensures cfg'.lists[i].name == cfg.lists[i].name && cfg'.lists[i] in cfg'.lists {}
    }
    var mw := AuthMiddleware(list, p);
    forall n ensures HasMiddleware(cfg', n) <==> HasMiddleware(cfg, n) || n == mwName {
      OneMoreMiddleware(cfg.middlewares, mw, n);
    }
    forall i | 0 <= i < |cfg.hosts| ensures RefsResolve(cfg', cfg'.hosts[i]) {
      assert cfg.hosts[i] in cfg.hosts;
      HostResolves(cfg, cfg', cfg.hosts[i], list.name, p);
    }
  }

  lemma HostResolves(cfg: Config, cfg': Config, h: Host, list: string, p: Plan)
    requires RefsResolve(cfg, h)
    requires forall n :: HasList(cfg', n) <==> HasList(cfg, n)
    requires forall n :: HasMiddleware(cfg', n) <==> HasMiddleware(cfg, n) || n == p.middleware
    ensures RefsResolve(cfg', MigrateHost(h, list, p))
  {
    var h' := MigrateHost(h, list, p);
    MigratedOwn(h, list, p);
    forall l | l in h'.locations
      ensures (forall n | n in l.accessLists :: HasList(cfg', n))
        && forall n | n in l.middlewares :: HasMiddleware(cfg', n)
    {
      var j :| 0 <= j < |h'.locations| && h'.locations[j] == l;
      MigratedLocation(h, list, p, j);
      assert h.locations[j] in h.locations;
    }
  }

  predicate HasBasicAuth(cfg: Config, name: string) {
    exists al | al in cfg.lists :: al.name == name && al.basicAuth != []
  }
}
