/** The handler chain of a route, and its meaning: the conjunction of the route's gates. */
module Chain {
  import opened Network
  import opened AccessList
  import opened Wrappers

  /** A rate limit's allowFrom entry: a literal, or "@<list>". */
  datatype Exempt = NetLiteral(lit: Literal) | ListRef(name: string)

  datatype Kind = KRewrite | KHeaders | KGuard | KAuth | KBouncer | KRateLimit

  /** A middleware block. Blocks whose verdict is not modelled carry an id the World answers for. */
  datatype Spec =
    | Rewrite
    | Headers
    | Guard(id: int)
    | BasicAuth(allowFrom: seq<Literal>, users: seq<User>, realm: string)
    | OtherAuth(id: int)
    | Bouncer(id: int)
    | RateLimit(exempt: seq<Exempt>, id: int)
  {
    function Kind(): Kind {
      match this
      case Rewrite => KRewrite
      case Headers => KHeaders
      case Guard(_) => KGuard
      case BasicAuth(_, _, _) => KAuth
      case OtherAuth(_) => KAuth
      case Bouncer(_) => KBouncer
      case RateLimit(_, _) => KRateLimit
    }
  }

  datatype Middleware = Middleware(name: string, spec: Spec)

  datatype Location = Location(
    path: string, middlewares: seq<string>, accessLists: seq<string>,
    auth: Option<Spec>, rateLimit: Option<Spec>)

  datatype Host = Host(
    name: string, domains: seq<string>, middlewares: seq<string>, accessLists: seq<string>,
    auth: Option<Spec>, rateLimit: Option<Spec>, locations: seq<Location>)

  datatype Config = Config(lists: seq<List>, middlewares: seq<Middleware>, hosts: seq<Host>)

  /** Reusable objects by name; a later object of the same name wins. */
  datatype Registry = Registry(lists: map<string, List>, middlewares: map<string, Middleware>)

  function ListMap(lists: seq<List>): map<string, List> {
    if lists == [] then map[]
    else ListMap(lists[..|lists| - 1])[lists[|lists| - 1].name := lists[|lists| - 1]]
  }

  function MiddlewareMap(mws: seq<Middleware>): map<string, Middleware> {
    if mws == [] then map[]
    else MiddlewareMap(mws[..|mws| - 1])[mws[|mws| - 1].name := mws[|mws| - 1]]
  }

  function RegistryOf(cfg: Config): Registry {
    Registry(ListMap(cfg.lists), MiddlewareMap(cfg.middlewares))
  }

  // ----- gates -----

  function ParseNets(lits: seq<Literal>): seq<Net> {
    if lits == [] then []
    else
      var init := ParseNets(lits[..|lits| - 1]);
      match ParseNet(lits[|lits| - 1])
      case None => init
      case Some(n) => init + [n]
  }

  /** The networks a list allows without a path condition (accessListAllowNets). */
  function AllowNets(al: List, rules: seq<Rule>, ledger: Ledger): seq<Net> {
    if rules == [] then []
    else
      var init, r := AllowNets(al, rules[..|rules| - 1], ledger), rules[|rules| - 1];
      if r.action != Allow || r.PathScoped() then init
      else if r.source != "" then init + SourceNets(ledger, al.name, r.source)
      else match ParseNet(r.cidr) case None => init case Some(n) => init + [n]
  }

  function EntryNets(reg: Registry, e: Exempt, ledger: Ledger): seq<Net> {
    match e
    case NetLiteral(l) => (match ParseNet(l) case None => [] case Some(n) => [n])
    case ListRef(name) =>
      if name in reg.lists then AllowNets(reg.lists[name], reg.lists[name].rules, ledger) else []
  }

  function ExemptNets(reg: Registry, exempt: seq<Exempt>, ledger: Ledger): seq<Net> {
    if exempt == [] then []
    else ExemptNets(reg, exempt[..|exempt| - 1], ledger) + EntryNets(reg, exempt[|exempt| - 1], ledger)
  }

  predicate IpIn(r: Request, nets: seq<Net>) {
    r.ip.Some? && InNets(r.ip.value, nets)
  }

  /** basicAuthGate: the network exemption first, then the credentials; an empty credential set
      refuses everyone. */
  predicate BasicAuthPass(allowFrom: seq<Literal>, users: seq<User>, r: Request, w: World) {
    users != [] && (IpIn(r, ParseNets(allowFrom)) || Verify(CompileUsers(users), r, w))
  }

  /** Whether one gate lets a request of `host` through. */
  predicate GatePass(reg: Registry, spec: Spec, host: string, r: Request, w: World) {
    match spec
    case Rewrite => true
    case Headers => true
    case Guard(id) => w.gate(id, host, r)
    case BasicAuth(allowFrom, users, _) => BasicAuthPass(allowFrom, users, r, w)
    case OtherAuth(id) => w.gate(id, host, r)
    case Bouncer(id) => w.gate(id, host, r)
    case RateLimit(exempt, id) => IpIn(r, ExemptNets(reg, exempt, w.ledger)) || w.gate(id, host, r)
  }

  lemma {:induction false} ParseNetsMembers(lits: seq<Literal>, n: Net)
    ensures n in ParseNets(lits) <==> exists l | l in lits :: ParseNet(l) == Some(n)
  {
    if lits != [] {
      var init, last := lits[..|lits| - 1], lits[|lits| - 1];
      ParseNetsMembers(init, n);
      assert lits == init + [last];
      assert forall l :: l in lits <==> l in init || l == last;
    }
  }

  /** basicAuthGate, read off the configuration: somebody has a password, and the address is exempt
      or the credentials hold. */
  lemma BasicAuthIff(allowFrom: seq<Literal>, users: seq<User>, r: Request, w: World)
    ensures BasicAuthPass(allowFrom, users, r, w) <==>
      && users != []
      && ((r.ip.Some? && exists l | l in allowFrom :: ParseNet(l).Some? && Contains(ParseNet(l).value, r.ip.value))
          || CredentialsOk(users, r, w))
  {
    VerifyIff(users, r, w);
    forall n { ParseNetsMembers(allowFrom, n); }
  }

  /** What "@<list>" exempts: the networks of the list's unscoped allow rules. */
  predicate ListExempts(al: List, rules: seq<Rule>, ledger: Ledger, n: Net) {
    exists q | q in rules ::
      && q.action == Allow && q.paths == []
      && if q.source != "" then n in SourceNets(ledger, al.name, q.source) else ParseNet(q.cidr) == Some(n)
  }

  lemma {:induction false} AllowNetsMembers(al: List, rules: seq<Rule>, ledger: Ledger, n: Net)
    ensures n in AllowNets(al, rules, ledger) <==> ListExempts(al, rules, ledger, n)
  {
    if rules != [] {
      var init, last := rules[..|rules| - 1], rules[|rules| - 1];
      AllowNetsMembers(al, init, ledger, n);
      assert rules == init + [last];
      assert forall q :: q in rules <==> q in init || q == last;
    }
  }

  /** What one entry of a rate limit's allowFrom exempts. */
  predicate EntryExempts(reg: Registry, e: Exempt, ledger: Ledger, n: Net) {
    match e
    case NetLiteral(l) => ParseNet(l) == Some(n)
    case ListRef(name) => name in reg.lists && ListExempts(reg.lists[name], reg.lists[name].rules, ledger, n)
  }

  lemma {:induction false} ExemptNetsMembers(reg: Registry, exempt: seq<Exempt>, ledger: Ledger, n: Net)
    ensures n in ExemptNets(reg, exempt, ledger) <==> exists e | e in exempt :: EntryExempts(reg, e, ledger, n)
  {
    if exempt != [] {
      var init, last := exempt[..|exempt| - 1], exempt[|exempt| - 1];
      ExemptNetsMembers(reg, init, ledger, n);
      if last.ListRef? && last.name in reg.lists {
        AllowNetsMembers(reg.lists[last.name], reg.lists[last.name].rules, ledger, n);
      }
      assert n in EntryNets(reg, last, ledger) <==> EntryExempts(reg, last, ledger, n);
      assert exempt == init + [last];
      assert forall e :: e in exempt <==> e in init || e == last;
    }
  }

  // ----- routes -----

  /** What one chain is built from. A location's names and inline blocks are APPENDED to its
      host's. */
  datatype Route = Route(
    host: string, middlewares: seq<string>, accessLists: seq<string>, auth: seq<Spec>, rateLimit: seq<Spec>)

  /** Inline blocks are typed: an auth field holds an auth block, a rateLimit field a rate limit. */
  predicate WellKinded(route: Route) {
    (forall s | s in route.auth :: s.Kind() == KAuth) && (forall s | s in route.rateLimit :: s.Kind() == KRateLimit)
  }

  function Inline(o: Option<Spec>): seq<Spec> {
    match o case None => [] case Some(s) => [s]
  }

  /** The route of the host itself (None) or of its location j. */
  function RouteOf(h: Host, loc: Option<nat>): Route
    requires loc.Some? ==> loc.value < |h.locations|
  {
    match loc
    case None => Route(h.name, h.middlewares, h.accessLists, Inline(h.auth), Inline(h.rateLimit))
    case Some(j) =>
      var l := h.locations[j];
      Route(h.name, h.middlewares + l.middlewares, h.accessLists + l.accessLists,
            Inline(h.auth) + Inline(l.auth), Inline(h.rateLimit) + Inline(l.rateLimit))
  }

  predicate Resolves(reg: Registry, route: Route) {
    && (forall n | n in route.accessLists :: n in reg.lists)
    && (forall n | n in route.middlewares :: n in reg.middlewares)
  }

  /** A route admits a request iff every name resolves and every gate passes. */
  predicate Admits(reg: Registry, route: Route, r: Request, w: World) {
    && Resolves(reg, route)
    && (forall n | n in route.accessLists :: Pass(Compile(reg.lists[n], w.ledger), r, w))
    && (forall n | n in route.middlewares :: GatePass(reg, reg.middlewares[n].spec, route.host, r, w))
    && (forall s | s in route.auth + route.rateLimit :: GatePass(reg, s, route.host, r, w))
  }

  // ----- the chain as built -----

  datatype Handler =
    | Upstream
    | Unavailable
    | ListGate(list: Compiled, next: Handler)
    | MiddlewareGate(spec: Spec, inline: bool, next: Handler)

  predicate Serves(h: Handler, reg: Registry, host: string, r: Request, w: World) {
    match h
    case Upstream => true
    case Unavailable => false
    case ListGate(c, next) => Pass(c, r, w) && Serves(next, reg, host, r, w)
    case MiddlewareGate(s, _, next) => GatePass(reg, s, host, r, w) && Serves(next, reg, host, r, w)
  }

  const RANK_LIST := 2
  const RANK_UPSTREAM := 9

  /** Where a gate sits, counted from the outside; an inline block just outside its kind. */
  function Rank(kind: Kind, inline: bool): nat {
    match kind
    case KRateLimit => if inline then 0 else 1
    case KBouncer => 3
    case KAuth => if inline then 4 else 5
    case KGuard => 6
    case KHeaders => 7
    case KRewrite => 8
  }

  function TopRank(h: Handler): nat {
    match h
    case Upstream => RANK_UPSTREAM
    case Unavailable => RANK_UPSTREAM
    case ListGate(_, _) => RANK_LIST
    case MiddlewareGate(s, inline, _) => Rank(s.Kind(), inline)
  }

  /** Every gate runs no later than the gates inside it: the canonical order, whatever the order
      of the references. */
  predicate Layered(h: Handler) {
    match h
    case Upstream => true
    case Unavailable => true
    case ListGate(_, next) => RANK_LIST <= TopRank(next) && Layered(next)
    case MiddlewareGate(s, inline, next) => Rank(s.Kind(), inline) <= TopRank(next) && Layered(next)
  }

  /** The first unresolved name, lists before middlewares. */
  method UnresolvedRefs(reg: Registry, route: Route) returns (missing: Option<string>)
    ensures missing.None? <==> Resolves(reg, route)
    ensures missing.Some? ==>
      || (missing.value in route.accessLists && missing.value !in reg.lists)
      || (missing.value in route.middlewares && missing.value !in reg.middlewares)
  {
    for i := 0 to |route.accessLists|
      invariant forall n | n in route.accessLists[..i] :: n in reg.lists
    {
      if route.accessLists[i] !in reg.lists { return Some(route.accessLists[i]); }
    }
    for i := 0 to |route.middlewares|
      invariant forall n | n in route.middlewares[..i] :: n in reg.middlewares
    {
      if route.middlewares[i] !in reg.middlewares { return Some(route.middlewares[i]); }
    }
    return None;
  }

  /** Wraps h in the referenced middlewares of one kind, first name innermost. */
  method WrapKind(h: Handler, reg: Registry, names: seq<string>, kind: Kind) returns (out: Handler)
    requires forall n | n in names :: n in reg.middlewares
    requires Layered(h) && Rank(kind, false) <= TopRank(h)
    ensures Layered(out) && Rank(kind, false) <= TopRank(out)
    ensures forall host, r, w :: Serves(out, reg, host, r, w) <==>
      && Serves(h, reg, host, r, w)
      && forall n | n in names && reg.middlewares[n].spec.Kind() == kind ::
           GatePass(reg, reg.middlewares[n].spec, host, r, w)
  {
    out := h;
    for i := 0 to |names|
      invariant Layered(out) && Rank(kind, false) <= TopRank(out)
      invariant forall host, r, w :: Serves(out, reg, host, r, w) <==>
        && Serves(h, reg, host, r, w)
        && forall n | n in names[..i] && reg.middlewares[n].spec.Kind() == kind ::
             GatePass(reg, reg.middlewares[n].spec, host, r, w)
    {
      var mw := reg.middlewares[names[i]];
      assert names[..i + 1] == names[..i] + [names[i]];
      if mw.spec.Kind() != kind { continue; }
      out := MiddlewareGate(mw.spec, false, out);
    }
    assert names[..|names|] == names;
  }

  method WrapInline(h: Handler, reg: Registry, specs: seq<Spec>, kind: Kind) returns (out: Handler)
    requires forall s | s in specs :: s.Kind() == kind
    requires Layered(h) && Rank(kind, true) <= TopRank(h)
    ensures Layered(out) && Rank(kind, true) <= TopRank(out)
    ensures forall host, r, w :: Serves(out, reg, host, r, w) <==>
      Serves(h, reg, host, r, w) && forall s | s in specs :: GatePass(reg, s, host, r, w)
  {
    out := h;
    for i := 0 to |specs|
      invariant Layered(out) && Rank(kind, true) <= TopRank(out)
      invariant forall host, r, w :: Serves(out, reg, host, r, w) <==>
        Serves(h, reg, host, r, w) && forall s | s in specs[..i] :: GatePass(reg, s, host, r, w)
    {
      assert specs[..i + 1] == specs[..i] + [specs[i]];
      out := MiddlewareGate(specs[i], true, out);
    }
    assert specs[..|specs|] == specs;
  }

  method WrapLists(h: Handler, reg: Registry, names: seq<string>, ledger: Ledger) returns (out: Handler)
    requires forall n | n in names :: n in reg.lists
    requires Layered(h) && RANK_LIST <= TopRank(h)
    ensures Layered(out) && RANK_LIST <= TopRank(out)
    ensures forall host, r, w :: Serves(out, reg, host, r, w) <==>
      Serves(h, reg, host, r, w) && forall n | n in names :: Pass(Compile(reg.lists[n], ledger), r, w)
  {
    out := h;
    for i := 0 to |names|
      invariant Layered(out) && RANK_LIST <= TopRank(out)
      invariant forall host, r, w :: Serves(out, reg, host, r, w) <==>
        Serves(h, reg, host, r, w) && forall n | n in names[..i] :: Pass(Compile(reg.lists[n], ledger), r, w)
    {
      assert names[..i + 1] == names[..i] + [names[i]];
      var c := CompileAccessList(reg.lists[names[i]], ledger);
      out := ListGate(c, out);
    }
    assert names[..|names|] == names;
  }

  /** buildChainInline: rewrite, headers, guard, auth, inline auth, bouncer, access lists, rate
      limit, inline rate limit, from the inside out; an unresolved name answers 503. */
  method BuildChain(reg: Registry, route: Route, ledger: Ledger) returns (h: Handler)
    requires WellKinded(route)
    ensures Layered(h)
    ensures forall r, w: World :: w.ledger == ledger ==>
      (Serves(h, reg, route.host, r, w) <==> Admits(reg, route, r, w))
  {
    var missing := UnresolvedRefs(reg, route);
    if missing.Some? { return Unavailable; }
    h := Upstream;
    h := WrapKind(h, reg, route.middlewares, KRewrite);
    h := WrapKind(h, reg, route.middlewares, KHeaders);
    h := WrapKind(h, reg, route.middlewares, KGuard);
    h := WrapKind(h, reg, route.middlewares, KAuth);
    h := WrapInline(h, reg, route.auth, KAuth);
    h := WrapKind(h, reg, route.middlewares, KBouncer);
    h := WrapLists(h, reg, route.accessLists, ledger);
    h := WrapKind(h, reg, route.middlewares, KRateLimit);
    h := WrapInline(h, reg, route.rateLimit, KRateLimit);
  }
}
