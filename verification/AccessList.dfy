/** Access lists: their compiled form, the rule/geo/default decision, and the pass rule of
    the handler that gates a request. */
module AccessList {
  import opened Network
  import opened Wrappers

  datatype Action = Allow | Deny

  datatype User = User(username: string, passwordHash: string)

  /** One ordered rule. `source` is "" for a literal rule; `paths` is [] for an unscoped one. */
  datatype Rule = Rule(action: Action, cidr: Literal, source: string, paths: seq<string>, methods: seq<string>) {
    predicate PathScoped() { |paths| > 0 }

    function EffectiveMethods(): seq<string> {
      if !PathScoped() then [] else if |methods| == 0 then ["GET", "HEAD"] else methods
    }
  }

  datatype Geo = Geo(countryAllow: seq<string>, countryDeny: seq<string>, onUnknown: Option<Action>)

  datatype List = List(
    name: string, satisfyAny: bool, basicAuth: seq<User>, rules: seq<Rule>, sources: seq<string>,
    defaultAction: Option<Action>, geo: Option<Geo>)

  predicate HasGeo(al: List) {
    al.geo.Some? && (|al.geo.value.countryAllow| > 0 || |al.geo.value.countryDeny| > 0)
  }

  /** Fetched source sets, keyed "<list>/<source>". */
  type Ledger = map<string, seq<Net>>

  function SourceNets(ledger: Ledger, list: string, source: string): seq<Net> {
    var key := list + "/" + source;
    if key in ledger then ledger[key] else []
  }

  datatype Request = Request(ip: Option<IP>, path: string, verb: string, credentials: Option<(string, string)>)

  /** What the request meets outside the config: the fetched source sets, the GeoIP database and
      the bcrypt comparison. `gate` answers for every gate kept abstract here (guards, bouncers, IdP auth,
      token buckets), by the id of its configuration and the host it runs on. */
  datatype World = World(
    ledger: Ledger, geoLoaded: bool, country: IP -> Option<string>, compare: (string, string) -> bool,
    gate: (int, string, Request) -> bool)

  // ----- compiled form -----

  datatype NetRule = NetRule(nets: seq<Net>, allow: bool, paths: Option<set<string>>, methods: set<string>) {
    predicate Matches(ip: IP, path: string, verb: string) {
      && (paths.Some? ==> path != "" && path in paths.value && verb in methods)
      && InNets(ip, nets)
    }
  }

  datatype Compiled = Compiled(
    name: string, satisfyAny: bool, defaultAllow: bool, explicitDeny: bool,
    rules: seq<NetRule>, users: map<string, string>, hasIP: bool, hasAuth: bool,
    hasGeo: bool, countryAllow: Option<set<string>>, countryDeny: set<string>, onUnknownAllow: bool)

  function Uppers(s: seq<string>): set<string> {
    set x | x in s :: Upper(x)
  }

  /** A rule's compiled form, or None for an unparseable literal, which is skipped. */
  function CompileRule(list: string, r: Rule, ledger: Ledger): Option<NetRule> {
    var nets := if r.source != "" then Some(SourceNets(ledger, list, r.source))
                else match RuleNet(r.cidr) case None => None case Some(n) => Some([n]);
    if nets.None? then None
    else Some(NetRule(nets.value, r.action == Allow,
                      if r.PathScoped() then Some(set p | p in r.paths) else None,
                      Uppers(r.EffectiveMethods())))
  }

  function CompileRules(list: string, rules: seq<Rule>, ledger: Ledger): seq<NetRule> {
    if rules == [] then []
    else
      var init := CompileRules(list, rules[..|rules| - 1], ledger);
      match CompileRule(list, rules[|rules| - 1], ledger)
      case None => init
      case Some(nr) => init + [nr]
  }

  /** Username -> hash; a repeated username keeps its last hash. */
  function CompileUsers(users: seq<User>): map<string, string> {
    if users == [] then map[]
    else
      var u := users[|users| - 1];
      CompileUsers(users[..|users| - 1])[u.username := u.passwordHash]
  }

  function Compile(al: List, ledger: Ledger): Compiled {
    var rules := CompileRules(al.name, al.rules, ledger);
    var users := CompileUsers(al.basicAuth);
    var g := if HasGeo(al) then al.geo.value else Geo([], [], None);
    Compiled(
      al.name, al.satisfyAny, al.defaultAction == Some(Allow), al.defaultAction == Some(Deny),
      rules, users, |rules| > 0, |users| > 0, HasGeo(al),
      if |g.countryAllow| > 0 then Some(Uppers(g.countryAllow)) else None,
      if |g.countryAllow| > 0 then {} else Uppers(g.countryDeny),
      HasGeo(al) && (if g.onUnknown.Some? then g.onUnknown.value == Allow else |g.countryAllow| == 0))
  }

  method CompileBasicAuthUsers(users: seq<User>) returns (out: map<string, string>)
    ensures out == CompileUsers(users)
    ensures |users| > 0 ==> |out| > 0
  {
    out := map[];
    for i := 0 to |users|
      invariant out == CompileUsers(users[..i])
    {
      assert users[..i + 1][..i] == users[..i];
      out := out[users[i].username := users[i].passwordHash];
    }
    assert users[..|users|] == users;
    UsersNonEmpty(users);
  }

  lemma UsersNonEmpty(users: seq<User>)
    ensures |CompileUsers(users)| > 0 <==> |users| > 0
  {
    if |users| > 0 {
      assert users[|users| - 1].username in CompileUsers(users);
    }
  }

  method CompileAccessList(al: List, ledger: Ledger) returns (c: Compiled)
    ensures c == Compile(al, ledger)
  {
    var users := CompileBasicAuthUsers(al.basicAuth);
    var rules: seq<NetRule> := [];
    for i := 0 to |al.rules|
      invariant rules == CompileRules(al.name, al.rules[..i], ledger)
    {
      assert al.rules[..i + 1][..i] == al.rules[..i];
      var r := al.rules[i];
      var nets: seq<Net>;
      if r.source != "" {
        nets := SourceNets(ledger, al.name, r.source);
      } else {
        match RuleNet(r.cidr) {
          case None => continue;
          case Some(n) => nets := [n];
        }
      }
      var nr := NetRule(nets, r.action == Allow, None, {});
      if r.PathScoped() {
        nr := nr.(paths := Some(set p | p in r.paths), methods := Uppers(r.EffectiveMethods()));
      }
      assert Uppers([]) == {};
      assert CompileRule(al.name, r, ledger) == Some(nr);
      rules := rules + [nr];
    }
    assert al.rules[..|al.rules|] == al.rules;
    c := Compiled(al.name, al.satisfyAny, al.defaultAction == Some(Allow), al.defaultAction == Some(Deny),
                  rules, users, |rules| > 0, |users| > 0, HasGeo(al), None, {}, false);
    if c.hasGeo {
      var g := al.geo.value;
      if |g.countryAllow| > 0 {
        c := c.(countryAllow := Some(Uppers(g.countryAllow)));
      } else {
        c := c.(countryDeny := Uppers(g.countryDeny));
      }
      match g.onUnknown {
        case Some(Allow) => c := c.(onUnknownAllow := true);
        case Some(Deny) => c := c.(onUnknownAllow := false);
        case None => c := c.(onUnknownAllow := |g.countryAllow| == 0);
      }
    }
  }

  // ----- decision -----

  /** The first matching rule's verdict, if any. */
  function FirstMatch(rules: seq<NetRule>, ip: IP, path: string, verb: string): Option<bool> {
    if rules == [] then None
    else if rules[0].Matches(ip, path, verb) then Some(rules[0].allow)
    else FirstMatch(rules[1..], ip, path, verb)
  }

  /** accessList.decide: (allow, byGeo). */
  function Decide(c: Compiled, r: Request, w: World): (bool, bool) {
    if r.ip.None? then (false, false)
    else if c.hasGeo && !w.geoLoaded then (false, false)
    else
      match FirstMatch(c.rules, r.ip.value, r.path, Upper(r.verb))
      case Some(allow) => (allow, false)
      case None =>
        if c.hasGeo then
          match w.country(r.ip.value)
          case None => (c.onUnknownAllow, true)
          case Some(cc) =>
            if c.countryAllow.Some? then (Upper(cc) in c.countryAllow.value, true)
            else if Upper(cc) in c.countryDeny then (false, true)
            else (c.defaultAllow, false)
        else (c.defaultAllow, false)
  }

  /** basicAuthUsers.verify: the bcrypt comparison is the world's. */
  predicate Verify(users: map<string, string>, r: Request, w: World) {
    r.credentials.Some? && r.credentials.value.0 in users
    && w.compare(users[r.credentials.value.0], r.credentials.value.1)
  }

  /** The pass rule of accessListHandler. */
  predicate Pass(c: Compiled, r: Request, w: World) {
    if !c.hasIP && !c.hasAuth && !c.hasGeo then !c.explicitDeny
    else
      var ipOK := if c.hasIP || c.hasGeo then Decide(c, r, w).0 else true;
      var authOK := if c.hasAuth then Verify(c.users, r, w) else true;
      if c.satisfyAny && (c.hasIP || c.hasGeo) && c.hasAuth then ipOK || authOK else ipOK && authOK
  }

  // ----- the decision, read off the configured list -----

  /** Some configured method equals the request's, letter case aside; without any, GET and HEAD. */
  predicate MethodListed(q: Rule, verb: string) {
    if q.methods == [] then Upper(verb) == "GET" || Upper(verb) == "HEAD"
    else exists m | m in q.methods :: Upper(m) == Upper(verb)
  }

  /** A literal's network, as a rule reads it, covers the address. */
  predicate RuleCovers(q: Rule, ip: IP) {
    RuleNet(q.cidr).Some? && Contains(RuleNet(q.cidr).value, ip)
  }

  /** A path-scoped rule asks for one of its paths and methods; a request without a path meets none. */
  predicate InScope(q: Rule, r: Request) {
    q.paths != [] ==> r.path != "" && r.path in q.paths && MethodListed(q, r.verb)
  }

  /** A configured rule applies to a request: its source's networks or its literal cover the
      address, and the request is in its scope. */
  predicate Applies(list: List, q: Rule, r: Request, w: World)
    requires r.ip.Some?
  {
    && (if q.source != "" then exists n | n in SourceNets(w.ledger, list.name, q.source) :: Contains(n, r.ip.value)
        else RuleCovers(q, r.ip.value))
    && InScope(q, r)
  }

  /** Rule i applies and none before it does. */
  predicate FirstToApply(list: List, i: nat, r: Request, w: World)
    requires r.ip.Some?
  {
    i < |list.rules| && Applies(list, list.rules[i], r, w)
    && forall j | 0 <= j < i :: !Applies(list, list.rules[j], r, w)
  }

  predicate CountryListed(countries: seq<string>, cc: string) {
    exists x | x in countries :: Upper(x) == Upper(cc)
  }

  predicate AsksCountry(list: List) {
    list.geo.Some? && (list.geo.value.countryAllow != [] || list.geo.value.countryDeny != [])
  }

  /** No rule applies: what is left to the countries, and then to the default. */
  predicate DefaultAdmits(list: List, r: Request, w: World)
    requires r.ip.Some?
  {
    if !AsksCountry(list) then list.defaultAction == Some(Allow)
    else
      var g := list.geo.value;
      match w.country(r.ip.value)
      case None => g.onUnknown == Some(Allow) || (g.onUnknown.None? && g.countryAllow == [])
      case Some(cc) =>
        if g.countryAllow != [] then CountryListed(g.countryAllow, cc)
        else !CountryListed(g.countryDeny, cc) && list.defaultAction == Some(Allow)
  }

  /** The list's address side admits a request. */
  predicate AddressOk(list: List, r: Request, w: World) {
    && r.ip.Some?
    && (AsksCountry(list) ==> w.geoLoaded)
    && ((exists i | 0 <= i < |list.rules| :: FirstToApply(list, i, r, w) && list.rules[i].action == Allow)
        || ((forall q | q in list.rules :: !Applies(list, q, r, w)) && DefaultAdmits(list, r, w)))
  }

  /** The answer is the countries': no rule applies, and the country is unknown, or the list names
      the only countries it allows, or this one is denied. */
  predicate ByCountry(list: List, r: Request, w: World) {
    && r.ip.Some?
    && AsksCountry(list) && w.geoLoaded
    && (forall q | q in list.rules :: !Applies(list, q, r, w))
    && (var cc := w.country(r.ip.value);
        cc.Some? && list.geo.value.countryAllow == [] ==> CountryListed(list.geo.value.countryDeny, cc.value))
  }

  /** The last user of the request's name, whose hash the password must meet. */
  predicate CredentialsOk(users: seq<User>, r: Request, w: World) {
    && r.credentials.Some?
    && exists i | 0 <= i < |users| ::
         && users[i].username == r.credentials.value.0
         && (forall j | i < j < |users| :: users[j].username != r.credentials.value.0)
         && w.compare(users[i].passwordHash, r.credentials.value.1)
  }

  /** Some rule survives compilation, so the list has an address side. */
  predicate HasRule(list: List) {
    exists q | q in list.rules :: q.source != "" || q.cidr != Malformed
  }

  predicate HasDimension(list: List) {
    HasRule(list) || AsksCountry(list)
  }

  lemma UppersMember(s: seq<string>, x: string)
    ensures Upper(x) in Uppers(s) <==> CountryListed(s, x)
  {
  }

  lemma MethodsCompiled(q: Rule, verb: string)
    requires q.PathScoped()
    ensures Upper(verb) in Uppers(q.EffectiveMethods()) <==> MethodListed(q, verb)
  {
    if q.methods == [] {
      assert Upper("GET") == "GET" && Upper("HEAD") == "HEAD";
      assert Uppers(["GET", "HEAD"]) == {"GET", "HEAD"} by {
        assert "GET" in ["GET", "HEAD"] && "HEAD" in ["GET", "HEAD"];
      }
    }
  }

  /** A compiled rule matches what its configured rule applies to; a rule that does not compile
      applies to nothing. */
  lemma RuleCompiled(list: List, q: Rule, r: Request, w: World)
    requires r.ip.Some?
    ensures var c := CompileRule(list.name, q, w.ledger);
      && (c.None? ==> !Applies(list, q, r, w))
      && (c.Some? ==>
            && (c.value.Matches(r.ip.value, r.path, Upper(r.verb)) <==> Applies(list, q, r, w))
            && (c.value.allow <==> q.action == Allow))
  {
    if q.PathScoped() { MethodsCompiled(q, r.verb); }
    if q.source == "" && RuleNet(q.cidr).Some? {
      var n := RuleNet(q.cidr).value;
      assert InNets(r.ip.value, [n]) <==> Contains(n, r.ip.value) by { assert n in [n]; }
    }
  }

  lemma {:induction false} FirstMatchAppend(rules: seq<NetRule>, last: NetRule, ip: IP, path: string, verb: string)
    ensures FirstMatch(rules + [last], ip, path, verb) ==
            if FirstMatch(rules, ip, path, verb).Some? then FirstMatch(rules, ip, path, verb)
            else if last.Matches(ip, path, verb) then Some(last.allow) else None
  {
    if rules == [] {
      assert rules + [last] == [last];
    } else {
      assert (rules + [last])[1..] == rules[1..] + [last];
      FirstMatchAppend(rules[1..], last, ip, path, verb);
    }
  }

  /** The compiled rules answer with the action of the first configured rule that applies. */
  lemma {:induction false} FirstOfConfigured(list: List, k: nat, r: Request, w: World)
    requires r.ip.Some? && k <= |list.rules|
    ensures var m := FirstMatch(CompileRules(list.name, list.rules[..k], w.ledger), r.ip.value, r.path, Upper(r.verb));
      && (m.None? ==> forall j | 0 <= j < k :: !Applies(list, list.rules[j], r, w))
      && (m.Some? ==> exists i | 0 <= i < k ::
                        FirstToApply(list, i, r, w) && (m.value <==> list.rules[i].action == Allow))
  {
    if k > 0 {
      FirstOfConfigured(list, k - 1, r, w);
      assert list.rules[..k][..k - 1] == list.rules[..k - 1];
      var q := list.rules[k - 1];
      RuleCompiled(list, q, r, w);
      var init := CompileRules(list.name, list.rules[..k - 1], w.ledger);
      var c := CompileRule(list.name, q, w.ledger);
      if c.Some? { FirstMatchAppend(init, c.value, r.ip.value, r.path, Upper(r.verb)); }
      if FirstMatch(init, r.ip.value, r.path, Upper(r.verb)).None? && c.Some? && Applies(list, q, r, w) {
        assert FirstToApply(list, k - 1, r, w);
      }
    }
  }

  /** The first rule to apply is unique. */
  lemma OneFirst(list: List, i: nat, j: nat, r: Request, w: World)
    requires r.ip.Some? && FirstToApply(list, i, r, w) && FirstToApply(list, j, r, w)
    ensures i == j
  {
  }

  /** The verdict and who gave it, for every list, request and world. */
  lemma VerdictIff(list: List, r: Request, w: World)
    ensures Decide(Compile(list, w.ledger), r, w).0 <==> AddressOk(list, r, w)
    ensures Decide(Compile(list, w.ledger), r, w).1 <==> ByCountry(list, r, w)
  {
    if r.ip.Some? {
      FirstOfConfigured(list, |list.rules|, r, w);
      assert list.rules[..|list.rules|] == list.rules;
      var m := FirstMatch(CompileRules(list.name, list.rules, w.ledger), r.ip.value, r.path, Upper(r.verb));
      if m.Some? {
        var i :| 0 <= i < |list.rules| && FirstToApply(list, i, r, w) && (m.value <==> list.rules[i].action == Allow);
        forall j: nat | FirstToApply(list, j, r, w) ensures j == i { OneFirst(list, i, j, r, w); }
        assert list.rules[i] in list.rules;
      } else if AsksCountry(list) && w.country(r.ip.value).Some? {
        UppersMember(list.geo.value.countryAllow, w.country(r.ip.value).value);
        UppersMember(list.geo.value.countryDeny, w.country(r.ip.value).value);
      }
    }
  }

  /** Spelled for a matching rule: its own action, whatever the countries and the default say. */
  lemma RuleDecides(list: List, i: nat, r: Request, w: World)
    requires r.ip.Some? && FirstToApply(list, i, r, w) && (AsksCountry(list) ==> w.geoLoaded)
    ensures Decide(Compile(list, w.ledger), r, w) == (list.rules[i].action == Allow, false)
  {
    VerdictIff(list, r, w);
    forall j: nat | FirstToApply(list, j, r, w) ensures j == i { OneFirst(list, i, j, r, w); }
    assert list.rules[i] in list.rules;
  }

  lemma {:induction false} LastHash(users: seq<User>, name: string)
    ensures name in CompileUsers(users) <==> exists i | 0 <= i < |users| :: users[i].username == name
    ensures name in CompileUsers(users) ==>
              exists i | 0 <= i < |users| ::
                && users[i].username == name && CompileUsers(users)[name] == users[i].passwordHash
                && forall j | i < j < |users| :: users[j].username != name
  {
    if users != [] {
      var init, last := users[..|users| - 1], users[|users| - 1];
      LastHash(init, name);
      if last.username == name {
        assert users[|users| - 1].username == name;
      } else if name in CompileUsers(init) {
        var i :| 0 <= i < |init| && init[i].username == name && CompileUsers(init)[name] == init[i].passwordHash
          && forall j | i < j < |init| :: init[j].username != name;
        assert users[i].username == name;
      }
    }
  }

  lemma VerifyIff(users: seq<User>, r: Request, w: World)
    ensures Verify(CompileUsers(users), r, w) <==> CredentialsOk(users, r, w)
  {
    if r.credentials.Some? { LastHash(users, r.credentials.value.0); }
  }

  lemma HasRuleIff(list: List, ledger: Ledger)
    ensures |Compile(list, ledger).rules| > 0 <==> HasRule(list)
  {
    var rules := CompileRules(list.name, list.rules, ledger);
    if |rules| > 0 {
      CompileRulesMembers(list.name, list.rules, ledger, rules[0]);
    }
    if HasRule(list) {
      var r :| r in list.rules && (r.source != "" || r.cidr != Malformed);
      CompileRulesMembers(list.name, list.rules, ledger, CompileRule(list.name, r, ledger).value);
    }
  }

  /** The handler's whole answer, for every list, request and world: the sides a list has decide,
      either of them under satisfyAny; a list without any admits unless it denies by default. */
  lemma PassIff(list: List, r: Request, w: World)
    ensures Pass(Compile(list, w.ledger), r, w) <==>
            if !HasDimension(list) && list.basicAuth == [] then list.defaultAction != Some(Deny)
            else if list.basicAuth == [] then AddressOk(list, r, w)
            else if !HasDimension(list) then CredentialsOk(list.basicAuth, r, w)
            else if list.satisfyAny then AddressOk(list, r, w) || CredentialsOk(list.basicAuth, r, w)
            else AddressOk(list, r, w) && CredentialsOk(list.basicAuth, r, w)
  {
    UsersNonEmpty(list.basicAuth);
    HasRuleIff(list, w.ledger);
    VerdictIff(list, r, w);
    VerifyIff(list.basicAuth, r, w);
  }

  // ----- facts about the compiled rules -----

  /** Membership in the compiled rules, rule by rule. */
  lemma {:induction false} CompileRulesMembers(list: string, rules: seq<Rule>, ledger: Ledger, nr: NetRule)
    ensures nr in CompileRules(list, rules, ledger)
       <==> exists r | r in rules :: CompileRule(list, r, ledger) == Some(nr)
  {
    if rules != [] {
      var init, last := rules[..|rules| - 1], rules[|rules| - 1];
      CompileRulesMembers(list, init, ledger, nr);
      assert rules == init + [last];
      assert forall r :: r in rules <==> r in init || r == last;
    }
  }
}
