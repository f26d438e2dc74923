/** Moving a list's basicAuth users into an auth middleware: the plan, the objects it writes and
    the config they merge into. */
module Migration {
  import opened Network
  import opened AccessList
  import opened Chain
  import opened Wrappers

  /** One host (path "") or host location that references the list. */
  datatype Attachment = Attachment(host: string, path: string)

  datatype Warning = SourceRule(source: string) | PathRule(paths: seq<string>) | StaysAttached

  datatype Plan = Plan(
    list: string, middleware: string, users: seq<string>, allowFrom: seq<Literal>, satisfyAny: bool,
    attachTo: seq<Attachment>, detach: bool, warnings: seq<Warning>)

  /** Whether the list still carries a verdict allowFrom cannot express. */
  predicate NeedsAttachment(list: List) {
    |list.sources| > 0 || HasGeo(list) || exists r | r in list.rules :: r.action == Deny || r.source != ""
  }

  // ----- the plan -----

  predicate Moves(r: Rule) {
    r.action == Allow && r.source == "" && !r.PathScoped()
  }

  function AllowFromOf(rules: seq<Rule>): seq<Literal> {
    if rules == [] then []
    else
      var r := rules[|rules| - 1];
      AllowFromOf(rules[..|rules| - 1]) + if Moves(r) then [r.cidr] else []
  }

  function WarningOf(r: Rule): seq<Warning> {
    if r.action != Allow then []
    else if r.source != "" then [SourceRule(r.source)]
    else if r.PathScoped() then [PathRule(r.paths)]
    else []
  }

  function WarningsOf(rules: seq<Rule>): seq<Warning> {
    if rules == [] then [] else WarningsOf(rules[..|rules| - 1]) + WarningOf(rules[|rules| - 1])
  }

  function LocationAttachments(host: string, locs: seq<Location>, list: string): seq<Attachment> {
    if locs == [] then []
    else
      var l := locs[|locs| - 1];
      LocationAttachments(host, locs[..|locs| - 1], list) +
      if list in l.accessLists then [Attachment(host, l.path)] else []
  }

  function HostAttachments(h: Host, list: string): seq<Attachment> {
    (if list in h.accessLists then [Attachment(h.name, "")] else []) +
    LocationAttachments(h.name, h.locations, list)
  }

  function Attachments(hosts: seq<Host>, list: string): seq<Attachment> {
    if hosts == [] then []
    else Attachments(hosts[..|hosts| - 1], list) + HostAttachments(hosts[|hosts| - 1], list)
  }

  function PlanOf(cfg: Config, list: List, mwName: string): Plan {
    var detach := list.satisfyAny && !NeedsAttachment(list);
    Plan(list.name, mwName, seq(|list.basicAuth|, i requires 0 <= i < |list.basicAuth| => list.basicAuth[i].username),
         if list.satisfyAny then AllowFromOf(list.rules) else [], list.satisfyAny,
         Attachments(cfg.hosts, list.name), detach,
         (if list.satisfyAny then WarningsOf(list.rules) else []) +
         (if list.satisfyAny && !detach then [StaysAttached] else []))
  }

  /** Every reference, host by host, host-wide before its locations. */
  method CollectAttachments(hosts: seq<Host>, list: string) returns (attachTo: seq<Attachment>)
    ensures attachTo == Attachments(hosts, list)
  {
    attachTo := [];
    for i := 0 to |hosts|
      invariant attachTo == Attachments(hosts[..i], list)
    {
      var h := hosts[i];
      assert hosts[..i + 1][..i] == hosts[..i];
      if list in h.accessLists {
        attachTo := attachTo + [Attachment(h.name, "")];
      }
      ghost var hostWide := attachTo;
      for j := 0 to |h.locations|
        invariant attachTo == hostWide + LocationAttachments(h.name, h.locations[..j], list)
      {
        assert h.locations[..j + 1][..j] == h.locations[..j];
        if list in h.locations[j].accessLists {
          attachTo := attachTo + [Attachment(h.name, h.locations[j].path)];
        }
      }
      assert h.locations[..|h.locations|] == h.locations;
    }
    assert hosts[..|hosts|] == hosts;
  }

  method PlanMigration(cfg: Config, list: List, mwName: string) returns (p: Plan)
    ensures p == PlanOf(cfg, list, mwName)
  {
    var users: seq<string> := [];
    for i := 0 to |list.basicAuth|
      invariant users == seq(i, k requires 0 <= k < |list.basicAuth| => list.basicAuth[k].username)
    {
      users := users + [list.basicAuth[i].username];
    }
    var allowFrom, warnings, detach := [], [], false;
    if list.satisfyAny {
      detach := !NeedsAttachment(list);
      for i := 0 to |list.rules|
        invariant allowFrom == AllowFromOf(list.rules[..i])
        invariant warnings == WarningsOf(list.rules[..i])
      {
        var rule := list.rules[i];
        assert list.rules[..i + 1][..i] == list.rules[..i];
        if rule.action != Allow { continue; }
        if rule.source != "" {
          warnings := warnings + [SourceRule(rule.source)];
        } else if rule.PathScoped() {
          warnings := warnings + [PathRule(rule.paths)];
        } else {
          allowFrom := allowFrom + [rule.cidr];
        }
      }
      assert list.rules[..|list.rules|] == list.rules;
    }
    if list.satisfyAny && !detach {
      warnings := warnings + [StaysAttached];
    }
    var attachTo := CollectAttachments(cfg.hosts, list.name);
    p := Plan(list.name, mwName, users, allowFrom, list.satisfyAny, attachTo, detach, warnings);
  }

  // ----- the plan, read off the configuration -----

  lemma {:induction false} AllowFromMembers(rules: seq<Rule>, l: Literal)
    ensures l in AllowFromOf(rules)
       <==> exists r | r in rules :: r.action == Allow && r.source == "" && r.paths == [] && r.cidr == l
  {
    if rules != [] {
      var init, last := rules[..|rules| - 1], rules[|rules| - 1];
      AllowFromMembers(init, l);
      assert rules == init + [last];
      assert forall r :: r in rules <==> r in init || r == last;
    }
  }

  /** Why an allow rule is left behind, if it is. */
  predicate WarnsOf(r: Rule, x: Warning) {
    r.action == Allow &&
    match x
    case SourceRule(source) => r.source == source && source != ""
    case PathRule(paths) => r.source == "" && r.paths == paths && paths != []
    case StaysAttached => false
  }

  lemma {:induction false} WarningsMembers(rules: seq<Rule>, x: Warning)
    ensures x in WarningsOf(rules) <==> exists r | r in rules :: WarnsOf(r, x)
  {
    if rules != [] {
      var init, last := rules[..|rules| - 1], rules[|rules| - 1];
      WarningsMembers(init, x);
      assert x in WarningOf(last) <==> WarnsOf(last, x);
      assert rules == init + [last];
      assert forall r :: r in rules <==> r in init || r == last;
    }
  }

  /** The attachment is a reference of the host: its own, or one of its locations'. */
  predicate RefersAt(h: Host, list: string, a: Attachment) {
    && a.host == h.name
    && ((list in h.accessLists && a.path == "") || exists l | l in h.locations ::
                                                     list in l.accessLists && a.path == l.path)
  }

  lemma {:induction false} LocationMembers(host: string, locs: seq<Location>, list: string, a: Attachment)
    ensures a in LocationAttachments(host, locs, list)
       <==> a.host == host && exists l | l in locs :: list in l.accessLists && a.path == l.path
  {
    if locs != [] {
      var init, last := locs[..|locs| - 1], locs[|locs| - 1];
      LocationMembers(host, init, list, a);
      assert locs == init + [last];
      assert forall l :: l in locs <==> l in init || l == last;
    }
  }

  lemma HostMembers(h: Host, list: string, a: Attachment)
    ensures a in HostAttachments(h, list) <==> RefersAt(h, list, a)
  {
    LocationMembers(h.name, h.locations, list, a);
  }

  predicate SomeRefers(hosts: seq<Host>, list: string, a: Attachment) {
    exists h | h in hosts :: RefersAt(h, list, a)
  }

  lemma OneMoreRefers(init: seq<Host>, last: Host, list: string, a: Attachment)
    ensures SomeRefers(init + [last], list, a) <==> SomeRefers(init, list, a) || RefersAt(last, list, a)
  {
    if h :| h in init && RefersAt(h, list, a) { assert h in init + [last]; }
    assert last in init + [last];
  }

  lemma {:induction false} AttachmentMembers(hosts: seq<Host>, list: string, a: Attachment)
    ensures a in Attachments(hosts, list) <==> SomeRefers(hosts, list, a)
  {
    if hosts != [] {
      var init, last := hosts[..|hosts| - 1], hosts[|hosts| - 1];
      AttachmentMembers(init, list, a);
      HostMembers(last, list, a);
      OneMoreRefers(init, last, list, a);
      assert hosts == init + [last];
    }
  }

  /** They come host by host, whatever the other hosts. */
  lemma {:induction false} AttachmentsByHost(first: seq<Host>, rest: seq<Host>, list: string)
    ensures Attachments(first + rest, list) == Attachments(first, list) + Attachments(rest, list)
  {
    if rest == [] {
      assert first + rest == first;
    } else {
      AttachmentsByHost(first, rest[..|rest| - 1], list);
      OneMoreHost(first, rest[..|rest| - 1], rest[|rest| - 1], list);
      assert rest == rest[..|rest| - 1] + [rest[|rest| - 1]];
    }
  }

  lemma OneMoreHost(first: seq<Host>, init: seq<Host>, last: Host, list: string)
    requires Attachments(first + init, list) == Attachments(first, list) + Attachments(init, list)
    ensures Attachments(first + (init + [last]), list) == Attachments(first, list) + Attachments(init + [last], list)
  {
    assert first + (init + [last]) == (first + init) + [last];
    AttachmentsStep(first + init, last, list);
    AttachmentsStep(init, last, list);
    Regrouped(Attachments(first, list), Attachments(init, list), HostAttachments(last, list));
  }

  lemma Regrouped(a: seq<Attachment>, b: seq<Attachment>, c: seq<Attachment>)
    ensures a + (b + c) == (a + b) + c
  {
  }

  lemma AttachmentsStep(hosts: seq<Host>, last: Host, list: string)
    ensures Attachments(hosts + [last], list) == Attachments(hosts, list) + HostAttachments(last, list)
  {
    assert (hosts + [last])[..|hosts|] == hosts;
  }

  /** The list carries a verdict the middleware's exemption cannot: a source list, a country, a deny
      rule or a rule on a fetched source. */
  predicate CarriesMore(list: List) {
    list.sources != [] || AsksCountry(list) || exists r | r in list.rules :: r.action == Deny || r.source != ""
  }

  /** What a plan says, whatever the configuration. */
  lemma PlanSays(cfg: Config, list: List, mwName: string)
    ensures var p := PlanOf(cfg, list, mwName);
      && p.list == list.name && p.middleware == mwName && (p.satisfyAny <==> list.satisfyAny)
      && |p.users| == |list.basicAuth| && (forall i | 0 <= i < |p.users| :: p.users[i] == list.basicAuth[i].username)
      && (p.detach <==> list.satisfyAny && !CarriesMore(list))
      && (forall l :: l in p.allowFrom <==>
            list.satisfyAny && exists r | r in list.rules ::
              r.action == Allow && r.source == "" && r.paths == [] && r.cidr == l)
      && (forall a :: a in p.attachTo <==> SomeRefers(cfg.hosts, list.name, a))
      && (forall x :: x in p.warnings <==>
            list.satisfyAny
              && ((exists r | r in list.rules :: WarnsOf(r, x)) || (x == StaysAttached && CarriesMore(list))))
  {
    forall l { AllowFromMembers(list.rules, l); }
    forall a { AttachmentMembers(cfg.hosts, list.name, a); }
    forall x { WarningsMembers(list.rules, x); }
  }

  // ----- the objects -----

  function Without(names: seq<string>, drop: string): seq<string> {
    if names == [] then []
    else Without(names[..|names| - 1], drop) + if names[|names| - 1] != drop then [names[|names| - 1]] else []
  }

  function Attached(names: seq<string>, mwName: string): seq<string> {
    if mwName in names then names else names + [mwName]
  }

  function MigrateLocation(l: Location, list: string, p: Plan): Location {
    if list !in l.accessLists then l
    else l.(accessLists := if p.detach then Without(l.accessLists, list) else l.accessLists,
            middlewares := Attached(l.middlewares, p.middleware))
  }

  /** The host with its own references and its first n locations migrated. */
  function MigrateUpTo(h: Host, list: string, p: Plan, n: nat): Host
    requires n <= |h.locations|
  {
    var own := if list !in h.accessLists then h
               else h.(accessLists := if p.detach then Without(h.accessLists, list) else h.accessLists,
                       middlewares := Attached(h.middlewares, p.middleware));
    own.(locations := seq(|h.locations|, k requires 0 <= k < |h.locations| =>
      if k < n then MigrateLocation(h.locations[k], list, p) else h.locations[k]))
  }

  function MigrateHost(h: Host, list: string, p: Plan): Host {
    MigrateUpTo(h, list, p, |h.locations|)
  }

  /** Whether the host, or one of its first n locations, references the list. */
  predicate References(h: Host, list: string, n: nat)
    requires n <= |h.locations|
  {
    list in h.accessLists || exists k | 0 <= k < n :: list in h.locations[k].accessLists
  }

  predicate UniqueHosts(hosts: seq<Host>) {
    forall i, j | 0 <= i < j < |hosts| :: hosts[i].name != hosts[j].name
  }

  function AuthMiddleware(list: List, p: Plan): Middleware {
    Middleware(p.middleware, BasicAuth(p.allowFrom, list.basicAuth, list.name))
  }

  function Cleared(list: List): List {
    list.(basicAuth := [], satisfyAny := false)
  }

  /** The objects written: the middleware, one updated copy per touched host, the cleared list. */
  method MigrationObjects(cfg: Config, list: List, p: Plan)
    returns (mw: Middleware, touched: map<string, Host>, cleared: List)
    requires UniqueHosts(cfg.hosts)
    ensures mw == AuthMiddleware(list, p) && cleared == Cleared(list)
    ensures forall h | h in cfg.hosts :: h.name in touched <==> References(h, list.name, |h.locations|)
    ensures forall h | h in cfg.hosts && h.name in touched :: touched[h.name] == MigrateHost(h, list.name, p)
    ensures forall n | n in touched :: exists h | h in cfg.hosts :: h.name == n
  {
    mw := Middleware(p.middleware, BasicAuth(p.allowFrom, list.basicAuth, list.name));
    touched := map[];
    for i := 0 to |cfg.hosts|
      invariant forall k | 0 <= k < i :: var h := cfg.hosts[k];
        && (h.name in touched <==> References(h, list.name, |h.locations|))
        && (h.name in touched ==> touched[h.name] == MigrateHost(h, list.name, p))
      invariant forall n | n in touched :: exists k | 0 <= k < i :: cfg.hosts[k].name == n
    {
      touched := TouchHost(cfg.hosts[i], list.name, p, touched);
    }
    cleared := list.(basicAuth := [], satisfyAny := false);
  }

  /** One host's turn: the host-wide reference first, then its locations on the copy made so far. */
  method TouchHost(orig: Host, list: string, p: Plan, before: map<string, Host>) returns (touched: map<string, Host>)
    requires orig.name !in before
    ensures touched == if References(orig, list, |orig.locations|) then before[orig.name := MigrateHost(orig, list, p)]
      else before
  {
    touched := before;
    if list in orig.accessLists {
      var h := orig;
      if p.middleware !in h.middlewares {
        h := h.(middlewares := h.middlewares + [p.middleware]);
      }
      if p.detach {
        h := h.(accessLists := Without(h.accessLists, list));
      }
      touched := touched[h.name := h];
    }
    assert MigrateUpTo(orig, list, p, 0).locations == orig.locations;
    for j := 0 to |orig.locations|
      invariant touched == if References(orig, list, j) then before[orig.name := MigrateUpTo(orig, list, p, j)]
        else before
    {
      NextLocation(orig, list, p, j);
      if list !in orig.locations[j].accessLists { continue; }
      var h := if orig.name in touched then touched[orig.name] else orig;
      var loc := h.locations[j];
      if p.detach {
        loc := loc.(accessLists := Without(loc.accessLists, list));
      }
      if p.middleware !in loc.middlewares {
        loc := loc.(middlewares := loc.middlewares + [p.middleware]);
      }
      assert loc == MigrateLocation(orig.locations[j], list, p);
      touched := touched[orig.name := h.(locations := h.locations[j := loc])];
    }
  }

  lemma NextLocation(h: Host, list: string, p: Plan, j: nat)
    requires j < |h.locations|
    ensures References(h, list, j + 1) <==> References(h, list, j) || list in h.locations[j].accessLists
    ensures !References(h, list, j) ==> MigrateUpTo(h, list, p, j) == h
    ensures list !in h.locations[j].accessLists ==> MigrateUpTo(h, list, p, j + 1) == MigrateUpTo(h, list, p, j)
    ensures var before := MigrateUpTo(h, list, p, j);
      && before.locations[j] == h.locations[j]
      && MigrateUpTo(h, list, p, j + 1)
        == before.(locations := before.locations[j := MigrateLocation(h.locations[j], list, p)])
  {
    if !References(h, list, j) { assert MigrateUpTo(h, list, p, j).locations == h.locations; }
    var before, after := MigrateUpTo(h, list, p, j), MigrateUpTo(h, list, p, j + 1);
    assert after.locations == before.locations[j := MigrateLocation(h.locations[j], list, p)];
    if list !in h.locations[j].accessLists { assert after.locations == before.locations; }
  }

  // ----- the merged config -----

  function ReplaceList(lists: seq<List>, al: List): seq<List> {
    seq(|lists|, i requires 0 <= i < |lists| => if lists[i].name == al.name then al else lists[i])
  }

  /** The config after SaveBatch: same-named objects replaced in place, the middleware appended. */
  function Merged(cfg: Config, mw: Middleware, touched: map<string, Host>, cleared: List): Config {
    Config(
      ReplaceList(cfg.lists, cleared),
      cfg.middlewares + [mw],
      seq(|cfg.hosts|, i requires 0 <= i < |cfg.hosts| =>
        if cfg.hosts[i].name in touched then touched[cfg.hosts[i].name] else cfg.hosts[i]))
  }

  function MigratedConfig(cfg: Config, list: List, mwName: string): Config {
    var p := PlanOf(cfg, list, mwName);
    Config(
      ReplaceList(cfg.lists, Cleared(list)),
      cfg.middlewares + [AuthMiddleware(list, p)],
      seq(|cfg.hosts|, i requires 0 <= i < |cfg.hosts| => MigrateHost(cfg.hosts[i], list.name, p)))
  }

  lemma {:induction false} UnreferencedUnchanged(h: Host, list: string, p: Plan)
    requires !References(h, list, |h.locations|)
    ensures MigrateHost(h, list, p) == h
  {
    assert forall k | 0 <= k < |h.locations| :: MigrateLocation(h.locations[k], list, p) == h.locations[k];
    assert MigrateHost(h, list, p).locations == h.locations;
  }

  datatype Refusal = BadName | NotFound | NoUsers | Unnameable | Conflict | Rejected

  predicate IsAlnum(c: char) { 'a' <= c <= 'z' || '0' <= c <= '9' }

  /** An object's name: up to 253 of lower-case letters, digits and "-_.", a letter or digit at both ends. */
  predicate ValidName(name: string) {
    && 1 <= |name| <= 253 && IsAlnum(name[0]) && IsAlnum(name[|name| - 1])
    && forall i | 0 <= i < |name| :: IsAlnum(name[i]) || name[i] == '-' || name[i] == '_' || name[i] == '.'
  }

  /** The middleware's name is refused exactly when the list's leaves no room for it. */
  lemma UnnameableIff(name: string)
    requires ValidName(name)
    ensures !ValidName(name + "-basic") <==> |name| > 247
  {
    var derived := name + "-basic";
    assert derived[0] == name[0] && derived[|derived| - 1] == 'c';
    if |derived| <= 253 {
      forall i | 0 <= i < |derived|
        ensures IsAlnum(derived[i]) || derived[i] == '-' || derived[i] == '_' || derived[i] == '.'
      {
        if i < |name| { assert derived[i] == name[i]; } else { assert derived[i] == "-basic"[i - |name|]; }
      }
    }
  }

  datatype Outcome = Refused(why: Refusal) | Planned(plan: Plan) | Applied(cfg: Config, plan: Plan)

  function FirstNamed(lists: seq<List>, name: string): (o: Option<List>)
    ensures o.Some? ==> o.value in lists && o.value.name == name
    ensures o.None? ==> forall al | al in lists :: al.name != name
  {
    if lists == [] then None else if lists[0].name == name then Some(lists[0]) else FirstNamed(lists[1..], name)
  }

  function Handled(cfg: Config, name: string, dryRun: bool, accepted: bool): Outcome {
    if !ValidName(name) then Refused(BadName)
    else
      match FirstNamed(cfg.lists, name)
      case None => Refused(NotFound)
      case Some(al) => HandledList(cfg, al, name, dryRun, accepted)
  }

  function HandledList(cfg: Config, al: List, name: string, dryRun: bool, accepted: bool): Outcome {
    if al.basicAuth == [] then Refused(NoUsers)
    else if !ValidName(name + "-basic") then Refused(Unnameable)
    else if exists m | m in cfg.middlewares :: m.name == name + "-basic" then Refused(Conflict)
    else if dryRun then Planned(PlanOf(cfg, al, name + "-basic"))
    else if !accepted then Refused(Rejected)
    else Applied(MigratedConfig(cfg, al, name + "-basic"), PlanOf(cfg, al, name + "-basic"))
  }

  /** A name nobody can have, and a list that is not there. */
  lemma UnknownIff(cfg: Config, name: string, dryRun: bool, accepted: bool)
    ensures Handled(cfg, name, dryRun, accepted) == Refused(BadName) <==> !ValidName(name)
    ensures Handled(cfg, name, dryRun, accepted) == Refused(NotFound) <==>
      ValidName(name) && forall al | al in cfg.lists :: al.name != name
  {
  }

  lemma {:induction false} FirstNamedAt(lists: seq<List>, i: nat, name: string)
    requires i < |lists| && lists[i].name == name && forall j | 0 <= j < i :: lists[j].name != name
    ensures FirstNamed(lists, name) == Some(lists[i])
  {
    if i > 0 { FirstNamedAt(lists[1..], i - 1, name); }
  }

  /** The list goes through: it has users, its name leaves room for the middleware's, and that one is
      free. */
  predicate Movable(cfg: Config, al: List) {
    && al.basicAuth != [] && |al.name| <= 247
    && forall m | m in cfg.middlewares :: m.name != al.name + "-basic"
  }

  /** The first list of the name is migrated, or planned in a dry run, exactly when it goes through; a
      dry run plans what a real one applies, whatever the store would say, and never commits. */
  lemma HandledIff(cfg: Config, i: nat, dryRun: bool, accepted: bool)
    requires i < |cfg.lists| && ValidName(cfg.lists[i].name)
    requires forall j | 0 <= j < i :: cfg.lists[j].name != cfg.lists[i].name
    ensures var al := cfg.lists[i]; var o := Handled(cfg, al.name, dryRun, accepted);
      && (o.Planned? <==> dryRun && Movable(cfg, al))
      && (o.Applied? <==> !dryRun && accepted && Movable(cfg, al))
      && (o == Refused(Rejected) <==> !dryRun && !accepted && Movable(cfg, al))
      && (o == Refused(NoUsers) <==> al.basicAuth == [])
      && (o == Refused(Unnameable) <==> al.basicAuth != [] && |al.name| > 247)
      && (o == Refused(Conflict) <==>
            al.basicAuth != [] && |al.name| <= 247 && exists m | m in cfg.middlewares :: m.name == al.name + "-basic")
      && (o.Planned? ==> o.plan == PlanOf(cfg, al, al.name + "-basic"))
      && (o.Applied? ==> o.plan == PlanOf(cfg, al, al.name + "-basic")
                         && o.cfg == MigratedConfig(cfg, al, al.name + "-basic"))
  {
    FirstNamedAt(cfg.lists, i, cfg.lists[i].name);
    UnnameableIff(cfg.lists[i].name);
  }

  /** handleMigrateBasicAuth: the first list of that name, refused without users or when the
      derived middleware name is no name or taken; a dry run changes nothing, and so does a batch the
      store does not accept. */
  method Migrate(cfg: Config, name: string, dryRun: bool, accepted: bool) returns (res: Outcome)
    requires UniqueHosts(cfg.hosts)
    ensures res == Handled(cfg, name, dryRun, accepted)
  {
    if !ValidName(name) { return Refused(BadName); }
    var found := 0;
    while found < |cfg.lists| && cfg.lists[found].name != name
      invariant found <= |cfg.lists|
      invariant FirstNamed(cfg.lists, name) == FirstNamed(cfg.lists[found..], name)
    {
      found := found + 1;
    }
    if found == |cfg.lists| { return Refused(NotFound); }
    var list := cfg.lists[found];
    if |list.basicAuth| == 0 { return Refused(NoUsers); }
    var mwName := name + "-basic";
    if !ValidName(mwName) { return Refused(Unnameable); }
    for i := 0 to |cfg.middlewares|
      invariant forall m | m in cfg.middlewares[..i] :: m.name != mwName
    {
      if cfg.middlewares[i].name == mwName { return Refused(Conflict); }
    }
    var plan := PlanMigration(cfg, list, mwName);
    if dryRun { return Planned(plan); }
    var mw, touched, cleared := MigrationObjects(cfg, list, plan);
    if !accepted { return Refused(Rejected); }
    var merged := Merged(cfg, mw, touched, cleared);
    forall i | 0 <= i < |cfg.hosts|
      ensures merged.hosts[i] == MigrateHost(cfg.hosts[i], list.name, plan)
    {
      assert cfg.hosts[i] in cfg.hosts;
      if cfg.hosts[i].name !in touched { UnreferencedUnchanged(cfg.hosts[i], list.name, plan); }
    }
    assert merged == MigratedConfig(cfg, list, mwName);
    return Applied(merged, plan);
  }
}
