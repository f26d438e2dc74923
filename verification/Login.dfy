/** The two half-finished logins, OIDC and password-then-TOTP, in one bounded table of pending
    tokens; and the TOTP counters that make a code single-use. */
module Login {
  import opened Sets
  import opened Wrappers

  type Token = string

  const MAX_PENDING := 1024
  const OIDC_TTL := 600
  const TOTP_TTL := 300
  const STEP := 30
  const SKEW := 1
  const DIGITS := 6

  /** The local administrator: the password check and, per time step, the code of the configured
      key, whatever they are. A configured secret that yields no key refuses every code. */
  datatype Config = Config(user: string, hashed: bool, secret: bool, password: string -> bool,
                           key: Option<nat -> string>)

  /** An OIDC login names its provider; a password-verified one names the user, and only it does. */
  datatype Pending = Pending(idp: string, totpUser: string, expires: int)

  datatype Table = Table(pending: map<Token, Pending>, counters: map<string, nat>)

  // ----- TOTP codes -----

  function Counter(unix: int): nat {
    if unix < 0 then 0 else unix / STEP
  }

  /** The steps within one of now, as far as they exist. */
  predicate NearNow(c: nat, unix: int) {
    Counter(unix) - SKEW <= c <= Counter(unix) + SKEW
  }

  predicate Matches(cfg: Config, code: string, c: nat) {
    cfg.key.Some? && |code| == DIGITS && cfg.key.value(c) == code
  }

  /** The verified step is the latest near one whose code was presented. */
  ghost predicate Verifies(cfg: Config, code: string, unix: int, found: Option<nat>) {
    match found
    case Some(c) =>
      NearNow(c, unix) && Matches(cfg, code, c) && forall d: nat | NearNow(d, unix) && Matches(cfg, code, d) :: d <= c
    case None => forall d: nat | NearNow(d, unix) :: !Matches(cfg, code, d)
  }

  method VerifyTotp(cfg: Config, code: string, unix: int) returns (found: Option<nat>)
    ensures Verifies(cfg, code, unix, found)
  {
    if cfg.key == None || |code| != DIGITS { return None; }
    var center := Counter(unix);
    found := None;
    var skew := -SKEW;
    while skew <= SKEW
      invariant -SKEW <= skew <= SKEW + 1
      invariant match found
        case Some(c) => center - SKEW <= c < center + skew && Matches(cfg, code, c)
                        && forall d: nat | center - SKEW <= d < center + skew && Matches(cfg, code, d) :: d <= c
        case None => forall d: nat | center - SKEW <= d < center + skew :: !Matches(cfg, code, d)
    {
      if center + skew >= 0 {
        var c: nat := center + skew;
        if cfg.key.value(c) == code { found := Some(c); }
      }
      skew := skew + 1;
    }
  }

  // ----- the table -----

  function Collected(m: map<Token, Pending>, now: int): map<Token, Pending> {
    map k | k in m && now <= m[k].expires :: m[k]
  }

  /** How many pending logins have not expired. */
  function Live(m: map<Token, Pending>, now: int): nat {
    |set k | k in m && now <= m[k].expires|
  }

  lemma CollectedLive(m: map<Token, Pending>, now: int)
    ensures |Collected(m, now)| == Live(m, now)
  {
    assert Collected(m, now).Keys == set k | k in m && now <= m[k].expires;
    assert |Collected(m, now)| == |Collected(m, now).Keys|;
  }

  /** A new pending login, if there is room once the expired ones are collected. */
  function Added(m: map<Token, Pending>, token: Token, p: Pending, now: int): (bool, map<Token, Pending>) {
    var live := Collected(m, now);
    if |live| >= MAX_PENDING then (false, live) else (true, live[token := p])
  }

  /** Redeeming removes the token whatever the outcome. */
  function Taken(m: map<Token, Pending>, token: Token, totp: bool, now: int): (Option<Pending>, map<Token, Pending>) {
    if token in m && (m[token].totpUser != "") == totp && now <= m[token].expires then (Some(m[token]), m - {token})
    else (None, m - {token})
  }

  predicate PasswordOk(cfg: Config, allowed: bool, user: string, pass: string) {
    allowed && cfg.user != "" && cfg.hashed && user == cfg.user && cfg.password(pass)
  }

  datatype Answer = Refused | Session(amr: seq<string>) | NeedsCode(token: Token)

  class Authenticator {
    const cfg: Config
    var pending: map<Token, Pending>
    var otpLastCounter: map<string, nat>

    constructor (cfg: Config)
      ensures this.cfg == cfg && pending == map[] && otpLastCounter == map[]
    {
      this.cfg, pending, otpLastCounter := cfg, map[], map[];
    }

    method Collect(now: int)
      modifies `pending
      ensures pending == Collected(old(pending), now)
    {
      var todo := pending.Keys;
      while todo != {}
        invariant todo <= old(pending).Keys
        invariant pending ==
                  map k | k in old(pending) && (k in todo || now <= old(pending)[k].expires) :: old(pending)[k]
        decreases |todo|
      {
        var k :| k in todo;
        if k in pending && now > pending[k].expires { pending := pending - {k}; }
        todo := todo - {k};
      }
    }

    /** atCap is the client's own budget, reachable whether the provider answered. */
    method BeginLogin(token: Token, idp: string, atCap: bool, reachable: bool, now: int) returns (begun: bool)
      modifies `pending
      ensures atCap || !reachable ==> !begun && pending == old(pending)
      ensures !atCap && reachable
        ==> (begun, pending) == Added(old(pending), token, Pending(idp, "", now + OIDC_TTL), now)
    {
      if atCap || !reachable { return false; }
      Collect(now);
      if |pending| >= MAX_PENDING { return false; }
      pending := pending[token := Pending(idp, "", now + OIDC_TTL)];
      return true;
    }

    method StartPendingTotp(token: Token, now: int) returns (begun: bool)
      modifies `pending
      ensures (begun, pending) == Added(old(pending), token, Pending("", cfg.user, now + TOTP_TTL), now)
    {
      Collect(now);
      if |pending| >= MAX_PENDING { return false; }
      pending := pending[token := Pending("", cfg.user, now + TOTP_TTL)];
      return true;
    }

    /** A session or a pending token exactly for the configured user's own password; the token only
        while fewer than 1024 logins are pending. */
    method LocalLogin(user: string, pass: string, allowed: bool, token: Token, now: int) returns (a: Answer)
      modifies `pending
      ensures a.Session? <==>
        allowed && cfg.user != "" && cfg.hashed && user == cfg.user && cfg.password(pass) && !cfg.secret
      ensures a.Session? ==> a.amr == ["pwd"] && pending == old(pending)
      ensures a.NeedsCode? <==>
        && allowed && cfg.user != "" && cfg.hashed && user == cfg.user && cfg.password(pass) && cfg.secret
        && Live(old(pending), now) < 1024
      ensures a.NeedsCode? ==>
        a.token == token && pending == Collected(old(pending), now)[token := Pending("", user, now + 300)]
      ensures a.Refused? ==> pending == old(pending) || pending == Collected(old(pending), now)
      ensures !allowed || user != cfg.user || !cfg.password(pass) ==> pending == old(pending)
    {
      CollectedLive(pending, now);
      if !allowed || cfg.user == "" || !cfg.hashed { return Refused; }
      if user != cfg.user || !cfg.password(pass) { return Refused; }
      if cfg.secret {
        var begun := StartPendingTotp(token, now);
        return if begun then NeedsCode(token) else Refused;
      }
      return Session(["pwd"]);
    }

    /** The provider's identity, once it exchanged the code and maps to a role, or nothing. */
    method CompleteLogin(token: Token, identity: string -> Option<string>, now: int) returns (subject: Option<string>)
      modifies `pending
      ensures pending == Taken(old(pending), token, false, now).1
      ensures subject == match Taken(old(pending), token, false, now).0
        case None => None
        case Some(p) => identity(p.idp)
    {
      if token !in pending {
        assert pending == pending - {token};
        return None;
      }
      var p := pending[token];
      pending := pending - {token};
      if p.totpUser != "" || now > p.expires { return None; }
      return identity(p.idp);
    }

    method AcceptCounter(user: string, counter: nat) returns (fresh_: bool)
      modifies `otpLastCounter
      ensures fresh_ <==> user !in old(otpLastCounter) || counter > old(otpLastCounter)[user]
      ensures otpLastCounter == if fresh_ then old(otpLastCounter)[user := counter] else old(otpLastCounter)
    {
      if user in otpLastCounter && counter <= otpLastCounter[user] { return false; }
      otpLastCounter := otpLastCounter[user := counter];
      return true;
    }

    /** The clock is read when the token is redeemed and again when the code is verified. */
    method CompleteTotpLogin(token: Token, code: string, allowed: bool, now: int, later: int) returns (a: Answer)
      modifies `pending, `otpLastCounter
      ensures pending == Taken(old(pending), token, true, now).1
      ensures match Taken(old(pending), token, true, now).0
        case None => a == Refused && otpLastCounter == old(otpLastCounter)
        case Some(p) =>
          if !allowed then a == Refused && otpLastCounter == old(otpLastCounter)
          else exists found :: (Verifies(cfg, code, later, found)
            && (a, otpLastCounter) == Finished(old(otpLastCounter), p.totpUser, found))
    {
      if token !in pending {
        assert pending == pending - {token};
        return Refused;
      }
      var p := pending[token];
      pending := pending - {token};
      if p.totpUser == "" || now > p.expires { return Refused; }
      if !allowed { return Refused; }
      var counter := VerifyTotp(cfg, code, later);
      if counter == None { return Refused; }
      var accepted := AcceptCounter(p.totpUser, counter.value);
      if !accepted { return Refused; }
      return Session(["pwd", "otp", "mfa"]);
    }

    method AbandonLogin(token: Token)
      modifies `pending
      ensures pending == if token == "" then old(pending) else old(pending) - {token}
    {
      if token == "" { return; }
      pending := pending - {token};
    }
  }

  /** Verifying the second factor, once the token is redeemed. */
  function Finished(counters: map<string, nat>, user: string, found: Option<nat>): (Answer, map<string, nat>) {
    if found == None then (Refused, counters)
    else if user in counters && found.value <= counters[user] then (Refused, counters)
    else (Session(["pwd", "otp", "mfa"]), counters[user := found.value])
  }

  // ----- runs: concurrent logins interleave at the two locks -----

  /** One step under a lock. CompleteTotpLogin is two steps: it redeems the token, and later finishes
      with the step its code verified as. */
  datatype Event =
    | BeginLogin(token: Token, idp: string, now: int)
    | LocalLogin(token: Token, user: string, pass: string, allowed: bool, now: int)
    | RedeemOidc(token: Token, now: int)
    | RedeemTotp(token: Token, now: int)
    | Finish(token: Token, code: string, found: Option<nat>, now: int)
    | Abandon(token: Token)

  /** `claims` holds the logins between redeeming and finishing. */
  datatype State = State(pending: map<Token, Pending>, counters: map<string, nat>, claims: map<Token, string>)

  datatype Outcome = Nothing | Begun | Redeemed | OtpSession(user: string, counter: nat)

  function Step(cfg: Config, s: State, e: Event): (Outcome, State) {
    match e
    case BeginLogin(token, idp, now) =>
      var (begun, m) := Added(s.pending, token, Pending(idp, "", now + OIDC_TTL), now);
      (if begun then Begun else Nothing, s.(pending := m))
    case LocalLogin(token, user, pass, allowed, now) =>
      if PasswordOk(cfg, allowed, user, pass) && cfg.secret then
        var (begun, m) := Added(s.pending, token, Pending("", cfg.user, now + TOTP_TTL), now);
        (if begun then Begun else Nothing, s.(pending := m))
      else (Nothing, s)
    case RedeemOidc(token, now) =>
      var (p, m) := Taken(s.pending, token, false, now);
      (if p.Some? then Redeemed else Nothing, s.(pending := m))
    case RedeemTotp(token, now) =>
      var (p, m) := Taken(s.pending, token, true, now);
      if p.Some? then (Redeemed, s.(pending := m, claims := s.claims[token := p.value.totpUser]))
      else (Nothing, s.(pending := m))
    case Finish(token, code, found, now) =>
      if token !in s.claims then (Nothing, s)
      else
        var user := s.claims[token];
        var (a, counters) := Finished(s.counters, user, found);
        (if a.Session? then OtpSession(user, found.value) else Nothing,
         s.(counters := counters, claims := s.claims - {token}))
    case Abandon(token) => (Nothing, if token == "" then s else s.(pending := s.pending - {token}))
  }

  function After(cfg: Config, run: seq<Event>): State {
    if run == [] then State(map[], map[], map[]) else Step(cfg, After(cfg, run[..|run| - 1]), run[|run| - 1]).1
  }

  function OutcomeOf(cfg: Config, run: seq<Event>, i: nat): Outcome
    requires i < |run|
  {
    Step(cfg, After(cfg, run[..i]), run[i]).0
  }

  /** How often the run's steps for a token had an outcome of a kind. */
  function Count(cfg: Config, run: seq<Event>, token: Token, kind: Outcome -> bool): nat {
    if run == [] then 0
    else
      var front, last := run[..|run| - 1], run[|run| - 1];
      var counts := last.token == token && kind(Step(cfg, After(cfg, front), last).0);
      Count(cfg, front, token, kind) + if counts then 1 else 0
  }

  function Creations(cfg: Config, run: seq<Event>, token: Token): nat {
    Count(cfg, run, token, (o: Outcome) => o.Begun?)
  }

  function Redemptions(cfg: Config, run: seq<Event>, token: Token): nat {
    Count(cfg, run, token, (o: Outcome) => o.Redeemed?)
  }

  function Sessions(cfg: Config, run: seq<Event>, token: Token): nat {
    Count(cfg, run, token, (o: Outcome) => o.OtpSession?)
  }

  // ----- main results -----

  /** At most 1024 logins are ever pending. */
  lemma {:induction false} PendingBounded(cfg: Config, run: seq<Event>)
    ensures |After(cfg, run).pending| <= MAX_PENDING
  {
    if run != [] {
      PendingBounded(cfg, run[..|run| - 1]);
      StepBounded(cfg, After(cfg, run[..|run| - 1]), run[|run| - 1]);
    }
  }

  lemma StepBounded(cfg: Config, s: State, e: Event)
    requires |s.pending| <= MAX_PENDING
    ensures |Step(cfg, s, e).1.pending| <= MAX_PENDING
  {
    FewerKeys(s.pending - {e.token}, s.pending);
    if e.BeginLogin? {
      AddedBounded(s.pending, e.token, Pending(e.idp, "", e.now + OIDC_TTL), e.now);
    } else if e.LocalLogin? {
      AddedBounded(s.pending, e.token, Pending("", cfg.user, e.now + TOTP_TTL), e.now);
    }
  }

  lemma AddedBounded(m: map<Token, Pending>, token: Token, p: Pending, now: int)
    requires |m| <= MAX_PENDING
    ensures |Added(m, token, p, now).1| <= MAX_PENDING
  {
    var live := Collected(m, now);
    FewerKeys(live, m);
    assert live[token := p].Keys == live.Keys + {token};
    assert |live[token := p]| == |live[token := p].Keys| && |live| == |live.Keys|;
  }

  /** Every session comes from its own redemption, and every redemption from its own creation. */
  lemma {:induction false} Accounted(cfg: Config, run: seq<Event>, token: Token)
    ensures var s := After(cfg, run);
      && Redemptions(cfg, run, token) + (if token in s.pending then 1 else 0) <= Creations(cfg, run, token)
      && Sessions(cfg, run, token) + (if token in s.claims then 1 else 0) <= Redemptions(cfg, run, token)
  {
    if run != [] { Accounted(cfg, run[..|run| - 1], token); }
  }

  /** Tokens are freshly drawn: no two steps try to create the same one. */
  ghost predicate FreshTokens(run: seq<Event>) {
    forall i, j | 0 <= i < j < |run| && Creates(run[i]) && Creates(run[j]) :: run[i].token != run[j].token
  }

  predicate Creates(e: Event) { e.BeginLogin? || e.LocalLogin? }

  /** A fresh token is redeemed at most once, by either flow, and opens at most one session. */
  lemma RedeemedOnce(cfg: Config, run: seq<Event>, token: Token)
    requires FreshTokens(run)
    ensures Sessions(cfg, run, token) <= Redemptions(cfg, run, token) <= 1
  {
    Accounted(cfg, run, token);
    CreatedOnce(cfg, run, token);
  }

  lemma {:induction false} CreatedOnce(cfg: Config, run: seq<Event>, token: Token)
    requires FreshTokens(run)
    ensures Creations(cfg, run, token) <= 1
    ensures (forall i | 0 <= i < |run| :: !(Creates(run[i]) && run[i].token == token))
      ==> Creations(cfg, run, token) == 0
  {
    if run != [] { CreatedOnce(cfg, run[..|run| - 1], token); }
  }

  /** The step was a local login by the configured user, with the password that meets the hash. */
  predicate VerifiedPassword(cfg: Config, e: Event, token: Token) {
    && e.LocalLogin? && e.token == token && e.allowed
    && cfg.user != "" && cfg.hashed && e.user == cfg.user && cfg.password(e.pass)
    && cfg.secret
  }

  /** Where a pending entry came from. */
  ghost predicate Backed(cfg: Config, run: seq<Event>, token: Token, p: Pending) {
    exists i | 0 <= i < |run| :: CreatedBy(cfg, run[i], token, p)
  }

  predicate CreatedBy(cfg: Config, e: Event, token: Token, p: Pending) {
    if p.totpUser == "" then e.BeginLogin? && e.token == token && e.idp == p.idp && p.expires == e.now + OIDC_TTL
    else VerifiedPassword(cfg, e, token) && p.totpUser == cfg.user && p.expires == e.now + TOTP_TTL
  }

  /** A password verified and, within the five minutes after, its token redeemed. */
  ghost predicate Claimed(cfg: Config, run: seq<Event>, token: Token) {
    exists i, j | 0 <= i < j < |run| :: VerifiedPassword(cfg, run[i], token) && RedeemedBy(run[j], token, run[i].now)
  }

  predicate RedeemedBy(e: Event, token: Token, created: int) {
    e.RedeemTotp? && e.token == token && e.now <= created + 300
  }

  lemma {:induction false} AllBacked(cfg: Config, run: seq<Event>)
    ensures forall t | t in After(cfg, run).pending :: Backed(cfg, run, t, After(cfg, run).pending[t])
    ensures forall t | t in After(cfg, run).claims :: Claimed(cfg, run, t) && After(cfg, run).claims[t] == cfg.user
  {
    if run != [] {
      var front, e := run[..|run| - 1], run[|run| - 1];
      AllBacked(cfg, front);
      assert front + [e] == run;
      forall t | t in After(cfg, run).pending ensures Backed(cfg, run, t, After(cfg, run).pending[t]) {
        PendingBacked(cfg, front, e, t);
      }
      forall t | t in After(cfg, run).claims ensures Claimed(cfg, run, t) && After(cfg, run).claims[t] == cfg.user {
        ClaimBacked(cfg, front, e, t);
      }
    }
  }

  lemma ClaimBacked(cfg: Config, front: seq<Event>, e: Event, t: Token)
    requires forall u | u in After(cfg, front).pending :: Backed(cfg, front, u, After(cfg, front).pending[u])
    requires forall u | u in After(cfg, front).claims ::
               Claimed(cfg, front, u) && After(cfg, front).claims[u] == cfg.user
    requires t in Step(cfg, After(cfg, front), e).1.claims
    ensures Claimed(cfg, front + [e], t) && Step(cfg, After(cfg, front), e).1.claims[t] == cfg.user
  {
    if e.RedeemTotp? && e.token == t && Step(cfg, After(cfg, front), e).0.Redeemed? {
      NewClaim(cfg, front, e, t);
    } else {
      StillClaimed(cfg, front, e, t);
    }
  }

  lemma PendingBacked(cfg: Config, front: seq<Event>, e: Event, t: Token)
    requires forall u | u in After(cfg, front).pending :: Backed(cfg, front, u, After(cfg, front).pending[u])
    requires t in Step(cfg, After(cfg, front), e).1.pending
    ensures Backed(cfg, front + [e], t, Step(cfg, After(cfg, front), e).1.pending[t])
  {
    var p := Step(cfg, After(cfg, front), e).1.pending[t];
    StepBacks(cfg, After(cfg, front), e, t);
    if CreatedBy(cfg, e, t, p) {
      assert CreatedBy(cfg, (front + [e])[|front|], t, p);
    } else {
      StillBacked(cfg, front, e, t, p);
    }
  }

  lemma StepBacks(cfg: Config, s: State, e: Event, t: Token)
    ensures var m := Step(cfg, s, e).1.pending;
      t in m ==> CreatedBy(cfg, e, t, m[t]) || (t in s.pending && m[t] == s.pending[t])
  {
  }

  lemma StillBacked(cfg: Config, front: seq<Event>, e: Event, t: Token, p: Pending)
    requires Backed(cfg, front, t, p)
    ensures Backed(cfg, front + [e], t, p)
  {
    var i :| 0 <= i < |front| && CreatedBy(cfg, front[i], t, p);
    assert CreatedBy(cfg, (front + [e])[i], t, p);
  }

  lemma StillClaimed(cfg: Config, front: seq<Event>, e: Event, t: Token)
    requires Claimed(cfg, front, t)
    ensures Claimed(cfg, front + [e], t)
  {
    var i, j :| 0 <= i < j < |front| && VerifiedPassword(cfg, front[i], t) && RedeemedBy(front[j], t, front[i].now);
    var run := front + [e];
    assert VerifiedPassword(cfg, run[i], t) && RedeemedBy(run[j], t, run[i].now);
  }

  lemma NewClaim(cfg: Config, front: seq<Event>, e: Event, t: Token)
    requires e.RedeemTotp? && e.token == t && Step(cfg, After(cfg, front), e).0.Redeemed?
    requires Backed(cfg, front, t, After(cfg, front).pending[t])
    ensures Claimed(cfg, front + [e], t) && After(cfg, front).pending[t].totpUser == cfg.user
  {
    var p := After(cfg, front).pending[t];
    var i :| 0 <= i < |front| && CreatedBy(cfg, front[i], t, p);
    var run := front + [e];
    assert VerifiedPassword(cfg, run[i], t) && RedeemedBy(run[|front|], t, run[i].now);
  }

  /** A pending token belongs to one flow: what OIDC redeems was begun there, and what TOTP redeems
      followed the configured user's own password; neither can complete the other. */
  lemma NoCrossRedemption(cfg: Config, run: seq<Event>, e: Event)
    requires Step(cfg, After(cfg, run), e).0.Redeemed?
    ensures e.RedeemOidc?
      ==> exists i | 0 <= i < |run| :: run[i].BeginLogin? && run[i].token == e.token && e.now <= run[i].now + 600
    ensures e.RedeemTotp?
      ==> exists i | 0 <= i < |run| ::
            && run[i].LocalLogin? && run[i].token == e.token && e.now <= run[i].now + 300
            && run[i].allowed && run[i].user == cfg.user && cfg.password(run[i].pass)
  {
    AllBacked(cfg, run);
    var p := After(cfg, run).pending[e.token];
    var i :| 0 <= i < |run| && CreatedBy(cfg, run[i], e.token, p);
  }

  /** Every otp session follows the configured user's own password, its token redeemed within five
      minutes, and a six-digit code of a step within one of the clock's. */
  lemma OtpSessionEarned(cfg: Config, run: seq<Event>, e: Event)
    requires e.Finish? ==> Verifies(cfg, e.code, e.now, e.found)
    requires Step(cfg, After(cfg, run), e).0.OtpSession?
    ensures e.Finish?
      && exists i, j | 0 <= i < j < |run| ::
           && run[i].LocalLogin? && run[i].token == e.token && RedeemedBy(run[j], e.token, run[i].now)
           && run[i].allowed && run[i].user == cfg.user && cfg.password(run[i].pass)
    ensures var o := Step(cfg, After(cfg, run), e).0;
      && o.user == cfg.user
      && (if e.now < 0 then o.counter <= 1 else e.now / 30 - 1 <= o.counter <= e.now / 30 + 1)
      && cfg.key.Some? && |e.code| == 6 && cfg.key.value(o.counter) == e.code
  {
    AllBacked(cfg, run);
    var i, j :| 0 <= i < j < |run| && VerifiedPassword(cfg, run[i], e.token) && RedeemedBy(run[j], e.token, run[i].now);
  }

  // ----- and nothing else keeps a login from going through -----

  /** A step begins a login exactly when the provider's login was asked for, or the configured user's
      password was right and a code is due, and fewer than 1024 logins are pending. */
  lemma BegunIff(cfg: Config, s: State, e: Event)
    ensures Step(cfg, s, e).0.Begun? <==>
      && (|| e.BeginLogin?
          || (&& e.LocalLogin? && e.allowed && cfg.user != "" && cfg.hashed
              && e.user == cfg.user && cfg.password(e.pass) && cfg.secret))
      && Live(s.pending, e.now) < 1024
  {
    if !e.Abandon? { CollectedLive(s.pending, e.now); }
  }

  predicate Begins(cfg: Config, run: seq<Event>, i: nat, token: Token) {
    i < |run| && run[i].token == token && OutcomeOf(cfg, run, i).Begun?
  }

  predicate Ends(e: Event, token: Token) {
    e.token == token && (e.RedeemOidc? || e.RedeemTotp? || (e.Abandon? && token != ""))
  }

  /** Step i began a login for the token, and no later step redeemed, abandoned or replaced it. */
  predicate Waits(cfg: Config, run: seq<Event>, i: nat, token: Token) {
    && Begins(cfg, run, i, token)
    && forall j | i < j < |run| :: !Ends(run[j], token) && !Begins(cfg, run, j, token)
  }

  /** The entry a beginning step makes. */
  function EntryOf(cfg: Config, e: Event): Pending
    requires Creates(e)
  {
    if e.BeginLogin? then Pending(e.idp, "", e.now + 600) else Pending("", cfg.user, e.now + 300)
  }

  /** The clock has not gone back behind what the run's logins read. */
  predicate Reached(run: seq<Event>, now: int) {
    forall i | 0 <= i < |run| && Creates(run[i]) :: run[i].now <= now
  }

  predicate Unexpired(m: map<Token, Pending>, token: Token, now: int) {
    token in m && now <= m[token].expires
  }

  lemma OutcomeOfFront(cfg: Config, front: seq<Event>, e: Event, i: nat)
    requires i <= |front|
    ensures OutcomeOf(cfg, front + [e], i)
         == if i < |front| then OutcomeOf(cfg, front, i) else Step(cfg, After(cfg, front), e).0
  {
    assert (front + [e])[..i] == front[..i];
    assert front[..|front|] == front;
  }

  lemma WaitsStep(cfg: Config, front: seq<Event>, e: Event, i: nat, token: Token)
    ensures var run := front + [e]; var begins := e.token == token && Step(cfg, After(cfg, front), e).0.Begun?;
      Waits(cfg, run, i, token) <==>
        || (i < |front| && Waits(cfg, front, i, token) && !Ends(e, token) && !begins)
        || (i == |front| && begins)
  {
    var run := front + [e];
    forall j | 0 <= j <= |front|
      ensures OutcomeOf(cfg, run, j)
           == if j < |front| then OutcomeOf(cfg, front, j) else Step(cfg, After(cfg, front), e).0
    {
      OutcomeOfFront(cfg, front, e, j);
    }
    if i < |front| {
      assert forall j | 0 <= j < |front| :: Begins(cfg, run, j, token) <==> Begins(cfg, front, j, token);
      assert forall j | 0 <= j < |front| :: Ends(run[j], token) <==> Ends(front[j], token);
      assert run[|front|] == e;
    }
  }

  lemma StepUnexpired(cfg: Config, s: State, e: Event, token: Token, now: int)
    requires Creates(e) ==> e.now <= now
    ensures var m := Step(cfg, s, e).1.pending; var begins := e.token == token && Step(cfg, s, e).0.Begun?;
      && (begins ==> Creates(e) && token in m && m[token] == EntryOf(cfg, e))
      && (!begins ==> (Unexpired(m, token, now) <==> Unexpired(s.pending, token, now) && !Ends(e, token)))
      && (!begins && token in m ==> token in s.pending && m[token] == s.pending[token])
  {
  }

  /** What is pending and not expired is what was begun and has not ended, as begun. */
  lemma {:induction false} WaitingIff(cfg: Config, run: seq<Event>, token: Token, now: int)
    requires Reached(run, now)
    ensures var m := After(cfg, run).pending;
      && (Unexpired(m, token, now) ==>
            exists i | 0 <= i < |run| ::
              Waits(cfg, run, i, token) && Creates(run[i]) && m[token] == EntryOf(cfg, run[i]))
      && (forall i | 0 <= i < |run| && Waits(cfg, run, i, token) && Creates(run[i])
                     && now <= EntryOf(cfg, run[i]).expires ::
            Unexpired(m, token, now) && m[token] == EntryOf(cfg, run[i]))
  {
    if run != [] {
      var front, e := run[..|run| - 1], run[|run| - 1];
      assert front + [e] == run;
      WaitingIff(cfg, front, token, now);
      StepUnexpired(cfg, After(cfg, front), e, token, now);
      forall i: nat | i <= |front| { WaitsStep(cfg, front, e, i, token); }
      if e.token == token && Step(cfg, After(cfg, front), e).0.Begun? {
        assert Waits(cfg, run, |front|, token);
      }
    }
  }

  /** A code login is redeemed exactly when the configured user's password began it, at most five
      minutes ago, and nothing has ended it. */
  lemma RedeemTotpIff(cfg: Config, run: seq<Event>, token: Token, now: int)
    requires Reached(run, now)
    ensures Step(cfg, After(cfg, run), RedeemTotp(token, now)).0.Redeemed? <==>
      exists i | 0 <= i < |run| :: Waits(cfg, run, i, token) && run[i].LocalLogin? && now <= run[i].now + 300
  {
    WaitingIff(cfg, run, token, now);
    forall i: nat | Waits(cfg, run, i, token)
      ensures Creates(run[i]) && (run[i].LocalLogin? <==> EntryOf(cfg, run[i]).totpUser != "")
    {
      BegunIff(cfg, After(cfg, run[..i]), run[i]);
    }
  }

  /** A provider login is redeemed exactly when it was begun at most ten minutes ago and nothing has
      ended it. */
  lemma RedeemOidcIff(cfg: Config, run: seq<Event>, token: Token, now: int)
    requires Reached(run, now)
    ensures Step(cfg, After(cfg, run), RedeemOidc(token, now)).0.Redeemed? <==>
      exists i | 0 <= i < |run| :: Waits(cfg, run, i, token) && run[i].BeginLogin? && now <= run[i].now + 600
  {
    WaitingIff(cfg, run, token, now);
    forall i: nat | Waits(cfg, run, i, token)
      ensures Creates(run[i]) && (run[i].LocalLogin? <==> EntryOf(cfg, run[i]).totpUser != "")
    {
      BegunIff(cfg, After(cfg, run[..i]), run[i]);
    }
  }

  /** Step j redeemed a code login's token, and no later step finished it. */
  predicate Open(cfg: Config, run: seq<Event>, j: nat, token: Token) {
    && j < |run| && run[j].RedeemTotp? && run[j].token == token && OutcomeOf(cfg, run, j).Redeemed?
    && forall k | j < k < |run| :: !(run[k].Finish? && run[k].token == token)
  }

  lemma OpenStep(cfg: Config, front: seq<Event>, e: Event, j: nat, token: Token)
    ensures Open(cfg, front + [e], j, token) <==>
      || (j < |front| && Open(cfg, front, j, token) && !(e.Finish? && e.token == token))
      || (j == |front| && e.RedeemTotp? && e.token == token && Step(cfg, After(cfg, front), e).0.Redeemed?)
  {
    var run := front + [e];
    if j <= |front| {
      OutcomeOfFront(cfg, front, e, j);
      assert forall k | 0 <= k < |front| :: run[k] == front[k];
      assert run[|front|] == e;
    }
  }

  lemma {:induction false} ClaimedIff(cfg: Config, run: seq<Event>, token: Token)
    ensures token in After(cfg, run).claims <==> exists j | 0 <= j < |run| :: Open(cfg, run, j, token)
  {
    if run != [] {
      var front, e := run[..|run| - 1], run[|run| - 1];
      assert front + [e] == run;
      ClaimedIff(cfg, front, token);
      forall j: nat | j <= |front| { OpenStep(cfg, front, e, j, token); }
      if e.RedeemTotp? && e.token == token && Step(cfg, After(cfg, front), e).0.Redeemed? {
        assert Open(cfg, run, |front|, token);
      }
    }
  }

  /** The counter on record for a user is the latest one that opened a session. */
  lemma {:induction false} RecordIsLatest(cfg: Config, run: seq<Event>, user: string)
    ensures user in After(cfg, run).counters ==>
      exists j | 0 <= j < |run| :: OutcomeOf(cfg, run, j) == OtpSession(user, After(cfg, run).counters[user])
    ensures forall j | 0 <= j < |run| && OutcomeOf(cfg, run, j).OtpSession? && OutcomeOf(cfg, run, j).user == user ::
              user in After(cfg, run).counters && OutcomeOf(cfg, run, j).counter <= After(cfg, run).counters[user]
  {
    if run != [] {
      var front, e := run[..|run| - 1], run[|run| - 1];
      assert front + [e] == run;
      RecordIsLatest(cfg, front, user);
      forall j: nat | j <= |front| { OutcomeOfFront(cfg, front, e, j); }
      var o := Step(cfg, After(cfg, front), e).0;
      if o.OtpSession? && o.user == user {
        assert OutcomeOf(cfg, run, |front|) == OtpSession(user, After(cfg, run).counters[user]);
      }
    }
  }

  /** The six-digit code of a step within one of the clock's. */
  predicate CodeOf(cfg: Config, code: string, unix: int, c: nat) {
    && (if unix < 0 then c <= 1 else unix / 30 - 1 <= c <= unix / 30 + 1)
    && cfg.key.Some? && |code| == 6 && cfg.key.value(c) == code
  }

  lemma CodeOfIff(cfg: Config, code: string, unix: int, c: nat)
    ensures CodeOf(cfg, code, unix, c) <==> NearNow(c, unix) && Matches(cfg, code, c)
  {
  }

  lemma SessionsAreTheUsers(cfg: Config, run: seq<Event>, j: nat)
    requires j < |run| && OutcomeOf(cfg, run, j).OtpSession?
    ensures OutcomeOf(cfg, run, j).user == cfg.user
  {
    AllBacked(cfg, run[..j]);
  }

  /** The step is later than every one that has opened a session. */
  predicate LaterThanAll(cfg: Config, run: seq<Event>, c: nat) {
    forall j | 0 <= j < |run| && OutcomeOf(cfg, run, j).OtpSession? :: OutcomeOf(cfg, run, j).counter < c
  }

  lemma LaterIff(cfg: Config, run: seq<Event>, c: nat)
    ensures LaterThanAll(cfg, run, c) <==>
      (cfg.user in After(cfg, run).counters ==> After(cfg, run).counters[cfg.user] < c)
  {
    RecordIsLatest(cfg, run, cfg.user);
    forall j: nat | j < |run| && OutcomeOf(cfg, run, j).OtpSession? { SessionsAreTheUsers(cfg, run, j); }
  }

  /** Only the latest step that has the code is tried, which is later than all iff some such step is. */
  lemma FreshIff(cfg: Config, run: seq<Event>, code: string, now: int, found: Option<nat>)
    requires Verifies(cfg, code, now, found)
    ensures Finished(After(cfg, run).counters, cfg.user, found).0.Session? <==>
      exists c: nat :: CodeOf(cfg, code, now, c) && LaterThanAll(cfg, run, c)
  {
    forall c: nat
      ensures CodeOf(cfg, code, now, c) <==> NearNow(c, now) && Matches(cfg, code, c)
      ensures LaterThanAll(cfg, run, c) <==>
        (cfg.user in After(cfg, run).counters ==> After(cfg, run).counters[cfg.user] < c)
    {
      CodeOfIff(cfg, code, now, c);
      LaterIff(cfg, run, c);
    }
    if found.Some? { assert CodeOf(cfg, code, now, found.value); }
  }

  /** A finishing step opens a session exactly when its token was redeemed and not finished, and the
      code is that of some step within one of the clock's, later than every step accepted before. */
  lemma SessionIff(cfg: Config, run: seq<Event>, e: Event)
    requires e.Finish? && Verifies(cfg, e.code, e.now, e.found)
    ensures Step(cfg, After(cfg, run), e).0.OtpSession? <==>
      && (exists j | 0 <= j < |run| :: Open(cfg, run, j, e.token))
      && exists c: nat :: CodeOf(cfg, e.code, e.now, c) && LaterThanAll(cfg, run, c)
  {
    ClaimedIff(cfg, run, e.token);
    FreshIff(cfg, run, e.code, e.now, e.found);
    if e.token in After(cfg, run).claims { AllBacked(cfg, run); }
  }

  /** The counter of an accepted step is on record, and records never go down... */
  lemma {:induction false} CountersAdvance(cfg: Config, run: seq<Event>, i: nat, user: string)
    requires i <= |run| && user in After(cfg, run[..i]).counters
    ensures user in After(cfg, run).counters && After(cfg, run[..i]).counters[user] <= After(cfg, run).counters[user]
    decreases |run| - i, |run|
  {
    if i < |run| {
      var front := run[..|run| - 1];
      assert front[..i] == run[..i];
      CountersAdvance(cfg, front, i, user);
    } else {
      assert run[..i] == run;
    }
  }

  /** ...so the steps accepted for a user strictly increase over the run: no code opens two sessions. */
  lemma CountersStrictlyIncrease(cfg: Config, run: seq<Event>, i: nat, j: nat)
    requires i < j < |run|
    requires OutcomeOf(cfg, run, i).OtpSession? && OutcomeOf(cfg, run, j).OtpSession?
    requires OutcomeOf(cfg, run, i).user == OutcomeOf(cfg, run, j).user
    ensures OutcomeOf(cfg, run, i).counter < OutcomeOf(cfg, run, j).counter
  {
    var user := OutcomeOf(cfg, run, i).user;
    assert run[..i + 1][..i] == run[..i];
    assert run[..j][..i + 1] == run[..i + 1];
    CountersAdvance(cfg, run[..j], i + 1, user);
  }
}
