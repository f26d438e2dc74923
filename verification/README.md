# Go Proxy Manager: a verified model

A Dafny model of the parts of the proxy manager whose correctness is hardest to see by reading one
function, with proofs about all inputs, all runs and all interleavings. Code that updates state in
place is modelled by classes and loops proved against functions on values; what the program promises
is then proved about those functions.

- **Basic-auth migration** (`Network`, `AccessList`, `Chain`, `Migration`, `MigrationMeaning`): compiling
  and deciding an access list, the conjunctive chain of gates, and the migration of a list's credentials
  into an auth middleware, as a transformation of the configuration that keeps its meaning.
- **DNS UPDATE** (`Bytes`, `DnsName`, `DnsUpdate`, `DnsZone`): packing names, reading them through
  compression pointers (RFC 1035 section 4.1.4), building and TSIG-signing an update (RFC 2136 section 2,
  RFC 8945 sections 4.2 and 4.3), and finding the zone.
- **Streams** (`Conn`, `ClientHello`, `HelloMessage`, `ProxyProtocol`): peeking a TLS ClientHello
  (RFC 8446 sections 4.1.2 and 5.1, RFC 6066 section 3) and stripping a PROXY header (HAProxy PROXY
  protocol sections 2.1 and 2.2) from bytes that arrive in arbitrary chunks.
- **Limiters and caches** (`RateGate`, `RateLimiter`, `Lru`, `VerdictCache`): the login gate's sliding
  window, the token bucket with escalating blocks, and the two LRU tables.
- **Logins** (`Login`): the table of half-finished OIDC and TOTP logins, and the TOTP counters.
- **Access-list sources** (`SyncTrigger`, `SyncReconcile`): the coalescing trigger as interleaved steps, and
  the ledger reconcile loop.
- **Analytics** (`Sums`, `Traffic`, `Ingest`, `Counting`, `Replay`, `RoundTrip`, `Report`, `Agreement`,
  `Displacement`, `Collector`, `Flushing`, `StorePath`, `WindowEnds`, `Restart`, `Lifetime`, `OneRequest`): bounded
  aggregation, the hourly rows an hour is flushed as and the runs of flushes that write them, replaying them, and
  reports from memory and from the store.

`dafny verify dfyconfig.toml` checks everything. `Wrappers` and `Sets` hold small shared definitions.

## Where the code does not do what one would expect

Each of these is proved, with the exact condition.

- The migration can widen access. A rule's bare IPv4-mapped literal such as `::ffff:1.2.3.4` compiles to the
  IPv6 block `::/32` in an access list (internal/dataplane/accesslist.go:105-119) and to the IPv4 address in a
  middleware's `allowFrom` (internal/clientip/clientip.go:86-98). A `satisfyAny` list that detaches therefore
  lets that IPv4 address in without a password after the migration and not before. `NeverWidensIff` says
  when, `WideningExample` gives such a list, and `WidensOneHost` shows that every such list opens a whole
  configuration.
- At the very instant a login gate's entry runs out the gate is still at its limit while `remaining` is
  already zero (`WaitIffAtLimit`).
- A block longer than a day with backoff and no usable cap is cut to the default cap of a day, the first
  block included (`FirstBlockShortIff`). And a blocked client that waits as told is admitted only if a token
  has come in since its block started; where the block is shorter than that, the wait earns it the next block
  (`BlockedRetryAfter`, `ShortBlockExample`).
- A ClientHello that announces 16381 to 16384 bytes passes the parser's limit and never the reassembly's.
  `WholePeekedIff` says that a whole hello that parses is peeked, however it is cut into records, iff it
  announces at most 16380 bytes; `RefusedExample` builds one that is refused for each of the four lengths.
- When the ledger cannot be saved, the sources fetched in that run are not fetched again for a whole
  interval, because the attempt is recorded before the save (`FailedSaveWaits`).
- A report trusts the store for every hour that is over. An hour of which only a partial copy was written at
  a shutdown is therefore under-reported from the moment it ends until its flush
  (internal/analytics/report.go:349-371). `WrittenEarlyIff` says that such an hour shows what the slots hold
  iff they hold what they held when it was written, `UnderReported` how much is missing, and
  `PartialCopyExample` has a report that falls from two requests to one when the hour ends.
- A report reads the store hour by hour, whatever its window and buckets (internal/analytics/report.go:250-298
  and 349-374). The comparison of the last day with the day before has half-hour buckets
  (internal/analytics/analytics.go:38, internal/analytics/report.go:60), so half the time both of its ends fall
  inside an hour. A stored hour cut by the end is counted whole; one cut by the start is not read, and memory
  no longer has it; and inside the window a bucket shorter than an hour gets the whole hour's counts or none.
  What is reported and what was lost at the start make up what was recorded and what was moved:
  `BothEndsIff` says that totals, per-host counters, histogram and dimensions are exact iff the minutes cut
  off at the end held as much as memory lost of the first hour (`EndCutsIff` when those held anything,
  `PastWindow` for a window memory no longer holds), and `SeriesExactIff` says it bucket for bucket. The
  failures are `EndCutExample`, `StartCutExample` and `HalfHourExample`. The windows of the 7 and 30 day
  reports are whole hours and not affected (`WholeHoursExact`).

Three corners that no caller reaches are stated as lemmas only. A verdict put with no time to live would leave
the one before it a hit (`StaleVerdictExample`). A login gate with a limit below one would still grant one
attempt (`LimitBelowOneGrants`). A signature label with a `|` in it would neither be restored by a start nor
counted by the store path (`SignaturesRestoredIff`, `SignatureAgreesIff`); labels are made without it
(internal/dataplane/bouncer.go:352-365, internal/model/middleware.go:673-676,
internal/analytics/classify.go:56-70), `Lifetime` shows that the tables then never hold one, and
`RunFlushStart` restores signatures without conditions.

## Model

| member | source | states |
|---|---|---|
| AccessList.CompileBasicAuthUsers | internal/dataplane/basicauth.go:18-26 | the loop builds the map of the last hash for each username |
| AccessList.CompileAccessList | internal/dataplane/accesslist.go:82-165 | the loops compile rules, users and geo sets to the value the decision is defined on, dropping rules that parse to nothing |
| AccessList.VerdictIff | internal/dataplane/accesslist.go:198-237 | for every list, request and world, read off the configured rules: the first rule to cover address, path and method decides by its own action; otherwise the country decides where it can, and then the default; who gave the verdict, likewise; no address or a missing database is refused |
| AccessList.RuleDecides | internal/dataplane/accesslist.go:211-215 | a rule that is the first to apply answers with its own action, deny or allow, whatever the countries and the default say |
| AccessList.VerifyIff | internal/dataplane/basicauth.go:18-48 | credentials hold exactly when the password meets the hash of the last configured user of that name |
| AccessList.PassIff | internal/dataplane/accesslist.go:358-424 | the handler's answer for every list: the sides it has must all admit, or one of them under satisfyAny; a list without any admits unless it denies by default |
| AccessList.CompileRulesMembers | internal/dataplane/accesslist.go:82-165 | the compiled rules are exactly the ones that compile |
| Network.ParsersAgree | internal/clientip/clientip.go:86-98 | a rule and `allowFrom` read a literal as the same network unless it is a bare IPv4-mapped address |
| Chain.UnresolvedRefs | internal/dataplane/chain.go:315-327 | a missing reference is reported exactly when some name does not resolve |
| Chain.BuildChain | internal/dataplane/chain.go:410-550 | the built chain wraps its gates in the canonical order and serves a request exactly when every gate of the route passes it; an unresolved reference serves nobody |
| Chain.BasicAuthIff | internal/dataplane/basicauth.go:66-110 | a basic-auth gate with users lets in an exempt address or valid credentials, and one without users nobody |
| Chain.ExemptNetsMembers | internal/dataplane/accesslist.go:466-487 | a rate limit exempts exactly its literal networks and the unscoped allow networks of the lists it names |
| Migration.CollectAttachments | internal/api/basicauthmigrate.go:171-188 | every reference to the list, host by host, host-wide before its locations |
| Migration.PlanMigration | internal/api/basicauthmigrate.go:156-204 | the plan: moved networks, warnings, attachments, and whether the list detaches |
| Migration.PlanSays | internal/api/basicauthmigrate.go:156-227 | what a plan says, read off the configuration: the moved literals, every reference, one warning for each allow rule left behind and for a list that stays, and that it detaches exactly when it carries nothing else |
| Migration.AttachmentsByHost | internal/api/basicauthmigrate.go:194-203 | the references are listed host by host |
| Migration.MigrationObjects | internal/api/basicauthmigrate.go:229-304 | the touched map holds exactly the hosts that reference the list, each migrated at host and location level, with the middleware and the cleared list |
| Migration.UnreferencedUnchanged | internal/api/basicauthmigrate.go:262-302 | a host that does not name the list is left alone |
| Migration.Migrate | internal/api/basicauthmigrate.go:79-142 | refuses, in this order, a name that is none, a missing list, one without users, a derived name that is none or taken, and what the store rejects; otherwise commits exactly the migrated configuration, and a dry run commits nothing |
| Migration.HandledIff | internal/api/basicauthmigrate.go:79-142 | when the first list of a name is applied, planned or refused, and why; a dry run plans exactly what a real run applies and never commits |
| Migration.UnnameableIff | internal/model/model.go:83-94 | a valid list's derived middleware name is refused exactly when the list's name is longer than 247 characters |
| MigrationMeaning.PassRules | internal/dataplane/accesslist.go:358-424 | what a route asked of a request before and asks after, for every list with users: configured addresses and credentials combined as satisfyAny says, then exempt networks or credentials and what is left of the list |
| MigrationMeaning.NeverWidensIff | internal/api/basicauthmigrate.go:156-204 | a list's migration admits nothing new for any request exactly when it does not detach with an uncovered bare IPv4-mapped literal under a default that is not allow |
| MigrationMeaning.WideningExample | internal/dataplane/accesslist.go:105-119 | a concrete list that admits a new request after the migration |
| MigrationMeaning.StrictExactIff | internal/dataplane/accesslist.go:359-373 | without satisfyAny the meaning is kept exactly when a dimension is left or the default is not an explicit deny |
| MigrationMeaning.AttachedExactIff | internal/dataplane/accesslist.go:415-420 | a satisfyAny list that stays attached keeps its meaning exactly when nothing becomes mandatory and the default is not an explicit deny |
| MigrationMeaning.DetachedExactIff | internal/api/basicauthmigrate.go:211-221 | a detaching list keeps its meaning exactly when the moved networks are the addresses it let in without a password |
| MigrationMeaning.KeepsMeaningExact | internal/api/basicauthmigrate.go:171-188 | conditions readable off the list under which its meaning is kept for every request |
| MigrationMeaning.MigratedRoute | internal/api/basicauthmigrate.go:262-302 | the names on a migrated route: the list gone where it detaches, the middleware wherever the list was, everything else as before |
| MigrationMeaning.MigrationNeverWidens | internal/api/basicauthmigrate.go:156-304 | when the list does not widen, for every valid configuration, host, location, request and world, what the migrated configuration admits the original admitted |
| MigrationMeaning.HostNeverWidensIff | internal/api/basicauthmigrate.go:156-304 | on a host that asks for the list and nothing else the migration admits nothing new iff the list does not widen |
| MigrationMeaning.WidensOneHost | internal/api/basicauthmigrate.go:156-304 | every list that widens opens a whole configuration of one host |
| MigrationMeaning.MigrationExact | internal/api/basicauthmigrate.go:171-302 | admission is unchanged wherever the list keeps its meaning and on every route that does not name it |
| MigrationMeaning.MigrationKeepsValid | internal/dataplane/chain.go:315-327 | names stay unique, no reference dangles, and the list's credentials are gone |
| DnsName.PackName | internal/acme/rfc2136.go:550-571 | appends the packed canonical name, or reports the first label or length at fault |
| DnsName.Reader.Name | internal/acme/rfc2136.go:606-646 | terminates within 16 pointers with every read in bounds, yields the spelled name and the offset after it, and leaves the offset alone on failure |
| DnsName.Reader.Take | internal/acme/rfc2136.go:595-602 | exactly the next bytes, or end of file with the offset unmoved |
| DnsName.ReadIffSpelled | internal/acme/rfc2136.go:606-646 | a read succeeds with a name exactly when the message spells it at that offset through at most 16 pointers |
| DnsName.PackThenRead | internal/acme/rfc2136.go:550-646 | a packed name, at any position of any message, reads back as the lowercased trimmed name with the offset just past it |
| DnsName.PackedLength | internal/acme/rfc2136.go:550-571 | a packed name takes at most 255 bytes |
| DnsUpdate.SignTSIG | internal/acme/rfc2136.go:347-395 | appends a TSIG record whose MAC covers the message as it stood, then raises ADCOUNT |
| DnsUpdate.BuildUpdate | internal/acme/rfc2136.go:301-342 | succeeds exactly when the value fits and every name packs, with the signed message |
| DnsUpdate.ReadRecord | internal/acme/rfc2136.go:650-703 | reads one resource record field by field |
| DnsUpdate.RecordReads | internal/acme/rfc2136.go:574-646 | a record laid out at any offset reads back with every field |
| DnsUpdate.SignatureReads | internal/acme/rfc2136.go:347-395 | for any message, the last record of its signed form is the TSIG record, with key, algorithm, time, fudge, original id and the MAC of exactly that message followed by the TSIG variables |
| DnsUpdate.VariablesInPlace | internal/acme/rfc2136.go:347-395 | the variables the MAC covers behind the message: key, class ANY, TTL 0, algorithm, time, fudge 300, no error, no other data, in that order |
| DnsUpdate.UpdateReads | internal/acme/rfc2136.go:301-342 | the zone, the record's name, class, TTL and TXT value read back from the signed message, and the record ends where the signature starts |
| DnsUpdate.HeaderReads | internal/acme/rfc2136.go:301-395 | id and section counts match the sections present, and the message fits a 16-bit length |
| DnsUpdate.StripSignature | internal/acme/rfc2136.go:347-395 | dropping the TSIG record and resetting ADCOUNT gives exactly the bytes that were MACed before the variables |
| DnsZone.SoaOwner | internal/acme/rfc2136.go:650-703 | the header's complaints in order; then, for any layout of the announced questions (name, type, class) and records, the owner of the first SOA among the announced answers, "" exactly when there is none or it is the root's, and an error when neither stands there |
| DnsZone.SoaFoundIff | internal/acme/rfc2136.go:682-702 | an owner is found exactly when records standing one after the other reach an SOA of that owner past no other |
| DnsZone.UsualAnswer | internal/acme/rfc2136.go:650-703 | an ordinary answer, one question with a packed name and an SOA whose owner points back to it, names that zone |
| DnsZone.ZoneCoversIff | internal/acme/rfc2136.go:286-296 | a zone covers a name exactly when it is not the root and its labels end the name's labels |
| Conn.Conn.Read | internal/dataplane/clienthello.go:88-105 | a socket read: some non-empty front of what is to come, never past the buffer, or closed |
| ClientHello.ParseServerName | internal/dataplane/clienthello.go:170-193 | the loop finds the first host name of the list |
| ClientHello.ParseClientHello | internal/dataplane/clienthello.go:110-166 | the loop gives the verdict on the handshake bytes: more needed, a name, or malformed |
| ClientHello.ReadUpTo | internal/dataplane/clienthello.go:88-105 | fills the buffer to exactly n bytes, never reading past them and losing none |
| ClientHello.PeekClientHello | internal/dataplane/clienthello.go:48-84 | for any chunking, the outcome depends only on the bytes of the stream, and the raw bytes with what is left are the stream |
| ClientHello.HelloStable | internal/dataplane/clienthello.go:110-166 | once the message is judged, appended bytes change nothing |
| ClientHello.AnyFragmentation | internal/dataplane/clienthello.go:53-83 | cutting the handshake into any non-empty records within the limits gives the verdict of the whole message, from the whole records through the first that decides |
| ClientHello.FragmentationIndependent | internal/dataplane/clienthello.go:53-83 | two ways of cutting the same handshake give the same verdict, whatever follows |
| ClientHello.FoundIsWhole | internal/dataplane/clienthello.go:53-83 | a peeked name comes from whole handshake records at the front of the stream, incomplete before the last and within the limits |
| ClientHello.PeekedIff | internal/dataplane/clienthello.go:53-83 | the records through the one that completes a message give its verdict iff their payloads are at most 16384 bytes, and too large otherwise |
| ClientHello.WholePeekedIff | internal/dataplane/clienthello.go:71-73 | a whole hello that parses, cut however, is peeked iff it announces at most 16380 bytes, and too large otherwise |
| ClientHello.LargestAccepted | internal/dataplane/clienthello.go:31-34 | an accepted hello announces at most 16380 bytes |
| ClientHello.PrefixConn.Read | internal/dataplane/clienthello.go:222-229 | hands out the peeked bytes first and conserves what is pending |
| ClientHello.PeekAndReplay | internal/dataplane/clienthello.go:215-229 | after a peek, whatever its outcome, the replaying connection holds the original stream |
| HelloMessage.ServerNameRead | internal/dataplane/clienthello.go:170-193 | an encoded server_name list names its first host_name entry |
| HelloMessage.HelloRead | internal/dataplane/clienthello.go:110-193 | an encoded ClientHello, with or without an extension block, parses to the first host name of its first server_name extension, whatever follows it |
| HelloMessage.RefusedExample | internal/dataplane/clienthello.go:71-73 | for each length from 16381 to 16384 a well-formed hello that parses and that peeking refuses |
| ProxyProtocol.ProxyConn.Fill | internal/dataplane/proxyproto.go:205-222 | fills the buffer to exactly n bytes and conserves the stream |
| ProxyProtocol.ProxyConn.ReadV1 | internal/dataplane/proxyproto.go:225-245 | the text header ends at the first CRLF within 107 bytes; what follows it stays to be delivered |
| ProxyProtocol.ProxyConn.ReadV2 | internal/dataplane/proxyproto.go:294-341 | the binary header and its whole length are used up; what follows stays to be delivered |
| ProxyProtocol.ProxyConn.EnsureHeader | internal/dataplane/proxyproto.go:130-139 | the header is parsed once and its error is sticky; there is no error for a peer in none of the trusted networks |
| ProxyProtocol.ProxyConn.Read | internal/dataplane/proxyproto.go:141-201 | for any chunking: from a peer without an address or in none of the trusted networks the whole stream is delivered; from any other what follows its header, and nothing after a refused one |
| ProxyProtocol.ProxyConn.RemoteAddress | internal/dataplane/proxyproto.go:156-165 | the peer's own address unless some trusted network contains it and its header names another |
| ProxyProtocol.V2Exact | internal/dataplane/proxyproto.go:294-341 | a well-formed version 2 header is used up exactly, TLVs included, and names the encoded source; a malformed one is refused |
| ProxyProtocol.V1Exact | internal/dataplane/proxyproto.go:225-290 | a version 1 header is used up exactly, line end included; its outcome is the source its fields name, no source for UNKNOWN, and a refusal otherwise |
| ProxyProtocol.EndlessLineRefused | internal/dataplane/proxyproto.go:226-245 | a text header without a line end within 107 bytes is refused |
| ProxyProtocol.V2Cut | internal/dataplane/proxyproto.go:294-305 | a binary header cut anywhere is refused as ended early |
| ProxyProtocol.HeaderlessUntouched | internal/dataplane/proxyproto.go:163-201 | nothing is taken from a stream exactly when the peer is untrusted or sends at least twelve bytes with neither preamble |
| RateGate.Gate.Sweep | internal/auth/authenticator.go:180-186 | the loop drops exactly the expired entries |
| RateGate.Gate.CheckLimit | internal/auth/authenticator.go:114-129 | reports the limit, failing closed for an untracked key when full of live keys |
| RateGate.Gate.Record | internal/auth/authenticator.go:135-149 | counts one event over a fresh window, unless the key is new and the table full |
| RateGate.Gate.TryBegin | internal/auth/authenticator.go:156-177 | reserves an attempt, or refuses without extending the lockout |
| RateGate.Gate.Remaining | internal/auth/authenticator.go:209-224 | how long the key stays at its limit |
| RateGate.TableBounded | internal/auth/authenticator.go:191-197 | after any run the table holds at most maxKeys keys |
| RateGate.RefusedIffAtLimit | internal/auth/authenticator.go:114-177 | after any run an attempt is refused exactly when the key is at its limit at that instant |
| RateGate.WaitIffAtLimit | internal/auth/authenticator.go:209-224 | the wait is positive exactly when the key is at its limit, the last instant of its entry apart |
| RateGate.WindowBound | internal/auth/authenticator.go:156-177 | in any run that never clears the key, every closed interval one window long holds at most the limit of granted attempts, through expiry, sweeping and saturation |
| RateGate.LimitBelowOneGrants | internal/auth/authenticator.go:165-173 | a limit below one, which no caller sets, would still grant a first attempt |
| RateGate.NewKeyRefusedIff | internal/auth/authenticator.go:156-197 | over any run, refused attempts and lookups included, a key not counted within the last window is refused exactly when at least maxKeys keys were counted within it |
| RateGate.Recovers | internal/auth/authenticator.go:188-197 | a saturated gate admits a new key again as soon as the entries that saturate it have run out, whatever knocked in vain meanwhile |
| RateGate.GrantedIff | internal/auth/authenticator.go:156-197 | over any run: a key counted within the last window is granted exactly below limit counts in a row, and any other exactly while fewer than maxKeys keys were counted within it |
| RateGate.CountsIff | internal/auth/authenticator.go:135-177 | what counts is told by the same rule, so every answer of a gate follows from the operations alone |
| RateGate.AtLimitIff | internal/auth/authenticator.go:114-129 | a lookup finds a key at its limit exactly when an attempt would be refused |
| RateGate.WaitIs | internal/auth/authenticator.go:209-224 | the announced wait is the rest of the window since the key was last counted, or a whole window while the gate is full |
| Lru.TouchedByRecency | internal/dataplane/ratelimit.go:116-137 | moving a key to the back keeps the list sorted by last touch |
| VerdictCache.Cache.Get | internal/dataplane/bouncer.go:89-104 | a live verdict, touched; an expired one dropped |
| VerdictCache.Cache.Store | internal/dataplane/bouncer.go:108-128 | stores a verdict with a positive time to live, evicting the front when a new key finds the cache full |
| VerdictCache.RunConsistent | internal/dataplane/bouncer.go:89-128 | in every reachable state map and list hold the same keys, each once, within the cap, in the order of their last touch |
| VerdictCache.EvictsLongestUntouched | internal/dataplane/bouncer.go:121-126 | eviction removes the key touched longest ago |
| VerdictCache.HitIsLatest | internal/dataplane/bouncer.go:89-104 | a hit is the latest verdict stored for the key, before its expiry |
| VerdictCache.StaleVerdictExample | internal/dataplane/bouncer.go:108-111 | a put without time to live, which no caller makes, would leave the verdict before it a hit |
| VerdictCache.HitUntilCrowded | internal/dataplane/bouncer.go:108-128 | a stored verdict stays a hit until it expires unless at least cap other keys were used since |
| RateLimiter.Compile | internal/dataplane/ratelimit.go:63-99 | a compiled configuration always holds at least one token and caps its backoff, and refills exactly when its rate is positive |
| RateLimiter.Limiter.Allow | internal/dataplane/ratelimit.go:111-152 | one request: refilled, spent, blocked or refused, the key moved to the back, the front evicted at the cap |
| RateLimiter.Limiter.NextBlock | internal/dataplane/ratelimit.go:158-170 | the block's length from the strikes of the streak |
| RateLimiter.Limiter.EvictLru | internal/dataplane/ratelimit.go:176-183 | removes the front key from list and map |
| RateLimiter.RunConsistent | internal/dataplane/ratelimit.go:116-137 | in every reachable state map and list hold the same keys, each once, within the cap, in the order of their last requests |
| RateLimiter.EvictsLongestIdle | internal/dataplane/ratelimit.go:129-137 | a new client at the cap replaces the one whose last request is the oldest |
| RateLimiter.Isolated | internal/dataplane/ratelimit.go:111-152 | while a key is not evicted its bucket depends on its own requests only |
| RateLimiter.TableInBounds | internal/dataplane/ratelimit.go:125-140 | after any run tokens are within 0 and capacity |
| RateLimiter.Conserved | internal/dataplane/ratelimit.go:125-142 | what was admitted and what is left came from what was there and from the refill |
| RateLimiter.TokenBound | internal/dataplane/ratelimit.go:111-152 | over any stretch of any run in which a key is not evicted, its admitted requests number at most capacity + refill * elapsed, blocking or not |
| RateLimiter.ConformingAdmitted | internal/dataplane/ratelimit.go:111-152 | a key that asks for no more than burst and rate between any two of its requests is never refused while it is not evicted, with or without blocking |
| RateLimiter.BlocksEscalate | internal/dataplane/ratelimit.go:143-170 | the k-th block of a streak lasts min(blockMax, blockFor * backoff^k), the streak starting anew exactly after one clean block length |
| RateLimiter.BlockHolds | internal/dataplane/ratelimit.go:122-124 | inside a block nothing is admitted, its end does not move, and the announced wait is the time to it rounded up |
| RateLimiter.StreakNeverShrinks | internal/dataplane/ratelimit.go:158-170 | later blocks of a streak are never shorter |
| RateLimiter.FirstBlockShortIff | internal/dataplane/ratelimit.go:79-88 | when the first block is shorter than configured |
| RateLimiter.HonestRetryAfter | internal/dataplane/ratelimit.go:150-152 | with blocking off, an unevicted key that waits the announced seconds is admitted, whatever the other keys do |
| RateLimiter.RetryIsLeast | internal/dataplane/ratelimit.go:150-152 | and a whole second earlier it would not be |
| RateLimiter.BlockedRetryAfter | internal/dataplane/ratelimit.go:122-152 | a blocked key that waits the announced seconds is past its block, and admitted iff its tokens and what flowed in since the block make one; otherwise it starts the next block |
| RateLimiter.ShortBlockExample | internal/dataplane/ratelimit.go:122-152 | a block shorter than a token takes: the announced wait earns the next block |
| Login.VerifyTotp | internal/auth/totp.go:128-155 | the latest step within one of now whose code matches, or none when none does |
| Login.Authenticator.BeginLogin | internal/auth/authenticator.go:409-442 | a pending OIDC login for ten minutes, if there is room after collecting expired ones |
| Login.Authenticator.LocalLogin | internal/auth/authenticator.go:531-556 | a session or a pending token exactly when local login is allowed, a user and hash are configured, and the name and the password are theirs; the token only while fewer than 1024 logins are pending |
| Login.Authenticator.CompleteLogin | internal/auth/authenticator.go:483-521 | redeems an OIDC token once, and never a TOTP one |
| Login.Authenticator.CompleteTotpLogin | internal/auth/authenticator.go:589-608 | redeems a TOTP token once whatever the outcome, and opens a session for a fresh matching step |
| Login.Authenticator.AcceptCounter | internal/auth/authenticator.go:614-625 | accepts exactly a step later than the last one |
| Login.Authenticator.AbandonLogin | internal/auth/authenticator.go:712-719 | drops the token |
| Login.Authenticator.Collect | internal/auth/authenticator.go:960-967 | the loop drops exactly the expired entries |
| Login.PendingBounded | internal/auth/authenticator.go:427-434 | after any interleaving at most 1024 logins are pending |
| Login.RedeemedOnce | internal/auth/authenticator.go:483-493 | with fresh tokens each is redeemed at most once by either flow and opens at most one session |
| Login.NoCrossRedemption | internal/auth/authenticator.go:488-593 | what OIDC redeems was begun there within ten minutes, what TOTP redeems followed the configured user's own password within five |
| Login.OtpSessionEarned | internal/auth/authenticator.go:589-608 | every otp session follows a login by the configured user with a password that meets the hash, its redemption within five minutes, and the six-digit code of a step within one of the clock's |
| Login.BegunIff | internal/auth/authenticator.go:409-576 | a pending login is made exactly for a provider's login or the configured user's own password, while fewer than 1024 are pending |
| Login.RedeemTotpIff | internal/auth/authenticator.go:589-595 | over any interleaving a code login is redeemed exactly when its password began it at most five minutes ago and nothing redeemed, abandoned or replaced it since |
| Login.RedeemOidcIff | internal/auth/authenticator.go:483-493 | and a provider's login exactly when it was begun at most ten minutes ago |
| Login.SessionIff | internal/auth/authenticator.go:596-625 | a redeemed code login opens a session exactly when the code is that of a step within one of the clock's, later than every step accepted before |
| Login.CountersStrictlyIncrease | internal/auth/authenticator.go:614-625 | the steps accepted for a user strictly increase over the run |
| SyncTrigger.Gate.Trigger | internal/accesssync/accesssync.go:294-309 | starts a drain, or queues one follow-up |
| SyncTrigger.Gate.Drained | internal/accesssync/accesssync.go:327-349 | goes round again exactly when a follow-up is queued and shutdown has not begun |
| SyncTrigger.OneAtATime | internal/accesssync/accesssync.go:294-399 | over all interleavings at most one drain and one reconcile body run |
| SyncTrigger.NoLostTrigger | internal/accesssync/accesssync.go:294-349 | whenever nothing runs and shutdown has not begun, every trigger was followed by a reconcile that started after it |
| SyncTrigger.CanCatchUp | internal/accesssync/accesssync.go:327-399 | an outstanding trigger is at most four steps of the drain and the lock's holder from its reconcile |
| SyncTrigger.CancelledEnds | internal/accesssync/accesssync.go:334-340 | a drain that finds its context cancelled ends and leaves nothing running or queued, whatever was |
| SyncTrigger.EndsIff | internal/accesssync/accesssync.go:327-349 | a drain goes round again exactly when a follow-up is queued and its context is not cancelled |
| SyncTrigger.StopsSoon | internal/accesssync/accesssync.go:286-349 | once shutdown has begun and nothing triggers, drains start at most two more reconciles over any interleaving |
| SyncReconcile.Syncer.VisitSource | internal/accesssync/accesssync.go:430-510 | one source: kept, dropped, fetched or refused, with its attempt |
| SyncReconcile.Syncer.VisitAll | internal/accesssync/accesssync.go:428-519 | the loops visit every declared source once and notice every dropped one |
| SyncReconcile.Syncer.Reconcile | internal/accesssync/accesssync.go:404-521 | commits and reloads exactly when the next ledger differs from the loaded one and the save succeeds |
| SyncReconcile.Syncer.IsDue | internal/accesssync/accesssync.go:529-538 | an interval has passed since the fetch and since the attempt, as far as there were any |
| SyncReconcile.VisitIff | internal/accesssync/accesssync.go:430-510 | everything a visit does: fetched at once when the URL moved and otherwise when due; refused, unchanged or replaced |
| SyncReconcile.DueAgainIff | internal/accesssync/accesssync.go:480-538 | a source fetched in a run falls due again exactly when its interval has passed |
| SyncReconcile.ChangedIffDifferent | internal/accesssync/accesssync.go:428-519 | with unique keys, something changed exactly when the next ledger differs |
| SyncReconcile.RefusalKeeps | internal/accesssync/accesssync.go:463-478 | a refused fetch leaves the entry intact while its URL is unchanged, and is retried at the next run |
| SyncReconcile.OnlyDeclaredSurvive | internal/accesssync/accesssync.go:424-519 | only declared sources survive, each with its previous entry for the URL or one fetched from it now |
| SyncReconcile.MovedIsRefetched | internal/accesssync/accesssync.go:436-442 | a source whose URL moved is fetched in the same run and never keeps its old body |
| SyncReconcile.SecondRunQuiet | internal/accesssync/accesssync.go:481-490 | a whole run repeated at once, refusals included, leaves the ledger as it is and has nothing to commit |
| SyncReconcile.FailedSaveWaits | internal/accesssync/accesssync.go:480-521 | after a failed save the source is not fetched again within its interval, unless its URL moved |
| Collector.Collector.Ingest | internal/analytics/collector.go:416-565 | one event folded into its minute and hour slots, dropped by a slot that holds a newer one |
| Ingest.CountedOk | internal/analytics/collector.go:494-564 | one event keeps the caps and what they conserve |
| Ingest.AlwaysOk | internal/analytics/collector.go:494-564 | after any run a host-hour holds at most 64 labels, 8 countries a label and 512 clients, signature hits are the countries' threats, a label's country hits are the label's, denial reasons are the countries' denials, and every request is in one status class and one latency bucket |
| Counting.MinuteCounts | internal/analytics/collector.go:416-490 | over any run a minute holds for each host and source exactly what its events weigh in every counter: requests, denials, threats, bytes, status and latency classes; nothing once a later minute has its slot |
| Counting.HourCounts | internal/analytics/collector.go:492-520 | over any run an hour holds exactly the tallies of its events by country and denial reason |
| Counting.SignatureCounts | internal/analytics/collector.go:521-545 | and by signature, none folded into "other" while there are at most 63 |
| Counting.OwnName | internal/analytics/collector.go:447-454 | each host is counted under its own name while a run names at most 512 |
| Counting.WithinCaps | internal/analytics/collector.go:447-564 | whatever the run: 512 hosts; 64 signatures, 8 countries for each and 512 clients |
| Collector.Collector.HourTotals | internal/analytics/collector.go:636-673 | the loops sum every counter of every host and source over the hour |
| Collector.Collector.RowsForHour | internal/analytics/collector.go:636-731 | the rows are rendered or chosen partial ones, each once and within the budget; one is left out only when the budget is full of rows no less important |
| Collector.BudgetCutsByTier | internal/analytics/collector.go:720-730 | cutting the concatenated tiers drops clients first, then the countries of signatures, signatures and countries, and only at a full budget |
| Collector.Collector.MaybeFlush | internal/analytics/collector.go:573-628 | one flush: prunes, writes the hours behind the mark and before the running one, at first only the one before it, the running one when forced, leaves every other hour alone, and moves the mark |
| Flushing.WrittenAtIff | internal/analytics/collector.go:573-628 | over any run of flushes each writes exactly the accepted hours it is the first to find over since the last regular one |
| Flushing.EveryHourWritten | internal/analytics/collector.go:573-628 | every hour from the one before the first flush, or behind the mark a start left, is written by the first regular flush that finds it over, if accepted, and stays so until pruned |
| Flushing.SomeFlushPasses | internal/analytics/collector.go:573-628 | there is such a flush for every hour before the last regular one |
| Collector.Collector.ApplyRow | internal/analytics/collector.go:796-866 | one row folded into the slots, its counters spread over the hour's elapsed minutes |
| Collector.Collector.ReplayStore | internal/analytics/collector.go:777-794 | replays the rows of the last day in order |
| Traffic.DurRoundTrip | internal/analytics/collector.go:733-754 | a latency bucket's key reads back as the bucket |
| Traffic.SharesSum | internal/analytics/collector.go:833-839 | the shares of a counter over the minutes sum exactly |
| Traffic.ShareMonotone | internal/analytics/collector.go:833-839 | a smaller counter has the smaller share in every minute |
| RoundTrip.RowsSayTotals | internal/analytics/collector.go:636-696 | the flushed rows of an hour say exactly its totals |
| RoundTrip.TotalsRestored | internal/analytics/collector.go:796-866 | flush then replay restores every request, denial, threat, byte, status and latency sum of every host and source, between the rows of earlier and later hours |
| RoundTrip.ReplayedEvenly | internal/analytics/collector.go:822-865 | the minutes of a replayed hour up to the present one share its total evenly, the earlier ones taking one more where it does not divide; those to come get nothing |
| RoundTrip.DeniedWithinRequests | internal/analytics/collector.go:833-845 | no replayed minute has more denials than requests |
| RoundTrip.TotalsWellFormed | internal/analytics/collector.go:451-480 | after any run an hour's totals are not negative and its denials are within its requests |
| RoundTrip.DimensionsRestored | internal/analytics/collector.go:869-876 | country and denial counts come back exactly |
| RoundTrip.SignaturesRestoredIff | internal/analytics/collector.go:877-895 | signature counts come back exactly when no label contains the separator |
| Report.BucketIff | internal/analytics/report.go:147-152 | bucket i holds exactly the times from i bucket lengths after the start to i + 1 |
| Report.Window.AddMinute | internal/analytics/report.go:163-191 | adds a minute's counters to the series, the histogram and the host, inside the window only |
| Report.Window.AddHour | internal/analytics/report.go:193-209 | adds an hour's countries, denials and signatures |
| Report.Window.AddRow | internal/analytics/report.go:250-298 | what one rollup row adds to every metric |
| Agreement.AlignedHours | internal/analytics/report.go:136-152 | in a window of whole hours to a bucket every hour lies in one bucket |
| Agreement.AggAgrees | internal/analytics/report.go:163-298 | for each host and source an hour's rows add to every metric what its slots add with each minute counted at the hour's start |
| Agreement.SignatureAgreesIff | internal/analytics/report.go:285-293 | a signature's rows count it as the slots do exactly when its label is free of the separator or unhit |
| Agreement.RowsAgree | internal/analytics/report.go:163-298 | the same for every host and source filter, for any window the hour starts in |
| Agreement.HourAgrees | internal/analytics/report.go:163-298 | a closed hour inside one bucket: rows and slots give the same series, per-host, histogram, country, denial and signature totals, for any host and source filter |
| Displacement.HourMoves | internal/analytics/report.go:250-298 | counting an hour at its start adds what its minutes add and what is shown at the hour's start only |
| Displacement.DisplacesIff | internal/analytics/report.go:250-298 | that is nothing exactly when no minute holds counts shown at the hour's start only |
| Displacement.OnlyTheEndCuts | internal/analytics/report.go:147-152 | for totals, per-host counters and the histogram that is exactly what lies past the window's end |
| Collector.Collector.AddMemory | internal/analytics/report.go:312-344 | the loops add the slots of every minute and hour not skipped |
| Collector.Collector.MemoryWindow | internal/analytics/report.go:302-306 | a memory window holds exactly what the slots add |
| Collector.Collector.StoreWindow | internal/analytics/report.go:349-374 | adds the stored rows of the hours that are over and the slots of the hours without any |
| StorePath.MemoryByHour | internal/analytics/report.go:312-344 | a memory window of any shape is the sum of the hours it touches, each as far as the window reaches, those skipped apart |
| StorePath.EachHourOnce | internal/analytics/report.go:349-374 | a store-backed window of any shape counts each hour it touches exactly once: from the store when the hour starts in the window, is over and has rows, and otherwise from memory |
| StorePath.StoreReports | internal/analytics/report.go:349-374 | it is the sum of the stored hours as they stood when flushed, counted at their start, and of the others as they stand, however long ago the slots were reused |
| StorePath.WholeHoursExact | internal/analytics/report.go:349-374 | with every stored hour in one bucket, as in windows of whole hours, every metric is exactly what was recorded |
| StorePath.StoreExactIff | internal/analytics/report.go:349-374 | for every metric but a single bucket, what is reported and what memory lost of a stored hour the start cuts make up what was recorded and what was moved to its hour's start; it is exact iff the two are equal |
| StorePath.BothEndsIff | internal/analytics/report.go:349-374 | totals, per-host counters, histogram and dimensions are exact iff what the last hour holds past the end is as much as memory lost of the first hour |
| StorePath.EndCutsIff | internal/analytics/report.go:349-374 | something is cut off at the end exactly when a stored hour's minutes past the end hold something the metric shows |
| StorePath.SeriesExactIff | internal/analytics/report.go:349-374 | the series is exact, bucket for bucket, iff up to each bucket as much was moved in as memory lost of the first hour |
| StorePath.SeriesKeptIff | internal/analytics/report.go:349-374 | where nothing is lost at the start, iff every stored hour's counts all fall in the bucket the hour starts in |
| StorePath.StoreIsMemoryIff | internal/analytics/report.go:302-374 | store path and memory path give totals, per-host counters, histogram and dimensions the same iff the window's end does not cut counts of a stored hour off |
| StorePath.StoreSeriesIsMemoryIff | internal/analytics/report.go:302-374 | and the series iff every stored hour's counts all fall in the bucket the hour starts in |
| WindowEnds.CutStartUnread | internal/analytics/report.go:353-354 | what the store holds of the hour the window's start cuts is not read |
| WindowEnds.PastWindow | internal/analytics/report.go:58-64 | a window memory no longer holds reports what was recorded, less the part of the first hour its start cuts, plus what the last hour held after its end, and is exact iff the two are equal |
| WindowEnds.EndCutExample | internal/analytics/report.go:349-374 | 1:00 to 1:30 in half hours: a request of 1:45 is counted from the store and not from memory |
| WindowEnds.StartCutExample | internal/analytics/report.go:349-374 | 1:30 to 2:00 in half hours, after memory moved on: the recorded request of 1:45 is not reported |
| WindowEnds.HalfHourExample | internal/analytics/report.go:349-374 | 1:00 to 2:00 in half hours: the totals agree and the series does not |
| Restart.StartRestoresTotals | internal/analytics/collector.go:777-794 | a start restores every counter of every flushed hour of the last day from the store |
| Restart.StartRestoresDimensions | internal/analytics/collector.go:777-899 | for any replayed hour, the oldest included, its country and denial counts, and its signatures iff no label contains the separator |
| Restart.OldestHour | internal/analytics/collector.go:777-866 | the minutes of the oldest replayed hour come back with their shares, except that those whose clock time is past in the running hour give way to that hour's, if it has any |
| Restart.FlushThenStart | internal/analytics/collector.go:573-628 | flush, stop, start: what was written within the budget comes back in full |
| Restart.WrittenEarlyIff | internal/analytics/report.go:357-367 | a stored hour shows what the slots hold iff they hold, of the metric, what they held when it was written |
| Restart.UnderReported | internal/analytics/report.go:357-367 | flushed at a stop, replayed in the same hour, then one more event: once the hour is over every metric of its report is short of exactly that event |
| Restart.PartialCopyExample | internal/analytics/report.go:357-367 | such an hour's report falls from two requests to one when the hour ends |
| Lifetime.IngestedSound | internal/analytics/collector.go:494-564 | an event with a label free of the separator and no negative bytes keeps the tables free of such labels and of negative counters |
| Lifetime.ReplayedSound | internal/analytics/collector.go:777-899 | and so does a start |
| Lifetime.WrittenSound | internal/analytics/collector.go:573-628 | and a flush keeps the store free of negative counters |
| Lifetime.RunFlushStart | internal/analytics/collector.go:573-899 | from any such tables, events, a flush, a stop and a start: every counter, country, denial reason and signature of an hour written in the last day is back |
| Lifetime.DeniedAfterStart | internal/analytics/collector.go:833-845 | and in a first life no minute of the replayed hour has more denials than requests |
| StorePath.WrittenIsFlushed | internal/analytics/collector.go:636-731 | what is written within the row budget satisfies the premise of the round trip and of the agreement |

## Left out

- Parsing of IP addresses, CIDRs, durations and numbers, bcrypt, HMAC, hashing and GeoIP are arbitrary functions or already parsed values; times are whole seconds, or reals in the rate limiter, on a clock that does not go back within a run.
- Guards, bouncers, IdP auth and token buckets inside the migration are an arbitrary answer for each gate, host and request; the basic-auth lockout is not part of it.
- Stream hosts, location matching and the validation a commit runs on the migrated configuration; the order in which touched hosts are committed.
- Names and TXT values are ASCII bytes; lowercasing beyond ASCII is not modelled.
- The SOA query itself, the exchange over UDP and TCP, and `checkUpdateResponse`.
- Read deadlines: a failed or timed-out socket read is an end of the stream.
- Login.VerifyTotp: takes the code already trimmed and compares it as a value, because the constant-time comparison and the trimming change no outcome.
- The OIDC code exchange and role mapping are one answer for each provider; cookies, sessions in the store and the SSO-only policy are parameters.
- Login.RedeemedOnce: takes the freshness of drawn tokens as a premise.
- The HTTP fetch of a source and `parseEntries`; a fetch is an arbitrary answer for each source. Reconcile's status list keeps the counts, not a line for each source.
- Conn.Conn.Read: never returns bytes together with an error; such a read is two reads here, the bytes and then the end.
- Collector.Collector.MaybeFlush: takes the partial rows as chosen, as RowsForHour does, and leaves out dropping the cached reports.
- Report.Window.AddHour: leaves out signature countries, signature hosts and clients, which are kept in part only.
- Report.Window.AddRow: leaves out the same three.
- Collector.Collector.RowsForHour: takes the signature-country and client rows of an hour as chosen, because which ones are kept is deliberately partial.
- RoundTrip.TotalsRestored: covers an hour whose later replayed hours are less than a day away; what becomes of the oldest of the 25 replayed hours is `OldestHour`.
- Times before 1970, where the program's division truncates upwards; runs of flushes start after its second hour, because mark 0 stands for none.
- The byte counter of an hour is taken as non-negative, as bytes written are.
- Signature countries, signature hosts and clients of a report, percentiles, and the rendering of the report.
- Schema 1 rows without a source are rows of source "" and nothing more.
