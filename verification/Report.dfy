/** The aggregate a report is rendered from, fed from the memory slots or from rollup rows. */
module Report {
  import opened Ingest
  import opened Replay
  import opened RoundTrip
  import opened Sums
  import opened Traffic

  /** Times are unix seconds; the window is whole buckets. */
  datatype Geometry = Geometry(start: int, end: int, bucket: int) {
    predicate Valid() { start <= end && bucket > 0 && (end - start) % bucket == 0 }

    function Buckets(): int
      requires bucket > 0
    {
      (end - start) / bucket
    }

    /** The bucket a time falls in, or -1. */
    function Index(at: int): int
      requires bucket > 0
    {
      if at < start || at >= end then -1 else (at - start) / bucket
    }
  }

  lemma IndexInRange(geo: Geometry, at: int)
    requires geo.Valid()
    ensures -1 <= geo.Index(at) < geo.Buckets() || (geo.Buckets() == 0 && geo.Index(at) == -1)
  {
    if geo.start <= at < geo.end {
      var n := geo.Buckets();
      assert geo.end - geo.start == n * geo.bucket;
      Below(at - geo.start, n, geo.bucket);
    }
  }

  lemma Below(x: int, n: int, d: int)
    requires 0 <= x < n * d && d > 0
    ensures 0 <= x / d < n
  {
    if x / d >= n { Grows(n, x / d, d); }
  }

  lemma Grows(a: int, b: int, d: int)
    requires a <= b && d > 0
    ensures a * d <= b * d && a * d == (a - 1) * d + d
  {
  }

  /** Bucket i holds the times from i bucket lengths after the start to i + 1, and no other. */
  lemma BucketIff(geo: Geometry, at: int, i: int)
    requires geo.Valid() && 0 <= i < geo.Buckets()
    ensures geo.Index(at) == i <==> geo.start + i * geo.bucket <= at < geo.start + (i + 1) * geo.bucket
  {
    var d := at - geo.start;
    assert geo.end - geo.start == geo.Buckets() * geo.bucket;
    Grows(i + 1, geo.Buckets(), geo.bucket);
    Grows(0, i, geo.bucket);
    if i * geo.bucket <= d < (i + 1) * geo.bucket { QuotientIs(d, i, geo.bucket); }
    if geo.Index(at) == i { assert d == i * geo.bucket + d % geo.bucket; }
  }

  lemma QuotientIs(x: int, i: int, d: int)
    requires d > 0 && i >= 0 && i * d <= x < (i + 1) * d
    ensures x / d == i
  {
    if x / d < i { Grows(x / d + 1, i, d); }
    if x / d > i { Grows(i + 1, x / d, d); }
    assert x == x / d * d + x % d;
  }

  /** Everything a report shows, leaving out signature countries, signature hosts and clients. */
  datatype Metric =
    | Series(i: int, f: int)          // a counter of one bucket of the series
    | SeriesUpTo(i: int, f: int)      // its buckets up to i together; up to the last, the report's total
    | HostTotal(host: string, f: int) // a counter of one host
    | LatencyCount(f: int)            // the window's histogram
    | CountryCount(code: string, which: int) // 0 requests, 1 denials, 2 threats
    | DenyCount(reason: string)
    | SigCount(sig: string)

  /** The series keeps requests, denials, threats, bytes, 5xx and latencies. */
  predicate InSeries(f: int) {
    f == REQ || f == DEN || f == THR || f == BYTES || f == CLASS + 3 || DUR <= f < FIELDS
  }

  function Pick(v: Dim, which: int): int {
    if which == 0 then v.n else if which == 1 then v.d else v.t
  }

  /** Whether a counter of this host's minute at this time shows in the metric. */
  predicate Shows(geo: Geometry, host: string, at: int, q: Metric)
    requires geo.bucket > 0
  {
    geo.Index(at) >= 0 &&
    match q
    case Series(i, f) => i == geo.Index(at) && InSeries(f)
    case SeriesUpTo(i, f) => geo.Index(at) <= i && InSeries(f)
    case HostTotal(h, f) => h == host && 0 <= f < FIELDS
    case LatencyCount(f) => DUR <= f < FIELDS
    case _ => false
  }

  function FieldOf(q: Metric): int {
    match q
    case Series(_, f) => f
    case SeriesUpTo(_, f) => f
    case HostTotal(_, f) => f
    case LatencyCount(f) => f
    case _ => -1
  }

  function MinuteAdds(geo: Geometry, host: string, at: int, c: Counts, q: Metric): int
    requires geo.bucket > 0
  {
    if Shows(geo, host, at, q) then c[FieldOf(q)] else 0
  }

  function HourAdds(hh: HostHour, q: Metric): int {
    match q
    case CountryCount(code, which) => Pick(GetDim(hh.country, code), which)
    case DenyCount(k) => Get(hh.deny, k)
    case SigCount(l) => Get(hh.sig, l)
    case _ => 0
  }

  /** What folding one rollup row adds. A total outside the window adds nothing, while a status or a
      latency row always adds to its host. */
  function RowAdds(geo: Geometry, r: Row, q: Metric): int
    requires geo.bucket > 0
  {
    var at := 3600 * r.hour;
    match r.kind
    case Total => if Shows(geo, r.agg.host, at, q) then Amount(r, FieldOf(q)) else 0
    case Status =>
      if Shows(geo, r.agg.host, at, q) || (q.HostTotal? && q.host == r.agg.host) then Amount(r, FieldOf(q)) else 0
    case Latency =>
      if Shows(geo, r.agg.host, at, q) || (q.HostTotal? && q.host == r.agg.host)
        || q.LatencyCount? then Amount(r, FieldOf(q)) else 0
    case Country => if q.CountryCount? && q.code == r.key then Pick(Dim(r.n, r.d, r.t), q.which) else 0
    case Deny => if q == DenyCount(r.key) then r.n else 0
    case Signature => if q == SigCount(r.key) && Bar(r.key) < 0 then r.n else 0
    case ClientKind => 0
  }

  function BucketCount(series: seq<Counts>, i: int, f: int): int
    requires 0 <= f < FIELDS
  {
    if 0 <= i < |series| then series[i][f] else 0
  }

  function UpTo(series: seq<Counts>, i: int, f: int): int
    requires 0 <= f < FIELDS
  {
    if i < 0 then 0 else UpTo(series, i - 1, f) + BucketCount(series, i, f)
  }

  lemma {:induction false} UpToUpdate(series: seq<Counts>, k: int, c: Counts, i: int, f: int)
    requires 0 <= f < FIELDS && 0 <= k < |series|
    ensures UpTo(series[k := c], i, f) == UpTo(series, i, f) + if k <= i then c[f] - series[k][f] else 0
  {
    if i >= 0 { UpToUpdate(series, k, c, i - 1, f); }
  }

  lemma UpdatedSeries(series: seq<Counts>, k: int, c: Counts)
    requires 0 <= k < |series|
    ensures forall i, f | 0 <= f < FIELDS ::
              UpTo(series[k := c], i, f) == UpTo(series, i, f) + if k <= i then c[f] - series[k][f] else 0
  {
    forall i, f | 0 <= f < FIELDS
      ensures UpTo(series[k := c], i, f) == UpTo(series, i, f) + if k <= i then c[f] - series[k][f] else 0
    {
      UpToUpdate(series, k, c, i, f);
    }
  }

  lemma {:induction false} EmptySeries(n: nat, i: int, f: int)
    requires 0 <= f < FIELDS
    ensures UpTo(seq(n, _ => ZERO), i, f) == 0
  {
    if i >= 0 { EmptySeries(n, i - 1, f); }
  }

  class Window {
    const geo: Geometry
    var series: seq<Counts>
    var byHost: map<string, Counts>
    var latency: Counts
    var country: map<string, Dim>
    var deny: map<string, int>
    var sig: map<string, int>

    predicate Valid()
      reads this
    {
      geo.Valid() && |series| == geo.Buckets()
    }

    function HostCounts(host: string): Counts
      reads this
    {
      if host in byHost then byHost[host] else ZERO
    }

    function Value(q: Metric): int
      reads this
    {
      match q
      case Series(i, f) => if 0 <= i < |series| && 0 <= f < FIELDS then series[i][f] else 0
      case SeriesUpTo(i, f) => if 0 <= f < FIELDS then UpTo(series, i, f) else 0
      case HostTotal(h, f) => if 0 <= f < FIELDS then HostCounts(h)[f] else 0
      case LatencyCount(f) => if 0 <= f < FIELDS then latency[f] else 0
      case CountryCount(code, which) => Pick(GetDim(country, code), which)
      case DenyCount(k) => Get(deny, k)
      case SigCount(l) => Get(sig, l)
    }

    constructor (geo: Geometry)
      requires geo.Valid()
      ensures Valid() && this.geo == geo && forall q :: Value(q) == 0
    {
      this.geo := geo;
      series := seq(geo.Buckets(), _ => ZERO);
      byHost, latency, country, deny, sig := map[], ZERO, map[], map[], map[];
      new;
      forall i, f | 0 <= f < FIELDS ensures UpTo(series, i, f) == 0 { EmptySeries(geo.Buckets(), i, f); }
    }

    method AddMinute(host: string, at: int, c: Counts)
      requires Valid()
      modifies this
      ensures Valid() && forall q :: Value(q) == old(Value(q)) + MinuteAdds(geo, host, at, c, q)
    {
      IndexInRange(geo, at);
      var i := geo.Index(at);
      if i < 0 { return; }
      var bucket := Plus(series[i], seq(FIELDS, f requires 0 <= f < FIELDS => if InSeries(f) then c[f] else 0));
      UpdatedSeries(series, i, bucket);
      series := series[i := bucket];
      latency := Plus(latency, seq(FIELDS, f requires 0 <= f < FIELDS => if f >= DUR then c[f] else 0));
      byHost := byHost[host := Plus(HostCounts(host), c)];
    }

    method AddCountry(code: string, v: Dim)
      requires Valid()
      modifies this`country
      ensures Valid()
        && country == old(country)[code := Dim(GetDim(old(country), code).n + v.n, GetDim(old(country), code).d + v.d,
                                                             GetDim(old(country), code).t + v.t)]
    {
      var was := GetDim(country, code);
      country := country[code := Dim(was.n + v.n, was.d + v.d, was.t + v.t)];
    }

    method AddSig(l: string, n: int)
      requires Valid()
      modifies this`sig
      ensures Valid() && sig == old(sig)[l := Get(old(sig), l) + n]
    {
      sig := sig[l := Get(sig, l) + n];
    }

    method AddHour(hh: HostHour)
      requires Valid()
      modifies this
      ensures Valid() && forall q :: Value(q) == old(Value(q)) + HourAdds(hh, q)
    {
      AddCountries(hh.country);
      AddDenials(hh.deny);
      AddSigs(hh.sig);
    }

    method AddCountries(m: map<string, Dim>)
      requires Valid()
      modifies this`country
      ensures Valid()
        && forall k, w :: Pick(GetDim(country, k), w) == Pick(GetDim(old(country), k), w) + Pick(GetDim(m, k), w)
    {
      var todo := m.Keys;
      while todo != {}
        invariant todo <= m.Keys && Valid()
        invariant forall k, w ::
                    Pick(GetDim(country, k), w) == Pick(GetDim(old(country), k), w) + if k in todo then 0
                      else Pick(GetDim(m, k), w)
        decreases |todo|
      {
        var k :| k in todo;
        AddCountry(k, m[k]);
        todo := todo - {k};
      }
    }

    method AddDenials(m: map<string, int>)
      requires Valid()
      modifies this`deny
      ensures Valid() && forall k :: Get(deny, k) == Get(old(deny), k) + Get(m, k)
    {
      var todo := m.Keys;
      while todo != {}
        invariant todo <= m.Keys && Valid()
        invariant forall k :: Get(deny, k) == Get(old(deny), k) + if k in todo then 0 else Get(m, k)
        decreases |todo|
      {
        var k :| k in todo;
        deny := deny[k := Get(deny, k) + m[k]];
        todo := todo - {k};
      }
    }

    method AddSigs(m: map<string, int>)
      requires Valid()
      modifies this`sig
      ensures Valid() && forall k :: Get(sig, k) == Get(old(sig), k) + Get(m, k)
    {
      var todo := m.Keys;
      while todo != {}
        invariant todo <= m.Keys && Valid()
        invariant forall k :: Get(sig, k) == Get(old(sig), k) + if k in todo then 0 else Get(m, k)
        decreases |todo|
      {
        var k :| k in todo;
        AddSig(k, m[k]);
        todo := todo - {k};
      }
    }

    method AddRow(r: Row)
      requires Valid()
      modifies this
      ensures Valid() && forall q :: Value(q) == old(Value(q)) + RowAdds(geo, r, q)
    {
      var at, host := 3600 * r.hour, r.agg.host;
      match r.kind {
        case Total => AddMinute(host, at, seq(FIELDS, f => Amount(r, f)));
        case Status => AddStatus(r);
        case Latency => AddLatency(r);
        case Country => AddCountry(r.key, Dim(r.n, r.d, r.t));
        case Deny => deny := deny[r.key := Get(deny, r.key) + r.n];
        case Signature =>
          var i := Bar(r.key);
          if i >= 0 {
            if r.key[..i] !in sig { AddSig(r.key[..i], 0); }
          } else {
            AddSig(r.key, r.n);
          }
        case ClientKind =>
      }
    }

    method AddStatus(r: Row)
      requires Valid() && r.kind == Status
      modifies this
      ensures Valid() && forall q :: Value(q) == old(Value(q)) + RowAdds(geo, r, q)
    {
      var f := CLASS + StatusIndex(r.key);
      CountForHost(r.agg.host, f, r.n);
      if r.key == "5xx" { CountInBucket(3600 * r.hour, f, r.n); }
    }

    method AddLatency(r: Row)
      requires Valid() && r.kind == Latency
      modifies this
      ensures Valid() && forall q :: Value(q) == old(Value(q)) + RowAdds(geo, r, q)
    {
      var f := DUR + DurIndex(r.key);
      CountForHost(r.agg.host, f, r.n);
      latency := latency[f := latency[f] + r.n];
      CountInBucket(3600 * r.hour, f, r.n);
    }

    method CountForHost(host: string, f: int, n: int)
      requires Valid() && 0 <= f < FIELDS
      modifies this`byHost
      ensures Valid() && forall q :: Value(q) == old(Value(q)) + if q == HostTotal(host, f) then n else 0
    {
      byHost := byHost[host := HostCounts(host)[f := HostCounts(host)[f] + n]];
    }

    /** Adds to the bucket a time falls in, if it falls in the window. */
    method CountInBucket(at: int, f: int, n: int)
      requires Valid() && 0 <= f < FIELDS
      modifies this`series
      ensures Valid() && forall q :: Value(q) == old(Value(q)) + if InBucket(geo, at, f, q) then n else 0
    {
      IndexInRange(geo, at);
      var i := geo.Index(at);
      if i >= 0 {
        UpdatedSeries(series, i, series[i][f := series[i][f] + n]);
        series := series[i := series[i][f := series[i][f] + n]];
      }
    }
  }

  predicate InBucket(geo: Geometry, at: int, f: int, q: Metric)
    requires geo.bucket > 0
  {
    geo.Index(at) >= 0 && (q == Series(geo.Index(at), f) || (q.SeriesUpTo? && q.f == f && geo.Index(at) <= q.i))
  }
}
