/** Peeking a TLS ClientHello (RFC 8446 sections 4.1.2 and 5.1, RFC 6066 section 3): the parser,
    the record reader in front of it, and the connection that replays what was read. */
module ClientHello {
  import opened Bytes
  import opened Conn
  import opened Wrappers

  const RECORD_HANDSHAKE := 0x16
  const CLIENT_HELLO := 1
  const SERVER_NAME := 0
  const MAX_RECORD := 16384
  const MAX_HELLO := 16384
  const MAX_RAW := MAX_HELLO + MAX_RECORD

  datatype HelloError = Malformed | TooLarge | NotTls | Closed

  /** More: the message is incomplete. Found: it is complete; the name is "" when it has none. */
  datatype Verdict = More | Found(name: Bytes) | Bad(error: HelloError)

  // ----- what the parser computes -----

  function Skip(b: Bytes, lenBytes: nat): Result<Bytes, HelloError>
    requires lenBytes == 1 || lenBytes == 2
  {
    if |b| < lenBytes then Err(Malformed)
    else
      var n: nat := if lenBytes == 1 then b[0] else U16(b[..2]);
      if |b| < lenBytes + n then Err(Malformed) else Ok(b[lenBytes + n..])
  }

  function HostName(b: Bytes): (v: Verdict)
    ensures v != More
    decreases |b|
  {
    if |b| < 3 then Found([])
    else
      var l := U16(b[1..3]);
      if |b| < 3 + l then Bad(Malformed)
      else if b[0] == 0 then Found(Lower(TrimDot(b[3..3 + l])))
      else HostName(b[3 + l..])
  }

  function ServerName(b: Bytes): Verdict {
    if |b| < 2 || |b| < 2 + U16(b[..2]) then Bad(Malformed)
    else HostName(b[2..2 + U16(b[..2])])
  }

  function Extensions(b: Bytes): (v: Verdict)
    ensures v != More
    decreases |b|
  {
    if |b| < 4 then Found([])
    else
      var l := U16(b[2..4]);
      if |b| < 4 + l then Bad(Malformed)
      else if U16(b[..2]) == SERVER_NAME then ServerName(b[4..4 + l])
      else Extensions(b[4 + l..])
  }

  function ExtensionBlock(b: Bytes): Verdict {
    if |b| < 2 then Found([])
    else if |b| < 2 + U16(b[..2]) then Bad(Malformed)
    else Extensions(b[2..2 + U16(b[..2])])
  }

  function Body(b: Bytes): Verdict {
    if |b| < 34 then Bad(Malformed)
    else
      match Skip(b[34..], 1)
      case Err(e) => Bad(e)
      case Ok(b) =>
        match Skip(b, 2)
        case Err(e) => Bad(e)
        case Ok(b) =>
          match Skip(b, 1)
          case Err(e) => Bad(e)
          case Ok(b) => ExtensionBlock(b)
  }

  function Length(hs: Bytes): nat
    requires |hs| >= 4
  {
    var high: nat := hs[1];
    high * 0x1_0000 + U16(hs[2..4])
  }

  function Hello(hs: Bytes): Verdict {
    if |hs| < 4 then More
    else if hs[0] != CLIENT_HELLO then Bad(Malformed)
    else if Length(hs) > MAX_HELLO then Bad(TooLarge)
    else if |hs| < 4 + Length(hs) then More
    else Body(hs[4..4 + Length(hs)])
  }

  // ----- the parser -----

  method ParseServerName(ext: Bytes) returns (v: Verdict)
    ensures v == ServerName(ext)
  {
    if |ext| < 2 { return Bad(Malformed); }
    var listLen := U16(ext[..2]);
    if |ext| - 2 < listLen { return Bad(Malformed); }
    var b := ext[2..2 + listLen];
    while |b| >= 3
      invariant ServerName(ext) == HostName(b)
    {
      var nameType, l := b[0], U16(b[1..3]);
      b := b[3..];
      if |b| < l { return Bad(Malformed); }
      if nameType == 0 { return Found(Lower(TrimDot(b[..l]))); }
      b := b[l..];
    }
    return Found([]);
  }

  method ParseClientHello(hs: Bytes) returns (v: Verdict)
    ensures v == Hello(hs)
  {
    if |hs| < 4 { return More; }
    if hs[0] != CLIENT_HELLO { return Bad(Malformed); }
    var n := Length(hs);
    if n > MAX_HELLO { return Bad(TooLarge); }
    if |hs| < 4 + n { return More; }
    var b := hs[4..4 + n];
    if |b| < 34 { return Bad(Malformed); }
    var skipped := Skip(b[34..], 1);
    if skipped.Err? { return Bad(skipped.error); }
    skipped := Skip(skipped.value, 2);
    if skipped.Err? { return Bad(skipped.error); }
    skipped := Skip(skipped.value, 1);
    if skipped.Err? { return Bad(skipped.error); }
    b := skipped.value;
    if |b| < 2 { return Found([]); }
    var extLen := U16(b[..2]);
    b := b[2..];
    if |b| < extLen { return Bad(Malformed); }
    b := b[..extLen];
    assert b == skipped.value[2..2 + extLen];
    ghost var verdict := Extensions(b);
    while |b| >= 4
      invariant Extensions(b) == verdict
    {
      var typ, l := U16(b[..2]), U16(b[2..4]);
      assert |b| >= 4 + l ==> b[4..][..l] == b[4..4 + l] && b[4..][l..] == b[4 + l..];
      b := b[4..];
      if |b| < l { return Bad(Malformed); }
      if typ == SERVER_NAME {
        v := ParseServerName(b[..l]);
        return;
      }
      b := b[l..];
    }
    return Found([]);
  }

  // ----- the record reader -----

  datatype Peeked = Peeked(verdict: Verdict, raw: Bytes)

  /** The next record's payload, or what is wrong with it, and the bytes used up; `size` bytes
      were read before it. */
  function NextRecord(stream: Bytes, size: nat): (step: (Result<Bytes, HelloError>, nat))
    ensures step.1 <= |stream|
    ensures step.0.Ok? ==> 0 < |step.0.value| <= MAX_RECORD && step.1 == 5 + |step.0.value|
  {
    if size + 5 > MAX_RAW then (Err(TooLarge), 0)
    else if |stream| < 5 then (Err(Closed), |stream|)
    else
      var n := U16(stream[3..5]);
      if stream[0] != RECORD_HANDSHAKE then (Err(NotTls), 5)
      else if n == 0 || n > MAX_RECORD then (Err(Malformed), 5)
      else if size + 5 + n > MAX_RAW then (Err(TooLarge), 5)
      else if |stream| < 5 + n then (Err(Closed), |stream|)
      else (Ok(stream[5..5 + n]), 5 + n)
  }

  /** What peeking a stream yields, after the records `raw` whose payloads make up `hs`: whole
      records are read until `judge` decides on the payloads so far. */
  function Peek(judge: Bytes -> Verdict, stream: Bytes, raw: Bytes, hs: Bytes): Peeked
    decreases |stream|
  {
    var (payload, used) := NextRecord(stream, |raw|);
    if payload.Err? then Peeked(Bad(payload.error), raw + stream[..used])
    else if |hs + payload.value| > MAX_HELLO then Peeked(Bad(TooLarge), raw + stream[..used])
    else if judge(hs + payload.value) == More then Peek(judge, stream[used..], raw + stream[..used], hs + payload.value)
    else Peeked(judge(hs + payload.value), raw + stream[..used])
  }

  /** Reads until buf holds n bytes, never past them. */
  method ReadUpTo(c: Conn, buf: Bytes, n: nat) returns (out: Bytes, error: Result<(), HelloError>)
    requires c.Valid()
    modifies c
    ensures c.Valid()
    ensures out + c.Rest() == buf + old(c.Rest())
    ensures n > MAX_RAW ==> out == buf && error == Err(TooLarge)
    ensures n <= MAX_RAW ==> error == if |buf| + |old(c.Rest())| >= n then Ok(()) else Err(Closed)
    ensures error.Ok? ==> |out| == if n > |buf| then n else |buf|
    ensures error == Err(Closed) ==> c.Rest() == []
  {
    if n > MAX_RAW { return buf, Err(TooLarge); }
    out := buf;
    while |out| < n
      invariant c.Valid() && out + c.Rest() == buf + old(c.Rest())
      invariant |buf| <= |out| && (|out| <= n || out == buf)
      decreases n - |out|
    {
      var data, closed := c.Read(n - |out|);
      if closed { return out, Err(Closed); }
      out := out + data;
    }
    return out, Ok(());
  }

  lemma TakeOf(a: Bytes, b: Bytes, out: Bytes, rest: Bytes)
    requires out + rest == a + b && |out| >= |a|
    ensures out == a + b[..|out| - |a|] && rest == b[|out| - |a|..]
  {
    var n := |out| - |a|;
    assert out == (out + rest)[..|out|] == a + b[..n];
    assert rest == (out + rest)[|out|..] == b[n..];
  }

  method ReadRecord(c: Conn, raw: Bytes) returns (out: Bytes, payload: Result<Bytes, HelloError>)
    requires c.Valid()
    modifies c
    ensures c.Valid()
    ensures var (p, used) := NextRecord(old(c.Rest()), |raw|);
      payload == p && out == raw + old(c.Rest())[..used] && c.Rest() == old(c.Rest())[used..]
    ensures out + c.Rest() == raw + old(c.Rest())
    ensures payload.Ok? ==> |c.Rest()| < |old(c.Rest())|
  {
    ghost var stream := c.Rest();
    var error;
    out, error := ReadUpTo(c, raw, |raw| + 5);
    TakeOf(raw, stream, out, c.Rest());
    if error.Err? { return out, Err(error.error); }
    var rec := out[|out| - 5..];
    assert rec == stream[..5];
    assert rec[3..5] == stream[3..5];
    if rec[0] != RECORD_HANDSHAKE { return out, Err(NotTls); }
    var n := U16(rec[3..5]);
    if n == 0 || n > MAX_RECORD { return out, Err(Malformed); }
    out, error := ReadUpTo(c, out, |out| + n);
    TakeOf(raw, stream, out, c.Rest());
    if error.Err? { return out, Err(error.error); }
    assert out[|out| - n..] == stream[5..5 + n];
    return out, Ok(out[|out| - n..]);
  }

  method PeekClientHello(c: Conn) returns (res: Peeked)
    requires c.Valid()
    modifies c
    ensures c.Valid() && res == Peek(Hello, old(c.Rest()), [], [])
    ensures res.raw + c.Rest() == old(c.Rest())
  {
    var raw, hs: Bytes := [], [];
    ghost var judge: Bytes -> Verdict := Hello;
    ghost var all := c.Rest();
    while true
      invariant c.Valid() && raw + c.Rest() == all
      invariant Peek(judge, c.Rest(), raw, hs) == Peek(judge, all, [], [])
      decreases |c.Rest()|
    {
      ghost var stream, before := c.Rest(), raw;
      var payload;
      raw, payload := ReadRecord(c, raw);
      PeekUnrolled(judge, stream, before, hs, payload, raw, c.Rest());
      if payload.Err? { return Peeked(Bad(payload.error), raw); }
      hs := hs + payload.value;
      if |hs| > MAX_HELLO { return Peeked(Bad(TooLarge), raw); }
      var v := ParseClientHello(hs);
      assert v == judge(hs);
      if v != More { return Peeked(v, raw); }
    }
  }

  lemma PeekUnrolled(judge: Bytes -> Verdict, stream: Bytes, raw: Bytes, hs: Bytes,
                     payload: Result<Bytes, HelloError>, out: Bytes, rest: Bytes)
    requires var (p, used) := NextRecord(stream, |raw|);
      payload == p && out == raw + stream[..used] && rest == stream[used..]
    ensures Peek(judge, stream, raw, hs) ==
      if payload.Err? then Peeked(Bad(payload.error), out)
      else if |hs + payload.value| > MAX_HELLO then Peeked(Bad(TooLarge), out)
      else if judge(hs + payload.value) == More then Peek(judge, rest, out, hs + payload.value)
      else Peeked(judge(hs + payload.value), out)
  {
  }

  // ----- main results -----

  /** Once the message is judged, appended bytes change nothing. */
  lemma HelloStable(hs: Bytes, more: Bytes)
    requires Hello(hs) != More
    ensures Hello(hs + more) == Hello(hs)
  {
    assert (hs + more)[2..4] == hs[2..4];
    if hs[0] == CLIENT_HELLO && Length(hs) <= MAX_HELLO {
      assert (hs + more)[4..4 + Length(hs)] == hs[4..4 + Length(hs)];
    }
  }

  /** One handshake record: any version bytes, a non-empty payload of at most 16384 bytes. */
  datatype Fragment = Fragment(major: Byte, minor: Byte, payload: Bytes) {
    predicate Valid() { 0 < |payload| <= MAX_RECORD }

    function Wire(): Bytes { [RECORD_HANDSHAKE, major, minor] + PutU16(|payload|) + payload }
  }

  function Wires(fs: seq<Fragment>): Bytes {
    if fs == [] then [] else fs[0].Wire() + Wires(fs[1..])
  }

  function Payloads(fs: seq<Fragment>): Bytes {
    if fs == [] then [] else fs[0].payload + Payloads(fs[1..])
  }

  lemma RecordRead(f: Fragment, tail: Bytes, size: nat)
    requires f.Valid() && size + |f.Wire()| <= MAX_RAW
    ensures NextRecord(f.Wire() + tail, size) == (Ok(f.payload), |f.Wire()|)
  {
    var stream := f.Wire() + tail;
    assert stream[3..5] == PutU16(|f.payload|);
    ReadBackU16(|f.payload|);
    assert stream[5..5 + |f.payload|] == f.payload;
  }

  /** A judge that keeps its verdict when bytes are appended. */
  ghost predicate Stable(judge: Bytes -> Verdict) {
    forall hs, more :: judge(hs) != More ==> judge(hs + more) == judge(hs)
  }

  /** However the handshake bytes are cut into records, peeking gives the verdict of the whole
      message, consumes whole records only, and stops at the first record that decides it. */
  lemma {:induction false} AnyFragmentation(judge: Bytes -> Verdict, fs: seq<Fragment>, tail: Bytes, raw: Bytes,
                                            hs: Bytes)
    returns (k: nat)
    requires Stable(judge) && forall f | f in fs :: f.Valid()
    requires judge(hs) == More && judge(hs + Payloads(fs)) != More
    requires |hs + Payloads(fs)| <= MAX_HELLO && |raw + Wires(fs)| <= MAX_RAW
    ensures k <= |fs| && judge(hs + Payloads(fs[..k])) != More
    ensures forall j | 0 <= j < k :: judge(hs + Payloads(fs[..j])) == More
    ensures Peek(judge, Wires(fs) + tail, raw, hs) == Peeked(judge(hs + Payloads(fs)), raw + Wires(fs[..k]))
    decreases |fs|
  {
    FirstFragment(fs, tail, raw, hs);
    if fs != [] {
      var f, rest := fs[0], Wires(fs[1..]) + tail;
      RecordStep(judge, f, Wires(fs) + tail, rest, raw, hs);
      if judge(hs + f.payload) == More {
        k := AnyFragmentation(judge, fs[1..], tail, raw + f.Wire(), hs + f.payload);
        forall j | 0 < j <= k + 1 ensures hs + Payloads(fs[..j]) == hs + f.payload + Payloads(fs[1..][..j - 1]) {
          FirstPayloads(fs, j, hs);
        }
        k := k + 1;
        FirstWires(fs, k, raw);
      } else {
        k := 1;
        FirstWires(fs, 1, raw);
        FirstPayloads(fs, 1, hs);
      }
      assert hs + Payloads(fs[..0]) == hs;
    }
  }

  lemma FirstFragment(fs: seq<Fragment>, tail: Bytes, raw: Bytes, hs: Bytes)
    ensures fs == [] ==> hs + Payloads(fs) == hs
    ensures fs != [] ==>
      && Wires(fs) + tail == fs[0].Wire() + (Wires(fs[1..]) + tail)
      && raw + Wires(fs) == raw + fs[0].Wire() + Wires(fs[1..])
      && hs + Payloads(fs) == hs + fs[0].payload + Payloads(fs[1..])
  {
  }

  lemma FirstWires(fs: seq<Fragment>, k: nat, raw: Bytes)
    requires 0 < k <= |fs|
    ensures raw + Wires(fs[..k]) == raw + fs[0].Wire() + Wires(fs[1..][..k - 1])
    ensures k == 1 ==> raw + Wires(fs[..k]) == raw + fs[0].Wire()
  {
    assert fs[..k][1..] == fs[1..][..k - 1];
  }

  lemma FirstPayloads(fs: seq<Fragment>, k: nat, hs: Bytes)
    requires 0 < k <= |fs|
    ensures hs + Payloads(fs[..k]) == hs + fs[0].payload + Payloads(fs[1..][..k - 1])
    ensures k == 1 ==> hs + Payloads(fs[..k]) == hs + fs[0].payload
  {
    assert fs[..k][1..] == fs[1..][..k - 1];
  }

  lemma RecordStep(judge: Bytes -> Verdict, f: Fragment, stream: Bytes, rest: Bytes, raw: Bytes, hs: Bytes)
    requires f.Valid() && |raw + f.Wire()| <= MAX_RAW && stream == f.Wire() + rest
    ensures var (raw2, hs2) := (raw + f.Wire(), hs + f.payload);
      Peek(judge, stream, raw, hs) ==
        if |hs2| > MAX_HELLO then Peeked(Bad(TooLarge), raw2)
        else if judge(hs2) == More then Peek(judge, rest, raw2, hs2) else Peeked(judge(hs2), raw2)
  {
    RecordRead(f, rest, |raw|);
    assert stream[..|f.Wire()|] == f.Wire() && stream[|f.Wire()|..] == rest;
  }

  lemma HelloIsStable()
    ensures Stable(Hello)
  {
    forall hs, more | Hello(hs) != More ensures Hello(hs + more) == Hello(hs) {
      HelloStable(hs, more);
    }
  }

  /** Two ways of cutting the same handshake bytes give the same verdict, whatever follows. */
  lemma FragmentationIndependent(fs: seq<Fragment>, gs: seq<Fragment>, t: Bytes, u: Bytes)
    requires forall f | f in fs :: f.Valid()
    requires forall g | g in gs :: g.Valid()
    requires Payloads(fs) == Payloads(gs) && Hello(Payloads(fs)) != More && |Payloads(fs)| <= MAX_HELLO
    requires |Wires(fs)| <= MAX_RAW && |Wires(gs)| <= MAX_RAW
    ensures Peek(Hello, Wires(fs) + t, [], []).verdict == Peek(Hello, Wires(gs) + u, [], []).verdict
      == Hello(Payloads(fs))
  {
    HelloIsStable();
    assert [] + Payloads(fs) == Payloads(fs) && [] + Wires(fs) == Wires(fs) && [] + Wires(gs) == Wires(gs);
    var k := AnyFragmentation(Hello, fs, t, [], []);
    var m := AnyFragmentation(Hello, gs, u, [], []);
  }

  /** A peeked name always comes from whole handshake records at the front of the stream: they are
      exactly the raw bytes, the message is complete in them and was not before the last, and it is
      at most 16384 bytes, its header included. */
  lemma {:induction false} FoundIsWhole(judge: Bytes -> Verdict, stream: Bytes, raw: Bytes, hs: Bytes)
    returns (fs: seq<Fragment>)
    requires Peek(judge, stream, raw, hs).verdict.Found?
    ensures forall f | f in fs :: f.Valid()
    ensures Wires(fs) <= stream && Peek(judge, stream, raw, hs) == Peeked(judge(hs + Payloads(fs)), raw + Wires(fs))
    ensures |hs + Payloads(fs)| <= MAX_HELLO && |raw + Wires(fs)| <= MAX_RAW
    ensures forall k | 0 < k < |fs| :: judge(hs + Payloads(fs[..k])) == More
    decreases |stream|
  {
    var f := RecordOf(stream, |raw|);
    var rest := stream[|f.Wire()|..];
    assert stream == f.Wire() + rest;
    RecordStep(judge, f, stream, rest, raw, hs);
    if judge(hs + f.payload) == More {
      var more := FoundIsWhole(judge, rest, raw + f.Wire(), hs + f.payload);
      fs := [f] + more;
      assert fs[1..] == more;
      Prepended(f, more, rest, raw, hs);
      forall k | 0 < k < |fs| ensures judge(hs + Payloads(fs[..k])) == More {
        Prepended(f, more[..k - 1], rest, raw, hs);
        assert fs[..k] == [f] + more[..k - 1];
        if k == 1 { assert hs + f.payload + Payloads([]) == hs + f.payload; }
      }
    } else {
      fs := [f];
      Prepended(f, [], rest, raw, hs);
      assert [f] + [] == [f] && hs + f.payload + [] == hs + f.payload && raw + f.Wire() + [] == raw + f.Wire();
    }
  }

  lemma Prepended(f: Fragment, more: seq<Fragment>, rest: Bytes, raw: Bytes, hs: Bytes)
    ensures raw + Wires([f] + more) == raw + f.Wire() + Wires(more)
    ensures hs + Payloads([f] + more) == hs + f.payload + Payloads(more)
    ensures Wires(more) <= rest ==> Wires([f] + more) <= f.Wire() + rest
  {
    assert ([f] + more)[1..] == more;
  }

  lemma RecordOf(stream: Bytes, size: nat) returns (f: Fragment)
    requires NextRecord(stream, size).0.Ok?
    ensures f.Valid() && f.Wire() <= stream && size + |f.Wire()| <= MAX_RAW
      && f.payload == NextRecord(stream, size).0.value
  {
    var n := U16(stream[3..5]);
    f := Fragment(stream[1], stream[2], stream[5..5 + n]);
    U16Back(stream[3..5]);
    assert stream[..5 + n] == [RECORD_HANDSHAKE, stream[1], stream[2]] + stream[3..5] + stream[5..5 + n];
  }

  lemma U16Back(b: Bytes)
    requires |b| == 2
    ensures PutU16(U16(b)) == b
  {
  }

  /** The records through the one that completes a message: peeking them gives the message's verdict
      iff their payloads hold at most 16384 bytes, the message's header included; past that the
      message is too large. */
  lemma {:induction false} PeekedIff(judge: Bytes -> Verdict, fs: seq<Fragment>, tail: Bytes, raw: Bytes, hs: Bytes)
    requires (forall f | f in fs :: f.Valid()) && |raw + Wires(fs)| <= MAX_RAW && fs != []
    requires (forall j | 0 <= j < |fs| :: judge(hs + Payloads(fs[..j])) == More) && judge(hs + Payloads(fs)) != More
    ensures Peek(judge, Wires(fs) + tail, raw, hs).verdict
      == if |hs + Payloads(fs)| <= MAX_HELLO then judge(hs + Payloads(fs)) else Bad(TooLarge)
    decreases |fs|
  {
    var f, rest := fs[0], Wires(fs[1..]) + tail;
    FirstFragment(fs, tail, raw, hs);
    RecordStep(judge, f, Wires(fs) + tail, rest, raw, hs);
    if |fs| > 1 {
      Undecided(judge, fs, hs);
      if |hs + f.payload| <= MAX_HELLO { PeekedIff(judge, fs[1..], tail, raw + f.Wire(), hs + f.payload); }
    } else {
      assert fs[1..] == [] && hs + f.payload + [] == hs + f.payload;
    }
  }

  lemma Undecided(judge: Bytes -> Verdict, fs: seq<Fragment>, hs: Bytes)
    requires |fs| > 1 && forall j | 0 <= j < |fs| :: judge(hs + Payloads(fs[..j])) == More
    ensures judge(hs + fs[0].payload) == More
    ensures forall j | 0 <= j < |fs[1..]| :: judge(hs + fs[0].payload + Payloads(fs[1..][..j])) == More
  {
    forall j | 0 <= j < |fs[1..]| ensures judge(hs + fs[0].payload + Payloads(fs[1..][..j])) == More {
      FirstPayloads(fs, j + 1, hs);
      assert judge(hs + Payloads(fs[..j + 1])) == More;
    }
    FirstPayloads(fs, 1, hs);
    assert judge(hs + Payloads(fs[..1])) == More;
  }

  lemma ShortIsMore(whole: Bytes, n: nat)
    requires Hello(whole).Found? && n < |whole| == 4 + Length(whole)
    ensures Hello(whole[..n]) == More
  {
    if n >= 4 { assert whole[..n][2..4] == whole[2..4]; }
  }

  lemma {:induction false} Shorter(fs: seq<Fragment>, j: nat)
    requires j < |fs| && forall f | f in fs :: f.Valid()
    ensures |Payloads(fs[..j])| < |Payloads(fs)| && Payloads(fs[..j]) == Payloads(fs)[..|Payloads(fs[..j])|]
  {
    assert fs[0] in fs && fs[0].payload != [];
    if j == 0 {
      assert fs[..j] == [];
    } else {
      var rest, front := Payloads(fs[1..]), Payloads(fs[1..][..j - 1]);
      Shorter(fs[1..], j - 1);
      assert fs[..j][1..] == fs[1..][..j - 1];
      assert (fs[0].payload + rest)[..|fs[0].payload + front|] == fs[0].payload + rest[..|front|];
    }
  }

  lemma TwoRecords(whole: Bytes) returns (fs: seq<Fragment>)
    requires MAX_RECORD < |whole| <= MAX_RECORD + 4
    ensures (forall f | f in fs :: f.Valid()) && Payloads(fs) == whole && |Wires(fs)| <= MAX_RAW
  {
    var first, second := Fragment(3, 1, whole[..MAX_RECORD]), Fragment(3, 1, whole[MAX_RECORD..]);
    fs := [first, second];
    assert fs[1..] == [second] && [second][1..] == [];
    assert Payloads([second]) == second.payload + Payloads([]) && Wires([second]) == second.Wire() + Wires([]);
    assert whole == whole[..MAX_RECORD] + (whole[MAX_RECORD..] + []);
    assert Wires(fs) == first.Wire() + (second.Wire() + []);
  }

  /** The peeker's own limit is four bytes tighter than the parser's: a whole hello that parses, cut into
      records however, is accepted iff it announces at most 16380 bytes. */
  lemma WholePeekedIff(fs: seq<Fragment>, tail: Bytes)
    requires (forall f | f in fs :: f.Valid()) && |Wires(fs)| <= MAX_RAW
    requires Hello(Payloads(fs)).Found? && |Payloads(fs)| == 4 + Length(Payloads(fs))
    ensures Peek(Hello, Wires(fs) + tail, [], []).verdict
      == if Length(Payloads(fs)) <= MAX_HELLO - 4 then Hello(Payloads(fs)) else Bad(TooLarge)
  {
    var whole := Payloads(fs);
    forall j | 0 <= j < |fs| ensures Hello([] + Payloads(fs[..j])) == More {
      Shorter(fs, j);
      ShortIsMore(whole, |Payloads(fs[..j])|);
      assert [] + Payloads(fs[..j]) == Payloads(fs[..j]);
    }
    assert [] + whole == whole && [] + Wires(fs) == Wires(fs);
    PeekedIff(Hello, fs, tail, [], []);
  }

  lemma NeverReassembled(fs: seq<Fragment>, tail: Bytes)
    requires (forall f | f in fs :: f.Valid()) && |Wires(fs)| <= MAX_RAW
    requires Hello(Payloads(fs)).Found? && |Payloads(fs)| == 4 + Length(Payloads(fs)) > MAX_HELLO
    ensures Peek(Hello, Wires(fs) + tail, [], []).verdict == Bad(TooLarge)
  {
    WholePeekedIff(fs, tail);
  }

  /** No stream gets a hello that announces more accepted. */
  lemma LargestAccepted(stream: Bytes)
    requires Peek(Hello, stream, [], []).verdict.Found?
    ensures exists fs: seq<Fragment> ::
              && Wires(fs) <= stream && Peek(Hello, stream, [], []) == Peeked(Hello(Payloads(fs)), Wires(fs))
              && 4 <= |Payloads(fs)| && Length(Payloads(fs)) <= MAX_HELLO - 4
  {
    var fs := FoundIsWhole(Hello, stream, [], []);
    assert [] + Payloads(fs) == Payloads(fs) && [] + Wires(fs) == Wires(fs);
  }

  // ----- replaying -----

  /** Hands out the peeked bytes before the socket's. */
  class PrefixConn {
    const conn: Conn
    var prefix: Bytes

    ghost predicate Valid()
      reads this, conn
    {
      conn.Valid()
    }

    ghost function Pending(): Bytes
      reads this, conn
    {
      prefix + conn.Rest()
    }

    constructor (conn: Conn, prefix: Bytes)
      requires conn.Valid()
      ensures Valid() && this.conn == conn && Pending() == prefix + conn.Rest()
    {
      this.conn := conn;
      this.prefix := prefix;
    }

    method Read(max: nat) returns (data: Bytes, closed: bool)
      requires Valid()
      modifies this, conn
      ensures Valid() && old(Pending()) == data + Pending()
      ensures |data| <= max && (closed ==> data == [])
      ensures max > 0 ==> (closed <==> old(Pending()) == []) && (data == [] <==> closed)
      ensures max == 0 ==> !closed
    {
      if |prefix| > 0 {
        var n := if max < |prefix| then max else |prefix|;
        data, closed := prefix[..n], false;
        prefix := prefix[n..];
      } else {
        data, closed := conn.Read(max);
      }
    }
  }

  /** Peek, then hand the connection on: whatever the outcome, the replaying connection delivers
      the original stream byte for byte. */
  method PeekAndReplay(c: Conn) returns (res: Peeked, p: PrefixConn)
    requires c.Valid()
    modifies c
    ensures fresh(p) && p.conn == c && p.Valid()
    ensures res == Peek(Hello, old(c.Rest()), [], []) && p.Pending() == old(c.Rest())
  {
    res := PeekClientHello(c);
    p := new PrefixConn(c, res.raw);
  }
}
