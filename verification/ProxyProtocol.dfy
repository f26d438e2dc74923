/** Accepting PROXY protocol headers (HAProxy PROXY protocol, sections 2.1 and 2.2): a connection
    that strips a trusted peer's header before its first byte of payload. */
module ProxyProtocol {
  import opened Bytes
  import opened Conn
  import opened Network
  import opened Wrappers

  const SIGNATURE: Bytes := [0x0D, 0x0A, 0x0D, 0x0A, 0x00, 0x0D, 0x0A, 0x51, 0x55, 0x49, 0x54, 0x0A]
  const PROXY: Bytes := [0x50, 0x52, 0x4F, 0x58, 0x59]
  const UNKNOWN: Bytes := [0x55, 0x4E, 0x4B, 0x4E, 0x4F, 0x57, 0x4E]
  const TCP4: Bytes := [0x54, 0x43, 0x50, 0x34]
  const TCP6: Bytes := [0x54, 0x43, 0x50, 0x36]
  const SPACE: Byte := 32
  const CR: Byte := 13
  const LF: Byte := 10
  const MAX_V1 := 107
  const MAX_HEADER := 16 + 65535

  /** The library's text parsers, whatever they accept. */
  datatype Text = Text(ip: Bytes -> Option<Bytes>, number: Bytes -> Option<int>)

  datatype Address = Tcp(ip: Bytes, port: nat)

  datatype HeaderError = Closed | TooLong | BadLine | NoLineEnd | BadVersion | BadCommand | BadFamily | Truncated

  /** Passed: `used` bytes are header; no address means the peer's own stands. */
  datatype Outcome = Passed(address: Option<Address>, used: nat) | Refused(error: HeaderError)

  // ----- version 1 -----

  predicate IsV4(ip: Bytes) {
    |ip| == 4 || (|ip| == 16 && (forall i | 0 <= i < 10 :: ip[i] == 0) && ip[10] == 0xFF && ip[11] == 0xFF)
  }

  predicate IsPort(t: Text, s: Bytes) {
    t.number(s).Some? && 0 <= t.number(s).value <= 65535
  }

  function ParseLine(t: Text, line: Bytes): Result<Option<Address>, HeaderError> {
    var f := Split(line, SPACE);
    if |f| < 2 || f[0] != PROXY then Err(BadLine)
    else if f[1] == UNKNOWN then Ok(None)
    else if |f| != 6 || t.ip(f[2]).None? then Err(BadLine)
    else if f[1] == TCP4 && !IsV4(t.ip(f[2]).value) then Err(BadLine)
    else if f[1] == TCP6 && DOT in f[2] then Err(BadLine)
    else if f[1] != TCP4 && f[1] != TCP6 then Err(BadLine)
    else if t.ip(f[3]).None? || !IsPort(t, f[4]) || !IsPort(t, f[5]) then Err(BadLine)
    else Ok(Some(Tcp(t.ip(f[2]).value, t.number(f[4]).value)))
  }

  /** The line that ends with the first CRLF at or after byte n. */
  function V1(t: Text, stream: Bytes, n: nat): Outcome
    requires n >= 2
    decreases MAX_V1 + 1 - n
  {
    if n > MAX_V1 then Refused(NoLineEnd)
    else if |stream| < n then Refused(Closed)
    else if stream[n - 2] != CR || stream[n - 1] != LF then V1(t, stream, n + 1)
    else
      match ParseLine(t, stream[..n - 2])
      case Err(e) => Refused(e)
      case Ok(address) => Passed(address, n)
  }

  // ----- version 2 -----

  function Block(command: nat, family: nat, body: Bytes): Result<Option<Address>, HeaderError> {
    if command == 0 then Ok(None)
    else if command != 1 then Err(BadCommand)
    else if family == 0 then Ok(None)
    else if family == 0x11 || family == 0x12 then
      if |body| < 12 then Err(Truncated) else Ok(Some(Tcp(body[..4], U16(body[8..10]))))
    else if family == 0x21 || family == 0x22 then
      if |body| < 36 then Err(Truncated) else Ok(Some(Tcp(body[..16], U16(body[32..34]))))
    else Err(BadFamily)
  }

  function V2(stream: Bytes): Outcome {
    if |stream| < 16 then Refused(Closed)
    else if stream[12] / 16 != 2 then Refused(BadVersion)
    else
      var n := U16(stream[14..16]);
      if |stream| < 16 + n then Refused(Closed)
      else
        match Block(stream[12] % 16, stream[13], stream[16..16 + n])
        case Err(e) => Refused(e)
        case Ok(address) => Passed(address, 16 + n)
  }

  /** What a stream from a peer begins with. */
  function HeaderOf(t: Text, trusted: bool, stream: Bytes): (o: Outcome)
    ensures o.Passed? ==> o.used <= |stream|
  {
    if !trusted then Passed(None, 0)
    else if |stream| < 12 then Refused(Closed)
    else if stream[..12] == SIGNATURE then V2(stream)
    else if stream[..6] == PROXY + [SPACE] then V1Bound(t, stream, 8); V1(t, stream, 8)
    else Passed(None, 0)
  }

  lemma {:induction false} V1Bound(t: Text, stream: Bytes, n: nat)
    requires n >= 2
    ensures V1(t, stream, n).Passed? ==> V1(t, stream, n).used <= |stream|
    decreases MAX_V1 + 1 - n
  {
    if n <= MAX_V1 { V1Bound(t, stream, n + 1); }
  }

  // ----- the connection -----

  class ProxyConn {
    const conn: Conn
    const peer: Option<IP>
    const trusted: seq<Net>
    const text: Text

    var done: bool
    var err: Option<HeaderError>
    var remote: Option<Address>
    var buf: Bytes

    /** Everything the peer sends, and the payload handed out so far. */
    ghost const stream: Bytes
    ghost var delivered: Bytes

    predicate Trusted() {
      peer.Some? && InNets(peer.value, trusted)
    }

    ghost function Header(): Outcome {
      HeaderOf(text, Trusted(), stream)
    }

    /** A peer no network contains, or without an address, sends payload only; one that some network
        contains is read as a trusted stream. */
    lemma HeaderByPeer()
      ensures peer.None? || (forall n | n in trusted :: !Contains(n, peer.value)) ==> Header() == Passed(None, 0)
      ensures peer.Some? && (exists n | n in trusted :: Contains(n, peer.value))
        ==> Header() == HeaderOf(text, true, stream)
    {
    }

    ghost function Ahead(): Bytes
      reads this, conn
    {
      buf + conn.Rest()
    }

    ghost predicate Valid()
      reads this, conn
    {
      && conn.Valid()
      && (!done ==> delivered == [] && buf == [] && remote == None && err == None && conn.Rest() == stream)
      && (done && Header().Refused? ==> delivered == [] && err == Some(Header().error))
      && (done && Header().Passed? ==> err == None && remote == Header().address
                                       && delivered + Ahead() == stream[Header().used..])
    }

    constructor (conn: Conn, peer: Option<IP>, trusted: seq<Net>, text: Text)
      requires conn.Valid()
      ensures Valid() && !done && stream == conn.Rest() && delivered == []
      ensures this.conn == conn && this.peer == peer && this.trusted == trusted && this.text == text
    {
      this.conn, this.peer, this.trusted, this.text := conn, peer, trusted, text;
      done, err, remote, buf, delivered := false, None, None, [], [];
      stream := conn.Rest();
    }

    /** Reads until buf holds n bytes, never past them. */
    method Fill(n: nat) returns (error: Option<HeaderError>)
      requires conn.Valid()
      modifies this`buf, conn
      ensures conn.Valid() && Ahead() == old(Ahead())
      ensures n > MAX_HEADER ==> error == Some(TooLong)
      ensures n <= MAX_HEADER ==> error == if |Ahead()| >= n then None else Some(Closed)
      ensures error == None ==> |buf| == if n > old(|buf|) then n else old(|buf|)
    {
      if n > MAX_HEADER { return Some(TooLong); }
      while |buf| < n
        invariant conn.Valid() && Ahead() == old(Ahead())
        invariant old(|buf|) <= |buf| && (|buf| <= n || buf == old(buf))
        decreases n - |buf|
      {
        var data, closed := conn.Read(n - |buf|);
        if closed { return Some(Closed); }
        ghost var was, rest := buf, conn.Rest();
        buf := buf + data;
        assert was + (data + rest) == buf + rest;
      }
      return None;
    }

    method ReadV1() returns (error: Option<HeaderError>)
      requires conn.Valid() && Ahead() == stream && |buf| == 12 && remote == None
      modifies this`buf, this`remote, conn
      ensures conn.Valid()
      ensures match V1(text, stream, 8)
        case Refused(e) => error == Some(e)
        case Passed(address, used) =>
          error == None && remote == address && used <= |stream| && Ahead() == stream[used..]
    {
      var n := 8;
      while n <= MAX_V1
        invariant 8 <= n <= MAX_V1 + 1
        invariant conn.Valid() && Ahead() == stream && remote == None
        invariant V1(text, stream, n) == V1(text, stream, 8)
      {
        var filled := Fill(n);
        if filled.Some? { return filled; }
        assert buf[n - 2] == stream[n - 2] && buf[n - 1] == stream[n - 1];
        if buf[n - 2] == CR && buf[n - 1] == LF {
          var line := buf[..n - 2];
          assert line == stream[..n - 2];
          Dropped(buf, conn.Rest(), n);
          buf := buf[n..];
          var address := ParseLine(text, line);
          if address.Err? { return Some(address.error); }
          if address.value.Some? { remote := address.value; }
          return None;
        }
        n := n + 1;
      }
      return Some(NoLineEnd);
    }

    method ReadV2() returns (error: Option<HeaderError>)
      requires conn.Valid() && Ahead() == stream && |buf| == 12 && remote == None
      modifies this`buf, this`remote, conn
      ensures conn.Valid()
      ensures match V2(stream)
        case Refused(e) => error == Some(e)
        case Passed(address, used) =>
          error == None && remote == address && used <= |stream| && Ahead() == stream[used..]
    {
      var filled := Fill(16);
      if filled.Some? { return filled; }
      assert buf == stream[..16];
      var verCmd, family, length := buf[12], buf[13], U16(buf[14..16]);
      assert buf[14..16] == stream[14..16];
      if verCmd / 16 != 2 { return Some(BadVersion); }
      filled := Fill(16 + length);
      if filled.Some? { return filled; }
      assert buf == stream[..16 + length];
      var body := buf[16..16 + length];
      assert body == stream[16..16 + length];
      Dropped(buf, conn.Rest(), 16 + length);
      buf := buf[16 + length..];
      var address := Block(verCmd % 16, family, body);
      if address.Err? { return Some(address.error); }
      if address.value.Some? { remote := address.value; }
      return None;
    }

    method ReadHeader() returns (error: Option<HeaderError>)
      requires conn.Valid() && Ahead() == stream && buf == [] && remote == None
      modifies this`buf, this`remote, conn
      ensures conn.Valid()
      ensures match Header()
        case Refused(e) => error == Some(e)
        case Passed(address, used) => error == None && remote == address && Ahead() == stream[used..]
    {
      if !Trusted() { return None; }
      var filled := Fill(12);
      if filled.Some? { return filled; }
      assert buf == stream[..12] && buf[..6] == stream[..6];
      if buf == SIGNATURE {
        error := ReadV2();
      } else if buf[..6] == PROXY + [SPACE] {
        error := ReadV1();
      } else {
        return None;
      }
    }

    /** Parses the header once; its error is sticky. */
    method EnsureHeader() returns (error: Option<HeaderError>)
      requires Valid()
      modifies this, conn
      ensures Valid() && done && delivered == old(delivered)
      ensures error == match Header() case Refused(e) => Some(e) case Passed(_, _) => None
      ensures peer.None? || (forall n | n in trusted :: !Contains(n, peer.value)) ==> error == None
      ensures peer.Some? && (exists n | n in trusted :: Contains(n, peer.value)) ==>
        error == match HeaderOf(text, true, stream) case Refused(e) => Some(e) case Passed(_, _) => None
    {
      HeaderByPeer();
      if !done {
        var found := ReadHeader();
        err := found;
        done := true;
        assert [] + Ahead() == Ahead();
      }
      return err;
    }

    /** Payload only: what is handed out, then buffered, then still to come is the stream past the
        header. A refused header fails this and every later read. From a peer in none of the trusted
        networks everything is payload; from one in some of them, what follows its header. */
    method Read(max: nat) returns (data: Bytes, closed: bool, error: Option<HeaderError>)
      requires Valid()
      modifies this, conn
      ensures Valid() && delivered == old(delivered) + data && |data| <= max
      ensures peer.None? || (forall n | n in trusted :: !Contains(n, peer.value)) ==>
        && error == None && delivered <= stream
        && (max > 0 ==> (data == [] <==> closed) && (closed <==> old(delivered) == stream))
      ensures peer.Some? && (exists n | n in trusted :: Contains(n, peer.value)) ==>
        match HeaderOf(text, true, stream)
        case Refused(e) => error == Some(e) && data == []
        case Passed(_, used) =>
          && error == None && delivered <= stream[used..]
          && (max > 0 ==> (data == [] <==> closed) && (closed <==> old(delivered) == stream[used..]))
    {
      HeaderByPeer();
      error := EnsureHeader();
      if error.Some? { return [], false, error; }
      ghost var before := Ahead();
      if |buf| > 0 {
        var n := if max < |buf| then max else |buf|;
        data, closed := buf[..n], false;
        buf := buf[n..];
      } else {
        data, closed := conn.Read(max);
      }
      assert before == data + Ahead();
      Regroup(delivered, data, Ahead());
      delivered := delivered + data;
    }

    /** The address a trusted peer's header names; None stands for the peer's own. */
    method RemoteAddress() returns (address: Option<Address>)
      requires Valid()
      modifies this, conn
      ensures Valid() && delivered == old(delivered)
      ensures peer.None? || (forall n | n in trusted :: !Contains(n, peer.value)) ==> address == None
      ensures peer.Some? && (exists n | n in trusted :: Contains(n, peer.value)) ==>
        address == match HeaderOf(text, true, stream) case Refused(_) => None case Passed(a, _) => a
    {
      HeaderByPeer();
      var error := EnsureHeader();
      if error.Some? { return None; }
      return remote;
    }
  }

  lemma Dropped(a: Bytes, b: Bytes, n: nat)
    requires n <= |a|
    ensures (a + b)[n..] == a[n..] + b
  {
  }

  // ----- main results -----

  /** A version 2 header: command, family, and an address block with any TLVs behind it. */
  function V2Header(command: nat, family: Byte, body: Bytes): Bytes
    requires command < 16
  {
    SIGNATURE + [0x20 + command, family] + PutU16(|body|) + body
  }

  function V2Address(family: nat, body: Bytes): Option<Address>
    requires family == 0x11 || family == 0x12 ==> |body| >= 12
    requires family == 0x21 || family == 0x22 ==> |body| >= 36
  {
    if family == 0x11 || family == 0x12 then Some(Tcp(body[..4], U16(body[8..10])))
    else if family == 0x21 || family == 0x22 then Some(Tcp(body[..16], U16(body[32..34])))
    else None
  }

  predicate WellFormedV2(command: nat, family: nat, body: Bytes) {
    && |body| < 0x1_0000
    && (command == 0 ||
        (command == 1
         && (family == 0 || (family in {0x11, 0x12} && |body| >= 12) || (family in {0x21, 0x22} && |body| >= 36))))
  }

  /** A trusted peer's version 2 header is used up exactly, TLVs included, and names the source in
      its block; LOCAL and unspecified headers name none. A malformed one is refused. */
  lemma V2Exact(t: Text, command: nat, family: Byte, body: Bytes, payload: Bytes)
    requires command < 16 && |body| < 0x1_0000
    ensures var o := HeaderOf(t, true, V2Header(command, family, body) + payload);
      if WellFormedV2(command, family, body)
      then o == Passed(if command == 0 then None else V2Address(family, body), |V2Header(command, family, body)|)
      else o.Refused?
  {
    ReadBackU16(|body|);
    V2Framed(t, command, family, PutU16(|body|), body, payload);
  }

  lemma V2Framed(t: Text, command: nat, family: Byte, size: Bytes, body: Bytes, payload: Bytes)
    requires command < 16 && |size| == 2 && U16(size) == |body|
    ensures HeaderOf(t, true, SIGNATURE + [0x20 + command, family] + size + body + payload) ==
      match Block(command, family, body) case Err(e) => Refused(e) case Ok(a) => Passed(a, 16 + |body|)
  {
    var stream := SIGNATURE + [0x20 + command, family] + size + body + payload;
    assert stream[..12] == SIGNATURE && stream[12] == 0x20 + command && stream[13] == family;
    assert stream[14..16] == size && stream[16..16 + |body|] == body;
  }

  /** The text of a version 1 header. */
  function V1Line(fields: seq<Bytes>): Bytes {
    Join([PROXY] + fields, SPACE)
  }

  /** The address is four bytes, or sixteen that map four. */
  predicate FourBytes(ip: Bytes) {
    |ip| == 4 || (|ip| == 16 && ip[..12] == [0, 0, 0, 0, 0, 0, 0, 0, 0, 0, 255, 255])
  }

  lemma FourBytesIff(ip: Bytes)
    ensures IsV4(ip) <==> FourBytes(ip)
  {
    var mapped := [0, 0, 0, 0, 0, 0, 0, 0, 0, 0, 255, 255];
    if |ip| == 16 && ip[..12] == mapped {
      assert forall i | 0 <= i < 12 :: ip[i] == mapped[i];
    }
  }

  /** Protocol, source, destination and two ports of 0 to 65535; TCP4 asks for an IPv4 source and
      TCP6 for one not written with a dot. */
  predicate V1Fields(t: Text, f: seq<Bytes>) {
    && |f| == 5 && t.ip(f[1]).Some? && t.ip(f[2]).Some?
    && t.number(f[3]).Some? && 0 <= t.number(f[3]).value <= 65535
    && t.number(f[4]).Some? && 0 <= t.number(f[4]).value <= 65535
    && ((f[0] == TCP4 && FourBytes(t.ip(f[1]).value)) || (f[0] == TCP6 && DOT !in f[1]))
  }

  /** A bare CR or LF does not end a line. */
  predicate OneLine(line: Bytes) {
    forall i | 0 <= i < |line| - 1 :: line[i] != CR || line[i + 1] != LF
  }

  lemma {:induction false} FirstLineEnd(t: Text, line: Bytes, payload: Bytes, n: nat)
    requires OneLine(line) && 2 <= n <= |line| + 2 <= MAX_V1
    ensures V1(t, line + [CR, LF] + payload, n) ==
      match ParseLine(t, line) case Err(e) => Refused(e) case Ok(a) => Passed(a, |line| + 2)
    decreases |line| + 2 - n
  {
    var stream := line + [CR, LF] + payload;
    if n < |line| + 2 {
      assert stream[n - 2] == line[n - 2] && stream[n - 1] == if n - 1 < |line| then line[n - 1] else CR;
      FirstLineEnd(t, line, payload, n + 1);
    } else {
      assert stream[..n - 2] == line;
    }
  }

  lemma V1LineParses(t: Text, f: seq<Bytes>)
    requires forall p | p in f :: SPACE !in p
    ensures Split(V1Line(f), SPACE) == [PROXY] + f
  {
    SplitJoin([PROXY] + f, SPACE);
  }

  /** A trusted peer's version 1 header is used up exactly, line end included, and its outcome is
      the source its fields name; UNKNOWN names none, whatever else the line says. */
  lemma V1Exact(t: Text, f: seq<Bytes>, payload: Bytes)
    requires |f| >= 1 && (forall p | p in f :: SPACE !in p) && OneLine(V1Line(f)) && |V1Line(f)| <= 105
    requires |V1Line(f)| + 2 + |payload| >= 12
    ensures HeaderOf(t, true, V1Line(f) + [CR, LF] + payload) ==
      if f[0] == UNKNOWN then Passed(None, |V1Line(f)| + 2)
      else if V1Fields(t, f) then Passed(Some(Tcp(t.ip(f[1]).value, t.number(f[3]).value)), |V1Line(f)| + 2)
      else Refused(BadLine)
  {
    V1LineParses(t, f);
    if |f| > 1 && t.ip(f[1]).Some? { FourBytesIff(t.ip(f[1]).value); }
    var line := V1Line(f);
    var stream := line + [CR, LF] + payload;
    assert ([PROXY] + f)[1..] == f;
    assert line == PROXY + [SPACE] + Join(f, SPACE);
    assert stream[..6] == PROXY + [SPACE];
    assert stream[0] == 0x50 && SIGNATURE[0] == 0x0D;
    assert stream[..12] != SIGNATURE;
    FirstLineEnd(t, line, payload, 8);
  }

  /** No line end within 107 bytes. */
  predicate NoEnd(stream: Bytes) {
    forall i | 0 <= i < |stream| - 1 && i < 106 :: stream[i] != CR || stream[i + 1] != LF
  }

  lemma {:induction false} NoEndRefused(t: Text, stream: Bytes, n: nat)
    requires NoEnd(stream) && n >= 2
    ensures V1(t, stream, n) == Refused(if n <= MAX_V1 && |stream| < MAX_V1 then Closed else NoLineEnd)
    decreases MAX_V1 + 1 - n
  {
    if n <= MAX_V1 && |stream| >= n {
      assert stream[n - 2] != CR || stream[n - 2 + 1] != LF;
      NoEndRefused(t, stream, n + 1);
    }
  }

  /** A text header without a line end within 107 bytes is refused: for its length once that many have
      come, and as cut off before. */
  lemma EndlessLineRefused(t: Text, rest: Bytes)
    requires NoEnd(PROXY + [SPACE] + rest)
    ensures HeaderOf(t, true, PROXY + [SPACE] + rest) == Refused(if 6 + |rest| < 107 then Closed else NoLineEnd)
  {
    var stream := PROXY + [SPACE] + rest;
    assert stream[..6] == PROXY + [SPACE];
    if |stream| >= 12 {
      assert stream[0] == 0x50 && SIGNATURE[0] == 0x0D;
      assert stream[..12] != SIGNATURE;
      NoEndRefused(t, stream, 8);
    }
  }

  /** A binary header that ends early is refused as cut off, and one of another version for that. */
  lemma V2Cut(t: Text, command: nat, family: Byte, body: Bytes, k: nat)
    requires command < 16 && |body| < 0x1_0000 && k < |V2Header(command, family, body)|
    ensures HeaderOf(t, true, V2Header(command, family, body)[..k]) == Refused(Closed)
  {
    ReadBackU16(|body|);
    V2CutFramed(t, command, family, PutU16(|body|), body, k);
  }

  lemma V2CutFramed(t: Text, command: nat, family: Byte, size: Bytes, body: Bytes, k: nat)
    requires command < 16 && |size| == 2 && U16(size) == |body| && k < 16 + |body|
    ensures HeaderOf(t, true, (SIGNATURE + [0x20 + command, family] + size + body)[..k]) == Refused(Closed)
  {
    var cut := (SIGNATURE + [0x20 + command, family] + size + body)[..k];
    if k >= 12 { assert cut[..12] == SIGNATURE; }
    if k >= 16 { assert cut[12] == 0x20 + command && cut[14..16] == size; }
  }

  lemma OtherVersion(t: Text, verCmd: Byte, rest: Bytes)
    requires |rest| >= 3 && verCmd / 16 != 2
    ensures HeaderOf(t, true, SIGNATURE + [verCmd] + rest) == Refused(BadVersion)
  {
    var stream := SIGNATURE + [verCmd] + rest;
    assert stream[..12] == SIGNATURE && stream[12] == verCmd;
  }

  /** Nothing is taken from an untrusted peer's stream, nor from that of a trusted peer that sends
      at least twelve bytes with neither preamble. */
  lemma HeaderlessUntouched(t: Text, trusted: bool, stream: Bytes)
    ensures HeaderOf(t, trusted, stream) == Passed(None, 0)
      <==> !trusted || (|stream| >= 12 && stream[..12] != SIGNATURE && stream[..6] != PROXY + [SPACE])
  {
    if trusted && |stream| >= 12 && stream[..12] != SIGNATURE && stream[..6] == PROXY + [SPACE] {
      V1Takes(t, stream, 8);
    }
  }

  lemma {:induction false} V1Takes(t: Text, stream: Bytes, n: nat)
    requires n >= 2
    ensures V1(t, stream, n).Passed? ==> V1(t, stream, n).used >= n
    decreases MAX_V1 + 1 - n
  {
    if n <= MAX_V1 { V1Takes(t, stream, n + 1); }
  }
}
