/** A well-formed ClientHello, field by field, and what the parser makes of its bytes. */
module HelloMessage {
  import opened Bytes
  import opened ClientHello
  import opened Wrappers

  datatype Entry = Entry(kind: Byte, name: Bytes)

  datatype Extension = Names(entries: seq<Entry>) | Other(typ: nat, body: Bytes) {
    ghost predicate Valid() {
      && |Content()| < 0x1_0000
      && match this
         case Names(es) => |EntryBytes(es)| < 0x1_0000 && forall e | e in es :: |e.name| < 0x1_0000
         case Other(typ, _) => typ < 0x1_0000 && typ != SERVER_NAME
    }

    function Code(): nat { if Names? then SERVER_NAME else typ }

    function Content(): Bytes {
      if Names? then Vector(PutU16(|EntryBytes(entries)|), EntryBytes(entries), []) else body
    }
  }

  /** `head` is the version and random, 34 bytes; extensions None means the block is absent. */
  datatype Fields = Fields(head: Bytes, session: Bytes, suites: Bytes, compression: Bytes,
                           extensions: Option<seq<Extension>>) {
    ghost predicate Valid() {
      && |head| == 34 && |session| < 0x100 && |suites| < 0x1_0000 && |compression| < 0x100
      && (extensions.Some?
          ==> |ExtensionBytes(extensions.value)| < 0x1_0000 && forall e | e in extensions.value :: e.Valid())
    }

    /** The name the client asks for: the first host name of the first server_name extension. */
    function Asks(): Bytes { if extensions.Some? then FirstServerName(extensions.value) else [] }
  }

  function EntryBytes(es: seq<Entry>): Bytes {
    if es == [] then [] else [es[0].kind] + PutU16(|es[0].name|) + es[0].name + EntryBytes(es[1..])
  }

  function ExtensionBytes(es: seq<Extension>): Bytes {
    if es == [] then []
      else PutU16(es[0].Code()) + PutU16(|es[0].Content()|) + es[0].Content() + ExtensionBytes(es[1..])
  }

  function FirstHost(es: seq<Entry>): Bytes {
    if es == [] then [] else if es[0].kind == 0 then Lower(TrimDot(es[0].name)) else FirstHost(es[1..])
  }

  function FirstServerName(es: seq<Extension>): Bytes {
    if es == [] then [] else if es[0].Names? then FirstHost(es[0].entries) else FirstServerName(es[1..])
  }

  /** A vector behind its length, of one byte or two, and what follows it. */
  function Vector(size: Bytes, v: Bytes, rest: Bytes): Bytes { size + v + rest }

  function BodyBytes(m: Fields): Bytes
    requires |m.session| < 0x100 && |m.compression| < 0x100
  {
    m.head + AfterHead(m)
  }

  function AfterHead(m: Fields): Bytes
    requires |m.session| < 0x100 && |m.compression| < 0x100
  {
    Vector([|m.session|], m.session,
           Vector(PutU16(|m.suites|), m.suites,
                  Vector([|m.compression|], m.compression, Block(m.extensions))))
  }

  function Block(extensions: Option<seq<Extension>>): Bytes {
    if extensions.None? then []
    else
      var exts := ExtensionBytes(extensions.value);
      Vector(PutU16(|exts|), exts, [])
  }

  /** The handshake header: message type and 24-bit length. */
  function Header(n: nat): Bytes {
    [CLIENT_HELLO, n / 0x1_0000 % 0x100] + PutU16(n)
  }

  lemma {:induction false} EntriesRead(es: seq<Entry>)
    requires forall e | e in es :: |e.name| < 0x1_0000
    ensures HostName(EntryBytes(es)) == Found(FirstHost(es))
  {
    if es != [] {
      EntriesRead(es[1..]);
      ReadBackU16(|es[0].name|);
      EntryRead(es[0].kind, PutU16(|es[0].name|), es[0].name, EntryBytes(es[1..]));
    }
  }

  lemma EntryRead(kind: Byte, size: Bytes, name: Bytes, rest: Bytes)
    requires |size| == 2 && U16(size) == |name|
    ensures HostName([kind] + size + name + rest) == if kind == 0 then Found(Lower(TrimDot(name))) else HostName(rest)
  {
    var b := [kind] + size + name + rest;
    assert b[1..3] == size && b[3..3 + |name|] == name && b[3 + |name|..] == rest;
  }

  /** A server_name body holding these entries, behind their size, names the first host_name among
      them. */
  lemma ServerNameRead(es: seq<Entry>, size: Bytes)
    requires (forall e | e in es :: |e.name| < 0x1_0000) && |size| == 2 && U16(size) == |EntryBytes(es)|
    ensures ServerName(Vector(size, EntryBytes(es), [])) == Found(FirstHost(es))
  {
    EntriesRead(es);
    NameListRead(size, EntryBytes(es));
  }

  lemma NameListRead(size: Bytes, list: Bytes)
    requires |size| == 2 && U16(size) == |list|
    ensures ServerName(Vector(size, list, [])) == HostName(list)
  {
    var b := Vector(size, list, []);
    assert b[..2] == size && b[2..2 + |list|] == list;
  }

  lemma {:induction false} ExtensionsRead(es: seq<Extension>)
    requires forall e | e in es :: e.Valid()
    ensures Extensions(ExtensionBytes(es)) == Found(FirstServerName(es))
  {
    if es != [] {
      var e := es[0];
      assert e in es && e.Valid();
      ExtensionsRead(es[1..]);
      OneExtensionRead(e, ExtensionBytes(es[1..]));
    }
  }

  lemma NamesRead(e: Extension)
    requires e.Valid() && e.Names?
    ensures ServerName(e.Content()) == Found(FirstHost(e.entries))
  {
    ReadBackU16(|EntryBytes(e.entries)|);
    ServerNameRead(e.entries, PutU16(|EntryBytes(e.entries)|));
  }

  lemma OneExtensionRead(e: Extension, rest: Bytes)
    requires e.Valid()
    ensures Extensions(PutU16(e.Code()) + PutU16(|e.Content()|) + e.Content() + rest)
      == if e.Names? then Found(FirstHost(e.entries)) else Extensions(rest)
  {
    ReadBackU16(e.Code());
    ReadBackU16(|e.Content()|);
    ExtensionRead(PutU16(e.Code()), PutU16(|e.Content()|), e.Content(), rest);
    if e.Names? { NamesRead(e); }
  }

  lemma ExtensionRead(typ: Bytes, size: Bytes, body: Bytes, rest: Bytes)
    requires |typ| == |size| == 2 && U16(size) == |body|
    ensures Extensions(typ + size + body + rest) == if U16(typ) == SERVER_NAME then ServerName(body)
      else Extensions(rest)
  {
    var b := typ + size + body + rest;
    assert b[..2] == typ && b[2..4] == size && b[4..4 + |body|] == body && b[4 + |body|..] == rest;
  }

  lemma SkipOne(size: Bytes, v: Bytes, rest: Bytes)
    requires |size| == 1 && size[0] == |v|
    ensures Skip(Vector(size, v, rest), 1) == Ok(rest)
  {
    assert Vector(size, v, rest)[1 + |v|..] == rest;
  }

  lemma SkipTwo(size: Bytes, v: Bytes, rest: Bytes)
    requires |size| == 2 && U16(size) == |v|
    ensures Skip(Vector(size, v, rest), 2) == Ok(rest)
  {
    var b := Vector(size, v, rest);
    assert b[..2] == size && b[2 + |v|..] == rest;
  }

  lemma BlockRead(size: Bytes, block: Bytes)
    requires |size| == 2 && U16(size) == |block|
    ensures ExtensionBlock(Vector(size, block, [])) == Extensions(block)
  {
    var b := Vector(size, block, []);
    assert b[..2] == size && b[2..2 + |block|] == block;
  }

  lemma AfterHeadRead(m: Fields) returns (s: Bytes, c: Bytes)
    requires m.Valid()
    ensures Skip(AfterHead(m), 1) == Ok(s) && Skip(s, 2) == Ok(c) && Skip(c, 1) == Ok(Block(m.extensions))
  {
    ReadBackU16(|m.suites|);
    s, c := SkipsAll([|m.session|], m.session, PutU16(|m.suites|), m.suites, [|m.compression|], m.compression,
                     Block(m.extensions));
  }

  lemma SkipsAll(n1: Bytes, v1: Bytes, n2: Bytes, v2: Bytes, n3: Bytes, v3: Bytes, x: Bytes)
    returns (s: Bytes, c: Bytes)
    requires |n1| == |n3| == 1 && |n2| == 2
    requires n1[0] == |v1| && U16(n2) == |v2| && n3[0] == |v3|
    ensures c == Vector(n3, v3, x) && s == Vector(n2, v2, c)
    ensures Skip(Vector(n1, v1, s), 1) == Ok(s) && Skip(s, 2) == Ok(c) && Skip(c, 1) == Ok(x)
  {
    c := Vector(n3, v3, x);
    s := Vector(n2, v2, c);
    SkipOne(n1, v1, s);
    SkipTwo(n2, v2, c);
    SkipOne(n3, v3, x);
  }

  lemma BlockIsRead(extensions: Option<seq<Extension>>)
    requires extensions.Some?
      ==> |ExtensionBytes(extensions.value)| < 0x1_0000 && forall e | e in extensions.value :: e.Valid()
    ensures ExtensionBlock(Block(extensions))
      == Found(if extensions.Some? then FirstServerName(extensions.value) else [])
  {
    if extensions.Some? {
      var exts := ExtensionBytes(extensions.value);
      ReadBackU16(|exts|);
      BlockRead(PutU16(|exts|), exts);
      ExtensionsRead(extensions.value);
    }
  }

  lemma BodyRead(m: Fields)
    requires m.Valid()
    ensures Body(BodyBytes(m)) == Found(m.Asks())
  {
    var s, c := AfterHeadRead(m);
    BlockIsRead(m.extensions);
    BodyChain(m.head, AfterHead(m), s, c, Block(m.extensions));
  }

  lemma BodyChain(head: Bytes, b: Bytes, s: Bytes, c: Bytes, block: Bytes)
    requires |head| == 34 && Skip(b, 1) == Ok(s) && Skip(s, 2) == Ok(c) && Skip(c, 1) == Ok(block)
    ensures Body(head + b) == ExtensionBlock(block)
  {
    assert (head + b)[34..] == b;
  }

  lemma HeaderRead(n: nat)
    requires n < 0x1_0000
    ensures |Header(n)| == 4 && Header(n)[0] == CLIENT_HELLO && Length(Header(n)) == n
  {
    assert Header(n)[2..4] == PutU16(n);
    ReadBackU16(n);
  }

  lemma FramedRead(header: Bytes, body: Bytes, more: Bytes)
    requires |header| == 4 && header[0] == CLIENT_HELLO && Length(header) == |body| <= MAX_HELLO
    ensures Hello(Vector(header, body, more)) == Body(body)
  {
    var hs := Vector(header, body, more);
    assert hs[2..4] == header[2..4] && hs[4..4 + |body|] == body;
  }

  /** The bytes of a well-formed hello parse to the name it asks for, whatever follows them. */
  lemma HelloRead(m: Fields, more: Bytes)
    requires m.Valid() && |BodyBytes(m)| <= MAX_HELLO
    ensures Hello(Vector(Header(|BodyBytes(m)|), BodyBytes(m), more)) == Found(m.Asks())
  {
    BodyRead(m);
    HeaderRead(|BodyBytes(m)|);
    FramedRead(Header(|BodyBytes(m)|), BodyBytes(m), more);
  }

  // ----- hellos the reassembly refuses -----

  function Zeros(n: nat): (b: Bytes)
    ensures |b| == n
  {
    seq(n, _ => 0)
  }

  /** A hello whose body has n bytes: no session, no suites, and a padding extension. */
  function Padded(n: nat): Fields
    requires n >= 44
  {
    Fields(Zeros(34), [], [], [], Some([Other(21, Zeros(n - 44))]))
  }

  lemma PaddedValid(n: nat)
    requires 44 <= n <= MAX_HELLO
    ensures Padded(n).Valid() && |BodyBytes(Padded(n))| == n
  {
    var e := Other(21, Zeros(n - 44));
    assert e.Valid() && [e][1..] == [];
    assert ExtensionBytes([e]) == PutU16(21) + PutU16(n - 44) + Zeros(n - 44) + ExtensionBytes([]);
  }

  lemma PaddedHello(n: nat) returns (whole: Bytes)
    requires 44 <= n <= MAX_HELLO
    ensures |whole| == 4 + n && Length(whole) == n && Hello(whole) == Found(Padded(n).Asks())
  {
    var m := Padded(n);
    PaddedValid(n);
    whole := Framed(m);
  }

  lemma Framed(m: Fields) returns (whole: Bytes)
    requires m.Valid() && |BodyBytes(m)| <= MAX_HELLO
    ensures |whole| == 4 + |BodyBytes(m)| && Length(whole) == |BodyBytes(m)| && Hello(whole) == Found(m.Asks())
  {
    var header, body := Header(|BodyBytes(m)|), BodyBytes(m);
    HelloRead(m, []);
    HeaderRead(|body|);
    FramedLength(header, body);
    whole := Vector(header, body, []);
  }

  lemma FramedLength(header: Bytes, body: Bytes)
    requires |header| == 4
    ensures |Vector(header, body, [])| == 4 + |body| && Length(Vector(header, body, [])) == Length(header)
  {
    assert Vector(header, body, [])[2..4] == header[2..4];
  }

  /** For each length from 16381 to 16384 there is a well-formed hello that parses when handed over
      whole, and that no stream of records within the raw limit gets accepted. */
  lemma RefusedExample(n: nat) returns (whole: Bytes, fs: seq<Fragment>)
    requires MAX_HELLO - 4 < n <= MAX_HELLO
    ensures Hello(whole) == Found(Padded(n).Asks()) && Length(whole) == n && Payloads(fs) == whole
    ensures |Wires(fs)| <= MAX_RAW && forall f | f in fs :: f.Valid()
    ensures Peek(Hello, Wires(fs), [], []).verdict == Bad(TooLarge)
  {
    whole := PaddedHello(n);
    fs := TwoRecords(whole);
    NeverReassembled(fs, []);
    assert Wires(fs) + [] == Wires(fs);
  }
}
