/** Addresses, networks and the TWO ways the program turns a configured literal into a
    network: compileAccessList builds the rule's network itself, while a middleware's
    allowFrom goes through clientip.ParseNet. */
module Network {
  import opened Wrappers

  /** A client address, with an IPv4-mapped IPv6 address already folded to IPv4 (net.IP.To4). */
  datatype IP = V4(a: nat) | V6(a: nat)

  /** A parsed network; `bits` is the prefix length of its family. */
  datatype Net = Net4(base: nat, bits: nat) | Net6(base: nat, bits: nat)

  /** A bare address literal as written in the configuration. */
  datatype Addr = Addr4(a: nat) | Addr6(a: nat) | Mapped4(a: nat)

  /** A configured cidr string: what net.ParseCIDR accepts, a bare address, or neither. */
  datatype Literal = Prefix(net: Net) | Bare(addr: Addr) | Malformed

  function Pow2(n: nat): (p: nat)
    ensures p > 0
  {
    if n == 0 then 1 else 2 * Pow2(n - 1)
  }

  /** The size of the block a prefix of `bits` out of `width` leaves. */
  function BlockSize(width: nat, bits: nat): (p: nat)
    ensures p > 0
  {
    if bits <= width then Pow2(width - bits) else 1
  }

  predicate Contains(n: Net, ip: IP) {
    match (n, ip)
    case (Net4(b, k), V4(a)) => a / BlockSize(32, k) == b / BlockSize(32, k)
    case (Net6(b, k), V6(a)) => a / BlockSize(128, k) == b / BlockSize(128, k)
    case _ => false
  }

  predicate InNets(ip: IP, nets: seq<Net>) {
    exists n | n in nets :: Contains(n, ip)
  }

  /** The network an access-list rule compiles to. A bare address gets "/32" appended when it
      folds to IPv4 and "/128" otherwise, so an IPv4-MAPPED literal becomes the IPv6 block ::/32. */
  function RuleNet(l: Literal): Option<Net> {
    match l
    case Prefix(n) => Some(n)
    case Bare(Addr4(a)) => Some(Net4(a, 32))
    case Bare(Addr6(a)) => Some(Net6(a, 128))
    case Bare(Mapped4(a)) => Some(Net6(0, 32))
    case Malformed => None
  }

  /** The network clientip.ParseNet reads from the same literal. */
  function ParseNet(l: Literal): Option<Net> {
    match l
    case Prefix(n) => Some(n)
    case Bare(Addr4(a)) => Some(Net4(a, 32))
    case Bare(Addr6(a)) => Some(Net6(a, 128))
    case Bare(Mapped4(a)) => Some(Net4(a, 32))
    case Malformed => None
  }

  predicate IsMapped(l: Literal) {
    l.Bare? && l.addr.Mapped4?
  }

  /** The two readings of a literal agree exactly when it is not a bare IPv4-mapped address. */
  lemma ParsersAgree(l: Literal)
    ensures RuleNet(l) == ParseNet(l) <==> !IsMapped(l)
  {
  }

  function Upper(s: string): (u: string)
    ensures |u| == |s|
  {
    seq(|s|, i requires 0 <= i < |s| => if 'a' <= s[i] <= 'z' then (s[i] as int - 32) as char else s[i])
  }
}
