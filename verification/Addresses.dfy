/** IP addresses as a family and a number, blocks of them, and lists of blocks. Reading an
    address or a number out of text is library work, so both readers are parameters. */
module Addresses {
  import opened Strings
  import opened Options

  datatype Family = V4 | V6

  datatype Address = Address(family: Family, bits: nat)

  /** The library's address parser and its number parser. */
  datatype Readers = Readers(address: string -> Option<Address>, number: string -> Option<nat>)

  function Width(f: Family): nat {
    if f.V4? then 32 else 128
  }

  /** A number without its `n` low bits. */
  function DropLow(bits: nat, n: nat): nat {
    if n == 0 then bits else DropLow(bits / 2, n - 1)
  }

  /** The leading `prefix` bits of a number of `width` bits. */
  function Leading(bits: nat, width: nat, prefix: nat): nat
    requires prefix <= width
  {
    DropLow(bits, width - prefix)
  }

  lemma {:induction false} DropOneMore(bits: nat, n: nat)
    ensures DropLow(bits, n + 1) == DropLow(bits, n) / 2
  {
    if n > 0 {
      DropOneMore(bits / 2, n - 1);
    }
  }

  /** Numbers that agree on a longer prefix agree on every shorter one. */
  lemma {:induction false} ShorterPrefixAgrees(a: nat, b: nat, width: nat, longer: nat, shorter: nat)
    requires shorter <= longer <= width && Leading(a, width, longer) == Leading(b, width, longer)
    ensures Leading(a, width, shorter) == Leading(b, width, shorter)
    decreases longer - shorter
  {
    if shorter < longer {
      ShorterPrefixAgrees(a, b, width, longer, shorter + 1);
      DropOneMore(a, width - shorter - 1);
      DropOneMore(b, width - shorter - 1);
    }
  }

  function Pow2(n: nat): nat
    ensures Pow2(n) > 0
  {
    if n == 0 then 1 else 2 * Pow2(n - 1)
  }

  lemma QuotientIs(a: nat, b: nat, q: nat, r: nat)
    requires b > 0 && a == b * q + r && r < b
    ensures a / b == q
  {
    var k: int := a / b - q;
    assert b * k == r - a % b;
    assert k >= 1 ==> b * k >= b;
    assert k <= -1 ==> b * k + b <= 0;
  }

  lemma DivideTwice(a: nat, b: nat)
    requires b > 0
    ensures a / 2 / b == a / (2 * b)
  {
    var q, r := a / (2 * b), a % (2 * b);
    assert a == (2 * b) * q + r;
    assert a / 2 == b * q + r / 2 by {
      assert a == 2 * (b * q) + r;
    }
    QuotientIs(a / 2, b, q, r / 2);
  }

  /** Dropping n bits is dividing by 2 to the n. */
  lemma {:induction false} DropLowIsQuotient(bits: nat, n: nat)
    ensures DropLow(bits, n) == bits / Pow2(n)
  {
    if n > 0 {
      DropLowIsQuotient(bits / 2, n - 1);
      DivideTwice(bits, Pow2(n - 1));
    }
  }

  /** Anything unreadable is in no block. */
  function IpInCidr(readers: Readers, ip: string, cidr: string): bool {
    match readers.address(ip)
    case None => false
    case Some(addr) =>
      var slash := IndexOf(cidr, '/');
      if slash == |cidr| then readers.address(cidr) == Some(addr)
      else
        match (readers.address(cidr[..slash]), readers.number(cidr[slash + 1..]))
        case (Some(net), Some(prefix)) =>
          && addr.family == net.family
          && prefix <= Width(net.family)
          && Leading(addr.bits, Width(net.family), prefix) == Leading(net.bits, Width(net.family), prefix)
        case _ => false
  }

  /** Membership in "net/prefix": the same family, and the same number once the bits after the
      prefix are divided away. */
  lemma BlockMembership(readers: Readers, ip: string, net: string, prefix: string)
    requires '/' !in net
    ensures IpInCidr(readers, ip, net + "/" + prefix) <==>
            match (readers.address(ip), readers.address(net), readers.number(prefix))
            case (Some(a), Some(n), Some(p)) =>
              var width := if n.family.V4? then 32 else 128;
              a.family == n.family && p <= width && a.bits / Pow2(width - p) == n.bits / Pow2(width - p)
            case _ => false
  {
    var cidr := net + "/" + prefix;
    assert forall k :: 0 <= k < |net| ==> cidr[k] == net[k];
    FirstIndexIsUnique(cidr, '/', |net|);
    assert cidr[..|net|] == net && cidr[|net| + 1..] == prefix;
    match (readers.address(ip), readers.address(net), readers.number(prefix))
    case (Some(a), Some(n), Some(p)) =>
      if p <= Width(n.family) {
        DropLowIsQuotient(a.bits, Width(n.family) - p);
        DropLowIsQuotient(n.bits, Width(n.family) - p);
      }
    case _ =>
  }

  /** A block without a slash is a single address. */
  lemma SingleAddress(readers: Readers, ip: string, cidr: string)
    requires '/' !in cidr
    ensures IpInCidr(readers, ip, cidr) <==>
            readers.address(ip).Some? && readers.address(ip) == readers.address(cidr)
  {
    assert IndexOf(cidr, '/') == |cidr|;
  }

  predicate InAny(readers: Readers, ip: string, cidrs: seq<string>) {
    exists i :: 0 <= i < |cidrs| && IpInCidr(readers, ip, cidrs[i])
  }

  /** A list of blocks holds what its first block or the others hold; an empty one holds nothing. */
  lemma InAnyExactly(readers: Readers, ip: string, cidr: string, cidrs: seq<string>)
    ensures !InAny(readers, ip, [])
    ensures InAny(readers, ip, [cidr] + cidrs) <==> IpInCidr(readers, ip, cidr) || InAny(readers, ip, cidrs)
  {
    var all := [cidr] + cidrs;
    if IpInCidr(readers, ip, cidr) {
      assert all[0] == cidr;
    }
    if InAny(readers, ip, cidrs) {
      var i :| 0 <= i < |cidrs| && IpInCidr(readers, ip, cidrs[i]);
      assert all[i + 1] == cidrs[i];
    }
  }

  method IpInAnyCidr(readers: Readers, ip: string, cidrs: seq<string>) returns (b: bool)
    ensures b <==> InAny(readers, ip, cidrs)
  {
    for i := 0 to |cidrs|
      invariant forall j :: 0 <= j < i ==> !IpInCidr(readers, ip, cidrs[j])
    {
      if IpInCidr(readers, ip, cidrs[i]) {
        return true;
      }
    }
    return false;
  }
}
