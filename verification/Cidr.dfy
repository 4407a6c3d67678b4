/** IPv4 network membership by netmask, in either byte order. */
module Cidr {

  import opened Bits

  // ---- Addresses ----

  type Octet = o: int | 0 <= o < 256

  /** Four octets in network order, as `inet_aton` gives them. */
  datatype Address = Address(a: Octet, b: Octet, c: Octet, d: Octet)

  function Word(p: Octet, q: Octet, r: Octet, s: Octet): nat { ((p * 256 + q) * 256 + r) * 256 + s }

  /** The 32-bit value of an address. */
  function Value(x: Address): nat { Word(x.a, x.b, x.c, x.d) }

  /** `struct.unpack("=L", ...)`: the machine's own byte order. */
  function Unpack(x: Address, bigEndian: bool): nat {
    if bigEndian then Word(x.a, x.b, x.c, x.d) else Word(x.d, x.c, x.b, x.a)
  }

  function Octets(w: nat): Address {
    Address(w / 0x100_0000 % 256, w / 0x1_0000 % 256, w / 0x100 % 256, w % 256)
  }

  /** `dotted_netmask`, as the four octets it prints. */
  function DottedNetmask(mask: int): Address
    requires 0 <= mask <= 32
  {
    Octets(Xor(0xffff_ffff, Pow2(32 - mask) - 1))
  }

  predicate AddressInNetwork(ip: Address, netaddr: Address, mask: int, bigEndian: bool)
    requires 0 <= mask <= 32
  {
    var ipaddr := Unpack(ip, bigEndian);
    var netmask := Unpack(DottedNetmask(mask), bigEndian);
    var network := And(Unpack(netaddr, bigEndian), netmask);
    And(ipaddr, netmask) == And(network, netmask)
  }

  function AndOctets(x: Address, m: Address): Address {
    AndBound(x.a, m.a);
    AndBound(x.b, m.b);
    AndBound(x.c, m.c);
    AndBound(x.d, m.d);
    Address(And(x.a, m.a), And(x.b, m.b), And(x.c, m.c), And(x.d, m.d))
  }

  lemma ThreeAnd(p: Octet, q: Octet, r: Octet, p': Octet, q': Octet, r': Octet)
    ensures And((p * 256 + q) * 256 + r, (p' * 256 + q') * 256 + r')
         == (And(p, p') * 256 + And(q, q')) * 256 + And(r, r')
  {
    AndParts8(p, q, p', q');
    AndParts8(p * 256 + q, r, p' * 256 + q', r');
  }

  lemma {:induction false} WordAnd(p: Octet, q: Octet, r: Octet, s: Octet, p': Octet, q': Octet, r': Octet, s': Octet)
    ensures And(Word(p, q, r, s), Word(p', q', r', s'))
         == ((And(p, p') * 256 + And(q, q')) * 256 + And(r, r')) * 256 + And(s, s')
  {
    ThreeAnd(p, q, r, p', q', r');
    AndParts8((p * 256 + q) * 256 + r, s, (p' * 256 + q') * 256 + r', s');
  }

  /** `&` on unpacked words is `&` octet by octet, in both byte orders. */
  lemma UnpackAnd(x: Address, m: Address, bigEndian: bool)
    ensures And(Unpack(x, bigEndian), Unpack(m, bigEndian)) == Unpack(AndOctets(x, m), bigEndian)
  {
    WordAnd(x.a, x.b, x.c, x.d, m.a, m.b, m.c, m.d);
    WordAnd(x.d, x.c, x.b, x.a, m.d, m.c, m.b, m.a);
  }

  lemma PartsInjective(h: nat, l: Octet, h': nat, l': Octet)
    requires h * 256 + l == h' * 256 + l'
    ensures h == h' && l == l'
  {
  }

  lemma WordInjective(p: Octet, q: Octet, r: Octet, s: Octet, p': Octet, q': Octet, r': Octet, s': Octet)
    requires Word(p, q, r, s) == Word(p', q', r', s')
    ensures p == p' && q == q' && r == r' && s == s'
  {
    PartsInjective((p * 256 + q) * 256 + r, s, (p' * 256 + q') * 256 + r', s');
    PartsInjective(p * 256 + q, r, p' * 256 + q', r');
    PartsInjective(p, q, p', q');
  }

  lemma UnpackInjective(x: Address, y: Address, bigEndian: bool)
    ensures Unpack(x, bigEndian) == Unpack(y, bigEndian) <==> x == y
  {
    if Unpack(x, bigEndian) == Unpack(y, bigEndian) {
      if bigEndian {
        WordInjective(x.a, x.b, x.c, x.d, y.a, y.b, y.c, y.d);
      } else {
        WordInjective(x.d, x.c, x.b, x.a, y.d, y.c, y.b, y.a);
      }
    }
  }

  lemma OctetsValue(w: nat)
    requires w < 0x1_0000_0000
    ensures Value(Octets(w)) == w
  {
    var x, y, z := w / 0x100, w / 0x1_0000, w / 0x100_0000;
    assert w == x * 256 + w % 256 && x == y * 256 + x % 256 && y == z * 256 + y % 256 && z < 256;
  }

  lemma NetmaskValue(mask: int)
    requires 0 <= mask <= 32
    ensures Pow2(32 - mask) <= Pow2(32)
    ensures Value(DottedNetmask(mask)) == Pow2(32) - Pow2(32 - mask)
  {
    var s: nat := 32 - mask;
    Pow32();
    PowMonotone(s, 32);
    XorLowBits(32, s);
    OctetsValue(Pow2(32) - Pow2(s));
  }

  /** The byte order of the machine does not matter. */
  lemma {:induction false} InNetworkIffSameOctets(ip: Address, netaddr: Address, mask: int, bigEndian: bool)
    requires 0 <= mask <= 32
    ensures AddressInNetwork(ip, netaddr, mask, bigEndian) <==>
              AndOctets(ip, DottedNetmask(mask)) == AndOctets(netaddr, DottedNetmask(mask))
  {
    var m := DottedNetmask(mask);
    UnpackAnd(ip, m, bigEndian);
    UnpackAnd(netaddr, m, bigEndian);
    AndIdempotent(Unpack(netaddr, bigEndian), Unpack(m, bigEndian));
    UnpackInjective(AndOctets(ip, m), AndOctets(netaddr, m), bigEndian);
  }

  /** The first `mask` bits of an address. */
  function FirstBits(x: Address, mask: int): nat
    requires 0 <= mask <= 32
  {
    Shift(Value(x), 32 - mask)
  }

  lemma FirstBitsIsQuotient(x: Address, mask: int)
    requires 0 <= mask <= 32
    ensures FirstBits(x, mask) == Value(x) / Pow2(32 - mask)
  {
    ShiftIsQuotient(Value(x), 32 - mask);
  }

  lemma {:induction false} MaskedValue(x: Address, mask: int)
    requires 0 <= mask <= 32
    ensures Value(AndOctets(x, DottedNetmask(mask))) == Pow2(32 - mask) * FirstBits(x, mask)
  {
    UnpackAnd(x, DottedNetmask(mask), true);
    NetmaskValue(mask);
    Pow32();
    AndMask(32, 32 - mask, Value(x));
  }

  lemma MultiplesEqual(u: Address, v: Address, p: nat, q: nat, r: nat)
    requires p > 0 && Value(u) == p * q && Value(v) == p * r
    ensures u == v <==> q == r
  {
    UnpackInjective(u, v, true);
    Cancel(p, q, r);
  }

  lemma SameOctetsIffSamePrefix(x: Address, y: Address, mask: int)
    requires 0 <= mask <= 32
    ensures AndOctets(x, DottedNetmask(mask)) == AndOctets(y, DottedNetmask(mask)) <==>
              FirstBits(x, mask) == FirstBits(y, mask)
  {
    MaskedValue(x, mask);
    MaskedValue(y, mask);
    MultiplesEqual(AndOctets(x, DottedNetmask(mask)), AndOctets(y, DottedNetmask(mask)), Pow2(32 - mask),
                   FirstBits(x, mask), FirstBits(y, mask));
  }

  /** Main result: an address is in the network iff the two agree on their first `mask` bits,
      whichever byte order the machine has. */
  lemma {:induction false} InNetworkIffSamePrefix(ip: Address, netaddr: Address, mask: int, bigEndian: bool)
    requires 0 <= mask <= 32
    ensures AddressInNetwork(ip, netaddr, mask, bigEndian) <==> FirstBits(ip, mask) == FirstBits(netaddr, mask)
  {
    InNetworkIffSameOctets(ip, netaddr, mask, bigEndian);
    SameOctetsIffSamePrefix(ip, netaddr, mask);
  }

  lemma Cancel(p: nat, x: nat, y: nat)
    requires p > 0
    ensures p * x == p * y <==> x == y
  {
    assert (x - y) * p == p * x - p * y;
    AtLeastOne(x - y, p);
  }
}
