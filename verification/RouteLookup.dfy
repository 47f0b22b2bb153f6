/**
 * iface_for_ip: the egress interface of an IPv4 address, by longest prefix over a routing
 * table whose words are little-endian. The search compares masks as integers.
 */
module RouteLookup {
  import opened Sequences

  /** Four octets in network order. */
  datatype Octets = Octets(a: bv8, b: bv8, c: bv8, d: bv8)

  /** The destination and mask words of a table line, as the octets they stand for. */
  datatype Route = Route(iface: string, dest: Octets, mask: Octets)

  function Number(octet: bv8): (n: nat)
    ensures n < 256
  {
    octet as nat
  }

  lemma NumberOrder(a: bv8, b: bv8)
    ensures a < b ==> Number(a) < Number(b)
  {
  }

  /** The integer the kernel prints for four octets: the first octet is the least significant. */
  function Word(o: Octets): nat {
    Number(o.a) + 0x100 * Number(o.b) + 0x1_0000 * Number(o.c) + 0x100_0000 * Number(o.d)
  }

  function And(o: Octets, m: Octets): Octets {
    Octets(Masked(o.a, m.a), Masked(o.b, m.b), Masked(o.c, m.c), Masked(o.d, m.d))
  }

  function Masked(x: bv8, mask: bv8): bv8 {
    x & mask
  }

  /** The octet with k leading ones. */
  function MaskOctet(k: int): bv8 {
    if k <= 0 then 0x00 else if k == 1 then 0x80 else if k == 2 then 0xC0 else if k == 3 then 0xE0
    else if k == 4 then 0xF0 else if k == 5 then 0xF8 else if k == 6 then 0xFC else if k == 7 then 0xFE
    else 0xFF
  }

  /** The contiguous netmask of prefix length n. */
  function Netmask(n: nat): Octets
    requires n <= 32
  {
    Octets(MaskOctet(n), MaskOctet(n - 8), MaskOctet(n - 16), MaskOctet(n - 24))
  }

  /** Words order by their last octet first. */
  lemma LastOctetDecides(o: Octets, p: Octets)
    requires o.d < p.d || (o.d == p.d && (o.c < p.c || (o.c == p.c && (o.b < p.b || (o.b == p.b && o.a < p.a)))))
    ensures Word(o) < Word(p)
  {
    hide Number;
    NumberOrder(o.a, p.a);
    NumberOrder(o.b, p.b);
    NumberOrder(o.c, p.c);
    NumberOrder(o.d, p.d);
  }

  lemma MaskOctetGrows(j: int, k: int)
    requires j <= k
    ensures MaskOctet(j) <= MaskOctet(k)
    ensures j < k && k > 0 && j < 8 ==> MaskOctet(j) < MaskOctet(k)
  {
  }

  /** The byte-swapped value of a contiguous netmask strictly increases with prefix length. */
  lemma MaskGrows(n: nat, m: nat)
    requires n < m <= 32
    ensures Word(Netmask(n)) < Word(Netmask(m))
  {
    hide MaskOctet, Word;
    MaskOctetGrows(n, m);
    MaskOctetGrows(n - 8, m - 8);
    MaskOctetGrows(n - 16, m - 16);
    MaskOctetGrows(n - 24, m - 24);
    LastOctetDecides(Netmask(n), Netmask(m));
  }

  // ----- The search -----

  predicate Matches(ip: Octets, r: Route) {
    And(ip, r.mask) == r.dest
  }

  ghost predicate HasLength(r: Route, n: nat) {
    n <= 32 && r.mask == Netmask(n)
  }

  /** The comparison the search makes. */
  predicate Exceeds(r: Route, best: Route) {
    Word(r.mask) > Word(best.mask)
  }

  /** Table entry k matches, no match has a greater mask word, and every earlier match a smaller one. */
  ghost predicate FirstGreatest(ip: Octets, table: seq<Route>, k: nat) {
    k < |table| && Matches(ip, table[k]) &&
    (forall j :: 0 <= j < |table| && Matches(ip, table[j]) ==> !Exceeds(table[j], table[k])) &&
    (forall j :: 0 <= j < k && Matches(ip, table[j]) ==> Exceeds(table[k], table[j]))
  }

  /** In octets: what matches, and which of two masks has the greater little-endian word. */
  lemma RoutesInOctets(ip: Octets, r: Route)
    ensures Matches(ip, r) <==>
            ip.a & r.mask.a == r.dest.a && ip.b & r.mask.b == r.dest.b &&
            ip.c & r.mask.c == r.dest.c && ip.d & r.mask.d == r.dest.d
  {
    hide Masked;
    MaskedIs(ip.a, r.mask.a);
    MaskedIs(ip.b, r.mask.b);
    MaskedIs(ip.c, r.mask.c);
    MaskedIs(ip.d, r.mask.d);
  }

  lemma MaskedIs(x: bv8, mask: bv8)
    ensures Masked(x, mask) == x & mask
  {
  }

  lemma GreaterInOctets(r: Route, best: Route)
    ensures Exceeds(r, best) <==>
            (r.mask.d as nat * 256 + r.mask.c as nat) * 65536 + (r.mask.b as nat * 256 + r.mask.a as nat) >
            (best.mask.d as nat * 256 + best.mask.c as nat) * 65536 + (best.mask.b as nat * 256 + best.mask.a as nat)
  {
  }

  lemma ExceedsOrder(a: Route, b: Route, c: Route)
    ensures !Exceeds(a, a)
    ensures !Exceeds(b, a) && Exceeds(c, a) ==> Exceeds(c, b) && !Exceeds(b, c)
  {
  }

  lemma BetterRoute(ip: Octets, table: seq<Route>, r: Route, k: nat)
    requires FirstGreatest(ip, table, k) && Matches(ip, r) && Exceeds(r, table[k])
    ensures FirstGreatest(ip, table + [r], |table|)
  {
    hide Matches, Exceeds;
    ExceedsOrder(r, r, r);
    forall j | 0 <= j < |table| && Matches(ip, table[j]) ensures Exceeds(r, table[j]) && !Exceeds(table[j], r) {
      ExceedsOrder(table[k], table[j], r);
    }
  }

  lemma FirstRoute(ip: Octets, table: seq<Route>, r: Route)
    requires Matches(ip, r) && forall j :: 0 <= j < |table| ==> !Matches(ip, table[j])
    ensures FirstGreatest(ip, table + [r], |table|)
  {
    hide Matches, Exceeds;
    ExceedsOrder(r, r, r);
  }

  /** ip is None for anything but a dotted IPv4 address, table for an unreadable one. */
  method IfaceForIp(ip: Option<Octets>, table: Option<seq<Route>>)
    returns (iface: Option<string>, ghost chosen: nat)
    ensures ip.None? || table.None? ==> iface == None
    ensures ip.Some? && table.Some? ==>
              (iface.None? <==> forall j :: 0 <= j < |table.value| ==> !Matches(ip.value, table.value[j]))
    ensures ip.Some? && table.Some? && iface.Some? ==>
              FirstGreatest(ip.value, table.value, chosen) && iface.value == table.value[chosen].iface
  {
    hide Matches, Exceeds;
    chosen := 0;
    if ip.None? || table.None? {
      return None, 0;
    }
    var routes := table.value;
    iface := None;
    var best: Option<Route> := None;
    for i := 0 to |routes|
      invariant iface.Some? <==> best.Some?
      invariant iface.None? ==> forall j :: 0 <= j < i ==> !Matches(ip.value, routes[j])
      invariant iface.Some? ==> FirstGreatest(ip.value, routes[..i], chosen)
      invariant iface.Some? ==> iface.value == best.value.iface && best.value == routes[chosen]
    {
      var r := routes[i];
      assert routes[..i + 1] == routes[..i] + [r];
      if Matches(ip.value, r) && (best.None? || Exceeds(r, best.value)) {
        if best.None? {
          FirstRoute(ip.value, routes[..i], r);
        } else {
          BetterRoute(ip.value, routes[..i], r, chosen);
        }
        iface, best, chosen := Some(r.iface), Some(r), i;
      }
    }
    assert routes[..|routes|] == routes;
  }

  /** On a table of contiguous masks the choice is the first matching route of longest prefix. */
  lemma LongestPrefix(ip: Octets, table: seq<Route>, lengths: seq<nat>, k: nat)
    requires |lengths| == |table| && forall j :: 0 <= j < |table| ==> HasLength(table[j], lengths[j])
    requires k < |table|
    ensures FirstGreatest(ip, table, k) <==>
            Matches(ip, table[k]) &&
            (forall j :: 0 <= j < |table| && Matches(ip, table[j]) ==> lengths[j] <= lengths[k]) &&
            (forall j :: 0 <= j < k && Matches(ip, table[j]) ==> lengths[j] < lengths[k])
  {
    hide Matches, Exceeds, HasLength;
    forall i, j | 0 <= i < |table| && 0 <= j < |table|
      ensures Exceeds(table[i], table[j]) <==> lengths[i] > lengths[j]
    {
      ExceedsIsLonger(table[i], table[j], lengths[i], lengths[j]);
    }
  }

  lemma ExceedsIsLonger(a: Route, b: Route, n: nat, m: nat)
    requires HasLength(a, n) && HasLength(b, m)
    ensures Exceeds(a, b) <==> n > m
  {
    hide Word, Netmask;
    if n < m { MaskGrows(n, m); }
    if m < n { MaskGrows(m, n); }
  }

  // ----- Words -----

  /** The bitwise and of two non-negative integers. */
  function BitAnd(x: nat, y: nat): nat {
    if x == 0 then 0
    else (if x % 2 == 1 && y % 2 == 1 then 1 else 0) + 2 * BitAnd(x / 2, y / 2)
  }

  /** A bit of the result is set exactly when it is set in both. */
  lemma BitAndBits(x: nat, y: nat)
    ensures BitAnd(x, y) % 2 == 1 <==> x % 2 == 1 && y % 2 == 1
    ensures BitAnd(x, y) / 2 == BitAnd(x / 2, y / 2)
    ensures BitAnd(0, y) == 0
  {
  }

  lemma BitAndDouble(b: nat, x: nat, d: nat, y: nat)
    requires b <= 1 && d <= 1
    ensures BitAnd(b + 2 * x, d + 2 * y) == (if b == 1 && d == 1 then 1 else 0) + 2 * BitAnd(x, y)
  {
    assert (b + 2 * x) / 2 == x && (d + 2 * y) / 2 == y;
  }

  /** x moved up by k bits. */
  function Shifted(k: nat, x: nat): nat {
    if k == 0 then x else 2 * Shifted(k - 1, x)
  }

  /** An octet by its last bit and the rest. */
  lemma LastBit(x: bv8)
    ensures Number(x) == Number(x & 1) + 2 * Number(x >> 1) && Number(x & 1) <= 1
    ensures Number(x & 1) == 1 <==> x & 1 == 1
  {
  }

  lemma AndLastBit(x: bv8, y: bv8)
    ensures (x & y) & 1 == 1 <==> x & 1 == 1 && y & 1 == 1
    ensures (x & y) >> 1 == (x >> 1) & (y >> 1)
  {
  }

  /** The low k bits of two integers are masked apart from the rest. */
  lemma {:induction false} AndBelow(k: nat, x: bv8, y: bv8, above: nat, above': nat)
    requires Number(x) < Shifted(k, 1) && Number(y) < Shifted(k, 1)
    ensures BitAnd(Number(x) + Shifted(k, above), Number(y) + Shifted(k, above')) ==
            Number(x & y) + Shifted(k, BitAnd(above, above'))
  {
    hide Number, BitAnd;
    if k == 0 {
      ZeroOctet(x);
      ZeroOctet(y);
    } else {
      LastBit(x);
      LastBit(y);
      LastBit(x & y);
      AndLastBit(x, y);
      AndBelow(k - 1, x >> 1, y >> 1, above, above');
      BitAndDouble(Number(x & 1), Number(x >> 1) + Shifted(k - 1, above),
                   Number(y & 1), Number(y >> 1) + Shifted(k - 1, above'));
    }
  }

  lemma ZeroOctet(x: bv8)
    ensures Number(x) == 0 ==> x == 0
    ensures Number(0) == 0
  {
  }

  lemma ShiftedByOctet(x: nat)
    ensures Shifted(8, x) == 0x100 * x
  {
    assert Shifted(1, x) == 2 * x;
    assert Shifted(2, x) == 4 * x;
    assert Shifted(3, x) == 8 * x;
    assert Shifted(4, x) == 4 * Shifted(2, x);
    assert Shifted(6, x) == 4 * Shifted(4, x);
    assert Shifted(8, x) == 4 * Shifted(6, x);
  }

  lemma AndByOctet(x: bv8, y: bv8, above: nat, above': nat)
    ensures BitAnd(Number(x) + 0x100 * above, Number(y) + 0x100 * above') ==
            Number(Masked(x, y)) + 0x100 * BitAnd(above, above')
  {
    hide Number, BitAnd, Shifted;
    ShiftedByOctet(1);
    ShiftedByOctet(above);
    ShiftedByOctet(above');
    ShiftedByOctet(BitAnd(above, above'));
    AndBelow(8, x, y, above, above');
  }

  lemma AndTopOctet(x: bv8, y: bv8)
    ensures BitAnd(Number(x), Number(y)) == Number(Masked(x, y))
  {
    hide Number;
    AndByOctet(x, y, 0, 0);
  }

  /** Masking octet by octet is masking the little-endian word. */
  lemma AndOnWords(o: Octets, m: Octets)
    ensures Word(And(o, m)) == BitAnd(Word(o), Word(m))
  {
    hide Number, BitAnd, Masked;
    var o3, m3 := Number(o.d), Number(m.d);
    var o2, m2 := Number(o.c) + 0x100 * o3, Number(m.c) + 0x100 * m3;
    var o1, m1 := Number(o.b) + 0x100 * o2, Number(m.b) + 0x100 * m2;
    AndTopOctet(o.d, m.d);
    AndByOctet(o.c, m.c, o3, m3);
    AndByOctet(o.b, m.b, o2, m2);
    AndByOctet(o.a, m.a, o1, m1);
  }

  lemma WordInjective(o: Octets, p: Octets)
    requires Word(o) == Word(p)
    ensures o == p
  {
    hide Number;
    NumberInjective(o.a, p.a);
    NumberInjective(o.b, p.b);
    NumberInjective(o.c, p.c);
    NumberInjective(o.d, p.d);
  }

  lemma NumberInjective(a: bv8, b: bv8)
    ensures Number(a) == Number(b) ==> a == b
  {
  }

  /** The test the search makes, on the integers of the table: address and mask is the destination. */
  lemma MatchOnWords(ip: Octets, r: Route)
    ensures Matches(ip, r) <==> BitAnd(Word(ip), Word(r.mask)) == Word(r.dest)
  {
    hide And, Word, BitAnd;
    AndOnWords(ip, r.mask);
    if Word(And(ip, r.mask)) == Word(r.dest) {
      WordInjective(And(ip, r.mask), r.dest);
    }
  }

  // ----- Prefixes, bit by bit -----

  function Selector(j: int): bv8 {
    if j == 0 then 0x80 else if j == 1 then 0x40 else if j == 2 then 0x20 else if j == 3 then 0x10
    else if j == 4 then 0x08 else if j == 5 then 0x04 else if j == 6 then 0x02 else 0x01
  }

  /** Bit j of an octet, the leading bit first. */
  predicate OctetBit(x: bv8, j: int) {
    x & Selector(j) != 0
  }

  /** Bit i of an address in network order. */
  predicate Bit(o: Octets, i: int) {
    OctetBit(OctetOf(o, i), PlaceOf(i))
  }

  /** The octet that holds bit i, and its place there. */
  function OctetOf(o: Octets, i: int): bv8 {
    if i < 8 then o.a else if i < 16 then o.b else if i < 24 then o.c else o.d
  }

  function PlaceOf(i: int): int {
    if i < 8 then i else if i < 16 then i - 8 else if i < 24 then i - 16 else i - 24
  }

  lemma AndBit(x: bv8, y: bv8, j: int)
    requires 0 <= j < 8
    ensures OctetBit(Masked(x, y), j) <==> OctetBit(x, j) && OctetBit(y, j)
  {
    if j < 4 {
    } else {
    }
  }

  /** Bits are numbered from the leading one of the first octet. */
  lemma BitsInOctets(o: Octets, i: nat)
    requires i < 32
    ensures Bit(o, i) <==> OctetBit(if i < 8 then o.a else if i < 16 then o.b else if i < 24 then o.c else o.d, i % 8)
  {
    hide OctetBit;
  }

  lemma OctetBits(x: bv8)
    ensures OctetBit(x, 0) <==> x & 128 != 0
    ensures OctetBit(x, 1) <==> x & 64 != 0
    ensures OctetBit(x, 2) <==> x & 32 != 0
    ensures OctetBit(x, 3) <==> x & 16 != 0
    ensures OctetBit(x, 4) <==> x & 8 != 0
    ensures OctetBit(x, 5) <==> x & 4 != 0
    ensures OctetBit(x, 6) <==> x & 2 != 0
    ensures OctetBit(x, 7) <==> x & 1 != 0
  {
  }

  lemma MaskBit(k: int, j: int)
    requires 0 <= j < 8
    ensures OctetBit(MaskOctet(k), j) <==> j < k
  {
  }

  lemma SameBits(x: bv8, y: bv8)
    requires forall j :: 0 <= j < 8 ==> OctetBit(x, j) == OctetBit(y, j)
    ensures x == y
  {
    assert OctetBit(x, 0) == OctetBit(y, 0) && OctetBit(x, 1) == OctetBit(y, 1);
    assert OctetBit(x, 2) == OctetBit(y, 2) && OctetBit(x, 3) == OctetBit(y, 3);
    assert OctetBit(x, 4) == OctetBit(y, 4) && OctetBit(x, 5) == OctetBit(y, 5);
    assert OctetBit(x, 6) == OctetBit(y, 6) && OctetBit(x, 7) == OctetBit(y, 7);
  }

  lemma MaskedOctet(o: Octets, m: Octets, i: int)
    ensures OctetOf(And(o, m), i) == Masked(OctetOf(o, i), OctetOf(m, i))
  {
    hide Masked;
  }

  lemma AndAddressBit(o: Octets, m: Octets, i: nat)
    requires i < 32
    ensures Bit(And(o, m), i) <==> Bit(o, i) && Bit(m, i)
  {
    hide OctetBit, OctetOf, And, Masked;
    MaskedOctet(o, m, i);
    AndBit(OctetOf(o, i), OctetOf(m, i), PlaceOf(i));
  }

  lemma SameAddress(o: Octets, p: Octets)
    requires forall i :: 0 <= i < 32 ==> Bit(o, i) == Bit(p, i)
    ensures o == p
  {
    hide OctetBit;
    forall j | 0 <= j < 8
      ensures OctetBit(o.a, j) == OctetBit(p.a, j) && OctetBit(o.b, j) == OctetBit(p.b, j)
      ensures OctetBit(o.c, j) == OctetBit(p.c, j) && OctetBit(o.d, j) == OctetBit(p.d, j)
    {
      assert Bit(o, j) == Bit(p, j) && Bit(o, j + 8) == Bit(p, j + 8);
      assert Bit(o, j + 16) == Bit(p, j + 16) && Bit(o, j + 24) == Bit(p, j + 24);
    }
    SameBits(o.a, p.a);
    SameBits(o.b, p.b);
    SameBits(o.c, p.c);
    SameBits(o.d, p.d);
  }

  /**
   * Whatever the mask: a route matches exactly when its destination has the address's bit
   * wherever the mask is one, and none elsewhere.
   */
  lemma MatchBitwise(ip: Octets, r: Route)
    ensures Matches(ip, r) <==>
            forall i :: 0 <= i < 32 ==> (Bit(r.dest, i) <==> Bit(r.mask, i) && Bit(ip, i))
  {
    hide And, Bit;
    forall i | 0 <= i < 32 ensures Bit(And(ip, r.mask), i) <==> Bit(r.mask, i) && Bit(ip, i) {
      AndAddressBit(ip, r.mask, i);
    }
    if forall i :: 0 <= i < 32 ==> (Bit(r.dest, i) <==> Bit(r.mask, i) && Bit(ip, i)) {
      SameAddress(And(ip, r.mask), r.dest);
    }
  }

  /** The netmask of length n is n ones followed by zeros. */
  lemma NetmaskIsPrefix(n: nat, i: nat)
    requires n <= 32 && i < 32
    ensures Bit(Netmask(n), i) <==> i < n
  {
    hide MaskOctet, OctetBit;
    if i < 8 { MaskBit(n, i); }
    else if i < 16 { MaskBit(n - 8, i - 8); }
    else if i < 24 { MaskBit(n - 16, i - 16); }
    else { MaskBit(n - 24, i - 24); }
  }

  /**
   * So a route of prefix length n matches exactly when the address agrees with its destination
   * in each of the first n bits and the destination has no bit after them.
   */
  lemma MatchIsPrefix(ip: Octets, r: Route, n: nat)
    requires HasLength(r, n)
    ensures Matches(ip, r) <==>
            forall i :: 0 <= i < 32 ==> (Bit(r.dest, i) <==> i < n && Bit(ip, i))
  {
    hide Matches, Netmask, Bit;
    MatchBitwise(ip, r);
    forall i | 0 <= i < 32 ensures Bit(r.mask, i) <==> i < n {
      NetmaskIsPrefix(n, i);
    }
  }
}
