// IPv4 networks and address allocation (crates/pertisk-net/src/ipam.rs; CIDR blocks as in section 3.1
// of RFC 4632).
module Ipam {
  import opened Prelude
  import opened Text
  import opened Bits

  datatype NetError = Invalid | PoolExhausted

  datatype Ipv4Net = Ipv4Net(network: u32, prefix: nat) {
    function Mask(): u32
      requires prefix <= 32
    {
      if prefix == 0 then 0 else Shl32(Not32(0), 32 - prefix)
    }

    predicate Contains(ip: u32)
      requires prefix <= 32
    {
      And(ip, Mask()) == network
    }

    predicate Overlaps(other: Ipv4Net)
      requires prefix <= 32 && other.prefix <= 32
    {
      Contains(other.network) || other.Contains(network)
    }

    function Nth(n: u32): u32 {
      SaturatingAdd(network, n)
    }

    function Broadcast(): u32
      requires prefix <= 32
    {
      Pow2Of32();
      OrFits(network, Not32(Mask()), 32);
      Or(network, Not32(Mask()))
    }

    // No bit set outside the prefix, as parse_cidr makes them.
    predicate Normal() {
      prefix <= 32 && And(network, Mask()) == network
    }

    function Size(): nat
      requires prefix <= 32
    {
      Pow2(32 - prefix)
    }
  }

  lemma MaskIs(net: Ipv4Net)
    requires net.prefix <= 32
    ensures net.Mask() == U32_LIMIT - net.Size()
  {
    Pow2Of32();
    ShiftedOnes(32 - net.prefix);
  }

  lemma MaskClearsLow(net: Ipv4Net, ip: u32)
    requires net.prefix <= 32
    ensures And(ip, net.Mask()) == ip - Low(ip, 32 - net.prefix)
  {
    MaskIs(net);
    Pow2Of32();
    AndHighMask(ip, 32, 32 - net.prefix);
  }

  lemma BroadcastIs(net: Ipv4Net)
    requires net.Normal()
    ensures net.Broadcast() == net.network + net.Size() - 1
  {
    MaskIs(net);
    MaskClearsLow(net, net.network);
    OrAdds(net.network, 32 - net.prefix, net.Size() - 1);
  }

  // A network is the interval from its address to its broadcast address.
  lemma ContainsIsInterval(net: Ipv4Net, ip: u32)
    requires net.Normal()
    ensures net.Contains(ip) <==> net.network <= ip <= net.Broadcast()
  {
    hide Ipv4Net.Mask, Ipv4Net.Broadcast, And;
    MaskClearsLow(net, ip);
    MaskClearsLow(net, net.network);
    BroadcastIs(net);
    if net.network <= ip <= net.Broadcast() {
      LowInBlock(net.network, 32 - net.prefix, ip);
    }
  }

  // The smaller of two networks that share an address lies in the larger.
  lemma SharedIsNested(wide: Ipv4Net, narrow: Ipv4Net, ip: u32)
    requires wide.Normal() && narrow.Normal() && wide.prefix <= narrow.prefix
    requires wide.Contains(ip) && narrow.Contains(ip)
    ensures wide.Contains(narrow.network)
  {
    hide Ipv4Net.Mask, And;
    MaskClearsLow(wide, ip);
    MaskClearsLow(narrow, ip);
    MaskClearsLow(wide, narrow.network);
    LowTwice(ip, 32 - narrow.prefix, 32 - wide.prefix);
  }

  lemma OwnAddress(net: Ipv4Net)
    requires net.Normal()
    ensures net.Contains(net.network)
  {
  }

  ghost predicate Share(a: Ipv4Net, b: Ipv4Net)
    requires a.prefix <= 32 && b.prefix <= 32
  {
    exists ip: u32 :: a.Contains(ip) && b.Contains(ip)
  }

  lemma OverlapsIffShared(a: Ipv4Net, b: Ipv4Net)
    requires a.Normal() && b.Normal()
    ensures a.Overlaps(b) <==> Share(a, b)
  {
    hide Ipv4Net.Contains;
    OwnAddress(a);
    OwnAddress(b);
    if Share(a, b) {
      var ip: u32 :| a.Contains(ip) && b.Contains(ip);
      if a.prefix <= b.prefix {
        SharedIsNested(a, b, ip);
      } else {
        SharedIsNested(b, a, ip);
      }
    }
  }

  // ---------- Text form ----------

  function ParseOctet(s: string): Option<nat> {
    ParseUnsigned(s, 0x100)
  }

  function ParseOctets(parts: seq<string>): Result<u32, NetError> {
    if |parts| == 4 && forall i | 0 <= i < 4 :: ParseOctet(parts[i]).Some? then
      var value := 0x100_0000 * ParseOctet(parts[0]).value + 0x1_0000 * ParseOctet(parts[1]).value
                   + 0x100 * ParseOctet(parts[2]).value + ParseOctet(parts[3]).value;
      Ok(value)
    else Err(Invalid)
  }

  // Four dotted octets.
  function ParseIpv4(s: string): Result<u32, NetError> {
    ParseOctets(Split(s, '.'))
  }

  // The loop of parse_ipv4: four steps of a shift and an or.
  method ParseIpv4ByShifts(s: string) returns (r: Result<u32, NetError>)
    ensures r == ParseIpv4(s)
  {
    hide Split, ParseUnsigned, Shl32, Or;
    var parts := Split(s, '.');
    var acc: u32 := 0;
    ghost var values: seq<nat> := [];
    for i := 0 to 4
      invariant |values| == i <= |parts|
      invariant forall j | 0 <= j < i :: ParseOctet(parts[j]) == Some(values[j]) && values[j] < 0x100
      invariant acc == Value(values)
    {
      if i >= |parts| {
        return Err(Invalid);
      }
      var n := ParseOctet(parts[i]);
      if n.None? {
        return Err(Invalid);
      }
      OctetBound(parts[i]);
      ValueGrows(values, n.value);
      ShiftInByte(acc, n.value);
      acc := Or(Shl32(acc, 8), n.value);
      values := values + [n.value];
    }
    if |parts| > 4 {
      return Err(Invalid);
    }
    ValueIs(values);
    r := Ok(acc);
  }

  lemma OctetBound(s: string)
    ensures ParseOctet(s).Some? ==> ParseOctet(s).value < 0x100
  {
  }

  function Value(octets: seq<nat>): nat {
    if octets == [] then 0 else 0x100 * Value(octets[..|octets| - 1]) + octets[|octets| - 1]
  }

  lemma ValueGrows(octets: seq<nat>, n: nat)
    requires |octets| < 4 && n < 0x100 && forall i | 0 <= i < |octets| :: octets[i] < 0x100
    ensures Value(octets) < 0x100_0000 && Value(octets + [n]) == 0x100 * Value(octets) + n
  {
    assert (octets + [n])[..|octets|] == octets;
    ValueIs(octets);
  }

  lemma ValueIs(octets: seq<nat>)
    requires |octets| <= 4
    ensures |octets| == 0 ==> Value(octets) == 0
    ensures |octets| == 1 ==> Value(octets) == octets[0]
    ensures |octets| == 2 ==> Value(octets) == 0x100 * octets[0] + octets[1]
    ensures |octets| == 3 ==> Value(octets) == 0x1_0000 * octets[0] + 0x100 * octets[1] + octets[2]
    ensures |octets| == 4 ==>
              Value(octets) == 0x100_0000 * octets[0] + 0x1_0000 * octets[1] + 0x100 * octets[2] + octets[3]
  {
    if octets != [] {
      ValueIs(octets[..|octets| - 1]);
    }
  }

  // Four octets in text with this value.
  ghost predicate IsQuad(s: string, a: string, b: string, c: string, d: string, ip: u32) {
    && s == a + "." + b + "." + c + "." + d
    && '.' !in a && '.' !in b && '.' !in c && '.' !in d
    && ParseUnsigned(a, 256).Some? && ParseUnsigned(b, 256).Some?
    && ParseUnsigned(c, 256).Some? && ParseUnsigned(d, 256).Some?
    && ip == ((ParseUnsigned(a, 256).value * 256 + ParseUnsigned(b, 256).value) * 256
              + ParseUnsigned(c, 256).value) * 256 + ParseUnsigned(d, 256).value
  }

  // An address parses exactly when it is four such octets with dots between, and to their value.
  lemma ParseIpv4Iff(s: string, ip: u32)
    ensures ParseIpv4(s) == Ok(ip) <==> exists a, b, c, d :: IsQuad(s, a, b, c, d, ip)
  {
    hide Split, ParseUnsigned;
    if ParseIpv4(s) == Ok(ip) {
      var p := Split(s, '.');
      SplitIs(s, '.');
      assert p[1..][1..] == p[2..] && p[2..][1..] == p[3..] && p[3..] == [p[3]];
      assert JoinAll(p[3..], '.') == p[3];
      assert JoinAll(p[2..], '.') == p[2] + "." + p[3];
      assert JoinAll(p[1..], '.') == p[1] + "." + (p[2] + "." + p[3]);
      assert s == p[0] + "." + p[1] + "." + p[2] + "." + p[3];
      assert p[0] in p && p[1] in p && p[2] in p && p[3] in p;
      assert IsQuad(s, p[0], p[1], p[2], p[3], ip);
    }
    if a, b, c, d :| IsQuad(s, a, b, c, d, ip) {
      SplitOfQuad(a, b, c, d);
      var p := [a, b, c, d];
      assert Split(s, '.') == p;
      assert forall i | 0 <= i < 4 :: ParseOctet(p[i]).Some?;
    }
  }

  function Ipv4String(ip: u32): string {
    Decimal(And(Shr(ip, 24), 0xff)) + "." + Decimal(And(Shr(ip, 16), 0xff)) + "."
    + Decimal(And(Shr(ip, 8), 0xff)) + "." + Decimal(And(ip, 0xff))
  }

  lemma {:induction false} DecimalHasNo(n: nat, c: char)
    requires !IsDigit(c)
    ensures c !in Decimal(n)
  {
    DecimalIsDigits(n);
  }

  lemma SplitOfQuad(a: string, b: string, c: string, d: string)
    requires '.' !in a && '.' !in b && '.' !in c && '.' !in d
    ensures Split(a + "." + b + "." + c + "." + d, '.') == [a, b, c, d]
  {
    hide Split;
    var cd := c + "." + d;
    var bcd := b + "." + cd;
    SplitAfterPart(a, '.', bcd);
    SplitAfterPart(b, '.', cd);
    SplitAfterPart(c, '.', d);
    SplitOfPart(d, '.');
    assert a + "." + b + "." + c + "." + d == a + ['.'] + bcd;
  }

  lemma ParseOfQuad(a: nat, b: nat, c: nat, d: nat)
    requires a < 0x100 && b < 0x100 && c < 0x100 && d < 0x100
    ensures ParseIpv4(Decimal(a) + "." + Decimal(b) + "." + Decimal(c) + "." + Decimal(d))
         == Ok(0x100_0000 * a + 0x1_0000 * b + 0x100 * c + d)
  {
    hide Split, Decimal, ParseUnsigned, ParseOctets;
    var parts := [Decimal(a), Decimal(b), Decimal(c), Decimal(d)];
    DecimalHasNo(a, '.');
    DecimalHasNo(b, '.');
    DecimalHasNo(c, '.');
    DecimalHasNo(d, '.');
    SplitOfQuad(Decimal(a), Decimal(b), Decimal(c), Decimal(d));
    OctetOfDecimal(a);
    OctetOfDecimal(b);
    OctetOfDecimal(c);
    OctetOfDecimal(d);
    hide ParseOctet;
    OctetsAre(parts, a, b, c, d);
  }

  lemma OctetsAre(parts: seq<string>, a: nat, b: nat, c: nat, d: nat)
    requires |parts| == 4
    requires ParseOctet(parts[0]) == Some(a) && ParseOctet(parts[1]) == Some(b)
    requires ParseOctet(parts[2]) == Some(c) && ParseOctet(parts[3]) == Some(d)
    ensures ParseOctets(parts) == Ok(0x100_0000 * a + 0x1_0000 * b + 0x100 * c + d)
  {
    hide ParseOctet;
  }

  lemma OctetOfDecimal(n: nat)
    requires n < 0x100
    ensures ParseOctet(Decimal(n)) == Some(n)
  {
    hide Decimal, ParseUnsigned;
    ParseOfDecimal(n, 0x100);
  }

  // Printing an address and parsing it again gives the address back.
  lemma ParseOfPrinted(ip: u32)
    ensures ParseIpv4(Ipv4String(ip)) == Ok(ip)
  {
    hide And, Shr, Decimal, ParseIpv4;
    OctetsOf(ip);
    ParseOfQuad(And(Shr(ip, 24), 0xff), And(Shr(ip, 16), 0xff), And(Shr(ip, 8), 0xff), And(ip, 0xff));
  }

  lemma OctetsOf(ip: u32)
    ensures var a, b, c, d := And(Shr(ip, 24), 0xff), And(Shr(ip, 16), 0xff), And(Shr(ip, 8), 0xff), And(ip, 0xff);
            && a < 0x100 && b < 0x100 && c < 0x100 && d < 0x100
            && ip == 0x100_0000 * a + 0x1_0000 * b + 0x100 * c + d
  {
    hide And, Shr;
    ShrTwice(ip, 8, 8);
    ShrTwice(ip, 16, 8);
    ShrTwice(ip, 24, 8);
    ByteOff(ip);
    ByteOff(Shr(ip, 8));
    ByteOff(Shr(ip, 16));
    ByteOff(Shr(ip, 24));
  }

  function ParseCidr(s: string): Result<Ipv4Net, NetError> {
    match SplitOnce(s, '/')
    case None => Err(Invalid)
    case Some((addr, suffix)) =>
      match ParseUnsigned(suffix, 0x100)
      case None => Err(Invalid)
      case Some(prefix) =>
        if prefix > 32 then Err(Invalid)
        else
          match ParseIpv4(addr)
          case Err(error) => Err(error)
          case Ok(ip) =>
            AndFits(ip, Ipv4Net(0, prefix).Mask());
            Ok(Ipv4Net(And(ip, Ipv4Net(0, prefix).Mask()), prefix))
  }

  lemma {:induction false} AndFits(a: nat, b: nat)
    ensures And(a, b) <= a
  {
    if a != 0 && b != 0 {
      AndFits(a / 2, b / 2);
    }
  }

  function CidrString(net: Ipv4Net): string {
    Ipv4String(net.network) + "/" + Decimal(net.prefix)
  }

  // What parse_cidr returns is normal: it is the block around the address that was written.
  lemma ParsedIsNormal(s: string)
    requires ParseCidr(s).Ok?
    ensures ParseCidr(s).value.Normal()
    ensures SplitOnce(s, '/').Some? && ParseIpv4(SplitOnce(s, '/').value.0).Ok?
    ensures ParseCidr(s).value.Contains(ParseIpv4(SplitOnce(s, '/').value.0).value)
  {
    hide And, Ipv4Net.Mask, ParseIpv4, ParseUnsigned, SplitOnce;
    var net := ParseCidr(s).value;
    var ip := ParseIpv4(SplitOnce(s, '/').value.0).value;
    MaskClearsLow(Ipv4Net(0, net.prefix), ip);
    MaskClearsLow(net, net.network);
    LowOfCleared(ip, 32 - net.prefix);
    SameMask(net);
  }

  lemma SameMask(net: Ipv4Net)
    requires net.prefix <= 32
    ensures net.Mask() == Ipv4Net(0, net.prefix).Mask()
  {
  }

  lemma ParseOfCidrString(net: Ipv4Net)
    requires net.Normal()
    ensures ParseCidr(CidrString(net)) == Ok(net)
  {
    hide And, Ipv4Net.Mask, ParseIpv4, ParseUnsigned, SplitOnce, Decimal, Ipv4String;
    var addr := Ipv4String(net.network);
    assert '/' !in addr by {
      NoSlash(net.network);
    }
    SplitOnceAtFirst(addr, '/', Decimal(net.prefix));
    assert CidrString(net) == addr + ['/'] + Decimal(net.prefix);
    ParseOfDecimal(net.prefix, 0x100);
    ParseOfPrinted(net.network);
    SameMask(net);
  }

  lemma NoSlash(ip: u32)
    ensures '/' !in Ipv4String(ip)
  {
    hide And, Shr, Decimal;
    DecimalHasNo(And(Shr(ip, 24), 0xff), '/');
    DecimalHasNo(And(Shr(ip, 16), 0xff), '/');
    DecimalHasNo(And(Shr(ip, 8), 0xff), '/');
    DecimalHasNo(And(ip, 0xff), '/');
  }
}
