// First-free address allocation (crates/pertisk-net/src/ipam.rs).
module Allocation {
  import opened Prelude
  import opened Bits
  import opened Ipam

  // The addresses of `used` that parse; the others are ignored.
  function Parsed(used: seq<string>): seq<u32> {
    if used == [] then []
    else
      var front := Parsed(used[..|used| - 1]);
      match ParseIpv4(used[|used| - 1])
      case Ok(ip) => front + [ip]
      case Err(_) => front
  }

  function GatewayOf(gateway: Option<string>): Result<Option<u32>, NetError> {
    match gateway
    case None => Ok(None)
    case Some(text) =>
      match ParseIpv4(text)
      case Ok(ip) => Ok(Some(ip))
      case Err(error) => Err(error)
  }

  function First(net: Ipv4Net): u32 {
    net.Nth(2)
  }

  function Last(net: Ipv4Net): u32
    requires net.prefix <= 32
  {
    SaturatingSub(net.Broadcast(), 1)
  }

  predicate IsFree(net: Ipv4Net, gw: Option<u32>, taken: seq<u32>, ip: u32)
    requires net.prefix <= 32
  {
    First(net) <= ip <= Last(net) && Some(ip) != gw && ip !in taken
  }

  ghost predicate IsLeastFree(net: Ipv4Net, gw: Option<u32>, taken: seq<u32>, ip: u32)
    requires net.prefix <= 32
  {
    IsFree(net, gw, taken, ip) && forall k: u32 | IsFree(net, gw, taken, k) :: ip <= k
  }

  // The answer to one allocation: the least free address, or that there is none.
  ghost predicate IsAnswer(net: Ipv4Net, gateway: Option<string>, used: seq<string>, r: Result<u32, NetError>)
    requires net.prefix <= 32
  {
    match GatewayOf(gateway)
    case Err(error) => r == Err(error)
    case Ok(gw) =>
      match r
      case Ok(ip) => IsLeastFree(net, gw, Parsed(used), ip)
      case Err(error) =>
        error == PoolExhausted && forall k: u32 :: !IsFree(net, gw, Parsed(used), k)
  }

  lemma {:induction false} ParsedHas(used: seq<string>, ip: u32)
    ensures ip in Parsed(used) <==> exists u <- used :: ParseIpv4(u) == Ok(ip)
  {
    hide ParseIpv4;
    if used != [] {
      var front, last := used[..|used| - 1], used[|used| - 1];
      ParsedHas(front, ip);
      assert used == front + [last];
    }
  }

  // An address that the network can give: not its first two, nor its last, nor the gateway's, nor one
  // that is written among the used ones.
  ghost predicate CanGive(net: Ipv4Net, gateway: Option<string>, used: seq<string>, ip: u32)
    requires net.prefix <= 32
  {
    && net.network + 2 <= ip <= net.network + Pow2(32 - net.prefix) - 2
    && (gateway.Some? ==> ParseIpv4(gateway.value) != Ok(ip))
    && forall u <- used :: ParseIpv4(u) != Ok(ip)
  }

  lemma FreeIsCanGive(net: Ipv4Net, gateway: Option<string>, used: seq<string>, ip: u32)
    requires net.Normal() && GatewayOf(gateway).Ok?
    ensures IsFree(net, GatewayOf(gateway).value, Parsed(used), ip) <==> CanGive(net, gateway, used, ip)
  {
    hide Ipv4Net.Broadcast, ParseIpv4, Parsed;
    BroadcastIs(net);
    ParsedHas(used, ip);
  }

  // What an answer means, for a network as parse_cidr makes them.
  lemma AnswerIs(net: Ipv4Net, gateway: Option<string>, used: seq<string>, r: Result<u32, NetError>)
    requires net.Normal()
    ensures IsAnswer(net, gateway, used, r)
       <==> if gateway.Some? && ParseIpv4(gateway.value).Err? then r == Err(ParseIpv4(gateway.value).error)
            else match r
              case Ok(ip) =>
                CanGive(net, gateway, used, ip) && forall k: u32 | CanGive(net, gateway, used, k) :: ip <= k
              case Err(error) => error == PoolExhausted && forall k: u32 :: !CanGive(net, gateway, used, k)
  {
    hide IsFree, CanGive, ParseIpv4, Parsed;
    if GatewayOf(gateway).Ok? {
      forall k: u32
        ensures IsFree(net, GatewayOf(gateway).value, Parsed(used), k) <==> CanGive(net, gateway, used, k)
      {
        FreeIsCanGive(net, gateway, used, k);
      }
    }
  }

  method Allocate(net: Ipv4Net, gateway: Option<string>, used: seq<string>) returns (r: Result<u32, NetError>)
    requires net.prefix <= 32
    ensures IsAnswer(net, gateway, used, r)
  {
    hide Ipv4Net.Nth, Ipv4Net.Broadcast, ParseIpv4, Parsed;
    var gw := GatewayOf(gateway);
    if gw.Err? {
      return Err(gw.error);
    }
    var start, end := First(net), Last(net);
    if start > end {
      return Err(PoolExhausted);
    }
    var taken := Parsed(used);
    var ip: u32 := start;
    while ip <= end
      invariant start <= ip && end < U32_LIMIT - 1
      invariant forall k: u32 | k < ip :: !IsFree(net, gw.value, taken, k)
    {
      if Some(ip) != gw.value && ip !in taken {
        return Ok(ip);
      }
      ip := ip + 1;
    }
    r := Err(PoolExhausted);
  }

  // ---------- Handing out addresses until the pool is dry ----------

  function Strings(ips: seq<u32>): (s: seq<string>)
    ensures |s| == |ips|
  {
    seq(|ips|, i requires 0 <= i < |ips| => Ipv4String(ips[i]))
  }

  // Each address was the answer when the ones before it had been fed back as used.
  ghost predicate IsSession(net: Ipv4Net, gateway: Option<string>, used: seq<string>, given: seq<u32>)
    requires net.prefix <= 32
  {
    forall i | 0 <= i < |given| :: IsAnswer(net, gateway, used + Strings(given[..i]), Ok(given[i]))
  }

  lemma ParsedGrows(used: seq<string>, text: string)
    ensures Parsed(used + [text]) == Parsed(used) + (if ParseIpv4(text).Ok? then [ParseIpv4(text).value] else [])
  {
    hide ParseIpv4;
    assert (used + [text])[..|used|] == used;
  }

  lemma {:induction false} ParsedFedBack(used: seq<string>, given: seq<u32>)
    ensures Parsed(used + Strings(given)) == Parsed(used) + given
  {
    hide ParseIpv4, Ipv4String, Parsed;
    if given == [] {
      assert used + Strings(given) == used;
    } else {
      var front, last := given[..|given| - 1], given[|given| - 1];
      ParsedFedBack(used, front);
      assert Strings(given) == Strings(front) + [Ipv4String(last)];
      assert used + Strings(given) == used + Strings(front) + [Ipv4String(last)];
      ParsedGrows(used + Strings(front), Ipv4String(last));
      ParseOfPrinted(last);
      assert given == front + [last];
    }
  }

  function Range(lo: nat, hi: int): (r: set<u32>)
    requires hi < U32_LIMIT
    decreases hi + 1
  {
    if hi < lo then {} else Range(lo, hi - 1) + {hi}
  }

  lemma {:induction false} RangeIs(lo: nat, hi: int, ip: u32)
    requires hi < U32_LIMIT
    ensures ip in Range(lo, hi) <==> lo <= ip <= hi
    decreases hi + 1
  {
    if lo <= hi {
      RangeIs(lo, hi - 1, ip);
    }
  }

  lemma {:induction false} RangeSize(lo: nat, hi: int)
    requires hi < U32_LIMIT && hi + 1 >= lo
    ensures |Range(lo, hi)| == hi + 1 - lo
    decreases hi + 1
  {
    if lo <= hi {
      RangeSize(lo, hi - 1);
      RangeIs(lo, hi - 1, hi);
    }
  }

  function FreeSet(net: Ipv4Net, gw: Option<u32>, taken: seq<u32>): set<u32>
    requires net.prefix <= 32
  {
    set ip <- Range(First(net), Last(net)) | IsFree(net, gw, taken, ip)
  }

  lemma FreeSetIs(net: Ipv4Net, gw: Option<u32>, taken: seq<u32>, ip: u32)
    requires net.prefix <= 32
    ensures ip in FreeSet(net, gw, taken) <==> IsFree(net, gw, taken, ip)
  {
    hide Ipv4Net.Broadcast;
    RangeIs(First(net), Last(net), ip);
  }

  ghost predicate Ascending(given: seq<u32>) {
    forall i, j | 0 <= i < j < |given| :: given[i] < given[j]
  }

  // These are the least free addresses, in order.
  ghost predicate IsFront(net: Ipv4Net, gw: Option<u32>, taken: seq<u32>, given: seq<u32>)
    requires net.prefix <= 32
  {
    && Ascending(given)
    && (forall ip <- given :: IsFree(net, gw, taken, ip))
    && forall k: u32 | IsFree(net, gw, taken, k) && k !in given :: forall ip <- given :: ip < k
  }

  lemma FrontGrows(net: Ipv4Net, gw: Option<u32>, taken: seq<u32>, front: seq<u32>, last: u32)
    requires net.prefix <= 32 && IsFront(net, gw, taken, front)
    requires IsLeastFree(net, gw, taken + front, last)
    ensures IsFront(net, gw, taken, front + [last])
  {
    hide First, Last;
    var given := front + [last];
    assert Ascending(given) by {
      assert forall i | 0 <= i < |front| :: front[i] in front;
    }
    hide Ascending;
    forall k: u32 | IsFree(net, gw, taken, k) && k !in given
      ensures forall ip <- given :: ip < k
    {
      assert IsFree(net, gw, taken + front, k);
    }
  }

  lemma SessionEnds(net: Ipv4Net, gateway: Option<string>, used: seq<string>, front: seq<u32>, last: u32)
    requires net.prefix <= 32 && IsSession(net, gateway, used, front + [last])
    ensures IsSession(net, gateway, used, front)
    ensures IsAnswer(net, gateway, used + Strings(front), Ok(last))
  {
    hide IsAnswer, Strings;
    var given := front + [last];
    assert forall i | 0 <= i < |front| :: given[..i] == front[..i];
    assert given[..|front|] == front;
  }

  lemma AnswerIsLeast(net: Ipv4Net, gateway: Option<string>, used: seq<string>, gw: Option<u32>, ip: u32)
    requires net.prefix <= 32 && GatewayOf(gateway) == Ok(gw) && IsAnswer(net, gateway, used, Ok(ip))
    ensures IsLeastFree(net, gw, Parsed(used), ip)
  {
    hide IsFree, Parsed, GatewayOf;
  }

  lemma EmptyIsFront(net: Ipv4Net, gw: Option<u32>, taken: seq<u32>)
    requires net.prefix <= 32
    ensures IsFront(net, gw, taken, [])
  {
  }

  lemma {:induction false} SessionIsFront(net: Ipv4Net, gateway: Option<string>, used: seq<string>, given: seq<u32>,
                                          gw: Option<u32>)
    requires net.prefix <= 32 && GatewayOf(gateway) == Ok(gw) && IsSession(net, gateway, used, given)
    ensures IsFront(net, gw, Parsed(used), given)
  {
    hide *;
    if given == [] {
      EmptyIsFront(net, gw, Parsed(used));
    } else {
      var front, last := given[..|given| - 1], given[|given| - 1];
      assert given == front + [last];
      SessionEnds(net, gateway, used, front, last);
      SessionIsFront(net, gateway, used, front, gw);
      ParsedFedBack(used, front);
      AnswerIsLeast(net, gateway, used + Strings(front), gw, last);
      FrontGrows(net, gw, Parsed(used), front, last);
    }
  }

  // What is free after a session is what was free before it, less what it gave.
  lemma FreeAfterSession(net: Ipv4Net, gw: Option<u32>, used: seq<string>, given: seq<u32>, k: u32)
    requires net.prefix <= 32
    ensures IsFree(net, gw, Parsed(used + Strings(given)), k) <==> IsFree(net, gw, Parsed(used), k) && k !in given
  {
    hide First, Last, Parsed;
    ParsedFedBack(used, given);
  }

  lemma {:induction false} AscendingSize(given: seq<u32>, ips: set<u32>)
    requires Ascending(given)
    requires forall ip :: ip in ips <==> ip in given
    ensures |ips| == |given|
  {
    if given != [] {
      var front, last := given[..|given| - 1], given[|given| - 1];
      assert given == front + [last];
      assert last !in front;
      AscendingSize(front, ips - {last});
    }
  }

  // The pool runs dry exactly when it has given every address that was free at the start, each of them
  // once, in ascending order.
  lemma SessionExhaustsPool(net: Ipv4Net, gateway: Option<string>, used: seq<string>, given: seq<u32>,
                            gw: Option<u32>, next: Result<u32, NetError>)
    requires net.prefix <= 32 && GatewayOf(gateway) == Ok(gw)
    requires IsSession(net, gateway, used, given)
    requires IsAnswer(net, gateway, used + Strings(given), next)
    ensures Ascending(given)
    ensures forall ip <- given :: ip in FreeSet(net, gw, Parsed(used))
    ensures next == Err(PoolExhausted) <==> |given| == |FreeSet(net, gw, Parsed(used))|
  {
    hide IsFree, FreeSet, Parsed, IsSession, GatewayOf, Range, First, Last, Ascending;
    var free := FreeSet(net, gw, Parsed(used));
    SessionIsFront(net, gateway, used, given, gw);
    forall k: u32
      ensures k in given ==> k in free
      ensures IsFree(net, gw, Parsed(used + Strings(given)), k) <==> k in free && k !in given
    {
      FreeSetIs(net, gw, Parsed(used), k);
      FreeAfterSession(net, gw, used, given, k);
    }
    hide IsFront;
    var ips := set ip <- given;
    AscendingSize(given, ips);
    if next.Err? {
      assert free == ips;
    }
    if |given| == |free| {
      SubsetOfSameSize(ips, free);
    }
  }

  lemma {:induction false} SubsetOfSameSize(a: set<u32>, b: set<u32>)
    requires a <= b && |a| == |b|
    ensures a == b
  {
    if a != {} {
      var x :| x in a;
      SubsetOfSameSize(a - {x}, b - {x});
    }
  }

  // How many addresses a network has to give: all but the network address, the next one and the
  // broadcast address, and but the gateway when it is one of them.
  lemma PoolSize(net: Ipv4Net, gw: Option<u32>)
    requires net.Normal() && net.prefix <= 30
    ensures |FreeSet(net, gw, [])|
         == net.Size() - 3 - if gw.Some? && First(net) <= gw.value <= Last(net) then 1 else 0
  {
    hide Ipv4Net.Broadcast;
    BroadcastIs(net);
    assert net.Size() >= 4 by {
      Pow2Grows(2, 32 - net.prefix);
      assert Pow2(1) == 2 && Pow2(2) == 4;
    }
    var all := Range(First(net), Last(net));
    RangeSize(First(net), Last(net));
    forall ip: u32
      ensures ip in FreeSet(net, gw, []) <==> ip in all && Some(ip) != gw
    {
      RangeIs(First(net), Last(net), ip);
      FreeSetIs(net, gw, [], ip);
    }
    if gw.Some? && First(net) <= gw.value <= Last(net) {
      RangeIs(First(net), Last(net), gw.value);
      assert FreeSet(net, gw, []) == all - {gw.value};
    } else {
      assert forall ip <- all :: First(net) <= ip <= Last(net) by {
        forall ip | ip in all
          ensures First(net) <= ip <= Last(net)
        {
          RangeIs(First(net), Last(net), ip);
        }
      }
      assert FreeSet(net, gw, []) == all;
    }
  }

  // A /31 or /32 network has none.
  lemma TinyNetworkIsExhausted(net: Ipv4Net, gw: Option<u32>, taken: seq<u32>, ip: u32)
    requires net.Normal() && net.prefix > 30
    ensures !IsFree(net, gw, taken, ip)
  {
    hide Ipv4Net.Broadcast;
    BroadcastIs(net);
    assert Pow2(0) == 1 && Pow2(1) == 2;
  }
}
