/** Static address allocation (internal/adapter/ipam/static.go). */
module Ipam {
  import opened Wrappers
  import opened Text
  import opened Addresses

  datatype PoolError = BadFormat | BadStart | BadEnd | OutOfRange(index: int, size: nat)

  /** The text functions of Go's net package that the allocator calls, as parameters. */
  datatype Codec = Codec(parse: string -> Option<Address>, format: Address -> string, prefixLength: string -> Option<nat>) {

    // Reading back what was written gives the same address.
    ghost predicate Valid() {
      forall a: Address :: parse(format(a)) == Some(a)
    }
  }

  /** The two end points of a range text "start-end", or which part of it is wrong. */
  function ParseRange(codec: Codec, text: string): Result<(Address, Address), PoolError> {
    var dash := IndexOf(text, '-');
    if dash == |text| then Err(BadFormat)
    else
      match (codec.parse(Trim(text[..dash])), codec.parse(Trim(text[dash + 1..])))
      case (None, _) => Err(BadStart)
      case (_, None) => Err(BadEnd)
      case (Some(start), Some(end)) => Ok((start, end))
  }

  /** A range as it is written: two texts around the first dash, with any white space around each. What stands on the left is
      the start, what stands on the right the end. */
  lemma RangeAsWritten(codec: Codec, a: string, x: string, b: string, c: string, y: string, d: string)
    requires AllSpace(a) && Tight(x) && AllSpace(b) && AllSpace(c) && Tight(y) && AllSpace(d) && '-' !in x
    ensures var range := ParseRange(codec, (a + x + b) + "-" + (c + y + d));
            && (codec.parse(x).None? ==> range == Err(BadStart))
            && (codec.parse(x).Some? && codec.parse(y).None? ==> range == Err(BadEnd))
            && (codec.parse(x).Some? && codec.parse(y).Some? ==> range == Ok((codec.parse(x).value, codec.parse(y).value)))
  {
    var left, right := a + x + b, c + y + d;
    var text := left + "-" + right;
    assert '-' !in left;
    IndexOfEnds(left, '-', "-" + right);
    assert text == left + ("-" + right);
    assert text[..|left|] == left && text[|left| + 1..] == right;
    TrimPadded(a, x, b);
    TrimPadded(c, y, d);
  }

  /** A text without a dash is no range. */
  lemma NoDash(codec: Codec, text: string)
    requires '-' !in text
    ensures ParseRange(codec, text) == Err(BadFormat)
  {
  }

  // What one round of the loop does to the last byte, and to the bytes before it.
  lemma IncrementLast(s: seq<Byte>)
    requires s != []
    ensures var last := |s| - 1;
            Increment(s) == if s[last] == 255 then Increment(s[..last]) + [0] else s[..last] + [s[last] + 1]
  {
  }

  lemma IncrementNothing()
    ensures Increment([]) == []
  {
  }

  method IncrementIP(ip: array<Byte>)
    modifies ip
    ensures ip[..] == Increment(old(ip[..]))
  {
    hide Increment;
    IncrementNothing();
    var i := ip.Length - 1;
    assert ip[..i + 1] == ip[..] && ip[i + 1..] == [];
    while i >= 0
      invariant -1 <= i < ip.Length
      invariant ip[..i + 1] == old(ip[..i + 1])
      invariant Increment(old(ip[..])) == Increment(old(ip[..i + 1])) + ip[i + 1..]
    {
      ghost var before := ip[..i + 1];
      IncrementLast(before);
      ip[i] := if ip[i] == 255 then 0 else ip[i] + 1;
      assert before[..i] == ip[..i];
      assert ip[i..] == [ip[i]] + ip[i + 1..];
      if ip[i] != 0 {
        assert ip[..] == (before[..i] + [ip[i]]) + ip[i + 1..];
        break;
      }
      i := i - 1;
    }
  }

  method Copied(bytes: Address) returns (a: array<Byte>)
    ensures fresh(a) && a[..] == bytes
  {
    a := new Byte[16];
    for i := 0 to 16
      invariant a[..i] == bytes[..i]
    {
      a[i] := bytes[i];
    }
  }

  /** A pool: the two arrays ParsePool worked on, and one array for each address. */
  class IPPool {
    var start: array<Byte>
    var end: array<Byte>
    var ips: seq<array<Byte>>
    ghost var entries: seq<Address>

    ghost predicate Valid()
      reads this, ips
    {
      && |entries| == |ips|
      && forall i :: 0 <= i < |ips| ==> ips[i][..] == entries[i]
    }

    constructor (start: array<Byte>, end: array<Byte>, ips: seq<array<Byte>>, ghost entries: seq<Address>)
      requires |entries| == |ips|
      requires forall i :: 0 <= i < |ips| ==> ips[i][..] == entries[i]
      ensures Valid() && this.entries == entries && this.start == start && this.end == end && this.ips == ips
    {
      this.start, this.end, this.ips, this.entries := start, end, ips, entries;
    }

    method Get(codec: Codec, index: int) returns (r: Result<string, PoolError>)
      requires Valid()
      ensures r == if 0 <= index < |entries| then Ok(codec.format(entries[index])) else Err(OutOfRange(index, |entries|))
    {
      if index < 0 || index >= |ips| {
        return Err(OutOfRange(index, |ips|));
      }
      return Ok(codec.format(ips[index][..]));
    }

    method Size() returns (n: nat)
      requires Valid()
      ensures n == |entries|
    {
      return |ips|;
    }

    method Contains(codec: Codec, text: string) returns (found: bool)
      requires Valid()
      ensures found <==> codec.parse(text).Some? && codec.parse(text).value in entries
    {
      var parsed := codec.parse(text);
      if parsed.None? {
        return false;
      }
      for i := 0 to |ips|
        invariant parsed.value !in entries[..i]
      {
        if ips[i][..] == parsed.value {
          return true;
        }
      }
      return false;
    }
  }

  /** The enumeration loop. The cursor is the start array itself, overwritten step by step; every stored entry is
      a fresh copy, so the entries begin at the original start while the start array ends up equal to end. */
  method Enumerate(start: array<Byte>, end: array<Byte>) returns (ips: seq<array<Byte>>, ghost entries: seq<Address>)
    requires start != end && start.Length == end.Length == 16
    modifies start
    ensures fresh(ips) && |entries| == |ips|
    ensures forall i :: 0 <= i < |ips| ==> ips[i][..] == entries[i]
    ensures entries == Range(old(start[..]), old(end[..]))
    ensures start[..] == end[..] == old(end[..])
  {
    ghost var first: Address, last: Address := start[..], end[..];
    ips, entries := [], [];
    var ip := start;
    while ip[..] != end[..]
      invariant fresh(ips) && |entries| == |ips|
      invariant forall i :: 0 <= i < |ips| ==> ips[i][..] == entries[i]
      invariant end[..] == last
      invariant entries + Range(ip[..], last) == Range(first, last)
      decreases Distance(ip[..], last)
    {
      ghost var here: Address := ip[..];
      var cp := Copied(ip[..]);
      ips := ips + [cp];
      RangeUnfolds(entries, here, last);
      entries := entries + [here];
      IncrementIP(ip);
    }
    var cp := Copied(end[..]);
    ips := ips + [cp];
    entries := entries + [last];
  }

  lemma RangeUnfolds(seen: seq<Address>, here: Address, last: Address)
    requires here != last
    ensures Distance(Increment(here), last) < Distance(here, last)
    ensures seen + Range(here, last) == (seen + [here]) + Range(Increment(here), last)
  {
    DistanceStep(here, last);
  }

  /** The pool of a range as it is written: its entries go from the address on the left to the one on the right. */
  method PoolAsWritten(codec: Codec, a: string, x: string, b: string, c: string, y: string, d: string)
    returns (pool: IPPool)
    requires AllSpace(a) && Tight(x) && AllSpace(b) && AllSpace(c) && Tight(y) && AllSpace(d) && '-' !in x
    requires codec.parse(x).Some? && codec.parse(y).Some?
    ensures pool.Valid() && pool.entries == Range(codec.parse(x).value, codec.parse(y).value)
    ensures pool.entries[0] == codec.parse(x).value && pool.entries[|pool.entries| - 1] == codec.parse(y).value
  {
    hide ParseRange, Trim;
    RangeAsWritten(codec, a, x, b, c, y, d);
    var r := ParsePool(codec, (a + x + b) + "-" + (c + y + d));
    pool := r.value;
    RangeEnds(codec.parse(x).value, codec.parse(y).value);
  }

  method ParsePool(codec: Codec, text: string) returns (r: Result<IPPool, PoolError>)
    ensures match ParseRange(codec, text)
            case Err(e) => r == Err(e)
            case Ok((first, last)) =>
              && r.Ok? && fresh(r.value) && fresh(r.value.ips) && r.value.Valid()
              && r.value.entries == Range(first, last)
              && r.value.start[..] == r.value.end[..] == last
  {
    var dash := IndexOf(text, '-');
    if dash == |text| {
      return Err(BadFormat);
    }
    var first, last := codec.parse(Trim(text[..dash])), codec.parse(Trim(text[dash + 1..]));
    if first.None? {
      return Err(BadStart);
    }
    if last.None? {
      return Err(BadEnd);
    }
    var start := Copied(first.value);
    var end := Copied(last.value);
    var ips, entries := Enumerate(start, end);
    var pool := new IPPool(start, end, ips, entries);
    return Ok(pool);
  }

  /** The texts that Get returns are pairwise different, and Contains accepts each of them. */
  lemma GetInjective(codec: Codec, start: Address, end: Address, i: nat, j: nat)
    requires codec.Valid() && i < |Range(start, end)| && j < |Range(start, end)|
    ensures codec.format(Range(start, end)[i]) == codec.format(Range(start, end)[j]) <==> i == j
    ensures codec.parse(codec.format(Range(start, end)[i])) == Some(Range(start, end)[i])
  {
    var a, b := Range(start, end)[i], Range(start, end)[j];
    RangeInjective(start, end, i, j);
    assert codec.parse(codec.format(a)) == Some(a) && codec.parse(codec.format(b)) == Some(b);
  }

  function PrefixText(codec: Codec, cidr: string): string {
    if cidr == "" then "24"
    else match codec.prefixLength(cidr) case None => "24" case Some(ones) => Decimal(ones)
  }

  /** The cloud-init address setting for an address. */
  function IPConfig(codec: Codec, cidr: string, gateway: string, a: Address): string {
    "ip=" + codec.format(a) + "/" + PrefixText(codec, cidr) + (if gateway != "" then ",gw=" + gateway else "")
  }

  /** How a setting reads: the address, the digits of a prefix length, and the gateway if there is one. */
  ghost predicate ReadsAs(setting: string, address: string, prefix: nat, gateway: string) {
    exists digits: string ::
      && AllDigits(digits) && DigitsValue(digits) == prefix
      && setting == "ip=" + address + "/" + digits + (if gateway == "" then "" else ",gw=" + gateway)
  }

  lemma IPConfigReads(codec: Codec, cidr: string, gateway: string, a: Address)
    ensures var prefix := if cidr != "" && codec.prefixLength(cidr).Some? then codec.prefixLength(cidr).value else 24;
            ReadsAs(IPConfig(codec, cidr, gateway, a), codec.format(a), prefix, gateway)
  {
    var prefix := if cidr != "" && codec.prefixLength(cidr).Some? then codec.prefixLength(cidr).value else 24;
    var digits := PrefixText(codec, cidr);
    DecimalValue(prefix);
    TwentyFour();
    assert digits == Decimal(prefix);
    assert IPConfig(codec, cidr, gateway, a) ==
           "ip=" + codec.format(a) + "/" + digits + (if gateway == "" then "" else ",gw=" + gateway);
  }

  lemma TwentyFour()
    ensures Decimal(24) == "24"
  {
    assert Decimal(2) == "2";
  }

  /** Reading it back: the address up to the first '/', the prefix length and the gateway are determined. */
  lemma ReadsOneWay(setting: string, address: string, prefix: nat, gateway: string, address': string, prefix': nat,
                    gateway': string)
    requires '/' !in address && '/' !in address'
    requires ReadsAs(setting, address, prefix, gateway) && ReadsAs(setting, address', prefix', gateway')
    ensures address == address' && prefix == prefix' && gateway == gateway'
  {
    var s: string :| AllDigits(s) && DigitsValue(s) == prefix
                     && setting == "ip=" + address + "/" + s + (if gateway == "" then "" else ",gw=" + gateway);
    var t: string :| AllDigits(t) && DigitsValue(t) == prefix'
                     && setting == "ip=" + address' + "/" + t + (if gateway' == "" then "" else ",gw=" + gateway');
    var u := if gateway == "" then "" else ",gw=" + gateway;
    var v := if gateway' == "" then "" else ",gw=" + gateway';
    AfterAddress(setting, address, s, u);
    AfterAddress(setting, address', t, v);
    FirstSlash(address, s + u, address', t + v);
    DigitsStop(s, u, t, v);
    assert gateway != "" ==> u[4..] == gateway;
    assert gateway' != "" ==> v[4..] == gateway';
  }

  lemma AfterAddress(setting: string, address: string, digits: string, tail: string)
    requires setting == "ip=" + address + "/" + digits + tail
    ensures |setting| >= 3 && setting[3..] == address + "/" + (digits + tail)
    ensures setting[3..][|address| + 1..] == digits + tail
  {
    assert setting == "ip=" + (address + "/" + (digits + tail));
  }

  // Digits go up to the first comma.
  lemma DigitsStop(s: string, u: string, t: string, v: string)
    requires AllDigits(s) && AllDigits(t) && s + u == t + v
    requires (u == "" || u[0] == ',') && (v == "" || v[0] == ',')
    ensures s == t && u == v
  {
    var whole := s + u;
    IndexOfEnds(s, ',', u);
    IndexOfEnds(t, ',', v);
    assert s == whole[..|s|] && t == whole[..|t|] && u == whole[|s|..] && v == whole[|t|..];
  }

  /** Within one network, different addresses have different settings. */
  lemma IPConfigInjective(codec: Codec, cidr: string, gateway: string, a: Address, b: Address)
    requires codec.Valid()
    ensures IPConfig(codec, cidr, gateway, a) == IPConfig(codec, cidr, gateway, b) <==> a == b
  {
    var tail := "/" + PrefixText(codec, cidr) + (if gateway != "" then ",gw=" + gateway else "");
    var fa, fb := codec.format(a), codec.format(b);
    assert IPConfig(codec, cidr, gateway, a) == "ip=" + (fa + tail);
    assert IPConfig(codec, cidr, gateway, b) == "ip=" + (fb + tail);
    if "ip=" + (fa + tail) == "ip=" + (fb + tail) {
      MiddleEqual("ip=", fa, fb, tail);
      assert codec.parse(fa) == Some(a) && codec.parse(fb) == Some(b);
    }
  }

  // Across networks, too, a setting tells its address: it stands before the first '/'.
  lemma SettingTellsAddress(codec: Codec, cidr: string, gateway: string, a: Address, cidr': string, gateway': string,
                            b: Address)
    requires codec.Valid() && '/' !in codec.format(a) && '/' !in codec.format(b)
    requires IPConfig(codec, cidr, gateway, a) == IPConfig(codec, cidr', gateway', b)
    ensures a == b
  {
    hide PrefixText;
    var x, y := codec.format(a), codec.format(b);
    var s := PrefixText(codec, cidr) + (if gateway != "" then ",gw=" + gateway else "");
    var t := PrefixText(codec, cidr') + (if gateway' != "" then ",gw=" + gateway' else "");
    assert IPConfig(codec, cidr, gateway, a) == "ip=" + (x + "/" + s);
    assert IPConfig(codec, cidr', gateway', b) == "ip=" + (y + "/" + t);
    assert ("ip=" + (x + "/" + s))[3..] == x + "/" + s && ("ip=" + (y + "/" + t))[3..] == y + "/" + t;
    FirstSlash(x, s, y, t);
    assert codec.parse(x) == Some(a) && codec.parse(y) == Some(b);
  }

  lemma FirstSlash(x: string, s: string, y: string, t: string)
    requires '/' !in x && '/' !in y && x + "/" + s == y + "/" + t
    ensures x == y
  {
    var whole := x + "/" + s;
    assert whole[|x|] == '/' && whole[|y|] == '/';
    assert forall i :: 0 <= i < |x| ==> whole[i] == x[i];
    assert forall i :: 0 <= i < |y| ==> whole[i] == y[i];
    assert x == whole[..|x|] && y == whole[..|y|];
  }

  lemma MiddleEqual(front: string, x: string, y: string, back: string)
    requires front + (x + back) == front + (y + back)
    ensures x == y
  {
    var s := front + (x + back);
    assert |x| == |y|;
    assert x == s[|front|..|front| + |x|] == y;
  }

  // The settings of all addresses of a pool, in order.
  function SettingsFor(codec: Codec, cidr: string, gateway: string, entries: seq<Address>): (r: seq<string>)
    ensures |r| == |entries|
  {
    seq(|entries|, i requires 0 <= i < |entries| => IPConfig(codec, cidr, gateway, entries[i]))
  }

  class StaticAllocator {
    var pool: IPPool
    var cidr: string
    var gateway: string

    constructor (pool: IPPool, cidr: string, gateway: string)
      ensures this.pool == pool && this.cidr == cidr && this.gateway == gateway
    {
      this.pool, this.cidr, this.gateway := pool, cidr, gateway;
    }

    ghost function Settings(codec: Codec): seq<string>
      reads this, pool
    {
      SettingsFor(codec, cidr, gateway, pool.entries)
    }

    method IPConfigForIndex(codec: Codec, index: int) returns (r: Result<string, PoolError>)
      requires pool.Valid()
      ensures r == if 0 <= index < |Settings(codec)| then Ok(Settings(codec)[index])
                   else Err(OutOfRange(index, |Settings(codec)|))
      ensures r.Ok? <==> 0 <= index < |pool.entries|
      ensures r.Ok? ==>
                var prefix := if cidr != "" && codec.prefixLength(cidr).Some? then codec.prefixLength(cidr).value else 24;
                ReadsAs(r.value, codec.format(pool.entries[index]), prefix, gateway)
    {
      hide ReadsAs;
      var ip := pool.Get(codec, index);
      if ip.Err? {
        return Err(ip.error);
      }
      var prefix := "24";
      if cidr != "" {
        var ones := codec.prefixLength(cidr);
        if ones.Some? {
          prefix := Decimal(ones.value);
        }
      }
      var cfg := "ip=" + ip.value + "/" + prefix;
      assert cfg + "" == cfg;
      if gateway != "" {
        cfg := cfg + (",gw=" + gateway);
      }
      IPConfigReads(codec, cidr, gateway, pool.entries[index]);
      return Ok(cfg);
    }

    method TotalIPs() returns (n: nat)
      requires pool.Valid()
      ensures n == |pool.entries|
    {
      n := pool.Size();
    }
  }
}
