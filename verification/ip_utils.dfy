/**
 * UK detection by IP address (utils/ip.utils.ts): the verdict of a geolocation request,
 * with a local-address heuristic as fallback. The network and `os.networkInterfaces()`
 * are oracles handed in as values.
 */
module IpUtils {
  import opened Wrappers
  import opened Json
  import opened Text

  /** One address of a network interface, as `os.networkInterfaces()` lists it. */
  datatype Address = Address(address: string, family: string, internal: bool)

  /** A named interface; its address list may be missing. */
  datatype Interface = Interface(name: string, addresses: Option<seq<Address>>)

  const Fallback := "127.0.0.1"

  predicate Usable(a: Address)
  {
    !a.internal && a.family == "IPv4"
  }

  /** The first usable address of one list. */
  function FirstUsable(addrs: seq<Address>): (r: Option<string>)
    ensures r.Some? <==> exists i :: 0 <= i < |addrs| && Usable(addrs[i])
    ensures r.Some? ==> exists i :: 0 <= i < |addrs| && Usable(addrs[i]) && addrs[i].address == r.value
                                    && forall j :: 0 <= j < i ==> !Usable(addrs[j])
  {
    if |addrs| == 0 then None
    else if Usable(addrs[0]) then Some(addrs[0].address)
    else
      var r := FirstUsable(addrs[1..]);
      assert forall j :: 0 <= j < |addrs| - 1 ==> addrs[1..][j] == addrs[j + 1];
      r
  }

  /** All addresses, interface by interface, in enumeration order. */
  function AllAddresses(ifs: seq<Interface>): seq<Address>
  {
    if |ifs| == 0 then []
    else (if ifs[0].addresses.Some? then ifs[0].addresses.value else []) + AllAddresses(ifs[1..])
  }

  /**
   * `getLocalIpAddress()`: the first non-internal IPv4 address over the interfaces in
   * order, else '127.0.0.1' (also when listing the interfaces throws).
   */
  function LocalIpAddress(interfaces: Outcome<seq<Interface>>): (r: string)
    ensures interfaces.Throws? ==> r == Fallback
    ensures interfaces.Ok? ==>
      r == (match FirstUsable(AllAddresses(interfaces.value)) case Some(a) => a case None => Fallback)
  {
    match interfaces
    case Throws => Fallback
    case Ok(ifs) => Scan(ifs)
  }

  /** The nested loop over interfaces and their addresses. */
  function Scan(ifs: seq<Interface>): (r: string)
    ensures r == (match FirstUsable(AllAddresses(ifs)) case Some(a) => a case None => Fallback)
  {
    if |ifs| == 0 then Fallback
    else
      var here := if ifs[0].addresses.Some? then ifs[0].addresses.value else [];
      FirstUsableConcat(here, AllAddresses(ifs[1..]));
      match FirstUsable(here)
      case Some(a) => a
      case None => Scan(ifs[1..])
  }

  lemma {:induction false} FirstUsableConcat(a: seq<Address>, b: seq<Address>)
    ensures FirstUsable(a + b) == if FirstUsable(a).Some? then FirstUsable(a) else FirstUsable(b)
  {
    if |a| > 0 {
      assert (a + b)[1..] == a[1..] + b;
      FirstUsableConcat(a[1..], b);
    } else {
      assert a + b == b;
    }
  }

  /** The local address is a usable one, or the fallback exactly when there is none. */
  lemma LocalIpChoice(ifs: seq<Interface>)
    ensures var ip, all := LocalIpAddress(Ok(ifs)), AllAddresses(ifs);
      (exists i :: 0 <= i < |all| && Usable(all[i]) && all[i].address == ip)
      || (ip == Fallback && forall i :: 0 <= i < |all| ==> !Usable(all[i]))
  {
    var ip, all := LocalIpAddress(Ok(ifs)), AllAddresses(ifs);
    var first := FirstUsable(all);
    assert ip == if first.Some? then first.value else Fallback;
    if first.Some? {
      var i :| 0 <= i < |all| && Usable(all[i]) && all[i].address == first.value;
      assert all[i].address == ip;
    }
  }

  /** What the geolocation request produced: no response (error or timeout), or a status and a body. */
  datatype ApiResponse =
    | RequestFailed
    | Response(status: int, body: Option<Value>)   // body: None when the text is not JSON

  /**
   * `checkIfPublicIpIsFromUk()`: true or false when the request answered 200 with a JSON
   * body, by whether `country_code` is 'GB'; null otherwise. A `null` body makes the
   * property read throw, which is also null.
   */
  function PublicVerdict(resp: ApiResponse): (r: Option<bool>)
    ensures r.Some? <==> resp.Response? && resp.status == 200 && resp.body.Some? && !resp.body.value.Null?
    ensures r == Some(true) <==>
      resp.Response? && resp.status == 200 && resp.body.Some? && !resp.body.value.Null?
      && Get(resp.body.value, "country_code") == Some(Str("GB"))
  {
    match resp
    case RequestFailed => None
    case Response(status, body) =>
      if status != 200 then None
      else
        match body
        case None => None
        case Some(v) => if v.Null? then None else Some(Get(v, "country_code") == Some(Str("GB")))
  }

  /** The address prefixes the fallback heuristic treats as UK. */
  const UkIpRanges: seq<string> := ["51.", "81.", "82.", "86.", "87.", "193.", "194.", "195."]

  predicate InUkRange(ip: string)
  {
    exists i :: 0 <= i < |UkIpRanges| && StartsWith(ip, UkIpRanges[i])
  }

  /** `ukIpRanges.some(range => localIp.startsWith(range))`. */
  function SomePrefix(ip: string, ranges: seq<string>): (r: bool)
    ensures r <==> exists i :: 0 <= i < |ranges| && StartsWith(ip, ranges[i])
  {
    if |ranges| == 0 then false
    else
      var rest := SomePrefix(ip, ranges[1..]);
      assert forall i :: 0 <= i < |ranges| - 1 ==> ranges[1..][i] == ranges[i + 1];
      StartsWith(ip, ranges[0]) || rest
  }

  /**
   * `isUkIpAddress()`: the public verdict whenever there is one, else whether the local
   * address starts with a UK prefix. Neither step throws, so the catch that answers
   * false is never reached.
   */
  function IsUkIpAddress(resp: ApiResponse, interfaces: Outcome<seq<Interface>>): (r: bool)
    ensures PublicVerdict(resp).Some? ==> r == PublicVerdict(resp).value
    ensures PublicVerdict(resp).None? ==> (r <==> InUkRange(LocalIpAddress(interfaces)))
  {
    match PublicVerdict(resp)
    case Some(uk) => uk
    case None => SomePrefix(LocalIpAddress(interfaces), UkIpRanges)
  }

  /** With no verdict and no usable address, the fallback '127.0.0.1' is not UK. */
  lemma FallbackIsNotUk(resp: ApiResponse, interfaces: Outcome<seq<Interface>>)
    requires PublicVerdict(resp).None? && LocalIpAddress(interfaces) == Fallback
    ensures !IsUkIpAddress(resp, interfaces)
  {
    assert Fallback[0] == '1' && Fallback[1] == '2';
    assert forall i :: 0 <= i < |UkIpRanges| ==> UkIpRanges[i][0] != '1' || UkIpRanges[i][1] == '9';
    assert !InUkRange(Fallback);
  }

  /** A 200 answer naming GB is trusted over any local address. */
  lemma GbAnswerWins(interfaces: Outcome<seq<Interface>>)
    ensures IsUkIpAddress(Response(200, Some(Obj([Prop("country_code", Str("GB"))]))), interfaces)
  {
    assert Get(Obj([Prop("country_code", Str("GB"))]), "country_code") == Some(Str("GB"));
  }

  /** A local address in 81.0.0.0/8 counts as UK once the request has failed. */
  lemma LocalRangeDecides(rest: string)
    ensures var ifs := [Interface("eth0", Some([Address("81." + rest, "IPv4", false)]))];
      IsUkIpAddress(RequestFailed, Ok(ifs))
  {
    var ifs := [Interface("eth0", Some([Address("81." + rest, "IPv4", false)]))];
    assert AllAddresses(ifs) == [Address("81." + rest, "IPv4", false)];
    assert StartsWith("81." + rest, UkIpRanges[1]);
  }
}
