/**
 * Finding the server's own address: ask an ordered list of plain-text
 * "what is my IP" services and take the first usable answer, else fall back
 * to the address of the local interface.
 */
module Lookup {

  import opened Wrappers
  import opened Text

  /** What one GET to a lookup service produced: no response at all (timeout,
      connection error), or a response with its status code and body text. */
  datatype Reply = Unreachable | Http(status: int, body: string)

  /** What probing the local interface produced: its address, or an error. */
  datatype LocalProbe = Probed(ip: string) | ProbeFailed

  const IPV4_SERVICES: seq<string> :=
    ["https://checkip.amazonaws.com", "https://api.ipify.org", "https://ifconfig.me/ip", "https://ipinfo.io/ip"]

  const IPV6_SERVICES: seq<string> :=
    ["https://api6.ipify.org", "https://ifconfig.co/ip", "https://ipv6.icanhazip.com", "https://ip6.seeip.org"]

  /** What the local probes return when they fail. */
  const LOCAL_IPV4_SENTINEL: string := "0.0.0.0"
  const LOCAL_IPV6_SENTINEL: string := "::"

  /** `raise_for_status()` raises for the 4xx and 5xx status codes. */
  predicate RaisesForStatus(status: int) {
    400 <= status < 600
  }

  /** `_request_ip`: a reply counts when it arrived, its status is not an
      error, and its body is not blank; the address is the stripped body. */
  function RequestIp(reply: Reply): (r: Option<string>)
    ensures r.Some? <==> reply.Http? && !RaisesForStatus(reply.status) && Strip(reply.body) != ""
    ensures r.Some? ==> r.value == Strip(reply.body) && r.value != ""
  {
    match reply
    case Unreachable => None
    case Http(status, body) =>
      if RaisesForStatus(status) then None
      else
        var ip := Strip(body);
        if ip != "" then Some(ip) else None
  }

  /** The answer of the first service, in list order, whose reply counts;
      None when no reply counts. */
  function PublicIp(services: seq<string>, fetch: string -> Reply): (r: Option<string>)
    ensures r.Some? ==> r.value != ""
  {
    if services == [] then None
    else
      match RequestIp(fetch(services[0]))
      case Some(ip) => Some(ip)
      case None => PublicIp(services[1..], fetch)
  }

  /** Service `k` is the first whose reply counts. */
  predicate FirstSuccessAt(services: seq<string>, fetch: string -> Reply, k: nat) {
    && k < |services|
    && RequestIp(fetch(services[k])).Some?
    && forall i :: 0 <= i < k ==> RequestIp(fetch(services[i])).None?
  }

  /** First success wins: the lookup returns the answer of the first service
      whose reply counts, and returns None exactly when no reply counts. */
  lemma {:induction false} PublicIpIsFirstSuccess(services: seq<string>, fetch: string -> Reply)
    ensures PublicIp(services, fetch).None? <==>
      forall i :: 0 <= i < |services| ==> RequestIp(fetch(services[i])).None?
    ensures forall k: nat :: FirstSuccessAt(services, fetch, k) ==>
      PublicIp(services, fetch) == RequestIp(fetch(services[k]))
  {
    if services != [] {
      var tail := services[1..];
      PublicIpIsFirstSuccess(tail, fetch);
      if RequestIp(fetch(services[0])).None? {
        assert forall i :: 0 <= i < |tail| ==> tail[i] == services[i + 1];
        forall k: nat | FirstSuccessAt(services, fetch, k)
          ensures PublicIp(services, fetch) == RequestIp(fetch(services[k]))
        {
          assert k > 0;
          forall i | 0 <= i < k - 1 ensures RequestIp(fetch(tail[i])).None? {
            assert tail[i] == services[i + 1];
          }
          assert tail[k - 1] == services[k];
          assert FirstSuccessAt(tail, fetch, k - 1);
        }
      } else {
        forall k: nat | FirstSuccessAt(services, fetch, k)
          ensures PublicIp(services, fetch) == RequestIp(fetch(services[k]))
        {
          assert k == 0;
        }
      }
    }
  }

  /** `_get_public_ip`: the loop over the services with an early return.
      `tried` counts the services actually asked; none after the first
      success is asked. */
  method GetPublicIp(services: seq<string>, fetch: string -> Reply) returns (ip: Option<string>, tried: nat)
    ensures ip == PublicIp(services, fetch)
    ensures ip.Some? ==> 1 <= tried && FirstSuccessAt(services, fetch, tried - 1)
    ensures ip.None? ==> tried == |services|
  {
    tried := 0;
    for i := 0 to |services|
      invariant tried == i
      invariant forall j :: 0 <= j < i ==> RequestIp(fetch(services[j])).None?
      invariant PublicIp(services, fetch) == PublicIp(services[i..], fetch)
    {
      tried := tried + 1;
      ip := RequestIp(fetch(services[i]));
      if ip.Some? {
        return;
      }
      assert services[i..][1..] == services[i + 1..];
    }
    ip := None;
  }

  /** `get_local_ipv4`: the probed address, or the sentinel on error. */
  function LocalIpv4(probe: LocalProbe): (ip: string)
    ensures probe.Probed? ==> ip == probe.ip
    ensures probe.ProbeFailed? ==> ip == LOCAL_IPV4_SENTINEL
  {
    match probe
    case Probed(ip) => ip
    case ProbeFailed => LOCAL_IPV4_SENTINEL
  }

  /** `get_local_ipv6`: the probed address, or the sentinel on error. */
  function LocalIpv6(probe: LocalProbe): (ip: string)
    ensures probe.Probed? ==> ip == probe.ip
    ensures probe.ProbeFailed? ==> ip == LOCAL_IPV6_SENTINEL
  {
    match probe
    case Probed(ip) => ip
    case ProbeFailed => LOCAL_IPV6_SENTINEL
  }

  /** `get_ipv4`: the public address, or the local one when every service
      failed. The result is blank only when the local probe itself returned a
      blank address; in particular the error sentinel counts as an address. */
  function Ipv4(fetch: string -> Reply, probe: LocalProbe): (ip: string)
    ensures ip == "" ==> probe == Probed("")
    ensures (forall i :: 0 <= i < |IPV4_SERVICES| ==> RequestIp(fetch(IPV4_SERVICES[i])).None?) ==>
      ip == LocalIpv4(probe)
    ensures forall k: nat :: FirstSuccessAt(IPV4_SERVICES, fetch, k) ==> ip == RequestIp(fetch(IPV4_SERVICES[k])).value
  {
    PublicIpIsFirstSuccess(IPV4_SERVICES, fetch);
    match PublicIp(IPV4_SERVICES, fetch)
    case Some(ip) => ip
    case None => LocalIpv4(probe)
  }

  /** `get_ipv6`, the same over the v6 services. */
  function Ipv6(fetch: string -> Reply, probe: LocalProbe): (ip: string)
    ensures ip == "" ==> probe == Probed("")
    ensures (forall i :: 0 <= i < |IPV6_SERVICES| ==> RequestIp(fetch(IPV6_SERVICES[i])).None?) ==>
      ip == LocalIpv6(probe)
    ensures forall k: nat :: FirstSuccessAt(IPV6_SERVICES, fetch, k) ==> ip == RequestIp(fetch(IPV6_SERVICES[k])).value
  {
    PublicIpIsFirstSuccess(IPV6_SERVICES, fetch);
    match PublicIp(IPV6_SERVICES, fetch)
    case Some(ip) => ip
    case None => LocalIpv6(probe)
  }

  /** `get_ipv4` as the program runs it, through the service loop. */
  method GetIpv4(fetch: string -> Reply, probe: LocalProbe) returns (ip: string)
    ensures ip == Ipv4(fetch, probe)
  {
    var pub, _ := GetPublicIp(IPV4_SERVICES, fetch);
    if pub.Some? {
      ip := pub.value;
    } else {
      ip := LocalIpv4(probe);
    }
  }
}
