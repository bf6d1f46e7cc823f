/**
 * The public-address monitor (`ip_monitor_loop`): once a minute resolve the
 * server's own v4 address and tell the DNS-update endpoint when it is new.
 */
module Monitor {

  import opened Wrappers
  import opened Effects
  import opened Lookup

  /** The flag sent with the server's own address. */
  const REACHABLE: string := "1"

  /** The remembered address after a poll, and the calls the poll made. */
  datatype Poll = Poll(lastIp: Option<string>, effects: seq<Effect>)

  /** One iteration: a blank address is ignored; otherwise an address that is
      the first one seen or differs from the remembered one is announced once
      and remembered. `domain` is the configured home domain. */
  function MonitorStep(lastIp: Option<string>, currentIp: string, domain: string): (r: Poll)
    ensures currentIp == "" ==> r == Poll(lastIp, [])
    ensures currentIp != "" ==> r.lastIp == Some(currentIp)
    ensures r.effects == [] || r.effects == [Notify(currentIp, REACHABLE, domain)]
    ensures r.effects != [] <==> currentIp != "" && lastIp != Some(currentIp)
  {
    if currentIp != "" then
      if lastIp.None? || currentIp != lastIp.value then
        Poll(Some(currentIp), [Notify(currentIp, REACHABLE, domain)])
      else
        Poll(lastIp, [])
    else
      Poll(lastIp, [])
  }

  /** Successive polls that resolve the addresses `ips`. */
  function MonitorRun(lastIp: Option<string>, ips: seq<string>, domain: string): (r: Poll)
    ensures |r.effects| <= |ips|
    ensures forall i :: 0 <= i < |r.effects| ==>
      r.effects[i].Notify? && r.effects[i].clientIp in ips && r.effects[i].clientIp != ""
      && r.effects[i].connectivity == REACHABLE && r.effects[i].domain == domain
    ensures r.lastIp == lastIp || (r.lastIp.Some? && r.lastIp.value in ips && r.lastIp.value != "")
  {
    if ips == [] then Poll(lastIp, [])
    else
      var init := ips[..|ips| - 1];
      var before := MonitorRun(lastIp, init, domain);
      var step := MonitorStep(before.lastIp, ips[|ips| - 1], domain);
      assert forall x :: x in init ==> x in ips;
      Poll(step.lastIp, before.effects + step.effects)
  }

  /** Polls that keep resolving the remembered address (or nothing at all)
      announce nothing and keep the address. */
  lemma {:induction false} SteadyAddressIsQuiet(ip: string, ips: seq<string>, domain: string)
    requires forall i :: 0 <= i < |ips| ==> ips[i] == ip || ips[i] == ""
    ensures MonitorRun(Some(ip), ips, domain) == Poll(Some(ip), [])
  {
    if ips != [] {
      SteadyAddressIsQuiet(ip, ips[..|ips| - 1], domain);
    }
  }

  /** Before any address is known, polls that resolve nothing do nothing. */
  lemma {:induction false} BlankPollsAreQuiet(ips: seq<string>, domain: string)
    requires forall i :: 0 <= i < |ips| ==> ips[i] == ""
    ensures MonitorRun(None, ips, domain) == Poll(None, [])
  {
    if ips != [] {
      BlankPollsAreQuiet(ips[..|ips| - 1], domain);
    }
  }

  /** A poll that resolves an address other than the remembered one announces
      exactly that address, once, and remembers it. */
  lemma ChangeIsAnnounced(lastIp: Option<string>, ips: seq<string>, ip: string, domain: string)
    requires ip != "" && MonitorRun(lastIp, ips, domain).lastIp != Some(ip)
    ensures MonitorRun(lastIp, ips + [ip], domain) ==
      Poll(Some(ip), MonitorRun(lastIp, ips, domain).effects + [Notify(ip, REACHABLE, domain)])
  {
    assert (ips + [ip])[..|ips|] == ips;
  }

  /** The first address resolved after start is always announced, and it is
      the first announcement. */
  lemma FirstResolutionIsAnnounced(ips: seq<string>, k: nat, domain: string)
    requires k < |ips| && ips[k] != ""
    requires forall i :: 0 <= i < k ==> ips[i] == ""
    ensures var r := MonitorRun(None, ips, domain);
      r.effects != [] && r.effects[0] == Notify(ips[k], REACHABLE, domain)
  {
    FirstAnnouncementStays(ips, k, domain);
  }

  lemma {:induction false} FirstAnnouncementStays(ips: seq<string>, k: nat, domain: string)
    requires k < |ips| && ips[k] != ""
    requires forall i :: 0 <= i < k ==> ips[i] == ""
    ensures var r := MonitorRun(None, ips, domain);
      r.effects != [] && r.effects[0] == Notify(ips[k], REACHABLE, domain)
    decreases |ips|
  {
    var init := ips[..|ips| - 1];
    if k == |ips| - 1 {
      BlankPollsAreQuiet(init, domain);
    } else {
      FirstAnnouncementStays(init, k, domain);
    }
  }

  /** One poll of the monitor's inputs: what the lookup services would answer
      and what the local probe would give. */
  datatype Observation = Observation(fetch: string -> Reply, probe: LocalProbe)

  /** The address each poll resolves. */
  function Resolutions(lookups: seq<Observation>): (ips: seq<string>)
    ensures |ips| == |lookups|
    ensures forall i :: 0 <= i < |lookups| ==> ips[i] == Ipv4(lookups[i].fetch, lookups[i].probe)
  {
    seq(|lookups|, i requires 0 <= i < |lookups| => Ipv4(lookups[i].fetch, lookups[i].probe))
  }

  /** When every service fails and the local probe errors, the sentinel
      "0.0.0.0" is taken for the server's address and, unless it is already
      remembered, announced like a real change. */
  lemma FailedLookupAnnouncesSentinel(lastIp: Option<string>, lookup: Observation, domain: string)
    requires forall i :: 0 <= i < |IPV4_SERVICES| ==> RequestIp(lookup.fetch(IPV4_SERVICES[i])).None?
    requires lookup.probe == ProbeFailed && lastIp != Some(LOCAL_IPV4_SENTINEL)
    ensures MonitorStep(lastIp, Ipv4(lookup.fetch, lookup.probe), domain) ==
      Poll(Some(LOCAL_IPV4_SENTINEL), [Notify(LOCAL_IPV4_SENTINEL, REACHABLE, domain)])
  {
  }

  /** `ip_monitor_loop` over a finite sequence of polls, starting with no
      remembered address. */
  method MonitorLoop(lookups: seq<Observation>, domain: string) returns (lastIp: Option<string>, effects: seq<Effect>)
    ensures Poll(lastIp, effects) == MonitorRun(None, Resolutions(lookups), domain)
  {
    lastIp := None;
    effects := [];
    ghost var ips := Resolutions(lookups);
    for i := 0 to |lookups|
      invariant Poll(lastIp, effects) == MonitorRun(None, ips[..i], domain)
    {
      ghost var before := Poll(lastIp, effects);
      var currentIp := GetIpv4(lookups[i].fetch, lookups[i].probe);
      assert currentIp == ips[i];
      if currentIp != "" {
        if lastIp.None? || currentIp != lastIp.value {
          effects := effects + [Notify(currentIp, REACHABLE, domain)];
          lastIp := Some(currentIp);
        }
      }
      ghost var step := MonitorStep(before.lastIp, currentIp, domain);
      assert Poll(lastIp, effects) == Poll(step.lastIp, before.effects + step.effects);
      assert ips[..i + 1][..i] == ips[..i] && ips[..i + 1][i] == currentIp;
    }
    assert ips[..|lookups|] == ips;
  }
}
