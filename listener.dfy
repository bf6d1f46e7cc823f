/**
 * The report listener (`receive_loop`): every datagram is decoded, every v4
 * report is forwarded to the DNS-update endpoint and fed to the failure
 * tracker, and v6, unknown and malformed reports are only logged.
 */
module Listener {

  import opened Text
  import opened Report
  import opened Tracker
  import opened Effects

  /** The tracker after one datagram and the calls the datagram caused, in order. */
  datatype Step = Step(starts: map<string, int>, effects: seq<Effect>)

  /** The protocol that drives notification and remediation. */
  const PRIMARY: string := "v4"

  /** What handling one payload from `senderIp` at time `now` does. */
  function Receive(starts: map<string, int>, payload: string, senderIp: string, now: int): (r: Step)
    ensures |r.effects| <= 2
    ensures r.effects == [] ==> r.starts == starts
    ensures r.effects != [] ==> r.effects[0].Notify? && r.effects[0].clientIp == senderIp
    ensures forall i :: 1 <= i < |r.effects| ==> r.effects[i] == ReplaceIp
  {
    match Parse(payload)
    case Malformed(_) => Step(starts, [])
    case Wellformed(report) =>
      if report.protocol == PRIMARY then
        var v := Observe(starts, report.domain, report.connectivity, now);
        var notify := Notify(senderIp, report.connectivity, report.domain);
        Step(v.starts, if v.remediate then [notify, ReplaceIp] else [notify])
      else
        Step(starts, [])
  }

  /** A payload with fewer than four fields changes nothing and calls nothing. */
  lemma MalformedIsInert(starts: map<string, int>, payload: string, senderIp: string, now: int)
    requires |Split(Strip(payload))| < MIN_FIELDS
    ensures Receive(starts, payload, senderIp, now) == Step(starts, [])
  {
  }

  /** A report whose protocol is not v4 in any letter case (v6, or anything
      else) changes nothing and calls nothing. */
  lemma OtherProtocolIsInert(starts: map<string, int>, payload: string, senderIp: string, now: int)
    requires |Fields(payload)| >= MIN_FIELDS
    requires Fields(payload)[1] != "v4" && Fields(payload)[1] != "V4"
    ensures Receive(starts, payload, senderIp, now) == Step(starts, [])
  {
    LowerIsV4(Fields(payload)[1]);
  }

  /** A v4 report, in any letter case, notifies exactly once with the sender's
      own address (not the reported one), the flag and the domain, and then
      replaces the instance address exactly when the tracker says so. */
  lemma PrimaryNotifiesOnce(starts: map<string, int>, payload: string, senderIp: string, now: int)
    requires |Fields(payload)| >= MIN_FIELDS
    requires Fields(payload)[1] == "v4" || Fields(payload)[1] == "V4"
    ensures var fs := Fields(payload);
      var v := Observe(starts, fs[0], fs[3], now);
      var r := Receive(starts, payload, senderIp, now);
      && r.starts == v.starts
      && |r.effects| >= 1 && r.effects[0] == Notify(senderIp, fs[3], fs[0])
      && (ReplaceIp in r.effects <==> v.remediate)
  {
    var fs := Fields(payload);
    assert Lower(fs[1]) == PRIMARY by {
      LowerIsV4(fs[1]);
    }
    assert Parse(payload) == Wellformed(Report(fs[0], PRIMARY, fs[2], fs[3]));
  }

  /** Only the domain, the protocol up to letter case and the flag matter: the
      reported address and any extra fields are ignored. */
  lemma OnlyDomainProtocolFlagMatter(starts: map<string, int>, p: string, q: string, senderIp: string, now: int)
    requires |Fields(p)| >= MIN_FIELDS && |Fields(q)| >= MIN_FIELDS
    requires Fields(p)[0] == Fields(q)[0] && Fields(p)[3] == Fields(q)[3]
    requires Lower(Fields(p)[1]) == Lower(Fields(q)[1])
    ensures Receive(starts, p, senderIp, now) == Receive(starts, q, senderIp, now)
  {
  }

  /** The example reports of one domain decode to their four fields. */
  lemma ExamplePayload(payload: string, flag: string)
    requires flag == "0" || flag == "1"
    requires payload == "example.com,v4,1.2.3.4," + flag
    ensures Parse(payload) == Wellformed(Report("example.com", "v4", "1.2.3.4", flag))
  {
    var report := Report("example.com", "v4", "1.2.3.4", flag);
    assert Encodable(report) by {
      LowerIsV4("v4");
    }
    assert Format(report) == payload by {
      FourFieldsJoin([report.domain, report.protocol, report.reportedIp, report.connectivity]);
    }
    ParseFormat(report);
  }

  /** A first "0" report of a domain notifies and opens its window, without
      replacing the address. */
  lemma FailureOpensWindow(starts: map<string, int>, payload: string, report: Report, senderIp: string, now: int)
    requires Parse(payload) == Wellformed(report) && report.protocol == PRIMARY
    requires report.connectivity == FAILING && report.domain !in starts
    ensures Receive(starts, payload, senderIp, now) ==
      Step(starts[report.domain := now], [Notify(senderIp, FAILING, report.domain)])
  {
  }

  /** A "0" report at least `THRESHOLD` seconds into the window notifies,
      replaces the address and restarts the window at `now`. */
  lemma FailurePastThresholdReplaces(starts: map<string, int>, payload: string, report: Report, senderIp: string, now: int)
    requires Parse(payload) == Wellformed(report) && report.protocol == PRIMARY
    requires report.connectivity == FAILING && report.domain in starts
    requires now - starts[report.domain] >= THRESHOLD
    ensures Receive(starts, payload, senderIp, now) ==
      Step(starts[report.domain := now], [Notify(senderIp, FAILING, report.domain), ReplaceIp])
  {
  }

  /** A "0" report less than `THRESHOLD` seconds into the window only
      notifies; the window keeps its start. */
  lemma FailureWithinWindowWaits(starts: map<string, int>, payload: string, report: Report, senderIp: string, now: int)
    requires Parse(payload) == Wellformed(report) && report.protocol == PRIMARY
    requires report.connectivity == FAILING && report.domain in starts
    requires now - starts[report.domain] < THRESHOLD
    ensures Receive(starts, payload, senderIp, now) == Step(starts, [Notify(senderIp, FAILING, report.domain)])
  {
  }

  /** Any other flag notifies and closes the domain's window. */
  lemma RecoveryClosesWindow(starts: map<string, int>, payload: string, report: Report, senderIp: string, now: int)
    requires Parse(payload) == Wellformed(report) && report.protocol == PRIMARY
    requires report.connectivity != FAILING
    ensures Receive(starts, payload, senderIp, now) ==
      Step(starts - {report.domain}, [Notify(senderIp, report.connectivity, report.domain)])
  {
  }

  lemma OverwriteEntry(domain: string, a: int, b: int)
    ensures map[domain := a][domain := b] == map[domain := b]
  {
  }

  lemma RemoveAbsent(starts: map<string, int>, domain: string)
    requires domain !in starts
    ensures starts - {domain} == starts
  {
  }

  lemma RemoveOnlyEntry(domain: string, a: int)
    ensures map[domain := a] - {domain} == map[]
  {
  }

  /** The lifecycle of one domain: a first "0" opens the window, a "0" 305
      seconds later replaces the address once and reopens the window, and a
      "1" clears the entry. */
  lemma DomainLifecycle(domain: string, reportedIp: string, down: string, up: string, senderIp: string)
    requires Parse(down) == Wellformed(Report(domain, PRIMARY, reportedIp, "0"))
    requires Parse(up) == Wellformed(Report(domain, PRIMARY, reportedIp, "1"))
    ensures var s0 := Receive(map[], down, senderIp, 0);
      var s1 := Receive(s0.starts, down, senderIp, 305);
      var s2 := Receive(s1.starts, up, senderIp, 310);
      && s0 == Step(map[domain := 0], [Notify(senderIp, "0", domain)])
      && s1 == Step(map[domain := 305], [Notify(senderIp, "0", domain), ReplaceIp])
      && s2 == Step(map[], [Notify(senderIp, "1", domain)])
  {
    FailureOpensWindow(map[], down, Report(domain, PRIMARY, reportedIp, "0"), senderIp, 0);
    OverwriteEntry(domain, 0, 305);
    FailurePastThresholdReplaces(map[domain := 0], down, Report(domain, PRIMARY, reportedIp, "0"), senderIp, 305);
    RemoveOnlyEntry(domain, 305);
    RecoveryClosesWindow(map[domain := 305], up, Report(domain, PRIMARY, reportedIp, "1"), senderIp, 310);
  }

  /** One received datagram: its payload, the sender's address and the time it
      was handled. The sender's port is only logged. */
  datatype Datagram = Datagram(payload: string, senderIp: string, now: int)

  /** What handling a sequence of datagrams in order does. */
  function ReceiveAll(starts: map<string, int>, datagrams: seq<Datagram>): (r: Step)
    ensures |r.effects| <= 2 * |datagrams|
    ensures multiset(r.effects)[ReplaceIp] <= |datagrams|
  {
    if datagrams == [] then Step(starts, [])
    else
      var before := ReceiveAll(starts, datagrams[..|datagrams| - 1]);
      var d := datagrams[|datagrams| - 1];
      var step := Receive(before.starts, d.payload, d.senderIp, d.now);
      assert multiset(step.effects)[ReplaceIp] <= 1 by {
        if |step.effects| == 2 {
          assert step.effects == [step.effects[0], ReplaceIp];
        }
      }
      Step(step.starts, before.effects + step.effects)
  }

  /** The report a datagram feeds to the failure timer: one for a v4 report,
      none for a malformed or non-v4 one. */
  function SamplesOf(d: Datagram): (trace: seq<Sample>)
    ensures |trace| <= 1
  {
    match Parse(d.payload)
    case Malformed(_) => []
    case Wellformed(report) =>
      if report.protocol == PRIMARY then [Sample(report.domain, report.connectivity, d.now)] else []
  }

  /** The reports a sequence of datagrams feeds to the failure timer, in order. */
  function Samples(datagrams: seq<Datagram>): (trace: seq<Sample>)
    ensures |trace| <= |datagrams|
  {
    if datagrams == [] then []
    else Samples(datagrams[..|datagrams| - 1]) + SamplesOf(datagrams[|datagrams| - 1])
  }

  /** The receive loop drives the failure timer exactly as `Tracker.Run` does
      over the v4 reports it receives: the same final map, and as many address
      replacements as `Run` has firings. So the debounce, threshold and
      recovery lemmas about `Run` hold of the receive loop. */
  lemma {:induction false} ReceiveAllIsRun(starts: map<string, int>, datagrams: seq<Datagram>)
    ensures ReceiveAll(starts, datagrams).starts == Run(starts, Samples(datagrams)).starts
    ensures multiset(ReceiveAll(starts, datagrams).effects)[ReplaceIp] ==
      multiset(Run(starts, Samples(datagrams)).fired)[true]
  {
    if datagrams != [] {
      var init := datagrams[..|datagrams| - 1];
      var d := datagrams[|datagrams| - 1];
      ReceiveAllIsRun(starts, init);
      var before := ReceiveAll(starts, init);
      var trace := Samples(init);
      var step := Receive(before.starts, d.payload, d.senderIp, d.now);
      if SamplesOf(d) == [] {
        assert Samples(datagrams) == trace;
        assert step == Step(before.starts, []);
      } else {
        var x := SamplesOf(d)[0];
        assert Samples(datagrams) == trace + [x];
        assert (trace + [x])[..|trace|] == trace;
        var v := Observe(Run(starts, trace).starts, x.domain, x.flag, x.now);
        assert step.starts == v.starts;
        assert multiset(step.effects)[ReplaceIp] == if v.remediate then 1 else 0;
      }
    }
  }

  /** The state of the listener thread. */
  class ReportListener {

    /** `connectivity_0_start_time`: domain to the time its run of "0" reports began. */
    var startTimes: map<string, int>

    constructor ()
      ensures startTimes == map[]
    {
      startTimes := map[];
    }

    /** The failure-timer update for one v4 report: open the window on a
        first "0", replace the address and restart the window once it is
        `THRESHOLD` seconds old, and close it on any other flag. */
    method Track(domain: string, connectivity: string, now: int) returns (remediate: bool)
      modifies this
      ensures Verdict(startTimes, remediate) == Observe(old(startTimes), domain, connectivity, now)
    {
      remediate := false;
      if connectivity == FAILING {
        if domain !in startTimes {
          startTimes := startTimes[domain := now];
        } else {
          var elapsed := now - startTimes[domain];
          if elapsed >= THRESHOLD {
            remediate := true;
            startTimes := startTimes[domain := now];
          }
        }
      } else {
        if domain in startTimes {
          startTimes := startTimes - {domain};
        } else {
          RemoveAbsent(startTimes, domain);
        }
      }
    }

    /** The body of the receive loop for one datagram. */
    method HandleMessage(payload: string, senderIp: string, now: int) returns (effects: seq<Effect>)
      modifies this
      ensures Step(startTimes, effects) == Receive(old(startTimes), payload, senderIp, now)
    {
      effects := [];
      var msg := Split(Strip(payload));
      if |msg| >= MIN_FIELDS {
        var domain := msg[0];
        var protocol := Lower(msg[1]);
        var connectivity := msg[3];
        assert Parse(payload) == Wellformed(Report(domain, protocol, msg[2], connectivity));
        // The postcondition is asserted on each path only to keep its proof
        // small; it states nothing beyond the method's ensures.
        if protocol == PRIMARY {
          effects := [Notify(senderIp, connectivity, domain)];
          var remediate := Track(domain, connectivity, now);
          if remediate {
            effects := effects + [ReplaceIp];
            assert Step(startTimes, effects) == Receive(old(startTimes), payload, senderIp, now);
          } else {
            assert Step(startTimes, effects) == Receive(old(startTimes), payload, senderIp, now);
          }
        } else {
          assert Step(startTimes, effects) == Receive(old(startTimes), payload, senderIp, now);
        }
      } else {
        assert Step(startTimes, effects) == Receive(old(startTimes), payload, senderIp, now);
      }
    }

    /** The receive loop over the datagrams that arrive: the tracker starts
        empty each time the loop starts, and the datagrams are handled in order. */
    method ReceiveLoop(datagrams: seq<Datagram>) returns (effects: seq<Effect>)
      modifies this
      ensures Step(startTimes, effects) == ReceiveAll(map[], datagrams)
    {
      startTimes := map[];
      effects := [];
      for i := 0 to |datagrams|
        invariant Step(startTimes, effects) == ReceiveAll(map[], datagrams[..i])
      {
        var d := datagrams[i];
        var e := HandleMessage(d.payload, d.senderIp, d.now);
        effects := effects + e;
        assert datagrams[..i + 1][..i] == datagrams[..i];
      }
      assert datagrams[..|datagrams|] == datagrams;
    }
  }
}
