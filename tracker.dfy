/**
 * The per-domain failure timer (`connectivity_0_start_time`): for every domain
 * whose agents keep reporting connectivity "0", the time at which that run of
 * failures began. A domain without an entry is healthy.
 */
module Tracker {

  import opened Wrappers

  /** Seconds of continuous failure after which the instance address is replaced. */
  const THRESHOLD: int := 300

  /** The connectivity flag that means "unreachable"; every other string means reachable. */
  const FAILING: string := "0"

  /** The tracker after one report, and whether that report triggers a replacement. */
  datatype Verdict = Verdict(starts: map<string, int>, remediate: bool)

  /** One v4 report for `domain` with connectivity `flag`, received at time `now`. */
  function Observe(starts: map<string, int>, domain: string, flag: string, now: int): (r: Verdict)
    ensures r.starts - {domain} == starts - {domain}
    ensures domain in r.starts <==> flag == FAILING
    ensures r.remediate <==> flag == FAILING && domain in starts && now - starts[domain] >= THRESHOLD
    ensures domain in r.starts ==>
      r.starts[domain] == if domain in starts && !r.remediate then starts[domain] else now
  {
    if flag == FAILING then
      if domain !in starts then
        Verdict(starts[domain := now], false)
      else
        var elapsed := now - starts[domain];
        if elapsed >= THRESHOLD then Verdict(starts[domain := now], true)
        else Verdict(starts, false)
    else if domain in starts then
      Verdict(starts - {domain}, false)
    else
      Verdict(starts, false)
  }

  /** A report as the tracker sees it. */
  datatype Sample = Sample(domain: string, flag: string, now: int)

  /** The tracker after a sequence of reports, and for each report whether it
      triggered a replacement. */
  datatype History = History(starts: map<string, int>, fired: seq<bool>)

  /** Feeds the reports to the tracker one after the other. */
  function Run(starts: map<string, int>, trace: seq<Sample>): (r: History)
    ensures |r.fired| == |trace|
    ensures forall i :: 0 <= i < |trace| && r.fired[i] ==> trace[i].flag == FAILING
  {
    if trace == [] then History(starts, [])
    else
      var before := Run(starts, trace[..|trace| - 1]);
      var s := trace[|trace| - 1];
      var v := Observe(before.starts, s.domain, s.flag, s.now);
      assert forall i :: 0 <= i < |trace| - 1 ==> trace[..|trace| - 1][i] == trace[i];
      History(v.starts, before.fired + [v.remediate])
  }

  /** Feeding two traces one after the other is feeding their concatenation. */
  lemma {:induction false} RunAppend(starts: map<string, int>, a: seq<Sample>, b: seq<Sample>)
    ensures var first := Run(starts, a);
      var second := Run(first.starts, b);
      Run(starts, a + b) == History(second.starts, first.fired + second.fired)
  {
    if b != [] {
      var init := b[..|b| - 1];
      RunAppend(starts, a, init);
      assert (a + b)[..|a + b| - 1] == a + init;
      assert (a + b)[|a + b| - 1] == b[|b| - 1];
    } else {
      assert a + b == a;
    }
  }

  /** The flag of the latest report for `domain` in the trace, if any. */
  function LastFlag(domain: string, trace: seq<Sample>): Option<string> {
    if trace == [] then None
    else if trace[|trace| - 1].domain == domain then Some(trace[|trace| - 1].flag)
    else LastFlag(domain, trace[..|trace| - 1])
  }

  /** A domain is tracked exactly when its latest report said "0" (or, with no
      report for it, when it was tracked before): a non-"0" report always
      clears the entry and a "0" report always leaves one. */
  lemma {:induction false} TrackedIffLastFailing(starts: map<string, int>, trace: seq<Sample>, domain: string)
    ensures domain in Run(starts, trace).starts <==>
      match LastFlag(domain, trace)
      case None => domain in starts
      case Some(flag) => flag == FAILING
  {
    if trace != [] {
      TrackedIffLastFailing(starts, trace[..|trace| - 1], domain);
    }
  }

  /** Earlier verdicts are not revised by later reports. */
  lemma {:induction false} RunPrefix(starts: map<string, int>, trace: seq<Sample>, j: nat)
    requires j <= |trace|
    ensures Run(starts, trace[..j]).fired == Run(starts, trace).fired[..j]
  {
    if j < |trace| {
      var init := trace[..|trace| - 1];
      RunPrefix(starts, init, j);
      assert init[..j] == trace[..j];
    } else {
      assert trace[..j] == trace;
    }
  }

  /** All reports for `domain` say "0". */
  predicate AllFailing(trace: seq<Sample>, domain: string) {
    forall i :: 0 <= i < |trace| && trace[i].domain == domain ==> trace[i].flag == FAILING
  }

  /** While a failing domain triggers nothing, its start time stays put. */
  lemma {:induction false} StartHeld(starts: map<string, int>, trace: seq<Sample>, domain: string)
    requires domain in starts && AllFailing(trace, domain)
    requires forall i :: 0 <= i < |trace| && trace[i].domain == domain ==> !Run(starts, trace).fired[i]
    ensures domain in Run(starts, trace).starts && Run(starts, trace).starts[domain] == starts[domain]
  {
    if trace != [] {
      var init := trace[..|trace| - 1];
      RunPrefix(starts, trace, |init|);
      assert forall i :: 0 <= i < |init| ==> init[i] == trace[i] && Run(starts, init).fired[i] == Run(starts, trace).fired[i];
      StartHeld(starts, init, domain);
    }
  }

  /** Debounce: while every report for a tracked domain says "0" and arrives
      less than THRESHOLD seconds after the recorded start, no report for that
      domain triggers a replacement and the start time does not move. */
  lemma {:induction false} NoRemediationWithinWindow(starts: map<string, int>, trace: seq<Sample>, domain: string)
    requires domain in starts && AllFailing(trace, domain)
    requires forall i :: 0 <= i < |trace| && trace[i].domain == domain ==> trace[i].now < starts[domain] + THRESHOLD
    ensures domain in Run(starts, trace).starts && Run(starts, trace).starts[domain] == starts[domain]
    ensures forall i :: 0 <= i < |trace| && trace[i].domain == domain ==> !Run(starts, trace).fired[i]
  {
    if trace != [] {
      var init := trace[..|trace| - 1];
      assert forall i :: 0 <= i < |init| ==> init[i] == trace[i];
      NoRemediationWithinWindow(starts, init, domain);
    }
  }

  /** Threshold crossing: if a tracked domain keeps reporting "0" and one of
      its reports arrives THRESHOLD or more seconds after the recorded start,
      then that report or an earlier one for the domain triggers a replacement. */
  lemma SustainedFailureFires(starts: map<string, int>, trace: seq<Sample>, domain: string, k: nat)
    requires domain in starts && AllFailing(trace, domain)
    requires k < |trace| && trace[k].domain == domain && trace[k].now >= starts[domain] + THRESHOLD
    ensures exists i :: 0 <= i <= k && trace[i].domain == domain && Run(starts, trace).fired[i]
  {
    var pre := trace[..k];
    RunPrefix(starts, trace, k);
    RunPrefix(starts, trace, k + 1);
    assert forall i :: 0 <= i < k ==> pre[i] == trace[i];
    if exists i :: 0 <= i < k && trace[i].domain == domain && Run(starts, pre).fired[i] {
      var i :| 0 <= i < k && trace[i].domain == domain && Run(starts, pre).fired[i];
      assert Run(starts, trace).fired[i];
    } else {
      StartHeld(starts, pre, domain);
      var upto := trace[..k + 1];
      assert upto[..k] == pre && upto[k] == trace[k];
      var v := Observe(Run(starts, pre).starts, domain, trace[k].flag, trace[k].now);
      assert v.remediate;
      assert Run(starts, upto).fired == Run(starts, pre).fired + [v.remediate];
      assert Run(starts, upto).fired[k];
    }
  }

  /** Feeding a non-empty trace is feeding its first report, then the rest. */
  lemma RunFirst(starts: map<string, int>, trace: seq<Sample>)
    requires trace != []
    ensures var v := Observe(starts, trace[0].domain, trace[0].flag, trace[0].now);
      var rest := Run(v.starts, trace[1..]);
      Run(starts, trace) == History(rest.starts, [v.remediate] + rest.fired)
  {
    assert trace == trace[..1] + trace[1..];
    RunAppend(starts, trace[..1], trace[1..]);
    assert trace[..1][..0] == [];
  }

  /** Threshold crossing from a healthy domain: the first "0" report at `t0`
      opens the window without firing, and if the domain keeps reporting "0"
      and a later report arrives at `t0 + THRESHOLD` or after, that report or
      an earlier one of the domain fires. */
  lemma ThresholdFromFirstFailure(starts: map<string, int>, trace: seq<Sample>, domain: string, k: nat)
    requires domain !in starts && trace != [] && trace[0].domain == domain
    requires AllFailing(trace, domain)
    requires 0 < k < |trace| && trace[k].domain == domain && trace[k].now >= trace[0].now + THRESHOLD
    ensures !Run(starts, trace).fired[0]
    ensures exists i :: 0 < i <= k && trace[i].domain == domain && Run(starts, trace).fired[i]
  {
    var rest := trace[1..];
    var v := Observe(starts, domain, FAILING, trace[0].now);
    RunFirst(starts, trace);
    assert !v.remediate && domain in v.starts && v.starts[domain] == trace[0].now;
    assert AllFailing(rest, domain) by {
      forall i | 0 <= i < |rest| && rest[i].domain == domain ensures rest[i].flag == FAILING {
        assert rest[i] == trace[i + 1];
      }
    }
    assert rest[k - 1] == trace[k];
    SustainedFailureFires(v.starts, rest, domain, k - 1);
    var later := Run(v.starts, rest);
    var i :| 0 <= i <= k - 1 && rest[i].domain == domain && later.fired[i];
    assert rest[i] == trace[i + 1];
    assert Run(starts, trace).fired[i + 1];
  }

  /** Reset, not removal: a replacement restarts the domain's window at the
      time of the triggering report, so the next replacement for it needs
      another full THRESHOLD seconds of "0" reports. */
  lemma RemediationRearms(starts: map<string, int>, domain: string, t: int, trace: seq<Sample>)
    requires Observe(starts, domain, FAILING, t).remediate
    requires AllFailing(trace, domain)
    requires forall i :: 0 <= i < |trace| && trace[i].domain == domain ==> trace[i].now < t + THRESHOLD
    ensures var after := Observe(starts, domain, FAILING, t).starts;
      forall i :: 0 <= i < |trace| && trace[i].domain == domain ==> !Run(after, trace).fired[i]
  {
    NoRemediationWithinWindow(Observe(starts, domain, FAILING, t).starts, trace, domain);
  }
}
