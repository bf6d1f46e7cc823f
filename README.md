# Connectivity-failover server: a Dafny model

This project models the decision logic of `UDPServer`, a daemon that listens
for UDP connectivity reports from remote agents and watches its own public
address. Two loops run side by side:

- **The report listener** (`receive_loop`). Each datagram is stripped and cut at commas into
  `domain,protocol,reported_ip,connectivity`. A report with fewer than four
  fields is rejected. A `v4` report (in any letter case) is forwarded to the DNS-update
  endpoint with the *sender's* address and is fed to the per-domain failure
  timer. Reports for `v6` or any other protocol are only logged.
- **The failure timer** (`connectivity_0_start_time`). It maps a domain to the time its run of
  `"0"` reports began. A non-`"0"` report removes the entry. The first `"0"`
  inserts the current time. A `"0"` that arrives 300 s or more after the
  start replaces the instance's public address once and restarts the window
  at the current time, so replacements repeat once per window while the
  domain stays unreachable.
- **The address monitor** (`ip_monitor_loop`). Once a minute it resolves the server's public v4
  address. It asks four lookup services in order, and the first non-blank
  answer wins. If every service fails, it falls back to the local interface
  address, or `"0.0.0.0"` when that probe fails. It announces the address to
  the DNS-update endpoint (flag `"1"`, configured home domain) when the
  address is the first one seen or differs from the remembered one.

The two outbound calls (DNS update and address replacement) are recorded as
`Effects.Effect` values in the order the code makes them. The code swallows
their failures, so a recorded call never feeds back into the state. The
current time, the sender address, the lookup services' replies, the local
probe and the home domain are inputs.

Modules: `Wrappers` (Option), `Effects`, `Text` (Python's `strip`, `split(",")`,
`lower`), `Report` (decoding), `Tracker` (the failure timer as a function and
over traces of reports), `Listener` (one datagram as a function, and the
`ReportListener` class whose `HandleMessage` and `ReceiveLoop` update the map
in place), `Lookup` (`_request_ip`, `_get_public_ip` as a loop with early
return, `get_ipv4`/`get_ipv6`), `Monitor` (one poll as a function, and the loop).

Three behaviours of the code are worth stating plainly:

- The local probe returns `"0.0.0.0"` on error (UDPServer.py:68). The string
  is truthy, so it is remembered and announced like a change of address.
  `Monitor.FailedLookupAnnouncesSentinel` states this.
- The code uses wall-clock `time.time()`, and `now` is not assumed to be
  monotonic. A clock that goes backwards gives a negative elapsed time, which
  never triggers a replacement.
- The whole payload is stripped and the fields are not, so `" v4"` is an
  unknown protocol.

## Model

| member | source | states |
|---|---|---|
| `Text.Strip` | Server/UDPServer.py:130 | the stripped payload has no whitespace (in the sense of Python's `str.isspace`) at either end |
| `Text.TrimLeftAt` | Server/UDPServer.py:130 | when the first `i` characters are whitespace and the next one is not (or there is none), the left trim drops exactly those `i` characters |
| `Text.TrimRightAt` | Server/UDPServer.py:130 | when the characters from `i` on are whitespace and the one before `i` is not (or `i` is 0), the right trim keeps exactly the first `i` characters |
| `Text.StripSurrounded` | Server/UDPServer.py:130 | stripping removes exactly the surrounding whitespace: for any whitespace `pre`/`post` and a text `t` without whitespace at its ends, `Strip(pre + t + post) == t` |
| `Text.Split` | Server/UDPServer.py:130 | `split(",")` yields at least one field, no field holds a comma, and joining the fields with commas gives the input back |
| `Text.SplitJoin` | Server/UDPServer.py:130 | splitting a comma-joined list of comma-free fields returns exactly those fields |
| `Text.Lower` | Server/UDPServer.py:136 | lower-casing keeps the length, maps each upper-case ASCII letter to its lower-case letter and leaves every other character unchanged |
| `Text.LowerIsV4` | Server/UDPServer.py:136-140 | the lower-cased protocol equals `"v4"` exactly when the field is `"v4"` or `"V4"` |
| `Text.LowerIsV6` | Server/UDPServer.py:136-163 | the lower-cased protocol equals `"v6"` exactly when the field is `"v6"` or `"V6"` |
| `Report.Fields` | Server/UDPServer.py:130 | the fields of a payload are at least one and comma-free |
| `Report.Parse` | Server/UDPServer.py:130-138 | a payload is rejected exactly when it has fewer than four fields, and the rejection carries those fields; an accepted payload with exactly four fields yields a report in the encodable set (comma-free, lower-case protocol, no outer whitespace) |
| `Report.ParseFormat` | Server/UDPServer.py:133-138 | decoding the comma-joined four fields of an encodable report gives that report back |
| `Report.FormatParse` | Server/UDPServer.py:130-138 | for a four-field payload with a lower-case protocol, formatting the decoded report gives the stripped payload back |
| `Report.ExactFieldsAreEncodable` | Server/UDPServer.py:130 | with exactly four fields, the first field does not start and the last does not end with whitespace |
| `Tracker.Observe` | Server/UDPServer.py:144-161 | one v4 report: other domains' entries are untouched; the domain has an entry afterwards iff the flag is `"0"`; a replacement fires iff the flag is `"0"`, an entry exists and `now - start >= 300`; the entry is kept as is below the threshold and set to `now` when new or when it fires |
| `Tracker.Run` | Server/UDPServer.py:126-161 | feeding reports in order yields one verdict per report, and only `"0"` reports ever fire |
| `Tracker.TrackedIffLastFailing` | Server/UDPServer.py:144-161 | after any sequence of reports a domain is tracked exactly when its latest report said `"0"` (or, with no report for it, when it was tracked before) |
| `Tracker.NoRemediationWithinWindow` | Server/UDPServer.py:146-151 | while a tracked domain only reports `"0"` and every report is less than 300 s after its start, none of its reports fires and its start does not move |
| `Tracker.SustainedFailureFires` | Server/UDPServer.py:149-157 | if a tracked domain only reports `"0"` and one of its reports arrives 300 s or more after the start, that report or an earlier one of the domain fires |
| `Tracker.RunAppend` | Server/UDPServer.py:126-161 | feeding two traces one after the other gives the same map as feeding their concatenation, and the verdicts concatenate |
| `Tracker.RunFirst` | Server/UDPServer.py:126-161 | feeding a trace is feeding its first report to `Observe`, then the rest from the resulting map |
| `Tracker.ThresholdFromFirstFailure` | Server/UDPServer.py:144-157 | for an untracked domain, the first `"0"` at `t0` does not fire; if the domain keeps reporting `"0"` and a later report arrives at `t0 + 300` or after, that report or an earlier later one fires |
| `Tracker.RemediationRearms` | Server/UDPServer.py:155-157 | after a replacement at time `t` the entry is kept (reset to `t`, not deleted), so, while the domain keeps reporting `"0"`, no further replacement for it fires before `t + 300` |
| `Listener.Receive` | Server/UDPServer.py:128-168 | one datagram makes at most two calls; no call means no state change; a non-empty call list starts with the one DNS update, carrying the sender's address, followed only by address replacements |
| `Listener.MalformedIsInert` | Server/UDPServer.py:130-134 | a payload with fewer than four fields leaves the timer map unchanged and makes no call |
| `Listener.OtherProtocolIsInert` | Server/UDPServer.py:136-166 | a report whose protocol field is neither `v4` nor `V4` (so `v6` and unknown protocols) leaves the timer map unchanged and makes no call |
| `Listener.PrimaryNotifiesOnce` | Server/UDPServer.py:140-161 | a `v4`/`V4` report notifies exactly once, with `(sender_ip, connectivity, domain)` and not the reported address, whatever the flag; the map becomes the tracker's new map; an address replacement follows iff the tracker fires |
| `Listener.OnlyDomainProtocolFlagMatter` | Server/UDPServer.py:134-142 | two payloads with the same domain, the same flag and protocols equal up to letter case are handled identically: the reported address and extra fields play no part |
| `Listener.ExamplePayload` | Server/UDPServer.py:130-138 | `example.com,v4,1.2.3.4,0` and `...,1` decode to their four fields |
| `Listener.DomainLifecycle` | Server/UDPServer.py:140-161 | for any domain, with the tracker empty: a v4 `"0"` at t=0 opens the window without replacement, a `"0"` at t=305 replaces once and resets the start to 305, a `"1"` at t=310 clears the entry |
| `Listener.FailureOpensWindow` | Server/UDPServer.py:141-147 | a first `"0"` v4 report of an untracked domain makes one DNS update, records `now` as the domain's start and replaces nothing |
| `Listener.FailurePastThresholdReplaces` | Server/UDPServer.py:141-157 | a `"0"` v4 report 300 or more seconds after the recorded start makes one DNS update, then one address replacement, and restarts the window at `now` |
| `Listener.FailureWithinWindowWaits` | Server/UDPServer.py:141-151 | a `"0"` v4 report less than 300 seconds after the recorded start only makes the DNS update and keeps the start |
| `Listener.RecoveryClosesWindow` | Server/UDPServer.py:141-161 | a v4 report with any other flag makes one DNS update and removes the domain's entry, leaving every other entry alone |
| `Listener.ReceiveAll` | Server/UDPServer.py:126-168 | handling n datagrams makes at most 2n calls and at most n address replacements |
| `Listener.SamplesOf` | Server/UDPServer.py:134-144 | a datagram feeds at most one report to the failure timer |
| `Listener.Samples` | Server/UDPServer.py:126-144 | a sequence of datagrams feeds at most as many reports to the failure timer as there are datagrams |
| `Listener.ReceiveAllIsRun` | Server/UDPServer.py:126-161 | handling datagrams in order leaves the timer map that `Tracker.Run` gives over their v4 reports, and makes exactly as many address replacements as `Run` has firings, so the debounce, threshold and recovery lemmas hold of the receive loop through its final map and its number of replacements |
| `Listener.ReportListener.constructor` | Server/UDPServer.py:117 | the timer map starts empty |
| `Listener.ReportListener.Track` | Server/UDPServer.py:144-161 | the in-place update of the timer map and the decision to replace equal `Tracker.Observe` on the old map |
| `Listener.ReportListener.HandleMessage` | Server/UDPServer.py:128-168 | the in-place update of the map and the calls made equal those of `Receive` on the old map |
| `Listener.ReportListener.ReceiveLoop` | Server/UDPServer.py:115-168 | the loop empties the map when it starts, then the final map and the calls equal those of handling the datagrams in order from the empty map |
| `Lookup.RequestIp` | Server/UDPServer.py:35-44 | a reply counts exactly when it arrived, its status is not 4xx/5xx and its stripped body is non-empty; the address is the stripped body |
| `Lookup.PublicIp` | Server/UDPServer.py:46-51 | a found public address is never blank |
| `Lookup.PublicIpIsFirstSuccess` | Server/UDPServer.py:46-51 | the lookup returns None exactly when no service's reply counts, and otherwise the answer of the first service in list order whose reply counts |
| `Lookup.GetPublicIp` | Server/UDPServer.py:46-51 | the loop returns the first-success answer; it asked exactly the services up to and including the first success, or all of them when none succeeded |
| `Lookup.LocalIpv4` | Server/UDPServer.py:59-68 | a successful local probe yields the probed address, a failed one `"0.0.0.0"` |
| `Lookup.LocalIpv6` | Server/UDPServer.py:70-79 | a successful local probe yields the probed address, a failed one `"::"` |
| `Lookup.Ipv4` | Server/UDPServer.py:81-82 | the v4 address is the first successful service's answer, or the local address when every service failed; it is blank only if the local probe returned a blank address |
| `Lookup.Ipv6` | Server/UDPServer.py:84-85 | the same for v6 with the v6 service list and the `"::"` fallback |
| `Lookup.GetIpv4` | Server/UDPServer.py:81-82 | running the service loop and the fallback yields `Ipv4` |
| `Monitor.MonitorStep` | Server/UDPServer.py:184-194 | a blank address changes nothing; otherwise the address is remembered and exactly one `Notify(ip, "1", domain)` is made iff no address was remembered or it differs |
| `Monitor.MonitorRun` | Server/UDPServer.py:182-195 | over n polls at most n calls are made, each a DNS update with flag `"1"`, the home domain and a non-blank polled address; the remembered address is the initial one or a non-blank polled one |
| `Monitor.SteadyAddressIsQuiet` | Server/UDPServer.py:185-194 | polls that resolve the remembered address (or nothing) make no call and keep the address |
| `Monitor.BlankPollsAreQuiet` | Server/UDPServer.py:182-185 | before any address is known, blank polls do nothing |
| `Monitor.ChangeIsAnnounced` | Server/UDPServer.py:187-194 | a poll resolving an address other than the remembered one announces exactly that address once and remembers it |
| `Monitor.FirstResolutionIsAnnounced` | Server/UDPServer.py:182-194 | the first non-blank address after start is always announced, as the first call |
| `Monitor.FailedLookupAnnouncesSentinel` | Server/UDPServer.py:184-194 | when every service fails and the local probe errors, `"0.0.0.0"` is remembered and announced unless already remembered |
| `Monitor.MonitorLoop` | Server/UDPServer.py:181-195 | the loop, starting with no remembered address, ends with the remembered address and calls of `MonitorRun` over the polls' resolved addresses, where poll `i` resolves `Ipv4` of that poll's service replies and local probe |

## Left out

- Sockets: creation, `bind`, `recvfrom`, `close`, the bind-failure exit, and the restart of the socket in `restart_udp_server`. These are OS I/O. Only the reset of the timer map at the start of every (re)started receive loop is modelled, in `ReceiveLoop`.
- Threads, the daemon flags, `start`, the `running` flag and every `time.sleep`. These concern concurrency and timing. Each loop is modelled over a finite sequence of iterations.
- The per-iteration `except` around the receive loop body. Inside the modelled path only logging and I/O can raise.
- Datagrams longer than 1024 bytes, which `recvfrom(1024)` truncates, and payloads that are not valid UTF-8. The payload is taken as already-decoded text.
- HTTP through `requests` and the LightSail `replace_ip` call. These are foreign network calls. They appear as the recorded `Notify`/`ReplaceIp` effects and as the `Reply` inputs of the lookup. The JSON body of the DNS update is not modelled.
- The local-address probe (`connect`/`getsockname`). This is OS I/O, so it is an input, `LocalProbe`.
- Logging, the time-zone timestamp and log-file rotation. These are file I/O.
- Environment variables (`IPV4_DOMAIN_UPDATE_LAMBDA`, `SERVER_DOMAIN_NAME`). They are configuration. The home domain is a parameter, read once per monitor run rather than on every poll.
- `__init__`'s start-up log of the v4 and v6 addresses. Only `Lookup.Ipv6` models the v6 resolution it uses.
- Time as a float. `now` is an integer number of seconds. The code reads `time.time()` separately at lines 147, 150 and 157, and the model uses one `now` per datagram.
- Text.Lower: maps only ASCII letters. Python's `str.lower()` also maps non-ASCII letters. No non-ASCII character lower-cases to a character of `"v4"` or `"v6"`, so the protocol decisions are the same. Only the logged protocol text could differ.
