/**
 * Decoding of one report datagram: `domain,protocol,reported_ip,connectivity`
 * with any further fields ignored.
 */
module Report {

  import opened Text

  /** The four positional fields of a report, `protocol` already lower-cased. */
  datatype Report = Report(domain: string, protocol: string, reportedIp: string, connectivity: string)

  /** A payload either decodes to a report or is rejected with its fields. */
  datatype Parsed = Malformed(fields: seq<string>) | Wellformed(report: Report)

  const MIN_FIELDS: nat := 4

  /** The fields of a payload: the whole text stripped, then cut at every comma.
      The fields themselves are not stripped. */
  function Fields(payload: string): (fields: seq<string>)
    ensures |fields| >= 1
    ensures forall i :: 0 <= i < |fields| ==> SEP !in fields[i]
  {
    Split(Strip(payload))
  }

  /** Decoding: fewer than four fields is a rejection; otherwise the first four
      fields are taken by position and the protocol is lower-cased. */
  function Parse(payload: string): (r: Parsed)
    ensures r.Malformed? <==> |Fields(payload)| < MIN_FIELDS
    ensures r.Malformed? ==> r.fields == Fields(payload)
    ensures r.Wellformed? ==> Encodable(r.report) || |Fields(payload)| > MIN_FIELDS
  {
    var fields := Fields(payload);
    if |fields| >= MIN_FIELDS then
      var report := Report(fields[0], Lower(fields[1]), fields[2], fields[3]);
      assert |fields| == MIN_FIELDS ==> Encodable(report) by {
        if |fields| == MIN_FIELDS {
          LowerIdempotent(fields[1]);
          ExactFieldsAreEncodable(payload);
        }
      }
      Wellformed(report)
    else
      Malformed(fields)
  }

  /** The payload a well-behaved agent sends for a report. */
  function Format(r: Report): string {
    Join([r.domain, r.protocol, r.reportedIp, r.connectivity])
  }

  /** The reports that survive a trip through the wire format: fields without
      commas, a lower-case protocol, and no whitespace at the two ends of the
      text that `strip()` would eat. */
  predicate Encodable(r: Report) {
    && SEP !in r.domain && SEP !in r.protocol && SEP !in r.reportedIp && SEP !in r.connectivity
    && Lower(r.protocol) == r.protocol
    && (r.domain == [] || !IsSpace(r.domain[0]))
    && (r.connectivity == [] || !IsSpace(r.connectivity[|r.connectivity| - 1]))
  }

  lemma FourFieldsJoin(fs: seq<string>)
    requires |fs| == 4
    ensures Join(fs) == fs[0] + [SEP] + fs[1] + [SEP] + fs[2] + [SEP] + fs[3]
  {
    assert fs[1..][1..][1..] == [fs[3]];
    assert Join(fs[1..][1..]) == fs[2] + [SEP] + fs[3];
    assert Join(fs[1..]) == fs[1] + [SEP] + (fs[2] + [SEP] + fs[3]);
  }

  /** With exactly four fields, the outer fields carry no whitespace at the
      ends of the payload, since the payload was stripped. */
  lemma ExactFieldsAreEncodable(payload: string)
    requires |Fields(payload)| == MIN_FIELDS
    ensures var fs := Fields(payload);
      && (fs[0] == [] || !IsSpace(fs[0][0]))
      && (fs[3] == [] || !IsSpace(fs[3][|fs[3]| - 1]))
  {
    var fs := Fields(payload);
    var t := Strip(payload);
    FourFieldsJoin(fs);
    assert t == fs[0] + [SEP] + fs[1] + [SEP] + fs[2] + [SEP] + fs[3];
    if fs[0] != [] {
      assert t[0] == fs[0][0];
    }
    if fs[3] != [] {
      assert t[|t| - 1] == fs[3][|fs[3]| - 1];
    }
  }

  /** A formatted report has nothing for `strip()` to remove. */
  lemma FormatIsStripped(r: Report)
    requires Encodable(r)
    ensures Strip(Format(r)) == Format(r)
  {
    var fs := [r.domain, r.protocol, r.reportedIp, r.connectivity];
    var t := Format(r);
    FourFieldsJoin(fs);
    assert t[0] == if r.domain == [] then SEP else r.domain[0];
    assert t[|t| - 1] == if r.connectivity == [] then SEP else r.connectivity[|r.connectivity| - 1];
    StripSurrounded([], t, []);
    assert [] + t + [] == t;
  }

  /** Decoding undoes formatting. */
  lemma ParseFormat(r: Report)
    requires Encodable(r)
    ensures Parse(Format(r)) == Wellformed(r)
  {
    var fs := [r.domain, r.protocol, r.reportedIp, r.connectivity];
    FormatIsStripped(r);
    SplitJoin(fs);
    assert Fields(Format(r)) == fs;
  }

  /** Formatting undoes decoding, for a payload of exactly four fields whose
      protocol is already lower-case: the payload comes back stripped. */
  lemma FormatParse(payload: string)
    requires |Fields(payload)| == MIN_FIELDS
    requires Lower(Fields(payload)[1]) == Fields(payload)[1]
    ensures Parse(payload).Wellformed? && Format(Parse(payload).report) == Strip(payload)
  {
    var fs := Fields(payload);
    assert [fs[0], fs[1], fs[2], fs[3]] == fs;
  }
}
