/**
 * The violation-report records of both binaries and their shared
 * pretty-printer `String()`: a fixed header followed by seven
 * "\n\t<key>: <value>" segments, values inserted verbatim.
 */
module Reports {
  import opened Decimal

  /** The `csp-report` object decoded by the reporter package handler. */
  datatype Report = Report(
    blockedUri: string,
    disposition: string,
    documentUri: string,
    effectiveDirective: string,
    originalPolicy: string,
    referrer: string,
    scriptSample: string,
    statusCode: int,
    violatedDirective: string
  )

  /** The narrower `csp-report` object decoded by the standalone binary. */
  datatype MainReport = MainReport(
    documentUri: string,
    referrer: string,
    violatedDirective: string,
    effectiveDirective: string,
    originalPolicy: string,
    blockedUri: string,
    statusCode: int
  )

  /** Go's zero value of the reporter package's report. */
  const ZeroReport: Report := Report("", "", "", "", "", "", "", 0, "")

  /** Go's zero value of the standalone binary's report. */
  const ZeroMainReport: MainReport := MainReport("", "", "", "", "", "", 0)

  /** The seven fields `String()` prints, which is the whole standalone record. */
  function Printed(r: Report): MainReport {
    MainReport(r.documentUri, r.referrer, r.violatedDirective, r.effectiveDirective,
               r.originalPolicy, r.blockedUri, r.statusCode)
  }

  const Header: string := "\ncsp-report"

  /** The printed keys, in output order. */
  const Keys: seq<string> := ["referrer", "document-uri", "violated-directive",
                              "effective-directive", "original-policy", "blocked-uri", "status-code"]

  /** What one `build(key, value)` call writes before the value. */
  function SegmentPrefix(key: string): string {
    "\n\t" + key + ": "
  }

  /** What one `build(key, value)` call of the source's closure writes. */
  function Segment(key: string, value: string): string {
    SegmentPrefix(key) + value
  }

  /** The printed values, in the order of `Keys`. */
  function Values(m: MainReport): (vs: seq<string>)
    ensures |vs| == |Keys|
  {
    [m.referrer, m.documentUri, m.violatedDirective, m.effectiveDirective,
     m.originalPolicy, m.blockedUri, Itoa(m.statusCode)]
  }

  /** The concatenation of one segment per key/value pair. */
  function Join(keys: seq<string>, values: seq<string>): string
    requires |keys| == |values|
  {
    if keys == [] then [] else Segment(keys[0], values[0]) + Join(keys[1..], values[1..])
  }

  /** A non-empty join is its first segment followed by the join of the rest. */
  lemma JoinCons(keys: seq<string>, values: seq<string>)
    requires |keys| == |values| > 0
    ensures Join(keys, values) == SegmentPrefix(keys[0]) + values[0] + Join(keys[1..], values[1..])
  {
  }

  /** Seven pairs join to their seven segments, back to back. */
  lemma {:induction false} JoinSeven(keys: seq<string>, values: seq<string>)
    requires |keys| == |values| == 7
    ensures Join(keys, values) ==
      Segment(keys[0], values[0]) + Segment(keys[1], values[1]) + Segment(keys[2], values[2])
      + Segment(keys[3], values[3]) + Segment(keys[4], values[4]) + Segment(keys[5], values[5])
      + Segment(keys[6], values[6])
  {
    var k, v := keys, values;
    assert Join(k[6..], v[6..]) == Segment(k[6], v[6]) + Join(k[7..], v[7..]);
    assert Join(k[5..], v[5..]) == Segment(k[5], v[5]) + Join(k[6..], v[6..]);
    assert Join(k[4..], v[4..]) == Segment(k[4], v[4]) + Join(k[5..], v[5..]);
    assert Join(k[3..], v[3..]) == Segment(k[3], v[3]) + Join(k[4..], v[4..]);
    assert Join(k[2..], v[2..]) == Segment(k[2], v[2]) + Join(k[3..], v[3..]);
    assert Join(k[1..], v[1..]) == Segment(k[1], v[1]) + Join(k[2..], v[2..]);
    assert Join(k, v) == Segment(k[0], v[0]) + Join(k[1..], v[1..]);
  }

  /** `ContentSecurityPolicyReport.String()` of the standalone binary. */
  function MainReportString(m: MainReport): (s: string)
    ensures |Header| <= |s| && s[..|Header|] == Header
    ensures |s| == 133 + |m.referrer| + |m.documentUri| + |m.violatedDirective|
                  + |m.effectiveDirective| + |m.originalPolicy| + |m.blockedUri|
                  + |Itoa(m.statusCode)|
  {
    JoinSeven(Keys, Values(m));
    Header + Join(Keys, Values(m))
  }

  /**
   * `ContentSecurityPolicyReport.String()` of the reporter package: the same
   * header and seven segments, read from the wider record.
   */
  function ReportString(r: Report): (s: string)
    ensures s ==
      Header
      + Segment("referrer", r.referrer)
      + Segment("document-uri", r.documentUri)
      + Segment("violated-directive", r.violatedDirective)
      + Segment("effective-directive", r.effectiveDirective)
      + Segment("original-policy", r.originalPolicy)
      + Segment("blocked-uri", r.blockedUri)
      + Segment("status-code", Itoa(r.statusCode))
  {
    MainReportStringLayout(Printed(r));
    MainReportString(Printed(r))
  }

  /** The output is the header and then the seven segments in their fixed order. */
  lemma MainReportStringLayout(m: MainReport)
    ensures MainReportString(m) ==
      Header
      + Segment("referrer", m.referrer)
      + Segment("document-uri", m.documentUri)
      + Segment("violated-directive", m.violatedDirective)
      + Segment("effective-directive", m.effectiveDirective)
      + Segment("original-policy", m.originalPolicy)
      + Segment("blocked-uri", m.blockedUri)
      + Segment("status-code", Itoa(m.statusCode))
  {
    JoinSeven(Keys, Values(m));
  }

  /** Reports that differ only in `disposition` or `scriptSample` print identically. */
  lemma ExtraFieldsIrrelevant(r1: Report, r2: Report)
    requires r1.blockedUri == r2.blockedUri && r1.documentUri == r2.documentUri
    requires r1.effectiveDirective == r2.effectiveDirective && r1.originalPolicy == r2.originalPolicy
    requires r1.referrer == r2.referrer && r1.statusCode == r2.statusCode
    requires r1.violatedDirective == r2.violatedDirective
    ensures ReportString(r1) == ReportString(r2)
  {
  }

}
