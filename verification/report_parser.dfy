/**
 * A reader for the pretty-printed report: the inverse of `String()` on
 * reports whose text fields hold no line break. Because `String()` inserts
 * values verbatim, a line break inside a value can make two different
 * reports print the same text; `AmbiguousWithoutEscaping` exhibits a pair.
 */
module ReportParser {
  import opened Wrappers
  import opened Decimal
  import opened Reports

  predicate NoNewline(v: string) {
    '\n' !in v
  }

  /** The six free-text fields of a report hold no line break. */
  predicate SingleLineFields(m: MainReport) {
    && NoNewline(m.referrer) && NoNewline(m.documentUri) && NoNewline(m.violatedDirective)
    && NoNewline(m.effectiveDirective) && NoNewline(m.originalPolicy) && NoNewline(m.blockedUri)
  }

  /** Splits `s` before its first line break: the value and what follows it. */
  function TakeLine(s: string): (r: (string, string))
    ensures r.0 + r.1 == s
    ensures NoNewline(r.0)
    ensures r.1 == [] || r.1[0] == '\n'
  {
    if s == [] || s[0] == '\n' then ([], s)
    else
      var t := TakeLine(s[1..]);
      assert [s[0]] + t.0 + t.1 == s;
      ([s[0]] + t.0, t.1)
  }

  /** Reads one segment per key, in order, and nothing else. */
  function ParseSegments(s: string, keys: seq<string>): (r: Option<seq<string>>)
    ensures r.Some? ==> |r.value| == |keys|
    decreases |keys|
  {
    if keys == [] then
      if s == [] then Some([]) else None
    else
      var p := SegmentPrefix(keys[0]);
      if |p| <= |s| && s[..|p|] == p then
        var t := TakeLine(s[|p|..]);
        var tail := ParseSegments(t.1, keys[1..]);
        if tail.None? then None else Some([t.0] + tail.value)
      else None
  }

  /** One step of a successful read: the first segment, then the rest. */
  lemma ParseSegmentsStep(s: string, keys: seq<string>)
    requires keys != [] && ParseSegments(s, keys).Some?
    ensures var p := SegmentPrefix(keys[0]);
            |p| <= |s| &&
            var t := TakeLine(s[|p|..]);
            && s == p + t.0 + t.1
            && ParseSegments(t.1, keys[1..]).Some?
            && ParseSegments(s, keys).value == [t.0] + ParseSegments(t.1, keys[1..]).value
  {
    var p := SegmentPrefix(keys[0]);
    var rest := s[|p|..];
    assert s == p + rest by {
      assert s == s[..|p|] + s[|p|..];
    }
    var t := TakeLine(rest);
    assert rest == t.0 + t.1;
    assert s == p + t.0 + t.1;
  }

  /** Whatever `ParseSegments` reads, joined back, is the text it read. */
  lemma {:induction false} ParseSegmentsSound(s: string, keys: seq<string>)
    requires ParseSegments(s, keys).Some?
    ensures Join(keys, ParseSegments(s, keys).value) == s
    ensures forall i :: 0 <= i < |keys| ==> NoNewline(ParseSegments(s, keys).value[i])
    decreases |keys|
  {
    if keys != [] {
      ParseSegmentsStep(s, keys);
      var p := SegmentPrefix(keys[0]);
      var t := TakeLine(s[|p|..]);
      ParseSegmentsSound(t.1, keys[1..]);
      var r := ParseSegments(s, keys).value;
      var tail := ParseSegments(t.1, keys[1..]).value;
      assert r[1..] == tail;
      JoinCons(keys, r);
      forall i | 0 <= i < |keys| ensures NoNewline(r[i]) {
        if i > 0 {
          assert r[i] == tail[i - 1];
        }
      }
    }
  }

  /** Reads a report back from its pretty-printed form. */
  function ParseReport(s: string): (r: Option<MainReport>)
    ensures r.Some? ==> SingleLineFields(r.value)
  {
    if |Header| <= |s| && s[..|Header|] == Header then
      var body := s[|Header|..];
      var vs := ParseSegments(body, Keys);
      if vs.None? then None
      else
        ParseSegmentsSound(body, Keys);
        var v := vs.value;
        var n := ParseInt(v[6]);
        if n.None? then None
        else Some(MainReport(v[1], v[0], v[2], v[3], v[4], v[5], n.value))
    else None
  }

  /** A single-line value followed by a line break or nothing is split off exactly. */
  lemma {:induction false} TakeLineOf(v: string, rest: string)
    requires NoNewline(v)
    requires rest == [] || rest[0] == '\n'
    ensures TakeLine(v + rest) == (v, rest)
  {
    if v != [] {
      var s := v + rest;
      assert s[0] == v[0] && v[0] in v;
      assert s[1..] == v[1..] + rest;
      assert NoNewline(v[1..]) by {
        forall c | c in v[1..] ensures c in v {
          var k :| 0 <= k < |v[1..]| && v[1..][k] == c;
          assert v[k + 1] == c;
        }
      }
      TakeLineOf(v[1..], rest);
      assert TakeLine(s) == ([s[0]] + TakeLine(s[1..]).0, TakeLine(s[1..]).1);
      assert [v[0]] + v[1..] == v;
    } else {
      assert v + rest == rest;
    }
  }

  /** A non-empty join starts with the line break of its first segment. */
  lemma JoinStartsWithNewline(keys: seq<string>, values: seq<string>)
    requires |keys| == |values|
    ensures Join(keys, values) == [] || Join(keys, values)[0] == '\n'
  {
  }

  /** Segments whose values hold no line break are read back exactly. */
  lemma {:induction false} ParseJoin(keys: seq<string>, values: seq<string>)
    requires |keys| == |values|
    requires forall i :: 0 <= i < |values| ==> NoNewline(values[i])
    ensures ParseSegments(Join(keys, values), keys) == Some(values)
  {
    if keys != [] {
      var p := SegmentPrefix(keys[0]);
      var rest := Join(keys[1..], values[1..]);
      var s := Join(keys, values);
      assert s == p + (values[0] + rest);
      assert s[..|p|] == p;
      assert s[|p|..] == values[0] + rest;
      JoinStartsWithNewline(keys[1..], values[1..]);
      TakeLineOf(values[0], rest);
      assert forall i :: 0 <= i < |values[1..]| ==> NoNewline(values[1..][i]) by {
        forall i | 0 <= i < |values[1..]| ensures NoNewline(values[1..][i]) {
          assert values[1..][i] == values[i + 1];
        }
      }
      ParseJoin(keys[1..], values[1..]);
      assert [values[0]] + values[1..] == values;
    }
  }

  /** Printing then parsing gives back any report whose text fields are single lines. */
  lemma ParsePrinted(m: MainReport)
    requires SingleLineFields(m)
    ensures ParseReport(MainReportString(m)) == Some(m)
  {
    var s := MainReportString(m);
    var vs := Values(m);
    assert NoNewline(vs[6]) by {
      var t := Itoa(m.statusCode);
      forall i | 0 <= i < |t| ensures t[i] != '\n' {
        if m.statusCode < 0 && i > 0 {
          assert t[i] == t[1..][i - 1];
        }
      }
    }
    ParseJoin(Keys, vs);
    assert s[|Header|..] == Join(Keys, vs);
    ParseItoa(m.statusCode);
  }

  /** Parsing then printing reproduces the text: the reader accepts only printed reports. */
  lemma PrintParsed(s: string)
    requires ParseReport(s).Some?
    ensures MainReportString(ParseReport(s).value) == s
  {
    var body := s[|Header|..];
    assert s == Header + body by {
      assert s == s[..|Header|] + s[|Header|..];
    }
    var vs := ParseSegments(body, Keys).value;
    ParseSegmentsSound(body, Keys);
    ItoaParse(vs[6]);
    var m := ParseReport(s).value;
    assert Values(m) == vs;
  }

  /** Concatenation regrouped: a value may absorb the following key. */
  lemma Regroup(r: string, x: string, k: string, y: string, t: string)
    ensures r + (x + k + y) + (k + t) == r + x + (k + (y + k) + t)
  {
  }

  /** Without escaping, two different reports can print the same text. */
  lemma AmbiguousWithoutEscaping()
    ensures var k := SegmentPrefix("document-uri");
            var a := MainReport("", "x" + k + "y", "", "", "", "", 0);
            var b := MainReport("y" + k, "x", "", "", "", "", 0);
            a != b && MainReportString(a) == MainReportString(b)
  {
    var k := SegmentPrefix("document-uri");
    var a := MainReport("", "x" + k + "y", "", "", "", "", 0);
    var b := MainReport("y" + k, "x", "", "", "", "", 0);
    assert |b.documentUri| > 0;
    var va, vb := Values(a), Values(b);
    assert va[2..] == vb[2..];
    var tail := Join(Keys[2..], va[2..]);
    JoinCons(Keys, va);
    JoinCons(Keys[1..], va[1..]);
    JoinCons(Keys, vb);
    JoinCons(Keys[1..], vb[1..]);
    assert Keys[1..][1..] == Keys[2..] && va[1..][1..] == va[2..] && vb[1..][1..] == vb[2..];
    assert Keys[0] == "referrer" && Keys[1] == "document-uri";
    var r := SegmentPrefix("referrer");
    assert Join(Keys, va) == r + va[0] + (k + va[1] + tail);
    assert Join(Keys, vb) == r + vb[0] + (k + vb[1] + tail);
    assert k + va[1] + tail == k + tail;
    Regroup(r, "x", k, "y", tail);
  }

}
