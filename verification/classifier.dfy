/**
 * The choice of metric label for a decoded report (reporter/reporter.go):
 * the effective directive itself when it is one of the known directives,
 * the fallback label otherwise. This keeps the label set bounded.
 *
 * The package's test file expects a different rule — the first
 * whitespace-separated token of the violated directive — which the package's
 * handler does not implement; that rule is modelled separately as
 * `FirstTokenLabel` and is not used by the handler model.
 */
module Classifier {
  import opened Directives
  import opened Reports

  /** The label the handler increments for an effective directive. */
  function DirectiveLabel(effective: string): (name: string)
    ensures name in AllLabels
  {
    if effective in CspDirectives then effective else Unknown
  }

  /** The label of a decoded report: its effective directive or the fallback. */
  function ReportLabel(r: Report): (name: string)
    ensures name == r.effectiveDirective || name == Unknown
    ensures r.effectiveDirective !in CspDirectives ==> name == Unknown
    ensures name in CspDirectives <==> r.effectiveDirective in CspDirectives
  {
    DirectiveLabelCases(r.effectiveDirective);
    DirectiveLabel(r.effectiveDirective)
  }

  /** A known directive is its own label; anything else is counted as unknown. */
  lemma DirectiveLabelCases(effective: string)
    ensures effective in CspDirectives ==> DirectiveLabel(effective) == effective
    ensures effective !in CspDirectives ==> DirectiveLabel(effective) == Unknown
    ensures DirectiveLabel(effective) in CspDirectives <==> effective in CspDirectives
  {
    UnknownIsNotDirective();
  }

  /**
   * Labels never conflate: two effective directives share a label only when
   * they are the same directive or both lie outside the set.
   */
  lemma DirectiveLabelSeparates(a: string, b: string)
    requires DirectiveLabel(a) == DirectiveLabel(b)
    ensures a == b || (a !in CspDirectives && b !in CspDirectives)
  {
    UnknownIsNotDirective();
  }

  /** Only the effective directive decides the label. */
  lemma ReportLabelOnlyEffective(r1: Report, r2: Report)
    requires r1.effectiveDirective == r2.effectiveDirective
    ensures ReportLabel(r1) == ReportLabel(r2)
  {
  }

  /** The cases of the package's test file, under the handler's actual rule. */
  lemma DirectiveLabelExamples()
    ensures DirectiveLabel("") == Unknown
    ensures DirectiveLabel("my-directive") == Unknown
    ensures DirectiveLabel("script-src") == "script-src"
    ensures DirectiveLabel("script-src http something something") == Unknown
    ensures ReportLabel(ZeroReport) == Unknown
  {
    PrefixRelatedDirectivesDistinct();
    EmptyIsNotDirective();
    NotInTable("my-directive");
    NotInTable("script-src http something something");
  }

  /** Length of the longest prefix of `s` free of whitespace. */
  function TokenLength(s: string): (n: nat)
    ensures n <= |s|
    ensures forall i :: 0 <= i < n ==> !IsSpace(s[i])
    ensures n < |s| ==> IsSpace(s[n])
  {
    if s == [] || IsSpace(s[0]) then 0 else 1 + TokenLength(s[1..])
  }

  /** The first whitespace-separated token of `s`, or "" when there is none. */
  function FirstToken(s: string): (t: string)
    ensures forall i :: 0 <= i < |t| ==> !IsSpace(t[i])
    ensures |t| <= |s|
  {
    if s == [] then []
    else if IsSpace(s[0]) then FirstToken(s[1..])
    else s[..TokenLength(s)]
  }

  /** Length of the run of whitespace that `s` starts with. */
  function LeadingSpace(s: string): (k: nat)
    ensures k <= |s|
    ensures forall i :: 0 <= i < k ==> IsSpace(s[i])
    ensures k < |s| ==> !IsSpace(s[k])
  {
    if s == [] || !IsSpace(s[0]) then 0 else 1 + LeadingSpace(s[1..])
  }

  /**
   * The first token is what follows the leading whitespace, up to the next
   * whitespace or the end; it is empty exactly when `s` is all whitespace.
   */
  lemma {:induction false} FirstTokenSplits(s: string)
    ensures var k := LeadingSpace(s);
            var t := FirstToken(s);
            && k + |t| <= |s|
            && s[k..k + |t|] == t
            && (k + |t| == |s| || IsSpace(s[k + |t|]))
            && (t == [] <==> k == |s|)
  {
    if s != [] && IsSpace(s[0]) {
      var s' := s[1..];
      FirstTokenSplits(s');
      var k', t := LeadingSpace(s'), FirstToken(s');
      assert s[k' + 1..k' + 1 + |t|] == s'[k'..k' + |t|];
      if k' + |t| < |s'| {
        assert s[k' + 1 + |t|] == s'[k' + |t|];
      }
    } else if s != [] {
      assert s[0..TokenLength(s)] == s[..TokenLength(s)];
    }
  }

  /** The test file's rule: classify the first token of the violated directive. */
  function FirstTokenLabel(violated: string): (name: string)
    ensures name in AllLabels
  {
    DirectiveLabel(FirstToken(violated))
  }

  /** A whitespace-free word followed by whitespace or nothing is the first token. */
  lemma {:induction false} FirstTokenOfWord(w: string, rest: string)
    requires |w| > 0 && forall i :: 0 <= i < |w| ==> !IsSpace(w[i])
    requires rest == [] || IsSpace(rest[0])
    ensures FirstToken(w + rest) == w
  {
    var s := w + rest;
    assert s[0] == w[0];
    TokenLengthOfWord(w, rest);
    assert s[..|w|] == w;
  }

  /** The token of a whitespace-free word followed by whitespace or nothing spans the word. */
  lemma {:induction false} TokenLengthOfWord(w: string, rest: string)
    requires forall i :: 0 <= i < |w| ==> !IsSpace(w[i])
    requires rest == [] || IsSpace(rest[0])
    ensures TokenLength(w + rest) == |w|
  {
    if w == [] {
      assert w + rest == rest;
    } else {
      assert (w + rest)[0] == w[0];
      assert (w + rest)[1..] == w[1..] + rest;
      TokenLengthOfWord(w[1..], rest);
    }
  }

  /** Under the test file's rule, a directive followed by any detail classifies as itself. */
  lemma FirstTokenLabelOfDirective(d: string, detail: string)
    requires d in CspDirectives
    ensures FirstTokenLabel(d) == d
    ensures FirstTokenLabel(d + " " + detail) == d
  {
    DirectivesWellFormed();
    assert d + [] == d;
    FirstTokenOfWord(d, []);
    assert d + " " + detail == d + (" " + detail);
    FirstTokenOfWord(d, " " + detail);
  }

  /**
   * The package's test cases hold of the first-token rule, with the test's
   * expected unknown value read as the fallback label; the handler's rule
   * disagrees on the "extended" case.
   */
  lemma FirstTokenLabelExamples()
    ensures FirstTokenLabel("") == Unknown
    ensures FirstTokenLabel("my-directive") == Unknown
    ensures FirstTokenLabel("script-src") == "script-src"
    ensures FirstTokenLabel("script-src http something something") == "script-src"
    ensures DirectiveLabel("script-src http something something") != "script-src"
  {
    DirectiveLabelExamples();
    ScriptSrcWithDetail();
    FirstTokenOfMyDirective();
  }

  /** The test's "valid" and "extended" cases under the first-token rule. */
  lemma ScriptSrcWithDetail()
    ensures FirstTokenLabel("script-src") == "script-src"
    ensures FirstTokenLabel("script-src http something something") == "script-src"
  {
    PrefixRelatedDirectivesDistinct();
    FirstTokenLabelOfDirective("script-src", "http something something");
    SplitLiteral();
  }

  /** The "extended" test input is the directive, a space and some detail. */
  lemma SplitLiteral()
    ensures "script-src http something something" == "script-src" + " " + "http something something"
  {
  }

  /** The test's "invalid" case under the first-token rule. */
  lemma FirstTokenOfMyDirective()
    ensures FirstTokenLabel("my-directive") == Unknown
  {
    DirectiveLabelExamples();
    var w := "my-directive";
    assert forall i :: 0 <= i < |w| ==> !IsSpace(w[i]);
    FirstTokenOfWord(w, []);
    assert w + [] == w;
  }

}
