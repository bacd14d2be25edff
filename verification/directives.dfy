/**
 * The fixed set of Content-Security-Policy directive names that may appear as
 * a metric label (reporter/constants.go), and the fallback label used for
 * every other effective directive.
 */
module Directives {

  /** The directive names in the order the source lists them. */
  const DirectiveTable: seq<string> := [
    "child-src",
    "connect-src",
    "default-src",
    "font-src",
    "frame-src",
    "img-src",
    "manifest-src",
    "media-src",
    "object-src",
    "prefetch-src",
    "script-src",
    "script-src-elem",
    "script-src-attr",
    "style-src",
    "style-src-elem",
    "worker-src",
    "base-uri"
  ]

  /** The known directives, as the source's `map[string]struct{}` key set. */
  const CspDirectives: set<string> := set d | d in DirectiveTable

  /** The label under which every effective directive outside the set is counted. */
  const Unknown: string := "unknown"

  /** Every label the directive counter can ever carry. */
  const AllLabels: set<string> := CspDirectives + {Unknown}

  /** Whitespace in the sense of Go's `unicode.IsSpace`. */
  predicate IsSpace(c: char) {
    || c == ' ' || c == '\t' || c == '\n' || c == '\U{000B}' || c == '\U{000C}' || c == '\r'
    || c == '\U{0085}' || c == '\U{00A0}' || c == '\U{1680}'
    || ('\U{2000}' <= c <= '\U{200A}')
    || c == '\U{2028}' || c == '\U{2029}' || c == '\U{202F}' || c == '\U{205F}' || c == '\U{3000}'
  }

  /** The characters directive names are spelled with: lower-case ASCII letters and '-'. */
  predicate IsNameChar(c: char) {
    ('a' <= c <= 'z') || c == '-'
  }

  /** No two positions of `s` hold the same element. */
  predicate Distinct<T(==)>(s: seq<T>) {
    forall i, j :: 0 <= i < j < |s| ==> s[i] != s[j]
  }

  /** The tail of a duplicate-free sequence is duplicate-free and does not hold the head. */
  lemma DistinctTail<T>(s: seq<T>)
    requires Distinct(s) && s != []
    ensures Distinct(s[1..])
    ensures s[0] !in s[1..]
  {
    var tail := s[1..];
    forall i, j | 0 <= i < j < |tail| ensures tail[i] != tail[j] {
      assert tail[i] == s[i + 1] && tail[j] == s[j + 1];
    }
    forall k | 0 <= k < |tail| ensures tail[k] != s[0] {
      assert tail[k] == s[k + 1];
    }
  }

  /** A duplicate-free sequence has as many distinct elements as it has positions. */
  lemma {:induction false} DistinctCardinality<T>(s: seq<T>)
    requires Distinct(s)
    ensures |set x | x in s| == |s|
  {
    if s != [] {
      var tail := s[1..];
      DistinctTail(s);
      DistinctCardinality(tail);
      assert (set x | x in s) == (set x | x in tail) + {s[0]} by {
        forall x ensures x in s <==> x in tail || x == s[0] {
          if x in s && x != s[0] {
            var k :| 0 <= k < |s| && s[k] == x;
            assert tail[k - 1] == x;
          }
        }
      }
    }
  }

  /** The source lists seventeen different directive names. */
  lemma DirectiveCount()
    ensures Distinct(DirectiveTable)
    ensures |CspDirectives| == 17
  {
    assert Distinct(DirectiveTable);
    DistinctCardinality(DirectiveTable);
  }

  /** The fallback label is not itself a directive, so it never collides with one. */
  lemma UnknownIsNotDirective()
    ensures Unknown !in CspDirectives
    ensures |AllLabels| == 18
  {
    DirectiveCount();
  }

  /** A string that differs from every entry of the table is not a directive. */
  lemma NotInTable(s: string)
    requires forall k :: 0 <= k < |DirectiveTable| ==> DirectiveTable[k] != s
    ensures s !in CspDirectives
  {
  }

  /** The empty string is not a directive. */
  lemma EmptyIsNotDirective()
    ensures "" !in CspDirectives
  {
  }

  /** Names that extend another name with a suffix are separate members. */
  lemma PrefixRelatedDirectivesDistinct()
    ensures "script-src" in CspDirectives && "script-src-elem" in CspDirectives && "script-src-attr" in CspDirectives
    ensures "script-src" != "script-src-elem" && "script-src" != "script-src-attr" && "script-src-elem" != "script-src-attr"
    ensures "style-src" in CspDirectives && "style-src-elem" in CspDirectives && "style-src" != "style-src-elem"
  {
    assert DirectiveTable[10] == "script-src" && DirectiveTable[11] == "script-src-elem";
    assert DirectiveTable[12] == "script-src-attr";
    assert DirectiveTable[13] == "style-src" && DirectiveTable[14] == "style-src-elem";
  }

  /** A non-empty name spelled only with letters and dashes. */
  predicate IsName(s: string) {
    |s| > 0 && forall i :: 0 <= i < |s| ==> IsNameChar(s[i])
  }

  /** Every directive is a non-empty name of letters and dashes, hence free of whitespace. */
  lemma DirectivesWellFormed()
    ensures forall d :: d in CspDirectives ==> IsName(d)
    ensures forall d, i :: d in CspDirectives && 0 <= i < |d| ==> !IsSpace(d[i])
  {
    forall k | 0 <= k < |DirectiveTable| ensures IsName(DirectiveTable[k]) {
      var d := DirectiveTable[k];
      forall i | 0 <= i < |d| ensures IsNameChar(d[i]) {
      }
    }
  }

}
