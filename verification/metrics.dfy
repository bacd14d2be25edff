/**
 * The counters the two POST handlers bump. The reporter package keeps a
 * counter vector keyed by directive label; the standalone binary keeps one
 * unlabelled report counter. Both handlers go on to count a report even when
 * decoding the body failed: the error response is written but the handler
 * does not return, so the (possibly partly filled, often zero) report is
 * classified and counted like any other.
 */
module Metrics {
  import opened Directives
  import opened Reports
  import opened Classifier

  /** A counter vector: how often each label has been incremented. */
  type CounterVec = map<string, nat>

  /** The value of a label's counter; an absent label reads as zero. */
  function Count(m: CounterVec, l: string): nat {
    if l in m then m[l] else 0
  }

  /** `WithLabelValues(l).Inc()`: one more for `l`, every other label unchanged. */
  function Inc(m: CounterVec, l: string): (m': CounterVec)
    ensures Count(m', l) == Count(m, l) + 1
    ensures forall x :: x != l ==> Count(m', x) == Count(m, x)
    ensures m'.Keys == m.Keys + {l}
  {
    m[l := Count(m, l) + 1]
  }

  /** The label set of the vector stays within the known directives and the fallback. */
  predicate Bounded(m: CounterVec) {
    m.Keys <= AllLabels
  }

  /** The outcome of decoding a request body: both cases carry the report the handler goes on with. */
  datatype Decoded<R> = Decoded(report: R) | Malformed(partial: R) {
    function Body(): R {
      match this
      case Decoded(r) => r
      case Malformed(r) => r
    }
  }

  /** The counter effect of one POST to the reporter package handler. */
  function ObservePost(m: CounterVec, d: Decoded<Report>): (m': CounterVec)
    ensures Bounded(m) ==> Bounded(m')
    ensures var l := ReportLabel(d.Body());
            && Count(m', l) == Count(m, l) + 1
            && forall x :: x != l ==> Count(m', x) == Count(m, x)
  {
    Inc(m, ReportLabel(d.Body()))
  }

  /** The counter vector after a sequence of POSTs, in arrival order. */
  function Replay(m: CounterVec, ds: seq<Decoded<Report>>): CounterVec
    decreases |ds|
  {
    if ds == [] then m else Replay(ObservePost(m, ds[0]), ds[1..])
  }

  /** The labels a sequence of POSTs is counted under. */
  function Labels(ds: seq<Decoded<Report>>): (ls: set<string>)
    ensures ls <= AllLabels
  {
    if ds == [] then {} else {ReportLabel(ds[0].Body())} + Labels(ds[1..])
  }

  /** How many POSTs of a sequence are counted under `l`. */
  function Occurrences(ds: seq<Decoded<Report>>, l: string): nat {
    if ds == [] then 0
    else (if ReportLabel(ds[0].Body()) == l then 1 else 0) + Occurrences(ds[1..], l)
  }

  /** Replaying adds exactly the labels of the POSTs to the vector's key set. */
  lemma {:induction false} ReplayKeys(m: CounterVec, ds: seq<Decoded<Report>>)
    ensures Replay(m, ds).Keys == m.Keys + Labels(ds)
    decreases |ds|
  {
    if ds != [] {
      ReplayKeys(ObservePost(m, ds[0]), ds[1..]);
    }
  }

  /** From an empty vector, any sequence of POSTs leaves at most eighteen labels. */
  lemma ReplayBounded(ds: seq<Decoded<Report>>)
    ensures Bounded(Replay(map[], ds))
    ensures |Replay(map[], ds).Keys| <= 18
  {
    ReplayKeys(map[], ds);
    UnknownIsNotDirective();
    var keys := Replay(map[], ds).Keys;
    assert keys <= AllLabels;
    assert |keys| <= |AllLabels| by {
      SubsetCardinality(keys, AllLabels);
    }
  }

  /** A subset has no more elements than its superset. */
  lemma SubsetCardinality(a: set<string>, b: set<string>)
    requires a <= b
    ensures |a| <= |b|
  {
    assert b == a + (b - a);
  }

  /** Each label ends up counting exactly the POSTs classified under it. */
  lemma {:induction false} ReplayCounts(m: CounterVec, ds: seq<Decoded<Report>>, l: string)
    ensures Count(Replay(m, ds), l) == Count(m, l) + Occurrences(ds, l)
    decreases |ds|
  {
    if ds != [] {
      ReplayCounts(ObservePost(m, ds[0]), ds[1..], l);
    }
  }

  /** The labels in a fixed order: the directive table, then the fallback. */
  const LabelList: seq<string> := DirectiveTable + [Unknown]

  /** The sum of the counters of the listed labels. */
  function SumCounts(m: CounterVec, labels: seq<string>): nat {
    if labels == [] then 0 else Count(m, labels[0]) + SumCounts(m, labels[1..])
  }

  /** The sum of the counters of the eighteen possible labels. */
  function Total(m: CounterVec): nat {
    SumCounts(m, LabelList)
  }

  /** Incrementing a label raises a sum over distinct labels by one exactly when it is listed. */
  lemma {:induction false} SumCountsInc(m: CounterVec, labels: seq<string>, l: string)
    requires Distinct(labels)
    ensures SumCounts(Inc(m, l), labels) == SumCounts(m, labels) + (if l in labels then 1 else 0)
  {
    if labels != [] {
      var tail := labels[1..];
      DistinctTail(labels);
      assert l in labels <==> l == labels[0] || l in tail;
      SumCountsInc(m, tail, l);
    }
  }

  /** The fixed label order lists every possible label once. */
  lemma LabelListComplete()
    ensures Distinct(LabelList)
    ensures forall l :: l in AllLabels ==> l in LabelList
  {
    DirectiveCount();
    UnknownIsNotDirective();
    forall i, j | 0 <= i < j < |LabelList| ensures LabelList[i] != LabelList[j] {
      if j == |DirectiveTable| {
        assert LabelList[i] == DirectiveTable[i] && DirectiveTable[i] in CspDirectives;
      } else {
        assert LabelList[i] == DirectiveTable[i] && LabelList[j] == DirectiveTable[j];
      }
    }
    forall l | l in AllLabels ensures l in LabelList {
      if l in CspDirectives {
        var k :| 0 <= k < |DirectiveTable| && DirectiveTable[k] == l;
        assert LabelList[k] == l;
      } else {
        assert LabelList[|DirectiveTable|] == l;
      }
    }
  }

  /** Every POST adds exactly one to the vector's total. */
  lemma {:induction false} ReplayTotal(m: CounterVec, ds: seq<Decoded<Report>>)
    ensures Total(Replay(m, ds)) == Total(m) + |ds|
    decreases |ds|
  {
    if ds != [] {
      LabelListComplete();
      SumCountsInc(m, LabelList, ReportLabel(ds[0].Body()));
      ReplayTotal(ObservePost(m, ds[0]), ds[1..]);
    }
  }

  /** A body that failed to decode into anything is still counted, under the fallback label. */
  lemma MalformedZeroCountsUnknown(m: CounterVec)
    ensures Count(ObservePost(m, Malformed(ZeroReport)), Unknown) == Count(m, Unknown) + 1
  {
    DirectiveLabelExamples();
  }

  /** `reportCount.Inc()`: one POST to the standalone binary, whatever it carried. */
  function CountPost(n: nat, d: Decoded<MainReport>): nat {
    n + 1
  }

  /** One POST adds one to the report counter, whatever it carried, even a body that failed to decode. */
  lemma CountPostOnce(n: nat, d: Decoded<MainReport>)
    ensures CountPost(n, d) == n + 1
    ensures CountPost(n, Malformed(ZeroMainReport)) == CountPost(n, d)
  {
  }

  /** The report counter after a sequence of POSTs. */
  function CountReplay(n: nat, ds: seq<Decoded<MainReport>>): nat
    decreases |ds|
  {
    if ds == [] then n else CountReplay(CountPost(n, ds[0]), ds[1..])
  }

  /** The report counter grows by exactly the number of POSTs, malformed ones included. */
  lemma {:induction false} CountReplayCounts(n: nat, ds: seq<Decoded<MainReport>>)
    ensures CountReplay(n, ds) == n + |ds|
    decreases |ds|
  {
    if ds != [] {
      CountReplayCounts(CountPost(n, ds[0]), ds[1..]);
    }
  }

  /**
   * For the same POSTs, the reporter package's vector total equals the
   * standalone binary's counter: both count every request once.
   */
  lemma CountersAgree(ds: seq<Decoded<Report>>, es: seq<Decoded<MainReport>>)
    requires |ds| == |es|
    ensures Total(Replay(map[], ds)) == CountReplay(0, es)
  {
    ReplayTotal(map[], ds);
    CountReplayCounts(0, es);
    ZeroSum(LabelList);
  }

  /** An empty vector sums to zero over any labels. */
  lemma {:induction false} ZeroSum(labels: seq<string>)
    ensures SumCounts(map[], labels) == 0
  {
    if labels != [] {
      ZeroSum(labels[1..]);
    }
  }

}
