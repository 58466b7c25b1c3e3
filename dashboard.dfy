/** The dashboard's state updates on each threat message: the threat list
    (newest first, at most 20 entries), the confusion-matrix counters, the
    derived successful/unsuccessful totals and the three entries shown in the
    threat log. Rendering is not modelled. */
module Dashboard {
  import Attribution
  import Buffer

  /** The threat list keeps at most this many entries. */
  const MaxThreats: nat := 20
  /** The threat log shows at most this many entries. */
  const LogEntries: nat := 3

  /** One threat message as the dashboard receives it. */
  datatype Threat = Threat(device: string, prediction: int, actual: int, action: string,
                           timestamp: real, featureImportance: seq<Attribution.FeatureWeight>)

  /** The confusion-matrix counters. */
  datatype Metrics = Metrics(truePositives: nat, falsePositives: nat,
                             trueNegatives: nat, falseNegatives: nat)

  const NoMetrics := Metrics(0, 0, 0, 0)

  /** `setThreats`: put the new threat in front and keep the first 19 of the
      previous entries. */
  function PushThreat(prev: seq<Threat>, t: Threat): (r: seq<Threat>)
    ensures |r| == if |prev| < MaxThreats then |prev| + 1 else MaxThreats
    ensures r[0] == t
    ensures forall j :: 1 <= j < |r| ==> r[j] == prev[j - 1]
  {
    [t] + prev[..if |prev| < MaxThreats - 1 then |prev| else MaxThreats - 1]
  }

  /** The threat list after the messages `events`, oldest first, starting
      from the empty list. */
  function ThreatsAfter(events: seq<Threat>): seq<Threat>
  {
    if events == [] then []
    else PushThreat(ThreatsAfter(events[..|events| - 1]), events[|events| - 1])
  }

  /** The threat list is the newest min(20, n) messages, newest first. */
  lemma {:induction false} ThreatsAfterNewest(events: seq<Threat>)
    ensures |ThreatsAfter(events)| == if |events| < MaxThreats then |events| else MaxThreats
    ensures forall j :: 0 <= j < |ThreatsAfter(events)| ==> ThreatsAfter(events)[j] == events[|events| - 1 - j]
  {
    if events != [] {
      var init := events[..|events| - 1];
      ThreatsAfterNewest(init);
      assert forall j :: 0 <= j < |init| ==> init[j] == events[j];
    }
  }

  /** The same, stated with the buffer's window: the list is the newest
      `MaxThreats` messages in reverse order. */
  lemma {:induction false} ThreatsAfterIsReversedWindow(events: seq<Threat>)
    ensures ThreatsAfter(events) == Reverse(Buffer.Newest(events, MaxThreats))
  {
    ThreatsAfterNewest(events);
    var w := Buffer.Newest(events, MaxThreats);
    assert forall j :: 0 <= j < |w| ==> Reverse(w)[j] == events[|events| - 1 - j];
  }

  function Reverse<T>(s: seq<T>): (r: seq<T>)
    ensures |r| == |s| && forall j :: 0 <= j < |s| ==> r[j] == s[|s| - 1 - j]
  {
    seq(|s|, j requires 0 <= j < |s| => s[|s| - 1 - j])
  }

  /** The threat log: the first three entries of the threat list. */
  function ThreatLog(threats: seq<Threat>): (r: seq<Threat>)
    ensures |r| == if |threats| < LogEntries then |threats| else LogEntries
    ensures r == threats[..|r|]
  {
    threats[..if |threats| < LogEntries then |threats| else LogEntries]
  }

  /** The log shows the newest min(3, n) messages, newest first. */
  lemma {:induction false} ThreatLogNewest(events: seq<Threat>)
    ensures |ThreatLog(ThreatsAfter(events))| == if |events| < LogEntries then |events| else LogEntries
    ensures forall j :: 0 <= j < |ThreatLog(ThreatsAfter(events))| ==>
              ThreatLog(ThreatsAfter(events))[j] == events[|events| - 1 - j]
  {
    ThreatsAfterNewest(events);
  }

  /** Both labels are 0 or 1: the only messages the counters record. */
  predicate IsBinary(t: Threat)
  {
    t.prediction in {0, 1} && t.actual in {0, 1}
  }

  function Total(m: Metrics): nat
  {
    m.truePositives + m.falsePositives + m.trueNegatives + m.falseNegatives
  }

  /** The "Successful Identification" bar: true positives plus true negatives. */
  function Successful(m: Metrics): (s: nat)
    ensures s <= Total(m)
    ensures s == Total(m) <==> m.falsePositives == 0 && m.falseNegatives == 0
  {
    m.truePositives + m.trueNegatives
  }

  /** The "Unsuccessful Identification" bar: false positives plus false negatives. */
  function Unsuccessful(m: Metrics): (u: nat)
    ensures Successful(m) + u == Total(m)
  {
    m.falsePositives + m.falseNegatives
  }

  /** How many of the four counters differ between `a` and `b`. */
  function CountersMoved(a: Metrics, b: Metrics): nat
  {
    (if a.truePositives != b.truePositives then 1 else 0)
    + (if a.falsePositives != b.falsePositives then 1 else 0)
    + (if a.trueNegatives != b.trueNegatives then 1 else 0)
    + (if a.falseNegatives != b.falseNegatives then 1 else 0)
  }

  /** `setMetrics`: four independent checks on a copy of the counters. */
  function UpdateMetrics(prev: Metrics, t: Threat): (m: Metrics)
    // counters never decrease
    ensures m.truePositives >= prev.truePositives && m.falsePositives >= prev.falsePositives
    ensures m.trueNegatives >= prev.trueNegatives && m.falseNegatives >= prev.falseNegatives
    // a binary message moves exactly one counter, by one; any other moves none
    ensures IsBinary(t) ==> CountersMoved(prev, m) == 1 && Total(m) == Total(prev) + 1
    ensures !IsBinary(t) ==> m == prev
    // the successful bar grows exactly when the prediction was right
    ensures Successful(m) == Successful(prev) + (if IsBinary(t) && t.prediction == t.actual then 1 else 0)
    // which counter each (prediction, actual) pair moves
    ensures t.prediction == 1 && t.actual == 1 ==> m == prev.(truePositives := prev.truePositives + 1)
    ensures t.prediction == 1 && t.actual == 0 ==> m == prev.(falsePositives := prev.falsePositives + 1)
    ensures t.prediction == 0 && t.actual == 0 ==> m == prev.(trueNegatives := prev.trueNegatives + 1)
    ensures t.prediction == 0 && t.actual == 1 ==> m == prev.(falseNegatives := prev.falseNegatives + 1)
  {
    var p, a := t.prediction, t.actual;
    Metrics(prev.truePositives + (if p == 1 && a == 1 then 1 else 0),
            prev.falsePositives + (if p == 1 && a == 0 then 1 else 0),
            prev.trueNegatives + (if p == 0 && a == 0 then 1 else 0),
            prev.falseNegatives + (if p == 0 && a == 1 then 1 else 0))
  }

  /** The counters after the messages `events`, oldest first. */
  function MetricsAfter(events: seq<Threat>): Metrics
  {
    if events == [] then NoMetrics
    else UpdateMetrics(MetricsAfter(events[..|events| - 1]), events[|events| - 1])
  }

  /** The number of messages whose prediction is `p` and whose actual label
      is `a`. */
  function CountPair(events: seq<Threat>, p: int, a: int): (k: nat)
    ensures k <= |events|
  {
    if events == [] then 0
    else
      var t := events[|events| - 1];
      CountPair(events[..|events| - 1], p, a) + (if t.prediction == p && t.actual == a then 1 else 0)
  }

  /** Each counter counts the messages of its own (prediction, actual) pair:
      TP (1, 1), FP (1, 0), TN (0, 0) and FN (0, 1). */
  lemma {:induction false} MetricsAfterCountsPairs(events: seq<Threat>)
    ensures MetricsAfter(events)
            == Metrics(CountPair(events, 1, 1), CountPair(events, 1, 0),
                       CountPair(events, 0, 0), CountPair(events, 0, 1))
  {
    if events != [] {
      MetricsAfterCountsPairs(events[..|events| - 1]);
    }
  }

  /** The number of binary messages, and of those whose prediction was right. */
  function CountBinary(events: seq<Threat>, rightOnly: bool): (k: nat)
    ensures k <= |events|
  {
    if events == [] then 0
    else
      var t := events[|events| - 1];
      CountBinary(events[..|events| - 1], rightOnly)
      + (if IsBinary(t) && (!rightOnly || t.prediction == t.actual) then 1 else 0)
  }

  /** The two bars add up to the number of binary messages. */
  lemma {:induction false} TotalCountsBinaryMessages(events: seq<Threat>)
    ensures Successful(MetricsAfter(events)) + Unsuccessful(MetricsAfter(events)) == CountBinary(events, false)
  {
    if events != [] {
      var init, t := events[..|events| - 1], events[|events| - 1];
      TotalCountsBinaryMessages(init);
      var before := MetricsAfter(init);
      assert Total(UpdateMetrics(before, t)) == Total(before) + (if IsBinary(t) then 1 else 0);
    }
  }

  /** The successful bar counts the binary messages whose prediction was
      right. */
  lemma {:induction false} SuccessfulCountsRightPredictions(events: seq<Threat>)
    ensures Successful(MetricsAfter(events)) == CountBinary(events, true)
  {
    if events != [] {
      SuccessfulCountsRightPredictions(events[..|events| - 1]);
    }
  }
}
