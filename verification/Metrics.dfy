/** Labelled counters and gauges (src/monitoring/metrics.service.ts). */
module Metrics {

  type Labels = map<string, string>

  datatype MetricValue = MetricValue(labels: Labels, value: int)

  // The registered metrics, each with its values in the order in which their labels first appeared.
  type Registry = map<string, seq<MetricValue>>

  // Same number of keys, and every key of the first has the same value in the second.
  predicate AreLabelsEqual(l1: Labels, l2: Labels) {
    |l1.Keys| == |l2.Keys| && forall k :: k in l1 ==> k in l2 && l1[k] == l2[k]
  }

  /** The label comparison, which looks at the keys of one side only, is equality of the labels. */
  lemma LabelsEqualIff(l1: Labels, l2: Labels)
    ensures AreLabelsEqual(l1, l2) <==> l1 == l2
  {
    if AreLabelsEqual(l1, l2) {
      assert l1.Keys <= l2.Keys;
      SubsetOfSameSize(l1.Keys, l2.Keys);
    }
  }

  lemma SubsetOfSameSize<T>(a: set<T>, b: set<T>)
    requires a <= b && |a| == |b|
    ensures a == b
  {
    assert |b - a| == |b| - |a|;
  }

  // The value recorded for the labels, 0 when there is none.
  function ValueOf(values: seq<MetricValue>, labels: Labels): int {
    if values == [] then 0
    else if values[0].labels == labels then values[0].value
    else ValueOf(values[1..], labels)
  }

  // `values` with the entry of the labels changed by `f`, or a new entry at the end.
  function Change(values: seq<MetricValue>, labels: Labels, f: int -> int): seq<MetricValue> {
    if values == [] then [MetricValue(labels, f(0))]
    else if values[0].labels == labels then [MetricValue(labels, f(values[0].value))] + values[1..]
    else [values[0]] + Change(values[1..], labels, f)
  }

  ghost predicate Distinct(values: seq<MetricValue>) {
    forall i, j :: 0 <= i < j < |values| ==> values[i].labels != values[j].labels
  }

  // A change of unregistered metrics does nothing.
  function ChangeIn(r: Registry, name: string, labels: Labels, f: int -> int): Registry {
    if name in r then r[name := Change(r[name], labels, f)] else r
  }

  function Add(amount: int): int -> int {
    v => v + amount
  }

  function Put(value: int): int -> int {
    _ => value
  }

  function MetricValueOf(r: Registry, name: string, labels: Labels): int {
    if name in r then ValueOf(r[name], labels) else 0
  }

  function Register(r: Registry, name: string): Registry {
    if name in r then r else r[name := []]
  }

  class MetricsService {
    var metrics: Registry

    constructor ()
      ensures metrics == map[]
    {
      metrics := map[];
    }

    method RegisterMetric(name: string)
      modifies this
      ensures metrics == Register(old(metrics), name)
    {
      if name !in metrics {
        metrics := metrics[name := []];
      }
    }

    // The position of the first value with these labels.
    static method FindMetricValue(values: seq<MetricValue>, labels: Labels) returns (found: bool, i: nat)
      ensures found ==> i < |values| && values[i].labels == labels
      ensures forall j :: 0 <= j < (if found then i else |values|) ==> values[j].labels != labels
    {
      i := 0;
      while i < |values|
        invariant i <= |values|
        invariant forall j :: 0 <= j < i ==> values[j].labels != labels
      {
        LabelsEqualIff(values[i].labels, labels);
        if AreLabelsEqual(values[i].labels, labels) {
          return true, i;
        }
        i := i + 1;
      }
      found := false;
    }

    method IncrementCounter(name: string, labels: Labels, amount: int)
      modifies this
      ensures metrics == ChangeIn(old(metrics), name, labels, Add(amount))
    {
      if name !in metrics {
        return;
      }
      var values := metrics[name];
      var found, i := FindMetricValue(values, labels);
      ChangeAt(values, labels, Add(amount), found, i);
      if found {
        metrics := metrics[name := values[i := MetricValue(labels, values[i].value + amount)]];
      } else {
        metrics := metrics[name := values + [MetricValue(labels, amount)]];
      }
    }

    method SetGauge(name: string, value: int, labels: Labels)
      modifies this
      ensures metrics == ChangeIn(old(metrics), name, labels, Put(value))
    {
      if name !in metrics {
        return;
      }
      var values := metrics[name];
      var found, i := FindMetricValue(values, labels);
      ChangeAt(values, labels, Put(value), found, i);
      if found {
        metrics := metrics[name := values[i := MetricValue(labels, value)]];
      } else {
        metrics := metrics[name := values + [MetricValue(labels, value)]];
      }
    }

    method GetMetricValue(name: string, labels: Labels) returns (value: int)
      ensures value == MetricValueOf(metrics, name, labels)
    {
      if name !in metrics {
        return 0;
      }
      var values := metrics[name];
      var found, i := FindMetricValue(values, labels);
      ValueAt(values, labels, found, i);
      value := if found then values[i].value else 0;
    }
  }

  lemma {:induction false} ChangeAt(values: seq<MetricValue>, labels: Labels, f: int -> int, found: bool, i: nat)
    requires found ==> i < |values| && values[i].labels == labels
    requires forall j :: 0 <= j < (if found then i else |values|) ==> values[j].labels != labels
    ensures Change(values, labels, f) ==
      if found then values[i := MetricValue(labels, f(values[i].value))] else values + [MetricValue(labels, f(0))]
  {
    if values != [] && values[0].labels != labels {
      var rest, k := values[1..], if found then i - 1 else 0;
      assert forall j :: 0 <= j < (if found then k else |rest|) ==> rest[j] == values[j + 1];
      ChangeAt(rest, labels, f, found, k);
      if found {
        assert values[i := MetricValue(labels, f(values[i].value))] ==
          [values[0]] + rest[k := MetricValue(labels, f(rest[k].value))];
      } else {
        assert values + [MetricValue(labels, f(0))] == [values[0]] + (rest + [MetricValue(labels, f(0))]);
      }
    } else if values != [] {
      assert found && i == 0;
    }
  }

  lemma {:induction false} ValueAt(values: seq<MetricValue>, labels: Labels, found: bool, i: nat)
    requires found ==> i < |values| && values[i].labels == labels
    requires forall j :: 0 <= j < (if found then i else |values|) ==> values[j].labels != labels
    ensures ValueOf(values, labels) == if found then values[i].value else 0
  {
    if values != [] && values[0].labels != labels {
      ValueAt(values[1..], labels, found, if found then i - 1 else 0);
    }
  }

  /** A change is seen at exactly the labels it names. */
  lemma {:induction false} ChangeSeen(values: seq<MetricValue>, labels: Labels, f: int -> int, other: Labels)
    ensures ValueOf(Change(values, labels, f), other) ==
      if other == labels then f(ValueOf(values, labels)) else ValueOf(values, other)
  {
    if values != [] && values[0].labels != labels {
      ChangeSeen(values[1..], labels, f, other);
    }
  }

  /** A change keeps the label sets pairwise distinct. */
  lemma {:induction false} ChangeKeepsDistinct(values: seq<MetricValue>, labels: Labels, f: int -> int)
    requires Distinct(values)
    ensures Distinct(Change(values, labels, f))
    ensures forall i :: 0 <= i < |Change(values, labels, f)| ==>
      || Change(values, labels, f)[i].labels == labels
      || exists j :: 0 <= j < |values| && values[j].labels == Change(values, labels, f)[i].labels
  {
    if values != [] && values[0].labels != labels {
      ChangeKeepsDistinct(values[1..], labels, f);
    }
  }
}
