/**
 * `LineChart`: the labels and data points of the report's line chart. Its
 * constructor checks the run-time types of the elements it is given and
 * raises `ValueError` when a label is not a `str` or a data point not an
 * `int`; otherwise it keeps both lists as they are.
 */
module Charts {
  import opened Wrappers

  /** A Python value as the chart receives it. */
  datatype Value = Str(s: string) | Int(i: int) | Bool(b: bool) | Float(x: real) | NoneValue

  /** `isinstance(v, str)` */
  predicate IsStr(v: Value) {
    v.Str?
  }

  /** `isinstance(v, int)`: `bool` is a subclass of `int` in Python. */
  predicate IsInt(v: Value) {
    v.Int? || v.Bool?
  }

  /** `all(isinstance(label, str) for label in vs)` */
  predicate AllStr(vs: seq<Value>)
    ensures AllStr(vs) <==> forall i :: 0 <= i < |vs| ==> IsStr(vs[i])
  {
    vs == [] || (IsStr(vs[0]) && AllStr(vs[1..]))
  }

  /** `all(isinstance(el, int) for el in vs)` */
  predicate AllInt(vs: seq<Value>)
    ensures AllInt(vs) <==> forall i :: 0 <= i < |vs| ==> IsInt(vs[i])
  {
    vs == [] || (IsInt(vs[0]) && AllInt(vs[1..]))
  }

  const LabelsError := "Labels must be str type"
  const DataError := "Data elements must be int type"

  /** The message of the `ValueError` the constructor raises, if any; labels are checked first. */
  function ConstructionError(labels: seq<Value>, data: seq<Value>): (r: Option<string>)
    ensures r.None? <==> (forall i :: 0 <= i < |labels| ==> IsStr(labels[i]))
                         && (forall j :: 0 <= j < |data| ==> IsInt(data[j]))
    ensures r == Some(LabelsError) <==> exists i :: 0 <= i < |labels| && !IsStr(labels[i])
    ensures r == Some(DataError) <==>
      (forall i :: 0 <= i < |labels| ==> IsStr(labels[i])) && exists j :: 0 <= j < |data| && !IsInt(data[j])
  {
    if !AllStr(labels) then Some(LabelsError)
    else if !AllInt(data) then Some(DataError)
    else None
  }

  function StrValues(ss: seq<string>): (vs: seq<Value>)
    ensures |vs| == |ss| && forall i :: 0 <= i < |ss| ==> vs[i] == Str(ss[i])
  {
    seq(|ss|, i requires 0 <= i < |ss| => Str(ss[i]))
  }

  function IntValues(ns: seq<nat>): (vs: seq<Value>)
    ensures |vs| == |ns| && forall i :: 0 <= i < |ns| ==> vs[i] == Int(ns[i])
  {
    seq(|ns|, i requires 0 <= i < |ns| => Int(ns[i]))
  }

  /** String labels and whole-number data are always accepted. */
  lemma TypedValuesAccepted(ss: seq<string>, ns: seq<nat>)
    ensures ConstructionError(StrValues(ss), IntValues(ns)) == None
  {
    var ls, ds := StrValues(ss), IntValues(ns);
    assert forall i :: 0 <= i < |ls| ==> IsStr(ls[i]);
    assert forall j :: 0 <= j < |ds| ==> IsInt(ds[j]);
  }

  class LineChart {
    var labels: seq<Value>
    var data: seq<Value>

    constructor (labels: seq<Value>, data: seq<Value>)
      requires ConstructionError(labels, data).None?
      ensures this.labels == labels && this.data == data
    {
      this.labels := labels;
      this.data := data;
    }
  }

  /** `LineChart(labels, data)`, with the `ValueError` as a failure. */
  method NewLineChart(labels: seq<Value>, data: seq<Value>) returns (r: Result<LineChart, string>)
    ensures r.Failure? <==> ConstructionError(labels, data).Some?
    ensures r.Failure? ==> ConstructionError(labels, data) == Some(r.error)
    ensures r.Success? ==> fresh(r.value) && r.value.labels == labels && r.value.data == data
  {
    var err := ConstructionError(labels, data);
    if err.Some? {
      return Failure(err.value);
    }
    var chart := new LineChart(labels, data);
    r := Success(chart);
  }
}
