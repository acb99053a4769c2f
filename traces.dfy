/**
 * A trace point: a New Relic @Trace annotation in the project's source that
 * names its metric explicitly. The PSI tree is reduced to what the plugin
 * reads from it: the annotation's attributes as name/value pairs, its file,
 * its text range, and the 0-based line its text starts on.
 */
module Traces {
  import opened Wrappers

  /** The attribute that names the metric. */
  const MetricNameKey := "metricName"

  datatype TextRange = TextRange(startOffset: int, endOffset: int)

  /** A source file, as far as the table needs it: its name. */
  datatype SourceFile = SourceFile(name: string)

  /** Trace: the metric name, where the annotation is, and its 1-based line. */
  datatype Trace = Trace(metricName: string, textRange: TextRange, file: SourceFile, lineNumber: int)

  /** One name/value pair of an annotation: the name is null for the
      unnamed "value" attribute, the literal value null when the value is
      not a literal. */
  datatype Attribute = Attribute(name: Option<string>, literalValue: Option<string>)

  /** A PSI annotation: its attributes in source order, its file, its text
      range, and the 0-based line of its text offset. */
  datatype Annotation = Annotation(attributes: seq<Attribute>, file: SourceFile, textRange: TextRange, offsetLine: nat)

  predicate NamesMetric(a: Attribute) {
    a.name == Some(MetricNameKey)
  }

  /** getMetricName: the literal value of the first attribute named
      "metricName"; null when there is none. */
  function GetMetricName(attributes: seq<Attribute>): Option<string> {
    if attributes == [] then None
    else if NamesMetric(attributes[0]) then attributes[0].literalValue
    else GetMetricName(attributes[1..])
  }

  /** The first attribute named "metricName" decides, whatever follows it. */
  lemma {:induction false} GetMetricNameFirstMatch(attributes: seq<Attribute>, i: nat)
    requires i < |attributes| && NamesMetric(attributes[i])
    requires forall j :: 0 <= j < i ==> !NamesMetric(attributes[j])
    ensures GetMetricName(attributes) == attributes[i].literalValue
    decreases i
  {
    if i > 0 {
      GetMetricNameFirstMatch(attributes[1..], i - 1);
    }
  }

  /** Without an attribute named "metricName" there is no metric name. */
  lemma {:induction false} GetMetricNameAbsent(attributes: seq<Attribute>)
    requires forall j :: 0 <= j < |attributes| ==> !NamesMetric(attributes[j])
    ensures GetMetricName(attributes) == None
  {
    if attributes != [] {
      GetMetricNameAbsent(attributes[1..]);
    }
  }

  /** A metric name found is the value of some attribute named "metricName". */
  lemma {:induction false} GetMetricNameFound(attributes: seq<Attribute>)
    requires GetMetricName(attributes).Some?
    ensures exists i :: 0 <= i < |attributes| && NamesMetric(attributes[i])
                        && attributes[i].literalValue == GetMetricName(attributes)
  {
    if !NamesMetric(attributes[0]) {
      GetMetricNameFound(attributes[1..]);
      var i :| 0 <= i < |attributes[1..]| && NamesMetric(attributes[1..][i])
               && attributes[1..][i].literalValue == GetMetricName(attributes[1..]);
      assert attributes[i + 1] == attributes[1..][i];
    }
  }

  /** fromPsiAnnotation: a trace for an annotation that names its metric,
      null for one that does not. */
  function FromPsiAnnotation(annotation: Annotation): (r: Option<Trace>)
    ensures r.Some? <==> GetMetricName(annotation.attributes).Some?
    ensures r.Some? ==>
              && r.value.metricName == GetMetricName(annotation.attributes).value
              && r.value.lineNumber == annotation.offsetLine + 1 >= 1
              && r.value.file == annotation.file
              && r.value.textRange == annotation.textRange
  {
    var metricName := GetMetricName(annotation.attributes);
    if metricName.None? then None
    else Some(Trace(metricName.value, annotation.textRange, annotation.file, annotation.offsetLine + 1))
  }
}
