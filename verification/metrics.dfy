/**
 The part of the Prometheus client library the collector touches: metric
 descriptors, value types and constant metrics. Only their data is modelled;
 registration and the channels they travel on are not.
 */
module Metrics {

  datatype ValueType = CounterValue | GaugeValue | UntypedValue

  /** A metric descriptor: fully-qualified name, help text and the names of
      the labels every sample of it carries. */
  datatype Desc = Desc(fqName: string, help: string, variableLabels: seq<string>)

  /** One sample: its descriptor, value type, value and label values (in the
      order of the descriptor's label names). */
  datatype Metric = Metric(desc: Desc, valueType: ValueType, value: int, labelValues: seq<string>)

  /** `prometheus.MustNewConstMetric`, which panics unless it is given exactly
      one value per label of the descriptor. */
  function MustNewConstMetric(desc: Desc, valueType: ValueType, value: int, labelValues: seq<string>): (m: Metric)
    requires |labelValues| == |desc.variableLabels|
    ensures |m.labelValues| == |m.desc.variableLabels|
  {
    Metric(desc, valueType, value, labelValues)
  }
}
