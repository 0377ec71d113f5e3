# `_cat/master` collector of the Elasticsearch exporter, in Dafny

This project models the `_cat/master` collector of the Elasticsearch
Prometheus exporter. On each scrape the collector GETs
`<base>/_cat/master`, checks for status 200, reads the whole body, cuts
it into white-space separated fields with Go's `strings.Fields`, and takes
the field at index 3 as the master node's name. It then emits one gauge
sample `elasticsearch_cluster_role_master{master_role_name="<name>"} 1`.
If any step fails, it emits nothing and logs a warning. Closing the
response body is deferred. A failed close is logged but never changes the
result.

The HTTP exchange is an input value. A `CatMaster.Exchange` is either a
transport failure, or a response with a status code, a body-read outcome
and a close outcome. Fetching, decoding and collecting are then total
pure functions of it. Samples are returned as a sequence instead of being
pushed on a channel. Log lines are returned as `Warning` values in the
order they are logged. `Collect` is a pure function of the collector and
the exchange, so repeated scrapes of an unchanged answer give identical
output by construction.

Files:

- `wrappers.dfy` (`Wrappers`): the `Result` type for Go's `(value, error)` pairs.
- `string_fields.dfy` (`StringFields`): Go's `unicode.IsSpace` table and
  `strings.Fields`. It has a recursive definition (`Fields`) and the
  `FieldsFunc`-style loop (`SplitFields`). It also has an independent
  description of a text as fields laid out between white-space gaps
  (`Layout`, `Gaps`), with the lemmas that tie the two together.
- `metrics.dfy` (`Metrics`): descriptors, value types and
  `MustNewConstMetric`, which needs one label value per label name.
  `Collect` therefore requires a collector whose descriptor has exactly one
  label (`CatMaster.Valid`), which `NewCatMaster` provides; otherwise the
  Go code would panic.
- `cat_master.dfy` (`CatMaster`): the collector: `NewCatMaster`,
  `Describe`, `FetchAndDecodeCatMaster`, `Collect` and their properties.

Two consequences of the code that are easy to misread:

- The collector returns `fields[3]`. For the body `abc 10.0.0.1 node-3 master`
  that is `master` (`CatMaster.ScenarioFourFields`). A real `_cat/master` line
  reads `id host ip node`, so index 3 is the node name.
- When the body close also fails, a failed scrape logs two warnings: first the
  close warning from the deferred close, then the fetch failure
  (`CatMaster.CollectOnFailure`, `CatMaster.CollectIgnoresClose`).

## Model

| member | source | states |
|---|---|---|
| `StringFields.Fields` | collector/cat_master.go:80 | every field that `strings.Fields` returns is non-empty and holds no white-space character |
| `StringFields.FieldsConcat` | collector/cat_master.go:80 | the fields joined in order are the body with every white-space character removed, so nothing else is lost, duplicated or reordered |
| `StringFields.FieldsOfLayout` | collector/cat_master.go:80 | fields placed between white-space gaps (non-empty between neighbours) come back unchanged and in order when the text is split again |
| `StringFields.GapsRebuild` | collector/cat_master.go:80 | every text is its own fields laid out between valid white-space gaps, so splitting discards exactly the white space |
| `StringFields.FieldsEmptyIffBlank` | collector/cat_master.go:80 | a text has no fields if and only if it is empty or all white space |
| `StringFields.FieldsSplitAtSpace` | collector/cat_master.go:80 | a white-space character separates the fields before it from those after it; no field spans it |
| `StringFields.FieldsWidenRun` | collector/cat_master.go:80 | replacing a run of white space by any other non-empty run leaves the fields unchanged |
| `StringFields.FieldsOfPadded` | collector/cat_master.go:80 | leading and trailing white space leaves the fields unchanged |
| `StringFields.SplitFields` | collector/cat_master.go:80 | the field-start/field-end scanning loop returns exactly the fields of the recursive definition |
| `StringFields.IsSpaceCases` | collector/cat_master.go:80 | below U+0100 exactly tab, newline, vertical tab, form feed, carriage return, space, U+0085 and U+00A0 are white space, as in the Latin-1 fast path of Go's `unicode.IsSpace`; no code point above U+3000 is white space |
| `Metrics.MustNewConstMetric` | collector/cat_master.go:99-104 | a constant sample can only be built with one label value per label name, and then has that arity |
| `CatMaster.NewCatMaster` | collector/cat_master.go:33-50 | the new collector's metric is a gauge of value 1 named `elasticsearch_cluster_role_master` (the three name parts joined by `_`), with the fixed help text and the one label `master_role_name`, so it is valid for `Collect` |
| `CatMaster.Describe` | collector/cat_master.go:23-25 | exactly one descriptor is announced, the collector's own |
| `CatMaster.CloseWarnings` | collector/cat_master.go:61-69 | the deferred close logs at most one warning, always a close warning, and logs it exactly when a response arrived and closing its body failed |
| `CatMaster.DecodeBody` | collector/cat_master.go:79-85 | a name decoded from a body is a single field; a body that fails to decode is reported as a format error carrying the raw body |
| `CatMaster.FetchAndDecodeCatMaster` | collector/cat_master.go:52-86 | a name is only returned for a 200 response whose body was read in full, and it is a single non-empty field without white space |
| `CatMaster.Collect` | collector/cat_master.go:87-105 | at most one sample; one sample exactly when decoding succeeds; every scrape yields either one sample or one fetch-failure warning, never both; the sample uses the described descriptor with matching label arity, carries the decoded name as its only label value, and has the collector's value type and value; a close warning appears exactly when a response's body close failed |
| `CatMaster.DecodeSucceedsIff` | collector/cat_master.go:71-85 | decoding succeeds if and only if the response is a 200 with a fully read body of at least four fields, and then yields the field at index 3 |
| `CatMaster.DecodeOfLayout` | collector/cat_master.go:80-82 | a 200 body made of four or more fields with any white space around and between them decodes to the fourth field |
| `CatMaster.DecodeShortLayout` | collector/cat_master.go:81-85 | a 200 body with fewer than four fields is a format error carrying the raw body |
| `CatMaster.DecodeBlankBody` | collector/cat_master.go:80-85 | an empty or all-white-space 200 body is a format error carrying that body |
| `CatMaster.NonOkStatusIgnoresBody` | collector/cat_master.go:71-73 | any status other than 200 is a status error carrying the code, whatever the body and close outcome |
| `CatMaster.TransportAndReadFailures` | collector/cat_master.go:55-78 | a transport failure or a failed body read is an error carrying its cause, with no name |
| `CatMaster.CloseNeverAffectsResult` | collector/cat_master.go:61-69 | for the same status and body, the result is the same whether or not closing the body fails |
| `CatMaster.DecodeIgnoresPadding` | collector/cat_master.go:80-82 | leading or trailing white space changes neither whether a name is decoded nor which name |
| `CatMaster.DecodeIgnoresRunWidth` | collector/cat_master.go:80-82 | widening or narrowing a white-space run in the body changes neither whether a name is decoded nor which name |
| `CatMaster.CollectMasterSample` | collector/cat_master.go:33-105 | the constructed collector emits, for a good answer, exactly one gauge sample of value 1 whose one label `master_role_name` is the body's fourth field |
| `CatMaster.CollectOnFailure` | collector/cat_master.go:89-96 | on any failure no sample is emitted and the failure is logged once, after the close warning if there is one |
| `CatMaster.CollectIgnoresClose` | collector/cat_master.go:61-69 | a failed close adds one leading warning and changes neither the samples nor the other warnings |
| `CatMaster.ScenarioFourFields` | collector/cat_master.go:80-82 | the body `abc 10.0.0.1 node-3 master` yields one sample labelled `master` and no warning |
| `CatMaster.ScenarioTwoFields` | collector/cat_master.go:81-85 | the body `abc 10.0.0.1` yields no sample and one format-error warning carrying the body |
| `CatMaster.ScenarioStatus503` | collector/cat_master.go:71-72 | status 503 yields no sample and one status-error warning carrying 503 |

## Left out

- URL building (`path.Join` and `u.String()`) and the HTTP client's `Get` are network I/O and library code. The exchange is an input value instead.
- The text of the error messages is not modelled. Errors are kinds that carry the cause, the status code or the raw body. The transport error does not carry the scheme, host, port and path.
- The go-kit logger is not modelled. Warnings are returned as values, without their key/value pairs.
- The collector's logger, client and URL fields are not in the `CatMaster` datatype. Only the metric fields are.
- Prometheus descriptors, `BuildFQName`, registration and the channels of `Describe` and `Collect` are library code. The metric name is the literal `BuildFQName` produces. Samples and descriptors are returned as sequences.
- The metric value is the `float64` constant 1. It is modelled as the integer 1.
- Metrics.MustNewConstMetric: the check that label values are valid UTF-8 is not modelled. In Go, a body whose fourth field holds invalid UTF-8 makes `MustNewConstMetric` panic at collector/cat_master.go:99, so that `Collect` call never returns. Model strings are sequences of characters and cannot hold such a body, so the model's `Collect`, which always returns a scrape, does not cover that panic.
- The body is modelled as characters that are already decoded. Go's `string(bts)` keeps the raw bytes. `strings.Fields` reads an invalid UTF-8 byte as U+FFFD only to decide where fields split, and U+FFFD is not white space. The field it returns keeps the original bytes. The model does not represent such bytes.
- Concurrency between collectors and request timeouts are left to the registry and the client.
