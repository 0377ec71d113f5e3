/**
 The `_cat/master` collector of the Elasticsearch exporter. On every scrape
 it GETs `<base>/_cat/master`, takes the fourth white-space separated field
 of the plain-text answer (the master node's name) and emits one gauge
 sample labelled with it, or emits nothing and logs a warning when any step
 fails.

 The HTTP exchange is an input value (`Exchange`), so fetching, decoding and
 collecting are total functions of it. Log lines are returned as
 `Warning`s, samples as a sequence instead of being pushed on a channel.
 */
module CatMaster {

  import opened Wrappers
  import opened StringFields
  import opened Metrics

  /** `http.StatusOK`. */
  const StatusOK: int := 200

  /** A `_cat/master` line reads `id host ip node`: the node name is the
      field at index 3, so at least four fields are needed. */
  const MasterNameIndex: nat := 3
  const MinFields: nat := 4

  /** `BuildFQName("elasticsearch", "cluster_role", "master")`. */
  const MasterMetricName: string := "elasticsearch_cluster_role_master"
  const MasterHelp: string := "The master role in the master node."
  const MasterLabel: string := "master_role_name"

  /** The outcome of reading the whole response body. */
  datatype ReadResult = ReadOk(text: string) | ReadFail(cause: string)

  /** One GET as the collector sees it: either the client failed, or a
      response arrived with a status, a body read and a body close. */
  datatype Exchange =
    | TransportFail(cause: string)
    | Response(statusCode: int, body: ReadResult, closeOk: bool)

  /** Why `fetchAndDecodeCatMaster` returned an error. */
  datatype FetchError =
    | TransportError(cause: string)
    | StatusError(code: int)
    | ReadError(cause: string)
    | FormatError(raw: string)

  /** The fixed metric fields of the collector. */
  datatype CatMasterMetric = CatMasterMetric(valueType: ValueType, desc: Desc, value: int)

  /** The collector; the logger, client and URL are not modelled. */
  datatype CatMaster = CatMaster(masterVec: CatMasterMetric)

  /** A warning the collector logs. */
  datatype Warning = CloseFailed | FetchFailed(err: FetchError)

  /** What one call of `Collect` produces: the samples it emits and the
      warnings it logs, in order. */
  datatype Scrape = Scrape(metrics: seq<Metric>, warnings: seq<Warning>)

  /** `NewCatMaster`: a gauge of constant value 1 with one label, so every
      collector it builds can emit a sample without a panic. */
  function NewCatMaster(): (c: CatMaster)
    ensures Valid(c)
    ensures c.masterVec.valueType == GaugeValue && c.masterVec.value == 1
    ensures c.masterVec.desc.fqName == "elasticsearch" + "_" + "cluster_role" + "_" + "master"
    ensures c.masterVec.desc.help == MasterHelp
    ensures c.masterVec.desc.variableLabels == [MasterLabel]
  {
    CatMaster(CatMasterMetric(GaugeValue, Desc(MasterMetricName, MasterHelp, [MasterLabel]), 1))
  }

  /** The descriptor carries one label, so a sample with one label value can
      be built without a panic. */
  predicate Valid(c: CatMaster) {
    |c.masterVec.desc.variableLabels| == 1
  }

  /** `Describe`: the descriptors announced to the registry. */
  function Describe(c: CatMaster): (descs: seq<Desc>)
    ensures |descs| == 1 && descs[0] == c.masterVec.desc
  {
    [c.masterVec.desc]
  }

  /** The master name in a body that was read in full. */
  function DecodeBody(text: string): (r: Result<string, FetchError>)
    ensures r.Success? ==> IsToken(r.value)
    ensures r.Failure? ==> r.error == FormatError(text)
  {
    var fields := Fields(text);
    if |fields| >= MinFields then Success(fields[MasterNameIndex])
    else Failure(FormatError(text))
  }

  /** `fetchAndDecodeCatMaster`. Closing the body is deferred and its
      failure only logged (see `CloseWarnings`): the returned values are not
      named, so the deferred assignment to `err` cannot reach the caller. */
  function FetchAndDecodeCatMaster(x: Exchange): (r: Result<string, FetchError>)
    ensures r.Success? ==> x.Response? && x.statusCode == StatusOK && x.body.ReadOk?
    ensures r.Success? ==> IsToken(r.value)
  {
    match x
    case TransportFail(cause) => Failure(TransportError(cause))
    case Response(status, body, _) =>
      if status != StatusOK then Failure(StatusError(status))
      else
        match body
        case ReadFail(cause) => Failure(ReadError(cause))
        case ReadOk(text) => DecodeBody(text)
  }

  /** The warning logged by the deferred close, if any. */
  function CloseWarnings(x: Exchange): (ws: seq<Warning>)
    ensures |ws| <= 1
    ensures ws != [] <==> x.Response? && !x.closeOk
    ensures forall w :: w in ws ==> w == CloseFailed
  {
    if x.Response? && !x.closeOk then [CloseFailed] else []
  }

  /** The fetch failures among the logged warnings. */
  function FetchFailures(ws: seq<Warning>): seq<FetchError> {
    if |ws| == 0 then []
    else (if ws[0].FetchFailed? then [ws[0].err] else []) + FetchFailures(ws[1..])
  }

  /** `Collect`: one sample on success, a logged warning on failure. */
  function Collect(c: CatMaster, x: Exchange): (s: Scrape)
    requires Valid(c)
    ensures |s.metrics| <= 1
    ensures |s.metrics| == 1 <==> FetchAndDecodeCatMaster(x).Success?
    ensures |s.metrics| + |FetchFailures(s.warnings)| == 1
    ensures forall m :: m in s.metrics ==> m.desc in Describe(c) && |m.labelValues| == |m.desc.variableLabels|
    ensures |s.metrics| == 1 ==>
      && s.metrics[0].labelValues == [FetchAndDecodeCatMaster(x).value]
      && s.metrics[0].valueType == c.masterVec.valueType
      && s.metrics[0].value == c.masterVec.value
    ensures CloseFailed in s.warnings <==> x.Response? && !x.closeOk
  {
    var closeLog := CloseWarnings(x);
    match FetchAndDecodeCatMaster(x)
    case Failure(e) =>
      var log := closeLog + [FetchFailed(e)];
      assert FetchFailures(log) == [e] by {
        var last := [FetchFailed(e)];
        assert FetchFailures(last) == [e] + FetchFailures(last[1..]);
        assert last[1..] == [];
        if |closeLog| == 1 {
          assert log[1..] == last;
          assert FetchFailures(log) == [] + FetchFailures(last);
        } else {
          assert log == last;
        }
      }
      Scrape([], log)
    case Success(name) =>
      var m := MustNewConstMetric(c.masterVec.desc, c.masterVec.valueType, c.masterVec.value, [name]);
      Scrape([m], closeLog)
  }

  // ----- Decoding -----

  /** Decoding succeeds exactly on a 200 response whose body was read and
      has at least four fields, and then yields the field at index 3. */
  lemma DecodeSucceedsIff(x: Exchange)
    ensures FetchAndDecodeCatMaster(x).Success? <==>
      x.Response? && x.statusCode == StatusOK && x.body.ReadOk? && |Fields(x.body.text)| >= 4
    ensures FetchAndDecodeCatMaster(x).Success? ==>
      FetchAndDecodeCatMaster(x).value == Fields(x.body.text)[3]
  {
  }

  /** A body laid out as fields separated by white space decodes to its
      fourth field, whatever the white space around and between them. */
  lemma DecodeOfLayout(tokens: seq<string>, gaps: seq<string>, closeOk: bool)
    requires ValidLayout(tokens, gaps)
    requires |tokens| >= 4
    ensures FetchAndDecodeCatMaster(Response(StatusOK, ReadOk(Layout(tokens, gaps)), closeOk)) == Success(tokens[3])
  {
    FieldsOfLayout(tokens, gaps);
  }

  /** A body with fewer than four fields is a format error that carries the
      raw body. */
  lemma DecodeShortLayout(tokens: seq<string>, gaps: seq<string>, closeOk: bool)
    requires ValidLayout(tokens, gaps)
    requires |tokens| < 4
    ensures FetchAndDecodeCatMaster(Response(StatusOK, ReadOk(Layout(tokens, gaps)), closeOk))
      == Failure(FormatError(Layout(tokens, gaps)))
  {
    FieldsOfLayout(tokens, gaps);
  }

  /** An empty or all-white-space body is a format error carrying that body. */
  lemma DecodeBlankBody(text: string, closeOk: bool)
    requires AllSpace(text)
    ensures FetchAndDecodeCatMaster(Response(StatusOK, ReadOk(text), closeOk)) == Failure(FormatError(text))
  {
    FieldsEmptyIffBlank(text);
  }

  /** Any status other than 200 is a status error, whatever the body and
      the close: the body is never looked at. */
  lemma NonOkStatusIgnoresBody(status: int, body: ReadResult, closeOk: bool)
    requires status != StatusOK
    ensures FetchAndDecodeCatMaster(Response(status, body, closeOk)) == Failure(StatusError(status))
  {
  }

  /** A transport failure or a failed body read is an error carrying its
      cause, and no name. */
  lemma TransportAndReadFailures(cause: string, closeOk: bool)
    ensures FetchAndDecodeCatMaster(TransportFail(cause)) == Failure(TransportError(cause))
    ensures FetchAndDecodeCatMaster(Response(StatusOK, ReadFail(cause), closeOk)) == Failure(ReadError(cause))
  {
  }

  /** The close outcome never changes the returned value. */
  lemma CloseNeverAffectsResult(status: int, body: ReadResult)
    ensures FetchAndDecodeCatMaster(Response(status, body, true)) == FetchAndDecodeCatMaster(Response(status, body, false))
  {
  }

  /** Leading and trailing white space neither changes whether a name is
      decoded nor which one. (A format error still carries the padded body.) */
  lemma DecodeIgnoresPadding(w1: string, text: string, w2: string, closeOk: bool)
    requires AllSpace(w1) && AllSpace(w2)
    ensures
      var padded := FetchAndDecodeCatMaster(Response(StatusOK, ReadOk(w1 + text + w2), closeOk));
      var plain := FetchAndDecodeCatMaster(Response(StatusOK, ReadOk(text), closeOk));
      && padded.Success? == plain.Success?
      && (padded.Success? ==> padded.value == plain.value)
  {
    FieldsOfPadded(w1, text, w2);
  }

  /** Replacing one run of white space in the body by another, wider or
      narrower, neither changes whether a name is decoded nor which one. */
  lemma DecodeIgnoresRunWidth(a: string, w: string, w': string, b: string, closeOk: bool)
    requires |w| > 0 && AllSpace(w)
    requires |w'| > 0 && AllSpace(w')
    ensures
      var r := FetchAndDecodeCatMaster(Response(StatusOK, ReadOk(a + w + b), closeOk));
      var r' := FetchAndDecodeCatMaster(Response(StatusOK, ReadOk(a + w' + b), closeOk));
      && r.Success? == r'.Success?
      && (r.Success? ==> r.value == r'.value)
  {
    FieldsWidenRun(a, w, w', b);
  }

  // ----- Collecting -----

  /** The constructed collector emits, on a good answer, exactly one gauge
      sample of value 1 labelled `master_role_name` with the fourth field. */
  lemma CollectMasterSample(x: Exchange)
    requires x.Response? && x.statusCode == StatusOK && x.body.ReadOk?
    requires |Fields(x.body.text)| >= 4
    ensures Collect(NewCatMaster(), x).metrics ==
      [Metric(Desc(MasterMetricName, MasterHelp, [MasterLabel]), GaugeValue, 1, [Fields(x.body.text)[3]])]
  {
  }

  /** On any failure nothing is emitted and the failure is logged once, after
      the close warning if there is one. */
  lemma CollectOnFailure(c: CatMaster, x: Exchange)
    requires Valid(c)
    requires FetchAndDecodeCatMaster(x).Failure?
    ensures Collect(c, x).metrics == []
    ensures Collect(c, x).warnings == CloseWarnings(x) + [FetchFailed(FetchAndDecodeCatMaster(x).error)]
  {
  }

  /** A close failure adds one leading warning and changes nothing else. */
  lemma CollectIgnoresClose(c: CatMaster, status: int, body: ReadResult)
    requires Valid(c)
    ensures Collect(c, Response(status, body, false)).metrics == Collect(c, Response(status, body, true)).metrics
    ensures Collect(c, Response(status, body, false)).warnings == [CloseFailed] + Collect(c, Response(status, body, true)).warnings
  {
  }

  /** The sample is the fourth field of the answer, not the third. */
  lemma ScenarioFourFields()
    ensures Collect(NewCatMaster(), Response(200, ReadOk("abc 10.0.0.1 node-3 master"), true)) ==
      Scrape([Metric(Desc(MasterMetricName, MasterHelp, [MasterLabel]), GaugeValue, 1, ["master"])], [])
  {
    var tokens := ["abc", "10.0.0.1", "node-3", "master"];
    var gaps := ["", " ", " ", " ", ""];
    ScenarioFourFieldsLayout(tokens, gaps);
    DecodeOfLayout(tokens, gaps, true);
  }

  lemma ScenarioFourFieldsLayout(tokens: seq<string>, gaps: seq<string>)
    requires tokens == ["abc", "10.0.0.1", "node-3", "master"]
    requires gaps == ["", " ", " ", " ", ""]
    ensures ValidLayout(tokens, gaps)
    ensures Layout(tokens, gaps) == "abc 10.0.0.1 node-3 master"
  {
    ScenarioFourFieldsTokens(tokens);
    ScenarioFourFieldsText(tokens, gaps);
  }

  lemma ScenarioFourFieldsTokens(tokens: seq<string>)
    requires tokens == ["abc", "10.0.0.1", "node-3", "master"]
    ensures forall i :: 0 <= i < |tokens| ==> IsToken(tokens[i])
  {
    assert IsToken(tokens[0]);
    assert IsToken(tokens[1]);
    assert IsToken(tokens[2]);
    assert IsToken(tokens[3]);
  }

  lemma ScenarioFourFieldsText(tokens: seq<string>, gaps: seq<string>)
    requires tokens == ["abc", "10.0.0.1", "node-3", "master"]
    requires gaps == ["", " ", " ", " ", ""]
    ensures Layout(tokens, gaps) == "abc 10.0.0.1 node-3 master"
  {
    ScenarioFourFieldsMiddle(tokens[1..], gaps[1..]);
    assert Layout(tokens, gaps) == "" + "abc" + " 10.0.0.1 node-3 master";
  }

  lemma ScenarioFourFieldsMiddle(tokens: seq<string>, gaps: seq<string>)
    requires tokens == ["10.0.0.1", "node-3", "master"]
    requires gaps == [" ", " ", " ", ""]
    ensures Layout(tokens, gaps) == " 10.0.0.1 node-3 master"
  {
    ScenarioFourFieldsTail(tokens[1..], gaps[1..]);
    assert Layout(tokens, gaps) == " " + "10.0.0.1" + " node-3 master";
  }

  lemma ScenarioFourFieldsTail(tokens: seq<string>, gaps: seq<string>)
    requires tokens == ["node-3", "master"]
    requires gaps == [" ", " ", ""]
    ensures Layout(tokens, gaps) == " node-3 master"
  {
    assert Layout(tokens[2..], gaps[2..]) == "";
    assert Layout(tokens[1..], gaps[1..]) == " master";
  }

  /** Two fields are a format error: nothing emitted, one warning. */
  lemma ScenarioTwoFields()
    ensures Collect(NewCatMaster(), Response(200, ReadOk("abc 10.0.0.1"), true)) ==
      Scrape([], [FetchFailed(FormatError("abc 10.0.0.1"))])
  {
    var tokens := ["abc", "10.0.0.1"];
    var gaps := ["", " ", ""];
    assert Layout(tokens, gaps) == "abc 10.0.0.1";
    DecodeShortLayout(tokens, gaps, true);
  }

  /** A 503 is a status error carrying 503: nothing emitted, one warning. */
  lemma ScenarioStatus503(body: ReadResult)
    ensures Collect(NewCatMaster(), Response(503, body, true)) == Scrape([], [FetchFailed(StatusError(503))])
  {
  }
}
