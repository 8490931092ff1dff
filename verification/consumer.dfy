/** The consuming side of the stream (`_runner` in streamlit_app.py) and
    the payload it leaves for the dashboard. Each line is split into a role
    and a content, the content is classified, and the line adds to at most
    one of three lists: chart specifications, data frames or insights. A
    chart whose JSON does not parse ends the whole run; a data payload that
    does not parse is skipped. JSON parsing and the pandas conversions are
    opaque functions supplied in a `Codec`. */
module Consumer {
  import opened Results
  import opened Text
  import opened Seqs

  /** The prefix that marks a chart specification. */
  const ChartMarker: string := "CHART_JSON:"

  /** The quoted key whose presence marks a data payload. */
  const DataKey: string := "\"data_json\""

  /** The library calls the consumer makes, each `None` where it raises:
      `parse` is `json.loads`, `dataField` is `obj["data_json"]`,
      `readFrame` is `pd.read_json(..., orient="split")` and `toJson` is
      `df.to_json(orient="split")`. */
  datatype Codec<!J, !F> = Codec(
    parse: string -> Option<J>,
    dataField: J -> Option<J>,
    readFrame: J -> Option<F>,
    toJson: F -> string)

  /** A line split into the speaker's name and the stripped message text. */
  datatype Parsed = Parsed(role: string, content: string)

  /** The three branches of the consumer. */
  datatype Kind = Chart | Data | Insight

  /** What the consumer has accumulated so far. */
  datatype Session<J, F> = Session(insights: seq<string>, charts: seq<J>, frames: seq<F>)

  /** Why a run stopped early: a chart payload `json.loads` rejected. */
  datatype Abort = ChartParseError(payload: string)

  /** The dashboard payload stored after a completed run. */
  datatype Payload<J> = Payload(insights: seq<string>, charts: seq<J>, frames: seq<string>, question: string)

  function EmptySession<J, F>(): Session<J, F> {
    Session([], [], [])
  }

  /** The position of the first colon, if any. */
  function FirstColon(s: string): (r: Option<nat>)
    ensures r.Some? ==> r.value < |s| && s[r.value] == ':' && Avoids(s[..r.value], ':')
    ensures r.None? ==> Avoids(s, ':')
  {
    if s == [] then None
    else if s[0] == ':' then Some(0)
    else match FirstColon(s[1..])
         case None => None
         case Some(i) =>
           assert s[..i + 1] == [s[0]] + s[1..][..i];
           Some(i + 1)
  }

  /** The first colon after a colon-free prefix is the one that ends it. */
  lemma {:induction false} FirstColonAfter(a: string, x: string)
    requires Avoids(a, ':')
    ensures FirstColon(a + ":" + x) == Some(|a|)
    decreases |a|
  {
    if a != [] {
      assert (a + ":" + x)[1..] == a[1..] + ":" + x;
      FirstColonAfter(a[1..], x);
    }
  }

  /** `role, *rest = line.split(":", 1)` followed by
      `content = rest[0].strip() if rest else ""`: the role is everything
      before the first colon and has no colon in it; the content is what
      follows that colon, stripped. A line without a colon is all role and
      has empty content. */
  function SplitLine(line: string): (p: Parsed)
    ensures Avoids(p.role, ':')
    ensures Avoids(line, ':') ==> p == Parsed(line, "")
    ensures !Avoids(line, ':') ==>
              && |p.role| < |line|
              && line[..|p.role|] == p.role && line[|p.role|] == ':'
              && p.content == Strip(line[|p.role| + 1..])
  {
    match FirstColon(line)
    case None => Parsed(line, "")
    case Some(i) => Parsed(line[..i], Strip(line[i + 1..]))
  }

  /** The branch taken for a content: a chart when it starts with the
      marker, otherwise data when it names the quoted `data_json` key,
      otherwise an insight. */
  function Classify(content: string): Kind {
    if StartsWith(content, ChartMarker) then Chart
    else if Contains(content, DataKey) then Data
    else Insight
  }

  /** The text handed to `json.loads` for a chart: the content with every
      occurrence of the marker removed, then stripped. */
  function ChartPayload(content: string): (r: string)
    ensures |r| <= |content|
    ensures r == [] || (!IsSpace(r[0]) && !IsSpace(r[|r| - 1]))
  {
    Strip(RemoveAll(content, ChartMarker))
  }

  /** A content that carries the marker only at its front hands
      `json.loads` what follows the marker, stripped. */
  lemma ChartPayloadOfMarked(content: string)
    requires StartsWith(content, ChartMarker) && !Contains(content[|ChartMarker|..], ChartMarker)
    ensures ChartPayload(content) == Strip(content[|ChartMarker|..])
  {
    SingleMarkerRemoved(content, ChartMarker);
  }

  /** A text that starts with `p` and has no further `p` loses exactly that
      leading `p`. */
  lemma SingleMarkerRemoved(content: string, p: string)
    requires |p| > 0 && StartsWith(content, p) && !Contains(content[|p|..], p)
    ensures RemoveAll(content, p) == content[|p|..]
  {
    var spec := content[|p|..];
    assert content == p + spec;
    RemoveAllLeading(p, spec);
    RemoveAllAbsent(spec, p);
  }

  /** How an insight is stored: the role in bold, a colon, the content. */
  function InsightText(role: string, content: string): string {
    "**" + role + "**: " + content
  }

  /** The frame a data payload yields, if every library call succeeds. */
  function DecodeFrame<J, F>(codec: Codec<J, F>, content: string): Option<F> {
    match codec.parse(content)
    case None => None
    case Some(obj) =>
      match codec.dataField(obj)
      case None => None
      case Some(d) => codec.readFrame(d)
  }

  /** A line as the consumer sees it: the role, the stripped content, the
      branch the content takes and the text a chart would hand to
      `json.loads` (which only the chart branch reads). */
  datatype View = View(role: string, content: string, kind: Kind, payload: string)

  function ViewOf(line: string): View {
    var p := SplitLine(line);
    View(p.role, p.content, Classify(p.content), ChartPayload(p.content))
  }

  /** `s` extends `t` in every list: the lists only ever grow at the end. */
  ghost predicate Extends<J, F>(s: Session<J, F>, t: Session<J, F>) {
    t.insights <= s.insights && t.charts <= s.charts && t.frames <= s.frames
  }

  /** The total number of entries accumulated. */
  function Size<J, F>(s: Session<J, F>): nat {
    |s.insights| + |s.charts| + |s.frames|
  }

  /** One line of the stream, seen through its view. */
  function StepView<J, F>(codec: Codec<J, F>, s: Session<J, F>, v: View): Result<Session<J, F>, Abort> {
    match v.kind
    case Chart =>
      (match codec.parse(v.payload)
       case None => Err(ChartParseError(v.payload))
       case Some(spec) => Ok(s.(charts := s.charts + [spec])))
    case Data =>
      (match DecodeFrame(codec, v.content)
       case None => Ok(s)
       case Some(df) => Ok(s.(frames := s.frames + [df])))
    case Insight =>
      Ok(s.(insights := s.insights + [InsightText(v.role, v.content)]))
  }

  /** One line of the stream (one iteration of the `async for`). */
  function Step<J, F>(codec: Codec<J, F>, s: Session<J, F>, line: string): Result<Session<J, F>, Abort> {
    StepView(codec, s, ViewOf(line))
  }

  /** A line only appends, at the end of its lists, and at most one entry. */
  lemma StepAppendsAtMostOne<J, F>(codec: Codec<J, F>, s: Session<J, F>, line: string)
    ensures var r := Step(codec, s, line);
            r.Ok? ==> Extends(r.value, s) && Size(r.value) <= Size(s) + 1
  {
    StepViewAppendsAtMostOne(codec, s, ViewOf(line));
  }

  lemma StepViewAppendsAtMostOne<J, F>(codec: Codec<J, F>, s: Session<J, F>, v: View)
    ensures var r := StepView(codec, s, v);
            r.Ok? ==> Extends(r.value, s) && Size(r.value) <= Size(s) + 1
  {
  }

  /** What one line does: the run stops exactly on a chart whose payload
      does not parse; a data line whose payload cannot be decoded leaves the
      session as it was, and is not taken for an insight either; an insight
      line adds exactly its bold-role text to the insights. */
  lemma StepOutcomes<J, F>(codec: Codec<J, F>, s: Session<J, F>, line: string)
    ensures var r := Step(codec, s, line);
            var v := ViewOf(line);
            && (r.Err? <==> v.kind == Chart && codec.parse(ChartPayload(v.content)).None?)
            && (v.kind == Data && DecodeFrame(codec, v.content).None? ==> r == Ok(s))
            && (v.kind == Insight ==>
                  && r.Ok? && Size(r.value) == Size(s) + 1 && |r.value.insights| == |s.insights| + 1
                  && r.value.insights[|s.insights|] == InsightText(v.role, v.content))
  {
    StepViewOutcomes(codec, s, ViewOf(line));
  }

  lemma StepViewOutcomes<J, F>(codec: Codec<J, F>, s: Session<J, F>, v: View)
    ensures var r := StepView(codec, s, v);
            && (r.Err? <==> v.kind == Chart && codec.parse(v.payload).None?)
            && (v.kind == Data && DecodeFrame(codec, v.content).None? ==> r == Ok(s))
            && (v.kind == Insight ==>
                  && r.Ok? && Size(r.value) == Size(s) + 1 && |r.value.insights| == |s.insights| + 1
                  && r.value.insights[|s.insights|] == InsightText(v.role, v.content))
  {
  }

  /** The views of the lines, in order. */
  function Views(lines: seq<string>): (r: seq<View>)
    ensures |r| == |lines|
    ensures forall i :: 0 <= i < |lines| ==> r[i] == ViewOf(lines[i])
  {
    seq(|lines|, i requires 0 <= i < |lines| => ViewOf(lines[i]))
  }

  /** The run over the (views of the) lines that remain, starting from
      session `s`; it only ever appends, at most one entry per line. */
  function RunFrom<J, F>(codec: Codec<J, F>, s: Session<J, F>, views: seq<View>): (r: Result<Session<J, F>, Abort>)
    ensures r.Ok? ==> Extends(r.value, s) && Size(r.value) <= Size(s) + |views|
    decreases |views|
  {
    if views == [] then Ok(s)
    else
      StepViewAppendsAtMostOne(codec, s, views[0]);
      match StepView(codec, s, views[0])
      case Err(e) => Err(e)
      case Ok(s') =>
        var r := RunFrom(codec, s', views[1..]);
        if r.Ok? then ExtendsTransitive(r.value, s', s); r else r
  }

  lemma ExtendsTransitive<J, F>(a: Session<J, F>, b: Session<J, F>, c: Session<J, F>)
    requires Extends(a, b) && Extends(b, c)
    ensures Extends(a, c)
  {
  }

  /** The whole run (`asyncio.run(_runner())`) from empty lists. */
  function Run<J, F>(codec: Codec<J, F>, lines: seq<string>): (r: Result<Session<J, F>, Abort>)
    ensures r.Ok? ==> Size(r.value) <= |lines|
  {
    RunFrom(codec, EmptySession(), Views(lines))
  }

  /** The payload stored for the dashboard after the run; nothing is stored
      when the run stopped early. */
  function Persist<J, F>(codec: Codec<J, F>, lines: seq<string>, query: string): (r: Result<Payload<J>, Abort>)
    ensures r.Ok? ==> r.value.question == query
    ensures r.Ok? ==> |r.value.insights| + |r.value.charts| + |r.value.frames| <= |lines|
  {
    match Run(codec, lines)
    case Err(e) => Err(e)
    case Ok(s) => Ok(Payload(s.insights, s.charts, MapToJson(codec, s.frames), query))
  }

  /** `[df.to_json(orient="split") for df in frames]`. */
  function MapToJson<J, F>(codec: Codec<J, F>, frames: seq<F>): (r: seq<string>)
    ensures |r| == |frames|
    ensures forall i :: 0 <= i < |frames| ==> r[i] == codec.toJson(frames[i])
  {
    if frames == [] then [] else [codec.toJson(frames[0])] + MapToJson(codec, frames[1..])
  }

  // ---------------------------------------------------------------------
  // A reference: each list on its own, as a filter over the lines.

  /** The insight a line contributes: one when it is classified as such. */
  function InsightOf(v: View): seq<string> {
    if v.kind == Insight then [InsightText(v.role, v.content)] else []
  }

  /** The chart a line contributes: one when it is a chart that parses. */
  function ChartOf<J, F>(codec: Codec<J, F>, v: View): seq<J> {
    if v.kind == Chart && codec.parse(v.payload).Some?
    then [codec.parse(v.payload).value] else []
  }

  /** The frame a line contributes: one when it is data that decodes. */
  function FrameOf<J, F>(codec: Codec<J, F>, v: View): seq<F> {
    if v.kind == Data && DecodeFrame(codec, v.content).Some?
    then [DecodeFrame(codec, v.content).value] else []
  }

  /** The rejected payload, when a line is a chart that does not parse. */
  function BadChart<J, F>(codec: Codec<J, F>, v: View): Option<string> {
    if v.kind == Chart && codec.parse(v.payload).None?
    then Some(v.payload) else None
  }

  /** The insight of every line classified as an insight, in order. */
  function Insights(views: seq<View>): seq<string> {
    if views == [] then [] else InsightOf(views[0]) + Insights(views[1..])
  }

  /** The parsed specification of every chart line that parses, in order. */
  function Charts<J, F>(codec: Codec<J, F>, views: seq<View>): seq<J> {
    if views == [] then [] else ChartOf(codec, views[0]) + Charts(codec, views[1..])
  }

  /** The frame of every data line that decodes, in order. */
  function Frames<J, F>(codec: Codec<J, F>, views: seq<View>): seq<F> {
    if views == [] then [] else FrameOf(codec, views[0]) + Frames(codec, views[1..])
  }

  /** The payload of the first chart line that does not parse, if any. */
  function FirstBadChart<J, F>(codec: Codec<J, F>, views: seq<View>): Option<string> {
    if views == [] then None
    else if BadChart(codec, views[0]).Some? then BadChart(codec, views[0])
    else FirstBadChart(codec, views[1..])
  }

  /** One step adds a line's contributions to the three lists, or stops on
      a bad chart. */
  lemma StepIsContribution<J, F>(codec: Codec<J, F>, s: Session<J, F>, v: View)
    ensures StepView(codec, s, v) ==
              match BadChart(codec, v)
              case Some(p) => Err(ChartParseError(p))
              case None => Ok(Session(s.insights + InsightOf(v),
                                      s.charts + ChartOf(codec, v),
                                      s.frames + FrameOf(codec, v)))
  {
    assert s.insights + [] == s.insights && s.charts + [] == s.charts && s.frames + [] == s.frames;
  }

  /** What the filters predict for a run from `s`. */
  function Expected<J, F>(codec: Codec<J, F>, s: Session<J, F>, views: seq<View>): Result<Session<J, F>, Abort> {
    match FirstBadChart(codec, views)
    case Some(p) => Err(ChartParseError(p))
    case None => Ok(Session(s.insights + Insights(views),
                            s.charts + Charts(codec, views),
                            s.frames + Frames(codec, views)))
  }

  /** The prediction for a non-empty stream, one line at a time. */
  lemma ExpectedStep<J, F>(codec: Codec<J, F>, s: Session<J, F>, views: seq<View>)
    requires views != []
    ensures var v := views[0];
            Expected(codec, s, views) ==
              match BadChart(codec, v)
              case Some(p) => Err(ChartParseError(p))
              case None => Expected(codec, Session(s.insights + InsightOf(v), s.charts + ChartOf(codec, v),
                                                   s.frames + FrameOf(codec, v)), views[1..])
  {
    var v := views[0];
    if BadChart(codec, v).None? {
      assert FirstBadChart(codec, views) == FirstBadChart(codec, views[1..]);
      InsightsCons(views);
      AppendAssoc(s.insights, InsightOf(v), Insights(views[1..]));
      ChartsCons(codec, views);
      AppendAssoc(s.charts, ChartOf(codec, v), Charts(codec, views[1..]));
      FramesCons(codec, views);
      AppendAssoc(s.frames, FrameOf(codec, v), Frames(codec, views[1..]));
    }
  }

  lemma InsightsCons(views: seq<View>)
    requires views != []
    ensures Insights(views) == InsightOf(views[0]) + Insights(views[1..])
  {
  }

  lemma ChartsCons<J, F>(codec: Codec<J, F>, views: seq<View>)
    requires views != []
    ensures Charts(codec, views) == ChartOf(codec, views[0]) + Charts(codec, views[1..])
  {
  }

  lemma FramesCons<J, F>(codec: Codec<J, F>, views: seq<View>)
    requires views != []
    ensures Frames(codec, views) == FrameOf(codec, views[0]) + Frames(codec, views[1..])
  {
  }

  /** The run is the three filters side by side: it stops at the first chart
      that does not parse, and otherwise appends exactly the insights, the
      charts and the decodable frames of the lines, each list in stream
      order. */
  lemma {:induction false} RunIsFilters<J, F>(codec: Codec<J, F>, s: Session<J, F>, views: seq<View>)
    ensures RunFrom(codec, s, views) == Expected(codec, s, views)
    decreases |views|
  {
    if views == [] {
      assert s.insights + [] == s.insights && s.charts + [] == s.charts && s.frames + [] == s.frames;
    } else {
      var v := views[0];
      StepIsContribution(codec, s, v);
      ExpectedStep(codec, s, views);
      if BadChart(codec, v).None? {
        var s' := Session(s.insights + InsightOf(v), s.charts + ChartOf(codec, v),
                          s.frames + FrameOf(codec, v));
        RunIsFilters(codec, s', views[1..]);
      }
    }
  }

  /** The stored payload holds exactly the insights, charts and re-serialised
      frames of the lines, and the question asked; or nothing at all when a
      chart failed to parse. */
  lemma PersistIsFilters<J, F>(codec: Codec<J, F>, lines: seq<string>, query: string)
    ensures var views := Views(lines);
            Persist(codec, lines, query) ==
              match FirstBadChart(codec, views)
              case Some(p) => Err(ChartParseError(p))
              case None => Ok(Payload(Insights(views), Charts(codec, views),
                                      MapToJson(codec, Frames(codec, views)), query))
  {
    var views := Views(lines);
    RunIsFilters(codec, EmptySession(), views);
    assert [] + Insights(views) == Insights(views);
    assert [] + Charts(codec, views) == Charts(codec, views);
    assert [] + Frames(codec, views) == Frames(codec, views);
  }

  /** When every line is an insight, the run keeps every line, each as its
      bold-role text, and nothing else. */
  lemma {:induction false} AllInsights<J, F>(codec: Codec<J, F>, views: seq<View>)
    requires forall i :: 0 <= i < |views| ==> views[i].kind == Insight
    ensures FirstBadChart(codec, views) == None
    ensures Charts(codec, views) == [] && Frames(codec, views) == []
    ensures |Insights(views)| == |views|
    ensures forall i :: 0 <= i < |views| ==>
              Insights(views)[i] == InsightText(views[i].role, views[i].content)
    decreases |views|
  {
    if views != [] {
      AllInsights(codec, views[1..]);
      InsightsCons(views);
    }
  }

  /** Streaming is incremental: running a concatenation is running the first
      part and then continuing with the second. */
  lemma {:induction false} RunFromAppend<J, F>(codec: Codec<J, F>, s: Session<J, F>, a: seq<View>, b: seq<View>)
    ensures RunFrom(codec, s, a + b) ==
              match RunFrom(codec, s, a)
              case Err(e) => Err(e)
              case Ok(t) => RunFrom(codec, t, b)
    decreases |a|
  {
    if a == [] {
      assert a + b == b;
    } else {
      assert (a + b)[0] == a[0] && (a + b)[1..] == a[1..] + b;
      if StepView(codec, s, a[0]).Ok? {
        RunFromAppend(codec, StepView(codec, s, a[0]).value, a[1..], b);
      }
    }
  }

  // ---------------------------------------------------------------------
  // Classification

  /** The marker wins: a chart line is a chart even when it also names the
      data key. */
  lemma ChartBeforeData(content: string)
    requires StartsWith(content, ChartMarker) && Contains(content, DataKey)
    ensures Classify(content) == Chart
  {
  }

  /** A code line (`CODE_PY:` followed by code) is recorded as an insight
      unless the code names the data key: there is no separate branch for
      code. */
  lemma CodeLineIsInsight(code: string)
    requires !Contains(code, DataKey)
    ensures Classify("CODE_PY:" + code) == Insight
  {
    var content := "CODE_PY:" + code;
    assert content[1] == 'O';
    assert !StartsWith(content, ChartMarker);
    ContainsPastPrefix("CODE_PY:", code, DataKey);
  }

  /** A marked specification keeps its marker through the strip; only
      trailing whitespace of the specification goes. */
  lemma StripMarked(spec: string)
    ensures Strip(ChartMarker + spec) == ChartMarker + TrimRight(spec)
  {
    TrimRightAfterPrefix(ChartMarker, spec);
    var c := ChartMarker + spec;
    assert !IsSpace(c[0]);
  }

  /** The payload of a marked specification with no second marker is the
      specification, stripped. */
  lemma MarkedPayload(spec: string)
    requires !Contains(spec, ChartMarker)
    ensures ChartPayload(ChartMarker + TrimRight(spec)) == Strip(spec)
  {
    var t := TrimRight(spec);
    RemoveAllLeading(ChartMarker, t);
    NotContainsPrefix(spec, |t|, ChartMarker);
    RemoveAllAbsent(t, ChartMarker);
    StripAfterTrimRight(spec);
  }

  /** Every occurrence of the marker is removed, not only the leading one:
      two marked specifications on two lines become one payload holding
      both texts and no marker. */
  lemma SecondMarkerAlsoRemoved(x: string, y: string)
    requires !Contains(x, ChartMarker) && !Contains(y, ChartMarker)
    ensures ChartPayload(ChartMarker + x + "\n" + ChartMarker + y) == Strip(x + "\n" + y)
  {
    assert Avoids(ChartMarker, '\n');
    RemoveAllBoth(ChartMarker, x, '\n', y);
  }
}
