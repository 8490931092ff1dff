/** The two halves of the stream put together: a text message becomes a
    `source: content` line in autogen_try.py and is read back by the
    consumer in streamlit_app.py. These lemmas say what a message of each
    kind turns into on the other side. */
module Pipeline {
  import opened Results
  import opened Text
  import Producer
  import SqlTool
  import opened Consumer

  /** A message from a speaker whose name has no colon comes back with the
      same speaker and the message text, stripped: the space after the
      colon never reaches the content. */
  lemma LineRoundTrip(source: string, content: string)
    requires Avoids(source, ':')
    ensures SplitLine(Producer.Line(source, content)) == Parsed(source, Strip(content))
  {
    var line := Producer.Line(source, content);
    assert line == source + ":" + (" " + content);
    FirstColonAfter(source, " " + content);
    assert line[..|source|] == source;
    assert line[|source| + 1..] == [' '] + content;
    StripSkipsLeadingSpace(' ', content);
  }

  /** A chart specification sent on its own after the marker is read back
      as a chart whose `json.loads` input is the specification, stripped. */
  lemma ChartLineRoundTrip(source: string, spec: string)
    requires Avoids(source, ':') && !Contains(spec, ChartMarker)
    ensures var v := ViewOf(Producer.Line(source, ChartMarker + spec));
            v.role == source && v.kind == Chart && v.payload == Strip(spec)
  {
    LineRoundTrip(source, ChartMarker + spec);
    StripMarked(spec);
    var content := ChartMarker + TrimRight(spec);
    assert content[..|ChartMarker|] == ChartMarker;
    MarkedPayload(spec);
  }

  /** A braced message has no whitespace to strip. */
  lemma BracedIsStripped(t: string)
    requires t != [] && t[0] == '{' && t[|t| - 1] == '}'
    ensures Strip(t) == t
  {
    StripKeepsTrimmed(t);
  }

  /** A braced content cannot start with the chart marker, so naming the
      `data_json` key makes it data. */
  lemma BracedIsData(t: string)
    requires t != [] && t[0] == '{' && Contains(t, DataKey)
    ensures Classify(t) == Data
  {
    assert !StartsWith(t, ChartMarker) by {
      assert t[0] != ChartMarker[0];
    }
  }

  /** A braced message that names the `data_json` key is read back as a
      data line whose content is the whole message. */
  lemma BracedDataLine(source: string, t: string)
    requires Avoids(source, ':')
    requires t != [] && t[0] == '{' && t[|t| - 1] == '}' && Contains(t, DataKey)
    ensures ViewOf(Producer.Line(source, t)) == View(source, t, Data, ChartPayload(t))
  {
    LineRoundTrip(source, t);
    BracedIsStripped(t);
    BracedIsData(t);
  }

  /** The run_sql reply, sent as a message, is read back as a data line
      whose content is the whole reply: it is braced, so it does not start
      with the chart marker, and it names the `data_json` key. */
  lemma ToolReplyIsData(source: string, markdownLiteral: string, dataLiteral: string)
    requires Avoids(source, ':')
    ensures var t := SqlTool.Envelope(markdownLiteral, dataLiteral);
            ViewOf(Producer.Line(source, t)) == View(source, t, Data, ChartPayload(t))
  {
    SqlTool.EnvelopeShape(markdownLiteral, dataLiteral);
    BracedDataLine(source, SqlTool.Envelope(markdownLiteral, dataLiteral));
  }

  /** A data line whose reply decodes adds its frame and nothing else; one
      that does not decode changes nothing. */
  lemma ToolReplyAddsFrame<J, F>(codec: Codec<J, F>, s: Session<J, F>, source: string,
                                 markdownLiteral: string, dataLiteral: string)
    requires Avoids(source, ':')
    ensures var t := SqlTool.Envelope(markdownLiteral, dataLiteral);
            Step(codec, s, Producer.Line(source, t)) ==
              match DecodeFrame(codec, t)
              case None => Ok(s)
              case Some(df) => Ok(Session(s.insights, s.charts, s.frames + [df]))
  {
    ToolReplyIsData(source, markdownLiteral, dataLiteral);
  }

  /** A conversation of plain messages (from speakers without a colon in
      their names, none a chart or a data reply) is stored as exactly its
      messages, in order, each as the speaker in bold followed by the
      stripped text; no chart and no frame is stored. */
  lemma {:induction false} PlainConversation<J, F>(codec: Codec<J, F>, items: seq<Producer.StreamItem>, question: string)
    requires forall i :: 0 <= i < |items| ==>
               && items[i].TextMessage? && Avoids(items[i].source, ':')
               && Classify(Strip(items[i].content)) == Insight
    ensures var r := Persist(codec, Producer.Forward(items), question);
            && r.Ok? && r.value.charts == [] && r.value.frames == [] && r.value.question == question
            && |r.value.insights| == |items|
            && forall i :: 0 <= i < |items| ==>
                 r.value.insights[i] == InsightText(items[i].source, Strip(items[i].content))
  {
    var lines := Producer.Forward(items);
    Producer.ForwardTextOnly(items);
    var views := Views(lines);
    forall i | 0 <= i < |items|
      ensures views[i] == View(items[i].source, Strip(items[i].content), Insight,
                               ChartPayload(Strip(items[i].content)))
    {
      LineRoundTrip(items[i].source, items[i].content);
    }
    AllInsights(codec, views);
    PersistIsFilters(codec, lines, question);
  }
}
