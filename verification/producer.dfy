/** The producing side of the stream (`run_business_query` in
    autogen_try.py). The agent team is library code: what it emits is an
    input here, a sequence of stream items of which only text messages are
    passed on, each as one `source: content` line. */
module Producer {
  import opened Text

  /** An item of the team's output stream: a text message from an agent,
      or any other event (tool calls, tool results, the final task result). */
  datatype StreamItem = TextMessage(source: string, content: string) | OtherEvent

  /** The line a text message becomes. */
  function Line(source: string, content: string): string {
    source + ": " + content
  }

  /** The lines yielded for a stream, in stream order. */
  function Forward(items: seq<StreamItem>): (r: seq<string>)
    ensures |r| <= |items|
  {
    if items == [] then []
    else
      var rest := Forward(items[1..]);
      match items[0]
      case TextMessage(source, content) => [Line(source, content)] + rest
      case OtherEvent => rest
  }

  /** Forwarding works item by item: the lines of a concatenated stream are
      the lines of its parts, in order. */
  lemma {:induction false} ForwardAppend(a: seq<StreamItem>, b: seq<StreamItem>)
    ensures Forward(a + b) == Forward(a) + Forward(b)
    decreases |a|
  {
    if a == [] {
      assert a + b == b;
    } else {
      assert (a + b)[0] == a[0] && (a + b)[1..] == a[1..] + b;
      ForwardAppend(a[1..], b);
    }
  }

  /** A stream of text messages only yields one line per message, the
      i-th line rendering the i-th message. */
  lemma {:induction false} ForwardTextOnly(items: seq<StreamItem>)
    requires forall i :: 0 <= i < |items| ==> items[i].TextMessage?
    ensures |Forward(items)| == |items|
    ensures forall i :: 0 <= i < |items| ==>
              Forward(items)[i] == Line(items[i].source, items[i].content)
    decreases |items|
  {
    if items != [] {
      ForwardTextOnly(items[1..]);
      assert Forward(items) == [Line(items[0].source, items[0].content)] + Forward(items[1..]);
    }
  }

  /** Events other than text messages yield no line at all. */
  lemma {:induction false} ForwardDropsEvents(items: seq<StreamItem>)
    requires forall i :: 0 <= i < |items| ==> items[i] == OtherEvent
    ensures Forward(items) == []
    decreases |items|
  {
    if items != [] {
      ForwardDropsEvents(items[1..]);
    }
  }
}
