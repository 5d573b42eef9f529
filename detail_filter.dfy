/**
 * The live-feed demo: a fixed, ordered catalog of events, shown in full
 * ("Full Details") or restricted to the simple channel ("Simple View").
 */
module DetailFilter {

  datatype Severity = Info | Success | Warning | Error | Critique | Synthesis

  datatype Channel = Simple | Advanced

  /** `FeedEvent`: the message is only displayed, so it stays a plain text. */
  datatype FeedEvent = FeedEvent(severity: Severity, message: string, channel: Channel)

  /** `allEvents`: four simple events followed by three advanced ones. */
  const AllEvents: seq<FeedEvent> := [
    FeedEvent(Info, "Mission started → traceId created instantly", Simple),
    FeedEvent(Success, "Agents spinning up • roles assigned", Simple),
    FeedEvent(Warning, "Constraint check • keeping output safe + readable", Simple),
    FeedEvent(Success, "Synthesis phase • clear summary forming", Simple),
    FeedEvent(Critique, "Risk scan: possible hallucination vector flagged (handled)", Advanced),
    FeedEvent(Critique, "Quality gate: output trimmed for clarity + usefulness", Advanced),
    FeedEvent(Synthesis, "Final summary: actionable plan + next steps produced", Advanced)
  ]

  /** `events.filter((e) => e.channel === "simple")` */
  function SimpleEvents(events: seq<FeedEvent>): (r: seq<FeedEvent>)
    ensures |r| <= |events|
    ensures forall i :: 0 <= i < |r| ==> r[i].channel == Simple
  {
    if events == [] then []
    else if events[0].channel == Simple then [events[0]] + SimpleEvents(events[1..])
    else SimpleEvents(events[1..])
  }

  /** `visibleEvents`: everything with Full Details on, the simple channel otherwise. */
  function VisibleEvents(events: seq<FeedEvent>, showFullDetails: bool): seq<FeedEvent> {
    if showFullDetails then events else SimpleEvents(events)
  }

  /** `a` is `b` with some elements left out, the rest in their original order. */
  predicate IsSubsequence(a: seq<FeedEvent>, b: seq<FeedEvent>)
    decreases |b|
  {
    a == [] || (b != [] && ((a[0] == b[0] && IsSubsequence(a[1..], b[1..])) || IsSubsequence(a, b[1..])))
  }

  /** The simple view keeps exactly the simple events: an event is shown iff it is in the catalog and simple. */
  lemma {:induction false} SimpleEventsMembership(events: seq<FeedEvent>, e: FeedEvent)
    ensures e in SimpleEvents(events) <==> e in events && e.channel == Simple
    decreases |events|
  {
    if events != [] {
      SimpleEventsMembership(events[1..], e);
      assert events == [events[0]] + events[1..];
    }
  }

  /** The simple view keeps the catalog order. */
  lemma {:induction false} SimpleEventsIsSubsequence(events: seq<FeedEvent>)
    ensures IsSubsequence(SimpleEvents(events), events)
    decreases |events|
  {
    if events != [] {
      SimpleEventsIsSubsequence(events[1..]);
      var r := SimpleEvents(events);
      if events[0].channel == Simple {
        assert r[0] == events[0] && r[1..] == SimpleEvents(events[1..]);
      }
    }
  }

  /** Filtering a catalog made of two parts filters each part. */
  lemma {:induction false} SimpleEventsAppend(a: seq<FeedEvent>, b: seq<FeedEvent>)
    ensures SimpleEvents(a + b) == SimpleEvents(a) + SimpleEvents(b)
    decreases |a|
  {
    if a == [] {
      assert a + b == b;
    } else {
      SimpleEventsAppend(a[1..], b);
      assert (a + b)[0] == a[0] && (a + b)[1..] == a[1..] + b;
    }
  }

  /** The Simple View is an order-preserving subsequence of the Full Details view. */
  lemma SimpleViewWithinFullView(events: seq<FeedEvent>)
    ensures IsSubsequence(VisibleEvents(events, false), VisibleEvents(events, true))
  {
    SimpleEventsIsSubsequence(events);
  }

  /** On the page's catalog, the Simple View is the first four events and Full Details all seven. */
  lemma CatalogViews()
    ensures VisibleEvents(AllEvents, false) == AllEvents[..4]
    ensures |VisibleEvents(AllEvents, true)| == 7
  {
    SimpleEventsAppend(AllEvents[..4], AllEvents[4..]);
    assert AllEvents[..4] + AllEvents[4..] == AllEvents;
  }

  /** A two-event catalog: one simple, one advanced. */
  lemma TwoEventCatalog()
    ensures VisibleEvents([FeedEvent(Info, "A", Simple), FeedEvent(Critique, "B", Advanced)], false)
         == [FeedEvent(Info, "A", Simple)]
    ensures VisibleEvents([FeedEvent(Info, "A", Simple), FeedEvent(Critique, "B", Advanced)], true)
         == [FeedEvent(Info, "A", Simple), FeedEvent(Critique, "B", Advanced)]
  {
    var c := [FeedEvent(Info, "A", Simple), FeedEvent(Critique, "B", Advanced)];
    assert c[1..][1..] == [];
  }
}
