/**
 * What the calls of applyHandlers look like from the handlers' side: the
 * order of the calls, how many each handler receives, and what the two
 * pipelines return when the handlers change nothing.
 */
module DispatchProperties {
  import opened Sequences
  import opened EsiTagProcessor
  import opened EsiProperties
  import opened Html5TagRewriter

  /** The events of handler i, in the order they occur. */
  function EventsOf<N>(trace: seq<Event<N>>, i: nat): (es: seq<Event<N>>)
    ensures |es| <= |trace|
    ensures forall e | e in es :: e in trace && e.handler == i
    decreases |trace|
  {
    if trace == [] then []
    else
      var last := trace[|trace| - 1];
      EventsOf(trace[..|trace| - 1], i) + if last.handler == i then [last] else []
  }

  /** Filtering a trace with one more event at its end. */
  lemma EventsOfSnoc<N>(front: seq<Event<N>>, last: Event<N>, i: nat)
    ensures EventsOf(front + [last], i) == EventsOf(front, i) + if last.handler == i then [last] else []
  {
    assert (front + [last])[..|front|] == front;
  }

  lemma {:induction false} EventsOfAppend<N>(a: seq<Event<N>>, b: seq<Event<N>>, i: nat)
    ensures EventsOf(a + b, i) == EventsOf(a, i) + EventsOf(b, i)
    decreases |b|
  {
    if b == [] {
      assert a + b == a;
    } else {
      var front := b[..|b| - 1];
      var last := b[|b| - 1];
      var tail := if last.handler == i then [last] else [];
      assert b == front + [last];
      assert a + b == (a + front) + [last];
      calc {
        EventsOf(a + b, i);
        { EventsOfSnoc(a + front, last, i); }
        EventsOf(a + front, i) + tail;
        { EventsOfAppend(a, front, i); }
        (EventsOf(a, i) + EventsOf(front, i)) + tail;
        { AppendAssoc(EventsOf(a, i), EventsOf(front, i), tail); }
        EventsOf(a, i) + (EventsOf(front, i) + tail);
        { EventsOfSnoc(front, last, i); }
        EventsOf(a, i) + EventsOf(b, i);
      }
    }
  }

  lemma {:induction false} EventsOfNone<N>(trace: seq<Event<N>>, i: nat)
    requires forall e | e in trace :: e.handler != i
    ensures EventsOf(trace, i) == []
    decreases |trace|
  {
    if trace != [] {
      var front := trace[..|trace| - 1];
      var last := trace[|trace| - 1];
      assert trace == front + [last];
      assert forall e | e in front :: e in trace;
      EventsOfNone(front, i);
      EventsOfSnoc(front, last, i);
    }
  }

  lemma {:induction false} EventsOfAll<N>(trace: seq<Event<N>>, i: nat)
    requires forall e | e in trace :: e.handler == i
    ensures EventsOf(trace, i) == trace
    decreases |trace|
  {
    if trace != [] {
      var front := trace[..|trace| - 1];
      var last := trace[|trace| - 1];
      assert trace == front + [last];
      assert forall e | e in front :: e in trace;
      EventsOfAll(front, i);
      EventsOfSnoc(front, last, i);
    }
  }

  /** Filtering by handler keeps every event of that handler, as often as it occurs. */
  lemma {:induction false} EventsOfCount<N>(trace: seq<Event<N>>, e: Event<N>)
    ensures multiset(EventsOf(trace, e.handler))[e] == multiset(trace)[e]
    decreases |trace|
  {
    if trace != [] {
      var front := trace[..|trace| - 1];
      var last := trace[|trace| - 1];
      assert trace == front + [last];
      EventsOfCount(front, e);
      EventsOfSnoc(front, last, e.handler);
    }
  }

  /** The shape of one handler's calls: the query first, then the matches in node order, then afterMatches. */
  lemma BlockShape<N>(i: nat, nodes: seq<N>)
    ensures var b := Block(i, nodes);
            && |b| == |nodes| + 2
            && b[0] == Queried(i, nodes)
            && (forall k :: 0 <= k < |nodes| ==> b[k + 1] == Matched(i, nodes[k]))
            && b[|nodes| + 1] == AfterMatches(i)
  {
    var m := MatchEvents(i, nodes);
    var b := Block(i, nodes);
    assert b == [Queried(i, nodes)] + (m + [AfterMatches(i)]) by {
      AppendAssoc([Queried(i, nodes)], m, [AfterMatches(i)]);
    }
    forall k | 0 <= k < |nodes| ensures b[k + 1] == Matched(i, nodes[k]) {
      assert b[k + 1] == (m + [AfterMatches(i)])[k];
    }
  }

  /** All calls in a handler's block are made on that handler. */
  lemma BlockHandlers<N>(i: nat, nodes: seq<N>)
    ensures forall e | e in Block(i, nodes) :: e.handler == i
  {
    var m := MatchEvents(i, nodes);
    forall e | e in Block(i, nodes) ensures e.handler == i {
      assert e == Queried(i, nodes) || e in m || e == AfterMatches(i);
      if e in m {
        var k :| 0 <= k < |m| && m[k] == e;
      }
    }
  }

  /** The trace of a dispatch is that of all handlers but the last, followed by the last one's calls. */
  lemma DispatchLast<H, N, W>(calls: HandlerCalls<H, N, W>, hs: seq<H>, w: W, context: N)
    requires hs != []
    ensures var n := |hs| - 1;
            var r := Dispatch(calls, hs[..n], w, context);
            Dispatch(calls, hs, w, context).trace == r.trace + Block(n, calls.query(hs[n], r.world, context))
  {
  }

  lemma OrderedAppend<N>(a: seq<Event<N>>, b: seq<Event<N>>, n: nat)
    requires InHandlerOrder(a)
    requires forall e | e in a :: e.handler < n
    requires forall e | e in b :: e.handler == n
    ensures InHandlerOrder(a + b)
  {
    var t := a + b;
    forall x, y | 0 <= x <= y < |t| ensures t[x].handler <= t[y].handler {
      if y < |a| {
        assert t[x] == a[x] && t[y] == a[y];
      } else {
        assert t[y] == b[y - |a|] && t[y] in b;
        if x < |a| {
          assert t[x] == a[x] && t[x] in a;
        } else {
          assert t[x] == b[x - |a|] && t[x] in b;
        }
      }
    }
  }

  /** Every event of a dispatch belongs to one of the handlers dispatched. */
  lemma {:induction false} DispatchBounded<H, N, W>(calls: HandlerCalls<H, N, W>, hs: seq<H>, w: W, context: N)
    ensures forall e | e in Dispatch(calls, hs, w, context).trace :: e.handler < |hs|
    decreases |hs|
  {
    if hs != [] {
      var n := |hs| - 1;
      var r := Dispatch(calls, hs[..n], w, context);
      var nodes := calls.query(hs[n], r.world, context);
      DispatchLast(calls, hs, w, context);
      DispatchBounded(calls, hs[..n], w, context);
      BlockHandlers(n, nodes);
    }
  }

  /** Events sorted by handler position: no event of a handler follows an event of a later one. */
  predicate InHandlerOrder<N>(t: seq<Event<N>>) {
    forall a, b :: 0 <= a <= b < |t| ==> t[a].handler <= t[b].handler
  }

  /**
   * Handlers run strictly in registration order: every event of handler i
   * comes before every event of a later handler.
   */
  lemma {:induction false} DispatchOrdered<H, N, W>(calls: HandlerCalls<H, N, W>, hs: seq<H>, w: W, context: N)
    ensures InHandlerOrder(Dispatch(calls, hs, w, context).trace)
    decreases |hs|
  {
    if hs != [] {
      var n := |hs| - 1;
      var r := Dispatch(calls, hs[..n], w, context);
      var nodes := calls.query(hs[n], r.world, context);
      DispatchLast(calls, hs, w, context);
      DispatchOrdered(calls, hs[..n], w, context);
      DispatchBounded(calls, hs[..n], w, context);
      BlockHandlers(n, nodes);
      OrderedAppend(r.trace, Block(n, nodes), n);
    }
  }

  /** The world handler i starts from: the one the handlers before it leave behind. */
  function WorldBefore<H, N, W>(calls: HandlerCalls<H, N, W>, hs: seq<H>, i: nat, w: W, context: N): W
    requires i <= |hs|
  {
    Dispatch(calls, hs[..i], w, context).world
  }

  /**
   * The calls handler i receives during a dispatch are exactly one query,
   * evaluated once on the world the earlier handlers leave behind, one match
   * per node of that result in its order, and one afterMatches, also when the
   * query yields no node.
   */
  lemma {:induction false} HandlerEvents<H, N, W>(calls: HandlerCalls<H, N, W>, hs: seq<H>, i: nat, w: W, context: N)
    requires i < |hs|
    ensures EventsOf(Dispatch(calls, hs, w, context).trace, i)
         == Block(i, calls.query(hs[i], WorldBefore(calls, hs, i, w, context), context))
    decreases |hs|
  {
    var n := |hs| - 1;
    var r := Dispatch(calls, hs[..n], w, context);
    var b := Block(n, calls.query(hs[n], r.world, context));
    assert EventsOf(Dispatch(calls, hs, w, context).trace, i) == EventsOf(r.trace, i) + EventsOf(b, i) by {
      DispatchLast(calls, hs, w, context);
      EventsOfAppend(r.trace, b, i);
    }
    BlockHandlers(n, calls.query(hs[n], r.world, context));
    if i < n {
      assert EventsOf(b, i) == [] by {
        EventsOfNone(b, i);
      }
      assert EventsOf(r.trace, i) == Block(i, calls.query(hs[i], WorldBefore(calls, hs, i, w, context), context)) by {
        HandlerEvents(calls, hs[..n], i, w, context);
        PrefixOfPrefix(hs, n, i);
      }
    } else {
      assert EventsOf(r.trace, n) == [] by {
        DispatchBounded(calls, hs[..n], w, context);
        EventsOfNone(r.trace, n);
      }
      assert EventsOf(b, n) == b by {
        EventsOfAll(b, n);
      }
    }
  }

  lemma {:induction false} MatchEventsCount<N>(i: nat, nodes: seq<N>, node: N)
    ensures multiset(MatchEvents(i, nodes))[Matched(i, node)] == multiset(nodes)[node]
    decreases |nodes|
  {
    if nodes != [] {
      var front := nodes[..|nodes| - 1];
      MatchEventsCount(i, front, node);
      assert MatchEvents(i, nodes) == MatchEvents(i, front) + [Matched(i, nodes[|nodes| - 1])];
      assert nodes == front + [nodes[|nodes| - 1]];
    }
  }

  lemma BlockCounts<N>(i: nat, nodes: seq<N>, node: N)
    ensures var b := multiset(Block(i, nodes));
            && b[Queried(i, nodes)] == 1
            && b[AfterMatches(i)] == 1
            && b[Matched(i, node)] == multiset(nodes)[node]
  {
    var m := MatchEvents(i, nodes);
    MatchEventsCount(i, nodes, node);
    assert multiset(Block(i, nodes)) == multiset{Queried(i, nodes)} + multiset(m) + multiset{AfterMatches(i)};
    assert Queried(i, nodes) !in m && AfterMatches(i) !in m;
  }

  /**
   * In the whole trace, handler i is queried once, receives afterMatches once,
   * and receives match(node) as many times as node occurs in its query result.
   */
  lemma CallCounts<H, N, W>(calls: HandlerCalls<H, N, W>, hs: seq<H>, i: nat, w: W, context: N, node: N)
    requires i < |hs|
    ensures var t := Dispatch(calls, hs, w, context).trace;
            var nodes := calls.query(hs[i], WorldBefore(calls, hs, i, w, context), context);
            && multiset(t)[Queried(i, nodes)] == 1
            && multiset(t)[AfterMatches(i)] == 1
            && multiset(t)[Matched(i, node)] == multiset(nodes)[node]
  {
    var t := Dispatch(calls, hs, w, context).trace;
    var nodes := calls.query(hs[i], WorldBefore(calls, hs, i, w, context), context);
    HandlerEvents(calls, hs, i, w, context);
    EventsOfCount(t, Queried(i, nodes));
    EventsOfCount(t, AfterMatches(i));
    EventsOfCount(t, Matched(i, node));
    BlockCounts(i, nodes, node);
  }

  /** Handlers whose match and afterMatches leave the document alone, as the no-op base handler does. */
  ghost predicate Passive<H(!new), N(!new), W(!new)>(calls: HandlerCalls<H, N, W>) {
    && (forall h, w, n :: calls.onMatch(h, w, n) == w)
    && (forall h, w :: calls.afterMatches(h, w) == w)
  }

  lemma {:induction false} MatchAllPassive<H(!new), N(!new), W(!new)>(calls: HandlerCalls<H, N, W>, i: nat, h: H, nodes: seq<N>, w: W)
    requires Passive(calls)
    ensures MatchAll(calls, i, h, nodes, w).world == w
    decreases |nodes|
  {
    if nodes != [] {
      MatchAllPassive(calls, i, h, nodes[..|nodes| - 1], w);
    }
  }

  /** Passive handlers leave the document as they found it, whatever their queries select. */
  lemma {:induction false} DispatchPassive<H(!new), N(!new), W(!new)>(calls: HandlerCalls<H, N, W>, hs: seq<H>, w: W, context: N)
    requires Passive(calls)
    ensures Dispatch(calls, hs, w, context).world == w
    decreases |hs|
  {
    if hs != [] {
      var n := |hs| - 1;
      var r := Dispatch(calls, hs[..n], w, context);
      DispatchPassive(calls, hs[..n], w, context);
      MatchAllPassive(calls, n, hs[n], calls.query(hs[n], r.world, context), r.world);
    }
  }

  /**
   * With passive handlers and a parser whose serialisation gives back what it
   * parsed, process returns its input: the ESI masking is invisible.
   */
  lemma ProcessPassive<H(!new), N(!new), W(!new)>(calls: HandlerCalls<H, N, W>, dom: Dom<N, W>, hs: seq<H>, html5: string)
    requires Passive(calls)
    requires forall s :: dom.saveHtml(dom.parse(s)) == s
    requires !Contains(html5, Opener)
    requires forall t | t in MatchedTags(html5) :: '\n' !in t
    ensures ProcessOutput(calls, dom, hs, html5).html == html5
  {
    var document := dom.parse(PreProcess(html5));
    DispatchPassive(calls, hs, document, dom.documentNode(document));
    RoundTrip(html5);
  }

  /**
   * The same for processBodyFragment, when reading a node's inner HTML gives
   * back what was written to it.
   */
  lemma FragmentPassive<H(!new), N(!new), W(!new)>(calls: HandlerCalls<H, N, W>, dom: Dom<N, W>, hs: seq<H>, fragment: string)
    requires Passive(calls)
    requires forall w, n, s :: dom.innerHtml(dom.setInnerHtml(w, n, s), n) == s
    requires !Contains(fragment, Opener)
    requires forall t | t in MatchedTags(fragment) :: '\n' !in t
    ensures FragmentOutput(calls, dom, hs, fragment).html == fragment
  {
    var container := dom.body(dom.emptyDocument);
    var document := dom.setInnerHtml(dom.emptyDocument, container, PreProcess(fragment));
    DispatchPassive(calls, hs, document, container);
    RoundTrip(fragment);
  }

  /**
   * A serialiser that frames what it parsed (a doctype, html, head and body
   * around the content) keeps that frame: with passive handlers, process
   * returns the input inside the same frame.
   */
  lemma ProcessPassiveFramed<H(!new), N(!new), W(!new)>(calls: HandlerCalls<H, N, W>, dom: Dom<N, W>, hs: seq<H>, html5: string, pre: string, post: string)
    requires Passive(calls)
    requires forall s :: dom.saveHtml(dom.parse(s)) == pre + s + post
    requires !Contains(pre + html5 + post, Opener)
    requires forall t | t in MatchedTags(html5) :: '\n' !in t
    ensures ProcessOutput(calls, dom, hs, html5).html == pre + html5 + post
  {
    var document := dom.parse(PreProcess(html5));
    DispatchPassive(calls, hs, document, dom.documentNode(document));
    WrappedRoundTrip(pre, html5, post);
  }
}
