/**
 * Html5TagRewriter: the rewriter that masks ESI tags, parses the HTML5 text,
 * hands the matching nodes to each registered rewrite handler and serialises
 * the result again.
 *
 * The HTML5 parser, the serialiser and the XPath engine are foreign code. They
 * appear here as function values in two records, Dom and HandlerCalls. The
 * document is a value of the type parameter W ("world"), which also holds the
 * state the handlers keep for themselves. The calls the dispatcher makes are
 * written to a ghost trace of events.
 */
module Html5TagRewriter {
  import opened Sequences
  import opened EsiTagProcessor

  /** One call the dispatcher makes, tagged with the position of the handler in the list. */
  datatype Event<N> =
    | Queried(handler: nat, nodes: seq<N>)   // the handler's XPath expression was evaluated once
    | Matched(handler: nat, node: N)         // match() was called on one node
    | AfterMatches(handler: nat)             // afterMatches() was called

  /**
   * What the dispatcher calls on a handler h:
   * - query(h, w, context): the nodes that h's appliesTo() expression selects below context, in document order;
   * - onMatch(h, w, node): the world after h.match(node);
   * - afterMatches(h, w): the world after h.afterMatches(document, xpath).
   */
  datatype HandlerCalls<!H, !N, !W> = HandlerCalls(
    query: (H, W, N) -> seq<N>,
    onMatch: (H, W, N) -> W,
    afterMatches: (H, W) -> W)

  /**
   * The HTML5 document operations the two pipelines use:
   * - parse(s): HTMLDocument::createFromString(s) with parse errors suppressed;
   * - emptyDocument: the document created from "" with UTF-8 encoding;
   * - documentNode(w): the document itself, as a query context;
   * - saveHtml(w): the serialised document;
   * - body(w): the body element;
   * - setInnerHtml(w, n, s) and innerHtml(w, n): writing and reading n's inner HTML.
   */
  datatype Dom<!N, !W> = Dom(
    parse: string -> W,
    emptyDocument: W,
    documentNode: W -> N,
    saveHtml: W -> string,
    body: W -> N,
    setInnerHtml: (W, N, string) -> W,
    innerHtml: (W, N) -> string)

  /** The world after some calls, and the calls that were made. */
  datatype Run<N, W> = Run(world: W, trace: seq<Event<N>>)

  /** What a pipeline returns, with the calls it made on the handlers. */
  datatype Output<N> = Output(html: string, trace: seq<Event<N>>)

  /** The match() calls of handler i on the given nodes, one per node and in their order. */
  function MatchEvents<N>(i: nat, nodes: seq<N>): (es: seq<Event<N>>)
    ensures |es| == |nodes|
    ensures forall k :: 0 <= k < |nodes| ==> es[k] == Matched(i, nodes[k])
  {
    seq(|nodes|, k requires 0 <= k < |nodes| => Matched(i, nodes[k]))
  }

  /** The calls handler i receives when its query yields nodes: one query, one match per node, one afterMatches. */
  function Block<N>(i: nat, nodes: seq<N>): seq<Event<N>> {
    [Queried(i, nodes)] + MatchEvents(i, nodes) + [AfterMatches(i)]
  }

  /** The inner foreach of applyHandlers: handler h (at position i) matches each node in turn. */
  function MatchAll<H, N, W>(calls: HandlerCalls<H, N, W>, i: nat, h: H, nodes: seq<N>, w: W): (r: Run<N, W>)
    ensures r.trace == MatchEvents(i, nodes)
    decreases |nodes|
  {
    if nodes == [] then Run(w, [])
    else
      var r := MatchAll(calls, i, h, nodes[..|nodes| - 1], w);
      Run(calls.onMatch(h, r.world, nodes[|nodes| - 1]), r.trace + [Matched(i, nodes[|nodes| - 1])])
  }

  /** One pass of the outer foreach: query once, match every node, then afterMatches. */
  function RunHandler<H, N, W>(calls: HandlerCalls<H, N, W>, i: nat, h: H, w: W, context: N): (r: Run<N, W>)
    ensures r.trace == Block(i, calls.query(h, w, context))
  {
    var nodes := calls.query(h, w, context);
    var m := MatchAll(calls, i, h, nodes, w);
    Run(calls.afterMatches(h, m.world), [Queried(i, nodes)] + m.trace + [AfterMatches(i)])
  }

  /** applyHandlers over the handlers hs, in list order, starting from world w. */
  function Dispatch<H, N, W>(calls: HandlerCalls<H, N, W>, hs: seq<H>, w: W, context: N): (r: Run<N, W>)
    ensures |r.trace| >= 2 * |hs|
    decreases |hs|
  {
    if hs == [] then Run(w, [])
    else
      var r := Dispatch(calls, hs[..|hs| - 1], w, context);
      var b := RunHandler(calls, |hs| - 1, hs[|hs| - 1], r.world, context);
      Run(b.world, r.trace + b.trace)
  }

  /** The run r with the calls made before it put in front of its trace. */
  function Prepend<N, W>(earlier: seq<Event<N>>, r: Run<N, W>): Run<N, W> {
    Run(r.world, earlier + r.trace)
  }

  /** Matching one more node continues the run on the world the earlier matches left behind. */
  lemma MatchStep<H, N, W>(calls: HandlerCalls<H, N, W>, i: nat, h: H, nodes: seq<N>, j: nat, w: W)
    requires j < |nodes|
    ensures var r := MatchAll(calls, i, h, nodes[..j], w);
            MatchAll(calls, i, h, nodes[..j + 1], w) == Run(calls.onMatch(h, r.world, nodes[j]), r.trace + [Matched(i, nodes[j])])
  {
    assert nodes[..j + 1][..j] == nodes[..j];
  }

  /** A handler's run, with the calls made before it in front. */
  lemma HandlerStep<H, N, W>(calls: HandlerCalls<H, N, W>, i: nat, h: H, w: W, context: N, before: seq<Event<N>>)
    ensures var nodes := calls.query(h, w, context);
            var m := MatchAll(calls, i, h, nodes, w);
            Prepend(before, RunHandler(calls, i, h, w, context))
              == Run(calls.afterMatches(h, m.world), before + [Queried(i, nodes)] + m.trace + [AfterMatches(i)])
  {
    var nodes := calls.query(h, w, context);
    var m := MatchAll(calls, i, h, nodes, w);
    calc {
      before + ([Queried(i, nodes)] + m.trace + [AfterMatches(i)]);
      { AppendAssoc(before, [Queried(i, nodes)] + m.trace, [AfterMatches(i)]);
        AppendAssoc(before, [Queried(i, nodes)], m.trace); }
      before + [Queried(i, nodes)] + m.trace + [AfterMatches(i)];
    }
  }

  /** Dispatching one more handler appends that handler's run to the runs of the ones before it. */
  lemma DispatchStep<H, N, W>(calls: HandlerCalls<H, N, W>, hs: seq<H>, i: nat, w: W, context: N)
    requires i < |hs|
    ensures var r := Dispatch(calls, hs[..i], w, context);
            Dispatch(calls, hs[..i + 1], w, context) == Prepend(r.trace, RunHandler(calls, i, hs[i], r.world, context))
  {
    assert hs[..i + 1][..i] == hs[..i];
  }

  /** Html5TagRewriter::process: mask, parse, dispatch over the whole document, serialise, unmask. */
  function ProcessOutput<H, N, W>(calls: HandlerCalls<H, N, W>, dom: Dom<N, W>, hs: seq<H>, html5: string): Output<N> {
    var document := dom.parse(PreProcess(html5));
    var run := Dispatch(calls, hs, document, dom.documentNode(document));
    Output(PostProcess(dom.saveHtml(run.world)), run.trace)
  }

  /** Html5TagRewriter::processBodyFragment: the same pipeline inside the body of an empty document. */
  function FragmentOutput<H, N, W>(calls: HandlerCalls<H, N, W>, dom: Dom<N, W>, hs: seq<H>, fragment: string): Output<N> {
    var container := dom.body(dom.emptyDocument);
    var document := dom.setInnerHtml(dom.emptyDocument, container, PreProcess(fragment));
    var run := Dispatch(calls, hs, document, container);
    Output(PostProcess(dom.innerHtml(run.world, container)), run.trace)
  }

  class Html5TagRewriter<H> {
    /** The registered handlers, in registration order. */
    var rewriteHandlers: seq<H>

    constructor()
      ensures rewriteHandlers == []
    {
      rewriteHandlers := [];
    }

    /** Appends the handler; earlier entries keep their order and duplicates are kept. */
    method Register(handler: H)
      modifies this
      ensures rewriteHandlers == old(rewriteHandlers) + [handler]
    {
      rewriteHandlers := rewriteHandlers + [handler];
    }

    /** Runs every handler over the nodes below context; the handler list itself is left alone. */
    method ApplyHandlers<N, W>(calls: HandlerCalls<H, N, W>, document: W, context: N) returns (world: W, ghost trace: seq<Event<N>>)
      ensures world == Dispatch(calls, rewriteHandlers, document, context).world
      ensures trace == Dispatch(calls, rewriteHandlers, document, context).trace
    {
      world := document;
      trace := [];
      var i := 0;
      while i < |rewriteHandlers|
        invariant 0 <= i <= |rewriteHandlers|
        invariant Run(world, trace) == Dispatch(calls, rewriteHandlers[..i], document, context)
      {
        var handler := rewriteHandlers[i];
        ghost var start := world;
        ghost var before := trace;
        var nodes := calls.query(handler, world, context);
        trace := trace + [Queried(i, nodes)];
        ghost var events;
        world, events := MatchNodes(calls, i, handler, nodes, world);
        trace := trace + events;
        world := calls.afterMatches(handler, world);
        trace := trace + [AfterMatches(i)];
        HandlerStep(calls, i, handler, start, context, before);
        DispatchStep(calls, rewriteHandlers, i, document, context);
        i := i + 1;
      }
      assert rewriteHandlers[..i] == rewriteHandlers;
    }

    /** The inner foreach of applyHandlers: the handler's match() on each node, in order. */
    method MatchNodes<N, W>(calls: HandlerCalls<H, N, W>, i: nat, handler: H, nodes: seq<N>, start: W) returns (world: W, ghost events: seq<Event<N>>)
      ensures world == MatchAll(calls, i, handler, nodes, start).world
      ensures events == MatchAll(calls, i, handler, nodes, start).trace
    {
      world := start;
      events := [];
      var j := 0;
      while j < |nodes|
        invariant 0 <= j <= |nodes|
        invariant Run(world, events) == MatchAll(calls, i, handler, nodes[..j], start)
      {
        MatchStep(calls, i, handler, nodes, j, start);
        world := calls.onMatch(handler, world, nodes[j]);
        events := events + [Matched(i, nodes[j])];
        j := j + 1;
      }
      assert nodes[..j] == nodes;
    }

    /** Html5TagRewriter::process. */
    method Process<N, W>(calls: HandlerCalls<H, N, W>, dom: Dom<N, W>, html5: string) returns (html: string, ghost trace: seq<Event<N>>)
      ensures html == ProcessOutput(calls, dom, rewriteHandlers, html5).html
      ensures trace == ProcessOutput(calls, dom, rewriteHandlers, html5).trace
    {
      var document := dom.parse(PreProcess(html5));
      var world;
      world, trace := ApplyHandlers(calls, document, dom.documentNode(document));
      html := PostProcess(dom.saveHtml(world));
    }

    /** Html5TagRewriter::processBodyFragment. */
    method ProcessBodyFragment<N, W>(calls: HandlerCalls<H, N, W>, dom: Dom<N, W>, html5Fragment: string) returns (html: string, ghost trace: seq<Event<N>>)
      ensures html == FragmentOutput(calls, dom, rewriteHandlers, html5Fragment).html
      ensures trace == FragmentOutput(calls, dom, rewriteHandlers, html5Fragment).trace
    {
      var document := dom.emptyDocument;
      var container := dom.body(document);
      document := dom.setInnerHtml(document, container, PreProcess(html5Fragment));
      var world;
      world, trace := ApplyHandlers(calls, document, container);
      html := PostProcess(dom.innerHtml(world, container));
    }
  }

}
