# html5-tagrewriter in Dafny

This project models the core of webfactory/html5-tagrewriter. That library lets
a list of rewrite handlers transform an HTML5 document or body fragment. Before
parsing, it hides Edge Side Includes (ESI) tags inside HTML comments, so that
the HTML5 parser and serialiser cannot alter them. Afterwards it restores them
verbatim.

The project has two parts.

- **ESI masking** (`esi_tag_processor.dfy`, `esi_properties.dfy`, `esi_examples.dfy`).
  `preProcess` and `postProcess` are single regular-expression replacements in
  the source. Here they are explicit left-to-right scanners over `string`.
  - `PreProcess` splits the input into `Scan` pieces: either a copied character
    or a matched tag. It wraps each tag as `"<!--esi html5-tagrewriter " + tag + "-->"`.
  - `PostProcess` finds the leftmost masking comment with a lazy, line-feed-free
    inner text, and replaces it by that text.
  - The lemmas characterise exactly what each pattern matches. They prove the
    round trip `PostProcess(PreProcess(x)) == x` and show where it stops holding.
- **The rewriter** (`html5_tag_rewriter.dfy`, `dispatch_properties.dfy`).
  - `Html5TagRewriter` is a class with the `rewriteHandlers` list as a `seq`
    field. Its methods are `Register`, the nested loops of `applyHandlers`, and
    the `process` / `processBodyFragment` pipelines.
  - The HTML5 parser, the DOM and XPath are foreign code. They are passed in as
    records of function values: `Dom` and `HandlerCalls`.
  - A document together with the handlers' own state is a value of the type
    parameter `W`.
  - Every call the dispatcher makes on a handler is recorded in a ghost trace.
  - `Register` and the constructor state the new handler list outright. Each
    of the other methods is proved equal to a specification function:
    `MatchNodes` to `MatchAll`, `ApplyHandlers` to `Dispatch`, `Process` to
    `ProcessOutput` and `ProcessBodyFragment` to `FragmentOutput`.
  - Lemmas about these functions state the order and multiplicity of handler
    calls, and that passive handlers leave a document unchanged.

`wrappers.dfy` holds `Option`, and `sequences.dfy` small sequence facts (associativity, slicing) used as proof steps.

## Model

| member | source | states |
|---|---|---|
| EsiTagProcessor.PreProcess | src/Implementation/EsiTagProcessor.php:46-61 | no ensures of its own: masks every tag Scan finds; described by EsiProperties.TagAtExact, TagAtNone, PreProcessTag, PreProcessText and RoundTrip |
| EsiTagProcessor.TagAt | src/Implementation/EsiTagProcessor.php:55 | a match at the start of s covers a prefix that is an ESI tag (the converse is EsiProperties.TagAtExact) |
| EsiTagProcessor.Mask | src/Implementation/EsiTagProcessor.php:57 | no ensures of its own: the comment "<!--esi html5-tagrewriter " + tag + "-->"; its inverse is EsiProperties.PostProcessMask |
| EsiTagProcessor.MaskAll | src/Implementation/EsiTagProcessor.php:54-60 | no ensures of its own: the replacement applied to each piece of the scan; described by EsiProperties.MaskAllAppend and RoundTripPieces |
| EsiTagProcessor.PostProcess | src/Implementation/EsiTagProcessor.php:66-77 | no ensures of its own: replaces each masking comment UnwrapAt finds by its inner text; described by EsiProperties.UnwrapAtExact, PostProcessMask, PostProcessCopies and RoundTrip |
| EsiTagProcessor.UnwrapAt | src/Implementation/EsiTagProcessor.php:71 | a match at the start of s ends with a "-->" such that the text up to it is a masking comment (the converse is EsiProperties.UnwrapAtExact) |
| EsiTagProcessor.Scan | src/Implementation/EsiTagProcessor.php:54-60 | the pieces the scan cuts html into join back to html, and every matched piece is an ESI tag |
| EsiTagProcessor.FindCloser | src/Implementation/EsiTagProcessor.php:71 | a found closer is the first "-->" from the start position on, with no line feed before it |
| EsiProperties.TagAtExact | src/Implementation/EsiTagProcessor.php:55 | the masking pattern matches exactly n characters at the start of s iff those n characters form an ESI tag: "<", optional "/", "esi:", a lower-case letter, then everything up to the first ">" |
| EsiProperties.TagAtNone | src/Implementation/EsiTagProcessor.php:55 | no match at the start of s iff no prefix of s is an ESI tag |
| EsiProperties.UnwrapAtExact | src/Implementation/EsiTagProcessor.php:71 | the unmasking pattern matches at the start of s, ending with the "-->" at j, iff s[..j+3] is a masking comment: opener and marker, non-empty inner text without line feed, and the first "-->" after at least one inner character |
| EsiProperties.PreProcessLength | src/Implementation/EsiTagProcessor.php:54-60 | preProcess adds exactly 29 characters per matched tag |
| EsiProperties.PreProcessUnchanged | src/Implementation/EsiTagProcessor.php:54-60 | preProcess returns its input unchanged iff it finds no ESI tag |
| EsiProperties.NoTagAnywhere | src/Implementation/EsiTagProcessor.php:54-60 | the scan finds no tag iff the pattern matches at no position of the input |
| EsiProperties.PreProcessTag | src/Implementation/EsiTagProcessor.php:55-57 | an ESI tag at the front is replaced by its masking comment and the rest is processed on |
| EsiProperties.PreProcessText | src/Implementation/EsiTagProcessor.php:54-60 | a character that starts no tag is copied and the scan moves on one position |
| EsiProperties.PreProcessCopies | src/Implementation/EsiTagProcessor.php:54-60 | text without "<" passes through preProcess unchanged |
| EsiProperties.PostProcessCopies | src/Implementation/EsiTagProcessor.php:70-76 | text without "<" passes through postProcess unchanged |
| EsiProperties.PreProcessPlain | src/Implementation/EsiTagProcessor.php:54-60 | markup in which every "<" is followed by two more characters, neither of them the "e" of "esi:" (directly or after "/") nor a "!", passes through preProcess unchanged |
| EsiProperties.PostProcessPlain | src/Implementation/EsiTagProcessor.php:70-76 | the same markup passes through postProcess unchanged |
| EsiProperties.MaskAllAppend | src/Implementation/EsiTagProcessor.php:54-60 | the replacement works piece by piece: masking a concatenation of pieces concatenates the masked parts |
| EsiProperties.PostProcessUnchanged | src/Implementation/EsiTagProcessor.php:70-76 | text holding no "<!--esi html5-tagrewriter " is returned unchanged by postProcess |
| EsiProperties.PostProcessMask | src/Implementation/EsiTagProcessor.php:71-73 | the masking comment of a non-empty text without line feed, whose only ">" may be the last character, is replaced by that text |
| EsiProperties.RoundTripPieces | src/Implementation/EsiTagProcessor.php:46-77 | for any pieces whose tags are ESI tags without a line feed, and whose joined text holds no masking opener, postProcess of the masked pieces is the joined text |
| EsiProperties.RoundTrip | src/Implementation/EsiTagProcessor.php:46-77 | postProcess(preProcess(x)) == x when x holds no "<!--esi html5-tagrewriter " and no matched tag spans a line feed |
| EsiProperties.RoundTripWithoutMarker | src/Implementation/EsiTagProcessor.php:37-77 | the round trip holds for every x that does not contain the marker COMMENT_PREFIX (and whose matched tags hold no line feed) |
| EsiProperties.WrappedRoundTrip | src/Implementation/EsiTagProcessor.php:46-77 | the round trip holds inside any frame pre/post: postProcess(pre + preProcess(x) + post) == pre + x + post when the whole holds no masking opener |
| EsiProperties.UnwrapBlockedByLineFeed | src/Implementation/EsiTagProcessor.php:71 | the masking comment of a tag with a line feed inside does not match the unmasking pattern |
| EsiProperties.LineFeedInTagStaysMasked | src/Implementation/EsiTagProcessor.php:55-76 | an ESI tag that contains a line feed and no "<" other than its first character is masked by preProcess but left masked by postProcess, so the round trip fails for it |
| EsiProperties.PreProcessKeepsLookalike | src/Implementation/EsiTagProcessor.php:55 | an input comment "<!--esi html5-tagrewriter …-->" with a lower-case inner text is not an ESI tag and is copied unchanged |
| EsiProperties.PostProcessUnwrapsLookalike | src/Implementation/EsiTagProcessor.php:71-73 | postProcess strips such a comment down to its inner text |
| EsiProperties.OpenerInInputIsUnmasked | src/Implementation/EsiTagProcessor.php:46-77 | for an input holding such a comment the round trip fails, so the "no marker" precondition of RoundTrip cannot be dropped |
| EsiExamples.OpeningAndClosingTags | tests/Implementation/EsiTagProcessorTest.php:47-50 | "<esi:remove>content</esi:remove>" is masked tag by tag, with the text in between copied |
| EsiExamples.OpeningAndClosingRoundTrip | tests/Implementation/EsiTagProcessorTest.php:85 | that input survives preProcess followed by postProcess unchanged |
| EsiExamples.SpanningElementBoundaries | tests/Implementation/EsiTagProcessorTest.php:62-65 | the tags of "<p>Start <esi:remove>content</p><p>more</esi:remove> end</p>" are masked where they stand, and the input survives the round trip (line 87) |
| EsiExamples.WrappingPartialHtml | tests/Implementation/EsiTagProcessorTest.php:88 | "<p><esi:remove><b>Important:</esi:remove>text<esi:remove></b></esi:remove></p>" survives the round trip |
| Html5TagRewriter.MatchAll | src/Implementation/Html5TagRewriter.php:74-76 | the inner loop calls match() once per queried node, in node order |
| Html5TagRewriter.RunHandler | src/Implementation/Html5TagRewriter.php:72-77 | one handler receives one query, then one match() per node, then afterMatches() |
| Html5TagRewriter.Dispatch | src/Implementation/Html5TagRewriter.php:71-78 | its own ensures only bounds the trace (two calls or more per handler); the calls are described by DispatchProperties.HandlerEvents, DispatchOrdered and CallCounts |
| Html5TagRewriter.ProcessOutput | src/Implementation/Html5TagRewriter.php:26-36 | no ensures of its own: mask, parse, dispatch with the document as context, serialise, unmask; described by DispatchProperties.ProcessPassive and ProcessPassiveFramed |
| Html5TagRewriter.FragmentOutput | src/Implementation/Html5TagRewriter.php:38-62 | no ensures of its own: the same inside the body of an empty document, with the body as context; described by DispatchProperties.FragmentPassive |
| Html5TagRewriter.Html5TagRewriter.constructor | src/Implementation/Html5TagRewriter.php:18 | a new rewriter has no handlers |
| Html5TagRewriter.Html5TagRewriter.Register | src/Implementation/Html5TagRewriter.php:21-24 | the handler is appended; earlier handlers keep their order and duplicates are kept |
| Html5TagRewriter.Html5TagRewriter.MatchNodes | src/Implementation/Html5TagRewriter.php:74-76 | the loop's world and calls equal MatchAll over the queried nodes |
| Html5TagRewriter.Html5TagRewriter.ApplyHandlers | src/Implementation/Html5TagRewriter.php:64-79 | the loops' final world and calls equal Dispatch over the registered handlers in registration order, and the handler list is not changed |
| Html5TagRewriter.Html5TagRewriter.Process | src/Implementation/Html5TagRewriter.php:26-36 | the output is postProcess of the serialised document after dispatch over the whole parsed, masked input |
| Html5TagRewriter.Html5TagRewriter.ProcessBodyFragment | src/Implementation/Html5TagRewriter.php:38-62 | the output is postProcess of the body's inner HTML after dispatch below the body of an empty document, filled with the masked fragment |
| DispatchProperties.BlockShape | src/Implementation/Html5TagRewriter.php:72-77 | a handler's calls are exactly query, match() on node k at position k+1, then afterMatches() last |
| DispatchProperties.DispatchBounded | src/Implementation/Html5TagRewriter.php:71-78 | every call goes to a registered handler |
| DispatchProperties.DispatchOrdered | src/Implementation/Html5TagRewriter.php:71-78 | handlers run one after the other: no call to a later handler comes before a call to an earlier one |
| DispatchProperties.HandlerEvents | src/Implementation/Html5TagRewriter.php:71-78 | the calls to handler i are exactly its block, with its query evaluated on the world the handlers before it left |
| DispatchProperties.CallCounts | src/Implementation/Html5TagRewriter.php:71-78 | each handler is queried once and receives afterMatches() once, and match() on a node as often as its query returned that node |
| DispatchProperties.DispatchPassive | src/Handler/BaseRewriteHandler.php:17-23 | handlers whose match() and afterMatches() do nothing leave the world unchanged |
| DispatchProperties.ProcessPassive | src/Implementation/Html5TagRewriter.php:26-36 | with such handlers and a parser whose serialisation gives back its input, process returns its input |
| DispatchProperties.ProcessPassiveFramed | src/Implementation/Html5TagRewriter.php:26-36 | with such handlers and a serialiser that frames what it parsed (pre + s + post, such as a doctype, head and body around the content), process returns the input inside the same frame |
| DispatchProperties.FragmentPassive | src/Implementation/Html5TagRewriter.php:38-62 | with such handlers and an innerHTML that reads back what was written, processBodyFragment returns its input |

## Left out

- The HTML5 parser, `saveHtml`, `innerHTML` and XPath evaluation are not part of this model. They are parameters (`Dom`, `HandlerCalls`) with no properties assumed, except in the lemmas whose requires state them.
- XPath namespace registration (html, svg, mathml) and the handlers' `appliesTo()` expressions are folded into the `query` parameter.
- Parser options (`LIBXML_NOERROR`, the UTF-8 encoding override) are not modelled; they only affect the foreign parser.
- Exceptions thrown by handlers, the parser or XPath are not modelled: every foreign call returns.
- The `assert($container !== null)` in processBodyFragment is not modelled: the body of an empty document is taken to exist.
- The `?? $html` fallbacks are not modelled. `preg_replace_callback` returns null only on a regular-expression engine failure (such as the backtrack limit), and the scanners here always finish.
- Strings are sequences of characters. Byte-level and UTF-8 behaviour of PCRE is not modelled, and '.' is taken to exclude only the line feed, PCRE's default newline.
- The world value `W` replaces the shared mutable DOM. Aliasing between nodes and the document, and handlers that keep other objects, are captured only as changes to that value.
- Html5TagRewriter.Html5TagRewriter.MatchNodes: the source's inner foreach is a separate method here, with the same calls in the same order.
- Html5TagRewriter.Dispatch: its own ensures only bounds the trace length. The full description of the calls is in DispatchProperties.HandlerEvents, DispatchOrdered and CallCounts.
- EsiProperties.RoundTrip: it is stated for inputs without "<!--esi html5-tagrewriter ". The round trip holds for some other inputs as well, and OpenerInInputIsUnmasked shows one for which it fails.
- EsiExamples: the test vectors at tests/Implementation/EsiTagProcessorTest.php lines 47-50, 62-65, 85, 87 and 88 are stated as lemmas; the other vectors are covered only by the general lemmas (RoundTripWithoutMarker and the PreProcess lemmas).
