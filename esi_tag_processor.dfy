/**
 * The ESI tag masking protocol of src/Implementation/EsiTagProcessor.php.
 *
 * preProcess wraps every ESI tag it finds in a comment that carries a fixed
 * marker, so that an HTML5 parser keeps the tag as inert comment text;
 * postProcess strips those comments again. Both are single regular-expression
 * replacements in the source. Here each pattern is an explicit left-to-right
 * scanner over the text: at each position it asks whether a match starts
 * there; if so the match is replaced and the scan resumes after it, otherwise
 * the character is copied and the scan moves one position on.
 */
module EsiTagProcessor {
  import opened Wrappers

  /** The marker written after "<!--" in every masking comment (COMMENT_PREFIX). */
  const CommentPrefix: string := "esi html5-tagrewriter "

  /**
   * What precedes a masked tag: "<!--" and the marker, which together begin
   * with the ESI comment opener "<!--esi" of section 3.7 of the ESI Language
   * Specification 1.0.
   */
  const Opener: string := "<!--esi html5-tagrewriter "

  /** What follows a masked tag. */
  const Closer: string := "-->"

  predicate IsLower(c: char) { 'a' <= c <= 'z' }

  /** s holds pat at position i. */
  predicate OccursAt(s: string, pat: string, i: nat) {
    i + |pat| <= |s| && s[i..i + |pat|] == pat
  }

  /** pat occurs somewhere in s. */
  predicate Contains(s: string, pat: string) {
    exists i: nat | i <= |s| :: OccursAt(s, pat, i)
  }

  // ---------------------------------------------------------------------
  // preProcess: the pattern #<(/?)esi:([a-z]+)([^>]*?)(/?)>#
  // ---------------------------------------------------------------------

  /**
   * The texts the masking pattern matches as a whole: "<", an optional "/",
   * "esi:", a letter a-z, then any characters other than ">", then ">".
   * ([a-z]+, the lazy [^>]*? and the optional "/" together accept exactly
   * "a letter, then anything but '>'", and the final ">" is the first one.)
   * When the character after "<" is "/", only the closing-tag reading can
   * match, since "esi:" does not start with "/".
   */
  predicate IsEsiTag(t: string) {
    && 7 <= |t|
    && t[0] == '<'
    && t[|t| - 1] == '>'
    && '>' !in t[..|t| - 1]
    && var k := if t[1] == '/' then 2 else 1;
       k + 6 <= |t| && t[k..k + 4] == "esi:" && IsLower(t[k + 4])
  }

  /** The first ">" in s at or after position from. */
  function FindGt(s: string, from: nat): (r: Option<nat>)
    requires from <= |s|
    ensures r.Some? ==> from <= r.value < |s| && s[r.value] == '>' && '>' !in s[from..r.value]
    ensures r.None? ==> '>' !in s[from..]
    decreases |s| - from
  {
    if from == |s| then None
    else if s[from] == '>' then Some(from)
    else
      var r := FindGt(s, from + 1);
      assert r.Some? ==> s[from..r.value] == [s[from]] + s[from + 1..r.value];
      assert s[from..] == [s[from]] + s[from + 1..];
      r
  }

  /** The length of the ESI tag the masking pattern matches at the start of s, if any. */
  function TagAt(s: string): (r: Option<nat>)
    ensures r.Some? ==> 0 < r.value <= |s| && IsEsiTag(s[..r.value])
  {
    if |s| < 2 || s[0] != '<' then None
    else
      var k := if s[1] == '/' then 2 else 1;
      if |s| < k + 5 || s[k..k + 4] != "esi:" || !IsLower(s[k + 4]) then None
      else match FindGt(s, k + 5)
        case None => None
        case Some(j) =>
          var t := s[..j + 1];
          assert t[..j] == s[..k + 5] + s[k + 5..j];
          assert s[..k + 5] == [s[0]] + s[1..k] + s[k..k + 4] + [s[k + 4]];
          assert t[1] == s[1] && t[k..k + 4] == s[k..k + 4] && t[k + 4] == s[k + 4];
          Some(j + 1)
  }

  /** A stretch of the input as the scan sees it: a copied character, or a matched tag. */
  datatype Piece = Text(c: char) | Tag(tag: string)

  /** The input text a sequence of pieces was cut from. */
  function Joined(ps: seq<Piece>): string {
    if ps == [] then []
    else (match ps[0] case Text(c) => [c] case Tag(t) => t) + Joined(ps[1..])
  }

  /** The matched tags, in order. */
  function TagsOf(ps: seq<Piece>): seq<string> {
    if ps == [] then []
    else (match ps[0] case Text(_) => [] case Tag(t) => [t]) + TagsOf(ps[1..])
  }

  /**
   * The leftmost, non-overlapping matches of the masking pattern: the scan
   * tries a match at each position and resumes right after every match.
   */
  function Scan(html: string): (ps: seq<Piece>)
    ensures Joined(ps) == html
    ensures forall p | p in ps && p.Tag? :: IsEsiTag(p.tag)
    decreases |html|
  {
    if html == [] then []
    else match TagAt(html)
      case Some(n) =>
        var rest := Scan(html[n..]);
        assert ([Tag(html[..n])] + rest)[1..] == rest;
        assert html[..n] + html[n..] == html;
        [Tag(html[..n])] + rest
      case None =>
        var rest := Scan(html[1..]);
        assert ([Text(html[0])] + rest)[1..] == rest;
        assert [html[0]] + html[1..] == html;
        [Text(html[0])] + rest
  }

  /** The ESI tags preProcess finds in html, in order. */
  function MatchedTags(html: string): seq<string> {
    TagsOf(Scan(html))
  }

  /** The comment that hides one tag: "<!--esi html5-tagrewriter " + tag + "-->". */
  function Mask(tag: string): string {
    Opener + tag + Closer
  }

  /** Replaces each matched tag by its masking comment and copies all other text. */
  function MaskAll(ps: seq<Piece>): string {
    if ps == [] then []
    else (match ps[0] case Text(c) => [c] case Tag(t) => Mask(t)) + MaskAll(ps[1..])
  }

  /** EsiTagProcessor::preProcess. */
  function PreProcess(html: string): string {
    MaskAll(Scan(html))
  }

  // ---------------------------------------------------------------------
  // postProcess: the pattern #<!--esi html5-tagrewriter (.+?)-->#
  // ---------------------------------------------------------------------

  /** s holds "-->" at position p. */
  predicate CloserAt(s: string, p: int) {
    0 <= p && p + 3 <= |s| && s[p] == '-' && s[p + 1] == '-' && s[p + 2] == '>'
  }

  /**
   * The texts the unmasking pattern matches as a whole: the opener and marker,
   * a non-empty inner text without line feeds ('.' does not match one), and the
   * first "-->" that leaves the inner text non-empty (the lazy '+?').
   */
  predicate IsMaskedComment(m: string) {
    && |Opener| + 4 <= |m|
    && m[..|Opener|] == Opener
    && CloserAt(m, |m| - 3)
    && '\n' !in m[|Opener|..|m| - 3]
    && forall p :: |Opener| < p < |m| - 3 ==> !CloserAt(m, p)
  }

  /**
   * The lazy '.+?-->' from position from on: where the first "-->" starts,
   * provided no line feed comes before it.
   */
  function FindCloser(s: string, from: nat): (r: Option<nat>)
    requires from <= |s|
    ensures r.Some? ==> from <= r.value && CloserAt(s, r.value) && '\n' !in s[from..r.value]
    ensures r.Some? ==> forall p :: from <= p < r.value ==> !CloserAt(s, p)
    decreases |s| - from
  {
    if CloserAt(s, from) then Some(from)
    else if from < |s| && s[from] != '\n' then
      var r := FindCloser(s, from + 1);
      assert r.Some? ==> s[from..r.value] == [s[from]] + s[from + 1..r.value];
      r
    else None
  }

  /** Where the "-->" of the masking comment that starts s begins, if one does. */
  function UnwrapAt(s: string): (r: Option<nat>)
    ensures r.Some? ==> |Opener| < r.value && r.value + 3 <= |s| && IsMaskedComment(s[..r.value + 3])
  {
    if |s| <= |Opener| || s[..|Opener|] != Opener || s[|Opener|] == '\n' then None
    else match FindCloser(s, |Opener| + 1)
      case None => None
      case Some(j) =>
        var m := s[..j + 3];
        assert m[|Opener|..|m| - 3] == [s[|Opener|]] + s[|Opener| + 1..j];
        assert forall p :: |Opener| < p < |m| - 3 ==> (CloserAt(m, p) <==> CloserAt(s, p));
        Some(j)
  }

  /** EsiTagProcessor::postProcess: each masking comment is replaced by its inner text. */
  function PostProcess(html: string): string
    decreases |html|
  {
    match UnwrapAt(html)
    case Some(j) => html[|Opener|..j] + PostProcess(html[j + 3..])
    case None => if html == [] then [] else [html[0]] + PostProcess(html[1..])
  }
}
