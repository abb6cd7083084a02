/**
 * What the masking protocol promises: where preProcess finds tags, what it
 * copies, how much it grows the text, what postProcess undoes, and the round
 * trip postProcess(preProcess(x)) == x with the two conditions it needs.
 */
module EsiProperties {
  import opened Wrappers
  import opened Sequences
  import opened EsiTagProcessor

  // ---------------------------------------------------------------------
  // The tag matcher
  // ---------------------------------------------------------------------

  /**
   * A match at the start of s is exactly a prefix of the tag shape, and it is
   * unique: it always ends at the first ">" after "esi:" and a letter, even
   * when that ">" sits inside a quoted attribute value.
   */
  lemma TagAtExact(s: string, n: nat)
    ensures TagAt(s) == Some(n) <==> 0 < n <= |s| && IsEsiTag(s[..n])
  {
    if 0 < n <= |s| && IsEsiTag(s[..n]) {
      var t := s[..n];
      var k := if s[1] == '/' then 2 else 1;
      assert t[1] == s[1];
      assert t[k..k + 4] == s[k..k + 4] && t[k + 4] == s[k + 4];
      assert t[n - 1] == s[n - 1] == '>';
      assert n - 1 != k + 4;
      assert s[n - 1] in s[k + 5..] by { assert s[k + 5..][n - 1 - (k + 5)] == s[n - 1]; }
      var g := FindGt(s, k + 5);
      assert g.Some?;
      var j := g.value;
      forall i | 0 <= i < n - 1 ensures s[i] != '>' {
        assert t[..n - 1][i] == s[i];
      }
      forall i | k + 5 <= i < j ensures s[i] != '>' {
        assert s[k + 5..j][i - (k + 5)] == s[i];
      }
    }
  }

  /** A text that does not begin with a tag shape yields no match there. */
  lemma TagAtNone(s: string)
    ensures TagAt(s).None? <==> forall n :: 0 < n <= |s| ==> !IsEsiTag(s[..n])
  {
    forall n | 0 < n <= |s|
      ensures TagAt(s) == Some(n) <==> IsEsiTag(s[..n])
    {
      TagAtExact(s, n);
    }
  }

  // ---------------------------------------------------------------------
  // preProcess
  // ---------------------------------------------------------------------

  lemma {:induction false} MaskAllLength(ps: seq<Piece>)
    ensures |MaskAll(ps)| == |Joined(ps)| + |Mask([])| * |TagsOf(ps)|
    decreases |ps|
  {
    if ps != [] {
      MaskAllLength(ps[1..]);
    }
  }

  lemma {:induction false} MaskAllNoTags(ps: seq<Piece>)
    requires TagsOf(ps) == []
    ensures MaskAll(ps) == Joined(ps)
    decreases |ps|
  {
    if ps != [] {
      assert ps[0].Text?;
      MaskAllNoTags(ps[1..]);
    }
  }

  /** Each masked tag grows the text by exactly 29 characters, the length of the comment around it. */
  lemma PreProcessLength(html: string)
    ensures |PreProcess(html)| == |html| + 29 * |MatchedTags(html)|
  {
    MaskAllLength(Scan(html));
  }

  /** preProcess changes its input exactly when it finds a tag. */
  lemma PreProcessUnchanged(html: string)
    ensures PreProcess(html) == html <==> MatchedTags(html) == []
  {
    PreProcessLength(html);
    if MatchedTags(html) == [] {
      MaskAllNoTags(Scan(html));
    }
  }

  /** preProcess finds a tag exactly when a match of the tag shape starts at some position. */
  lemma {:induction false} NoTagAnywhere(html: string)
    ensures MatchedTags(html) == [] <==> forall i :: 0 <= i < |html| ==> TagAt(html[i..]).None?
    decreases |html|
  {
    if html != [] {
      NoTagAnywhere(html[1..]);
      match TagAt(html)
      case Some(n) =>
        assert html[0..] == html;
      case None =>
        assert Scan(html)[1..] == Scan(html[1..]);
        forall i | 1 <= i < |html| ensures html[i..] == html[1..][i - 1..] { }
        if MatchedTags(html) == [] {
          forall i | 0 <= i < |html| ensures TagAt(html[i..]).None? {
            if i > 0 { assert html[i..] == html[1..][i - 1..]; }
          }
        }
        if forall i :: 0 <= i < |html| ==> TagAt(html[i..]).None? {
          forall i | 0 <= i < |html[1..]| ensures TagAt(html[1..][i..]).None? {
            assert html[1..][i..] == html[i + 1..];
          }
        }
    }
  }

  /** A tag at the start of the text is masked, and the scan resumes right after it. */
  lemma PreProcessTag(t: string, rest: string)
    requires IsEsiTag(t)
    ensures PreProcess(t + rest) == Mask(t) + PreProcess(rest)
  {
    var s := t + rest;
    assert s[..|t|] == t;
    TagAtExact(s, |t|);
    assert s[|t|..] == rest;
    assert Scan(s)[1..] == Scan(rest);
  }

  /** A character where no tag starts is copied, and the scan moves one position on. */
  lemma PreProcessText(c: char, rest: string)
    requires TagAt([c] + rest).None?
    ensures PreProcess([c] + rest) == [c] + PreProcess(rest)
  {
    var s := [c] + rest;
    assert s[1..] == rest;
    assert Scan(s)[1..] == Scan(rest);
  }

  /** The pieces of a text copied character by character. */
  function Texts(p: string): seq<Piece> {
    seq(|p|, i requires 0 <= i < |p| => Text(p[i]))
  }

  lemma TextsCons(p: string)
    requires p != []
    ensures Texts(p) == [Text(p[0])] + Texts(p[1..])
  {
  }

  lemma {:induction false} MaskAllAppend(a: seq<Piece>, b: seq<Piece>)
    ensures MaskAll(a + b) == MaskAll(a) + MaskAll(b)
    decreases |a|
  {
    if a == [] {
      assert a + b == b;
    } else {
      assert (a + b)[1..] == a[1..] + b;
      MaskAllAppend(a[1..], b);
    }
  }

  lemma {:induction false} MaskAllTexts(p: string)
    ensures MaskAll(Texts(p)) == p
    decreases |p|
  {
    if p != [] {
      assert Texts(p)[1..] == Texts(p[1..]);
      MaskAllTexts(p[1..]);
      assert [p[0]] + p[1..] == p;
    }
  }

  lemma ScanNotLt(c: char, rest: string)
    requires c != '<'
    ensures Scan([c] + rest) == [Text(c)] + Scan(rest)
  {
    var s := [c] + rest;
    assert s[0] == c;
    assert s[1..] == rest;
  }

  /** A text without "<" holds no match: the scan copies it character by character. */
  lemma {:induction false} ScanCopies(p: string, rest: string)
    requires '<' !in p
    ensures Scan(p + rest) == Texts(p) + Scan(rest)
    decreases |p|
  {
    if p == [] {
      assert p + rest == rest;
    } else {
      var q := p[1..] + rest;
      assert Scan(p + rest) == [Text(p[0])] + Scan(q) by {
        assert p + rest == [p[0]] + q;
        ScanNotLt(p[0], q);
      }
      ScanCopies(p[1..], rest);
      calc {
        Scan(p + rest);
        [Text(p[0])] + Scan(q);
        [Text(p[0])] + (Texts(p[1..]) + Scan(rest));
        { AppendAssoc([Text(p[0])], Texts(p[1..]), Scan(rest)); }
        ([Text(p[0])] + Texts(p[1..])) + Scan(rest);
        { TextsCons(p); }
        Texts(p) + Scan(rest);
      }
    }
  }

  /** Text without "<" is copied unchanged. */
  lemma PreProcessCopies(p: string, rest: string)
    requires '<' !in p
    ensures PreProcess(p + rest) == p + PreProcess(rest)
  {
    ScanCopies(p, rest);
    MaskAllAppend(Texts(p), Scan(rest));
    MaskAllTexts(p);
  }

  // ---------------------------------------------------------------------
  // postProcess
  // ---------------------------------------------------------------------

  lemma {:induction false} FindCloserReaches(s: string, from: nat, k: nat)
    requires from <= k && CloserAt(s, k)
    requires forall p :: from <= p < k ==> !CloserAt(s, p) && s[p] != '\n'
    ensures FindCloser(s, from) == Some(k)
    decreases k - from
  {
    if from < k {
      FindCloserReaches(s, from + 1, k);
    }
  }

  /** The unmasking match at the start of s is exactly a prefix that is a masking comment. */
  lemma UnwrapAtExact(s: string, j: nat)
    ensures UnwrapAt(s) == Some(j) <==> j + 3 <= |s| && IsMaskedComment(s[..j + 3])
  {
    if j + 3 <= |s| && IsMaskedComment(s[..j + 3]) {
      var m := s[..j + 3];
      assert s[..|Opener|] == m[..|Opener|];
      assert m[|Opener|] == s[|Opener|];
      assert m[|Opener|..|m| - 3][0] == m[|Opener|];
      forall p | |Opener| + 1 <= p < j ensures !CloserAt(s, p) && s[p] != '\n' {
        assert CloserAt(m, p) <==> CloserAt(s, p);
        assert m[|Opener|..|m| - 3][p - |Opener|] == s[p];
      }
      assert CloserAt(m, j) <==> CloserAt(s, j);
      FindCloserReaches(s, |Opener| + 1, j);
    }
  }

  lemma ConsPrefix<T>(c: T, a: seq<T>, b: seq<T>, n: nat)
    requires 0 < n && n - 1 <= |a| && n - 1 <= |b| && a[..n - 1] == b[..n - 1]
    ensures n <= |[c] + a| && n <= |[c] + b| && ([c] + a)[..n] == ([c] + b)[..n]
  {
    assert ([c] + a)[..n] == [c] + a[..n - 1];
    assert ([c] + b)[..n] == [c] + b[..n - 1];
  }

  lemma ConsTail<T>(s: seq<T>)
    requires s != []
    ensures [s[0]] + s[1..] == s
  {
  }

  /** Dropping the first element of a + b, for a non-empty a. */
  lemma ConsSplit<T>(a: seq<T>, b: seq<T>)
    requires a != []
    ensures (a + b)[0] == a[0] && (a + b)[1..] == a[1..] + b
  {
  }

  /** A prefix of [c] + s, less its first element, is a prefix of s. */
  lemma PrefixTail<T>(c: T, s: seq<T>, p: seq<T>)
    requires p != [] && |p| <= |[c] + s| && ([c] + s)[..|p|] == p
    ensures p[0] == c && |p| - 1 <= |s| && s[..|p| - 1] == p[1..]
  {
    assert ([c] + s)[..|p|] == [c] + s[..|p| - 1];
  }

  /** The opener holds no "<" after its first character. */
  lemma OpenerTailHasNoLt()
    ensures '<' !in Opener[1..]
  {
    assert forall i :: 1 <= i < |Opener| ==> Opener[i] != '<';
    assert forall i :: 0 <= i < |Opener| - 1 ==> Opener[1..][i] == Opener[i + 1];
  }

  /** Text without "<" passes through postProcess unchanged. */
  lemma {:induction false} PostProcessCopies(p: string, rest: string)
    requires '<' !in p
    ensures PostProcess(p + rest) == p + PostProcess(rest)
    decreases |p|
  {
    if p != [] {
      var s := p + rest;
      assert s[0] == p[0] != Opener[0];
      assert |s| > |Opener| ==> s[..|Opener|][0] == s[0];
      assert UnwrapAt(s).None?;
      assert s[1..] == p[1..] + rest;
      PostProcessCopies(p[1..], rest);
      assert [p[0]] + p[1..] == p;
    } else {
      assert p + rest == rest;
    }
  }

  /** Text that holds no masking-comment opener passes through postProcess unchanged. */
  lemma {:induction false} PostProcessUnchanged(html: string)
    requires !Contains(html, Opener)
    ensures PostProcess(html) == html
    decreases |html|
  {
    if html != [] {
      if |html| > |Opener| && html[..|Opener|] == Opener {
        assert OccursAt(html, Opener, 0);
      }
      assert !Contains(html[1..], Opener) by {
        ConsTail(html);
        ContainsInSuffix([html[0]], html[1..], Opener);
      }
      PostProcessUnchanged(html[1..]);
    }
  }

  // ---------------------------------------------------------------------
  // Round trip
  // ---------------------------------------------------------------------

  /**
   * The texts whose masking comment postProcess turns back into the text:
   * non-empty, without line feeds, and without ">" except as the last
   * character. Every matched ESI tag that holds no line feed is one.
   */
  predicate Restorable(t: string) {
    t != [] && '\n' !in t && '>' !in t[..|t| - 1]
  }

  /** Where the lazy unmasking match ends inside Mask(t) + rest: the "-->" after t, or t's own final "-->". */
  function MaskedCloser(t: string): nat {
    |Opener| + |t| - if 3 < |t| && CloserAt(t, |t| - 3) then 3 else 0
  }

  /**
   * The shape of a masking comment followed by rest, stated on an arbitrary
   * text s so that proofs about it need not unfold the opener literal.
   */
  predicate MaskLayout(s: string, t: string, rest: string) {
    && |s| == |Opener| + |t| + 3 + |rest|
    && (forall i :: 0 <= i < |t| ==> s[|Opener| + i] == t[i])
    && CloserAt(s, |Opener| + |t|)
    && s[|Opener| + |t| + 3..] == rest
  }

  lemma MaskLayoutOf(t: string, rest: string)
    ensures (Mask(t) + rest)[..|Opener|] == Opener
    ensures MaskLayout(Mask(t) + rest, t, rest)
  {
  }

  lemma MaskLayoutAlone(t: string)
    ensures Mask(t)[..|Opener|] == Opener
    ensures MaskLayout(Mask(t), t, [])
  {
  }

  /**
   * Inside a masking comment, the first "-->" is the comment's own closer,
   * unless the text itself ends in "-->", in which case the lazy match stops
   * three characters earlier.
   */
  lemma UnwrapMasked(s: string, t: string, rest: string)
    requires Restorable(t) && MaskLayout(s, t, rest) && s[..|Opener|] == Opener
    ensures UnwrapAt(s) == Some(MaskedCloser(t))
  {
    var o := |Opener|;
    var k := MaskedCloser(t);
    assert s[o] == t[0];
    forall p | o + 1 <= p < k ensures !CloserAt(s, p) && s[p] != '\n' {
      assert s[p] == t[p - o];
      if p + 2 < o + |t| - 1 {
        assert t[..|t| - 1][p + 2 - o] == s[p + 2];
      } else if p + 2 == o + |t| - 1 {
        assert CloserAt(s, p) <==> CloserAt(t, |t| - 3);
      }
    }
    assert CloserAt(s, k);
    FindCloserReaches(s, o + 1, k);
  }

  /** One unmasking step: the comment that starts the text is replaced by its inner text. */
  lemma PostProcessAt(s: string, j: nat)
    requires UnwrapAt(s) == Some(j)
    ensures PostProcess(s) == s[|Opener|..j] + PostProcess(s[j + 3..])
  {
  }

  /** One copying step: no masking comment starts the text, so its first character is kept. */
  lemma PostProcessSkip(s: string)
    requires s != [] && UnwrapAt(s).None?
    ensures PostProcess(s) == [s[0]] + PostProcess(s[1..])
  {
  }

  /** In a masking layout, the inner text up to a position is that much of t. */
  lemma LayoutHead(s: string, t: string, rest: string, k: nat)
    requires MaskLayout(s, t, rest) && |Opener| <= k <= |Opener| + |t|
    ensures s[|Opener|..k] == t[..k - |Opener|]
  {
  }

  /** In a masking layout, the comment's "-->" and rest follow t. */
  lemma LayoutTail(s: string, t: string, rest: string)
    requires MaskLayout(s, t, rest)
    ensures s[|Opener| + |t|..] == Closer + rest
  {
    var e := |Opener| + |t|;
    assert s[e..e + 3] == Closer;
    SplitAt(s, e, e + 3);
  }

  /** Regrouping after an early stop: the text's own "-->" is copied back in front of rest. */
  lemma RegroupCloser(head: string, tail: string, t: string, rest: string)
    requires 3 < |t| && CloserAt(t, |t| - 3) && head == t[..|t| - 3] && tail == Closer + rest
    ensures head + PostProcess(tail) == t + PostProcess(rest)
  {
    calc {
      head + PostProcess(tail);
      { PostProcessCopies(Closer, rest); }
      head + (Closer + PostProcess(rest));
      { AppendAssoc(head, Closer, PostProcess(rest)); }
      (head + Closer) + PostProcess(rest);
      { assert head + Closer == t; }
      t + PostProcess(rest);
    }
  }

  lemma PostProcessLayout(s: string, t: string, rest: string)
    requires Restorable(t) && MaskLayout(s, t, rest) && UnwrapAt(s) == Some(MaskedCloser(t))
    ensures PostProcess(s) == t + PostProcess(rest)
  {
    var o := |Opener|;
    var k := MaskedCloser(t);
    PostProcessAt(s, k);
    LayoutHead(s, t, rest, k);
    if 3 < |t| && CloserAt(t, |t| - 3) {
      LayoutTail(s, t, rest);
      RegroupCloser(s[o..k], s[k + 3..], t, rest);
    } else {
      assert t[..|t|] == t;
    }
  }


  /** postProcess turns the masking comment of a restorable text back into the text. */
  lemma PostProcessMask(t: string, rest: string)
    requires Restorable(t)
    ensures PostProcess(Mask(t) + rest) == t + PostProcess(rest)
  {
    MaskLayoutOf(t, rest);
    UnwrapMasked(Mask(t) + rest, t, rest);
    PostProcessLayout(Mask(t) + rest, t, rest);
  }

  /** A masking comment starts with "<". */
  lemma MaskStartsLt(t: string)
    ensures Mask(t)[0] == '<'
  {
  }

  lemma MaskAllHead(ps: seq<Piece>)
    requires ps != []
    ensures |MaskAll(ps)| > 0 && MaskAll(ps)[0] == if ps[0].Text? then ps[0].c else '<'
  {
    match ps[0]
    case Text(c) =>
    case Tag(t) => MaskStartsLt(t);
  }

  /** Masked output that starts with a character other than "<" starts with a copied character. */
  lemma MaskAllHeadText(ps: seq<Piece>, p: string)
    requires p != [] && '<' !in p
    requires |p| <= |MaskAll(ps)| && MaskAll(ps)[..|p|] == p
    ensures ps != [] && ps[0] == Text(p[0])
    ensures |p| - 1 <= |MaskAll(ps[1..])| && MaskAll(ps[1..])[..|p| - 1] == p[1..]
  {
    assert p[0] == MaskAll(ps)[..|p|][0];
    MaskAllHead(ps);
    var c := ps[0].c;
    assert MaskAll(ps) == [c] + MaskAll(ps[1..]);
    PrefixTail(c, MaskAll(ps[1..]), p);
  }

  /** What masking produces never starts with a "<"-free text that the input did not start with. */
  lemma {:induction false} MaskAllPrefix(ps: seq<Piece>, p: string)
    requires '<' !in p
    requires |p| <= |MaskAll(ps)| && MaskAll(ps)[..|p|] == p
    ensures |p| <= |Joined(ps)| && Joined(ps)[..|p|] == p
    decreases |ps|
  {
    if p != [] {
      MaskAllHeadText(ps, p);
      MaskAllPrefix(ps[1..], p[1..]);
      calc {
        Joined(ps)[..|p|];
        ([p[0]] + Joined(ps[1..]))[..|p|];
        [p[0]] + Joined(ps[1..])[..|p| - 1];
        { ConsTail(p); }
        p;
      }
    }
  }

  /** A pattern whose only "<" is its first character starts the masked output after a copied character only if it starts the input there. */
  lemma PatternAfterText(c: char, rest: seq<Piece>, pat: string)
    requires pat != [] && '<' !in pat[1..]
    ensures var s := [c] + MaskAll(rest);
            |s| > |pat| && s[..|pat|] == pat ==> OccursAt([c] + Joined(rest), pat, 0)
  {
    var s := [c] + MaskAll(rest);
    if |s| > |pat| && s[..|pat|] == pat {
      var tail := pat[1..];
      assert MaskAll(rest)[..|tail|] == tail by {
        assert MaskAll(rest)[..|tail|] == s[..|pat|][1..];
      }
      MaskAllPrefix(rest, tail);
      ConsPrefix(c, MaskAll(rest), Joined(rest), |pat|);
    }
  }

  /** A copied "<" can only begin a masking-comment opener in the output if the input holds one. */
  lemma OpenerAfterText(c: char, rest: seq<Piece>)
    ensures var s := [c] + MaskAll(rest);
            |s| > |Opener| && s[..|Opener|] == Opener ==> OccursAt([c] + Joined(rest), Opener, 0)
  {
    OpenerTailHasNoLt();
    PatternAfterText(c, rest, Opener);
  }

  lemma ContainsInSuffix(a: string, b: string, pat: string)
    requires !Contains(a + b, pat)
    ensures !Contains(b, pat)
  {
    if Contains(b, pat) {
      var i: nat :| i <= |b| && OccursAt(b, pat, i);
      assert (a + b)[|a| + i..|a| + i + |pat|] == b[i..i + |pat|];
      assert OccursAt(a + b, pat, |a| + i);
    }
  }

  lemma {:induction false} RoundTripPieces(ps: seq<Piece>)
    requires forall p | p in ps && p.Tag? :: IsEsiTag(p.tag) && '\n' !in p.tag
    requires !Contains(Joined(ps), Opener)
    ensures PostProcess(MaskAll(ps)) == Joined(ps)
    decreases |ps|
  {
    if ps != [] {
      var rest := ps[1..];
      assert forall p | p in rest :: p in ps;
      match ps[0]
      case Tag(t) =>
        assert Joined(ps) == t + Joined(rest);
        ContainsInSuffix(t, Joined(rest), Opener);
        RoundTripPieces(rest);
        PostProcessMask(t, MaskAll(rest));
      case Text(c) =>
        var s := [c] + MaskAll(rest);
        assert Joined(ps) == [c] + Joined(rest);
        OpenerAfterText(c, rest);
        assert !OccursAt(Joined(ps), Opener, 0);
        assert UnwrapAt(s).None?;
        assert s[1..] == MaskAll(rest);
        ContainsInSuffix([c], Joined(rest), Opener);
        RoundTripPieces(rest);
    }
  }

  lemma {:induction false} TagsOfMembers(ps: seq<Piece>)
    ensures forall p | p in ps && p.Tag? :: p.tag in TagsOf(ps)
    decreases |ps|
  {
    if ps != [] {
      TagsOfMembers(ps[1..]);
      assert forall p | p in ps :: p == ps[0] || p in ps[1..];
    }
  }

  /**
   * The round trip: postProcess undoes preProcess whenever the input holds no
   * "<!--esi html5-tagrewriter " of its own and no matched tag spans a line
   * feed (the masking pattern's [^>] accepts one, the unmasking pattern's '.'
   * does not). This covers self-closing, nested, adjacent and unbalanced tags
   * alike: each is masked and restored on its own.
   */
  lemma RoundTrip(x: string)
    requires !Contains(x, Opener)
    requires forall t | t in MatchedTags(x) :: '\n' !in t
    ensures PostProcess(PreProcess(x)) == x
  {
    TagsOfMembers(Scan(x));
    RoundTripPieces(Scan(x));
  }

  lemma {:induction false} JoinedAppend(a: seq<Piece>, b: seq<Piece>)
    ensures Joined(a + b) == Joined(a) + Joined(b)
    decreases |a|
  {
    if a == [] {
      assert a + b == b;
    } else {
      assert (a + b)[1..] == a[1..] + b;
      JoinedAppend(a[1..], b);
    }
  }

  /** Copied text joins back to itself and masks to itself. */
  lemma {:induction false} TextsJoined(p: string)
    ensures Joined(Texts(p)) == p && MaskAll(Texts(p)) == p
    ensures forall q | q in Texts(p) :: q.Text?
    decreases |p|
  {
    if p != [] {
      assert Texts(p)[1..] == Texts(p[1..]);
      TextsJoined(p[1..]);
      assert [p[0]] + p[1..] == p;
    }
  }

  /**
   * The round trip inside surrounding text: when the masked text is framed by
   * pre and post (as a serialiser frames a parsed body), postProcess restores
   * the frame and the text, provided the whole holds no masking opener.
   */
  lemma WrappedRoundTrip(pre: string, x: string, post: string)
    requires !Contains(pre + x + post, Opener)
    requires forall t | t in MatchedTags(x) :: '\n' !in t
    ensures PostProcess(pre + PreProcess(x) + post) == pre + x + post
  {
    var ps := Texts(pre) + Scan(x) + Texts(post);
    TextsJoined(pre);
    TextsJoined(post);
    assert Joined(ps) == pre + x + post by {
      JoinedAppend(Texts(pre) + Scan(x), Texts(post));
      JoinedAppend(Texts(pre), Scan(x));
    }
    assert MaskAll(ps) == pre + PreProcess(x) + post by {
      MaskAllAppend(Texts(pre) + Scan(x), Texts(post));
      MaskAllAppend(Texts(pre), Scan(x));
    }
    TagsOfMembers(Scan(x));
    forall q | q in ps && q.Tag?
      ensures IsEsiTag(q.tag) && '\n' !in q.tag
    {
      assert q in Scan(x);
    }
    RoundTripPieces(ps);
  }

  /**
   * Ordinary markup: every "<" is followed by two more characters, neither the
   * "e" of "esi:" (directly or after a "/") nor the "!" of a comment.
   */
  predicate PlainMarkup(p: string) {
    forall i :: 0 <= i < |p| && p[i] == '<' ==> i + 2 < |p| && p[i + 1] != 'e' && p[i + 1] != '!' && p[i + 2] != 'e'
  }

  lemma PlainMarkupTail(p: string)
    requires p != [] && PlainMarkup(p)
    ensures PlainMarkup(p[1..])
  {
    forall i | 0 <= i < |p[1..]| && p[1..][i] == '<'
      ensures i + 2 < |p[1..]| && p[1..][i + 1] != 'e' && p[1..][i + 1] != '!' && p[1..][i + 2] != 'e'
    {
      assert p[i + 1] == '<';
    }
  }

  /** No ESI tag starts at the front of ordinary markup followed by anything. */
  lemma PlainMarkupNoTag(p: string, rest: string)
    requires p != [] && PlainMarkup(p)
    ensures TagAt(p + rest).None?
  {
    var s := p + rest;
    if s[0] == '<' {
      assert p[0] == '<';
      assert s[1] == p[1] && s[2] == p[2];
      if s[1] == '/' {
        assert |s| >= 7 ==> s[2..6][0] == s[2];
      } else {
        assert |s| >= 6 ==> s[1..5][0] == s[1];
      }
    }
  }

  /** Ordinary markup passes through preProcess unchanged. */
  lemma {:induction false} PreProcessPlain(p: string, rest: string)
    requires PlainMarkup(p)
    ensures PreProcess(p + rest) == p + PreProcess(rest)
    decreases |p|
  {
    if p == [] {
      assert p + rest == rest;
    } else {
      var q := p[1..] + rest;
      assert PreProcess(p + rest) == [p[0]] + PreProcess(q) by {
        PlainMarkupNoTag(p, rest);
        assert p + rest == [p[0]] + q;
        PreProcessText(p[0], q);
      }
      PlainMarkupTail(p);
      PreProcessPlain(p[1..], rest);
      AppendAssoc([p[0]], p[1..], PreProcess(rest));
      ConsTail(p);
    }
  }

  /** Ordinary markup passes through postProcess unchanged. */
  lemma {:induction false} PostProcessPlain(p: string, rest: string)
    requires PlainMarkup(p)
    ensures PostProcess(p + rest) == p + PostProcess(rest)
    decreases |p|
  {
    if p == [] {
      assert p + rest == rest;
    } else {
      var s := p + rest;
      var q := p[1..] + rest;
      assert PostProcess(s) == [p[0]] + PostProcess(q) by {
        assert s[0] == p[0];
        if p[0] == '<' {
          assert s[1] == p[1] != Opener[1];
          assert |s| > |Opener| ==> s[..|Opener|][1] == s[1];
        } else {
          assert |s| > |Opener| ==> s[..|Opener|][0] == s[0];
        }
        assert UnwrapAt(s).None?;
        PostProcessSkip(s);
        ConsSplit(p, rest);
      }
      PlainMarkupTail(p);
      PostProcessPlain(p[1..], rest);
      AppendAssoc([p[0]], p[1..], PostProcess(rest));
      ConsTail(p);
    }
  }

  /** A text that holds pat also holds every suffix of pat. */
  lemma ContainsPart(s: string, pat: string, k: nat)
    requires k <= |pat|
    ensures Contains(s, pat) ==> Contains(s, pat[k..])
  {
    if Contains(s, pat) {
      var i: nat :| i <= |s| && OccursAt(s, pat, i);
      assert s[i + k..i + |pat|] == s[i..i + |pat|][k..];
      assert OccursAt(s, pat[k..], i + k);
    }
  }

  /** The round trip under the condition the design states: the marker itself does not occur in x. */
  lemma RoundTripWithoutMarker(x: string)
    requires !Contains(x, CommentPrefix)
    requires forall t | t in MatchedTags(x) :: '\n' !in t
    ensures PostProcess(PreProcess(x)) == x
  {
    assert Opener[4..] == CommentPrefix;
    ContainsPart(x, Opener, 4);
    RoundTrip(x);
  }

  lemma {:induction false} FindCloserBlocked(s: string, from: nat, q: nat)
    requires from <= q < |s| && s[q] == '\n'
    requires forall p :: from <= p <= q ==> !CloserAt(s, p)
    ensures FindCloser(s, from).None?
    decreases q - from
  {
    if from < q {
      FindCloserBlocked(s, from + 1, q);
    }
  }

  lemma UnwrapBlockedInLayout(s: string, t: string, q: nat)
    requires IsEsiTag(t) && q < |t| && t[q] == '\n' && MaskLayout(s, t, []) && s[..|Opener|] == Opener
    ensures UnwrapAt(s).None?
  {
    var o := |Opener|;
    forall p | o + 1 <= p <= o + q ensures !CloserAt(s, p) {
      if p + 2 <= o + q {
        assert s[p + 2] == t[p + 2 - o] == t[..|t| - 1][p + 2 - o];
      } else if p + 1 == o + q {
        assert s[p + 1] == t[q];
      } else {
        assert s[p] == t[q];
      }
    }
    FindCloserBlocked(s, o + 1, o + q);
  }

  /** A masking comment whose tag spans a line feed is not matched by the unmasking pattern. */
  lemma UnwrapBlockedByLineFeed(t: string, q: nat)
    requires IsEsiTag(t) && q < |t| && t[q] == '\n'
    ensures UnwrapAt(Mask(t)).None?
  {
    MaskLayoutAlone(t);
    UnwrapBlockedInLayout(Mask(t), t, q);
  }

  /** A tag followed by "-->" that holds no other "<" passes through postProcess unchanged. */
  lemma PostProcessKeepsTag(t: string)
    requires IsEsiTag(t) && '<' !in t[1..]
    ensures PostProcess(t + Closer) == t + Closer
  {
    var u := t + Closer;
    var tail := t[1..] + Closer;
    assert UnwrapAt(u).None? by {
      EsiTagSecond(t);
      assert u[1] == t[1];
      assert |u| > |Opener| ==> u[..|Opener|][1] == u[1];
    }
    assert PostProcess(tail) == tail by {
      PostProcessCopies(tail, []);
      assert tail + [] == tail;
    }
    calc {
      PostProcess(u);
      { PostProcessSkip(u); }
      [u[0]] + PostProcess(u[1..]);
      { assert u[1..] == tail; }
      [t[0]] + (t[1..] + Closer);
      { AppendAssoc([t[0]], t[1..], Closer); }
      ([t[0]] + t[1..]) + Closer;
      { ConsTail(t); }
      u;
    }
  }

  /** The character after the "<" of an ESI tag is the "/" of a closing tag or the "e" of "esi:". */
  lemma EsiTagSecond(t: string)
    requires IsEsiTag(t)
    ensures t[1] == '/' || t[1] == 'e'
  {
    if t[1] != '/' {
      assert t[1..5][0] == t[1];
    }
  }

  /** A masking comment that postProcess does not match is copied as it is. */
  lemma PostProcessKeepsMask(t: string)
    requires IsEsiTag(t) && '<' !in t[1..] && UnwrapAt(Mask(t)).None?
    ensures PostProcess(Mask(t)) == Mask(t)
  {
    var s := Mask(t);
    var u := t + Closer;
    var head := Opener[1..];
    assert PostProcess(head + u) == head + u by {
      PostProcessKeepsTag(t);
      OpenerTailHasNoLt();
      PostProcessCopies(head, u);
    }
    assert s == Opener + u by {
      AppendAssoc(Opener, t, Closer);
    }
    ConsSplit(Opener, u);
    calc {
      PostProcess(s);
      { PostProcessSkip(s); }
      [s[0]] + PostProcess(s[1..]);
      [s[0]] + (head + u);
      { ConsTail(s); }
      s;
    }
  }

  /**
   * Without the line-feed condition the round trip fails: a matched tag that
   * spans a line feed is masked, but postProcess leaves its comment in place.
   */
  lemma LineFeedInTagStaysMasked(t: string)
    requires IsEsiTag(t) && '\n' in t && '<' !in t[1..]
    ensures PreProcess(t) == Mask(t)
    ensures PostProcess(PreProcess(t)) == Mask(t) != t
  {
    PreProcessTag(t, []);
    assert t + [] == t;
    var q :| 0 <= q < |t| && t[q] == '\n';
    UnwrapBlockedByLineFeed(t, q);
    PostProcessKeepsMask(t);
  }

  /** Text that looks like a masking comment around a lowercase word holds no ESI tag. */
  lemma PreProcessKeepsLookalike(inner: string)
    requires forall i :: 0 <= i < |inner| ==> IsLower(inner[i])
    ensures PreProcess(Opener + inner + Closer) == Opener + inner + Closer
  {
    var x := Opener + inner + Closer;
    var tail := Opener[1..] + inner + Closer;
    assert x == ['<'] + tail by {
      ConsTail(Opener);
      assert Opener[0] == '<';
    }
    assert TagAt(['<'] + tail).None? by {
      assert (['<'] + tail)[1..5][0] == tail[0] == '!';
    }
    assert '<' !in tail by {
      OpenerTailHasNoLt();
      forall i | 0 <= i < |inner| ensures inner[i] != '<' { assert IsLower(inner[i]); }
    }
    calc {
      PreProcess(x);
      { PreProcessText('<', tail); }
      ['<'] + PreProcess(tail);
      { PreProcessCopies(tail, []); assert tail + [] == tail; }
      ['<'] + (tail + PreProcess([]));
      x;
    }
  }

  lemma LowercaseRestorable(inner: string)
    requires inner != [] && forall i :: 0 <= i < |inner| ==> IsLower(inner[i])
    ensures Restorable(inner)
  {
    forall i | 0 <= i < |inner| ensures inner[i] != '\n' && inner[i] != '>' { assert IsLower(inner[i]); }
    assert forall i :: 0 <= i < |inner| - 1 ==> inner[..|inner| - 1][i] == inner[i];
  }

  /** postProcess unwraps a masking comment around a lowercase word to the word. */
  lemma PostProcessUnwrapsLookalike(inner: string)
    requires inner != [] && forall i :: 0 <= i < |inner| ==> IsLower(inner[i])
    ensures PostProcess(Opener + inner + Closer) == inner
  {
    LowercaseRestorable(inner);
    MaskLayoutAlone(inner);
    UnwrapMasked(Mask(inner), inner, []);
    PostProcessLayout(Mask(inner), inner, []);
    assert inner + PostProcess([]) == inner;
  }

  /**
   * Without the opener condition the round trip fails: input that already
   * looks like a masking comment is left alone by preProcess and unwrapped by
   * postProcess.
   */
  lemma OpenerInInputIsUnmasked(inner: string)
    requires inner != [] && forall i :: 0 <= i < |inner| ==> IsLower(inner[i])
    ensures var x := Opener + inner + Closer;
            PreProcess(x) == x && PostProcess(PreProcess(x)) == inner != x
  {
    PreProcessKeepsLookalike(inner);
    PostProcessUnwrapsLookalike(inner);
  }
}
