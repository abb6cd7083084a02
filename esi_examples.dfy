/**
 * Worked examples from the repository's own test data for the ESI masking
 * protocol, derived from the general lemmas rather than by unfolding the
 * scanners character by character.
 */
module EsiExamples {
  import opened Sequences
  import opened EsiTagProcessor
  import opened EsiProperties

  const Remove: string := "<esi:remove>"
  const EndRemove: string := "</esi:remove>"

  lemma RemoveIsTag()
    ensures IsEsiTag(Remove) && Restorable(Remove)
  {
    assert Remove[..|Remove| - 1] == "<esi:remove";
    assert Remove[1] == 'e' && Remove[2] == 's' && Remove[3] == 'i' && Remove[4] == ':';
    assert Remove[1..5] == "esi:";
  }

  lemma EndRemoveIsTag()
    ensures IsEsiTag(EndRemove) && Restorable(EndRemove)
  {
    assert EndRemove[..|EndRemove| - 1] == "</esi:remove";
    assert EndRemove[2] == 'e' && EndRemove[3] == 's' && EndRemove[4] == 'i' && EndRemove[5] == ':';
    assert EndRemove[2..6] == "esi:";
  }

  lemma MaskLiterals()
    ensures Mask(Remove) == "<!--esi html5-tagrewriter <esi:remove>-->"
    ensures Mask(EndRemove) == "<!--esi html5-tagrewriter </esi:remove>-->"
  {
  }

  /** A tag, a text without "<" and a tag: each tag is masked and the text copied. */
  lemma TagTextTag(a: string, c: string, b: string)
    requires IsEsiTag(a) && IsEsiTag(b) && '<' !in c
    ensures PreProcess(a + c + b) == Mask(a) + c + Mask(b)
  {
    assert PreProcess(b) == Mask(b) by {
      PreProcessTag(b, []);
      assert b + [] == b;
      assert Mask(b) + [] == Mask(b);
    }
    calc {
      PreProcess(a + c + b);
      { AppendAssoc(a, c, b); }
      PreProcess(a + (c + b));
      { PreProcessTag(a, c + b); }
      Mask(a) + PreProcess(c + b);
      { PreProcessCopies(c, b); }
      Mask(a) + (c + Mask(b));
      { AppendAssoc(Mask(a), c, Mask(b)); }
      Mask(a) + c + Mask(b);
    }
  }

  /** The same three pieces come back unchanged from postProcess. */
  lemma TagTextTagRestored(a: string, c: string, b: string)
    requires Restorable(a) && Restorable(b) && '<' !in c
    ensures PostProcess(Mask(a) + c + Mask(b)) == a + c + b
  {
    assert PostProcess(Mask(b)) == b by {
      PostProcessMask(b, []);
      assert Mask(b) + [] == Mask(b);
      assert b + [] == b;
    }
    calc {
      PostProcess(Mask(a) + c + Mask(b));
      { AppendAssoc(Mask(a), c, Mask(b)); }
      PostProcess(Mask(a) + (c + Mask(b)));
      { PostProcessMask(a, c + Mask(b)); }
      a + PostProcess(c + Mask(b));
      { PostProcessCopies(c, Mask(b)); }
      a + (c + b);
      { AppendAssoc(a, c, b); }
      a + c + b;
    }
  }

  lemma ContentHasNoLt()
    ensures '<' !in "content"
  {
  }

  /** "wraps opening and closing tags in separate comments": the text between the tags is copied. */
  lemma OpeningAndClosingTags()
    ensures PreProcess("<esi:remove>content</esi:remove>")
         == "<!--esi html5-tagrewriter <esi:remove>-->" + "content" + "<!--esi html5-tagrewriter </esi:remove>-->"
  {
    assert Remove + "content" + EndRemove == "<esi:remove>content</esi:remove>";
    RemoveIsTag();
    EndRemoveIsTag();
    ContentHasNoLt();
    TagTextTag(Remove, "content", EndRemove);
    MaskLiterals();
  }

  /** "opening and closing tags" round trip: postProcess restores what preProcess masked. */
  lemma OpeningAndClosingRoundTrip()
    ensures PostProcess(PreProcess("<esi:remove>content</esi:remove>")) == "<esi:remove>content</esi:remove>"
  {
    assert Remove + "content" + EndRemove == "<esi:remove>content</esi:remove>";
    RemoveIsTag();
    EndRemoveIsTag();
    ContentHasNoLt();
    TagTextTag(Remove, "content", EndRemove);
    TagTextTagRestored(Remove, "content", EndRemove);
  }

  /** Two tags, each after ordinary markup, and then anything: both tags are masked, the rest is processed on. */
  lemma TwoTagsAfterMarkup(a: string, r: string, b: string, e: string, rest: string)
    requires PlainMarkup(a) && PlainMarkup(b) && IsEsiTag(r) && IsEsiTag(e)
    ensures PreProcess(a + r + b + e + rest) == a + Mask(r) + b + Mask(e) + PreProcess(rest)
  {
    calc {
      PreProcess(a + r + b + e + rest);
      { Regroup(a, r, b, e, rest); }
      PreProcess(a + (r + (b + (e + rest))));
      { PreProcessPlain(a, r + (b + (e + rest))); }
      a + PreProcess(r + (b + (e + rest)));
      { PreProcessTag(r, b + (e + rest)); }
      a + (Mask(r) + PreProcess(b + (e + rest)));
      { PreProcessPlain(b, e + rest); }
      a + (Mask(r) + (b + PreProcess(e + rest)));
      { PreProcessTag(e, rest); }
      a + (Mask(r) + (b + (Mask(e) + PreProcess(rest))));
      { Regroup(a, Mask(r), b, Mask(e), PreProcess(rest)); }
      a + Mask(r) + b + Mask(e) + PreProcess(rest);
    }
  }

  /** The same two masked tags come back from postProcess. */
  lemma TwoTagsAfterMarkupRestored(a: string, r: string, b: string, e: string, rest: string)
    requires PlainMarkup(a) && PlainMarkup(b) && Restorable(r) && Restorable(e)
    ensures PostProcess(a + Mask(r) + b + Mask(e) + rest) == a + r + b + e + PostProcess(rest)
  {
    calc {
      PostProcess(a + Mask(r) + b + Mask(e) + rest);
      { Regroup(a, Mask(r), b, Mask(e), rest); }
      PostProcess(a + (Mask(r) + (b + (Mask(e) + rest))));
      { PostProcessPlain(a, Mask(r) + (b + (Mask(e) + rest))); }
      a + PostProcess(Mask(r) + (b + (Mask(e) + rest)));
      { PostProcessMask(r, b + (Mask(e) + rest)); }
      a + (r + PostProcess(b + (Mask(e) + rest)));
      { PostProcessPlain(b, Mask(e) + rest); }
      a + (r + (b + PostProcess(Mask(e) + rest)));
      { PostProcessMask(e, rest); }
      a + (r + (b + (e + PostProcess(rest))));
      { Regroup(a, r, b, e, PostProcess(rest)); }
      a + r + b + e + PostProcess(rest);
    }
  }

  /** Ordinary markup is its own preProcess and its own postProcess. */
  lemma PlainAlone(p: string)
    requires PlainMarkup(p)
    ensures PreProcess(p) == p && PostProcess(p) == p
  {
    assert p + [] == p;
    PreProcessPlain(p, []);
    PostProcessPlain(p, []);
  }

  /** Two tags between ordinary markup survive the round trip. */
  lemma TwoTagsRoundTrip(a: string, r: string, b: string, e: string, c: string)
    requires PlainMarkup(a) && PlainMarkup(b) && PlainMarkup(c)
    requires IsEsiTag(r) && IsEsiTag(e) && Restorable(r) && Restorable(e)
    ensures PreProcess(a + r + b + e + c) == a + Mask(r) + b + Mask(e) + c
    ensures PostProcess(PreProcess(a + r + b + e + c)) == a + r + b + e + c
  {
    PlainAlone(c);
    TwoTagsAfterMarkup(a, r, b, e, c);
    TwoTagsAfterMarkupRestored(a, r, b, e, c);
  }

  /** Four tags between ordinary markup survive the round trip. */
  lemma FourTagsRoundTrip(a: string, r: string, b: string, e: string, c: string, r2: string, d: string, e2: string, f: string)
    requires PlainMarkup(a) && PlainMarkup(b) && PlainMarkup(c) && PlainMarkup(d) && PlainMarkup(f)
    requires IsEsiTag(r) && IsEsiTag(e) && Restorable(r) && Restorable(e)
    requires IsEsiTag(r2) && IsEsiTag(e2) && Restorable(r2) && Restorable(e2)
    ensures PostProcess(PreProcess(a + r + b + e + c + r2 + d + e2 + f)) == a + r + b + e + c + r2 + d + e2 + f
  {
    var rest := c + r2 + d + e2 + f;
    assert a + r + b + e + c + r2 + d + e2 + f == a + r + b + e + rest by {
      Regroup4(a + r + b + e, c, r2, d, e2, f);
    }
    TwoTagsRoundTrip(c, r2, d, e2, f);
    TwoTagsAfterMarkup(a, r, b, e, rest);
    TwoTagsAfterMarkupRestored(a, r, b, e, PreProcess(rest));
  }

  lemma StartIsPlain()
    ensures PlainMarkup("<p>Start ")
  {
  }

  lemma ContentMoreIsPlain()
    ensures PlainMarkup("content</p><p>more")
  {
  }

  lemma EndIsPlain()
    ensures PlainMarkup(" end</p>")
  {
  }

  /** "handles esi tags spanning html element boundaries": the tags are masked where they stand. */
  lemma SpanningElementBoundaries()
    ensures PreProcess("<p>Start " + "<esi:remove>" + "content</p><p>more" + "</esi:remove>" + " end</p>")
         == "<p>Start " + "<!--esi html5-tagrewriter <esi:remove>-->" + "content</p><p>more"
            + "<!--esi html5-tagrewriter </esi:remove>-->" + " end</p>"
    ensures PostProcess(PreProcess("<p>Start " + "<esi:remove>" + "content</p><p>more" + "</esi:remove>" + " end</p>"))
         == "<p>Start " + "<esi:remove>" + "content</p><p>more" + "</esi:remove>" + " end</p>"
  {
    RemoveIsTag();
    EndRemoveIsTag();
    StartIsPlain();
    ContentMoreIsPlain();
    EndIsPlain();
    TwoTagsRoundTrip("<p>Start ", Remove, "content</p><p>more", EndRemove, " end</p>");
    MaskLiterals();
  }

  lemma PartsArePlain()
    ensures PlainMarkup("<p>") && PlainMarkup("<b>Important:") && PlainMarkup("text")
    ensures PlainMarkup("</b>") && PlainMarkup("</p>")
  {
  }

  /** "esi wrapping partial html" round trip. */
  lemma WrappingPartialHtml()
    ensures var x := "<p>" + "<esi:remove>" + "<b>Important:" + "</esi:remove>" + "text"
                     + "<esi:remove>" + "</b>" + "</esi:remove>" + "</p>";
            PostProcess(PreProcess(x)) == x
  {
    RemoveIsTag();
    EndRemoveIsTag();
    PartsArePlain();
    FourTagsRoundTrip("<p>", Remove, "<b>Important:", EndRemove, "text", Remove, "</b>", EndRemove, "</p>");
  }
}
