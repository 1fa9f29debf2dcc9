/** Worked examples of `formatHtml`, including the input on which the
    source throws. */
module Examples {
  import opened Results
  import opened Strings
  import opened Tokenizer
  import opened Classifier
  import opened Formatter
  import opened Clamped

  lemma IndentLevels()
    ensures Indent(0) == [] && Indent(1) == "  " && Indent(2) == "    "
  {
  }

  /** A closing tag prints after its decrement, floored at zero. */
  lemma ClosingStep(depth: int, t: string)
    requires Classify(t) == Closing
    ensures Step(depth, t) == Success((Indent(Max(0, depth - 1)) + t + "\n", depth - 1))
  {
  }

  // ---- `</p><p>`: the input on which the source throws ----

  lemma UnderflowText()
    ensures "</p>" + "<p>" == "</p><p>"
  {
  }

  lemma TokensUnderflow()
    ensures Tokens("</p><p>") == ["</p>", "<p>"]
  {
    UnderflowText();
    TwoTagTokens("</p>", "<p>");
  }

  lemma FoldUnderflow()
    ensures Fold(["</p>", "<p>"]) == Failure(RangeError(-1))
  {
    var ts := ["</p>", "<p>"];
    IndentLevels();
    OtherInitial("<p>");
    PlainOpeningTag("<p>");
    ClosingStep(0, "</p>");
    assert Max(0, -1) == 0 && Indent(0) + "</p>" + "\n" == "</p>\n";
    assert ts[..0] == [];
    FoldNext(ts, 0, State([], 0));
    assert [] + "</p>\n" == "</p>\n";
    assert ts[..1] == ["</p>"];
    FoldNext(ts, 1, State("</p>\n", -1));
    assert ts[..2] == ts;
  }

  /** `</p><p>`: the closing tag drives the counter to -1, and the opening
      tag after it calls `tab.repeat(-1)`, which throws `RangeError`. */
  lemma UnderflowThrows()
    ensures Format("</p><p>") == Failure(RangeError(-1))
  {
    TokensUnderflow();
    FoldUnderflow();
  }

  lemma FoldClampedUnderflow()
    ensures FoldClamped(["</p>", "<p>"]) == ("</p>\n<p>\n", 1)
  {
    OtherInitial("<p>");
    PlainOpeningTag("<p>");
    FoldClampedTwo("</p>", "<p>");
    UnderflowLines();
  }

  lemma UnderflowLines()
    ensures "</p>" + "\n" + "<p>" + "\n" == "</p>\n<p>\n"
  {
  }

  /** A closing tag then an opening tag, under the corrected counter. */
  lemma FoldClampedTwo(c: string, o: string)
    requires Classify(c) == Closing && Classify(o) == Opening
    ensures FoldClamped([c, o]) == (c + "\n" + o + "\n", 1)
  {
    var ts := [c, o];
    assert ts[..0] == [] && ts[..1] == [c] && ts[..2] == ts;
    assert [] + (c + "\n") == c + "\n";
    assert (c + "\n") + (o + "\n") == c + "\n" + o + "\n";
    IndentLevels();
    assert Shown(c) == c && Shown(o) == o;
    assert [] + c == c && [] + o == o;
    assert StepClamped(0, c) == (c + "\n", 0);
    assert StepClamped(0, o) == (o + "\n", 1);
    FoldClampedNext(ts, 0);
    FoldClampedNext(ts, 1);
  }

  lemma TrimTwoLines()
    ensures Trim("</p>\n<p>\n") == "</p>\n<p>"
  {
    var s := "</p>\n<p>";
    assert !IsSpace(s[0]) && !IsSpace(s[|s| - 1]);
    TrimUntouched(s, "</p>\n<p>\n");
  }

  /** The corrected formatter prints the same input on two unindented lines. */
  lemma UnderflowClamped()
    ensures FormatClamped("</p><p>") == "</p>\n<p>"
  {
    TokensUnderflow();
    FoldClampedUnderflow();
    var out := FoldClamped(Tokens("</p><p>")).0;
    assert out == "</p>\n<p>\n";
    TrimTwoLines();
  }

  // ---- generic steps the examples below are built from ----

  /** A lone tag is the only token. */
  lemma TokensTag(tag: string)
    requires IsTag(tag)
    ensures Tokens(tag) == [tag]
  {
    assert tag + [] == tag;
    TokensAfterTag(tag, []);
    TokensPlainText([]);
  }

  /** Text without `<` followed by a tag: both are tokens. */
  lemma TokensTextTag(text: string, tag: string)
    requires '<' !in text && !IsBlank(text) && IsTag(tag)
    ensures Tokens(text + tag) == [text, tag]
  {
    assert text + tag + [] == text + tag;
    TokensAfterText(text, tag, []);
    TokensPlainText([]);
  }

  /** One more token that prints, at a depth where it cannot throw: the
      fold of `ts' == ts + [t]` adds the token's line and moves the
      counter by the token's kind. */
  lemma FoldEmit(ts: seq<string>, t: string, ts': seq<string>, st: State, st': State)
    requires ts' == ts + [t] && Fold(ts) == Success(st) && Emits(t)
    requires st.depth >= 0 || Classify(t) == Closing
    requires st' == State(
      st.out + Line(Max(0, st.depth + (if Classify(t) == Closing then -1 else 0)), t),
      st.depth + Delta(Classify(t)))
    ensures Fold(ts') == Success(st')
  {
    var level := Max(0, st.depth + (if Classify(t) == Closing then -1 else 0));
    var step := Step(st.depth, t);
    assert step == Success((Line(level, t), st.depth + Delta(Classify(t))));
    FoldSnoc(ts, t, st);
  }

  /** The result when the tokens fold to one line per token. */
  lemma FormatOf(html: string, depth: int, s: string)
    requires Fold(Tokens(html)) == Success(State(s + "\n", depth))
    requires s != [] && !IsSpace(s[0]) && !IsSpace(s[|s| - 1])
    ensures Format(html) == Success(s)
  {
    TrimUntouched(s, s + "\n");
  }

  // ---- an element around one void tag or one text ----

  lemma WrappedTokens(open: string, inner: string, close: string)
    requires IsTag(open) && IsTag(close)
    requires IsTag(inner) || ('<' !in inner && !IsBlank(inner))
    ensures Tokens(open + inner + close) == [open, inner, close]
  {
    assert open + inner + close == open + (inner + close);
    TokensAfterTag(open, inner + close);
    if IsTag(inner) {
      TokensAfterTag(inner, close);
      TokensTag(close);
    } else {
      TokensTextTag(inner, close);
    }
  }

  predicate Inner(t: string) {
    Classify(t) == Void || (Classify(t) == Text && !IsBlank(t))
  }

  lemma WrappedFold(open: string, inner: string, close: string)
    requires Classify(open) == Opening && Inner(inner) && Classify(close) == Closing
    ensures Fold([open, inner, close]) ==
      Success(State([] + Line(0, open) + Line(1, inner) + Line(0, close), 0))
  {
    assert [] + [open] == [open] && [open] + [inner] == [open, inner];
    assert [open, inner] + [close] == [open, inner, close];
    assert Emits(open) && Emits(close);
    assert Emits(inner) by {
      if Classify(inner) == Text {
        assert Trim(inner) != [];
      }
    }
    var o1 := [] + Line(0, open);
    var o2 := o1 + Line(1, inner);
    FoldEmit([], open, [open], State([], 0), State(o1, 1));
    FoldEmit([open], inner, [open, inner], State(o1, 1), State(o2, 1));
    FoldEmit([open, inner], close, [open, inner, close], State(o2, 1), State(o2 + Line(0, close), 0));
  }

  lemma WrappedOutput(open: string, inner: string, close: string)
    requires Classify(open) == Opening && Classify(close) == Closing
    ensures [] + Line(0, open) + Line(1, inner) + Line(0, close)
      == open + "\n  " + Shown(inner) + "\n" + close + "\n"
  {
    IndentLevels();
    assert Line(0, open) == open + "\n" && Line(0, close) == close + "\n";
    WrappedJoin(open, Shown(inner), close);
  }

  lemma WrappedJoin(a: string, t: string, c: string)
    ensures [] + (a + "\n") + ("  " + t + "\n") + (c + "\n") == a + "\n  " + t + "\n" + c + "\n"
  {
    var p1 := [] + (a + "\n");
    assert p1 == a + "\n";
    var p2 := p1 + ("  " + t + "\n");
    Regroup(a, "  ", t);
    assert p2 == a + "\n  " + t + "\n";
    Regroup(a + "\n  " + t, [], c);
    assert [] + c + "\n" == c + "\n";
  }

  /** An opening tag, one void tag or non-blank text without `<`, and a
      closing tag. */
  predicate Element(open: string, inner: string, close: string) {
    && IsTag(open) && IsTag(close)
    && (IsTag(inner) || ('<' !in inner && !IsBlank(inner)))
    && Classify(open) == Opening && Inner(inner) && Classify(close) == Closing
  }

  /** An element around one void tag or one text prints over three lines,
      the middle one indented by one level. */
  lemma FormatWrapped(open: string, inner: string, close: string)
    requires Element(open, inner, close)
    ensures Format(open + inner + close) == Success(open + "\n  " + Shown(inner) + "\n" + close)
  {
    var s := open + "\n  " + Shown(inner) + "\n" + close;
    WrappedEnds(open, Shown(inner), close, s);
    WrappedRun(open, inner, close);
    FormatOf(open + inner + close, 0, s);
  }

  lemma WrappedEnds(open: string, t: string, close: string, s: string)
    requires IsTag(open) && IsTag(close) && s == open + "\n  " + t + "\n" + close
    ensures s != [] && !IsSpace(s[0]) && !IsSpace(s[|s| - 1])
  {
    Ends(open, "\n  " + t + "\n", close);
    assert s == open + ("\n  " + t + "\n") + close;
  }

  lemma WrappedRun(open: string, inner: string, close: string)
    requires Element(open, inner, close)
    ensures Fold(Tokens(open + inner + close))
      == Success(State(open + "\n  " + Shown(inner) + "\n" + close + "\n", 0))
  {
    WrappedOutput(open, inner, close);
    WrappedFold(open, inner, close);
    WrappedTokens(open, inner, close);
  }

  lemma ImageTag()
    ensures IsTag("<img src=\"x.png\"/>") && Classify("<img src=\"x.png\"/>") == Void
  {
    var t := "<img src=\"x.png\"/>";
    assert SelfClosingTail(t);
  }

  lemma ImageText()
    ensures "<div>" + "<img src=\"x.png\"/>" + "</div>" == "<div><img src=\"x.png\"/></div>"
    ensures "<div>" + "\n  " + "<img src=\"x.png\"/>" + "\n" + "</div>"
      == "<div>\n  <img src=\"x.png\"/>\n</div>"
  {
  }

  /** `<div><img src="x.png"/></div>`: the self-closing tag keeps the
      level of its parent's children and does not deepen it. */
  lemma VoidExample()
    ensures Format("<div><img src=\"x.png\"/></div>")
      == Success("<div>\n  <img src=\"x.png\"/>\n</div>")
  {
    var open, inner, close := "<div>", "<img src=\"x.png\"/>", "</div>";
    ImageText();
    OtherInitial(open);
    PlainOpeningTag(open);
    ImageTag();
    assert Shown(inner) == inner;
    FormatWrapped(open, inner, close);
  }

  lemma WrappedHello()
    ensures "<p>" + "Hello" + "</p>" == "<p>Hello</p>"
    ensures "<p>" + "\n  " + "Hello" + "\n" + "</p>" == "<p>\n  Hello\n</p>"
  {
  }

  /** `<p>Hello</p>`: text sits one level below its element. */
  lemma TextExample()
    ensures Format("<p>Hello</p>") == Success("<p>\n  Hello\n</p>")
  {
    WrappedHello();
    OtherInitial("<p>");
    PlainOpeningTag("<p>");
    HelloText("Hello");
    assert Shown("Hello") == "Hello";
    FormatWrapped("<p>", "Hello", "</p>");
  }
  // ---- blank text between tags is dropped ----

  lemma BlankTokens(open: string, blank: string, close: string)
    requires IsTag(open) && IsTag(close) && IsBlank(blank)
    ensures Tokens(open + blank + close) == [open, close]
  {
    assert '<' !in blank by {
      forall i | 0 <= i < |blank|
        ensures blank[i] != '<'
      {
        assert IsSpace(blank[i]);
      }
    }
    assert open + blank + close == open + (blank + close);
    assert blank + close + [] == blank + close;
    TokensAfterTag(open, blank + close);
    TokensAfterText(blank, close, []);
    TokensPlainText([]);
  }

  lemma BlankFold(open: string, close: string)
    requires Classify(open) == Opening && Classify(close) == Closing
    ensures Fold([open, close]) == Success(State([] + Line(0, open) + Line(0, close), 0))
  {
    assert [] + [open] == [open] && [open] + [close] == [open, close];
    assert Emits(open) && Emits(close);
    FoldEmit([], open, [open], State([], 0), State([] + Line(0, open), 1));
    FoldEmit([open], close, [open, close], State([] + Line(0, open), 1),
      State([] + Line(0, open) + Line(0, close), 0));
  }

  lemma TwoLines(a: string, b: string)
    requires Classify(a) != Text && Classify(b) != Text
    ensures [] + Line(0, a) + Line(0, b) == a + "\n" + b + "\n"
  {
    IndentLevels();
  }

  /** An element holding only white space prints as its two tags on
      consecutive lines. */
  lemma FormatBlank(open: string, blank: string, close: string)
    requires IsTag(open) && IsTag(close) && IsBlank(blank)
    requires Classify(open) == Opening && Classify(close) == Closing
    ensures Format(open + blank + close) == Success(open + "\n" + close)
  {
    var s := open + "\n" + close;
    assert s[0] == open[0] && s[|s| - 1] == close[|close| - 1];
    TwoLines(open, close);
    BlankTokens(open, blank, close);
    BlankFold(open, close);
    TrimUntouched(s, s + "\n");
  }

  lemma BlankText()
    ensures "<p>" + "   " + "</p>" == "<p>   </p>"
    ensures "<p>" + "\n" + "</p>" == "<p>\n</p>"
  {
  }

  /** `<p>   </p>`: the blank text between the tags vanishes. */
  lemma BlankExample()
    ensures Format("<p>   </p>") == Success("<p>\n</p>")
  {
    BlankText();
    OtherInitial("<p>");
    PlainOpeningTag("<p>");
    assert IsBlank("   ") by {
      var b := "   ";
      assert IsSpace(b[0]) && IsSpace(b[1]) && IsSpace(b[2]);
    }
    FormatBlank("<p>", "   ", "</p>");
  }

  // ---- closing tags with nothing open ----

  lemma UnmatchedFold(c1: string, c2: string)
    requires Classify(c1) == Closing && Classify(c2) == Closing
    ensures Fold([c1, c2]) == Success(State([] + Line(0, c1) + Line(0, c2), -2))
  {
    assert [] + [c1] == [c1] && [c1] + [c2] == [c1, c2];
    assert Emits(c1) && Emits(c2);
    FoldEmit([], c1, [c1], State([], 0), State([] + Line(0, c1), -1));
    FoldEmit([c1], c2, [c1, c2], State([] + Line(0, c1), -1),
      State([] + Line(0, c1) + Line(0, c2), -2));
  }

  /** Two adjacent tags are the two tokens. */
  lemma TwoTagTokens(c1: string, c2: string)
    requires IsTag(c1) && IsTag(c2)
    ensures Tokens(c1 + c2) == [c1, c2]
  {
    assert [c1] + [c2] == [c1, c2];
    TokensAfterTag(c1, c2);
    TokensTag(c2);
  }

  /** Closing tags alone never throw: each prints at level zero while the
      counter goes negative. */
  lemma FormatUnmatched(c1: string, c2: string)
    requires IsTag(c1) && IsTag(c2)
    requires Classify(c1) == Closing && Classify(c2) == Closing
    ensures Format(c1 + c2) == Success(c1 + "\n" + c2)
  {
    var s := c1 + "\n" + c2;
    assert s[0] == c1[0] && s[|s| - 1] == c2[|c2| - 1];
    TwoLines(c1, c2);
    TwoTagTokens(c1, c2);
    UnmatchedFold(c1, c2);
    TrimUntouched(s, s + "\n");
  }

  lemma UnmatchedText()
    ensures "</div>" + "</div>" == "</div></div>"
    ensures "</div>" + "\n" + "</div>" == "</div>\n</div>"
  {
  }

  /** `</div></div>`: two lines, both unindented. */
  lemma UnmatchedExample()
    ensures Format("</div></div>") == Success("</div>\n</div>")
  {
    UnmatchedText();
    FormatUnmatched("</div>", "</div>");
  }
  // ---- two nested elements around a text ----

  lemma NestedTokens(a: string, b: string, text: string, cb: string, ca: string)
    requires IsTag(a) && IsTag(b) && IsTag(cb) && IsTag(ca)
    requires '<' !in text && !IsBlank(text)
    ensures Tokens(a + b + text + cb + ca) == [a, b, text, cb, ca]
  {
    assert a + b + text + cb + ca == a + (b + (text + cb + ca));
    assert [a] + ([b] + ([text] + [cb] + [ca])) == [a, b, text, cb, ca];
    TokensAfterTag(a, b + (text + cb + ca));
    TokensAfterTag(b, text + cb + ca);
    TokensAfterText(text, cb, ca);
    TokensTag(ca);
  }

  lemma NestedFoldOpen(a: string, b: string, text: string)
    requires Classify(a) == Opening && Classify(b) == Opening
    requires Classify(text) == Text && !IsBlank(text)
    ensures Fold([a, b, text]) == Success(State([] + Line(0, a) + Line(1, b) + Line(2, text), 2))
  {
    assert [] + [a] == [a] && [a] + [b] == [a, b] && [a, b] + [text] == [a, b, text];
    assert Emits(a) && Emits(b);
    assert Emits(text) by {
      assert Trim(text) != [];
    }
    var o1 := [] + Line(0, a);
    var o2 := o1 + Line(1, b);
    FoldEmit([], a, [a], State([], 0), State(o1, 1));
    FoldEmit([a], b, [a, b], State(o1, 1), State(o2, 2));
    FoldEmit([a, b], text, [a, b, text], State(o2, 2), State(o2 + Line(2, text), 2));
  }

  lemma NestedFold(a: string, b: string, text: string, cb: string, ca: string)
    requires Classify(a) == Opening && Classify(b) == Opening
    requires Classify(text) == Text && !IsBlank(text)
    requires Classify(cb) == Closing && Classify(ca) == Closing
    ensures Fold([a, b, text, cb, ca]) == Success(State(
      [] + Line(0, a) + Line(1, b) + Line(2, text) + Line(1, cb) + Line(0, ca), 0))
  {
    var o3 := [] + Line(0, a) + Line(1, b) + Line(2, text);
    assert [a, b, text] + [cb] == [a, b, text, cb];
    assert [a, b, text, cb] + [ca] == [a, b, text, cb, ca];
    assert Emits(cb) && Emits(ca);
    var o4 := o3 + Line(1, cb);
    NestedFoldOpen(a, b, text);
    FoldEmit([a, b, text], cb, [a, b, text, cb], State(o3, 2), State(o4, 1));
    FoldEmit([a, b, text, cb], ca, [a, b, text, cb, ca], State(o4, 1), State(o4 + Line(0, ca), 0));
  }

  lemma NestedOutput(a: string, b: string, text: string, cb: string, ca: string)
    requires Classify(a) == Opening && Classify(b) == Opening && Classify(text) == Text
    requires Classify(cb) == Closing && Classify(ca) == Closing
    ensures [] + Line(0, a) + Line(1, b) + Line(2, text) + Line(1, cb) + Line(0, ca)
      == a + "\n  " + b + "\n    " + Trim(text) + "\n  " + cb + "\n" + ca + "\n"
  {
    IndentLevels();
    assert Line(0, a) == a + "\n" && Line(0, ca) == ca + "\n";
    NestedJoin(a, b, Trim(text), cb, ca);
  }

  lemma NestedJoin(a: string, b: string, t: string, cb: string, ca: string)
    ensures [] + (a + "\n") + ("  " + b + "\n") + ("    " + t + "\n") + ("  " + cb + "\n") + (ca + "\n")
      == a + "\n  " + b + "\n    " + t + "\n  " + cb + "\n" + ca + "\n"
  {
    var p1 := [] + (a + "\n");
    assert p1 == a + "\n";
    var p2 := p1 + ("  " + b + "\n");
    Regroup(a, "  ", b);
    assert p2 == a + "\n  " + b + "\n";
    var p3 := p2 + ("    " + t + "\n");
    Regroup(a + "\n  " + b, "    ", t);
    assert p3 == a + "\n  " + b + "\n    " + t + "\n";
    var p4 := p3 + ("  " + cb + "\n");
    Regroup(a + "\n  " + b + "\n    " + t, "  ", cb);
    assert p4 == a + "\n  " + b + "\n    " + t + "\n  " + cb + "\n";
    Regroup(a + "\n  " + b + "\n    " + t + "\n  " + cb, [], ca);
    assert [] + ca + "\n" == ca + "\n";
  }

  lemma Ends(a: string, mid: string, c: string)
    requires a != [] && c != []
    ensures (a + mid + c)[0] == a[0]
    ensures (a + mid + c)[|a + mid + c| - 1] == c[|c| - 1]
  {
  }

  /** Appending one more line to text that ends a line. */
  lemma Regroup(x: string, pad: string, t: string)
    ensures x + "\n" + (pad + t + "\n") == x + ("\n" + pad) + t + "\n"
  {
  }

  lemma NestedEnds(a: string, b: string, t: string, cb: string, ca: string, s: string)
    requires IsTag(a) && IsTag(ca)
    requires s == a + "\n  " + b + "\n    " + t + "\n  " + cb + "\n" + ca
    ensures s != [] && !IsSpace(s[0]) && !IsSpace(s[|s| - 1])
  {
    Ends(a, "\n  " + b + "\n    " + t + "\n  " + cb + "\n", ca);
    assert s == a + ("\n  " + b + "\n    " + t + "\n  " + cb + "\n") + ca;
  }

  lemma NestedRun(a: string, b: string, text: string, cb: string, ca: string)
    requires IsTag(a) && IsTag(b) && IsTag(cb) && IsTag(ca)
    requires '<' !in text && !IsBlank(text)
    requires Classify(a) == Opening && Classify(b) == Opening
    requires Classify(cb) == Closing && Classify(ca) == Closing
    ensures Fold(Tokens(a + b + text + cb + ca)) == Success(State(
      a + "\n  " + b + "\n    " + Trim(text) + "\n  " + cb + "\n" + ca + "\n", 0))
  {
    TextIffNoAngle(text);
    NestedOutput(a, b, text, cb, ca);
    NestedFold(a, b, text, cb, ca);
    NestedTokens(a, b, text, cb, ca);
  }

  /** Each open element indents its content by two more spaces; each
      closing tag returns to its opening tag's level; the text `t` is
      printed trimmed. */
  lemma FormatNested(a: string, b: string, text: string, cb: string, ca: string, t: string)
    requires IsTag(a) && IsTag(b) && IsTag(cb) && IsTag(ca)
    requires '<' !in text && !IsBlank(text) && t == Trim(text)
    requires Classify(a) == Opening && Classify(b) == Opening
    requires Classify(cb) == Closing && Classify(ca) == Closing
    ensures Format(a + b + text + cb + ca)
      == Success(a + "\n  " + b + "\n    " + t + "\n  " + cb + "\n" + ca)
  {
    var s := a + "\n  " + b + "\n    " + t + "\n  " + cb + "\n" + ca;
    NestedEnds(a, b, t, cb, ca, s);
    NestedRun(a, b, text, cb, ca);
    FormatOf(a + b + text + cb + ca, 0, s);
  }

  lemma NestedText()
    ensures "<div>" + "<p>" + "Hello" + "</p>" + "</div>" == "<div><p>Hello</p></div>"
    ensures "<div>" + "\n  " + "<p>" + "\n    " + "Hello" + "\n  " + "</p>" + "\n" + "</div>"
      == "<div>\n  <p>\n    Hello\n  </p>\n</div>"
  {
  }

  lemma NestedTags()
    ensures IsTag("<div>") && IsTag("<p>") && IsTag("</p>") && IsTag("</div>")
    ensures Classify("<div>") == Opening && Classify("<p>") == Opening
    ensures Classify("</p>") == Closing && Classify("</div>") == Closing
  {
    OtherInitial("<div>");
    PlainOpeningTag("<div>");
    OtherInitial("<p>");
    PlainOpeningTag("<p>");
  }

  lemma HelloText(text: string)
    requires text == "Hello"
    ensures '<' !in text && !IsBlank(text) && Trim(text) == text
  {
    assert !IsSpace(text[0]) && !IsSpace(text[4]);
    TrimUntouched(text, text + "\n");
  }

  /** `<div><p>Hello</p></div>`: levels 0, 1, 2, 1, 0. */
  lemma NestedExample()
    ensures Format("<div><p>Hello</p></div>") == Success("<div>\n  <p>\n    Hello\n  </p>\n</div>")
  {
    NestedText();
    NestedTags();
    HelloText("Hello");
    FormatNested("<div>", "<p>", "Hello", "</p>", "</div>", "Hello");
  }
}
