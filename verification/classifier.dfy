/** The four-way token test of `formatHtml` (src/utils/format.ts,
    lines 14, 19 and 23): closing tag, void tag, opening tag, or text.
    The tests apply to every token, whether the split produced it as a
    tag or as text between tags.
 */
module Classifier {
  import opened Strings

  datatype Kind = Closing | Void | Opening | Text

  /** The element names in the pattern `/<(img|br|hr|input)[^>]*>/`. */
  const VoidNames: seq<string> := ["img", "br", "hr", "input"]

  /** A match of `<name[^>]*>` begins at position `k` of `t`: `<`, the
      name (case-sensitive, with no word boundary after it), and a `>`
      somewhere after the name. */
  predicate VoidMatchAt(t: string, k: nat, name: string) {
    && k + 1 + |name| <= |t|
    && t[k] == '<'
    && t[k + 1..k + 1 + |name|] == name
    && '>' in t[k + 1 + |name|..]
  }

  /** `t.match(/<(img|br|hr|input)[^>]*>/)` is not null: a match begins
      somewhere in `t`. */
  predicate MatchesVoidPattern(t: string) {
    exists k, i | 0 <= k < |t| && 0 <= i < |VoidNames| :: VoidMatchAt(t, k, VoidNames[i])
  }

  /** `token.startsWith('</')`, tested character by character. */
  predicate ClosingHead(t: string) {
    |t| >= 2 && t[0] == '<' && t[1] == '/'
  }

  /** `token.startsWith('<')`. */
  predicate TagHead(t: string) {
    |t| >= 1 && t[0] == '<'
  }

  /** `token.endsWith('/>')`. */
  predicate SelfClosingTail(t: string) {
    |t| >= 2 && t[|t| - 2] == '/' && t[|t| - 1] == '>'
  }

  /** The tag name (what follows `<`) begins with `img`, `br`, `hr` or
      `input`; nothing is required after the name. */
  predicate StartsWithVoidName(u: string) {
    exists i | 0 <= i < |VoidNames| :: StartsWith(u, VoidNames[i])
  }

  /** The kind of a token; the closing test comes first. */
  function Classify(t: string): Kind
  {
    if ClosingHead(t) then Closing
    else if TagHead(t) && (SelfClosingTail(t) || MatchesVoidPattern(t)) then Void
    else if TagHead(t) then Opening
    else Text
  }

  /** The character tests agree with the prefix and suffix tests the
      source applies to the token. */
  lemma AffixTests(t: string)
    ensures ClosingHead(t) <==> StartsWith(t, "</")
    ensures TagHead(t) <==> StartsWith(t, "<")
    ensures SelfClosingTail(t) <==> EndsWith(t, "/>")
  {
    if |t| >= 2 {
      assert t[..2] == [t[0], t[1]];
      assert t[|t| - 2..] == [t[|t| - 2], t[|t| - 1]];
    }
    if |t| >= 1 {
      assert t[..1] == [t[0]];
    }
  }

  /** Exactly the tokens that do not start with `<` are text. */
  lemma TextIffNoAngle(t: string)
    ensures Classify(t) == Text <==> (t == [] || t[0] != '<')
  {
  }

  /** A name of the void pattern inside a longer name still counts:
      `<brand>` is void. */
  lemma BrandIsVoid()
    ensures Classify("<brand>") == Void
  {
    assert "<brand>"[3..][3] == '>';
    assert VoidMatchAt("<brand>", 0, VoidNames[1]);
  }

  /** The void pattern is case-sensitive: `<BR>` opens a level. */
  lemma UpperCaseBrIsOpening()
    ensures Classify("<BR>") == Opening
  {
    forall k, i | 0 <= k < 4 && 0 <= i < |VoidNames|
      ensures !VoidMatchAt("<BR>", k, VoidNames[i])
    {
      if k == 0 && k + 1 + |VoidNames[i]| <= 4 {
        assert "<BR>"[1..1 + |VoidNames[i]|][0] != VoidNames[i][0];
      }
    }
  }

  /** The void pattern needs a `>` after the name: a bare `<br` opens a level. */
  lemma UnclosedBrIsOpening()
    ensures Classify("<br") == Opening
  {
    forall k, i | 0 <= k < 3 && 0 <= i < |VoidNames|
      ensures !VoidMatchAt("<br", k, VoidNames[i])
    {
      if k == 0 && k + 1 + |VoidNames[i]| <= 3 {
        assert "<br"[1..1 + |VoidNames[i]|][0] == 'b';
      }
    }
  }

  /** The void pattern may match anywhere in the token, not only at its
      start. The split yields `<a<br>` as one tag, because a tag runs
      from a `<` to the first `>`, and that tag is void. */
  lemma LaterBrIsVoid()
    ensures Classify("<a<br>") == Void
  {
    assert "<a<br>"[5..][0] == '>';
    assert VoidMatchAt("<a<br>", 2, VoidNames[1]);
  }

  /** The closing test comes first, so `</br>` is a closing tag. */
  lemma ClosingBrIsClosing()
    ensures Classify("</br>") == Closing
  {
  }

  /** A self-closing tag of any name is void. */
  lemma SelfClosingIsVoid()
    ensures Classify("<p/>") == Void
  {
  }

  /** A token that starts with `<` and holds no second `<`, and that is
      neither a closing tag nor self-closing, opens a level when its name
      does not begin with `img`, `br`, `hr` or `input`. Unlike
      `ClassifyTag`, the token need not end in `>`. */
  lemma PlainOpeningTag(t: string)
    requires t != [] && t[0] == '<' && !ClosingHead(t) && '<' !in t[1..]
    requires !SelfClosingTail(t) && !StartsWithVoidName(t[1..])
    ensures Classify(t) == Opening
  {
    if MatchesVoidPattern(t) {
      var k, i :| 0 <= k < |t| && 0 <= i < |VoidNames| && VoidMatchAt(t, k, VoidNames[i]);
      MatchIsAtStart(t, k, VoidNames[i]);
    }
  }

  /** A name that shares only its first letters with a void name opens a
      level: `<ins>` is neither `img` nor `input`. */
  lemma InsIsOpening()
    ensures Classify("<ins>") == Opening
  {
    var t := "<ins>";
    assert !StartsWith(t[1..], VoidNames[0]) by {
      assert t[1..][..3][1] != VoidNames[0][1];
    }
    assert !StartsWith(t[1..], VoidNames[3]);
    assert !StartsWith(t[1..], VoidNames[1]) && !StartsWith(t[1..], VoidNames[2]) by {
      assert t[1..][..2][0] == 'i';
    }
    PlainOpeningTag(t);
  }

  /** A name whose first letter is none of `i`, `b`, `h` begins with no
      void name. */
  lemma OtherInitial(t: string)
    requires |t| >= 2 && t[1] != 'i' && t[1] != 'b' && t[1] != 'h'
    ensures !StartsWithVoidName(t[1..])
  {
    forall i | 0 <= i < |VoidNames|
      ensures !StartsWith(t[1..], VoidNames[i])
    {
      assert VoidNames[i][0] in "ibh";
    }
  }

  /** A tag that is not a closing tag and holds no second `<` is void
      exactly when it is self-closing or its name begins with a void
      name, and opens a level otherwise. */
  lemma ClassifyTag(t: string)
    requires |t| >= 2 && t[0] == '<' && t[|t| - 1] == '>'
    requires !ClosingHead(t) && '<' !in t[1..]
    ensures Classify(t) == Void <==> SelfClosingTail(t) || StartsWithVoidName(t[1..])
    ensures Classify(t) == Opening <==> !SelfClosingTail(t) && !StartsWithVoidName(t[1..])
  {
    if StartsWithVoidName(t[1..]) {
      var i :| 0 <= i < |VoidNames| && StartsWith(t[1..], VoidNames[i]);
      VoidNameMatches(t, VoidNames[i]);
    }
    if MatchesVoidPattern(t) {
      var k, i :| 0 <= k < |t| && 0 <= i < |VoidNames| && VoidMatchAt(t, k, VoidNames[i]);
      MatchIsAtStart(t, k, VoidNames[i]);
      assert StartsWith(t[1..], VoidNames[i]);
    }
  }

  /** A void name right after the leading `<` of a tag is a match of the
      void pattern: the name holds no `>`, so the tag's closing `>` comes
      after it. */
  lemma VoidNameMatches(t: string, name: string)
    requires |t| >= 2 && t[0] == '<' && t[|t| - 1] == '>'
    requires name in VoidNames && StartsWith(t[1..], name)
    ensures VoidMatchAt(t, 0, name)
  {
    assert '>' !in name;
    assert t[1..1 + |name|] == t[1..][..|name|];
    assert t[|t| - 1] == t[1 + |name|..][|t| - 2 - |name|];
  }

  /** With no `<` after the first character, a match can only start there. */
  lemma MatchIsAtStart(t: string, k: nat, name: string)
    requires k < |t| && '<' !in t[1..] && VoidMatchAt(t, k, name)
    ensures k == 0 && t[1..][..|name|] == name
  {
    assert t[1..][..|name|] == t[1..1 + |name|];
  }
}
