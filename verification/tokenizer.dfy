/** The lexical split of `formatHtml` (src/utils/format.ts, line 10):
    `html.split(/(<\/?[^>]+>)/g).filter(token => token.trim())`.

    The pattern matches `<`, at least one character other than `>`, and
    the first `>` after them (the optional slash is absorbed by the
    character class). Splitting with a capturing pattern yields the text
    before the first match, the match itself, the text up to the next
    match, and so on, always ending with a (possibly empty) text piece.
 */
module Tokenizer {
  import opened Results
  import opened Strings

  /** A whole match of the tag pattern. */
  predicate IsTag(t: string) {
    && |t| >= 3
    && t[0] == '<'
    && t[|t| - 1] == '>'
    && '>' !in t[1..|t| - 1]
  }

  /** A match of the tag pattern begins at the head of `u`. */
  predicate StartsTag(u: string) {
    exists k | 0 <= k <= |u| :: IsTag(u[..k])
  }

  /** No match begins at any position of `text` when `rest` follows it. */
  predicate NoTagWithin(text: string, rest: string) {
    forall j | 0 <= j < |text| :: !StartsTag(text[j..] + rest)
  }

  /** Position of the first `c` in `s`. */
  function IndexOf(s: string, c: char): (r: Option<nat>)
    ensures r.Some? ==> r.value < |s| && s[r.value] == c && c !in s[..r.value]
    ensures r.None? ==> c !in s
  {
    if s == [] then None
    else if s[0] == c then Some(0)
    else
      match IndexOf(s[1..], c)
      case None => None
      case Some(i) =>
        assert s[..i + 1] == [s[0]] + s[1..][..i];
        Some(i + 1)
  }

  /** Length of the match at the head of `u`, or 0 when none begins there.
      A match ends at the first `>` after the opening `<`, so at most one
      prefix of `u` is a tag. */
  function TagLength(u: string): (n: nat)
    ensures n <= |u|
  {
    if |u| >= 2 && u[0] == '<' && u[1] != '>' then
      match IndexOf(u[1..], '>')
      case None => 0
      case Some(j) => j + 2
    else
      0
  }

  /** `TagLength` finds the one prefix that is a match, if any. */
  lemma TagLengthExact(u: string)
    ensures forall k | 0 <= k <= |u| :: IsTag(u[..k]) <==> (TagLength(u) > 0 && k == TagLength(u))
  {
    if |u| >= 2 && u[0] == '<' && u[1] != '>' {
      match IndexOf(u[1..], '>')
      case None =>
        TagNeedsClose(u);
      case Some(j) =>
        TagEndsAtFirstClose(u, j + 2);
    } else {
      forall k | 0 <= k <= |u|
        ensures !IsTag(u[..k])
      {
        if k >= 3 {
          assert u[..k][0] == u[0] && u[..k][1] == u[1];
        }
      }
    }
  }

  lemma TagNeedsClose(u: string)
    requires |u| >= 1 && '>' !in u[1..]
    ensures forall k | 0 <= k <= |u| :: !IsTag(u[..k])
  {
    forall k | 0 <= k <= |u|
      ensures !IsTag(u[..k])
    {
      if k >= 3 {
        assert u[..k][k - 1] == u[1..][k - 2];
      }
    }
  }

  lemma TagEndsAtFirstClose(u: string, n: nat)
    requires 3 <= n <= |u| && u[0] == '<' && u[n - 1] == '>' && '>' !in u[1..n - 1]
    ensures forall k | 0 <= k <= |u| :: IsTag(u[..k]) <==> k == n
  {
    assert u[..n][1..n - 1] == u[1..n - 1];
    forall k | 0 <= k <= |u|
      ensures IsTag(u[..k]) <==> k == n
    {
      if 3 <= k < n {
        assert u[..k][k - 1] == u[1..n - 1][k - 2];
      } else if k > n {
        assert u[..k][1..k - 1][n - 2] == u[n - 1];
      }
    }
  }

  lemma TagLengthStartsTag(u: string)
    ensures TagLength(u) > 0 <==> StartsTag(u)
  {
    TagLengthExact(u);
    if TagLength(u) > 0 {
      assert IsTag(u[..TagLength(u)]);
    }
  }

  /** The first position at or after `q` where a match begins, the way
      the split scans its input. */
  function FirstTagFrom(s: string, q: nat): (r: Option<nat>)
    requires q <= |s|
    ensures r.Some? ==> q <= r.value < |s| && TagLength(s[r.value..]) > 0
    ensures r.Some? ==> forall j {:trigger TagLength(s[j..])} | q <= j < r.value :: TagLength(s[j..]) == 0
    ensures r.None? ==> forall j {:trigger TagLength(s[j..])} | q <= j <= |s| :: TagLength(s[j..]) == 0
    decreases |s| - q
  {
    if q == |s| then None
    else if TagLength(s[q..]) > 0 then Some(q)
    else FirstTagFrom(s, q + 1)
  }

  /** `html.split(/(<\/?[^>]+>)/g)`: text and tag pieces alternate,
      starting and ending with a text piece (see `SplitCharacterization`),
      and together they spell out the input. */
  function Split(s: string): (pieces: seq<string>)
    decreases |s|
  {
    match FirstTagFrom(s, 0)
    case None => [s]
    case Some(i) =>
      [s[..i]] + [s[i..i + TagLength(s[i..])]] + Split(s[i + TagLength(s[i..])..])
  }

  /** The pieces spell out the input. */
  lemma {:induction false} SplitFlattens(s: string)
    ensures Flatten(Split(s)) == s
    decreases |s|
  {
    match FirstTagFrom(s, 0)
    case None =>
      assert Flatten([s]) == s;
    case Some(i) =>
      var n := TagLength(s[i..]);
      SplitFirst(s, i, n, Split(s[i + n..]));
      SplitFlattens(s[i + n..]);
      SplitFlatten(s, i, n, Split(s[i + n..]));
  }

  lemma SplitFlatten(s: string, i: nat, n: nat, rest: seq<string>)
    requires i + n <= |s| && Flatten(rest) == s[i + n..]
    ensures Flatten([s[..i], s[i..i + n]] + rest) == s
  {
    FlattenPair(s[..i], s[i..i + n], rest);
    assert s == s[..i] + s[i..i + n] + s[i + n..];
  }

  lemma FlattenPair(a: string, b: string, rest: seq<string>)
    ensures Flatten([a, b] + rest) == a + b + Flatten(rest)
  {
    var p := [a, b] + rest;
    assert p[1..][1..] == rest;
  }

  /** The split pieces, described without the scan: alternating text and
      tag pieces that spell out `s`, every odd piece a whole match, and no
      match starting anywhere inside a text piece. */
  ghost predicate WellSplit(s: string, p: seq<string>) {
    && |p| % 2 == 1
    && Flatten(p) == s
    && (forall k | 0 <= k < |p| && k % 2 == 1 :: IsTag(p[k]))
    && (forall k | 0 <= k < |p| && k % 2 == 0 :: NoTagWithin(p[k], Flatten(p[k + 1..])))
  }

  /** A well split string is a text piece, a tag, and a well split rest. */
  lemma WellSplitTail(s: string, p: seq<string>)
    requires WellSplit(s, p) && |p| >= 3
    ensures s == p[0] + p[1] + Flatten(p[2..])
    ensures IsTag(p[1]) && NoTagWithin(p[0], p[1] + Flatten(p[2..]))
    ensures WellSplit(Flatten(p[2..]), p[2..])
  {
    assert p[1..][1..] == p[2..];
    assert Flatten(p[1..]) == p[1] + Flatten(p[2..]);
    var q := p[2..];
    forall k | 0 <= k < |q| && k % 2 == 1
      ensures IsTag(q[k])
    {
      assert q[k] == p[k + 2];
    }
    forall k | 0 <= k < |q| && k % 2 == 0
      ensures NoTagWithin(q[k], Flatten(q[k + 1..]))
    {
      assert q[k] == p[k + 2] && q[k + 1..] == p[k + 3..];
    }
  }

  lemma WellSplitCons(a: string, b: string, rest: string, q: seq<string>)
    requires WellSplit(rest, q) && IsTag(b) && NoTagWithin(a, b + rest)
    ensures WellSplit(a + b + rest, [a, b] + q)
  {
    var p := [a, b] + q;
    assert p[1..][1..] == q;
    assert Flatten(p[1..]) == b + rest;
    forall k | 0 <= k < |p| && k % 2 == 1
      ensures IsTag(p[k])
    {
      if k > 1 {
        assert p[k] == q[k - 2];
      }
    }
    forall k | 0 <= k < |p| && k % 2 == 0
      ensures NoTagWithin(p[k], Flatten(p[k + 1..]))
    {
      if k > 1 {
        assert p[k] == q[k - 2] && p[k + 1..] == q[k - 1..];
      }
    }
  }

  /** Where the scan finds the first match of a string that begins with
      a match-free text piece followed by a tag. */
  lemma FirstTagAfterText(s: string, a: string, b: string, rest: string)
    requires s == a + b + rest && IsTag(b) && NoTagWithin(a, b + rest)
    ensures FirstTagFrom(s, 0) == Some(|a|)
    ensures TagLength(s[|a|..]) == |b|
    ensures s[..|a|] == a && s[|a|..|a| + |b|] == b && s[|a| + |b|..] == rest
  {
    ThreePieces(s, a, b, rest);
    TagLengthExact(s[|a|..]);
    assert TagLength(s[|a|..]) == |b|;
    forall j | 0 <= j < |a|
      ensures TagLength(s[j..]) == 0
    {
      assert s[j..] == a[j..] + (b + rest);
      TagLengthStartsTag(s[j..]);
    }
  }

  lemma ThreePieces(s: string, a: string, b: string, rest: string)
    requires s == a + b + rest
    ensures s[..|a|] == a && s[|a|..|a| + |b|] == b && s[|a| + |b|..] == rest
    ensures s[|a|..][..|b|] == b
  {
    assert s[|a|..] == b + rest;
  }

  lemma NoTagAnywhere(s: string)
    requires NoTagWithin(s, [])
    ensures FirstTagFrom(s, 0) == None
  {
    forall j | 0 <= j < |s|
      ensures TagLength(s[j..]) == 0
    {
      assert s[j..] + [] == s[j..];
      TagLengthStartsTag(s[j..]);
    }
  }

  /** `Split` produces a well split sequence of pieces. */
  lemma {:induction false} SplitIsWellSplit(s: string)
    ensures WellSplit(s, Split(s))
    decreases |s|
  {
    match FirstTagFrom(s, 0)
    case None =>
      SplitNone(s);
      WellSplitSingle(s);
    case Some(i) =>
      var n := TagLength(s[i..]);
      var q := Split(s[i + n..]);
      SplitFirst(s, i, n, q);
      SplitIsWellSplit(s[i + n..]);
      WellSplitFirstTag(s, i, n, q);
  }

  /** One step of the scan: the text before the first match, the match,
      and the split of what follows. */
  lemma SplitFirst(s: string, i: nat, n: nat, q: seq<string>)
    requires FirstTagFrom(s, 0) == Some(i) && n == TagLength(s[i..])
    requires q == Split(s[i + n..])
    ensures Split(s) == [s[..i], s[i..i + n]] + q
  {
    assert Split(s) == [s[..i]] + [s[i..i + n]] + q;
    PairDisplay(s[..i], s[i..i + n], q);
  }

  lemma SplitNone(s: string)
    requires FirstTagFrom(s, 0).None?
    ensures Split(s) == [s]
  {
  }

  lemma PairDisplay<T>(a: T, b: T, rest: seq<T>)
    ensures [a] + [b] + rest == [a, b] + rest
  {
    assert [a] + [b] == [a, b];
  }

  lemma WellSplitSingle(s: string)
    requires forall j | 0 <= j <= |s| :: TagLength(s[j..]) == 0
    ensures WellSplit(s, [s])
  {
    forall j | 0 <= j < |s|
      ensures !StartsTag(s[j..] + [])
    {
      assert s[j..] + [] == s[j..];
      TagLengthStartsTag(s[j..]);
    }
    assert Flatten([s]) == s;
    assert [s][1..] == [];
  }

  lemma WellSplitFirstTag(s: string, i: nat, n: nat, q: seq<string>)
    requires i + n <= |s| && n == TagLength(s[i..]) && n > 0
    requires forall j | 0 <= j < i :: TagLength(s[j..]) == 0
    requires WellSplit(s[i + n..], q)
    ensures WellSplit(s, [s[..i], s[i..i + n]] + q)
  {
    FirstTagPieces(s, i, n);
    WellSplitCons(s[..i], s[i..i + n], s[i + n..], q);
  }

  /** The text before the first match, and the match itself, cut out of
      the input. */
  lemma FirstTagPieces(s: string, i: nat, n: nat)
    requires i + n <= |s| && n == TagLength(s[i..]) && n > 0
    requires forall j | 0 <= j < i :: TagLength(s[j..]) == 0
    ensures s == s[..i] + s[i..i + n] + s[i + n..]
    ensures IsTag(s[i..i + n]) && NoTagWithin(s[..i], s[i..i + n] + s[i + n..])
  {
    var a, b, rest := s[..i], s[i..i + n], s[i + n..];
    assert s == a + b + rest;
    assert s[i..][..n] == b;
    TagLengthExact(s[i..]);
    forall j | 0 <= j < |a|
      ensures !StartsTag(a[j..] + (b + rest))
    {
      assert a[j..] + (b + rest) == s[j..];
      TagLengthStartsTag(s[j..]);
    }
  }

  /** A well split sequence of pieces is the one `Split` produces. */
  lemma {:induction false} WellSplitIsSplit(s: string, p: seq<string>)
    requires WellSplit(s, p)
    ensures p == Split(s)
    decreases |p|
  {
    if |p| == 1 {
      assert s == p[0];
      NoTagAnywhere(s);
    } else {
      WellSplitTail(s, p);
      var rest := Flatten(p[2..]);
      FirstTagAfterText(s, p[0], p[1], rest);
      SplitFirst(s, |p[0]|, |p[1]|, Split(rest));
      WellSplitIsSplit(rest, p[2..]);
      assert p == [p[0], p[1]] + p[2..];
    }
  }

  /** The split pieces are exactly the well split sequence: a tag runs
      from a `<` to the first following `>` with at least one character
      between them, the text pieces between tags are maximal, and the
      pieces concatenate back to the input. */
  lemma SplitCharacterization(s: string, p: seq<string>)
    ensures WellSplit(s, p) <==> p == Split(s)
  {
    SplitIsWellSplit(s);
    if WellSplit(s, p) {
      WellSplitIsSplit(s, p);
    }
  }

  /** Without a `<`, no match can begin inside a piece of text. */
  lemma PlainTextHasNoTag(text: string, rest: string)
    requires '<' !in text
    ensures NoTagWithin(text, rest)
  {
    forall j | 0 <= j < |text|
      ensures !StartsTag(text[j..] + rest)
    {
      var u := text[j..] + rest;
      assert u[0] == text[j];
      forall k | 0 <= k <= |u|
        ensures !IsTag(u[..k])
      {
        if k > 0 {
          assert u[..k][0] == u[0];
        }
      }
    }
  }

  /** Tags alternating with text pieces that contain no `<` split back
      into exactly those pieces. */
  lemma SplitOfAlternation(p: seq<string>)
    requires |p| % 2 == 1
    requires forall k | 0 <= k < |p| && k % 2 == 1 :: IsTag(p[k])
    requires forall k | 0 <= k < |p| && k % 2 == 0 :: '<' !in p[k]
    ensures Split(Flatten(p)) == p
  {
    forall k | 0 <= k < |p| && k % 2 == 0
      ensures NoTagWithin(p[k], Flatten(p[k + 1..]))
    {
      PlainTextHasNoTag(p[k], Flatten(p[k + 1..]));
    }
    SplitCharacterization(Flatten(p), p);
  }

  /** Text without `<` is a single piece. */
  lemma SplitPlainText(text: string)
    requires '<' !in text
    ensures Split(text) == [text]
  {
    PlainTextHasNoTag(text, []);
    assert Flatten([text]) == text;
    assert [text][1..] == [];
    SplitCharacterization(text, [text]);
  }

  /** Splitting peels off a leading text piece without `<` and the tag
      after it, and goes on with the rest independently. */
  lemma SplitAfterText(text: string, tag: string, rest: string)
    requires '<' !in text && IsTag(tag)
    ensures Split(text + tag + rest) == [text, tag] + Split(rest)
  {
    SplitIsWellSplit(rest);
    PlainTextHasNoTag(text, tag + rest);
    WellSplitCons(text, tag, rest, Split(rest));
    SplitCharacterization(text + tag + rest, [text, tag] + Split(rest));
  }

  /** `.filter(token => token.trim())`: keeps, in order, the pieces that
      are not blank. */
  function KeepNonBlank(pieces: seq<string>): (r: seq<string>)
    ensures |r| <= |pieces|
    ensures forall i | 0 <= i < |r| :: !IsBlank(r[i])
    ensures forall t :: t in r <==> t in pieces && !IsBlank(t)
  {
    if pieces == [] then []
    else if IsBlank(pieces[0]) then KeepNonBlank(pieces[1..])
    else [pieces[0]] + KeepNonBlank(pieces[1..])
  }

  /** Filtering distributes over concatenation: it keeps the order. */
  lemma {:induction false} KeepNonBlankAppend(a: seq<string>, b: seq<string>)
    ensures KeepNonBlank(a + b) == KeepNonBlank(a) + KeepNonBlank(b)
    decreases |a|
  {
    if a == [] {
      assert a + b == b;
    } else {
      assert (a + b)[1..] == a[1..] + b;
      KeepNonBlankAppend(a[1..], b);
    }
  }

  /** The tokens `formatHtml` iterates over. */
  function Tokens(html: string): (ts: seq<string>)
  {
    KeepNonBlank(Split(html))
  }

  /** Tokenizing peels off a leading text piece without `<` (dropped
      when blank) and the tag after it. */
  lemma TokensAfterText(text: string, tag: string, rest: string)
    requires '<' !in text && IsTag(tag)
    ensures Tokens(text + tag + rest) ==
      (if IsBlank(text) then [] else [text]) + [tag] + Tokens(rest)
  {
    SplitAfterText(text, tag, rest);
    KeepNonBlankAppend([text, tag], Split(rest));
    KeepTextAndTag(text, tag);
  }

  /** A tag at the head of the input is the first token. */
  lemma TokensAfterTag(tag: string, rest: string)
    requires IsTag(tag)
    ensures Tokens(tag + rest) == [tag] + Tokens(rest)
  {
    assert [] + tag + rest == tag + rest;
    TokensAfterEmpty(tag, rest);
  }

  lemma TokensAfterEmpty(tag: string, rest: string)
    requires IsTag(tag)
    ensures Tokens([] + tag + rest) == [tag] + Tokens(rest)
  {
    TokensAfterText([], tag, rest);
  }

  lemma KeepTextAndTag(text: string, tag: string)
    requires IsTag(tag)
    ensures KeepNonBlank([text, tag]) == (if IsBlank(text) then [] else [text]) + [tag]
  {
    assert !IsSpace(tag[0]);
    assert [text, tag][1..] == [tag] && [tag][1..] == [];
  }

  /** Text without `<` yields itself as the only token, or none when blank. */
  lemma TokensPlainText(text: string)
    requires '<' !in text
    ensures Tokens(text) == if IsBlank(text) then [] else [text]
  {
    SplitPlainText(text);
    assert [text][1..] == [];
  }

  /** Exactly the blank inputs have no tokens. */
  lemma TokensEmpty(html: string)
    ensures Tokens(html) == [] <==> IsBlank(html)
  {
    var p := Split(html);
    FlattenBlank(p);
    if Tokens(html) == [] {
      forall i | 0 <= i < |p|
        ensures IsBlank(p[i])
      {
        assert p[i] in p;
      }
    } else {
      assert Tokens(html)[0] in p;
    }
  }
}
