/** `formatHtml` (src/utils/format.ts, lines 4-37): a fold over the tokens
    with an integer counter `indent`, emitting one line per token, and a
    final trim.

    The counter is never clamped: a closing tag decrements it even below
    zero and only its own printed indentation is floored at zero. Any
    other token printed while the counter is negative calls
    `'  '.repeat` with a negative count, which throws `RangeError`.
 */
module Formatter {
  import opened Results
  import opened Strings
  import opened Tokenizer
  import opened Classifier

  /** The loop state: the text `formatted` so far and the counter `indent`. */
  datatype State = State(out: string, depth: int)

  function Max(a: int, b: int): int {
    if a < b then b else a
  }

  /** How many tokens of kind `k` occur in `ts`. */
  function Count(ts: seq<string>, k: Kind): nat
  {
    if ts == [] then 0
    else (if Classify(ts[0]) == k then 1 else 0) + Count(ts[1..], k)
  }

  lemma {:induction false} CountAppend(a: seq<string>, b: seq<string>, k: Kind)
    ensures Count(a + b, k) == Count(a, k) + Count(b, k)
    decreases |a|
  {
    if a == [] {
      assert a + b == b;
    } else {
      assert (a + b)[1..] == a[1..] + b;
      CountAppend(a[1..], b, k);
    }
  }

  /** Number of opening tags minus number of closing tags. */
  function Balance(ts: seq<string>): int
  {
    Count(ts, Opening) - Count(ts, Closing)
  }

  /** Change of the counter caused by a token of kind `k`. */
  function Delta(k: Kind): int
  {
    match k
    case Opening => 1
    case Closing => -1
    case _ => 0
  }

  lemma BalanceSnoc(ts: seq<string>, t: string)
    ensures Balance(ts + [t]) == Balance(ts) + Delta(Classify(t))
  {
    CountAppend(ts, [t], Opening);
    CountAppend(ts, [t], Closing);
    assert [t][1..] == [];
  }

  /** The text a token contributes: tags verbatim, text trimmed. */
  function Shown(t: string): string
  {
    if Classify(t) == Text then Trim(t) else t
  }

  /** A token is printed unless it is text that trims to nothing. */
  predicate Emits(t: string) {
    Shown(t) != []
  }

  /** The chunk a token contributes when printed at level `level`:
      the level's indentation, the shown text and a line feed. */
  function Line(level: nat, t: string): string
  {
    Indent(level) + Shown(t) + "\n"
  }

  /** One iteration of the `forEach` body: the chunk appended to
      `formatted` and the new counter, or the `RangeError` thrown by
      `tab.repeat` for a negative count. */
  function Step(depth: int, t: string): (r: Result<(string, int)>)
    ensures r.Failure? <==> depth < 0 && Classify(t) != Closing && Emits(t)
    ensures r.Failure? ==> r.error == RangeError(depth)
    ensures r.Success? ==> r.value.1 == depth + Delta(Classify(t))
    ensures r.Success? && !Emits(t) ==> r.value.0 == []
    ensures r.Success? && Emits(t) ==>
      r.value.0 == Line(Max(0, depth + (if Classify(t) == Closing then -1 else 0)), t)
  {
    RepeatTabIsIndent(depth);
    RepeatTabIsIndent(Max(0, depth - 1));
    match Classify(t)
    case Closing =>
      var d := depth - 1;
      // `Math.max(0, indent)` keeps this count non-negative: no throw here
      var pad := Repeat(Tab, Max(0, d)).value;
      Success((pad + t + "\n", d))
    case Void =>
      var pad :- Repeat(Tab, depth);
      Success((pad + t + "\n", depth))
    case Opening =>
      var pad :- Repeat(Tab, depth);
      Success((pad + t + "\n", depth + 1))
    case Text =>
      var trimmed := Trim(t);
      if trimmed != [] then
        var pad :- Repeat(Tab, depth);
        Success((pad + trimmed + "\n", depth))
      else
        Success(([], depth))
  }

  /** The state after the `forEach` has processed `ts`, in order, from
      `formatted = ''` and `indent = 0`; the counter then equals the
      number of opening tags minus the number of closing tags. */
  function Fold(ts: seq<string>): (r: Result<State>)
    ensures r.Success? ==> r.value.depth == Balance(ts)
    decreases |ts|
  {
    if ts == [] then
      Success(State([], 0))
    else
      var init, last := ts[..|ts| - 1], ts[|ts| - 1];
      assert ts == init + [last];
      BalanceSnoc(init, last);
      var st :- Fold(init);
      var step :- Step(st.depth, last);
      Success(State(st.out + step.0, step.1))
  }

  /** `formatHtml(html)`: the trimmed text of the fold over the tokens. */
  function Format(html: string): (r: Result<string>)
    ensures r.Success? && r.value != [] ==> !IsSpace(r.value[0]) && !IsSpace(r.value[|r.value| - 1])
  {
    var st :- Fold(Tokens(html));
    Success(Trim(st.out))
  }

  /** Token `i` is reached while the counter is negative and would be
      printed through `tab.repeat` with a negative count. */
  predicate Blocked(ts: seq<string>, i: nat)
    requires i < |ts|
  {
    Balance(ts[..i]) < 0 && Classify(ts[i]) != Closing && Emits(ts[i])
  }

  /** The fold throws exactly when some printed non-closing token is
      reached while more closing than opening tags precede it. */
  lemma {:induction false} FoldFailsIff(ts: seq<string>)
    ensures Fold(ts).Failure? <==> exists i | 0 <= i < |ts| :: Blocked(ts, i)
    decreases |ts|
  {
    if ts != [] {
      var n := |ts| - 1;
      var init := ts[..n];
      FoldFailsIff(init);
      BlockedPrefix(ts, n);
      FoldLastFails(ts);
      if Fold(init).Failure? {
        var i :| 0 <= i < n && Blocked(init, i);
        assert Blocked(ts, i);
      } else if Fold(ts).Failure? {
        assert Blocked(ts, n);
      } else {
        assert !Blocked(ts, n);
        NoneBlocked(ts, init);
      }
    }
  }

  /** The fold throws when its prefix throws or its last token is blocked. */
  lemma FoldLastFails(ts: seq<string>)
    requires ts != []
    ensures Fold(ts).Failure? <==> Fold(ts[..|ts| - 1]).Failure? || Blocked(ts, |ts| - 1)
  {
    var init := ts[..|ts| - 1];
    if Fold(init).Success? {
      assert Fold(ts).Failure? <==> Step(Balance(init), ts[|ts| - 1]).Failure?;
    }
  }

  /** No token is blocked when none of the prefix is and the last is not. */
  lemma NoneBlocked(ts: seq<string>, init: seq<string>)
    requires ts != [] && init == ts[..|ts| - 1] && !Blocked(ts, |ts| - 1)
    requires forall i | 0 <= i < |init| :: !Blocked(init, i)
    ensures forall i | 0 <= i < |ts| :: !Blocked(ts, i)
  {
    BlockedPrefix(ts, |ts| - 1);
  }

  /** Whether a token is blocked depends only on the tokens before it. */
  lemma BlockedPrefix(ts: seq<string>, n: nat)
    requires n <= |ts|
    ensures forall i | 0 <= i < n :: Blocked(ts[..n], i) <==> Blocked(ts, i)
  {
    forall i | 0 <= i < n
      ensures Blocked(ts[..n], i) <==> Blocked(ts, i)
    {
      assert ts[..n][..i] == ts[..i];
    }
  }

  /** Only underflow makes the fold throw: it succeeds when no prefix
      holds more closing than opening tags. */
  lemma NoUnderflowSucceeds(ts: seq<string>)
    requires forall k | 0 <= k <= |ts| :: Balance(ts[..k]) >= 0
    ensures Fold(ts).Success?
  {
    FoldFailsIff(ts);
  }

  /** Closing tags never throw, however many are unmatched. */
  lemma ClosingTagsNeverFail(ts: seq<string>)
    requires forall i | 0 <= i < |ts| :: Classify(ts[i]) == Closing
    ensures Fold(ts).Success?
  {
    FoldFailsIff(ts);
  }

  /** The level at which token `i` is printed, before flooring at zero:
      a closing tag after its own decrement, any other token before its
      effect. */
  function Level(ts: seq<string>, i: nat): int
    requires i < |ts|
  {
    if Classify(ts[i]) == Closing then Balance(ts[..i + 1]) else Balance(ts[..i])
  }

  /** The reference layout: token `i` contributes exactly one line, at
      level `Level` floored at zero, unless it is text that trims to
      nothing. */
  function LineAt(ts: seq<string>, i: nat): string
    requires i < |ts|
  {
    if Emits(ts[i]) then Line(Max(0, Level(ts, i)), ts[i]) else []
  }

  function Lines(ts: seq<string>): (ls: seq<string>)
    ensures |ls| == |ts|
  {
    seq(|ts|, i requires 0 <= i < |ts| => LineAt(ts, i))
  }

  /** Earlier lines do not depend on later tokens. */
  lemma LinesSnoc(ts: seq<string>)
    requires ts != []
    ensures Lines(ts) == Lines(ts[..|ts| - 1]) + [LineAt(ts, |ts| - 1)]
  {
    var n := |ts| - 1;
    var init := ts[..n];
    forall i | 0 <= i < n
      ensures LineAt(init, i) == LineAt(ts, i)
    {
      assert init[..i] == ts[..i];
      assert init[..i + 1] == ts[..i + 1];
    }
  }

  /** The last token's chunk is its reference line. */
  lemma LastChunk(ts: seq<string>, depth: int)
    requires ts != [] && depth == Balance(ts[..|ts| - 1])
    requires Step(depth, ts[|ts| - 1]).Success?
    ensures Step(depth, ts[|ts| - 1]).value.0 == LineAt(ts, |ts| - 1)
  {
    var n := |ts| - 1;
    assert ts == ts[..n] + [ts[n]];
    BalanceSnoc(ts[..n], ts[n]);
    assert ts[..n + 1] == ts;
  }

  /** On success the fold's text is the reference layout: the lines of
      the tokens, in token order, nothing reordered, duplicated or
      dropped. */
  lemma {:induction false} FoldOutput(ts: seq<string>)
    ensures Fold(ts).Success? ==> Fold(ts).value.out == Flatten(Lines(ts))
    decreases |ts|
  {
    if ts != [] && Fold(ts).Success? {
      var n := |ts| - 1;
      var init := ts[..n];
      FoldOutput(init);
      var st := Fold(init).value;
      LastChunk(ts, st.depth);
      assert Fold(ts).value.out == st.out + LineAt(ts, n);
      LinesSnoc(ts);
      FlattenAppend(Lines(init), [LineAt(ts, n)]);
      assert Flatten([LineAt(ts, n)]) == LineAt(ts, n) by {
        assert [LineAt(ts, n)][1..] == [];
      }
    }
  }

  /** A kept (non-blank) token is always printed. */
  lemma KeptTokenEmits(t: string)
    requires !IsBlank(t)
    ensures Emits(t)
  {
  }

  /** What a printed token shows is never blank: a tag starts with `<`,
      and trimmed text starts with a non-space character. */
  lemma ShownNotBlank(t: string)
    requires Emits(t)
    ensures !IsBlank(Shown(t))
  {
    TextIffNoAngle(t);
  }

  /** `formatHtml` throws exactly when some token is blocked. */
  lemma FormatFailsIff(html: string)
    ensures Format(html).Failure? <==>
      exists i | 0 <= i < |Tokens(html)| :: Blocked(Tokens(html), i)
  {
    FoldFailsIff(Tokens(html));
  }

  /** On success, `formatHtml` prints every token on a line of its own,
      in order, and trims the whole. */
  lemma FormatLayout(html: string)
    ensures forall i | 0 <= i < |Tokens(html)| :: Emits(Tokens(html)[i])
    ensures Format(html).Success? ==> Format(html).value == Trim(Flatten(Lines(Tokens(html))))
  {
    FoldOutput(Tokens(html));
  }

  /** The result is empty exactly for blank input. */
  lemma FormatEmptyIff(html: string)
    ensures Format(html) == Success([]) <==> IsBlank(html)
  {
    var ts := Tokens(html);
    TokensEmpty(html);
    if !IsBlank(html) && Format(html).Success? {
      FormatLayout(html);
      OutputNotBlank(ts);
    }
  }

  /** Some token prints, so the output is not blank. */
  lemma OutputNotBlank(ts: seq<string>)
    requires ts != [] && forall i | 0 <= i < |ts| :: Emits(ts[i])
    requires Fold(ts).Success?
    ensures !IsBlank(Fold(ts).value.out)
  {
    FoldOutput(ts);
    var level := Max(0, Level(ts, 0));
    LineNotBlank(level, ts[0]);
    assert Lines(ts)[0] == Line(level, ts[0]);
    FlattenHeadNotBlank(Lines(ts));
  }

  lemma FlattenHeadNotBlank(ls: seq<string>)
    requires ls != [] && !IsBlank(ls[0])
    ensures !IsBlank(Flatten(ls))
  {
    BlankAppend(ls[0], Flatten(ls[1..]));
  }

  lemma LineNotBlank(level: nat, t: string)
    requires Emits(t)
    ensures !IsBlank(Line(level, t))
  {
    ShownNotBlank(t);
    BlankAppend(Indent(level), Shown(t));
    BlankAppend(Indent(level) + Shown(t), "\n");
  }

  /** Once a prefix of the tokens throws, the whole fold throws the same error. */
  lemma {:induction false} FoldPrefixFails(ts: seq<string>, k: nat)
    requires k <= |ts| && Fold(ts[..k]).Failure?
    ensures Fold(ts) == Fold(ts[..k])
    decreases |ts| - k
  {
    if k == |ts| {
      assert ts[..k] == ts;
    } else {
      var init := ts[..|ts| - 1];
      assert init[..k] == ts[..k];
      FoldPrefixFails(init, k);
    }
  }

  /** One more token on top of a successful prefix. */
  lemma FoldNext(ts: seq<string>, i: nat, st: State)
    requires i < |ts| && Fold(ts[..i]) == Success(st)
    ensures Fold(ts[..i + 1]) ==
      match Step(st.depth, ts[i])
      case Failure(e) => Failure(e)
      case Success(step) => Success(State(st.out + step.0, step.1))
  {
    assert ts[..i + 1][..i] == ts[..i];
  }

  /** One more token appended to a successful token sequence. */
  lemma FoldSnoc(ts: seq<string>, t: string, st: State)
    requires Fold(ts) == Success(st)
    ensures Fold(ts + [t]) ==
      match Step(st.depth, t)
      case Failure(e) => Failure(e)
      case Success(step) => Success(State(st.out + step.0, step.1))
  {
    assert (ts + [t])[..|ts|] == ts;
  }

  /** The source's loop, statement by statement: `formatted` and `indent`
      are updated in place, and a negative `tab.repeat` count ends the
      call with `RangeError`. It computes exactly `Format`. */
  method FormatHtml(html: string) returns (r: Result<string>)
    ensures r == Format(html)
  {
    var tokens := Tokens(html);
    var formatted: string := [];
    var indent: int := 0;
    var i := 0;
    while i < |tokens|
      invariant 0 <= i <= |tokens|
      invariant Fold(tokens[..i]) == Success(State(formatted, indent))
    {
      var token := tokens[i];
      var depth := indent;
      var chunk: string;
      var kind := Classify(token);
      if kind == Closing {
        indent := indent - 1;
        var pad := Repeat(Tab, Max(0, indent));
        chunk := pad.value + token + "\n";
      } else if kind == Void {
        var pad := Repeat(Tab, indent);
        if pad.Failure? {
          FoldNext(tokens, i, State(formatted, depth));
          FoldPrefixFails(tokens, i + 1);
          return Failure(pad.error);
        }
        chunk := pad.value + token + "\n";
      } else if kind == Opening {
        var pad := Repeat(Tab, indent);
        if pad.Failure? {
          FoldNext(tokens, i, State(formatted, depth));
          FoldPrefixFails(tokens, i + 1);
          return Failure(pad.error);
        }
        chunk := pad.value + token + "\n";
        indent := indent + 1;
      } else {
        var trimmed := Trim(token);
        chunk := [];
        if trimmed != [] {
          var pad := Repeat(Tab, indent);
          if pad.Failure? {
            FoldNext(tokens, i, State(formatted, depth));
            FoldPrefixFails(tokens, i + 1);
            return Failure(pad.error);
          }
          chunk := pad.value + trimmed + "\n";
        }
      }
      assert Step(depth, token) == Success((chunk, indent));
      FoldNext(tokens, i, State(formatted, depth));
      formatted := formatted + chunk;
      i := i + 1;
    }
    assert tokens[..i] == tokens;
    return Success(Trim(formatted));
  }
}
