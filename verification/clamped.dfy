/** The evidently intended formatter: the same fold with the counter
    floored at zero (`indent = Math.max(0, indent - 1)` for a closing tag),
    so that no `tab.repeat` count is ever negative and nothing throws.
 */
module Clamped {
  import opened Strings
  import opened Tokenizer
  import opened Classifier
  import opened Formatter

  /** One token with a never-negative counter. */
  function StepClamped(depth: nat, t: string): (r: (string, nat))
    ensures r.1 == Max(0, depth + Delta(Classify(t)))
    ensures !Emits(t) ==> r.0 == []
    ensures Emits(t) ==> r.0 == Line(if Classify(t) == Closing then r.1 else depth, t)
  {
    match Classify(t)
    case Closing =>
      var d := if depth == 0 then 0 else depth - 1;
      (Indent(d) + t + "\n", d)
    case Void =>
      (Indent(depth) + t + "\n", depth)
    case Opening =>
      (Indent(depth) + t + "\n", depth + 1)
    case Text =>
      var trimmed := Trim(t);
      if trimmed != [] then (Indent(depth) + trimmed + "\n", depth) else ([], depth)
  }

  function FoldClamped(ts: seq<string>): (string, nat)
    decreases |ts|
  {
    if ts == [] then
      ([], 0)
    else
      var st := FoldClamped(ts[..|ts| - 1]);
      var step := StepClamped(st.1, ts[|ts| - 1]);
      (st.0 + step.0, step.1)
  }

  lemma FoldClampedNext(ts: seq<string>, i: nat)
    requires i < |ts|
    ensures FoldClamped(ts[..i + 1]) ==
      var st := FoldClamped(ts[..i]);
      var step := StepClamped(st.1, ts[i]);
      (st.0 + step.0, step.1)
  {
    assert ts[..i + 1][..i] == ts[..i];
  }

  /** The corrected `formatHtml`: total over all strings. */
  function FormatClamped(html: string): string
  {
    Trim(FoldClamped(Tokens(html)).0)
  }

  /** Wherever the source's fold succeeds, the clamped fold prints the
      same text, and its counter is the source's counter floored at zero. */
  lemma {:induction false} FoldClampedAgrees(ts: seq<string>)
    ensures Fold(ts).Success? ==>
      FoldClamped(ts) == (Fold(ts).value.out, Max(0, Fold(ts).value.depth))
    decreases |ts|
  {
    if ts != [] && Fold(ts).Success? {
      var init, last := ts[..|ts| - 1], ts[|ts| - 1];
      FoldClampedAgrees(init);
    }
  }

  /** The correction changes nothing where the source succeeds: it only
      replaces the `RangeError` by a result. */
  lemma ClampedAgrees(html: string)
    ensures Format(html).Success? ==> Format(html).value == FormatClamped(html)
  {
    FoldClampedAgrees(Tokens(html));
  }
}
