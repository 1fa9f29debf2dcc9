/** String primitives of ECMAScript that the formatter relies on:
    `trim`, `startsWith`, `endsWith`, `repeat`, and string concatenation.
    Strings are sequences of characters.
 */
module Strings {
  import opened Results

  /** The characters `String.prototype.trim` removes: the ECMAScript
      WhiteSpace set (tab, vertical tab, form feed, space, no-break space,
      the byte order mark and the Unicode category Zs) and the
      LineTerminator set (line feed, carriage return, U+2028, U+2029). */
  predicate IsSpace(c: char) {
    || c == '\t' || c == '\n' || c == '\U{000B}' || c == '\U{000C}' || c == '\r'
    || c == ' ' || c == '\U{00A0}' || c == '\U{1680}'
    || ('\U{2000}' <= c <= '\U{200A}')
    || c == '\U{2028}' || c == '\U{2029}' || c == '\U{202F}' || c == '\U{205F}'
    || c == '\U{3000}' || c == '\U{FEFF}'
  }

  /** A string is blank when `s.trim()` is falsy, i.e. every character is white space. */
  predicate IsBlank(s: string) {
    forall i | 0 <= i < |s| :: IsSpace(s[i])
  }

  predicate StartsWith(s: string, prefix: string) {
    |prefix| <= |s| && s[..|prefix|] == prefix
  }

  predicate EndsWith(s: string, suffix: string) {
    |suffix| <= |s| && s[|s| - |suffix|..] == suffix
  }

  /** Removes leading white space: the result is the longest suffix of `s`
      that does not start with white space. */
  function TrimStart(s: string): (r: string)
    ensures |r| <= |s| && r == s[|s| - |r|..]
    ensures IsBlank(s[..|s| - |r|])
    ensures r == [] || !IsSpace(r[0])
  {
    if s != [] && IsSpace(s[0]) then
      var r := TrimStart(s[1..]);
      DropLeadingSpace(s, r);
      r
    else
      s
  }

  /** A blank prefix stays blank with one more space in front. */
  lemma DropLeadingSpace(s: string, r: string)
    requires s != [] && IsSpace(s[0])
    requires |r| <= |s| - 1 && r == s[1..][|s| - 1 - |r|..]
    requires IsBlank(s[1..][..|s| - 1 - |r|])
    ensures r == s[|s| - |r|..]
    ensures IsBlank(s[..|s| - |r|])
  {
    assert s[1..][|s| - 1 - |r|..] == s[|s| - |r|..];
    assert s[..|s| - |r|] == [s[0]] + s[1..][..|s| - 1 - |r|];
  }

  /** Removes trailing white space: the result is the longest prefix of `s`
      that does not end with white space. */
  function TrimEnd(s: string): (r: string)
    ensures |r| <= |s| && r == s[..|r|]
    ensures IsBlank(s[|r|..])
    ensures r == [] || !IsSpace(r[|r| - 1])
  {
    if s != [] && IsSpace(s[|s| - 1]) then
      var r := TrimEnd(s[..|s| - 1]);
      assert s[|r|..] == s[..|s| - 1][|r|..] + [s[|s| - 1]];
      r
    else
      s
  }

  /** `s` is a blank prefix of length `lead`, then `r`, then a blank suffix. */
  predicate Surrounds(s: string, lead: nat, r: string) {
    && lead + |r| <= |s|
    && r == s[lead..lead + |r|]
    && IsBlank(s[..lead])
    && IsBlank(s[lead + |r|..])
  }

  /** `String.prototype.trim`: the middle part of `s` between a blank
      prefix and a blank suffix, starting and ending with a non-space
      character (or empty exactly when `s` is blank). */
  function Trim(s: string): (r: string)
    ensures Surrounds(s, |s| - |TrimStart(s)|, r)
    ensures r == [] || (!IsSpace(r[0]) && !IsSpace(r[|r| - 1]))
    ensures r == [] <==> IsBlank(s)
  {
    var t := TrimStart(s);
    var r := TrimEnd(t);
    TrimPieces(s, t, r);
    r
  }

  /** The slicing facts behind `Trim`, stated over plain sequences. */
  lemma TrimPieces(s: string, t: string, r: string)
    requires |t| <= |s| && t == s[|s| - |t|..] && IsBlank(s[..|s| - |t|])
    requires t == [] || !IsSpace(t[0])
    requires |r| <= |t| && r == t[..|r|] && IsBlank(t[|r|..])
    requires r == [] || !IsSpace(r[|r| - 1])
    ensures Surrounds(s, |s| - |t|, r)
    ensures r == [] || !IsSpace(r[0])
    ensures r == [] <==> IsBlank(s)
  {
    var lead := |s| - |t|;
    if r == [] {
      assert t[|r|..] == t;
      assert t == [];
      assert s[..lead] == s;
    } else {
      assert r[0] == t[0];
      assert s[lead] == r[0];
    }
    assert s[lead + |r|..] == t[|r|..];
  }

  /** A string that neither starts nor ends with white space trims to
      itself, and so does it with one line feed appended. */
  lemma TrimUntouched(s: string, t: string)
    requires s != [] && !IsSpace(s[0]) && !IsSpace(s[|s| - 1])
    requires t == s + "\n"
    ensures Trim(s) == s
    ensures Trim(t) == s
  {
    assert t[..|t| - 1] == s;
    assert TrimEnd(t) == TrimEnd(s);
  }

  /** `unit.repeat(count)`: throws `RangeError` for a negative count,
      otherwise `count` copies of `unit` laid end to end. */
  function Repeat(unit: string, count: int): (r: Result<string>)
    ensures r.Failure? <==> count < 0
    ensures r.Failure? ==> r.error == RangeError(count)
    ensures r.Success? ==> |r.value| == count * |unit|
    ensures r.Success? && unit != [] ==> forall i | 0 <= i < |r.value| :: r.value[i] == unit[i % |unit|]
    decreases if count < 0 then 0 else count
  {
    if count < 0 then Failure(RangeError(count))
    else if count == 0 then Success([])
    else
      var rest := Repeat(unit, count - 1).value;
      PrependUnit(unit, rest);
      Success(unit + rest)
  }

  /** Putting one more copy of `unit` in front keeps every character at
      its place in the cycle of `unit`. */
  lemma PrependUnit(unit: string, rest: string)
    requires unit != [] ==> forall i | 0 <= i < |rest| :: rest[i] == unit[i % |unit|]
    ensures unit != [] ==> forall i | 0 <= i < |unit + rest| :: (unit + rest)[i] == unit[i % |unit|]
  {
    if unit == [] { return; }
    forall i | 0 <= i < |unit + rest|
      ensures (unit + rest)[i] == unit[i % |unit|]
    {
      if i >= |unit| {
        ModShift(i, |unit|);
        assert (unit + rest)[i] == rest[i - |unit|];
      }
    }
  }

  lemma ModShift(i: int, n: int)
    requires 0 < n <= i
    ensures (i - n) % n == i % n
  {
    var q, r := (i - n) / n, (i - n) % n;
    assert i - n == q * n + r && 0 <= r < n;
    assert i == (q + 1) * n + r;
    ModUnique(i, n, q + 1, r);
  }

  lemma ModUnique(i: int, n: int, q: int, r: int)
    requires 0 < n && 0 <= r < n && i == q * n + r
    ensures i % n == r
  {
    var q', r' := i / n, i % n;
    assert i == q' * n + r' && 0 <= r' < n;
    Distribute(q, q', n);
    if q > q' {
      AtLeastOnce(q - q', n);
    } else if q < q' {
      AtLeastOnce(q' - q, n);
      Distribute(q', q, n);
    }
  }

  lemma Distribute(a: int, b: int, n: int)
    ensures a * n - b * n == (a - b) * n
  {
  }

  lemma AtLeastOnce(a: int, n: int)
    requires a >= 1 && n > 0
    ensures a * n >= n
  {
  }


  /** The indentation printed for nesting level `n`: two spaces per level. */
  function Indent(n: nat): (r: string)
  {
    seq(2 * n, _ => ' ')
  }

  /** The formatter's indentation unit, `tab` in the source. */
  const Tab: string := "  "

  /** `tab.repeat(n)` succeeds exactly for a non-negative level and then
      yields that level's indentation. */
  lemma RepeatTabIsIndent(n: int)
    ensures Repeat(Tab, n) == if n < 0 then Failure(RangeError(n)) else Success(Indent(n))
  {
    if n >= 0 {
      var r := Repeat(Tab, n).value;
      assert |r| == 2 * n;
      assert forall i | 0 <= i < |r| :: r[i] == ' ' by {
        forall i | 0 <= i < |r| ensures r[i] == ' ' {
          assert r[i] in Tab;
        }
      }
      assert r == Indent(n);
    }
  }

  /** String concatenation of a sequence of strings, in order. */
  function Flatten(ss: seq<string>): string
  {
    if ss == [] then [] else ss[0] + Flatten(ss[1..])
  }

  lemma {:induction false} FlattenAppend(a: seq<string>, b: seq<string>)
    ensures Flatten(a + b) == Flatten(a) + Flatten(b)
    decreases |a|
  {
    if a != [] {
      assert (a + b)[1..] == a[1..] + b;
      FlattenAppend(a[1..], b);
    } else {
      assert a + b == b;
    }
  }

  lemma BlankAppend(a: string, b: string)
    ensures IsBlank(a + b) <==> IsBlank(a) && IsBlank(b)
  {
    if IsBlank(a + b) {
      assert forall i | 0 <= i < |a| :: a[i] == (a + b)[i];
      assert forall i | 0 <= i < |b| :: b[i] == (a + b)[|a| + i];
    }
  }

  /** A concatenation is blank exactly when every piece is. */
  lemma {:induction false} FlattenBlank(ss: seq<string>)
    ensures IsBlank(Flatten(ss)) <==> forall i | 0 <= i < |ss| :: IsBlank(ss[i])
    decreases |ss|
  {
    if ss != [] {
      FlattenBlank(ss[1..]);
      BlankAppend(ss[0], Flatten(ss[1..]));
      assert forall i | 1 <= i < |ss| :: ss[i] == ss[1..][i - 1];
    }
  }
}
