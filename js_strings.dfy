/**
  The two pieces of JavaScript string behaviour the gallery relies on:
  `String.prototype.replace` with a string pattern (only the FIRST occurrence
  is replaced) and the decimal rendering of a non-negative integer number when
  it is concatenated with a string (`bytes + ' B'`).
 */
module JsStrings {
  import opened Wrappers

  /** `pat` occurs in `s` starting at index `j`. */
  predicate OccursAt(s: string, pat: string, j: nat)
  {
    j + |pat| <= |s| && s[j..j + |pat|] == pat
  }

  /** The first occurrence of `pat` in `s` starts at index `i`. */
  predicate FirstOccursAt(s: string, pat: string, i: nat)
  {
    OccursAt(s, pat, i) && forall j :: 0 <= j < i ==> !OccursAt(s, pat, j)
  }

  /** The first index at or after `from` where `pat` occurs in `s`. */
  function IndexOfFrom(s: string, pat: string, from: nat): (r: Option<nat>)
    decreases |s| - from
    ensures r.Some? ==> from <= r.value && OccursAt(s, pat, r.value)
    ensures r.Some? ==> forall j :: from <= j < r.value ==> !OccursAt(s, pat, j)
    ensures r.None? ==> forall j :: from <= j ==> !OccursAt(s, pat, j)
  {
    if from + |pat| > |s| then None
    else if s[from..from + |pat|] == pat then Some(from)
    else IndexOfFrom(s, pat, from + 1)
  }

  /** `s.indexOf(pat)`, with `None` for JavaScript's -1. */
  function IndexOf(s: string, pat: string): (r: Option<nat>)
    ensures r.Some? ==> FirstOccursAt(s, pat, r.value)
    ensures r.None? <==> forall j :: !OccursAt(s, pat, j)
  {
    IndexOfFrom(s, pat, 0)
  }

  /** `s.replace(pat, rep)` for a string `pat` and a `rep` holding no `$`
      replacement pattern: the first occurrence of `pat` is replaced, the
      rest of `s` is kept. */
  function ReplaceFirst(s: string, pat: string, rep: string): (r: string)
    ensures (forall j :: !OccursAt(s, pat, j)) ==> r == s
    ensures forall i: nat :: FirstOccursAt(s, pat, i) ==> r == s[..i] + rep + s[i + |pat|..]
  {
    match IndexOf(s, pat)
    case None => s
    case Some(i) => s[..i] + rep + s[i + |pat|..]
  }

  /** The first occurrence is what `IndexOf` finds. */
  lemma FirstOccurrence(s: string, pat: string, i: nat)
    requires FirstOccursAt(s, pat, i)
    ensures IndexOf(s, pat) == Some(i)
  {
    var r := IndexOf(s, pat);
    assert r.Some?;
    assert !(r.value < i);
    assert !(i < r.value);
  }

  /** A single character that is not in `prefix` is first found right after it. */
  lemma IndexOfAfterPrefix(prefix: string, c: char, rest: string)
    requires c !in prefix
    ensures IndexOf(prefix + [c] + rest, [c]) == Some(|prefix|)
  {
    var s := prefix + [c] + rest;
    assert s[|prefix|..|prefix| + 1] == [c];
    forall j | 0 <= j < |prefix|
      ensures !OccursAt(s, [c], j)
    {
      assert s[j..j + 1] == [prefix[j]];
    }
    FirstOccurrence(s, [c], |prefix|);
  }

  /** Replacing the first occurrence leaves every later occurrence in place:
      an occurrence at `k` past the replaced one is found again, shifted by
      the difference in length between `rep` and `pat`. */
  lemma LaterOccurrenceKept(s: string, pat: string, rep: string, i: nat, k: nat)
    requires FirstOccursAt(s, pat, i)
    requires i + |pat| <= k && OccursAt(s, pat, k)
    ensures OccursAt(ReplaceFirst(s, pat, rep), pat, k - |pat| + |rep|)
  {
    OccurrenceAfterSplice(s, pat, rep, i, k);
  }

  /** The splice that replacing at `i` performs keeps an occurrence at `k`. */
  lemma OccurrenceAfterSplice(s: string, pat: string, rep: string, i: nat, k: nat)
    requires i + |pat| <= k && OccursAt(s, pat, k)
    ensures OccursAt(s[..i] + rep + s[i + |pat|..], pat, k - |pat| + |rep|)
  {
    var head, tail := s[..i] + rep, s[i + |pat|..];
    assert tail[k - i - |pat|..k - i] == s[k..k + |pat|];
    OccurrenceInTail(head, tail, pat, k - i - |pat|);
  }

  /** The splice keeps every occurrence past the spliced one, shifted by the
      difference in length. */
  lemma SpliceKeepsLaterOccurrences(s: string, pat: string, rep: string, i: nat)
    requires i + |pat| <= |s|
    ensures forall k :: i + |pat| <= k && OccursAt(s, pat, k) ==>
      OccursAt(s[..i] + rep + s[i + |pat|..], pat, k - |pat| + |rep|)
  {
    forall k | i + |pat| <= k && OccursAt(s, pat, k)
      ensures OccursAt(s[..i] + rep + s[i + |pat|..], pat, k - |pat| + |rep|)
    {
      OccurrenceAfterSplice(s, pat, rep, i, k);
    }
  }

  /** An occurrence in `tail` is an occurrence in `head + tail`, shifted by `|head|`. */
  lemma OccurrenceInTail(head: string, tail: string, pat: string, a: nat)
    requires OccursAt(tail, pat, a)
    ensures OccursAt(head + tail, pat, |head| + a)
  {
    assert (head + tail)[|head| + a..|head| + a + |pat|] == tail[a..a + |pat|];
  }

  /** The characters a non-negative integer is written with. */
  predicate IsDigit(c: char)
  {
    '0' <= c <= '9'
  }

  function DigitChar(d: nat): (c: char)
    requires d < 10
    ensures IsDigit(c)
  {
    ['0', '1', '2', '3', '4', '5', '6', '7', '8', '9'][d]
  }

  function DigitValue(c: char): (d: nat)
    requires IsDigit(c)
    ensures d < 10
  {
    (c as int - '0' as int) as nat
  }

  lemma DigitRoundTrip(d: nat)
    requires d < 10
    ensures DigitValue(DigitChar(d)) == d
  {
  }

  /** JavaScript's `String(n)` for a non-negative integer `n`: its decimal
      digits, most significant first, with no leading zero. */
  function NatToString(n: nat): (s: string)
    ensures |s| >= 1
    ensures forall i :: 0 <= i < |s| ==> IsDigit(s[i])
    ensures |s| > 1 ==> s[0] != '0'
    ensures n < 10 <==> |s| == 1
  {
    if n < 10 then [DigitChar(n)] else NatToString(n / 10) + [DigitChar(n % 10)]
  }

  /** The number a string of decimal digits denotes. */
  function DigitsValue(s: string): (n: nat)
    requires forall i :: 0 <= i < |s| ==> IsDigit(s[i])
  {
    if s == [] then 0 else 10 * DigitsValue(s[..|s| - 1]) + DigitValue(s[|s| - 1])
  }

  /** Reading the rendered digits back gives the number: the rendering
      loses nothing. */
  lemma {:induction false} NatToStringRoundTrip(n: nat)
    ensures DigitsValue(NatToString(n)) == n
  {
    var s := NatToString(n);
    if n < 10 {
      DigitRoundTrip(n);
      assert s[..|s| - 1] == [];
    } else {
      assert s[..|s| - 1] == NatToString(n / 10);
      NatToStringRoundTrip(n / 10);
      DigitRoundTrip(n % 10);
    }
  }

  /** Two numbers render identically only when they are equal. */
  lemma NatToStringInjective(m: nat, n: nat)
    requires NatToString(m) == NatToString(n)
    ensures m == n
  {
    NatToStringRoundTrip(m);
    NatToStringRoundTrip(n);
  }
}
