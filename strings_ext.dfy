/** The string helpers of the pseudocode runtime
    (`src/extensions/strings_defs.py`), with Python's slice and index
    rules written out: a negative index counts from the end, a slice
    bound outside the string is clipped to it, and an index outside the
    string is an error. */
module StringsDefs {
  import opened Results
  import opened Text

  /** Where a slice bound `i` lands in a string of length `n`. */
  function SliceBound(i: int, n: nat): (r: nat)
    ensures r <= n
    ensures 0 <= i <= n ==> r == i
    ensures i < 0 && i + n >= 0 ==> r == n + i
    ensures i > n ==> r == n
    ensures i + n < 0 ==> r == 0
  {
    if i < 0 then (if i + n < 0 then 0 else i + n)
    else if i > n then n
    else i
  }

  /** `s[start:end]`. */
  function Slice(s: string, start: int, end: int): (r: string)
    ensures |r| <= |s|
  {
    var a, b := SliceBound(start, |s|), SliceBound(end, |s|);
    if a < b then s[a..b] else []
  }

  /** `SUBSTRING(string, start, end)`: `string[start:end]` when `end` is
      given and not zero, otherwise `string[start:]`. */
  function Substring(s: string, start: int, end: Option<int>): (r: string)
    ensures |r| <= |s|
  {
    if end.Some? && end.value != 0 then Slice(s, start, end.value) else Slice(s, start, |s|)
  }

  datatype IndexError = IndexError

  /** `CHARACTER(string, index)`: `string[index]`. */
  function Character(s: string, i: int): Result<string, IndexError>
  {
    if 0 <= i < |s| then Ok([s[i]])
    else if -|s| <= i < 0 then Ok([s[|s| + i]])
    else Err(IndexError)
  }

  /** `REPLACE(string, old, new)` on strings, `pat` standing for `old`
      and `rep` for `new`. */
  function StringReplace(s: string, pat: string, rep: string): string
  {
    ReplaceAll(s, pat, rep)
  }

  /** `CONTAINS(string, substring)`: `substring in string`. */
  predicate StringContains(s: string, t: string)
  {
    Contains(s, t)
  }

  /** `STRING_LENGTH(string)`. */
  function StringLength(s: string): (n: nat)
    ensures n == |s|
  {
    |s|
  }

  /** `REPEAT(string, n)` for an integer `n`: `string * n`, empty when `n`
      is not positive. */
  function RepeatString(s: string, n: int): string
    decreases if n < 0 then 0 else n
  {
    if n <= 0 then [] else s + RepeatString(s, n - 1)
  }

  /** For a count that is not negative, this is `Repeat`. */
  lemma {:induction false} RepeatStringIsRepeat(s: string, n: nat)
    ensures RepeatString(s, n) == Repeat(s, n)
  {
    if n > 0 {
      RepeatStringIsRepeat(s, n - 1);
    }
  }

  // ---------------------------------------------------------------------
  // SUBSTRING

  /** A zero end counts as no end: the rest of the string from `start`. */
  lemma SubstringZeroEnd(s: string, start: int)
    ensures Substring(s, start, Some(0)) == Substring(s, start, None)
  {
  }

  /** In particular `SUBSTRING(s, 0, 0)` is all of `s`, not the empty
      string. */
  lemma SubstringFromZeroToZero(s: string)
    ensures Substring(s, 0, Some(0)) == s
  {
  }

  /** Inside the string, with a non-zero end, `SUBSTRING` is the piece
      between the two bounds. */
  lemma SubstringInRange(s: string, start: int, end: int)
    requires 0 <= start <= end <= |s| && end > 0
    ensures Substring(s, start, Some(end)) == s[start..end]
    ensures |Substring(s, start, Some(end))| == end - start
  {
  }

  /** Without an end, `SUBSTRING` is the rest of the string; a negative
      start takes that many characters from the end. */
  lemma SubstringRest(s: string, start: int)
    ensures 0 <= start <= |s| ==> Substring(s, start, None) == s[start..]
    ensures -|s| <= start < 0 ==> Substring(s, start, None) == s[|s| + start..]
  {
  }

  /** Bounds outside the string are clipped to it: an end at or past the
      end of the string is the same as no end, and bounds that cross once
      clipped give the empty string. */
  lemma SubstringClipped(s: string, start: int, end: int)
    ensures end >= |s| ==> Substring(s, start, Some(end)) == Substring(s, start, None)
    ensures end != 0 && SliceBound(start, |s|) >= SliceBound(end, |s|) ==> Substring(s, start, Some(end)) == []
  {
  }

  /** With a non-zero end, the length is how far the clipped end lies past
      the clipped start, and never negative. */
  lemma SubstringLength(s: string, start: int, end: int)
    requires end != 0
    ensures var a, b := SliceBound(start, |s|), SliceBound(end, |s|);
      StringLength(Substring(s, start, Some(end))) == if a < b then b - a else 0
  {
  }

  /** Two substrings that meet make the piece that spans both. */
  lemma SubstringsMeet(s: string, a: int, b: int, c: int)
    requires 0 <= a <= b <= c <= |s| && b > 0 && c > 0
    ensures Substring(s, a, Some(b)) + Substring(s, b, Some(c)) == Substring(s, a, Some(c))
  {
    assert s[a..b] + s[b..c] == s[a..c];
  }

  // ---------------------------------------------------------------------
  // CHARACTER

  /** `CHARACTER` succeeds exactly for the indices `-|s| .. |s| - 1`, and
      then gives one character. */
  lemma CharacterDefined(s: string, i: int)
    ensures Character(s, i).Ok? <==> -|s| <= i < |s|
    ensures Character(s, i).Ok? ==> |Character(s, i).value| == 1
  {
  }

  /** A negative index is the same character as the index `|s|` higher. */
  lemma CharacterFromEnd(s: string, i: int)
    requires 0 <= i < |s|
    ensures Character(s, i - |s|) == Character(s, i)
  {
  }

  /** The character at `i` is the substring from `i` to `i + 1`; at
      `i = -1` the end `0` means no end, which is the last character too. */
  lemma CharacterIsSubstring(s: string, i: int)
    requires -|s| <= i < |s|
    ensures Character(s, i) == Ok(Substring(s, i, Some(i + 1)))
  {
    var k := if i < 0 then |s| + i else i;
    assert SliceBound(i, |s|) == k;
    assert s[k..k + 1] == [s[k]];
    if i == -1 {
      assert Substring(s, i, Some(0)) == s[k..|s|];
    } else {
      assert SliceBound(i + 1, |s|) == k + 1;
    }
  }

  // ---------------------------------------------------------------------
  // REPLACE and CONTAINS

  /** Replacing a non-empty piece the string does not contain changes
      nothing; neither does replacing a piece by itself. */
  lemma ReplaceUnchanged(s: string, pat: string, rep: string)
    ensures pat != [] && !StringContains(s, pat) ==> StringReplace(s, pat, rep) == s
    ensures StringReplace(s, pat, pat) == s
  {
    if pat != [] && !Contains(s, pat) {
      ReplaceAbsent(s, pat, rep);
    }
    ReplaceSelf(s, pat);
  }

  /** Every character of the result of `REPLACE(s, pat, rep)` comes from
      `s` or from `rep`. */
  lemma ReplaceCharacters(s: string, pat: string, rep: string, c: char)
    requires c !in s && c !in rep
    ensures c !in StringReplace(s, pat, rep)
  {
    ReplaceChars(s, pat, rep, c);
  }

  /** `CONTAINS(s, t)` holds exactly when `t` is a contiguous piece of
      `s`; every string contains the empty string. */
  lemma ContainsPiece(s: string, t: string)
    ensures StringContains(s, t) <==> exists i :: OccursAt(s, t, i)
    ensures StringContains(s, [])
  {
    ContainsIff(s, t);
    ContainsIff(s, []);
    assert OccursAt(s, [], 0);
  }

  // ---------------------------------------------------------------------
  // REPEAT and STRING_LENGTH

  /** `REPEAT(s, n)` has `|s| * max(n, 0)` characters, character `k`
      being `s[k % |s|]`. */
  lemma RepeatLength(s: string, n: int)
    ensures StringLength(RepeatString(s, n)) == |s| * (if n < 0 then 0 else n)
    ensures forall k :: 0 <= k < |RepeatString(s, n)| ==> RepeatString(s, n)[k] == s[k % |s|]
  {
    if n > 0 {
      RepeatStringIsRepeat(s, n);
    }
  }

  /** Repeating `a` times and then `b` times is repeating `a + b` times. */
  lemma {:induction false} RepeatAdd(s: string, a: nat, b: nat)
    ensures RepeatString(s, a) + RepeatString(s, b) == RepeatString(s, a + b)
  {
    if a > 0 {
      RepeatAdd(s, a - 1, b);
      var x, y := RepeatString(s, a - 1), RepeatString(s, b);
      assert RepeatString(s, a) == s + x;
      assert RepeatString(s, a + b) == s + RepeatString(s, (a - 1) + b);
      ConcatAssoc(s, x, y);
    }
  }
}
