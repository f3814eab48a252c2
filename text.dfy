/** The Python `str` operations that the translator and the extension
    library are built from, over Dafny strings (`seq<char>`): `strip`,
    `startswith`, `in`, `find`, `replace`, `split`, `join`, `str(int)` and
    `s * n`. Each is written as Python's own definition and its meaning is
    stated in its contract or in a lemma beside it. */
module Text {
  import opened Results

  // ---------------------------------------------------------------------
  // Whitespace and str.strip()

  /** The characters Python's `str.isspace` accepts, which `str.strip()`
      removes from both ends. */
  predicate IsSpace(c: char) {
    c == ' ' || '\t' <= c <= '\r' || '\U{1c}' <= c <= '\U{1f}'
    || c == '\U{85}' || c == '\U{a0}' || c == '\U{1680}'
    || '\U{2000}' <= c <= '\U{200a}' || c == '\U{2028}' || c == '\U{2029}'
    || c == '\U{202f}' || c == '\U{205f}' || c == '\U{3000}'
  }

  /** `s` without its longest all-whitespace prefix. */
  function TrimStart(s: string): (r: string)
    ensures |r| <= |s| && r == s[|s| - |r|..]
    ensures forall k :: 0 <= k < |s| - |r| ==> IsSpace(s[k])
    ensures r == [] || !IsSpace(r[0])
  {
    if s != [] && IsSpace(s[0]) then
      var r := TrimStart(s[1..]);
      assert s[1..][|s| - 1 - |r|..] == s[|s| - |r|..];
      assert forall k :: 1 <= k < |s| - |r| ==> s[k] == s[1..][k - 1];
      r
    else s
  }

  /** `s` without its longest all-whitespace suffix. */
  function TrimEnd(s: string): (r: string)
    ensures |r| <= |s| && r == s[..|r|]
    ensures forall k :: |r| <= k < |s| ==> IsSpace(s[k])
    ensures r == [] || !IsSpace(r[|r| - 1])
  {
    if s != [] && IsSpace(s[|s| - 1]) then TrimEnd(s[..|s| - 1]) else s
  }

  /** Concatenation is associative. */
  lemma ConcatAssoc(x: string, y: string, z: string)
    ensures x + (y + z) == (x + y) + z
  {
  }

  /** Python's `s.strip()`. */
  function Strip(s: string): (r: string)
    ensures r == [] || (!IsSpace(r[0]) && !IsSpace(r[|r| - 1]))
    ensures forall c :: c in r ==> c in s
  {
    var t := TrimStart(s);
    SliceChars(s, |s| - |t|, |s|);
    var r := TrimEnd(t);
    SliceChars(t, 0, |r|);
    assert r == [] || r[0] == t[0];
    r
  }

  /** `r` is the piece of `s` that starts at index `a`. */
  predicate PieceAt(s: string, a: nat, r: string) {
    a + |r| <= |s| && r == s[a..a + |r|]
  }

  /** `s.strip()` is the piece of `s` left once the whitespace run at each
      end is cut off: it starts where `s.lstrip()` starts, and everything
      before it and after it is whitespace. Together with the contract of
      `Strip` (the piece neither starts nor ends with whitespace) this
      determines the result. */
  lemma StripMeaning(s: string)
    ensures PieceAt(s, |s| - |TrimStart(s)|, Strip(s))
    ensures forall k :: 0 <= k < |s| - |TrimStart(s)| ==> IsSpace(s[k])
    ensures forall k :: |s| - |TrimStart(s)| + |Strip(s)| <= k < |s| ==> IsSpace(s[k])
  {
    var t := TrimStart(s);
    TrimBoth(s, |s| - |t|, t, Strip(s));
  }

  /** Trimming the start and then the end leaves a piece of the whole with
      whitespace on either side of it. */
  lemma TrimBoth(s: string, a: nat, t: string, r: string)
    requires a <= |s| && t == s[a..] && forall k :: 0 <= k < a ==> IsSpace(s[k])
    requires |r| <= |t| && r == t[..|r|] && forall k :: |r| <= k < |t| ==> IsSpace(t[k])
    ensures PieceAt(s, a, r)
    ensures forall k :: a + |r| <= k < |s| ==> IsSpace(s[k])
  {
    forall k | a + |r| <= k < |s| ensures IsSpace(s[k]) {
      assert s[k] == t[k - a];
    }
  }

  /** A slice holds only characters of the whole. */
  lemma SliceChars(s: string, a: nat, b: nat)
    requires a <= b <= |s|
    ensures forall c :: c in s[a..b] ==> c in s
  {
    forall c | c in s[a..b] ensures c in s {
      var k :| 0 <= k < b - a && s[a..b][k] == c;
      assert s[a + k] == c;
    }
  }

  // ---------------------------------------------------------------------
  // startswith, `in`, find

  /** Python's `s.startswith(p)`. */
  predicate StartsWith(s: string, p: string) {
    |p| <= |s| && s[..|p|] == p
  }

  /** Python's `t in s`, scanning `s` from the left. */
  predicate Contains(s: string, t: string)
    decreases |s|
  {
    StartsWith(s, t) || (s != [] && Contains(s[1..], t))
  }

  /** `t` occurs in `s` starting at position `i`. */
  predicate OccursAt(s: string, t: string, i: int) {
    0 <= i && i + |t| <= |s| && s[i..i + |t|] == t
  }

  /** `t in s` holds exactly when `t` is a contiguous piece of `s`. */
  lemma {:induction false} ContainsIff(s: string, t: string)
    ensures Contains(s, t) <==> exists i :: OccursAt(s, t, i)
  {
    if StartsWith(s, t) {
      assert OccursAt(s, t, 0);
    } else if s != [] {
      ContainsIff(s[1..], t);
      if Contains(s[1..], t) {
        var i :| OccursAt(s[1..], t, i);
        assert s[1..][i..i + |t|] == s[i + 1..i + 1 + |t|];
        assert OccursAt(s, t, i + 1);
      } else {
        forall i | OccursAt(s, t, i) ensures false {
          assert s[i..i + |t|] == t;
          if i > 0 {
            assert s[1..][i - 1..i - 1 + |t|] == s[i..i + |t|];
            assert OccursAt(s[1..], t, i - 1);
          }
        }
      }
    }
  }

  /** A one-character piece occurs exactly when the character does. */
  lemma {:induction false} ContainsChar(s: string, c: char)
    ensures Contains(s, [c]) <==> c in s
  {
    if s != [] {
      ContainsChar(s[1..], c);
      assert StartsWith(s, [c]) <==> s[0] == c;
      assert c in s <==> s[0] == c || c in s[1..];
    }
  }

  /** Python's `s.find(p)`, with `None` for -1. */
  function Find(s: string, p: string): (r: Option<nat>)
    decreases |s|
    ensures r.Some? ==> r.value + |p| <= |s| && s[r.value..r.value + |p|] == p
    ensures r.Some? ==> forall i :: 0 <= i < r.value ==> !StartsWith(s[i..], p)
    ensures r.None? <==> !Contains(s, p)
  {
    if StartsWith(s, p) then Some(0)
    else if s == [] then None
    else match Find(s[1..], p)
      case None => None
      case Some(i) =>
        assert forall j :: 1 <= j < i + 1 ==> s[j..] == s[1..][j - 1..];
        Some(i + 1)
  }

  // ---------------------------------------------------------------------
  // replace

  /** Python's `s.replace("", r)`: `r` before every character and at the end. */
  function InsertEverywhere(s: string, r: string): string
  {
    if s == [] then r else r + [s[0]] + InsertEverywhere(s[1..], r)
  }

  /** Python's `s.replace(p, r)`: every occurrence of `p`, taken left to
      right without overlap, is replaced by `r`. */
  function ReplaceAll(s: string, p: string, r: string): string
    decreases |s|
  {
    if p == [] then InsertEverywhere(s, r)
    else if |s| < |p| then s
    else if s[..|p|] == p then r + ReplaceAll(s[|p|..], p, r)
    else [s[0]] + ReplaceAll(s[1..], p, r)
  }

  /** Where `p` does not start, `replace` copies one character and moves on. */
  lemma ReplaceStep(s: string, p: string, r: string)
    requires p != [] && s != [] && !StartsWith(s, p)
    ensures ReplaceAll(s, p, r) == [s[0]] + ReplaceAll(s[1..], p, r)
  {
  }

  /** Where `p` starts, `replace` emits `r` and moves past `p`. */
  lemma ReplaceHere(s: string, p: string, r: string)
    requires p != [] && StartsWith(s, p)
    ensures ReplaceAll(s, p, r) == r + ReplaceAll(s[|p|..], p, r)
  {
  }

  /** A chain of replacements `for p, r in table: s = s.replace(p, r)`,
      applied in the table's order. */
  function ReplaceEach(s: string, table: seq<(string, string)>): string
  {
    if table == [] then s
    else
      var last := table[|table| - 1];
      ReplaceAll(ReplaceEach(s, table[..|table| - 1]), last.0, last.1)
  }

  /** The chain over the first `k` entries is the chain over the first
      `k - 1`, then entry `k - 1`. */
  lemma ReplaceEachPrefix(s: string, table: seq<(string, string)>, k: nat)
    requires 0 < k <= |table|
    ensures ReplaceEach(s, table[..k])
         == ReplaceAll(ReplaceEach(s, table[..k - 1]), table[k - 1].0, table[k - 1].1)
  {
    assert table[..k][..k - 1] == table[..k - 1];
  }

  /** Replacing a piece that does not occur changes nothing. */
  lemma {:induction false} ReplaceAbsent(s: string, p: string, r: string)
    requires p != [] && !Contains(s, p)
    ensures ReplaceAll(s, p, r) == s
  {
    if |s| >= |p| {
      assert s[..|p|] != p;
      ReplaceAbsent(s[1..], p, r);
    }
  }

  /** Replacing a piece by itself changes nothing. */
  lemma {:induction false} ReplaceSelf(s: string, p: string)
    ensures ReplaceAll(s, p, p) == s
  {
    if p == [] {
      InsertNothing(s);
    } else if |s| >= |p| {
      if s[..|p|] == p {
        ReplaceSelf(s[|p|..], p);
        assert s == s[..|p|] + s[|p|..];
      } else {
        ReplaceSelf(s[1..], p);
        assert s == [s[0]] + s[1..];
      }
    }
  }

  lemma {:induction false} InsertNothing(s: string)
    ensures InsertEverywhere(s, []) == s
  {
    if s != [] {
      InsertNothing(s[1..]);
      assert s == [s[0]] + s[1..];
    }
  }

  /** Every character of `s.replace(p, r)` comes from `s` or from `r`. */
  lemma {:induction false} ReplaceChars(s: string, p: string, r: string, c: char)
    requires c !in s && c !in r
    ensures c !in ReplaceAll(s, p, r)
    decreases |s|
  {
    if p == [] {
      InsertChars(s, r, c);
    } else if |s| >= |p| {
      if s[..|p|] == p {
        assert forall x :: x in s[|p|..] ==> x in s;
        ReplaceChars(s[|p|..], p, r, c);
      } else {
        assert forall x :: x in s[1..] ==> x in s;
        ReplaceChars(s[1..], p, r, c);
      }
    }
  }

  lemma {:induction false} InsertChars(s: string, r: string, c: char)
    requires c !in s && c !in r
    ensures c !in InsertEverywhere(s, r)
  {
    if s != [] {
      assert forall x :: x in s[1..] ==> x in s;
      InsertChars(s[1..], r, c);
    }
  }

  // ---------------------------------------------------------------------
  // split and join

  /** Python's `sep.join(xs)`. */
  function Join(sep: string, xs: seq<string>): string
  {
    if xs == [] then []
    else if |xs| == 1 then xs[0]
    else xs[0] + sep + Join(sep, xs[1..])
  }

  /** Python's `s.split(sep)` for a non-empty separator: cut at the
      leftmost occurrence, then split what follows it. */
  function SplitOn(s: string, sep: string): (r: seq<string>)
    requires sep != []
    ensures |r| >= 1
    decreases |s|
  {
    match Find(s, sep)
    case None => [s]
    case Some(i) => [s[..i]] + SplitOn(s[i + |sep|..], sep)
  }

  /** Joining the pieces of a split with the separator gives back the text. */
  lemma {:induction false} JoinSplit(s: string, sep: string)
    requires sep != []
    ensures Join(sep, SplitOn(s, sep)) == s
    decreases |s|
  {
    match Find(s, sep)
    case None =>
    case Some(i) =>
      var rest := SplitOn(s[i + |sep|..], sep);
      JoinSplit(s[i + |sep|..], sep);
      assert SplitOn(s, sep) == [s[..i]] + rest;
      JoinCons(s[..i], rest, sep);
      Reassemble(s, i, sep);
  }

  lemma JoinCons(x: string, rest: seq<string>, sep: string)
    requires rest != []
    ensures Join(sep, [x] + rest) == x + sep + Join(sep, rest)
  {
    assert ([x] + rest)[1..] == rest;
  }

  lemma Reassemble(s: string, i: nat, sep: string)
    requires i + |sep| <= |s| && s[i..i + |sep|] == sep
    ensures s[..i] + sep + s[i + |sep|..] == s
  {
  }

  /** Splitting undoes joining with the same separator, provided no piece
      contains the separator's first character. */
  lemma {:induction false} SplitJoin(xs: seq<string>, sep: string)
    requires xs != [] && sep != []
    requires forall k :: 0 <= k < |xs| ==> sep[0] !in xs[k]
    ensures SplitOn(Join(sep, xs), sep) == xs
  {
    NotContainedWithoutFirst(xs[0], sep);
    if |xs| > 1 {
      var tail := Join(sep, xs[1..]);
      var s := xs[0] + sep + tail;
      FindAfterPiece(xs[0], sep, tail);
      SplitAfterPiece(xs[0], sep, tail);
      SplitJoin(xs[1..], sep);
      assert xs == [xs[0]] + xs[1..];
    }
  }

  /** Splitting `a + sep + b` where the first separator is the one after
      `a`. */
  lemma SplitAfterPiece(a: string, sep: string, b: string)
    requires sep != [] && Find(a + sep + b, sep) == Some(|a|)
    ensures SplitOn(a + sep + b, sep) == [a] + SplitOn(b, sep)
  {
    var s := a + sep + b;
    assert s[..|a|] == a;
    assert s[|a| + |sep|..] == b;
  }

  lemma {:induction false} NotContainedWithoutFirst(a: string, sep: string)
    requires sep != [] && sep[0] !in a
    ensures !Contains(a, sep)
  {
    if a != [] {
      assert !StartsWith(a, sep) by {
        if |sep| <= |a| { assert a[..|sep|][0] == a[0]; }
      }
      assert forall x :: x in a[1..] ==> x in a;
      NotContainedWithoutFirst(a[1..], sep);
    }
  }

  lemma {:induction false} FindAfterPiece(a: string, sep: string, b: string)
    requires sep != [] && sep[0] !in a
    ensures Find(a + sep + b, sep) == Some(|a|)
    decreases |a|
  {
    var s := a + sep + b;
    if a == [] {
      assert s[..|sep|] == sep;
    } else {
      assert !StartsWith(s, sep) by { assert s[0] == a[0]; }
      assert s[1..] == a[1..] + sep + b;
      assert sep[0] !in a[1..] by {
        SliceChars(a, 1, |a|);
      }
      FindAfterPiece(a[1..], sep, b);
    }
  }

  // ---------------------------------------------------------------------
  // str(int) and its inverse

  function DigitChar(d: nat): (c: char)
    requires d < 10
    ensures '0' <= c <= '9'
  {
    (48 + d) as char
  }

  predicate IsDigit(c: char) { '0' <= c <= '9' }

  predicate AllDigits(s: string) { forall k :: 0 <= k < |s| ==> IsDigit(s[k]) }

  /** Python's `str(n)` for a natural number: its decimal digits. */
  function NatToString(n: nat): (r: string)
    ensures r != [] && AllDigits(r)
  {
    if n < 10 then [DigitChar(n)] else NatToString(n / 10) + [DigitChar(n % 10)]
  }

  /** Python's `int(s)` for a string of decimal digits. */
  function DigitsValue(s: string): nat
    requires AllDigits(s)
  {
    if s == [] then 0
    else DigitsValue(s[..|s| - 1]) * 10 + (s[|s| - 1] as int - 48)
  }

  /** Reading back the decimal form of `n` gives `n`. */
  lemma {:induction false} DigitsRoundTrip(n: nat)
    ensures DigitsValue(NatToString(n)) == n
  {
    var s := NatToString(n);
    if n >= 10 {
      DigitsRoundTrip(n / 10);
      assert s[..|s| - 1] == NatToString(n / 10);
    }
  }

  /** Python's `str(i)` for an integer. */
  function IntToString(i: int): (r: string)
    ensures r != []
  {
    if i < 0 then "-" + NatToString(-i) else NatToString(i)
  }

  /** Distinct integers print differently. */
  lemma IntToStringInjective(a: int, b: int)
    requires IntToString(a) == IntToString(b)
    ensures a == b
  {
    SignShown(a);
    SignShown(b);
    if a < 0 && b < 0 {
      assert NatToString(-a) == IntToString(a)[1..] == NatToString(-b);
      DigitsRoundTrip(-a);
      DigitsRoundTrip(-b);
    } else if a >= 0 && b >= 0 {
      DigitsRoundTrip(a);
      DigitsRoundTrip(b);
    }
  }

  /** `str(i)` starts with a minus sign exactly for negative `i`. */
  lemma SignShown(i: int)
    ensures IntToString(i)[0] == '-' <==> i < 0
  {
    if i >= 0 {
      assert IsDigit(NatToString(i)[0]);
    }
  }

  /** Python's `int(s)` for an optionally signed decimal numeral. */
  function ParseInt(s: string): Option<int>
  {
    if |s| > 1 && s[0] == '-' && AllDigits(s[1..]) then Some(-(DigitsValue(s[1..]) as int))
    else if s != [] && AllDigits(s) then Some(DigitsValue(s))
    else None
  }

  /** Reading back `str(i)` gives `i`. */
  lemma ParseShown(i: int)
    ensures ParseInt(IntToString(i)) == Some(i)
  {
    if i < 0 {
      var d := NatToString(-i);
      var s := "-" + d;
      assert s[0] == '-' && s[1..] == d && |s| > 1;
      DigitsRoundTrip(-i);
      assert ParseInt(s) == Some(-(DigitsValue(d) as int));
    } else {
      var d := NatToString(i);
      assert d[0] != '-' by { assert IsDigit(d[0]); }
      DigitsRoundTrip(i);
      assert ParseInt(d) == Some(DigitsValue(d));
    }
  }

  // ---------------------------------------------------------------------
  // s * n

  /** Python's `s * n` for `n >= 0`: `n` copies of `s` side by side. */
  function Repeat(s: string, n: nat): (r: string)
    ensures |r| == |s| * n
    ensures forall k :: 0 <= k < |r| ==> r[k] == s[k % |s|]
  {
    if n == 0 then [] else
      var r := s + Repeat(s, n - 1);
      assert |r| == |s| * n;
      assert forall k :: 0 <= k < |s| ==> r[k] == s[k % |s|] by {
        forall k | 0 <= k < |s| ensures r[k] == s[k % |s|] { ModUnique(k, |s|, 0, k); }
      }
      assert forall k :: |s| <= k < |r| ==> r[k] == s[k % |s|] by {
        forall k | |s| <= k < |r| ensures r[k] == s[k % |s|] {
          ModShift(k, |s|);
        }
      }
      r
  }

  lemma MulAtLeast(a: int, m: int)
    requires a >= 1 && m > 0
    ensures a * m >= m
  {}

  lemma Distrib(a: int, b: int, m: int)
    ensures a * m - b * m == (a - b) * m
  {}

  lemma ModUnique(x: int, m: int, q: int, r: int)
    requires m > 0 && 0 <= r < m && x == q * m + r
    ensures x % m == r && x / m == q
  {
    var q', r' := x / m, x % m;
    assert x == q' * m + r';
    Distrib(q', q, m);
    Distrib(q, q', m);
    if q' > q {
      MulAtLeast(q' - q, m);
    } else if q' < q {
      MulAtLeast(q - q', m);
    }
  }

  lemma ModShift(k: int, m: int)
    requires 0 < m <= k
    ensures (k - m) % m == k % m
  {
    var q, r := k / m, k % m;
    Distrib(q, 1, m);
    ModUnique(k - m, m, q - 1, r);
  }
}
