/** `special`, the rewrite the translator applies to `if` and `loop while`
    headers: a fixed chain of `str.replace` calls that turns the pseudocode
    symbols `≠ ≤ ≥` and the single `=` of an equality test into Python's
    `!= <= >= ==`, followed by a step that shortens a leading run of `=`.

    `Special` is the chain as written. `Normalise` is an independent
    character-by-character account of what the chain does, and
    `SpecialIsNormalise` proves that the two agree on every line that does
    not itself start with `=` (every header the translator builds starts
    with indentation and a keyword). */
module SpecialSymbols {
  import opened Text

  const NotEqualSign: char := '\U{2260}'     // ≠
  const LessEqualSign: char := '\U{2264}'    // ≤
  const GreaterEqualSign: char := '\U{2265}' // ≥

  /** The replacement table, in the order the dictionary lists it. */
  const SpecialTable: seq<(string, string)> := [
    ([NotEqualSign], "!="),
    ([LessEqualSign], "<="),
    ([GreaterEqualSign], ">="),
    ("=", "=="),
    ("!==", "!="),
    ("<==", "<="),
    (">==", ">=")
  ]

  /** The longest prefix of `s` made of `=` only. */
  function EqualsRun(s: string): (r: string)
    ensures |r| <= |s| && r == s[..|r|]
    ensures forall k :: 0 <= k < |r| ==> r[k] == '='
    ensures |r| == |s| || s[|r|] != '='
  {
    if s != [] && s[0] == '=' then [s[0]] + EqualsRun(s[1..]) else []
  }

  /** `if m := r_equals.match(line): line = line.replace(m.group(0), "==")`:
      when the line starts with two or more `=`, every occurrence of that
      leading run is replaced by `==`. */
  function EqualsStep(line: string): string
  {
    if StartsWith(line, "==") then ReplaceAll(line, EqualsRun(line), "==") else line
  }

  /** `special(line)`, as written. */
  function Special(line: string): string
  {
    EqualsStep(ReplaceEach(line, SpecialTable))
  }

  // ---------------------------------------------------------------------
  // The reference definition

  /** The characters after which an `=` is already part of an operator. */
  predicate Guard(c: char) {
    c == '!' || c == '<' || c == '>'
  }

  /** What one character of the source line becomes, given whether the
      character before it is `!`, `<` or `>`. */
  function Out(c: char, guarded: bool): string
  {
    if c == NotEqualSign then "!="
    else if c == LessEqualSign then "<="
    else if c == GreaterEqualSign then ">="
    else if c == '=' then (if guarded then "=" else "==")
    else [c]
  }

  /** Every character through `Out`, `guarded` saying whether the character
      before `s` is `!`, `<` or `>`. */
  function NormaliseFrom(s: string, guarded: bool): string
  {
    if s == [] then [] else Out(s[0], guarded) + NormaliseFrom(s[1..], Guard(s[0]))
  }

  /** The reference meaning of `special`: `≠ ≤ ≥` become `!= <= >=`, an `=`
      after `!`, `<` or `>` stays, and every other `=` is doubled. */
  function Normalise(s: string): string
  {
    NormaliseFrom(s, false)
  }

  // ---------------------------------------------------------------------
  // The chain, step by step

  /** `s.replace(c, r)` for a single character `c`. */
  function MapChar(s: string, c: char, r: string): string
  {
    if s == [] then [] else (if s[0] == c then r else [s[0]]) + MapChar(s[1..], c, r)
  }

  lemma {:induction false} ReplaceOneChar(s: string, c: char, r: string)
    ensures ReplaceAll(s, [c], r) == MapChar(s, c, r)
  {
    if s != [] {
      ReplaceOneChar(s[1..], c, r);
      assert s[..1] == [s[0]];
    }
  }

  lemma {:induction false} MapCharConcat(a: string, b: string, c: char, r: string)
    ensures MapChar(a + b, c, r) == MapChar(a, c, r) + MapChar(b, c, r)
  {
    if a != [] {
      MapCharConcat(a[1..], b, c, r);
      assert (a + b)[1..] == a[1..] + b;
    } else {
      assert a + b == b;
    }
  }

  /** The first three replacements: each symbol becomes its two-character
      operator. */
  function ExpandChar(c: char): string
  {
    if c == NotEqualSign then "!="
    else if c == LessEqualSign then "<="
    else if c == GreaterEqualSign then ">="
    else [c]
  }

  function Expand(s: string): string
  {
    if s == [] then [] else ExpandChar(s[0]) + Expand(s[1..])
  }

  /** The first three replacements one after the other. */
  function ExpandByMaps(s: string): string
  {
    MapChar(MapChar(MapChar(s, NotEqualSign, "!="), LessEqualSign, "<="), GreaterEqualSign, ">=")
  }

  lemma {:induction false} ExpandSteps(s: string)
    ensures MapChar(MapChar(MapChar(s, NotEqualSign, "!="), LessEqualSign, "<="),
                    GreaterEqualSign, ">=") == Expand(s)
  {
    if s != [] {
      assert s == [s[0]] + s[1..];
      ExpandByMapsConcat([s[0]], s[1..]);
      ExpandByMapsChar(s[0]);
      ExpandSteps(s[1..]);
    }
  }

  lemma ExpandByMapsConcat(a: string, b: string)
    ensures ExpandByMaps(a + b) == ExpandByMaps(a) + ExpandByMaps(b)
  {
    var a1, b1 := MapChar(a, NotEqualSign, "!="), MapChar(b, NotEqualSign, "!=");
    var a2, b2 := MapChar(a1, LessEqualSign, "<="), MapChar(b1, LessEqualSign, "<=");
    MapCharConcat(a, b, NotEqualSign, "!=");
    MapCharConcat(a1, b1, LessEqualSign, "<=");
    MapCharConcat(a2, b2, GreaterEqualSign, ">=");
  }

  lemma ExpandByMapsChar(c: char)
    ensures ExpandByMaps([c]) == ExpandChar(c)
  {
    MapOne(c, NotEqualSign, "!=");
    if c == NotEqualSign {
      MapTwo('!', '=', LessEqualSign, "<=");
      MapTwo('!', '=', GreaterEqualSign, ">=");
    } else {
      MapOne(c, LessEqualSign, "<=");
      if c == LessEqualSign {
        MapTwo('<', '=', GreaterEqualSign, ">=");
      } else {
        MapOne(c, GreaterEqualSign, ">=");
      }
    }
  }

  lemma MapOne(c: char, x: char, r: string)
    ensures MapChar([c], x, r) == if c == x then r else [c]
  {
    assert [c][1..] == [];
  }

  lemma MapTwo(p: char, q: char, x: char, r: string)
    requires p != x && q != x
    ensures MapChar([p, q], x, r) == [p, q]
  {
    assert [p, q][1..] == [q];
    MapOne(q, x, r);
  }

  /** The `=` step and the three that follow it, on a text that has already
      been through the first three: each `=` becomes `=` after a character
      in `guards` and `==` elsewhere; `prev` is the character before `t`. */
  function Collapsed(t: string, prev: char, guards: set<char>): string
  {
    if t == [] then []
    else (if t[0] == '=' then (if prev in guards then "=" else "==") else [t[0]])
         + Collapsed(t[1..], t[0], guards)
  }

  lemma {:induction false} DoubledIsCollapsed(t: string, prev: char)
    ensures MapChar(t, '=', "==") == Collapsed(t, prev, {})
  {
    if t != [] {
      DoubledIsCollapsed(t[1..], t[0]);
    }
  }

  /** `Collapsed` starts with `=` exactly when its argument does. */
  lemma CollapsedHead(t: string, prev: char, guards: set<char>)
    requires t != []
    ensures Collapsed(t, prev, guards)[0] == '=' <==> t[0] == '='
  {
  }

  /** One of the last three replacements, `x==` to `x=`, adds `x` to the
      guards. */
  lemma {:induction false} Collapse(t: string, prev: char, guards: set<char>, x: char)
    requires x !in guards && x != '='
    requires prev != x || t == [] || t[0] != '='
    ensures ReplaceAll(Collapsed(t, prev, guards), [x, '=', '='], [x, '='])
         == Collapsed(t, prev, guards + {x})
    decreases |t|, 1
  {
    if t == [] {
    } else if t[0] == '=' {
      CollapseAtEquals(t, prev, guards, x);
    } else if t[0] == x && |t| >= 2 && t[1] == '=' {
      CollapseAtMatch(t, prev, guards, x);
    } else {
      CollapseAtOther(t, prev, guards, x);
    }
  }

  lemma {:induction false} CollapseAtEquals(t: string, prev: char, guards: set<char>, x: char)
    requires x !in guards && x != '=' && prev != x
    requires t != [] && t[0] == '='
    ensures ReplaceAll(Collapsed(t, prev, guards), [x, '=', '='], [x, '='])
         == Collapsed(t, prev, guards + {x})
    decreases |t|, 0
  {
    var p := [x, '=', '='];
    var rest := Collapsed(t[1..], '=', guards);
    var e := if prev in guards then "=" else "==";
    CollapsedCons(t, prev, guards);
    CollapsedCons(t, prev, guards + {x});
    Collapse(t[1..], '=', guards, x);
    if prev in guards {
      ReplaceAfterEquals(rest, x);
    } else {
      ReplaceAfterTwoEquals(rest, x);
    }
  }

  /** `x==` cannot start at an `=`. */
  lemma ReplaceAfterEquals(rest: string, x: char)
    requires x != '='
    ensures ReplaceAll("=" + rest, [x, '=', '='], [x, '=']) == "=" + ReplaceAll(rest, [x, '=', '='], [x, '='])
  {
    var s := "=" + rest;
    assert !StartsWith(s, [x, '=', '=']) by {
      if |s| >= 3 {
        assert s[..3][0] == '=';
      }
    }
    ReplaceStep(s, [x, '=', '='], [x, '=']);
    assert s[1..] == rest;
  }

  lemma ReplaceAfterTwoEquals(rest: string, x: char)
    requires x != '='
    ensures ReplaceAll("==" + rest, [x, '=', '='], [x, '=']) == "==" + ReplaceAll(rest, [x, '=', '='], [x, '='])
  {
    var r := ReplaceAll(rest, [x, '=', '='], [x, '=']);
    assert "==" + rest == "=" + ("=" + rest);
    ReplaceAfterEquals("=" + rest, x);
    ReplaceAfterEquals(rest, x);
    ConcatAssoc("=", "=", r);
  }

  lemma {:induction false} CollapseAtMatch(t: string, prev: char, guards: set<char>, x: char)
    requires x !in guards && x != '='
    requires |t| >= 2 && t[0] == x && t[1] == '='
    ensures ReplaceAll(Collapsed(t, prev, guards), [x, '=', '='], [x, '='])
         == Collapsed(t, prev, guards + {x})
    decreases |t|, 0
  {
    var p := [x, '=', '='];
    var g' := guards + {x};
    var rest := Collapsed(t[2..], '=', guards);
    var rest' := Collapsed(t[2..], '=', g');
    assert Collapsed(t, prev, guards) == [x] + ("==" + rest) by {
      assert t[1..][1..] == t[2..];
      CollapsedCons(t[1..], x, guards);
      CollapsedCons(t, prev, guards);
    }
    assert Collapsed(t, prev, g') == [x] + ("=" + rest') by {
      assert t[1..][1..] == t[2..];
      CollapsedCons(t[1..], x, g');
      CollapsedCons(t, prev, g');
    }
    PairThenRest(x, rest);
    ReplaceHere([x] + ("==" + rest), p, [x, '=']);
    Collapse(t[2..], '=', guards, x);
    PairThen(x, rest');
  }

  lemma PairThenRest(x: char, rest: string)
    ensures [x] + ("==" + rest) == [x, '=', '='] + rest
    ensures StartsWith([x] + ("==" + rest), [x, '=', '='])
    ensures ([x] + ("==" + rest))[3..] == rest
  {
    assert [x] + ("==" + rest) == [x, '=', '='] + rest;
  }

  lemma PairThen(x: char, r: string)
    ensures [x, '='] + r == [x] + ("=" + r)
  {
  }

  lemma CollapsedCons(t: string, prev: char, guards: set<char>)
    requires t != []
    ensures Collapsed(t, prev, guards)
         == (if t[0] == '=' then (if prev in guards then "=" else "==") else [t[0]])
            + Collapsed(t[1..], t[0], guards)
  {
  }

  lemma {:induction false} CollapseAtOther(t: string, prev: char, guards: set<char>, x: char)
    requires x !in guards && x != '='
    requires t != [] && t[0] != '=' && !(t[0] == x && |t| >= 2 && t[1] == '=')
    ensures ReplaceAll(Collapsed(t, prev, guards), [x, '=', '='], [x, '='])
         == Collapsed(t, prev, guards + {x})
    decreases |t|, 0
  {
    var p := [x, '=', '='];
    var c := Collapsed(t, prev, guards);
    var tail := Collapsed(t[1..], t[0], guards);
    assert c == [t[0]] + tail;
    if |t| >= 2 {
      CollapsedHead(t[1..], t[0], guards);
    }
    assert !StartsWith(c, p) by {
      if |p| <= |c| && t[0] == x {
        assert c[1] == tail[0];
      }
    }
    ReplaceStep(c, p, [x, '=']);
    assert c[1..] == tail;
    Collapse(t[1..], t[0], guards, x);
  }

  /** The reference definition is what the collapsing does to the expanded
      text. */
  lemma {:induction false} CollapsedExpand(s: string, prev: char)
    ensures Collapsed(Expand(s), prev, {'!', '<', '>'}) == NormaliseFrom(s, Guard(prev))
  {
    var g := {'!', '<', '>'};
    if s != [] {
      var c := s[0];
      var rest := Expand(s[1..]);
      assert Expand(s) == ExpandChar(c) + rest;
      assert NormaliseFrom(s, Guard(prev)) == Out(c, Guard(prev)) + NormaliseFrom(s[1..], Guard(c));
      if c == NotEqualSign || c == LessEqualSign || c == GreaterEqualSign {
        CollapsedExpand(s[1..], '=');
        CollapsedSymbol(ExpandChar(c)[0], rest, prev);
        assert ExpandChar(c) == [ExpandChar(c)[0]] + "=";
        ConcatAssoc([ExpandChar(c)[0]], "=", rest);
        assert Out(c, Guard(prev)) == ExpandChar(c) && !Guard(c);
      } else {
        CollapsedExpand(s[1..], c);
        CollapsedCons([c] + rest, prev, g);
        assert ([c] + rest)[1..] == rest;
      }
    }
  }

  /** A symbol's expansion `x=` is kept whole, and the text after it is
      collapsed after an `=`. */
  lemma CollapsedSymbol(x: char, rest: string, prev: char)
    requires x == '!' || x == '<' || x == '>'
    ensures Collapsed([x] + ("=" + rest), prev, {'!', '<', '>'})
         == ([x] + "=") + Collapsed(rest, '=', {'!', '<', '>'})
  {
    var g := {'!', '<', '>'};
    var t := [x] + ("=" + rest);
    CollapsedCons(t, prev, g);
    assert t[1..] == "=" + rest;
    CollapsedCons("=" + rest, x, g);
    assert ("=" + rest)[1..] == rest;
    ConcatAssoc([x], "=", Collapsed(rest, '=', g));
  }

  /** The whole table, unrolled. */
  lemma TableSteps(line: string)
    ensures ReplaceEach(line, SpecialTable)
         == ReplaceAll(ReplaceAll(ReplaceAll(ReplaceAll(ReplaceAll(ReplaceAll(ReplaceAll(
              line, [NotEqualSign], "!="), [LessEqualSign], "<="), [GreaterEqualSign], ">="),
              "=", "=="), "!==", "!="), "<==", "<="), ">==", ">=")
  {
    var t := SpecialTable;
    assert t[..0] == [];
    assert t[..7] == t;
    ReplaceEachPrefix(line, t, 1);
    ReplaceEachPrefix(line, t, 2);
    ReplaceEachPrefix(line, t, 3);
    ReplaceEachPrefix(line, t, 4);
    ReplaceEachPrefix(line, t, 5);
    ReplaceEachPrefix(line, t, 6);
    ReplaceEachPrefix(line, t, 7);
  }

  /** The seven replacements of the table take a line to the collapsed
      form of its expansion. */
  lemma TableIsCollapsed(line: string)
    ensures ReplaceEach(line, SpecialTable) == Collapsed(Expand(line), ' ', {'!', '<', '>'})
  {
    TableSteps(line);
    var s1 := ReplaceAll(line, [NotEqualSign], "!=");
    ReplaceOneChar(line, NotEqualSign, "!=");
    var s2 := ReplaceAll(s1, [LessEqualSign], "<=");
    ReplaceOneChar(s1, LessEqualSign, "<=");
    var s3 := ReplaceAll(s2, [GreaterEqualSign], ">=");
    ReplaceOneChar(s2, GreaterEqualSign, ">=");
    ExpandSteps(line);
    var e := Expand(line);
    assert s3 == e;
    var s4 := ReplaceAll(e, "=", "==");
    ReplaceOneChar(e, '=', "==");
    DoubledIsCollapsed(e, ' ');
    var s5 := ReplaceAll(s4, "!==", "!=");
    Collapse(e, ' ', {}, '!');
    assert {} + {'!'} == {'!'};
    var s6 := ReplaceAll(s5, "<==", "<=");
    Collapse(e, ' ', {'!'}, '<');
    assert {'!'} + {'<'} == {'!', '<'};
    Collapse(e, ' ', {'!', '<'}, '>');
    assert {'!', '<'} + {'>'} == {'!', '<', '>'};
  }

  /** `special` as written and the reference definition agree on every line
      that does not start with `=`. */
  lemma SpecialIsNormalise(line: string)
    requires line == [] || line[0] != '='
    ensures Special(line) == Normalise(line)
  {
    var e := Expand(line);
    TableIsCollapsed(line);
    CollapsedExpand(line, ' ');
    var n := Collapsed(e, ' ', {'!', '<', '>'});
    if line != [] {
      assert e == ExpandChar(line[0]) + Expand(line[1..]);
      assert e[0] != '=';
      CollapsedHead(e, ' ', {'!', '<', '>'});
      assert !StartsWith(n, "==");
    }
  }

  // ---------------------------------------------------------------------
  // What the reference definition promises

  /** Whether the last character of `a` is `!`, `<` or `>`; `guarded`
      when `a` is empty. */
  function GuardAfter(a: string, guarded: bool): bool
  {
    if a == [] then guarded else Guard(a[|a| - 1])
  }

  /** Normalising a concatenation normalises each part, the second in the
      context of the last character of the first. */
  lemma {:induction false} NormaliseConcat(a: string, b: string, guarded: bool)
    ensures NormaliseFrom(a + b, guarded)
         == NormaliseFrom(a, guarded) + NormaliseFrom(b, GuardAfter(a, guarded))
  {
    if a == [] {
      assert a + b == b;
    } else {
      var c := a[0];
      var t := a[1..];
      assert NormaliseFrom(a + b, guarded) == Out(c, guarded) + NormaliseFrom(t + b, Guard(c)) by {
        var ab := a + b;
        assert ab[0] == c && ab[1..] == t + b;
      }
      NormaliseConcat(t, b, Guard(c));
      assert GuardAfter(t, Guard(c)) == GuardAfter(a, guarded) by {
        if t != [] {
          assert t[|t| - 1] == a[|a| - 1];
        }
      }
      var o, x, y := Out(c, guarded), NormaliseFrom(t, Guard(c)), NormaliseFrom(b, GuardAfter(a, guarded));
      assert NormaliseFrom(a, guarded) == o + x;
      ConcatAssoc(o, x, y);
    }
  }

  /** A text without `=`, `≠`, `≤` or `≥` is left as it is. */
  predicate Plain(s: string) {
    forall k :: 0 <= k < |s| ==>
      s[k] != '=' && s[k] != NotEqualSign && s[k] != LessEqualSign && s[k] != GreaterEqualSign
  }

  lemma {:induction false} NormalisePlain(s: string, guarded: bool)
    requires Plain(s)
    ensures NormaliseFrom(s, guarded) == s
  {
    if s != [] {
      NormalisePlain(s[1..], Guard(s[0]));
      assert s == [s[0]] + s[1..];
    }
  }

  /** A line containing none of `= ≠ ≤ ≥` comes out of `special` unchanged. */
  lemma SpecialPlain(line: string)
    requires Plain(line)
    ensures Special(line) == line
  {
    SpecialIsNormalise(line);
    NormalisePlain(line, false);
  }

  /** Every `=` follows `!`, `<` or `>` (`guarded` says whether the
      character before `s` is one of them). */
  predicate EqualsGuarded(s: string, guarded: bool) {
    (s != [] && s[0] == '=' ==> guarded)
    && forall k :: 1 <= k < |s| && s[k] == '=' ==> Guard(s[k - 1])
  }

  /** The operators that already are Python's: every `=` follows `!`, `<`
      or `>`, and none of `≠ ≤ ≥` occurs. */
  predicate PythonComparisons(s: string) {
    (forall k :: 0 <= k < |s| ==>
       s[k] != NotEqualSign && s[k] != LessEqualSign && s[k] != GreaterEqualSign)
    && EqualsGuarded(s, false)
  }

  lemma {:induction false} NormaliseComparisons(s: string, guarded: bool)
    requires forall k :: 0 <= k < |s| ==>
       s[k] != NotEqualSign && s[k] != LessEqualSign && s[k] != GreaterEqualSign
    requires EqualsGuarded(s, guarded)
    ensures NormaliseFrom(s, guarded) == s
  {
    if s != [] {
      assert EqualsGuarded(s[1..], Guard(s[0])) by {
        forall k | 1 <= k < |s[1..]| && s[1..][k] == '='
          ensures Guard(s[1..][k - 1])
        {
          assert s[k + 1] == '=';
        }
        if |s| > 1 {
          assert s[1..][0] == s[1];
        }
      }
      NormaliseComparisons(s[1..], Guard(s[0]));
      assert s[0] == '=' ==> guarded;
      assert Out(s[0], guarded) == [s[0]];
      assert s == [s[0]] + s[1..];
    }
  }

  /** `!=`, `<=` and `>=` (and text without `=`) come out of `special`
      unchanged. */
  lemma SpecialKeepsComparisons(line: string)
    requires PythonComparisons(line)
    ensures Special(line) == line
  {
    assert line == [] || line[0] != '=';
    SpecialIsNormalise(line);
    NormaliseComparisons(line, false);
  }

  /** A header `<prefix><condition>:` whose prefix is plain and ends in
      neither `!`, `<` nor `>`: `special` rewrites the condition alone, as if
      the condition stood on its own. */
  lemma SpecialHeader(prefix: string, cond: string)
    requires prefix != [] && prefix[0] != '=' && Plain(prefix) && !Guard(prefix[|prefix| - 1])
    ensures Special(prefix + cond + ":") == prefix + Normalise(cond) + ":"
  {
    SpecialIsNormalise(prefix + cond + ":");
    NormaliseConcat(prefix + cond, ":", false);
    NormaliseConcat(prefix, cond, false);
    NormalisePlain(prefix, false);
    NormalisePlain(":", if prefix + cond == [] then false else Guard((prefix + cond)[|prefix + cond| - 1]));
  }

  /** Each symbol of the condition becomes its Python operator, in context:
      normalising `a + [c] + b` puts `Out(c, …)` between the normalised
      parts. */
  lemma NormaliseAround(a: string, c: char, b: string)
    ensures Normalise(a + [c] + b)
         == Normalise(a) + Out(c, GuardAfter(a, false)) + NormaliseFrom(b, Guard(c))
  {
    NormaliseConcat(a + [c], b, false);
    NormaliseConcat(a, [c], false);
    assert GuardAfter(a + [c], false) == Guard(c);
    assert NormaliseFrom([c], GuardAfter(a, false)) == Out(c, GuardAfter(a, false));
  }

  lemma NormaliseCons(c: char, t: string, guarded: bool)
    ensures NormaliseFrom([c] + t, guarded) == Out(c, guarded) + NormaliseFrom(t, Guard(c))
  {
    assert ([c] + t)[1..] == t;
  }

  /** `==` in a condition becomes `====`: both of its characters are
      doubled. */
  lemma DoubleEqualsDoubled(a: string, b: string)
    requires !GuardAfter(a, false)
    ensures Normalise(a + "==" + b) == Normalise(a) + "====" + NormaliseFrom(b, false)
  {
    var na, nb := Normalise(a), NormaliseFrom(b, false);
    assert Normalise(a + "==" + b) == na + "==" + ("==" + nb) by {
      var t := ['='] + b;
      assert a + "==" + b == a + ['='] + t;
      NormaliseAround(a, '=', t);
      NormaliseCons('=', b, false);
      assert Out('=', false) == "==" && !Guard('=');
    }
    DoubledEquals(na, nb);
  }

  lemma DoubledEquals(x: string, y: string)
    ensures x + "==" + ("==" + y) == x + "====" + y
  {
    ConcatAssoc(x + "==", "==", y);
    ConcatAssoc(x, "==", "==");
    assert "==" + "==" == "====";
  }
}
