/** The regular expressions the translator matches lines against, as
    functions on one line of text (a line never holds a newline, so `.`
    matches any character of it). Python's `re.match` is anchored at the
    start of the line and backtracks; for every pattern here the tokens
    that follow a repeated class (`' +'`, `[A-Z_0-9]*`, `[^ ]+`) begin
    with a character the class excludes, so the only successful choice is
    the longest run, which is what these functions take. */
module Patterns {
  import opened Results
  import opened Text

  // ---------------------------------------------------------------------
  // Runs of characters

  /** The length of the longest prefix of `s` whose characters satisfy `p`. */
  function RunOf(s: string, p: char -> bool): (n: nat)
    ensures n <= |s|
    ensures forall k :: 0 <= k < n ==> p(s[k])
    ensures n == |s| || !p(s[n])
  {
    if s != [] && p(s[0]) then 1 + RunOf(s[1..], p) else 0
  }

  predicate IsUpper(c: char) { 'A' <= c <= 'Z' }

  /** `t` is the end of `s`. */
  predicate EndsWith(s: string, t: string) {
    |t| <= |s| && s[|s| - |t|..] == t
  }

  /** A whole identifier `[A-Z][A-Z_0-9]*`. */
  predicate IsIdent(v: string) {
    v != [] && IsUpper(v[0]) && forall k :: 0 <= k < |v| ==> IsIdentChar(v[k])
  }

  /** The identifier at the start of `s`. */
  lemma IdentPrefix(s: string)
    requires IdentRun(s) > 0
    ensures IsIdent(s[..IdentRun(s)])
  {
  }
  predicate IsLower(c: char) { 'a' <= c <= 'z' }
  predicate IsIdentChar(c: char) { IsUpper(c) || c == '_' || IsDigit(c) }

  /** ` *` and ` +`: the number of leading spaces. */
  function SpaceRun(s: string): (n: nat)
    ensures n <= |s| && (forall k :: 0 <= k < n ==> s[k] == ' ') && (n == |s| || s[n] != ' ')
  {
    RunOf(s, c => c == ' ')
  }

  /** `[A-Z][A-Z_0-9]*`: the length of the identifier `s` starts with, 0
      when it starts with none. */
  function IdentRun(s: string): (n: nat)
    ensures n <= |s|
    ensures n > 0 <==> s != [] && IsUpper(s[0])
    ensures forall k :: 0 <= k < n ==> IsIdentChar(s[k])
    ensures n == 0 || n == |s| || !IsIdentChar(s[n])
  {
    if s != [] && IsUpper(s[0]) then 1 + RunOf(s[1..], IsIdentChar) else 0
  }

  /** `[a-z]+`: the leading run of lowercase ASCII letters. */
  function LowerRun(s: string): (w: string)
    ensures |w| <= |s| && w == s[..|w|]
    ensures forall k :: 0 <= k < |w| ==> IsLower(w[k])
    ensures |w| == |s| || !IsLower(s[|w|])
  {
    s[..RunOf(s, IsLower)]
  }

  /** `[0-9]+`. */
  function DigitRun(s: string): (n: nat)
    ensures n <= |s| && (forall k :: 0 <= k < n ==> IsDigit(s[k])) && (n == |s| || !IsDigit(s[n]))
  {
    RunOf(s, IsDigit)
  }

  /** `[^ ]+`. */
  function NonSpaceRun(s: string): (n: nat)
    ensures n <= |s| && (forall k :: 0 <= k < n ==> s[k] != ' ') && (n == |s| || s[n] == ' ')
  {
    RunOf(s, c => c != ' ')
  }

  // ---------------------------------------------------------------------
  // Building blocks of the line patterns

  /** `word +`: where the text after the word and its spaces starts. */
  function AfterWord(s: string, word: string): (r: Option<nat>)
    ensures r.Some? <==> StartsWith(s, word) && |s| > |word| && s[|word|] == ' '
    ensures r.Some? ==>
      |word| < r.value <= |s| && s[..|word|] == word
      && (forall k :: |word| <= k < r.value ==> s[k] == ' ')
      && (r.value == |s| || s[r.value] != ' ')
  {
    if StartsWith(s, word) && SpaceRun(s[|word|..]) >= 1 then
      Some(|word| + SpaceRun(s[|word|..]))
    else None
  }

  /** A line the word and its spaces start with starts with the word and
      one space. */
  lemma WordThenSpace(s: string, word: string)
    requires AfterWord(s, word).Some?
    ensures StartsWith(s, word + " ")
  {
    assert s[..|word| + 1] == s[..|word|] + [s[|word|]];
  }

  /** ` +(.+)`: one or more spaces, then at least one character; when
      nothing follows the spaces, the regex gives the last space back. */
  function Rest1(s: string): (r: Option<string>)
    ensures r.Some? <==> |s| >= 2 && s[0] == ' '
    ensures r.Some? ==>
      r.value != [] && |r.value| < |s| && EndsWith(s, r.value)
      && (forall k :: 0 <= k < |s| - |r.value| ==> s[k] == ' ')
    ensures r.Some? && r.value[0] == ' ' ==> r.value == " " && forall k :: 0 <= k < |s| ==> s[k] == ' '
  {
    var n := SpaceRun(s);
    if n >= 1 && |s| >= 2 then
      var m := if n < |s| then n else |s| - 1;
      Some(s[m..])
    else None
  }

  /** The index of the last occurrence of `c` in `s`. */
  function LastIndexOf(s: string, c: char): (r: Option<nat>)
    ensures r.Some? ==>
      r.value < |s| && s[r.value] == c && forall k :: r.value < k < |s| ==> s[k] != c
    ensures r.None? <==> c !in s
  {
    if s == [] then None
    else if s[|s| - 1] == c then Some(|s| - 1)
    else
      assert s == s[..|s| - 1] + [s[|s| - 1]];
      LastIndexOf(s[..|s| - 1], c)
  }

  // ---------------------------------------------------------------------
  // The line patterns

  /** `if +(.*) +then` matches: the line starts with `if ` and ` then`
      occurs somewhere after that. */
  predicate IfMatch(s: string) {
    StartsWith(s, "if ") && Contains(s[3..], " then")
  }

  lemma IfFindsThen(s: string)
    requires IfMatch(s)
    ensures Find(s, "then").Some? && Find(s, "then").value >= 1
  {
    ContainsIff(s[3..], " then");
    var i :| OccursAt(s[3..], " then", i);
    assert s[i + 4..i + 8] == s[3..][i + 1..i + 5];
    assert OccursAt(s, "then", i + 4);
    ContainsIff(s, "then");
    assert s[..3][0] == 'i';
  }

  /** Group 1 of `if +(.*) +then` on a line in which `then` occurs exactly
      once, at `t`: the text from the end of the spaces after `if` up to
      the space before `then`. (When those spaces run straight into
      `then`, the regex gives one space back and the group is empty.) */
  function IfCondition(s: string): (c: string)
    requires IfMatch(s)
  {
    IfFindsThen(s);
    var t := Find(s, "then").value;
    var q := 2 + SpaceRun(s[2..]);
    var g := if q < t - 1 then q else t - 1;
    s[g..t - 1]
  }

  /** A word that starts the text after position `i` occurs in the text. */
  lemma WordInside(s: string, i: nat, word: string)
    requires i <= |s| && AfterWord(s[i..], word).Some?
    ensures Contains(s, word)
  {
    assert s[i..][..|word|] == s[i..i + |word|];
    assert OccursAt(s, word, i);
    ContainsIff(s, word);
  }

  /** `loop +while +(.*)`: the condition. */
  function WhileMatch(s: string): (r: Option<string>)
    ensures r.Some? ==> StartsWith(s, "loop ") && Contains(s, "while") && EndsWith(s, r.value)
  {
    match AfterWord(s, "loop")
    case None => None
    case Some(i) =>
      WordThenSpace(s, "loop");
      match AfterWord(s[i..], "while")
      case None => None
      case Some(j) =>
        WordInside(s, i, "while");
        Some(s[i + j..])
  }

  /** `loop +([A-Z][A-Z_0-9]*) +from +([^ ]+) +to +(.+)`: the variable,
      the lower bound and the upper bound. */
  function ForMatch(s: string): (r: Option<(string, string, string)>)
    ensures r.Some? ==> StartsWith(s, "loop ") && IsIdent(r.value.0)
    ensures r.Some? ==> r.value.1 != [] && ' ' !in r.value.1 && r.value.2 != []
  {
    match AfterWord(s, "loop")
    case None => None
    case Some(i) =>
      WordThenSpace(s, "loop");
      LoopParts(s[i..])
  }

  /** `([A-Z][A-Z_0-9]*) +from +([^ ]+) +to +(.+)`, what follows `loop` and
      its spaces. */
  function LoopParts(t: string): (r: Option<(string, string, string)>)
    ensures r.Some? ==> IsIdent(r.value.0)
    ensures r.Some? ==> r.value.1 != [] && ' ' !in r.value.1 && r.value.2 != []
  {
    var v := IdentRun(t);
    var k := SpaceRun(t[v..]);
    if v == 0 || k == 0 then None
    else
      IdentPrefix(t);
      FromBounds(t[..v], t[v + k..])
  }

  /** `from +([^ ]+) +to +(.+)` after the loop variable `v`. */
  function FromBounds(v: string, u: string): (r: Option<(string, string, string)>)
    requires IsIdent(v)
    ensures r.Some? ==> r.value.0 == v && IsIdent(r.value.0)
    ensures r.Some? ==> r.value.1 != [] && ' ' !in r.value.1 && r.value.2 != []
  {
    match AfterWord(u, "from")
    case None => None
    case Some(j) =>
      match ForBounds(u[j..])
      case None => None
      case Some((a, b)) => Some((v, a, b))
  }

  /** `([^ ]+) +to +(.+)`, what follows `from` and its spaces. */
  function ForBounds(t: string): (r: Option<(string, string)>)
    ensures r.Some? ==> r.value.0 != [] && ' ' !in r.value.0 && r.value.1 != []
  {
    var d := NonSpaceRun(t);
    var e := SpaceRun(t[d..]);
    if d == 0 || e == 0 || !StartsWith(t[d + e..], "to") then None
    else
      match Rest1(t[d + e + 2..])
      case None => None
      case Some(b) =>
        assert forall x :: 0 <= x < d ==> t[..d][x] != ' ';
        Some((t[..d], b))
  }

  /** `end +(.+)`: the name of the block being closed. */
  function EndMatch(s: string): (r: Option<string>)
    ensures r.Some? <==> StartsWith(s, "end") && |s| >= 5 && s[3] == ' '
    ensures r.Some? ==> r.value != [] && EndsWith(s, r.value)
  {
    if StartsWith(s, "end") then
      match Rest1(s[3..])
      case None => None
      case Some(name) => Some(name)
    else None
  }

  /** `input +([A-Z][A-Z_0-9]*) +as +(.*)`: the variable and the type. */
  function InputAsMatch(s: string): (r: Option<(string, string)>)
    ensures r.Some? ==> StartsWith(s, "input ") && IsIdent(r.value.0)
  {
    match AfterWord(s, "input")
    case None => None
    case Some(i) => WordThenSpace(s, "input"); AsParts(s[i..])
  }

  /** `([A-Z][A-Z_0-9]*) +as +(.*)`, what follows `input` and its spaces. */
  function AsParts(t: string): (r: Option<(string, string)>)
    ensures r.Some? ==> IsIdent(r.value.0)
  {
    var v := IdentRun(t);
    var k := SpaceRun(t[v..]);
    if v == 0 || k == 0 then None
    else
      var t2 := t[v + k..];
      match AfterWord(t2, "as")
      case None => None
      case Some(j) =>
        IdentPrefix(t);
        Some((t[..v], t2[j..]))
  }

  /** `input +([A-Z][A-Z_0-9]*)`: the variable (what follows it is not
      looked at). */
  function InputMatch(s: string): (r: Option<string>)
    ensures r.Some? ==> StartsWith(s, "input ") && IsIdent(r.value)
  {
    match AfterWord(s, "input")
    case None => None
    case Some(i) =>
      WordThenSpace(s, "input");
      var t1 := s[i..];
      var v := IdentRun(t1);
      if v == 0 then None
      else
        IdentPrefix(t1);
        Some(t1[..v])
  }

  /** `output +(.*)`: the expression. */
  function OutputMatch(s: string): (r: Option<string>)
    ensures r.Some? ==> StartsWith(s, "output ") && EndsWith(s, r.value)
  {
    match AfterWord(s, "output")
    case None => None
    case Some(i) => WordThenSpace(s, "output"); Some(s[i..])
  }

  /** `<keyword> +([A-Z][A-Z_0-9]*)\((.*)\)`: the name and the text from
      the opening parenthesis up to the last closing one. */
  function DefMatch(s: string, keyword: string): (r: Option<(string, string)>)
    ensures r.Some? ==> StartsWith(s, keyword) && IsIdent(r.value.0)
  {
    match AfterWord(s, keyword)
    case None => None
    case Some(i) => CallParts(s[i..])
  }

  /** `([A-Z][A-Z_0-9]*)\((.*)\)`, what follows the keyword and its spaces. */
  function CallParts(t: string): (r: Option<(string, string)>)
    ensures r.Some? ==> IsIdent(r.value.0)
  {
    var v := IdentRun(t);
    if v == 0 || !StartsWith(t[v..], "(") then None
    else
      var rest := t[v + 1..];
      match LastIndexOf(rest, ')')
      case None => None
      case Some(p) =>
        IdentPrefix(t);
        Some((t[..v], rest[..p]))
  }

  /** `"([^"]*)"`: the text between a leading quote and the next one. */
  function QuotedMatch(s: string): (r: Option<string>)
    ensures r.Some? ==>
      |s| >= 2 + |r.value| && s[0] == '"' && s[1..1 + |r.value|] == r.value
      && s[1 + |r.value|] == '"' && '"' !in r.value
    ensures r.None? <==> s == [] || s[0] != '"' || '"' !in s[1..]
  {
    if s != [] && s[0] == '"' then
      ContainsChar(s[1..], '"');
      match Find(s[1..], "\"")
      case None => None
      case Some(g) =>
        forall k | 0 <= k < g ensures s[1..][k] != '"' {
          assert !StartsWith(s[1..][k..], "\"");
          assert s[1..][k..][..1] == [s[1..][k]];
        }
        assert s[1..1 + g] == s[1..][..g];
        Some(s[1..1 + g])
    else None
  }

  /** `<<<([0-9]+)>>>` matches at the start. */
  predicate PlaceholderMatch(s: string) {
    StartsWith(s, "<<<") && DigitRun(s[3..]) >= 1 && StartsWith(s[3 + DigitRun(s[3..])..], ">>>")
  }

  // ---------------------------------------------------------------------
  // new Array( ... ): `new +(Array|Collection|Queue|Stack) *\(`

  const ContainerNames: seq<string> := ["Array", "Collection", "Queue", "Stack"]

  /** The first of the names `s` starts with. */
  function NamePrefix(s: string, names: seq<string>): (r: Option<string>)
    ensures r.Some? ==> r.value in names && StartsWith(s, r.value)
    ensures r.None? ==> forall n :: n in names ==> !StartsWith(s, n)
  {
    if names == [] then None
    else if StartsWith(s, names[0]) then Some(names[0])
    else NamePrefix(s, names[1..])
  }

  /** A match of the pattern at the start of `s`: the container name and
      the length of the matched text. */
  function NewMatch(s: string): (r: Option<(string, nat)>)
    ensures r.Some? ==> r.value.0 in ContainerNames && |r.value.0| + 1 < r.value.1 <= |s|
  {
    match AfterWord(s, "new")
    case None => None
    case Some(i) =>
      match NamePrefix(s[i..], ContainerNames)
      case None => None
      case Some(name) =>
        var b := SpaceRun(s[i + |name|..]);
        if StartsWith(s[i + |name| + b..], "(") then Some((name, i + |name| + b + 1)) else None
  }

  /** `r_new.search(line)`: the pattern matches somewhere. */
  predicate HasNew(s: string)
    decreases |s|
  {
    NewMatch(s).Some? || (s != [] && HasNew(s[1..]))
  }

  /** `re.sub(r_new, r"\1(", line)`: every match, left to right without
      overlap, becomes the bare name and `(`. Each replacement is shorter
      than what it replaces. */
  function SubNew(s: string): (r: string)
    ensures |r| <= |s|
    ensures HasNew(s) ==> |r| < |s|
    ensures !HasNew(s) ==> r == s
    decreases |s|
  {
    if s == [] then []
    else match NewMatch(s)
      case Some((name, n)) => name + "(" + SubNew(s[n..])
      case None => [s[0]] + SubNew(s[1..])
  }

  /** `while r_new.search(line): line = re.sub(r_new, r"\1(", line)`. */
  function DropNew(s: string): (r: string)
    ensures !HasNew(r)
    decreases |s|
  {
    if HasNew(s) then DropNew(SubNew(s)) else s
  }

  /** A line holding one `new <container>(`, with no `new` before it and
      no match after it, loses just the `new ` and its space: the name, the
      parenthesis and everything else are kept in place. */
  lemma DropNewOne(a: string, name: string, b: string)
    requires name in ContainerNames && !Contains(a, "new") && !HasNew(b)
    ensures DropNew(a + "new " + name + "(" + b) == a + name + "(" + b
  {
    var y := "new " + name + "(" + b;
    var z := name + "(" + b;
    assert a + "new " + name + "(" + b == a + y by {
      ConcatAssoc(a, "new " + name + "(", b);
      ConcatAssoc(a, "new " + name, "(");
      ConcatAssoc(a, "new ", name);
    }
    assert a + name + "(" + b == a + z by {
      ConcatAssoc(a, name + "(", b);
      ConcatAssoc(a, name, "(");
    }
    assert HasNew(a + y) && SubNew(a + y) == a + z by {
      NewRewritten(name, b);
      assert y[0] == 'n';
      NoNewInside(a, y);
      SubNewSkip(a, y);
    }
    assert !HasNew(a + z) by {
      NoNewInName(name, b);
      SubNewSkip(name + "(", b);
      NameStart(name, "(" + b);
      ConcatAssoc(name, "(", b);
      NoNewInside(a, z);
      SubNewSkip(a, z);
    }
  }

  /** A container name starts with none of the letters of `new`. */
  lemma NameStart(name: string, rest: string)
    requires name in ContainerNames
    ensures var s := name + rest; s != [] && s[0] != 'n' && s[0] != 'e' && s[0] != 'w'
  {
    assert (name + rest)[0] == name[0];
  }

  /** `new <container>(` at the start is rewritten to the bare name and the
      parenthesis. */
  lemma NewRewritten(name: string, b: string)
    requires name in ContainerNames && !HasNew(b)
    ensures HasNew("new " + name + "(" + b)
    ensures SubNew("new " + name + "(" + b) == name + "(" + b
  {
    var y := "new " + name + "(" + b;
    NewAtStart(name, b);
    assert y[5 + |name|..] == b;
  }

  /** No match can start at any of the first `|x|` positions of `x + y`. */
  predicate NoNewFrom(x: string, y: string) {
    forall k :: 0 <= k < |x| ==> !StartsWith((x + y)[k..], "new")
  }

  /** The rewrite passes over a prefix where no match starts. */
  lemma {:induction false} SubNewSkip(x: string, y: string)
    requires NoNewFrom(x, y)
    ensures SubNew(x + y) == x + SubNew(y)
    ensures HasNew(x + y) == HasNew(y)
    decreases |x|
  {
    if x == [] {
      assert x + y == y;
    } else {
      var s := x + y;
      assert s[0..] == s;
      NoMatchHere(s);
      assert s[1..] == x[1..] + y by {
        DropFirst(x, y);
      }
      forall k | 0 <= k < |x| - 1 ensures !StartsWith((x[1..] + y)[k..], "new") {
        assert (x[1..] + y)[k..] == s[k + 1..];
      }
      SubNewSkip(x[1..], y);
      Recons(x, SubNew(y));
    }
  }

  lemma DropFirst(x: string, y: string)
    requires x != []
    ensures (x + y)[1..] == x[1..] + y
  {
  }

  lemma Recons(x: string, t: string)
    requires x != []
    ensures [x[0]] + (x[1..] + t) == x + t
  {
    ConcatAssoc([x[0]], x[1..], t);
    assert [x[0]] + x[1..] == x;
  }

  /** Where no `new` starts, the rewrite copies one character and moves on. */
  lemma NoMatchHere(s: string)
    requires s != [] && !StartsWith(s, "new")
    ensures SubNew(s) == [s[0]] + SubNew(s[1..])
    ensures HasNew(s) == HasNew(s[1..])
  {
    assert NewMatch(s).None?;
  }

  /** Text without `new` cannot start a match that runs into what follows
      it, when that starts with neither `e` nor `w`. */
  lemma NoNewInside(a: string, y: string)
    requires !Contains(a, "new") && y != [] && y[0] != 'e' && y[0] != 'w'
    ensures NoNewFrom(a, y)
  {
    ContainsIff(a, "new");
    forall k | 0 <= k < |a| ensures !StartsWith((a + y)[k..], "new") {
      var w := (a + y)[k..];
      if k + 3 <= |a| {
        assert w[..3] == a[k..k + 3];
        assert !OccursAt(a, "new", k);
      } else if k + 2 == |a| {
        assert |w| >= 3 ==> w[2] == y[0];
      } else {
        assert |w| >= 2 ==> w[1] == y[0];
      }
    }
  }

  /** No match starts inside a container name and its parenthesis. */
  lemma NoNewInName(name: string, b: string)
    requires name in ContainerNames
    ensures NoNewFrom(name + "(", b)
  {
    var x := name + "(";
    forall k | 0 <= k < |x| ensures !StartsWith((x + b)[k..], "new") {
      var w := (x + b)[k..];
      assert w[0] == x[k];
      assert x[k] != 'n' || (k + 1 < |x| && x[k + 1] == '(');
      if k + 1 < |x| {
        assert w[1] == x[k + 1];
      }
    }
  }

  /** `new <container>(` at the start is a match of its full length. */
  lemma NewAtStart(name: string, b: string)
    requires name in ContainerNames
    ensures NewMatch("new " + name + "(" + b) == Some((name, 5 + |name|))
  {
    var y := "new " + name + "(" + b;
    assert AfterWord(y, "new") == Some(4) by {
      assert y[..3] == "new";
      assert SpaceRun(y[3..]) == 1 by {
        assert y[3..][0] == ' ' && y[3..][1] == name[0];
      }
    }
    assert y[4..] == name + ("(" + b);
    assert NamePrefix(y[4..], ContainerNames) == Some(name) by {
      NamePrefixOf(name, "(" + b);
    }
    assert y[4 + |name|..] == "(" + b;
    NewMatchFrom(y, name);
  }

  lemma NewMatchFrom(y: string, name: string)
    requires AfterWord(y, "new") == Some(4) && NamePrefix(y[4..], ContainerNames) == Some(name)
    requires 4 + |name| < |y| && y[4 + |name|] == '('
    ensures NewMatch(y) == Some((name, 5 + |name|))
  {
    assert y[4..][|name|..] == y[4 + |name|..];
    assert SpaceRun(y[4 + |name|..]) == 0;
  }

  /** The names start with distinct letters, so a text that starts with one
      of them is found to start with that one. */
  lemma NamePrefixOf(name: string, rest: string)
    requires name in ContainerNames
    ensures NamePrefix(name + rest, ContainerNames) == Some(name)
  {
    var s := name + rest;
    assert s[..|name|] == name;
    assert s[0] == name[0];
  }
}
