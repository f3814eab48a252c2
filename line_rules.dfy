/** What `to_python` does with the usual forms of each kind of line,
    written with single spaces between the words: the Python line it
    emits and what it does to the block stack, and the lines it rejects. */
module LineRules {
  import opened Results
  import opened Text
  import opened SpecialSymbols
  import opened Patterns
  import opened Translator

  // ---------------------------------------------------------------------
  // else

  /** `else` closes the branch one level out and keeps the stack. */
  lemma ElseLine(stack: seq<Kind>)
    ensures Classify(stack, "else")
         == Outcome(stack, Ok(Pad(if |stack| == 0 then 0 else |stack| - 1) + "else:"))
  {
    assert !IfMatch("else");
    assert StartsWith("else", "else");
    ElsePadding(|stack|);
  }

  /** Anything else after `else` is rejected, and the stack is kept. */
  lemma ElseNotAlone(stack: seq<Kind>, line: string)
    requires StartsWith(line, "else") && line != "else"
    ensures Classify(stack, line) == Outcome(stack, Err(ElseAlone))
  {
    assert line[0] == 'e';
    assert !IfMatch(line);
  }

  // ---------------------------------------------------------------------
  // end

  lemma EndName(name: string)
    requires name != [] && name[0] != ' '
    ensures EndMatch("end " + name) == Some(name)
  {
    var s := "end " + name;
    assert s[..3] == "end";
    assert s[3..] == " " + name;
    assert SpaceRun(" " + name) == 1 by {
      assert (" " + name)[1] == name[0];
    }
  }

  lemma EndNotEarlier(line: string)
    requires StartsWith(line, "end")
    ensures !IfMatch(line) && !StartsWith(line, "else")
    ensures WhileMatch(line).None? && ForMatch(line).None?
  {
    assert line[0] == 'e' && line[1] == 'n';
    if |line| >= 4 {
      assert line[..4][1] == line[1];
    }
    NotLoop(line);
  }

  /** A line that does not start with `l` is no loop header. */
  lemma NotLoop(line: string)
    requires line == [] || line[0] != 'l'
    ensures WhileMatch(line).None? && ForMatch(line).None?
  {
    assert AfterWord(line, "loop").None? by {
      if |line| >= 4 {
        assert line[..4][0] == line[0];
      }
    }
  }

  /** `end k` pops the innermost block. It emits an empty line when that
      block is of kind `k`, names the block popped when it is not, and
      fails when no block is open. */
  lemma EndLine(stack: seq<Kind>, name: string)
    requires name != [] && name[0] != ' '
    ensures var o := Classify(stack, "end " + name);
      if stack == [] then o == Outcome([], Err(PopFromEmpty))
      else
        var top := stack[|stack| - 1];
        o.stack == stack[..|stack| - 1]
        && o.out == (if KindName(top) == name then Ok("") else Err(EndMismatch(top)))
  {
    EndName(name);
    assert ("end " + name)[..3] == "end";
    EndNotEarlier("end " + name);
  }

  // ---------------------------------------------------------------------
  // loop while

  lemma WhileCondition(c: string)
    requires c == [] || c[0] != ' '
    ensures WhileMatch("loop while " + c) == Some(c)
  {
    var t := "while " + c;
    assert "loop while " + c == "loop" + " " + t by {
      ConcatAssoc("loop ", "while ", c);
      assert "loop " + "while " == "loop while ";
    }
    WordSpace("loop", t);
    WhileWord(c);
    LoopWhile("loop while " + c, c);
  }

  /** `while ` and then a condition that does not start with a space. */
  lemma WhileWord(c: string)
    requires c == [] || c[0] != ' '
    ensures AfterWord("while " + c, "while") == Some(6) && ("while " + c)[6..] == c
  {
    var t := "while " + c;
    assert t[..5] == "while" && t[5] == ' ';
    assert SpaceRun(t[5..]) == 1 by {
      assert t[5..] == " " + c;
      if c != [] {
        assert t[5..][1] == c[0];
      }
    }
  }

  lemma LoopWhile(s: string, c: string)
    requires AfterWord(s, "loop") == Some(5)
    requires AfterWord(s[5..], "while") == Some(6) && s[5..][6..] == c
    ensures WhileMatch(s) == Some(c)
  {
    assert s[5 + 6..] == c;
  }

  lemma LoopNotEarlier(line: string)
    requires StartsWith(line, "loop")
    ensures !IfMatch(line) && !StartsWith(line, "else")
  {
    assert line[0] == 'l';
  }

  /** `loop while c` opens a loop block and becomes a `while` header whose
      condition has its comparison signs put in Python's spelling. */
  lemma WhileHeader(stack: seq<Kind>, c: string)
    requires c == [] || c[0] != ' '
    ensures Classify(stack, "loop while " + c)
         == Outcome(stack + [Loop], Ok(Pad(|stack|) + "while " + Normalise(c) + ":"))
  {
    var line := "loop while " + c;
    WhileCondition(c);
    assert line[..4] == "loop";
    LoopNotEarlier(line);
    HeaderPrefix(Pad(|stack|), "while ");
    SpecialHeader(Pad(|stack|) + "while ", c);
  }

  // ---------------------------------------------------------------------
  // loop V from A to B

  /** A word, one space, and text that does not start with a space. */
  lemma WordSpace(word: string, rest: string)
    requires rest != [] && rest[0] != ' '
    ensures AfterWord(word + " " + rest, word) == Some(|word| + 1)
    ensures (word + " " + rest)[|word| + 1..] == rest
  {
    var s := word + " " + rest;
    assert s[..|word|] == word;
    var t := s[|word|..];
    assert t == " " + rest;
    assert SpaceRun(t) == 1 by {
      assert t[0] == ' ' && t[1] == rest[0];
    }
  }

  lemma ForParts(v: string, a: string, b: string)
    requires IsIdent(v) && a != [] && ' ' !in a && b != [] && b[0] != ' '
    ensures ForMatch("loop " + v + " from " + a + " to " + b) == Some((v, a, b))
  {
    var t1 := v + " from " + a + " to " + b;
    assert "loop " + v + " from " + a + " to " + b == "loop" + " " + t1;
    WordSpace("loop", t1);
    LoopPartsOf(v, a, b);
  }

  lemma LoopPartsOf(v: string, a: string, b: string)
    requires IsIdent(v) && a != [] && ' ' !in a && b != [] && b[0] != ' '
    ensures LoopParts(v + " from " + a + " to " + b) == Some((v, a, b))
  {
    var t := v + " from " + a + " to " + b;
    ForAfterLoop(t, v, a, b);
    LoopPartsFrom(t, v, a, b);
  }

  /** The pieces of `t` as `LoopParts` looks for them: the identifier
      `v`, one space, `from` and one space, then the bounds `a` and `b`. */
  predicate LoopShape(t: string, v: string, a: string, b: string) {
    |v| > 0 && IdentRun(t) == |v| && t[..|v|] == v && SpaceRun(t[|v|..]) == 1
    && AfterWord(t[|v| + 1..], "from") == Some(5) && ForBounds(t[|v| + 1..][5..]) == Some((a, b))
  }

  /** `LoopParts` on a text whose pieces are known. */
  lemma LoopPartsFrom(t: string, v: string, a: string, b: string)
    requires LoopShape(t, v, a, b)
    ensures LoopParts(t) == Some((v, a, b))
  {
    var n := |v|;
    LoopPartsSplit(t, n);
    IdentPrefix(t);
    FromBoundsOf(t[..n], t[n + 1..], a, b);
  }

  lemma LoopPartsSplit(t: string, n: nat)
    requires n > 0 && IdentRun(t) == n && SpaceRun(t[n..]) == 1
    ensures LoopParts(t) == FromBounds(t[..n], t[n + 1..])
  {
    assert LoopParts(t) == FromBounds(t[..IdentRun(t)], t[IdentRun(t) + SpaceRun(t[IdentRun(t)..])..]);
  }

  lemma FromBoundsOf(v: string, u: string, a: string, b: string)
    requires IsIdent(v) && AfterWord(u, "from") == Some(5) && ForBounds(u[5..]) == Some((a, b))
    ensures FromBounds(v, u) == Some((v, a, b))
  {
  }

  lemma ForAfterLoop(t1: string, v: string, a: string, b: string)
    requires IsIdent(v) && a != [] && ' ' !in a && b != [] && b[0] != ' '
    requires t1 == v + " from " + a + " to " + b
    ensures LoopShape(t1, v, a, b)
  {
    var bounds := a + " to " + b;
    var w := "from" + " " + bounds;
    var rest := " " + w;
    LoopText(v, a, b);
    IdentWord(v, rest);
    DropFront(v, rest);
    assert SpaceRun(rest) == 1 by {
      assert rest[0] == ' ' && rest[1] == 'f';
    }
    assert t1[|v| + 1..] == w by {
      DropFront(" ", w);
      assert t1[|v| + 1..] == rest[1..];
    }
    WordSpace("from", bounds);
    ForBoundsParts(a, b);
  }

  /** The loop header after `loop `, grouped from the right. */
  lemma LoopText(v: string, a: string, b: string)
    ensures v + " from " + a + " to " + b == v + (" " + ("from" + " " + (a + " to " + b)))
  {
    ConcatAssoc(v + " from " + a, " to ", b);
    ConcatAssoc(v + " from ", a, " to " + b);
    ConcatAssoc(v, " from ", a + (" to " + b));
    ConcatAssoc(a, " to ", b);
    assert " from " == " " + ("from" + " ");
    ConcatAssoc(" ", "from" + " ", a + " to " + b);
    ConcatAssoc("from", " ", a + " to " + b);
  }

  lemma DropFront(x: string, y: string)
    ensures (x + y)[|x|..] == y
  {
  }

  /** An identifier followed by a character that cannot continue it is
      read whole. */
  lemma IdentWord(v: string, rest: string)
    requires IsIdent(v) && rest != [] && !IsIdentChar(rest[0])
    ensures IdentRun(v + rest) == |v| && (v + rest)[..|v|] == v
  {
    var s := v + rest;
    assert s[0] == v[0];
    assert forall k :: 0 <= k < |v| ==> s[k] == v[k];
    assert s[|v|] == rest[0];
    assert s[..|v|] == v;
  }

  lemma ForBoundsParts(a: string, b: string)
    requires a != [] && ' ' !in a && b != [] && b[0] != ' '
    ensures ForBounds(a + " to " + b) == Some((a, b))
  {
    var t := a + " to " + b;
    var d := |a|;
    assert NonSpaceRun(t) == d by {
      assert forall k :: 0 <= k < |a| ==> t[k] == a[k];
      assert t[|a|] == ' ';
    }
    assert SpaceRun(t[d..]) == 1 by {
      assert t[d..] == " to " + b;
      assert t[d..][0] == ' ' && t[d..][1] == 't';
    }
    assert StartsWith(t[d + 1..], "to") by {
      assert t[d + 1..] == "to " + b;
      assert t[d + 1..][..2] == "to";
    }
    assert Rest1(t[d + 3..]) == Some(b) by {
      var r := t[d + 3..];
      assert r == " " + b;
      assert SpaceRun(r) == 1 by {
        assert r[1] == b[0];
      }
      assert r[1..] == b;
    }
    assert t[..d] == a;
    ForBoundsFrom(t, d, b);
  }

  /** `ForBounds` on a text whose pieces are known. */
  lemma ForBoundsFrom(t: string, d: nat, b: string)
    requires 0 < d && NonSpaceRun(t) == d && SpaceRun(t[d..]) == 1
    requires StartsWith(t[d + 1..], "to") && Rest1(t[d + 3..]) == Some(b)
    ensures ForBounds(t) == Some((t[..d], b))
  {
    assert ForBounds(t) == (match Rest1(t[NonSpaceRun(t) + SpaceRun(t[NonSpaceRun(t)..]) + 2..])
      case None => None
      case Some(b) => Some((t[..NonSpaceRun(t)], b)));
  }

  /** `loop V from A to B` opens a loop block and becomes a `for` over
      `range(A, B + 1)`: the upper bound is included. */
  lemma ForHeader(stack: seq<Kind>, v: string, a: string, b: string)
    requires IsIdent(v) && a != [] && ' ' !in a && b != [] && b[0] != ' '
    ensures Classify(stack, "loop " + v + " from " + a + " to " + b)
         == Outcome(stack + [Loop], Ok(Pad(|stack|) + "for " + v + " in range(" + a + ", " + b + " + 1):"))
  {
    var line := "loop " + v + " from " + a + " to " + b;
    ForParts(v, a, b);
    ForNotEarlier(v, a, b);
    ClassifyFor(stack, line);
  }

  lemma ForNotEarlier(v: string, a: string, b: string)
    requires IsIdent(v)
    ensures var line := "loop " + v + " from " + a + " to " + b;
      !IfMatch(line) && !StartsWith(line, "else") && WhileMatch(line).None?
  {
    var line := "loop " + v + " from " + a + " to " + b;
    assert line[..4] == "loop";
    LoopNotEarlier(line);
    assert line == "loop " + v + (" from " + a + " to " + b);
    NotWhile(v, " from " + a + " to " + b);
  }

  lemma ClassifyFor(stack: seq<Kind>, line: string)
    requires !IfMatch(line) && !StartsWith(line, "else") && WhileMatch(line).None? && ForMatch(line).Some?
    ensures var (v, a, b) := ForMatch(line).value;
      Classify(stack, line)
      == Outcome(stack + [Loop], Ok(Pad(|stack|) + "for " + v + " in range(" + a + ", " + b + " + 1):"))
  {
  }

  /** A variable after `loop` is not the word `while`. */
  lemma NotWhile(v: string, rest: string)
    requires IsIdent(v)
    ensures WhileMatch("loop " + v + rest).None?
  {
    var s := "loop " + v + rest;
    var t := v + rest;
    assert s == "loop" + " " + t by {
      ConcatAssoc("loop ", v, rest);
      assert "loop " == "loop" + " ";
    }
    WordSpace("loop", t);
    UpperNotWhile(t);
    LoopNotWhile(s);
  }

  lemma UpperNotWhile(t: string)
    requires t != [] && IsUpper(t[0])
    ensures AfterWord(t, "while").None?
  {
    assert "while"[0] == 'w';
  }

  lemma LoopNotWhile(s: string)
    requires AfterWord(s, "loop") == Some(5) && AfterWord(s[5..], "while").None?
    ensures WhileMatch(s).None?
  {
  }

  // ---------------------------------------------------------------------
  // if ... then

  /** `then` does not occur in `if c ` when it does not occur in `c`. */
  lemma NoThenBefore(c: string)
    requires !Contains(c, "then")
    ensures !Contains("if " + c + " ", "then")
  {
    var s := "if " + c + " ";
    ContainsIff(c, "then");
    forall i | 0 <= i
      ensures !OccursAt(s, "then", i)
    {
      if i < 3 && i + 4 <= |s| {
        assert s[i..i + 4][0] == s[i];
        assert s[..3][i] == s[i];
      } else if 3 <= i && i + 4 <= 3 + |c| {
        assert s[i..i + 4] == c[i - 3..i - 3 + 4];
        assert !OccursAt(c, "then", i - 3);
      } else if 3 <= i && i + 4 <= |s| {
        assert s[i..i + 4][|s| - 1 - i] == s[|s| - 1];
      }
    }
    ContainsIff(s, "then");
  }

  /** `Find` returns the first occurrence. */
  lemma FindFirst(s: string, p: string, f: nat)
    requires OccursAt(s, p, f) && forall i :: 0 <= i < f ==> !OccursAt(s, p, i)
    ensures Find(s, p) == Some(f)
  {
    assert StartsWith(s[f..], p) by {
      assert s[f..][..|p|] == s[f..f + |p|];
    }
    ContainsIff(s, p);
    var g := Find(s, p).value;
    assert OccursAt(s, p, g);
  }

  /** The first occurrence of `p` in `head + p` is the one at the end
      when `head` holds none and ends with a character `p` lacks. */
  lemma FindAfter(head: string, p: string)
    requires p != [] && !Contains(head, p)
    requires head != [] && head[|head| - 1] !in p
    ensures Find(head + p, p) == Some(|head|)
  {
    var s := head + p;
    assert OccursAt(s, p, |head|);
    ContainsIff(head, p);
    forall i | 0 <= i < |head|
      ensures !OccursAt(s, p, i)
    {
      NotEarlier(head, p, i);
    }
    FindFirst(s, p, |head|);
  }

  lemma NotEarlier(head: string, p: string, i: nat)
    requires p != [] && !Contains(head, p) && i < |head|
    requires head[|head| - 1] !in p
    ensures !OccursAt(head + p, p, i)
  {
    var s := head + p;
    ContainsIff(head, p);
    if i + |p| <= |head| {
      assert s[i..i + |p|] == head[i..i + |p|];
      assert !OccursAt(head, p, i);
    } else if i + |p| <= |s| {
      assert s[i..i + |p|][|head| - 1 - i] == head[|head| - 1];
    }
  }

  lemma ThenAtEnd(c: string)
    requires !Contains(c, "then")
    ensures Find("if " + c + " then", "then") == Some(|c| + 4)
  {
    HeadThen(c);
    ConcatAssoc("if " + c, " ", "then");
    SpaceThen();
  }

  lemma SpaceThen()
    ensures " " + "then" == " then"
  {
  }

  lemma HeadThen(c: string)
    requires !Contains(c, "then")
    ensures Find(("if " + c + " ") + "then", "then") == Some(|c| + 4)
  {
    var head := "if " + c + " ";
    assert !Contains(head, "then") by { NoThenBefore(c); }
    assert head != [] && head[|head| - 1] == ' ';
    ThenAfterSpace(head);
  }

  lemma ThenAfterSpace(head: string)
    requires !Contains(head, "then") && head != [] && head[|head| - 1] == ' '
    ensures Find(head + "then", "then") == Some(|head|)
  {
    assert ' ' !in "then";
    FindAfter(head, "then");
  }

  lemma IfLineMatches(c: string)
    ensures IfMatch("if " + c + " then")
  {
    var line := "if " + c + " then";
    assert line[..3] == "if ";
    assert line[3..] == c + " then";
    assert OccursAt(c + " then", " then", |c|);
    ContainsIff(c + " then", " then");
  }

  lemma IfLineSplit(c: string)
    requires !Contains(c, "then")
    ensures SplitOn("if " + c + " then", "then") == ["if " + c + " ", ""]
  {
    var line := "if " + c + " then";
    ThenAtEnd(c);
    assert line[|c| + 4 + 4..] == [];
    assert line[..|c| + 4] == "if " + c + " ";
    assert Find([], "then") == None;
  }

  lemma LeadingSpace(c: string)
    requires c == [] || c[0] != ' '
    ensures SpaceRun(("if " + c + " then")[2..]) == (if c == [] then 2 else 1)
  {
    var t := ("if " + c + " then")[2..];
    assert t == " " + c + " then";
    if c == [] {
      assert t[1] == ' ' && t[2] == 't';
    } else {
      assert t[1] == c[0];
    }
  }

  lemma IfLineCondition(c: string)
    requires !Contains(c, "then") && (c == [] || c[0] != ' ')
    ensures IfMatch("if " + c + " then") && IfCondition("if " + c + " then") == c
  {
    IfLineMatches(c);
    ThenAtEnd(c);
    LeadingSpace(c);
    assert ("if " + c + " then")[3..3 + |c|] == c;
  }

  /** `if c then` opens an if-block and becomes an `if` header whose
      condition has its comparison signs put in Python's spelling. */
  lemma IfHeader(stack: seq<Kind>, c: string)
    requires !Contains(c, "then") && (c == [] || c[0] != ' ')
    ensures Classify(stack, "if " + c + " then")
         == Outcome(stack + [If], Ok(Pad(|stack|) + "if " + Normalise(c) + ":"))
  {
    var line := "if " + c + " then";
    assert IfShape(line, c) by {
      IfLineCondition(c);
      IfLineSplit(c);
      assert Strip("") == [];
    }
    ClassifyIf(stack, line, c);
    HeaderPrefix(Pad(|stack|), "if ");
    SpecialHeader(Pad(|stack|) + "if ", c);
  }

  /** What the `if` rule sees in `if c then`: the line matches, its
      condition is `c`, and nothing but spaces follows the one `then`. */
  predicate IfShape(line: string, c: string) {
    IfMatch(line) && IfCondition(line) == c
    && |SplitOn(line, "then")| == 2 && Strip(SplitOn(line, "then")[1]) == []
  }

  lemma ClassifyIf(stack: seq<Kind>, line: string, c: string)
    requires IfShape(line, c)
    ensures Classify(stack, line) == Outcome(stack + [If], Ok(Special(Pad(|stack|) + "if " + c + ":")))
  {
  }

  // ---------------------------------------------------------------------
  // input, output, function and procedure

  /** None of the rules for block headers, `else` and `end` takes the line. */
  predicate NoBlockRule(line: string) {
    !IfMatch(line) && !StartsWith(line, "else")
    && WhileMatch(line).None? && ForMatch(line).None? && EndMatch(line).None?
  }

  /** A line that starts with a lowercase keyword and a space is taken by
      none of the rules for `if`, `else`, `loop` and `end`. */
  lemma KeywordLine(line: string, word: string)
    requires word in ["input", "output", "function", "procedure"]
    requires StartsWith(line, word) && |line| > |word| && line[|word|] == ' '
    ensures LowerRun(line) == word
    ensures NoBlockRule(line)
  {
    KeywordsLower();
    WordIsRun(line, word);
    NotIfElse(line);
    NotLoopLine(line);
    NotEndLine(line);
  }

  /** `output E` prints `E` and keeps the stack. */
  lemma OutputLine(stack: seq<Kind>, e: string)
    requires e != [] && e[0] != ' '
    ensures Classify(stack, "output " + e) == Outcome(stack, Ok(Pad(|stack|) + "print(" + e + ")"))
  {
    var line := "output " + e;
    OutputShapeOf(line, e);
    ClassifyOutput(stack, line, e);
  }

  /** `output E` matches the output pattern with `E` as its group. */
  lemma OutputParts(e: string)
    requires e != [] && e[0] != ' '
    ensures OutputMatch("output " + e) == Some(e)
  {
    assert "output " + e == "output" + " " + e;
    WordSpace("output", e);
  }

  /** What the rules before the fallthrough see in `output E`. */
  predicate OutputShape(line: string, e: string) {
    NoBlockRule(line) && AfterWord(line, "input").None? && OutputMatch(line) == Some(e)
  }

  lemma OutputShapeOf(line: string, e: string)
    requires e != [] && e[0] != ' ' && line == "output " + e
    ensures OutputShape(line, e)
  {
    assert line == "output" + " " + e;
    WordSpace("output", e);
    KeywordLine(line, "output");
    KeywordsLower();
    NotKeyword(line, "input");
  }

  lemma ClassifyOutput(stack: seq<Kind>, line: string, e: string)
    requires OutputShape(line, e)
    ensures Classify(stack, line) == Outcome(stack, Ok(Pad(|stack|) + "print(" + e + ")"))
  {
  }

  /** An identifier is read whole when nothing follows it. */
  lemma IdentAlone(v: string)
    requires IsIdent(v)
    ensures IdentRun(v) == |v|
  {
  }

  /** `input X` reads a line of text into `X` and keeps the stack. */
  lemma InputLine(stack: seq<Kind>, x: string)
    requires IsIdent(x)
    ensures Classify(stack, "input " + x) == Outcome(stack, Ok(Pad(|stack|) + x + " = input()"))
  {
    var line := "input " + x;
    assert line == "input" + " " + x;
    WordSpace("input", x);
    KeywordLine(line, "input");
    InputParts(x);
    ClassifyInput(stack, line);
  }

  lemma InputParts(x: string)
    requires IsIdent(x)
    ensures InputAsMatch("input " + x).None? && InputMatch("input " + x) == Some(x)
  {
    var line := "input " + x;
    assert line == "input" + " " + x;
    WordSpace("input", x);
    IdentAlone(x);
    assert line[6..] == x;
    assert x[|x|..] == [];
    assert SpaceRun(x[|x|..]) == 0;
    assert x[..|x|] == x;
  }

  lemma ClassifyInput(stack: seq<Kind>, line: string)
    requires NoBlockRule(line)
    requires InputAsMatch(line).None? && InputMatch(line).Some?
    ensures Classify(stack, line) == Outcome(stack, Ok(Pad(|stack|) + InputMatch(line).value + " = input()"))
  {
  }

  /** `input X as T` reads a line into `X` converted by `T` and keeps the
      stack. */
  lemma InputAsLine(stack: seq<Kind>, x: string, t: string)
    requires IsIdent(x) && t != [] && t[0] != ' '
    ensures Classify(stack, "input " + x + " as " + t)
         == Outcome(stack, Ok(Pad(|stack|) + x + " = " + t + "(input())"))
  {
    var line := "input " + x + " as " + t;
    var t1 := x + " as " + t;
    assert line == "input" + " " + t1;
    WordSpace("input", t1);
    KeywordLine(line, "input");
    InputAsMatchParts(x, t);
    ClassifyInputAs(stack, line);
  }

  lemma InputAsMatchParts(x: string, t: string)
    requires IsIdent(x) && t != [] && t[0] != ' '
    ensures InputAsMatch("input " + x + " as " + t) == Some((x, t))
  {
    var line := "input " + x + " as " + t;
    var t1 := x + " as " + t;
    assert line == "input" + " " + t1;
    WordSpace("input", t1);
    InputAsParts(x, t);
  }

  lemma InputAsParts(x: string, t: string)
    requires IsIdent(x) && t != [] && t[0] != ' '
    ensures AsParts(x + " as " + t) == Some((x, t))
  {
    var t1 := x + " as " + t;
    IdentWord(x, " as " + t);
    assert t1 == x + (" as " + t);
    var u := t1[|x|..];
    assert u == " as " + t;
    assert SpaceRun(u) == 1 by {
      assert u[0] == ' ' && u[1] == 'a';
    }
    var w := t1[|x| + 1..];
    assert w == "as" + " " + t;
    WordSpace("as", t);
  }

  lemma ClassifyInputAs(stack: seq<Kind>, line: string)
    requires NoBlockRule(line)
    requires InputAsMatch(line).Some?
    ensures var (x, t) := InputAsMatch(line).value;
      Classify(stack, line) == Outcome(stack, Ok(Pad(|stack|) + x + " = " + t + "(input())"))
  {
  }

  /** `function N(P)` and `procedure N(P)` open a block of their kind and
      become `def N(P):`. */
  lemma DefLine(stack: seq<Kind>, keyword: string, name: string, params: string)
    requires keyword == "function" || keyword == "procedure"
    requires IsIdent(name)
    ensures Classify(stack, keyword + " " + name + "(" + params + ")")
         == Outcome(stack + [if keyword == "function" then Function else Procedure],
                    Ok(Pad(|stack|) + "def " + name + "(" + params + "):"))
  {
    var line := keyword + " " + name + "(" + params + ")";
    DefShapeOf(line, keyword, name, params);
    ClassifyDef(stack, line, keyword, name, params);
  }

  /** What the rules before the fallthrough see in a definition header:
      no earlier rule takes it, and the rule for `keyword` reads `name`
      and `params` from it. */
  predicate DefShape(line: string, keyword: string, name: string, params: string) {
    NoBlockRule(line)
    && InputAsMatch(line).None? && InputMatch(line).None? && OutputMatch(line).None?
    && DefMatch(line, keyword) == Some((name, params))
    && (keyword == "function" || (keyword == "procedure" && DefMatch(line, "function").None?))
  }

  lemma DefShapeOf(line: string, keyword: string, name: string, params: string)
    requires keyword == "function" || keyword == "procedure"
    requires IsIdent(name)
    requires line == keyword + " " + name + "(" + params + ")"
    ensures DefShape(line, keyword, name, params)
  {
    var t1 := name + "(" + params + ")";
    assert line == keyword + " " + t1;
    WordSpace(keyword, t1);
    KeywordLine(line, keyword);
    NotIoLine(line);
    DefParts(keyword, name, params);
    if keyword == "procedure" {
      NotFunction(line);
    }
  }

  lemma NotFunction(line: string)
    requires LowerRun(line) == "procedure"
    ensures DefMatch(line, "function").None?
  {
    KeywordsLower();
    NotKeyword(line, "function");
  }

  lemma DefParts(keyword: string, name: string, params: string)
    requires keyword == "function" || keyword == "procedure"
    requires IsIdent(name)
    ensures DefMatch(keyword + " " + name + "(" + params + ")", keyword) == Some((name, params))
  {
    var line := keyword + " " + name + "(" + params + ")";
    var t1 := name + "(" + params + ")";
    assert line == keyword + " " + t1;
    WordSpace(keyword, t1);
    CallPartsOf(name, params);
  }

  lemma CallPartsOf(name: string, params: string)
    requires IsIdent(name)
    ensures CallParts(name + "(" + params + ")") == Some((name, params))
  {
    var t1 := name + "(" + params + ")";
    IdentWord(name, "(" + params + ")");
    assert t1 == name + ("(" + params + ")");
    assert t1[|name|..] == "(" + params + ")";
    assert t1[|name| + 1..] == params + ")";
    LastParen(params);
  }

  /** The last `)` of `P)` closes it. */
  lemma LastParen(params: string)
    ensures LastIndexOf(params + ")", ')') == Some(|params|)
    ensures (params + ")")[..|params|] == params
  {
    var rest := params + ")";
    assert rest[|rest| - 1] == ')';
  }

  lemma ClassifyDef(stack: seq<Kind>, line: string, keyword: string, name: string, params: string)
    requires DefShape(line, keyword, name, params)
    ensures Classify(stack, line)
         == Outcome(stack + [if keyword == "function" then Function else Procedure],
                    Ok(Pad(|stack|) + "def " + name + "(" + params + "):"))
  {
  }

  // ---------------------------------------------------------------------
  // Lines no rule matches

  /** A word of lowercase letters only. */
  predicate LowerWord(word: string) {
    forall k :: 0 <= k < |word| ==> IsLower(word[k])
  }

  /** The keywords of the line rules are lowercase words. */
  lemma KeywordsLower()
    ensures LowerWord("if") && LowerWord("loop") && LowerWord("end")
    ensures LowerWord("input") && LowerWord("output")
    ensures LowerWord("function") && LowerWord("procedure")
  {
  }

  /** A lowercase word followed by a space is the leading lowercase run. */
  lemma WordIsRun(line: string, word: string)
    requires LowerWord(word)
    requires StartsWith(line, word) && |line| > |word| && line[|word|] == ' '
    ensures LowerRun(line) == word
  {
    var w := LowerRun(line);
    assert line[..|word|] == word;
    assert w == line[..|w|];
  }

  /** A lowercase keyword that is not the leading lowercase run is not
      followed by a space at the start of the line. */
  lemma NotKeyword(line: string, word: string)
    requires LowerWord(word)
    requires LowerRun(line) != word
    ensures AfterWord(line, word).None?
  {
    if AfterWord(line, word).Some? {
      WordIsRun(line, word);
    }
  }

  lemma NotIfElse(line: string)
    requires LowerRun(line) != "if" && !StartsWith(LowerRun(line), "else")
    ensures !IfMatch(line) && !StartsWith(line, "else")
  {
    if IfMatch(line) {
      assert line[..3] == "if ";
      KeywordsLower();
      WordIsRun(line, "if");
    }
    if StartsWith(line, "else") {
      ElseRun(line);
    }
  }

  lemma NotLoopLine(line: string)
    requires LowerRun(line) != "loop"
    ensures WhileMatch(line).None? && ForMatch(line).None?
  {
    KeywordsLower();
    NotKeyword(line, "loop");
  }

  lemma NotEndLine(line: string)
    requires LowerRun(line) != "end"
    ensures EndMatch(line).None?
  {
    if EndMatch(line).Some? {
      KeywordsLower();
      WordIsRun(line, "end");
    }
  }

  lemma NotIoLine(line: string)
    requires LowerRun(line) != "input" && LowerRun(line) != "output"
    ensures InputAsMatch(line).None? && InputMatch(line).None? && OutputMatch(line).None?
  {
    KeywordsLower();
    NotKeyword(line, "input");
    NotKeyword(line, "output");
  }

  lemma NotDefLine(line: string)
    requires LowerRun(line) != "function" && LowerRun(line) != "procedure"
    ensures DefMatch(line, "function").None? && DefMatch(line, "procedure").None?
  {
    KeywordsLower();
    NotKeyword(line, "function");
    NotKeyword(line, "procedure");
  }

  /** No rule before the fallthrough takes a line whose leading lowercase
      word is none of the rule keywords and does not start with `else`. */
  lemma NoRuleFor(line: string)
    requires LowerRun(line) !in ["if", "loop", "end", "input", "output", "function", "procedure"]
    requires !StartsWith(LowerRun(line), "else")
    ensures NoBlockRule(line)
    ensures InputAsMatch(line).None? && InputMatch(line).None? && OutputMatch(line).None?
    ensures DefMatch(line, "function").None? && DefMatch(line, "procedure").None?
  {
    NotIfElse(line);
    NotLoopLine(line);
    NotEndLine(line);
    NotIoLine(line);
    NotDefLine(line);
  }

  /** A line that starts with `else` has a lowercase run that does. */
  lemma ElseRun(line: string)
    requires StartsWith(line, "else")
    ensures StartsWith(LowerRun(line), "else")
  {
    var w := LowerRun(line);
    assert forall k :: 0 <= k < 4 ==> IsLower(line[k]) by {
      assert line[..4] == "else";
    }
    assert w[..4] == line[..4];
  }

  /** A line that no rule takes and that does not start with a quote is
      rejected when its leading lowercase word is not one of the allowed
      words, naming that word; the stack is kept. */
  lemma UndefinedWord(stack: seq<Kind>, line: string)
    requires line == [] || line[0] != '"'
    requires LowerRun(line) != [] && LowerRun(line) !in AllowedLower
    requires LowerRun(line) !in ["loop", "end", "output", "function", "procedure"]
    requires !StartsWith(LowerRun(line), "else")
    ensures Classify(stack, line) == Outcome(stack, Err(NotDefined(LowerRun(line))))
  {
    NoRuleFor(line);
    FallthroughPlain(Pad(|stack|), line);
  }

  /** The fallthrough of a line that does not start with a quote: rejected
      when the leading lowercase word is not allowed or the line starts
      with a placeholder, and otherwise indented and kept as it is. */
  lemma FallthroughPlain(pad: string, line: string)
    requires line == [] || line[0] != '"'
    ensures var w := LowerRun(line);
      Fallthrough(pad, line)
      == if w != [] && w !in AllowedLower then Err(NotDefined(w))
         else if PlaceholderMatch(line) then Err(NoSuchString)
         else Ok(pad + line)
  {
  }

  /** A line no rule takes, that does not start with a quote or a
      placeholder, is accepted exactly when its leading lowercase word is
      empty or allowed, and it is then only indented. */
  lemma KeptLine(stack: seq<Kind>, line: string)
    requires line == [] || (line[0] != '"' && line[0] != '<')
    requires LowerRun(line) !in ["if", "loop", "end", "input", "output", "function", "procedure"]
    requires !StartsWith(LowerRun(line), "else")
    ensures Classify(stack, line).stack == stack
    ensures Classify(stack, line).out.Ok? <==> LowerRun(line) == [] || LowerRun(line) in AllowedLower
    ensures Classify(stack, line).out.Ok? ==> Classify(stack, line).out.value == Pad(|stack|) + line
  {
    NoRuleFor(line);
    FallthroughPlain(Pad(|stack|), line);
    if line != [] {
      assert !PlaceholderMatch(line) by {
        assert |line| >= 3 ==> line[..3][0] == line[0];
      }
    }
  }
}
