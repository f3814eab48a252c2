/** The Python text the translator produces has one line per line of the
    pseudocode: the program is split at its newlines, every line is
    rewritten without ever gaining a newline, and the rewritten lines are
    joined with newlines again, so splitting the result at its newlines
    gives back exactly the rewritten lines, line `k` of the output being
    the translation of line `k` of the program. */
module OutputLines {
  import opened Results
  import opened Text
  import opened SpecialSymbols
  import opened Patterns
  import opened Translator

  /** The text holds no newline. */
  predicate OneLine(s: string) {
    '\n' !in s
  }

  lemma SliceOneLine(s: string, a: nat, b: nat)
    requires a <= b <= |s| && OneLine(s)
    ensures OneLine(s[a..b])
  {
    assert forall x :: x in s[a..b] ==> x in s;
  }

  lemma SuffixOneLine(s: string, t: string)
    requires EndsWith(s, t) && OneLine(s)
    ensures OneLine(t)
  {
    SliceOneLine(s, |s| - |t|, |s|);
    assert s[|s| - |t|..] == s[|s| - |t|..|s|];
  }

  lemma PadOneLine(n: nat)
    ensures OneLine(Pad(n))
  {
  }

  // ---------------------------------------------------------------------
  // Splitting the program

  /** No piece of `s.split("\n")` holds a newline. */
  lemma {:induction false} SplitPiecesOneLine(s: string)
    ensures forall k :: 0 <= k < |SplitOn(s, "\n")| ==> OneLine(SplitOn(s, "\n")[k])
    decreases |s|
  {
    match Find(s, "\n")
    case None =>
      ContainsChar(s, '\n');
    case Some(i) =>
      FirstPieceOneLine(s, i);
      SplitPiecesOneLine(s[i + 1..]);
      assert SplitOn(s, "\n") == [s[..i]] + SplitOn(s[i + 1..], "\n");
  }

  /** The text before the first newline holds none. */
  lemma FirstPieceOneLine(s: string, i: nat)
    requires Find(s, "\n") == Some(i)
    ensures OneLine(s[..i])
  {
    forall k | 0 <= k < i ensures s[k] != '\n' {
      assert !StartsWith(s[k..], "\n");
      assert s[k..][..1] == [s[k]];
    }
    assert forall x :: x in s[..i] ==> x != '\n';
  }

  // ---------------------------------------------------------------------
  // Preparing a line

  /** A chain of replacements none of which inserts a newline keeps a text
      without one free of newlines. */
  lemma {:induction false} ReplaceEachOneLine(s: string, table: seq<(string, string)>)
    requires OneLine(s)
    requires forall k :: 0 <= k < |table| ==> OneLine(table[k].1)
    ensures OneLine(ReplaceEach(s, table))
  {
    if table != [] {
      var init := table[..|table| - 1];
      ReplaceEachOneLine(s, init);
      ReplaceChars(ReplaceEach(s, init), table[|table| - 1].0, table[|table| - 1].1, '\n');
    }
  }

  lemma NameOneLine(name: string)
    requires name in ContainerNames
    ensures OneLine(name + "(")
  {
  }

  lemma OneLineConcat(a: string, b: string)
    requires OneLine(a) && OneLine(b)
    ensures OneLine(a + b)
  {
  }

  lemma {:induction false} SubNewOneLine(s: string)
    requires OneLine(s)
    ensures OneLine(SubNew(s))
    decreases |s|
  {
    if s != [] {
      match NewMatch(s)
      case Some((name, n)) =>
        SliceOneLine(s, n, |s|);
        SubNewOneLine(s[n..]);
        NameOneLine(name);
        OneLineConcat(name + "(", SubNew(s[n..]));
      case None =>
        SliceOneLine(s, 1, |s|);
        SubNewOneLine(s[1..]);
        OneLineConcat([s[0]], SubNew(s[1..]));
    }
  }

  lemma {:induction false} DropNewOneLine(s: string)
    requires OneLine(s)
    ensures OneLine(DropNew(s))
    decreases |s|
  {
    if HasNew(s) {
      SubNewOneLine(s);
      DropNewOneLine(SubNew(s));
    }
  }

  lemma PrepareOneLine(raw: string)
    requires OneLine(raw)
    ensures OneLine(Prepare(Strip(raw)))
  {
    var s := Strip(raw);
    assert OneLine(s);
    PrepareKeepsOneLine(s);
  }

  lemma PrepareKeepsOneLine(s: string)
    requires OneLine(s)
    ensures OneLine(Prepare(s))
  {
    ReplaceEachOneLine(s, Substitutions);
    DropNewOneLine(ReplaceEach(s, Substitutions));
  }

  // ---------------------------------------------------------------------
  // The rules

  lemma SpecialOneLine(line: string)
    requires OneLine(line)
    ensures OneLine(Special(line))
  {
    ReplaceEachOneLine(line, SpecialTable);
    var t := ReplaceEach(line, SpecialTable);
    if StartsWith(t, "==") {
      ReplaceChars(t, EqualsRun(t), "==", '\n');
    }
  }

  /** An identifier holds no newline. */
  lemma IdentOneLine(v: string)
    requires IsIdent(v)
    ensures OneLine(v)
  {
  }

  lemma IfConditionOneLine(line: string)
    requires OneLine(line) && IfMatch(line)
    ensures OneLine(IfCondition(line))
  {
    IfFindsThen(line);
    var t := Find(line, "then").value;
    var q := 2 + SpaceRun(line[2..]);
    var g := if q < t - 1 then q else t - 1;
    SliceOneLine(line, g, t - 1);
  }

  /** The bounds of `loop V from A to B` are pieces of the line. */
  lemma ForBoundsOneLine(line: string)
    requires OneLine(line) && ForMatch(line).Some?
    ensures OneLine(ForMatch(line).value.1) && OneLine(ForMatch(line).value.2)
  {
    var a := AfterWord(line, "loop");
    if a.Some? {
      SliceOneLine(line, a.value, |line|);
      LoopPartsOneLine(line[a.value..]);
    }
  }

  lemma LoopPartsOneLine(t: string)
    requires OneLine(t)
    ensures LoopParts(t).Some? ==> OneLine(LoopParts(t).value.1) && OneLine(LoopParts(t).value.2)
  {
    if LoopParts(t).Some? {
      var v := IdentRun(t);
      var u := t[v + SpaceRun(t[v..])..];
      var j := AfterWord(u, "from").value;
      assert ForBounds(u[j..]) == Some((LoopParts(t).value.1, LoopParts(t).value.2));
      SliceOneLine(t, v + SpaceRun(t[v..]), |t|);
      SliceOneLine(u, j, |u|);
      BoundsOneLine(u[j..]);
    }
  }

  lemma BoundsOneLine(t: string)
    requires OneLine(t)
    ensures ForBounds(t).Some? ==> OneLine(ForBounds(t).value.0) && OneLine(ForBounds(t).value.1)
  {
    var d := NonSpaceRun(t);
    var e := SpaceRun(t[d..]);
    if d != 0 && e != 0 && StartsWith(t[d + e..], "to") {
      SliceOneLine(t, 0, d);
      SliceOneLine(t, d + e + 2, |t|);
      var r := Rest1(t[d + e + 2..]);
      if r.Some? {
        SuffixOneLine(t[d + e + 2..], r.value);
      }
    }
  }

  /** The parameters of `function N(P)` are a piece of the line. */
  lemma ParamsOneLine(line: string, keyword: string)
    requires OneLine(line) && DefMatch(line, keyword).Some?
    ensures OneLine(DefMatch(line, keyword).value.1)
  {
    var a := AfterWord(line, keyword);
    if a.Some? {
      var t1 := line[a.value..];
      SliceOneLine(line, a.value, |line|);
      var v := IdentRun(t1);
      if v != 0 && StartsWith(t1[v..], "(") {
        var rest := t1[v + 1..];
        SliceOneLine(t1, v + 1, |t1|);
        var p := LastIndexOf(rest, ')');
        if p.Some? {
          SliceOneLine(rest, 0, p.value);
        }
      }
    }
  }

  lemma IfOneLine(stack: seq<Kind>, line: string)
    requires OneLine(line) && IfMatch(line) && Classify(stack, line).out.Ok?
    ensures OneLine(Classify(stack, line).out.value)
  {
    PadOneLine(|stack|);
    IfConditionOneLine(line);
    SpecialOneLine(Pad(|stack|) + "if " + IfCondition(line) + ":");
  }

  lemma ElseOneLine(stack: seq<Kind>, line: string)
    requires !IfMatch(line) && StartsWith(line, "else") && Classify(stack, line).out.Ok?
    ensures OneLine(Classify(stack, line).out.value)
  {
    ElsePadding(|stack|);
    PadOneLine(if |stack| == 0 then 0 else |stack| - 1);
  }

  lemma WhileOneLine(stack: seq<Kind>, line: string)
    requires OneLine(line) && !IfMatch(line) && !StartsWith(line, "else") && WhileMatch(line).Some?
    ensures OneLine(Classify(stack, line).out.value)
  {
    PadOneLine(|stack|);
    SuffixOneLine(line, WhileMatch(line).value);
    SpecialOneLine(Pad(|stack|) + "while " + WhileMatch(line).value + ":");
  }

  lemma ForOneLine(stack: seq<Kind>, line: string)
    requires OneLine(line) && !IfMatch(line) && !StartsWith(line, "else") && WhileMatch(line).None?
    requires ForMatch(line).Some?
    ensures OneLine(Classify(stack, line).out.value)
  {
    var (v, a, b) := ForMatch(line).value;
    IdentOneLine(v);
    ForBoundsOneLine(line);
    ForText(|stack|, v, a, b);
  }

  lemma ForText(n: nat, v: string, a: string, b: string)
    requires OneLine(v) && OneLine(a) && OneLine(b)
    ensures OneLine(Pad(n) + "for " + v + " in range(" + a + ", " + b + " + 1):")
  {
    PadOneLine(n);
  }

  lemma IoOneLine(stack: seq<Kind>, line: string)
    requires OneLine(line) && !IfMatch(line) && !StartsWith(line, "else") && WhileMatch(line).None?
    requires ForMatch(line).None? && EndMatch(line).None?
    requires InputAsMatch(line).Some? || InputMatch(line).Some? || OutputMatch(line).Some?
    ensures OneLine(Classify(stack, line).out.value)
  {
    if InputAsMatch(line).Some? {
      var (x, t) := InputAsMatch(line).value;
      IdentOneLine(x);
      InputAsTypeOneLine(line);
      InputAsText(|stack|, x, t);
    } else if InputMatch(line).Some? {
      IdentOneLine(InputMatch(line).value);
      InputText(|stack|, InputMatch(line).value);
    } else {
      SuffixOneLine(line, OutputMatch(line).value);
      OutputText(|stack|, OutputMatch(line).value);
    }
  }

  /** The type in `input X as T` is the rest of the line. */
  lemma InputAsTypeOneLine(line: string)
    requires OneLine(line) && InputAsMatch(line).Some?
    ensures OneLine(InputAsMatch(line).value.1)
  {
    var a := AfterWord(line, "input");
    if a.Some? {
      var t1 := line[a.value..];
      SliceOneLine(line, a.value, |line|);
      var v := IdentRun(t1);
      var k := SpaceRun(t1[v..]);
      if v != 0 && k != 0 {
        var t2 := t1[v + k..];
        SliceOneLine(t1, v + k, |t1|);
        var b := AfterWord(t2, "as");
        if b.Some? {
          SliceOneLine(t2, b.value, |t2|);
        }
      }
    }
  }

  lemma InputAsText(n: nat, x: string, t: string)
    requires OneLine(x) && OneLine(t)
    ensures OneLine(Pad(n) + x + " = " + t + "(input())")
  {
    PadOneLine(n);
  }

  lemma InputText(n: nat, x: string)
    requires OneLine(x)
    ensures OneLine(Pad(n) + x + " = input()")
  {
    PadOneLine(n);
  }

  lemma OutputText(n: nat, x: string)
    requires OneLine(x)
    ensures OneLine(Pad(n) + "print(" + x + ")")
  {
    PadOneLine(n);
  }

  lemma DefOneLine(stack: seq<Kind>, line: string)
    requires OneLine(line) && !IfMatch(line) && !StartsWith(line, "else") && WhileMatch(line).None?
    requires ForMatch(line).None? && EndMatch(line).None?
    requires InputAsMatch(line).None? && InputMatch(line).None? && OutputMatch(line).None?
    requires DefMatch(line, "function").Some? || DefMatch(line, "procedure").Some?
    ensures OneLine(Classify(stack, line).out.value)
  {
    var keyword := if DefMatch(line, "function").Some? then "function" else "procedure";
    var (name, params) := DefMatch(line, keyword).value;
    IdentOneLine(name);
    ParamsOneLine(line, keyword);
    DefText(|stack|, name, params);
  }

  lemma DefText(n: nat, name: string, params: string)
    requires OneLine(name) && OneLine(params)
    ensures OneLine(Pad(n) + "def " + name + "(" + params + "):")
  {
    PadOneLine(n);
  }

  lemma FallthroughOneLine(stack: seq<Kind>, line: string)
    requires OneLine(line) && !IfMatch(line) && !StartsWith(line, "else") && WhileMatch(line).None?
    requires ForMatch(line).None? && EndMatch(line).None?
    requires InputAsMatch(line).None? && InputMatch(line).None? && OutputMatch(line).None?
    requires DefMatch(line, "function").None? && DefMatch(line, "procedure").None?
    requires Classify(stack, line).out.Ok?
    ensures OneLine(Classify(stack, line).out.value)
  {
    PadOneLine(|stack|);
    var q := QuotedMatch(line);
    if q.Some? {
      ReplaceChars(line, q.value, "<<<0>>>", '\n');
    }
    assert Classify(stack, line).out == Fallthrough(Pad(|stack|), line);
  }

  /** An accepted line without a newline is rewritten to a line without
      one. */
  lemma ClassifyOneLine(stack: seq<Kind>, line: string)
    requires OneLine(line) && Classify(stack, line).out.Ok?
    ensures OneLine(Classify(stack, line).out.value)
  {
    if IfMatch(line) {
      IfOneLine(stack, line);
    } else if StartsWith(line, "else") {
      ElseOneLine(stack, line);
    } else if WhileMatch(line).Some? {
      WhileOneLine(stack, line);
    } else if ForMatch(line).Some? {
      ForOneLine(stack, line);
    } else if EndMatch(line).Some? {
    } else if InputAsMatch(line).Some? || InputMatch(line).Some? || OutputMatch(line).Some? {
      IoOneLine(stack, line);
    } else if DefMatch(line, "function").Some? || DefMatch(line, "procedure").Some? {
      DefOneLine(stack, line);
    } else {
      FallthroughOneLine(stack, line);
    }
  }

  // ---------------------------------------------------------------------
  // The whole program

  lemma {:induction false} RunPrefixOneLine(lines: seq<string>)
    requires forall k :: 0 <= k < |lines| ==> OneLine(lines[k])
    requires RunPrefix(lines).Ok?
    ensures forall k :: 0 <= k < |lines| ==> OneLine(RunPrefix(lines).value.1[k])
  {
    if lines != [] {
      var n := |lines| - 1;
      var init := lines[..n];
      assert forall k :: 0 <= k < |init| ==> init[k] == lines[k];
      assert lines[..n + 1] == lines;
      match RunPrefix(init)
      case Ok((stack, out)) =>
        RunPrefixOneLine(init);
        RunPrefixNext(lines, n, stack, out);
        var line := Prepare(Strip(lines[n]));
        PrepareOneLine(lines[n]);
        ClassifyOneLine(stack, line);
        OneLineSnoc(out, Classify(stack, line).out.value);
    }
  }

  lemma OneLineSnoc(out: seq<string>, x: string)
    requires forall k :: 0 <= k < |out| ==> OneLine(out[k])
    requires OneLine(x)
    ensures forall k :: 0 <= k < |out + [x]| ==> OneLine((out + [x])[k])
  {
  }

  /** Splitting the Python text at its newlines gives the translated lines,
      one for each line of the program and in the same order. */
  lemma PseudocodeLines(code: string)
    requires Pseudocode(code).Ok?
    ensures Translation(SplitOn(code, "\n")).Ok?
    ensures SplitOn(Pseudocode(code).value, "\n") == Translation(SplitOn(code, "\n")).value
    ensures |SplitOn(Pseudocode(code).value, "\n")| == |SplitOn(code, "\n")|
  {
    var lines := SplitOn(code, "\n");
    var out := Translation(lines).value;
    assert Pseudocode(code).value == Join("\n", out);
    assert forall k :: 0 <= k < |out| ==> '\n' !in out[k] by {
      SplitPiecesOneLine(code);
      TranslationOneLine(lines);
    }
    assert |out| == |lines| by {
      TranslationLength(lines);
    }
    SplitJoin(out, "\n");
  }

  lemma TranslationOneLine(lines: seq<string>)
    requires forall k :: 0 <= k < |lines| ==> OneLine(lines[k])
    requires Translation(lines).Ok?
    ensures forall k :: 0 <= k < |Translation(lines).value| ==> OneLine(Translation(lines).value[k])
  {
    RunPrefixOneLine(lines);
    assert Translation(lines).value == RunPrefix(lines).value.1;
  }

  lemma TranslationLength(lines: seq<string>)
    requires Translation(lines).Ok?
    ensures |Translation(lines).value| == |lines|
  {
    assert Translation(lines).value == RunPrefix(lines).value.1;
  }
}
