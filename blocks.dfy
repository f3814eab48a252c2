/** The block structure of a translated program. Each prepared line is
    abstracted to a token: it opens a block of some kind, closes the block
    it names, or does neither. `Nest` runs the tokens against a stack the
    way `to_python` runs its lines, and `WellNested` is the grammar of
    correctly nested blocks. The theorems here say that the translator
    accepts a program exactly when no line is malformed on its own and
    its tokens nest, that nesting in this sense is the grammar, which
    blocks an incomplete program reports, and how every output line is
    indented. */
module Blocks {
  import opened Results
  import opened Text
  import opened SpecialSymbols
  import opened Patterns
  import opened Translator

  datatype Token = Open(kind: Kind) | Close(name: string) | Neutral

  /** What a prepared line does to the block stack, by the rule that
      matches it. */
  function TokenOf(line: string): Token
  {
    if IfMatch(line) then Open(If)
    else if StartsWith(line, "else") then Neutral
    else if WhileMatch(line).Some? || ForMatch(line).Some? then Open(Loop)
    else if EndMatch(line).Some? then Close(EndMatch(line).value)
    else if InputAsMatch(line).Some? || InputMatch(line).Some? || OutputMatch(line).Some? then Neutral
    else if DefMatch(line, "function").Some? then Open(Function)
    else if DefMatch(line, "procedure").Some? then Open(Procedure)
    else Neutral
  }

  /** Why a prepared line fails whatever blocks are open, if it does. */
  function LocalError(line: string): Option<Reason>
  {
    if IfMatch(line) then
      var check := SplitOn(line, "then");
      if |check| != 2 || Strip(check[1]) != [] then Some(IfForm) else None
    else if StartsWith(line, "else") then
      if line != "else" then Some(ElseAlone) else None
    else if WhileMatch(line).Some? || ForMatch(line).Some? || EndMatch(line).Some?
         || InputAsMatch(line).Some? || InputMatch(line).Some? || OutputMatch(line).Some?
         || DefMatch(line, "function").Some? || DefMatch(line, "procedure").Some? then None
    else
      match Fallthrough([], line)
      case Err(r) => Some(r)
      case Ok(_) => None
  }

  /** One token against the stack: an opener pushes its kind, a closer pops
      the top block when it names it and fails otherwise. */
  function NestStep(stack: seq<Kind>, t: Token): Option<seq<Kind>>
  {
    match t
    case Open(k) => Some(stack + [k])
    case Close(name) =>
      if stack != [] && KindName(stack[|stack| - 1]) == name then Some(stack[..|stack| - 1]) else None
    case Neutral => Some(stack)
  }

  /** The tokens one after the other from `stack`. */
  function Nest(stack: seq<Kind>, ts: seq<Token>): Option<seq<Kind>>
    decreases |ts|
  {
    if ts == [] then Some(stack)
    else
      match NestStep(stack, ts[0])
      case None => None
      case Some(s) => Nest(s, ts[1..])
  }

  /** The token of every line of a program. */
  function Tokens(lines: seq<string>): (ts: seq<Token>)
    ensures |ts| == |lines|
  {
    if lines == [] then []
    else Tokens(lines[..|lines| - 1]) + [TokenOf(Prepare(Strip(lines[|lines| - 1])))]
  }

  /** The raw line is not malformed on its own. */
  predicate LineValid(raw: string) {
    LocalError(Prepare(Strip(raw))).None?
  }

  /** No line of the program is malformed on its own. */
  predicate LinesValid(lines: seq<string>) {
    lines == [] || (LinesValid(lines[..|lines| - 1]) && LineValid(lines[|lines| - 1]))
  }

  /** The token of each line is the token of that line. */
  lemma {:induction false} TokensAt(lines: seq<string>, i: nat)
    requires i < |lines|
    ensures Tokens(lines)[i] == TokenOf(Prepare(Strip(lines[i])))
  {
    var init := lines[..|lines| - 1];
    var last := TokenOf(Prepare(Strip(lines[|lines| - 1])));
    assert Tokens(lines) == Tokens(init) + [last];
    if i < |lines| - 1 {
      TokensAt(init, i);
      assert init[i] == lines[i];
    }
  }

  /** No line is malformed exactly when each line is not. */
  lemma {:induction false} LinesValidAt(lines: seq<string>)
    ensures LinesValid(lines) <==> forall i :: 0 <= i < |lines| ==> LineValid(lines[i])
  {
    if lines != [] {
      var init := lines[..|lines| - 1];
      LinesValidAt(init);
      AllSnoc(lines, init, LineValid);
    }
  }

  lemma AllSnoc<T>(xs: seq<T>, init: seq<T>, p: T -> bool)
    requires xs != [] && init == xs[..|xs| - 1]
    ensures (forall i :: 0 <= i < |xs| ==> p(xs[i]))
        <==> (forall i :: 0 <= i < |init| ==> p(init[i])) && p(xs[|xs| - 1])
  {
    assert forall i :: 0 <= i < |init| ==> init[i] == xs[i];
  }

  /** Correctly nested blocks: nothing, a neutral token and then correctly
      nested blocks, or an opener, correctly nested blocks, the closer that
      names the opener's kind, and then correctly nested blocks. */
  predicate WellNested(ts: seq<Token>)
    decreases |ts|
  {
    ts == []
    || (ts[0].Neutral? && WellNested(ts[1..]))
    || (ts[0].Open? && exists j :: 1 <= j < |ts| && ts[j] == Close(KindName(ts[0].kind))
                                   && WellNested(ts[1..j]) && WellNested(ts[j + 1..]))
  }

  // ---------------------------------------------------------------------
  // One line

  /** The errors of the fallthrough do not depend on the indentation. */
  lemma FallthroughErrors(pad: string, line: string)
    ensures Fallthrough(pad, line).Err? <==> Fallthrough([], line).Err?
    ensures Fallthrough(pad, line).Err? ==> Fallthrough(pad, line) == Fallthrough([], line)
  {
  }

  /** `to_python` on one prepared line: the line is accepted exactly when it
      is not malformed on its own and its token fits the stack; then the
      new stack is the token's effect. A malformed line fails with its own
      reason; a closer that does not fit fails on the empty stack or names
      the block it popped. */
  lemma ClassifyFollowsToken(stack: seq<Kind>, line: string)
    ensures Classify(stack, line).out.Ok?
        <==> LocalError(line).None? && NestStep(stack, TokenOf(line)).Some?
    ensures Classify(stack, line).out.Ok? ==> Classify(stack, line).stack == NestStep(stack, TokenOf(line)).value
    ensures LocalError(line).Some? ==> Classify(stack, line).out == Err(LocalError(line).value)
    ensures LocalError(line).None? && NestStep(stack, TokenOf(line)).None? ==>
      Classify(stack, line).out == Err(if stack == [] then PopFromEmpty else EndMismatch(stack[|stack| - 1]))
  {
    if IfMatch(line) {
    } else if StartsWith(line, "else") {
    } else if WhileMatch(line).Some? || ForMatch(line).Some? {
    } else if EndMatch(line).Some? {
      EndFollowsToken(stack, line);
    } else if InputAsMatch(line).Some? || InputMatch(line).Some? || OutputMatch(line).Some? {
    } else if DefMatch(line, "function").Some? || DefMatch(line, "procedure").Some? {
    } else {
      assert TokenOf(line) == Neutral;
      assert Classify(stack, line) == Outcome(stack, Fallthrough(Pad(|stack|), line));
      FallthroughErrors(Pad(|stack|), line);
    }
  }

  lemma EndFollowsToken(stack: seq<Kind>, line: string)
    requires !IfMatch(line) && !StartsWith(line, "else") && WhileMatch(line).None? && ForMatch(line).None?
    requires EndMatch(line).Some?
    ensures LocalError(line).None? && TokenOf(line) == Close(EndMatch(line).value)
    ensures Classify(stack, line).out.Ok? <==> NestStep(stack, TokenOf(line)).Some?
    ensures Classify(stack, line).out.Ok? ==> Classify(stack, line).stack == NestStep(stack, TokenOf(line)).value
    ensures NestStep(stack, TokenOf(line)).None? ==>
      Classify(stack, line).out == Err(if stack == [] then PopFromEmpty else EndMismatch(stack[|stack| - 1]))
  {
  }

  // ---------------------------------------------------------------------
  // Whole programs

  /** Running two token sequences one after the other. */
  lemma {:induction false} NestConcat(stack: seq<Kind>, a: seq<Token>, b: seq<Token>)
    ensures Nest(stack, a + b) == match Nest(stack, a) case None => None case Some(s) => Nest(s, b)
    decreases |a|
  {
    if a == [] {
      assert a + b == b;
    } else {
      assert (a + b)[0] == a[0] && (a + b)[1..] == a[1..] + b;
      match NestStep(stack, a[0])
      case None =>
      case Some(s) => NestConcat(s, a[1..], b);
    }
  }

  lemma NestOne(stack: seq<Kind>, t: Token)
    ensures Nest(stack, [t]) == NestStep(stack, t)
  {
    assert [t][1..] == [];
  }

  /** The pass over the lines follows the tokens: it gets through every
      line exactly when no line is malformed and the tokens nest, and its
      stack is then the tokens' stack. */
  lemma {:induction false} RunPrefixFollowsTokens(lines: seq<string>)
    ensures RunPrefix(lines).Ok? <==> LinesValid(lines) && Nest([], Tokens(lines)).Some?
    ensures RunPrefix(lines).Ok? ==> RunPrefix(lines).value.0 == Nest([], Tokens(lines)).value
  {
    if lines != [] {
      var init := lines[..|lines| - 1];
      var raw := lines[|lines| - 1];
      var line := Prepare(Strip(raw));
      RunPrefixFollowsTokens(init);
      NestConcat([], Tokens(init), [TokenOf(line)]);
      match RunPrefix(init)
      case Err(_) =>
      case Ok((stack, out)) =>
        NestOne(stack, TokenOf(line));
        ClassifyFollowsToken(stack, line);
    }
  }

  /** The translator accepts a program exactly when no line is malformed
      on its own and the blocks its lines open and close nest, leaving
      none open. */
  lemma TranslationAccepts(lines: seq<string>)
    ensures Translation(lines).Ok? <==> LinesValid(lines) && Nest([], Tokens(lines)) == Some([])
  {
    RunPrefixFollowsTokens(lines);
  }

  /** A program whose lines are all well formed and whose closers all fit
      but that leaves blocks open is reported as incomplete, naming exactly
      the blocks left open, outermost first. */
  lemma TranslationIncomplete(lines: seq<string>, missing: seq<Kind>)
    ensures Translation(lines) == Err(Incomplete(missing))
        <==> LinesValid(lines) && Nest([], Tokens(lines)) == Some(missing) && missing != []
  {
    RunPrefixFollowsTokens(lines);
  }

  /** A line failure names the first line that fails, numbered from 1:
      every line before it is translated, and it is the line, as
      prepared, on which `to_python` fails for that reason. */
  lemma {:induction false} FirstFailure(lines: seq<string>, n: nat, line: string, reason: Reason)
    requires RunPrefix(lines) == Err(LineFailure(n, line, reason))
    ensures 1 <= n <= |lines| && RunPrefix(lines[..n - 1]).Ok?
    ensures line == Prepare(Strip(lines[n - 1]))
    ensures Step(RunPrefix(lines[..n - 1]).value.0, lines[n - 1]).out == Err(reason)
  {
    var init := lines[..|lines| - 1];
    match RunPrefix(init)
    case Err(_) =>
      FirstFailure(init, n, line, reason);
      PrefixOfInit(lines, n - 1);
    case Ok((stack, out)) =>
      assert n == |lines| && lines[..n - 1] == init;
  }

  lemma PrefixOfInit<T>(xs: seq<T>, m: nat)
    requires m < |xs| - 1
    ensures xs[..|xs| - 1][..m] == xs[..m] && xs[..|xs| - 1][m] == xs[m]
  {
  }

  /** The same for the whole translation. */
  lemma TranslationFirstFailure(lines: seq<string>, n: nat, line: string, reason: Reason)
    requires Translation(lines) == Err(LineFailure(n, line, reason))
    ensures 1 <= n <= |lines| && RunPrefix(lines[..n - 1]).Ok?
    ensures line == Prepare(Strip(lines[n - 1]))
    ensures Step(RunPrefix(lines[..n - 1]).value.0, lines[n - 1]).out == Err(reason)
  {
    FirstFailure(lines, n, line, reason);
  }

  // ---------------------------------------------------------------------
  // The grammar

  /** Correctly nested tokens leave any stack as they found it. */
  lemma {:induction false} WellNestedRestores(stack: seq<Kind>, ts: seq<Token>)
    requires WellNested(ts)
    ensures Nest(stack, ts) == Some(stack)
    decreases |ts|
  {
    if ts == [] {
    } else if ts[0].Neutral? && WellNested(ts[1..]) {
      WellNestedRestores(stack, ts[1..]);
    } else {
      var k := ts[0].kind;
      var j :| 1 <= j < |ts| && ts[j] == Close(KindName(k))
               && WellNested(ts[1..j]) && WellNested(ts[j + 1..]);
      WellNestedRestores(stack + [k], ts[1..j]);
      WellNestedRestores(stack, ts[j + 1..]);
      BlockRestoresAt(stack, ts, j);
    }
  }

  lemma BlockRestoresAt(stack: seq<Kind>, ts: seq<Token>, j: nat)
    requires 1 <= j < |ts| && ts[0].Open? && ts[j] == Close(KindName(ts[0].kind))
    requires Nest(stack + [ts[0].kind], ts[1..j]) == Some(stack + [ts[0].kind])
    requires Nest(stack, ts[j + 1..]) == Some(stack)
    ensures Nest(stack, ts) == Some(stack)
  {
    var k := ts[0].kind;
    var inner, rest := ts[1..j], ts[j + 1..];
    assert ts == [Open(k)] + (inner + ([Close(KindName(k))] + rest));
    BlockRestores(stack, k, inner, rest);
  }

  /** One block whose inside restores the stack, then a remainder that
      does. */
  lemma BlockRestores(stack: seq<Kind>, k: Kind, inner: seq<Token>, rest: seq<Token>)
    requires Nest(stack + [k], inner) == Some(stack + [k])
    requires Nest(stack, rest) == Some(stack)
    ensures Nest(stack, [Open(k)] + (inner + ([Close(KindName(k))] + rest))) == Some(stack)
  {
    var tail := [Close(KindName(k))] + rest;
    NestConcat(stack, [Open(k)], inner + tail);
    NestOne(stack, Open(k));
    NestConcat(stack + [k], inner, tail);
    NestConcat(stack + [k], [Close(KindName(k))], rest);
    NestOne(stack + [k], Close(KindName(k)));
    assert (stack + [k])[..|stack + [k]| - 1] == stack;
  }

  /** A token against a stack with `k` underneath acts on the part above
      `k`, unless it pops `k` itself. */
  lemma StepAbove(k: Kind, rest: seq<Kind>, t: Token)
    requires !(t.Close? && rest == [])
    ensures NestStep([k] + rest, t) == match NestStep(rest, t) case None => None case Some(s) => Some([k] + s)
  {
    match t
    case Open(k') =>
      assert [k] + rest + [k'] == [k] + (rest + [k']);
    case Close(name) =>
      assert ([k] + rest)[|[k] + rest| - 1] == rest[|rest| - 1];
      assert ([k] + rest)[..|[k] + rest| - 1] == [k] + rest[..|rest| - 1];
    case Neutral =>
  }

  lemma TakeCons<T>(u: seq<T>, j: nat)
    requires 1 <= j <= |u|
    ensures u[..j] == [u[0]] + u[1..][..j - 1]
  {
  }

  /** Tokens that take the stack `[k] + rest` down to nothing first close
      the blocks of `rest`, then `k`, and then nest on their own. */
  lemma {:induction false} FirstReturn(k: Kind, rest: seq<Kind>, u: seq<Token>)
    requires Nest([k] + rest, u) == Some([])
    ensures exists j :: 0 <= j < |u| && u[j] == Close(KindName(k))
                        && Nest(rest, u[..j]) == Some([]) && Nest([], u[j + 1..]) == Some([])
    decreases |u|
  {
    if u != [] {
      var t := u[0];
      if t.Close? && rest == [] {
        assert [k] + rest == [k];
        assert u[..0] == [];
        assert u[0] == Close(KindName(k));
        assert Nest(rest, u[..0]) == Some([]);
      } else {
        StepAbove(k, rest, t);
        match NestStep(rest, t)
        case None =>
        case Some(s) =>
          FirstReturn(k, s, u[1..]);
          var j' :| 0 <= j' < |u[1..]| && u[1..][j'] == Close(KindName(k))
                    && Nest(s, u[1..][..j']) == Some([]) && Nest([], u[1..][j' + 1..]) == Some([]);
          var j := j' + 1;
          TakeCons(u, j);
          NestConcat(rest, [t], u[1..][..j']);
          NestOne(rest, t);
          assert u[j + 1..] == u[1..][j' + 1..];
          assert u[j] == Close(KindName(k));
      }
    }
  }

  /** Tokens that take the empty stack back to the empty stack are
      correctly nested. */
  lemma {:induction false} AcceptedIsWellNested(ts: seq<Token>)
    requires Nest([], ts) == Some([])
    ensures WellNested(ts)
    decreases |ts|
  {
    if ts != [] {
      match ts[0]
      case Neutral =>
        AcceptedIsWellNested(ts[1..]);
      case Open(k) =>
        var u := ts[1..];
        assert [] + [k] == [k] + [];
        FirstReturn(k, [], u);
        var j' :| 0 <= j' < |u| && u[j'] == Close(KindName(k))
                  && Nest([], u[..j']) == Some([]) && Nest([], u[j' + 1..]) == Some([]);
        AcceptedIsWellNested(u[..j']);
        AcceptedIsWellNested(u[j' + 1..]);
        var j := j' + 1;
        assert ts[1..j] == u[..j'] && ts[j + 1..] == u[j' + 1..] && ts[j] == u[j'];
      case Close(_) =>
    }
  }

  /** Nesting in the translator's sense is the grammar. */
  lemma NestIsGrammar(ts: seq<Token>)
    ensures Nest([], ts) == Some([]) <==> WellNested(ts)
  {
    if WellNested(ts) {
      WellNestedRestores([], ts);
    }
    if Nest([], ts) == Some([]) {
      AcceptedIsWellNested(ts);
    }
  }

  /** Hence: a program whose lines are all well formed translates exactly
      when its blocks are correctly nested. */
  lemma TranslationAcceptsNested(lines: seq<string>)
    requires LinesValid(lines)
    ensures Translation(lines).Ok? <==> WellNested(Tokens(lines))
  {
    TranslationAccepts(lines);
    NestIsGrammar(Tokens(lines));
  }

  // ---------------------------------------------------------------------
  // Indentation

  /** The shape of the output of the line `line` inside `depth` blocks:
      nothing for a closer, `else:` one level out, and otherwise a line
      indented by two spaces per block. */
  predicate LineShape(out: string, line: string, depth: nat) {
    if TokenOf(line).Close? then out == ""
    else if line == "else" then out == Pad(if depth == 0 then 0 else depth - 1) + "else:"
    else StartsWith(out, Pad(depth))
  }

  /** The output of an accepted line has the shape of its line. */
  lemma ClassifyShape(stack: seq<Kind>, line: string)
    requires Classify(stack, line).out.Ok?
    ensures LineShape(Classify(stack, line).out.value, line, |stack|)
  {
    if IfMatch(line) {
      IfShape(stack, line);
    } else if StartsWith(line, "else") {
      ElseShape(stack, line);
    } else if WhileMatch(line).Some? {
      WhileShape(stack, line);
    } else if ForMatch(line).Some? {
      ForShape(stack, line);
    } else if EndMatch(line).Some? {
      EndShape(stack, line);
    } else if InputAsMatch(line).Some? || InputMatch(line).Some? || OutputMatch(line).Some? {
      IoShape(stack, line);
    } else if DefMatch(line, "function").Some? || DefMatch(line, "procedure").Some? {
      DefShape(stack, line);
    } else {
      FallthroughShape(stack, line);
    }
  }

  lemma ElseShape(stack: seq<Kind>, line: string)
    requires !IfMatch(line) && StartsWith(line, "else") && Classify(stack, line).out.Ok?
    ensures LineShape(Classify(stack, line).out.value, line, |stack|)
  {
    ElsePadding(|stack|);
  }

  lemma ForShape(stack: seq<Kind>, line: string)
    requires !IfMatch(line) && !StartsWith(line, "else") && WhileMatch(line).None? && ForMatch(line).Some?
    ensures LineShape(Classify(stack, line).out.value, line, |stack|)
  {
    var (v, a, b) := ForMatch(line).value;
    ForText(Pad(|stack|), v, a, b);
  }

  lemma ForText(pad: string, v: string, a: string, b: string)
    ensures StartsWith(pad + "for " + v + " in range(" + a + ", " + b + " + 1):", pad)
  {
    var rest := "for " + v + " in range(" + a + ", " + b + " + 1):";
    assert pad + "for " + v + " in range(" + a + ", " + b + " + 1):" == pad + rest;
    assert (pad + rest)[..|pad|] == pad;
  }

  lemma EndShape(stack: seq<Kind>, line: string)
    requires !IfMatch(line) && !StartsWith(line, "else") && WhileMatch(line).None? && ForMatch(line).None?
    requires EndMatch(line).Some? && Classify(stack, line).out.Ok?
    ensures LineShape(Classify(stack, line).out.value, line, |stack|)
  {
  }

  lemma IoShape(stack: seq<Kind>, line: string)
    requires !IfMatch(line) && !StartsWith(line, "else") && WhileMatch(line).None? && ForMatch(line).None?
    requires EndMatch(line).None?
    requires InputAsMatch(line).Some? || InputMatch(line).Some? || OutputMatch(line).Some?
    ensures LineShape(Classify(stack, line).out.value, line, |stack|)
  {
    var pad := Pad(|stack|);
    if InputAsMatch(line).Some? {
      var (x, t) := InputAsMatch(line).value;
      InputAsText(pad, x, t);
    } else if InputMatch(line).Some? {
      InputText(pad, InputMatch(line).value);
    } else {
      OutputText(pad, OutputMatch(line).value);
    }
  }

  lemma InputAsText(pad: string, x: string, t: string)
    ensures StartsWith(pad + x + " = " + t + "(input())", pad)
  {
    var rest := x + " = " + t + "(input())";
    assert pad + x + " = " + t + "(input())" == pad + rest;
    assert (pad + rest)[..|pad|] == pad;
  }

  lemma InputText(pad: string, x: string)
    ensures StartsWith(pad + x + " = input()", pad)
  {
    var rest := x + " = input()";
    assert pad + x + " = input()" == pad + rest;
    assert (pad + rest)[..|pad|] == pad;
  }

  lemma OutputText(pad: string, x: string)
    ensures StartsWith(pad + "print(" + x + ")", pad)
  {
    var rest := "print(" + x + ")";
    assert pad + "print(" + x + ")" == pad + rest;
    assert (pad + rest)[..|pad|] == pad;
  }

  lemma DefShape(stack: seq<Kind>, line: string)
    requires !IfMatch(line) && !StartsWith(line, "else") && WhileMatch(line).None? && ForMatch(line).None?
    requires EndMatch(line).None? && InputAsMatch(line).None? && InputMatch(line).None? && OutputMatch(line).None?
    requires DefMatch(line, "function").Some? || DefMatch(line, "procedure").Some?
    ensures LineShape(Classify(stack, line).out.value, line, |stack|)
  {
    if DefMatch(line, "function").Some? {
      var (name, params) := DefMatch(line, "function").value;
      DefText(Pad(|stack|), name, params);
    } else {
      var (name, params) := DefMatch(line, "procedure").value;
      DefText(Pad(|stack|), name, params);
    }
  }

  lemma DefText(pad: string, name: string, params: string)
    ensures StartsWith(pad + "def " + name + "(" + params + "):", pad)
  {
    var rest := "def " + name + "(" + params + "):";
    assert pad + "def " + name + "(" + params + "):" == pad + rest;
    assert (pad + rest)[..|pad|] == pad;
  }

  lemma KeywordNotElse(line: string, keyword: string)
    requires keyword == "if " || keyword == "while "
    requires StartsWith(line, keyword)
    ensures line != "else" && !StartsWith(line, "else")
  {
    assert line[0] == keyword[0];
  }

  lemma IfShape(stack: seq<Kind>, line: string)
    requires IfMatch(line) && Classify(stack, line).out.Ok?
    ensures LineShape(Classify(stack, line).out.value, line, |stack|)
  {
    KeywordNotElse(line, "if ");
    HeaderShape(stack, line, "if ", IfCondition(line));
  }

  lemma WhileShape(stack: seq<Kind>, line: string)
    requires !IfMatch(line) && !StartsWith(line, "else") && WhileMatch(line).Some?
    ensures line != "else"
    ensures LineShape(Classify(stack, line).out.value, line, |stack|)
  {
    HeaderShape(stack, line, "while ", WhileMatch(line).value);
  }

  /** The header of an `if` or a `while` keeps its indentation through
      `special`. */
  lemma HeaderShape(stack: seq<Kind>, line: string, keyword: string, cond: string)
    requires keyword == "if " || keyword == "while "
    requires Classify(stack, line).out == Ok(Special(Pad(|stack|) + keyword + cond + ":"))
    ensures StartsWith(Classify(stack, line).out.value, Pad(|stack|))
  {
    PaddedHeader(Pad(|stack|), keyword, cond);
  }

  lemma PaddedHeader(pad: string, keyword: string, cond: string)
    requires forall k :: 0 <= k < |pad| ==> pad[k] == ' '
    requires keyword == "if " || keyword == "while "
    ensures StartsWith(Special(pad + keyword + cond + ":"), pad)
  {
    HeaderPrefix(pad, keyword);
    SpecialHeader(pad + keyword, cond);
    var o := (pad + keyword) + Normalise(cond) + ":";
    assert o[..|pad|] == pad;
  }

  lemma FallthroughShape(stack: seq<Kind>, line: string)
    requires !IfMatch(line) && !StartsWith(line, "else") && WhileMatch(line).None? && ForMatch(line).None?
    requires EndMatch(line).None? && InputAsMatch(line).None? && InputMatch(line).None? && OutputMatch(line).None?
    requires DefMatch(line, "function").None? && DefMatch(line, "procedure").None?
    requires Classify(stack, line).out.Ok?
    ensures LineShape(Classify(stack, line).out.value, line, |stack|)
  {
    var pad := Pad(|stack|);
    var q := QuotedMatch(line);
    var line' := if q.Some? then ReplaceAll(line, q.value, "<<<0>>>") else line;
    assert Classify(stack, line).out == Fallthrough(pad, line);
    assert (pad + line')[..|pad|] == pad;
  }

  /** Every output line has the shape its line and its depth call for; the
      depth of a line is the number of blocks open before it. */
  lemma OutputShape(lines: seq<string>)
    requires Translation(lines).Ok?
    ensures |Translation(lines).value| == |lines|
    ensures forall i :: 0 <= i < |lines| ==>
      Nest([], Tokens(lines[..i])).Some?
      && LineShape(Translation(lines).value[i], Prepare(Strip(lines[i])),
                   |Nest([], Tokens(lines[..i])).value|)
  {
    RunPrefixShape(lines);
  }

  lemma {:induction false} RunPrefixShape(lines: seq<string>)
    requires RunPrefix(lines).Ok?
    ensures forall i :: 0 <= i < |lines| ==>
      Nest([], Tokens(lines[..i])).Some?
      && LineShape(RunPrefix(lines).value.1[i], Prepare(Strip(lines[i])),
                   |Nest([], Tokens(lines[..i])).value|)
  {
    if lines != [] {
      var n := |lines| - 1;
      var init := lines[..n];
      RunPrefixShape(init);
      RunPrefixFollowsTokens(init);
      var stack := RunPrefix(init).value.0;
      var out := RunPrefix(init).value.1;
      ClassifyShape(stack, Prepare(Strip(lines[n])));
      assert RunPrefix(lines).value.1 == out + [Classify(stack, Prepare(Strip(lines[n]))).out.value];
      forall i | 0 <= i < |lines|
        ensures Nest([], Tokens(lines[..i])).Some?
        ensures LineShape(RunPrefix(lines).value.1[i], Prepare(Strip(lines[i])),
                          |Nest([], Tokens(lines[..i])).value|)
      {
        if i < n {
          assert lines[..i] == init[..i];
          assert lines[i] == init[i];
        } else {
          assert lines[..i] == init;
        }
      }
    }
  }
}
