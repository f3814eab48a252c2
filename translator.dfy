/** The pseudocode-to-Python translator of `Pseudocode.__init__`: the
    program is split into lines, each stripped line is rewritten by
    `to_python` against a stack of the blocks still open, and the result
    is the rewritten lines joined by newlines, or the first error.

    `Classify` is one rule chain of `to_python` on a prepared line, `Step`
    the whole of `to_python`, `RunPrefix`/`Translation` the pass over the
    lines; the class `Translator` holds the block stack and its method
    `ToPython` performs the same steps in place, and `TranslateLines` and
    `Translate` drive it and are proved equal to `Translation` and
    `Pseudocode`. */
module Translator {
  import opened Results
  import opened Text
  import opened SpecialSymbols
  import opened Patterns

  /** The kinds of block kept on the stack. */
  datatype Kind = If | Loop | Function | Procedure

  /** The string pushed for each kind, which `end` must name. */
  function KindName(k: Kind): string
  {
    match k
    case If => "if"
    case Loop => "loop"
    case Function => "function"
    case Procedure => "procedure"
  }

  lemma KindNameInjective(a: Kind, b: Kind)
    ensures KindName(a) == KindName(b) <==> a == b
  {
    if a != b {
      assert KindName(a)[0] != KindName(b)[0] || |KindName(a)| != |KindName(b)|;
    }
  }

  /** Why a line stops the translation. The first four are written to
      standard error before `exit(-1)`; `PopFromEmpty` and `NoSuchString`
      are the `IndexError`s Python raises; on a fallthrough line that starts
      with a non-empty quoted string the placeholder loop never ends. */
  datatype Reason =
    | IfForm
    | ElseAlone
    | EndMismatch(popped: Kind)
    | NotDefined(word: string)
    | PopFromEmpty
    | NoSuchString
    | NeverEnds

  /** A failed translation: the first failing line (numbered from 1, with
      the line as rewritten so far), or blocks left open at the end. */
  datatype Failure =
    | LineFailure(lineNo: nat, line: string, reason: Reason)
    | Incomplete(missing: seq<Kind>)

  /** What `to_python` leaves behind: the new stack and the emitted line or
      the reason it stopped. */
  datatype Outcome = Outcome(stack: seq<Kind>, out: Result<string, Reason>)

  /** The words a fallthrough line may start with. */
  const AllowedLower: seq<string> := [
    "and", "or", "not", "return", "if", "else", "while", "input", "int", "float",
    "isEmpty", "addItem", "resetNext", "getNext", "hasNext",
    "push", "pop", "enqueue", "dequeue", "True", "False"
  ]

  /** The replacements made before a line is classified, in order. */
  const Substitutions: seq<(string, string)> := [
    ("//", "#"),
    (" div ", " // "),
    (" mod ", " % "),
    ("true", "True"),
    ("TRUE", "True"),
    ("false", "False"),
    ("FALSE", "False")
  ]

  /** `"  " * n`: the indentation of a line inside `n` blocks. */
  function Pad(n: nat): (r: string)
    ensures |r| == 2 * n && forall k :: 0 <= k < |r| ==> r[k] == ' '
  {
    Repeat("  ", n)
  }

  /** Two strings of spaces of the same length are the same string. */
  lemma AllSpaces(a: string, b: string)
    requires |a| == |b|
    requires forall k :: 0 <= k < |a| ==> a[k] == ' '
    requires forall k :: 0 <= k < |b| ==> b[k] == ' '
    ensures a == b
  {
  }

  /** Python's `s[0:-2]`. */
  function DropLastTwo(s: string): (r: string)
    ensures |s| >= 2 ==> r == s[..|s| - 2]
    ensures |s| < 2 ==> r == []
  {
    if |s| >= 2 then s[..|s| - 2] else []
  }

  /** `padding[0:-2]` is the indentation of one block less, none at the
      outermost level. */
  lemma ElsePadding(n: nat)
    ensures DropLastTwo(Pad(n)) == Pad(if n == 0 then 0 else n - 1)
  {
    if n > 0 {
      AllSpaces(DropLastTwo(Pad(n)), Pad(n - 1));
    }
  }

  /** The text before the condition of a header is left alone by
      `special`. */
  lemma HeaderPrefix(pad: string, keyword: string)
    requires forall k :: 0 <= k < |pad| ==> pad[k] == ' '
    requires keyword == "if " || keyword == "while "
    ensures var p := pad + keyword;
      p != [] && p[0] != '=' && Plain(p) && !Guard(p[|p| - 1])
  {
    var p := pad + keyword;
    assert p[|p| - 1] == ' ';
    if pad == [] {
      assert p[0] == keyword[0];
    }
  }

  /** The line after the substitutions and the removal of `new`. */
  function Prepare(line: string): string
  {
    DropNew(ReplaceEach(line, Substitutions))
  }

  /** The fallthrough of `to_python`: the placeholder loop (which only
      ends when the line does not start with a quoted string, or starts
      with an empty one), the check of the leading lowercase word, and the
      placeholder restoration (which always fails, no string having been
      saved). */
  function Fallthrough(pad: string, line: string): Result<string, Reason>
  {
    var q := QuotedMatch(line);
    if q.Some? && q.value != [] then Err(NeverEnds)
    else
      var line' := if q.Some? then ReplaceAll(line, q.value, "<<<0>>>") else line;
      var word := LowerRun(line');
      if word != [] && word !in AllowedLower then Err(NotDefined(word))
      else if PlaceholderMatch(line') then Err(NoSuchString)
      else Ok(pad + line')
  }

  /** The rule chain of `to_python` on a prepared line, in its order. */
  function Classify(stack: seq<Kind>, line: string): Outcome
  {
    var pad := Pad(|stack|);
    if IfMatch(line) then
      var check := SplitOn(line, "then");
      if |check| != 2 || Strip(check[1]) != [] then Outcome(stack + [If], Err(IfForm))
      else Outcome(stack + [If], Ok(Special(pad + "if " + IfCondition(line) + ":")))
    else if StartsWith(line, "else") then
      if line != "else" then Outcome(stack, Err(ElseAlone))
      else Outcome(stack, Ok(DropLastTwo(pad) + "else:"))
    else if WhileMatch(line).Some? then
      Outcome(stack + [Loop], Ok(Special(pad + "while " + WhileMatch(line).value + ":")))
    else if ForMatch(line).Some? then
      var (v, a, b) := ForMatch(line).value;
      Outcome(stack + [Loop], Ok(pad + "for " + v + " in range(" + a + ", " + b + " + 1):"))
    else if EndMatch(line).Some? then
      if stack == [] then Outcome(stack, Err(PopFromEmpty))
      else
        var top := stack[|stack| - 1];
        if KindName(top) != EndMatch(line).value then Outcome(stack[..|stack| - 1], Err(EndMismatch(top)))
        else Outcome(stack[..|stack| - 1], Ok(""))
    else if InputAsMatch(line).Some? then
      var (x, t) := InputAsMatch(line).value;
      Outcome(stack, Ok(pad + x + " = " + t + "(input())"))
    else if InputMatch(line).Some? then
      Outcome(stack, Ok(pad + InputMatch(line).value + " = input()"))
    else if OutputMatch(line).Some? then
      Outcome(stack, Ok(pad + "print(" + OutputMatch(line).value + ")"))
    else if DefMatch(line, "function").Some? then
      var (name, params) := DefMatch(line, "function").value;
      Outcome(stack + [Function], Ok(pad + "def " + name + "(" + params + "):"))
    else if DefMatch(line, "procedure").Some? then
      var (name, params) := DefMatch(line, "procedure").value;
      Outcome(stack + [Procedure], Ok(pad + "def " + name + "(" + params + "):"))
    else Outcome(stack, Fallthrough(pad, line))
  }

  /** `to_python(n, raw.strip())` against the stack `stack`. */
  function Step(stack: seq<Kind>, raw: string): Outcome
  {
    Classify(stack, Prepare(Strip(raw)))
  }

  /** The lines of the program up to some point: the stack and the emitted
      lines, or the first failure. */
  function RunPrefix(lines: seq<string>): (r: Result<(seq<Kind>, seq<string>), Failure>)
    ensures r.Ok? ==> |r.value.1| == |lines|
    ensures r.Err? ==> r.error.LineFailure? && 1 <= r.error.lineNo <= |lines|
  {
    if lines == [] then Ok(([], []))
    else
      match RunPrefix(lines[..|lines| - 1])
      case Err(f) => Err(f)
      case Ok((stack, out)) =>
        var raw := lines[|lines| - 1];
        var o := Step(stack, raw);
        match o.out
        case Err(reason) => Err(LineFailure(|lines|, Prepare(Strip(raw)), reason))
        case Ok(text) => Ok((o.stack, out + [text]))
  }

  /** The whole pass, with the final check for blocks left open. */
  function Translation(lines: seq<string>): Result<seq<string>, Failure>
  {
    match RunPrefix(lines)
    case Err(f) => Err(f)
    case Ok((stack, out)) => if stack == [] then Ok(out) else Err(Incomplete(stack))
  }

  /** `Pseudocode(code).python`: the program text in, the Python text out. */
  function Pseudocode(code: string): Result<string, Failure>
  {
    match Translation(SplitOn(code, "\n"))
    case Err(f) => Err(f)
    case Ok(out) => Ok(Join("\n", out))
  }

  /** What is written to standard error before `exit(-1)`; `None` for the
      Python exceptions and the loop that never ends. */
  function ErrorText(f: Failure): Option<string>
  {
    match f
    case Incomplete(missing) =>
      Some("* Error: incomplete structures; missing: "
           + Join(", ", EndList(missing))
           + "\n")
    case LineFailure(n, line, reason) =>
      var at := "* Error in line " + IntToString(n) + ": ";
      match reason
      case IfForm => Some(at + "'" + line + "'\n  Should be if the form: if [condition] then")
      case ElseAlone => Some(at + "'" + line + "'\n  Keyword 'else' should be on its own\n")
      case EndMismatch(k) => Some(at + "'" + line + "'\n  Expecting: end " + KindName(k) + "\n")
      case NotDefined(w) => Some(at + line + "\n  Not defined: " + w + "\n")
      case _ => None
  }

  /** `end <kind>` for every block left open, bottom of the stack first. */
  function EndList(missing: seq<Kind>): (r: seq<string>)
    ensures |r| == |missing|
    ensures forall k :: 0 <= k < |missing| ==> r[k] == "end " + KindName(missing[k])
  {
    seq(|missing|, k requires 0 <= k < |missing| => "end " + KindName(missing[k]))
  }

  /** A line failure is written to standard error exactly for the four
      reasons the source reports itself (the others are Python exceptions
      or a loop that never ends), and the message then opens with the
      1-based number of the failing line. */
  lemma ErrorTextLine(n: nat, line: string, reason: Reason)
    ensures ErrorText(LineFailure(n, line, reason)).Some?
      <==> reason.IfForm? || reason.ElseAlone? || reason.EndMismatch? || reason.NotDefined?
    ensures ErrorText(LineFailure(n, line, reason)).Some? ==>
      StartsWith(ErrorText(LineFailure(n, line, reason)).value, "* Error in line " + IntToString(n) + ": ")
  {
    var at := "* Error in line " + IntToString(n) + ": ";
    assert StartsWith(at, at);
    match reason
    case IfForm =>
      Extend(at, "'", line, "'\n  Should be if the form: if [condition] then");
    case ElseAlone =>
      Extend(at, "'", line, "'\n  Keyword 'else' should be on its own\n");
    case EndMismatch(k) =>
      Extend(at, "'", line, "'\n  Expecting: end " + KindName(k));
      PrefixExtends(at + "'" + line + ("'\n  Expecting: end " + KindName(k)), at, "\n");
      ConcatAssoc(at + "'" + line, "'\n  Expecting: end ", KindName(k));
    case NotDefined(w) =>
      PrefixExtends(at, at, line);
      PrefixExtends(at + line, at, "\n  Not defined: ");
      PrefixExtends(at + line + "\n  Not defined: ", at, w);
      PrefixExtends(at + line + "\n  Not defined: " + w, at, "\n");
    case _ =>
  }

  /** `at` followed by three more pieces still starts with `at`. */
  lemma Extend(at: string, x: string, y: string, z: string)
    ensures StartsWith(at + x + y + z, at)
  {
    PrefixExtends(at, at, x);
    PrefixExtends(at + x, at, y);
    PrefixExtends(at + x + y, at, z);
  }

  lemma PrefixExtends(s: string, p: string, q: string)
    requires StartsWith(s, p)
    ensures StartsWith(s + q, p)
  {
    assert (s + q)[..|p|] == s[..|p|];
  }

  /** The message for an incomplete program: after its fixed opening, the
      list before the final newline splits at `, ` into one `end <kind>`
      for each open block, bottom of the stack first. */
  lemma IncompleteListing(missing: seq<Kind>)
    requires missing != []
    ensures ErrorText(Incomplete(missing)).Some?
    ensures var text := ErrorText(Incomplete(missing)).value;
      var head := "* Error: incomplete structures; missing: ";
      |head| < |text| && text[..|head|] == head && text[|text| - 1] == '\n'
      && SplitOn(text[|head|..|text| - 1], ", ") == EndList(missing)
  {
    var names := EndList(missing);
    var head := "* Error: incomplete structures; missing: ";
    var body := Join(", ", names);
    assert SplitOn(body, ", ") == names by {
      EndListWithoutComma(missing);
      SplitJoin(names, ", ");
    }
    assert body != [] by {
      assert names[0] != [];
      JoinFirst(names, ", ");
    }
    Framed(head, body);
  }

  lemma EndListWithoutComma(missing: seq<Kind>)
    ensures forall k :: 0 <= k < |EndList(missing)| ==> ',' !in EndList(missing)[k]
  {
    var names := EndList(missing);
    forall k | 0 <= k < |names| ensures ',' !in names[k] {
      var n := KindName(missing[k]);
      assert names[k] == "end " + n;
      assert n == "if" || n == "loop" || n == "function" || n == "procedure";
    }
  }

  /** `head`, then `body`, then a newline. */
  lemma Framed(head: string, body: string)
    requires body != []
    ensures var text := head + body + "\n";
      |head| < |text| && text[..|head|] == head && text[|text| - 1] == '\n'
      && text[|head|..|text| - 1] == body
  {
    var text := head + body + "\n";
    assert text[..|head|] == head;
    assert text[|head|..|text| - 1] == body;
  }

  /** A join starts with its first piece. */
  lemma JoinFirst(xs: seq<string>, sep: string)
    requires xs != []
    ensures |Join(sep, xs)| >= |xs[0]|
  {
  }

  // ---------------------------------------------------------------------
  // The pass, in place

  /** The state `to_python` shares across lines: the block stack. */
  class Translator {
    var stack: seq<Kind>

    constructor ()
      ensures stack == []
    {
      stack := [];
    }

    /** `to_python(lineNumber, raw.strip())`: rewrites one line and updates
        the stack as `Step` does. */
    method ToPython(raw: string) returns (r: Result<string, Reason>)
      modifies this
      ensures Outcome(stack, r) == Step(old(stack), raw)
    {
      var padding := Pad(|stack|);
      var line := PrepareLine(raw);
      assert Step(stack, raw) == Classify(stack, line);
      if IfMatch(line) {
        stack := stack + [If];
        var check := SplitOn(line, "then");
        if |check| != 2 || Strip(check[1]) != [] {
          return Err(IfForm);
        }
        return Ok(Special(padding + "if " + IfCondition(line) + ":"));
      }
      if StartsWith(line, "else") {
        if line != "else" {
          return Err(ElseAlone);
        }
        return Ok(DropLastTwo(padding) + "else:");
      }
      var w := WhileMatch(line);
      if w.Some? {
        stack := stack + [Loop];
        return Ok(Special(padding + "while " + w.value + ":"));
      }
      var f := ForMatch(line);
      if f.Some? {
        stack := stack + [Loop];
        return Ok(padding + "for " + f.value.0 + " in range(" + f.value.1 + ", " + f.value.2 + " + 1):");
      }
      var e := EndMatch(line);
      if e.Some? {
        if stack == [] {
          return Err(PopFromEmpty);
        }
        var pop := stack[|stack| - 1];
        stack := stack[..|stack| - 1];
        if KindName(pop) != e.value {
          return Err(EndMismatch(pop));
        }
        return Ok("");
      }
      var it := InputAsMatch(line);
      if it.Some? {
        return Ok(padding + it.value.0 + " = " + it.value.1 + "(input())");
      }
      var inp := InputMatch(line);
      if inp.Some? {
        return Ok(padding + inp.value + " = input()");
      }
      var o := OutputMatch(line);
      if o.Some? {
        return Ok(padding + "print(" + o.value + ")");
      }
      var fn := DefMatch(line, "function");
      if fn.Some? {
        stack := stack + [Function];
        return Ok(padding + "def " + fn.value.0 + "(" + fn.value.1 + "):");
      }
      var pr := DefMatch(line, "procedure");
      if pr.Some? {
        stack := stack + [Procedure];
        return Ok(padding + "def " + pr.value.0 + "(" + pr.value.1 + "):");
      }

      r := CheckFallthrough(padding, line);
    }
  }

  /** The start of `to_python`: strip, the substitution chain and the
      `new` loop. */
  method PrepareLine(raw: string) returns (line: string)
    ensures line == Prepare(Strip(raw))
  {
    line := Strip(raw);
    // The `r_logic` loop needs a leading space, which a stripped line
    // never has.
    var i := 0;
    while i < |Substitutions|
      invariant 0 <= i <= |Substitutions|
      invariant line == ReplaceEach(Strip(raw), Substitutions[..i])
    {
      ReplaceEachPrefix(Strip(raw), Substitutions, i + 1);
      line := ReplaceAll(line, Substitutions[i].0, Substitutions[i].1);
      i := i + 1;
    }
    assert Substitutions[..i] == Substitutions;
    while HasNew(line)
      invariant DropNew(line) == Prepare(Strip(raw))
      decreases |line|
    {
      line := SubNew(line);
    }
  }

  /** The end of `to_python` for a line no rule matched. */
  method CheckFallthrough(padding: string, line0: string) returns (r: Result<string, Reason>)
    ensures r == Fallthrough(padding, line0)
  {
    var line := line0;
    // Remove strings.
    var q := QuotedMatch(line);
    if q.Some? {
      if q.value != [] {
        return Err(NeverEnds);
      }
      line := ReplaceAll(line, q.value, "<<<0>>>");
    }
    // Only the leading lowercase word is looked at: the next match would
    // have to start where that word ends.
    var start := 0;
    while LowerRun(line[start..]) != []
      invariant start == 0 || (start == |LowerRun(line)| && LowerRun(line) in AllowedLower)
      invariant start <= |line|
      decreases |line| - start
    {
      var word := LowerRun(line[start..]);
      start := start + |word|;
      if word !in AllowedLower {
        return Err(NotDefined(word));
      }
    }
    // Replace strings.
    if PlaceholderMatch(line) {
      return Err(NoSuchString);
    }
    return Ok(padding + line);
  }

  /** Failures are final: once a prefix of the lines fails, every longer
      prefix fails the same way. */
  lemma {:induction false} FailureIsFinal(lines: seq<string>, i: nat)
    requires i <= |lines| && RunPrefix(lines[..i]).Err?
    ensures RunPrefix(lines) == RunPrefix(lines[..i])
    decreases |lines| - i
  {
    if i < |lines| {
      var next := lines[..i + 1];
      assert next[..|next| - 1] == lines[..i];
      FailureIsFinal(lines, i + 1);
    } else {
      assert lines[..i] == lines;
    }
  }

  /** One more line of the program: the step on it, from the state the
      lines before it left. */
  lemma {:induction false} RunPrefixNext(lines: seq<string>, i: nat, stack: seq<Kind>, out: seq<string>)
    requires i < |lines| && RunPrefix(lines[..i]) == Ok((stack, out))
    ensures var o := Step(stack, lines[i]);
      RunPrefix(lines[..i + 1])
      == if o.out.Err? then Err(LineFailure(i + 1, Prepare(Strip(lines[i])), o.out.error))
         else Ok((o.stack, out + [o.out.value]))
  {
    var pre := lines[..i + 1];
    assert pre[..|pre| - 1] == lines[..i] && pre[|pre| - 1] == lines[i];
  }

  /** The pass over the lines of a program, one `to_python` call per line,
      then the check for blocks left open. */
  method TranslateLines(lines: seq<string>) returns (r: Result<seq<string>, Failure>)
    ensures r == Translation(lines)
  {
    var t := new Translator();
    var out: seq<string> := [];
    var i := 0;
    while i < |lines|
      invariant 0 <= i <= |lines|
      invariant RunPrefix(lines[..i]) == Ok((t.stack, out))
    {
      ghost var before := t.stack;
      var line := t.ToPython(lines[i]);
      RunPrefixNext(lines, i, before, out);
      if line.Err? {
        r := Err(LineFailure(i + 1, Prepare(Strip(lines[i])), line.error));
        FailureIsFinal(lines, i + 1);
        return;
      }
      out := out + [line.value];
      i := i + 1;
    }
    assert lines[..i] == lines;
    if |t.stack| > 0 {
      return Err(Incomplete(t.stack));
    }
    return Ok(out);
  }

  /** `Pseudocode(code)`: split at newlines, translate, join. */
  method Translate(code: string) returns (r: Result<string, Failure>)
    ensures r == Pseudocode(code)
  {
    var lines := SplitOn(code, "\n");
    var t := TranslateLines(lines);
    if t.Err? {
      return Err(t.error);
    }
    return Ok(Join("\n", t.value));
  }
}
