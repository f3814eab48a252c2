# ibdp_classes in Dafny

This project models the core of `ibdp_classes`, a small environment for
IB Diploma pseudocode. The core has three parts.

- **The runtime containers** that translated programs build: `Array`,
  `Collection`, `Stack` and `Queue`, and the text `_Base.__str__` writes for
  them.
- **The translator** (`Pseudocode.__init__`). It rewrites a pseudocode program
  into Python one line at a time while it keeps a stack of the blocks still
  open (`if`, `loop`, `function`, `procedure`). At the end it checks that
  every block was closed.
- **The runtime helpers** for bits and strings (`src/extensions/bits_defs.py`
  and `src/extensions/strings_defs.py`).

Modules and files:

| file | module | contents |
|---|---|---|
| `results.dfy` | `Results` | `Result` and `Option` |
| `text.dfy` | `Text` | Python's `str.strip`, `in`, `replace`, `split`, `join` and `str(int)` on `seq<char>`, with their laws |
| `containers.dfy` | `Containers` | the four container classes, `__str__` as `Describe`, its read-back |
| `special.dfy` | `SpecialSymbols` | `special` as written (`Special`), an independent character-by-character definition (`Normalise`), and the proof that they agree |
| `patterns.dfy` | `Patterns` | the translator's regular expressions, as anchored recognisers |
| `translator.dfy` | `Translator` | `to_python` as a function (`Step`) and as a method on a class holding the block stack (`Translator.ToPython`), the pass over the lines, the final stack check, the error messages |
| `blocks.dfy` | `Blocks` | a token view of each line, and the theorems: when a program is accepted, the nesting grammar, the first failure, the indentation of each output line |
| `line_rules.dfy` | `LineRules` | what each rule of `to_python` makes of the usual form of its line |
| `output_lines.dfy` | `OutputLines` | the Python text has exactly one line per pseudocode line |
| `bits.dfy` | `Bits` | the bit helpers on non-negative integers, bit by bit |
| `strings_ext.dfy` | `StringsDefs` | the string helpers with Python's index and slice rules |

Each raised exception, and each `sys.stderr.write` followed by `exit(-1)`,
is modelled as an `Err` value. `Translator.Failure` records the 1-based line
number, the line as rewritten so far, and a `Reason`. `Translator.ErrorText`
gives the text written to standard error.

All integers are unbounded, as in Python.

## Model

| member | source | states |
|---|---|---|
| Containers.Array.constructor | ibdp_classes/ibdp_classes.py:39-40 | the array holds the given elements |
| Containers.Array.Get | ibdp_classes/ibdp_classes.py:51-57 | succeeds exactly for `0 <= index < length` and returns that element; otherwise fails with out-of-bounds |
| Containers.Array.Set | ibdp_classes/ibdp_classes.py:42-49 | in range: only that slot changes, to the new value; out of range (negative included): fails and nothing changes |
| Containers.ArraySetGet | ibdp_classes/ibdp_classes.py:42-57 | after a set, reading the same slot gives the new value, every other slot keeps its old value, and the length is unchanged |
| Containers.Collection.constructor | ibdp_classes/ibdp_classes.py:64-66 | starts with the given elements and the cursor at 0 |
| Containers.Collection.AddItem | ibdp_classes/ibdp_classes.py:68-73 | inserts at the cursor and moves the cursor past the new item; what follows the cursor is unchanged |
| Containers.Collection.GetNext | ibdp_classes/ibdp_classes.py:75-82 | returns the element at the cursor and advances it; at the end it fails with "No elements remaining." and the cursor stays |
| Containers.Collection.ResetNext | ibdp_classes/ibdp_classes.py:84-86 | the cursor returns to 0 and the elements are kept |
| Containers.Collection.HasNext | ibdp_classes/ibdp_classes.py:88-90 | `hasNext()`: true exactly while the cursor is before the end; `Containers.CollectionRoundTrip` states it is false once every item was read |
| Containers.Collection.IsEmpty | ibdp_classes/ibdp_classes.py:31-33 | `isEmpty()`: true exactly when there are no elements; `Containers.CollectionRoundTrip` ties it to the items added |
| Containers.CollectionRoundTrip | ibdp_classes/ibdp_classes.py:60-90 | items added one by one are read back in the same order after `resetNext`; then `hasNext` is false and `getNext` fails; `isEmpty` holds exactly when nothing was added |
| Containers.Stack.constructor | ibdp_classes/ibdp_classes.py:97-98 | the stack holds the given elements |
| Containers.Stack.Push | ibdp_classes/ibdp_classes.py:100-102 | the element goes on top |
| Containers.Stack.Pop | ibdp_classes/ibdp_classes.py:104-109 | removes and returns the top element; an empty stack fails and stays empty |
| Containers.Stack.IsEmpty | ibdp_classes/ibdp_classes.py:31-33 | `isEmpty()` on a stack: true exactly when there are no elements; `Containers.StackRoundTrip` states it holds after every pushed value was popped |
| Containers.PushThenPop | ibdp_classes/ibdp_classes.py:100-109 | a pushed value pops straight back, and the stack is left as before |
| Containers.StackRoundTrip | ibdp_classes/ibdp_classes.py:93-109 | values pushed in order pop off in reverse order; then the stack is empty and `pop` fails |
| Containers.Reversed | ibdp_classes/ibdp_classes.py:104-109 | element `k` of the reverse is element `n - 1 - k` of the original |
| Containers.Queue.constructor | ibdp_classes/ibdp_classes.py:116-117 | the queue holds the given elements |
| Containers.Queue.Enqueue | ibdp_classes/ibdp_classes.py:119-121 | the element joins at the back |
| Containers.Queue.Dequeue | ibdp_classes/ibdp_classes.py:123-129 | removes and returns the front element; an empty queue fails and stays empty |
| Containers.Queue.IsEmpty | ibdp_classes/ibdp_classes.py:31-33 | `isEmpty()` on a queue: true exactly when there are no elements; `Containers.QueueRoundTrip` states it holds after every value was dequeued |
| Containers.QueueRoundTrip | ibdp_classes/ibdp_classes.py:112-129 | values enqueued in order are dequeued in the same order; then the queue is empty and `dequeue` fails |
| Containers.Describe | ibdp_classes/ibdp_classes.py:15-27 | `__str__`: the type name and then either `(empty)` or the items in braces, each through the template the first element chose; `Containers.DescribeEmptyIff` and `Containers.DescribeReadBack` state which form appears and that the items read back |
| Containers.DescribeEmptyIff | ibdp_classes/ibdp_classes.py:20-27 | the text is `<type name> (empty)` exactly when there are no elements |
| Containers.DescribeReadBack | ibdp_classes/ibdp_classes.py:15-27 | for a list of integers only, or of comma-free strings only, the text reads back to exactly the original elements |
| Containers.FirstItemShowsQuoting | ibdp_classes/ibdp_classes.py:16-19 | the first listed item starts with a quote exactly when the first element is a string |
| Containers.ItemWithoutComma | ibdp_classes/ibdp_classes.py:22 | an integer, or a string without a comma, gives a listed item without a comma |
| Containers.ReadItemsBack | ibdp_classes/ibdp_classes.py:22 | items produced by the template read back to their values |
| Text.Strip | ibdp_classes/ibdp_classes.py:293 | the result neither starts nor ends with whitespace, and every character of it comes from the line |
| Text.StripMeaning | ibdp_classes/ibdp_classes.py:293 | `s.strip()` is the piece of `s` that starts after the leading whitespace run; everything before it and everything after it is whitespace, so with the contract of `Text.Strip` only the two end runs are removed |
| Text.SplitJoin | ibdp_classes/ibdp_classes.py:292-295 | joining pieces none of which contains the separator's first character, and then splitting at the separator, gives the pieces back |
| Text.JoinSplit | ibdp_classes/ibdp_classes.py:137 | splitting at a separator and joining again gives the text back |
| Text.ReplaceSelf | ibdp_classes/ibdp_classes.py:213 | replacing a piece by itself changes nothing |
| Text.ReplaceAbsent | ibdp_classes/ibdp_classes.py:213 | replacing a piece that does not occur changes nothing |
| Text.IntToStringInjective | ibdp_classes/ibdp_classes.py:223 | `str` of an integer is injective, so distinct line numbers give distinct messages |
| SpecialSymbols.EqualsRun | ibdp_classes/ibdp_classes.py:153 | the longest prefix made only of `=` |
| SpecialSymbols.Special | ibdp_classes/ibdp_classes.py:185-198 | `special` as written: the replacements in table order, then the step that shortens a leading run of `=`; `SpecialSymbols.SpecialIsNormalise` states that on every line not starting with `=` it computes `SpecialSymbols.Normalise` |
| SpecialSymbols.Normalise | ibdp_classes/ibdp_classes.py:185-198 | the reference rewrite, one character at a time: `≠ ≤ ≥` become `!= <= >=`, and an `=` is doubled unless it follows `!`, `<` or `>`; `SpecialSymbols.SpecialIsNormalise` states that `special` computes it on every line not starting with `=`, which covers every header the translator builds |
| SpecialSymbols.SpecialIsNormalise | ibdp_classes/ibdp_classes.py:185-198 | on every line not starting with `=`, `special` is the reference rewrite: `≠ ≤ ≥` become `!= <= >=`, an `=` after `!`, `<` or `>` stays, and every other `=` is doubled |
| SpecialSymbols.CollapsedExpand | ibdp_classes/ibdp_classes.py:186-195 | the last four replacements of the table, applied after the first three, give the reference rewrite |
| SpecialSymbols.SpecialPlain | ibdp_classes/ibdp_classes.py:185-198 | a line without `= ≠ ≤ ≥` is unchanged |
| SpecialSymbols.SpecialKeepsComparisons | ibdp_classes/ibdp_classes.py:185-198 | a line whose every `=` already follows `!`, `<` or `>`, and which has no `≠ ≤ ≥`, is unchanged |
| SpecialSymbols.SpecialHeader | ibdp_classes/ibdp_classes.py:226 | on a header `<indent><keyword><condition>:`, only the condition is rewritten |
| SpecialSymbols.NormaliseAround | ibdp_classes/ibdp_classes.py:186-195 | each character of a condition is rewritten in the context of the character before it |
| SpecialSymbols.DoubleEqualsDoubled | ibdp_classes/ibdp_classes.py:190 | a Python `==` written in a condition becomes `====` |
| Patterns.IdentPrefix | ibdp_classes/ibdp_classes.py:142 | the identifier group `[A-Z][A-Z_0-9]*` |
| Patterns.IfFindsThen | ibdp_classes/ibdp_classes.py:139 | a line the `if` pattern matches contains `then` after `if ` |
| Patterns.WhileMatch | ibdp_classes/ibdp_classes.py:141 | a match starts with `loop `, contains `while`, and its group is a suffix of the line |
| Patterns.ForMatch | ibdp_classes/ibdp_classes.py:142 | a match starts with `loop `, its variable is an identifier, its lower bound is non-empty without spaces, and its upper bound is non-empty |
| Patterns.EndMatch | ibdp_classes/ibdp_classes.py:143 | matches exactly when the line is `end`, a space and at least one more character; the name is a non-empty suffix of the line |
| Patterns.InputAsMatch | ibdp_classes/ibdp_classes.py:144 | a match starts with `input ` and its variable is an identifier |
| Patterns.InputMatch | ibdp_classes/ibdp_classes.py:145 | a match starts with `input ` and its variable is an identifier |
| Patterns.OutputMatch | ibdp_classes/ibdp_classes.py:146 | a match starts with `output` and its group is a suffix of the line |
| Patterns.DefMatch | ibdp_classes/ibdp_classes.py:147-148 | a match starts with its keyword and its name is an identifier |
| Patterns.QuotedMatch | ibdp_classes/ibdp_classes.py:150 | a match is the quote-free text between an opening quote at the start and the next quote |
| Patterns.DropNew | ibdp_classes/ibdp_classes.py:215-216 | after the rewrite no `new <container>(` is left |
| Patterns.DropNewOne | ibdp_classes/ibdp_classes.py:215-216 | a line holding one `new <container>(`, with no `new` before it and no match after it, becomes the same line with `new ` removed: `a + "new " + N + "(" + b` gives `a + N + "(" + b` |
| Translator.KindNameInjective | ibdp_classes/ibdp_classes.py:219-267 | distinct kinds of block push distinct names, so `end` identifies one kind |
| Translator.Pad | ibdp_classes/ibdp_classes.py:201 | the indentation is two spaces per open block |
| Translator.ElsePadding | ibdp_classes/ibdp_classes.py:234 | `padding[0:-2]` is the indentation of one block less, and none at the outermost level |
| Translator.HeaderPrefix | ibdp_classes/ibdp_classes.py:226 | the indentation and keyword of an `if` or `while` header are left alone by `special` |
| Translator.Classify | ibdp_classes/ibdp_classes.py:218-290 | the rules of `to_python` in the source's order on a prepared line: the new stack and the emitted line or the reason; `Blocks.ClassifyFollowsToken`, `Blocks.ClassifyShape` and the `LineRules` lemmas state what each rule does |
| Translator.Step | ibdp_classes/ibdp_classes.py:200-290 | one `to_python` call: strip the line, apply the substitutions and the `new` rewrite, then the rules; `Translator.Translator.ToPython` computes it and `Blocks.ClassifyFollowsToken` states when it succeeds |
| Translator.Translator.constructor | ibdp_classes/ibdp_classes.py:181 | the block stack starts empty |
| Translator.Translator.ToPython | ibdp_classes/ibdp_classes.py:200-290 | the emitted line, or the error, and the new stack are those of the rule chain taken in the source's order |
| Translator.PrepareLine | ibdp_classes/ibdp_classes.py:204-216 | computes the line after the substitution chain and the `new` rewrite |
| Translator.CheckFallthrough | ibdp_classes/ibdp_classes.py:270-290 | computes the fallthrough as specified, including its error cases and the loop that never ends |
| Translator.RunPrefix | ibdp_classes/ibdp_classes.py:292-295 | on success there is one output line per input line; a failure names a line number within the program |
| Translator.Translation | ibdp_classes/ibdp_classes.py:292-301 | the pass over all lines and the final stack check; `Blocks.TranslationAccepts`, `Blocks.TranslationIncomplete` and `Blocks.TranslationFirstFailure` state when it succeeds and how it fails |
| Translator.FailureIsFinal | ibdp_classes/ibdp_classes.py:222-225 | once a prefix of the program fails, every longer prefix fails the same way |
| Translator.TranslateLines | ibdp_classes/ibdp_classes.py:292-301 | one `to_python` call per line, then the check for open blocks; the result is the translation of the lines |
| Translator.Translate | ibdp_classes/ibdp_classes.py:135-301 | split at newlines, translate, join: the result is `Pseudocode(code)` |
| Translator.Pseudocode | ibdp_classes/ibdp_classes.py:137-301 | split the code at newlines, translate, join with newlines; `OutputLines.PseudocodeLines` states that the result splits back into the translated lines |
| Translator.ErrorText | ibdp_classes/ibdp_classes.py:218-301 | the text written to standard error for each failure, `None` for the Python exceptions and the loop that never ends; `Translator.ErrorTextLine` and `Translator.IncompleteListing` state its form |
| Translator.ErrorTextLine | ibdp_classes/ibdp_classes.py:218-283 | a line failure is written to standard error exactly for the four reasons the source reports itself, and the message then opens with `* Error in line <n>: ` |
| Translator.EndList | ibdp_classes/ibdp_classes.py:299 | one `end <kind>` per open block, bottom of the stack first |
| Translator.IncompleteListing | ibdp_classes/ibdp_classes.py:297-301 | the message for an incomplete program splits back at `, ` into exactly the open blocks, bottom of the stack first |
| Blocks.Tokens | ibdp_classes/ibdp_classes.py:292-295 | one token per line |
| Blocks.ClassifyFollowsToken | ibdp_classes/ibdp_classes.py:218-290 | a line is accepted exactly when it is not malformed on its own and its token fits the stack, and the new stack is the one the token leaves; a malformed line fails with its own reason |
| Blocks.RunPrefixFollowsTokens | ibdp_classes/ibdp_classes.py:292-295 | the pass gets through every line exactly when no line is malformed and the tokens nest from the empty stack; the final stack is the one the tokens leave |
| Blocks.TranslationAccepts | ibdp_classes/ibdp_classes.py:292-301 | a program is accepted exactly when no line is malformed and its tokens take the empty stack back to empty |
| Blocks.TranslationIncomplete | ibdp_classes/ibdp_classes.py:297-301 | an incomplete program reports exactly the blocks its tokens leave open |
| Blocks.FirstFailure | ibdp_classes/ibdp_classes.py:222-283 | a line failure names the first failing line: every earlier line is accepted, and that line fails with the reason given |
| Blocks.TranslationFirstFailure | ibdp_classes/ibdp_classes.py:292-301 | the same for the whole translation |
| Blocks.WellNestedRestores | ibdp_classes/ibdp_classes.py:244-251 | correctly nested tokens leave any stack as they found it |
| Blocks.AcceptedIsWellNested | ibdp_classes/ibdp_classes.py:244-251 | tokens that take the empty stack back to empty are correctly nested |
| Blocks.NestIsGrammar | ibdp_classes/ibdp_classes.py:244-251 | nesting in the translator's sense is the grammar of correctly nested blocks, in both directions |
| Blocks.TranslationAcceptsNested | ibdp_classes/ibdp_classes.py:292-301 | a program whose lines are all well formed is accepted exactly when its blocks are correctly nested |
| Blocks.FallthroughErrors | ibdp_classes/ibdp_classes.py:270-290 | whether the fallthrough fails does not depend on the indentation |
| Blocks.ClassifyShape | ibdp_classes/ibdp_classes.py:201-290 | an accepted `end` line becomes the empty line, `else` becomes `else:` one level out, and every other line starts with two spaces per open block |
| Blocks.OutputShape | ibdp_classes/ibdp_classes.py:292-295 | every line of an accepted program's output has the shape of its pseudocode line at the depth reached before it |
| LineRules.ElseLine | ibdp_classes/ibdp_classes.py:228-234 | `else` becomes `else:` one level out and keeps the stack |
| LineRules.ElseNotAlone | ibdp_classes/ibdp_classes.py:228-233 | any other line starting with `else` is rejected and the stack is kept |
| LineRules.EndLine | ibdp_classes/ibdp_classes.py:244-251 | `end k` pops the innermost block; it emits an empty line when that block is of kind `k`, and otherwise fails naming the popped kind; on an empty stack it fails |
| LineRules.WhileHeader | ibdp_classes/ibdp_classes.py:236-238 | `loop while c` opens a loop and becomes `while <special(c)>:` at the current indentation |
| LineRules.WhileCondition | ibdp_classes/ibdp_classes.py:141 | the `r_while` pattern matches `loop while c` with `c` as its group when `c` does not start with a space |
| LineRules.ForHeader | ibdp_classes/ibdp_classes.py:240-242 | `loop V from A to B` opens a loop and becomes `for V in range(A, B + 1):` |
| LineRules.ForParts | ibdp_classes/ibdp_classes.py:142 | the `r_for` pattern matches `loop V from A to B` for an identifier `V`, a space-free `A` and a `B` not starting with a space, with groups `V`, `A` and `B` |
| LineRules.IfHeader | ibdp_classes/ibdp_classes.py:218-226 | `if c then` opens an if block and becomes `if <special(c)>:` |
| LineRules.InputAsLine | ibdp_classes/ibdp_classes.py:253-254 | `input X as T` becomes `X = T(input())` and keeps the stack |
| LineRules.InputAsMatchParts | ibdp_classes/ibdp_classes.py:144 | the `r_input_type` pattern matches `input X as T` for an identifier `X` and a `T` not starting with a space, with groups `X` and `T` |
| LineRules.InputLine | ibdp_classes/ibdp_classes.py:256-257 | `input X` becomes `X = input()` and keeps the stack |
| LineRules.InputParts | ibdp_classes/ibdp_classes.py:144-145 | `input X` for an identifier `X` does not match `r_input_type`, and matches `r_input` with group `X` |
| LineRules.OutputLine | ibdp_classes/ibdp_classes.py:259-260 | `output E` becomes `print(E)` and keeps the stack |
| LineRules.OutputParts | ibdp_classes/ibdp_classes.py:146 | the `r_output` pattern matches `output E` with group `E` when `E` does not start with a space |
| LineRules.DefLine | ibdp_classes/ibdp_classes.py:262-268 | `function N(P)` and `procedure N(P)` open a block of their kind and become `def N(P):` |
| LineRules.DefParts | ibdp_classes/ibdp_classes.py:147-148 | `function N(P)` and `procedure N(P)` match their pattern with groups `N` and `P` for an identifier `N` |
| LineRules.KeywordLine | ibdp_classes/ibdp_classes.py:218-251 | a line starting with `input`, `output`, `function` or `procedure` and a space is taken by none of the earlier rules |
| LineRules.NoRuleFor | ibdp_classes/ibdp_classes.py:218-268 | a line whose leading lowercase word is no keyword reaches the fallthrough |
| LineRules.UndefinedWord | ibdp_classes/ibdp_classes.py:276-283 | such a line is rejected when its leading lowercase word is not allowed, and the error names that word |
| LineRules.FallthroughPlain | ibdp_classes/ibdp_classes.py:270-290 | the fallthrough of a line without a leading quote: rejected exactly for a disallowed leading word or a leading placeholder, and otherwise the indented line |
| LineRules.KeptLine | ibdp_classes/ibdp_classes.py:276-290 | a line no rule takes keeps the stack, is accepted exactly when its leading lowercase word is allowed or absent, and is then only indented |
| OutputLines.ClassifyOneLine | ibdp_classes/ibdp_classes.py:200-290 | an accepted line without a newline is rewritten to a line without a newline |
| OutputLines.PseudocodeLines | ibdp_classes/ibdp_classes.py:137-295 | splitting the Python text at newlines gives exactly the translated lines, one per pseudocode line and in order |
| Bits.SetBit | src/extensions/bits_defs.py:1-2 | `SET_BIT(x, p)` is `x \| (1 << p)`; `Bits.SetBitBits` states its bits |
| Bits.UnsetBit | src/extensions/bits_defs.py:5-6 | `UNSET_BIT(x, p)` is `SET_BIT(x, p) ^ (1 << p)`; `Bits.UnsetBitBits` states its bits |
| Bits.BitIsSet | src/extensions/bits_defs.py:9-10 | `BIT_IS_SET(x, p)` is `x & (1 << p) != 0`; `Bits.BitIsSetIff` states it tests bit `p` |
| Bits.BitAnd | src/extensions/bits_defs.py:13-14 | `BIT_AND`; `Bits.AndBits` states each bit of the result |
| Bits.BitOr | src/extensions/bits_defs.py:17-18 | `BIT_OR`; `Bits.OrBits` states each bit of the result |
| Bits.BitXor | src/extensions/bits_defs.py:21-22 | `BIT_XOR`; `Bits.XorBits` states each bit of the result |
| Bits.BitNot8 | src/extensions/bits_defs.py:25-26 | `BIT_NOT_8`, the complement masked to 8 bits; `Bits.NotWidths` bounds it and `Bits.NotBits` states its bits |
| Bits.BitNot16 | src/extensions/bits_defs.py:29-30 | `BIT_NOT_16`, the complement masked to 16 bits; `Bits.NotWidths` bounds it and `Bits.NotBits` states its bits |
| Bits.BitNot32 | src/extensions/bits_defs.py:33-34 | `BIT_NOT_32`, the complement masked to 32 bits; `Bits.NotWidths` bounds it and `Bits.NotBits` states its bits |
| Bits.SetBitBits | src/extensions/bits_defs.py:1-2 | `SET_BIT(x, p)` has bit `p` set and every other bit of `x` |
| Bits.UnsetBitBits | src/extensions/bits_defs.py:5-6 | `UNSET_BIT(x, p)` has bit `p` clear and every other bit of `x` |
| Bits.BitIsSetIff | src/extensions/bits_defs.py:9-10 | `BIT_IS_SET(x, p)` holds exactly when `(x / 2^p) % 2 == 1` |
| Bits.SetThenTest | src/extensions/bits_defs.py:1-10 | the bit `SET_BIT` sets tests as set, and the one `UNSET_BIT` clears tests as clear |
| Bits.SetBitIdempotent | src/extensions/bits_defs.py:1-6 | setting, or clearing, a bit twice is the same as doing it once |
| Bits.AndBits | src/extensions/bits_defs.py:13-14 | each bit of `a & b` is the conjunction of the bits of `a` and `b` |
| Bits.OrBits | src/extensions/bits_defs.py:17-18 | each bit of `a \| b` is the disjunction of the bits |
| Bits.XorBits | src/extensions/bits_defs.py:21-22 | each bit of `a ^ b` is the exclusive or of the bits |
| Bits.BitOpsCommute | src/extensions/bits_defs.py:13-22 | `&`, `\|` and `^` are commutative |
| Bits.XorSelf | src/extensions/bits_defs.py:21-22 | `a ^ a == 0` |
| Bits.BitsEqual | src/extensions/bits_defs.py:13-22 | numbers with the same bits are equal |
| Bits.BitNot | src/extensions/bits_defs.py:25-34 | the complement masked to `w` bits lies in `[0, 2^w)` for every integer, negative ones included |
| Bits.NotInRange | src/extensions/bits_defs.py:25-34 | on `[0, 2^w)` the masked complement is `2^w - 1 - x` |
| Bits.NotInvolution | src/extensions/bits_defs.py:25-34 | on `[0, 2^w)` the masked complement maps the range onto itself and undoes itself |
| Bits.NotLowBits | src/extensions/bits_defs.py:25-34 | only the low `w` bits of the argument matter |
| Bits.ComplementIsXor | src/extensions/bits_defs.py:25-34 | within `w` bits, `2^w - 1 - x` is `x ^ (2^w - 1)` |
| Bits.NotBits | src/extensions/bits_defs.py:25-34 | for `x` in range, the masked complement flips exactly the low `w` bits |
| Bits.NotWidths | src/extensions/bits_defs.py:25-34 | `BIT_NOT_8`, `BIT_NOT_16` and `BIT_NOT_32` stay below `0x100`, `0x10000` and `0x100000000` |
| StringsDefs.SliceBound | src/extensions/strings_defs.py:1-2 | where a slice bound lands: bounds in range stay, negative ones count from the end, and bounds outside the string are clipped to `0` or to its length |
| StringsDefs.Substring | src/extensions/strings_defs.py:1-2 | the substring is no longer than the string; `StringsDefs.SubstringInRange`, `StringsDefs.SubstringRest` and `StringsDefs.SubstringClipped` state its value |
| StringsDefs.SubstringZeroEnd | src/extensions/strings_defs.py:1-2 | an end of `0` counts as no end |
| StringsDefs.SubstringFromZeroToZero | src/extensions/strings_defs.py:1-2 | `SUBSTRING(s, 0, 0)` is all of `s` |
| StringsDefs.SubstringInRange | src/extensions/strings_defs.py:1-2 | with bounds in range and a non-zero end, the result is the piece between the bounds, of length `end - start` |
| StringsDefs.SubstringRest | src/extensions/strings_defs.py:1-2 | without an end, the rest of the string; a negative start takes that many characters from the end |
| StringsDefs.SubstringsMeet | src/extensions/strings_defs.py:1-2 | two substrings that meet make up the one that spans both |
| StringsDefs.SubstringClipped | src/extensions/strings_defs.py:1-2 | an end at or past the end of the string is the same as no end, and bounds that cross once clipped give the empty string |
| StringsDefs.SubstringLength | src/extensions/strings_defs.py:1-2 | with a non-zero end, the length is how far the clipped end lies past the clipped start, or `0` |
| StringsDefs.Character | src/extensions/strings_defs.py:5-6 | `CHARACTER(s, i)`: `s[i]` with Python's negative indices, or an index error; `StringsDefs.CharacterDefined` states when it succeeds |
| StringsDefs.CharacterDefined | src/extensions/strings_defs.py:5-6 | `CHARACTER` succeeds exactly for indices `-len .. len - 1`, and gives one character |
| StringsDefs.CharacterFromEnd | src/extensions/strings_defs.py:5-6 | a negative index gives the character `len` places further on |
| StringsDefs.CharacterIsSubstring | src/extensions/strings_defs.py:1-6 | the character at any valid index `i` is the substring from `i` to `i + 1`; at `-1` the end `0` means no end, which again gives the last character |
| StringsDefs.StringReplace | src/extensions/strings_defs.py:17-18 | `REPLACE` on strings; `StringsDefs.ReplaceUnchanged` and `StringsDefs.ReplaceCharacters` state what it keeps |
| StringsDefs.ReplaceUnchanged | src/extensions/strings_defs.py:17-18 | replacing an absent non-empty piece, or a piece by itself, changes nothing |
| StringsDefs.ReplaceCharacters | src/extensions/strings_defs.py:17-18 | every character of the result comes from the string or from the replacement |
| StringsDefs.StringContains | src/extensions/strings_defs.py:21-22 | `CONTAINS(s, t)`; `StringsDefs.ContainsPiece` states it holds exactly when `t` occurs in `s` |
| StringsDefs.ContainsPiece | src/extensions/strings_defs.py:21-22 | `CONTAINS(s, t)` holds exactly when `t` occurs at some position of `s`; every string contains the empty string |
| StringsDefs.StringLength | src/extensions/strings_defs.py:25-26 | the number of characters |
| StringsDefs.RepeatString | src/extensions/strings_defs.py:29-30 | `REPEAT(s, n)`: `s * n`, empty for a count that is not positive; `StringsDefs.RepeatLength` and `StringsDefs.RepeatAdd` state its length, characters and sums |
| StringsDefs.RepeatStringIsRepeat | src/extensions/strings_defs.py:29-30 | for a count that is not negative, `REPEAT` is `n` copies of the string |
| StringsDefs.RepeatLength | src/extensions/strings_defs.py:29-30 | `REPEAT(s, n)` has `len(s) * max(n, 0)` characters, character `k` being `s[k % len(s)]` |
| StringsDefs.RepeatAdd | src/extensions/strings_defs.py:29-30 | repeating `a` times then `b` times is repeating `a + b` times |

## Left out

- `Pseudocode.__call__`: it runs the generated Python with `exec` and captures standard output. Executing Python is outside the model.
- `Pseudocode.__str__`: it returns the stored code and has no logic.
- Writing to standard error and `exit(-1)`: these become `Err` results; `Translator.ErrorText` says what would be written.
- The `r_logic` loop (lines 202-203): `to_python` only ever receives stripped lines, so a leading space never occurs and the loop never runs. `Translator.PrepareLine` records this in a comment; the loop is not modelled.
- String extraction and restoration (lines 270-288) are modelled as written:
  - A line that starts with a non-empty quoted string never leaves the extraction loop (`NeverEnds`).
  - A line with `""` at the start, or a leading `<<<n>>>`, fails with Python's `IndexError`, because `strings` stays empty (`NoSuchString`).
  - Nothing is modelled beyond these outcomes.
- `UPPERCASE` and `LOWERCASE`: Unicode case mapping is not modelled.
- The `isinstance(index, int)` checks of `Array` and the error "Non integer Array index.": every index is an integer in the model.
- `REPLACE` on values that are not strings: `str(old)` and `str(new)` are taken to be strings already. `REPEAT` on a count that is not an integer: `int(n)` is taken to be an integer already.
- Bits.SetBitBits: the bit helpers are modelled on non-negative integers only. For negative arguments, Python's `&`, `|` and `^` act on an infinite two's complement, which is not modelled. `BitNot` covers every integer.
- Containers.Describe: elements are Python `int` or `str` only; other element types are not modelled.
- In the regular expressions, `.` is treated as any character. The lines come from `split("\n")`, so they hold no newline anyway.
- Patterns.WhileMatch: its own contract states only necessary conditions. `LineRules.WhileCondition` states that `loop while c` matches, for one space between the words; lines with several spaces there are not covered by a lemma.
- Patterns.ForMatch: its own contract states only necessary conditions. `LineRules.ForParts` states that `loop V from A to B` matches with groups `V`, `A` and `B`, for one space between the words; other spacings are not covered by a lemma.
- Patterns.InputAsMatch: its own contract states only necessary conditions. `LineRules.InputAsMatchParts` states that `input X as T` matches, for one space between the words; other spacings are not covered by a lemma.
- Patterns.InputMatch: its own contract states only necessary conditions. `LineRules.InputParts` states that `input X` matches with group `X`; other spacings are not covered by a lemma.
- Patterns.OutputMatch: its own contract states only necessary conditions. `LineRules.OutputParts` states that `output E` matches with group `E`; other spacings are not covered by a lemma.
- Patterns.DefMatch: its own contract states only necessary conditions. `LineRules.DefParts` states that `function N(P)` and `procedure N(P)` match with groups `N` and `P`; other spacings are not covered by a lemma.
- Patterns.DropNew: its own contract states only that no match is left. `Patterns.DropNewOne` states what a line with one `new <container>(` becomes; lines with several matches, or with a `new` before the match, are not covered by a lemma.
- Text.Strip: its own contract states only that the ends are not whitespace and that its characters come from the line. `Text.StripMeaning` states the rest, which is kept out of the function's contract so that proofs using `Strip` stay small.
- LineRules.ForHeader: this and the other line-rule lemmas cover the canonical form of each line, with one space where the pattern allows several.
- The command-line entry points (`__main__.py`), `math_defs.py`, `turtle_defs.py` and the examples are not part of this model.

### Where the code differs from its description

The model follows the code:

- Only the leading lowercase word of a fallthrough line is checked. `r_lower.match(line, start)` is anchored at `start`, and the character after the first word is never a lowercase letter, so the loop runs at most once.
- `Array` derives from `_Base`, not `_KnowsIfEmpty`, so it has no `isEmpty`.
- `special` turns every `=` into `==`, so a Python `==` written in a condition becomes `====` (`SpecialSymbols.DoubleEqualsDoubled`). The `r_equals` step only looks at the start of the line, which in a header is indentation or a keyword.
- The `if` rule pushes onto the stack before it checks the form of the line. The error then ends the translation, so the push has no visible effect.
- The allowed words `isEmpty`, `addItem` and the other method names can never be the leading lowercase run: that run stops at the first uppercase letter.
