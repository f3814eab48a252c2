/** The runtime containers that translated programs construct: `Array`
    (fixed length, bounds-checked access), `Collection` (a list with a
    cursor), `Stack` (last in, first out) and `Queue` (first in, first out),
    and the text `_Base.__str__` writes for any of them. Each class keeps
    Python's `_elements` list as a sequence field; a raised exception is
    an `Err` result. */
module Containers {
  import opened Results
  import opened Text

  /** The exceptions the containers raise. */
  datatype Failure = OutOfBounds | NoElementsRemaining | EmptyStack | EmptyQueue

  /** The message each exception is raised with. */
  function Message(f: Failure): string
  {
    match f
    case OutOfBounds => "Array index out of bounds."
    case NoElementsRemaining => "No elements remaining."
    case EmptyStack => "Tried popping an empty stack."
    case EmptyQueue => "Attempted to dequeue an empty queue."
  }

  // ---------------------------------------------------------------------
  // _Base.__str__

  datatype ContainerType = ArrayType | CollectionType | StackType | QueueType

  /** `type(self).__name__`. */
  function TypeName(t: ContainerType): string
  {
    match t
    case ArrayType => "Array"
    case CollectionType => "Collection"
    case StackType => "Stack"
    case QueueType => "Queue"
  }

  /** The element values `__str__` is defined for: Python ints and strs. */
  datatype Value = Int(i: int) | Str(s: string)

  /** Python's `str(x)`. */
  function Show(v: Value): string
  {
    match v
    case Int(i) => IntToString(i)
    case Str(s) => s
  }

  /** One element through the template: `"[ELEMENT]"` when `quoted`,
      `[ELEMENT]` otherwise. */
  function Item(v: Value, quoted: bool): string
  {
    if quoted then "\"" + Show(v) + "\"" else Show(v)
  }

  /** `_Base.__str__`: the type name, then `(empty)` or the elements between
      braces, separated by commas; the first element decides whether every
      element is quoted. */
  function Describe(t: ContainerType, xs: seq<Value>): string
  {
    TypeName(t) + " " + (if xs != [] then "{ " + Join(", ", Items(xs)) + " }" else "(empty)")
  }

  /** Every element through the template the first element chose. */
  function Items(xs: seq<Value>): seq<string>
  {
    var quoted := xs != [] && xs[0].Str?;
    seq(|xs|, k requires 0 <= k < |xs| => Item(xs[k], quoted))
  }

  /** The text reads `<name> (empty)` exactly when there are no elements. */
  lemma DescribeEmptyIff(t: ContainerType, xs: seq<Value>)
    ensures Describe(t, xs) == TypeName(t) + " (empty)" <==> xs == []
  {
    var n := |TypeName(t)|;
    if xs != [] {
      assert Describe(t, xs)[n + 1] == '{';
      assert (TypeName(t) + " (empty)")[n + 1] == '(';
    }
  }

  /** One listed element read back; `quoted` says whether it went through
      the quoting template. */
  function ReadItem(p: string, quoted: bool): Option<Value>
  {
    if quoted then
      if |p| >= 2 && p[0] == '"' && p[|p| - 1] == '"' then Some(Str(p[1..|p| - 1])) else None
    else
      match ParseInt(p)
      case Some(i) => Some(Int(i))
      case None => None
  }

  function ReadItems(ps: seq<string>, quoted: bool): Option<seq<Value>>
  {
    if ps == [] then Some([])
    else match (ReadItem(ps[0], quoted), ReadItems(ps[1..], quoted))
      case (Some(v), Some(vs)) => Some([v] + vs)
      case _ => None
  }

  /** Reads a container's text back into its elements: `(empty)`, or the
      comma-separated listing between braces, quoted strings when the first
      listed element starts with a quote and integers otherwise. */
  function ReadBack(t: ContainerType, text: string): Option<seq<Value>>
  {
    var name := TypeName(t);
    if text == name + " (empty)" then Some([])
    else if StartsWith(text, name + " { ") && |text| >= |name| + 5
         && text[|text| - 2..] == " }" then
      var pieces := SplitOn(text[|name| + 3..|text| - 2], ", ");
      ReadItems(pieces, pieces[0] != [] && pieces[0][0] == '"')
    else None
  }

  /** A list whose elements are all integers, or all strings without a comma. */
  predicate Uniform(xs: seq<Value>)
  {
    (forall k :: 0 <= k < |xs| ==> xs[k].Int?)
    || (forall k :: 0 <= k < |xs| ==> xs[k].Str? && ',' !in xs[k].s)
  }

  /** `__str__` loses nothing for a uniform list: reading its text back
      gives the elements again. (A mixed list does not read back, because
      the first element alone decides the quoting.) */
  lemma {:induction false} DescribeReadBack(t: ContainerType, xs: seq<Value>)
    requires Uniform(xs)
    ensures ReadBack(t, Describe(t, xs)) == Some(xs)
  {
    DescribeShape(t, xs);
    if xs != [] {
      ListingReadBack(t, xs);
    } else {
      assert ReadBack(t, TypeName(t) + " (empty)") == Some([]);
    }
  }

  /** The two forms of the text, each as one concatenation. */
  lemma DescribeShape(t: ContainerType, xs: seq<Value>)
    ensures xs == [] ==> Describe(t, xs) == TypeName(t) + " (empty)"
    ensures xs != [] ==> Describe(t, xs) == TypeName(t) + " { " + Join(", ", Items(xs)) + " }"
  {
    var n := TypeName(t);
    if xs == [] {
      ConcatAssoc(n, " ", "(empty)");
      assert " " + "(empty)" == " (empty)";
    } else {
      var j := Join(", ", Items(xs));
      ConcatAssoc(n, " ", "{ " + j + " }");
      ConcatAssoc(n + " ", "{ " + j, " }");
      ConcatAssoc(n + " ", "{ ", j);
      ConcatAssoc(n, " ", "{ ");
      assert " " + "{ " == " { ";
    }
  }

  /** The braced listing of a non-empty uniform list reads back. */
  lemma ListingReadBack(t: ContainerType, xs: seq<Value>)
    requires Uniform(xs) && xs != []
    ensures ReadBack(t, TypeName(t) + " { " + Join(", ", Items(xs)) + " }") == Some(xs)
  {
    ItemsFacts(xs);
    ReadListing(t, Join(", ", Items(xs)), Items(xs), xs[0].Str?);
  }

  /** The listed elements of a non-empty uniform list: the listing splits
      back into them, the first shows the quoting, and they read back. */
  lemma ItemsFacts(xs: seq<Value>)
    requires Uniform(xs) && xs != []
    ensures var items := Items(xs);
      SplitOn(Join(", ", items), ", ") == items && items != [] && items[0] != []
      && (items[0][0] == '"' <==> xs[0].Str?)
      && ReadItems(items, xs[0].Str?) == Some(xs)
  {
    var items := Items(xs);
    assert SplitOn(Join(", ", items), ", ") == items by {
      ItemsWithoutComma(xs);
      SplitJoin(items, ", ");
    }
    FirstItemShowsQuoting(xs);
    ItemsReadBack(xs);
  }

  lemma ItemsReadBack(xs: seq<Value>)
    requires Uniform(xs) && xs != []
    ensures ReadItems(Items(xs), xs[0].Str?) == Some(xs)
  {
    ReadItemsBack(xs, Items(xs), xs[0].Str?);
  }

  /** `text` is `name { middle }`. */
  predicate Braced(name: string, text: string, middle: string)
  {
    StartsWith(text, name + " { ") && |text| >= |name| + 5
    && text[|text| - 2..] == " }" && text[|name| + 3..|text| - 2] == middle
  }

  /** `ReadBack` of a braced listing whose pieces are known. */
  lemma ReadListing(t: ContainerType, middle: string, items: seq<string>, quoted: bool)
    requires SplitOn(middle, ", ") == items && items != [] && items[0] != []
    requires items[0][0] == '"' <==> quoted
    ensures ReadBack(t, TypeName(t) + " { " + middle + " }") == ReadItems(items, quoted)
  {
    var name := TypeName(t);
    var text := name + " { " + middle + " }";
    ListingSlices(name, middle);
    assert text != name + " (empty)" by {
      assert text[|name| + 1] == '{';
      assert (name + " (empty)")[|name| + 1] == '(';
    }
  }

  lemma ItemsWithoutComma(xs: seq<Value>)
    requires Uniform(xs)
    ensures forall k :: 0 <= k < |Items(xs)| ==> ',' !in Items(xs)[k]
  {
    var items := Items(xs);
    forall k | 0 <= k < |items| ensures ',' !in items[k] {
      ItemWithoutComma(xs[k], xs[0].Str?);
    }
  }

  lemma ListingSlices(name: string, middle: string)
    ensures Braced(name, name + " { " + middle + " }", middle)
  {
    var text := name + " { " + middle + " }";
    assert text[..|name + " { "|] == name + " { ";
  }

  lemma FirstItemShowsQuoting(xs: seq<Value>)
    requires xs != []
    ensures Items(xs)[0] != [] && (Items(xs)[0][0] == '"' <==> xs[0].Str?)
  {
    if xs[0].Int? {
      SignShown(xs[0].i);
      if xs[0].i >= 0 {
        assert IsDigit(NatToString(xs[0].i)[0]);
      }
    }
  }

  lemma ItemWithoutComma(v: Value, quoted: bool)
    requires v.Int? || ',' !in v.s
    ensures ',' !in Item(v, quoted)
  {
    if v.Int? {
      var s := IntToString(v.i);
      forall k | 0 <= k < |s| ensures s[k] != ',' {
        if v.i < 0 {
          if k > 0 { assert s[k] == NatToString(-v.i)[k - 1]; }
        }
      }
    }
  }

  lemma {:induction false} ReadItemsBack(xs: seq<Value>, items: seq<string>, quoted: bool)
    requires |items| == |xs|
    requires forall k :: 0 <= k < |xs| ==> items[k] == Item(xs[k], quoted)
    requires forall k :: 0 <= k < |xs| ==> (xs[k].Str? <==> quoted)
    ensures ReadItems(items, quoted) == Some(xs)
  {
    if xs != [] {
      ReadItemsBack(xs[1..], items[1..], quoted);
      if quoted {
        var p := items[0];
        assert p == "\"" + xs[0].s + "\"";
        assert p[1..|p| - 1] == xs[0].s;
      } else {
        ParseShown(xs[0].i);
      }
      assert xs == [xs[0]] + xs[1..];
    }
  }

  // ---------------------------------------------------------------------
  // Array

  /** Fixed-length random access; there is no `isEmpty` (the class derives
      from `_Base`, not `_KnowsIfEmpty`). */
  class Array<T> {
    var elements: seq<T>

    constructor (elements: seq<T>)
      ensures this.elements == elements
    {
      this.elements := elements;
    }

    /** `a[index]`. */
    function Get(index: int): (r: Result<T, Failure>)
      reads this
      ensures r.Ok? <==> 0 <= index < |elements|
      ensures r.Ok? ==> r.value == elements[index]
      ensures r.Err? ==> r.error == OutOfBounds
    {
      if 0 <= index < |elements| then Ok(elements[index]) else Err(OutOfBounds)
    }

    /** `a[index] = value`. */
    method Set(index: int, value: T) returns (r: Result<(), Failure>)
      modifies this
      ensures r == if 0 <= index < |old(elements)| then Ok(()) else Err(OutOfBounds)
      ensures r.Ok? ==> elements == old(elements)[index := value]
      ensures r.Err? ==> r.error == OutOfBounds && elements == old(elements)
    {
      if 0 <= index < |elements| {
        elements := elements[index := value];
        r := Ok(());
      } else {
        r := Err(OutOfBounds);
      }
    }
  }

  /** Setting a slot and reading it returns the new value; every other slot
      keeps its value and the length does not change; an index outside
      `[0, length)`, negative ones included, fails both ways. */
  method ArraySetGet<T>(xs: seq<T>, i: int, v: T, j: int)
    returns (stored: Result<(), Failure>, got: Result<T, Failure>, length: nat)
    ensures stored == (if 0 <= i < |xs| then Ok(()) else Err(OutOfBounds))
    ensures got == if !(0 <= j < |xs|) then Err(OutOfBounds)
                   else if j == i then Ok(v) else Ok(xs[j])
    ensures length == |xs|
  {
    var a := new Array(xs);
    stored := a.Set(i, v);
    got := a.Get(j);
    length := |a.elements|;
  }

  // ---------------------------------------------------------------------
  // Collection

  /** A list with a cursor: items are added at the cursor and read from it. */
  class Collection<T> {
    var elements: seq<T>
    var index: nat

    /** The cursor never passes the end. */
    ghost predicate Valid()
      reads this
    {
      index <= |elements|
    }

    constructor (elements: seq<T>)
      ensures Valid() && this.elements == elements && index == 0
    {
      this.elements := elements;
      index := 0;
    }

    /** `addItem(e)`: inserts `e` at the cursor and moves the cursor past it,
        so what was still to be read is still to be read. */
    method AddItem(element: T)
      requires Valid()
      modifies this
      ensures Valid()
      ensures elements == old(elements[..index]) + [element] + old(elements[index..])
      ensures index == old(index) + 1
      ensures elements[index..] == old(elements[index..])
    {
      elements := elements[..index] + [element] + elements[index..];
      index := index + 1;
    }

    /** `getNext()`: the element at the cursor, and the cursor moves on. */
    method GetNext() returns (r: Result<T, Failure>)
      requires Valid()
      modifies this`index
      ensures Valid()
      ensures old(index) < |elements| ==> r == Ok(elements[old(index)]) && index == old(index) + 1
      ensures old(index) == |elements| ==> r == Err(NoElementsRemaining) && index == old(index)
    {
      if index < |elements| {
        r := Ok(elements[index]);
        index := index + 1;
      } else {
        r := Err(NoElementsRemaining);
      }
    }

    /** `resetNext()`. */
    method ResetNext()
      requires Valid()
      modifies this`index
      ensures Valid() && index == 0
    {
      index := 0;
    }

    /** `hasNext()`. */
    function HasNext(): bool
      reads this
    {
      index < |elements|
    }

    /** `isEmpty()`. */
    function IsEmpty(): bool
      reads this
    {
      elements == []
    }
  }

  /** Items added one by one to an empty collection are, after `resetNext`,
      read back by `getNext` in the order they were added; then `hasNext`
      is false and a further `getNext` fails. */
  method CollectionRoundTrip<T>(xs: seq<T>)
    returns (read: seq<T>, more: bool, after: Result<T, Failure>, empty: bool)
    ensures read == xs && !more && after == Err(NoElementsRemaining)
    ensures empty <==> xs == []
  {
    var c := new Collection<T>([]);
    var i := 0;
    while i < |xs|
      invariant 0 <= i <= |xs|
      invariant c.Valid() && c.elements == xs[..i] && c.index == i
    {
      c.AddItem(xs[i]);
      assert xs[..i + 1] == xs[..i] + [xs[i]];
      i := i + 1;
    }
    assert xs[..i] == xs;
    empty := c.IsEmpty();
    c.ResetNext();
    read := [];
    while c.HasNext()
      invariant c.Valid() && c.elements == xs && read == xs[..c.index]
      decreases |xs| - c.index
    {
      var r := c.GetNext();
      read := read + [r.value];
      assert xs[..c.index] == xs[..c.index - 1] + [xs[c.index - 1]];
    }
    assert read == xs;
    more := c.HasNext();
    after := c.GetNext();
  }

  // ---------------------------------------------------------------------
  // Stack

  /** The elements in reverse order. */
  function Reversed<T>(s: seq<T>): (r: seq<T>)
    ensures |r| == |s| && forall k :: 0 <= k < |s| ==> r[k] == s[|s| - 1 - k]
  {
    if s == [] then [] else Reversed(s[1..]) + [s[0]]
  }

  /** Last in, first out. */
  class Stack<T> {
    var elements: seq<T>

    constructor (elements: seq<T>)
      ensures this.elements == elements
    {
      this.elements := elements;
    }

    /** `push(e)`: `e` goes on top. */
    method Push(element: T)
      modifies this
      ensures elements == old(elements) + [element]
    {
      elements := elements + [element];
    }

    /** `pop()`: removes and returns the top element; fails on an empty stack,
        which stays empty. */
    method Pop() returns (r: Result<T, Failure>)
      modifies this
      ensures old(elements) == [] ==> r == Err(EmptyStack) && elements == []
      ensures old(elements) != [] ==>
        r == Ok(old(elements)[|old(elements)| - 1]) && elements == old(elements)[..|old(elements)| - 1]
    {
      if elements != [] {
        r := Ok(elements[|elements| - 1]);
        elements := elements[..|elements| - 1];
      } else {
        r := Err(EmptyStack);
      }
    }

    /** `isEmpty()`. */
    function IsEmpty(): bool
      reads this
    {
      elements == []
    }
  }

  /** A pushed value is popped straight back and the stack is as before. */
  method PushThenPop<T>(xs: seq<T>, v: T) returns (popped: Result<T, Failure>, rest: seq<T>)
    ensures popped == Ok(v) && rest == xs
  {
    var s := new Stack(xs);
    s.Push(v);
    popped := s.Pop();
    rest := s.elements;
  }

  /** Values pushed in order onto an empty stack come off in reverse order;
      then the stack is empty and a further `pop` fails. */
  method StackRoundTrip<T>(xs: seq<T>) returns (popped: seq<T>, after: Result<T, Failure>, empty: bool)
    ensures popped == Reversed(xs)
    ensures after == Err(EmptyStack) && empty
  {
    var s := new Stack<T>([]);
    var i := 0;
    while i < |xs|
      invariant 0 <= i <= |xs| && s.elements == xs[..i]
    {
      s.Push(xs[i]);
      assert xs[..i + 1] == xs[..i] + [xs[i]];
      i := i + 1;
    }
    popped := [];
    while !s.IsEmpty()
      invariant |s.elements| <= |xs|
      invariant s.elements == xs[..|s.elements|]
      invariant popped == Reversed(xs[|s.elements|..])
      decreases |s.elements|
    {
      var n := |s.elements|;
      var r := s.Pop();
      assert xs[n - 1..][1..] == xs[n - 1 + 1..];
      popped := popped + [r.value];
    }
    assert xs[0..] == xs;
    empty := s.IsEmpty();
    after := s.Pop();
  }

  // ---------------------------------------------------------------------
  // Queue

  /** First in, first out. */
  class Queue<T> {
    var elements: seq<T>

    constructor (elements: seq<T>)
      ensures this.elements == elements
    {
      this.elements := elements;
    }

    /** `enqueue(e)`: `e` joins at the back. */
    method Enqueue(element: T)
      modifies this
      ensures elements == old(elements) + [element]
    {
      elements := elements + [element];
    }

    /** `dequeue()`: removes and returns the front element; fails on an empty
        queue, which stays empty. */
    method Dequeue() returns (r: Result<T, Failure>)
      modifies this
      ensures old(elements) == [] ==> r == Err(EmptyQueue) && elements == []
      ensures old(elements) != [] ==> r == Ok(old(elements)[0]) && elements == old(elements)[1..]
    {
      if elements != [] {
        r := Ok(elements[0]);
        elements := elements[1..];
      } else {
        r := Err(EmptyQueue);
      }
    }

    /** `isEmpty()`. */
    function IsEmpty(): bool
      reads this
    {
      elements == []
    }
  }

  /** Values enqueued in order onto an empty queue are dequeued in the same
      order; then the queue is empty and a further `dequeue` fails. */
  method QueueRoundTrip<T>(xs: seq<T>) returns (dequeued: seq<T>, after: Result<T, Failure>, empty: bool)
    ensures dequeued == xs
    ensures after == Err(EmptyQueue) && empty
  {
    var q := new Queue<T>([]);
    var i := 0;
    while i < |xs|
      invariant 0 <= i <= |xs| && q.elements == xs[..i]
    {
      q.Enqueue(xs[i]);
      assert xs[..i + 1] == xs[..i] + [xs[i]];
      i := i + 1;
    }
    assert xs[..i] == xs;
    dequeued := [];
    while !q.IsEmpty()
      invariant |dequeued| <= |xs|
      invariant dequeued + q.elements == xs
      decreases |q.elements|
    {
      var old_elements := q.elements;
      var r := q.Dequeue();
      dequeued := dequeued + [r.value];
      assert old_elements == [r.value] + q.elements;
    }
    empty := q.IsEmpty();
    after := q.Dequeue();
  }
}
