/** The class-name joiner `cn`: flattens nested lists of optional class
    names, drops the falsy ones and joins the rest with single spaces. */
module ClassNames {

  /** ClassValue: a string, undefined, null, false, or a nested list. */
  datatype ClassValue = Str(s: string) | Undefined | Null | False | Array(items: seq<ClassValue>)

  /** JavaScript truthiness of a ClassValue: the empty string, undefined,
      null and false are falsy; every list, even an empty one, is truthy. */
  function Truthy(v: ClassValue): (truthy: bool)
    ensures !truthy <==> v == Str("") || v == Undefined || v == Null || v == False
  {
    match v
    case Str(s) => s != ""
    case Array(_) => true
    case _ => false
  }

  /** Total number of characters in `parts`. */
  function TotalLength(parts: seq<string>): (n: nat)
    ensures parts != [] ==> n >= |parts[|parts| - 1]|
  {
    if parts == [] then 0 else TotalLength(parts[..|parts| - 1]) + |parts[|parts| - 1]|
  }

  /** Array.prototype.join(' '): the parts in order with one separator
      between neighbours, so the join adds |parts| - 1 characters. */
  function Join(parts: seq<string>): (joined: string)
    ensures parts == [] ==> joined == ""
    ensures parts != [] ==> |joined| == TotalLength(parts) + |parts| - 1
  {
    if |parts| == 0 then ""
    else if |parts| == 1 then parts[0]
    else Join(parts[..|parts| - 1]) + " " + parts[|parts| - 1]
  }

  predicate NoneEmpty(parts: seq<string>)
  {
    forall k :: 0 <= k < |parts| ==> parts[k] != ""
  }

  /** The reference meaning of cn: the non-empty strings of the arguments,
      nested lists spliced in place, in order. */
  function Leaves(vs: seq<ClassValue>): (ls: seq<string>)
    ensures NoneEmpty(ls)
    decreases vs, 1
  {
    if vs == [] then []
    else Leaves(vs[..|vs| - 1]) + LeavesOf(vs[|vs| - 1])
  }

  function LeavesOf(v: ClassValue): (ls: seq<string>)
    ensures NoneEmpty(ls)
    decreases v, 0
  {
    match v
    case Str(s) => if s == "" then [] else [s]
    case Array(items) => Leaves(items)
    case _ => []
  }

  /** Joining two non-empty lists puts one space between their joins. */
  lemma {:induction false} JoinAppend(a: seq<string>, b: seq<string>)
    requires a != [] && b != []
    ensures Join(a + b) == Join(a) + " " + Join(b)
    decreases |b|
  {
    if |b| == 1 {
      assert (a + b)[..|a + b| - 1] == a;
    } else {
      var b' := b[..|b| - 1];
      assert (a + b)[..|a + b| - 1] == a + b';
      JoinAppend(a, b');
      assert (a + b)[|a + b| - 1] == b[|b| - 1];
    }
  }

  /** With no empty parts the join is empty exactly when there are no parts. */
  lemma JoinEmptyIff(parts: seq<string>)
    requires NoneEmpty(parts)
    ensures Join(parts) == "" <==> parts == []
  {
    if |parts| > 1 {
      assert |Join(parts)| >= 1;
    }
  }

  /** Leaves distributes over concatenation of argument lists. */
  lemma {:induction false} LeavesAppend(a: seq<ClassValue>, b: seq<ClassValue>)
    ensures Leaves(a + b) == Leaves(a) + Leaves(b)
    decreases |b|
  {
    if b == [] {
      assert a + b == a;
    } else {
      var b', last := b[..|b| - 1], b[|b| - 1];
      assert a + b == (a + b') + [last];
      assert ((a + b') + [last])[..|a + b'|] == a + b';
      assert Leaves(a + b) == Leaves(a + b') + LeavesOf(last);
      assert Leaves(b) == Leaves(b') + LeavesOf(last);
      LeavesAppend(a, b');
    }
  }

  /** Pushing a non-empty piece keeps every pushed class non-empty. */
  lemma PushKeepsNoneEmpty(classes: seq<string>, group: seq<string>, piece: string)
    requires NoneEmpty(classes) && NoneEmpty(group)
    requires group != [] && piece == Join(group)
    ensures NoneEmpty(classes + [piece])
  {
    JoinEmptyIff(group);
  }

  lemma PushOntoNonEmpty(classes: seq<string>, before: seq<string>, group: seq<string>, piece: string)
    requires classes != [] && before != []
    requires Join(classes) == Join(before)
    requires group != [] && piece == Join(group)
    ensures Join(classes + [piece]) == Join(before + group)
  {
    JoinAppend(classes, [piece]);
    JoinAppend(before, group);
  }

  lemma PushOntoEmpty(classes: seq<string>, before: seq<string>, group: seq<string>, piece: string)
    requires classes == [] && before == []
    requires group != [] && piece == Join(group)
    ensures Join(classes + [piece]) == Join(before + group)
  {
    assert before + group == group;
  }

  /** Pushing the join of a non-empty group of leaves onto the pushed
      classes keeps them in step with the leaves seen so far. */
  lemma PushKeepsJoin(classes: seq<string>, before: seq<string>, group: seq<string>, piece: string)
    requires NoneEmpty(classes) && NoneEmpty(before) && NoneEmpty(group)
    requires classes == [] <==> before == []
    requires Join(classes) == Join(before)
    requires group != [] && piece == Join(group)
    ensures NoneEmpty(classes + [piece])
    ensures Join(classes + [piece]) == Join(before + group)
  {
    PushKeepsNoneEmpty(classes, group, piece);
    if classes != [] {
      PushOntoNonEmpty(classes, before, group, piece);
    } else {
      PushOntoEmpty(classes, before, group, piece);
    }
  }

  /** cn: falsy entries are skipped, strings are kept, nested lists are
      joined recursively and kept unless that join is empty. The result is
      the space-separated join of the non-empty leaf strings, in order. */
  method Cn(inputs: seq<ClassValue>) returns (joined: string)
    ensures joined == Join(Leaves(inputs))
    decreases inputs
  {
    var classes: seq<string> := [];
    for i := 0 to |inputs|
      invariant NoneEmpty(classes)
      invariant classes == [] <==> Leaves(inputs[..i]) == []
      invariant Join(classes) == Join(Leaves(inputs[..i]))
    {
      var input := inputs[i];
      ghost var before := Leaves(inputs[..i]);
      assert inputs[..i + 1][..i] == inputs[..i];
      assert Leaves(inputs[..i + 1]) == before + LeavesOf(input);
      if !Truthy(input) {
        assert before + LeavesOf(input) == before;
        continue;
      }
      match input {
        case Str(s) =>
          PushKeepsJoin(classes, before, [s], s);
          classes := classes + [s];
        case Array(items) =>
          var nested := Cn(items);
          JoinEmptyIff(Leaves(items));
          if nested != "" {
            PushKeepsJoin(classes, before, Leaves(items), nested);
            classes := classes + [nested];
          } else {
            assert before + LeavesOf(input) == before;
          }
      }
    }
    assert inputs[..|inputs|] == inputs;
    joined := Join(classes);
  }

  /** Plain non-empty strings are joined as given, in argument order. */
  lemma {:induction false} LeavesOfStrings(inputs: seq<ClassValue>)
    requires forall k :: 0 <= k < |inputs| ==> inputs[k].Str? && inputs[k].s != ""
    ensures |Leaves(inputs)| == |inputs|
    ensures forall k :: 0 <= k < |inputs| ==> Leaves(inputs)[k] == inputs[k].s
    decreases |inputs|
  {
    if inputs != [] {
      var prefix := inputs[..|inputs| - 1];
      LeavesOfStrings(prefix);
      assert LeavesOf(inputs[|inputs| - 1]) == [inputs[|inputs| - 1].s];
      assert Leaves(inputs) == Leaves(prefix) + [inputs[|inputs| - 1].s];
    }
  }

  /** A falsy entry contributes nothing, not even a separator. */
  lemma FalsyIsSkipped(a: seq<ClassValue>, v: ClassValue, b: seq<ClassValue>)
    requires !Truthy(v)
    ensures Join(Leaves(a + [v] + b)) == Join(Leaves(a + b))
  {
    LeavesAppend(a + [v], b);
    LeavesAppend(a, [v]);
    LeavesAppend(a, b);
    assert [v][..0] == [];
    assert LeavesOf(v) == [];
    assert Leaves([v]) == [];
    assert Leaves(a + [v]) == Leaves(a);
  }

  /** A nested list is flattened as if its elements were arguments. */
  lemma NestedIsSpliced(a: seq<ClassValue>, items: seq<ClassValue>, b: seq<ClassValue>)
    ensures Join(Leaves(a + [Array(items)] + b)) == Join(Leaves(a + items + b))
  {
    LeavesAppend(a + [Array(items)], b);
    LeavesAppend(a, [Array(items)]);
    LeavesAppend(a + items, b);
    LeavesAppend(a, items);
    assert [Array(items)][..0] == [];
    assert Leaves([Array(items)]) == Leaves([]) + LeavesOf(Array(items));
  }

  /** cn('foo', 'bar') == 'foo bar' */
  lemma CnExampleStrings()
    ensures Join(Leaves([Str("foo"), Str("bar")])) == "foo bar"
  {
    LeavesOfStrings([Str("foo"), Str("bar")]);
    assert Leaves([Str("foo"), Str("bar")]) == ["foo", "bar"];
    assert Join(["foo", "bar"]) == Join(["foo"]) + " " + "bar";
  }

  lemma JoinTwo(a: string, b: string)
    ensures Join([a, b]) == a + " " + b
  {
    assert [a, b][..1] == [a];
  }

  lemma JoinThree(a: string, b: string, c: string)
    ensures Join([a, b, c]) == a + " " + b + " " + c
  {
    assert [a, b, c][..2] == [a, b];
    JoinTwo(a, b);
  }

  /** cn('foo', false, 'baz') == 'foo baz' */
  lemma CnExampleFalsy()
    ensures Join(Leaves([Str("foo"), False, Str("baz")])) == "foo baz"
  {
    var foo, baz := Str("foo"), Str("baz");
    var vs := [foo, False, baz];
    assert vs[..2] == [foo, False] && [foo, False][..1] == [foo] && [foo][..0] == [];
    assert Leaves([foo]) == [] + ["foo"];
    assert Leaves([foo, False]) == ["foo"] + [];
    assert Leaves(vs) == ["foo"] + ["baz"];
    JoinTwo("foo", "baz");
  }

  /** cn(['foo', 'bar'], 'baz') == 'foo bar baz' */
  lemma CnExampleNested()
    ensures Join(Leaves([Array([Str("foo"), Str("bar")]), Str("baz")])) == "foo bar baz"
  {
    var foo, bar, baz := Str("foo"), Str("bar"), Str("baz");
    var vs := [Array([foo, bar]), baz];
    assert [foo, bar][..1] == [foo] && [foo][..0] == [];
    assert Leaves([foo]) == [] + ["foo"];
    assert Leaves([foo, bar]) == ["foo"] + ["bar"];
    assert vs[..1] == [Array([foo, bar])] && [Array([foo, bar])][..0] == [];
    assert Leaves([Array([foo, bar])]) == [] + ["foo", "bar"];
    assert Leaves(vs) == ["foo", "bar"] + ["baz"];
    JoinThree("foo", "bar", "baz");
  }

  /** With no truthy leaf the result is the empty string. */
  lemma CnExampleNothing()
    ensures Join(Leaves([Undefined, Null, Str(""), Array([])])) == ""
  {
    var vs := [Undefined, Null, Str(""), Array([])];
    assert vs[..3] == [Undefined, Null, Str("")];
    assert vs[..3][..2] == [Undefined, Null];
    assert vs[..3][..2][..1] == [Undefined];
    assert [Undefined][..0] == [];
    assert Leaves([Undefined]) == [];
    assert Leaves([Undefined, Null]) == [];
    assert Leaves([Undefined, Null, Str("")]) == [];
    assert LeavesOf(Array([])) == [];
  }

  /** cn yields the empty string exactly when no argument holds a
      non-empty string, at any depth. */
  lemma CnEmptyIff(inputs: seq<ClassValue>)
    ensures Join(Leaves(inputs)) == "" <==> Leaves(inputs) == []
  {
    JoinEmptyIff(Leaves(inputs));
  }

  /** The default class used when no false branch is given. */
  const DefaultFalseClass: string := ""

  /** conditionalClass: one of two class names, chosen by the condition. */
  function ConditionalClass(condition: bool, trueClass: string, falseClass: string): (cls: string)
    ensures condition ==> cls == trueClass
    ensures !condition ==> cls == falseClass
  {
    if condition then trueClass else falseClass
  }

  /** Without a false branch, a false condition gives no class. */
  lemma ConditionalClassDefault(condition: bool, trueClass: string)
    ensures ConditionalClass(condition, trueClass, DefaultFalseClass) == (if condition then trueClass else "")
  {
  }
}
