/** The pre-check of validation.DecodeJSON (internal/validation/validation.go): a recursive descent
    over the decoder's token stream that refuses nulls, deep nesting, repeated keys and trailing data. */
module JsonCheck {
  import opened NetAddr

  const MAX_DEPTH := 16

  datatype Token = ObjectOpen | ObjectClose | ArrayOpen | ArrayClose | Null | Text(s: string) | Scalar(repr: string)

  predicate IsClose(t: Token) {
    t == ObjectClose || t == ArrayClose
  }

  // ---------------------------------------------------------------- documents

  datatype Field = Field(key: string, value: Tree)

  datatype Tree = Leaf(token: Token) | Array(items: seq<Tree>) | Object(fields: seq<Field>)

  /** The token listing of a document. */
  function Listing(t: Tree): seq<Token>
    decreases t, 1
  {
    match t
    case Leaf(tok) => [tok]
    case Array(items) => [ArrayOpen] + ItemsListing(items)
    case Object(fields) => [ObjectOpen] + FieldsListing(fields)
  }

  /** Items, then the closing bracket. */
  function ItemsListing(items: seq<Tree>): seq<Token>
    decreases items, 0
  {
    if items == [] then [ArrayClose] else Listing(items[0]) + ItemsListing(items[1..])
  }

  function FieldsListing(fields: seq<Field>): seq<Token>
    decreases fields, 0
  {
    if fields == [] then [ObjectClose]
    else [Text(fields[0].key)] + Listing(fields[0].value) + FieldsListing(fields[1..])
  }

  /** No null, no value deeper than the limit, no two keys of one object equal after lower-casing. */
  ghost predicate Acceptable(t: Tree, depth: nat, lower: string -> string)
    decreases t
  {
    && depth <= MAX_DEPTH
    && match t
       case Leaf(tok) => tok.Text? || tok.Scalar?
       case Array(items) => forall i :: 0 <= i < |items| ==> Acceptable(items[i], depth + 1, lower)
       case Object(fields) =>
         && (forall i, j :: 0 <= i < j < |fields| ==> lower(fields[i].key) != lower(fields[j].key))
         && (forall i :: 0 <= i < |fields| ==> Acceptable(fields[i].value, depth + 1, lower))
  }

  // ---------------------------------------------------------------- the check on a token list

  /** A successful check yields the tokens it has not consumed. */
  function Check(ts: seq<Token>, depth: nat, lower: string -> string): (r: Option<seq<Token>>)
    ensures r.Some? ==> |r.value| < |ts|
    decreases |ts|, 1
  {
    if depth > MAX_DEPTH || ts == [] || IsClose(ts[0]) || ts[0].Null? then None
    else if ts[0].ArrayOpen? then CheckItems(ts[1..], depth + 1, lower)
    else if ts[0].ObjectOpen? then CheckFields(ts[1..], depth + 1, lower, {})
    else Some(ts[1..])
  }

  function CheckItems(ts: seq<Token>, depth: nat, lower: string -> string): (r: Option<seq<Token>>)
    ensures r.Some? ==> |r.value| < |ts|
    decreases |ts|, 2
  {
    if ts == [] || ts[0].ObjectClose? then None
    else if ts[0].ArrayClose? then Some(ts[1..])
    else
      match Check(ts, depth, lower)
      case None => None
      case Some(rest) => CheckItems(rest, depth, lower)
  }

  function CheckFields(ts: seq<Token>, depth: nat, lower: string -> string, seen: set<string>): (r: Option<seq<Token>>)
    ensures r.Some? ==> |r.value| < |ts|
    decreases |ts|, 2
  {
    if ts == [] then None
    else if ts[0].ObjectClose? then Some(ts[1..])
    else if !ts[0].Text? || lower(ts[0].s) in seen then None
    else
      match Check(ts[1..], depth, lower)
      case None => None
      case Some(rest) => CheckFields(rest, depth, lower, seen + {lower(ts[0].s)})
  }

  // ---------------------------------------------------------------- the decoder and the code

  /** Where the decoder is: inside an array, before a key, or before a field's value. */
  datatype Frame = InArray | BeforeKey | BeforeValue

  predicate ValueExpected(stack: seq<Frame>) {
    stack == [] || stack[|stack| - 1] != BeforeKey
  }

  /** The tokens that json.Decoder lets through in its current position. */
  predicate Allowed(t: Token, stack: seq<Frame>) {
    if stack == [] then !IsClose(t)
    else
      match stack[|stack| - 1]
      case InArray => !t.ObjectClose?
      case BeforeKey => t.Text? || t.ObjectClose?
      case BeforeValue => !IsClose(t)
  }

  /** A finished field value makes the decoder expect a key. */
  function ValueEnd(stack: seq<Frame>): seq<Frame> {
    if stack != [] && stack[|stack| - 1] == BeforeValue then stack[|stack| - 1 := BeforeKey] else stack
  }

  function Moved(stack: seq<Frame>, t: Token): seq<Frame>
    requires Allowed(t, stack)
  {
    match t
    case ArrayOpen => stack + [InArray]
    case ObjectOpen => stack + [BeforeKey]
    case ArrayClose | ObjectClose => ValueEnd(stack[..|stack| - 1])
    case Null | Text(_) | Scalar(_) =>
      if ValueExpected(stack) then ValueEnd(stack) else stack[|stack| - 1 := BeforeValue]
  }

  class Decoder {
    var rest: seq<Token>
    var stack: seq<Frame>
    const clean: bool  // the input ends after the tokens, instead of in a syntax error

    constructor (tokens: seq<Token>, clean: bool)
      ensures rest == tokens && stack == [] && this.clean == clean
    {
      rest, stack := tokens, [];
      this.clean := clean;
    }

    method Token() returns (t: Option<Token>)
      modifies this
      ensures t.Some? <==> old(rest) != [] && Allowed(old(rest)[0], old(stack))
      ensures t.Some? ==>
        t.value == old(rest)[0] && rest == old(rest)[1..] && stack == Moved(old(stack), t.value)
      ensures t.None? ==> rest == old(rest) && stack == old(stack)
    {
      if rest == [] || !Allowed(rest[0], stack) {
        return None;
      }
      t := Some(rest[0]);
      rest, stack := rest[1..], Moved(stack, t.value);
    }

    /** A syntax error ahead also counts as more. */
    method More() returns (more: bool)
      ensures more <==> if rest == [] then !clean else !IsClose(rest[0])
    {
      more := if rest == [] then !clean else !IsClose(rest[0]);
    }

    method CheckValue(depth: nat, lower: string -> string) returns (ok: bool)
      requires ValueExpected(stack)
      requires stack != [] && stack[|stack| - 1] == InArray ==> rest == [] || !IsClose(rest[0])  // More() held
      modifies this
      ensures ok <==> Check(old(rest), depth, lower).Some?
      ensures ok ==> Check(old(rest), depth, lower) == Some(rest) && stack == ValueEnd(old(stack))
      decreases |rest|, 1
    {
      if depth > MAX_DEPTH {
        return false;
      }
      var t := Token();
      if t.None? || t.value.Null? {
        return false;
      }
      match t.value {
        case ObjectOpen => ok := CheckObjectBody(depth, lower);
        case ArrayOpen => ok := CheckArrayBody(depth, lower);
        case _ => ok := true;
      }
    }

    method CheckArrayBody(depth: nat, lower: string -> string) returns (ok: bool)
      requires stack != [] && stack[|stack| - 1] == InArray
      modifies this
      ensures ok <==> CheckItems(old(rest), depth + 1, lower).Some?
      ensures ok ==> CheckItems(old(rest), depth + 1, lower) == Some(rest)
      ensures ok ==> stack == ValueEnd(old(stack)[..|old(stack)| - 1])
      decreases |rest|, 2
    {
      var more := More();
      while more
        modifies this
        invariant |rest| <= |old(rest)| && stack == old(stack)
        invariant more <==> if rest == [] then !clean else !IsClose(rest[0])
        invariant CheckItems(rest, depth + 1, lower) == CheckItems(old(rest), depth + 1, lower)
        decreases |rest|
      {
        ok := CheckValue(depth + 1, lower);
        if !ok {
          return;
        }
        more := More();
      }
      var end := Token();
      ok := end.Some? && end.value == ArrayClose;
    }

    method CheckObjectBody(depth: nat, lower: string -> string) returns (ok: bool)
      requires stack != [] && stack[|stack| - 1] == BeforeKey
      modifies this
      ensures ok <==> CheckFields(old(rest), depth + 1, lower, {}).Some?
      ensures ok ==> CheckFields(old(rest), depth + 1, lower, {}) == Some(rest)
      ensures ok ==> stack == ValueEnd(old(stack)[..|old(stack)| - 1])
      decreases |rest|, 2
    {
      var seen: set<string> := {};
      var more := More();
      while more
        modifies this
        invariant |rest| <= |old(rest)| && stack == old(stack)
        invariant more <==> if rest == [] then !clean else !IsClose(rest[0])
        invariant CheckFields(rest, depth + 1, lower, seen) == CheckFields(old(rest), depth + 1, lower, {})
        decreases |rest|
      {
        var key := Token();
        if key.None? || !key.value.Text? || lower(key.value.s) in seen {
          return false;
        }
        seen := seen + {lower(key.value.s)};
        ok := CheckValue(depth + 1, lower);
        if !ok {
          return;
        }
        assert stack == old(stack);
        more := More();
      }
      var end := Token();
      ok := end.Some? && end.value == ObjectClose;
    }

    /** The check of the whole input: one value, then the end. */
    method CheckDocument(lower: string -> string) returns (ok: bool)
      requires stack == []
      modifies this
      ensures ok <==> clean && Check(old(rest), 0, lower) == Some([])
    {
      ok := CheckValue(0, lower);
      if ok {
        ok := rest == [] && clean;
      }
    }
  }

  // ---------------------------------------------------------------- every acceptable tree passes

  lemma {:induction false} CheckAccepts(t: Tree, after: seq<Token>, depth: nat, lower: string -> string)
    requires Acceptable(t, depth, lower)
    ensures Check(Listing(t) + after, depth, lower) == Some(after)
    decreases t, 1
  {
    var ts := Listing(t) + after;
    match t {
      case Leaf(_) =>
        assert ts[1..] == after;
      case Array(items) =>
        assert ts[1..] == ItemsListing(items) + after;
        ItemsAccepted(items, after, depth + 1, lower);
      case Object(fields) =>
        assert ts[1..] == FieldsListing(fields) + after;
        FieldsAccepted(fields, after, depth + 1, lower, {});
    }
  }

  lemma {:induction false} ItemsAccepted(items: seq<Tree>, after: seq<Token>, depth: nat, lower: string -> string)
    requires forall i :: 0 <= i < |items| ==> Acceptable(items[i], depth, lower)
    ensures CheckItems(ItemsListing(items) + after, depth, lower) == Some(after)
    decreases items, 0
  {
    var ts := ItemsListing(items) + after;
    if items == [] {
      assert ts[1..] == after;
    } else {
      var others := ItemsListing(items[1..]);
      assert ts == Listing(items[0]) + (others + after);
      CheckAccepts(items[0], others + after, depth, lower);
      ItemsAccepted(items[1..], after, depth, lower);
    }
  }

  lemma {:induction false} FieldsAccepted(
      fields: seq<Field>, after: seq<Token>, depth: nat, lower: string -> string, seen: set<string>)
    requires forall i :: 0 <= i < |fields| ==> Acceptable(fields[i].value, depth, lower)
    requires forall i, j :: 0 <= i < j < |fields| ==> lower(fields[i].key) != lower(fields[j].key)
    requires forall i :: 0 <= i < |fields| ==> lower(fields[i].key) !in seen
    ensures CheckFields(FieldsListing(fields) + after, depth, lower, seen) == Some(after)
    decreases fields, 0
  {
    var ts := FieldsListing(fields) + after;
    if fields == [] {
      assert ts[1..] == after;
    } else {
      var others := FieldsListing(fields[1..]);
      assert ts[1..] == Listing(fields[0].value) + (others + after);
      CheckAccepts(fields[0].value, others + after, depth, lower);
      FieldsAccepted(fields[1..], after, depth, lower, seen + {lower(fields[0].key)});
    }
  }

  // ---------------------------------------------------------------- whatever passes is such a tree

  lemma {:induction false} CheckFindsTree(ts: seq<Token>, depth: nat, lower: string -> string) returns (t: Tree)
    requires Check(ts, depth, lower).Some?
    ensures Acceptable(t, depth, lower) && ts == Listing(t) + Check(ts, depth, lower).value
    decreases |ts|, 1
  {
    if ts[0].ArrayOpen? {
      var items := ItemsFound(ts[1..], depth + 1, lower);
      t := Array(items);
    } else if ts[0].ObjectOpen? {
      var fields := FieldsFound(ts[1..], depth + 1, lower, {});
      t := Object(fields);
    } else {
      t := Leaf(ts[0]);
    }
  }

  lemma {:induction false} ItemsFound(ts: seq<Token>, depth: nat, lower: string -> string) returns (items: seq<Tree>)
    requires CheckItems(ts, depth, lower).Some?
    ensures forall i :: 0 <= i < |items| ==> Acceptable(items[i], depth, lower)
    ensures ts == ItemsListing(items) + CheckItems(ts, depth, lower).value
    decreases |ts|, 2
  {
    items := [];
    if !ts[0].ArrayClose? {
      var first := CheckFindsTree(ts, depth, lower);
      var others := ItemsFound(Check(ts, depth, lower).value, depth, lower);
      items := [first] + others;
      assert items[1..] == others;
    }
  }

  lemma {:induction false} FieldsFound(ts: seq<Token>, depth: nat, lower: string -> string, seen: set<string>)
    returns (fields: seq<Field>)
    requires CheckFields(ts, depth, lower, seen).Some?
    ensures forall i :: 0 <= i < |fields| ==> Acceptable(fields[i].value, depth, lower)
    ensures forall i, j :: 0 <= i < j < |fields| ==> lower(fields[i].key) != lower(fields[j].key)
    ensures forall i :: 0 <= i < |fields| ==> lower(fields[i].key) !in seen
    ensures ts == FieldsListing(fields) + CheckFields(ts, depth, lower, seen).value
    decreases |ts|, 2
  {
    fields := [];
    if !ts[0].ObjectClose? {
      var key := ts[0].s;
      var value := CheckFindsTree(ts[1..], depth, lower);
      var others := FieldsFound(Check(ts[1..], depth, lower).value, depth, lower, seen + {lower(key)});
      fields := [Field(key, value)] + others;
      assert fields[1..] == others;
      FieldInFront(ts, Listing(value), Check(ts[1..], depth, lower).value, FieldsListing(others),
        CheckFields(ts, depth, lower, seen).value);
    }
  }

  lemma FieldInFront(ts: seq<Token>, value: seq<Token>, rest: seq<Token>, others: seq<Token>, after: seq<Token>)
    requires ts != [] && ts[1..] == value + rest && rest == others + after
    ensures ts == [ts[0]] + value + others + after
  {
    assert ts == [ts[0]] + ts[1..];
  }

  // ---------------------------------------------------------------- main results

  /** A successful check at any depth consumes exactly the tokens of one acceptable tree, and a check
      fails only when no such tree is listed at the front. */
  lemma CheckConsumesOneTree(ts: seq<Token>, depth: nat, lower: string -> string, after: seq<Token>)
    ensures Check(ts, depth, lower) == Some(after) <==>
      exists t :: Acceptable(t, depth, lower) && ts == Listing(t) + after
  {
    if Check(ts, depth, lower) == Some(after) {
      var t := CheckFindsTree(ts, depth, lower);
      assert Acceptable(t, depth, lower) && ts == Listing(t) + after;
    }
    forall t | Acceptable(t, depth, lower) && ts == Listing(t) + after ensures Check(ts, depth, lower) == Some(after) {
      CheckAccepts(t, after, depth, lower);
    }
  }

  /** The pre-check accepts a token stream exactly when it lists one acceptable document. */
  lemma DocumentAcceptedExactly(ts: seq<Token>, lower: string -> string)
    ensures Check(ts, 0, lower) == Some([]) <==> exists t :: Acceptable(t, 0, lower) && ts == Listing(t)
  {
    CheckConsumesOneTree(ts, 0, lower, []);
    assert forall t :: Listing(t) + [] == Listing(t);
  }

  /** A value inside n arrays. */
  function Nested(n: nat, leaf: Token): Tree {
    if n == 0 then Leaf(leaf) else Array([Nested(n - 1, leaf)])
  }

  /** Sixteen arrays around a value pass and a seventeenth does not, whatever else the tokens could mean. */
  lemma {:induction false} CheckNested(n: nat, leaf: Token, depth: nat, lower: string -> string, after: seq<Token>)
    requires leaf.Text? || leaf.Scalar?
    ensures Check(Listing(Nested(n, leaf)) + after, depth, lower) == if depth + n <= 16 then Some(after) else None
  {
    var ts := Listing(Nested(n, leaf)) + after;
    if n == 0 {
      assert ts[1..] == after;
    } else {
      var inner, rest := Listing(Nested(n - 1, leaf)), [ArrayClose] + after;
      NestedListing(n, leaf);
      assert ts[0] == ArrayOpen && ts[1..] == inner + rest;
      CheckNested(n - 1, leaf, depth + 1, lower, rest);
      assert rest[0] == ArrayClose && rest[1..] == after;
      assert CheckItems(rest, depth + 1, lower) == Some(after);
      NotClosing(n - 1, leaf);
      assert ts[1..][0] == inner[0];
      assert CheckItems(ts[1..], depth + 1, lower) == if depth + n <= 16 then Some(after) else None;
    }
  }

  lemma NestedListing(n: nat, leaf: Token)
    requires n > 0
    ensures Listing(Nested(n, leaf)) == [ArrayOpen] + Listing(Nested(n - 1, leaf)) + [ArrayClose]
  {
    var items := [Nested(n - 1, leaf)];
    assert items[1..] == [];
    assert ItemsListing(items) == Listing(items[0]) + [ArrayClose];
  }

  lemma NotClosing(n: nat, leaf: Token)
    requires leaf.Text? || leaf.Scalar?
    ensures Listing(Nested(n, leaf)) != [] && !IsClose(Listing(Nested(n, leaf))[0])
  {}
}
