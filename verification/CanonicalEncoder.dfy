/**
 The canonical encoder as it runs (src/storage/canonical.ts:68-96): recursive, with a loop
 that pushes array elements and one over the sorted keys of an object.
 */
module CanonicalEncoder {
  import opened Wrappers
  import opened Order
  import opened Sequences
  import opened CanonicalJson
  import Decimal

  /** Texts already pushed, followed by what is still to come; None once something throws. */
  function Prepend(parts: seq<Text>, rest: Option<seq<Text>>): Option<seq<Text>> {
    match rest
    case None => None
    case Some(ts) => Some(parts + ts)
  }

  lemma ElementsFrom(items: seq<Value>, parts: seq<Text>)
    requires items != []
    ensures Stringify(items[0]).None? ==> Elements(items) == None
    ensures Stringify(items[0]).Some? ==>
              Prepend(parts, Elements(items)) == Prepend(parts + [Stringify(items[0]).value], Elements(items[1..]))
  {
    if Stringify(items[0]).Some? && Elements(items[1..]).Some? {
      var t, ts := Stringify(items[0]).value, Elements(items[1..]).value;
      assert parts + ([t] + ts) == parts + [t] + ts;
    }
  }

  lemma MembersFrom(fields: seq<Field>, parts: seq<Text>)
    requires fields != []
    ensures Stringify(fields[0].value).None? ==> Members(fields) == None
    ensures Stringify(fields[0].value).Some? ==>
              Prepend(parts, Members(fields))
              == Prepend(parts + [Quote(fields[0].key) + [COLON] + Stringify(fields[0].value).value], Members(fields[1..]))
  {
    if Stringify(fields[0].value).Some? && Members(fields[1..]).Some? {
      var t, ts := Quote(fields[0].key) + [COLON] + Stringify(fields[0].value).value, Members(fields[1..]).value;
      assert parts + ([t] + ts) == parts + [t] + ts;
    }
  }

  lemma FilterFrom(keys: seq<Field>, i: nat)
    requires i < |keys|
    ensures Filter(keys[i..], IsDefined)
            == (if IsDefined(keys[i]) then [keys[i]] else []) + Filter(keys[i + 1..], IsDefined)
  {
    assert keys[i..][1..] == keys[i + 1..];
  }

  lemma PrependNothing(rest: Option<seq<Text>>)
    ensures Prepend([], rest) == rest
  {
    if rest.Some? { assert [] + rest.value == rest.value; }
  }

  /** What the member loop does at one key. */
  lemma MemberStep(keys: seq<Field>, i: nat, parts: seq<Text>)
    requires i < |keys|
    ensures var here, next := Members(Filter(keys[i..], IsDefined)), Members(Filter(keys[i + 1..], IsDefined));
      if !IsDefined(keys[i]) then here == next
      else if Stringify(keys[i].value).None? then here == None
      else Prepend(parts, here) == Prepend(parts + [Quote(keys[i].key) + [COLON] + Stringify(keys[i].value).value], next)
  {
    var rest := Filter(keys[i + 1..], IsDefined);
    FilterFrom(keys, i);
    if IsDefined(keys[i]) {
      MembersFrom([keys[i]] + rest, parts);
      assert ([keys[i]] + rest)[1..] == rest;
    } else {
      assert [] + rest == rest;
    }
  }

  method StringifyValue(v: Value) returns (r: Option<Text>)
    ensures r == Stringify(v)
    decreases Depth(v), 0
  {
    match v
    case Null => r := Some(NULL_TEXT);
    case Bool(b) => r := Some(if b then TRUE_TEXT else FALSE_TEXT);
    case Num(n) => r := Some(Decimal.Text(n));
    case Str(s) => r := Some(Quote(s));
    case Arr(items) =>
      var parts := PushElements(items);
      r := if parts.None? then None else Some([OPEN_BRACKET] + Join(parts.value, COMMA) + [CLOSE_BRACKET]);
    case Obj(fields) =>
      var parts := PushMembers(fields);
      r := if parts.None? then None else Some([OPEN_BRACE] + Join(parts.value, COMMA) + [CLOSE_BRACE]);
    case NonFinite => r := None;
    case Undefined => r := None;
    case Unsupported => r := None;
  }

  method PushElements(items: seq<Value>) returns (r: Option<seq<Text>>)
    ensures r == Elements(items)
    decreases ItemsDepth(items), 1
  {
    var parts: seq<Text> := [];
    assert items[0..] == items;
    PrependNothing(Elements(items));
    for i := 0 to |items|
      invariant Elements(items) == Prepend(parts, Elements(items[i..]))
    {
      ElementsFrom(items[i..], parts);
      assert items[i..][1..] == items[i + 1..];
      var t := StringifyValue(items[i]);
      if t.None? { return None; }
      parts := parts + [t.value];
    }
    assert Elements([]) == Some([]) && parts + [] == parts;
    r := Some(parts);
  }

  method PushMembers(fields: seq<Field>) returns (r: Option<seq<Text>>)
    ensures r == Members(Live(fields))
    decreases FieldsDepth(fields), 1
  {
    var keys := SortBy(fields, KeyLeq);
    SortByMembers(fields, KeyLeq);
    var parts: seq<Text> := [];
    assert keys[0..] == keys;
    PrependNothing(Members(Live(fields)));
    for i := 0 to |keys|
      invariant Members(Live(fields)) == Prepend(parts, Members(Filter(keys[i..], IsDefined)))
    {
      MemberStep(keys, i, parts);
      var f := keys[i];
      assert f in keys && f in fields;
      if f.value == Undefined { continue; }
      var t := StringifyValue(f.value);
      if t.None? { return None; }
      parts := parts + [Quote(f.key) + [COLON] + t.value];
    }
    assert Members([]) == Some([]) && parts + [] == parts;
    r := Some(parts);
  }
}
