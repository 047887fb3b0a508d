/**
 What resolution makes of a whole JSON tree, said place by place: the tree keeps
 its shape, its keys and its atoms, and every string in it becomes what that
 string resolves to.
 */
module Trees {
  import opened Wrappers
  import opened Resolver

  /** One level down: the i-th item of a list, or the i-th entry of a dict. */
  datatype Hop = Item(i: nat) | Entry(i: nat, key: string)

  type Path = seq<Hop>

  /** What the tree holds at the end of the path, if it goes that far. */
  function At(j: Json, path: Path): Option<Json>
    decreases path
  {
    if path == [] then Some(j)
    else
      match path[0]
      case Item(i) =>
        if j.List? && i < |j.items| then At(j.items[i], path[1..]) else None
      case Entry(i, key) =>
        if j.Dict? && i < |j.fields| && j.fields[i].key == key then At(j.fields[i].value, path[1..]) else None
  }

  /** The place in `r` that answers to the place `j` of the source. */
  predicate Answers(env: Env, strict: bool, j: Json, r: Json) {
    match j
    case Atom(n) => r == Atom(n)
    case Str(s) => ResolveText(env, strict, s).Some? && r == Str(ResolveText(env, strict, s).value)
    case List(items) => r.List? && |r.items| == |items|
    case Dict(fields) =>
      r.Dict? && |r.fields| == |fields| && forall i :: 0 <= i < |fields| ==> r.fields[i].key == fields[i].key
  }

  /** `r` has exactly the places of `j`, and each answers to its own. */
  ghost predicate AnswersEverywhere(env: Env, strict: bool, j: Json, r: Json) {
    forall path: Path ::
      if At(j, path).None? then At(r, path).None?
      else At(r, path).Some? && Answers(env, strict, At(j, path).value, At(r, path).value)
  }

  /** Some string of the tree does not resolve. */
  ghost predicate HoldsUnresolvable(env: Env, strict: bool, j: Json) {
    exists path: Path :: Unresolvable(env, strict, At(j, path))
  }

  predicate Unresolvable(env: Env, strict: bool, place: Option<Json>) {
    place.Some? && place.value.Str? && ResolveText(env, strict, place.value.s).None?
  }

  // ---- lists and dicts are resolved member by member -----------------------------

  lemma {:induction false} AllResolved(env: Env, strict: bool, items: seq<Json>)
    ensures
      var r := ResolveAll(env, strict, items);
      if r.Some? then
        |r.value| == |items| && forall i :: 0 <= i < |items| ==> Resolve(env, strict, items[i]) == Some(r.value[i])
      else exists i :: 0 <= i < |items| && Resolve(env, strict, items[i]).None?
    decreases items
  {
    if items == [] {
    } else {
      AllResolved(env, strict, items[1..]);
      if ResolveAll(env, strict, items[1..]).None? {
        var i :| 0 <= i < |items[1..]| && Resolve(env, strict, items[1..][i]).None?;
        assert items[i + 1] == items[1..][i];
      }
    }
  }

  lemma {:induction false} FieldsResolved(env: Env, strict: bool, fields: seq<Field>)
    ensures
      var r := ResolveFields(env, strict, fields);
      if r.Some? then
        |r.value| == |fields| && forall i :: 0 <= i < |fields| ==>
          r.value[i].key == fields[i].key && Resolve(env, strict, fields[i].value) == Some(r.value[i].value)
      else exists i :: 0 <= i < |fields| && Resolve(env, strict, fields[i].value).None?
    decreases fields
  {
    if fields == [] {
    } else {
      FieldsResolved(env, strict, fields[1..]);
      if ResolveFields(env, strict, fields[1..]).None? {
        var i :| 0 <= i < |fields[1..]| && Resolve(env, strict, fields[1..][i].value).None?;
        assert fields[i + 1] == fields[1..][i];
      }
    }
  }

  // ---- the law ----------------------------------------------------------------------

  lemma {:induction false} ResolvedAt(env: Env, strict: bool, j: Json, path: Path)
    requires Resolve(env, strict, j).Some?
    ensures
      var r := Resolve(env, strict, j).value;
      if At(j, path).None? then At(r, path).None?
      else At(r, path).Some? && Answers(env, strict, At(j, path).value, At(r, path).value)
    decreases path
  {
    var r := Resolve(env, strict, j).value;
    if j.List? { AllResolved(env, strict, j.items); }
    if j.Dict? { FieldsResolved(env, strict, j.fields); }
    if path != [] {
      match path[0]
      case Item(i) =>
        if j.List? && i < |j.items| { ResolvedAt(env, strict, j.items[i], path[1..]); }
      case Entry(i, key) =>
        if j.Dict? && i < |j.fields| && j.fields[i].key == key {
          ResolvedAt(env, strict, j.fields[i].value, path[1..]);
        }
    }
  }

  lemma {:induction false} UnresolvableAt(env: Env, strict: bool, j: Json, path: Path)
    requires Unresolvable(env, strict, At(j, path))
    ensures Resolve(env, strict, j).None?
    decreases path
  {
    if Resolve(env, strict, j).Some? {
      ResolvedAt(env, strict, j, path);
    }
  }

  lemma {:induction false} Culprit(env: Env, strict: bool, j: Json) returns (path: Path)
    requires Resolve(env, strict, j).None?
    ensures Unresolvable(env, strict, At(j, path))
    decreases j
  {
    match j
    case Atom(_) =>
    case Str(_) => path := [];
    case List(items) =>
      AllResolved(env, strict, items);
      var i :| 0 <= i < |items| && Resolve(env, strict, items[i]).None?;
      var rest := Culprit(env, strict, items[i]);
      path := [Item(i)] + rest;
      assert path[1..] == rest;
    case Dict(fields) =>
      FieldsResolved(env, strict, fields);
      var i :| 0 <= i < |fields| && Resolve(env, strict, fields[i].value).None?;
      var rest := Culprit(env, strict, fields[i].value);
      path := [Entry(i, fields[i].key)] + rest;
      assert path[1..] == rest;
  }

  /** Resolution fails exactly when some string in the tree does; otherwise the
      result is the tree with every string resolved in its place. */
  lemma ResolvedEverywhere(env: Env, strict: bool, j: Json)
    ensures Resolve(env, strict, j).None? <==> HoldsUnresolvable(env, strict, j)
    ensures Resolve(env, strict, j).Some? ==> AnswersEverywhere(env, strict, j, Resolve(env, strict, j).value)
  {
    if Resolve(env, strict, j).None? {
      var path := Culprit(env, strict, j);
    } else {
      forall path: Path
        ensures
          var r := Resolve(env, strict, j).value;
          if At(j, path).None? then At(r, path).None?
          else At(r, path).Some? && Answers(env, strict, At(j, path).value, At(r, path).value)
      {
        ResolvedAt(env, strict, j, path);
      }
      if HoldsUnresolvable(env, strict, j) {
        var path: Path :| Unresolvable(env, strict, At(j, path));
        UnresolvableAt(env, strict, j, path);
      }
    }
  }

  /** The places decide the tree: no other tree answers everywhere. */
  lemma {:induction false} PlacesDecide(env: Env, strict: bool, j: Json, a: Json, b: Json)
    requires AnswersEverywhere(env, strict, j, a) && AnswersEverywhere(env, strict, j, b)
    ensures a == b
    decreases j
  {
    assert At(j, []) == Some(j) && At(a, []) == Some(a) && At(b, []) == Some(b);
    assert Answers(env, strict, j, a) && Answers(env, strict, j, b);
    match j
    case Atom(_) =>
    case Str(_) =>
    case List(items) =>
      forall i | 0 <= i < |items| ensures a.items[i] == b.items[i] {
        StepsDown(env, strict, j, a, Item(i));
        StepsDown(env, strict, j, b, Item(i));
        PlacesDecide(env, strict, items[i], a.items[i], b.items[i]);
      }
    case Dict(fields) =>
      forall i | 0 <= i < |fields| ensures a.fields[i] == b.fields[i] {
        StepsDown(env, strict, j, a, Entry(i, fields[i].key));
        StepsDown(env, strict, j, b, Entry(i, fields[i].key));
        PlacesDecide(env, strict, fields[i].value, a.fields[i].value, b.fields[i].value);
      }
  }

  /** What answers everywhere does so below any of its members. */
  lemma StepsDown(env: Env, strict: bool, j: Json, r: Json, hop: Hop)
    requires AnswersEverywhere(env, strict, j, r) && At(j, [hop]).Some?
    ensures At(r, [hop]).Some? && AnswersEverywhere(env, strict, At(j, [hop]).value, At(r, [hop]).value)
  {
    assert At(r, [hop]).Some?;
    assert [hop][1..] == [];
    forall path: Path
      ensures At(At(j, [hop]).value, path) == At(j, [hop] + path)
      ensures At(At(r, [hop]).value, path) == At(r, [hop] + path)
    {
      assert ([hop] + path)[1..] == path;
    }
  }
}
