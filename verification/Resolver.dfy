/**
 `$VAR` substitution in application definitions, on characters: the two
 reference patterns, the lookup order, and the recursion over JSON trees. All
 values are strings, as the secrets store, the environment and captures are.
 `None` stands for a ConfigError.
 */
module Resolver {
  import opened Wrappers

  // ---- the reference patterns ----------------------------------------------

  predicate IdStart(c: char) { 'A' <= c <= 'Z' || 'a' <= c <= 'z' || c == '_' }

  predicate IdChar(c: char) { IdStart(c) || '0' <= c <= '9' }

  predicate TagChar(c: char) { IdChar(c) || c == '-' }

  /** Length of the longest run of identifier characters s starts with. */
  function IdLen(s: string): nat {
    if s != "" && IdChar(s[0]) then 1 + IdLen(s[1..]) else 0
  }

  function TagLen(s: string): nat {
    if s != "" && TagChar(s[0]) then 1 + TagLen(s[1..]) else 0
  }

  lemma {:induction false} IdLenBound(s: string)
    ensures IdLen(s) <= |s|
    ensures forall i :: 0 <= i < IdLen(s) ==> IdChar(s[i])
    ensures IdLen(s) < |s| ==> !IdChar(s[IdLen(s)])
  {
    if s == "" || !IdChar(s[0]) {
    } else {
      IdLenBound(s[1..]);
      assert forall i :: 1 <= i < IdLen(s) ==> s[i] == s[1..][i - 1];
    }
  }

  lemma {:induction false} TagLenBound(s: string)
    ensures TagLen(s) <= |s|
    ensures forall i :: 0 <= i < TagLen(s) ==> TagChar(s[i])
  {
    if s == "" || !TagChar(s[0]) {
    } else {
      TagLenBound(s[1..]);
      assert forall i :: 1 <= i < TagLen(s) ==> s[i] == s[1..][i - 1];
    }
  }

  /** What follows the `$`: an identifier, then `#` and a tag if both are there.
      The length of the longest match at the start of s, 0 if there is none. */
  function RefLen(s: string): nat {
    if s == "" || !IdStart(s[0]) then 0
    else
      var n := IdLen(s);
      IdLenBound(s);
      if n < |s| && s[n] == '#' && TagLen(s[n + 1..]) > 0 then n + 1 + TagLen(s[n + 1..]) else n
  }

  lemma RefLenBound(s: string)
    ensures RefLen(s) <= |s|
    ensures forall i :: 0 <= i < RefLen(s) ==> s[i] != '$' && s[i] != '\n'
    ensures s != "" && IdStart(s[0]) <==> RefLen(s) > 0
  {
    IdLenBound(s);
    if s != "" && IdStart(s[0]) {
      var n := IdLen(s);
      if n < |s| && s[n] == '#' {
        TagLenBound(s[n + 1..]);
        assert forall i :: n < i < n + 1 + TagLen(s[n + 1..]) ==> s[i] == s[n + 1..][i - n - 1];
      }
    }
  }

  /** Is there a reference at the start of s? */
  predicate AtRef(s: string) { s != "" && s[0] == '$' && RefLen(s[1..]) > 0 }

  function RefName(s: string): string
    requires AtRef(s)
  {
    RefLenBound(s[1..]);
    s[1..1 + RefLen(s[1..])]
  }

  function AfterRef(s: string): (r: string)
    requires AtRef(s)
    ensures |r| < |s| && s == "$" + RefName(s) + r
  {
    RefLenBound(s[1..]);
    s[1 + RefLen(s[1..])..]
  }

  /** The whole-string pattern. Its final `$` also matches before a newline that
      ends the string, so the newline becomes part of the name looked up. */
  predicate Whole(s: string) {
    AtRef(s) && (AfterRef(s) == "" || AfterRef(s) == "\n")
  }

  // ---- lookup ----------------------------------------------------------------

  datatype Env = Env(extra: map<string, string>, environ: map<string, string>)

  /** `extra.get(name) or environ.get(name)`: an empty extra value is skipped. */
  function Get(env: Env, name: string): Option<string> {
    if name in env.extra && env.extra[name] != "" then Some(env.extra[name])
    else if name in env.environ then Some(env.environ[name])
    else None
  }

  /** The part before the first `#`. */
  function Base(name: string): string {
    if name == "" || name[0] == '#' then "" else [name[0]] + Base(name[1..])
  }

  function Lookup(env: Env, name: string): Option<string> {
    if '#' in name then
      if Get(env, name).Some? then Get(env, name) else Get(env, Base(name))
    else Get(env, name)
  }

  // ---- substitution ------------------------------------------------------------

  /** One name that could not be found, resolved strictly or left in place. */
  function OrLiteral(v: Option<string>, strict: bool, literal: string): Option<string> {
    if v.Some? then v else if strict then None else Some(literal)
  }

  function Prepend(s: string, t: Option<string>): Option<string> {
    if t.Some? then Some(s + t.value) else None
  }

  /** `_INLINE_REF.sub`. */
  function Inline(env: Env, strict: bool, s: string): Option<string>
    decreases |s|
  {
    if s == "" then Some("")
    else if AtRef(s) then
      var v := OrLiteral(Lookup(env, RefName(s)), strict, "$" + RefName(s));
      var rest := Inline(env, strict, AfterRef(s));
      if v.Some? then Prepend(v.value, rest) else None
    else Prepend(s[..1], Inline(env, strict, s[1..]))
  }

  function ResolveText(env: Env, strict: bool, s: string): Option<string> {
    if '$' !in s then Some(s)
    else if Whole(s) then OrLiteral(Lookup(env, s[1..]), strict, s)
    else Inline(env, strict, s)
  }

  datatype Json =
    | Atom(n: int)                           // null, booleans and numbers: never touched
    | Str(s: string)
    | List(items: seq<Json>)
    | Dict(fields: seq<Field>)

  datatype Field = Field(key: string, value: Json)   // keys are never touched

  function Resolve(env: Env, strict: bool, j: Json): Option<Json> {
    match j
    case Atom(_) => Some(j)
    case Str(s) =>
      var r := ResolveText(env, strict, s);
      if r.Some? then Some(Str(r.value)) else None
    case List(items) =>
      var r := ResolveAll(env, strict, items);
      if r.Some? then Some(List(r.value)) else None
    case Dict(fields) =>
      var r := ResolveFields(env, strict, fields);
      if r.Some? then Some(Dict(r.value)) else None
  }

  function ResolveAll(env: Env, strict: bool, items: seq<Json>): Option<seq<Json>> {
    if items == [] then Some([])
    else
      var first := Resolve(env, strict, items[0]);
      var rest := ResolveAll(env, strict, items[1..]);
      if first.Some? && rest.Some? then Some([first.value] + rest.value) else None
  }

  function ResolveFields(env: Env, strict: bool, fields: seq<Field>): Option<seq<Field>> {
    if fields == [] then Some([])
    else
      var first := Resolve(env, strict, fields[0].value);
      var rest := ResolveFields(env, strict, fields[1..]);
      if first.Some? && rest.Some? then Some([Field(fields[0].key, first.value)] + rest.value) else None
  }
}
