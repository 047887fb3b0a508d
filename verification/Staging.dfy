/**
 Capture chaining. An application is resolved once with every capture name
 seeded to its own `$NAME`, and each test is resolved again, with the captures
 made so far, just before it runs. This module says exactly when the two passes
 give what one pass with the captures in place would give.
 */
module Staging {
  import opened Wrappers
  import opened Resolver

  /** What the application pass works with: secrets, the allowlisted process
      environment, and the names some test will capture. */
  datatype App = App(secrets: map<string, string>, environ: map<string, string>, names: set<string>)

  /** The names a `$NAME` reference can spell. */
  predicate Identifier(k: string) { |k| > 0 && RefLen(k) == |k| && '#' !in k }

  /** Capture names are names a reference can spell. */
  ghost predicate Spellable(app: App) { forall k :: k in app.names ==> Identifier(k) }

  /** First pass: `{**extra_vars, **capture_seeds}`, then the environment. */
  function AppEnv(app: App): Env {
    Env(app.secrets + (map k | k in app.names :: "$" + k), app.environ)
  }

  /** Second pass: the captures made so far and nothing else. */
  function TestEnv(captures: map<string, string>): Env { Env(captures, map[]) }

  /** One pass in which a capture name can only be a capture. */
  function OnceEnv(app: App, captures: map<string, string>): Env {
    Env((app.secrets - app.names) + captures, app.environ - app.names)
  }

  /** The capture that a reference stands for in the first pass, if any. */
  function Bound(app: App, name: string): Option<string> {
    if name in app.names then Some(name)
    else if '#' in name && Get(AppEnv(app), name).None? && Base(name) in app.names then Some(Base(name))
    else None
  }

  lemma GetByName(app: App, captures: map<string, string>, name: string)
    requires captures.Keys <= app.names
    ensures name in app.names ==> Get(AppEnv(app), name) == Some("$" + name)
    ensures name in app.names ==> Get(OnceEnv(app, captures), name) == Get(TestEnv(captures), name)
    ensures name !in app.names ==> Get(AppEnv(app), name) == Get(OnceEnv(app, captures), name)
    ensures name !in app.names ==> Get(TestEnv(captures), name).None?
  {
  }

  lemma BoundLookup(app: App, captures: map<string, string>, name: string)
    requires Spellable(app) && captures.Keys <= app.names
    ensures Bound(app, name).Some? ==>
              && Identifier(Bound(app, name).value)
              && Lookup(AppEnv(app), name) == Some("$" + Bound(app, name).value)
              && Lookup(OnceEnv(app, captures), name) == Lookup(TestEnv(captures), Bound(app, name).value)
    ensures Bound(app, name).None? ==> Lookup(AppEnv(app), name) == Lookup(OnceEnv(app, captures), name)
  {
    GetByName(app, captures, name);
    GetByName(app, captures, Base(name));
  }

  // ---- strings that scan as expected ----------------------------------------

  lemma {:induction false} IdLenConcat(k: string, t: string)
    requires IdLen(k) == |k|
    ensures IdLen(k + t) == |k| + IdLen(t)
  {
    if k == "" {
      assert k + t == t;
    } else {
      IdLenBound(k[1..]);
      assert (k + t)[1..] == k[1..] + t;
      IdLenConcat(k[1..], t);
    }
  }

  /** Text after an identifier can only lengthen the name read there. */
  lemma IdentifierExtends(k: string, t: string)
    requires Identifier(k)
    ensures IdLen(k) == |k| && |k| <= RefLen(k + t) <= |k| + |t|
  {
    IdLenBound(k);
    IdLenConcat(k, t);
    assert (k + t)[0] == k[0];
    RefLenBound(k + t);
  }

  lemma IdentifierScan(k: string, t: string)
    requires Identifier(k)
    ensures IdLen(k) == |k| && AtRef("$" + k + t) && RefLen(k + t) >= |k|
    ensures ("$" + k + t)[1..] == k + t
    ensures RefLen(k + t) == |k| ==> RefName("$" + k + t) == k && AfterRef("$" + k + t) == t
  {
    IdentifierExtends(k, t);
    var o := "$" + k + t;
    assert o[1..] == k + t && o[1..1 + |k|] == k && o[1 + |k|..] == t;
  }

  /** No reference starts inside v when t follows it. */
  predicate Inert(v: string, t: string)
    decreases v
  {
    v == "" || (!AtRef(v + t) && Inert(v[1..], t))
  }

  lemma {:induction false} PlainIsInert(v: string, t: string)
    requires '$' !in v
    ensures Inert(v, t)
    decreases v
  {
    if v == "" {
    } else {
      assert (v + t)[0] == v[0];
      PlainIsInert(v[1..], t);
    }
  }

  /** Text in which no reference starts passes through. */
  lemma {:induction false} InlineInert(env: Env, v: string, t: string)
    requires Inert(v, t)
    ensures Inline(env, true, v + t) == Prepend(v, Inline(env, true, t))
    decreases |v|
  {
    if v == "" {
      assert v + t == t;
      if Inline(env, true, t).Some? { assert "" + Inline(env, true, t).value == Inline(env, true, t).value; }
    } else {
      assert (v + t)[1..] == v[1..] + t && (v + t)[..1] == v[..1];
      InlineInert(env, v[1..], t);
      if Inline(env, true, t).Some? {
        assert v[..1] + (v[1..] + Inline(env, true, t).value) == v + Inline(env, true, t).value;
      }
    }
  }

  // ---- the condition -----------------------------------------------------------

  /** The first pass does not change what the second pass reads: no `$CAPTURE` it
      leaves is followed by text that extends its name, no reference starts inside
      a value it inserts, and no `$` that starts no reference is followed by text
      that makes it one. */
  predicate SafeInline(app: App, s: string)
    decreases |s|
  {
    if s == "" then true
    else if AtRef(s) then
      var rest := Inline(AppEnv(app), true, AfterRef(s));
      var k := Bound(app, RefName(s));
      var v := Lookup(AppEnv(app), RefName(s));
      && SafeInline(app, AfterRef(s))
      && (k.Some? && rest.Some? ==> RefLen(k.value + rest.value) == |k.value|)
      && (k.None? && v.Some? && rest.Some? ==> Inert(v.value, rest.value))
    else
      var rest := Inline(AppEnv(app), true, s[1..]);
      && SafeInline(app, s[1..])
      && (s[0] == '$' && rest.Some? ==> RefLen(rest.value) == 0)
  }

  /** The same for a lone reference. Also, the first pass must not turn a longer
      string into a lone reference with a newline after it, which the whole-string
      pattern would swallow. */
  predicate Safe(app: App, s: string) {
    if '$' !in s then true
    else if Whole(s) then
      var v := Lookup(AppEnv(app), s[1..]);
      Bound(app, s[1..]).None? && v.Some? ==> Inert(v.value, "")
    else
      && SafeInline(app, s)
      && var o := Inline(AppEnv(app), true, s);
         o.Some? ==> !(Whole(o.value) && AfterRef(o.value) == "\n")
  }

  function Staged(app: App, captures: map<string, string>, s: string): Option<string> {
    var o := ResolveText(AppEnv(app), true, s);
    if o.Some? then ResolveText(TestEnv(captures), true, o.value) else None
  }

  // ---- safe text: two passes are one ---------------------------------------------

  lemma {:induction false} StagedInline(app: App, captures: map<string, string>, s: string)
    requires Spellable(app) && captures.Keys <= app.names && SafeInline(app, s)
    ensures
      var o := Inline(AppEnv(app), true, s);
      Inline(OnceEnv(app, captures), true, s)
      == if o.Some? then Inline(TestEnv(captures), true, o.value) else None
    decreases |s|
  {
    if s == "" {
    } else if AtRef(s) {
      var name, after := RefName(s), AfterRef(s);
      var rest := Inline(AppEnv(app), true, after);
      StagedInline(app, captures, after);
      BoundLookup(app, captures, name);
      if rest.Some? && Bound(app, name).Some? {
        IdentifierScan(Bound(app, name).value, rest.value);
      } else if rest.Some? && Lookup(AppEnv(app), name).Some? {
        InlineInert(TestEnv(captures), Lookup(AppEnv(app), name).value, rest.value);
      }
    } else {
      StagedInline(app, captures, s[1..]);
      var rest := Inline(AppEnv(app), true, s[1..]);
      if rest.Some? {
        var o := s[..1] + rest.value;
        assert o[1..] == rest.value && o[..1] == s[..1];
      }
    }
  }

  /** Safe text: resolving twice is resolving once with the captures in place. */
  lemma StagedText(app: App, captures: map<string, string>, s: string)
    requires Spellable(app) && captures.Keys <= app.names && Safe(app, s)
    ensures Staged(app, captures, s) == ResolveText(OnceEnv(app, captures), true, s)
  {
    if '$' in s {
      if Whole(s) {
        var name := s[1..];
        BoundLookup(app, captures, name);
        if Bound(app, name).Some? {
          var k := Bound(app, name).value;
          IdentifierScan(k, "");
          assert k + "" == k && "$" + k + "" == "$" + k;
          assert Whole("$" + k) && '$' == ("$" + k)[0];
        } else if Lookup(AppEnv(app), name).Some? {
          InertIsLiteral(TestEnv(captures), Lookup(AppEnv(app), name).value);
        }
      } else {
        StagedInline(app, captures, s);
        var o := Inline(AppEnv(app), true, s);
        if o.Some? { LoneReference(TestEnv(captures), o.value); }
      }
    }
  }

  /** A value in which no reference starts resolves to itself. */
  lemma InertIsLiteral(env: Env, v: string)
    requires Inert(v, "")
    ensures ResolveText(env, true, v) == Some(v)
  {
    InlineInert(env, v, "");
    assert v + "" == v;
  }

  /** The whole-string pattern agrees with inline substitution, newline apart. */
  lemma LoneReference(env: Env, o: string)
    ensures '$' !in o ==> Inline(env, true, o) == Some(o)
    ensures Whole(o) && AfterRef(o) == "" ==> ResolveText(env, true, o) == Inline(env, true, o)
  {
    if '$' !in o {
      PlainIsInert(o, "");
      InlineInert(env, o, "");
      assert o + "" == o;
    } else if Whole(o) && AfterRef(o) == "" {
      assert RefName(o) == o[1..];
      var v := Lookup(env, o[1..]);
      if v.Some? { assert v.value + "" == v.value; }
    }
  }

  // ---- unsafe text: some captures tell the two apart --------------------------------

  /** How many references, and how many other characters, a scan of o meets. */
  function Refs(o: string): nat
    decreases |o|
  {
    if o == "" then 0 else if AtRef(o) then 1 + Refs(AfterRef(o)) else Refs(o[1..])
  }

  function Lits(o: string): nat
    decreases |o|
  {
    if o == "" then 0 else if AtRef(o) then Lits(AfterRef(o)) else 1 + Lits(o[1..])
  }

  /** The same for what the first pass is meant to leave: captures, and the rest. */
  function CaptureRefs(app: App, s: string): nat
    decreases |s|
  {
    if s == "" then 0
    else if AtRef(s) then (if Bound(app, RefName(s)).Some? then 1 else 0) + CaptureRefs(app, AfterRef(s))
    else CaptureRefs(app, s[1..])
  }

  function OtherChars(app: App, s: string): nat
    decreases |s|
  {
    if s == "" then 0
    else if AtRef(s) then
      var v := Lookup(AppEnv(app), RefName(s));
      (if Bound(app, RefName(s)).Some? || v.None? then 0 else |v.value|) + OtherChars(app, AfterRef(s))
    else 1 + OtherChars(app, s[1..])
  }

  lemma {:induction false} ScanSkips(o: string, m: nat)
    requires m <= |o| && forall i :: 0 <= i < m ==> o[i] != '$'
    ensures Refs(o) == Refs(o[m..]) && Lits(o) == m + Lits(o[m..])
    decreases m
  {
    if m == 0 {
      assert o[0..] == o;
    } else {
      ScanSkips(o[1..], m - 1);
      assert o[1..][m - 1..] == o[m..];
    }
  }

  /** Reading a reference that swallows m more characters of t. */
  lemma ScanSwallows(name: string, t: string)
    requires AtRef("$" + name + t) && RefLen(name + t) >= |name|
    ensures Refs("$" + name + t) == 1 + Refs(t)
    ensures Lits("$" + name + t) + (RefLen(name + t) - |name|) == Lits(t)
  {
    var o := "$" + name + t;
    assert o[1..] == name + t;
    RefLenBound(name + t);
    var m := RefLen(name + t) - |name|;
    assert forall i :: 0 <= i < m ==> t[i] == (name + t)[|name| + i];
    assert AfterRef(o) == t[m..];
    ScanSkips(t, m);
  }

  /** Scanning an inserted value: references in it are extra, and take characters
      from it or from the text that follows. */
  lemma {:induction false} InsertedScan(v: string, t: string)
    ensures Refs(v + t) >= Refs(t) && Lits(v + t) <= |v| + Lits(t)
    ensures Inert(v, t) <==> Refs(v + t) == Refs(t)
    ensures Inert(v, t) ==> Lits(v + t) == |v| + Lits(t)
    decreases |v|
  {
    var o := v + t;
    if v == "" {
      assert o == t;
    } else if !AtRef(o) {
      assert o[1..] == v[1..] + t;
      InsertedScan(v[1..], t);
    } else {
      var m := 1 + RefLen(o[1..]);
      RefLenBound(o[1..]);
      assert AfterRef(o) == o[m..];
      if m <= |v| {
        assert o[m..] == v[m..] + t;
        InsertedScan(v[m..], t);
      } else {
        var d := m - |v|;
        assert o[m..] == t[d..];
        forall i | 0 <= i < d ensures t[i] != '$' {
          assert t[i] == o[1..][|v| + i - 1];
        }
        ScanSkips(t, d);
      }
    }
  }

  /** A second scan finds at least the captures, in at most the other text, and
      finds exactly these when the text is safe. */
  lemma {:induction false} ScanCompares(app: App, s: string)
    requires Spellable(app) && Inline(AppEnv(app), true, s).Some?
    ensures
      var o := Inline(AppEnv(app), true, s).value;
      && Refs(o) >= CaptureRefs(app, s) && Lits(o) <= OtherChars(app, s)
      && (SafeInline(app, s) <==> Refs(o) == CaptureRefs(app, s) && Lits(o) == OtherChars(app, s))
    decreases |s|
  {
    if s == "" {
    } else if AtRef(s) {
      var name, after := RefName(s), AfterRef(s);
      ScanCompares(app, after);
      BoundLookup(app, map[], name);
      var t := Inline(AppEnv(app), true, after).value;
      if Bound(app, name).Some? {
        IdentifierScan(Bound(app, name).value, t);
        ScanSwallows(Bound(app, name).value, t);
      } else {
        InsertedScan(Lookup(AppEnv(app), name).value, t);
      }
    } else {
      ScanCompares(app, s[1..]);
      var t := Inline(AppEnv(app), true, s[1..]).value;
      var o := s[..1] + t;
      assert o[1..] == t && o[0] == s[0];
      if AtRef(o) {
        assert o == "$" + "" + t && "" + t == t;
        ScanSwallows("", t);
      }
    }
  }

  /** The length of n copies of a text of length a. */
  function Repeat(a: nat, n: nat): nat { if n == 0 then 0 else a + Repeat(a, n - 1) }

  lemma {:induction false} RepeatMono(a: nat, x: nat, y: nat)
    requires x <= y
    ensures Repeat(a, x) <= Repeat(a, y)
    decreases y
  {
    if x < y { RepeatMono(a, x, y - 1); }
  }

  /** Captures that all have the same value. */
  function Fill(app: App, w: string): map<string, string> { map k | k in app.names :: w }

  lemma {:induction false} SecondPassLength(app: App, w: string, o: string)
    requires w != ""
    ensures
      var r := Inline(TestEnv(Fill(app, w)), true, o);
      r.Some? ==> |r.value| == Lits(o) + Repeat(|w|, Refs(o))
    decreases |o|
  {
    if o == "" {
    } else if AtRef(o) {
      SecondPassLength(app, w, AfterRef(o));
      FilledLookup(app, w, RefName(o));
    } else {
      SecondPassLength(app, w, o[1..]);
    }
  }

  lemma FilledLookup(app: App, w: string, name: string)
    ensures Lookup(TestEnv(Fill(app, w)), name).Some? ==> Lookup(TestEnv(Fill(app, w)), name).value == w
  {
  }

  lemma OnceLookup(app: App, w: string, name: string)
    requires Spellable(app) && w != ""
    ensures Lookup(OnceEnv(app, Fill(app, w)), name)
            == if Bound(app, name).Some? then Some(w) else Lookup(AppEnv(app), name)
  {
    BoundLookup(app, Fill(app, w), name);
    if Bound(app, name).Some? {
      var k := Bound(app, name).value;
      assert k in app.names && Lookup(TestEnv(Fill(app, w)), k) == Some(w);
    }
  }

  lemma OneReferenceLength(app: App, w: string, s: string)
    requires Spellable(app) && w != "" && AtRef(s) && Inline(AppEnv(app), true, s).Some?
    ensures Inline(AppEnv(app), true, AfterRef(s)).Some? && Lookup(AppEnv(app), RefName(s)).Some?
    ensures
      var env := OnceEnv(app, Fill(app, w));
      var rest, all := Inline(env, true, AfterRef(s)), Inline(env, true, s);
      rest.Some? ==>
        all.Some? && |all.value| == |rest.value| + if Bound(app, RefName(s)).Some? then |w|
                                                   else |Lookup(AppEnv(app), RefName(s)).value|
  {
    OnceLookup(app, w, RefName(s));
  }

  lemma OneCharacterLength(env: Env, s: string)
    requires s != "" && !AtRef(s)
    ensures
      var rest, all := Inline(env, true, s[1..]), Inline(env, true, s);
      (all.Some? <==> rest.Some?) && (all.Some? ==> |all.value| == 1 + |rest.value|)
  {
  }

  lemma {:induction false} OnePassLength(app: App, w: string, s: string)
    requires Spellable(app) && w != "" && Inline(AppEnv(app), true, s).Some?
    ensures
      var r := Inline(OnceEnv(app, Fill(app, w)), true, s);
      r.Some? && |r.value| == OtherChars(app, s) + Repeat(|w|, CaptureRefs(app, s))
    decreases |s|
  {
    if s == "" {
    } else if AtRef(s) {
      OneReferenceLength(app, w, s);
      OnePassLength(app, w, AfterRef(s));
    } else {
      OneCharacterLength(AppEnv(app), s);
      OneCharacterLength(OnceEnv(app, Fill(app, w)), s);
      OnePassLength(app, w, s[1..]);
    }
  }

  lemma StagedLength(app: App, w: string, o: string)
    requires w != "" && !(Whole(o) && AfterRef(o) == "\n")
    ensures
      var r := ResolveText(TestEnv(Fill(app, w)), true, o);
      r.Some? ==> |r.value| == Lits(o) + Repeat(|w|, Refs(o))
  {
    SecondPassLength(app, w, o);
    LoneReference(TestEnv(Fill(app, w)), o);
  }

  lemma SwallowedNewline(app: App, w: string, o: string)
    requires w != "" && Whole(o) && AfterRef(o) == "\n"
    ensures
      var r := ResolveText(TestEnv(Fill(app, w)), true, o);
      r.Some? ==> |r.value| == |w|
    ensures Lits(o) == 1 && Refs(o) == 1
  {
    assert Refs("\n") == 0 && Lits("\n") == 1;
    var v := Lookup(TestEnv(Fill(app, w)), o[1..]);
    assert v.Some? ==> v.value == w;
  }

  /** Lengths that only agree when both counts do. */
  lemma LengthsDiffer(w: nat, lits: nat, refs: nat, others: nat, captures: nat)
    requires w > others >= lits && refs >= captures && (refs > captures || lits < others)
    ensures lits + Repeat(w, refs) != others + Repeat(w, captures)
  {
    if refs > captures { RepeatMono(w, 1 + captures, refs); }
  }

  lemma OneMarkerDiffers(w: nat, others: nat, captures: nat)
    requires captures <= 1 <= others < w
    ensures w != others + Repeat(w, captures)
  {
    assert Repeat(w, 1) == w + Repeat(w, 0);
  }

  lemma UnsafeInlineDiffers(app: App, s: string, w: string)
    requires Spellable(app) && Inline(AppEnv(app), true, s).Some? && !SafeInline(app, s)
    requires |w| > OtherChars(app, s)
    ensures
      var o := Inline(AppEnv(app), true, s).value;
      !(Whole(o) && AfterRef(o) == "\n") ==>
        ResolveText(TestEnv(Fill(app, w)), true, o) != Inline(OnceEnv(app, Fill(app, w)), true, s)
  {
    var o := Inline(AppEnv(app), true, s).value;
    if !(Whole(o) && AfterRef(o) == "\n") {
      ScanCompares(app, s);
      OnePassLength(app, w, s);
      StagedLength(app, w, o);
      LengthsDiffer(|w|, Lits(o), Refs(o), OtherChars(app, s), CaptureRefs(app, s));
    }
  }

  lemma SwallowedNewlineDiffers(app: App, s: string, w: string)
    requires Spellable(app) && Inline(AppEnv(app), true, s).Some?
    requires |w| > OtherChars(app, s)
    ensures
      var o := Inline(AppEnv(app), true, s).value;
      Whole(o) && AfterRef(o) == "\n" ==>
        ResolveText(TestEnv(Fill(app, w)), true, o) != Inline(OnceEnv(app, Fill(app, w)), true, s)
  {
    var o := Inline(AppEnv(app), true, s).value;
    if Whole(o) && AfterRef(o) == "\n" {
      ScanCompares(app, s);
      OnePassLength(app, w, s);
      SwallowedNewline(app, w, o);
      OneMarkerDiffers(|w|, OtherChars(app, s), CaptureRefs(app, s));
    }
  }

  /** A lone reference whose value is read again. */
  lemma LoneValueDiffers(app: App, s: string, w: string)
    requires Spellable(app) && Whole(s) && Bound(app, s[1..]).None? && Lookup(AppEnv(app), s[1..]).Some?
    requires !Inert(Lookup(AppEnv(app), s[1..]).value, "") && |w| > |Lookup(AppEnv(app), s[1..]).value|
    ensures Staged(app, Fill(app, w), s) != ResolveText(OnceEnv(app, Fill(app, w)), true, s)
  {
    var v := Lookup(AppEnv(app), s[1..]).value;
    OnceLookup(app, w, s[1..]);
    if Whole(v) && AfterRef(v) == "\n" {
      SwallowedNewline(app, w, v);
    } else {
      StagedLength(app, w, v);
      InsertedScan(v, "");
      assert v + "" == v;
      RepeatMono(|w|, 1, Refs(v));
      assert Repeat(|w|, 1) == |w| + Repeat(|w|, 0);
    }
  }

  /** Captures longer than this many characters show every difference. */
  function Bulk(app: App, s: string): nat {
    if Whole(s) then
      if Lookup(AppEnv(app), s[1..]).Some? then |Lookup(AppEnv(app), s[1..]).value| else 0
    else OtherChars(app, s)
  }

  /** For text that is not safe, long enough captures give different results. */
  lemma UnsafeDiffers(app: App, s: string, w: string)
    requires Spellable(app) && ResolveText(AppEnv(app), true, s).Some? && !Safe(app, s)
    requires |w| > Bulk(app, s)
    ensures Staged(app, Fill(app, w), s) != ResolveText(OnceEnv(app, Fill(app, w)), true, s)
  {
    if Whole(s) {
      LoneValueDiffers(app, s, w);
    } else {
      SwallowedNewlineDiffers(app, s, w);
      if !SafeInline(app, s) { UnsafeInlineDiffers(app, s, w); }
    }
  }

  /** Exactly when staging is sound: the two passes agree for all captures if and
      only if the text is safe, a condition on the text and the first pass. */
  lemma SafeIsExact(app: App, s: string)
    requires Spellable(app) && ResolveText(AppEnv(app), true, s).Some?
    ensures Safe(app, s) <==>
              forall captures: map<string, string> :: captures.Keys <= app.names ==>
                Staged(app, captures, s) == ResolveText(OnceEnv(app, captures), true, s)
  {
    if Safe(app, s) {
      forall captures: map<string, string> | captures.Keys <= app.names
        ensures Staged(app, captures, s) == ResolveText(OnceEnv(app, captures), true, s)
      {
        StagedText(app, captures, s);
      }
    } else {
      var w := seq(Bulk(app, s) + 1, i => 'x');
      UnsafeDiffers(app, s, w);
      assert Fill(app, w).Keys <= app.names;
    }
  }

  // ---- two texts that are not safe -----------------------------------------------

  lemma OneLetter(c: char, t: string)
    requires IdStart(c) && (t == "" || !(IdChar(t[0]) || t[0] == '#'))
    ensures AtRef(['$', c] + t) && RefName(['$', c] + t) == [c] && AfterRef(['$', c] + t) == t
  {
    var o := ['$', c] + t;
    assert o[1..] == [c] + t && ([c] + t)[1..] == t && IdLen(t) == 0 && IdLen([c] + t) == 1;
    assert o[1..2] == [c] && o[2..] == t;
  }

  /** One letter after `$`, and what resolving it with some value yields. */
  lemma InlineLetter(env: Env, c: char, v: string, t: string)
    requires IdStart(c) && (t == "" || !(IdChar(t[0]) || t[0] == '#')) && Lookup(env, [c]) == Some(v)
    ensures Inline(env, true, ['$', c] + t) == Prepend(v, Inline(env, true, t))
  {
    OneLetter(c, t);
  }

  const WITH_DOLLAR := App(map["P" := "a$b"], map[], {"b"})

  /** A secret that holds `$` is read again: the password `a$b` becomes `a1` as
      soon as some test captures `b`. */
  lemma SecretIsReadAgain()
    ensures Staged(WITH_DOLLAR, map["b" := "1"], "$P") == Some("a1")
    ensures ResolveText(OnceEnv(WITH_DOLLAR, map["b" := "1"]), true, "$P") == Some("a$b")
  {
    OneLetter('P', "");
    assert ['$', 'P'] + "" == "$P" && "$P"[1..] == "P";
    ReadAgain(TestEnv(map["b" := "1"]));
  }

  lemma ReadAgain(env: Env)
    requires Lookup(env, "b") == Some("1")
    ensures ResolveText(env, true, "a$b") == Some("a1")
  {
    InlineLetter(env, 'b', "1", "");
    assert ['$', 'b'] + "" == "$b" && Inline(env, true, "") == Some("") && "1" + "" == "1";
    assert "a$b"[1..] == "$b" && "a$b"[..1] == "a" && "a" + "1" == "a1";
    assert '$' == "a$b"[1];
  }

  const ADJACENT := App(map["B" := "x"], map[], {"A"})

  /** A capture next to inserted text loses its name: `$A$B` with B bound to `x`
      leaves `$Ax`, which no capture of A resolves. */
  lemma NameIsExtended()
    ensures Staged(ADJACENT, map["A" := "1"], "$A$B") == None
    ensures ResolveText(OnceEnv(ADJACENT, map["A" := "1"]), true, "$A$B") == Some("1x")
  {
    AdjacentFirst();
    AdjacentOnce();
    LongerName(TestEnv(map["A" := "1"]));
  }

  lemma AdjacentFirst()
    ensures ResolveText(AppEnv(ADJACENT), true, "$A$B") == Some("$Ax")
  {
    assert "$" + "A" == "$A" && "$A" + "x" == "$Ax";
    TwoLetters(AppEnv(ADJACENT), "$A", "x");
  }

  lemma AdjacentOnce()
    ensures ResolveText(OnceEnv(ADJACENT, map["A" := "1"]), true, "$A$B") == Some("1x")
  {
    assert "1" + "x" == "1x";
    TwoLetters(OnceEnv(ADJACENT, map["A" := "1"]), "1", "x");
  }

  lemma TwoLetters(env: Env, a: string, b: string)
    requires Lookup(env, "A") == Some(a) && Lookup(env, "B") == Some(b)
    ensures ResolveText(env, true, "$A$B") == Some(a + b)
  {
    InlineLetter(env, 'A', a, "$B");
    InlineLetter(env, 'B', b, "");
    OneLetter('A', "$B");
    assert ['$', 'A'] + "$B" == "$A$B" && ['$', 'B'] + "" == "$B";
    assert Inline(env, true, "") == Some("") && b + "" == b;
    assert '$' == "$A$B"[0];
  }

  lemma LongerName(env: Env)
    requires Lookup(env, "Ax").None?
    ensures ResolveText(env, true, "$Ax").None?
  {
    assert "$Ax"[1..] == "Ax" && "Ax"[1..] == "x" && "x"[1..] == "" && IdLen("x") == 1 && IdLen("Ax") == 2;
    assert AtRef("$Ax") && RefName("$Ax") == "Ax" && AfterRef("$Ax") == "";
    assert '$' == "$Ax"[0];
  }
}
