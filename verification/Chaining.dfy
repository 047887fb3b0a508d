/**
 Trees and the sequential test loop: staging on whole test definitions, and
 run_app's loop that feeds each test the captures of the tests before it.
 */
module Chaining {
  import opened Wrappers
  import opened Resolver
  import opened Staging
  import opened Trees

  /** Every string in the tree is safe. */
  ghost predicate SafeTree(app: App, j: Json) { forall path: Path :: SafePlace(app, At(j, path)) }

  predicate SafePlace(app: App, place: Option<Json>) {
    place.Some? && place.value.Str? ==> Safe(app, place.value.s)
  }

  /** What the second pass makes of what the first one leaves. */
  function StagedJson(app: App, captures: map<string, string>, j: Json): Option<Json>
    requires Resolve(AppEnv(app), true, j).Some?
  {
    Resolve(TestEnv(captures), true, Resolve(AppEnv(app), true, j).value)
  }

  /** A string of the source, and what the two passes make of it. */
  lemma StagedPlace(app: App, captures: map<string, string>, j: Json, path: Path)
    requires Resolve(AppEnv(app), true, j).Some?
    requires At(j, path).Some? && At(j, path).value.Str?
    ensures Staged(app, captures, At(j, path).value.s).None? ==> StagedJson(app, captures, j).None?
    ensures StagedJson(app, captures, j).Some? ==>
              At(StagedJson(app, captures, j).value, path)
              == Some(Str(Staged(app, captures, At(j, path).value.s).value))
  {
    var staged := Resolve(AppEnv(app), true, j).value;
    ResolvedAt(AppEnv(app), true, j, path);
    if StagedJson(app, captures, j).Some? {
      ResolvedAt(TestEnv(captures), true, staged, path);
    }
  }

  lemma StagedAnswers(app: App, captures: map<string, string>, j: Json, path: Path)
    requires Spellable(app) && captures.Keys <= app.names && SafeTree(app, j)
    requires Resolve(AppEnv(app), true, j).Some? && StagedJson(app, captures, j).Some?
    ensures
      var twice := StagedJson(app, captures, j).value;
      if At(j, path).None? then At(twice, path).None?
      else At(twice, path).Some? && Answers(OnceEnv(app, captures), true, At(j, path).value, At(twice, path).value)
  {
    var staged := Resolve(AppEnv(app), true, j).value;
    ResolvedAt(AppEnv(app), true, j, path);
    ResolvedAt(TestEnv(captures), true, staged, path);
    assert SafePlace(app, At(j, path));
    if At(j, path).Some? && At(j, path).value.Str? {
      StagedText(app, captures, At(j, path).value.s);
    }
  }

  /** A string that one of the two ways cannot resolve, the other cannot either. */
  lemma StagedFails(app: App, captures: map<string, string>, j: Json)
    requires Spellable(app) && captures.Keys <= app.names && SafeTree(app, j)
    requires Resolve(AppEnv(app), true, j).Some?
    ensures StagedJson(app, captures, j).None? <==> HoldsUnresolvable(OnceEnv(app, captures), true, j)
  {
    var staged := Resolve(AppEnv(app), true, j).value;
    ResolvedEverywhere(TestEnv(captures), true, staged);
    forall path: Path
      ensures Unresolvable(TestEnv(captures), true, At(staged, path))
         <==> Unresolvable(OnceEnv(app, captures), true, At(j, path))
    {
      ResolvedAt(AppEnv(app), true, j, path);
      assert SafePlace(app, At(j, path));
      if At(j, path).Some? && At(j, path).value.Str? {
        StagedText(app, captures, At(j, path).value.s);
      }
    }
  }

  /** Safe trees: resolving twice is resolving once with the captures in place. */
  lemma StagedTree(app: App, captures: map<string, string>, j: Json)
    requires Spellable(app) && captures.Keys <= app.names && SafeTree(app, j)
    requires Resolve(AppEnv(app), true, j).Some?
    ensures StagedJson(app, captures, j) == Resolve(OnceEnv(app, captures), true, j)
  {
    var env := OnceEnv(app, captures);
    ResolvedEverywhere(env, true, j);
    StagedFails(app, captures, j);
    if StagedJson(app, captures, j).Some? {
      var twice := StagedJson(app, captures, j).value;
      forall path: Path
        ensures if At(j, path).None? then At(twice, path).None?
                else At(twice, path).Some? && Answers(env, true, At(j, path).value, At(twice, path).value)
      {
        StagedAnswers(app, captures, j, path);
      }
      PlacesDecide(env, true, j, twice, Resolve(env, true, j).value);
    }
  }

  // ---- and no other trees ----------------------------------------------------------

  lemma {:induction false} FilledInline(app: App, w: string, s: string)
    requires Spellable(app) && w != "" && Inline(AppEnv(app), true, s).Some?
    ensures Inline(OnceEnv(app, Fill(app, w)), true, s).Some?
    decreases |s|
  {
    if s == "" {
    } else if AtRef(s) {
      OnceLookup(app, w, RefName(s));
      FilledInline(app, w, AfterRef(s));
    } else {
      FilledInline(app, w, s[1..]);
    }
  }

  /** With every capture made, what the first pass resolves one pass resolves. */
  lemma FilledText(app: App, w: string, s: string)
    requires Spellable(app) && w != "" && ResolveText(AppEnv(app), true, s).Some?
    ensures ResolveText(OnceEnv(app, Fill(app, w)), true, s).Some?
  {
    if '$' in s {
      if Whole(s) { OnceLookup(app, w, s[1..]); } else { FilledInline(app, w, s); }
    }
  }

  lemma FilledTree(app: App, w: string, j: Json)
    requires Spellable(app) && w != "" && Resolve(AppEnv(app), true, j).Some?
    ensures Resolve(OnceEnv(app, Fill(app, w)), true, j).Some?
  {
    var env := OnceEnv(app, Fill(app, w));
    ResolvedEverywhere(env, true, j);
    forall path: Path
      ensures !Unresolvable(env, true, At(j, path))
    {
      ResolvedAt(AppEnv(app), true, j, path);
      if At(j, path).Some? && At(j, path).value.Str? {
        FilledText(app, w, At(j, path).value.s);
      }
    }
  }

  /** The two passes agree on a definition for all captures if and only if every
      string in it is safe. */
  lemma StagedTreeIsExact(app: App, j: Json)
    requires Spellable(app) && Resolve(AppEnv(app), true, j).Some?
    ensures SafeTree(app, j) <==>
              forall captures: map<string, string> :: captures.Keys <= app.names ==>
                StagedJson(app, captures, j) == Resolve(OnceEnv(app, captures), true, j)
  {
    if SafeTree(app, j) {
      forall captures: map<string, string> | captures.Keys <= app.names
        ensures StagedJson(app, captures, j) == Resolve(OnceEnv(app, captures), true, j)
      {
        StagedTree(app, captures, j);
      }
    } else {
      var path: Path :| !SafePlace(app, At(j, path));
      var s := At(j, path).value.s;
      var w := seq(Bulk(app, s) + 1, i => 'x');
      var captures := Fill(app, w);
      ResolvedAt(AppEnv(app), true, j, path);
      UnsafeDiffers(app, s, w);
      FilledTree(app, w, j);
      StagedPlace(app, captures, j, path);
      ResolvedAt(OnceEnv(app, captures), true, j, path);
      assert captures.Keys <= app.names;
    }
  }

  // ---- capture names ---------------------------------------------------------

  /** The keys of a test's `extract:` mapping. */
  function Extracts(test: Json): set<string> {
    if test.Dict? then ExtractKeys(test.fields) else {}
  }

  function ExtractKeys(fields: seq<Field>): set<string> {
    if fields == [] then {}
    else (if fields[0].key == "extract" && fields[0].value.Dict? then Keys(fields[0].value.fields) else {})
         + ExtractKeys(fields[1..])
  }

  function Keys(fields: seq<Field>): set<string> {
    if fields == [] then {} else {fields[0].key} + Keys(fields[1..])
  }

  /** There is an entry of this name under `extract`. */
  ghost predicate Announces(test: Json, name: string) {
    exists e: nat, k: nat :: At(test, [Entry(e, "extract"), Entry(k, name)]).Some?
  }

  lemma TwoDown(test: Json, e: nat, k: nat, name: string)
    ensures At(test, [Entry(e, "extract"), Entry(k, name)]).Some?
       <==> test.Dict? && e < |test.fields| && test.fields[e].key == "extract" && test.fields[e].value.Dict?
            && k < |test.fields[e].value.fields| && test.fields[e].value.fields[k].key == name
  {
    var path := [Entry(e, "extract"), Entry(k, name)];
    assert path[1..] == [Entry(k, name)] && [Entry(k, name)][1..] == [];
    if test.Dict? && e < |test.fields| && test.fields[e].key == "extract" {
      assert At(test, path) == At(test.fields[e].value, [Entry(k, name)]);
    }
  }

  lemma {:induction false} KeysAreKeys(fields: seq<Field>, name: string)
    ensures name in Keys(fields) <==> exists k :: 0 <= k < |fields| && fields[k].key == name
  {
    if fields == [] {
    } else {
      KeysAreKeys(fields[1..], name);
      assert forall k :: 0 < k < |fields| ==> fields[1..][k - 1] == fields[k];
    }
  }

  predicate ExtractedAt(fields: seq<Field>, e: int, name: string) {
    0 <= e < |fields| && fields[e].key == "extract" && fields[e].value.Dict? && name in Keys(fields[e].value.fields)
  }

  lemma {:induction false} ExtractKeysExactly(fields: seq<Field>, name: string)
    ensures name in ExtractKeys(fields) <==> exists e :: ExtractedAt(fields, e, name)
  {
    if fields == [] {
    } else {
      ExtractKeysExactly(fields[1..], name);
      assert forall e :: 0 < e && ExtractedAt(fields, e, name) ==> ExtractedAt(fields[1..], e - 1, name);
      assert forall e :: ExtractedAt(fields[1..], e, name) ==> ExtractedAt(fields, e + 1, name);
      assert name in ExtractKeys(fields) && name !in ExtractKeys(fields[1..]) ==> ExtractedAt(fields, 0, name);
    }
  }

  /** The names of a test are the keys under its `extract`. */
  lemma ExtractsExactly(test: Json, name: string)
    ensures name in Extracts(test) <==> Announces(test, name)
  {
    if test.Dict? {
      ExtractKeysExactly(test.fields, name);
      if name in Extracts(test) {
        var e: nat :| ExtractedAt(test.fields, e, name);
        KeysAreKeys(test.fields[e].value.fields, name);
        var k: nat :| k < |test.fields[e].value.fields| && test.fields[e].value.fields[k].key == name;
        TwoDown(test, e, k, name);
      }
    }
    forall e: nat, k: nat | At(test, [Entry(e, "extract"), Entry(k, name)]).Some?
      ensures name in Extracts(test)
    {
      TwoDown(test, e, k, name);
      KeysAreKeys(test.fields[e].value.fields, name);
      assert ExtractedAt(test.fields, e, name);
    }
  }

  /** The names seeded before the application pass. */
  function CaptureNames(tests: seq<Json>): set<string> {
    if tests == [] then {} else Extracts(tests[0]) + CaptureNames(tests[1..])
  }

  lemma {:induction false} CaptureNamesExactly(tests: seq<Json>, name: string)
    ensures name in CaptureNames(tests) <==> exists i :: 0 <= i < |tests| && Announces(tests[i], name)
  {
    if tests == [] {
    } else {
      ExtractsExactly(tests[0], name);
      CaptureNamesExactly(tests[1..], name);
      assert forall i :: 0 < i < |tests| ==> tests[1..][i - 1] == tests[i];
    }
  }

  /** Resolution never touches keys, so a test captures what it announced. */
  lemma ExtractsKept(env: Env, test: Json)
    requires Resolve(env, true, test).Some?
    ensures Extracts(Resolve(env, true, test).value) == Extracts(test)
  {
    var r := Resolve(env, true, test).value;
    forall name ensures name in Extracts(r) <==> name in Extracts(test) {
      ExtractsExactly(test, name);
      ExtractsExactly(r, name);
      forall e: nat, k: nat
        ensures At(r, [Entry(e, "extract"), Entry(k, name)]).Some?
           <==> At(test, [Entry(e, "extract"), Entry(k, name)]).Some?
      {
        ResolvedAt(env, true, test, [Entry(e, "extract"), Entry(k, name)]);
      }
    }
  }

  // ---- the loop --------------------------------------------------------------

  /** What running a resolved test yields: its verdict and captures, or an
      exception. `Unresolved` is the per-test ConfigError. */
  datatype Outcome = Ran(passed: bool, captures: map<string, string>) | Raised | Unresolved

  type Executor = (nat, Json) -> Outcome

  /** A test captures under the names its `extract:` announces. */
  ghost predicate CapturesAnnounced(exec: Executor) {
    forall i: nat, test: Json :: exec(i, test).Ran? ==> exec(i, test).captures.Keys <= Extracts(test)
  }

  /** What the tests so far have captured; a later capture replaces an earlier one. */
  function Captured(outcomes: seq<Outcome>): map<string, string>
    decreases outcomes
  {
    if outcomes == [] then map[]
    else
      var before, last := Captured(outcomes[..|outcomes| - 1]), outcomes[|outcomes| - 1];
      if last.Ran? then before + last.captures else before
  }

  predicate Captures(outcome: Outcome, name: string) { outcome.Ran? && name in outcome.captures }

  predicate LastToCapture(outcomes: seq<Outcome>, name: string, i: int) {
    && 0 <= i < |outcomes| && Captures(outcomes[i], name)
    && forall k :: i < k < |outcomes| ==> !Captures(outcomes[k], name)
  }

  /** A name stands for what the last test that captured it found. */
  lemma {:induction false} LatestCapture(outcomes: seq<Outcome>, name: string, i: nat)
    requires LastToCapture(outcomes, name, i)
    ensures name in Captured(outcomes) && Captured(outcomes)[name] == outcomes[i].captures[name]
    decreases outcomes
  {
    var n := |outcomes| - 1;
    if i < n {
      LatestCapture(outcomes[..n], name, i);
      assert !Captures(outcomes[n], name);
    }
  }

  lemma {:induction false} CapturedByNone(outcomes: seq<Outcome>, name: string)
    ensures name !in Captured(outcomes) <==> forall i :: 0 <= i < |outcomes| ==> !Captures(outcomes[i], name)
    decreases outcomes
  {
    if outcomes == [] {
    } else {
      CapturedByNone(outcomes[..|outcomes| - 1], name);
    }
  }

  /** The test runs on a definition in which every string of `test` is resolved in
      its place, or it is not run because some string cannot be. */
  ghost predicate Delivered(env: Env, test: Json, exec: Executor, n: nat, outcome: Outcome) {
    if HoldsUnresolvable(env, true, test) then outcome == Unresolved
    else exists received :: AnswersEverywhere(env, true, test, received) && outcome == exec(n, received)
  }

  /** The same in two passes: the first with the names to be captured, the second
      with the captures so far and nothing else. */
  ghost predicate DeliveredTwice(app: App, captures: map<string, string>, test: Json, exec: Executor, n: nat,
                                 outcome: Outcome)
  {
    exists staged ::
      AnswersEverywhere(AppEnv(app), true, test, staged) && Delivered(TestEnv(captures), staged, exec, n, outcome)
  }

  lemma SecondPassIsOnePass(app: App, captures: map<string, string>, tests: seq<Json>, n: nat)
    requires Spellable(app) && SafeTree(app, List(tests)) && captures.Keys <= app.names && n < |tests|
    requires ResolveAll(AppEnv(app), true, tests).Some?
    ensures |ResolveAll(AppEnv(app), true, tests).value| == |tests|
    ensures Resolve(TestEnv(captures), true, ResolveAll(AppEnv(app), true, tests).value[n])
            == Resolve(OnceEnv(app, captures), true, tests[n])
  {
    ResolvedEach(AppEnv(app), tests);
    SafeEach(app, tests, n);
    StagedTree(app, captures, tests[n]);
  }

  /** A test that runs captures only names seeded at the start. */
  lemma AnnouncedNames(app: App, captures: map<string, string>, tests: seq<Json>, n: nat)
    requires app.names == CaptureNames(tests) && n < |tests|
    requires ResolveAll(AppEnv(app), true, tests).Some?
    ensures |ResolveAll(AppEnv(app), true, tests).value| == |tests|
    ensures
      var again := Resolve(TestEnv(captures), true, ResolveAll(AppEnv(app), true, tests).value[n]);
      again.Some? ==> Extracts(again.value) <= app.names
  {
    ResolvedEach(AppEnv(app), tests);
    var resolved := ResolveAll(AppEnv(app), true, tests).value[n];
    ExtractsKept(AppEnv(app), tests[n]);
    if Resolve(TestEnv(captures), true, resolved).Some? {
      ExtractsKept(TestEnv(captures), resolved);
    }
    forall name | name in Extracts(tests[n]) ensures name in CaptureNames(tests) {
      ExtractsExactly(tests[n], name);
      CaptureNamesExactly(tests, name);
    }
  }

  /** Test n gets its definition in two passes; for safe text this is to resolve it
      once, with the captures of the tests before it in place of secrets of the same
      name. */
  ghost predicate RoundOk(app: App, tests: seq<Json>, exec: Executor, outcomes: seq<Outcome>, n: nat)
    requires n < |tests| && n < |outcomes|
  {
    && DeliveredTwice(app, Captured(outcomes[..n]), tests[n], exec, n, outcomes[n])
    && (Spellable(app) && SafeTree(app, List(tests)) ==>
          Delivered(OnceEnv(app, Captured(outcomes[..n])), tests[n], exec, n, outcomes[n]))
  }

  lemma RoundKept(app: App, tests: seq<Json>, exec: Executor, outcomes: seq<Outcome>, last: Outcome, n: nat)
    requires n < |tests| && n < |outcomes| && RoundOk(app, tests, exec, outcomes, n)
    ensures RoundOk(app, tests, exec, outcomes + [last], n)
  {
    assert (outcomes + [last])[..n] == outcomes[..n];
  }

  function Definition(rest: seq<Field>, tests: seq<Json>): Json { Dict(rest + [Field("tests", List(tests))]) }

  /** The first pass cannot resolve some string of the definition, or yields URLs
      that are refused. */
  ghost predicate SetUpFails(app: App, rest: seq<Field>, tests: seq<Json>, urlsOk: Json -> bool) {
    || HoldsUnresolvable(AppEnv(app), true, Definition(rest, tests))
    || exists d :: AnswersEverywhere(AppEnv(app), true, Definition(rest, tests), d) && !urlsOk(d)
  }

  /** The tests of a definition that the first pass has resolved. */
  lemma ResolvedTests(app: App, rest: seq<Field>, tests: seq<Json>)
    requires Resolve(AppEnv(app), true, Definition(rest, tests)).Some?
    ensures
      var d := Resolve(AppEnv(app), true, Definition(rest, tests)).value;
      && d.Dict? && |d.fields| == |rest| + 1
      && ResolveAll(AppEnv(app), true, tests).Some?
      && d.fields[|rest|].value == List(ResolveAll(AppEnv(app), true, tests).value)
  {
    var fields := rest + [Field("tests", List(tests))];
    FieldsResolved(AppEnv(app), true, fields);
    assert fields[|rest|].value == List(tests);
  }

  lemma SetUpFailsExactly(app: App, rest: seq<Field>, tests: seq<Json>, urlsOk: Json -> bool)
    ensures
      var d := Resolve(AppEnv(app), true, Definition(rest, tests));
      SetUpFails(app, rest, tests, urlsOk) <==> d.None? || !urlsOk(d.value)
  {
    var env, source := AppEnv(app), Definition(rest, tests);
    ResolvedEverywhere(env, true, source);
    if Resolve(env, true, source).Some? {
      forall d | AnswersEverywhere(env, true, source, d) ensures d == Resolve(env, true, source).value {
        PlacesDecide(env, true, source, d, Resolve(env, true, source).value);
      }
    }
  }

  /** What one round of the loop delivers. */
  lemma RoundDelivers(app: App, tests: seq<Json>, exec: Executor, outcomes: seq<Outcome>, last: Outcome)
    requires ResolveAll(AppEnv(app), true, tests).Some? && |outcomes| < |tests|
    requires |ResolveAll(AppEnv(app), true, tests).value| == |tests| && Captured(outcomes).Keys <= app.names
    requires
      var n := |outcomes|;
      var again := Resolve(TestEnv(Captured(outcomes)), true, ResolveAll(AppEnv(app), true, tests).value[n]);
      last == if again.None? then Unresolved else exec(n, again.value)
    ensures RoundOk(app, tests, exec, outcomes + [last], |outcomes|)
  {
    var n, captures := |outcomes|, Captured(outcomes);
    var staged := ResolveAll(AppEnv(app), true, tests).value[n];
    assert (outcomes + [last])[..n] == outcomes;
    ResolvedEach(AppEnv(app), tests);
    ResolvedEverywhere(AppEnv(app), true, tests[n]);
    ResolvedEverywhere(TestEnv(captures), true, staged);
    if Spellable(app) && SafeTree(app, List(tests)) {
      SecondPassIsOnePass(app, captures, tests, n);
      ResolvedEverywhere(OnceEnv(app, captures), true, tests[n]);
    }
  }

  /** run_app: resolve the definition with seeded capture names, then run its
      tests in order, resolving each again with the captures so far. None stands
      for the run recorded as a setup error. */
  method RunSequential(secrets: map<string, string>, environ: map<string, string>,
                       rest: seq<Field>, tests: seq<Json>, urlsOk: Json -> bool, exec: Executor)
    returns (outcomes: Option<seq<Outcome>>)
    requires CapturesAnnounced(exec)
    ensures outcomes.None? <==> SetUpFails(App(secrets, environ, CaptureNames(tests)), rest, tests, urlsOk)
    ensures outcomes.Some? ==> |outcomes.value| == |tests|
    ensures
      var app := App(secrets, environ, CaptureNames(tests));
      outcomes.Some? ==> forall n :: 0 <= n < |tests| ==> RoundOk(app, tests, exec, outcomes.value, n)
  {
    var app := App(secrets, environ, CaptureNames(tests));
    var definition := Resolve(AppEnv(app), true, Definition(rest, tests));
    SetUpFailsExactly(app, rest, tests, urlsOk);
    if definition.None? || !urlsOk(definition.value) {
      return None;
    }
    ResolvedTests(app, rest, tests);
    ResolvedEach(AppEnv(app), tests);
    var resolved := definition.value.fields[|rest|].value.items;
    var captures, results, n := map[], [], 0;
    while n < |tests|
      invariant 0 <= n <= |tests| && |results| == n
      invariant captures.Keys <= app.names && captures == Captured(results)
      invariant forall i :: 0 <= i < n ==> RoundOk(app, tests, exec, results, i)
    {
      AnnouncedNames(app, captures, tests, n);
      var again := Resolve(TestEnv(captures), true, resolved[n]);
      var outcome := if again.None? then Unresolved else exec(n, again.value);
      RoundDelivers(app, tests, exec, results, outcome);
      forall i | 0 <= i < n ensures RoundOk(app, tests, exec, results + [outcome], i) {
        RoundKept(app, tests, exec, results, outcome, i);
      }
      assert (results + [outcome])[..n] == results;
      results := results + [outcome];
      if outcome.Ran? {
        captures := captures + outcome.captures;
      }
      n := n + 1;
    }
    outcomes := Some(results);
  }

  lemma {:induction false} ResolvedEach(env: Env, tests: seq<Json>)
    requires ResolveAll(env, true, tests).Some?
    ensures
      var r := ResolveAll(env, true, tests).value;
      |r| == |tests| && forall i :: 0 <= i < |tests| ==> Resolve(env, true, tests[i]) == Some(r[i])
  {
    if tests == [] {
    } else {
      ResolvedEach(env, tests[1..]);
      var r := ResolveAll(env, true, tests).value;
      assert r == [Resolve(env, true, tests[0]).value] + ResolveAll(env, true, tests[1..]).value;
      assert forall i :: 1 <= i < |tests| ==>
          tests[i] == tests[1..][i - 1] && r[i] == ResolveAll(env, true, tests[1..]).value[i - 1];
    }
  }

  lemma SafeEach(app: App, tests: seq<Json>, i: nat)
    requires SafeTree(app, List(tests)) && i < |tests|
    ensures SafeTree(app, tests[i])
  {
    forall path: Path ensures SafePlace(app, At(tests[i], path)) {
      assert SafePlace(app, At(List(tests), [Item(i)] + path));
      assert ([Item(i)] + path)[1..] == path;
    }
  }
}
