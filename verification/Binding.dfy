/**
 Binding a runner name to an API key. POST /register reads the row, classifies
 the binding, judges whether the bound key may be released, and only then
 upserts; each of these reads is a step of its own here, interleaved with other
 registers (in this or another process), deletions and changes of key rows.
 */
module Binding {
  import opened Wrappers
  import opened Tables

  type UserId = nat
  type ReqId = nat

  /** An api_keys row; `usable` is _key_usable: active and not expired. */
  datatype KeyRow = KeyRow(user: UserId, usable: bool)

  datatype Phase = Reading | Classifying | Judging | Looking | Writing(found: bool) | Done | Refused

  /** What one register request has learnt so far. */
  datatype Req = Req(
    name: Name, key: KeyId, user: UserId, phase: Phase,
    expected: Option<KeyId>,              // key on the row of the first read
    classified: Option<KeyId>,            // key on the row when the binding was classified
    released: Option<Option<KeyId>>       // Some(b): b was judged releasable; None: no judgement needed
  )

  /** rows[n] is the api_key_id of the row named n; None stands for NULL. */
  datatype Registry = Registry(rows: map<Name, Option<KeyId>>, keys: map<KeyId, KeyRow>, reqs: map<ReqId, Req>)

  datatype Step =
    | Begin(r: ReqId, name: Name, key: KeyId, user: UserId)
    | Read(r: ReqId)
    | Classify(r: ReqId)
    | Judge(r: ReqId)
    | Look(r: ReqId)
    | Write(r: ReqId)
    | Delete(name: Name)
    | SetKey(k: KeyId, row: KeyRow)
    | DropKey(k: KeyId)

  function Bound(s: Registry, name: Name): Option<KeyId> {
    if name in s.rows then s.rows[name] else None
  }

  /** _bound_key_releasable, given the key the row is bound to now. */
  predicate Releasable(s: Registry, bound: Option<KeyId>, user: UserId) {
    || bound.None? || bound.value !in s.keys || !s.keys[bound.value].usable
    || s.keys[bound.value].user == user
  }

  predicate Possible(s: Registry, a: Step) {
    match a
    case Begin(r, _, _, _) => r !in s.reqs
    case Read(r) => r in s.reqs && s.reqs[r].phase == Reading
    case Classify(r) => r in s.reqs && s.reqs[r].phase == Classifying
    case Judge(r) => r in s.reqs && s.reqs[r].phase == Judging
    case Look(r) => r in s.reqs && s.reqs[r].phase == Looking
    case Write(r) => r in s.reqs && s.reqs[r].phase.Writing?
    case Delete(_) => true
    case SetKey(_, _) => true
    case DropKey(_) => true
  }

  function Put(s: Registry, r: ReqId, q: Req): Registry { s.(reqs := s.reqs[r := q]) }

  /** The conditional write of upsert_runner: an INSERT that loses on the unique
      name, or an UPDATE that matches no row, is refused. */
  predicate WriteApplies(s: Registry, q: Req)
    requires q.phase.Writing?
  {
    if q.phase.found then q.name in s.rows && (s.rows[q.name].None? || s.rows[q.name] == q.expected)
    else q.name !in s.rows
  }

  function Next(s: Registry, a: Step): Registry
    requires Possible(s, a)
  {
    match a
    case Begin(r, name, key, user) => Put(s, r, Req(name, key, user, Reading, None, None, None))
    case Read(r) =>
      var q := s.reqs[r];
      Put(s, r, q.(phase := Classifying, expected := Bound(s, q.name)))
    case Classify(r) =>
      var q := s.reqs[r];
      var bound := Bound(s, q.name);
      var conflict := bound.Some? && bound != Some(q.key);
      Put(s, r, q.(phase := if conflict then Judging else Looking, classified := bound))
    case Judge(r) =>
      var q := s.reqs[r];
      var bound := Bound(s, q.name);
      Put(s, r, if Releasable(s, bound, q.user) then q.(phase := Looking, released := Some(bound))
                else q.(phase := Refused))
    case Look(r) =>
      var q := s.reqs[r];
      Put(s, r, q.(phase := Writing(q.name in s.rows)))
    case Write(r) =>
      var q := s.reqs[r];
      if WriteApplies(s, q) then Put(s, r, q.(phase := Done)).(rows := s.rows[q.name := Some(q.key)])
      else Put(s, r, q.(phase := Refused))
    case Delete(name) => s.(rows := s.rows - {name})
    case SetKey(k, row) => s.(keys := s.keys[k := row])
    case DropKey(k) => s.(keys := s.keys - {k})
  }

  predicate Legal(s: Registry, run: seq<Step>)
    decreases run
  {
    run == [] || (Possible(s, run[0]) && Legal(Next(s, run[0]), run[1..]))
  }

  function Exec(s: Registry, run: seq<Step>): Registry
    requires Legal(s, run)
    decreases run
  {
    if run == [] then s else Exec(Next(s, run[0]), run[1..])
  }

  /** The step moves a name from one key to a different one. */
  predicate Moves(s: Registry, a: Step, n: Name, k: KeyId, k': KeyId)
    requires Possible(s, a)
  {
    n in s.rows && s.rows[n] == Some(k) && n in Next(s, a).rows && Next(s, a).rows[n] == Some(k') && k != k'
  }

  /** What the last check of the request saw: its judgement if it made one, its
      classification otherwise. */
  function LastSeen(q: Req): Option<KeyId> {
    if q.released.Some? then q.released.value else q.classified
  }

  /** A request past its checks has judged a key exactly when the classification
      found a foreign one. */
  predicate ReqOk(q: Req) {
    && (q.phase.Looking? || q.phase.Writing? || q.phase.Done? ==>
          (q.released.Some? <==> q.classified.Some? && q.classified != Some(q.key)))
    && (q.phase.Reading? || q.phase.Classifying? || q.phase.Judging? ==> q.released.None?)
    && (q.phase.Judging? ==> q.classified.Some? && q.classified != Some(q.key))
  }

  ghost predicate Inv(s: Registry) { forall r :: r in s.reqs ==> ReqOk(s.reqs[r]) }

  lemma StepKeepsReq(s: Registry, a: Step, r: ReqId)
    requires Possible(s, a) && r in Next(s, a).reqs && (r in s.reqs ==> ReqOk(s.reqs[r]))
    ensures ReqOk(Next(s, a).reqs[r])
  {
  }

  lemma StepKeepsInv(s: Registry, a: Step)
    requires Inv(s) && Possible(s, a)
    ensures Inv(Next(s, a))
  {
    var s' := Next(s, a);
    forall r | r in s'.reqs ensures ReqOk(s'.reqs[r]) {
      StepKeepsReq(s, a, r);
    }
  }

  lemma {:induction false} RunKeepsInv(s: Registry, run: seq<Step>)
    requires Inv(s) && Legal(s, run)
    ensures Inv(Exec(s, run))
    decreases run
  {
    if run == [] {
    } else {
      StepKeepsInv(s, run[0]);
      RunKeepsInv(Next(s, run[0]), run[1..]);
    }
  }

  /** Compare-and-set: whatever happened in between, a name leaves key k only
      through the write of a register that read k, and only towards its own key. */
  lemma MovesOnlyByReader(s: Registry, a: Step, n: Name, k: KeyId, k': KeyId)
    requires Possible(s, a) && Moves(s, a, n, k, k')
    ensures a.Write? && s.reqs[a.r].name == n && s.reqs[a.r].key == k' && s.reqs[a.r].expected == Some(k)
  {
  }

  // ---- what happened when, over a run ------------------------------------------

  /** The binding of a name after the first i steps. */
  ghost predicate SawAt(s0: Registry, run: seq<Step>, i: nat, name: Name, bound: Option<KeyId>) {
    i <= |run| && Legal(s0, run[..i]) && Bound(Exec(s0, run[..i]), name) == bound
  }

  ghost predicate ReleasableAt(s0: Registry, run: seq<Step>, i: nat, bound: Option<KeyId>, user: UserId) {
    i <= |run| && Legal(s0, run[..i]) && Releasable(Exec(s0, run[..i]), bound, user)
  }

  predicate Checks(a: Step, r: ReqId) { a == Classify(r) || a == Judge(r) }

  lemma {:induction false} SplitLast(s: Registry, run: seq<Step>)
    requires run != [] && Legal(s, run)
    ensures
      var front, a := run[..|run| - 1], run[|run| - 1];
      Legal(s, front) && Possible(Exec(s, front), a) && Exec(s, run) == Next(Exec(s, front), a)
    decreases run
  {
    if |run| == 1 {
      assert run[..0] == [] && run[1..] == [];
    } else {
      SplitLast(Next(s, run[0]), run[1..]);
      assert run[1..][..|run| - 2] == run[..|run| - 1][1..];
    }
  }

  lemma PrefixSaw(s0: Registry, run: seq<Step>, n: nat, i: nat, name: Name, bound: Option<KeyId>, user: UserId)
    requires i <= n <= |run|
    ensures SawAt(s0, run[..n], i, name, bound) <==> SawAt(s0, run, i, name, bound)
    ensures ReleasableAt(s0, run[..n], i, bound, user) <==> ReleasableAt(s0, run, i, bound, user)
  {
    assert run[..n][..i] == run[..i];
  }

  predicate PastRead(q: Req) { !q.phase.Reading? && !q.phase.Refused? }

  predicate PastChecks(q: Req) { q.phase.Looking? || q.phase.Writing? || q.phase.Done? }

  /** A step keeps what a request has learnt, unless it is its read or a check. */
  lemma OthersKeepKnowledge(s: Registry, a: Step, r: ReqId)
    requires Possible(s, a) && r in Next(s, a).reqs && !Checks(a, r)
    ensures PastChecks(Next(s, a).reqs[r]) ==>
      && r in s.reqs && PastChecks(s.reqs[r])
      && s.reqs[r].(phase := Next(s, a).reqs[r].phase) == Next(s, a).reqs[r]
  {
  }

  lemma OthersKeepRead(s: Registry, a: Step, r: ReqId)
    requires Possible(s, a) && r in Next(s, a).reqs && a != Read(r) && PastRead(Next(s, a).reqs[r])
    ensures r in s.reqs && PastRead(s.reqs[r])
    ensures s.reqs[r].name == Next(s, a).reqs[r].name && s.reqs[r].expected == Next(s, a).reqs[r].expected
  {
  }

  /** The step of the run at which the request made its first read. */
  lemma {:induction false} WhenRead(s0: Registry, run: seq<Step>, r: ReqId) returns (read: nat)
    requires s0.reqs == map[] && Legal(s0, run) && r in Exec(s0, run).reqs && PastRead(Exec(s0, run).reqs[r])
    ensures read < |run| && run[read] == Read(r)
    ensures
      var q := Exec(s0, run).reqs[r];
      SawAt(s0, run, read, q.name, q.expected)
    decreases run
  {
    var n, q := |run| - 1, Exec(s0, run).reqs[r];
    SplitLast(s0, run);
    var s := Exec(s0, run[..n]);
    if run[n] == Read(r) {
      read := n;
    } else {
      OthersKeepRead(s, run[n], r);
      read := WhenRead(s0, run[..n], r);
      PrefixSaw(s0, run, n, read, q.name, q.expected, q.user);
    }
  }

  /** The step at which it made its last check, after its read, and what it saw. */
  lemma {:induction false} WhenChecked(s0: Registry, run: seq<Step>, r: ReqId) returns (read: nat, check: nat)
    requires s0.reqs == map[] && Legal(s0, run) && r in Exec(s0, run).reqs && PastChecks(Exec(s0, run).reqs[r])
    ensures read < check < |run| && run[read] == Read(r)
    ensures forall i :: check < i < |run| ==> !Checks(run[i], r)
    ensures
      var q := Exec(s0, run).reqs[r];
      && run[check] == (if q.released.Some? then Judge(r) else Classify(r))
      && SawAt(s0, run, read, q.name, q.expected) && SawAt(s0, run, check, q.name, LastSeen(q))
      && (q.released.Some? ==> ReleasableAt(s0, run, check, LastSeen(q), q.user))
    decreases run
  {
    var n, q := |run| - 1, Exec(s0, run).reqs[r];
    SplitLast(s0, run);
    var s := Exec(s0, run[..n]);
    if Checks(run[n], r) {
      check := n;
      LastCheckSaw(s0, run, r);
      read := WhenRead(s0, run[..n], r);
      PrefixSaw(s0, run, n, read, q.name, q.expected, q.user);
    } else {
      OthersKeepKnowledge(s, run[n], r);
      read, check := WhenChecked(s0, run[..n], r);
      PrefixSaw(s0, run, n, read, q.name, q.expected, q.user);
      PrefixSaw(s0, run, n, check, q.name, LastSeen(q), q.user);
    }
  }

  lemma LastCheckSaw(s0: Registry, run: seq<Step>, r: ReqId)
    requires s0.reqs == map[] && run != [] && Legal(s0, run) && Checks(run[|run| - 1], r)
    requires r in Exec(s0, run).reqs && PastChecks(Exec(s0, run).reqs[r])
    ensures
      var n, q := |run| - 1, Exec(s0, run).reqs[r];
      && Legal(s0, run[..n]) && r in Exec(s0, run[..n]).reqs && PastRead(Exec(s0, run[..n]).reqs[r])
      && Exec(s0, run[..n]).reqs[r].name == q.name && Exec(s0, run[..n]).reqs[r].expected == q.expected
      && run[n] == (if q.released.Some? then Judge(r) else Classify(r))
      && SawAt(s0, run, n, q.name, LastSeen(q))
      && (q.released.Some? ==> ReleasableAt(s0, run, n, LastSeen(q), q.user))
  {
    var n := |run| - 1;
    SplitLast(s0, run);
    RunKeepsInv(s0, run[..n]);
    assert run[..n][..n] == run[..n];
  }

  /** The request found key k releasable, at its judgement. */
  ghost predicate FoundReleasable(s0: Registry, run: seq<Step>, check: nat, q: Req, r: ReqId, k: KeyId) {
    check < |run| && run[check] == Judge(r)
    && SawAt(s0, run, check, q.name, Some(k)) && ReleasableAt(s0, run, check, Some(k), q.user)
  }

  /** In every run, a register that moves a name away from key k read k first and
      finds k in the row when it writes; it has found k itself releasable if and
      only if the name was bound to k when the request made its last check. So an
      unjustified move is an A-B-A of the row: k, another binding, k again. */
  lemma MoveIsJustifiedExactly(s0: Registry, run: seq<Step>, a: Step, n: Name, k: KeyId, k': KeyId)
      returns (read: nat, check: nat, seen: Option<KeyId>)
    requires s0.reqs == map[] && Legal(s0, run) && Possible(Exec(s0, run), a)
    requires Moves(Exec(s0, run), a, n, k, k')
    ensures a.Write? && a.r in Exec(s0, run).reqs
    ensures read < check < |run| && run[read] == Read(a.r) && Checks(run[check], a.r)
    ensures forall i :: check < i < |run| ==> !Checks(run[i], a.r)
    ensures SawAt(s0, run, read, n, Some(k)) && SawAt(s0, run, check, n, seen) && SawAt(s0, run, |run|, n, Some(k))
    ensures FoundReleasable(s0, run, check, Exec(s0, run).reqs[a.r], a.r, k) <==> seen == Some(k)
  {
    RunKeepsInv(s0, run);
    MovesOnlyByReader(Exec(s0, run), a, n, k, k');
    read, check := WhenChecked(s0, run, a.r);
    seen := LastSeen(Exec(s0, run).reqs[a.r]);
    assert run[..|run|] == run;
  }

  /** Step i writes or deletes the row of name n. */
  ghost predicate TouchesAt(s0: Registry, run: seq<Step>, i: nat, n: Name)
    requires i < |run|
  {
    || run[i] == Delete(n)
    || (run[i].Write? && Legal(s0, run[..i]) && run[i].r in Exec(s0, run[..i]).reqs
        && Exec(s0, run[..i]).reqs[run[i].r].name == n)
  }

  lemma {:induction false} UntouchedRowStays(s0: Registry, run: seq<Step>, lo: nat, hi: nat, n: Name, b: Option<KeyId>)
    requires Legal(s0, run) && lo <= hi <= |run| && SawAt(s0, run, lo, n, b)
    requires forall i: nat :: lo <= i < hi ==> !TouchesAt(s0, run, i, n)
    ensures SawAt(s0, run, hi, n, b)
    decreases hi
  {
    if lo == hi {
    } else {
      UntouchedRowStays(s0, run, lo, hi - 1, n, b);
      PrefixLegal(s0, run, hi);
      SplitLast(s0, run[..hi]);
      assert run[..hi][..hi - 1] == run[..hi - 1];
      assert !TouchesAt(s0, run, hi - 1, n);
    }
  }

  lemma {:induction false} PrefixLegal(s: Registry, run: seq<Step>, n: nat)
    requires Legal(s, run) && n <= |run|
    ensures Legal(s, run[..n])
    decreases run
  {
    if n == 0 {
    } else {
      PrefixLegal(Next(s, run[0]), run[1..], n - 1);
      assert run[..n][1..] == run[1..][..n - 1];
    }
  }

  /** If nobody writes or deletes the row between the read and the write of a
      register, its move is justified: it found the key it takes the name from
      releasable. A register whose steps nothing interrupts is the special case. */
  lemma QuietMoveIsJustified(s0: Registry, run: seq<Step>, a: Step, n: Name, k: KeyId, k': KeyId)
      returns (read: nat, check: nat)
    requires s0.reqs == map[] && Legal(s0, run) && Possible(Exec(s0, run), a)
    requires Moves(Exec(s0, run), a, n, k, k')
    requires forall i: nat, j: nat :: i <= j < |run| && run[i] == Read(a.r) ==> !TouchesAt(s0, run, j, n)
    ensures a.Write? && a.r in Exec(s0, run).reqs && read < check < |run| && run[read] == Read(a.r)
    ensures FoundReleasable(s0, run, check, Exec(s0, run).reqs[a.r], a.r, k)
  {
    var seen;
    read, check, seen := MoveIsJustifiedExactly(s0, run, a, n, k, k');
    UntouchedRowStays(s0, run, read, check, n, Some(k));
  }

  /** Run without interleaving, the read and both checks see one binding, and
      the request is refused or has a justified, consistent view. */
  lemma AloneIsConsistent(s: Registry, r: ReqId)
    requires r in s.reqs && s.reqs[r].phase == Reading && s.reqs[r].released.None?
    ensures
      var s2 := Next(Next(s, Read(r)), Classify(r));
      var s3 := if s2.reqs[r].phase == Judging then Next(s2, Judge(r)) else s2;
      var q := s3.reqs[r];
      && (q.phase == Refused <==>
            Bound(s, q.name).Some? && Bound(s, q.name) != Some(q.key) && !Releasable(s, Bound(s, q.name), q.user))
      && (q.phase != Refused ==> q.phase == Looking && LastSeen(q) == q.expected)
  {
  }

  lemma {:induction false} Append(s: Registry, run: seq<Step>, a: Step)
    requires Legal(s, run) && Possible(Exec(s, run), a)
    ensures Legal(s, run + [a]) && Exec(s, run + [a]) == Next(Exec(s, run), a)
    decreases run
  {
    if run == [] {
      assert [] + [a] == [a] && [a][1..] == [];
      assert Legal(Next(s, a), []);
    } else {
      assert (run + [a])[1..] == run[1..] + [a];
      Append(Next(s, run[0]), run[1..], a);
    }
  }

  /** The name belongs to another key, which may not be released. */
  predicate Refuses(s: Registry, name: Name, key: KeyId, user: UserId) {
    Bound(s, name).Some? && Bound(s, name) != Some(key) && !Releasable(s, Bound(s, name), user)
  }

  /** The checks of a register, with nothing in between. */
  lemma WholeCheck(s0: Registry, run: seq<Step>, r: ReqId, name: Name, key: KeyId, user: UserId)
      returns (run': seq<Step>)
    requires Legal(s0, run) && r !in Exec(s0, run).reqs
    ensures Legal(s0, run')
    ensures
      var s, s' := Exec(s0, run), Exec(s0, run');
      && s'.rows == s.rows && s'.keys == s.keys && s'.reqs.Keys == s.reqs.Keys + {r}
      && (forall q :: q in s.reqs ==> s'.reqs[q] == s.reqs[q])
      && s'.reqs[r].name == name && s'.reqs[r].key == key && s'.reqs[r].expected == Bound(s, name)
      && s'.reqs[r].phase == if Refuses(s, name, key, user) then Refused else Looking
  {
    Append(s0, run, Begin(r, name, key, user));
    run' := run + [Begin(r, name, key, user)];
    Append(s0, run', Read(r));
    run' := run' + [Read(r)];
    Append(s0, run', Classify(r));
    run' := run' + [Classify(r)];
    if Exec(s0, run').reqs[r].phase == Judging {
      Append(s0, run', Judge(r));
      run' := run' + [Judge(r)];
    }
  }

  /** Whoever else has the name keeps it exactly while that key exists, is usable
      and belongs to another user. */
  lemma RefusesExactly(s: Registry, name: Name, key: KeyId, user: UserId)
    ensures Refuses(s, name, key, user) <==>
              && name in s.rows && s.rows[name].Some? && s.rows[name].value != key
              && s.rows[name].value in s.keys && s.keys[s.rows[name].value].usable
              && s.keys[s.rows[name].value].user != user
  {
  }

  /** Deleting the runner, dropping its key and disabling it each free the name, and
      touch no other name. */
  lemma NameIsFreed(s: Registry, a: Step, n: Name, k: KeyId, key: KeyId, user: UserId)
    requires Bound(s, n) == Some(k)
    requires a == Delete(n) || a == DropKey(k) || (a.SetKey? && a.k == k && !a.row.usable)
    ensures !Refuses(Next(s, a), n, key, user)
    ensures Next(s, a).rows - {n} == s.rows - {n} && Next(s, a).keys - {k} == s.keys - {k}
    ensures forall m :: m != n && Bound(s, m) != Some(k) ==>
              (Refuses(Next(s, a), m, key, user) <==> Refuses(s, m, key, user))
  {
    RefusesExactly(Next(s, a), n, key, user);
  }

  /** A whole register after any run, whatever other requests are under way, with
      nothing in between: refused, or the row is bound to the caller's key. */
  lemma WholeRegister(s0: Registry, run: seq<Step>, r: ReqId, name: Name, key: KeyId, user: UserId)
      returns (run': seq<Step>)
    requires Legal(s0, run) && r !in Exec(s0, run).reqs
    ensures Legal(s0, run')
    ensures
      var s, s' := Exec(s0, run), Exec(s0, run');
      && s'.rows == (if Refuses(s, name, key, user) then s.rows else s.rows[name := Some(key)])
      && s'.keys == s.keys && s'.reqs.Keys == s.reqs.Keys + {r}
      && forall q :: q in s.reqs ==> s'.reqs[q] == s.reqs[q]
  {
    run' := WholeCheck(s0, run, r, name, key, user);
    if Exec(s0, run').reqs[r].phase == Looking {
      Append(s0, run', Look(r));
      run' := run' + [Look(r)];
      Append(s0, run', Write(r));
      run' := run' + [Write(r)];
    }
  }

  const KEYS: map<KeyId, KeyRow> := map[1 := KeyRow(1, true), 2 := KeyRow(1, true), 3 := KeyRow(2, true)]

  const INITIAL := Registry(map["n" := Some(1)], KEYS, map[])

  /** Request 0 reads key 1; then another request rebinds the name to key 2. */
  lemma FirstRebind() returns (run: seq<Step>)
    ensures Legal(INITIAL, run)
    ensures
      var s := Exec(INITIAL, run);
      && s.rows == map["n" := Some(2)] && s.keys == KEYS && s.reqs.Keys == {0, 1}
      && s.reqs[0] == Req("n", 3, 2, Classifying, Some(1), None, None)
  {
    run := [];
    Append(INITIAL, run, Begin(0, "n", 3, 2));
    run := run + [Begin(0, "n", 3, 2)];
    Append(INITIAL, run, Read(0));
    run := run + [Read(0)];
    run := WholeRegister(INITIAL, run, 1, "n", 2, 1);
  }

  /** Request 0 judges key 2, which has been revoked meanwhile. */
  lemma WrongJudgement() returns (run: seq<Step>)
    ensures Legal(INITIAL, run)
    ensures
      var s := Exec(INITIAL, run);
      && s.rows == map["n" := Some(2)] && s.keys == KEYS[2 := KeyRow(1, false)] && s.reqs.Keys == {0, 1}
      && s.reqs[0] == Req("n", 3, 2, Looking, Some(1), Some(2), Some(Some(2)))
  {
    run := FirstRebind();
    Append(INITIAL, run, Classify(0));
    run := run + [Classify(0)];
    Append(INITIAL, run, SetKey(2, KeyRow(1, false)));
    run := run + [SetKey(2, KeyRow(1, false))];
    Append(INITIAL, run, Judge(0));
    run := run + [Judge(0)];
  }

  /** The condition is needed: if the name is rebound to another key and back
      between the first read and the write, the judgement was about the other
      key, and the comparison with the key read first passes. */
  lemma JudgementCanBeStale() returns (run: seq<Step>)
    ensures Legal(INITIAL, run) && Possible(Exec(INITIAL, run), Write(0))
    ensures Moves(Exec(INITIAL, run), Write(0), "n", 1, 3)
    ensures Exec(INITIAL, run).reqs[0].expected == Some(1) && LastSeen(Exec(INITIAL, run).reqs[0]) == Some(2)
  {
    run := WrongJudgement();
    run := WholeRegister(INITIAL, run, 2, "n", 1, 1);
    Append(INITIAL, run, Look(0));
    run := run + [Look(0)];
  }
}
