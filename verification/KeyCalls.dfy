/**
 Calls that find or make a key come back with it: calls run alone, step by step,
 and every call on a fair schedule on which no crash cuts a writer short.
 */
module KeyCalls {
  import opened Wrappers
  import opened KeyFile

  lemma {:induction false} EncodedLength(raw: seq<Byte>)
    ensures |Encode(raw)| == (|raw| + 2) / 3 * 4
    decreases |raw|
  {
    if |raw| >= 3 {
      EncodedLength(raw[3..]);
      assert |Group(raw)| == 4;
      assert (|raw| + 2) / 3 == (|raw[3..]| + 2) / 3 + 1;
    } else if |raw| >= 1 {
      assert |Encode(raw)| == 4 && (|raw| + 2) / 3 == 1;
    }
  }

  /** The length of a complete file. */
  const TEXT := 44

  lemma KeyTextLength(raw: Key)
    ensures |Encode(raw)| == TEXT
  {
    EncodedLength(raw);
    assert (KEY_BYTES + 2) / 3 * 4 == TEXT;
  }

  lemma WholeTextIsTheKey(raw: Key)
    ensures DecodeKey(Encode(raw)) == Some(raw)
  {
    OnlyTheWholeFileIsAKey(raw, |Encode(raw)|);
    assert Encode(raw)[..|Encode(raw)|] == Encode(raw);
  }

  predicate Ended(at: Proc) { at.Returned? || at.Raised? }

  /** A read returns exactly when the file holds a key, and it returns that key. */
  lemma ReadReturnsExactly(s: State, p: Pid)
    requires Enabled(s, Read(p))
    ensures Ended(After(s, Read(p)).procs[p]) <==> Published(s).Some?
    ensures Published(s).Some? ==>
              After(s, Read(p)).procs[p].Returned? && Some(After(s, Read(p)).procs[p].key) == Published(s)
  {
  }

  predicate ReturnedWith(s: State, p: Pid, key: seq<Byte>) {
    p in s.procs && s.procs[p].Returned? && s.procs[p].key == key
  }

  lemma StepFirst(s: State, step: Step, rest: seq<Step>)
    requires Enabled(s, step) && Feasible(After(s, step), rest)
    ensures Feasible(s, [step] + rest) && Final(s, [step] + rest) == Final(After(s, step), rest)
  {
    assert ([step] + rest)[1..] == rest;
  }

  /** A call with nothing in between, on a file that holds a key. */
  lemma AloneOnKeyFile(s: State, p: Pid)
    requires Published(s).Some? && p in s.procs && s.procs[p].Started?
    ensures
      var run := [CheckExists(p)] + [Read(p)];
      Feasible(s, run) && Final(s, run).file == s.file && ReturnedWith(Final(s, run), p, Published(s).value)
  {
    var s1 := After(s, CheckExists(p));
    ReadReturnsExactly(s1, p);
    StepFirst(s1, Read(p), []);
    assert [Read(p)] + [] == [Read(p)];
    StepFirst(s, CheckExists(p), [Read(p)]);
  }

  /** A call with nothing in between, in an empty directory, with links. */
  lemma AloneByLink(s: State, p: Pid, raw: Key)
    requires s.file.None? && p in s.procs && s.procs[p].Started?
    ensures
      var run := [CheckExists(p)] + ([Generate(p, raw)] + [Link(p)]);
      Feasible(s, run) && ReturnedWith(Final(s, run), p, raw) && Published(Final(s, run)) == Some(raw)
  {
    var s1 := After(s, CheckExists(p));
    var s2 := After(s1, Generate(p, raw));
    WholeTextIsTheKey(raw);
    StepFirst(s2, Link(p), []);
    assert [Link(p)] + [] == [Link(p)];
    StepFirst(s1, Generate(p, raw), [Link(p)]);
    StepFirst(s, CheckExists(p), [Generate(p, raw)] + [Link(p)]);
  }

  /** The file is written in any number of pieces. */
  function Writes(p: Pid, pieces: seq<nat>): seq<Step> {
    if pieces == [] then [CloseFile(p)] else [Write(p, pieces[0])] + Writes(p, pieces[1..])
  }

  function Sum(pieces: seq<nat>): nat { if pieces == [] then 0 else pieces[0] + Sum(pieces[1..]) }

  predicate Positive(pieces: seq<nat>) { forall i :: 0 <= i < |pieces| ==> 0 < pieces[i] }

  lemma {:induction false} WritesComplete(s: State, p: Pid, raw: Key, n: nat, pieces: seq<nat>)
    requires p in s.procs && s.procs[p] == Writing(raw, n) && Positive(pieces) && n + Sum(pieces) == TEXT
    requires n <= |Encode(raw)| && s.file == Some(Encode(raw)[..n])
    ensures
      var run := Writes(p, pieces);
      Feasible(s, run) && ReturnedWith(Final(s, run), p, raw) && Published(Final(s, run)) == Some(raw)
    decreases pieces
  {
    KeyTextLength(raw);
    if pieces == [] {
      assert Encode(raw)[..n] == Encode(raw);
      WholeTextIsTheKey(raw);
      StepFirst(s, CloseFile(p), []);
      assert [CloseFile(p)] + [] == [CloseFile(p)];
    } else {
      var s' := After(s, Write(p, pieces[0]));
      WritesComplete(s', p, raw, n + pieces[0], pieces[1..]);
      StepFirst(s, Write(p, pieces[0]), Writes(p, pieces[1..]));
    }
  }

  /** The same without links, however the text is cut into writes. */
  lemma AloneByFallback(s: State, p: Pid, raw: Key, pieces: seq<nat>)
    requires s.file.None? && p in s.procs && s.procs[p].Started? && Positive(pieces) && Sum(pieces) == TEXT
    ensures
      var run := [CheckExists(p)] + ([Generate(p, raw)] + ([LinkUnsupported(p)]
                 + ([CreateExclusive(p)] + Writes(p, pieces))));
      Feasible(s, run) && ReturnedWith(Final(s, run), p, raw) && Published(Final(s, run)) == Some(raw)
  {
    var create := [CreateExclusive(p)] + Writes(p, pieces);
    var s1 := After(s, CheckExists(p));
    var s2 := After(s1, Generate(p, raw));
    var s3 := After(s2, LinkUnsupported(p));
    assert Encode(raw)[..0] == "";
    WritesComplete(After(s3, CreateExclusive(p)), p, raw, 0, pieces);
    StepFirst(s3, CreateExclusive(p), Writes(p, pieces));
    StepFirst(s2, LinkUnsupported(p), create);
    StepFirst(s1, Generate(p, raw), [LinkUnsupported(p)] + create);
    StepFirst(s, CheckExists(p), [Generate(p, raw)] + ([LinkUnsupported(p)] + create));
  }

  // ---- on every fair schedule ---------------------------------------------------

  /** How many steps of its own a process has before it, waiting apart. */
  function Rank(at: Proc): nat {
    match at
    case Started => TEXT + 5
    case SawNoFile => TEXT + 4
    case Prepared(_) => TEXT + 3
    case NoLinks(_) => TEXT + 2
    case Writing(_, n) => if n <= TEXT then TEXT + 1 - n else 1
    case Reading => 1
    case Returned(_) => 0
    case Raised => 0
  }

  /** How far the file is from holding a key. */
  function Unwritten(s: State): nat {
    if Published(s).Some? then 0
    else if s.file.None? then TEXT + 2
    else if |s.file.value| <= TEXT then TEXT + 1 - |s.file.value| else 1
  }

  predicate Moves(run: seq<Step>, p: Pid) { exists i :: 0 <= i < |run| && run[i].p == p }

  /** A round: every process that is still under way takes at least one step, p
      neither crashes nor times out, and no crash cuts a writer short. */
  ghost predicate FairRound(s: State, run: seq<Step>, p: Pid)
    requires Feasible(s, run)
  {
    && (forall q :: q in s.procs && !Ended(s.procs[q]) ==> Moves(run, q))
    && !CutsShort(s, run) && Spared(run, p)
  }

  predicate Spared(run: seq<Step>, p: Pid) {
    forall i :: 0 <= i < |run| ==> run[i] != Crash(p) && run[i] != TimeOut(p)
  }

  /** Whoever is under way can move, other than by crashing. */
  lemma CanMove(s: State, p: Pid, raw: Key)
    requires KeyInv(s) && p in s.procs && !Ended(s.procs[p])
    ensures exists step :: Enabled(s, step) && step.p == p && !step.Crash? && !step.TimeOut?
  {
    assert Consistent(s, p);
    match s.procs[p]
    case Started => assert Enabled(s, CheckExists(p));
    case SawNoFile => assert Enabled(s, Generate(p, raw));
    case Prepared(_) => assert Enabled(s, Link(p));
    case NoLinks(_) => assert Enabled(s, CreateExclusive(p));
    case Writing(own, n) =>
      if n == |Encode(own)| { assert Enabled(s, CloseFile(p)); } else { assert Enabled(s, Write(p, 1)); }
    case Reading => assert Enabled(s, Read(p));
  }

  /** A step of p brings it nearer to its end, unless it reads an unfinished file. */
  lemma OwnStepAdvances(s: State, step: Step)
    requires KeyInv(s) && Enabled(s, step) && step.p in s.procs
    ensures
      var before, after := Rank(s.procs[step.p]), Rank(After(s, step).procs[step.p]);
      if step.Read? && Published(s).None? then after == before else after < before
  {
    assert Consistent(s, step.p);
    var at := s.procs[step.p];
    if at.Writing? { KeyTextLength(at.raw); }
  }

  /** The file never gets farther from holding a key, and a writer's step on an
      unfinished file brings it nearer. */
  lemma FileAdvances(s: State, step: Step)
    requires KeyInv(s) && Enabled(s, step)
    ensures Unwritten(After(s, step)) <= Unwritten(s)
    ensures Published(s).None? && step.p in s.procs && s.procs[step.p].Writing?
            && !(step.Crash? && s.procs[step.p].n < |Encode(s.procs[step.p].raw)|) ==>
              Unwritten(After(s, step)) < Unwritten(s)
  {
    StepKeepsKeyInv(s, step);
    if step.p in s.procs {
      assert Consistent(s, step.p);
      var at := s.procs[step.p];
      if at.Writing? {
        KeyTextLength(at.raw);
        OnlyTheWholeFileIsAKey(at.raw, at.n);
      } else if at.Prepared? {
        WholeTextIsTheKey(at.raw);
      }
    }
  }

  lemma {:induction false} FileAdvancesOverRun(s: State, run: seq<Step>)
    requires KeyInv(s) && Feasible(s, run)
    ensures Unwritten(Final(s, run)) <= Unwritten(s)
    decreases run
  {
    if run == [] {
    } else {
      FileAdvances(s, run[0]);
      StepKeepsKeyInv(s, run[0]);
      FileAdvancesOverRun(After(s, run[0]), run[1..]);
    }
  }

  lemma {:induction false} RankFallsOverRun(s: State, run: seq<Step>, p: Pid)
    requires KeyInv(s) && Feasible(s, run) && p in s.procs
    ensures p in Final(s, run).procs && Rank(Final(s, run).procs[p]) <= Rank(s.procs[p])
    decreases run
  {
    if run == [] {
    } else {
      if run[0].p == p { OwnStepAdvances(s, run[0]); }
      StepKeepsKeyInv(s, run[0]);
      RankFallsOverRun(After(s, run[0]), run[1..], p);
    }
  }

  lemma MovesLater(run: seq<Step>, p: Pid)
    requires Moves(run, p) && run[0].p != p
    ensures Moves(run[1..], p)
  {
    var i :| 0 <= i < |run| && run[i].p == p;
    assert run[1..][i - 1].p == p;
  }

  /** Somebody is writing the file that p finds unfinished, and moves in this run. */
  ghost predicate WriterMoves(s: State, run: seq<Step>) {
    s.file.Some? && Published(s).None? ==> exists w :: w in s.procs && s.procs[w].Writing? && Moves(run, w)
  }

  /** The writer's first step in the run brings the file nearer. */
  lemma {:induction false} WriterAdvances(s: State, run: seq<Step>, w: Pid)
    requires KeyInv(s) && Feasible(s, run) && !CutsShort(s, run)
    requires Published(s).None? && w in s.procs && s.procs[w].Writing? && Moves(run, w)
    ensures Unwritten(Final(s, run)) < Unwritten(s)
    decreases run
  {
    var s' := After(s, run[0]);
    FileAdvances(s, run[0]);
    StepKeepsKeyInv(s, run[0]);
    FileAdvancesOverRun(s', run[1..]);
    if run[0].p != w && Published(s').None? {
      MovesLater(run, w);
      WriterAdvances(s', run[1..], w);
    }
  }

  /** In a run in which p moves, and the writer too if there is one, p or the file
      gets nearer to the end. */
  lemma {:induction false} RunAdvances(s: State, run: seq<Step>, p: Pid)
    requires KeyInv(s) && Feasible(s, run) && !CutsShort(s, run)
    requires p in s.procs && Moves(run, p) && WriterMoves(s, run)
    ensures p in Final(s, run).procs
    ensures Rank(Final(s, run).procs[p]) < Rank(s.procs[p]) || Unwritten(Final(s, run)) < Unwritten(s)
    decreases run
  {
    var s' := After(s, run[0]);
    FileAdvances(s, run[0]);
    StepKeepsKeyInv(s, run[0]);
    FileAdvancesOverRun(s', run[1..]);
    RankFallsOverRun(s', run[1..], p);
    if run[0].p == p {
      OwnStepAdvances(s, run[0]);
      if run[0].Read? && Published(s).None? {
        assert Consistent(s, p);
        var w :| w in s.procs && s.procs[w].Writing? && Moves(run, w);
        WriterAdvances(s, run, w);
      }
    } else if Unwritten(s') == Unwritten(s) {
      MovesLater(run, p);
      if s'.file.Some? && Published(s').None? { StillWriting(s, run); }
      RunAdvances(s', run[1..], p);
    }
  }

  /** A step that brings the file no nearer leaves its writer at work. */
  lemma StillWriting(s: State, run: seq<Step>)
    requires KeyInv(s) && Feasible(s, run) && !CutsShort(s, run) && WriterMoves(s, run) && run != []
    requires
      var s' := After(s, run[0]);
      Unwritten(s') == Unwritten(s) && s'.file.Some? && Published(s').None?
    ensures WriterMoves(After(s, run[0]), run[1..])
  {
    FileAdvances(s, run[0]);
    StepKeepsKeyInv(s, run[0]);
    var w :| w in s.procs && s.procs[w].Writing? && Moves(run, w);
    assert run[0].p != w;
    MovesLater(run, w);
  }

  ghost predicate FairRounds(s: State, rounds: seq<seq<Step>>, p: Pid)
    decreases rounds
  {
    rounds == [] ||
    (Feasible(s, rounds[0]) && FairRound(s, rounds[0], p) && FairRounds(Final(s, rounds[0]), rounds[1..], p))
  }

  ghost function FinalOf(s: State, rounds: seq<seq<Step>>, p: Pid): State
    requires FairRounds(s, rounds, p)
    decreases rounds
  {
    if rounds == [] then s else FinalOf(Final(s, rounds[0]), rounds[1..], p)
  }

  lemma {:induction false} SparedNeverRaises(s: State, run: seq<Step>, p: Pid)
    requires Feasible(s, run) && Spared(run, p) && p in s.procs && !s.procs[p].Raised?
    ensures p in Final(s, run).procs && !Final(s, run).procs[p].Raised?
    decreases run
  {
    if run == [] {
    } else {
      assert run[0] != Crash(p) && run[0] != TimeOut(p);
      assert forall i :: 0 <= i < |run[1..]| ==> run[1..][i] == run[i + 1];
      SparedNeverRaises(After(s, run[0]), run[1..], p);
    }
  }

  lemma FairRoundAdvances(s: State, run: seq<Step>, p: Pid)
    requires KeyInv(s) && !Abandoned(s) && Feasible(s, run) && FairRound(s, run, p)
    requires p in s.procs && !Ended(s.procs[p])
    ensures p in Final(s, run).procs
    ensures Rank(Final(s, run).procs[p]) + Unwritten(Final(s, run)) < Rank(s.procs[p]) + Unwritten(s)
  {
    if s.file.Some? && Published(s).None? {
      var w :| w in s.procs && s.procs[w].Writing?;
      assert Moves(run, w);
    }
    RunAdvances(s, run, p);
    FileAdvancesOverRun(s, run);
    RankFallsOverRun(s, run, p);
  }

  /** In a run where no crash cuts a writer short, every process that is given its
      steps returns, with the key in the file: after at most as many rounds as are
      left to it and to the file, whatever the schedule within the rounds. */
  lemma {:induction false} EveryoneReturns(s: State, rounds: seq<seq<Step>>, p: Pid)
    requires KeyInv(s) && !Abandoned(s) && FairRounds(s, rounds, p)
    requires p in s.procs && !s.procs[p].Raised? && |rounds| >= Rank(s.procs[p]) + Unwritten(s)
    ensures
      var s' := FinalOf(s, rounds, p);
      Published(s').Some? && ReturnedWith(s', p, Published(s').value)
    decreases rounds
  {
    assert Consistent(s, p);
    if rounds == [] {
    } else {
      var s' := Final(s, rounds[0]);
      PublishedForever(s, rounds[0]);
      AbandonedExactly(s, rounds[0]);
      SparedNeverRaises(s, rounds[0], p);
      RankFallsOverRun(s, rounds[0], p);
      FileAdvancesOverRun(s, rounds[0]);
      if !Ended(s.procs[p]) { FairRoundAdvances(s, rounds[0], p); }
      EveryoneReturns(s', rounds[1..], p);
    }
  }
}
