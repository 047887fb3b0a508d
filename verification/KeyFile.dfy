/**
 First-boot publication of the key file. Any number of processes check for the
 file, generate a key, and race to publish it: by hard link, or by exclusive
 create on file systems without links, where readers may see it half written.
 */
module KeyFile {
  import opened Wrappers

  type Byte = n: int | 0 <= n < 256

  const KEY_BYTES := 32

  // ---- base64, section 5 of RFC 4648 ----------------------------------------

  function Digit(n: int): char
    requires 0 <= n < 64
  {
    if n < 26 then 'A' + n as char
    else if n < 52 then 'a' + (n - 26) as char
    else if n < 62 then '0' + (n - 52) as char
    else if n == 62 then '-' else '_'
  }

  /** The decoder accepts the URL-safe and the standard alphabet. */
  function Value(c: char): (v: Option<int>)
    ensures v.Some? ==> 0 <= v.value < 64
  {
    if 'A' <= c <= 'Z' then Some(c as int - 'A' as int)
    else if 'a' <= c <= 'z' then Some(c as int - 'a' as int + 26)
    else if '0' <= c <= '9' then Some(c as int - '0' as int + 52)
    else if c == '-' || c == '+' then Some(62)
    else if c == '_' || c == '/' then Some(63)
    else None
  }

  lemma DigitValue(n: int)
    requires 0 <= n < 64
    ensures Value(Digit(n)) == Some(n) && Digit(n) != '=' && !IsSpace(Digit(n))
  {
  }

  /** The digits that carry a first, a second and a third byte; `low` holds the
      leading bits of the byte that follows. */
  function First(b: Byte, low: int): string
    requires 0 <= low < 16
  {
    [Digit(b / 4), Digit(b % 4 * 16 + low)]
  }

  function Second(b: Byte, low: int): string
    requires 0 <= low < 4
  {
    [Digit(b % 16 * 4 + low)]
  }

  function Third(b: Byte): string { [Digit(b % 64)] }

  function Encode(raw: seq<Byte>): string {
    if raw == [] then ""
    else if |raw| == 1 then First(raw[0], 0) + (['='] + (['='] + ""))
    else if |raw| == 2 then First(raw[0], raw[1] / 16) + (Second(raw[1], 0) + (['='] + ""))
    else Group(raw) + Encode(raw[3..])
  }

  function Group(raw: seq<Byte>): string
    requires |raw| >= 3
  {
    First(raw[0], raw[1] / 16) + (Second(raw[1], raw[2] / 64) + Third(raw[2]))
  }

  /** Position in the current group of four, and the bits left over from it. */
  datatype Quad = Q0 | Q1(left6: int) | Q2(left4: int) | Q3(left2: int)
  {
    predicate Valid() {
      && (Q1? ==> 0 <= left6 < 64) && (Q2? ==> 0 <= left4 < 16) && (Q3? ==> 0 <= left2 < 4)
    }

    function Pos(): nat { match this case Q0 => 0 case Q1(_) => 1 case Q2(_) => 2 case Q3(_) => 3 }
  }

  /** The lenient decoder: unknown characters are skipped, a complete padding
      ends the input, an unfinished group is an error. */
  function Scan(s: string, q: Quad, pads: nat): Option<seq<Byte>>
    requires q.Valid()
  {
    if s == "" then if q.Q0? then Some([]) else None
    else if s[0] == '=' then
      if q.Pos() >= 2 && q.Pos() + pads + 1 >= 4 then Some([])
      else Scan(s[1..], q, if q.Pos() >= 2 then pads + 1 else pads)
    else
      var v := Value(s[0]);
      if v.None? then Scan(s[1..], q, pads)
      else
        match q
        case Q0 => Scan(s[1..], Q1(v.value), 0)
        case Q1(l) => Cons(l * 4 + v.value / 16, Scan(s[1..], Q2(v.value % 16), 0))
        case Q2(l) => Cons(l * 16 + v.value / 4, Scan(s[1..], Q3(v.value % 4), 0))
        case Q3(l) => Cons(l * 64 + v.value, Scan(s[1..], Q0, 0))
  }

  function Cons(b: Byte, rest: Option<seq<Byte>>): Option<seq<Byte>> {
    if rest.Some? then Some([b] + rest.value) else None
  }

  predicate IsSpace(c: char) { c == ' ' || c == '\t' || c == '\n' || c == '\r' || c == '\U{000B}' || c == '\U{000C}' }

  function Strip(s: string): string
    decreases |s|
  {
    if s == "" then ""
    else if IsSpace(s[0]) then Strip(s[1..])
    else if IsSpace(s[|s| - 1]) then Strip(s[..|s| - 1])
    else s
  }

  /** _decode_key. */
  function DecodeKey(data: string): (key: Option<seq<Byte>>)
    ensures key.Some? ==> |key.value| == KEY_BYTES
  {
    var raw := Scan(Strip(data), Q0, 0);
    if raw.Some? && |raw.value| == KEY_BYTES then raw else None
  }

  /** The two alphabets, and the padding. */
  predicate Base64Char(c: char) {
    'A' <= c <= 'Z' || 'a' <= c <= 'z' || '0' <= c <= '9' || c in ['-', '+', '_', '/', '=']
  }

  function Cleaned(s: string): string {
    if s == "" then "" else (if Base64Char(s[0]) then [s[0]] else "") + Cleaned(s[1..])
  }

  ghost predicate ScanAlike(a: string, b: string) {
    forall q: Quad, pads: nat :: q.Valid() ==> Scan(a, q, pads) == Scan(b, q, pads)
  }

  lemma AlikeAfter(c: char, a: string, b: string)
    requires ScanAlike(a, b)
    ensures ScanAlike([c] + a, [c] + b)
  {
    assert ([c] + a)[1..] == a && ([c] + b)[1..] == b;
    forall q: Quad, pads: nat | q.Valid() ensures Scan([c] + a, q, pads) == Scan([c] + b, q, pads) {
    }
  }

  lemma JunkFirst(c: char, t: string)
    requires !Base64Char(c)
    ensures ScanAlike(t, [c] + t)
  {
    assert ([c] + t)[1..] == t && Value(c).None?;
  }

  /** Other characters anywhere in the file make no difference. */
  lemma {:induction false} JunkIsSkipped(s: string)
    ensures ScanAlike(Cleaned(s), s)
    decreases s
  {
    if s == "" {
    } else {
      var rest := s[1..];
      JunkIsSkipped(rest);
      assert s == [s[0]] + rest;
      if Base64Char(s[0]) {
        AlikeAfter(s[0], Cleaned(rest), rest);
      } else {
        JunkFirst(s[0], rest);
        assert Cleaned(s) == "" + Cleaned(rest) == Cleaned(rest);
      }
    }
  }

  /** One step of the decoder on an encoded digit. */
  lemma DigitScans(d: int, t: string, q: Quad, pads: nat)
    requires 0 <= d < 64 && q.Valid()
    ensures Scan([Digit(d)] + t, q, pads) ==
            match q
            case Q0 => Scan(t, Q1(d), 0)
            case Q1(l) => Cons(l * 4 + d / 16, Scan(t, Q2(d % 16), 0))
            case Q2(l) => Cons(l * 16 + d / 4, Scan(t, Q3(d % 4), 0))
            case Q3(l) => Cons(l * 64 + d, Scan(t, Q0, 0))
  {
    DigitValue(d);
    assert ([Digit(d)] + t)[1..] == t;
  }

  lemma FirstByteScans(b: Byte, low: int, t: string)
    requires 0 <= low < 16
    ensures Scan(First(b, low) + t, Q0, 0) == Cons(b, Scan(t, Q2(low), 0))
  {
    var d0, d1 := b / 4, b % 4 * 16 + low;
    assert First(b, low) + t == [Digit(d0)] + ([Digit(d1)] + t);
    DigitScans(d0, [Digit(d1)] + t, Q0, 0);
    DigitScans(d1, t, Q1(d0), 0);
    assert d0 * 4 + d1 / 16 == b && d1 % 16 == low;
  }

  lemma SecondByteScans(b: Byte, low: int, t: string)
    requires 0 <= low < 4
    ensures Scan(Second(b, low) + t, Q2(b / 16), 0) == Cons(b, Scan(t, Q3(low), 0))
  {
    var d := b % 16 * 4 + low;
    DigitScans(d, t, Q2(b / 16), 0);
    assert b / 16 * 16 + d / 4 == b && d % 4 == low;
  }

  lemma ThirdByteScans(b: Byte, t: string)
    ensures Scan(Third(b) + t, Q3(b / 64), 0) == Cons(b, Scan(t, Q0, 0))
  {
    DigitScans(b % 64, t, Q3(b / 64), 0);
    assert b / 64 * 64 + b % 64 == b;
  }

  lemma GroupScans(raw: seq<Byte>, rest: string)
    requires |raw| >= 3
    ensures Scan(Group(raw) + rest, Q0, 0)
            == (var r := Scan(rest, Q0, 0); if r.Some? then Some(raw[..3] + r.value) else None)
  {
    var a, b, c := First(raw[0], raw[1] / 16), Second(raw[1], raw[2] / 64), Third(raw[2]);
    assert Group(raw) + rest == a + (b + (c + rest));
    FirstByteScans(raw[0], raw[1] / 16, b + (c + rest));
    SecondByteScans(raw[1], raw[2] / 64, c + rest);
    ThirdByteScans(raw[2], rest);
    var r := Scan(rest, Q0, 0);
    if r.Some? {
      assert [raw[0]] + ([raw[1]] + ([raw[2]] + r.value)) == raw[..3] + r.value;
    }
  }

  /** Decoding undoes encoding, for every byte string. */
  lemma {:induction false} RoundTrip(raw: seq<Byte>)
    ensures Scan(Encode(raw), Q0, 0) == Some(raw)
    decreases |raw|
  {
    if |raw| >= 3 {
      RoundTrip(raw[3..]);
      GroupScans(raw, Encode(raw[3..]));
      assert raw[..3] + raw[3..] == raw;
    } else if |raw| == 2 {
      PairScans(raw);
    } else if |raw| == 1 {
      SingleScans(raw);
    }
  }

  /** Padding that completes a group ends the input. */
  lemma PadScans(t: string, q: Quad, pads: nat)
    requires q.Valid() && q.Pos() >= 2
    ensures Scan(['='] + t, q, pads)
            == if q.Pos() + pads + 1 >= 4 then Some([]) else Scan(t, q, pads + 1)
  {
    assert (['='] + t)[1..] == t;
  }

  lemma SingleScans(raw: seq<Byte>)
    requires |raw| == 1
    ensures Scan(Encode(raw), Q0, 0) == Some(raw)
  {
    FirstByteScans(raw[0], 0, ['='] + (['='] + ""));
    PadScans(['='] + "", Q2(0), 0);
    PadScans("", Q2(0), 1);
    assert raw == [raw[0]] + [];
  }

  lemma PairScans(raw: seq<Byte>)
    requires |raw| == 2
    ensures Scan(Encode(raw), Q0, 0) == Some(raw)
  {
    FirstByteScans(raw[0], raw[1] / 16, Second(raw[1], 0) + (['='] + ""));
    SecondByteScans(raw[1], 0, ['='] + "");
    PadScans("", Q3(0), 0);
    assert raw == [raw[0]] + ([raw[1]] + []);
  }

  /** No proper prefix of an encoding decodes to as many bytes. */
  lemma {:induction false} PrefixIsShort(raw: seq<Byte>, n: nat)
    requires n < |Encode(raw)|
    ensures
      var r := Scan(Encode(raw)[..n], Q0, 0);
      r.Some? ==> |r.value| < |raw|
    decreases |raw|
  {
    var e := Encode(raw);
    if |raw| >= 3 && n >= 4 {
      PrefixIsShort(raw[3..], n - 4);
      GroupScans(raw, Encode(raw[3..])[..n - 4]);
      assert e[..n] == Group(raw) + Encode(raw[3..])[..n - 4];
    } else {
      UnfinishedGroup(raw, n);
    }
  }

  /** A first group cut short is an error, unless nothing of it is left. */
  lemma UnfinishedGroup(raw: seq<Byte>, n: nat)
    requires n < 4 && n < |Encode(raw)|
    ensures n > 0 ==> Scan(Encode(raw)[..n], Q0, 0).None?
    ensures raw != []
  {
    var s := Encode(raw)[..n];
    var low := if |raw| == 1 then 0 else raw[1] / 16;
    if n == 1 {
      assert s == [Digit(raw[0] / 4)] + "";
      DigitScans(raw[0] / 4, "", Q0, 0);
    } else if n >= 2 {
      assert s == First(raw[0], low) + s[2..];
      FirstByteScans(raw[0], low, s[2..]);
      if n == 3 {
        if |raw| == 1 {
          assert s[2..] == ['='] + "";
          PadScans("", Q2(0), 0);
        } else {
          var top := if |raw| == 2 then 0 else raw[2] / 64;
          assert s[2..] == Second(raw[1], top) + "";
          SecondByteScans(raw[1], top, "");
        }
      }
    }
  }

  // ---- the text as the file holds it --------------------------------------

  predicate SpaceFree(s: string) { forall i :: 0 <= i < |s| ==> !IsSpace(s[i]) }

  lemma {:induction false} EncodingIsSpaceFree(raw: seq<Byte>)
    ensures SpaceFree(Encode(raw))
    decreases |raw|
  {
    if |raw| >= 3 {
      EncodingIsSpaceFree(raw[3..]);
      var low := raw[1] % 16 * 4 + raw[2] / 64;
      DigitValue(raw[0] / 4);
      DigitValue(raw[0] % 4 * 16 + raw[1] / 16);
      DigitValue(low);
      DigitValue(raw[2] % 64);
    }
  }

  /** A complete file yields its key; a half-written one never yields any. */
  lemma OnlyTheWholeFileIsAKey(raw: seq<Byte>, n: nat)
    requires |raw| == KEY_BYTES && n <= |Encode(raw)|
    ensures DecodeKey(Encode(raw)[..n]) == if n == |Encode(raw)| then Some(raw) else None
  {
    var part := Encode(raw)[..n];
    EncodingIsSpaceFree(raw);
    assert SpaceFree(part) && Strip(part) == part;
    if n == |Encode(raw)| {
      assert part == Encode(raw);
      RoundTrip(raw);
    } else {
      PrefixIsShort(raw, n);
    }
  }

  // ---- the processes -------------------------------------------------------

  type Pid = nat

  type Key = raw: seq<Byte> | |raw| == KEY_BYTES witness seq(KEY_BYTES, _ => 0)

  /** Where a process is in _load_or_create_key. */
  datatype Proc =
    | Started
    | SawNoFile
    | Prepared(raw: Key)            // own key complete in a private temporary file
    | NoLinks(raw: Key)             // link() failed, and not because the target exists
    | Writing(raw: Key, n: nat)     // created the file; n characters are in it
    | Reading                       // _read_key's retry loop
    | Returned(key: Key)
    | Raised                        // corrupt-file error, or crashed

  datatype State = State(file: Option<string>, procs: map<Pid, Proc>)

  datatype Step =
    | Spawn(p: Pid)
    | CheckExists(p: Pid)
    | Generate(p: Pid, raw: Key)
    | Link(p: Pid)
    | LinkUnsupported(p: Pid)
    | CreateExclusive(p: Pid)
    | Write(p: Pid, more: nat)
    | CloseFile(p: Pid)
    | Read(p: Pid)
    | TimeOut(p: Pid)
    | Crash(p: Pid)

  /** The process takes this step from where it is; the rest is the file's
      answer, given in After. */
  predicate Enabled(s: State, step: Step) {
    if step.Spawn? then step.p !in s.procs
    else
      step.p in s.procs &&
      var at := s.procs[step.p];
      match step
      case Spawn(_) => true
      case CheckExists(_) => at.Started?
      case Generate(_, _) => at.SawNoFile?
      case Link(_) => at.Prepared?
      case LinkUnsupported(_) => at.Prepared?
      case CreateExclusive(_) => at.NoLinks?
      case Write(_, more) => at.Writing? && 0 < more && at.n + more <= |Encode(at.raw)|
      case CloseFile(_) => at.Writing? && at.n == |Encode(at.raw)|
      case Read(_) => at.Reading?
      case TimeOut(_) => at.Reading? && (s.file.None? || DecodeKey(s.file.value).None?)
      case Crash(_) => !at.Returned? && !at.Raised?
  }

  function After(s: State, step: Step): State
    requires Enabled(s, step)
  {
    match step
    case Spawn(p) => At(s, p, Started)
    case CheckExists(p) => At(s, p, if s.file.Some? then Reading else SawNoFile)
    case Generate(p, raw) => At(s, p, Prepared(raw))
    case Link(p) =>
      if s.file.Some? then At(s, p, Reading)
      else At(s.(file := Some(Encode(s.procs[p].raw))), p, Returned(s.procs[p].raw))
    case LinkUnsupported(p) => At(s, p, NoLinks(s.procs[p].raw))
    case CreateExclusive(p) =>
      if s.file.Some? then At(s, p, Reading)
      else At(s.(file := Some("")), p, Writing(s.procs[p].raw, 0))
    case Write(p, more) =>
      var at := s.procs[p];
      At(s.(file := Some(Encode(at.raw)[..at.n + more])), p, Writing(at.raw, at.n + more))
    case CloseFile(p) => At(s, p, Returned(s.procs[p].raw))
    case Read(p) =>
      if s.file.Some? && DecodeKey(s.file.value).Some? then At(s, p, Returned(DecodeKey(s.file.value).value))
      else s
    case TimeOut(p) => At(s, p, Raised)
    case Crash(p) => At(s, p, Raised)
  }

  function At(s: State, p: Pid, at: Proc): State { s.(procs := s.procs[p := at]) }

  /** The key the file holds now, if it holds one. */
  function Published(s: State): Option<seq<Byte>> {
    if s.file.Some? then DecodeKey(s.file.value) else None
  }

  /** One process is where the file says it can be. */
  ghost predicate Consistent(s: State, p: Pid)
    requires p in s.procs
  {
    match s.procs[p]
    case Reading => s.file.Some?
    case Writing(raw, n) =>
      && n <= |Encode(raw)| && s.file == Some(Encode(raw)[..n])
      && forall q :: q in s.procs && s.procs[q].Writing? ==> q == p
    case Returned(key) => Published(s) == Some(key)
    case _ => true
  }

  ghost predicate KeyInv(s: State) { forall p :: p in s.procs ==> Consistent(s, p) }

  /** A step never takes a readable key away, and a process that returns holds
      the key the file then has. */
  lemma StepKeepsKey(s: State, step: Step)
    requires Enabled(s, step) && (step.p in s.procs ==> Consistent(s, step.p))
    ensures Published(s).Some? ==> Published(After(s, step)) == Published(s)
    ensures s.file.Some? ==> After(s, step).file.Some?
    ensures
      var at := After(s, step).procs[step.p];
      at.Returned? ==> Published(After(s, step)) == Some(at.key)
  {
    var at := if step.p in s.procs then s.procs[step.p] else Started;
    if at.Writing? {
      OnlyTheWholeFileIsAKey(at.raw, at.n);
    } else if at.Prepared? {
      OnlyTheWholeFileIsAKey(at.raw, |Encode(at.raw)|);
      assert Encode(at.raw)[..|Encode(at.raw)|] == Encode(at.raw);
    }
  }

  lemma StepKeepsOthers(s: State, step: Step, p: Pid)
    requires KeyInv(s) && Enabled(s, step) && p in s.procs && p != step.p
    requires Published(s).Some? ==> Published(After(s, step)) == Published(s)
    ensures Consistent(After(s, step), p)
  {
    assert Consistent(s, p);
    assert step.p in s.procs ==> Consistent(s, step.p);
  }

  lemma StepKeepsOwn(s: State, step: Step)
    requires KeyInv(s) && Enabled(s, step)
    requires
      var at := After(s, step).procs[step.p];
      at.Returned? ==> Published(After(s, step)) == Some(at.key)
    ensures Consistent(After(s, step), step.p)
  {
    assert step.p in s.procs ==> Consistent(s, step.p);
    if step.CreateExclusive? {
      assert Encode(s.procs[step.p].raw)[..0] == "";
      assert forall q :: q in s.procs ==> Consistent(s, q);
    }
  }

  lemma StepKeepsKeyInv(s: State, step: Step)
    requires KeyInv(s) && Enabled(s, step)
    ensures KeyInv(After(s, step))
    ensures Published(s).Some? ==> Published(After(s, step)) == Published(s)
  {
    var s' := After(s, step);
    assert step.p in s.procs ==> Consistent(s, step.p);
    StepKeepsKey(s, step);
    StepKeepsOwn(s, step);
    forall p | p in s'.procs
      ensures Consistent(s', p)
    {
      if p != step.p { StepKeepsOthers(s, step, p); }
    }
  }

  ghost predicate Feasible(s: State, run: seq<Step>)
    decreases run
  {
    run == [] || (Enabled(s, run[0]) && Feasible(After(s, run[0]), run[1..]))
  }

  ghost function Final(s: State, run: seq<Step>): State
    requires Feasible(s, run)
    decreases run
  {
    if run == [] then s else Final(After(s, run[0]), run[1..])
  }

  /** A key, once readable from the file, is what the file holds for ever. */
  lemma {:induction false} PublishedForever(s: State, run: seq<Step>)
    requires KeyInv(s) && Feasible(s, run)
    ensures KeyInv(Final(s, run))
    ensures Published(s).Some? ==> Published(Final(s, run)) == Published(s)
    decreases run
  {
    if run == [] {
    } else {
      StepKeepsKeyInv(s, run[0]);
      PublishedForever(After(s, run[0]), run[1..]);
    }
  }

  /** Any number of processes, started at any time, on a directory with or
      without an old key file: all that return hold the same key, and so does
      every process that returns later. */
  lemma KeyAgreement(file: Option<string>, run: seq<Step>, later: seq<Step>, p: Pid, q: Pid)
    requires Feasible(State(file, map[]), run)
    requires Feasible(Final(State(file, map[]), run), later)
    requires
      var s, s' := Final(State(file, map[]), run), Final(Final(State(file, map[]), run), later);
      p in s.procs && s.procs[p].Returned? && q in s'.procs && s'.procs[q].Returned?
    ensures
      var s, s' := Final(State(file, map[]), run), Final(Final(State(file, map[]), run), later);
      s.procs[p].key == s'.procs[q].key
  {
    var s := Final(State(file, map[]), run);
    PublishedForever(State(file, map[]), run);
    PublishedForever(s, later);
    assert Consistent(s, p) && Consistent(Final(s, later), q);
  }

  // ---- what the fallback costs ----------------------------------------------

  predicate LinksWork(run: seq<Step>) { forall i :: 0 <= i < |run| ==> !run[i].LinkUnsupported? }

  /** Nobody is on the fallback path, and a file that exists is complete. */
  ghost predicate Atomic(s: State) {
    && (forall p :: p in s.procs ==> !s.procs[p].NoLinks? && !s.procs[p].Writing?)
    && (s.file.Some? ==> Published(s).Some?)
  }

  /** With hard links no half-written file is ever visible: each read finds the
      key at once, and the corrupt-file error cannot be raised. */
  lemma {:induction false} LinkedFilesAreComplete(s: State, run: seq<Step>, p: Pid)
    requires KeyInv(s) && Atomic(s) && Feasible(s, run) && LinksWork(run)
    ensures Atomic(Final(s, run))
    ensures !Enabled(Final(s, run), TimeOut(p))
    decreases run
  {
    if run == [] {
      assert p in s.procs ==> Consistent(s, p);
    } else {
      StepKeepsKeyInv(s, run[0]);
      var p0 := run[0].p;
      if run[0].Link? {
        var raw := s.procs[p0].raw;
        OnlyTheWholeFileIsAKey(raw, |Encode(raw)|);
        assert Encode(raw)[..|Encode(raw)|] == Encode(raw);
      }
      LinkedFilesAreComplete(After(s, run[0]), run[1..], p);
    }
  }

  /** The file exists, holds no key, and nobody is writing it. */
  ghost predicate Abandoned(s: State) {
    s.file.Some? && Published(s).None? && forall p :: p in s.procs ==> !s.procs[p].Writing?
  }

  /** A crash during an exclusive-create write is final: no process returns
      again, whoever is started later. */
  lemma {:induction false} AbandonedForever(s: State, run: seq<Step>, p: Pid)
    requires KeyInv(s) && Abandoned(s) && Feasible(s, run)
    ensures Abandoned(Final(s, run))
    ensures p in Final(s, run).procs ==> !Final(s, run).procs[p].Returned?
    decreases run
  {
    if run == [] {
      assert p in s.procs ==> Consistent(s, p);
    } else {
      StepKeepsKeyInv(s, run[0]);
      AbandonedForever(After(s, run[0]), run[1..], p);
    }
  }

  /** A crash abandons the file exactly when it hits the writer before the last
      character. */
  lemma CrashAbandonsExactly(s: State, p: Pid)
    requires KeyInv(s) && Enabled(s, Crash(p)) && !Abandoned(s)
    ensures Abandoned(After(s, Crash(p)))
       <==> s.procs[p].Writing? && s.procs[p].n < |Encode(s.procs[p].raw)|
  {
    var s' := After(s, Crash(p));
    assert Consistent(s, p);
    if s.procs[p].Writing? {
      OnlyTheWholeFileIsAKey(s.procs[p].raw, s.procs[p].n);
      assert forall q :: q in s'.procs && s'.procs[q].Writing? ==> q in s.procs && q == p;
    } else if s.file.Some? && Published(s).None? {
      var q :| q in s.procs && s.procs[q].Writing?;
      assert q in s'.procs && s'.procs[q].Writing?;
    }
  }

  /** Some crash of the run hits the fallback's writer before its last character. */
  ghost predicate CutsShort(s: State, run: seq<Step>)
    requires Feasible(s, run)
    decreases run
  {
    run != [] &&
    ((run[0].Crash? && s.procs[run[0].p].Writing? && s.procs[run[0].p].n < |Encode(s.procs[run[0].p].raw)|)
     || CutsShort(After(s, run[0]), run[1..]))
  }

  lemma OthersAbandonNothing(s: State, step: Step)
    requires KeyInv(s) && Enabled(s, step) && !Abandoned(s) && !step.Crash?
    ensures !Abandoned(After(s, step))
  {
    var s' := After(s, step);
    StepKeepsKeyInv(s, step);
    assert step.p in s'.procs && Consistent(s', step.p);
    if step.Link? && s.file.None? {
      OnlyTheWholeFileIsAKey(s.procs[step.p].raw, |Encode(s.procs[step.p].raw)|);
      assert Encode(s.procs[step.p].raw)[..|Encode(s.procs[step.p].raw)|] == Encode(s.procs[step.p].raw);
    } else if s.file.Some? && Published(s).None? {
      var q :| q in s.procs && s.procs[q].Writing?;
      assert q in s'.procs && (q != step.p ==> s'.procs[q].Writing?);
    }
  }

  /** Over any run the file ends up abandoned if and only if it was so from the
      start, or some crash cut a writer of the fallback short. */
  lemma {:induction false} AbandonedExactly(s: State, run: seq<Step>)
    requires KeyInv(s) && Feasible(s, run)
    ensures Abandoned(Final(s, run)) <==> Abandoned(s) || CutsShort(s, run)
    decreases run
  {
    if run == [] {
    } else if Abandoned(s) {
      AbandonedForever(s, run, run[0].p);
    } else {
      var s' := After(s, run[0]);
      StepKeepsKeyInv(s, run[0]);
      if run[0].Crash? {
        CrashAbandonsExactly(s, run[0].p);
      } else {
        OthersAbandonNothing(s, run[0]);
      }
      if Abandoned(s') {
        AbandonedForever(s', run[1..], run[0].p);
      } else {
        AbandonedExactly(s', run[1..]);
      }
    }
  }
}
