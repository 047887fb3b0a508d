/**
 The worker's on-disk outbox: one JSON text per line, appended when a result
 post fails for a transient reason, replayed oldest first. The file is modelled
 as its text; calls do not overlap and the disk does not fail.
 */
module Outbox {
  import opened Wrappers

  // ---- the text of the file -------------------------------------------------

  /** Where str.splitlines() ends a line. */
  predicate IsBreak(c: char) {
    || c == '\n' || c == '\r' || c == '\U{000B}' || c == '\U{000C}' || '\U{001C}' <= c <= '\U{001E}'
    || c == '\U{0085}' || c == '\U{2028}' || c == '\U{2029}'
  }

  predicate IsSpace(c: char) {
    || IsBreak(c) || c == ' ' || c == '\t' || c == '\U{001F}' || c == '\U{00A0}' || c == '\U{1680}'
    || '\U{2000}' <= c <= '\U{200A}' || c == '\U{202F}' || c == '\U{205F}' || c == '\U{3000}'
  }

  predicate OneLine(s: string) { forall i :: 0 <= i < |s| ==> !IsBreak(s[i]) }

  predicate Blank(s: string) { forall i :: 0 <= i < |s| ==> IsSpace(s[i]) }

  /** What the file can hold as one entry. */
  predicate IsEntry(s: string) { OneLine(s) && !Blank(s) }

  /** splitlines(); "\r\n" ends one line here and an empty one, and empty lines
      are dropped by every reader. */
  function Split(text: string, line: string): seq<string>
    decreases text
  {
    if text == "" then (if line == "" then [] else [line])
    else if IsBreak(text[0]) then [line] + Split(text[1..], "")
    else Split(text[1..], line + [text[0]])
  }

  /** [ln for ln in ... if ln.strip()]. */
  function NonBlank(lines: seq<string>): seq<string> {
    if lines == [] then []
    else (if Blank(lines[0]) then [] else [lines[0]]) + NonBlank(lines[1..])
  }

  function Read(text: string): seq<string> { NonBlank(Split(text, "")) }

  function Join(lines: seq<string>): string {
    if lines == [] then "" else if |lines| == 1 then lines[0] else lines[0] + "\n" + Join(lines[1..])
  }

  /** What both writers write. */
  function Render(lines: seq<string>): string { if lines == [] then "" else Join(lines) + "\n" }

  lemma {:induction false} SplitFirst(entry: string, rest: string, line: string)
    requires OneLine(entry)
    ensures Split(entry + ("\n" + rest), line) == [line + entry] + Split(rest, "")
    decreases entry
  {
    var text := entry + ("\n" + rest);
    if entry == "" {
      assert text == "\n" + rest && text[1..] == rest;
      assert line + entry == line;
    } else {
      SplitFirst(entry[1..], rest, line + [entry[0]]);
      assert text[1..] == entry[1..] + ("\n" + rest);
      assert line + [entry[0]] + entry[1..] == line + entry;
    }
  }

  lemma RenderFirst(lines: seq<string>)
    requires lines != []
    ensures Render(lines) == lines[0] + ("\n" + Render(lines[1..]))
  {
    if |lines| == 1 {
      assert lines[0] + "\n" == lines[0] + ("\n" + "");
    } else {
      assert lines[0] + "\n" + Join(lines[1..]) + "\n" == lines[0] + ("\n" + (Join(lines[1..]) + "\n"));
    }
  }

  /** Reading undoes writing, for entries that are non-blank single lines. */
  lemma {:induction false} ReadUndoesRender(lines: seq<string>)
    requires forall i :: 0 <= i < |lines| ==> IsEntry(lines[i])
    ensures Read(Render(lines)) == lines
    decreases lines
  {
    if lines == [] {
    } else {
      ReadUndoesRender(lines[1..]);
      RenderFirst(lines);
      SplitFirst(lines[0], Render(lines[1..]), "");
      assert "" + lines[0] == lines[0];
      assert [lines[0]] + lines[1..] == lines;
    }
  }

  lemma {:induction false} SplitGivesLines(text: string, line: string)
    requires OneLine(line)
    ensures forall i :: 0 <= i < |Split(text, line)| ==> OneLine(Split(text, line)[i])
    decreases text
  {
    if text == "" {
    } else {
      if IsBreak(text[0]) {
        SplitGivesLines(text[1..], "");
      } else {
        SplitGivesLines(text[1..], line + [text[0]]);
      }
    }
  }

  lemma {:induction false} NonBlankGivesEntries(lines: seq<string>)
    requires forall i :: 0 <= i < |lines| ==> OneLine(lines[i])
    ensures forall i :: 0 <= i < |NonBlank(lines)| ==> IsEntry(NonBlank(lines)[i])
    decreases lines
  {
    if lines == [] {
    } else {
      NonBlankGivesEntries(lines[1..]);
    }
  }

  /** Whatever is in the file, what is read from it can be written back. */
  lemma ReadGivesEntries(text: string)
    ensures forall i :: 0 <= i < |Read(text)| ==> IsEntry(Read(text)[i])
  {
    SplitGivesLines(text, "");
    NonBlankGivesEntries(Split(text, ""));
  }

  predicate EndsInBreak(text: string) { text == "" || IsBreak(text[|text| - 1]) }

  lemma {:induction false} SplitAppend(text: string, more: string, line: string)
    requires text != "" && EndsInBreak(text)
    ensures Split(text + more, line) == Split(text, line) + Split(more, "")
    decreases text
  {
    assert (text + more)[1..] == text[1..] + more;
    if |text| == 1 {
      assert text[1..] + more == more && Split(text, line) == [line];
    } else if IsBreak(text[0]) {
      SplitAppend(text[1..], more, "");
      assert [line] + (Split(text[1..], "") + Split(more, "")) == ([line] + Split(text[1..], "")) + Split(more, "");
    } else {
      SplitAppend(text[1..], more, line + [text[0]]);
    }
  }

  lemma {:induction false} NonBlankAppend(a: seq<string>, b: seq<string>)
    ensures NonBlank(a + b) == NonBlank(a) + NonBlank(b)
    decreases a
  {
    if a == [] {
      assert a + b == b;
    } else {
      assert (a + b)[1..] == a[1..] + b;
      NonBlankAppend(a[1..], b);
    }
  }

  lemma {:induction false} SplitOneLine(text: string, line: string)
    requires OneLine(text)
    ensures Split(text, line) == if line + text == "" then [] else [line + text]
    decreases text
  {
    if text == "" {
      assert line + text == line;
    } else {
      SplitOneLine(text[1..], line + [text[0]]);
      assert line + [text[0]] + text[1..] == line + text;
    }
  }

  /** One more break. */
  lemma {:induction false} SplitEnded(text: string, b: char, line: string)
    requires IsBreak(b)
    ensures NonBlank(Split(text + [b], line)) == NonBlank(Split(text, line))
    decreases text
  {
    assert text != "" ==> (text + [b])[1..] == text[1..] + [b];
    if text == "" {
      assert text + [b] == [b] && Split([b], line) == [line];
    } else if IsBreak(text[0]) {
      SplitEnded(text[1..], b, "");
      NonBlankAppend([line], Split(text[1..] + [b], ""));
      NonBlankAppend([line], Split(text[1..], ""));
    } else {
      SplitEnded(text[1..], b, line + [text[0]]);
    }
  }

  /** What reading any text gives, line by line: a break ends a line and adds
      nothing; a line counts, terminated or not, unless it is blank. */
  lemma ReadByLines(text: string, b: char, line: string)
    ensures Read("") == []
    ensures IsBreak(b) ==> Read(text + [b]) == Read(text)
    ensures EndsInBreak(text) && OneLine(line) ==>
              Read(text + line) == Read(text) + if Blank(line) then [] else [line]
  {
    if IsBreak(b) { SplitEnded(text, b, ""); }
    if EndsInBreak(text) && OneLine(line) {
      SplitOneLine(line, "");
      assert "" + line == line;
      if text == "" {
        assert text + line == line;
      } else {
        SplitAppend(text, line, "");
        NonBlankAppend(Split(text, ""), Split(line, ""));
      }
      assert line != "" ==> NonBlank([line]) == if Blank(line) then [] else [line];
    }
  }

  /** Where lines end, and what counts as blank. */
  lemma ClassEnds()
    ensures IsBreak('\n') && IsBreak('\r') && IsBreak('\U{000B}') && IsBreak('\U{000C}')
    ensures IsBreak('\U{001C}') && IsBreak('\U{001D}') && IsBreak('\U{001E}') && !IsBreak('\U{001F}')
    ensures IsBreak('\U{0085}') && IsBreak('\U{2028}') && IsBreak('\U{2029}') && !IsBreak(' ') && !IsBreak('\t')
    ensures IsSpace(' ') && IsSpace('\t') && IsSpace('\n') && IsSpace('\U{001F}') && IsSpace('\U{00A0}')
    ensures IsSpace('\U{1680}') && IsSpace('\U{2000}') && IsSpace('\U{200A}') && !IsSpace('\U{200B}')
    ensures IsSpace('\U{202F}') && IsSpace('\U{205F}') && IsSpace('\U{3000}') && !IsSpace('{')
  {
  }

  /** json.dumps escapes everything but printable ASCII, and an object starts
      with a brace: section 7 of RFC 8259. */
  lemma JsonObjectIsEntry(s: string)
    requires s != "" && s[0] == '{' && forall i :: 0 <= i < |s| ==> ' ' <= s[i] <= '~'
    ensures IsEntry(s)
  {
    assert !IsSpace(s[0]);
  }

  // ---- the queue -----------------------------------------------------------------

  datatype Reply = Status(code: int) | NetworkError
  {
    predicate Accepts() { Status? && 200 <= code < 300 }

    predicate Refuses() { Status? && 400 <= code < 500 }

    predicate ServerError() { Status? && 500 <= code < 600 }
  }

  datatype Op = Append(entry: string) | Flush(reply: Reply)

  /** How an entry left the queue. */
  datatype Fate = Delivered | Refused | Malformed | Evicted

  datatype Gone = Gone(entry: string, fate: Fate)

  /** The settings: capacity, and which texts json.loads accepts. */
  datatype Config = Config(max: int, json: string -> bool)

  /** What leaves the queue in one call, oldest first. */
  function Leaving(q: seq<string>, cfg: Config, op: Op): seq<Gone> {
    match op
    case Append(_) =>
      var n := if cfg.max < 1 || |q| < cfg.max then 0 else |q| - cfg.max + 1;
      seq(n, i requires 0 <= i < n <= |q| => Gone(q[i], Evicted))
    case Flush(reply) =>
      if q == [] then []
      else if !cfg.json(q[0]) then [Gone(q[0], Malformed)]
      else if reply.Accepts() then [Gone(q[0], Delivered)]
      else if reply.Refuses() then [Gone(q[0], Refused)]
      else []
  }

  /** With a capacity below one an append raises and adds nothing. */
  function Entering(cfg: Config, op: Op): seq<string> {
    if op.Append? && cfg.max >= 1 then [op.entry] else []
  }

  function QueueAfter(q: seq<string>, cfg: Config, op: Op): seq<string> {
    q[|Leaving(q, cfg, op)|..] + Entering(cfg, op)
  }

  class Outbox {
    var file: Option<string>
    const cfg: Config

    constructor (cfg: Config)
      ensures this.cfg == cfg && file == None
    {
      this.cfg := cfg;
      file := None;
    }

    function Queue(): seq<string> reads this { if file.Some? then Read(file.value) else [] }

    /** outbox_append; with a capacity below one it raises on an empty list and
        leaves the file alone. */
    method AppendEntry(entry: string) returns (raised: bool)
      requires IsEntry(entry)
      modifies this
      ensures raised <==> cfg.max < 1
      ensures raised ==> file == old(file)
      ensures Queue() == QueueAfter(old(Queue()), cfg, Append(entry))
    {
      var existing := Queue();
      if file.Some? { ReadGivesEntries(file.value); }
      var popped := 0;
      while |existing| >= cfg.max
        invariant 0 <= popped <= |old(Queue())| && existing == old(Queue())[popped..]
        invariant popped > 0 && 1 <= cfg.max ==> |existing| >= cfg.max - 1
        decreases |existing|
      {
        if existing == [] { return true; }
        existing := existing[1..];
        popped := popped + 1;
      }
      existing := existing + [entry];
      ReadUndoesRender(existing);
      file := Some(Render(existing));
      raised := false;
    }

    /** outbox_flush_one; `reply` is what the server answers if it is asked. A
        well-formed head leaves exactly on a 2xx or a 4xx; a 1xx, 3xx or 5xx and a
        network error leave the file as it was. */
    method FlushOne(reply: Reply) returns (progress: bool, posted: Option<string>)
      modifies this
      ensures Queue() == QueueAfter(old(Queue()), cfg, Flush(reply))
      ensures old(Queue()) == [] ==> file == old(file) && !progress
      ensures old(Queue()) != [] && !cfg.json(old(Queue())[0]) ==> Queue() == old(Queue())[1..] && !progress
      ensures old(Queue()) != [] && cfg.json(old(Queue())[0]) ==>
        match reply
        case NetworkError => file == old(file) && !progress
        case Status(code) =>
          if 200 <= code < 300 || 400 <= code < 500 then Queue() == old(Queue())[1..] && progress
          else file == old(file) && !progress
      ensures posted == if old(Queue()) != [] && cfg.json(old(Queue())[0]) then Some(old(Queue())[0]) else None
    {
      progress, posted := false, None;
      var lines := Queue();
      if lines == [] { return; }
      ReadGivesEntries(file.value);
      ReadUndoesRender(lines[1..]);
      assert |lines[1..]| != |lines|;
      if !cfg.json(lines[0]) {
        file := Some(Render(lines[1..]));
        return;
      }
      posted := Some(lines[0]);
      if reply.Refuses() {
        file := Some(Render(lines[1..]));
        return true, posted;
      }
      if !reply.Accepts() {
        return false, posted;
      }
      file := Some(Render(lines[1..]));
      progress := true;
    }

    /** submit_results: what becomes of the payload, and of the queue. */
    method SubmitResults(entry: string, reply: Reply, flushReply: Reply) returns (kept: bool)
      requires IsEntry(entry)
      modifies this
      ensures Queue() == After(old(Queue()), cfg, SubmitOps(entry, reply, flushReply))
      ensures match reply
        case NetworkError => kept == (cfg.max >= 1)
        case Status(code) => kept == (500 <= code < 600 && cfg.max >= 1)
      ensures kept ==> Queue() != [] && Queue()[|Queue()| - 1] == entry
      ensures reply.Status? && !(200 <= reply.code < 300 || 500 <= reply.code < 600) ==> file == old(file)
    {
      kept := false;
      OneOp(Queue(), cfg, SubmitOps(entry, reply, flushReply));
      if reply.Accepts() {
        var progress, posted := FlushOne(flushReply);
      } else if reply.NetworkError? || reply.ServerError() {
        var raised := AppendEntry(entry);
        kept := !raised;
      }
    }
  }

  /** The outbox calls one submission makes. */
  function SubmitOps(entry: string, reply: Reply, flushReply: Reply): seq<Op> {
    if reply.Accepts() then [Flush(flushReply)]
    else if reply.NetworkError? || reply.ServerError() then [Append(entry)]
    else []
  }

  // ---- over any sequence of calls ---------------------------------------------------

  function After(q: seq<string>, cfg: Config, ops: seq<Op>): seq<string>
    decreases ops
  {
    if ops == [] then q else After(QueueAfter(q, cfg, ops[0]), cfg, ops[1..])
  }

  /** Everything that left, in order of leaving. */
  function Left(q: seq<string>, cfg: Config, ops: seq<Op>): seq<Gone>
    decreases ops
  {
    if ops == [] then [] else Leaving(q, cfg, ops[0]) + Left(QueueAfter(q, cfg, ops[0]), cfg, ops[1..])
  }

  function Entered(cfg: Config, ops: seq<Op>): seq<string>
    decreases ops
  {
    if ops == [] then [] else Entering(cfg, ops[0]) + Entered(cfg, ops[1..])
  }

  function Entries(gone: seq<Gone>): seq<string> {
    seq(|gone|, i requires 0 <= i < |gone| => gone[i].entry)
  }

  lemma OneOp(q: seq<string>, cfg: Config, ops: seq<Op>)
    requires |ops| <= 1
    ensures After(q, cfg, ops) == if ops == [] then q else QueueAfter(q, cfg, ops[0])
  {
  }

  /** What leaves in one call is the head of the queue. */
  lemma LeavesFromTheHead(q: seq<string>, cfg: Config, op: Op)
    ensures |Leaving(q, cfg, op)| <= |q|
    ensures q == Entries(Leaving(q, cfg, op)) + q[|Leaving(q, cfg, op)|..]
  {
  }

  /** First in, first out, nothing lost and nothing doubled: what was queued and
      what was appended is, in this order, what left and what is still queued. */
  lemma {:induction false} Conservation(q: seq<string>, cfg: Config, ops: seq<Op>)
    ensures q + Entered(cfg, ops) == Entries(Left(q, cfg, ops)) + After(q, cfg, ops)
    decreases ops
  {
    if ops == [] {
      assert q + [] == [] + q;
    } else {
      var out, q' := Leaving(q, cfg, ops[0]), QueueAfter(q, cfg, ops[0]);
      var out' := Left(q', cfg, ops[1..]);
      Conservation(q', cfg, ops[1..]);
      LeavesFromTheHead(q, cfg, ops[0]);
      Regroup(Entries(out), q[|out|..], Entering(cfg, ops[0]), Entered(cfg, ops[1..]), Entries(out'),
              After(q', cfg, ops[1..]));
      EntriesAppend(out, out');
    }
  }

  /** Why an entry left in the call `op` on the queue q. */
  predicate Earned(q: seq<string>, cfg: Config, op: Op, gone: Gone) {
    match gone.fate
    case Delivered =>
      op.Flush? && Head(q, gone.entry) && cfg.json(gone.entry) && op.reply.Status? && 200 <= op.reply.code < 300
    case Refused =>
      op.Flush? && Head(q, gone.entry) && cfg.json(gone.entry) && op.reply.Status? && 400 <= op.reply.code < 500
    case Malformed => op.Flush? && Head(q, gone.entry) && !cfg.json(gone.entry)
    case Evicted => op.Append? && |q| >= cfg.max >= 1 && gone.entry in q[..|q| - cfg.max + 1]
  }

  predicate Head(q: seq<string>, entry: string) { q != [] && q[0] == entry }

  lemma OneCallEarned(q: seq<string>, cfg: Config, op: Op, i: nat)
    requires i < |Leaving(q, cfg, op)|
    ensures Earned(q, cfg, op, Leaving(q, cfg, op)[i])
  {
    if op.Append? {
      assert q[..|q| - cfg.max + 1][i] == q[i];
    }
  }

  lemma AfterOneMore(q: seq<string>, cfg: Config, ops: seq<Op>, k: nat)
    requires k < |ops|
    ensures After(q, cfg, ops[..k + 1]) == After(QueueAfter(q, cfg, ops[0]), cfg, ops[1..][..k])
  {
    assert ops[..k + 1][0] == ops[0] && ops[..k + 1][1..] == ops[1..][..k];
  }

  /** Nothing leaves without cause: an entry that left was at the head when it was
      posted and answered with a 2xx, or with a 4xx, or found malformed; or it was
      among the oldest when an append met a full queue. */
  lemma {:induction false} LeftForCause(q: seq<string>, cfg: Config, ops: seq<Op>, i: nat) returns (k: nat)
    requires i < |Left(q, cfg, ops)|
    ensures k < |ops| && Earned(After(q, cfg, ops[..k]), cfg, ops[k], Left(q, cfg, ops)[i])
    decreases ops
  {
    var n := |Leaving(q, cfg, ops[0])|;
    if i < n {
      k := 0;
      OneCallEarned(q, cfg, ops[0], i);
    } else {
      var m := LeftForCause(QueueAfter(q, cfg, ops[0]), cfg, ops[1..], i - n);
      k := m + 1;
      AfterOneMore(q, cfg, ops, m);
    }
  }

  lemma EntriesAppend(a: seq<Gone>, b: seq<Gone>)
    ensures Entries(a + b) == Entries(a) + Entries(b)
  {
  }

  lemma Regroup(out: seq<string>, rest: seq<string>, new1: seq<string>, new2: seq<string>,
                out2: seq<string>, end: seq<string>)
    requires (rest + new1) + new2 == out2 + end
    ensures (out + rest) + (new1 + new2) == (out + out2) + end
  {
    assert (out + rest) + (new1 + new2) == out + ((rest + new1) + new2);
    assert out + (out2 + end) == (out + out2) + end;
  }

  /** The queue never grows beyond its capacity, or what it was found with. */
  lemma {:induction false} Bounded(q: seq<string>, cfg: Config, ops: seq<Op>)
    ensures |After(q, cfg, ops)| <= if |q| <= cfg.max then cfg.max else |q|
    decreases ops
  {
    if ops == [] {
    } else {
      LeavesFromTheHead(q, cfg, ops[0]);
      Bounded(QueueAfter(q, cfg, ops[0]), cfg, ops[1..]);
    }
  }

  predicate AllJson(q: seq<string>, json: string -> bool) { forall i :: 0 <= i < |q| ==> json(q[i]) }

  /** A worker that starts with its own entries never discards one as malformed:
      each is delivered, refused by the server, or evicted. */
  lemma {:induction false} OwnEntriesParse(q: seq<string>, cfg: Config, ops: seq<Op>, i: nat)
    requires AllJson(q, cfg.json) && AllJson(Entered(cfg, ops), cfg.json)
    requires i < |Left(q, cfg, ops)|
    ensures Left(q, cfg, ops)[i].fate != Malformed
    decreases ops
  {
    var out := Leaving(q, cfg, ops[0]);
    AllJsonSplits(Entering(cfg, ops[0]), Entered(cfg, ops[1..]), cfg.json);
    OneCallParses(q, cfg, ops[0]);
    if i >= |out| {
      OwnEntriesParse(QueueAfter(q, cfg, ops[0]), cfg, ops[1..], i - |out|);
    }
  }

  lemma AllJsonSplits(a: seq<string>, b: seq<string>, json: string -> bool)
    ensures AllJson(a + b, json) <==> AllJson(a, json) && AllJson(b, json)
  {
    assert forall i :: 0 <= i < |a| ==> (a + b)[i] == a[i];
    assert forall i :: 0 <= i < |b| ==> (a + b)[|a| + i] == b[i];
  }

  lemma OneCallParses(q: seq<string>, cfg: Config, op: Op)
    requires AllJson(q, cfg.json) && AllJson(Entering(cfg, op), cfg.json)
    ensures forall i :: 0 <= i < |Leaving(q, cfg, op)| ==> Leaving(q, cfg, op)[i].fate != Malformed
    ensures AllJson(QueueAfter(q, cfg, op), cfg.json)
  {
  }

  /** An entry is evicted only by an append that leaves the queue full. */
  lemma EvictionMeansFull(q: seq<string>, cfg: Config, op: Op)
    requires exists i :: 0 <= i < |Leaving(q, cfg, op)| && Leaving(q, cfg, op)[i].fate == Evicted
    ensures op.Append? && |QueueAfter(q, cfg, op)| == cfg.max
  {
  }
}
