/**
 What substitution does to one text, in terms of the reference grammar: which
 names a text refers to, in which order a name is looked up, and what the
 result is made of.
 */
module Texts {
  import opened Wrappers
  import opened Resolver

  // ---- the grammar of names -----------------------------------------------------

  /** The first m characters of s are a name: an identifier of n characters, and
      `#` and a tag unless m is n. */
  predicate IsName(s: string, n: nat, m: nat) {
    && 0 < n <= m <= |s| && IdStart(s[0]) && (forall i :: 0 <= i < n ==> IdChar(s[i]))
    && (m == n || (n + 1 < m && s[n] == '#' && forall i :: n < i < m ==> TagChar(s[i])))
  }

  /** Where the character classes begin and end. */
  lemma ClassEnds()
    ensures IdStart('A') && IdStart('Z') && IdStart('a') && IdStart('z') && IdStart('_')
    ensures !IdStart('@') && !IdStart('[') && !IdStart('`') && !IdStart('{') && !IdStart('^')
    ensures IdChar('0') && IdChar('9') && !IdChar('/') && !IdChar(':') && !IdStart('0') && !IdStart('9')
    ensures TagChar('-') && TagChar('0') && TagChar('A') && !TagChar(',') && !TagChar('.') && !IdChar('-')
  {
  }

  ghost predicate NamePrefix(s: string, m: nat) { exists n: nat :: IsName(s, n, m) }

  lemma {:induction false} TagLenIsLongest(s: string)
    ensures TagLen(s) < |s| ==> !TagChar(s[TagLen(s)])
  {
    if s == "" || !TagChar(s[0]) {
    } else {
      TagLenBound(s[1..]);
      TagLenIsLongest(s[1..]);
    }
  }

  lemma NameIsRef(s: string, n: nat, m: nat)
    requires IsName(s, n, m)
    ensures 0 < m <= RefLen(s)
  {
    IdLenBound(s);
    assert n <= IdLen(s);
    if n < m {
      assert n == IdLen(s);
      var t := s[n + 1..];
      TagLenBound(t);
      TagLenIsLongest(t);
      assert forall i :: 0 <= i < m - n - 1 ==> t[i] == s[i + n + 1];
      assert m - n - 1 <= TagLen(t);
    }
  }

  lemma RefIsName(s: string)
    requires RefLen(s) > 0
    ensures IsName(s, IdLen(s), RefLen(s))
  {
    IdLenBound(s);
    var n := IdLen(s);
    if n < |s| && s[n] == '#' && TagLen(s[n + 1..]) > 0 {
      var t := s[n + 1..];
      TagLenBound(t);
      assert forall i :: n < i < n + 1 + TagLen(t) ==> s[i] == t[i - n - 1];
    }
  }

  /** What is matched after a `$` is the longest name there is. */
  lemma RefIsLongestName(s: string)
    ensures RefLen(s) <= |s|
    ensures if RefLen(s) > 0 then NamePrefix(s, RefLen(s)) else forall m :: !NamePrefix(s, m)
    ensures forall m :: RefLen(s) < m ==> !NamePrefix(s, m)
  {
    RefLenBound(s);
    if RefLen(s) > 0 { RefIsName(s); }
    forall m: nat | NamePrefix(s, m) ensures 0 < m <= RefLen(s) {
      var n: nat :| IsName(s, n, m);
      NameIsRef(s, n, m);
    }
  }

  /** The text is `$NAME`, perhaps with a newline after it. */
  ghost predicate OneName(s: string, m: nat) {
    s != "" && s[0] == '$' && NamePrefix(s[1..], m) && (s[1 + m..] == "" || s[1 + m..] == "\n")
  }

  lemma OneNameIsRef(s: string, m: nat)
    requires OneName(s, m)
    ensures m == RefLen(s[1..]) && AtRef(s) && AfterRef(s) == s[1 + m..]
  {
    var n: nat :| IsName(s[1..], n, m);
    NameIsRef(s[1..], n, m);
    RefLenBound(s[1..]);
    assert s[1 + m..] == "\n" ==> s[1..][m] == s[1 + m..][0];
  }

  lemma WholeIsOneName(s: string)
    ensures Whole(s) <==> exists m: nat :: OneName(s, m)
  {
    if Whole(s) {
      RefIsLongestName(s[1..]);
      assert OneName(s, RefLen(s[1..]));
    }
    forall m: nat | OneName(s, m) ensures Whole(s) {
      OneNameIsRef(s, m);
    }
  }

  /** `$NAME` before a final newline. */
  ghost predicate NameThenNewline(s: string) { exists m: nat :: OneName(s, m) && s[1 + m..] == "\n" }

  lemma WholeEnds(s: string)
    requires Whole(s)
    ensures AfterRef(s) == "\n" <==> NameThenNewline(s)
  {
    RefIsLongestName(s[1..]);
    assert OneName(s, RefLen(s[1..]));
    forall m: nat | OneName(s, m) ensures AfterRef(s) == s[1 + m..] {
      OneNameIsRef(s, m);
    }
  }

  // ---- lookup ----------------------------------------------------------------------

  lemma {:induction false} BaseOfTagged(base: string, tag: string)
    requires '#' !in base
    ensures Base(base + ("#" + tag)) == base && '#' in base + ("#" + tag)
    decreases base
  {
    var name := base + ("#" + tag);
    assert name[|base|] == '#';
    if base == "" {
    } else {
      assert name[1..] == base[1..] + ("#" + tag);
      BaseOfTagged(base[1..], tag);
    }
  }

  /** A name on its own is worth a non-empty secret, or else the environment's value. */
  predicate Offered(env: Env, name: string, v: string) {
    if name in env.extra && env.extra[name] != "" then v == env.extra[name]
    else name in env.environ && v == env.environ[name]
  }

  /** A name with a tag is looked up as it stands, then without the tag. */
  lemma LookupOrder(env: Env, name: string)
    ensures forall v :: Offered(env, name, v) ==> Lookup(env, name) == Some(v)
    ensures '#' !in name && (forall v :: !Offered(env, name, v)) ==> Lookup(env, name).None?
    ensures forall base, tag :: name == base + ("#" + tag) && '#' !in base && (forall v :: !Offered(env, name, v)) ==>
              && (forall v :: Offered(env, base, v) ==> Lookup(env, name) == Some(v))
              && ((forall v :: !Offered(env, base, v)) ==> Lookup(env, name).None?)
  {
    assert Get(env, name).Some? ==> Offered(env, name, Get(env, name).value);
    forall base, tag | name == base + ("#" + tag) && '#' !in base
      ensures '#' in name && Base(name) == base
    {
      BaseOfTagged(base, tag);
    }
    assert forall base :: Get(env, base).Some? ==> Offered(env, base, Get(env, base).value);
  }

  // ---- what a text is made of ----------------------------------------------------

  datatype Piece = Plain(c: char) | Ref(name: string)

  function Spelling(piece: Piece): string { match piece case Plain(c) => [c] case Ref(name) => "$" + name }

  function Spelled(pieces: seq<Piece>): string {
    if pieces == [] then "" else Spelling(pieces[0]) + Spelled(pieces[1..])
  }

  /** A `$` stands alone only where no name follows, and a name goes on as long as
      it can. */
  ghost predicate PieceOk(piece: Piece, rest: string) {
    match piece
    case Plain(c) => c == '$' ==> forall m: nat :: !NamePrefix(rest, m)
    case Ref(name) =>
      NamePrefix(name + rest, |name|) && forall m: nat :: |name| < m ==> !NamePrefix(name + rest, m)
  }

  ghost predicate Reads(s: string, pieces: seq<Piece>) {
    s == Spelled(pieces) && forall i :: 0 <= i < |pieces| ==> PieceOk(pieces[i], Spelled(pieces[i + 1..]))
  }

  /** The pieces with every name that is found replaced. */
  function Filled(env: Env, pieces: seq<Piece>): string {
    if pieces == [] then ""
    else
      (match pieces[0]
       case Plain(c) => [c]
       case Ref(name) => if Lookup(env, name).Some? then Lookup(env, name).value else "$" + name)
      + Filled(env, pieces[1..])
  }

  predicate Missing(env: Env, pieces: seq<Piece>, i: int) {
    0 <= i < |pieces| && pieces[i].Ref? && Lookup(env, pieces[i].name).None?
  }

  lemma ReadsRest(s: string, pieces: seq<Piece>)
    requires Reads(s, pieces) && pieces != []
    ensures Reads(Spelled(pieces[1..]), pieces[1..])
  {
    forall i | 0 <= i < |pieces[1..]| ensures PieceOk(pieces[1..][i], Spelled(pieces[1..][i + 1..])) {
      assert pieces[1..][i + 1..] == pieces[i + 2..];
      assert PieceOk(pieces[i + 1], Spelled(pieces[i + 2..]));
    }
  }

  lemma PlainFirst(c: char, rest: string)
    requires PieceOk(Plain(c), rest)
    ensures
      var s := [c] + rest;
      !AtRef(s) && s[0] == c && s[1..] == rest
  {
    var s := [c] + rest;
    assert s[1..] == rest;
    if c == '$' { RefIsLongestName(rest); }
  }

  lemma NameFirst(name: string, rest: string)
    requires PieceOk(Ref(name), rest)
    ensures
      var s := ("$" + name) + rest;
      AtRef(s) && RefName(s) == name && AfterRef(s) == rest
  {
    var s := ("$" + name) + rest;
    assert s[1..] == name + rest;
    RefIsLongestName(name + rest);
    assert NamePrefix(name + rest, |name|);
    assert RefLen(name + rest) == |name| && !NamePrefix(name + rest, 0);
    assert s[1..1 + |name|] == name && s[1 + |name|..] == rest;
  }

  /** A text is read in one way: its first piece is the reference at its start, or
      its first character. */
  lemma FirstPiece(s: string, pieces: seq<Piece>)
    requires Reads(s, pieces) && pieces != []
    ensures s != "" && (AtRef(s) <==> pieces[0].Ref?)
    ensures AtRef(s) ==> pieces[0].name == RefName(s) && AfterRef(s) == Spelled(pieces[1..])
    ensures !AtRef(s) ==> pieces[0].c == s[0] && s[1..] == Spelled(pieces[1..])
  {
    var rest := Spelled(pieces[1..]);
    assert PieceOk(pieces[0], rest);
    match pieces[0]
    case Plain(c) => PlainFirst(c, rest);
    case Ref(name) => NameFirst(name, rest);
  }

  lemma {:induction false} InlineLaw(env: Env, strict: bool, s: string, pieces: seq<Piece>)
    requires Reads(s, pieces)
    ensures Inline(env, strict, s).None? <==> strict && exists i :: Missing(env, pieces, i)
    ensures Inline(env, strict, s).Some? ==> Inline(env, strict, s).value == Filled(env, pieces)
    decreases pieces
  {
    if pieces == [] {
    } else {
      FirstPiece(s, pieces);
      ReadsRest(s, pieces);
      var rest := pieces[1..];
      InlineLaw(env, strict, Spelled(rest), rest);
      assert forall i :: Missing(env, rest, i) ==> Missing(env, pieces, i + 1);
      assert forall i :: 0 < i && Missing(env, pieces, i) ==> Missing(env, rest, i - 1);
      assert pieces[0].Ref? && Lookup(env, pieces[0].name).None? ==> Missing(env, pieces, 0);
    }
  }

  lemma ReadsMore(piece: Piece, rest: string, more: seq<Piece>)
    requires Reads(rest, more) && PieceOk(piece, rest)
    ensures Reads(Spelling(piece) + rest, [piece] + more)
  {
    var pieces := [piece] + more;
    assert pieces[1..] == more;
    forall i | 0 <= i < |pieces| ensures PieceOk(pieces[i], Spelled(pieces[i + 1..])) {
      if i > 0 {
        assert pieces[i + 1..] == more[i..];
        assert PieceOk(more[i - 1], Spelled(more[i..]));
      }
    }
  }

  lemma {:induction false} ReadingExists(s: string) returns (pieces: seq<Piece>)
    ensures Reads(s, pieces)
    decreases |s|
  {
    if s == "" {
      pieces := [];
    } else if AtRef(s) {
      var name, rest := RefName(s), AfterRef(s);
      RefIsLongestName(s[1..]);
      assert s == ("$" + name) + rest && s[1..] == name + rest && |name| == RefLen(s[1..]);
      var more := ReadingExists(rest);
      ReadsMore(Ref(name), rest, more);
      pieces := [Ref(name)] + more;
    } else {
      if s[0] == '$' { RefIsLongestName(s[1..]); }
      var more := ReadingExists(s[1..]);
      ReadsMore(Plain(s[0]), s[1..], more);
      assert s == [s[0]] + s[1..];
      pieces := [Plain(s[0])] + more;
    }
  }

  /** A text reads in exactly one way. */
  lemma {:induction false} ReadingIsUnique(s: string, a: seq<Piece>, b: seq<Piece>)
    requires Reads(s, a) && Reads(s, b)
    ensures a == b
    decreases a
  {
    if a == [] || b == [] {
      if a != [] { FirstPiece(s, a); }
      if b != [] { FirstPiece(s, b); }
    } else {
      FirstPiece(s, a);
      FirstPiece(s, b);
      ReadsRest(s, a);
      ReadsRest(s, b);
      ReadingIsUnique(Spelled(a[1..]), a[1..], b[1..]);
    }
  }

  lemma {:induction false} NoDollarReadsPlain(s: string, pieces: seq<Piece>, env: Env)
    requires '$' !in s && Reads(s, pieces)
    ensures (forall i :: !Missing(env, pieces, i)) && Filled(env, pieces) == s
    decreases pieces
  {
    if pieces == [] {
    } else {
      FirstPiece(s, pieces);
      ReadsRest(s, pieces);
      NoDollarReadsPlain(Spelled(pieces[1..]), pieces[1..], env);
      assert forall i :: 0 < i && Missing(env, pieces, i) ==> Missing(env, pieces[1..], i - 1);
    }
  }

  /** A text that is one reference and nothing else is one piece. */
  lemma WholeReads(s: string, pieces: seq<Piece>)
    requires Reads(s, pieces) && AtRef(s) && AfterRef(s) == ""
    ensures pieces == [Ref(s[1..])]
  {
    FirstPiece(s, pieces);
    assert Spelled(pieces[1..]) == "";
    if pieces[1..] != [] {
      ReadsRest(s, pieces);
      FirstPiece("", pieces[1..]);
    }
    assert s == "$" + RefName(s) + "" && s[1..] == RefName(s);
    assert pieces == [pieces[0]] + pieces[1..];
  }

  /** What a text resolves to, whichever pattern handles it: every name that is
      found is replaced, in place, and a name that is not is an error or stays as it
      is. One kind of text is treated differently: `$NAME` before a final newline,
      which is looked up as a name that holds the newline. */
  lemma TextLaw(env: Env, strict: bool, s: string, pieces: seq<Piece>)
    requires Reads(s, pieces)
    ensures
      var r := ResolveText(env, strict, s);
      if NameThenNewline(s) then
        var v := Lookup(env, s[1..]);
        r == if v.Some? then v else if strict then None else Some(s)
      else
        && (r.None? <==> strict && exists i :: Missing(env, pieces, i))
        && (r.Some? ==> r.value == Filled(env, pieces))
  {
    WholeIsOneName(s);
    if '$' !in s {
      NoDollarReadsPlain(s, pieces, env);
    } else if !Whole(s) {
      InlineLaw(env, strict, s, pieces);
    } else {
      WholeEnds(s);
      if AfterRef(s) == "" {
        WholeReads(s, pieces);
        OnlyPiece(env, s[1..]);
        assert s == "$" + s[1..];
      }
    }
  }

  lemma OnlyPiece(env: Env, name: string)
    ensures Filled(env, [Ref(name)]) == if Lookup(env, name).Some? then Lookup(env, name).value else "$" + name
    ensures (exists i :: Missing(env, [Ref(name)], i)) <==> Lookup(env, name).None?
  {
    assert [Ref(name)][1..] == [];
    assert Lookup(env, name).None? ==> Missing(env, [Ref(name)], 0);
  }
}
