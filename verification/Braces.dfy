/** Brace lists: a filter without stars decides its language exactly, up to the budget, when none of
    the pieces of its lists is empty; the first empty piece ends its list. */
module Braces {
  import opened Bytes
  import opened Strings
  import opened Ls
  import opened Glob

  /** Every closed list, read as the language reads it, has only pieces that are not empty. */
  predicate Full(f: Str)
    decreases |f|, 0, 0
  {
    if f == [] then true
    else if f[0] == OPEN && Locate(f[1..], [CLOSE]).Some? then
      var j := Locate(f[1..], [CLOSE]).value;
      FullList(f[1..][..j], f[1..][j + 1..])
    else Full(f[1..])
  }

  predicate FullList(list: Str, tail: Str)
    decreases |list| + |tail| + 1, 1, |list|
  {
    var (piece, more) := Split(list, [COMMA]);
    piece != [] && Full(piece + tail) && (Locate(list, [COMMA]).Some? ==> FullList(more, tail))
  }

  predicate Starless(f: Str) { STAR !in f }

  lemma {:induction false} FullAfterLiteral(lit: Str, g: Str)
    requires IsLiteral(lit) && Full(lit + g)
    ensures Full(g)
  {
    if lit == [] {
      assert lit + g == g;
    } else {
      assert lit[0] in lit && (lit + g)[1..] == lit[1..] + g;
      FullAfterLiteral(lit[1..], g);
    }
  }

  /** The matcher accepts, or has run out of its budget. */
  predicate Decided(v: Verdict) {
    v.ok || v.iters == MAX_ITERS
  }

  lemma {:induction false} StarlessComplete(f: Str, n: Str, last: Byte, iters: nat)
    requires Starless(f) && Full(f) && Lang(f, n) && last != STAR && iters <= MAX_ITERS
    ensures Decided(Loop(f, n, last, iters))
    decreases |f|, 2, 0
  {
    if f == [] || iters == MAX_ITERS {
      LoopEnds(f, n, last, iters);
    } else {
      var (lit, tok, rest) := NextToken(f);
      TokenParts(f);
      AnchoredLiteral(lit, FromToken(tok, rest), n);
      FullAfterLiteral(lit, FromToken(tok, rest));
      LoopTurns(f, n, last, iters, lit, tok, rest);
      StarlessParts(f, lit, tok, rest);
      TokenDecided(tok, rest, n[|lit|..], iters + 1);
    }
  }

  lemma StarlessParts(f: Str, lit: Str, tok: Byte, rest: Str)
    requires f == lit + FromToken(tok, rest) && Starless(f)
    ensures tok != STAR && (tok in SPECIAL ==> Starless(rest))
  {
    if tok in SPECIAL {
      assert f[|lit|] == tok && f[|lit| + 1..] == rest;
    }
  }

  lemma {:induction false} TokenDecided(tok: Byte, rest: Str, m: Str, iters: nat)
    requires tok == QUERY || tok == OPEN || (tok == NUL && rest == [])
    requires Starless(rest) && iters <= MAX_ITERS
    requires Full(FromToken(tok, rest)) && Lang(FromToken(tok, rest), m)
    ensures Decided(AtToken(tok, rest, m, iters))
    decreases |rest| + 1, 1, 0
  {
    assert tok in SPECIAL ==> FromToken(tok, rest)[0] == tok && FromToken(tok, rest)[1..] == rest;
    if tok == OPEN && Locate(rest, [CLOSE]).Some? {
      var j := Locate(rest, [CLOSE]).value;
      AltsDecided(rest[..j], rest[j + 1..], m, iters);
    } else if tok == NUL {
      LoopEnds(rest, m, tok, iters);
    } else {
      StarlessComplete(rest, m[1..], tok, iters);
    }
  }

  lemma {:induction false} AltsDecided(list: Str, tail: Str, n: Str, iters: nat)
    requires Starless(list) && Starless(tail) && FullList(list, tail) && OneOf(list, tail, n) && iters <= MAX_ITERS
    ensures Decided(Alts(list, tail, n, iters))
    decreases |list| + |tail| + 1, 0, |list|
  {
    var (piece, more) := Split(list, [COMMA]);
    var v := Loop(piece + tail, n, NUL, iters);
    LoopCounts(piece + tail, n, NUL, iters);
    if Lang(piece + tail, n) {
      StarlessComplete(piece + tail, n, NUL, iters);
      if !v.ok {
        AltsCounts(more, tail, n, MAX_ITERS);
      }
    } else {
      AltsDecided(more, tail, n, v.iters);
    }
  }

  // ----- the turns a filter takes

  /** Turns of the loop a filter needs at most, for any name: one for each token, and those of every piece
      of a list, read with the rest. */
  function Turns(f: Str): nat
    decreases |f|, 2, 0
  {
    if f == [] then 0
    else
      var (_, tok, rest) := NextToken(f);
      1 + if tok != OPEN then Turns(rest)
          else match Locate(rest, [CLOSE])
            case None => Turns(rest)
            case Some(j) => ListTurns(rest[..j], rest[j + 1..])
  }

  function ListTurns(list: Str, tail: Str): nat
    decreases |list| + |tail| + 1, 0, |list|
  {
    var (piece, more) := Split(list, [COMMA]);
    if piece == [] then 0 else Turns(piece + tail) + ListTurns(more, tail)
  }

  /** The counter never moves further than that. */
  lemma {:induction false} LoopTakes(f: Str, n: Str, last: Byte, iters: nat)
    requires iters <= MAX_ITERS
    ensures Loop(f, n, last, iters).iters <= iters + Turns(f)
    decreases |f|, 2, 0
  {
    if f == [] || iters == MAX_ITERS {
      LoopEnds(f, n, last, iters);
    } else {
      var (lit, tok, rest) := NextToken(f);
      LoopTurns(f, n, last, iters, lit, tok, rest);
      var m := Consume(n, lit, last == STAR);
      if m.Some? { TokenTakes(tok, rest, m.value, iters + 1); }
    }
  }

  function TokenTurns(tok: Byte, rest: Str): nat {
    if tok == OPEN && Locate(rest, [CLOSE]).Some? then
      var j := Locate(rest, [CLOSE]).value;
      ListTurns(rest[..j], rest[j + 1..])
    else Turns(rest)
  }

  lemma {:induction false} TokenTakes(tok: Byte, rest: Str, m: Str, iters: nat)
    requires iters <= MAX_ITERS
    ensures AtToken(tok, rest, m, iters).iters <= iters + TokenTurns(tok, rest)
    decreases |rest| + 1, 1, 0
  {
    if tok == OPEN && Locate(rest, [CLOSE]).Some? {
      var j := Locate(rest, [CLOSE]).value;
      AltsTakes(rest[..j], rest[j + 1..], m, iters);
    } else if tok == QUERY || tok == OPEN {
      if m != [] { LoopTakes(rest, m[1..], tok, iters); }
    } else {
      LoopTakes(rest, m, tok, iters);
    }
  }

  lemma {:induction false} AltsTakes(list: Str, tail: Str, n: Str, iters: nat)
    requires iters <= MAX_ITERS
    ensures Alts(list, tail, n, iters).iters <= iters + ListTurns(list, tail)
    decreases |list| + |tail| + 1, 0, |list|
  {
    var (piece, more) := Split(list, [COMMA]);
    if piece != [] {
      LoopTakes(piece + tail, n, NUL, iters);
      var v := Loop(piece + tail, n, NUL, iters);
      LoopCounts(piece + tail, n, NUL, iters);
      AltsTakes(more, tail, n, v.iters);
    }
  }

  /** A filter without stars and without empty pieces, within the budget: a name is accepted if and only if
      the filter describes it. */
  lemma StarlessExact(f: Str, n: Str)
    requires Starless(f) && Full(f) && Turns(f) < MAX_ITERS
    ensures Passes(f, n) <==> Lang(f, n)
  {
    LoopTakes(f, n, NUL, 0);
    if Passes(f, n) {
      LoopSound(f, n, NUL, 0);
    } else if Lang(f, n) {
      StarlessComplete(f, n, NUL, 0);
    }
  }

  /** Within the budget it does not matter where the counter starts. */
  lemma {:induction false} LoopShifts(f: Str, n: Str, last: Byte, a: nat, b: nat)
    requires a + Turns(f) < MAX_ITERS && b + Turns(f) < MAX_ITERS
    ensures var v, u := Loop(f, n, last, a), Loop(f, n, last, b); v.ok == u.ok && v.iters - a == u.iters - b
    decreases |f|, 2, 0
  {
    if f == [] {
      LoopEnds(f, n, last, a);
      LoopEnds(f, n, last, b);
    } else {
      var (lit, tok, rest) := NextToken(f);
      LoopTurns(f, n, last, a, lit, tok, rest);
      LoopTurns(f, n, last, b, lit, tok, rest);
      var m := Consume(n, lit, last == STAR);
      if m.Some? { TokenShifts(tok, rest, m.value, a + 1, b + 1); }
    }
  }

  lemma {:induction false} TokenShifts(tok: Byte, rest: Str, m: Str, a: nat, b: nat)
    requires a + TokenTurns(tok, rest) < MAX_ITERS && b + TokenTurns(tok, rest) < MAX_ITERS
    ensures var v, u := AtToken(tok, rest, m, a), AtToken(tok, rest, m, b); v.ok == u.ok && v.iters - a == u.iters - b
    decreases |rest| + 1, 1, 0
  {
    if tok == OPEN && Locate(rest, [CLOSE]).Some? {
      var j := Locate(rest, [CLOSE]).value;
      AltsShift(rest[..j], rest[j + 1..], m, a, b);
    } else if tok == QUERY || tok == OPEN {
      if m != [] { LoopShifts(rest, m[1..], tok, a, b); }
    } else {
      LoopShifts(rest, m, tok, a, b);
    }
  }

  lemma {:induction false} AltsShift(list: Str, tail: Str, n: Str, a: nat, b: nat)
    requires a + ListTurns(list, tail) < MAX_ITERS && b + ListTurns(list, tail) < MAX_ITERS
    ensures var v, u := Alts(list, tail, n, a), Alts(list, tail, n, b); v.ok == u.ok && v.iters - a == u.iters - b
    decreases |list| + |tail| + 1, 0, |list|
  {
    var (piece, more) := Split(list, [COMMA]);
    if piece != [] {
      LoopShifts(piece + tail, n, NUL, a, b);
      LoopTakes(piece + tail, n, NUL, a);
      LoopTakes(piece + tail, n, NUL, b);
      AltsShift(more, tail, n, Loop(piece + tail, n, NUL, a).iters, Loop(piece + tail, n, NUL, b).iters);
    }
  }

  // ----- a list tries every piece

  function Join(pieces: seq<Str>): Str {
    if pieces == [] then []
    else if |pieces| == 1 then pieces[0]
    else pieces[0] + [COMMA] + Join(pieces[1..])
  }

  predicate Pieces(pieces: seq<Str>) {
    forall i | 0 <= i < |pieces| :: pieces[i] != [] && COMMA !in pieces[i] && CLOSE !in pieces[i]
  }

  lemma SplitJoin(pieces: seq<Str>)
    requires pieces != [] && Pieces(pieces)
    ensures Split(Join(pieces), [COMMA]) == (pieces[0], Join(pieces[1..]))
  {
    var s, p := Join(pieces), pieces[0];
    if |pieces| == 1 {
      LocateIs(s, [COMMA]);
      var hit := Locate(s, [COMMA]);
      if hit.Some? { assert s[hit.value] == s[hit.value..hit.value + 1][0]; }
    } else {
      assert forall j | 0 <= j < |p| :: s[j] == p[j];
      FirstAt(s, COMMA, |p|);
      assert s[..|p|] == p && s[|p| + 1..] == Join(pieces[1..]);
    }
  }

  lemma {:induction false} JoinHasNoClose(pieces: seq<Str>)
    requires Pieces(pieces)
    ensures CLOSE !in Join(pieces)
  {
    if |pieces| > 1 {
      JoinHasNoClose(pieces[1..]);
    }
  }

  predicate AnyPasses(pieces: seq<Str>, tail: Str, n: Str) {
    exists i {:trigger pieces[i]} | 0 <= i < |pieces| :: Passes(pieces[i] + tail, n)
  }

  lemma AnyMore(pieces: seq<Str>, tail: Str, n: Str)
    requires pieces != []
    ensures AnyPasses(pieces, tail, n) <==> Passes(pieces[0] + tail, n) || AnyPasses(pieces[1..], tail, n)
  {
    var rest := pieces[1..];
    if AnyPasses(rest, tail, n) {
      var i :| 0 <= i < |rest| && Passes(rest[i] + tail, n);
      assert pieces[i + 1] == rest[i];
    }
    if AnyPasses(pieces, tail, n) {
      var i :| 0 <= i < |pieces| && Passes(pieces[i] + tail, n);
      assert i > 0 ==> rest[i - 1] == pieces[i];
    }
  }

  lemma {:induction false} AltsTryAll(pieces: seq<Str>, tail: Str, n: Str, iters: nat)
    requires Pieces(pieces) && iters + ListTurns(Join(pieces), tail) < MAX_ITERS
    ensures Alts(Join(pieces), tail, n, iters).ok <==> AnyPasses(pieces, tail, n)
    decreases |pieces|
  {
    if pieces == [] {
      LocateIs([], [COMMA]);
    } else {
      SplitJoin(pieces);
      AnyMore(pieces, tail, n);
      var f := pieces[0] + tail;
      LoopShifts(f, n, NUL, iters, 0);
      LoopTakes(f, n, NUL, iters);
      AltsTryAll(pieces[1..], tail, n, Loop(f, n, NUL, iters).iters);
    }
  }

  /** A brace list passes a name if and only if one of its pieces, read with the rest of the filter, does:
      whatever the pieces and the rest hold, stars too, within the budget. */
  lemma ListTriesAll(pieces: seq<Str>, tail: Str, n: Str)
    requires Pieces(pieces) && Turns([OPEN] + Join(pieces) + [CLOSE] + tail) < MAX_ITERS
    ensures Passes([OPEN] + Join(pieces) + [CLOSE] + tail, n)
            <==> exists i | 0 <= i < |pieces| :: Passes(pieces[i] + tail, n)
  {
    var f := [OPEN] + Join(pieces) + [CLOSE] + tail;
    ListReads(pieces, tail);
    LoopTurns(f, n, NUL, 0, [], OPEN, f[1..]);
    AltsTryAll(pieces, tail, n, 1);
    assert AnyPasses(pieces, tail, n) <==> exists i | 0 <= i < |pieces| :: Passes(pieces[i] + tail, n);
  }

  /** Without braces the bound is the number of tokens, which is at most the length. */
  lemma {:induction false} TurnsAreTokens(f: Str)
    requires Braceless(f)
    ensures Turns(f) == Cost(f) <= |f|
    decreases |f|
  {
    if f != [] {
      NextBraceless(f);
      TurnsAreTokens(NextToken(f).2);
    }
  }

  /** The pieces, each with the rest, end to end. */
  function Size(pieces: seq<Str>, tail: Str): nat
    decreases |pieces|
  {
    if pieces == [] then 0 else |pieces[0]| + |tail| + Size(pieces[1..], tail)
  }

  predicate AllBraceless(pieces: seq<Str>) {
    forall i | 0 <= i < |pieces| :: Braceless(pieces[i])
  }

  lemma {:induction false} ListTurnsFit(pieces: seq<Str>, tail: Str)
    requires Pieces(pieces) && AllBraceless(pieces) && Braceless(tail)
    ensures ListTurns(Join(pieces), tail) <= Size(pieces, tail)
    decreases |pieces|
  {
    if pieces == [] {
      LocateIs([], [COMMA]);
    } else {
      SplitJoin(pieces);
      TurnsAreTokens(pieces[0] + tail);
      ListTurnsFit(pieces[1..], tail);
    }
  }

  lemma ListReads(pieces: seq<Str>, tail: Str)
    requires Pieces(pieces)
    ensures var f := [OPEN] + Join(pieces) + [CLOSE] + tail;
            && NextToken(f) == ([], OPEN, f[1..]) && Locate(f[1..], [CLOSE]) == Some(|Join(pieces)|)
            && f[1..][..|Join(pieces)|] == Join(pieces) && f[1..][|Join(pieces)| + 1..] == tail
  {
    var list := Join(pieces);
    var f := [OPEN] + list + [CLOSE] + tail;
    JoinHasNoClose(pieces);
    assert f[1..] == list + [CLOSE] + tail;
    FirstAt(f[1..], CLOSE, |list|);
    assert f[0] in SPECIAL;
  }

  /** So a single list, of pieces without braces, that is short enough passes just what some piece passes. */
  lemma ShortListTriesAll(pieces: seq<Str>, tail: Str, n: Str)
    requires Pieces(pieces) && AllBraceless(pieces) && Braceless(tail) && 1 + Size(pieces, tail) < MAX_ITERS
    ensures Passes([OPEN] + Join(pieces) + [CLOSE] + tail, n)
            <==> exists i | 0 <= i < |pieces| :: Passes(pieces[i] + tail, n)
  {
    ListReads(pieces, tail);
    ListTurnsFit(pieces, tail);
    ListTriesAll(pieces, tail, n);
  }

  /** A star directly before a list does nothing: the pieces are matched where the list stands, and the
      filter passes just what it passes without the star. */
  lemma StarLostBeforeList(pieces: seq<Str>, tail: Str, n: Str)
    requires Pieces(pieces) && 2 + ListTurns(Join(pieces), tail) < MAX_ITERS
    ensures var f := [OPEN] + Join(pieces) + [CLOSE] + tail; Passes([STAR] + f, n) <==> Passes(f, n)
  {
    var f := [OPEN] + Join(pieces) + [CLOSE] + tail;
    ListReads(pieces, tail);
    assert ([STAR] + f)[0] in SPECIAL && ([STAR] + f)[1..] == f;
    LoopTurns([STAR] + f, n, NUL, 0, [], STAR, f);
    LoopTurns(f, n, STAR, 1, [], OPEN, f[1..]);
    LoopTurns(f, n, NUL, 0, [], OPEN, f[1..]);
    AltsShift(Join(pieces), tail, n, 2, 1);
  }

  /** For instance, the filter "{a,b}" passes "b". */
  lemma SecondPiecePasses()
    ensures var a, b: Byte := 97, 98; Passes([OPEN, a, COMMA, b, CLOSE], [b])
  {
    var a, b: Byte := 97, 98;
    var pieces: seq<Str> := [[a], [b]];
    assert pieces[1..] == [[b]] && [[b]][1..] == [] && Size([[b]], []) == 1;
    assert [OPEN, a, COMMA, b, CLOSE] == [OPEN] + Join(pieces) + [CLOSE] + [];
    ShortListTriesAll(pieces, [], [b]);
    TurnsAreTokens([b]);
    TameExact([b], [b]);
    assert Lang([b], [b]) && pieces[1] + [] == [b];
  }

  /** The first empty piece ends a list, whatever follows. */
  lemma EmptyPieceEnds(more: Str, tail: Str, n: Str)
    requires CLOSE !in more
    ensures !Passes([OPEN, COMMA] + more + [CLOSE] + tail, n)
  {
    var rest := [COMMA] + more + [CLOSE] + tail;
    var f := [OPEN, COMMA] + more + [CLOSE] + tail;
    assert f[0] == OPEN && f[1..] == rest;
    LoopTurns(f, n, NUL, 0, [], OPEN, rest);
    FirstAt(rest, CLOSE, |more| + 1);
    FirstAt(rest[..|more| + 1], COMMA, 0);
  }

  lemma FirstAt(s: Str, c: Byte, i: nat)
    requires i < |s| && s[i] == c && forall j | 0 <= j < i :: s[j] != c
    ensures Locate(s, [c]) == Some(i)
  {
    LocateIs(s, [c]);
    var hit := Locate(s, [c]);
    assert s[i..i + 1] == [c] && MatchAt(s, [c], i);
    assert hit.Some? && hit.value <= i;
    assert s[hit.value] == s[hit.value..hit.value + 1][0];
  }

  /** For instance: the filter "{,a}" turns away "a", which it describes. */
  lemma EmptyPieceMissesA()
    ensures var a: Byte := 97;
            Lang([OPEN, COMMA, a, CLOSE], [a]) && !Passes([OPEN, COMMA, a, CLOSE], [a])
  {
    var a: Byte := 97;
    var f: Str := [OPEN, COMMA, a, CLOSE];
    assert f == [OPEN, COMMA] + [a] + [CLOSE] + [];
    EmptyPieceEnds([a], [], [a]);
    FirstAt(f[1..], CLOSE, 2);
    var list := f[1..][..2];
    assert list == [COMMA, a] && f[1..][3..] == [];
    FirstAt(list, COMMA, 0);
    assert list[1..] == [a];
    assert Lang([a], [a]) && [a] + [] == [a];
    LocateIs([a], [COMMA]);
    assert [a][0..1][0] == a != COMMA;
    assert OneOf([a], [], [a]);
  }
}
