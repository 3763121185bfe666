/** What the filter's leftmost-first matching means: it is sound for the declared language, and
    among the filters without braces it is complete for exactly those described here. */
module Glob {
  import opened Bytes
  import opened Strings
  import opened Ls

  // ----- one turn of the loop at a time

  lemma LoopEnds(f: Str, n: Str, last: Byte, iters: nat)
    requires f == [] || iters >= MAX_ITERS
    ensures Loop(f, n, last, iters) == Verdict((n == [] || last == STAR) && iters != MAX_ITERS, iters)
  {
  }

  lemma LoopTurns(f: Str, n: Str, last: Byte, iters: nat, lit: Str, tok: Byte, rest: Str)
    requires f != [] && iters < MAX_ITERS && (lit, tok, rest) == NextToken(f)
    ensures Loop(f, n, last, iters) == match Consume(n, lit, last == STAR)
                                       case None => Verdict(false, iters + 1)
                                       case Some(m) => AtToken(tok, rest, m, iters + 1)
  {
  }

  // ----- the budget

  /** The shared counter only grows, and never past the budget; the cap only ever rejects. */
  lemma {:induction false} LoopCounts(f: Str, n: Str, last: Byte, iters: nat)
    requires iters <= MAX_ITERS
    ensures var v := Loop(f, n, last, iters);
            iters <= v.iters <= MAX_ITERS && (v.ok ==> v.iters < MAX_ITERS)
    decreases |f|, 2
  {
    if f != [] && iters < MAX_ITERS {
      var (lit, tok, rest) := NextToken(f);
      var m := Consume(n, lit, last == STAR);
      if m.Some? { TokenCounts(tok, rest, m.value, iters + 1); }
    }
  }

  lemma {:induction false} TokenCounts(tok: Byte, rest: Str, m: Str, iters: nat)
    requires iters <= MAX_ITERS
    ensures var v := AtToken(tok, rest, m, iters);
            iters <= v.iters <= MAX_ITERS && (v.ok ==> v.iters < MAX_ITERS)
    decreases |rest| + 1, 1
  {
    if tok == OPEN && Locate(rest, [CLOSE]).Some? {
      var j := Locate(rest, [CLOSE]).value;
      AltsCounts(rest[..j], rest[j + 1..], m, iters);
    } else if tok == QUERY || tok == OPEN {
      if m != [] { LoopCounts(rest, m[1..], tok, iters); }
    } else {
      LoopCounts(rest, m, tok, iters);
    }
  }

  lemma {:induction false} AltsCounts(list: Str, tail: Str, n: Str, iters: nat)
    requires iters <= MAX_ITERS
    ensures var v := Alts(list, tail, n, iters);
            iters <= v.iters <= MAX_ITERS && (v.ok ==> v.iters < MAX_ITERS)
    decreases |list| + |tail|, 3
  {
    var (alt, more) := Split(list, [COMMA]);
    if alt != [] {
      LoopCounts(alt + tail, n, NUL, iters);
      AltsCounts(more, tail, n, Loop(alt + tail, n, NUL, iters).iters);
    }
  }

  // ----- soundness

  /** A star already read is a star still to be matched. */
  function Pattern(last: Byte, f: Str): Str {
    if last == STAR then [STAR] + f else f
  }

  /** A literal at the front of a filter matches itself and nothing else. */
  lemma {:induction false} LiteralFront(lit: Str, f: Str, n: Str)
    requires IsLiteral(lit)
    ensures Lang(lit + f, n) <==> lit <= n && Lang(f, n[|lit|..])
  {
    if lit == [] {
      assert lit + f == f && n[0..] == n;
    } else {
      assert lit[0] in lit;
      assert (lit + f)[1..] == lit[1..] + f;
      if n != [] && n[0] == lit[0] {
        LiteralFront(lit[1..], f, n[1..]);
        assert |lit| <= |n| ==> n[1..][|lit| - 1..] == n[|lit|..];
        assert lit <= n <==> lit[1..] <= n[1..] by {
          assert lit == [lit[0]] + lit[1..] && n == [n[0]] + n[1..];
        }
      }
    }
  }

  /** A star is any text. */
  lemma {:induction false} StarTakes(f: Str, n: Str, k: nat)
    requires k <= |n| && Lang(f, n[k..])
    ensures Lang([STAR] + f, n)
    decreases k
  {
    assert ([STAR] + f)[1..] == f;
    if k == 0 {
      assert n[0..] == n;
    } else {
      assert n[1..][k - 1..] == n[k..];
      StarTakes(f, n[1..], k - 1);
    }
  }

  lemma {:induction false} StarGives(f: Str, n: Str) returns (k: nat)
    requires Lang([STAR] + f, n)
    ensures k <= |n| && Lang(f, n[k..])
    decreases |n|
  {
    assert ([STAR] + f)[1..] == f;
    if Lang(f, n) {
      k := 0;
      assert n[0..] == n;
    } else {
      var j := StarGives(f, n[1..]);
      k := j + 1;
      assert n[1..][j..] == n[k..];
    }
  }

  /** What the literal step leaves is matched by the rest if the whole is. */
  lemma ConsumeSound(n: Str, lit: Str, f: Str, last: Byte)
    requires IsLiteral(lit)
    requires Consume(n, lit, last == STAR).Some? && Lang(f, Consume(n, lit, last == STAR).value)
    ensures Lang(Pattern(last, lit + f), n)
  {
    var m := Consume(n, lit, last == STAR).value;
    var i := if lit == [] then 0 else Locate(n, lit).value;
    LocateIs(n, lit);
    assert n[i..][|lit|..] == m;
    assert n[i..][..|lit|] == lit;
    LiteralFront(lit, f, n[i..]);
    if last == STAR {
      StarTakes(lit + f, n, i);
    } else {
      assert n[0..] == n;
    }
  }

  /** Whatever the matcher accepts is in the language, from any state of its loop. */
  lemma {:induction false} LoopSound(f: Str, n: Str, last: Byte, iters: nat)
    requires Loop(f, n, last, iters).ok && iters <= MAX_ITERS
    ensures Lang(Pattern(last, f), n)
    decreases |f|, 2
  {
    if f == [] || iters >= MAX_ITERS {
      CapSound(f, n, last, iters);
    } else {
      var (lit, tok, rest) := NextToken(f);
      LoopTurns(f, n, last, iters, lit, tok, rest);
      var m := Consume(n, lit, last == STAR).value;
      TokenSound(tok, rest, m, iters + 1);
      TokenParts(f);
      ConsumeSound(n, lit, FromToken(tok, rest), last);
    }
  }

  lemma {:induction false} TokenSound(tok: Byte, rest: Str, m: Str, iters: nat)
    requires AtToken(tok, rest, m, iters).ok && iters <= MAX_ITERS
    ensures Lang(FromToken(tok, rest), m)
    decreases |rest| + 1, 1
  {
    assert tok in SPECIAL ==> FromToken(tok, rest)[1..] == rest;
    if tok == OPEN && Locate(rest, [CLOSE]).Some? {
      var j := Locate(rest, [CLOSE]).value;
      AltsSound(rest[..j], rest[j + 1..], m, iters);
    } else if tok == QUERY || tok == OPEN {
      LoopSound(rest, m[1..], tok, iters);
    } else {
      LoopSound(rest, m, tok, iters);
    }
  }

  /** Leaving the loop on the iteration cap is never an acceptance. */
  lemma CapSound(f: Str, n: Str, last: Byte, iters: nat)
    requires f == [] || iters >= MAX_ITERS
    requires Loop(f, n, last, iters).ok && iters <= MAX_ITERS
    ensures Lang(Pattern(last, f), n)
  {
    if last == STAR {
      StarTakes([], n, |n|);
    }
  }

  lemma {:induction false} AltsSound(list: Str, tail: Str, n: Str, iters: nat)
    requires Alts(list, tail, n, iters).ok && iters <= MAX_ITERS
    ensures OneOf(list, tail, n)
    decreases |list| + |tail|, 3
  {
    var (alt, more) := Split(list, [COMMA]);
    var v := Loop(alt + tail, n, NUL, iters);
    LoopCounts(alt + tail, n, NUL, iters);
    if v.ok {
      LoopSound(alt + tail, n, NUL, iters);
    } else {
      AltsSound(more, tail, n, v.iters);
      if Locate(list, [COMMA]).None? { EmptyAlts(tail, n, v.iters); }
    }
  }

  lemma EmptyAlts(tail: Str, n: Str, iters: nat)
    ensures !Alts([], tail, n, iters).ok
  {
  }

  // ----- completeness, where it holds

  predicate Braceless(f: Str) { OPEN !in f }

  function Last(s: Str): int {
    if s == [] then -1 else s[|s| - 1]
  }

  /** Turns of the loop a braceless filter needs. */
  function Cost(f: Str): nat
    decreases |f|
  {
    if f == [] then 0 else 1 + Cost(NextToken(f).2)
  }

  /** A `?` with a literal byte right behind it. */
  predicate Pinned(f: Str, j: nat) {
    j + 1 < |f| && f[j] == QUERY && f[j + 1] !in SPECIAL
  }

  predicate Loose(f: Str) {
    forall j: nat | j < |f| :: !Pinned(f, j)
  }

  /** What may follow a star: it ends in a star, and pins no literal behind a `?`. */
  predicate TameAfterStar(f: Str) {
    Braceless(f) && (f == [] || Last(f) == STAR) && Loose(f)
  }

  /** What may follow a `?` to the right of a star. */
  predicate TameAfterQuery(f: Str) {
    f != [] && f[0] in SPECIAL && TameAfterStar(f)
  }

  function AfterFirstStar(f: Str): Str {
    if f == [] then [] else if f[0] == STAR then f[1..] else AfterFirstStar(f[1..])
  }

  /** If it has a star, what follows the first is tame. */
  predicate Tame(f: Str) {
    Braceless(f) && (STAR in f ==> TameAfterStar(AfterFirstStar(f)))
  }

  predicate Passes(f: Str, n: Str) {
    Loop(f, n, NUL, 0).ok
  }

  /** The first token of a braceless filter. */
  lemma NextBraceless(f: Str)
    requires Braceless(f) && f != []
    ensures var (lit, tok, rest) := NextToken(f);
            && IsLiteral(lit) && Braceless(rest) && f == lit + FromToken(tok, rest)
            && (tok == STAR || tok == QUERY || (tok == NUL && rest == [] && lit == f))
  {
    TokenParts(f);
    var (lit, tok, rest) := NextToken(f);
    assert tok in SPECIAL ==> f[|lit|] == tok && tok in f;
    assert forall x | x in rest :: x in f;
  }

  lemma PinnedLater(f: Str, lit: Str, tok: Byte, rest: Str, j: nat)
    requires f == lit + ([tok] + rest)
    ensures Pinned(f, |lit| + 1 + j) <==> Pinned(rest, j)
  {
    assert j < |rest| ==> f[|lit| + 1 + j] == rest[j];
    assert j + 1 < |rest| ==> f[|lit| + 2 + j] == rest[j + 1];
  }

  lemma LooseSplits(f: Str, lit: Str, tok: Byte, rest: Str)
    requires f == lit + ([tok] + rest) && IsLiteral(lit) && (tok == STAR || tok == QUERY)
    ensures Loose(f) <==> Loose(rest) && (tok == QUERY && rest != [] ==> rest[0] in SPECIAL)
  {
    var k := |lit| + 1;
    assert forall j | 0 <= j < |lit| :: f[j] == lit[j] && lit[j] in lit;
    assert rest != [] ==> f[k] == rest[0];
    assert f[|lit|] == tok;
    forall j: nat
      ensures Pinned(f, k + j) <==> Pinned(rest, j)
    {
      PinnedLater(f, lit, tok, rest, j);
    }
    assert Pinned(f, |lit|) <==> tok == QUERY && rest != [] && rest[0] !in SPECIAL;
    if Loose(rest) && (tok == QUERY && rest != [] ==> rest[0] in SPECIAL) {
      forall j: nat | j < |f|
        ensures !Pinned(f, j)
      {
        if j >= k { assert !Pinned(rest, j - k); }
      }
    } else if !Loose(rest) {
      var j: nat :| j < |rest| && Pinned(rest, j);
      assert Pinned(f, k + j);
    }
  }

  lemma TameAfterSplits(f: Str, lit: Str, tok: Byte, rest: Str)
    requires f == lit + ([tok] + rest) && IsLiteral(lit) && Braceless(f) && (tok == STAR || tok == QUERY)
    ensures TameAfterStar(f) <==> if tok == STAR then TameAfterStar(rest) else TameAfterQuery(rest)
  {
    LooseSplits(f, lit, tok, rest);
    assert Last(f) == if rest == [] then tok else Last(rest);
    assert forall x | x in rest :: x in f;
  }

  lemma {:induction false} FirstStarSplits(f: Str, lit: Str, tok: Byte, rest: Str)
    requires f == lit + ([tok] + rest) && IsLiteral(lit) && (tok == STAR || tok == QUERY)
    ensures AfterFirstStar(f) == if tok == STAR then rest else AfterFirstStar(rest)
    ensures STAR in f <==> tok == STAR || STAR in rest
    decreases |lit|
  {
    if lit == [] {
      assert f == [tok] + rest && f[1..] == rest;
    } else {
      assert lit[0] in lit && f[0] == lit[0] && f == [f[0]] + f[1..];
      FirstStarSplits(f[1..], lit[1..], tok, rest);
    }
  }

  /** Tameness, token by token. */
  lemma TameSplits(f: Str, lit: Str, tok: Byte, rest: Str)
    requires f == lit + ([tok] + rest) && IsLiteral(lit) && Braceless(f) && (tok == STAR || tok == QUERY)
    ensures Tame(f) <==> if tok == STAR then TameAfterStar(rest) else Tame(rest)
    ensures STAR in f <==> tok == STAR || STAR in rest
  {
    FirstStarSplits(f, lit, tok, rest);
    assert forall x | x in rest :: x in f;
  }

  lemma StarAbsorbs(f: Str, n: Str, i: nat)
    requires i <= |n| && Lang([STAR] + f, n[i..])
    ensures Lang([STAR] + f, n)
  {
    var k := StarGives(f, n[i..]);
    assert n[i..][k..] == n[i + k..];
    StarTakes(f, n, i + k);
  }

  /** Question marks and then a star match anything longer than what they match. */
  lemma {:induction false} LongerIsFine(f: Str, n: Str, i: nat)
    requires TameAfterQuery(f) && i <= |n| && Lang(f, n[i..])
    ensures Lang(f, n)
    decreases |f|
  {
    var rest := f[1..];
    assert f == [f[0]] + rest && f == [] + ([f[0]] + rest) && f[0] in f;
    TameAfterSplits(f, [], f[0], rest);
    if f[0] == STAR {
      StarAbsorbs(rest, n, i);
    } else {
      assert n[i..][1..] == n[1..][i..];
      LongerIsFine(rest, n[1..], i);
    }
  }

  /** After a star, the first occurrence of a literal is as good as any. */
  lemma FirstIsAsGood(lit: Str, f: Str, n: Str)
    requires IsLiteral(lit) && TameAfterQuery(f) && Lang([STAR] + (lit + f), n)
    ensures Consume(n, lit, true).Some? && Lang(f, Consume(n, lit, true).value)
  {
    var k := StarGives(lit + f, n);
    LiteralFront(lit, f, n[k..]);
    assert n[k..][|lit|..] == n[k + |lit|..];
    if lit == [] {
      LongerIsFine(f, n, k);
    } else {
      LocateIs(n, lit);
      assert MatchAt(n, lit, k) by { assert n[k..][..|lit|] == lit; }
      var i := Locate(n, lit).value;
      assert n[i + |lit|..][k - i..] == n[k + |lit|..];
      LongerIsFine(f, n[i + |lit|..], k - i);
    }
  }

  lemma {:induction false} StarComplete(f: Str, n: Str, iters: nat)
    requires TameAfterStar(f) && iters + Cost(f) < MAX_ITERS && Lang([STAR] + f, n)
    ensures Loop(f, n, STAR, iters).ok
    decreases |f|, 1
  {
    if f != [] {
      var (lit, tok, rest) := NextToken(f);
      NextBraceless(f);
      assert tok != NUL by { assert f[|f| - 1] in f; }
      var g := [tok] + rest;
      TameAfterSplits(f, lit, tok, rest);
      assert g == [] + g;
      TameAfterSplits(g, [], tok, rest);
      FirstIsAsGood(lit, g, n);
      LoopTurns(f, n, STAR, iters, lit, tok, rest);
      QueryIsTame(rest);
      TokenComplete(tok, rest, Consume(n, lit, true).value, iters + 1);
    } else {
      LoopEnds(f, n, STAR, iters);
    }
  }

  lemma {:induction false} QueryIsTame(f: Str)
    ensures TameAfterQuery(f) ==> Tame(f)
  {
    if TameAfterQuery(f) {
      assert f[0] in f && f == [] + ([f[0]] + f[1..]) && f == [f[0]] + f[1..];
      TameAfterSplits(f, [], f[0], f[1..]);
      if f[0] == QUERY { QueryIsTame(f[1..]); }
    }
  }

  lemma AnchoredLiteral(lit: Str, tail: Str, n: Str)
    requires IsLiteral(lit) && Lang(lit + tail, n)
    ensures |lit| <= |n| && Consume(n, lit, false) == Some(n[|lit|..]) && Lang(tail, n[|lit|..])
  {
    LiteralFront(lit, tail, n);
    LocateIs(n, lit);
    if lit != [] { assert MatchAt(n, lit, 0); }
  }

  lemma {:induction false} TameComplete(f: Str, n: Str, last: Byte, iters: nat)
    requires last != STAR && Tame(f) && iters + Cost(f) < MAX_ITERS && Lang(f, n)
    ensures Loop(f, n, last, iters).ok
    decreases |f|, 1
  {
    if f != [] {
      var (lit, tok, rest) := NextToken(f);
      NextBraceless(f);
      if tok != NUL { TameSplits(f, lit, tok, rest); }
      AnchoredLiteral(lit, FromToken(tok, rest), n);
      LoopTurns(f, n, last, iters, lit, tok, rest);
      TokenComplete(tok, rest, n[|lit|..], iters + 1);
    } else {
      LoopEnds(f, n, last, iters);
    }
  }

  lemma {:induction false} TokenComplete(tok: Byte, rest: Str, m: Str, iters: nat)
    requires tok == QUERY ==> Tame(rest)
    requires tok == STAR ==> TameAfterStar(rest)
    requires tok == STAR || tok == QUERY || (tok == NUL && rest == [])
    requires iters + Cost(rest) < MAX_ITERS && Lang(FromToken(tok, rest), m)
    ensures AtToken(tok, rest, m, iters).ok
    decreases |rest| + 1, 0
  {
    assert tok in SPECIAL ==> FromToken(tok, rest)[1..] == rest;
    if tok == QUERY {
      TameComplete(rest, m[1..], QUERY, iters);
    } else if tok == STAR {
      StarComplete(rest, m, iters);
    } else {
      LoopEnds(rest, m, tok, iters);
    }
  }

  /** With more tokens than the budget a braceless filter accepts nothing. */
  lemma {:induction false} OverBudget(f: Str, n: Str, last: Byte, iters: nat)
    requires Braceless(f) && iters <= MAX_ITERS <= iters + Cost(f)
    ensures !Loop(f, n, last, iters).ok
    decreases |f|, 1
  {
    if f != [] && iters < MAX_ITERS {
      var (lit, tok, rest) := NextToken(f);
      NextBraceless(f);
      LoopTurns(f, n, last, iters, lit, tok, rest);
      var m := Consume(n, lit, last == STAR);
      if m.Some? { TokenOverBudget(tok, rest, m.value, iters + 1); }
    } else {
      LoopEnds(f, n, last, iters);
    }
  }

  lemma {:induction false} TokenOverBudget(tok: Byte, rest: Str, m: Str, iters: nat)
    requires tok != OPEN && Braceless(rest) && iters <= MAX_ITERS <= iters + Cost(rest)
    ensures !AtToken(tok, rest, m, iters).ok
    decreases |rest| + 1, 0
  {
    if tok == QUERY {
      if m != [] { OverBudget(rest, m[1..], QUERY, iters); }
    } else {
      OverBudget(rest, m, tok, iters);
    }
  }

  /** For a tame filter the matcher decides the language exactly, if the filter fits the budget, and
      rejects everything if it does not. */
  lemma TameExact(f: Str, n: Str)
    requires Tame(f)
    ensures Passes(f, n) <==> Cost(f) < MAX_ITERS && Lang(f, n)
  {
    if Cost(f) >= MAX_ITERS { OverBudget(f, n, NUL, 0); }
    if Passes(f, n) { LoopSound(f, n, NUL, 0); }
    if Cost(f) < MAX_ITERS && Lang(f, n) { TameComplete(f, n, NUL, 0); }
  }

  // ----- and where it does not

  /** A name of a braceless filter: stars as nothing, question marks as some byte. */
  function Instance(f: Str): Str {
    if f == [] then []
    else if f[0] == STAR then Instance(f[1..])
    else [if f[0] == QUERY then NUL else f[0]] + Instance(f[1..])
  }

  lemma {:induction false} InstanceMatches(f: Str)
    requires Braceless(f)
    ensures Lang(f, Instance(f))
    ensures (exists x :: x in f && x != STAR) ==> Instance(f) != []
  {
    if f != [] {
      var m := Instance(f[1..]);
      InstanceMatches(f[1..]);
      assert f[0] in f && f == [f[0]] + f[1..];
      if f[0] == STAR {
        assert m[0..] == m;
        StarTakes(f[1..], m, 0);
      } else {
        assert Instance(f)[1..] == m;
      }
    }
  }

  function Other(b: Byte): Byte {
    if b == 0 then 1 else 0
  }

  /** For the filter text after a star: instances up to the stretch where the leftmost choice goes wrong,
      then a decoy that begins as that stretch does, then the real thing. */
  function Decoyed(f: Str): Str
    decreases |f|
  {
    if f == [] then []
    else
      var (lit, tok, rest) := NextToken(f);
      lit + if tok == STAR then Decoyed(rest) else if tok == QUERY then [NUL] + DecoyedQuery(rest, f) else Instance(f)
  }

  /** The same after a `?`, in the stretch that starts at `whole`. */
  function DecoyedQuery(g: Str, whole: Str): Str
    decreases |g|
  {
    if g == [] then Instance(whole)
    else if g[0] == QUERY then [NUL] + DecoyedQuery(g[1..], whole)
    else if g[0] == STAR then Decoyed(g[1..])
    else [Other(g[0])] + Instance(whole)
  }

  predicate EndsIn(a: Str, b: Str) {
    |b| <= |a| && a[|a| - |b|..] == b
  }

  lemma EndsInMore(p: Str, a: Str, b: Str)
    requires EndsIn(a, b)
    ensures EndsIn(p + a, b)
  {
  }

  lemma StarThen(f: Str, lit: Str, tok: Byte, rest: Str, tail: Str)
    requires f == lit + ([tok] + rest) && IsLiteral(lit)
    requires (tok == STAR && Lang([STAR] + rest, tail)) || (tok == QUERY && tail != [] && Lang(rest, tail[1..]))
    ensures Lang([STAR] + f, lit + tail)
  {
    assert ([tok] + rest)[1..] == rest && (lit + tail)[|lit|..] == tail && (lit + tail)[0..] == lit + tail;
    LiteralFront(lit, [tok] + rest, lit + tail);
    StarTakes(f, lit + tail, 0);
  }

  lemma StarSkips(f: Str, n: Str)
    requires Braceless(f) && EndsIn(n, Instance(f))
    ensures Lang([STAR] + f, n)
  {
    InstanceMatches(f);
    StarTakes(f, n, |n| - |Instance(f)|);
  }

  /** The decoyed name is in the language... */
  lemma {:induction false} DecoyedMatches(f: Str)
    requires Braceless(f) && !TameAfterStar(f)
    ensures Lang([STAR] + f, Decoyed(f))
    decreases |f|
  {
    var (lit, tok, rest) := NextToken(f);
    NextBraceless(f);
    if tok == STAR {
      TameAfterSplits(f, lit, tok, rest);
      DecoyedMatches(rest);
      StarThen(f, lit, tok, rest, Decoyed(rest));
    } else if tok == QUERY {
      TameAfterSplits(f, lit, tok, rest);
      DecoyedQueryMatches(rest, f);
      var q := DecoyedQuery(rest, f);
      assert ([NUL] + q)[1..] == q;
      if Lang(rest, q) {
        StarThen(f, lit, tok, rest, [NUL] + q);
      } else {
        EndsInMore([NUL], q, Instance(f));
        EndsInMore(lit, [NUL] + q, Instance(f));
        StarSkips(f, Decoyed(f));
      }
    } else {
      EndsInMore(lit, Instance(f), Instance(f));
      StarSkips(f, Decoyed(f));
    }
  }

  lemma {:induction false} DecoyedQueryMatches(g: Str, whole: Str)
    requires Braceless(g) && !TameAfterQuery(g)
    ensures Lang(g, DecoyedQuery(g, whole)) || EndsIn(DecoyedQuery(g, whole), Instance(whole))
    decreases |g|
  {
    if g != [] && g[0] in SPECIAL {
      assert g[0] in g && g == [] + ([g[0]] + g[1..]) && g == [g[0]] + g[1..];
      TameAfterSplits(g, [], g[0], g[1..]);
      if g[0] == QUERY {
        DecoyedQueryMatches(g[1..], whole);
        var q := DecoyedQuery(g[1..], whole);
        assert ([NUL] + q)[1..] == q;
        if !Lang(g[1..], q) { EndsInMore([NUL], q, Instance(whole)); }
      } else {
        DecoyedMatches(g[1..]);
      }
    } else if g != [] {
      EndsInMore([Other(g[0])], Instance(whole), Instance(whole));
    }
  }

  lemma LeftmostIsFront(lit: Str, tail: Str, anywhere: bool)
    ensures Consume(lit + tail, lit, anywhere) == Some(tail)
  {
    LocateIs(lit + tail, lit);
    assert (lit + tail)[|lit|..] == tail;
    if lit != [] { assert MatchAt(lit + tail, lit, 0); }
  }

  /** A turn on a name that starts with the literal takes just that, and the token its byte. */
  lemma TurnTakesFront(f: Str, tail: Str, last: Byte, iters: nat)
    requires f != [] && iters < MAX_ITERS
    ensures var (lit, tok, rest) := NextToken(f);
            && (tok == STAR || tok == NUL ==> Loop(f, lit + tail, last, iters) == Loop(rest, tail, tok, iters + 1))
            && (tok == QUERY && tail != [] ==>
                  Loop(f, lit + tail, last, iters) == Loop(rest, tail[1..], QUERY, iters + 1))
  {
    var (lit, tok, rest) := NextToken(f);
    LeftmostIsFront(lit, tail, last == STAR);
    LoopTurns(f, lit + tail, last, iters, lit, tok, rest);
  }

  /** ... but the leftmost choice takes the decoy. */
  lemma {:induction false} DecoyedRejected(f: Str, iters: nat)
    requires Braceless(f) && !TameAfterStar(f) && iters <= MAX_ITERS
    ensures !Loop(f, Decoyed(f), STAR, iters).ok
    decreases |f|
  {
    if iters < MAX_ITERS {
      var (lit, tok, rest) := NextToken(f);
      NextBraceless(f);
      if tok == STAR {
        TameAfterSplits(f, lit, tok, rest);
        TurnTakesFront(f, Decoyed(rest), STAR, iters);
        DecoyedRejected(rest, iters + 1);
      } else if tok == QUERY {
        QueryDecoyTaken(f, iters);
        DecoyedQueryRejected(rest, f, iters + 1);
      } else {
        LastDecoyRejected(f, iters);
      }
    } else {
      LoopEnds(f, Decoyed(f), STAR, iters);
    }
  }

  lemma QueryDecoyTaken(f: Str, iters: nat)
    requires Braceless(f) && f != [] && NextToken(f).1 == QUERY && !TameAfterStar(f) && iters < MAX_ITERS
    ensures var rest := NextToken(f).2;
            && Loop(f, Decoyed(f), STAR, iters) == Loop(rest, DecoyedQuery(rest, f), QUERY, iters + 1)
            && Braceless(rest) && !TameAfterQuery(rest) && Instance(f) != []
  {
    var (lit, tok, rest) := NextToken(f);
    NextBraceless(f);
    TameAfterSplits(f, lit, tok, rest);
    var q := DecoyedQuery(rest, f);
    assert ([NUL] + q)[1..] == q;
    TurnTakesFront(f, [NUL] + q, STAR, iters);
    assert f[|lit|] == QUERY && f[|lit|] in f;
    InstanceMatches(f);
  }

  lemma LastDecoyRejected(f: Str, iters: nat)
    requires Braceless(f) && f != [] && NextToken(f).1 == NUL && iters < MAX_ITERS
    ensures !Loop(f, Decoyed(f), STAR, iters).ok
  {
    var (lit, _, _) := NextToken(f);
    NextBraceless(f);
    TurnTakesFront(f, Instance(f), STAR, iters);
    assert f[0] in f && f[0] in lit;
    InstanceMatches(f);
    LoopEnds([], Instance(f), NUL, iters + 1);
  }

  lemma {:induction false} DecoyedQueryRejected(g: Str, whole: Str, iters: nat)
    requires Braceless(g) && !TameAfterQuery(g) && Instance(whole) != [] && iters <= MAX_ITERS
    ensures !Loop(g, DecoyedQuery(g, whole), QUERY, iters).ok
    decreases |g|
  {
    var n := DecoyedQuery(g, whole);
    if g == [] || iters >= MAX_ITERS {
      LoopEnds(g, n, QUERY, iters);
    } else {
      var (lit, tok, rest) := NextToken(g);
      LoopTurns(g, n, QUERY, iters, lit, tok, rest);
      if g[0] in SPECIAL {
        assert g[0] in g && g == [] + ([g[0]] + g[1..]);
        TameAfterSplits(g, [], g[0], g[1..]);
        if g[0] == QUERY {
          assert n[1..] == DecoyedQuery(g[1..], whole);
          DecoyedQueryRejected(g[1..], whole, iters + 1);
        } else {
          DecoyedRejected(g[1..], iters + 1);
        }
      } else {
        WrongByte(lit, n);
      }
    }
  }

  lemma WrongByte(lit: Str, n: Str)
    requires lit != [] && n != [] && n[0] != lit[0]
    ensures Consume(n, lit, false) == None
  {
    LocateIs(n, lit);
    if |lit| <= |n| { assert n[0..|lit|][0] == n[0]; }
  }

  /** A whole filter: an instance of what stands before the first star, then the decoyed rest. */
  function Counterexample(f: Str): Str {
    if f == [] then []
    else if f[0] == STAR then Decoyed(f[1..])
    else [if f[0] == QUERY then NUL else f[0]] + Counterexample(f[1..])
  }

  lemma {:induction false} CounterexampleMatches(f: Str)
    requires Braceless(f) && STAR in f && !Tame(f)
    ensures Lang(f, Counterexample(f))
  {
    assert f[0] in f && f == [f[0]] + f[1..];
    if f[0] == STAR {
      assert forall x | x in f[1..] :: x in f;
      DecoyedMatches(f[1..]);
    } else {
      assert forall x | x in f[1..] :: x in f;
      CounterexampleMatches(f[1..]);
      assert Counterexample(f)[1..] == Counterexample(f[1..]);
    }
  }

  function AfterLiteral(tok: Byte, rest: Str): Str {
    if tok == STAR then Decoyed(rest) else if tok == QUERY then [NUL] + Counterexample(rest) else []
  }

  lemma {:induction false} CounterexampleSplits(f: Str)
    requires Braceless(f) && f != []
    ensures var (lit, tok, rest) := NextToken(f); Counterexample(f) == lit + AfterLiteral(tok, rest)
  {
    assert f[0] in f;
    if f[0] !in SPECIAL && |f| > 1 {
      assert forall x | x in f[1..] :: x in f;
      CounterexampleSplits(f[1..]);
      var (lit, tok, rest) := NextToken(f[1..]);
      Assoc([f[0]], lit, AfterLiteral(tok, rest));
    } else if f[0] in SPECIAL {
      assert [] + AfterLiteral(f[0], f[1..]) == AfterLiteral(f[0], f[1..]);
    } else {
      assert f[1..] == [] && Counterexample([]) == [];
    }
  }

  lemma UntamedNext(f: Str)
    requires Braceless(f) && STAR in f && !Tame(f)
    ensures var (_, tok, rest) := NextToken(f);
            && Braceless(rest)
            && ((tok == STAR && !TameAfterStar(rest)) || (tok == QUERY && STAR in rest && !Tame(rest)))
  {
    var (lit, tok, rest) := NextToken(f);
    NextBraceless(f);
    if tok != NUL {
      TameSplits(f, lit, tok, rest);
    }
  }

  lemma {:induction false} CounterexampleRejected(f: Str, last: Byte, iters: nat)
    requires Braceless(f) && STAR in f && !Tame(f) && last != STAR && iters <= MAX_ITERS
    ensures !Loop(f, Counterexample(f), last, iters).ok
    decreases |f|
  {
    if iters < MAX_ITERS {
      var (lit, tok, rest) := NextToken(f);
      var tail := AfterLiteral(tok, rest);
      UntamedNext(f);
      CounterexampleSplits(f);
      TurnTakesFront(f, tail, last, iters);
      if tok == STAR {
        DecoyedRejected(rest, iters + 1);
      } else {
        assert tail[1..] == Counterexample(rest);
        CounterexampleRejected(rest, QUERY, iters + 1);
      }
    } else {
      LoopEnds(f, Counterexample(f), last, iters);
    }
  }

  /** The whole story for filters without braces: the matcher accepts exactly the names the filter
      describes if and only if the filter fits the budget and, when it has a star, ends in one and
      has no literal byte directly behind a `?` to the right of the first. */
  lemma BracelessExact(f: Str)
    requires Braceless(f)
    ensures (forall n :: Passes(f, n) <==> Lang(f, n)) <==> Cost(f) < MAX_ITERS && Tame(f)
  {
    if Tame(f) {
      forall n ensures Passes(f, n) <==> Cost(f) < MAX_ITERS && Lang(f, n) { TameExact(f, n); }
      InstanceMatches(f);
      assert Passes(f, Instance(f)) <==> Cost(f) < MAX_ITERS;
    } else {
      CounterexampleMatches(f);
      CounterexampleRejected(f, NUL, 0);
      assert !Passes(f, Counterexample(f));
    }
  }

  /** Without question marks: exact if and only if it fits the budget and has no star or ends in one. */
  lemma StarFiltersExact(f: Str)
    requires OPEN !in f && QUERY !in f
    ensures (forall n :: Passes(f, n) <==> Lang(f, n))
            <==> Cost(f) < MAX_ITERS && (STAR in f ==> Last(f) == STAR)
  {
    BracelessExact(f);
    if STAR in f {
      var pre := FirstStarAt(f);
      NoQueryIsLoose(f, pre, AfterFirstStar(f));
    }
  }

  lemma NoQueryIsLoose(f: Str, pre: Str, after: Str)
    requires f == pre + ([STAR] + after) && OPEN !in f && QUERY !in f
    ensures TameAfterStar(after) <==> Last(f) == STAR
  {
    assert Last(f) == if after == [] then STAR else Last(after);
    assert forall x | x in after :: x in f;
  }

  lemma {:induction false} FirstStarAt(f: Str) returns (pre: Str)
    requires STAR in f
    ensures f == pre + ([STAR] + AfterFirstStar(f))
  {
    assert f == [f[0]] + f[1..];
    if f[0] == STAR {
      pre := [];
    } else {
      pre := FirstStarAt(f[1..]);
      pre := [f[0]] + pre;
    }
  }

  /** For instance: the filter "*a" turns away "aba", which it describes. */
  lemma StarAMissesAba()
    ensures var a, b: Byte := 97, 98;
            Lang([STAR, a], [a, b, a]) && !Passes([STAR, a], [a, b, a])
  {
    var a, b: Byte := 97, 98;
    var f, n: Str := [STAR, a], [a, b, a];
    assert f == [STAR] + [a] && n[2..] == [a] && f[1..] == [a] && [a][1..] == [];
    assert Lang([a], n[2..]);
    StarTakes([a], n, 2);
    assert NextToken(f) == ([], STAR, [a]) by { assert f[0] in SPECIAL; assert f[1..] == [a]; assert f[..0] == []; }
    assert NextToken([a]) == ([a], NUL, []);
    LoopTurns(f, n, NUL, 0, [], STAR, [a]);
    assert n[0..] == n;
    LocateIs(n, [a]);
    assert MatchAt(n, [a], 0);
    assert Consume(n, [a], true) == Some(n[1..]);
    assert Loop([a], n, STAR, 1) == AtToken(NUL, [], n[1..], 2) == Loop([], n[1..], NUL, 2);
  }
}
