/** The file-name filter of directory listings and access rules: `*`, `?` and `{a,b}` patterns,
    matched leftmost-first under a budget of iterations shared by all nested calls. */
module Ls {
  import opened Bytes
  import opened Strings

  const STAR: Byte := 42
  const QUERY: Byte := 63
  const OPEN: Byte := 123
  const CLOSE: Byte := 125
  const COMMA: Byte := 44
  const MAX_ITERS := 1000   // VSFTP_MATCHITERS_MAX

  const SPECIAL: set<Byte> := {STAR, QUERY, OPEN}

  // ----- the language of a filter

  /** `*` is nothing, or one byte and then a star again; `?` any one byte; a closed brace list any one
      of its pieces read together with the rest of the filter; anything else, an unclosed brace
      too, is itself. */
  predicate Lang(f: Str, n: Str)
    decreases |f|, |n|
  {
    if f == [] then n == []
    else if f[0] == STAR then Lang(f[1..], n) || (n != [] && Lang(f, n[1..]))
    else if f[0] == QUERY then n != [] && Lang(f[1..], n[1..])
    else if f[0] == OPEN && Locate(f[1..], [CLOSE]).Some? then
      var j := Locate(f[1..], [CLOSE]).value;
      OneOf(f[1..][..j], f[1..][j + 1..], n)
    else n != [] && n[0] == f[0] && Lang(f[1..], n[1..])
  }

  /** One of the comma-separated pieces of `list`, then `tail`. */
  predicate OneOf(list: Str, tail: Str, n: Str)
    decreases |list| + |tail| + 1, |n|, |list|
  {
    var (piece, more) := Split(list, [COMMA]);
    Lang(piece + tail, n) || (Locate(list, [COMMA]).Some? && OneOf(more, tail, n))
  }

  // ----- the matcher as a function of its loop state

  datatype Verdict = Verdict(ok: bool, iters: nat)

  /** The literal text up to the next special byte, that byte (NUL if none), and what follows. */
  function NextToken(f: Str): (r: (Str, Byte, Str))
    requires f != []
    ensures |r.2| < |f|
  {
    if f[0] in SPECIAL then ([], f[0], f[1..])
    else if |f| == 1 then (f, NUL, [])
    else
      var (lit, tok, rest) := NextToken(f[1..]);
      ([f[0]] + lit, tok, rest)
  }

  predicate IsLiteral(s: Str) {
    forall x | x in s :: x !in SPECIAL
  }

  /** The filter text from a token on. */
  function FromToken(tok: Byte, rest: Str): Str {
    if tok in SPECIAL then [tok] + rest else rest
  }

  lemma {:induction false} TokenParts(f: Str)
    requires f != []
    ensures var (lit, tok, rest) := NextToken(f);
            && IsLiteral(lit) && f == lit + FromToken(tok, rest)
            && (tok !in SPECIAL ==> tok == NUL && rest == [])
  {
    if f[0] !in SPECIAL && |f| > 1 {
      TokenParts(f[1..]);
      var (lit, tok, rest) := NextToken(f[1..]);
      Assoc([f[0]], lit, FromToken(tok, rest));
      assert f == [f[0]] + f[1..];
    }
  }

  /** Nothing else splits the filter so. */
  lemma {:induction false} TokenUnique(f: Str, i: nat)
    requires i < |f| && f[i] in SPECIAL && forall j | 0 <= j < i :: f[j] !in SPECIAL
    ensures NextToken(f) == (f[..i], f[i], f[i + 1..])
  {
    if i > 0 {
      TokenUnique(f[1..], i - 1);
      assert f[..i] == [f[0]] + f[1..][..i - 1];
      assert f[i + 1..] == f[1..][i..];
    }
  }

  /** The name after the literal: at its start, or after a star at its first occurrence. */
  function Consume(n: Str, lit: Str, anywhere: bool): Option<Str> {
    if lit == [] then Some(n)
    else match Locate(n, lit)
      case None => None
      case Some(i) => if !anywhere && i > 0 then None else Some(n[i + |lit|..])
  }

  /** The main loop, from filter text `f`, name text `n`, the last token seen and the counter. */
  function Loop(f: Str, n: Str, last: Byte, iters: nat): Verdict
    decreases |f|, 2
  {
    if f == [] || iters >= MAX_ITERS then Verdict((n == [] || last == STAR) && iters != MAX_ITERS, iters)
    else
      var (lit, tok, rest) := NextToken(f);
      match Consume(n, lit, last == STAR)
      case None => Verdict(false, iters + 1)
      case Some(m) => AtToken(tok, rest, m, iters + 1)
  }

  /** The second half of a turn: the token, once the literal before it is matched. */
  function AtToken(tok: Byte, rest: Str, m: Str, iters: nat): Verdict
    decreases |rest| + 1, 1
  {
    if tok == QUERY then
      if m == [] then Verdict(false, iters) else Loop(rest, m[1..], QUERY, iters)
    else if tok == OPEN then
      (match Locate(rest, [CLOSE])
       case Some(j) => Alts(rest[..j], rest[j + 1..], m, iters)
       case None => if m == [] || m[0] != OPEN then Verdict(false, iters)
                    else Loop(rest, m[1..], OPEN, iters))
    else Loop(rest, m, tok, iters)
  }

  /** The pieces of a brace list in turn, up to the first empty one. */
  function Alts(list: Str, tail: Str, n: Str, iters: nat): Verdict
    decreases |list| + |tail|, 3
  {
    var (alt, more) := Split(list, [COMMA]);
    if alt == [] then Verdict(false, iters)
    else
      var v := Loop(alt + tail, n, NUL, iters);
      if v.ok then v else Alts(more, tail, n, v.iters)
  }

  lemma {:induction false} NoToken(f: Str)
    requires f != [] && forall j | 0 <= j < |f| :: f[j] !in SPECIAL
    ensures NextToken(f) == (f, NUL, [])
  {
    if |f| > 1 {
      NoToken(f[1..]);
      assert f == [f[0]] + f[1..];
    }
  }

  method IsolateToken(filter: Str) returns (needed: Str, token: Byte, rest: Str)
    requires filter != [] && NUL !in filter
    ensures (needed, token, rest) == NextToken(filter)
    ensures NUL !in needed && NUL !in rest && |rest| < |filter|
    ensures token == STAR || token == QUERY || token == OPEN || (token == NUL && rest == [])
  {
    var at := LocateChars(filter, SPECIAL);
    if at.Some? {
      needed, token, rest := filter[..at.value], filter[at.value], filter[at.value + 1..];
      TokenUnique(filter, at.value);
    } else {
      needed, token, rest := filter, NUL, [];
      NoToken(filter);
    }
  }

  method MatchLiteral(name: Str, needed: Str, mustMatchHere: bool) returns (left: Option<Str>)
    requires NUL !in needed
    ensures left == Consume(name, needed, !mustMatchHere)
  {
    if needed == [] {
      return Some(name);
    }
    var hit := LocateText(name, needed);
    if hit.None? {
      return None;
    }
    if mustMatchHere && hit.value > 0 {
      return None;
    }
    return Some(name[hit.value + |needed|..]);
  }

  method SplitChar(s: Str, c: Byte) returns (found: bool, left: Str, right: Str)
    requires NUL !in s && c != NUL
    ensures found == Locate(s, [c]).Some? && (left, right) == Split(s, [c])
    ensures NUL !in left && NUL !in right && |left| + |right| <= |s| && (found ==> |left| + |right| < |s|)
  {
    var at := LocateText(s, [c]);
    if at.Some? {
      found, left, right := true, s[..at.value], s[at.value + 1..];
    } else {
      found, left, right := false, s, [];
    }
  }

  /** `vsf_filename_passes_filter`, the counter passed in and out. */
  method FilenamePassesFilter(name: Str, filter: Str, itersIn: nat) returns (ret: bool, iters: nat)
    requires NUL !in filter
    ensures Verdict(ret, iters) == Loop(filter, name, NUL, itersIn)
    decreases |filter|, 0
  {
    var filterRemain, nameRemain := filter, name;
    var lastToken, mustMatchHere := NUL, true;
    ret, iters := false, itersIn;
    ghost var goal := Loop(filter, name, NUL, itersIn);
    while filterRemain != [] && iters < MAX_ITERS
      invariant NUL !in filterRemain && |filterRemain| <= |filter|
      invariant mustMatchHere == (lastToken != STAR) || filterRemain == []
      invariant !ret && Loop(filterRemain, nameRemain, lastToken, iters) == goal
      decreases |filterRemain|
    {
      iters := iters + 1;
      var needed;
      needed, lastToken, filterRemain := IsolateToken(filterRemain);
      var left := MatchLiteral(nameRemain, needed, mustMatchHere);
      if left.None? {
        return;
      }
      nameRemain := left.value;
      assert goal == AtToken(lastToken, filterRemain, nameRemain, iters);
      if lastToken == QUERY {
        if nameRemain == [] {
          return;
        }
        nameRemain := nameRemain[1..];
        mustMatchHere := true;
      } else if lastToken == OPEN {
        mustMatchHere := true;
        var done;
        done, ret, iters := AtBrace(nameRemain, filterRemain, iters);
        if done {
          return;
        }
        nameRemain := nameRemain[1..];
      } else {
        mustMatchHere := false;
      }
    }
    if |nameRemain| > 0 && lastToken != STAR {
      return;
    }
    ret := true;
    if iters == MAX_ITERS {
      ret := false;
    }
  }

  /** The turn at an open brace: a closed list decides the match; an unclosed brace is itself. */
  method AtBrace(name: Str, rest: Str, itersIn: nat) returns (done: bool, ret: bool, iters: nat)
    requires NUL !in rest
    ensures done ==> Verdict(ret, iters) == AtToken(OPEN, rest, name, itersIn)
    ensures !done ==> name != [] && !ret && iters == itersIn
                      && AtToken(OPEN, rest, name, itersIn) == Loop(rest, name[1..], OPEN, itersIn)
    decreases |rest|, 2
  {
    done, ret, iters := true, false, itersIn;
    var found, list, tail := SplitChar(rest, CLOSE);
    if found {
      ret, iters := TryAlternatives(name, list, tail, iters);
    } else if name == [] || name[0] != OPEN {
      return;
    } else {
      done := false;
    }
  }

  /** The inner loop over a brace list. */
  method TryAlternatives(name: Str, list: Str, tail: Str, itersIn: nat) returns (ret: bool, iters: nat)
    requires NUL !in list && NUL !in tail
    ensures Verdict(ret, iters) == Alts(list, tail, name, itersIn)
    decreases |list| + |tail|, 1
  {
    var found, alt, more := SplitChar(list, COMMA);
    ret, iters := false, itersIn;
    while alt != []
      invariant NUL !in alt && NUL !in more && |alt| + |more| <= |list|
      invariant Alts(list, tail, name, itersIn) ==
                if alt == [] then Verdict(false, iters)
                else var v := Loop(alt + tail, name, NUL, iters); if v.ok then v else Alts(more, tail, name, v.iters)
      decreases |alt| + |more|
    {
      ret, iters := FilenamePassesFilter(name, alt + tail, iters);
      if ret {
        return;
      }
      ghost var was := more;
      found, alt, more := SplitChar(more, COMMA);
      assert Alts(was, tail, name, iters) ==
             if alt == [] then Verdict(false, iters)
             else var v := Loop(alt + tail, name, NUL, iters); if v.ok then v else Alts(more, tail, name, v.iters);
    }
  }
}
