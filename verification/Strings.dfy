/** The string type: a growable, NUL-terminated buffer with its own length, and the searching,
    splitting and replacing built on it. */
module Strings {
  import opened Bytes

  // ----- what the operations mean, on values

  predicate MatchAt(s: Str, t: Str, i: int) {
    0 <= i <= |s| - |t| && s[i..i + |t|] == t
  }

  function LocateFrom(s: Str, t: Str, i: nat): Option<nat>
    decreases |s| - i
  {
    if i + |t| > |s| then None
    else if MatchAt(s, t, i) then Some(i)
    else LocateFrom(s, t, i + 1)
  }

  /** The first place `t` occurs in `s`; an empty `t` is never found. */
  function Locate(s: Str, t: Str): (r: Option<nat>)
    ensures r.Some? ==> t != [] && r.value + |t| <= |s|
  {
    LocateFromIs(s, t, 0);
    if t == [] then None else LocateFrom(s, t, 0)
  }

  lemma {:induction false} LocateFromIs(s: Str, t: Str, i: nat)
    ensures var r := LocateFrom(s, t, i);
            && (r.Some? ==> i <= r.value && MatchAt(s, t, r.value))
            && forall j {:trigger MatchAt(s, t, j)} | i <= j && (r.Some? ==> j < r.value) :: !MatchAt(s, t, j)
    decreases |s| - i
  {
    if i + |t| <= |s| && !MatchAt(s, t, i) {
      LocateFromIs(s, t, i + 1);
    }
  }

  /** It is a place, and no place is to its left. */
  lemma LocateIs(s: Str, t: Str)
    ensures var r := Locate(s, t);
            && (r.Some? ==> t != [] && MatchAt(s, t, r.value))
            && (t != [] ==>
                  forall j {:trigger MatchAt(s, t, j)} | 0 <= j && (r.Some? ==> j < r.value) :: !MatchAt(s, t, j))
  {
    LocateFromIs(s, t, 0);
  }

  /** Left part and right part around the first `t`; all of `s` and nothing if there is none. */
  function Split(s: Str, t: Str): (Str, Str) {
    match Locate(s, t)
    case None => (s, [])
    case Some(i) => (s[..i], s[i + |t|..])
  }

  /** The parts and the text between them make up the whole, and the left part ends at the first hit. */
  lemma SplitIs(s: Str, t: Str)
    ensures var (left, right) := Split(s, t);
            match Locate(s, t)
            case None => left == s && right == []
            case Some(i) => s == left + t + right && |left| == i
  {
    LocateIs(s, t);
    if Locate(s, t).Some? {
      var i := Locate(s, t).value;
      assert s[i..i + |t|] == t;
      assert s == s[..i] + s[i..i + |t|] + s[i + |t|..];
    }
  }

  /** Every `t`, leftmost first and without overlap, replaced by `u`. */
  function ReplaceAll(s: Str, t: Str, u: Str): Str
    decreases |s|
  {
    match Locate(s, t)
    case None => s
    case Some(i) => s[..i] + u + ReplaceAll(s[i + |t|..], t, u)
  }

  function Mapped(s: Str, from: Byte, to: Byte): (r: Str)
    ensures |r| == |s| && forall i | 0 <= i < |s| :: r[i] == if s[i] == from then to else s[i]
  {
    seq(|s|, i requires 0 <= i < |s| => if s[i] == from then to else s[i])
  }

  method LocateText(s: Str, text: Str) returns (at: Option<nat>)
    requires NUL !in text
    ensures at == Locate(s, text)
  {
    if |text| == 0 || |text| > |s| {
      return None;
    }
    var i := 0;
    while i <= |s| - |text|
      invariant 0 <= i <= |s| - |text| + 1
      invariant LocateFrom(s, text, i) == LocateFrom(s, text, 0)
    {
      if s[i..i + |text|] == text {
        return Some(i);
      }
      i := i + 1;
    }
    return None;
  }

  method LocateChars(s: Str, chars: set<Byte>) returns (at: Option<nat>)
    ensures at.Some? ==> at.value < |s| && s[at.value] in chars && forall j | 0 <= j < at.value :: s[j] !in chars
    ensures at.None? ==> forall j | 0 <= j < |s| :: s[j] !in chars
  {
    var i := 0;
    while i < |s|
      invariant 0 <= i <= |s|
      invariant forall j | 0 <= j < i :: s[j] !in chars
    {
      if s[i] in chars {
        return Some(i);
      }
      i := i + 1;
    }
    return None;
  }

  // ----- the buffer

  class MyStr {
    var buf: array?<Byte>
    var len: nat
    var allocBytes: nat

    ghost predicate Valid()
      reads this, buf
    {
      && (buf == null ==> len == 0 && allocBytes == 0)
      && (buf != null ==> buf.Length == allocBytes && len < allocBytes && buf[len] == NUL)
    }

    ghost function Contents(): Str
      requires Valid()
      reads this, buf
    {
      if buf == null then [] else buf[..len]
    }

    constructor ()
      ensures Valid() && Contents() == [] && buf == null
    {
      buf, len, allocBytes := null, 0, 0;
    }

    /** `private_str_alloc_memchunk`: the source bytes are copied in, over a new buffer if the old
        one is too small. */
    method AllocMemchunk(src: Str)
      requires Valid()
      modifies this, buf
      ensures Valid() && Contents() == src
      ensures buf == old(buf) || fresh(buf)
      ensures allocBytes == if |src| + 1 > old(allocBytes) then |src| + 1 else old(allocBytes)
    {
      if |src| + 1 > allocBytes {
        buf := new Byte[|src| + 1];
        allocBytes := |src| + 1;
      }
      forall i | 0 <= i < |src| {
        buf[i] := src[i];
      }
      buf[|src|] := NUL;
      len := |src|;
    }

    method AppendMemchunk(src: Str)
      requires Valid()
      modifies this, buf
      ensures Valid() && Contents() == old(Contents()) + src
      ensures buf == old(buf) || fresh(buf)
      ensures allocBytes == if old(len) + |src| + 1 > old(allocBytes) then old(len) + |src| + 1 else old(allocBytes)
    {
      var needed := len + |src| + 1;
      if needed > allocBytes {
        var bigger := new Byte[needed];
        if buf != null {
          forall i | 0 <= i < len {
            bigger[i] := buf[i];
          }
        }
        buf := bigger;
        allocBytes := needed;
      }
      forall i | 0 <= i < |src| {
        buf[len + i] := src[i];
      }
      buf[len + |src|] := NUL;
      len := len + |src|;
    }

    method Free()
      requires Valid()
      modifies this
      ensures Valid() && Contents() == [] && buf == null
    {
      buf, len, allocBytes := null, 0, 0;
    }

    /** `str_getbuf` gives an unallocated string a buffer before `str_trunc` cuts it. */
    method Empty()
      requires Valid()
      modifies this, buf
      ensures Valid() && Contents() == []
      ensures buf == old(buf) || fresh(buf)
      ensures allocBytes == if old(allocBytes) == 0 then 1 else old(allocBytes)
    {
      if buf == null {
        AllocMemchunk([]);
      }
      Trunc(0);
    }

    /** Sets the length; the guard admits any length below the capacity, longer ones included. */
    method Trunc(newLen: nat)
      requires Valid() && newLen < allocBytes
      modifies this`len, buf
      ensures Valid() && len == newLen
      ensures newLen <= old(len) ==> Contents() == old(Contents())[..newLen]
      ensures forall i | 0 <= i < buf.Length && i != newLen :: buf[i] == old(buf[i])
    {
      len := newLen;
      buf[len] := NUL;
    }

    /** Room for `n` bytes and the terminator, which is written at place `n` in any case. */
    method Reserve(n: nat)
      requires Valid()
      modifies this, buf
      ensures Valid()
      ensures Contents() == if n < |old(Contents())| then old(Contents())[n := NUL] else old(Contents())
      ensures buf == old(buf) || fresh(buf)
      ensures allocBytes == if n + 1 > old(allocBytes) then n + 1 else old(allocBytes)
    {
      if n + 1 > allocBytes {
        var bigger := new Byte[n + 1];
        if buf != null {
          forall i | 0 <= i <= len {
            bigger[i] := buf[i];
          }
        } else {
          bigger[0] := NUL;
        }
        buf := bigger;
        allocBytes := n + 1;
      }
      buf[n] := NUL;
    }

    /** `str_split_text`: this string keeps the left part, `rhs` gets the right one. */
    method SplitText(rhs: MyStr, text: Str)
      requires Valid() && rhs.Valid() && NUL !in text
      requires rhs != this && (buf != null ==> rhs.buf != buf)
      modifies this, buf, rhs, rhs.buf
      ensures Valid() && rhs.Valid()
      ensures (Contents(), rhs.Contents()) == old(Split(Contents(), text))
      ensures buf == old(buf) && (rhs.buf == old(rhs.buf) || fresh(rhs.buf))
    {
      var at := LocateText(if buf == null then [] else buf[..len], text);
      if at.None? {
        rhs.Empty();
        return;
      }
      ghost var s := Contents();
      if at.value + |text| > len {
        assert false;   // bug("indexx invalid in str_split_text")
      }
      rhs.AllocMemchunk(buf[at.value + |text|..len]);
      assert Contents() == s && s[at.value + |text|..] == rhs.Contents();
      Trunc(at.value);
    }

    method ReplaceChar(from: Byte, to: Byte)
      requires Valid()
      modifies buf
      ensures Valid() && Contents() == Mapped(old(Contents()), from, to)
    {
      var i := 0;
      while i < len
        invariant 0 <= i <= len && Valid()
        invariant forall j | 0 <= j < i :: buf[j] == if old(buf[j]) == from then to else old(buf[j])
        invariant forall j | i <= j < len :: buf[j] == old(buf[j])
      {
        if buf[i] == from {
          buf[i] := to;
        }
        i := i + 1;
      }
    }

    /** One turn of `str_replace_text`: the text up to the first hit is appended here, with the
        replacement if there was one; `rhs` is what is left. */
    method ReplaceTurn(lhs: Str, from: Str, to: Str) returns (rhs: Str)
      requires Valid() && NUL !in from
      modifies this, buf
      ensures Valid() && (buf == old(buf) || fresh(buf))
      ensures Contents() == old(Contents()) + Turn(lhs, from, to)
      ensures rhs == Split(lhs, from).1
    {
      var at := LocateText(lhs, from);
      var chunk := lhs;
      rhs := [];
      if at.Some? {
        rhs := lhs[at.value + |from|..];
        chunk := lhs[..at.value];
      }
      ghost var out := Contents();
      AppendMemchunk(chunk);
      if |chunk| < |lhs| {
        AppendMemchunk(to);
        assert out + chunk + to == out + (chunk + to);
      } else {
        assert chunk + [] == chunk;
      }
    }

    /** `str_replace_text`, its two scratch strings held as values. */
    method ReplaceText(from: Str, to: Str)
      requires Valid() && NUL !in from
      modifies this, buf
      ensures Valid() && Contents() == ReplaceAll(old(Contents()), from, to)
      ensures buf == null || fresh(buf)
    {
      var lhs: Str := if buf == null then [] else buf[..len];
      ghost var s := lhs;
      Free();
      var first := true;
      while first || lhs != []
        invariant Valid() && (buf == null || fresh(buf))
        invariant Contents() + ReplaceAll(lhs, from, to) == ReplaceAll(s, from, to)
        decreases first, |lhs|
      {
        first := false;
        TurnsReplace(lhs, from, to);
        Assoc(Contents(), Turn(lhs, from, to), ReplaceAll(Split(lhs, from).1, from, to));
        lhs := ReplaceTurn(lhs, from, to);
      }
      TurnsReplace([], from, to);
    }
  }

  /** What one turn contributes: the text up to the hit, and the replacement if that is not all. */
  function Turn(s: Str, t: Str, u: Str): Str {
    var l := Split(s, t).0;
    l + if |l| < |s| then u else []
  }

  lemma TurnsReplace(s: Str, t: Str, u: Str)
    ensures ReplaceAll(s, t, u) == Turn(s, t, u) + ReplaceAll(Split(s, t).1, t, u)
    ensures ReplaceAll([], t, u) == []
    ensures s != [] ==> |Split(s, t).1| < |s|
  {
    assert Locate([], t) == None;
    var at := Locate(s, t);
    if at.None? {
      assert s + [] + [] == s;
    }
  }
}
