/** Replies on the control connection and the clean-up of command lines.  A reply is one line: its
    text has Telnet's byte 255 doubled and any LF sent as NUL. */
module FtpCmdIo {
  import opened Bytes
  import opened Strings

  // ----- escaping, byte by byte

  function EscapeByte(b: Byte): Str {
    if b == IAC then [IAC, IAC] else if b == LF then [NUL] else [b]
  }

  function Escaped(t: Str): Str {
    if t == [] then [] else EscapeByte(t[0]) + Escaped(t[1..])
  }

  /** What a client makes of an escaped text. */
  function Unescaped(w: Str): Str
    decreases |w|
  {
    if w == [] then []
    else if w[0] == IAC && |w| > 1 && w[1] == IAC then [IAC] + Unescaped(w[2..])
    else [if w[0] == NUL then LF else w[0]] + Unescaped(w[1..])
  }

  function ReplyLine(status: Str, sep: Byte, text: Str): Str {
    status + [sep] + Escaped(text) + [CR, LF]
  }

  lemma {:induction false} LocateShifts(s: Str, c: Byte, i: nat)
    requires s != []
    ensures LocateFrom(s, [c], i + 1) ==
            match LocateFrom(s[1..], [c], i) case None => None case Some(j) => Some(j + 1)
    decreases |s| - i
  {
    if i + 2 <= |s| {
      assert s[i + 1..i + 2] == s[1..][i..i + 1];
      LocateShifts(s, c, i + 1);
    }
  }

  lemma LocateByte(s: Str, c: Byte)
    requires s != []
    ensures s[0] == c ==> Locate(s, [c]) == Some(0)
    ensures s[0] != c ==> Locate(s, [c]) == match Locate(s[1..], [c]) case None => None case Some(i) => Some(i + 1)
  {
    assert s[0..1] == [s[0]];
    LocateShifts(s, c, 0);
  }

  /** Replacing a single byte works byte by byte. */
  lemma {:induction false} ReplaceByte(s: Str, c: Byte, u: Str)
    requires s != []
    ensures ReplaceAll(s, [c], u) == (if s[0] == c then u else [s[0]]) + ReplaceAll(s[1..], [c], u)
  {
    LocateByte(s, c);
    match Locate(s, [c])
    case None =>
      assert s == [s[0]] + s[1..];
    case Some(i) =>
      if s[0] != c {
        assert s[..i] == [s[0]] + s[1..][..i - 1];
        assert s[i + 1..] == s[1..][i..];
        var rest := ReplaceAll(s[i + 1..], [c], u);
        assert [s[0]] + s[1..][..i - 1] + u + rest == [s[0]] + (s[1..][..i - 1] + u + rest);
      } else {
        assert [] + u + ReplaceAll(s[1..], [c], u) == u + ReplaceAll(s[1..], [c], u);
      }
  }

  lemma MapParts(s: Str, t: Str)
    ensures Mapped(s + t, LF, NUL) == Mapped(s, LF, NUL) + Mapped(t, LF, NUL)
  {
  }

  lemma MapHead(b: Byte)
    ensures Mapped(if b == IAC then [IAC, IAC] else [b], LF, NUL) == EscapeByte(b)
  {
  }

  /** The two library calls, one after the other, escape byte by byte. */
  lemma {:induction false} EscapingIsBytewise(t: Str)
    ensures Mapped(ReplaceAll(t, [IAC], [IAC, IAC]), LF, NUL) == Escaped(t)
  {
    if t == [] {
      TurnsReplace([], [IAC], [IAC, IAC]);
    } else {
      ReplaceByte(t, IAC, [IAC, IAC]);
      EscapingIsBytewise(t[1..]);
      MapParts(if t[0] == IAC then [IAC, IAC] else [t[0]], ReplaceAll(t[1..], [IAC], [IAC, IAC]));
      MapHead(t[0]);
    }
  }

  lemma UnescapeByte(b: Byte, rest: Str)
    ensures Unescaped(EscapeByte(b) + rest) == [if b == NUL then LF else b] + Unescaped(rest)
  {
    if b == IAC {
      assert ([IAC, IAC] + rest)[2..] == rest;
    } else {
      assert (EscapeByte(b) + rest)[1..] == rest;
    }
  }

  /** Unescaping gives back the text with NUL turned into LF... */
  lemma {:induction false} UnescapeEscaped(t: Str)
    ensures Unescaped(Escaped(t)) == Mapped(t, NUL, LF)
  {
    if t != [] {
      UnescapeEscaped(t[1..]);
      UnescapeByte(t[0], Escaped(t[1..]));
      assert Mapped(t, NUL, LF) == [if t[0] == NUL then LF else t[0]] + Mapped(t[1..], NUL, LF);
    }
  }

  /** ... so it gives back the text itself exactly when that has no NUL. */
  lemma EscapeRoundTrip(t: Str)
    ensures Unescaped(Escaped(t)) == t <==> NUL !in t
  {
    UnescapeEscaped(t);
    var m := Mapped(t, NUL, LF);
    if NUL !in t {
      assert m == t;
    } else {
      var i :| 0 <= i < |t| && t[i] == NUL;
      assert m[i] == LF;
    }
  }

  lemma {:induction false} EscapedHasNoLf(t: Str)
    ensures LF !in Escaped(t)
    ensures |Escaped(t)| >= |t| && (IAC in t ==> |Escaped(t)| > |t|)
    ensures t != [] ==> (Last(Escaped(t)) == CR <==> Last(t) == CR)
  {
    if t != [] {
      EscapedHasNoLf(t[1..]);
      if |t| > 1 {
        assert Last(t[1..]) == Last(t);
        assert Last(Escaped(t)) == Last(Escaped(t[1..]));
      } else {
        assert Escaped(t) == EscapeByte(t[0]);
      }
    }
  }

  function Last(s: Str): int {
    if s == [] then -1 else s[|s| - 1]
  }

  /** A reply has one LF, at its end. */
  lemma ReplyIsOneLine(status: Str, sep: Byte, text: Str)
    requires LF !in status && sep != LF
    ensures var line := ReplyLine(status, sep, text);
            Last(line) == LF && LF !in line[..|line| - 1]
  {
    EscapedHasNoLf(text);
    var line := ReplyLine(status, sep, text);
    assert line[..|line| - 1] == status + [sep] + Escaped(text) + [CR];
  }

  /** `ftp_write_str_common`: the bytes that go out. */
  method WriteStrCommon(status: Str, sep: Byte, text: Str) returns (out: MyStr)
    ensures out.Valid() && fresh(out) && out.Contents() == ReplyLine(status, sep, text)
    ensures out.Contents() == status + [sep] + Escaped(text) + [CR, LF]
  {
    var mangle := new MyStr();
    mangle.AllocMemchunk(text);
    mangle.ReplaceText([IAC], [IAC, IAC]);
    mangle.ReplaceChar(LF, NUL);
    EscapingIsBytewise(text);
    out := new MyStr();
    out.AllocMemchunk(status);
    out.AppendMemchunk([sep]);
    out.AppendMemchunk(if mangle.buf == null then [] else mangle.buf[..mangle.len]);
    out.AppendMemchunk([CR, LF]);
  }

  // ----- command lines

  function StripCr(s: Str): (r: Str)
    ensures r <= s && Last(r) != CR
    ensures forall i | |r| <= i < |s| :: s[i] == CR
  {
    if Last(s) == CR then StripCr(s[..|s| - 1]) else s
  }

  /** The tail of `control_getline`: NUL stands for LF, and CRs at the end go. */
  method CleanLine(line: MyStr)
    requires line.Valid()
    modifies line, line.buf
    ensures line.Valid() && line.Contents() == StripCr(Mapped(old(line.Contents()), NUL, LF))
  {
    line.ReplaceChar(NUL, LF);
    ghost var s := line.Contents();
    while line.len > 0 && line.buf[line.len - 1] == CR
      invariant line.Valid() && line.buf == old(line.buf)
      invariant StripCr(line.Contents()) == StripCr(s)
    {
      line.Trunc(line.len - 1);
    }
  }

  /** A name shown to a client in a reply and sent back on a command line arrives as it was exactly
      when it has no byte 255, no NUL, and no CR at its end. */
  lemma EchoedName(t: Str)
    ensures StripCr(Mapped(Escaped(t) + [CR], NUL, LF)) == t <==> IAC !in t && NUL !in t && Last(t) != CR
  {
    EscapedHasNoLf(t);
    if Last(t) != CR {
      StripsOne(Escaped(t));
      if IAC !in t {
        EscapedWithoutIac(t);
        EscapeRoundTrip(t);
        UnescapeEscaped(t);
      }
    }
  }

  lemma StripsOne(w: Str)
    requires Last(w) != CR
    ensures StripCr(Mapped(w + [CR], NUL, LF)) == Mapped(w, NUL, LF)
  {
    var m := Mapped(w + [CR], NUL, LF);
    assert m[..|m| - 1] == Mapped(w, NUL, LF);
    assert Last(m) == CR && Last(Mapped(w, NUL, LF)) != CR;
  }

  lemma {:induction false} EscapedWithoutIac(t: Str)
    requires IAC !in t
    ensures Escaped(t) == Mapped(t, LF, NUL)
    ensures Mapped(Escaped(t), NUL, LF) == Mapped(t, NUL, LF)
  {
    if t != [] {
      EscapedWithoutIac(t[1..]);
      assert Mapped(t, LF, NUL) == EscapeByte(t[0]) + Mapped(t[1..], LF, NUL);
    }
  }
}
