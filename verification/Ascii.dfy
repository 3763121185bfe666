/** The line-end conversions of ASCII transfers (section 3.1.1.1 of RFC 959), done one buffer at
    a time over a stream that arrives in arbitrary pieces. */
module Ascii {
  import opened Bytes

  // ----- the conversions of a whole stream

  /** Every CR that stands right before an LF is gone; nothing else is. */
  function AsciiToBin(s: Str): Str {
    if s == [] then []
    else if |s| > 1 && s[0] == CR && s[1] == LF then AsciiToBin(s[1..])
    else [s[0]] + AsciiToBin(s[1..])
  }

  function Sent(b: Byte, prevCr: bool): Str {
    if b == LF && !prevCr then [CR, LF] else [b]
  }

  /** Every LF that does not stand right after a CR gets one; `prevCr`: the stream so far ended in CR. */
  function BinToAscii(s: Str, prevCr: bool): (r: Str)
    ensures |r| <= 2 * |s|
  {
    if s == [] then []
    else Sent(s[0], prevCr) + BinToAscii(s[1..], s[0] == CR)
  }

  predicate EndsInCr(s: Str, prevCr: bool) {
    if s == [] then prevCr else s[|s| - 1] == CR
  }

  // ----- one buffer of an incoming stream

  /** The CR held back when a buffer ends in one. */
  function Held(cr: bool): Str {
    if cr then [CR] else []
  }

  /** What can be written of `s` when more may follow: a last CR has to wait. */
  function Settled(s: Str): (r: Str)
    ensures |r| <= |s|
  {
    if s == [] then []
    else if s[0] == CR && (|s| == 1 || s[1] == LF) then Settled(s[1..])
    else [s[0]] + Settled(s[1..])
  }

  /** What one call writes; no bytes at all means the stream is over, and a held CR goes out. */
  function Flushed(s: Str, prevCr: bool): Str {
    if s == [] then Held(prevCr) else Settled(Held(prevCr) + s)
  }

  /** `vsf_ascii_ascii_to_bin`, in place: the bytes to convert are `buf[1..inLen + 1]`, slot 0 is
      spare, and the result is `buf[start..start + stored]`. */
  method ConvertToBin(buf: array<Byte>, inLen: nat, prevCr: bool) returns (start: nat, stored: nat, lastWasCr: bool)
    requires inLen + 1 <= buf.Length
    modifies buf
    ensures start <= 1 && start + stored <= inLen + 1
    ensures buf[start..start + stored] == Flushed(old(buf[1..inLen + 1]), prevCr)
    ensures lastWasCr == EndsInCr(old(buf[1..inLen + 1]), false)
    ensures forall k | inLen < k < buf.Length :: buf[k] == old(buf[k])
  {
    ghost var s := buf[1..inLen + 1];
    FirstOfBuffer(s, prevCr);
    if prevCr && (inLen == 0 || buf[1] != LF) {
      buf[0] := CR;
      start := 0;
    } else {
      start := 1;
    }
    ghost var first := Held(start == 0);
    assert buf[1..inLen + 1] == s;
    stored, lastWasCr := Compact(buf, inLen);
    assert buf[start..stored + 1] == first + buf[1..stored + 1];
    stored := stored + 1 - start;
  }

  /** The loop of the conversion; it never writes past the byte it has read. */
  method Compact(buf: array<Byte>, inLen: nat) returns (written: nat, lastWasCr: bool)
    requires inLen + 1 <= buf.Length
    modifies buf
    ensures written <= inLen
    ensures buf[1..written + 1] == Settled(old(buf[1..inLen + 1]))
    ensures lastWasCr == EndsInCr(old(buf[1..inLen + 1]), false)
    ensures forall k | k == 0 || inLen < k < buf.Length :: buf[k] == old(buf[k])
  {
    ghost var s, done := buf[1..inLen + 1], [];
    var index := 0;
    written, lastWasCr := 0, false;
    while index < inLen
      invariant 0 <= index <= inLen && written <= index
      invariant |done| == written && forall k | 0 <= k < written :: buf[k + 1] == done[k]
      invariant done == SettledUpTo(s, index)
      invariant forall k | k == 0 || index < k < buf.Length :: buf[k] == old(buf[k])
      invariant lastWasCr == (index == inLen > 0 && s[inLen - 1] == CR)
    {
      done := SettledUpTo(s, index + 1);
      var c := buf[index + 1];
      assert c == s[index];
      if c != CR {
        buf[written + 1] := c;
        written := written + 1;
      } else if index == inLen - 1 {
        lastWasCr := true;
      } else if buf[index + 2] != LF {
        buf[written + 1] := c;
        written := written + 1;
      }
      index := index + 1;
    }
    assert buf[1..written + 1] == done;
    SettledWhole(s, inLen);
  }

  /** What the loop has written after `i` bytes. */
  function SettledUpTo(s: Str, i: nat): (r: Str)
    requires i <= |s|
    ensures |r| <= i
  {
    if i == 0 then []
    else if s[i - 1] == CR && (i == |s| || s[i] == LF) then SettledUpTo(s, i - 1)
    else SettledUpTo(s, i - 1) + [s[i - 1]]
  }

  lemma {:induction false} SettledWhole(s: Str, i: nat)
    requires i <= |s|
    ensures SettledUpTo(s, i) + Settled(s[i..]) == Settled(s)
  {
    if i == 0 {
      assert s[0..] == s;
    } else {
      SettledWhole(s, i - 1);
      assert s[i - 1..][1..] == s[i..];
      Assoc(SettledUpTo(s, i - 1), [s[i - 1]], Settled(s[i..]));
    }
  }

  lemma FirstOfBuffer(s: Str, prevCr: bool)
    ensures Flushed(s, prevCr) == Held(prevCr && (s == [] || s[0] != LF)) + Settled(s)
  {
    if s != [] && prevCr {
      assert (Held(prevCr) + s)[1..] == s;
    } else if s != [] {
      assert Held(prevCr) + s == s;
    }
  }

  /** `vsf_ascii_bin_to_ascii`: from one buffer to another of twice the size. */
  method ConvertToAscii(src: array<Byte>, dst: array<Byte>, inLen: nat, prevCr: bool)
      returns (stored: nat, lastWasCr: bool)
    requires inLen <= src.Length && 2 * inLen <= dst.Length && src != dst
    modifies dst
    ensures stored <= 2 * inLen
    ensures dst[..stored] == BinToAscii(src[..inLen], prevCr)
    ensures lastWasCr == EndsInCr(src[..inLen], prevCr)
  {
    ghost var s, done := src[..inLen], [];
    var index, lastChar := 0, NUL;
    stored, lastWasCr := 0, false;
    if prevCr {
      lastChar, lastWasCr := CR, true;
    }
    while index < inLen
      invariant 0 <= index <= inLen && stored <= 2 * index
      invariant lastWasCr == (lastChar == CR) == CrBefore(s, prevCr, index)
      invariant dst[..stored] == done
      invariant done == SentUpTo(s, prevCr, index)
    {
      done := SentUpTo(s, prevCr, index + 1);
      var c := src[index];
      if c == LF && lastChar != CR {
        dst[stored] := CR;
        stored := stored + 1;
      }
      dst[stored] := c;
      stored, index := stored + 1, index + 1;
      lastChar := c;
      lastWasCr := c == CR;
    }
    SentWhole(s, prevCr, inLen);
  }

  predicate CrBefore(s: Str, prevCr: bool, i: nat)
    requires i <= |s|
  {
    if i == 0 then prevCr else s[i - 1] == CR
  }

  function SentUpTo(s: Str, prevCr: bool, i: nat): Str
    requires i <= |s|
  {
    if i == 0 then [] else SentUpTo(s, prevCr, i - 1) + Sent(s[i - 1], CrBefore(s, prevCr, i - 1))
  }

  lemma {:induction false} SentWhole(s: Str, prevCr: bool, i: nat)
    requires i <= |s|
    ensures SentUpTo(s, prevCr, i) + BinToAscii(s[i..], CrBefore(s, prevCr, i)) == BinToAscii(s, prevCr)
  {
    if i == 0 {
      assert s[0..] == s;
    } else {
      SentWhole(s, prevCr, i - 1);
      assert s[i - 1..][1..] == s[i..];
      var rest := BinToAscii(s[i..], CrBefore(s, prevCr, i));
      Assoc(SentUpTo(s, prevCr, i - 1), Sent(s[i - 1], CrBefore(s, prevCr, i - 1)), rest);
    }
  }

  // ----- the buffers put together

  /** What is settled never changes as more arrives; what is held is decided by what arrives. */
  lemma {:induction false} SettledSplits(x: Str, y: Str)
    requires y != []
    ensures Settled(x + y) == Settled(x) + Settled(Held(EndsInCr(x, false)) + y)
    ensures AsciiToBin(x + y) == Settled(x) + AsciiToBin(Held(EndsInCr(x, false)) + y)
  {
    if |x| == 0 {
      assert x + y == y == Held(false) + y;
    } else if |x| == 1 {
      if x[0] == CR {
        assert x == [CR];
      } else {
        assert (x + y)[1..] == y == Held(false) + y;
      }
    } else {
      SettledSplits(x[1..], y);
      assert (x + y)[1..] == x[1..] + y;
      var held := Held(EndsInCr(x, false)) + y;
      Assoc([x[0]], Settled(x[1..]), Settled(held));
      Assoc([x[0]], Settled(x[1..]), AsciiToBin(held));
    }
  }

  lemma {:induction false} SettledThenHeld(x: Str)
    ensures AsciiToBin(x) == Settled(x) + Held(EndsInCr(x, false))
  {
    if |x| > 1 {
      SettledThenHeld(x[1..]);
    }
  }

  /** Receiving one more buffer: after any bytes at all, what the call writes is what the longer
      input adds to what was settled before, and at the end of the stream the held CR makes it whole. */
  lemma ReceiveStep(sofar: Str, chunk: Str)
    ensures chunk != [] ==> Settled(sofar) + Flushed(chunk, EndsInCr(sofar, false)) == Settled(sofar + chunk)
    ensures chunk != [] ==> EndsInCr(chunk, false) == EndsInCr(sofar + chunk, false)
    ensures chunk == [] ==> Settled(sofar) + Flushed(chunk, EndsInCr(sofar, false)) == AsciiToBin(sofar)
  {
    if chunk == [] {
      SettledThenHeld(sofar);
    } else {
      SettledSplits(sofar, chunk);
    }
  }

  function Concat(chunks: seq<Str>): Str {
    if chunks == [] then [] else chunks[0] + Concat(chunks[1..])
  }

  /** Sending one buffer after another is sending them as one. */
  lemma {:induction false} SendSplits(x: Str, y: Str, prevCr: bool)
    ensures BinToAscii(x + y, prevCr) == BinToAscii(x, prevCr) + BinToAscii(y, EndsInCr(x, prevCr))
  {
    if x == [] {
      assert x + y == y;
    } else {
      SendSplits(x[1..], y, x[0] == CR);
      assert (x + y)[1..] == x[1..] + y;
      Assoc(Sent(x[0], prevCr), BinToAscii(x[1..], x[0] == CR), BinToAscii(y, EndsInCr(x, prevCr)));
    }
  }

  // ----- laws

  predicate NoCrLf(s: Str) {
    forall i {:trigger s[i]} | 0 < i < |s| && s[i] == LF :: s[i - 1] != CR
  }

  lemma {:induction false} ToAsciiIdempotent(x: Str, prevCr: bool)
    ensures BinToAscii(BinToAscii(x, prevCr), prevCr) == BinToAscii(x, prevCr)
  {
    if x != [] {
      ToAsciiIdempotent(x[1..], x[0] == CR);
      var rest := BinToAscii(x[1..], x[0] == CR);
      if x[0] == LF && !prevCr {
        assert ([CR, LF] + rest)[1..] == [LF] + rest && ([LF] + rest)[1..] == rest;
        assert BinToAscii([LF] + rest, true) == [LF] + BinToAscii(rest, false);
      } else {
        assert ([x[0]] + rest)[1..] == rest;
      }
    }
  }

  /** What a receiver makes of a sent stream is what it would make of the stream itself. */
  lemma {:induction false} ReceiveOfSend(x: Str, prevCr: bool)
    ensures AsciiToBin(Held(prevCr) + BinToAscii(x, prevCr)) == AsciiToBin(Held(prevCr) + x)
  {
    if x == [] {
    } else {
      var more := x[0] == CR;
      ReceiveOfSend(x[1..], more);
      var rest := BinToAscii(x[1..], more);
      AfterByte(x[0], prevCr, x[1..]);
      assert [x[0]] + x[1..] == x;
      if x[0] == LF && !prevCr {
        assert Held(false) + BinToAscii(x, false) == Held(true) + ([LF] + rest);
        AfterByte(LF, true, rest);
      } else {
        AfterByte(x[0], prevCr, rest);
      }
    }
  }

  /** The receiver at one byte, with a CR waiting or not. */
  lemma AfterByte(b: Byte, prevCr: bool, rest: Str)
    ensures AsciiToBin(Held(prevCr) + ([b] + rest)) ==
            (if prevCr && b != LF then [CR] else []) +
            if b == CR then AsciiToBin(Held(true) + rest) else [b] + AsciiToBin(Held(false) + rest)
  {
    assert ([b] + rest)[1..] == rest == Held(false) + rest;
    assert Held(false) + ([b] + rest) == [b] + rest;
    assert ([CR] + ([b] + rest))[1..] == [b] + rest;
  }

  lemma {:induction false} ReceiveKeepsExactly(x: Str)
    ensures |AsciiToBin(x)| <= |x|
    ensures AsciiToBin(x) == x <==> |AsciiToBin(x)| == |x|
    ensures AsciiToBin(x) == x <==> NoCrLf(x)
  {
    if |x| > 0 {
      var t := x[1..];
      ReceiveKeepsExactly(t);
      assert x == [x[0]] + t;
      assert forall i | 0 < i < |t| :: t[i] == x[i + 1] && t[i - 1] == x[i];
      if |x| > 1 && x[0] == CR && x[1] == LF {
        assert !NoCrLf(x);
      } else if NoCrLf(t) {
        forall i | 0 < i < |x| && x[i] == LF
          ensures x[i - 1] != CR
        {
          if i > 1 {
            assert t[i - 1] == LF;
          }
        }
      } else {
        var i :| 0 < i < |t| && t[i] == LF && t[i - 1] == CR;
        assert x[i + 1] == LF;
      }
    }
  }

  /** A file sent and received again is the file itself exactly when it holds no CR LF. */
  lemma SendThenReceive(x: Str)
    ensures AsciiToBin(BinToAscii(x, false)) == AsciiToBin(x)
    ensures AsciiToBin(BinToAscii(x, false)) == x <==> NoCrLf(x)
  {
    ReceiveOfSend(x, false);
    ReceiveKeepsExactly(x);
    assert Held(false) + x == x;
    assert Held(false) + BinToAscii(x, false) == BinToAscii(x, false);
  }

  /** Every LF stands after a CR that does not itself stand after a CR. */
  predicate WellEnded(y: Str, prevCr: bool) {
    forall i {:trigger y[i]} | 0 <= i < |y| && y[i] == LF :: LineEnd(y, prevCr, i)
  }

  predicate LineEnd(y: Str, prevCr: bool, i: nat)
    requires i < |y|
  {
    i > 0 && y[i - 1] == CR && if i == 1 then !prevCr else y[i - 2] != CR
  }

  /** A stream received and sent again is the stream itself exactly when its line ends are so. */
  lemma {:induction false} ReceiveThenSend(y: Str, prevCr: bool)
    requires prevCr && y != [] ==> y[0] != LF
    ensures BinToAscii(AsciiToBin(y), prevCr) == y <==> WellEnded(y, prevCr)
    decreases |y|
  {
    if y != [] {
      if |y| > 1 && y[0] == CR && y[1] == LF {
        var t := y[2..];
        ReceiveThenSend(t, false);
        CrLfFirst(y, prevCr, t);
      } else {
        var t := y[1..];
        ReceiveThenSend(t, y[0] == CR);
        ByteFirst(y, prevCr, t);
      }
    }
  }

  lemma CrLfFirst(y: Str, prevCr: bool, t: Str)
    requires y == [CR, LF] + t
    ensures BinToAscii(AsciiToBin(y), prevCr) == y <==> !prevCr && BinToAscii(AsciiToBin(t), false) == t
    ensures WellEnded(y, prevCr) <==> !prevCr && WellEnded(t, false)
  {
    assert y[1..][1..] == t;
    var r := AsciiToBin(t);
    assert AsciiToBin(y) == [LF] + r;
    assert ([LF] + r)[1..] == r;
    var back := BinToAscii(r, false);
    if prevCr {
      assert BinToAscii(AsciiToBin(y), prevCr) == [LF] + back;
      assert y[1] == LF && !LineEnd(y, prevCr, 1);
    } else {
      assert ([CR, LF] + back)[2..] == back && y[2..] == t;
      assert forall i | 0 <= i < |t| :: t[i] == y[i + 2];
      if WellEnded(y, prevCr) {
        assert forall i | 0 <= i < |t| && t[i] == LF :: LineEnd(y, prevCr, i + 2) && LineEnd(t, false, i);
      }
      if WellEnded(t, false) {
        forall i | 0 <= i < |y| && y[i] == LF
          ensures LineEnd(y, prevCr, i)
        {
          if i >= 2 {
            assert LineEnd(t, false, i - 2);
          }
        }
      }
    }
  }

  lemma ByteFirst(y: Str, prevCr: bool, t: Str)
    requires y != [] && t == y[1..] && (y[0] == CR && t != [] ==> t[0] != LF)
    requires prevCr ==> y[0] != LF
    ensures BinToAscii(AsciiToBin(y), prevCr) == y <==> y[0] != LF && BinToAscii(AsciiToBin(t), y[0] == CR) == t
    ensures WellEnded(y, prevCr) <==> y[0] != LF && WellEnded(t, y[0] == CR)
  {
    var cr := y[0] == CR;
    var r := AsciiToBin(t);
    assert AsciiToBin(y) == [y[0]] + r;
    assert ([y[0]] + r)[1..] == r;
    var back := BinToAscii(r, cr);
    if y[0] == LF {
      assert BinToAscii(AsciiToBin(y), prevCr) == [CR, LF] + back;
      assert !LineEnd(y, prevCr, 0);
    } else {
      assert ([y[0]] + back)[1..] == back;
      assert forall i | 0 <= i < |t| :: t[i] == y[i + 1];
      if WellEnded(y, prevCr) {
        forall i | 0 <= i < |t| && t[i] == LF
          ensures LineEnd(t, cr, i)
        {
          assert LineEnd(y, prevCr, i + 1);
        }
      }
      if WellEnded(t, cr) {
        forall i | 0 <= i < |y| && y[i] == LF
          ensures LineEnd(y, prevCr, i)
        {
          assert t[i - 1] == LF && LineEnd(t, cr, i - 1);
        }
      }
    }
  }
}
