/** The reader of command lines: it peeks at whatever the network has, looks for the terminator,
    and takes off the socket just what belongs to the line. */
module NetStr {
  import opened Bytes
  import opened Strings
  import FtpCmdIo

  /** How many bytes a peek finds. */
  function PeekSize(max: nat, pieces: seq<nat>, available: nat): (n: nat)
    ensures n <= max && n <= available && (n == 0 <==> max == 0 || available == 0)
  {
    var n := if pieces == [] || max < pieces[0] + 1 then max else pieces[0] + 1;
    if available < n then available else n
  }

  function Later(pieces: seq<nat>): seq<nat> {
    if pieces == [] then [] else pieces[1..]
  }

  /** Where in its piece byte `k` of what is available is found. */
  function PlaceInPiece(k: nat, max: nat, available: nat, pieces: seq<nat>): (place: nat)
    requires k < max && k < available
    ensures place <= k
    decreases max
  {
    var n := PeekSize(max, pieces, available);
    if k < n then k else PlaceInPiece(k - n, max - n, available - n, Later(pieces))
  }

  /** A stream socket: the bytes the peer has yet to send, and how many of them each peek finds. */
  class Socket {
    var stream: Str
    var pieces: seq<nat>

    constructor (stream: Str, pieces: seq<nat>)
      ensures this.stream == stream
    {
      this.stream, this.pieces := stream, pieces;
    }

    /** At least one byte while there are any, then none; nothing is taken. */
    method Peek(buf: array<Byte>, at: nat, max: nat) returns (n: nat)
      requires 0 < max && at + max <= buf.Length
      modifies this`pieces, buf
      ensures n <= max && n <= |stream| && (n == 0 <==> stream == [])
      ensures n == PeekSize(max, old(pieces), |stream|) && pieces == Later(old(pieces))
      ensures forall k | at <= k < at + n :: buf[k] == stream[k - at]
      ensures forall j | 0 <= j < at :: buf[j] == old(buf[j])
    {
      n := if pieces == [] || max < pieces[0] + 1 then max else pieces[0] + 1;
      n := if |stream| < n then |stream| else n;
      pieces := Later(pieces);
      forall i | 0 <= i < n {
        buf[at + i] := stream[i];
      }
    }

    /** The blocking read of bytes already seen. */
    method Read(buf: array<Byte>, at: nat, n: nat)
      requires n <= |stream| && at + n <= buf.Length
      modifies this`stream, buf
      ensures stream == old(stream[n..])
      ensures forall k | at <= k < at + n :: buf[k] == old(stream[k - at])
      ensures forall j | 0 <= j < at :: buf[j] == old(buf[j])
    {
      forall i | 0 <= i < n {
        buf[at + i] := stream[i];
      }
      stream := stream[n..];
    }
  }

  datatype Outcome =
    | Line(text: Str, rest: Str)   // the line, and what stays on the socket
    | TooLong(rest: Str)           // no terminator in reach: everything in reach is thrown away
    | Gone                         // the stream ended first: the process dies

  function Find(s: Str, term: Byte): (r: Option<nat>)
    ensures r.Some? ==> r.value < |s| && s[r.value] == term && term !in s[..r.value]
    ensures r.None? ==> term !in s
  {
    if s == [] then None
    else if s[0] == term then Some(0)
    else match Find(s[1..], term)
      case None => None
      case Some(i) =>
        assert s[..i + 1] == [s[0]] + s[1..][..i];
        Some(i + 1)
  }

  /** What a read comes to, whatever the pieces. */
  function NextLine(s: Str, term: Byte, maxLen: nat): Outcome {
    match Find(s, term)
    case Some(k) => if k < maxLen then Line(s[..k], s[k + 1..]) else TooLong(s[maxLen..])
    case None => if |s| >= maxLen then TooLong(s[maxLen..]) else Gone
  }

  lemma FoundAt(s: Str, term: Byte, k: nat)
    requires k < |s| && s[k] == term && term !in s[..k]
    ensures Find(s, term) == Some(k)
  {
    var i := Find(s, term).value;
    assert forall j | 0 <= j < k :: s[..k][j] == s[j];
    assert forall j | 0 <= j < i :: s[..i][j] == s[j];
  }

  lemma NotBefore(s: Str, term: Byte, k: nat)
    requires k <= |s| && forall j | 0 <= j < k :: s[j] != term
    ensures Find(s, term).Some? ==> Find(s, term).value >= k
  {
  }

  /** Looking through the bytes of one peek. */
  method Search(buf: array<Byte>, at: nat, n: nat, term: Byte) returns (i: nat)
    requires at + n <= buf.Length
    ensures i <= n && (i < n ==> buf[at + i] == term)
    ensures forall k | at <= k < at + i :: buf[k] != term
  {
    i := 0;
    while i < n
      invariant 0 <= i <= n && forall k | at <= k < at + i :: buf[k] != term
    {
      if buf[at + i] == term {
        return;
      }
      i := i + 1;
    }
  }

  /** One peek behind `at` bytes without a terminator, and the search through what it found. */
  method PeekAndSearch(sock: Socket, readBuf: array<Byte>, at: nat, left: nat, term: Byte, ghost s: Str)
      returns (n: nat, i: nat)
    requires 0 < left && at + left <= readBuf.Length
    requires at <= |s| && sock.stream == s[at..] && forall j | 0 <= j < at :: readBuf[j] == s[j] != term
    modifies sock`pieces, readBuf
    ensures n == PeekSize(left, old(sock.pieces), |s| - at) && sock.pieces == Later(old(sock.pieces))
    ensures i <= n <= left && n <= |s| - at && (n == 0 <==> |s| == at)
    ensures forall j | 0 <= j < at + n :: readBuf[j] == s[j]
    ensures forall j | 0 <= j < at + i :: s[j] != term
    ensures i < n ==> s[at + i] == term
  {
    n := sock.Peek(readBuf, at, left);
    assert forall k | at <= k < at + n :: readBuf[k] == s[k];
    i := Search(readBuf, at, n, term);
  }

  /** The branch that found the terminator. */
  method TakeLine(sock: Socket, line: MyStr, term: Byte, readBuf: array<Byte>, at: nat, i: nat, ghost s: Str)
    requires line.Valid() && line.buf != readBuf && at + i < readBuf.Length
    requires at + i < |s| && sock.stream == s[at..] && s[at + i] == term
    requires forall j | 0 <= j < at :: readBuf[j] == s[j]
    modifies sock`stream, readBuf, line, line.buf
    ensures line.Valid() && line.Contents() == s[..at + i] && sock.stream == s[at + i + 1..]
  {
    sock.Read(readBuf, at, i + 1);
    assert readBuf[at + i] == s[at..][i];
    if readBuf[at + i] != term {
      assert false;   // die("missing terminator in str_netfd_alloc")
    }
    assert forall k | at <= k < at + i :: readBuf[k] == s[k];
    assert readBuf[..at + i] == s[..at + i];
    line.AllocMemchunk(readBuf[..at + i]);
  }

  datatype Scanned = Hit(at: nat, i: nat) | Full | Ended

  /** The loop: pieces without the terminator are taken off the socket; it ends in a piece that has it
      at place `i`, with `at` bytes before, or with all in reach taken, or with the stream. */
  method Scan(sock: Socket, term: Byte, readBuf: array<Byte>, maxLen: nat) returns (r: Scanned)
    requires maxLen <= readBuf.Length
    modifies sock, readBuf
    ensures var s := old(sock.stream);
            match r
            case Hit(at, i) =>
              && at + i < maxLen && at + i < |s| && s[at + i] == term && sock.stream == s[at..]
              && (forall j | 0 <= j < at + i :: s[j] != term) && (forall j | 0 <= j < at :: readBuf[j] == s[j])
              && i == PlaceInPiece(at + i, maxLen, |s|, old(sock.pieces))
            case Full => maxLen <= |s| && sock.stream == s[maxLen..] && forall j | 0 <= j < maxLen :: s[j] != term
            case Ended => |s| < maxLen && forall j | 0 <= j < |s| :: s[j] != term
  {
    ghost var s, pieces := sock.stream, sock.pieces;
    var at, left := 0, maxLen;
    while true
      invariant 0 <= left && at + left == maxLen && 0 <= at <= |s|
      invariant forall j | 0 <= j < at :: readBuf[j] == s[j] != term
      invariant sock.stream == s[at..]
      invariant SamePlace(at, left, |s| - at, sock.pieces, pieces)
      decreases left
    {
      if at + left != maxLen {
        assert false;   // bug("poor buffer accounting in str_netfd_alloc")
      }
      if left == 0 {
        return Full;
      }
      ghost var ahead := sock.pieces;
      var n, i := PeekAndSearch(sock, readBuf, at, left, term, s);
      if n == 0 {
        return Ended;
      }
      if i < n {
        assert PlaceInPiece(i, left, |s| - at, ahead) == i;
        return Hit(at, i);
      }
      if n > left {
        assert false;   // bug("bytes_read > left in str_netfd_alloc")
      }
      NextPiece(at, left, |s| - at, ahead, pieces);
      assert s[at..][n..] == s[at + n..];
      left := left - n;
      sock.Read(readBuf, at, n);
      at := at + n;
    }
  }

  /** Behind `at` bytes, places in pieces are counted as from the start. */
  ghost predicate SamePlace(at: nat, left: nat, available: nat, rest: seq<nat>, pieces: seq<nat>) {
    forall k: nat {:trigger PlaceInPiece(k, left, available, rest)} | k < left && k < available ::
      PlaceInPiece(k, left, available, rest) == PlaceInPiece(at + k, at + left, at + available, pieces)
  }

  lemma NextPiece(at: nat, left: nat, available: nat, rest: seq<nat>, pieces: seq<nat>)
    requires SamePlace(at, left, available, rest, pieces)
    ensures var n := PeekSize(left, rest, available); SamePlace(at + n, left - n, available - n, Later(rest), pieces)
  {
    var n := PeekSize(left, rest, available);
    var left', available', rest' := left - n, available - n, Later(rest);
    forall k: nat {:trigger PlaceInPiece(k, left', available', rest')} | k < left' && k < available'
      ensures PlaceInPiece(k, left', available', rest') == PlaceInPiece(at + n + k, at + left, at + available, pieces)
    {
      assert PlaceInPiece(n + k, left, available, rest) == PlaceInPiece(k, left', available', rest');
    }
    assert at + n + left' == at + left && at + n + available' == at + available;
  }

  /** `str_netfd_alloc`.  What it leaves in `line` and on the socket does not depend on the pieces; what
      it returns does: the place of the terminator within the piece it was found in, which is the
      length of the line exactly when that is the first piece. */
  method ReadLine(sock: Socket, line: MyStr, term: Byte, readBuf: array<Byte>, maxLen: nat)
      returns (ret: int, died: bool)
    requires line.Valid() && maxLen <= readBuf.Length && line.buf != readBuf
    modifies sock, readBuf, line, line.buf
    ensures died == NextLine(old(sock.stream), term, maxLen).Gone?
    ensures !died ==> line.Valid()
    ensures match Find(old(sock.stream), term)
            case Some(k) =>
              && !died
              && (k < maxLen ==> line.Contents() == old(sock.stream)[..k] && sock.stream == old(sock.stream)[k + 1..])
              && (k >= maxLen ==> line.Contents() == [] && sock.stream == old(sock.stream)[maxLen..] && ret == -1)
            case None =>
              && (died <==> |old(sock.stream)| < maxLen)
              && (!died ==> line.Contents() == [] && sock.stream == old(sock.stream)[maxLen..] && ret == -1)
    ensures match NextLine(old(sock.stream), term, maxLen)
            case Line(text, rest) =>
              && line.Contents() == text && sock.stream == rest
              && ret == PlaceInPiece(|text|, maxLen, |old(sock.stream)|, old(sock.pieces))
              && (ret == |text| <==> old(sock.pieces) == [] || |text| < old(sock.pieces)[0] + 1)
            case TooLong(rest) => line.Contents() == [] && sock.stream == rest && ret == -1
            case Gone => true
  {
    ghost var s := sock.stream;
    var r := Scan(sock, term, readBuf, maxLen);
    match r
    case Hit(at, i) =>
      LineFound(s, term, at + i, maxLen);
      TakeLine(sock, line, term, readBuf, at, i, s);
      return i, false;
    case Full =>
      NotBefore(s, term, maxLen);
      line.Empty();
      return -1, false;
    case Ended =>
      NotBefore(s, term, |s|);
      return 0, true;
  }

  lemma LineFound(s: Str, term: Byte, k: nat, maxLen: nat)
    requires k < |s| && s[k] == term && k < maxLen && forall j | 0 <= j < k :: s[j] != term
    ensures NextLine(s, term, maxLen) == Line(s[..k], s[k + 1..]) && Find(s, term) == Some(k)
  {
    FoundAt(s, term, k);
  }

  /** For instance, for a line of one byte that arrives before its terminator it returns 0. */
  lemma ShortCount(max: nat)
    requires max >= 2
    ensures PlaceInPiece(1, max, 2, [0]) == 0
  {
    assert PlaceInPiece(0, max - 1, 1, Later([0])) == 0;
  }

  // ----- whole streams

  /** The lines of a stream, as reading to its end finds them. */
  function ReadAll(s: Str, term: Byte, maxLen: nat): seq<Str>
    requires maxLen > 0
    decreases |s|
  {
    match NextLine(s, term, maxLen)
    case Line(text, rest) => [text] + ReadAll(rest, term, maxLen)
    case TooLong(rest) => [[]] + ReadAll(rest, term, maxLen)
    case Gone => []
  }

  function Terminated(lines: seq<Str>, term: Byte): Str {
    if lines == [] then [] else lines[0] + [term] + Terminated(lines[1..], term)
  }

  /** Lines that are short enough and hold no terminator come out as they went in. */
  lemma {:induction false} LinesReadBack(lines: seq<Str>, term: Byte, maxLen: nat)
    requires maxLen > 0
    requires forall i | 0 <= i < |lines| :: term !in lines[i] && |lines[i]| < maxLen
    ensures ReadAll(Terminated(lines, term), term, maxLen) == lines
  {
    if lines != [] {
      LinesReadBack(lines[1..], term, maxLen);
      var rest := Terminated(lines[1..], term);
      var s := lines[0] + [term] + rest;
      assert s[..|lines[0]|] == lines[0] && s[|lines[0]| + 1..] == rest;
      FoundAt(s, term, |lines[0]|);
    }
  }

  // ----- replies

  datatype Reply = Reply(status: Str, sep: Byte, text: Str)

  function Sent(replies: seq<Reply>): Str {
    if replies == [] then []
    else FtpCmdIo.ReplyLine(replies[0].status, replies[0].sep, replies[0].text) + Sent(replies[1..])
  }

  function LineOf(r: Reply): Str {
    r.status + [r.sep] + FtpCmdIo.Escaped(r.text) + [CR]
  }

  function LinesOf(replies: seq<Reply>): (r: seq<Str>)
    ensures |r| == |replies| && forall i | 0 <= i < |r| :: r[i] == LineOf(replies[i])
  {
    seq(|replies|, i requires 0 <= i < |replies| => LineOf(replies[i]))
  }

  /** However many replies are sent, and whatever bytes their texts hold, a line reader finds one line for each. */
  lemma {:induction false} RepliesReadBack(replies: seq<Reply>, maxLen: nat)
    requires maxLen > 0
    requires forall i | 0 <= i < |replies| ::
               LF !in replies[i].status && replies[i].sep != LF && |LineOf(replies[i])| < maxLen
    ensures ReadAll(Sent(replies), LF, maxLen) == LinesOf(replies)
  {
    SentIsLines(replies);
    forall i | 0 <= i < |replies|
      ensures LF !in LineOf(replies[i])
    {
      FtpCmdIo.EscapedHasNoLf(replies[i].text);
    }
    LinesReadBack(LinesOf(replies), LF, maxLen);
  }

  lemma {:induction false} SentIsLines(replies: seq<Reply>)
    ensures Sent(replies) == Terminated(LinesOf(replies), LF)
  {
    if replies != [] {
      SentIsLines(replies[1..]);
      assert LinesOf(replies)[1..] == LinesOf(replies[1..]);
      var r := replies[0];
      assert FtpCmdIo.ReplyLine(r.status, r.sep, r.text) == LineOf(r) + [LF];
    }
  }
}
