/** The wire format spoken over the socket pairs between the FTP protocol child and its two
    helpers: the privileged parent and, for encrypted sessions, the SSL slave.  A stream
    socket carries bytes; a byte may travel with a file descriptor attached. */
module PrivSock {
  import opened Bytes

  type Fd = nat

  /** One byte of the stream: plain, or the zero byte that carries a descriptor. */
  datatype Item = Plain(b: Byte) | WithFd(fd: Fd)
  {
    function Value(): Byte { if Plain? then b else 0 }
  }

  type Wire = seq<Item>

  const MAX_STR := 131072   // VSFTP_PRIVSOCK_MAXSTR
  const DATA_BUF := 65536   // VSFTP_DATA_BUFSIZE

  const RESULT_OK: Byte := 1
  const RESULT_BAD: Byte := 2

  /** Which helper sits at the far end, and what its command loop accepts. */
  datatype Role = Parent(chownUploads: bool) | Slave

  datatype Request =
    | Chown(fd: Fd) | GetDataSock(port: Port)
    | PasvCleanup | PasvActive | PasvListen | PasvAccept
    | GetUserCmd | WriteUserResp(text: Str)
    | SslHandshake(fd: Fd) | SslClose | SslRead | SslWrite(data: Str)

  datatype Reply =
    | Result(ok: bool)            // one result byte
    | ResultFd(fd: Fd)            // OK, then a descriptor
    | ResultInt(v: Int32)         // BAD, then an int
    | Number(v: Int32)            // an int
    | NumberText(v: Int32, text: Str)  // an int, then a string

  /** What a reader that stops as soon as it has what it needs makes of the bytes so far. */
  datatype Parse<+T> = More | Bad | Got(value: T)

  function Plains(s: Str): (w: Wire)
    ensures |w| == |s| && forall i :: 0 <= i < |s| ==> w[i] == Plain(s[i])
  {
    seq(|s|, i requires 0 <= i < |s| => Plain(s[i]))
  }

  function Values(w: Wire): (s: Str)
    ensures |s| == |w| && forall i :: 0 <= i < |w| ==> s[i] == w[i].Value()
  {
    seq(|w|, i requires 0 <= i < |w| => w[i].Value())
  }

  function IntWire(v: Int32): (w: Wire)
    ensures |w| == 4
  {
    Plains(EncodeInt(v))
  }

  function StrWire(s: Str): (w: Wire)
    requires |s| < 0x8000_0000
    ensures |w| == 4 + |s|
  {
    IntWire(|s|) + Plains(s)
  }

  function Code(r: Request): Byte {
    match r
    case Chown(_) => 2
    case GetDataSock(_) => 3
    case GetUserCmd => 4
    case WriteUserResp(_) => 5
    case SslHandshake(_) => 6
    case SslClose => 7
    case SslRead => 8
    case SslWrite(_) => 9
    case PasvCleanup => 10
    case PasvActive => 11
    case PasvListen => 12
    case PasvAccept => 13
  }

  /** The string a request carries, if any, is within the limit of the receiver. */
  predicate Sized(r: Request) {
    match r
    case WriteUserResp(text) => |text| <= MAX_STR
    case SslWrite(data) => |data| <= MAX_STR
    case _ => true
  }

  /** The requests each helper's loop serves. */
  predicate Serves(role: Role, r: Request) {
    match r
    case Chown(_) => role.Parent? && role.chownUploads
    case GetDataSock(_) => role.Parent?
    case PasvCleanup => role.Parent?
    case PasvActive => role.Parent?
    case PasvListen => role.Parent?
    case PasvAccept => role.Parent?
    case _ => role.Slave?
  }

  function RequestWire(r: Request): Wire
    requires Sized(r)
  {
    [Plain(Code(r))] + RequestBody(r)
  }

  function RequestBody(r: Request): Wire
    requires Sized(r)
  {
    match r
    case Chown(fd) => [WithFd(fd)]
    case GetDataSock(port) => IntWire(port)
    case WriteUserResp(text) => StrWire(text)
    case SslHandshake(fd) => [WithFd(fd)]
    case SslWrite(data) => StrWire(data)
    case _ => []
  }

  function ReplyWire(r: Reply): Wire
    requires r.NumberText? ==> |r.text| < 0x8000_0000
  {
    match r
    case Result(ok) => [Plain(if ok then RESULT_OK else RESULT_BAD)]
    case ResultFd(fd) => [Plain(RESULT_OK), WithFd(fd)]
    case ResultInt(v) => [Plain(RESULT_BAD)] + IntWire(v)
    case Number(v) => IntWire(v)
    case NumberText(v, text) => IntWire(v) + StrWire(text)
  }

  // ----- the receiving side, field by field

  function ReadNothing<T>(w: Wire, value: T): Parse<T> {
    if w == [] then Got(value) else Bad
  }

  /** `vsf_sysutil_recv_fd`: one byte, which must carry a descriptor. */
  function ReadFd(w: Wire): Parse<Fd> {
    if w == [] then More
    else if |w| == 1 && w[0].WithFd? then Got(w[0].fd)
    else Bad
  }

  function ReadInt(w: Wire): Parse<Int32> {
    if |w| < 4 then More
    else if |w| == 4 then Got(DecodeInt(Values(w)))
    else Bad
  }

  /** A length, refused when it exceeds `limit`, then that many bytes. */
  function ReadStr(w: Wire, limit: nat): Parse<Str> {
    if |w| < 4 then More
    else
      var len := DecodeUnsigned(Values(w[..4]));
      if len > limit then Bad
      else if |w| < 4 + len then More
      else if |w| == 4 + len then Got(Values(w[4..]))
      else Bad
  }

  function ReadRequest(role: Role, w: Wire): Parse<Request> {
    if w == [] then More
    else
      var cmd, rest := w[0].Value(), w[1..];
      if role.Parent? then
        if role.chownUploads && cmd == 2 then
          (match ReadFd(rest) case More => More case Bad => Bad case Got(fd) => Got(Chown(fd)))
        else if cmd == 3 then
          (match ReadInt(rest) case More => More case Bad => Bad case Got(v) => Got(GetDataSock(v % 65536)))
        else if cmd == 10 then ReadNothing(rest, PasvCleanup)
        else if cmd == 11 then ReadNothing(rest, PasvActive)
        else if cmd == 12 then ReadNothing(rest, PasvListen)
        else if cmd == 13 then ReadNothing(rest, PasvAccept)
        else Bad
      else
        if cmd == 4 then ReadNothing(rest, GetUserCmd)
        else if cmd == 5 then
          (match ReadStr(rest, MAX_STR) case More => More case Bad => Bad case Got(s) => Got(WriteUserResp(s)))
        else if cmd == 6 then
          (match ReadFd(rest) case More => More case Bad => Bad case Got(fd) => Got(SslHandshake(fd)))
        else if cmd == 7 then ReadNothing(rest, SslClose)
        else if cmd == 8 then ReadNothing(rest, SslRead)
        else if cmd == 9 then
          (match ReadStr(rest, MAX_STR) case More => More case Bad => Bad case Got(s) => Got(SslWrite(s)))
        else Bad
  }

  /** An int, then a string when `wanted` says one follows. */
  function ReadNumberText(w: Wire, limit: nat, wanted: Int32 -> bool): Parse<Reply> {
    if |w| < 4 then More
    else
      var v := DecodeInt(Values(w[..4]));
      if !wanted(v) then ReadNothing(w[4..], Number(v))
      else match ReadStr(w[4..], limit)
        case More => More
        case Bad => Bad
        case Got(s) => Got(NumberText(v, s))
  }

  /** How the stub for request `r` reads its answer; `room` is the size of the buffer an
      SSL read is to fill. */
  function ReadReply(r: Request, room: nat, w: Wire): Parse<Reply> {
    match r
    case Chown(_) => ReadOk(w)
    case PasvCleanup => ReadOk(w)
    case PasvActive => ReadNumber(w)
    case PasvListen => ReadNumber(w)
    case WriteUserResp(_) => ReadNumber(w)
    case SslWrite(_) => ReadNumber(w)
    case GetDataSock(_) =>
      if w == [] then More
      else if w[0].Value() == RESULT_BAD then ReadNothing(w[1..], Result(false))
      else ReadOkFd(w)
    case PasvAccept =>
      if w == [] then More
      else if w[0].Value() == RESULT_BAD then
        (match ReadInt(w[1..]) case More => More case Bad => Bad case Got(v) => Got(ResultInt(v)))
      else ReadOkFd(w)
    case SslHandshake(_) => ReadResult(w)
    case SslClose => ReadResult(w)
    case GetUserCmd => ReadNumberText(w, MAX_STR, v => v >= 0)
    case SslRead => ReadNumberText(w, room, v => true)
  }

  function ReadNumber(w: Wire): Parse<Reply> {
    match ReadInt(w) case More => More case Bad => Bad case Got(v) => Got(Number(v))
  }

  function ReadResult(w: Wire): Parse<Reply> {
    if w == [] then More else ReadNothing(w[1..], Result(w[0].Value() == RESULT_OK))
  }

  /** A result byte that must be OK. */
  function ReadOk(w: Wire): Parse<Reply> {
    if w == [] then More
    else if w[0].Value() != RESULT_OK then Bad
    else ReadNothing(w[1..], Result(true))
  }

  function ReadOkFd(w: Wire): Parse<Reply>
    requires w != []
  {
    if w[0].Value() != RESULT_OK then Bad
    else match ReadFd(w[1..]) case More => More case Bad => Bad case Got(fd) => Got(ResultFd(fd))
  }

  /** The answers each request can draw that its stub does not treat as fatal. */
  predicate Answers(r: Request, room: nat, a: Reply) {
    match r
    case Chown(_) => a == Result(true)
    case PasvCleanup => a == Result(true)
    case PasvActive => a.Number?
    case PasvListen => a.Number?
    case WriteUserResp(_) => a.Number?
    case SslWrite(_) => a.Number?
    case GetDataSock(_) => a == Result(false) || a.ResultFd?
    case PasvAccept => a.ResultInt? || a.ResultFd?
    case SslHandshake(_) => a.Result?
    case SslClose => a.Result?
    case GetUserCmd => (a.Number? && a.v < 0) || (a.NumberText? && a.v >= 0 && |a.text| <= MAX_STR)
    case SslRead => a.NumberText? && |a.text| <= room && |a.text| < 0x8000_0000
  }

  // ----- framing: no reader stops early, none reads on

  lemma IntFrames(v: Int32)
    ensures ReadInt(IntWire(v)) == Got(v)
    ensures DecodeInt(Values(IntWire(v))) == v
    ensures v >= 0 ==> DecodeUnsigned(Values(IntWire(v))) == v
  {
    IntRoundTrip(v);
    assert Values(IntWire(v)) == EncodeInt(v);
  }

  lemma StrFrames(s: Str, limit: nat, k: nat)
    requires |s| < 0x8000_0000 && k <= 4 + |s|
    ensures |s| <= limit ==> ReadStr(StrWire(s)[..k], limit) == if k < 4 + |s| then More else Got(s)
    ensures |s| > limit ==> ReadStr(StrWire(s)[..k], limit) == if k < 4 then More else Bad
  {
    var w := StrWire(s)[..k];
    if k >= 4 {
      assert w[..4] == IntWire(|s|);
      IntFrames(|s|);
      if k == 4 + |s| {
        assert w[4..] == Plains(s);
        assert Values(Plains(s)) == s;
      }
    }
  }

  /** The part of the request behind its command byte. */
  lemma BodyRead(r: Request, k: nat)
    requires Sized(r) && 0 < k <= |RequestWire(r)|
    ensures RequestWire(r)[..k][0] == Plain(Code(r)) && RequestWire(r)[..k][1..] == RequestBody(r)[..k - 1]
    ensures |RequestWire(r)| == 1 + |RequestBody(r)|
  {
  }

  lemma BareFrames(role: Role, r: Request, k: nat)
    requires Sized(r) && Serves(role, r) && 0 < k <= |RequestWire(r)|
    requires RequestBody(r) == []
    ensures ReadRequest(role, RequestWire(r)[..k]) == Got(r)
  {
    BodyRead(r, k);
  }

  lemma FdFrames(role: Role, r: Request, k: nat)
    requires Serves(role, r) && (r.Chown? || r.SslHandshake?) && 0 < k <= |RequestWire(r)|
    ensures ReadRequest(role, RequestWire(r)[..k]) == if k < |RequestWire(r)| then More else Got(r)
  {
    BodyRead(r, k);
  }

  lemma PortFrames(role: Role, r: Request, k: nat)
    requires Serves(role, r) && r.GetDataSock? && 0 < k <= |RequestWire(r)|
    ensures ReadRequest(role, RequestWire(r)[..k]) == if k < |RequestWire(r)| then More else Got(r)
  {
    BodyRead(r, k);
    IntFrames(r.port);
    if k == 5 {
      assert RequestBody(r)[..4] == RequestBody(r);
    }
  }

  lemma TextFrames(role: Role, r: Request, k: nat)
    requires Sized(r) && Serves(role, r) && (r.WriteUserResp? || r.SslWrite?) && 0 < k <= |RequestWire(r)|
    ensures ReadRequest(role, RequestWire(r)[..k]) == if k < |RequestWire(r)| then More else Got(r)
  {
    BodyRead(r, k);
    StrFrames(if r.SslWrite? then r.data else r.text, MAX_STR, k - 1);
  }

  /** A server reading any part of a request it serves keeps reading until the last item,
      and then has exactly that request. */
  lemma RequestFrames(role: Role, r: Request, k: nat)
    requires Sized(r) && Serves(role, r) && k <= |RequestWire(r)|
    ensures ReadRequest(role, RequestWire(r)[..k]) == if k < |RequestWire(r)| then More else Got(r)
  {
    if k > 0 {
      match r
      case GetDataSock(_) => PortFrames(role, r, k);
      case WriteUserResp(_) => TextFrames(role, r, k);
      case SslWrite(_) => TextFrames(role, r, k);
      case Chown(_) => FdFrames(role, r, k);
      case SslHandshake(_) => FdFrames(role, r, k);
      case _ => BareFrames(role, r, k);
    }
  }

  lemma ResultFrames(r: Request, room: nat, a: Reply, k: nat)
    requires a.Result? || a.ResultFd? || a.ResultInt?
    requires Answers(r, room, a) && k <= |ReplyWire(a)|
    ensures ReadReply(r, room, ReplyWire(a)[..k]) == if k < |ReplyWire(a)| then More else Got(a)
  {
    if k > 0 && a.ResultFd? {
      assert ReplyWire(a)[..k][1..] == [WithFd(a.fd)][..k - 1];
    } else if k > 0 && a.ResultInt? {
      assert ReplyWire(a)[..k][1..] == IntWire(a.v)[..k - 1];
      IntFrames(a.v);
      assert IntWire(a.v)[..4] == IntWire(a.v);
    }
  }

  lemma NumberFrames(r: Request, room: nat, a: Reply, k: nat)
    requires a.Number?
    requires Answers(r, room, a) && k <= |ReplyWire(a)|
    ensures ReadReply(r, room, ReplyWire(a)[..k]) == if k < |ReplyWire(a)| then More else Got(a)
  {
    var w := ReplyWire(a)[..k];
    IntFrames(a.v);
    if k == 4 {
      assert w == w[..4] == IntWire(a.v);
    }
  }

  /** An int and a string, when the int is one that a string follows. */
  lemma NumberTextFrames(w: Wire, limit: nat, wanted: Int32 -> bool, v: Int32, text: Str, k: nat)
    requires |text| < 0x8000_0000 && |text| <= limit && wanted(v) && k <= 8 + |text|
    requires w == (IntWire(v) + StrWire(text))[..k]
    ensures ReadNumberText(w, limit, wanted) == if k < 8 + |text| then More else Got(NumberText(v, text))
  {
    IntFrames(v);
    if k >= 4 {
      assert w[..4] == IntWire(v) && w[4..] == StrWire(text)[..k - 4];
      StrFrames(text, limit, k - 4);
    }
  }

  lemma TextReplyFrames(r: Request, room: nat, a: Reply, k: nat)
    requires a.NumberText?
    requires Answers(r, room, a) && k <= |ReplyWire(a)|
    ensures ReadReply(r, room, ReplyWire(a)[..k]) == if k < |ReplyWire(a)| then More else Got(a)
  {
    if r.GetUserCmd? {
      NumberTextFrames(ReplyWire(a)[..k], MAX_STR, v => v >= 0, a.v, a.text, k);
    } else {
      NumberTextFrames(ReplyWire(a)[..k], room, v => true, a.v, a.text, k);
    }
  }

  /** The same for the stub reading its reply. */
  lemma ReplyFrames(r: Request, room: nat, a: Reply, k: nat)
    requires Answers(r, room, a) && k <= |ReplyWire(a)|
    ensures ReadReply(r, room, ReplyWire(a)[..k]) == if k < |ReplyWire(a)| then More else Got(a)
  {
    if a.Number? {
      NumberFrames(r, room, a, k);
    } else if a.NumberText? {
      TextReplyFrames(r, room, a, k);
    } else {
      ResultFrames(r, room, a, k);
    }
  }

  /** Descriptors ride only on the last item of a request or reply. */
  lemma FdsComeLast(r: Request, a: Reply, k: nat)
    ensures Sized(r) && k + 1 < |RequestWire(r)| ==> RequestWire(r)[k].Plain?
    ensures (a.NumberText? ==> |a.text| < 0x8000_0000) && k + 1 < |ReplyWire(a)| ==> ReplyWire(a)[k].Plain?
  {
  }

  /** `priv_sock_get_str` refuses a string exactly when it is longer than the limit, and does so
      on the length alone. */
  lemma OversizeRefused(s: Str)
    requires |s| < 0x8000_0000
    ensures ReadRequest(Slave, [Plain(9)] + IntWire(|s|)) == Bad <==> |s| > MAX_STR
  {
    var w := [Plain(9)] + IntWire(|s|);
    assert w[1..] == IntWire(|s|) == IntWire(|s|)[..4];
    IntFrames(|s|);
  }

  /** An SSL read's answer reaches a caller whose buffer has room for it, and only such a caller. */
  lemma ReadAnswerFits(room: nat, v: Int32, text: Str)
    requires |text| <= DATA_BUF
    ensures ReadReply(SslRead, room, ReplyWire(NumberText(v, text)))
            == if |text| <= room then Got(NumberText(v, text)) else Bad
  {
    var w := ReplyWire(NumberText(v, text));
    assert w[..4] == IntWire(v) && w[4..] == StrWire(text) == StrWire(text)[..4 + |text|];
    IntFrames(v);
    StrFrames(text, room, 4 + |text|);
  }

  predicate ReadAnswerArrives(room: nat, text: Str)
    requires |text| <= DATA_BUF
  {
    ReadReply(SslRead, room, ReplyWire(NumberText(|text|, text))) == Got(NumberText(|text|, text))
  }

  /** The slave reads up to a full data buffer whatever its caller asked for, so the caller's
      "recv_len bigger than buffer" guard is unreachable exactly when the caller's own buffer is
      at least that big: not for a smaller `trans_chunk_size`. */
  lemma ReadBufferBigEnough(room: nat)
    ensures (forall text: Str | |text| <= DATA_BUF :: ReadAnswerArrives(room, text)) <==> DATA_BUF <= room
  {
    forall text: Str | |text| <= DATA_BUF
      ensures ReadAnswerArrives(room, text) <==> |text| <= room
    {
      ReadAnswerFits(room, |text|, text);
    }
    var full: Str := seq(DATA_BUF, i => 0);
    assert ReadAnswerArrives(room, full) <==> DATA_BUF <= room;
  }
}
