/** The stubs of twoprocess.c and readwrite.c as they are written: send a request, wait, read the
    reply.  While the caller waits the process at the far end takes its turn. */
module Stubs {
  import opened Bytes
  import opened PrivSock
  import opened PrivOps
  import opened PrivChannel
  import opened PrivParent
  import opened SslSlave

  lemma Bare(w: Wire)
    ensures w + [] == w && [] + w == w
  {
  }

  /** The reply of either helper, on its way. */
  method SendReply(down: Channel, a: Reply)
    requires a.NumberText? ==> |a.text| < 0x8000_0000
    requires down.items == []
    modifies down
    ensures down.items == ReplyWire(a)
  {
    match a
    case Result(ok) => down.SendResult(if ok then RESULT_OK else RESULT_BAD);
    case ResultFd(fd) =>
      down.SendResult(RESULT_OK);
      down.SendFd(fd);
    case ResultInt(v) =>
      down.SendResult(RESULT_BAD);
      down.SendInt(v);
    case Number(v) => down.SendInt(v);
    case NumberText(v, text) =>
      down.SendInt(v);
      down.SendStr(text);
  }

  /** An int alone on its way down. */
  method TakeNumber(down: Channel, ghost v: Int32) returns (r: Option<Int32>)
    requires down.items == IntWire(v)
    modifies down
    ensures r == Some(v) && down.items == []
  {
    Bare(down.items);
    IntFirst(v, []);
    r := down.GetInt();
  }

  /** An int and a string on their way down. */
  method TakeNumberText(down: Channel, limit: nat, ghost v: Int32, ghost text: Str)
      returns (r: Option<Int32>, s: Option<Str>)
    requires |text| < 0x8000_0000 && down.items == IntWire(v) + StrWire(text)
    modifies down
    ensures r == Some(v) && s == (if |text| <= limit then Some(text) else None)
    ensures |text| <= limit ==> down.items == []
  {
    IntFirst(v, StrWire(text));
    Bare(StrWire(text));
    StrFirst(text, []);
    r := down.GetInt();
    s := down.GetStr(limit);
  }

  /** An int, and a string if it is not negative. */
  method TakeUserCmd(down: Channel, ghost v: Int32, ghost text: Str) returns (r: Option<Int32>, s: Option<Str>)
    requires |text| <= MAX_STR && down.items == IntWire(v) + if v >= 0 then StrWire(text) else []
    modifies down
    ensures r == Some(v) && s == Some(if v >= 0 then text else []) && down.items == []
  {
    s := Some([]);
    IntFirst(v, if v >= 0 then StrWire(text) else []);
    r := down.GetInt();
    if r != None && r.value >= 0 {
      Bare(StrWire(text));
      StrFirst(text, []);
      s := down.GetStr(MAX_STR);
    }
  }

  // ----- the privileged parent at the far end

  /** The parent's read of a request: the command byte and what belongs to it. */
  method GetRequest(up: Channel, chownUploads: bool, ghost r: Request) returns (got: Option<Request>)
    requires Serves(Role.Parent(chownUploads), r) && up.items == RequestWire(r)
    modifies up
    ensures got == Some(r) && up.items == []
  {
    ghost var body := RequestBody(r);
    assert up.items[1..] == body;
    Bare(body);
    var cmd := up.GetByte();
    got := None;
    if cmd == None {
      return;
    }
    if chownUploads && cmd.value == 2 {
      var fd := up.RecvFd();
      got := if fd == None then None else Some(Request.Chown(fd.value));
    } else if cmd.value == 3 {
      if r.GetDataSock? {
        IntFirst(r.port, []);
      }
      var v := up.GetInt();
      got := if v == None then None else Some(GetDataSock(v.value % 65536));
    } else if cmd.value == 10 {
      got := Some(Request.PasvCleanup);
    } else if cmd.value == 11 {
      got := Some(Request.PasvActive);
    } else if cmd.value == 12 {
      got := Some(Request.PasvListen);
    } else if cmd.value == 13 {
      got := Some(Request.PasvAccept);
    }
  }

  /** The session's side: the two streams, and the parent that serves them. */
  class Child {
    const parent: Parent
    const up: Channel
    const down: Channel

    /** Between calls nothing is in flight. */
    ghost predicate Valid()
      reads this, parent, up, down
    {
      parent.Valid() && up != down && up.items == [] && down.items == []
    }

    constructor (cfg: Config)
      requires cfg.role.Parent?
      ensures Valid() && fresh(parent) && fresh(up) && fresh(down) && parent.cfg == cfg && parent.listen == None
    {
      parent := new Parent(cfg);
      up := new Channel();
      down := new Channel();
    }

    /** What the call does when it is made directly. */
    ghost function Directly(portAddr: nat, r: Request, env: Env): Direct
      requires Serves(parent.cfg.role, r) && parent.Valid()
      reads parent
    {
      Call(parent.cfg, Caller(DATA_BUF, portAddr), OwnPassive(parent.listen), {}, r, env)
    }

    /** The parent's turn, with a request on the way up. */
    method ParentTurn(env: Env, ghost r: Request) returns (alive: bool)
      requires parent.Valid() && up != down && Serves(parent.cfg.role, r)
      requires up.items == RequestWire(r) && down.items == []
      modifies parent, up, down
      ensures match Serve(parent.cfg, Passive(old(parent.listen)), old(parent.fds), r, env)
              case Died => !alive
              case Served(h, fds, a, close) =>
                && alive && Answered(a) && h == Passive(parent.listen) && parent.fds == fds - Fds(close)
    {
      var got := GetRequest(up, parent.cfg.role.chownUploads, r);
      if got == None {
        return false;
      }
      var reply, close;
      alive, reply, close := parent.ProcessPostLoginReq(got.value, env);
      if alive {
        SendReply(down, reply);
        parent.fds := parent.fds - Fds(close);
      }
    }

    /** The reply `a` is on its way down. */
    ghost predicate Answered(a: Reply)
      reads this, parent, up, down
    {
      parent.Valid() && up != down && up.items == [] && !a.NumberText? && down.items == ReplyWire(a)
    }

    method PasvCleanup(env: Env) returns (alive: bool)
      requires Valid()
      modifies parent, up, down
      ensures alive && Valid() && parent.listen == None && parent.fds == old(parent.fds) - Fds(old(parent.listen))
    {
      up.SendCmd(10);
      alive := ParentTurn(env, Request.PasvCleanup);
      var res := down.GetByte();
      if res == None || res.value != RESULT_OK {
        return false;   // die("could not clean up socket")
      }
    }

    method PasvActive(env: Env) returns (alive: bool, active: int)
      requires Valid()
      modifies parent, up, down
      ensures alive && Valid() && parent.listen == old(parent.listen) && parent.fds == old(parent.fds)
      ensures Returned(OwnPassive(parent.listen), {}, Int(active)) == old(Directly(0, Request.PasvActive, env))
      ensures active == if old(parent.listen).Some? then 1 else 0
    {
      up.SendCmd(11);
      alive := ParentTurn(env, Request.PasvActive);
      var v := TakeNumber(down, if parent.listen == None then 0 else 1);
      if v == None {
        return false, 0;
      }
      active := v.value;
    }

    method Listen(env: Env) returns (alive: bool, port: int)
      requires Valid()
      modifies parent, up, down
      ensures alive <==> env.boundPort.Some?
      ensures alive ==> port == env.boundPort.value && parent.listen == Some(env.fd)
                        && parent.fds == old(parent.fds) + {env.fd}
      ensures match old(Directly(0, Request.PasvListen, env))
              case Crashed => !alive
              case Returned(own, _, ret) =>
                alive && Valid() && OwnPassive(parent.listen) == own && ret == Int(port)
    {
      up.SendCmd(12);
      alive := ParentTurn(env, Request.PasvListen);
      if !alive {
        return false, 0;   // the read below sees the end of the stream
      }
      var v := TakeNumber(down, env.boundPort.value);
      if v == None {
        return false, 0;
      }
      port := v.value % 65536;
    }

    /** -1 when nobody came, or there is nothing to come to; -2 when a stranger came; else the connection. */
    method GetPasvFd(env: Env) returns (alive: bool, fd: int)
      requires Valid()
      modifies parent, up, down
      ensures alive && Valid() && parent.listen == old(parent.listen)
      ensures fd == -1 <==> old(parent.listen).None? || !env.accepted
      ensures fd == -2 <==>
              old(parent.listen).Some? && env.accepted && !parent.cfg.pasvPromiscuous && !env.fromPeer
      ensures fd == -1 || fd == -2 || fd == env.fd
      ensures parent.fds == if fd < 0 then old(parent.fds) else old(parent.fds) - {fd}
      ensures match old(Directly(0, Request.PasvAccept, env))
              case Crashed => !alive
              case Returned(own, _, ret) =>
                alive && Valid() && OwnPassive(parent.listen) == own && ret == Int(fd)
    {
      up.SendCmd(13);
      alive := ParentTurn(env, Request.PasvAccept);
      ghost var s := AcceptPasv(parent.cfg, parent.listen, env);
      ghost var sent := down.items;
      assert s < 0 ==> sent[1..] == IntWire(s);
      assert s >= 0 ==> sent[1..] == [WithFd(s)];
      var res := down.GetByte();
      if res == None {
        return false, -1;
      }
      if res.value == RESULT_BAD {
        var v := TakeNumber(down, s);
        return v != None, if v == None then -1 else v.value;
      } else if res.value != RESULT_OK {
        return false, -1;   // die("could not accept on listening socket")
      }
      var got := down.RecvFd();
      return got != None, if got == None then -1 else got.value;
    }

    /** The parent is told the port alone and connects to the control peer. */
    method GetPrivDataSock(portAddr: nat, port: Port, env: Env) returns (alive: bool, fd: int)
      requires Valid() && portAddr == parent.cfg.peer
      modifies parent, up, down
      ensures alive <==> port >= 1024 && env.ok
      ensures alive ==> Valid() && parent.listen == old(parent.listen)
                        && (fd == -1 <==> Endpoint(portAddr, port) in env.refusing) && (fd == -1 || fd == env.fd)
                        && parent.fds == if fd < 0 then old(parent.fds) else old(parent.fds) - {fd}
      ensures match old(Directly(portAddr, GetDataSock(port), env))
              case Crashed => !alive
              case Returned(own, _, ret) =>
                alive && Valid() && OwnPassive(parent.listen) == own && ret == Int(fd)
    {
      up.SendCmd(3);
      up.SendInt(port);
      assert up.items == RequestWire(GetDataSock(port));
      alive := ParentTurn(env, GetDataSock(port));
      if !alive {
        return false, -1;   // the read below sees the end of the stream
      }
      ghost var sent := down.items;
      assert sent[0] == Plain(RESULT_OK) ==> sent[1..] == [WithFd(env.fd)];
      assert sent[0] == Plain(RESULT_BAD) ==> sent[1..] == [];
      var res := down.GetByte();
      if res == None {
        return false, -1;
      }
      if res.value == RESULT_BAD {
        return true, -1;
      } else if res.value != RESULT_OK {
        return false, -1;   // die("could not get privileged socket")
      }
      var got := down.RecvFd();
      return got != None, if got == None then -1 else got.value;
    }

    method ChownUpload(fd: Fd, env: Env) returns (alive: bool)
      requires Valid() && parent.cfg.role.chownUploads
      modifies parent, up, down
      ensures alive == env.ok
      ensures alive ==> Valid() && parent.listen == old(parent.listen) && parent.fds == old(parent.fds) - {fd}
    {
      up.SendCmd(2);
      up.SendFd(fd);
      assert up.items == RequestWire(Request.Chown(fd));
      alive := ParentTurn(env, Request.Chown(fd));
      if !alive {
        return false;
      }
      var res := down.GetByte();
      if res == None || res.value != RESULT_OK {
        return false;   // die("unexpected failure in vsf_two_process_chown_upload")
      }
    }
  }

  // ----- the SSL slave at the far end

  method GetSlaveRequest(up: Channel, ghost r: Request) returns (got: Option<Request>)
    requires Serves(Role.Slave, r) && Sized(r) && up.items == RequestWire(r)
    modifies up
    ensures got == Some(r) && up.items == []
  {
    ghost var body := RequestBody(r);
    assert up.items[1..] == body;
    Bare(body);
    var cmd := up.GetByte();
    got := None;
    if cmd == None {
      return;
    }
    if cmd.value == 4 {
      got := Some(Request.GetUserCmd);
    } else if cmd.value == 5 {
      if r.WriteUserResp? {
        StrFirst(r.text, []);
      }
      var text := up.GetStr(MAX_STR);
      got := if text == None then None else Some(Request.WriteUserResp(text.value));
    } else if cmd.value == 6 {
      var fd := up.RecvFd();
      got := if fd == None then None else Some(Request.SslHandshake(fd.value));
    } else if cmd.value == 7 {
      got := Some(Request.SslClose);
    } else if cmd.value == 8 {
      got := Some(Request.SslRead);
    } else if cmd.value == 9 {
      if r.SslWrite? {
        StrFirst(r.data, []);
      }
      var data := up.GetStr(MAX_STR);
      got := if data == None then None else Some(Request.SslWrite(data.value));
    }
  }

  method SendWithText(up: Channel, cmd: Byte, text: Str, ghost r: Request)
    requires up.items == [] && |text| <= MAX_STR
    requires (r == SslWrite(text) || r == Request.WriteUserResp(text)) && Code(r) == cmd
    modifies up
    ensures up.items == RequestWire(r)
  {
    up.SendCmd(cmd);
    up.SendStr(text);
  }

  /** A session whose TLS is done by a slave. */
  class Consumer {
    const slave: Slave
    const up: Channel
    const down: Channel

    ghost predicate Valid()
      reads this, slave, slave.dataStr, slave.dataStr.buf, up, down
    {
      slave.Valid() && up != down && up.items == [] && down.items == []
    }

    constructor (cfg: Config)
      requires cfg.role.Slave?
      ensures Valid() && slave.AsHelper() == Ssl(None, false, DATA_BUF + 1)
      ensures fresh(slave) && fresh(up) && fresh(down) && fresh(slave.dataStr) && fresh(slave.dataStr.buf)
    {
      slave := new Slave(cfg);
      up := new Channel();
      down := new Channel();
    }

    /** What the call does on an SSL object of the session's own. */
    ghost function Directly(r: Request, env: Env): Direct
      requires Serves(slave.cfg.role, r) && slave.cfg.role.Slave?
      reads slave
    {
      Call(slave.cfg, Caller(DATA_BUF, 0), OwnSsl(slave.dataSsl), {}, r, env)
    }

    method SlaveTurn(env: Env, ghost r: Request) returns (alive: bool)
      requires slave.Valid() && up != down && Serves(Role.Slave, r) && Sized(r) && Honest(r, env)
      requires up.items == RequestWire(r) && down.items == []
      modifies slave, slave.dataStr, slave.dataStr.buf, up, down
      ensures slave.dataStr.buf == old(slave.dataStr.buf) || fresh(slave.dataStr.buf)
      ensures match Serve(slave.cfg, old(slave.AsHelper()), old(slave.fds), r, env)
              case Died => !alive
              case Served(h, fds, a, _) =>
                && alive && slave.Valid() && up.items == [] && slave.AsHelper() == h && slave.fds == fds
                && (a.NumberText? ==> |a.text| <= DATA_BUF) && down.items == ReplyWire(a)
    {
      var got := GetSlaveRequest(up, r);
      if got == None {
        return false;
      }
      var reply;
      alive, reply := slave.Turn(got.value, env);
      if alive {
        SendReply(down, reply);
      }
    }

    /** The read half of `ftp_read_data`; `room` is the size of the caller's buffer. */
    method ReadData(room: nat, env: Env) returns (alive: bool, ret: int, data: Str)
      requires Valid() && Honest(SslRead, env)
      modifies slave, slave.dataStr, slave.dataStr.buf, up, down
      ensures alive <==> old(slave.dataSsl) && |env.text| <= room
      ensures alive ==> ret == env.code && data == env.text
      ensures alive <==> old(Directly(SslRead, env)).Returned? && |env.text| <= room
      ensures alive ==> Valid() && slave.AsHelper() == old(slave.AsHelper())
                        && old(Directly(SslRead, env)).ret == IntText(ret, data)
    {
      data, ret := [], -1;
      up.SendCmd(8);
      alive := SlaveTurn(env, SslRead);
      if !alive {
        return;
      }
      var v, got := TakeNumberText(down, room, env.code, env.text);
      if v == None || got == None {
        return false, -1, [];
      }
      ret, data := v.value, got.value;
    }

    method WriteData(data: Str, env: Env) returns (alive: bool, ret: int)
      requires Valid() && |data| <= MAX_STR
      modifies slave, slave.dataStr, slave.dataStr.buf, up, down
      ensures alive == old(slave.dataSsl)
      ensures alive ==> Valid() && ret == env.code && slave.dataSsl && slave.dataFd == old(slave.dataFd)
    {
      ret := -1;
      SendWithText(up, 9, data, SslWrite(data));
      alive := SlaveTurn(env, SslWrite(data));
      if !alive {
        return;
      }
      var v := TakeNumber(down, env.code);
      if v == None {
        return false, -1;
      }
      ret := v.value;
    }

    /** The control half of `ftp_write_str`. */
    method WriteUserResp(text: Str, env: Env) returns (alive: bool, ret: int)
      requires Valid() && |text| <= MAX_STR
      modifies slave, slave.dataStr, slave.dataStr.buf, up, down
      ensures alive && Valid() && ret == env.code && slave.AsHelper() == old(slave.AsHelper())
    {
      SendWithText(up, 5, text, Request.WriteUserResp(text));
      alive := SlaveTurn(env, Request.WriteUserResp(text));
      var v := TakeNumber(down, env.code);
      if v == None {
        return false, -1;
      }
      ret := v.value;
    }

    /** From `vsf_ftpdataio_post_mark_connect`. */
    method Handshake(fd: Fd, env: Env) returns (alive: bool, ok: bool)
      requires Valid()
      modifies slave, slave.dataStr, slave.dataStr.buf, up, down
      ensures alive <==> !old(slave.dataSsl) && !env.lost
      ensures alive ==> Valid() && ok == env.ok == slave.dataSsl
                        && slave.dataFd == (if env.ok then Some(fd) else None)
    {
      ok := false;
      up.SendCmd(6);
      up.SendFd(fd);
      assert up.items == RequestWire(SslHandshake(fd));
      alive := SlaveTurn(env, SslHandshake(fd));
      if !alive {
        return;
      }
      var res := down.GetByte();
      if res == None {
        return false, false;
      }
      ok := res.value == RESULT_OK;
    }

    /** From `vsf_ftpdataio_dispose_transfer_fd`. */
    method Close(env: Env) returns (alive: bool, ok: bool)
      requires Valid()
      modifies slave, slave.dataStr, slave.dataStr.buf, up, down
      ensures alive && Valid() && !slave.dataSsl && slave.dataFd == None
      ensures ok == (old(slave.dataSsl) ==> env.ok)
    {
      ok := false;
      up.SendCmd(7);
      alive := SlaveTurn(env, SslClose);
      var res := down.GetByte();
      if res == None {
        return false, false;
      }
      ok := res.value == RESULT_OK;
    }

    method GetLine(env: Env) returns (alive: bool, ret: int, line: Str)
      requires Valid() && Honest(GetUserCmd, env)
      modifies slave, slave.dataStr, slave.dataStr.buf, up, down
      ensures alive <==> !env.lost
      ensures alive ==> Valid() && slave.AsHelper() == old(slave.AsHelper()) && ret == env.code
      ensures alive && env.code >= 0 ==> line == env.text
    {
      line, ret := [], -1;
      up.SendCmd(4);
      alive := SlaveTurn(env, GetUserCmd);
      if !alive {
        return;
      }
      Bare(IntWire(env.code));
      var v, got := TakeUserCmd(down, env.code, env.text);
      if v == None || got == None {
        return false, -1, [];
      }
      ret, line := v.value, got.value;
    }
  }
}
