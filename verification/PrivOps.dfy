/** The operations behind the helpers: what the privileged parent and the SSL slave do for a
    request, and what the same calls do when there is no helper and the session makes them
    itself. */
module PrivOps {
  import opened Bytes
  import opened PrivSock

  datatype Endpoint = Endpoint(addr: nat, port: Port)

  /** What the outside world decides during one operation: fresh descriptors, the port that
      could be bound (none: the attempts ran out), who refuses connections, who connected,
      whether the step that can fail succeeds, whether the peer is `lost` (its TLS negotiation
      fails, or the control connection ends where a line is read), and the result of an I/O call. */
  datatype Env = Env(fd: Fd, boundPort: Option<Port>, refusing: set<Endpoint>,
                     accepted: bool, fromPeer: bool, ok: bool, lost: bool, code: Int32, text: Str)

  /** Both sides of a session agree on these; `peer` is the address at the far end of the
      control connection. */
  datatype Config = Config(role: Role, peer: nat, pasvPromiscuous: bool)

  /** What only the calling side knows: the size of its read buffer and the address the
      client's PORT command named. */
  datatype Caller = Caller(room: nat, portAddr: nat)

  /** The session fields a helper owns. `alloc` is the capacity of the slave's reusable string. */
  datatype Helper =
    | Passive(listen: Option<Fd>)
    | Ssl(dataFd: Option<Fd>, up: bool, alloc: nat)

  /** The same fields in a session without a helper. */
  datatype Own = OwnPassive(listen: Option<Fd>) | OwnSsl(up: bool)

  datatype Ret = Nothing | Int(v: int) | IntText(v: int, text: Str)

  datatype Outcome =
    | Died
    | Served(helper: Helper, fds: set<Fd>, reply: Reply, close: Option<Fd>)

  datatype Direct = Crashed | Returned(own: Own, fds: set<Fd>, ret: Ret)

  predicate IsPortReserved(port: Port) { port < 1024 }

  function Fds(fd: Option<Fd>): set<Fd> {
    if fd.Some? then {fd.value} else {}
  }

  /** I/O results are as long as they say. */
  predicate Honest(r: Request, env: Env) {
    match r
    case SslRead => env.code <= DATA_BUF && |env.text| == if env.code < 0 then 0 else env.code
    case GetUserCmd => |env.text| <= 4096
    case _ => true
  }

  // ----- privops.c

  /** `vsf_privop_get_ftp_port_sock`: None when it dies, else a socket or -1. */
  function PortSock(target: Endpoint, env: Env): Option<int> {
    if IsPortReserved(target.port) || !env.ok then None
    else if target in env.refusing then Some(-1 as int)
    else Some(env.fd as int)
  }

  /** `vsf_privop_accept_pasv`: a descriptor, -1 for no connection, -2 for a stranger. */
  function AcceptPasv(cfg: Config, listen: Option<Fd>, env: Env): int {
    if listen.None? || !env.accepted then -1
    else if !cfg.pasvPromiscuous && !env.fromPeer then -2
    else env.fd
  }

  // ----- the helpers' handlers: postprivparent.c and sslslave.c

  function Serve(cfg: Config, h: Helper, fds: set<Fd>, r: Request, env: Env): Outcome
    requires h.Passive? <==> cfg.role.Parent?
    requires Serves(cfg.role, r)
  {
    match r
    case Chown(fd) =>
      if env.ok then Served(h, fds + {fd}, Result(true), Some(fd)) else Died
    case GetDataSock(port) =>
      (match PortSock(Endpoint(cfg.peer, port), env)
       case None => Died
       case Some(s) => if s < 0 then Served(h, fds, Result(false), None)
                       else Served(h, fds + {s}, ResultFd(s), Some(s)))
    case PasvCleanup => Served(Passive(None), fds - Fds(h.listen), Result(true), None)
    case PasvActive => Served(h, fds, Number(if h.listen.Some? then 1 else 0), None)
    case PasvListen =>
      if env.boundPort.Some?
      then Served(Passive(Some(env.fd)), fds + {env.fd}, Number(env.boundPort.value), None)
      else Died
    case PasvAccept =>
      var s := AcceptPasv(cfg, h.listen, env);
      if s < 0 then Served(h, fds, ResultInt(s), None)
      else Served(h, fds + {s}, ResultFd(s), Some(s))
    case GetUserCmd =>
      if env.lost then Died   // str_netfd_alloc: no data
      else Served(h, fds, if env.code >= 0 then NumberText(env.code, env.text) else Number(env.code), None)
    case WriteUserResp(_) => Served(h, fds, Number(env.code), None)
    case SslHandshake(fd) =>
      if h.dataFd.Some? || h.up then Died   // bug("state not clean")
      else if env.lost then Died            // get_ssl: SSL_accept failed
      else if env.ok then Served(h.(dataFd := Some(fd), up := true), fds + {fd}, Result(true), None)
      else Served(h, fds, Result(false), None)
    case SslClose =>
      if h.dataFd.None? && !h.up then Served(h, fds, Result(true), None)
      else if h.dataFd.None? then Died      // close(-1)
      else Served(h.(dataFd := None, up := false), fds - Fds(h.dataFd), Result(!h.up || env.ok), None)
    case SslRead =>
      if h.alloc <= DATA_BUF || !h.up then Died   // str_trunc guard; no SSL object
      else Served(h, fds, NumberText(env.code, env.text), None)
    case SslWrite(data) =>
      if !h.up then Died
      else Served(h.(alloc := if |data| + 1 > h.alloc then |data| + 1 else h.alloc), fds, Number(env.code), None)
  }

  // ----- the same calls made directly: oneprocess.c and the non-slave branches of readwrite.c

  function Call(cfg: Config, who: Caller, own: Own, fds: set<Fd>, r: Request, env: Env): Direct
    requires own.OwnPassive? <==> cfg.role.Parent?
    requires Serves(cfg.role, r)
  {
    match r
    case Chown(fd) => if env.ok then Returned(own, fds, Nothing) else Crashed
    case GetDataSock(port) =>
      (match PortSock(Endpoint(who.portAddr, port), env)
       case None => Crashed
       case Some(s) => Returned(own, if s < 0 then fds else fds + {s}, Int(s)))
    case PasvCleanup => Returned(OwnPassive(None), fds - Fds(own.listen), Nothing)
    case PasvActive => Returned(own, fds, Int(if own.listen == None then 0 else 1))
    case PasvListen =>
      (match env.boundPort
       case None => Crashed
       case Some(port) => Returned(OwnPassive(Some(env.fd)), fds + {env.fd}, Int(port)))
    case PasvAccept =>
      var s := AcceptPasv(cfg, own.listen, env);
      Returned(own, if s < 0 then fds else fds + {s}, Int(s))
    case GetUserCmd =>
      if env.lost then Crashed
      else Returned(own, fds, if env.code >= 0 then IntText(env.code, env.text) else Int(env.code))
    case WriteUserResp(_) => Returned(own, fds, Int(env.code))
    case SslHandshake(_) =>
      if own.up || env.lost then Crashed else Returned(OwnSsl(env.ok), fds, Int(if env.ok then 1 else 0))
    case SslClose => Returned(OwnSsl(false), fds, Int(if own.up && !env.ok then 0 else 1))
    case SslRead => if own.up then Returned(own, fds, IntText(env.code, env.text)) else Crashed
    case SslWrite(_) => if own.up then Returned(own, fds, Int(env.code)) else Crashed
  }

  /** What a passive call comes to: -1 when nobody came, or there is nothing to come to; -2 when a
      stranger came and strangers are not welcome; else the new connection. */
  lemma AcceptIs(cfg: Config, who: Caller, own: Own, fds: set<Fd>, env: Env)
    requires own.OwnPassive? && cfg.role.Parent?
    ensures var d := Call(cfg, who, own, fds, PasvAccept, env);
            && d.Returned? && d.own == own && d.ret.Int?
            && (d.ret.v == -1 <==> own.listen.None? || !env.accepted)
            && (d.ret.v == -2 <==> own.listen.Some? && env.accepted && !cfg.pasvPromiscuous && !env.fromPeer)
            && (d.ret.v == -1 || d.ret.v == -2 || d.ret.v == env.fd)
            && d.fds == if d.ret.v < 0 then fds else fds + {env.fd}
  {
  }

  /** An active one: a reserved port is never asked for, a peer that refuses gives -1. */
  lemma DataSockIs(cfg: Config, who: Caller, own: Own, fds: set<Fd>, port: Port, env: Env)
    requires own.OwnPassive? && cfg.role.Parent?
    ensures var d := Call(cfg, who, own, fds, GetDataSock(port), env);
            && (d.Returned? <==> port >= 1024 && env.ok)
            && (d.Returned? ==>
                  && d.own == own && d.ret.Int?
                  && (d.ret.v == -1 <==> Endpoint(who.portAddr, port) in env.refusing)
                  && (d.ret.v == -1 || d.ret.v == env.fd)
                  && d.fds == if d.ret.v < 0 then fds else fds + {env.fd})
  {
  }

  /** Listening holds one new socket, says its port, and is over after a cleanup. */
  lemma ListenIs(cfg: Config, who: Caller, own: Own, fds: set<Fd>, env: Env)
    requires own.OwnPassive? && cfg.role.Parent?
    ensures var d := Call(cfg, who, own, fds, PasvListen, env);
            && (d.Returned? <==> env.boundPort.Some?)
            && (d.Returned? ==> d == Returned(OwnPassive(Some(env.fd)), fds + {env.fd}, Int(env.boundPort.value)))
            && (d.Returned? && env.fd !in fds ==>
                  && Call(cfg, who, d.own, d.fds, PasvActive, env).ret == Int(1)
                  && Call(cfg, who, d.own, d.fds, PasvCleanup, env) == Returned(OwnPassive(None), fds, Nothing))
    ensures Call(cfg, who, OwnPassive(None), fds, PasvActive, env) == Returned(OwnPassive(None), fds, Int(0))
  {
    assert fds + {env.fd} - {env.fd} == if env.fd in fds then fds - {env.fd} else fds;
  }

  /** TLS on the data connection: it comes up when the negotiation succeeds and is not refused, and
      dies when it fails or is up; reads and writes need it up, and a close takes it down. */
  lemma TlsIs(cfg: Config, who: Caller, up: bool, fds: set<Fd>, fd: Fd, data: Str, env: Env)
    requires cfg.role.Slave?
    ensures Call(cfg, who, OwnSsl(up), fds, SslHandshake(fd), env)
            == if up || env.lost then Crashed else Returned(OwnSsl(env.ok), fds, Int(if env.ok then 1 else 0))
    ensures Call(cfg, who, OwnSsl(up), fds, SslRead, env).Returned? <==> up
    ensures Call(cfg, who, OwnSsl(up), fds, SslWrite(data), env).Returned? <==> up
    ensures Call(cfg, who, OwnSsl(up), fds, SslClose, env)
            == Returned(OwnSsl(false), fds, Int(if up && !env.ok then 0 else 1))
    ensures up ==> && Call(cfg, who, OwnSsl(up), fds, SslRead, env).ret == IntText(env.code, env.text)
                   && Call(cfg, who, OwnSsl(up), fds, SslWrite(data), env).ret == Int(env.code)
  {
  }

  /** On the control connection: a line is read unless the connection ends, a reply is written, and neither
      touches anything else; nor does the chown of an upload, which has to succeed. */
  lemma ControlIs(cfg: Config, who: Caller, own: Own, fds: set<Fd>, text: Str, file: Fd, env: Env)
    requires own.OwnPassive? <==> cfg.role.Parent?
    ensures cfg.role.Slave? ==>
              && Call(cfg, who, own, fds, GetUserCmd, env)
                 == (if env.lost then Crashed
                     else Returned(own, fds, if env.code >= 0 then IntText(env.code, env.text) else Int(env.code)))
              && Call(cfg, who, own, fds, WriteUserResp(text), env) == Returned(own, fds, Int(env.code))
    ensures cfg.role.Parent? && cfg.role.chownUploads ==>
              Call(cfg, who, own, fds, Chown(file), env) == if env.ok then Returned(own, fds, Nothing) else Crashed
  {
  }

  /** What the two-process stub returns to its caller for a reply it has read. */
  function StubReturn(r: Request, a: Reply): Ret {
    match a
    case Result(ok) =>
      if r.Chown? || r.PasvCleanup? then Nothing
      else if r.GetDataSock? then Int(-1)
      else Int(if ok then 1 else 0)
    case ResultFd(fd) => Int(fd)
    case ResultInt(v) => Int(v)
    case Number(v) => Int(if r.PasvListen? then v % 65536 else v)
    case NumberText(v, text) => IntText(v, text)
  }

  /** The slave holds a data descriptor exactly while it holds a data SSL object, and its string
      always has room for a full read. */
  predicate SlaveSound(h: Helper) {
    h.Ssl? ==> (h.dataFd.Some? <==> h.up) && h.alloc > DATA_BUF
  }

  function Owned(h: Helper): Own {
    match h case Passive(l) => OwnPassive(l) case Ssl(_, up, _) => OwnSsl(up)
  }

  /** A sound helper dies exactly when the direct call would, and otherwise sends back the direct
      call's result and moves the fields it owns the same way; it stays sound. The one
      case that hangs on the caller is the active-mode socket: it goes to the control peer,
      so the PORT address must be the peer's. */
  lemma ServeIsCall(cfg: Config, who: Caller, h: Helper, fds: set<Fd>, mine: set<Fd>, r: Request, env: Env)
    requires (h.Passive? <==> cfg.role.Parent?) && Serves(cfg.role, r) && SlaveSound(h)
    requires r.GetDataSock? ==> who.portAddr == cfg.peer
    requires Honest(r, env)
    ensures Serve(cfg, h, fds, r, env).Died? <==> Call(cfg, who, Owned(h), mine, r, env).Crashed?
    ensures Serve(cfg, h, fds, r, env).Served? ==>
              var s, d := Serve(cfg, h, fds, r, env), Call(cfg, who, Owned(h), mine, r, env);
              SlaveSound(s.helper) && Owned(s.helper) == d.own && StubReturn(r, s.reply) == d.ret
              && (r.SslRead? ==> |s.reply.text| <= DATA_BUF)
              && (DATA_BUF <= who.room ==> Answers(r, who.room, s.reply))
  {
  }

  /** Without that, parent and direct call part ways: they agree for every state of the network
      exactly when the PORT address is the control peer's (or the port is reserved, when
      both refuse it). */
  lemma DataSockAgrees(cfg: Config, who: Caller, h: Helper, port: Port)
    requires h.Passive? && cfg.role.Parent?
    ensures (forall env: Env ::
               var s := Serve(cfg, h, {}, GetDataSock(port), env);
               var d := Call(cfg, who, Owned(h), {}, GetDataSock(port), env);
               (s.Died? && d.Crashed?)
               || (s.Served? && d.Returned? && StubReturn(GetDataSock(port), s.reply) == d.ret))
            <==> who.portAddr == cfg.peer || IsPortReserved(port)
  {
    var picky := Env(7, None, {Endpoint(cfg.peer, port)}, false, false, true, false, 0, []);
    if who.portAddr != cfg.peer && !IsPortReserved(port) {
      assert Serve(cfg, h, {}, GetDataSock(port), picky).reply == Result(false);
      assert Call(cfg, who, Owned(h), {}, GetDataSock(port), picky).ret == Int(7);
    }
  }
}
