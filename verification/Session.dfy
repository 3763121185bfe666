/** The command loop of a logged-in session: passive and active mode, the data connection with its
    I/O handler and its encryption, and the pending log entry.  The calls the privileged parent or
    the SSL slave may carry out are the direct ones; the helpers refine those. */
module Session {
  import opened Bytes
  import opened PrivSock
  import opened PrivOps

  /** What is settled when the loop starts; `pasvAddressBad`: an address to report is configured, and is none. */
  datatype Tunables = Tunables(
    oneProcess: bool, peer: nat, ipv6: bool, anonymous: bool, anonOtherWrite: bool, slave: bool, controlSsl: bool,
    pasvEnable: bool, portEnable: bool, pasvPromiscuous: bool, portPromiscuous: bool, pasvAddressBad: bool,
    sslEnable: bool, forceDataSsl: bool, chownUploads: bool, worldReadableOnly: bool)

  datatype Mode = NoMode | Passive(fd: Fd) | Active(to: Endpoint)

  datatype LogKind = Download | Upload | Mkdir | Rmdir | Delete | Rename | Chmod

  /** The entries of commands without a data connection. */
  type OpKind = k: LogKind | !k.Download? && !k.Upload? witness Mkdir

  datatype LogLine = LogLine(kind: LogKind, succeeded: bool)

  datatype EpsvArg = NoArg | All | Proto(n: int)

  /** A command with its argument parsed; no target means the address did not parse. */
  datatype Command =
    | Pasv | Epsv(arg: EpsvArg) | Port(target: Option<Endpoint>) | Eprt(target: Option<Endpoint>)
    | Retr | Store(append: bool, unique: bool) | Dir(stat: bool)
    | FileOp(kind: OpKind) | Rnfr | Rnto
    | Rest(pos: nat) | Type(ascii: bool) | Prot(encrypted: bool) | Quit | Other

  datatype FileKind = Regular | Directory | Special

  /** How TLS starts on the data connection: well, refused for want of the same session or certificate
      as on the control connection, or not at all because the negotiation fails. */
  datatype Shake = Good | Refused | Failed

  /** What the outside decides while one command runs: whether the command `arrives` at all, before the
      idle timeout and within the line length, and the connections last until the last reply
      is written and no timeout has expired; `permitted` by the command lists and the
      tunables of this command, `allowed` by the name filter, the file opened and what it is, whether
      it can be `positioned` (cut to nothing, or its offset set), the network, the results of the
      transfer and of a file operation. */
  datatype World = World(
    arrives: bool, lasts: bool, permitted: bool, allowed: bool,
    file: Option<Fd>, kind: FileKind, readable: bool, positioned: bool, done: bool, chown: bool,
    net: Env, handshake: Shake, transfer: int, shutdown: bool, abort: bool)

  /** The session between two commands. */
  datatype View = View(mode: Mode, prefs: Prefs)

  /** What commands set for later ones. */
  datatype Prefs = Prefs(epsvAll: bool, isAscii: bool, dataUseSsl: bool, restartPos: nat, renaming: bool)

  // ----- what a command does, in terms of the session between commands

  predicate Acceptable(t: Tunables, to: Endpoint) {
    t.portPromiscuous || (to.addr == t.peer && !IsPortReserved(to.port))
  }

  function Aimed(t: Tunables, target: Option<Endpoint>): Mode {
    if target.Some? && Acceptable(t, target.value) then Active(target.value) else NoMode
  }

  predicate GoodProto(t: Tunables, n: int) {
    n == 1 || (n == 2 && t.ipv6)
  }

  /** The command opens a listening socket. */
  predicate Listens(t: Tunables, v: View, c: Command, w: World) {
    w.permitted && t.pasvEnable &&
    match c
    case Pasv => !v.prefs.epsvAll
    case Epsv(arg) => arg.NoArg? || (arg.Proto? && GoodProto(t, arg.n))
    case _ => false
  }

  predicate MayTransfer(t: Tunables, v: View) {
    !v.mode.NoMode? && !(t.sslEnable && t.forceDataSsl && !v.prefs.dataUseSsl)
  }

  /** PROT is for a session whose control connection is encrypted. */
  predicate MayProtect(t: Tunables) {
    t.sslEnable && t.controlSsl
  }

  predicate NoResume(v: View) {
    v.prefs.isAscii && v.prefs.restartPos != 0
  }

  predicate Sendable(t: Tunables, w: World) {
    w.kind.Regular? && !(t.anonymous && t.worldReadableOnly && !w.readable)
  }

  /** The command gets as far as asking for the data connection. */
  predicate Reaches(t: Tunables, v: View, c: Command, w: World) {
    w.permitted && MayTransfer(t, v) && w.allowed &&
    match c
    case Retr => !NoResume(v) && w.file.Some? && Sendable(t, w)
    case Store(_, _) => w.file.Some?
    case Dir(stat) => !stat
    case _ => false
  }

  /** The peer came, or answered. */
  predicate Meets(t: Tunables, m: Mode, w: World) {
    && (m.Passive? ==> w.net.accepted && (t.pasvPromiscuous || w.net.fromPeer))
    && (m.Active? ==> m.to !in w.net.refusing)
  }

  predicate Connects(t: Tunables, m: Mode, useSsl: bool, w: World) {
    Meets(t, m, w) && (useSsl ==> w.handshake.Good?)
  }

  /** Asking for the data connection kills the process: the socket of an active one is not to be had,
      or its TLS negotiation fails. */
  predicate Fatal(t: Tunables, m: Mode, useSsl: bool, w: World) {
    || (m.Active? && (IsPortReserved(m.to.port) || !w.net.ok))
    || (Meets(t, m, w) && useSsl && w.handshake.Failed?)
  }

  /** The command cuts the file it opened, or sets the offset in it. */
  predicate Positions(t: Tunables, v: View, c: Command) {
    match c
    case Retr => v.prefs.restartPos != 0
    case Store(append, unique) => append || v.prefs.restartPos != 0 || !Exclusive(t, unique)
    case _ => false
  }

  /** The file of an upload has to be a new one. */
  predicate Exclusive(t: Tunables, unique: bool) {
    unique || (t.anonymous && !t.anonOtherWrite)
  }

  /** The connection is made, all goes through it, and it is shut down as it should. */
  predicate Moves(t: Tunables, m: Mode, useSsl: bool, w: World) {
    Connects(t, m, useSsl, w) && w.transfer == 0 && (useSsl ==> w.shutdown)
  }

  predicate Succeeds(t: Tunables, v: View, c: Command, w: World) {
    Reaches(t, v, c, w) && Moves(t, v.mode, v.prefs.dataUseSsl, w)
  }

  /** The command ends the process: QUIT does, and it dies when no port could be bound or the address
      to report is none, when a chown was refused, when the file could not be positioned, and
      when asking for the data connection is fatal. */
  predicate Dies(t: Tunables, v: View, c: Command, w: World) {
    || (c.Quit? && w.permitted)
    || (Listens(t, v, c, w) && (w.net.boundPort.None? || (c.Pasv? && t.pasvAddressBad)))
    || (c.Store? && Reaches(t, v, c, w) && t.anonymous && t.chownUploads && !w.chown)
    || (Reaches(t, v, c, w) && ((Positions(t, v, c) && !w.positioned) || Fatal(t, v.mode, v.prefs.dataUseSsl, w)))
  }

  /** The process ends in this turn. */
  predicate Ends(t: Tunables, v: View, c: Command, w: World) {
    !w.arrives || !w.lasts || Dies(t, v, c, w)
  }

  function ModeAfter(t: Tunables, v: View, c: Command, w: World): Mode {
    if Listens(t, v, c, w) then Mode.Passive(w.net.fd)
    else if c.Port? && w.permitted && t.portEnable && !v.prefs.epsvAll then Aimed(t, c.target)
    else if c.Eprt? && w.permitted && t.portEnable then Aimed(t, c.target)
    else if Reaches(t, v, c, w) then NoMode
    else v.mode
  }

  function After(t: Tunables, v: View, c: Command, w: World): View {
    if !w.permitted then v
    else View(ModeAfter(t, v, c, w), match c
      case Epsv(arg) => if arg.All? && t.pasvEnable then v.prefs.(epsvAll := true) else v.prefs
      case Retr => v.prefs.(restartPos := 0)
      case Store(_, _) => v.prefs.(restartPos := 0)
      case Rnfr => v.prefs.(renaming := w.allowed && w.done)
      case Rnto => v.prefs.(renaming := v.prefs.renaming && !w.allowed)
      case Rest(pos) => v.prefs.(restartPos := pos)
      case Type(ascii) => v.prefs.(isAscii := ascii)
      case Prot(encrypted) => if MayProtect(t) then v.prefs.(dataUseSsl := encrypted) else v.prefs
      case _ => v.prefs)
  }

  /** What a command logs. */
  function Logged(t: Tunables, v: View, c: Command, w: World): seq<LogLine> {
    if !w.permitted then []
    else match c
      case Retr =>
        if !MayTransfer(t, v) || NoResume(v) || (w.allowed && w.file.Some? && w.kind.Directory?) then []
        else [LogLine(Download, Succeeds(t, v, c, w))]
      case Store(_, _) => if MayTransfer(t, v) then [LogLine(Upload, Succeeds(t, v, c, w))] else []
      case FileOp(kind) => [LogLine(kind, w.allowed && w.done)]
      case Rnto => if v.prefs.renaming then [LogLine(Rename, w.allowed && w.done)] else []
      case Rnfr => if w.allowed && w.done then [] else [LogLine(Rename, false)]
      case _ => []
  }

  lemma StoreIs(t: Tunables, v: View, append: bool, unique: bool, w: World)
    requires w.permitted
    ensures var c, reaches := Store(append, unique), MayTransfer(t, v) && w.allowed && w.file.Some?;
            && Dies(t, v, c, w) == (reaches && (|| (t.anonymous && t.chownUploads && !w.chown)
                                                || (Positions(t, v, c) && !w.positioned)
                                                || Fatal(t, v.mode, v.prefs.dataUseSsl, w)))
            && After(t, v, c, w) == View(if reaches then NoMode else v.mode, v.prefs.(restartPos := 0))
            && Logged(t, v, c, w) == if !MayTransfer(t, v) then []
                                     else [LogLine(Upload, reaches && Moves(t, v.mode, v.prefs.dataUseSsl, w))]
  {
  }

  lemma RetrIs(t: Tunables, v: View, w: World)
    requires w.permitted
    ensures var tries := MayTransfer(t, v) && !NoResume(v);
            var reaches := tries && w.allowed && w.file.Some? && Sendable(t, w);
            && Dies(t, v, Retr, w) == (reaches && (|| (v.prefs.restartPos != 0 && !w.positioned)
                                                   || Fatal(t, v.mode, v.prefs.dataUseSsl, w)))
            && After(t, v, Retr, w) == View(if reaches then NoMode else v.mode, v.prefs.(restartPos := 0))
            && Logged(t, v, Retr, w) == if !tries || (w.allowed && w.file.Some? && w.kind.Directory?) then []
                                        else [LogLine(Download, reaches && Moves(t, v.mode, v.prefs.dataUseSsl, w))]
  {
  }

  // ----- the session

  /** The passive and active mode fields and those of the data connection. */
  datatype Conn = Conn(
    portAddr: Option<Endpoint>,
    listen: Option<Fd>,    // the parent's, when there is one
    dataFd: Option<Fd>,
    ioHandler: bool,
    sslUp: bool,           // the slave's, when there is one
    open: set<Fd>)         // the sockets the session's processes hold, the control connection apart
  {
    predicate OneMode() {
      listen.None? || portAddr.None?
    }

    /** No data connection: no descriptor, no I/O handler, no encryption. */
    predicate Quiet() {
      dataFd.None? && !ioHandler && !sslUp
    }

    /** At most one mode, an address that passed the checks, no data connection, and no socket but
        the listening one. */
    predicate Tidy(t: Tunables) {
      && OneMode() && Quiet() && open == Fds(listen)
      && (portAddr.Some? ==> Acceptable(t, portAddr.value))
    }

    function AsMode(): Mode {
      if listen.Some? then Mode.Passive(listen.value)
      else if portAddr.Some? then Active(portAddr.value)
      else NoMode
    }

    /** The socket of an active connection will not be made. */
    predicate NoSocket(w: World) {
      listen.None? && portAddr.Some? && (IsPortReserved(portAddr.value.port) || !w.net.ok)
    }

    function Opened(fd: Fd, ssl: bool): Conn {
      this.(open := open + {fd}, dataFd := Some(fd), ioHandler := true, sslUp := ssl)
    }
  }

  /** For a call in which nothing is left to the outside. */
  const IDLE := Env(0, None, {}, false, false, false, false, 0, [])

  const UNUSED := Conn(None, None, None, false, false, {})

  class Session {
    const t: Tunables
    var alive: bool
    var conn: Conn
    var prefs: Prefs
    var logType: Option<LogKind>
    var log: seq<LogLine>
    var aborReceived: bool
    var files: set<Fd>   // the files and directories it has open

    /** The state between commands. */
    ghost predicate Between()
      reads this
    {
      alive && conn.Tidy(t) && logType.None? && files == {}
    }

    /** After a command, before the loop logs what is left of its entry. */
    ghost predicate Done(v: View, lines: seq<LogLine>)
      reads this
    {
      && conn.Tidy(t) && files == {} && v == View(conn.AsMode(), prefs)
      && (if logType.None? then log == lines else log + [LogLine(logType.value, false)] == lines)
    }

    constructor (t: Tunables, dataUseSsl: bool)
      ensures this.t == t && Between() && log == []
      ensures conn == UNUSED && prefs == Prefs(false, false, dataUseSsl, 0, false)
    {
      this.t, alive, conn, prefs := t, true, UNUSED, Prefs(false, false, dataUseSsl, 0, false);
      logType, log, aborReceived, files := None, [], false, {};
    }

    // Calls the parent or the slave may carry out.

    function Setup(): Config {
      Config(Parent(t.chownUploads), t.peer, t.pasvPromiscuous)
    }

    /** Made directly, or through the two-process stubs.  A SIGURG handled while the parent's answer is
        waited for finds no data descriptor, and does nothing. */
    method Privileged(r: Request, who: Caller, env: Env) returns (ret: Ret)
      requires alive && Serves(Parent(t.chownUploads), r) && conn.dataFd.None?
      modifies `alive, `conn
      ensures match Call(Setup(), who, OwnPassive(old(conn.listen)), old(conn.open), r, env)
              case Crashed => !alive && conn == old(conn)
              case Returned(own, fds, v) => alive && ret == v && conn == old(conn).(listen := own.listen, open := fds)
    {
      match Call(Setup(), who, OwnPassive(conn.listen), conn.open, r, env)
      case Crashed => alive, ret := false, Nothing;
      case Returned(own, fds, v) =>
        var blocks := HandleSigurg();
        if blocks {
          assert false;   // it would call into the outstanding call
        }
        conn, ret := conn.(listen := own.listen, open := fds), v;
    }

    /** The head of `handle_sigurg`: whether it goes on to read a command. */
    method HandleSigurg() returns (blocks: bool)
      ensures blocks == conn.dataFd.Some?
    {
      blocks := conn.dataFd != None;
    }

    method Encrypted(r: Request, env: Env) returns (ret: Ret)
      requires alive && (r.SslHandshake? || r.SslClose?)
      requires r.SslHandshake? ==> !conn.sslUp   // bug("state not clean"), die("p_data_ssl should be NULL.")
      modifies `alive, `conn
      ensures alive == !(r.SslHandshake? && env.lost)
      ensures alive ==> ret == Int(if r.SslHandshake? then (if env.ok then 1 else 0)
                                   else if old(conn.sslUp) && !env.ok then 0 else 1)
      ensures alive ==> conn == old(conn).(sslUp := r.SslHandshake? && env.ok)
    {
      match Call(Config(Slave, t.peer, false), Caller(DATA_BUF, t.peer), OwnSsl(conn.sslUp), conn.open, r, env)
      case Crashed => alive, ret := false, Nothing;
      case Returned(own, _, v) => conn, ret := conn.(sslUp := own.up), v;
    }

    // Modes.

    /** Calls `PasvActive`, which calls back: it ends because only one of the two can be active. */
    method PortActive() returns (ret: bool)
      requires alive && conn.OneMode() && conn.dataFd.None?
      modifies `alive, `conn
      ensures alive && conn == old(conn) && ret == conn.portAddr.Some?
      decreases conn.portAddr.Some?
    {
      ret := false;
      if conn.portAddr != None {
        ret := true;
        var both := PasvActive();
        if both {
          assert false;   // bug("port and pasv both active")
        }
      }
    }

    method PasvActive() returns (ret: bool)
      requires alive && conn.OneMode() && conn.dataFd.None?
      modifies `alive, `conn
      ensures alive && conn == old(conn) && ret == conn.listen.Some?
      decreases conn.listen.Some?
    {
      var answer := Privileged(Request.PasvActive, Caller(DATA_BUF, t.peer), IDLE);
      ret := answer.v != 0;
      if ret {
        var both := PortActive();
        if both {
          assert false;   // bug("pasv and port both active")
        }
      }
    }

    method PortCleanup()
      modifies `conn
      ensures conn == old(conn).(portAddr := None)
    {
      conn := conn.(portAddr := None);
    }

    method PasvCleanup(env: Env)
      requires alive && conn.dataFd.None?
      modifies `alive, `conn
      ensures alive && conn == old(conn).(listen := None, open := old(conn.open) - Fds(old(conn.listen)))
    {
      var _ := Privileged(Request.PasvCleanup, Caller(DATA_BUF, t.peer), env);
    }

    /** Leave both modes. */
    method Cleanup(env: Env)
      requires alive && conn.Tidy(t)
      modifies `alive, `conn
      ensures alive && conn == UNUSED
    {
      PortCleanup();
      PasvCleanup(env);
    }

    method HandlePasv(extended: bool, arg: EpsvArg, w: World)
      requires Between() && w.permitted && t.pasvEnable && (if extended then true else !prefs.epsvAll && arg.NoArg?)
      modifies `alive, `conn, `prefs
      ensures var v, c := View(old(conn.AsMode()), old(prefs)), if extended then Epsv(arg) else Pasv;
              && alive == !Dies(t, v, c, w)
              && (alive ==> conn.Tidy(t) && View(conn.AsMode(), prefs) == After(t, v, c, w))
    {
      if extended && !arg.NoArg? {
        if arg.All? {
          prefs := prefs.(epsvAll := true);
          return;
        }
        if arg.n < 1 || arg.n > 2 || (!t.ipv6 && arg.n == 2) {
          return;
        }
      }
      Cleanup(w.net);
      var _ := Privileged(PasvListen, Caller(DATA_BUF, t.peer), w.net);
      if alive && !extended && t.pasvAddressBad {
        alive := false;   // die("invalid pasv_address")
      }
    }

    method Aim(target: Option<Endpoint>)
      requires conn == UNUSED
      modifies `conn
      ensures conn.Tidy(t) && conn.AsMode() == Aimed(t, target)
    {
      if target.None? {
        return;
      }
      conn := conn.(portAddr := target);
      if !t.portPromiscuous {
        if target.value.addr != t.peer || IsPortReserved(target.value.port) {
          PortCleanup();
          return;
        }
      }
    }

    method HandlePort(target: Option<Endpoint>, w: World)
      requires Between()
      modifies `alive, `conn
      ensures alive && conn.Tidy(t) && conn.AsMode() == Aimed(t, target)
    {
      Cleanup(w.net);
      Aim(target);
    }

    /** The same; but unlike PORT it is not refused after EPSV ALL. */
    method HandleEprt(target: Option<Endpoint>, w: World)
      requires Between()
      modifies `alive, `conn
      ensures alive && conn.Tidy(t) && conn.AsMode() == Aimed(t, target)
    {
      Cleanup(w.net);
      Aim(target);
    }

    // The data connection.

    method InitDataSockParams(fd: Fd)
      requires conn.Quiet()
      modifies `conn
      ensures conn == old(conn).(dataFd := Some(fd), ioHandler := true)
    {
      if conn.dataFd != None {
        assert false;   // bug("data descriptor still present in init_data_sock_params")
      }
      conn := conn.(dataFd := Some(fd));
      if conn.ioHandler {
        assert false;   // bug("double register of i/o handler")
      }
      conn := conn.(ioHandler := true);
    }

    method DisposeTransferFd(w: World) returns (clean: bool)
      requires alive && conn.dataFd.Some? && conn.ioHandler && (conn.sslUp ==> prefs.dataUseSsl)
      modifies `alive, `conn
      ensures alive
      ensures conn == old(conn).(ioHandler := false, sslUp := false, dataFd := None,
                                 open := old(conn.open) - Fds(old(conn.dataFd)))
      ensures clean == (old(conn.sslUp) ==> w.shutdown)
    {
      if conn.dataFd == None {
        assert false;   // bug("no data descriptor in vsf_ftpdataio_dispose_transfer_fd")
      }
      if !conn.ioHandler {
        assert false;   // bug("no i/o handler to unregister!")
      }
      conn, clean := conn.(ioHandler := false), true;
      if (prefs.dataUseSsl && t.slave) || conn.sslUp {
        var ret := Encrypted(SslClose, w.net.(ok := w.shutdown));
        clean := ret == Int(1);
      }
      conn := conn.(open := conn.open - {conn.dataFd.value}, dataFd := None);
    }

    method GetPasvFd(w: World) returns (fd: int)
      requires alive && conn.listen.Some? && conn.Quiet()
      modifies `alive, `conn
      ensures alive
      ensures if w.net.accepted && (t.pasvPromiscuous || w.net.fromPeer)
              then fd == w.net.fd && conn == old(conn).Opened(w.net.fd, false)
              else fd == -1 && conn == old(conn)
    {
      var ret := Privileged(PasvAccept, Caller(DATA_BUF, t.peer), w.net);
      fd := ret.v;
      if fd == -1 {
        return;
      } else if fd == -2 {
        return -1;
      }
      InitDataSockParams(fd);
    }

    /** In the two-process model the parent is told the port alone and connects to the control
        peer: the address has to be the one that was checked. */
    method DataSock(env: Env) returns (ret: Ret)
      requires alive && conn.portAddr.Some? && conn.dataFd.None?
      requires t.oneProcess || t.portPromiscuous || conn.portAddr.value.addr == t.peer
      modifies `alive, `conn
      ensures var to := old(conn.portAddr.value);
              && alive == (!IsPortReserved(to.port) && env.ok)
              && (alive ==> if to in env.refusing then ret == Int(-1) && conn == old(conn)
                            else ret == Int(env.fd) && conn == old(conn).(open := old(conn.open) + {env.fd}))
    {
      ret := Privileged(GetDataSock(conn.portAddr.value.port), Caller(DATA_BUF, conn.portAddr.value.addr), env);
    }

    method GetPortFd(w: World) returns (fd: int)
      requires alive && conn.portAddr.Some? && conn.listen.None? && conn.Quiet() && Acceptable(t, conn.portAddr.value)
      modifies `alive, `conn
      ensures alive == !old(conn).NoSocket(w)
      ensures alive ==> if old(conn.portAddr.value) in w.net.refusing then fd == -1 && conn == old(conn)
                        else fd == w.net.fd && conn == old(conn).Opened(w.net.fd, false)
    {
      fd := -1;
      var ret := DataSock(w.net);
      if !alive || ret.v < 0 {
        return;
      }
      fd := ret.v;
      InitDataSockParams(fd);
    }

    method PostMarkConnect(w: World) returns (ok: bool)
      requires alive && conn.dataFd.Some? && !conn.sslUp
      modifies `alive, `conn
      ensures alive == !(prefs.dataUseSsl && w.handshake.Failed?)
      ensures alive ==> ok == (prefs.dataUseSsl ==> w.handshake.Good?)
      ensures alive ==> conn == old(conn).(sslUp := prefs.dataUseSsl && w.handshake.Good?)
    {
      if !prefs.dataUseSsl {
        return true;
      }
      var env := w.net.(ok := w.handshake.Good?, lost := w.handshake.Failed?);
      var ret := Encrypted(SslHandshake(conn.dataFd.value), env);
      ok := ret == Int(1);
    }

    method DataTransferChecksOk() returns (ok: bool)
      requires alive && conn.OneMode() && conn.dataFd.None?
      modifies `alive, `conn
      ensures alive && conn == old(conn)
      ensures ok == MayTransfer(t, View(conn.AsMode(), prefs))
    {
      var pasv := PasvActive();
      var port := PortActive();
      if !pasv && !port {
        return false;
      }
      if t.sslEnable && !prefs.dataUseSsl && t.forceDataSsl {
        return false;
      }
      return true;
    }

    method GetRemoteTransferFd(w: World) returns (fd: int)
      requires alive && conn.Tidy(t) && !conn.AsMode().NoMode? && w.net.fd !in conn.open
      modifies `alive, `conn, `aborReceived
      ensures alive == !Fatal(t, old(conn).AsMode(), prefs.dataUseSsl, w)
      ensures alive ==> if Connects(t, old(conn).AsMode(), prefs.dataUseSsl, w)
                        then fd == w.net.fd && conn == old(conn).Opened(w.net.fd, prefs.dataUseSsl)
                        else fd == -1 && conn == old(conn)
    {
      var pasv := PasvActive();
      var port := PortActive();
      if !pasv && !port {
        assert false;   // bug("neither PORT nor PASV active in get_remote_transfer_fd")
      }
      aborReceived := false;
      pasv := PasvActive();
      if pasv {
        fd := GetPasvFd(w);
      } else {
        fd := GetPortFd(w);
      }
      if !alive || fd < 0 {
        return;
      }
      var ok := PostMarkConnect(w);
      if !alive {
        return;
      }
      if !ok {
        var _ := DisposeTransferFd(w);
        return -1;
      }
    }

    // The log entry.

    method LogStartEntry(kind: LogKind)
      requires logType.None?
      modifies `logType
      ensures logType == Some(kind)
    {
      if logType != None {
        assert false;   // bug("non null log_type in vsf_log_start_entry")
      }
      logType := Some(kind);
    }

    method LogDoLog(succeeded: bool)
      requires logType.Some?
      modifies `logType, `log
      ensures logType.None? && log == old(log) + [LogLine(old(logType.value), succeeded)]
    {
      log := log + [LogLine(logType.value, succeeded)];
      logType := None;
    }

    // Transfers.

    method CheckAbor()
      modifies `aborReceived
      ensures !aborReceived
    {
      if aborReceived {
        aborReceived := false;
      }
    }

    /** The data connection from its opening to its close; `out` is 0 when all went through. */
    method OverDataConnection(w: World) returns (out: int)
      requires alive && conn.Tidy(t) && !conn.AsMode().NoMode? && w.net.fd !in conn.open
      modifies `alive, `conn, `aborReceived
      ensures alive == !Fatal(t, old(conn).AsMode(), prefs.dataUseSsl, w)
      ensures alive ==> conn == old(conn)
      ensures alive ==> (out == 0 <==> Moves(t, old(conn).AsMode(), prefs.dataUseSsl, w))
    {
      out := -1;
      var fd := GetRemoteTransferFd(w);
      if !alive || fd < 0 {
        return;
      }
      aborReceived := w.abort;
      out := w.transfer;
      var clean := DisposeTransferFd(w);
      if !clean && out == 0 {
        out := -2;
      }
    }

    /** The rest of RETR and of an upload once the file is open and the log entry started. */
    method MoveFile(w: World)
      requires alive && conn.Tidy(t) && !conn.AsMode().NoMode? && logType.Some? && w.net.fd !in conn.open
      modifies `alive, `conn, `aborReceived, `logType, `log
      ensures alive == !Fatal(t, old(conn).AsMode(), prefs.dataUseSsl, w)
      ensures alive ==> conn == UNUSED
      ensures alive ==> if Moves(t, old(conn).AsMode(), prefs.dataUseSsl, w)
                        then logType.None? && log == old(log) + [LogLine(old(logType.value), true)]
                        else logType == old(logType) && log == old(log)
    {
      var out := OverDataConnection(w);
      if !alive {
        return;
      }
      if out == 0 {
        LogDoLog(true);
      }
      CheckAbor();
      Cleanup(w.net);
    }

    /** RETR with the file open. */
    method SendOpened(offset: nat, w: World)
      requires alive && conn.Tidy(t) && !conn.AsMode().NoMode? && logType == Some(Download) && w.net.fd !in conn.open
      modifies `alive, `conn, `aborReceived, `logType, `log
      ensures var sends := Sendable(t, w);
              && alive == !(sends && (|| (offset != 0 && !w.positioned)
                                      || Fatal(t, old(conn).AsMode(), prefs.dataUseSsl, w)))
              && (alive ==> conn == if sends then UNUSED else old(conn))
              && (alive ==> if sends && Moves(t, old(conn).AsMode(), prefs.dataUseSsl, w)
                            then logType.None? && log == old(log) + [LogLine(Download, true)]
                            else log == old(log) && logType == if w.kind.Directory? then None else old(logType))
    {
      if !w.kind.Regular? {
        if w.kind.Directory? {
          logType := None;
        }
        return;
      }
      if t.anonymous && t.worldReadableOnly && !w.readable {
        return;
      }
      if offset != 0 && !w.positioned {
        alive := false;   // die("lseek")
        return;
      }
      MoveFile(w);
    }

    method HandleRetr(w: World)
      requires Between() && w.permitted && FreshFds(w, conn.open)
      modifies this
      ensures var v := View(old(conn.AsMode()), old(prefs));
              && alive == !Dies(t, v, Retr, w)
              && (alive ==> Done(After(t, v, Retr, w), old(log) + Logged(t, v, Retr, w)))
    {
      RetrIs(t, View(conn.AsMode(), prefs), w);
      var offset := prefs.restartPos;
      prefs := prefs.(restartPos := 0);
      var ok := DataTransferChecksOk();
      if !ok {
        return;
      }
      if prefs.isAscii && offset != 0 {
        return;
      }
      LogStartEntry(Download);
      if !w.allowed {
        return;
      }
      if w.file.None? {
        return;
      }
      files := files + {w.file.value};
      SendOpened(offset, w);
      files := files - {w.file.value};
    }

    /** An upload with the file open. */
    method TakeOpened(file: Fd, positions: bool, w: World)
      requires alive && conn.Tidy(t) && !conn.AsMode().NoMode? && logType.Some? && w.net.fd !in conn.open
      modifies `alive, `conn, `aborReceived, `logType, `log
      ensures alive == !(|| (t.anonymous && t.chownUploads && !w.chown)
                         || (positions && !w.positioned)
                         || Fatal(t, old(conn).AsMode(), prefs.dataUseSsl, w))
      ensures alive ==> conn == UNUSED
      ensures alive ==> if Moves(t, old(conn).AsMode(), prefs.dataUseSsl, w)
                        then logType.None? && log == old(log) + [LogLine(old(logType.value), true)]
                        else logType == old(logType) && log == old(log)
    {
      if t.anonymous && t.chownUploads {
        var _ := Privileged(Request.Chown(file), Caller(DATA_BUF, t.peer), w.net.(ok := w.chown));
        if !alive {
          return;
        }
      }
      if positions && !w.positioned {
        alive := false;   // die("ftruncate"), die("lseek")
        return;
      }
      MoveFile(w);
    }

    method HandleUploadCommon(append: bool, unique: bool, w: World)
      requires Between() && w.permitted && FreshFds(w, conn.open)
      modifies this
      ensures var v, c := View(old(conn.AsMode()), old(prefs)), Store(append, unique);
              && alive == !Dies(t, v, c, w)
              && (alive ==> Done(After(t, v, c, w), old(log) + Logged(t, v, c, w)))
    {
      StoreIs(t, View(conn.AsMode(), prefs), append, unique, w);
      var offset := prefs.restartPos;
      prefs := prefs.(restartPos := 0);
      var ok := DataTransferChecksOk();
      if !ok {
        return;
      }
      LogStartEntry(Upload);
      if !w.allowed {
        return;
      }
      if w.file.None? {
        return;
      }
      var truncate := !Exclusive(t, unique) && !append && offset == 0;
      files := files + {w.file.value};
      TakeOpened(w.file.value, truncate || append || offset != 0, w);
      files := files - {w.file.value};
    }

    /** A directory that could not be opened is found out late. */
    method HandleDirCommon(stat: bool, w: World)
      requires Between() && w.permitted && FreshFds(w, conn.open)
      modifies `alive, `conn, `aborReceived, `files
      ensures var v := View(old(conn.AsMode()), prefs);
              && alive == !Dies(t, v, Dir(stat), w)
              && (alive ==> conn.Tidy(t) && files == {} && View(conn.AsMode(), prefs) == After(t, v, Dir(stat), w))
    {
      if !stat {
        var ok := DataTransferChecksOk();
        if !ok {
          return;
        }
      }
      if !w.allowed {
        return;
      }
      files := files + Fds(w.file);
      if !stat {
        var _ := OverDataConnection(w);
        if !alive {
          return;
        }
      }
      CheckAbor();
      files := files - Fds(w.file);
      if !stat {
        Cleanup(w.net);
      }
    }

    // Commands without a data connection.

    /** MKD, RMD, DELE and SITE CHMOD. */
    method HandleFileOp(kind: OpKind, w: World)
      requires logType.None?
      modifies `logType, `log
      ensures if w.allowed && w.done then logType.None? && log == old(log) + [LogLine(kind, true)]
              else logType == Some(kind) && log == old(log)
    {
      LogStartEntry(kind);
      if !w.allowed {
        return;
      }
      if w.done {
        LogDoLog(true);
      }
    }

    method HandleRnfr(w: World)
      requires logType.None?
      modifies `logType, `prefs
      ensures prefs == old(prefs).(renaming := w.allowed && w.done)
      ensures logType == if w.allowed && w.done then None else Some(Rename)
    {
      prefs := prefs.(renaming := false);
      if !w.allowed {
        LogStartEntry(Rename);
        return;
      }
      if w.done {
        prefs := prefs.(renaming := true);
      } else {
        LogStartEntry(Rename);
      }
    }

    method HandleRnto(w: World)
      requires logType.None?
      modifies `logType, `log, `prefs
      ensures prefs == old(prefs).(renaming := old(prefs.renaming) && !w.allowed)
      ensures if !old(prefs.renaming) then logType.None? && log == old(log)
              else if w.allowed && w.done then logType.None? && log == old(log) + [LogLine(Rename, true)]
              else logType == Some(Rename) && log == old(log)
    {
      if !prefs.renaming {
        return;
      }
      LogStartEntry(Rename);
      if !w.allowed {
        return;
      }
      prefs := prefs.(renaming := false);
      if w.done {
        LogDoLog(true);
      }
    }

    /** The commands that set up a data connection. */
    method DispatchMode(c: Command, w: World)
      requires Between() && w.permitted && (c.Pasv? || c.Epsv? || c.Port? || c.Eprt?)
      modifies `alive, `conn, `prefs
      ensures var v := View(old(conn.AsMode()), old(prefs));
              && alive == !Dies(t, v, c, w)
              && (alive ==> conn.Tidy(t) && View(conn.AsMode(), prefs) == After(t, v, c, w))
    {
      match c
      case Pasv =>
        if t.pasvEnable && !prefs.epsvAll {
          HandlePasv(false, NoArg, w);
        }
      case Epsv(arg) =>
        if t.pasvEnable {
          HandlePasv(true, arg, w);
        }
      case Port(target) =>
        if t.portEnable && !prefs.epsvAll {
          HandlePort(target, w);
        }
      case Eprt(target) =>
        if t.portEnable {
          HandleEprt(target, w);
        }
    }

    method Dispatch(c: Command, w: World)
      requires Between() && FreshFds(w, conn.open) && w.permitted
      modifies this
      ensures var v := View(old(conn.AsMode()), old(prefs));
              && alive == !Dies(t, v, c, w)
              && (alive ==> Done(After(t, v, c, w), old(log) + Logged(t, v, c, w)))
    {
      match c
      case Retr => HandleRetr(w);
      case Store(append, unique) => HandleUploadCommon(append, unique, w);
      case Dir(stat) => HandleDirCommon(stat, w);
      case FileOp(kind) => HandleFileOp(kind, w);
      case Rnfr => HandleRnfr(w);
      case Rnto => HandleRnto(w);
      case Rest(pos) => prefs := prefs.(restartPos := pos);
      case Type(ascii) => prefs := prefs.(isAscii := ascii);
      case Prot(encrypted) =>
        if t.sslEnable && t.controlSsl {
          prefs := prefs.(dataUseSsl := encrypted);
        }
      case Quit => alive := false;
      case Other =>
      case _ => DispatchMode(c, w);
    }

    /** One turn of the command loop.  A reply that cannot be written, or a timeout, ends the process
        where it happens; here at the end of the turn, as nothing is said of a session that ended. */
    method Execute(c: Command, w: World)
      requires Between() && FreshFds(w, conn.open)
      modifies this
      ensures var v := View(old(conn.AsMode()), old(prefs));
              && alive == !Ends(t, v, c, w)
              && (alive ==> Between() && View(conn.AsMode(), prefs) == After(t, v, c, w)
                            && log == old(log) + Logged(t, v, c, w))
    {
      if !w.arrives {
        alive := false;
        return;
      }
      if w.permitted {
        Dispatch(c, w);
      }
      if !w.lasts {
        alive := false;
      }
      if alive && logType != None {
        LogDoLog(false);
      }
    }
  }

  /** The descriptors the system hands out during a command are not in use. */
  predicate FreshFds(w: World, open: set<Fd>) {
    w.net.fd !in open && (w.file.Some? ==> w.file.value !in open && w.file.value != w.net.fd)
  }
}
