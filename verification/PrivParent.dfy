/** The privileged parent's command loop, one request a turn, and its search for a passive port. */
module PrivParent {
  import opened Bytes
  import opened PrivSock
  import opened PrivOps

  // ----- the passive port

  datatype Bind = Bound | Busy | Failed   // Busy: the address is in use or refused

  const ATTEMPTS := 9

  function MinPort(tunable: nat): Port {
    if 1024 < tunable <= 65535 then tunable else 1024
  }

  function MaxPort(lo: Port, tunable: nat): Port {
    if lo <= tunable < 65535 then tunable else 65535
  }

  /** A 16-bit random draw scaled to the range; exact in double arithmetic, truncated at the end. */
  function ScaledPort(draw: nat, lo: Port, hi: Port): int
    requires lo <= hi
  {
    lo + draw * (hi - lo + 1) / 65536
  }

  lemma ScaledInRange(draw: nat, lo: Port, hi: Port)
    requires draw < 65536 && lo <= hi
    ensures lo <= ScaledPort(draw, lo, hi) <= hi
  {
    var n := hi - lo + 1;
    assert draw * n <= 65535 * n < 65536 * n;
  }

  /** The lowest draw gives the lowest port, the highest the highest, and a higher draw no lower port. */
  lemma ScaledInOrder(draw: nat, more: nat, lo: Port, hi: Port)
    requires draw <= more < 65536 && lo <= hi
    ensures ScaledPort(0, lo, hi) == lo && ScaledPort(65535, lo, hi) == hi
    ensures ScaledPort(draw, lo, hi) <= ScaledPort(more, lo, hi)
  {
    var n := hi - lo + 1;
    assert draw * n <= more * n;
  }

  /** Each port has its even share of the draws. */
  lemma ScaledEvenly(draw: nat, lo: Port, hi: Port, p: int)
    requires draw < 65536 && lo <= hi
    ensures ScaledPort(draw, lo, hi) == p <==> (p - lo) * 65536 <= draw * (hi - lo + 1) < (p - lo + 1) * 65536
  {
  }

  /** Every port of the range can be drawn, and none outside it. */
  lemma PortsDrawn(p: int, lo: Port, hi: Port)
    requires lo <= hi
    ensures (exists draw: nat | draw < 65536 :: ScaledPort(draw, lo, hi) == p) <==> lo <= p <= hi
  {
    if lo <= p <= hi {
      var n, k := hi - lo + 1, p - lo;
      var draw := (k * 65536 + n - 1) / n;
      DrawFor(k, n, draw);
      assert ScaledPort(draw, lo, hi) == p;
    } else {
      forall draw: nat | draw < 65536
        ensures ScaledPort(draw, lo, hi) != p
      {
        ScaledInRange(draw, lo, hi);
      }
    }
  }

  lemma DrawFor(k: nat, n: nat, draw: int)
    requires k < n <= 65536 && draw == (k * 65536 + n - 1) / n
    ensures 0 <= draw < 65536 && draw * n / 65536 == k
  {
    assert k * 65536 <= draw * n < k * 65536 + n;
    assert k * 65536 + n <= (n - 1) * 65536 + n <= 65536 * n;
    LessFactor(draw, 65536, n);
  }

  lemma LessFactor(a: int, b: int, n: nat)
    requires a * n < b * n
    ensures a < b
  {
  }

  /** The first attempt that is not told to try again. */
  function Settles(binds: seq<Bind>): (r: Option<nat>)
    ensures r.Some? ==> r.value < |binds| && !binds[r.value].Busy? && forall i | 0 <= i < r.value :: binds[i].Busy?
    ensures r.None? ==> forall i | 0 <= i < |binds| :: binds[i].Busy?
  {
    if binds == [] then None
    else if !binds[0].Busy? then Some(0)
    else match Settles(binds[1..]) case None => None case Some(i) => Some(i + 1)
  }

  /** `vsf_privop_pasv_listen`: None when it dies. */
  method PrivopPasvListen(minTunable: nat, maxTunable: nat, draws: seq<nat>, binds: seq<Bind>)
      returns (port: Option<Port>)
    requires |draws| == |binds| == ATTEMPTS && forall i | 0 <= i < ATTEMPTS :: draws[i] < 65536
    ensures port.Some? <==> exists i | 0 <= i < ATTEMPTS :: binds[i].Bound? && forall j | 0 <= j < i :: binds[j].Busy?
    ensures port.Some? ==> port.value >= 1024 && (1024 < minTunable <= 65535 ==> port.value >= minTunable)
    ensures port.Some? && maxTunable >= 1024 ==>
              (minTunable <= 1024 || minTunable > 65535 || maxTunable >= minTunable ==> port.value <= maxTunable)
    ensures port.Some? && 1024 < minTunable <= maxTunable < 65535 ==> minTunable <= port.value <= maxTunable
    ensures var lo := MinPort(minTunable);
            var hi := MaxPort(lo, maxTunable);
            match Settles(binds)
            case Some(i) => if binds[i].Bound? then port == Some(ScaledPort(draws[i], lo, hi)) && lo <= port.value <= hi
                            else port == None
            case None => port == None
  {
    var minPort, maxPort: Port := 1024, 65535;
    if minTunable > minPort && minTunable <= maxPort {
      minPort := minTunable;
    }
    if maxTunable >= minPort && maxTunable < maxPort {
      maxPort := maxTunable;
    }
    var bindRetries := ATTEMPTS;
    while bindRetries > 0
      invariant 0 <= bindRetries <= ATTEMPTS
      invariant forall i | 0 <= i < ATTEMPTS - bindRetries :: binds[i].Busy?
    {
      var attempt := ATTEMPTS - bindRetries;
      ScaledInRange(draws[attempt], minPort, maxPort);
      var thePort: Port := ScaledPort(draws[attempt], minPort, maxPort);
      match binds[attempt] {
        case Bound => return Some(thePort);
        case Busy =>
        case Failed => return None;
      }
      bindRetries := bindRetries - 1;
    }
    return None;
  }

  // ----- the command loop

  /** The descriptor that goes along with an answer. */
  function Passed(reply: Reply): Option<Fd> {
    if reply.ResultFd? then Some(reply.fd) else None
  }

  class Parent {
    const cfg: Config
    var listen: Option<Fd>
    var fds: set<Fd>

    ghost predicate Valid()
      reads this
    {
      cfg.role.Parent?
    }

    constructor (cfg: Config)
      requires cfg.role.Parent?
      ensures Valid() && this.cfg == cfg && listen == None && fds == {}
    {
      this.cfg, listen, fds := cfg, None, {};
    }

    /** What a session without a parent gets by connecting to its peer itself: the parent dies when
        that would, and otherwise its answer, read by the stub, is that result.  A socket goes
        along with the answer and is then closed here. */
    method CmdProcessGetDataSock(port: Port, env: Env) returns (alive: bool, reply: Reply, close: Option<Fd>)
      requires Valid()
      modifies `fds
      ensures var d := Call(cfg, Caller(0, cfg.peer), OwnPassive(listen), old(fds), GetDataSock(port), env);
              && alive == d.Returned?
              && (alive ==> && d.ret == StubReturn(GetDataSock(port), reply) && d.fds == fds && d.own.listen == listen
                            && Answers(GetDataSock(port), 0, reply) && close == Passed(reply))
      ensures alive <==> port >= 1024 && env.ok
      ensures alive ==> reply == if Endpoint(cfg.peer, port) in env.refusing then Result(false) else ResultFd(env.fd)
      ensures match PortSock(Endpoint(cfg.peer, port), env)
              case None => !alive
              case Some(s) => && alive && fds == (if s < 0 then old(fds) else old(fds) + {s})
                              && reply == (if s < 0 then Result(false) else ResultFd(s))
                              && close == (if s < 0 then None else Some(s))
    {
      alive, reply, close := true, Result(false), None;
      var sock := PortSock(Endpoint(cfg.peer, port), env);
      if sock == None {
        alive := false;
        return;
      }
      if sock.value == -1 {
        return;
      }
      fds := fds + {sock.value};
      reply, close := ResultFd(sock.value), Some(sock.value);
    }

    method CmdProcessPasvCleanup()
      modifies `listen, `fds
      ensures listen == None && fds == old(fds) - Fds(old(listen))
    {
      if listen != None {
        fds := fds - {listen.value};
        listen := None;
      }
    }

    /** Likewise the connection, or the reason for none, that it would accept itself. */
    method CmdProcessPasvAccept(env: Env) returns (reply: Reply, close: Option<Fd>)
      requires Valid()
      modifies `fds
      ensures var d := Call(cfg, Caller(0, cfg.peer), OwnPassive(listen), old(fds), PasvAccept, env);
              && d == Returned(OwnPassive(listen), fds, StubReturn(PasvAccept, reply))
              && Answers(PasvAccept, 0, reply) && close == Passed(reply)
      ensures reply == ResultInt(-1) <==> listen.None? || !env.accepted
      ensures reply == ResultInt(-2) <==> listen.Some? && env.accepted && !cfg.pasvPromiscuous && !env.fromPeer
      ensures reply == ResultInt(-1) || reply == ResultInt(-2) || reply == ResultFd(env.fd)
      ensures var s := AcceptPasv(cfg, listen, env);
              && fds == (if s < 0 then old(fds) else old(fds) + {s})
              && reply == (if s < 0 then ResultInt(s) else ResultFd(s))
              && close == (if s < 0 then None else Some(s))
    {
      var fd := AcceptPasv(cfg, listen, env);
      if fd < 0 {
        return ResultInt(fd), None;
      }
      fds := fds + {fd};
      return ResultFd(fd), Some(fd);
    }

    /** `process_post_login_req`, from the request read to the reply written. */
    method ProcessPostLoginReq(r: Request, env: Env) returns (alive: bool, reply: Reply, close: Option<Fd>)
      requires Valid() && Serves(cfg.role, r)
      modifies this
      ensures Valid()
      ensures match Serve(cfg, Passive(old(listen)), old(fds), r, env)
              case Died => !alive
              case Served(h, f, answer, passed) =>
                alive && h == Passive(listen) && fds == f && reply == answer && close == passed
    {
      alive, reply, close := true, Result(true), None;
      match r
      case Chown(fd) =>
        fds := fds + {fd};
        if !env.ok {
          alive := false;   // die("invalid fd in cmd_process_chown")
          return;
        }
        close := Some(fd);
      case GetDataSock(port) =>
        alive, reply, close := CmdProcessGetDataSock(port, env);
      case PasvCleanup => CmdProcessPasvCleanup();
      case PasvActive => reply := Number(if listen != None then 1 else 0);
      case PasvListen =>
        if env.boundPort == None {
          alive := false;
          return;
        }
        listen, fds := Some(env.fd), fds + {env.fd};
        reply := Number(env.boundPort.value);
      case PasvAccept =>
        reply, close := CmdProcessPasvAccept(env);
    }

    /** The answer to PASV_LISTEN, with the search for the port: it comes exactly when an attempt is not
        refused and succeeds, and carries a port of the configured range. */
    method CmdProcessPasvListen(minTunable: nat, maxTunable: nat, draws: seq<nat>, binds: seq<Bind>, env: Env)
        returns (alive: bool, reply: Reply)
      requires Valid()
      requires |draws| == |binds| == ATTEMPTS && forall i | 0 <= i < ATTEMPTS :: draws[i] < 65536
      modifies this
      ensures Valid()
      ensures alive && 1024 < minTunable <= maxTunable < 65535 ==>
                reply.Number? && minTunable <= reply.v <= maxTunable
      ensures alive == (Settles(binds).Some? && binds[Settles(binds).value].Bound?)
      ensures alive ==> && listen == Some(env.fd) && fds == old(fds) + {env.fd} && reply.Number?
                        && MinPort(minTunable) <= reply.v <= MaxPort(MinPort(minTunable), maxTunable)
                        && reply.v == ScaledPort(draws[Settles(binds).value], MinPort(minTunable),
                                                 MaxPort(MinPort(minTunable), maxTunable))
    {
      var port := PrivopPasvListen(minTunable, maxTunable, draws, binds);
      var close;
      alive, reply, close := ProcessPostLoginReq(Request.PasvListen, env.(boundPort := port));
    }
  }
}
