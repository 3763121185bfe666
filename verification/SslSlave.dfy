/** The SSL slave: it holds the encrypted control connection and the SSL object of the data
    connection, and carries out the reads and writes of a session that holds neither. */
module SslSlave {
  import opened Bytes
  import opened PrivSock
  import opened PrivOps
  import opened Strings
  import DataIo

  class Slave {
    const cfg: Config
    var dataFd: Option<Fd>
    var dataSsl: bool
    var fds: set<Fd>
    const dataStr: MyStr

    ghost predicate Valid()
      reads this, dataStr, dataStr.buf
    {
      && cfg.role.Slave? && dataStr.Valid() && dataStr.allocBytes > DATA_BUF
      && (dataFd.Some? <==> dataSsl)
    }

    ghost function AsHelper(): Helper
      reads this, dataStr
    {
      Ssl(dataFd, dataSsl, dataStr.allocBytes)
    }

    constructor (cfg: Config)
      requires cfg.role.Slave?
      ensures Valid() && this.cfg == cfg && AsHelper() == Ssl(None, false, DATA_BUF + 1) && fds == {}
      ensures fresh(dataStr) && fresh(dataStr.buf)
    {
      this.cfg, dataFd, dataSsl, fds := cfg, None, false, {};
      dataStr := new MyStr();
      new;
      dataStr.Reserve(DATA_BUF);
    }

    /** `ssl_read_into_str` into a string cut to a full buffer: the bytes that came, or none. */
    method ReadIntoStr(code: Int32, text: Str)
      requires Valid() && code <= DATA_BUF && |text| == if code < 0 then 0 else code
      modifies dataStr, dataStr.buf
      ensures Valid() && dataStr.Contents() == text && dataStr.allocBytes == old(dataStr.allocBytes)
      ensures dataStr.buf == old(dataStr.buf)
    {
      if DATA_BUF >= dataStr.allocBytes {
        assert false;   // bug("trunc_len not smaller than alloc_bytes in str_trunc")
      }
      dataStr.Trunc(DATA_BUF);
      forall i | 0 <= i < |text| {
        dataStr.buf[i] := text[i];
      }
      if code >= 0 {
        dataStr.Trunc(code);
      } else {
        dataStr.Trunc(0);
      }
      assert dataStr.buf[..|text|] == text;
    }

    /** `priv_sock_get_str`: the length is known to be within the limit. */
    method GetStr(data: Str)
      requires Valid() && |data| <= MAX_STR
      modifies dataStr, dataStr.buf
      ensures Valid() && dataStr.Contents() == data
      ensures dataStr.allocBytes == if |data| + 1 > old(dataStr.allocBytes) then |data| + 1 else old(dataStr.allocBytes)
      ensures dataStr.buf == old(dataStr.buf) || fresh(dataStr.buf)
    {
      dataStr.Empty();
      if |data| > 0 {
        dataStr.Reserve(|data|);
        dataStr.Trunc(|data|);
        forall i | 0 <= i < |data| {
          dataStr.buf[i] := data[i];
        }
        assert dataStr.buf[..|data|] == data;
      }
    }

    /** One turn of `ssl_slave`, from the request read to the reply written. */
    method Turn(r: Request, env: Env) returns (alive: bool, reply: Reply)
      requires Valid() && Serves(cfg.role, r) && Sized(r) && Honest(r, env)
      modifies this, dataStr, dataStr.buf
      ensures match Serve(cfg, old(AsHelper()), old(fds), r, env)
              case Died => !alive
              case Served(h, f, answer, passed) =>
                alive && Valid() && AsHelper() == h && fds == f && reply == answer && passed == None
      ensures dataStr.buf == old(dataStr.buf) || fresh(dataStr.buf)
    {
      alive, reply := true, Result(false);
      match r
      case GetUserCmd =>
        if env.lost {
          alive := false;   // die("vsf_sysutil_recv_peek: no data")
          return;
        }
        reply := if env.code >= 0 then NumberText(env.code, env.text) else Number(env.code);
      case WriteUserResp(_) => reply := Number(env.code);
      case SslHandshake(fd) =>
        if dataFd != None || dataSsl {
          alive := false;   // bug("state not clean")
          return;
        }
        dataFd := Some(fd);
        if env.lost {
          alive := false;   // die(p_err) in get_ssl
          return;
        }
        if env.ok {
          dataSsl, fds, reply := true, fds + {fd}, Result(true);
        } else {
          dataFd := None;
        }
      case SslClose =>
        if dataFd == None && !dataSsl {
          reply := Result(true);
        } else {
          reply := Result(env.ok);
          fds := fds - {dataFd.value};
          dataFd, dataSsl := None, false;
        }
      case SslRead =>
        if !dataSsl {
          alive := false;
          return;
        }
        ReadIntoStr(env.code, env.text);
        reply := NumberText(env.code, dataStr.buf[..dataStr.len]);
      case SslWrite(data) =>
        if !dataSsl {
          alive := false;
          return;
        }
        GetStr(data);
        reply := Number(env.code);
    }
  }

  // ----- the requests a session makes

  /** One turn of a transfer loop: a read, the write of a buffer read from the file, or that of a piece
      of a listing. */
  datatype Io = Take | Give(chunk: Str, isAscii: bool, prevCr: bool) | List(piece: Str)

  datatype Job = Job(io: Io, env: Env)

  /** A data connection: the handshake, the transfer if that succeeded, and the close in any case. */
  datatype Use = Use(fd: Fd, shake: Env, jobs: seq<Job>, shutdown: Env)

  function IoRequest(io: Io): Request {
    match io
    case Take => SslRead
    case Give(chunk, isAscii, prevCr) => SslWrite(DataIo.Converted(chunk, isAscii, prevCr))
    case List(piece) => SslWrite(piece)
  }

  /** What a session writes is in its read buffer or its listing buffer. */
  predicate InBuffer(io: Io) {
    match io
    case Take => true
    case Give(chunk, _, _) => |chunk| <= DATA_BUF
    case List(piece) => |piece| <= DataIo.DIR_BUF
  }

  /** It reaches the slave as one string, which even doubled by the conversion is not too long for it. */
  lemma BufferedIsSized(io: Io)
    requires InBuffer(io)
    ensures Sized(IoRequest(io))
  {
    if io.Give? {
      assert |DataIo.Converted(io.chunk, io.isAscii, io.prevCr)| <= 2 * |io.chunk| <= MAX_STR;
    }
  }

  /** The slave dies of a string that is too long before it looks at its SSL object. */
  function ServeJobs(cfg: Config, h: Helper, fds: set<Fd>, jobs: seq<Job>): Outcome
    requires cfg.role.Slave? && h.Ssl?
  {
    if jobs == [] then Served(h, fds, Result(true), None)
    else match ServeJobs(cfg, h, fds, jobs[..|jobs| - 1])
      case Died => Died
      case Served(h', fds', _, _) =>
        var request := IoRequest(jobs[|jobs| - 1].io);
        if !h'.Ssl? || !Sized(request) then Died
        else Serve(cfg, h', fds', request, jobs[|jobs| - 1].env)
  }

  function ServeUse(cfg: Config, h: Helper, fds: set<Fd>, u: Use): Outcome
    requires cfg.role.Slave? && h.Ssl?
  {
    match Serve(cfg, h, fds, SslHandshake(u.fd), u.shake)
    case Died => Died
    case Served(h1, fds1, _, _) =>
      if !h1.Ssl? then Died
      else match ServeJobs(cfg, h1, fds1, if u.shake.ok then u.jobs else [])
        case Died => Died
        case Served(h2, fds2, _, _) => if !h2.Ssl? then Died else Serve(cfg, h2, fds2, SslClose, u.shutdown)
  }

  function ServeUses(cfg: Config, h: Helper, fds: set<Fd>, uses: seq<Use>): Outcome
    requires cfg.role.Slave? && h.Ssl?
  {
    if uses == [] then Served(h, fds, Result(true), None)
    else match ServeUses(cfg, h, fds, uses[..|uses| - 1])
      case Died => Died
      case Served(h', fds', _, _) => if !h'.Ssl? then Died else ServeUse(cfg, h', fds', uses[|uses| - 1])
  }

  /** No data connection, and room in the string for a full read. */
  predicate Clean(h: Helper) {
    h.Ssl? && h.dataFd.None? && !h.up && h.alloc > DATA_BUF
  }

  predicate AllSized(jobs: seq<Job>) {
    forall i | 0 <= i < |jobs| :: Sized(IoRequest(jobs[i].io))
  }

  lemma SizedSplits(jobs: seq<Job>)
    requires jobs != []
    ensures AllSized(jobs) <==> AllSized(jobs[..|jobs| - 1]) && Sized(IoRequest(jobs[|jobs| - 1].io))
  {
  }

  lemma JobServed(cfg: Config, h: Helper, fds: set<Fd>, job: Job)
    requires cfg.role.Slave? && h.Ssl? && h.up && h.alloc > DATA_BUF
    ensures var o := Serve(cfg, h, fds, IoRequest(job.io), job.env);
            && o.Served? && o.fds == fds && o.helper.Ssl? && o.helper.dataFd == h.dataFd
            && o.helper.up && o.helper.alloc >= h.alloc
  {
  }

  /** After a good handshake any reads and writes are served, if and only if none of them is too long. */
  lemma {:induction false} JobsServed(cfg: Config, h: Helper, fds: set<Fd>, jobs: seq<Job>)
    requires cfg.role.Slave? && h.Ssl? && h.up && h.alloc > DATA_BUF
    ensures var o := ServeJobs(cfg, h, fds, jobs);
            && (o.Served? <==> AllSized(jobs))
            && (o.Served? ==> && o.fds == fds && o.helper.Ssl? && o.helper.dataFd == h.dataFd
                              && o.helper.up && o.helper.alloc >= h.alloc)
  {
    if jobs != [] {
      var n := |jobs| - 1;
      JobsServed(cfg, h, fds, jobs[..n]);
      SizedSplits(jobs);
      var o := ServeJobs(cfg, h, fds, jobs[..n]);
      if o.Served? {
        JobServed(cfg, o.helper, fds, jobs[n]);
      }
    }
  }

  predicate InBuffers(u: Use) {
    forall i | 0 <= i < |u.jobs| :: InBuffer(u.jobs[i].io)
  }

  lemma UseIsSized(u: Use)
    requires InBuffers(u)
    ensures AllSized(u.jobs)
  {
    forall i | 0 <= i < |u.jobs|
      ensures Sized(IoRequest(u.jobs[i].io))
    {
      BufferedIsSized(u.jobs[i].io);
    }
  }

  lemma CloseServed(cfg: Config, h: Helper, fds: set<Fd>, fd: Fd, shutdown: Env)
    requires cfg.role.Slave? && h.Ssl? && h.alloc > DATA_BUF && fd !in fds
    ensures h.dataFd == Some(fd) && h.up ==>
              var o := Serve(cfg, h, fds + {fd}, SslClose, shutdown); o.Served? && o.fds == fds && Clean(o.helper)
    ensures h.dataFd == None && !h.up ==>
              var o := Serve(cfg, h, fds, SslClose, shutdown); o.Served? && o.fds == fds && Clean(o.helper)
  {
    assert fds + {fd} - Fds(Some(fd)) == fds;
  }

  /** One data connection is served, and leaves a clean slave clean, if and only if its TLS negotiation
      does not fail. */
  lemma UseServed(cfg: Config, h: Helper, fds: set<Fd>, u: Use)
    requires cfg.role.Slave? && Clean(h) && u.fd !in fds && InBuffers(u)
    ensures var o := ServeUse(cfg, h, fds, u);
            (o.Served? <==> !u.shake.lost) && (o.Served? ==> o.fds == fds && Clean(o.helper))
  {
    if u.shake.lost {
      return;
    }
    var shaken := if u.shake.ok then h.(dataFd := Some(u.fd), up := true) else h;
    var held := if u.shake.ok then fds + {u.fd} else fds;
    assert Serve(cfg, h, fds, SslHandshake(u.fd), u.shake) == Served(shaken, held, Result(u.shake.ok), None);
    UseIsSized(u);
    if u.shake.ok {
      JobsServed(cfg, shaken, held, u.jobs);
    }
    var o := ServeJobs(cfg, shaken, held, if u.shake.ok then u.jobs else []);
    CloseServed(cfg, o.helper, fds, u.fd, u.shutdown);
  }

  predicate NoneLost(uses: seq<Use>) {
    forall i | 0 <= i < |uses| :: !uses[i].shake.lost
  }

  /** Whatever the transfers, their outcomes and their I/O, the slave goes on if and only if no handshake
      fails in the TLS negotiation: its state is clean at every handshake, its string can always
      be cut to a full buffer, no string it is sent is too long, and each data connection leaves
      it as clean as it was. */
  lemma {:induction false} SlaveKeepsGoing(cfg: Config, h: Helper, fds: set<Fd>, uses: seq<Use>)
    requires cfg.role.Slave? && Clean(h)
    requires forall i | 0 <= i < |uses| :: uses[i].fd !in fds && InBuffers(uses[i])
    ensures var o := ServeUses(cfg, h, fds, uses);
            (o.Served? <==> NoneLost(uses)) && (o.Served? ==> o.fds == fds && Clean(o.helper))
  {
    if uses != [] {
      var n := |uses| - 1;
      SlaveKeepsGoing(cfg, h, fds, uses[..n]);
      assert NoneLost(uses) <==> NoneLost(uses[..n]) && !uses[n].shake.lost;
      var o := ServeUses(cfg, h, fds, uses[..n]);
      if o.Served? {
        UseServed(cfg, o.helper, fds, uses[n]);
      }
    }
  }
}
