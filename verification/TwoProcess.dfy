/** Two processes and two byte streams.  The child sends a request item by item and waits for
    the reply; the helper reads items until it has a request, performs it and sends the reply.
    Every write and read loop may move a single item at a time and any item of either
    process may be interleaved with any of the other, over streams that hold at most
    `capacity` items. */
module TwoProcess {
  import opened Bytes
  import opened PrivSock
  import opened PrivOps

  datatype Child =
    | Idle
    | Sending(req: Request, who: Caller, rest: Wire)
    | Receiving(req: Request, who: Caller, got: Wire)
    | ChildDead

  datatype Server =
    | Reading(got: Wire)
    | Executing(req: Request)
    | Replying(rest: Wire, close: Option<Fd>)   // then close our copy of a passed descriptor
    | ServerDead

  /** `answer` is a history variable: the reply to the outstanding request, once decided.
      `last` is what the last completed stub call returned. */
  datatype Sys = Sys(child: Child, server: Server, up: Wire, down: Wire,
                     helper: Helper, childFds: set<Fd>, serverFds: set<Fd>,
                     answer: Option<Reply>, last: Ret)

  datatype Action =
    | CallStub(req: Request, who: Caller)
    | ChildWrite | ServerRead | ServerExec(env: Env) | ServerWrite | ServerClose
    | ChildRead | ChildSeesDeath

  // ----- the system's steps

  /** What a stub's caller owes: the request is one its helper serves, a descriptor it passes is
      open, strings are within the limit, the read buffer is a full one, and the PORT address
      was checked against the control peer. */
  predicate Callable(cfg: Config, s: Sys, r: Request, who: Caller) {
    && Serves(cfg.role, r) && Sized(r)
    && (r.Chown? ==> r.fd in s.childFds)
    && (r.SslHandshake? ==> r.fd in s.childFds)
    && (r.GetDataSock? ==> who.portAddr == cfg.peer)
    && who.room >= DATA_BUF
  }

  /** A descriptor number no process holds and no stream carries. */
  predicate Unused(s: Sys, fd: Fd) {
    fd !in s.childFds && fd !in s.serverFds && WithFd(fd) !in s.down
  }

  predicate Enabled(cfg: Config, capacity: nat, s: Sys, a: Action) {
    match a
    case CallStub(r, who) => s.child.Idle? && Callable(cfg, s, r, who)
    case ChildWrite => s.child.Sending? && s.child.rest != [] && (s.server.ServerDead? || |s.up| < capacity)
    case ServerRead => s.server.Reading? && s.up != []
    case ServerExec(env) => s.server.Executing? && Honest(s.server.req, env) && Unused(s, env.fd)
    case ServerWrite => s.server.Replying? && s.server.rest != [] && |s.down| < capacity
    case ServerClose => s.server.Replying? && s.server.rest == []
    case ChildRead => s.child.Receiving? && s.down != []
    case ChildSeesDeath => s.child.Receiving? && s.down == [] && s.server.ServerDead?
  }

  function ServerGot(cfg: Config, got: Wire): Server {
    match ReadRequest(cfg.role, got)
    case More => Reading(got)
    case Bad => ServerDead
    case Got(r) => Executing(r)
  }

  function Apply(cfg: Config, capacity: nat, s: Sys, a: Action): Sys
    requires Enabled(cfg, capacity, s, a)
    requires s.helper.Passive? <==> cfg.role.Parent?
    requires s.server.Executing? ==> Serves(cfg.role, s.server.req)
  {
    match a
    case CallStub(r, who) => s.(child := Sending(r, who, RequestWire(r)))
    case ChildWrite =>
      if s.server.ServerDead? then s.(child := ChildDead)   // EPIPE
      else
        var rest := s.child.rest[1..];
        s.(up := s.up + [s.child.rest[0]],
           child := if rest == [] then Receiving(s.child.req, s.child.who, []) else s.child.(rest := rest))
    case ServerRead => s.(up := s.up[1..], server := ServerGot(cfg, s.server.got + [s.up[0]]))
    case ServerExec(env) =>
      (match Serve(cfg, s.helper, s.serverFds, s.server.req, env)
       case Died => s.(server := ServerDead)
       case Served(h, fds, reply, close) =>
         if reply.NumberText? && |reply.text| >= 0x8000_0000 then s.(server := ServerDead)
         else s.(helper := h, serverFds := fds, server := Replying(ReplyWire(reply), close), answer := Some(reply)))
    case ServerWrite =>
      s.(down := s.down + [s.server.rest[0]], server := s.server.(rest := s.server.rest[1..]))
    case ServerClose => s.(serverFds := s.serverFds - Fds(s.server.close), server := Reading([]))
    case ChildRead =>
      var got := s.child.got + [s.down[0]];
      var s1 := s.(down := s.down[1..]);
      (match ReadReply(s.child.req, s.child.who.room, got)
       case More => s1.(child := s.child.(got := got))
       case Bad => s1.(child := ChildDead)
       case Got(reply) =>
         s1.(child := Idle, last := StubReturn(s.child.req, reply), answer := None,
             childFds := s.childFds + if reply.ResultFd? then {reply.fd} else {}))
    case ChildSeesDeath => s.(child := ChildDead)
  }

  // ----- the invariant: the streams hold exactly the unread part of one message

  /** What the two sides may rely on about the state apart from the streams. */
  predicate Meant(cfg: Config, s: Sys) {
    && (s.helper.Passive? <==> cfg.role.Parent?)
    && SlaveSound(s.helper)
    && FdsInv(s)
    && (s.child.Sending? || s.child.Receiving? ==> Callable(cfg, s, s.child.req, s.child.who))
    && (s.child.Receiving? && s.answer.Some? ==> Answers(s.child.req, s.child.who.room, s.answer.value))
  }

  /** The message on its way: the request until it is carried out, then the reply. */
  function Message(cfg: Config, s: Sys): Wire
    requires Meant(cfg, s)
  {
    if s.child.Receiving? && s.answer.Some? then ReplyWire(s.answer.value)
    else if s.child.Sending? || s.child.Receiving? then RequestWire(s.child.req)
    else []
  }

  /** Of the message `w`: what the reader has + what is in the stream + what is not yet sent == `w`,
      and the other stream is empty. */
  predicate Framed(s: Sys, w: Wire) {
    match s.child
    case Idle => s.up == [] && s.down == [] && s.answer.None?
                 && (s.server.ServerDead? || ServerAtRest(s.server))
    case Sending(r, who, rest) => s.answer.None? && rest != [] && Requesting(s, rest, w)
    case Receiving(r, who, got) =>
      if s.answer.None? then got == [] && Requesting(s, [], w)
      else && s.up == [] && (s.server == Reading([]) || s.server.Replying?)
           && got + s.down + Unsent(s.server) == w && |got| < |w|
    case ChildDead => s.server.ServerDead?
  }

  predicate Requesting(s: Sys, unsent: Wire, w: Wire)
    requires s.child.Sending? || s.child.Receiving?
  {
    && s.down == []
    && match s.server
       case Reading(got) => got + s.up + unsent == w && s.up + unsent != []
       case Replying(rest, _) => rest == [] && s.up + unsent == w && w != []
       case Executing(q) => q == s.child.req && s.up == [] && unsent == []
       case ServerDead => true
  }

  predicate ServerAtRest(server: Server) {
    server == Reading([]) || (server.Replying? && server.rest == [])
  }

  predicate Inv(cfg: Config, s: Sys) {
    Meant(cfg, s) && Framed(s, Message(cfg, s))
  }

  function Unsent(server: Server): Wire {
    if server.Replying? then server.rest else []
  }

  function Closing(server: Server): set<Fd> {
    if server.Replying? then Fds(server.close) else {}
  }

  function Carried(w: Wire): set<Fd> {
    set x | x in w && x.WithFd? :: x.fd
  }

  /** Descriptors that exist in the session, each once: a copy about to be closed is not counted. */
  function Held(s: Sys): set<Fd> {
    s.childFds + (s.serverFds - Closing(s.server)) + Carried(s.down) + Carried(Unsent(s.server))
  }

  /** The listening socket is the helper's alone; the slave's data socket is the child's too. */
  predicate FdsInv(s: Sys) {
    && (s.helper.Passive? && s.helper.listen.Some? ==>
          s.helper.listen.value !in s.childFds + Closing(s.server) + Carried(s.down) + Carried(Unsent(s.server)))
    && (s.helper.Passive? && s.helper.listen.Some? ==> s.helper.listen.value in s.serverFds)
    && (s.helper.Ssl? && s.helper.dataFd.Some? ==> s.helper.dataFd.value in s.childFds)
  }

  // ----- the specification: one process, one call at a time

  datatype Phase = Ready | Calling(req: Request, who: Caller) | Finished(req: Request, ret: Ret) | Down

  datatype One = One(phase: Phase, own: Own, fds: set<Fd>, last: Ret)

  datatype OneAction = Stutter | Enter(r: Request, w: Caller) | Perform(env: Env) | Leave | Die

  predicate OneStep(cfg: Config, o: One, o': One, a: OneAction) {
    match a
    case Stutter => o' == o
    case Enter(r, who) => o.phase.Ready? && o' == o.(phase := Calling(r, who))
    case Perform(env) =>
      && o.phase.Calling? && Serves(cfg.role, o.phase.req) && (o.own.OwnPassive? <==> cfg.role.Parent?)
      && Honest(o.phase.req, env) && env.fd !in o.fds
      && (match Call(cfg, o.phase.who, o.own, o.fds, o.phase.req, env)
          case Crashed => o'.phase.Down?
          case Returned(own, fds, ret) => o' == One(Finished(o.phase.req, ret), own, fds, o.last))
    case Leave => o.phase.Finished? && o' == o.(phase := Ready, last := o.phase.ret)
    case Die => o.phase.Down? && o'.phase.Down?
  }

  /** The one-process session a two-process state stands for. */
  function Abs(s: Sys): One {
    One(if s.server.ServerDead? then Down
        else if s.child.Sending? then Calling(s.child.req, s.child.who)
        else if s.child.Receiving? then
          (if s.answer.None? then Calling(s.child.req, s.child.who)
           else Finished(s.child.req, StubReturn(s.child.req, s.answer.value)))
        else Ready,
        Owned(s.helper), Held(s), s.last)
  }

  function AbsAction(s: Sys, a: Action): OneAction {
    if s.server.ServerDead? then Die
    else match a
      case CallStub(r, who) => Enter(r, who)
      case ServerExec(env) => Perform(env)
      case ChildRead =>
        if s.child.Receiving? && s.down != []
           && !ReadReply(s.child.req, s.child.who.room, s.child.got + [s.down[0]]).More?
        then Leave else Stutter
      case _ => Stutter
  }

  // ----- every step keeps the invariant and is a step, or none, of the specification

  predicate StepGood(cfg: Config, capacity: nat, s: Sys, a: Action)
    requires Inv(cfg, s) && Enabled(cfg, capacity, s, a)
  {
    var s' := Apply(cfg, capacity, s, a);
    Inv(cfg, s') && OneStep(cfg, Abs(s), Abs(s'), AbsAction(s, a))
  }

  lemma CarriedAppend(w: Wire, x: Item)
    ensures Carried(w + [x]) == Carried(w) + Carried([x])
    ensures Carried([x] + w) == Carried([x]) + Carried(w)
  {
  }

  lemma CarriedPlain(w: Wire)
    requires forall x | x in w :: x.Plain?
    ensures Carried(w) == {}
  {
  }

  lemma CallGood(cfg: Config, capacity: nat, s: Sys, r: Request, who: Caller)
    requires Inv(cfg, s) && Enabled(cfg, capacity, s, CallStub(r, who))
    ensures StepGood(cfg, capacity, s, CallStub(r, who))
  {
    assert [] + [] + RequestWire(r) == RequestWire(r);
  }

  // The child sends.

  function AfterSend(s: Sys): Sys
    requires s.child.Sending? && s.child.rest != []
  {
    var rest := s.child.rest[1..];
    s.(up := s.up + [s.child.rest[0]],
       child := if rest == [] then Receiving(s.child.req, s.child.who, []) else s.child.(rest := rest))
  }

  lemma SendFrames(s: Sys, w: Wire)
    requires s.child.Sending? && !s.server.ServerDead? && Framed(s, w)
    ensures Framed(AfterSend(s), w)
  {
    var rest := s.child.rest;
    assert s.up + rest == AfterSend(s).up + rest[1..];
    if s.server.Reading? {
      assert s.server.got + s.up + rest == s.server.got + AfterSend(s).up + rest[1..];
    }
  }

  lemma ChildWriteGood(cfg: Config, capacity: nat, s: Sys)
    requires Inv(cfg, s) && Enabled(cfg, capacity, s, ChildWrite)
    ensures StepGood(cfg, capacity, s, ChildWrite)
  {
    if !s.server.ServerDead? {
      SendFrames(s, Message(cfg, s));
      assert Apply(cfg, capacity, s, ChildWrite) == AfterSend(s);
      assert Meant(cfg, AfterSend(s)) && Message(cfg, AfterSend(s)) == Message(cfg, s);
      assert Held(AfterSend(s)) == Held(s);
    }
  }

  // The server reads.

  /** The server, having read one more item of the request, waits on or has the request. */
  lemma ServerReadParses(cfg: Config, r: Request, got: Wire, left: Wire)
    requires Sized(r) && Serves(cfg.role, r) && got + left == RequestWire(r)
    ensures ServerGot(cfg, got) == if left == [] then Executing(r) else Reading(got)
  {
    assert got == RequestWire(r)[..|got|];
    RequestFrames(cfg.role, r, |got|);
  }

  function ToSend(child: Child): Wire {
    if child.Sending? then child.rest else []
  }

  function AfterRead(s: Sys): Sys
    requires s.server.Reading? && s.up != [] && (s.child.Sending? || s.child.Receiving?)
  {
    s.(up := s.up[1..],
       server := if s.up[1..] + ToSend(s.child) == [] then Executing(s.child.req)
                 else Reading(s.server.got + [s.up[0]]))
  }

  lemma ReadFrames(s: Sys, w: Wire)
    requires s.server.Reading? && s.up != [] && Framed(s, w)
    ensures s.child.Sending? || s.child.Receiving?
    ensures Framed(AfterRead(s), w)
    ensures s.server.got + [s.up[0]] + (s.up[1..] + ToSend(s.child)) == w
  {
    assert s.server.got + [s.up[0]] + s.up[1..] + ToSend(s.child) == s.server.got + s.up + ToSend(s.child);
    assert s.server.got + [s.up[0]] + (s.up[1..] + ToSend(s.child)) == s.server.got + s.up + ToSend(s.child);
  }

  lemma ServerReadGood(cfg: Config, capacity: nat, s: Sys)
    requires Inv(cfg, s) && Enabled(cfg, capacity, s, ServerRead)
    ensures StepGood(cfg, capacity, s, ServerRead)
  {
    ReadFrames(s, Message(cfg, s));
    ServerReadParses(cfg, s.child.req, s.server.got + [s.up[0]], s.up[1..] + ToSend(s.child));
    assert Apply(cfg, capacity, s, ServerRead) == AfterRead(s);
    assert Meant(cfg, AfterRead(s)) && Message(cfg, AfterRead(s)) == Message(cfg, s);
    assert Held(AfterRead(s)) == Held(s);
  }

  // The server carries out the request.

  function AfterServe(s: Sys, o: Outcome, w: Wire): Sys
    requires o.Served?
  {
    s.(helper := o.helper, serverFds := o.fds, server := Replying(w, o.close), answer := Some(o.reply))
  }

  lemma ReplyCarries(a: Reply)
    requires a.NumberText? ==> |a.text| < 0x8000_0000
    ensures Carried(ReplyWire(a)) == if a.ResultFd? then {a.fd} else {}
    ensures |ReplyWire(a)| > 0
  {
    if a.ResultFd? {
      assert ReplyWire(a)[1] in ReplyWire(a);
    } else {
      CarriedPlain(ReplyWire(a));
    }
  }

  /** The descriptors after an operation are those of the direct call. */
  lemma ServeFds(cfg: Config, s: Sys, env: Env)
    requires Meant(cfg, s) && s.server.Executing? && s.child.Receiving? && s.server.req == s.child.req
    requires s.down == [] && Unused(s, env.fd)
    requires Serve(cfg, s.helper, s.serverFds, s.server.req, env).Served?
    requires Call(cfg, s.child.who, Owned(s.helper), Held(s), s.server.req, env).Returned?
    ensures var o := Serve(cfg, s.helper, s.serverFds, s.server.req, env);
            var carried := if o.reply.ResultFd? then {o.reply.fd} else {};
            && s.childFds + (o.fds - Fds(o.close)) + carried
               == Call(cfg, s.child.who, Owned(s.helper), Held(s), s.server.req, env).fds
            && (o.helper.Passive? && o.helper.listen.Some? ==>
                  o.helper.listen.value in o.fds && o.helper.listen.value !in s.childFds + Fds(o.close) + carried)
            && (o.helper.Ssl? && o.helper.dataFd.Some? ==> o.helper.dataFd.value in s.childFds)
  {
    assert Held(s) == s.childFds + s.serverFds;
  }

  lemma ServeKeeps(cfg: Config, s: Sys, o: Outcome, w: Wire)
    requires Meant(cfg, s) && s.server.Executing? && s.child.Receiving? && s.child.got == [] && s.up == s.down == []
    requires o.Served? && Answers(s.child.req, s.child.who.room, o.reply)
    requires SlaveSound(o.helper) && (o.helper.Passive? <==> s.helper.Passive?)
    requires |w| > 0
    requires var carried := if o.reply.ResultFd? then {o.reply.fd} else {};
             && Carried(w) == carried
             && (o.helper.Passive? && o.helper.listen.Some? ==>
                   o.helper.listen.value in o.fds && o.helper.listen.value !in s.childFds + Fds(o.close) + carried)
             && (o.helper.Ssl? && o.helper.dataFd.Some? ==> o.helper.dataFd.value in s.childFds)
    ensures Meant(cfg, AfterServe(s, o, w)) && Framed(AfterServe(s, o, w), w)
    ensures Held(AfterServe(s, o, w))
            == s.childFds + (o.fds - Fds(o.close)) + if o.reply.ResultFd? then {o.reply.fd} else {}
  {
    assert [] + [] + w == w;
    assert Carried([]) == {};
  }

  lemma ExecKeeps(cfg: Config, s: Sys, env: Env)
    requires Inv(cfg, s) && s.server.Executing? && Honest(s.server.req, env) && Unused(s, env.fd)
    ensures s.child.Receiving? && s.answer.None? && s.server.req == s.child.req
    ensures env.fd !in Held(s)
    ensures var o := Serve(cfg, s.helper, s.serverFds, s.server.req, env);
            var d := Call(cfg, s.child.who, Owned(s.helper), Held(s), s.server.req, env);
            && (o.Died? <==> d.Crashed?)
            && (o.Served? ==>
                  && (o.reply.NumberText? ==> |o.reply.text| < 0x8000_0000)
                  && Inv(cfg, AfterServe(s, o, ReplyWire(o.reply)))
                  && Abs(AfterServe(s, o, ReplyWire(o.reply))) ==
                     One(Finished(s.child.req, d.ret), d.own, d.fds, s.last))
  {
    assert Carried(s.down) == {} && Held(s) == s.childFds + s.serverFds;
    var o := Serve(cfg, s.helper, s.serverFds, s.server.req, env);
    ServeIsCall(cfg, s.child.who, s.helper, s.serverFds, Held(s), s.server.req, env);
    if o.Served? {
      ReplyCarries(o.reply);
      ServeFds(cfg, s, env);
      ServeKeeps(cfg, s, o, ReplyWire(o.reply));
    }
  }

  lemma ServerExecGood(cfg: Config, capacity: nat, s: Sys, env: Env)
    requires Inv(cfg, s) && Enabled(cfg, capacity, s, ServerExec(env))
    ensures StepGood(cfg, capacity, s, ServerExec(env))
  {
    ExecKeeps(cfg, s, env);
    var o := Serve(cfg, s.helper, s.serverFds, s.server.req, env);
    if o.Served? {
      assert Apply(cfg, capacity, s, ServerExec(env)) == AfterServe(s, o, ReplyWire(o.reply));
    }
  }

  // The server replies and closes its copy.

  function AfterWrite(s: Sys): Sys
    requires s.server.Replying? && s.server.rest != []
  {
    s.(down := s.down + [s.server.rest[0]], server := s.server.(rest := s.server.rest[1..]))
  }

  lemma WriteFrames(s: Sys, w: Wire)
    requires Framed(s, w) && s.server.Replying? && s.server.rest != []
    ensures s.child.Receiving? && s.answer.Some? && Framed(AfterWrite(s), w)
    ensures Carried(s.down) + Carried(s.server.rest) == Carried(AfterWrite(s).down) + Carried(AfterWrite(s).server.rest)
  {
    var rest := s.server.rest;
    assert rest == [rest[0]] + rest[1..];
    assert s.child.got + s.down + rest == s.child.got + (s.down + [rest[0]]) + rest[1..];
    CarriedAppend(s.down, rest[0]);
    CarriedAppend(rest[1..], rest[0]);
  }

  lemma ServerWriteGood(cfg: Config, capacity: nat, s: Sys)
    requires Inv(cfg, s) && Enabled(cfg, capacity, s, ServerWrite)
    ensures StepGood(cfg, capacity, s, ServerWrite)
  {
    WriteFrames(s, Message(cfg, s));
    assert Apply(cfg, capacity, s, ServerWrite) == AfterWrite(s);
    assert Meant(cfg, AfterWrite(s)) && Message(cfg, AfterWrite(s)) == Message(cfg, s);
    assert Held(AfterWrite(s)) == Held(s);
  }

  function AfterClose(s: Sys): Sys
    requires s.server.Replying?
  {
    s.(serverFds := s.serverFds - Fds(s.server.close), server := Reading([]))
  }

  lemma CloseFrames(s: Sys, w: Wire)
    requires Framed(s, w) && s.server.Replying? && s.server.rest == []
    ensures Framed(AfterClose(s), w)
  {
    assert [] + s.up + ToSend(s.child) == s.up + ToSend(s.child);
  }

  lemma ServerCloseGood(cfg: Config, capacity: nat, s: Sys)
    requires Inv(cfg, s) && Enabled(cfg, capacity, s, ServerClose)
    ensures StepGood(cfg, capacity, s, ServerClose)
  {
    CloseFrames(s, Message(cfg, s));
    assert Apply(cfg, capacity, s, ServerClose) == AfterClose(s);
    assert Meant(cfg, AfterClose(s)) && Message(cfg, AfterClose(s)) == Message(cfg, s);
    assert Held(AfterClose(s)) == Held(s);
  }

  // The child reads the reply.

  /** The child, having read one more item of the reply, waits on or has the reply. */
  lemma ChildReadParses(r: Request, who: Caller, a: Reply, got: Wire, left: Wire)
    requires Answers(r, who.room, a) && got + left == ReplyWire(a)
    ensures ReadReply(r, who.room, got) == if left == [] then Got(a) else More
  {
    assert got == ReplyWire(a)[..|got|];
    ReplyFrames(r, who.room, a, |got|);
  }

  /** What the last item read carries is the descriptor the reply is about. */
  lemma LastItem(r: Request, a: Reply, got: Wire, x: Item, left: Wire)
    requires a.NumberText? ==> |a.text| < 0x8000_0000
    requires got + [x] + left == ReplyWire(a)
    ensures Carried([x]) == if left == [] && a.ResultFd? then {a.fd} else {}
  {
    assert x == ReplyWire(a)[|got|];
    FdsComeLast(r, a, |got|);
    if x.WithFd? { assert x in [x]; }
    if left == [] && a.ResultFd? { assert x == WithFd(a.fd); }
  }

  function AfterChildRead(s: Sys, done: bool): Sys
    requires s.child.Receiving? && s.down != [] && s.answer.Some?
  {
    var a, s1 := s.answer.value, s.(down := s.down[1..]);
    if done then
      s1.(child := Idle, last := StubReturn(s.child.req, a), answer := None,
          childFds := s.childFds + if a.ResultFd? then {a.fd} else {})
    else s1.(child := s.child.(got := s.child.got + [s.down[0]]))
  }

  lemma ChildReadFrames(s: Sys, w: Wire)
    requires Framed(s, w) && s.child.Receiving? && s.down != []
    ensures s.answer.Some?
    ensures var left := s.down[1..] + Unsent(s.server);
            && s.child.got + [s.down[0]] + left == w
            && Framed(AfterChildRead(s, left == []), if left == [] then [] else w)
            && (left == [] ==> s.down[1..] == [] && Unsent(s.server) == [])
    ensures Carried(s.down) == Carried([s.down[0]]) + Carried(s.down[1..])
  {
    var got, left := s.child.got + [s.down[0]], s.down[1..] + Unsent(s.server);
    assert got + left == s.child.got + s.down + Unsent(s.server);
    assert got + s.down[1..] + Unsent(s.server) == got + left;
    assert |got| + |left| == |w|;
    assert s.down == [s.down[0]] + s.down[1..];
    CarriedAppend(s.down[1..], s.down[0]);
  }

  lemma ChildReadKeeps(cfg: Config, s: Sys)
    requires Inv(cfg, s) && s.child.Receiving? && s.down != [] && s.answer.Some?
    ensures var s' := AfterChildRead(s, s.down[1..] + Unsent(s.server) == []);
            Inv(cfg, s') && Held(s') == Held(s)
  {
    ChildReadFrames(s, Message(cfg, s));
    var left := s.down[1..] + Unsent(s.server);
    LastItem(s.child.req, s.answer.value, s.child.got, s.down[0], left);
    var s' := AfterChildRead(s, left == []);
    assert Meant(cfg, s') && Message(cfg, s') == if left == [] then [] else Message(cfg, s);
  }

  lemma ChildReadGood(cfg: Config, capacity: nat, s: Sys)
    requires Inv(cfg, s) && Enabled(cfg, capacity, s, ChildRead)
    ensures StepGood(cfg, capacity, s, ChildRead)
  {
    var w := Message(cfg, s);
    ChildReadFrames(s, w);
    var left := s.down[1..] + Unsent(s.server);
    assert w == ReplyWire(s.answer.value);
    ChildReadParses(s.child.req, s.child.who, s.answer.value, s.child.got + [s.down[0]], left);
    ChildReadKeeps(cfg, s);
    assert Apply(cfg, capacity, s, ChildRead) == AfterChildRead(s, left == []);
  }

  /** The main step theorem: in every interleaving the streams hold exactly the unread part of the
      one outstanding message, and seen from outside, the two processes make the moves of
      one process calling the operation directly. */
  lemma StepRefines(cfg: Config, capacity: nat, s: Sys, a: Action)
    requires Inv(cfg, s) && Enabled(cfg, capacity, s, a)
    ensures Inv(cfg, Apply(cfg, capacity, s, a))
    ensures OneStep(cfg, Abs(s), Abs(Apply(cfg, capacity, s, a)), AbsAction(s, a))
  {
    match a
    case CallStub(r, who) => CallGood(cfg, capacity, s, r, who);
    case ChildWrite => ChildWriteGood(cfg, capacity, s);
    case ServerRead => ServerReadGood(cfg, capacity, s);
    case ServerExec(env) => ServerExecGood(cfg, capacity, s, env);
    case ServerWrite => ServerWriteGood(cfg, capacity, s);
    case ServerClose => ServerCloseGood(cfg, capacity, s);
    case ChildRead => ChildReadGood(cfg, capacity, s);
    case ChildSeesDeath =>
  }

  // ----- runs

  predicate StepTo(cfg: Config, capacity: nat, s: Sys, s': Sys, a: Action) {
    && Enabled(cfg, capacity, s, a)
    && (s.helper.Passive? <==> cfg.role.Parent?)
    && (s.server.Executing? ==> Serves(cfg.role, s.server.req))
    && s' == Apply(cfg, capacity, s, a)
  }

  /** A run: any actions whatever of either process, in any order in which they are enabled. */
  predicate IsRun(cfg: Config, capacity: nat, states: seq<Sys>, actions: seq<Action>) {
    && |states| == |actions| + 1
    && forall i | 0 <= i < |actions| :: StepTo(cfg, capacity, states[i], states[i + 1], actions[i])
  }

  /** A run of the specification. */
  predicate IsOneRun(cfg: Config, states: seq<One>, actions: seq<OneAction>) {
    && |states| == |actions| + 1
    && forall i | 0 <= i < |actions| :: OneStep(cfg, states[i], states[i + 1], actions[i])
  }

  predicate Start(cfg: Config, s: Sys) {
    && s.child == Idle && s.server == Reading([]) && s.up == [] && s.down == [] && s.answer == None
    && s.helper == (if cfg.role.Parent? then Passive(None) else Ssl(None, false, DATA_BUF + 1))
  }

  lemma {:induction false} RunInv(cfg: Config, capacity: nat, states: seq<Sys>, actions: seq<Action>, n: nat)
    requires IsRun(cfg, capacity, states, actions) && n < |states|
    requires Inv(cfg, states[0])
    ensures Inv(cfg, states[n])
  {
    if n > 0 {
      RunInv(cfg, capacity, states, actions, n - 1);
      assert StepTo(cfg, capacity, states[n - 1], states[n], actions[n - 1]);
      StepRefines(cfg, capacity, states[n - 1], actions[n - 1]);
    }
  }

  /** Every run of the two processes, however their reads and writes interleave, is a run of the
      one-process session: same calls, same results, same descriptors. */
  lemma RunsRefine(cfg: Config, capacity: nat, states: seq<Sys>, actions: seq<Action>)
    requires IsRun(cfg, capacity, states, actions) && Inv(cfg, states[0])
    ensures IsOneRun(cfg, seq(|states|, i requires 0 <= i < |states| => Abs(states[i])),
                     seq(|actions|, i requires 0 <= i < |actions| => AbsAction(states[i], actions[i])))
  {
    forall i | 0 <= i < |actions|
      ensures OneStep(cfg, Abs(states[i]), Abs(states[i + 1]), AbsAction(states[i], actions[i]))
    {
      RunInv(cfg, capacity, states, actions, i);
      assert StepTo(cfg, capacity, states[i], states[i + 1], actions[i]);
      StepRefines(cfg, capacity, states[i], actions[i]);
    }
  }

  /** Between calls both streams are empty, whatever ran before. */
  lemma QuietBetweenCalls(cfg: Config, capacity: nat, states: seq<Sys>, actions: seq<Action>, n: nat)
    requires IsRun(cfg, capacity, states, actions) && Start(cfg, states[0]) && n < |states|
    ensures states[n].child.Idle? ==> states[n].up == [] && states[n].down == []
    ensures Inv(cfg, states[n])
  {
    assert Inv(cfg, states[0]);
    RunInv(cfg, capacity, states, actions, n);
  }

  /** What has become, in state `o`, of the call `r` made in state `o0`. */
  ghost predicate Along(cfg: Config, o0: One, r: Request, who: Caller, o: One) {
    || o.phase.Down?
    || (o.phase == Calling(r, who) && o.own == o0.own && o.fds == o0.fds)
    || (o.phase.Finished? && o.phase.req == r && MadeCall(cfg, o0, r, who, o, o.phase.ret))
    || (o.phase.Ready? && MadeCall(cfg, o0, r, who, o, o.last))
  }

  /** `o` has the fields and descriptors, and `ret` is the result, that the direct call gives in
      `o0` for some behaviour of the outside world. */
  ghost predicate MadeCall(cfg: Config, o0: One, r: Request, who: Caller, o: One, ret: Ret) {
    && Serves(cfg.role, r) && (o0.own.OwnPassive? <==> cfg.role.Parent?)
    && exists env: Env :: Honest(r, env) && env.fd !in o0.fds
                          && Call(cfg, who, o0.own, o0.fds, r, env) == Returned(o.own, o.fds, ret)
  }

  lemma StepsAlong(cfg: Config, o0: One, r: Request, who: Caller, o: One, o': One, a: OneAction)
    requires Along(cfg, o0, r, who, o) && OneStep(cfg, o, o', a) && !a.Enter?
    ensures Along(cfg, o0, r, who, o')
  {
  }

  lemma {:induction false} RunsAlong(cfg: Config, capacity: nat, states: seq<Sys>, actions: seq<Action>, n: nat,
                                     o0: One, r: Request, who: Caller)
    requires IsRun(cfg, capacity, states, actions) && Inv(cfg, states[0]) && 1 <= n < |states|
    requires Along(cfg, o0, r, who, Abs(states[1]))
    requires forall i | 1 <= i < |actions| :: !actions[i].CallStub?
    ensures Along(cfg, o0, r, who, Abs(states[n]))
  {
    if n > 1 {
      RunsAlong(cfg, capacity, states, actions, n - 1, o0, r, who);
      RunInv(cfg, capacity, states, actions, n - 1);
      assert StepTo(cfg, capacity, states[n - 1], states[n], actions[n - 1]);
      StepRefines(cfg, capacity, states[n - 1], actions[n - 1]);
      StepsAlong(cfg, o0, r, who, Abs(states[n - 1]), Abs(states[n]), AbsAction(states[n - 1], actions[n - 1]));
    }
  }

  /** A stub that has returned has returned what the one-process version of the call returns, and
      the session's fields and descriptors are what that version leaves, however the two
      processes were scheduled meanwhile. */
  lemma CompletedCall(cfg: Config, capacity: nat, states: seq<Sys>, actions: seq<Action>, r: Request, who: Caller)
    requires IsRun(cfg, capacity, states, actions) && Inv(cfg, states[0])
    requires actions != [] && actions[0] == CallStub(r, who)
    requires forall i | 1 <= i < |actions| :: !actions[i].CallStub?
    requires states[|actions|].child.Idle? && !states[|actions|].server.ServerDead?
    ensures MadeCall(cfg, Abs(states[0]), r, who, Abs(states[|actions|]), states[|actions|].last)
  {
    assert StepTo(cfg, capacity, states[0], states[1], actions[0]);
    StepRefines(cfg, capacity, states[0], actions[0]);
    RunsAlong(cfg, capacity, states, actions, |actions|, Abs(states[0]), r, who);
  }

  // ----- no deadlock, no livelock

  /** While a call is outstanding one of the two processes can move, if the streams can hold even
      one item: they never wait for each other. */
  lemma NeverStuck(cfg: Config, capacity: nat, s: Sys) returns (a: Action)
    requires Inv(cfg, s) && capacity >= 1
    requires s.child.Sending? || s.child.Receiving?
    ensures Enabled(cfg, capacity, s, a) && !a.CallStub?
  {
    if s.server.ServerDead? {
      a := if s.child.Sending? then ChildWrite else ChildSeesDeath;
    } else if s.server.Executing? {
      var fd := FreshFd(s);
      a := ServerExec(Env(fd, None, {}, false, false, false, false, -1, []));
    } else if s.server.Replying? && s.server.rest == [] {
      a := ServerClose;
    } else if s.child.Receiving? && s.down != [] {
      a := ChildRead;
    } else if s.server.Replying? {
      a := ServerWrite;
    } else if s.up != [] {
      a := ServerRead;
    } else {
      a := ChildWrite;
    }
  }

  lemma FreshFd(s: Sys) returns (fd: Fd)
    ensures Unused(s, fd)
  {
    fd := Above(s.childFds + s.serverFds + Carried(s.down));
    assert WithFd(fd) in s.down ==> fd in Carried(s.down);
  }

  lemma {:induction false} Above(used: set<Fd>) returns (fd: Fd)
    ensures forall x | x in used :: x < fd
    decreases used
  {
    if used == {} {
      fd := 0;
    } else {
      var x :| x in used;
      var y := Above(used - {x});
      fd := if x < y then y else x + 1;
      assert forall z | z in used :: z == x || z in used - {x};
    }
  }

  /** What is left to do: first in the request, then in the reply. */
  function WorkLeft(s: Sys): (nat, nat) {
    var closing := if s.server.Replying? then 1 else 0;
    if s.child.ChildDead? then (0, 0)
    else if s.child.Idle? || s.answer.Some? then (0, 2 * |Unsent(s.server)| + |s.down| + closing)
    else
      var unsent := if s.child.Sending? then |s.child.rest| else 0;
      var executing := if s.server.Executing? then 1 else 0;
      var alive := if s.server.ServerDead? then 0 else 1;
      (1, 3 * unsent + 2 * |s.up| + executing + closing + alive + 1)
  }

  predicate Less(x: (nat, nat), y: (nat, nat)) {
    x.0 < y.0 || (x.0 == y.0 && x.1 < y.1)
  }

  /** Every step but a new call leaves less to do. */
  lemma StepsMakeProgress(cfg: Config, capacity: nat, s: Sys, a: Action)
    requires Inv(cfg, s) && Enabled(cfg, capacity, s, a) && !a.CallStub?
    ensures Less(WorkLeft(Apply(cfg, capacity, s, a)), WorkLeft(s))
  {
    match a
    case ServerRead =>
    case ServerExec(env) =>
    case ChildRead =>
    case _ =>
  }

  predicate InnerStep(cfg: Config, capacity: nat, s: Sys, s': Sys, a: Action) {
    && Inv(cfg, s) && Enabled(cfg, capacity, s, a) && !a.CallStub?
    && s' == Apply(cfg, capacity, s, a)
  }

  /** No schedule runs for ever without a new call: with NeverStuck, every call returns, or the
      session goes down. */
  lemma {:induction false} CallsEnd(cfg: Config, capacity: nat, schedule: nat -> (Sys, Action), from: nat)
    requires Inv(cfg, schedule(from).0)
    ensures exists i: nat :: i >= from && !InnerStep(cfg, capacity, schedule(i).0, schedule(i + 1).0, schedule(i).1)
    decreases WorkLeft(schedule(from).0).0, WorkLeft(schedule(from).0).1
  {
    var (s, a) := schedule(from);
    if InnerStep(cfg, capacity, s, schedule(from + 1).0, a) {
      StepRefines(cfg, capacity, s, a);
      StepsMakeProgress(cfg, capacity, s, a);
      CallsEnd(cfg, capacity, schedule, from + 1);
    }
  }
}
