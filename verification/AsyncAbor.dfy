/** A call made by a signal handler while another one is outstanding.  The handler for SIGURG, put in
    place by `async_abor_enable`, reads a command line when there is a data connection; the
    handlers run after every read and write of the stubs; and with an SSL slave the command
    line comes over the same stream as the answer the interrupted stub waits for. */
module AsyncAbor {
  import opened Bytes
  import opened PrivSock
  import opened PrivOps
  import opened TwoProcess

  datatype Exchange = Exchange(req: Request, reply: Reply)

  datatype Return = Return(number: nat, req: Request, ret: Ret)

  /** The two processes; the call that was interrupted, with its number; the number of the one under way
      and of the next; what the server has served and the stubs have returned, in order. */
  datatype Nest = Nest(sys: Sys, outer: Option<(nat, Child)>, number: nat, begun: nat,
                       served: seq<Exchange>, returned: seq<Return>)

  datatype Move = Step(a: Action) | Interrupt(req: Request, who: Caller)

  /** The stub has made a system call. */
  predicate InFlight(child: Child) {
    child.Receiving? || (child.Sending? && Sized(child.req) && child.rest != RequestWire(child.req))
  }

  /** There may be a data connection during the call: only the reading of a command is outside one. */
  predicate DataOpen(child: Child)
    requires InFlight(child)
  {
    !child.req.GetUserCmd?
  }

  /** What the handler asks for: a command line, and then perhaps the writing of a reply. */
  predicate AskedByHandler(r: Request) {
    r.GetUserCmd? || r.WriteUserResp?
  }

  predicate CanStep(cfg: Config, capacity: nat, s: Sys, a: Action) {
    && Enabled(cfg, capacity, s, a) && (s.helper.Passive? <==> cfg.role.Parent?)
    && (s.server.Executing? ==> Serves(cfg.role, s.server.req))
  }

  predicate May(cfg: Config, capacity: nat, async: bool, n: Nest, m: Move) {
    match m
    case Step(a) => CanStep(cfg, capacity, n.sys, a)
    case Interrupt(r, who) =>
      && async && cfg.role.Slave? && n.outer.None? && InFlight(n.sys.child) && DataOpen(n.sys.child)
      && AskedByHandler(r) && Callable(cfg, n.sys, r, who)
  }

  function Do(cfg: Config, capacity: nat, async: bool, n: Nest, m: Move): Nest
    requires May(cfg, capacity, async, n, m)
  {
    match m
    case Interrupt(r, who) =>
      n.(sys := n.sys.(child := Sending(r, who, RequestWire(r))), outer := Some((n.number, n.sys.child)),
         number := n.begun, begun := n.begun + 1)
    case Step(a) =>
      var n' := n.(sys := Apply(cfg, capacity, n.sys, a));
      if a.CallStub? then n'.(number := n.begun, begun := n.begun + 1)
      else if a.ServerExec? && n'.sys.server.Replying? then
        n'.(served := n.served + [Exchange(n.sys.server.req, n'.sys.answer.value)])
      else if a.ChildRead? && n'.sys.child.Idle? then
        Resumed(n'.(returned := n.returned + [Return(n.number, n.sys.child.req, n'.sys.last)]))
      else n'
  }

  /** A handler's call is over: the one it interrupted goes on. */
  function Resumed(n: Nest): Nest {
    match n.outer
    case None => n
    case Some((number, child)) => n.(sys := n.sys.(child := child), outer := None, number := number)
  }

  predicate Fresh(cfg: Config, n: Nest) {
    Start(cfg, n.sys) && n.outer.None? && n.begun == 0 && n.served == [] && n.returned == []
  }

  function RunOf(cfg: Config, capacity: nat, async: bool, n: Nest, moves: seq<Move>): Option<Nest> {
    if moves == [] then Some(n)
    else match RunOf(cfg, capacity, async, n, moves[..|moves| - 1])
      case None => None
      case Some(x) =>
        var m := moves[|moves| - 1];
        if May(cfg, capacity, async, x, m) then Some(Do(cfg, capacity, async, x, m)) else None
  }

  /** The call was served, and its stub returned what it was served. */
  predicate OwnAnswer(served: seq<Exchange>, r: Return) {
    && r.number < |served| && served[r.number].req == r.req
    && r.ret == StubReturn(r.req, served[r.number].reply)
  }

  predicate OwnAnswers(n: Nest) {
    forall i | 0 <= i < |n.returned| :: OwnAnswer(n.served, n.returned[i])
  }

  // ----- without interruption

  function Unserved(s: Sys): nat {
    if s.child.Sending? || (s.child.Receiving? && s.answer.None?) then 1 else 0
  }

  predicate Tracked(cfg: Config, n: Nest) {
    && Inv(cfg, n.sys) && n.outer.None? && OwnAnswers(n)
    && (!n.sys.child.ChildDead? ==> |n.served| + Unserved(n.sys) == n.begun)
    && (n.sys.child.Sending? || n.sys.child.Receiving? ==> n.number + 1 == n.begun)
    && (n.sys.child.Receiving? && n.sys.answer.Some? ==>
          n.served[n.number] == Exchange(n.sys.child.req, n.sys.answer.value))
  }

  lemma ServedMore(n: Nest, more: seq<Exchange>)
    requires OwnAnswers(n)
    ensures OwnAnswers(n.(served := n.served + more))
  {
  }

  lemma ExecTracked(cfg: Config, capacity: nat, async: bool, n: Nest, env: Env)
    requires Tracked(cfg, n) && May(cfg, capacity, async, n, Step(ServerExec(env)))
    ensures Tracked(cfg, Do(cfg, capacity, async, n, Step(ServerExec(env))))
  {
    var n' := Do(cfg, capacity, async, n, Step(ServerExec(env)));
    StepRefines(cfg, capacity, n.sys, ServerExec(env));
    ExecKeeps(cfg, n.sys, env);
    if n'.sys.server.Replying? {
      ServedMore(n, [Exchange(n.sys.server.req, n'.sys.answer.value)]);
    }
  }

  /** A stub that is not interrupted ends with the answer the server gave it. */
  lemma ReadTracked(cfg: Config, capacity: nat, async: bool, n: Nest)
    requires Tracked(cfg, n) && May(cfg, capacity, async, n, Step(ChildRead))
    ensures Tracked(cfg, Do(cfg, capacity, async, n, Step(ChildRead)))
  {
    var s := n.sys;
    StepRefines(cfg, capacity, s, ChildRead);
    ChildReadFrames(s, Message(cfg, s));
    var left := s.down[1..] + Unsent(s.server);
    ChildReadParses(s.child.req, s.child.who, s.answer.value, s.child.got + [s.down[0]], left);
  }

  lemma StepTracked(cfg: Config, capacity: nat, async: bool, n: Nest, a: Action)
    requires Tracked(cfg, n) && May(cfg, capacity, async, n, Step(a))
    ensures Tracked(cfg, Do(cfg, capacity, async, n, Step(a)))
  {
    match a
    case ServerExec(env) => ExecTracked(cfg, capacity, async, n, env);
    case ChildRead => ReadTracked(cfg, capacity, async, n);
    case _ => OtherTracked(cfg, capacity, async, n, a);
  }

  lemma OtherTracked(cfg: Config, capacity: nat, async: bool, n: Nest, a: Action)
    requires Tracked(cfg, n) && May(cfg, capacity, async, n, Step(a)) && !a.ServerExec? && !a.ChildRead?
    ensures Tracked(cfg, Do(cfg, capacity, async, n, Step(a)))
  {
    StepRefines(cfg, capacity, n.sys, a);
  }

  /** In every run in which no handler makes a call, every stub gets its own answer. */
  lemma {:induction false} UninterruptedOwn(cfg: Config, capacity: nat, async: bool, n: Nest, moves: seq<Move>)
    requires Fresh(cfg, n) && RunOf(cfg, capacity, async, n, moves).Some?
    requires forall i | 0 <= i < |moves| :: moves[i].Step?
    ensures Tracked(cfg, RunOf(cfg, capacity, async, n, moves).value)
  {
    if moves != [] {
      var k := |moves| - 1;
      UninterruptedOwn(cfg, capacity, async, n, moves[..k]);
      StepTracked(cfg, capacity, async, RunOf(cfg, capacity, async, n, moves[..k]).value, moves[k].a);
    }
  }

  lemma {:induction false} NoInterrupts(cfg: Config, capacity: nat, async: bool, n: Nest, moves: seq<Move>, i: nat)
    requires RunOf(cfg, capacity, async, n, moves).Some? && i < |moves| && !(async && cfg.role.Slave?)
    ensures moves[i].Step?
  {
    if i < |moves| - 1 {
      NoInterrupts(cfg, capacity, async, n, moves[..|moves| - 1], i);
    }
  }

  // ----- with it

  lemma Extend(cfg: Config, capacity: nat, async: bool, n: Nest, moves: seq<Move>, m: Move)
    requires RunOf(cfg, capacity, async, n, moves).Some?
    requires May(cfg, capacity, async, RunOf(cfg, capacity, async, n, moves).value, m)
    ensures RunOf(cfg, capacity, async, n, moves + [m]) ==
            Some(Do(cfg, capacity, async, RunOf(cfg, capacity, async, n, moves).value, m))
  {
    assert (moves + [m])[..|moves|] == moves;
  }

  /** `moves` lead from `n` to `x`. */
  predicate Leads(cfg: Config, capacity: nat, n: Nest, moves: seq<Move>, x: Nest) {
    RunOf(cfg, capacity, true, n, moves) == Some(x)
  }

  lemma Then(cfg: Config, capacity: nat, n: Nest, moves: seq<Move>, x: Nest, m: Move) returns (all: seq<Move>)
    requires Leads(cfg, capacity, n, moves, x) && May(cfg, capacity, true, x, m)
    ensures Leads(cfg, capacity, n, all, Do(cfg, capacity, true, x, m))
  {
    Extend(cfg, capacity, true, n, moves, m);
    all := moves + [m];
  }

  /** The request under way has gone over. */
  function Requested(x: Nest): Nest
    requires x.sys.child.Sending?
  {
    x.(sys := x.sys.(child := Receiving(x.sys.child.req, x.sys.child.who, []), server := Executing(x.sys.child.req)))
  }

  /** One more item of the request has gone over. */
  function ItemOver(cfg: Config, x: Nest): Nest
    requires x.sys.child.Sending? && x.sys.child.rest != [] && x.sys.server.Reading?
  {
    var c := x.sys.child;
    var rest := c.rest[1..];
    x.(sys := x.sys.(child := if rest == [] then Receiving(c.req, c.who, []) else c.(rest := rest),
                     server := ServerGot(cfg, x.sys.server.got + [c.rest[0]])))
  }

  lemma PassItem(cfg: Config, capacity: nat, n: Nest, moves: seq<Move>, x: Nest) returns (all: seq<Move>)
    requires Leads(cfg, capacity, n, moves, x) && capacity >= 1 && (x.sys.helper.Passive? <==> cfg.role.Parent?)
    requires x.sys.child.Sending? && x.sys.child.rest != [] && x.sys.server.Reading? && x.sys.up == []
    ensures Leads(cfg, capacity, n, all, ItemOver(cfg, x))
  {
    all := Then(cfg, capacity, n, moves, x, Step(ChildWrite));
    var sent := Do(cfg, capacity, true, x, Step(ChildWrite));
    assert sent.sys.up == [x.sys.child.rest[0]];
    all := Then(cfg, capacity, n, all, sent, Step(ServerRead));
    assert sent.sys.up[1..] == [];
    assert Do(cfg, capacity, true, sent, Step(ServerRead)) == ItemOver(cfg, x);
  }

  lemma {:induction false} PassRequest(cfg: Config, capacity: nat, n: Nest, moves: seq<Move>, x: Nest)
      returns (all: seq<Move>)
    requires Leads(cfg, capacity, n, moves, x) && capacity >= 1 && (x.sys.helper.Passive? <==> cfg.role.Parent?)
    requires x.sys.child.Sending? && x.sys.child.rest != [] && x.sys.server.Reading? && x.sys.up == []
    requires Sized(x.sys.child.req) && Serves(cfg.role, x.sys.child.req)
    requires x.sys.server.got + x.sys.child.rest == RequestWire(x.sys.child.req)
    ensures Leads(cfg, capacity, n, all, Requested(x))
    decreases |x.sys.child.rest|
  {
    var c, got := x.sys.child, x.sys.server.got;
    assert got + [c.rest[0]] + c.rest[1..] == got + c.rest;
    ServerReadParses(cfg, c.req, got + [c.rest[0]], c.rest[1..]);
    all := PassItem(cfg, capacity, n, moves, x);
    if |c.rest| > 1 {
      all := PassRequest(cfg, capacity, n, all, ItemOver(cfg, x));
    }
  }

  /** The answer on its way has come over, and is taken for the answer to the call under way. */
  function Answered(x: Nest, a: Reply): Nest
    requires x.sys.child.Receiving? && x.sys.server.Replying? && !a.ResultFd?
  {
    var ret := StubReturn(x.sys.child.req, a);
    Resumed(x.(sys := x.sys.(child := Idle, last := ret, answer := None, down := [],
                             server := x.sys.server.(rest := [])),
               returned := x.returned + [Return(x.number, x.sys.child.req, ret)]))
  }

  /** One more item of the answer has come over, and there are more to come. */
  function ItemBack(x: Nest): Nest
    requires x.sys.child.Receiving? && x.sys.server.Replying? && x.sys.server.rest != []
  {
    var c, from := x.sys.child, x.sys.server;
    x.(sys := x.sys.(down := [], child := c.(got := c.got + [from.rest[0]]), server := from.(rest := from.rest[1..])))
  }

  lemma PassBack(cfg: Config, capacity: nat, n: Nest, moves: seq<Move>, x: Nest) returns (all: seq<Move>)
    requires Leads(cfg, capacity, n, moves, x) && capacity >= 1 && (x.sys.helper.Passive? <==> cfg.role.Parent?)
    requires x.sys.child.Receiving? && x.sys.server.Replying? && x.sys.server.rest != [] && x.sys.down == []
    ensures var c, head := x.sys.child, x.sys.server.rest[0];
            match ReadReply(c.req, c.who.room, c.got + [head])
            case More => Leads(cfg, capacity, n, all, ItemBack(x))
            case Got(a) => x.sys.server.rest[1..] == [] && !a.ResultFd? ==> Leads(cfg, capacity, n, all, Answered(x, a))
            case Bad => true
  {
    all := Then(cfg, capacity, n, moves, x, Step(ServerWrite));
    var sent := Do(cfg, capacity, true, x, Step(ServerWrite));
    assert sent.sys.down == [x.sys.server.rest[0]] && sent.sys.down[1..] == [];
    all := Then(cfg, capacity, n, all, sent, Step(ChildRead));
    assert x.sys.childFds + {} == x.sys.childFds;
  }

  lemma {:induction false} PassReply(cfg: Config, capacity: nat, n: Nest, moves: seq<Move>, x: Nest, a: Reply)
      returns (all: seq<Move>)
    requires Leads(cfg, capacity, n, moves, x) && capacity >= 1 && (x.sys.helper.Passive? <==> cfg.role.Parent?)
    requires x.sys.child.Receiving? && x.sys.server.Replying? && x.sys.server.rest != [] && x.sys.down == []
    requires Answers(x.sys.child.req, x.sys.child.who.room, a) && !a.ResultFd?
    requires x.sys.child.got + x.sys.server.rest == ReplyWire(a)
    ensures Leads(cfg, capacity, n, all, Answered(x, a))
    decreases |x.sys.server.rest|
  {
    var c, rest := x.sys.child, x.sys.server.rest;
    assert c.got + [rest[0]] + rest[1..] == c.got + rest;
    ChildReadParses(c.req, c.who, a, c.got + [rest[0]], rest[1..]);
    all := PassBack(cfg, capacity, n, moves, x);
    if |rest| > 1 {
      all := PassReply(cfg, capacity, n, all, ItemBack(x), a);
    }
  }

  /** The state after the server carried out a request, and the step. */
  function CarriedOut(x: Nest, o: Outcome): Nest
    requires x.sys.server.Executing? && o.Served? && (o.reply.NumberText? ==> |o.reply.text| < 0x8000_0000)
  {
    x.(sys := AfterServe(x.sys, o, ReplyWire(o.reply)), served := x.served + [Exchange(x.sys.server.req, o.reply)])
  }

  lemma CarryOut(cfg: Config, capacity: nat, n: Nest, moves: seq<Move>, x: Nest, env: Env) returns (all: seq<Move>)
    requires Leads(cfg, capacity, n, moves, x) && (x.sys.helper.Passive? <==> cfg.role.Parent?)
    requires x.sys.server.Executing? && Serves(cfg.role, x.sys.server.req)
    requires Honest(x.sys.server.req, env) && Unused(x.sys, env.fd)
    requires Serve(cfg, x.sys.helper, x.sys.serverFds, x.sys.server.req, env).Served?
    requires var o := Serve(cfg, x.sys.helper, x.sys.serverFds, x.sys.server.req, env);
             o.reply.NumberText? ==> |o.reply.text| < 0x8000_0000
    ensures Leads(cfg, capacity, n, all,
                  CarriedOut(x, Serve(cfg, x.sys.helper, x.sys.serverFds, x.sys.server.req, env)))
  {
    all := Then(cfg, capacity, n, moves, x, Step(ServerExec(env)));
  }

  /** The answer to the call under way: the server has it on its way, and nothing is in the stream. */
  predicate Carrying(cfg: Config, x: Nest, a: Reply) {
    && (a.NumberText? ==> |a.text| < 0x8000_0000)
    && x.sys.server == Replying(ReplyWire(a), None) && x.sys.down == [] && (x.sys.helper.Passive? <==> cfg.role.Parent?)
    && x.sys.child.Receiving? && x.sys.child.got == [] && Answers(x.sys.child.req, x.sys.child.who.room, a)
  }

  /** The answer comes over, and the server is ready for the next request. */
  lemma AnswerAndClose(cfg: Config, capacity: nat, n: Nest, moves: seq<Move>, x: Nest, a: Reply)
      returns (all: seq<Move>)
    requires Leads(cfg, capacity, n, moves, x) && capacity >= 1
    requires !a.ResultFd? && Carrying(cfg, x, a)
    ensures Leads(cfg, capacity, n, all, Answered(x, a).(sys := AfterClose(Answered(x, a).sys)))
  {
    ReplyCarries(a);
    assert [] + ReplyWire(a) == ReplyWire(a);
    all := PassReply(cfg, capacity, n, moves, x, a);
    all := Then(cfg, capacity, n, all, Answered(x, a), Step(ServerClose));
  }

  function Begun(y: Nest, r: Request, who: Caller): Nest
    requires Sized(r)
  {
    y.(sys := y.sys.(child := Sending(r, who, RequestWire(r))), number := y.begun, begun := y.begun + 1)
  }

  lemma EmptyBefore(w: Wire)
    ensures [] + w == w
  {
  }

  lemma Begin(cfg: Config, capacity: nat, n: Nest, moves: seq<Move>, y: Nest, r: Request, who: Caller)
      returns (all: seq<Move>)
    requires Leads(cfg, capacity, n, moves, y) && (y.sys.helper.Passive? <==> cfg.role.Parent?)
    requires y.sys.child.Idle? && !y.sys.server.Executing? && Callable(cfg, y.sys, r, who)
    ensures Leads(cfg, capacity, n, all, Begun(y, r, who))
  {
    all := Then(cfg, capacity, n, moves, y, Step(CallStub(r, who)));
  }

  /** A whole call, uninterrupted. */
  lemma Handshaken(cfg: Config, capacity: nat, n: Nest, fd: Fd, who: Caller) returns (all: seq<Move>, y: Nest)
    requires Fresh(cfg, n) && cfg.role.Slave? && capacity >= 1 && fd in n.sys.childFds && who.room >= DATA_BUF
    ensures Leads(cfg, capacity, n, all, y) && y.outer.None? && y.begun == 1
    ensures y.sys.child.Idle? && y.sys.server == Reading([]) && y.sys.up == [] && y.sys.down == []
    ensures y.sys.helper.Ssl? && y.sys.helper.up && y.sys.helper.alloc > DATA_BUF
    ensures y.served == [Exchange(SslHandshake(fd), Result(true))]
    ensures y.returned == [Return(0, SslHandshake(fd), Int(1))]
  {
    var spare := FreshFd(n.sys);
    var env := Env(spare, None, {}, false, false, true, false, 0, []);
    var r := SslHandshake(fd);
    all := Begin(cfg, capacity, n, [], n, r, who);
    y := Begun(n, r, who);
    assert [] + y.sys.child.rest == RequestWire(r);
    all := PassRequest(cfg, capacity, n, all, y);
    y := Requested(y);
    all := CarryOut(cfg, capacity, n, all, y, env);
    y := CarriedOut(y, Serve(cfg, y.sys.helper, y.sys.serverFds, r, env));
    all := AnswerAndClose(cfg, capacity, n, all, y, Result(true));
    y := Answered(y, Result(true));
    y := y.(sys := AfterClose(y.sys));
  }

  /** A read of the data connection is under way in the slave. */
  lemma ReadUnderWay(cfg: Config, capacity: nat, n: Nest, moves: seq<Move>, y: Nest, who: Caller)
      returns (all: seq<Move>)
    requires Leads(cfg, capacity, n, moves, y) && cfg.role.Slave? && capacity >= 1 && who.room >= DATA_BUF
    requires y.outer.None? && y.sys.child.Idle? && y.sys.server == Reading([]) && y.sys.up == [] && y.sys.helper.Ssl?
    ensures Leads(cfg, capacity, n, all, Requested(Begun(y, SslRead, who)))
  {
    all := Begin(cfg, capacity, n, moves, y, SslRead, who);
    EmptyBefore(RequestWire(SslRead));
    all := PassRequest(cfg, capacity, n, all, Begun(y, SslRead, who));
  }

  lemma SendLast(cfg: Config, capacity: nat, n: Nest, moves: seq<Move>, x: Nest, item: Item) returns (all: seq<Move>)
    requires Leads(cfg, capacity, n, moves, x) && capacity >= 1 && (x.sys.helper.Passive? <==> cfg.role.Parent?)
    requires x.sys.child.Sending? && x.sys.child.rest == [item] && x.sys.up == []
    requires x.sys.server.Executing? && Serves(cfg.role, x.sys.server.req)
    ensures Leads(cfg, capacity, n, all,
                  x.(sys := x.sys.(child := Receiving(x.sys.child.req, x.sys.child.who, []), up := [item])))
  {
    all := Then(cfg, capacity, n, moves, x, Step(ChildWrite));
    assert [item][1..] == [] && [] + [item] == [item];
  }

  /** The handler's call has begun. */
  function InHandler(x: Nest, who: Caller): Nest {
    x.(sys := x.sys.(child := Sending(GetUserCmd, who, [Plain(4)])),
       outer := Some((x.number, x.sys.child)), number := x.begun, begun := x.begun + 1)
  }

  lemma MayInterrupt(cfg: Config, capacity: nat, x: Nest, who: Caller)
    requires cfg.role.Slave? && who.room >= DATA_BUF && x.outer.None?
    requires x.sys.child.Receiving? && x.sys.child.req == SslRead
    ensures May(cfg, capacity, true, x, Interrupt(GetUserCmd, who))
    ensures Do(cfg, capacity, true, x, Interrupt(GetUserCmd, who)) == InHandler(x, who)
  {
    assert RequestWire(GetUserCmd) == [Plain(4)];
  }

  /** The handler interrupts it, and its own request goes into the stream behind. */
  lemma Interrupted(cfg: Config, capacity: nat, n: Nest, moves: seq<Move>, x: Nest, who: Caller)
      returns (all: seq<Move>)
    requires Leads(cfg, capacity, n, moves, x) && cfg.role.Slave? && who.room >= DATA_BUF
    requires x.outer.None? && x.sys.child.Receiving? && x.sys.child.req == SslRead
    ensures Leads(cfg, capacity, n, all, InHandler(x, who))
  {
    MayInterrupt(cfg, capacity, x, who);
    all := Then(cfg, capacity, n, moves, x, Interrupt(GetUserCmd, who));
  }

  /** The server answers whatever request it has, and the call under way takes that for its answer. */
  lemma Misled(cfg: Config, capacity: nat, n: Nest, moves: seq<Move>, x: Nest, env: Env, a: Reply)
      returns (all: seq<Move>, y: Nest)
    requires Leads(cfg, capacity, n, moves, x) && cfg.role.Slave? && capacity >= 1 && x.sys.helper.Ssl?
    requires x.sys.server.Executing? && Serves(cfg.role, x.sys.server.req) && x.sys.down == []
    requires Honest(x.sys.server.req, env) && Unused(x.sys, env.fd)
    requires a.NumberText? && |a.text| < 0x8000_0000
    requires Serve(cfg, x.sys.helper, x.sys.serverFds, x.sys.server.req, env)
             == Served(x.sys.helper, x.sys.serverFds, a, None)
    requires x.sys.child.Receiving? && x.sys.child.got == [] && Answers(x.sys.child.req, x.sys.child.who.room, a)
    ensures Leads(cfg, capacity, n, all, y)
    ensures y == Resumed(x.(sys := y.sys.(child := Idle), served := x.served + [Exchange(x.sys.server.req, a)],
                            returned := x.returned + [Return(x.number, x.sys.child.req, IntText(a.v, a.text))]))
    ensures y.sys.server == Reading([]) && y.sys.down == [] && y.sys.up == x.sys.up && y.sys.helper == x.sys.helper
    ensures y.sys.childFds == x.sys.childFds && y.sys.serverFds == x.sys.serverFds
  {
    all := CarryOut(cfg, capacity, n, moves, x, env);
    var o := Served(x.sys.helper, x.sys.serverFds, a, None);
    y := CarriedOut(x, o);
    all := AnswerAndClose(cfg, capacity, n, all, y, a);
    y := Answered(y, a);
    y := y.(sys := AfterClose(y.sys));
  }

  /** The request left in the stream is read. */
  lemma LeftOverRead(cfg: Config, capacity: nat, n: Nest, moves: seq<Move>, x: Nest) returns (all: seq<Move>)
    requires Leads(cfg, capacity, n, moves, x) && cfg.role.Slave? && x.sys.helper.Ssl?
    requires x.sys.server == Reading([]) && x.sys.up == [Plain(4)]
    ensures Leads(cfg, capacity, n, all, x.(sys := x.sys.(up := [], server := Executing(GetUserCmd))))
  {
    all := Then(cfg, capacity, n, moves, x, Step(ServerRead));
    assert [] + [Plain(4)] == [Plain(4)] && [Plain(4)][1..] == [];
  }

  /** With an SSL slave and asynchronous aborts: a handler that interrupts a read of file data is given
      the data for its command line, and the read is given the command line for data. */
  lemma DataForCommand(cfg: Config, capacity: nat, n: Nest, fd: Fd, who: Caller, data: Str, line: Str)
      returns (moves: seq<Move>, z: Nest)
    requires Fresh(cfg, n) && cfg.role.Slave? && capacity >= 1 && fd in n.sys.childFds && who.room >= DATA_BUF
    requires |data| <= DATA_BUF && |line| <= 4096
    ensures RunOf(cfg, capacity, true, n, moves) == Some(z)
    ensures z.served == [Exchange(SslHandshake(fd), Result(true)), Exchange(SslRead, NumberText(|data|, data)),
                         Exchange(GetUserCmd, NumberText(|line|, line))]
    ensures z.returned == [Return(0, SslHandshake(fd), Int(1)), Return(2, GetUserCmd, IntText(|data|, data)),
                           Return(1, SslRead, IntText(|line|, line))]
  {
    moves, z := Handshaken(cfg, capacity, n, fd, who);
    moves := ReadUnderWay(cfg, capacity, n, moves, z, who);
    z := Requested(Begun(z, SslRead, who));
    moves := Interrupted(cfg, capacity, n, moves, z, who);
    moves := SendLast(cfg, capacity, n, moves, InHandler(z, who), Plain(4));
    z := z.(sys := z.sys.(child := Receiving(GetUserCmd, who, []), up := [Plain(4)]),
            outer := Some((1, Receiving(SslRead, who, []))), number := 2, begun := 3);
    var spare := FreshFd(z.sys);
    moves, z := Misled(cfg, capacity, n, moves, z, Env(spare, None, {}, false, false, true, false, |data|, data),
                       NumberText(|data|, data));
    moves := LeftOverRead(cfg, capacity, n, moves, z);
    z := z.(sys := z.sys.(up := [], server := Executing(GetUserCmd)));
    spare := FreshFd(z.sys);
    moves, z := Misled(cfg, capacity, n, moves, z, Env(spare, None, {}, false, false, true, false, |line|, line),
                       NumberText(|line|, line));
  }

  predicate AlwaysOwn(cfg: Config, capacity: nat, async: bool, n: Nest, moves: seq<Move>) {
    var x := RunOf(cfg, capacity, async, n, moves);
    x.Some? ==> OwnAnswers(x.value)
  }

  lemma NotItsOwn(cfg: Config, capacity: nat) returns (n: Nest, moves: seq<Move>)
    requires cfg.role.Slave? && capacity >= 1
    ensures Fresh(cfg, n) && !AlwaysOwn(cfg, capacity, true, n, moves)
  {
    var start := Sys(Idle, Reading([]), [], [], Ssl(None, false, DATA_BUF + 1), {3}, {}, None, Nothing);
    var z;
    n := Nest(start, None, 0, 0, [], []);
    moves, z := DataForCommand(cfg, capacity, n, 3, Caller(DATA_BUF, 0), [1], [2]);
    assert !OwnAnswer(z.served, z.returned[1]);
  }

  /** Every stub gets its own answer in every run if and only if a handler cannot make a call while one is
      outstanding: unless asynchronous aborts are enabled in a session with an SSL slave. */
  lemma OwnAnswersExact(cfg: Config, capacity: nat, async: bool)
    requires capacity >= 1
    ensures (forall n: Nest, moves: seq<Move> | Fresh(cfg, n) :: AlwaysOwn(cfg, capacity, async, n, moves))
            <==> !(async && cfg.role.Slave?)
  {
    if async && cfg.role.Slave? {
      var n, moves := NotItsOwn(cfg, capacity);
    } else {
      forall n: Nest, moves: seq<Move> | Fresh(cfg, n)
        ensures AlwaysOwn(cfg, capacity, async, n, moves)
      {
        OwnWithout(cfg, capacity, async, n, moves);
      }
    }
  }

  lemma OwnWithout(cfg: Config, capacity: nat, async: bool, n: Nest, moves: seq<Move>)
    requires Fresh(cfg, n) && !(async && cfg.role.Slave?)
    ensures AlwaysOwn(cfg, capacity, async, n, moves)
  {
    if RunOf(cfg, capacity, async, n, moves).Some? {
      forall i | 0 <= i < |moves|
        ensures moves[i].Step?
      {
        NoInterrupts(cfg, capacity, async, n, moves, i);
      }
      UninterruptedOwn(cfg, capacity, async, n, moves);
    }
  }
}
