/** What holds over every run of the command loop, however long, and whatever the outside decides. */
module SessionRuns {
  import opened Bytes
  import opened PrivSock
  import opened PrivOps
  import opened Session

  datatype Turn = Turn(c: Command, w: World)

  function RunFrom(t: Tunables, v: View, turns: seq<Turn>): View {
    if turns == [] then v
    else
      var before, last := RunFrom(t, v, turns[..|turns| - 1]), turns[|turns| - 1];
      After(t, before, last.c, last.w)
  }

  function LinesFrom(t: Tunables, v: View, turns: seq<Turn>): seq<LogLine> {
    if turns == [] then []
    else
      var n := |turns| - 1;
      LinesFrom(t, v, turns[..n]) + Logged(t, RunFrom(t, v, turns[..n]), turns[n].c, turns[n].w)
  }

  function Listening(m: Mode): set<Fd> {
    if m.Passive? then {m.fd} else {}
  }

  predicate FreshAt(t: Tunables, v: View, turns: seq<Turn>, n: nat)
    requires n < |turns|
  {
    FreshFds(turns[n].w, Listening(RunFrom(t, v, turns[..n]).mode))
  }

  /** In every turn the system hands out descriptors that are not in use. */
  predicate Plausible(t: Tunables, v: View, turns: seq<Turn>) {
    forall n {:trigger FreshAt(t, v, turns, n)} | 0 <= n < |turns| :: FreshAt(t, v, turns, n)
  }

  lemma OneTurnMore(t: Tunables, v: View, turns: seq<Turn>, n: nat)
    requires n < |turns|
    ensures var before := RunFrom(t, v, turns[..n]);
            && RunFrom(t, v, turns[..n + 1]) == After(t, before, turns[n].c, turns[n].w)
            && LinesFrom(t, v, turns[..n + 1]) ==
               LinesFrom(t, v, turns[..n]) + Logged(t, before, turns[n].c, turns[n].w)
  {
    assert turns[..n + 1][..n] == turns[..n];
  }

  /** The command loop: until the process ends every turn does what it should, and no guard is hit. */
  method PostLogin(s: Session, turns: seq<Turn>) returns (served: nat)
    requires s.Between() && Plausible(s.t, View(s.conn.AsMode(), s.prefs), turns)
    modifies s
    ensures var v := View(old(s.conn.AsMode()), old(s.prefs));
            && served <= |turns|
            && (s.alive ==> && served == |turns| && s.Between()
                            && View(s.conn.AsMode(), s.prefs) == RunFrom(s.t, v, turns)
                            && s.log == old(s.log) + LinesFrom(s.t, v, turns))
            && (!s.alive ==> served < |turns|
                             && Ends(s.t, RunFrom(s.t, v, turns[..served]), turns[served].c, turns[served].w))
  {
    ghost var v, log := View(s.conn.AsMode(), s.prefs), s.log;
    ghost var now, lines := v, [];
    served := 0;
    while served < |turns|
      invariant 0 <= served <= |turns| && s.Between()
      invariant View(s.conn.AsMode(), s.prefs) == now == RunFrom(s.t, v, turns[..served])
      invariant s.log == log + lines && lines == LinesFrom(s.t, v, turns[..served])
    {
      var turn := turns[served];
      assert FreshFds(turn.w, s.conn.open) by {
        assert FreshAt(s.t, v, turns, served) && Listening(s.conn.AsMode()) == s.conn.open;
      }
      s.Execute(turn.c, turn.w);
      if !s.alive {
        return;
      }
      OneTurnMore(s.t, v, turns, served);
      now, lines := After(s.t, now, turn.c, turn.w), lines + Logged(s.t, now, turn.c, turn.w);
      served := served + 1;
    }
    assert turns[..served] == turns;
  }

  // ----- one mode, one connection

  /** The command is answered with a port to connect to, or with the promise to connect. */
  predicate Grants(t: Tunables, v: View, c: Command, w: World) {
    || Listens(t, v, c, w)
    || (c.Port? && w.permitted && t.portEnable && !v.prefs.epsvAll && Aimed(t, c.target).Active?)
    || (c.Eprt? && w.permitted && t.portEnable && Aimed(t, c.target).Active?)
  }

  function GrantCount(t: Tunables, v: View, turns: seq<Turn>): nat {
    if turns == [] then 0
    else
      var n := |turns| - 1;
      GrantCount(t, v, turns[..n]) + if Grants(t, RunFrom(t, v, turns[..n]), turns[n].c, turns[n].w) then 1 else 0
  }

  function ConnectionCount(t: Tunables, v: View, turns: seq<Turn>): nat {
    if turns == [] then 0
    else
      var n := |turns| - 1;
      ConnectionCount(t, v, turns[..n]) + if Reaches(t, RunFrom(t, v, turns[..n]), turns[n].c, turns[n].w) then 1 else 0
  }

  /** Lines that log a file as moved. */
  function MovedCount(lines: seq<LogLine>): nat {
    if lines == [] then 0
    else
      var last := lines[|lines| - 1];
      MovedCount(lines[..|lines| - 1]) + if last.succeeded && (last.kind.Download? || last.kind.Upload?) then 1 else 0
  }

  function Armed(m: Mode): nat {
    if m.NoMode? then 0 else 1
  }

  lemma MovedAppend(lines: seq<LogLine>, more: seq<LogLine>)
    requires |more| <= 1
    ensures MovedCount(lines + more) == MovedCount(lines) + MovedCount(more)
  {
    if more == [] {
      assert lines + more == lines;
    } else {
      assert (lines + more)[..|lines|] == lines;
      assert more[..0] == [];
    }
  }

  lemma LoggedMoves(t: Tunables, v: View, c: Command, w: World)
    ensures |Logged(t, v, c, w)| <= 1
    ensures MovedCount(Logged(t, v, c, w)) == if Succeeds(t, v, c, w) && !c.Dir? then 1 else 0
  {
    var lines := Logged(t, v, c, w);
    if |lines| == 1 {
      assert MovedCount(lines[..0]) == 0;
    }
  }

  /** Every PASV, EPSV, PORT or EPRT that is granted serves at most one data connection, and every file
      logged as moved had a data connection of its own. */
  lemma {:induction false} OneConnectionPerGrant(t: Tunables, v: View, turns: seq<Turn>)
    ensures MovedCount(LinesFrom(t, v, turns)) <= ConnectionCount(t, v, turns)
    ensures ConnectionCount(t, v, turns) + Armed(RunFrom(t, v, turns).mode) <= GrantCount(t, v, turns) + Armed(v.mode)
  {
    if turns != [] {
      var n := |turns| - 1;
      OneConnectionPerGrant(t, v, turns[..n]);
      var before := RunFrom(t, v, turns[..n]);
      LoggedMoves(t, before, turns[n].c, turns[n].w);
      MovedAppend(LinesFrom(t, v, turns[..n]), Logged(t, before, turns[n].c, turns[n].w));
    }
  }

  // ----- where active connections go

  /** In no run does the session agree to connect anywhere but to an address that passed the checks. */
  lemma {:induction false} AimStaysChecked(t: Tunables, v: View, turns: seq<Turn>)
    requires v.mode.Active? ==> Acceptable(t, v.mode.to)
    ensures var m := RunFrom(t, v, turns).mode;
            m.Active? ==> Acceptable(t, m.to) && (t.portPromiscuous || (m.to.addr == t.peer && m.to.port >= 1024))
  {
    if turns != [] {
      AimStaysChecked(t, v, turns[..|turns| - 1]);
    }
  }

  predicate EndsAt(t: Tunables, v: View, turns: seq<Turn>, n: nat)
    requires n < |turns|
  {
    Ends(t, RunFrom(t, v, turns[..n]), turns[n].c, turns[n].w)
  }

  /** The process is there after these turns, in which the outside kept its promises. */
  predicate Survives(t: Tunables, v: View, turns: seq<Turn>) {
    Plausible(t, v, turns) && forall n {:trigger EndsAt(t, v, turns, n)} | 0 <= n < |turns| :: !EndsAt(t, v, turns, n)
  }

  /** After these turns the next one asks for the socket of an active connection to a reserved port,
      which kills the process. */
  predicate IllegalPort(t: Tunables, v: View, turns: seq<Turn>, turn: Turn) {
    var v' := RunFrom(t, v, turns);
    && Survives(t, v, turns) && FreshFds(turn.w, Listening(v'.mode)) && turn.w.arrives
    && Reaches(t, v', turn.c, turn.w) && v'.mode.Active? && IsPortReserved(v'.mode.to.port)
  }

  /** Data connections are to be had, at once or after PROT. */
  predicate MayEverTransfer(t: Tunables, v: View) {
    !t.sslEnable || !t.forceDataSsl || v.prefs.dataUseSsl || t.controlSsl
  }

  /** A client can bring that about exactly when PORT is enabled, the address checks are off, and it can
      have data connections at all. */
  lemma IllegalPortReachable(t: Tunables, v: View)
    requires v.mode.NoMode?
    ensures (exists turns: seq<Turn>, turn: Turn :: IllegalPort(t, v, turns, turn))
            <==> t.portEnable && t.portPromiscuous && MayEverTransfer(t, v)
  {
    if t.portEnable && t.portPromiscuous && MayEverTransfer(t, v) {
      AimedAtReserved(t, v);
    } else {
      forall turns: seq<Turn>, turn: Turn
        ensures !IllegalPort(t, v, turns, turn)
      {
        AimStaysChecked(t, v, turns);
        NotArmed(t, v, turns);
        DataInClear(t, v, turns);
      }
    }
  }

  /** Every step succeeds; the descriptors are new. */
  const FAIR := World(true, true, true, true, Some(3), Regular, true, true, true, true,
                      Env(4, None, {}, true, true, true, false, 0, []), Good, 0, true, false)

  lemma AimThere(t: Tunables, v: View, turns: seq<Turn>)
    requires t.portEnable && t.portPromiscuous && Survives(t, v, turns) && RunFrom(t, v, turns).mode.NoMode?
    requires !t.sslEnable || !t.forceDataSsl || RunFrom(t, v, turns).prefs.dataUseSsl
    ensures IllegalPort(t, v, turns + [Turn(Eprt(Some(Endpoint(0, 80))), FAIR)], Turn(Dir(false), FAIR))
  {
    var eprt := Turn(Eprt(Some(Endpoint(0, 80))), FAIR);
    OneSurvivedMore(t, v, turns, eprt);
    assert RunFrom(t, v, turns + [eprt]).mode == Active(Endpoint(0, 80));
  }

  lemma OneSurvivedMore(t: Tunables, v: View, turns: seq<Turn>, turn: Turn)
    requires Survives(t, v, turns) && FreshFds(turn.w, Listening(RunFrom(t, v, turns).mode))
    requires !Ends(t, RunFrom(t, v, turns), turn.c, turn.w)
    ensures Survives(t, v, turns + [turn])
    ensures RunFrom(t, v, turns + [turn]) == After(t, RunFrom(t, v, turns), turn.c, turn.w)
  {
    var all := turns + [turn];
    assert all[..|turns|] == turns;
    forall n | 0 <= n < |all|
      ensures FreshAt(t, v, all, n) && !EndsAt(t, v, all, n)
    {
      if n < |turns| {
        assert all[..n] == turns[..n] && FreshAt(t, v, turns, n) && !EndsAt(t, v, turns, n);
      }
    }
  }

  lemma AimedAtReserved(t: Tunables, v: View)
    requires v.mode.NoMode? && t.portEnable && t.portPromiscuous && MayEverTransfer(t, v)
    ensures exists turns: seq<Turn>, turn: Turn :: IllegalPort(t, v, turns, turn)
  {
    assert Survives(t, v, []);
    if MayProtect(t) {
      OneSurvivedMore(t, v, [], Turn(Prot(true), FAIR));
      AimThere(t, v, [] + [Turn(Prot(true), FAIR)]);
    } else {
      AimThere(t, v, []);
    }
  }

  lemma {:induction false} DataInClear(t: Tunables, v: View, turns: seq<Turn>)
    ensures !MayProtect(t) ==> RunFrom(t, v, turns).prefs.dataUseSsl == v.prefs.dataUseSsl
  {
    if turns != [] {
      DataInClear(t, v, turns[..|turns| - 1]);
    }
  }

  lemma {:induction false} NotArmed(t: Tunables, v: View, turns: seq<Turn>)
    requires v.mode.NoMode?
    ensures !t.portEnable ==> !RunFrom(t, v, turns).mode.Active?
  {
    if turns != [] {
      NotArmed(t, v, turns[..|turns| - 1]);
    }
  }

  // ----- EPSV ALL

  /** After EPSV ALL only EPSV opens a listening socket, and that for good. */
  lemma {:induction false} EpsvAllStays(t: Tunables, v: View, turns: seq<Turn>)
    requires v.prefs.epsvAll
    ensures RunFrom(t, v, turns).prefs.epsvAll
    ensures forall c, w :: Listens(t, RunFrom(t, v, turns), c, w) ==> c.Epsv?
  {
    if turns != [] {
      EpsvAllStays(t, v, turns[..|turns| - 1]);
    }
  }

  /** Section 4 of RFC 2428 asks for every other way to set up a data connection to be refused from then
      on.  One is not: the session goes into active mode exactly on an EPRT it accepts. */
  lemma {:induction false} EpsvAllLeavesEprt(t: Tunables, v: View, turns: seq<Turn>)
    requires v.prefs.epsvAll && !v.mode.Active?
    ensures RunFrom(t, v, turns).mode.Active? ==>
              exists i | 0 <= i < |turns| ::
                turns[i].c.Eprt? && turns[i].w.permitted && t.portEnable && Aimed(t, turns[i].c.target).Active?
    ensures forall c, w :: !RunFrom(t, v, turns).mode.Active? ==>
              (ModeAfter(t, RunFrom(t, v, turns), c, w).Active? <==>
               c.Eprt? && w.permitted && t.portEnable && Aimed(t, c.target).Active?)
  {
    EpsvAllStays(t, v, turns);
    if turns != [] {
      var n := |turns| - 1;
      EpsvAllLeavesEprt(t, v, turns[..n]);
      EpsvAllStays(t, v, turns[..n]);
      var before := RunFrom(t, v, turns[..n]);
      if RunFrom(t, v, turns).mode.Active? {
        if before.mode.Active? {
          var i :| 0 <= i < n && turns[..n][i].c.Eprt? && turns[..n][i].w.permitted && t.portEnable
                   && Aimed(t, turns[..n][i].c.target).Active?;
          assert turns[i] == turns[..n][i];
        } else {
          assert ModeAfter(t, before, turns[n].c, turns[n].w).Active?;
          assert turns[n].c.Eprt?;
        }
      }
    }
  }

  // ----- the two mode queries, which call each other

  /** The `n`-th nested call is made, when the queries start with `atPort`. */
  predicate CallMade(port: bool, pasv: bool, atPort: bool, n: nat)
    decreases n
  {
    n == 0 || (if atPort then port && CallMade(port, pasv, false, n - 1) else pasv && CallMade(port, pasv, true, n - 1))
  }

  /** They call each other for ever exactly when both modes are active, and otherwise at most once. */
  lemma QueriesEnd(port: bool, pasv: bool, atPort: bool)
    ensures (forall n: nat :: CallMade(port, pasv, atPort, n)) <==> port && pasv
    ensures !(port && pasv) ==> !CallMade(port, pasv, atPort, 2)
  {
    if port && pasv {
      forall n: nat
        ensures CallMade(port, pasv, atPort, n)
      {
        CallsGoOn(atPort, n);
      }
    } else {
      assert !CallMade(port, pasv, atPort, 2);
    }
  }

  lemma {:induction false} CallsGoOn(atPort: bool, n: nat)
    ensures CallMade(true, true, atPort, n)
    decreases n
  {
    if n > 0 {
      CallsGoOn(!atPort, n - 1);
    }
  }
}
