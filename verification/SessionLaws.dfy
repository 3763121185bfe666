/** What a run of the command loop comes to, read off its turns: the settings are those of the last
    commands that made them, and a log line or the end of the process has its reasons there. */
module SessionLaws {
  import opened Bytes
  import opened PrivSock
  import opened PrivOps
  import opened Session
  import opened SessionRuns

  // ----- the settings

  datatype Setting = TransferType | RestartPoint | Protection | RenameSource | ExtendedOnly

  /** The turn decides the setting. */
  predicate Sets(t: Tunables, s: Setting, turn: Turn) {
    turn.w.permitted &&
    match s
    case TransferType => turn.c.Type?
    case RestartPoint => turn.c.Rest? || turn.c.Retr? || turn.c.Store?
    case Protection => turn.c.Prot? && t.sslEnable && t.controlSsl
    case RenameSource => turn.c.Rnfr? || (turn.c.Rnto? && turn.w.allowed)
    case ExtendedOnly => turn.c == Epsv(All) && t.pasvEnable
  }

  /** The last turn that does. */
  function LastSet(t: Tunables, s: Setting, turns: seq<Turn>): (r: Option<nat>)
    ensures r.Some? ==> && r.value < |turns| && Sets(t, s, turns[r.value])
                        && forall j | r.value < j < |turns| :: !Sets(t, s, turns[j])
    ensures r.None? ==> forall j | 0 <= j < |turns| :: !Sets(t, s, turns[j])
  {
    if turns == [] then None
    else
      var n := |turns| - 1;
      if Sets(t, s, turns[n]) then Some(n) else LastSet(t, s, turns[..n])
  }

  /** ASCII: the argument of the last TYPE. */
  function AsciiSet(t: Tunables, v: View, turns: seq<Turn>): bool {
    match LastSet(t, TransferType, turns)
    case None => v.prefs.isAscii
    case Some(i) => turns[i].c.ascii
  }

  /** The argument of the last REST, if no RETR or upload came after it. */
  function RestartSet(t: Tunables, v: View, turns: seq<Turn>): nat {
    match LastSet(t, RestartPoint, turns)
    case None => v.prefs.restartPos
    case Some(i) => if turns[i].c.Rest? then turns[i].c.pos else 0
  }

  /** The argument of the last PROT of an encrypted session. */
  function TlsSet(t: Tunables, v: View, turns: seq<Turn>): bool {
    match LastSet(t, Protection, turns)
    case None => v.prefs.dataUseSsl
    case Some(i) => turns[i].c.encrypted
  }

  /** The last RNFR found its file, and no RNTO has used it up. */
  predicate RenameSet(t: Tunables, v: View, turns: seq<Turn>) {
    match LastSet(t, RenameSource, turns)
    case None => v.prefs.renaming
    case Some(i) => turns[i].c.Rnfr? && turns[i].w.allowed && turns[i].w.done
  }

  predicate ExtendedSet(t: Tunables, v: View, turns: seq<Turn>) {
    v.prefs.epsvAll || exists i | 0 <= i < |turns| :: Sets(t, ExtendedOnly, turns[i])
  }

  lemma FlagsAfter(t: Tunables, v: View, turn: Turn)
    ensures var c, p, q := turn.c, v.prefs, After(t, v, turn.c, turn.w).prefs;
            && q.epsvAll == (p.epsvAll || Sets(t, ExtendedOnly, turn))
            && q.isAscii == (if Sets(t, TransferType, turn) then c.ascii else p.isAscii)
            && q.dataUseSsl == (if Sets(t, Protection, turn) then c.encrypted else p.dataUseSsl)
  {
  }

  lemma FilesAfter(t: Tunables, v: View, turn: Turn)
    ensures var c, p, q := turn.c, v.prefs, After(t, v, turn.c, turn.w).prefs;
            && q.restartPos == (if !Sets(t, RestartPoint, turn) then p.restartPos else if c.Rest? then c.pos else 0)
            && q.renaming == (if !Sets(t, RenameSource, turn) then p.renaming
                              else c.Rnfr? && turn.w.allowed && turn.w.done)
  {
  }

  /** In every run the session remembers exactly these. */
  lemma {:induction false} Remembered(t: Tunables, v: View, turns: seq<Turn>)
    ensures RunFrom(t, v, turns).prefs
            == Prefs(ExtendedSet(t, v, turns), AsciiSet(t, v, turns), TlsSet(t, v, turns),
                     RestartSet(t, v, turns), RenameSet(t, v, turns))
  {
    if turns != [] {
      var n := |turns| - 1;
      Remembered(t, v, turns[..n]);
      FlagsAfter(t, RunFrom(t, v, turns[..n]), turns[n]);
      FilesAfter(t, RunFrom(t, v, turns[..n]), turns[n]);
      OneSetting(t, v, turns);
      OneMoreExtended(t, v, turns);
    }
  }

  lemma OneSetting(t: Tunables, v: View, turns: seq<Turn>)
    requires turns != []
    ensures var front, last := turns[..|turns| - 1], turns[|turns| - 1];
            && AsciiSet(t, v, turns) == (if Sets(t, TransferType, last) then last.c.ascii else AsciiSet(t, v, front))
            && TlsSet(t, v, turns) == (if Sets(t, Protection, last) then last.c.encrypted else TlsSet(t, v, front))
            && RestartSet(t, v, turns) == (if !Sets(t, RestartPoint, last) then RestartSet(t, v, front)
                                           else if last.c.Rest? then last.c.pos else 0)
            && RenameSet(t, v, turns) == (if !Sets(t, RenameSource, last) then RenameSet(t, v, front)
                                          else last.c.Rnfr? && last.w.allowed && last.w.done)
  {
  }

  lemma OneMoreExtended(t: Tunables, v: View, turns: seq<Turn>)
    requires turns != []
    ensures var front, last := turns[..|turns| - 1], turns[|turns| - 1];
            ExtendedSet(t, v, turns) == (ExtendedSet(t, v, front) || Sets(t, ExtendedOnly, last))
  {
    var front, n := turns[..|turns| - 1], |turns| - 1;
    if ExtendedSet(t, v, front) && !v.prefs.epsvAll {
      var i :| 0 <= i < |front| && Sets(t, ExtendedOnly, front[i]);
      assert turns[i] == front[i];
    }
    if ExtendedSet(t, v, turns) && !v.prefs.epsvAll {
      var i :| 0 <= i < |turns| && Sets(t, ExtendedOnly, turns[i]);
      assert i < n ==> front[i] == turns[i];
    }
  }

  // ----- what a turn does, in terms of the settings and the mode

  /** A connection can be asked for. */
  predicate Ready(t: Tunables, v: View) {
    !v.mode.NoMode? && (t.sslEnable && t.forceDataSsl ==> v.prefs.dataUseSsl)
  }

  /** The peer comes or answers, and is who it should be. */
  predicate Arrives(t: Tunables, m: Mode, net: Env) {
    match m
    case NoMode => true
    case Passive(_) => net.accepted && (t.pasvPromiscuous || net.fromPeer)
    case Active(to) => to !in net.refusing
  }

  /** All goes through the connection, encrypted when that was asked for. */
  predicate Through(t: Tunables, v: View, w: World) {
    && Arrives(t, v.mode, w.net) && w.transfer == 0
    && (v.prefs.dataUseSsl ==> w.handshake == Good && w.shutdown)
  }

  /** A download is logged as good exactly after a RETR that was permitted, had a connection to ask for,
      did not resume in ASCII, and found a readable regular file, all of which went through. */
  lemma DownloadLogged(t: Tunables, v: View, c: Command, w: World)
    ensures LogLine(Download, true) in Logged(t, v, c, w)
            <==> && c == Retr && w.permitted && w.allowed && Ready(t, v)
                 && !(v.prefs.isAscii && v.prefs.restartPos > 0)
                 && w.file.Some? && w.kind == Regular && (t.anonymous && t.worldReadableOnly ==> w.readable)
                 && Through(t, v, w)
  {
  }

  /** An upload exactly after a STOR, APPE or STOU that could make its file. */
  lemma UploadLogged(t: Tunables, v: View, c: Command, w: World)
    ensures LogLine(Upload, true) in Logged(t, v, c, w)
            <==> c.Store? && w.permitted && w.allowed && Ready(t, v) && w.file.Some? && Through(t, v, w)
  {
  }

  /** A rename exactly after an RNTO with a source to rename; anything else exactly after its command. */
  lemma OperationLogged(t: Tunables, v: View, c: Command, w: World, kind: OpKind)
    ensures LogLine(kind, true) in Logged(t, v, c, w)
            <==> && w.permitted && w.allowed && w.done
                 && (c == FileOp(kind) || (kind == Rename && c == Rnto && v.prefs.renaming))
  {
  }

  /** A command is logged at most once, and as failed exactly when it tried and did not succeed: but the
      RETR of a directory is not logged, and an RNFR only when it fails. */
  lemma FailureLogged(t: Tunables, v: View, c: Command, w: World)
    ensures var lines := Logged(t, v, c, w);
            && |lines| <= 1
            && (|lines| == 1 ==> lines[0].kind == match c
                                                  case Retr => Download
                                                  case Store(_, _) => Upload
                                                  case FileOp(kind) => kind
                                                  case _ => Rename)
            && (|lines| == 1 && !lines[0].succeeded
                <==> && w.permitted
                     && match c
                        case Retr => && Ready(t, v) && !(v.prefs.isAscii && v.prefs.restartPos > 0)
                                     && !(w.allowed && w.file.Some? && w.kind == Directory)
                                     && LogLine(Download, true) !in lines
                        case Store(_, _) => Ready(t, v) && LogLine(Upload, true) !in lines
                        case FileOp(kind) => !(w.allowed && w.done)
                        case Rnto => v.prefs.renaming && !(w.allowed && w.done)
                        case Rnfr => !(w.allowed && w.done)
                        case _ => false)
  {
  }

  // ----- the mode

  /** The address of a PORT or EPRT is the peer's, with a port that is not reserved, unless any will do. */
  predicate MayAim(t: Tunables, to: Endpoint) {
    t.portPromiscuous || (to.addr == t.peer && to.port >= 1024)
  }

  /** Set-up commands, when they are enabled, and not refused after EPSV ALL, decide the mode: passive on
      the new socket, active to an address that will do, else none.  A transfer ends it; nothing
      else touches it. */
  lemma ModeIs(t: Tunables, v: View, c: Command, w: World)
    ensures var m := After(t, v, c, w).mode;
            if !w.permitted then m == v.mode
            else match c
              case Pasv => m == if t.pasvEnable && !v.prefs.epsvAll then Mode.Passive(w.net.fd) else v.mode
              case Epsv(arg) =>
                m == if t.pasvEnable && (arg == NoArg || arg == Proto(1) || (arg == Proto(2) && t.ipv6))
                     then Mode.Passive(w.net.fd) else v.mode
              case Port(to) =>
                m == if !t.portEnable || v.prefs.epsvAll then v.mode
                     else if to.Some? && MayAim(t, to.value) then Active(to.value) else NoMode
              case Eprt(to) =>
                m == if !t.portEnable then v.mode
                     else if to.Some? && MayAim(t, to.value) then Active(to.value) else NoMode
              case Retr =>
                m == if && Ready(t, v) && !(v.prefs.isAscii && v.prefs.restartPos > 0) && w.allowed
                        && w.file.Some? && w.kind == Regular && (t.anonymous && t.worldReadableOnly ==> w.readable)
                     then NoMode else v.mode
              case Store(_, _) => m == if Ready(t, v) && w.allowed && w.file.Some? then NoMode else v.mode
              case Dir(stat) => m == if Ready(t, v) && w.allowed && !stat then NoMode else v.mode
              case _ => m == v.mode
  {
  }

  // ----- the end of the process

  /** The data connection a command asks for ends the process: the active socket is not to be had, or
      the peer is there and its TLS negotiation fails. */
  predicate Breaks(t: Tunables, v: View, w: World) {
    var m := v.mode;
    || (m.Active? && (m.to.port < 1024 || !w.net.ok))
    || (Arrives(t, m, w.net) && v.prefs.dataUseSsl && w.handshake == Failed)
  }

  /** The process ends in a turn exactly when the connection is lost or a timeout expires, on QUIT, when no
      port could be bound or the address to report is none, when the chown of an upload is
      refused, when a file cannot be cut or sought in, and when its data connection breaks. */
  lemma EndsIs(t: Tunables, v: View, c: Command, w: World)
    ensures Ends(t, v, c, w)
            <==> || !w.arrives || !w.lasts
                 || (w.permitted
                     && match c
                        case Quit => true
                        case Pasv => && t.pasvEnable && !v.prefs.epsvAll
                                     && (w.net.boundPort.None? || t.pasvAddressBad)
                        case Epsv(arg) => && t.pasvEnable && w.net.boundPort.None?
                                          && (arg == NoArg || arg == Proto(1) || (arg == Proto(2) && t.ipv6))
                        case Retr =>
                          && Ready(t, v) && !(v.prefs.isAscii && v.prefs.restartPos > 0) && w.allowed
                          && w.file.Some? && w.kind == Regular && (t.anonymous && t.worldReadableOnly ==> w.readable)
                          && ((v.prefs.restartPos > 0 && !w.positioned) || Breaks(t, v, w))
                        case Store(append, unique) =>
                          && Ready(t, v) && w.allowed && w.file.Some?
                          && (|| (t.anonymous && t.chownUploads && !w.chown)
                              || (!w.positioned && (|| append || v.prefs.restartPos > 0
                                                    || !(unique || (t.anonymous && !t.anonOtherWrite))))
                              || Breaks(t, v, w))
                        case Dir(stat) => Ready(t, v) && w.allowed && !stat && Breaks(t, v, w)
                        case _ => false)
  {
  }
}
