/** The standalone listener's accounting: how many children live, how many per address, and
    which child belongs to which address. */
module Standalone {
  import opened Bytes
  import opened Hash

  /** A raw network address: 4 bytes, or 16. */
  type Ip = Str

  datatype Pid = Pid(n: int)

  const PID_MAX := 0x7fff_ffff
  const UINT := 0x1_0000_0000

  // ----- the books as values

  datatype Accounts = Accounts(children: nat, ipCount: map<Ip, nat>, pidIp: map<Pid, Ip>)

  function PidsAt(pidIp: map<Pid, Ip>, ip: Ip): set<Pid> {
    set pid | pid in pidIp && pidIp[pid] == ip
  }

  /** One child counted for each live pid, in all and per address; an address without children has
      no entry. */
  ghost predicate Balanced(a: Accounts) {
    && a.children == |a.pidIp|
    && (forall ip :: Count(a, ip) == |PidsAt(a.pidIp, ip)|)
    && (forall ip | ip in a.ipCount :: a.ipCount[ip] > 0)
    && (forall pid | pid in a.pidIp :: 1 <= pid.n <= PID_MAX)
  }

  function Count(a: Accounts, ip: Ip): nat {
    if ip in a.ipCount then a.ipCount[ip] else 0
  }

  /** A connection from `ip` is counted in, before the fork. */
  function Arrive(a: Accounts, ip: Ip): Accounts {
    a.(children := a.children + 1, ipCount := a.ipCount[ip := Count(a, ip) + 1])
  }

  predicate CanLeave(a: Accounts, ip: Ip) {
    a.children > 0 && ip in a.ipCount && a.ipCount[ip] > 0
  }

  function Leave(a: Accounts, ip: Ip): Accounts
    requires CanLeave(a, ip)
  {
    a.(children := a.children - 1,
       ipCount := if a.ipCount[ip] == 1 then a.ipCount - {ip} else a.ipCount[ip := a.ipCount[ip] - 1])
  }

  function Reap(a: Accounts, pid: Pid): Accounts
    requires pid in a.pidIp && CanLeave(a, a.pidIp[pid])
  {
    Leave(a, a.pidIp[pid]).(pidIp := a.pidIp - {pid})
  }

  /** How the fork after an accept went. */
  datatype Fork = Failed | Forked(pid: Pid)

  datatype Event = Reaped(pid: Pid) | Accepted(ip: Ip, fork: Fork)

  /** What the kernel guarantees: it reports children that live, and new ones have new numbers. */
  predicate Possible(a: Accounts, e: Event) {
    match e
    case Reaped(pid) => pid in a.pidIp
    case Accepted(_, Failed) => true
    case Accepted(_, Forked(pid)) => 1 <= pid.n <= PID_MAX && pid !in a.pidIp
  }

  function After(a: Accounts, e: Event): Accounts
    requires Possible(a, e)
    requires e.Reaped? ==> CanLeave(a, a.pidIp[e.pid])
  {
    match e
    case Reaped(pid) => Reap(a, pid)
    case Accepted(ip, Failed) => Leave(Arrive(a, ip), ip)
    case Accepted(ip, Forked(pid)) => Arrive(a, ip).(pidIp := a.pidIp[pid := ip])
  }

  lemma {:induction false} SetBound(s: set<Pid>, n: nat)
    requires forall x | x in s :: 1 <= x.n <= n
    ensures |s| <= n
  {
    if n == 0 {
      assert forall x :: x !in s;
      assert s == {};
    } else {
      SetBound(s - {Pid(n)}, n - 1);
      assert s == if Pid(n) in s then s - {Pid(n)} + {Pid(n)} else s - {Pid(n)};
    }
  }

  /** The unsigned counters cannot wrap: there are fewer live pids than positive ints. */
  lemma CountersFit(a: Accounts, ip: Ip)
    requires Balanced(a)
    ensures a.children + 1 < UINT && Count(a, ip) + 1 < UINT
    ensures Count(a, ip) <= a.children
  {
    SetBound(a.pidIp.Keys, PID_MAX);
    Within(PidsAt(a.pidIp, ip), a.pidIp.Keys);
    assert |a.pidIp.Keys| == |a.pidIp|;
  }

  lemma Pick<T>(s: set<T>) returns (x: T)
    requires s != {}
    ensures x in s
  {
    x :| x in s;
  }

  lemma Within<T>(s: set<T>, t: set<T>)
    requires s <= t
    ensures |s| <= |t|
  {
    if s != {} {
      var x :| x in s;
      Within(s - {x}, t - {x});
    }
  }

  /** The guards in the SIGCHLD handler cannot fire for a live child. */
  lemma LiveCanLeave(a: Accounts, pid: Pid)
    requires Balanced(a) && pid in a.pidIp
    ensures CanLeave(a, a.pidIp[pid])
  {
    assert pid in PidsAt(a.pidIp, a.pidIp[pid]) && pid in a.pidIp.Keys;
    assert Count(a, a.pidIp[pid]) == |PidsAt(a.pidIp, a.pidIp[pid])|;
  }

  lemma PidsAdd(m: map<Pid, Ip>, pid: Pid, ip: Ip, x: Ip)
    requires pid !in m
    ensures |PidsAt(m[pid := ip], x)| == |PidsAt(m, x)| + if x == ip then 1 else 0
  {
    assert pid !in PidsAt(m, x);
    assert PidsAt(m[pid := ip], x) == if x == ip then PidsAt(m, x) + {pid} else PidsAt(m, x);
  }

  lemma PidsRemove(m: map<Pid, Ip>, pid: Pid, x: Ip)
    requires pid in m
    ensures |PidsAt(m - {pid}, x)| == |PidsAt(m, x)| - if x == m[pid] then 1 else 0
  {
    assert x == m[pid] ==> pid in PidsAt(m, x);
    assert PidsAt(m - {pid}, x) == if x == m[pid] then PidsAt(m, x) - {pid} else PidsAt(m, x);
  }

  lemma StartedBalances(a: Accounts, ip: Ip, pid: Pid)
    requires Balanced(a) && Possible(a, Accepted(ip, Forked(pid)))
    ensures Balanced(After(a, Accepted(ip, Forked(pid))))
  {
    var b := After(a, Accepted(ip, Forked(pid)));
    assert b.pidIp.Keys == a.pidIp.Keys + {pid};
    forall x: Ip
      ensures Count(b, x) == |PidsAt(b.pidIp, x)|
    {
      PidsAdd(a.pidIp, pid, ip, x);
      assert Count(a, x) == |PidsAt(a.pidIp, x)|;
    }
  }

  lemma ReapBalances(a: Accounts, pid: Pid)
    requires Balanced(a) && pid in a.pidIp
    ensures CanLeave(a, a.pidIp[pid]) && Balanced(Reap(a, pid))
  {
    LiveCanLeave(a, pid);
    var b := Reap(a, pid);
    assert b.pidIp.Keys == a.pidIp.Keys - {pid};
    forall x: Ip
      ensures Count(b, x) == |PidsAt(b.pidIp, x)|
    {
      PidsRemove(a.pidIp, pid, x);
      assert Count(a, x) == |PidsAt(a.pidIp, x)|;
    }
  }

  /** A failed fork leaves no trace. */
  lemma FailedForkUndone(a: Accounts, ip: Ip)
    requires Balanced(a)
    ensures CanLeave(Arrive(a, ip), ip) && Leave(Arrive(a, ip), ip) == a
  {
    if ip !in a.ipCount {
      assert a.ipCount[ip := 1] - {ip} == a.ipCount;
    }
  }

  // ----- the per-address counts sum to the total

  ghost function Sum(m: map<Ip, nat>): nat
    decreases |m|
  {
    if m == map[] then 0
    else
      var ip :| ip in m;
      m[ip] + Sum(m - {ip})
  }

  lemma {:induction false} SumSplits(m: map<Ip, nat>, ip: Ip)
    requires ip in m
    ensures Sum(m) == m[ip] + Sum(m - {ip})
    decreases |m|
  {
    var x :| x in m && Sum(m) == m[x] + Sum(m - {x});
    if x != ip {
      SumSplits(m - {x}, ip);
      SumSplits(m - {ip}, x);
      assert m - {x} - {ip} == m - {ip} - {x};
    }
  }

  lemma EntriesHaveChildren(a: Accounts)
    requires Balanced(a)
    ensures forall ip | ip in a.ipCount :: PidsAt(a.pidIp, ip) != {}
  {
    forall ip | ip in a.ipCount
      ensures PidsAt(a.pidIp, ip) != {}
    {
      assert Count(a, ip) == |PidsAt(a.pidIp, ip)|;
    }
  }

  lemma {:induction false} SumIsTotal(a: Accounts)
    requires Balanced(a)
    ensures Sum(a.ipCount) == a.children
    decreases |a.pidIp|
  {
    if a.pidIp.Keys == {} {
      EntriesHaveChildren(a);
      assert forall ip | ip in a.ipCount :: false;
      assert a.ipCount == map[];
    } else {
      var pid := Pick(a.pidIp.Keys);
      var ip := a.pidIp[pid];
      ReapBalances(a, pid);
      var b := Reap(a, pid);
      assert a.pidIp.Keys == b.pidIp.Keys + {pid};
      SumIsTotal(b);
      SumSplits(a.ipCount, ip);
      if ip in b.ipCount {
        SumSplits(b.ipCount, ip);
        assert b.ipCount - {ip} == a.ipCount - {ip};
      }
    }
  }

  // ----- runs

  lemma EventBalances(a: Accounts, e: Event)
    requires Balanced(a) && Possible(a, e)
    ensures e.Reaped? ==> CanLeave(a, a.pidIp[e.pid])
    ensures Balanced(After(a, e))
  {
    match e
    case Reaped(pid) => ReapBalances(a, pid);
    case Accepted(ip, Failed) => FailedForkUndone(a, ip);
    case Accepted(ip, Forked(pid)) => StartedBalances(a, ip, pid);
  }

  ghost predicate IsRun(a: Accounts, events: seq<Event>)
    requires Balanced(a)
    decreases |events|
  {
    events != [] ==>
      && Possible(a, events[0])
      && (EventBalances(a, events[0]); IsRun(After(a, events[0]), events[1..]))
  }

  ghost function Run(a: Accounts, events: seq<Event>): (b: Accounts)
    requires Balanced(a) && IsRun(a, events)
    ensures Balanced(b)
    decreases |events|
  {
    if events == [] then a
    else
      EventBalances(a, events[0]);
      Run(After(a, events[0]), events[1..])
  }

  function Starts(events: seq<Event>): int {
    if events == [] then 0
    else (if events[0].Accepted? && events[0].fork.Forked? then 1 else if events[0].Reaped? then -1 else 0)
         + Starts(events[1..])
  }

  /** Over every run of accepts, forks that succeed or fail, and reaps: the counter is the number of
      children started and not yet reaped, which is the number of live pids; each address's count
      is the number of live pids at it, with no entry exactly when that is none; the counts
      sum to the counter. */
  lemma {:induction false} RunsBalance(a: Accounts, events: seq<Event>)
    requires Balanced(a) && IsRun(a, events)
    ensures var b := Run(a, events);
            && b.children == a.children + Starts(events) == |b.pidIp| == Sum(b.ipCount)
            && forall ip :: Count(b, ip) == |PidsAt(b.pidIp, ip)| && (ip in b.ipCount <==> PidsAt(b.pidIp, ip) != {})
    decreases |events|
  {
    if events == [] {
      SumIsTotal(a);
      forall ip
        ensures ip in a.ipCount <==> PidsAt(a.pidIp, ip) != {}
      {
        assert Count(a, ip) == |PidsAt(a.pidIp, ip)|;
      }
    } else {
      EventBalances(a, events[0]);
      if events[0].Accepted? && events[0].fork.Failed? {
        FailedForkUndone(a, events[0].ip);
      }
      RunsBalance(After(a, events[0]), events[1..]);
    }
  }

  // ----- the window between fork and bookkeeping

  /** The SIGCHLD handler on a list of dead children; None if one is not in the books, where the
      handler would follow a null pointer. */
  function ReapAll(a: Accounts, pids: seq<Pid>): Option<Accounts>
    decreases |pids|
  {
    if pids == [] then Some(a)
    else if pids[0] in a.pidIp && CanLeave(a, a.pidIp[pids[0]]) then ReapAll(Reap(a, pids[0]), pids[1..])
    else None
  }

  ghost predicate Distinct(pids: seq<Pid>) {
    forall i, j | 0 <= i < j < |pids| :: pids[i] != pids[j]
  }

  lemma RestDistinct(pids: seq<Pid>)
    requires Distinct(pids) && pids != []
    ensures Distinct(pids[1..]) && pids[0] !in pids[1..]
    ensures forall pid | pid in pids[1..] :: pid in pids
  {
  }

  lemma MinusAll(m: map<Pid, Ip>, pids: seq<Pid>)
    requires pids != []
    ensures m - {pids[0]} - (set pid | pid in pids[1..]) == m - (set pid | pid in pids)
  {
    assert (set pid | pid in pids) == {pids[0]} + (set pid | pid in pids[1..]);
  }

  /** Between calls of accept the handler never meets an unknown child. */
  lemma {:induction false} ReapAllWorks(a: Accounts, pids: seq<Pid>)
    requires Balanced(a) && Distinct(pids) && forall pid | pid in pids :: pid in a.pidIp
    ensures ReapAll(a, pids).Some? && Balanced(ReapAll(a, pids).value)
    ensures ReapAll(a, pids).value.pidIp == a.pidIp - (set pid | pid in pids)
    decreases |pids|
  {
    if pids != [] {
      ReapBalances(a, pids[0]);
      RestDistinct(pids);
      ReapAllWorks(Reap(a, pids[0]), pids[1..]);
      MinusAll(a.pidIp, pids);
    }
  }

  /** `vsf_sysutil_close` in the parent may run pending handlers (when close is interrupted) after
      the fork and before the new pid is entered. The handler then finds every dead child in the
      books if and only if the new child is not among the dead; and if so, entering it
      afterwards gives the books it would have been in at once. */
  lemma CloseWindow(a: Accounts, ip: Ip, pid: Pid, dead: seq<Pid>)
    requires Balanced(a) && Possible(a, Accepted(ip, Forked(pid)))
    requires Distinct(dead) && forall p | p in dead :: p in a.pidIp || p == pid
    ensures ReapAll(Arrive(a, ip), dead).Some? <==> pid !in dead
    ensures pid !in dead ==>
              var b := ReapAll(Arrive(a, ip), dead).value;
              && Some(b.(pidIp := b.pidIp[pid := ip])) == ReapAll(After(a, Accepted(ip, Forked(pid))), dead)
              && Balanced(b.(pidIp := b.pidIp[pid := ip]))
  {
    var started := After(a, Accepted(ip, Forked(pid)));
    StartedBalances(a, ip, pid);
    assert started.pidIp - {pid} == a.pidIp;
    Reaping(Arrive(a, ip), started, pid, dead);
    ReapAllWorks(started, dead);
  }

  /** The same walk over books that lack `pid` (`a`) and books that have it (`b`). */
  lemma {:induction false} Reaping(a: Accounts, b: Accounts, pid: Pid, dead: seq<Pid>)
    requires Balanced(b) && pid in b.pidIp && a == b.(pidIp := b.pidIp - {pid})
    requires Distinct(dead) && forall p | p in dead :: p in b.pidIp
    ensures ReapAll(a, dead).Some? <==> pid !in dead
    ensures pid !in dead ==>
              var c := ReapAll(a, dead).value;
              ReapAll(b, dead) == Some(c.(pidIp := c.pidIp[pid := b.pidIp[pid]]))
    decreases |dead|
  {
    if dead == [] {
      assert (b.pidIp - {pid})[pid := b.pidIp[pid]] == b.pidIp;
    } else if dead[0] != pid {
      var p := dead[0];
      ReapBalances(b, p);
      assert b.pidIp - {p} - {pid} == b.pidIp - {pid} - {p};
      RestDistinct(dead);
      assert pid in dead <==> pid in dead[1..];
      Reaping(Reap(a, p), Reap(b, p), pid, dead[1..]);
    }
  }

  lemma ReapAfterArrive(a: Accounts, ip: Ip, pid: Pid)
    requires Balanced(a) && pid in a.pidIp
    ensures CanLeave(a, a.pidIp[pid]) && CanLeave(Arrive(a, ip), a.pidIp[pid])
    ensures Reap(Arrive(a, ip), pid) == Arrive(Reap(a, pid), ip)
  {
    LiveCanLeave(a, pid);
    assert Reap(Arrive(a, ip), pid).ipCount == Arrive(Reap(a, pid), ip).ipCount;
  }

  lemma {:induction false} ReapingCounted(a: Accounts, ip: Ip, dead: seq<Pid>)
    requires Balanced(a) && Distinct(dead) && forall p | p in dead :: p in a.pidIp
    ensures ReapAll(a, dead).Some? && ReapAll(Arrive(a, ip), dead) == Some(Arrive(ReapAll(a, dead).value, ip))
    decreases |dead|
  {
    if dead != [] {
      ReapAfterArrive(a, ip, dead[0]);
      ReapBalances(a, dead[0]);
      RestDistinct(dead);
      ReapingCounted(Reap(a, dead[0]), ip, dead[1..]);
    }
  }

  /** After a failed fork the window is harmless: every dead child is found, and counting the connection
      out leaves just the books without the dead. */
  lemma FailedForkWindow(a: Accounts, ip: Ip, dead: seq<Pid>)
    requires Balanced(a) && Distinct(dead) && forall p | p in dead :: p in a.pidIp
    ensures ReapAll(Arrive(a, ip), dead).Some? && CanLeave(ReapAll(Arrive(a, ip), dead).value, ip)
    ensures Some(Leave(ReapAll(Arrive(a, ip), dead).value, ip)) == ReapAll(a, dead)
  {
    ReapingCounted(a, ip, dead);
    ReapAllWorks(a, dead);
    FailedForkUndone(ReapAll(a, dead).value, ip);
  }

  // ----- the listener itself, over two hash tables

  class Listener {
    var children: nat
    const ipTable: Table<Ip, nat>
    const pidTable: Table<Pid, Ip>

    ghost predicate Valid()
      reads this, ipTable, ipTable.Repr, pidTable, pidTable.Repr
    {
      Tables() && Balanced(View())
    }

    ghost predicate Tables()
      reads this, ipTable, ipTable.Repr, pidTable, pidTable.Repr
    {
      && ipTable.Valid() && pidTable.Valid()
      && ipTable.Repr !! pidTable.Repr && this !in ipTable.Repr && this !in pidTable.Repr
    }

    ghost function View(): Accounts
      reads this, ipTable, pidTable
    {
      Accounts(children, ipTable.M, pidTable.M)
    }

    constructor (hashIp: (nat, Ip) -> nat, hashPid: (nat, Pid) -> nat)
      requires forall k :: hashIp(256, k) < 256
      requires forall k :: hashPid(256, k) < 256
      ensures Valid() && fresh(ipTable.Repr) && fresh(pidTable.Repr)
      ensures View() == Accounts(0, map[], map[])
    {
      children := 0;
      ipTable := new Table(256, hashIp);
      pidTable := new Table(256, hashPid);
      new;
      assert forall ip :: PidsAt(map[], ip) == {};
    }

    /** `handle_ip_count`, with unsigned arithmetic. */
    method HandleIpCount(ip: Ip) returns (count: nat)
      requires ipTable.Valid() && (ip in ipTable.M ==> ipTable.M[ip] + 1 < UINT)
      modifies ipTable.Repr
      ensures ipTable.Valid() && fresh(ipTable.Repr - old(ipTable.Repr))
      ensures count == (if ip in old(ipTable.M) then old(ipTable.M)[ip] else 0) + 1
      ensures ipTable.M == old(ipTable.M)[ip := count]
    {
      var cell := ipTable.LookupEntry(ip);
      if cell == null {
        count := 1;
        ipTable.AddEntry(ip, count);
      } else {
        count := (cell.value + 1) % UINT;
        ipTable.Store(cell, count);
      }
    }

    method DropIpCount(ip: Ip)
      requires ipTable.Valid() && ip in ipTable.M && ipTable.M[ip] > 0
      modifies ipTable.Repr
      ensures ipTable.Valid() && ipTable.Repr == old(ipTable.Repr)
      ensures ipTable.M == if old(ipTable.M)[ip] == 1 then old(ipTable.M) - {ip}
                           else old(ipTable.M)[ip := old(ipTable.M)[ip] - 1]
    {
      var cell := ipTable.LookupEntry(ip);
      if cell == null {
        assert false;   // bug("IP address missing from hash")
      }
      var count := cell.value;
      if count == 0 {
        assert false;   // bug("zero count for IP address")
      }
      count := count - 1;
      ipTable.Store(cell, count);
      if count == 0 {
        ipTable.FreeEntry(ip);
        assert old(ipTable.M)[ip := 0] - {ip} == old(ipTable.M) - {ip};
      }
    }

    method CountIn(ip: Ip) returns (numChildren: nat, numThisIp: nat)
      requires Tables() && children + 1 < UINT && Count(View(), ip) + 1 < UINT
      modifies this, ipTable.Repr
      ensures Tables() && fresh(ipTable.Repr - old(ipTable.Repr))
      ensures View() == old(Arrive(View(), ip))
      ensures numChildren == old(children) + 1 && numThisIp == old(Count(View(), ip)) + 1
    {
      children := (children + 1) % UINT;
      numChildren := children;
      numThisIp := HandleIpCount(ip);
    }

    method CountOut(ip: Ip)
      requires Tables() && CanLeave(View(), ip) && children < UINT
      modifies this, ipTable.Repr
      ensures Tables() && ipTable.Repr == old(ipTable.Repr)
      ensures View() == old(Leave(View(), ip))
    {
      children := (children - 1) % UINT;
      DropIpCount(ip);
    }

    /** The loop body of the SIGCHLD handler. */
    method ReapOne(pid: Pid)
      requires Tables() && pid in pidTable.M && CanLeave(View(), pidTable.M[pid]) && children < UINT
      modifies this, ipTable.Repr, pidTable.Repr
      ensures Tables() && ipTable.Repr == old(ipTable.Repr) && pidTable.Repr == old(pidTable.Repr)
      ensures View() == old(Reap(View(), pid))
    {
      var cell := pidTable.LookupEntry(pid);
      CountOut(cell.value);
      pidTable.FreeEntry(pid);
    }

    /** The SIGCHLD handler: `dead` is what waitpid reports, one by one, before it reports none. */
    method HandleSigchld(dead: seq<Pid>)
      requires Valid() && Distinct(dead) && forall pid | pid in dead :: pid in pidTable.M
      modifies this, ipTable.Repr, pidTable.Repr
      ensures Valid() && ipTable.Repr == old(ipTable.Repr) && pidTable.Repr == old(pidTable.Repr)
      ensures Some(View()) == ReapAll(old(View()), dead)
    {
      var i := 0;
      while i < |dead|
        invariant 0 <= i <= |dead|
        invariant Valid() && ipTable.Repr == old(ipTable.Repr) && pidTable.Repr == old(pidTable.Repr)
        invariant forall j | i <= j < |dead| :: dead[j] in pidTable.M
        invariant ReapAll(View(), dead[i..]) == ReapAll(old(View()), dead)
      {
        ReapBalances(View(), dead[i]);
        CountersFit(View(), []);
        ReapOne(dead[i]);
        assert dead[i..][1..] == dead[i + 1..];
        i := i + 1;
      }
    }

    /** From the counting-in of a connection to the books after its fork. */
    method CountAndFork(ip: Ip, fork: Fork) returns (numChildren: nat, numThisIp: nat)
      requires Tables() && Possible(View(), Accepted(ip, fork))
      requires children + 1 < UINT && Count(View(), ip) + 1 < UINT
      modifies this, ipTable.Repr, pidTable.Repr
      ensures Tables() && fresh(ipTable.Repr - old(ipTable.Repr)) && fresh(pidTable.Repr - old(pidTable.Repr))
      ensures View() == old(After(View(), Accepted(ip, fork)))
      ensures numChildren == old(children) + 1 && numThisIp == old(Count(View(), ip)) + 1
    {
      numChildren, numThisIp := CountIn(ip);
      if fork.Forked? {
        pidTable.AddEntry(fork.pid, ip);
      } else {
        CountOut(ip);
      }
    }

    /** One turn of the accept loop: children that died while it waited are reaped, the new
        connection is counted in and a child forked. The numbers go to the child. */
    method AcceptOne(dead: seq<Pid>, ip: Ip, fork: Fork) returns (numChildren: nat, numThisIp: nat)
      requires Valid() && Distinct(dead) && forall pid | pid in dead :: pid in pidTable.M
      requires fork.Forked? ==> 1 <= fork.pid.n <= PID_MAX && (fork.pid in pidTable.M ==> fork.pid in dead)
      modifies this, ipTable.Repr, pidTable.Repr
      ensures Valid() && fresh(ipTable.Repr - old(ipTable.Repr)) && fresh(pidTable.Repr - old(pidTable.Repr))
      ensures var mid := ReapAll(old(View()), dead);
              && View().pidIp == (var left := old(View()).pidIp - set pid | pid in dead;
                                  if fork.Forked? then left[fork.pid := ip] else left)
              && mid.Some? && Possible(mid.value, Accepted(ip, fork))
              && View() == After(mid.value, Accepted(ip, fork))
              && numChildren == |mid.value.pidIp| + 1
              && numThisIp == |PidsAt(mid.value.pidIp, ip)| + 1
    {
      ReapAllWorks(View(), dead);
      HandleSigchld(dead);
      ghost var mid := View();
      CountersFit(mid, ip);
      EventBalances(mid, Accepted(ip, fork));
      assert Count(mid, ip) == |PidsAt(mid.pidIp, ip)|;
      numChildren, numThisIp := CountAndFork(ip, fork);
    }
  }
}
