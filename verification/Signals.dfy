/** Deferred signals: an arrival only sets a flag, and the handlers run from a dispatcher that is
    called after every blocking system call.  The handlers make such calls themselves. */
module Signals {
  /** What a handler does, as far as the dispatcher can tell, each time it is entered: it may be interrupted,
      put handlers in place, and make system calls, during which signals arrive as each slot is
      looked at. */
  datatype Act =
    | Arrive(sig: nat)
    | Install(sig: nat)
    | InstallIo
    | UninstallIo
    | SystemCall(isIo: bool, arrivals: seq<set<nat>>)

  function Elems(s: seq<nat>): set<nat> {
    set x | x in s
  }

  predicate NoRepeats(s: seq<nat>) {
    s == [] || (s[|s| - 1] !in s[..|s| - 1] && NoRepeats(s[..|s| - 1]))
  }

  function UpTo(n: nat): (r: set<nat>)
    ensures |r| == n && forall i: nat :: i in r <==> i < n
  {
    if n == 0 then {} else UpTo(n - 1) + {n - 1}
  }

  lemma {:induction false} ElemsSize(s: seq<nat>)
    requires NoRepeats(s)
    ensures |Elems(s)| == |s|
  {
    if s != [] {
      var n := |s| - 1;
      ElemsSize(s[..n]);
      assert Elems(s) == Elems(s[..n]) + {s[n]};
    }
  }

  lemma SubsetSize(a: set<nat>, b: set<nat>)
    requires a <= b
    ensures |a| <= |b|
  {
    assert b == a + (b - a);
  }

  /** However the calls nest, no more handlers are under way than there are. */
  lemma DepthBound(stack: seq<nat>, n: nat)
    requires NoRepeats(stack) && forall i | 0 <= i < |stack| :: stack[i] < n
    ensures |stack| <= n
  {
    ElemsSize(stack);
    SubsetSize(Elems(stack), UpTo(n));
  }

  class Dispatcher {
    const nsig: nat                // NSIG; the I/O handler has the place after the signals'
    const script: (nat, nat) -> seq<Act>   // what a handler does, when so many were entered before
    var entered: nat
    var installed: set<nat>
    var pending: set<nat>
    var running: set<nat>
    ghost var stack: seq<nat>      // the handlers under way, outermost first

    /** The running flags are those of the handlers on the stack, and none is there twice. */
    ghost predicate Valid()
      reads this
    {
      && pending <= installed && pending <= UpTo(nsig)
      && NoRepeats(stack) && running == Elems(stack) && running <= UpTo(nsig + 1)
    }

    ghost function Idle(): nat
      reads this
    {
      |UpTo(nsig + 1) - running|
    }

    constructor (nsig: nat, script: (nat, nat) -> seq<Act>)
      ensures Valid() && this.nsig == nsig && this.script == script && stack == [] && running == {} && installed == {}
    {
      this.nsig, this.script, entered, installed, pending, running, stack := nsig, script, 0, {}, {}, {}, [];
    }

    /** `vsf_sysutil_common_sighandler`. */
    method Arrived(sig: nat)
      requires Valid()
      modifies `pending
      ensures Valid() && pending == if sig < nsig && sig in installed then old(pending) + {sig} else old(pending)
    {
      if sig < nsig && sig in installed {
        pending := pending + {sig};
      }
    }

    /** Arrivals while the dispatcher is between two slots. */
    method ArriveAll(sigs: set<nat>)
      requires Valid()
      modifies `pending
      ensures Valid()
      ensures forall k: nat :: k in pending <==> k in old(pending) || (k in sigs && k < nsig && k in installed)
    {
      pending := pending + set sig | sig in sigs && sig < nsig && sig in installed;
    }

    /** `vsf_sysutil_check_pending_actions`.  Whatever the handlers do, the running flags come back as they
        were; no flag is lost, and every signal that was pending with its handler not under way
        has had its handler called.  `own` are the handlers it enters itself: the I/O handler exactly
        after I/O, when it is in place and idle. */
    method CheckPendingActions(isIo: bool, arrivals: seq<set<nat>>)
        returns (ghost called: set<nat>, ghost own: set<nat>)
      requires Valid()
      modifies this
      ensures Valid() && running == old(running) && stack == old(stack)
      ensures forall k | k in old(pending) :: k in pending || k in called
      ensures forall k | k in old(pending) && k !in running :: k in called
      ensures nsig in own <==> isIo && nsig in old(installed) && nsig !in old(running)
      ensures own <= called && forall k | k in own :: k !in running
      decreases Idle(), 1
    {
      called, own := {}, {};
      if nsig in installed && nsig !in running && isIo {
        called := Run(nsig, isIo);
        own := {nsig};
      }
      for i := 0 to nsig
        invariant Valid() && running == old(running) && stack == old(stack)
        invariant nsig in own <==> isIo && nsig in old(installed) && nsig !in old(running)
        invariant own <= called && forall k | k in own :: k !in running
        invariant forall k | k in old(pending) :: k in pending || k in called
        invariant forall k | k in old(pending) && k !in running && k < i :: k in called
      {
        if i < |arrivals| {
          ArriveAll(arrivals[i]);
        }
        if i in pending && i !in running {
          ghost var more := Run(i, isIo);
          called, own := called + more, own + {i};
        }
      }
    }

    /** One handler, under its running flag.  It is not under way already; a signal's is entered only
        when its flag is pending, the I/O handler only after I/O and when it is in place. */
    method Run(h: nat, isIo: bool) returns (ghost called: set<nat>)
      requires Valid() && h <= nsig && h !in running
      requires if h == nsig then isIo && nsig in installed else h in pending && h in installed
      modifies this
      ensures Valid() && running == old(running) && stack == old(stack)
      ensures h in called
      ensures forall k | k in old(pending) :: k in pending || k in called
      decreases Idle(), 0
    {
      IdleDrops(UpTo(nsig + 1), running, h);
      ghost var below, flags := stack, running;
      var acts := Enter(h);
      called := RunPushed(acts);
      called := called + {h};
      Leave(h, below, flags);
    }

    method Leave(h: nat, ghost below: seq<nat>, ghost flags: set<nat>)
      requires Valid() && running == flags + {h} && h !in flags
      requires NoRepeats(below) && flags == Elems(below) && flags <= UpTo(nsig + 1)
      modifies `running, `stack
      ensures Valid() && running == flags && stack == below
    {
      running := running - {h};
      assert running == flags;
      stack := below;
    }

    /** Its running flag goes up and its pending flag down. */
    method Enter(h: nat) returns (acts: seq<Act>)
      requires Valid() && h <= nsig && h !in running
      modifies `running, `stack, `pending, `entered
      ensures Valid() && running == old(running) + {h} && stack == old(stack) + [h]
      ensures pending == old(pending) - {h} && acts == script(h, old(entered))
    {
      Push(stack, h);
      AddedFlag(running, h, nsig + 1);
      running := running + {h};
      stack := stack + [h];
      pending := pending - {h};
      acts := script(h, entered);
      entered := entered + 1;
    }

    method RunPushed(acts: seq<Act>) returns (ghost called: set<nat>)
      requires Valid()
      modifies this
      ensures Valid() && running == old(running) && stack == old(stack)
      ensures forall k | k in old(pending) :: k in pending || k in called
      decreases Idle(), 3
    {
      StackDepth(stack, running, nsig + 1);
      called := RunScript(acts);
    }

    method RunScript(acts: seq<Act>) returns (ghost called: set<nat>)
      requires Valid() && |stack| <= nsig + 1
      modifies this
      ensures Valid() && running == old(running) && stack == old(stack)
      ensures forall k | k in old(pending) :: k in pending || k in called
      decreases Idle(), 2
    {
      called := {};
      for j := 0 to |acts|
        invariant Valid() && running == old(running) && stack == old(stack)
        invariant forall k | k in old(pending) :: k in pending || k in called
      {
        match acts[j]
        case Arrive(sig) => Arrived(sig);
        case Install(sig) => installed := installed + {sig};
        case InstallIo => installed := installed + {nsig};
        case UninstallIo => installed := installed - {nsig};
        case SystemCall(isIo, arrivals) =>
          ghost var more, _ := CheckPendingActions(isIo, arrivals);
          called := called + more;
      }
    }
  }

  lemma StackDepth(stack: seq<nat>, running: set<nat>, n: nat)
    requires NoRepeats(stack) && running == Elems(stack) && running <= UpTo(n)
    ensures |stack| <= n
  {
    assert forall i | 0 <= i < |stack| :: stack[i] in Elems(stack);
    DepthBound(stack, n);
  }

  lemma AddedFlag(running: set<nat>, h: nat, n: nat)
    requires running <= UpTo(n) && h < n
    ensures running + {h} <= UpTo(n)
  {
  }

  lemma Push(stack: seq<nat>, h: nat)
    requires NoRepeats(stack) && h !in Elems(stack)
    ensures NoRepeats(stack + [h]) && Elems(stack + [h]) == Elems(stack) + {h}
  {
    assert (stack + [h])[..|stack|] == stack;
  }

  lemma IdleDrops(all: set<nat>, running: set<nat>, h: nat)
    requires h in all && h !in running
    ensures |all - (running + {h})| < |all - running|
  {
    var rest := all - (running + {h});
    assert all - running == rest + {h};
  }
}
