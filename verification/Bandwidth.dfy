/** The bandwidth limit: after each read or write on the data connection the session pauses when the
    last one was too fast.  Time is real; a clock may stand still or go back, a sleep may last
    longer than asked. */
module Bandwidth {
  import opened Bytes

  /** One call of the I/O handler: the bytes moved, the clock at the call, and the clock after the pause. */
  datatype Tick = Tick(bytes: nat, now: real, after: real)

  function Elapsed(start: real, now: real): (r: real)
    ensures r > 0.0
  {
    if now - start <= 0.0 then 0.01 else now - start
  }

  /** Bytes per second, truncated to an integer: how often `elapsed` goes into the bytes. */
  function Rate(bytes: real, elapsed: real): (r: nat)
    requires elapsed > 0.0 && bytes >= 0.0
    decreases (bytes / elapsed).Floor
  {
    if bytes < elapsed then 0
    else
      OneLess(bytes, elapsed);
      1 + Rate(bytes - elapsed, elapsed)
  }

  lemma DivideBack(a: real, b: real, q: real)
    requires b > 0.0 && q == a / b
    ensures q * b == a
  {
  }

  lemma OneLess(a: real, b: real)
    requires b > 0.0
    ensures (a - b) / b == a / b - 1.0
    ensures a >= b ==> a / b >= 1.0
    ensures a < b ==> a / b < 1.0
    ensures a >= 0.0 ==> a / b >= 0.0
  {
    var q, p := a / b, (a - b) / b;
    DivideBack(a, b, q);
    DivideBack(a - b, b, p);
    Distribute(p, 1.0, b);
    Distribute(p + 1.0, -q, b);
    Distribute(q, -1.0, b);
    Sign(p + 1.0 - q, b);
    Sign(q - 1.0, b);
    Sign(q, b);
  }

  lemma Distribute(a: real, b: real, c: real)
    ensures (a + b) * c == a * c + b * c
  {
  }

  /** A product with a positive number has the sign of the other factor. */
  lemma Sign(x: real, b: real)
    requires b > 0.0
    ensures x * b > 0.0 <==> x > 0.0
    ensures x * b == 0.0 <==> x == 0.0
  {
  }

  lemma {:induction false} RateIs(bytes: real, elapsed: real)
    requires elapsed > 0.0 && bytes >= 0.0
    ensures Rate(bytes, elapsed) == (bytes / elapsed).Floor
    decreases (bytes / elapsed).Floor
  {
    OneLess(bytes, elapsed);
    if bytes >= elapsed {
      RateIs(bytes - elapsed, elapsed);
    }
  }

  predicate TooFast(limit: nat, start: real, k: Tick) {
    limit != 0 && Rate(k.bytes as real, Elapsed(start, k.now)) > limit
  }

  function Pause(limit: nat, start: real, k: Tick): real
    requires limit != 0
  {
    (Rate(k.bytes as real, Elapsed(start, k.now)) as real / limit as real - 1.0) * Elapsed(start, k.now)
  }

  function Next(limit: nat, start: real, k: Tick): real {
    if limit == 0 then start else if TooFast(limit, start, k) then k.after else k.now
  }

  /** A sleep is at least as long as asked. */
  predicate Slept(limit: nat, start: real, k: Tick) {
    TooFast(limit, start, k) ==> k.after - k.now >= Pause(limit, start, k)
  }

  // ----- sequences of calls

  function Start(limit: nat, start: real, ticks: seq<Tick>): real {
    if ticks == [] then start
    else Next(limit, Start(limit, start, ticks[..|ticks| - 1]), ticks[|ticks| - 1])
  }

  function Total(ticks: seq<Tick>): nat {
    if ticks == [] then 0 else Total(ticks[..|ticks| - 1]) + ticks[|ticks| - 1].bytes
  }

  /** The time a call is paid for with: since the last one, or a hundredth of a second when the clock
      has not moved, and the sleep. */
  function Credit(limit: nat, start: real, k: Tick): real {
    Elapsed(start, k.now) + if TooFast(limit, start, k) then k.after - k.now else 0.0
  }

  function Credits(limit: nat, start: real, ticks: seq<Tick>): real {
    if ticks == [] then 0.0
    else
      var n := |ticks| - 1;
      Credits(limit, start, ticks[..n]) + Credit(limit, Start(limit, start, ticks[..n]), ticks[n])
  }

  /** `n` times `t`, added up. */
  function Multiple(n: nat, t: real): real {
    if n == 0 then 0.0 else Multiple(n - 1, t) + t
  }

  lemma {:induction false} MultipleIs(n: nat, t: real)
    ensures Multiple(n, t) == n as real * t
  {
    if n > 0 {
      MultipleIs(n - 1, t);
      Distribute((n - 1) as real, 1.0, t);
    }
  }

  lemma BelowProduct(n: nat, t: real, total: nat)
    requires total as real <= Multiple(n, t)
    ensures total as real <= n as real * t
  {
    MultipleIs(n, t);
  }

  lemma BelowNext(n: nat, t: real, total: nat)
    requires total as real < Multiple(n + 1, t)
    ensures total as real < (n as real + 1.0) * t
  {
    MultipleIs(n, t);
    Distribute(n as real, 1.0, t);
  }

  lemma {:induction false} MultipleAdds(n: nat, a: real, b: real)
    ensures Multiple(n, a + b) == Multiple(n, a) + Multiple(n, b)
  {
    if n > 0 {
      MultipleAdds(n - 1, a, b);
    }
  }

  predicate SleptAt(limit: nat, start: real, ticks: seq<Tick>, i: nat)
    requires i < |ticks|
  {
    Slept(limit, Start(limit, start, ticks[..i]), ticks[i])
  }

  predicate SleptAll(limit: nat, start: real, ticks: seq<Tick>) {
    forall i {:trigger SleptAt(limit, start, ticks, i)} | 0 <= i < |ticks| :: SleptAt(limit, start, ticks, i)
  }

  predicate AdvancesAt(limit: nat, start: real, ticks: seq<Tick>, i: nat)
    requires i < |ticks|
  {
    ticks[i].now > Start(limit, start, ticks[..i])
  }

  predicate Advances(limit: nat, start: real, ticks: seq<Tick>) {
    forall i {:trigger AdvancesAt(limit, start, ticks, i)} | 0 <= i < |ticks| :: AdvancesAt(limit, start, ticks, i)
  }

  lemma Fronts(limit: nat, start: real, ticks: seq<Tick>)
    requires ticks != []
    ensures SleptAll(limit, start, ticks) ==> SleptAll(limit, start, ticks[..|ticks| - 1])
    ensures Advances(limit, start, ticks) ==> Advances(limit, start, ticks[..|ticks| - 1])
  {
    var front := ticks[..|ticks| - 1];
    forall i | 0 <= i < |front|
      ensures SleptAt(limit, start, front, i) <==> SleptAt(limit, start, ticks, i)
      ensures AdvancesAt(limit, start, front, i) <==> AdvancesAt(limit, start, ticks, i)
    {
      assert front[..i] == ticks[..i];
    }
  }

  lemma Scale(a: real, b: real, c: real)
    requires a < b && c > 0.0
    ensures a * c < b * c
  {
  }

  lemma Between(bytes: real, elapsed: real, q: real, rate: real)
    requires elapsed > 0.0 && q * elapsed == bytes && rate <= q < rate + 1.0
    ensures rate * elapsed <= bytes < (rate + 1.0) * elapsed
  {
    var part := q - rate;
    Distribute(rate, part, elapsed);
    Distribute(rate, 1.0, elapsed);
    Sign(part, elapsed);
    Sign(1.0 - part, elapsed);
    Distribute(1.0, -part, elapsed);
  }

  /** The truncated rate is off by less than one byte a second. */
  lemma BytesByRate(bytes: real, elapsed: real)
    requires elapsed > 0.0 && bytes >= 0.0
    ensures Rate(bytes, elapsed) as real * elapsed <= bytes < (Rate(bytes, elapsed) as real + 1.0) * elapsed
  {
    RateIs(bytes, elapsed);
    DivideBack(bytes, elapsed, bytes / elapsed);
    Between(bytes, elapsed, bytes / elapsed, Rate(bytes, elapsed) as real);
  }

  lemma PauseStretches(rate: real, limit: real, elapsed: real, slept: real)
    requires elapsed > 0.0 && rate > limit > 0.0 && slept >= (rate / limit - 1.0) * elapsed
    ensures (rate + 1.0) * elapsed < (limit + 1.0) * (elapsed + slept)
  {
    var q := rate / limit;
    DivideBack(rate, limit, q);
    assert q > 1.0 by {
      Quotient(rate, limit);
    }
    assert elapsed + slept >= q * elapsed;
    assert (limit + 1.0) * (elapsed + slept) >= (limit + 1.0) * (q * elapsed) by {
      Grow(limit + 1.0, q * elapsed, elapsed + slept);
    }
    assert (limit + 1.0) * (q * elapsed) == (rate + q) * elapsed;
    Scale(rate + 1.0, rate + q, elapsed);
  }

  lemma Quotient(rate: real, limit: real)
    requires rate > limit > 0.0
    ensures rate / limit > 1.0
  {
  }

  lemma Grow(c: real, a: real, b: real)
    requires a <= b && c > 0.0
    ensures c * a <= c * b
  {
  }

  /** One call moves fewer bytes than the limit plus one for each second it is credited with. */
  lemma OneCall(limit: nat, start: real, k: Tick)
    requires limit > 0 && Slept(limit, start, k)
    ensures k.bytes as real < (limit as real + 1.0) * Credit(limit, start, k)
  {
    var elapsed := Elapsed(start, k.now);
    var rate := Rate(k.bytes as real, elapsed);
    BytesByRate(k.bytes as real, elapsed);
    if TooFast(limit, start, k) {
      PauseStretches(rate as real, limit as real, elapsed, k.after - k.now);
    } else {
      Grow(elapsed, rate as real + 1.0, limit as real + 1.0);
    }
  }

  lemma OneCallOf(limit: nat, start: real, ticks: seq<Tick>, i: nat)
    requires limit > 0 && SleptAll(limit, start, ticks) && i < |ticks|
    ensures ticks[i].bytes as real < Multiple(limit + 1, Credit(limit, Start(limit, start, ticks[..i]), ticks[i]))
  {
    assert SleptAt(limit, start, ticks, i);
    var credit := Credit(limit, Start(limit, start, ticks[..i]), ticks[i]);
    MultipleIs(limit + 1, credit);
    OneCall(limit, Start(limit, start, ticks[..i]), ticks[i]);
  }

  lemma AddUp(n: nat, total: nat, bytes: nat, a: real, b: real, c: real)
    requires total as real <= Multiple(n, a) && bytes as real <= Multiple(n, b) && c == a + b
    ensures (total + bytes) as real <= Multiple(n, c)
    ensures bytes as real < Multiple(n, b) ==> (total + bytes) as real < Multiple(n, c)
  {
    MultipleAdds(n, a, b);
  }

  lemma CreditIsTime(limit: nat, start: real, k: Tick)
    requires limit > 0 && k.now > start
    ensures Credit(limit, start, k) == Next(limit, start, k) - start
  {
  }

  lemma {:induction false} WithinMultiples(limit: nat, start: real, ticks: seq<Tick>)
    requires limit > 0 && SleptAll(limit, start, ticks) && ticks != []
    ensures Total(ticks) as real < Multiple(limit + 1, Credits(limit, start, ticks))
  {
    var n := |ticks| - 1;
    var front := ticks[..n];
    OneCallOf(limit, start, ticks, n);
    if n > 0 {
      Fronts(limit, start, ticks);
      WithinMultiples(limit, start, front);
    } else {
      MultipleIs(limit + 1, 0.0);
    }
    var c := Credit(limit, Start(limit, start, front), ticks[n]);
    AddUp(limit + 1, Total(front), ticks[n].bytes, Credits(limit, start, front), c, Credits(limit, start, ticks));
  }

  /** So does any sequence of calls, whatever the clock. */
  lemma WithinCredits(limit: nat, start: real, ticks: seq<Tick>, credits: real)
    requires limit > 0 && SleptAll(limit, start, ticks) && ticks != []
    requires credits == Credits(limit, start, ticks)
    ensures Total(ticks) as real < (limit as real + 1.0) * credits
  {
    WithinMultiples(limit, start, ticks);
    BelowNext(limit, credits, Total(ticks));
  }

  lemma {:induction false} CreditsAreTime(limit: nat, start: real, ticks: seq<Tick>)
    requires limit > 0 && Advances(limit, start, ticks)
    ensures Credits(limit, start, ticks) == Start(limit, start, ticks) - start
  {
    if ticks != [] {
      var n := |ticks| - 1;
      assert AdvancesAt(limit, start, ticks, n);
      CreditIsTime(limit, Start(limit, start, ticks[..n]), ticks[n]);
      Fronts(limit, start, ticks);
      CreditsAreTime(limit, start, ticks[..n]);
    }
  }

  /** With a clock that goes on, any sequence of calls moves fewer bytes than the limit plus one for
      each second that passes. */
  lemma LimitHolds(limit: nat, start: real, ticks: seq<Tick>, time: real)
    requires limit > 0 && ticks != [] && SleptAll(limit, start, ticks) && Advances(limit, start, ticks)
    requires time == Start(limit, start, ticks) - start
    ensures Total(ticks) as real < (limit as real + 1.0) * time
  {
    CreditsAreTime(limit, start, ticks);
    WithinMultiples(limit, start, ticks);
    BelowNext(limit, time, Total(ticks));
  }

  // ----- when the limit itself is kept

  /** The bytes are within the limit for the time elapsed, or no part of a byte a second was cut off
      their rate. */
  predicate EvenRate(limit: real, rate: real, bytes: real, elapsed: real) {
    bytes <= limit * elapsed || bytes == rate * elapsed
  }

  predicate Even(limit: nat, start: real, k: Tick) {
    var elapsed := Elapsed(start, k.now);
    EvenRate(limit as real, Rate(k.bytes as real, elapsed) as real, k.bytes as real, elapsed)
  }

  lemma Regroup(a: real, b: real, c: real, ab: real, bc: real)
    requires ab == a * b && bc == b * c
    ensures a * bc == ab * c
  {
  }

  lemma StretchedTime(rate: real, limit: real, q: real, elapsed: real, slept: real)
    requires q * limit == rate && limit > 0.0
    ensures slept == (q - 1.0) * elapsed ==> limit * (elapsed + slept) == rate * elapsed
    ensures slept >= (q - 1.0) * elapsed ==> limit * (elapsed + slept) >= rate * elapsed
  {
    var stretched := q * elapsed;
    Distribute(q, -1.0, elapsed);
    Regroup(limit, q, elapsed, rate, stretched);
    if slept >= (q - 1.0) * elapsed {
      Grow(limit, stretched, elapsed + slept);
    }
  }

  lemma PauseExact(rate: real, limit: real, elapsed: real, slept: real)
    requires elapsed > 0.0 && rate > limit > 0.0
    ensures slept == (rate / limit - 1.0) * elapsed ==> limit * (elapsed + slept) == rate * elapsed
    ensures slept >= (rate / limit - 1.0) * elapsed ==> limit * (elapsed + slept) >= rate * elapsed
    ensures limit * elapsed < rate * elapsed
  {
    var q := rate / limit;
    DivideBack(rate, limit, q);
    StretchedTime(rate, limit, q, elapsed, slept);
    Scale(limit, rate, elapsed);
  }

  lemma FastCall(limit: real, rate: real, bytes: real, elapsed: real, slept: real)
    requires elapsed > 0.0 && rate > limit > 0.0 && rate * elapsed <= bytes
    ensures slept == (rate / limit - 1.0) * elapsed ==>
              (bytes <= limit * (elapsed + slept) <==> EvenRate(limit, rate, bytes, elapsed))
    ensures slept >= (rate / limit - 1.0) * elapsed && EvenRate(limit, rate, bytes, elapsed) ==>
              bytes <= limit * (elapsed + slept)
  {
    PauseExact(rate, limit, elapsed, slept);
  }

  lemma SlowCall(limit: real, rate: real, bytes: real, elapsed: real)
    requires elapsed > 0.0 && rate <= limit
    ensures bytes <= limit * elapsed <==> EvenRate(limit, rate, bytes, elapsed)
  {
    Grow(elapsed, rate, limit);
  }

  /** A call that sleeps exactly as long as asked keeps the limit if and only if it is even; with a
      longer sleep an even call keeps it all the more. */
  lemma CallKeepsLimit(limit: nat, start: real, k: Tick, credit: real)
    requires limit > 0 && Slept(limit, start, k) && credit == Credit(limit, start, k)
    ensures Even(limit, start, k) ==> k.bytes as real <= limit as real * credit
    ensures (TooFast(limit, start, k) ==> k.after - k.now == Pause(limit, start, k)) ==>
              (k.bytes as real <= limit as real * credit <==> Even(limit, start, k))
  {
    var elapsed := Elapsed(start, k.now);
    var rate := Rate(k.bytes as real, elapsed);
    BytesByRate(k.bytes as real, elapsed);
    if TooFast(limit, start, k) {
      FastCall(limit as real, rate as real, k.bytes as real, elapsed, k.after - k.now);
    } else {
      SlowCall(limit as real, rate as real, k.bytes as real, elapsed);
    }
  }

  predicate EvenAt(limit: nat, start: real, ticks: seq<Tick>, i: nat)
    requires i < |ticks|
  {
    Even(limit, Start(limit, start, ticks[..i]), ticks[i])
  }

  predicate EvenAll(limit: nat, start: real, ticks: seq<Tick>) {
    forall i {:trigger EvenAt(limit, start, ticks, i)} | 0 <= i < |ticks| :: EvenAt(limit, start, ticks, i)
  }

  lemma EvenFront(limit: nat, start: real, ticks: seq<Tick>)
    requires ticks != [] && EvenAll(limit, start, ticks)
    ensures EvenAll(limit, start, ticks[..|ticks| - 1])
  {
    var front := ticks[..|ticks| - 1];
    forall i | 0 <= i < |front|
      ensures EvenAt(limit, start, front, i)
    {
      assert front[..i] == ticks[..i] && EvenAt(limit, start, ticks, i);
    }
  }

  lemma EvenCallOf(limit: nat, start: real, ticks: seq<Tick>, i: nat)
    requires limit > 0 && SleptAll(limit, start, ticks) && EvenAll(limit, start, ticks) && i < |ticks|
    ensures ticks[i].bytes as real <= Multiple(limit, Credit(limit, Start(limit, start, ticks[..i]), ticks[i]))
  {
    assert SleptAt(limit, start, ticks, i) && EvenAt(limit, start, ticks, i);
    var credit := Credit(limit, Start(limit, start, ticks[..i]), ticks[i]);
    MultipleIs(limit, credit);
    CallKeepsLimit(limit, Start(limit, start, ticks[..i]), ticks[i], credit);
  }

  lemma {:induction false} EvenMultiples(limit: nat, start: real, ticks: seq<Tick>)
    requires limit > 0 && SleptAll(limit, start, ticks) && EvenAll(limit, start, ticks)
    ensures Total(ticks) as real <= Multiple(limit, Credits(limit, start, ticks))
  {
    if ticks == [] {
      MultipleIs(limit, 0.0);
    } else {
      var n := |ticks| - 1;
      var front := ticks[..n];
      EvenCallOf(limit, start, ticks, n);
      Fronts(limit, start, ticks);
      EvenFront(limit, start, ticks);
      EvenMultiples(limit, start, front);
      var c := Credit(limit, Start(limit, start, front), ticks[n]);
      AddUp(limit, Total(front), ticks[n].bytes, Credits(limit, start, front), c, Credits(limit, start, ticks));
    }
  }

  /** Any sequence of even calls keeps the limit. */
  lemma LimitKept(limit: nat, start: real, ticks: seq<Tick>, time: real)
    requires limit > 0 && SleptAll(limit, start, ticks) && Advances(limit, start, ticks)
    requires EvenAll(limit, start, ticks) && time == Start(limit, start, ticks) - start
    ensures Total(ticks) as real <= limit as real * time
  {
    CreditsAreTime(limit, start, ticks);
    EvenMultiples(limit, start, ticks);
    BelowProduct(limit, time, Total(ticks));
  }

  /** The limit itself is not kept: three bytes in two seconds pass under a limit of one byte a second,
      because the rate is truncated before it is compared. */
  lemma LimitAloneExceeded()
    ensures var k := Tick(3, 2.0, 2.0);
            && Slept(1, 0.0, k) && !TooFast(1, 0.0, k)
            && Total([k]) as real > 1.0 * (Start(1, 0.0, [k]) - 0.0)
  {
    var k := Tick(3, 2.0, 2.0);
    RateIs(3.0, 2.0);
    assert [k][..0] == [];
    assert Total([k]) == Total([]) + 3;
  }

  // ----- the handler

  /** At least the limit and one byte a second more. */
  predicate Over(limit: real, bytes: real, elapsed: real) {
    bytes >= (limit + 1.0) * elapsed
  }

  /** With the pause the bytes come to the limit or less than one byte a second more. */
  predicate Spends(limit: real, bytes: real, elapsed: real, pause: real) {
    limit * (elapsed + pause) <= bytes < limit * (elapsed + pause) + elapsed
  }

  lemma OverIs(limit: nat, bytes: real, elapsed: real, rate: nat)
    requires elapsed > 0.0 && rate as real * elapsed <= bytes < (rate as real + 1.0) * elapsed
    ensures rate > limit <==> Over(limit as real, bytes, elapsed)
  {
    if rate > limit {
      Grow(elapsed, limit as real + 1.0, rate as real);
    } else {
      Grow(elapsed, rate as real + 1.0, limit as real + 1.0);
    }
  }

  /** A call is paused exactly when it is over the limit, and for no longer than that takes. */
  lemma PauseIs(limit: nat, start: real, k: Tick)
    ensures var elapsed := Elapsed(start, k.now);
            && (TooFast(limit, start, k) <==> limit > 0 && Over(limit as real, k.bytes as real, elapsed))
            && (TooFast(limit, start, k) ==> Spends(limit as real, k.bytes as real, elapsed, Pause(limit, start, k)))
  {
    var elapsed := Elapsed(start, k.now);
    var rate := Rate(k.bytes as real, elapsed);
    BytesByRate(k.bytes as real, elapsed);
    OverIs(limit, k.bytes as real, elapsed, rate);
    if TooFast(limit, start, k) {
      PauseExact(rate as real, limit as real, elapsed, Pause(limit, start, k));
      Distribute(rate as real, 1.0, elapsed);
    }
  }

  class Session {
    const bwRateMax: nat
    var bwSendStart: real
    var dataProgress: bool

    constructor (bwRateMax: nat)
      ensures this.bwRateMax == bwRateMax && bwSendStart == 0.0
    {
      this.bwRateMax, bwSendStart, dataProgress := bwRateMax, 0.0, false;
    }

    /** `handle_io` for a transfer of `k.bytes` bytes; `ours`: on this session's data descriptor. */
    method HandleIo(ours: bool, failed: bool, k: Tick) returns (slept: Option<real>)
      modifies this
      ensures var moved := ours && !failed && k.bytes > 0;
              && dataProgress == (old(dataProgress) || moved)
              && bwSendStart == (if moved then Next(bwRateMax, old(bwSendStart), k) else old(bwSendStart))
              && slept == (if moved && TooFast(bwRateMax, old(bwSendStart), k)
                           then Some(Pause(bwRateMax, old(bwSendStart), k)) else None)
      ensures var moved := ours && !failed && k.bytes > 0;
              var elapsed := if k.now <= old(bwSendStart) then 0.01 else k.now - old(bwSendStart);
              && (slept.Some? <==> moved && bwRateMax > 0 && Over(bwRateMax as real, k.bytes as real, elapsed))
              && (slept.Some? ==> Spends(bwRateMax as real, k.bytes as real, elapsed, slept.value))
              && bwSendStart == (if !moved || bwRateMax == 0 then old(bwSendStart)
                                 else if slept.Some? then k.after else k.now)
    {
      slept := None;
      if !ours || failed || k.bytes == 0 {
        return;
      }
      dataProgress := true;
      PauseIs(bwRateMax, bwSendStart, k);
      slept := LimitRate(k);
    }

    /** The rest of it, for bytes moved. */
    method LimitRate(k: Tick) returns (slept: Option<real>)
      modifies `bwSendStart
      ensures bwSendStart == Next(bwRateMax, old(bwSendStart), k)
      ensures slept == if TooFast(bwRateMax, old(bwSendStart), k)
                       then Some(Pause(bwRateMax, old(bwSendStart), k)) else None
    {
      slept := None;
      if bwRateMax == 0 {
        return;
      }
      var elapsed := k.now - bwSendStart;
      if elapsed <= 0.0 {
        elapsed := 0.01;
      }
      RateIs(k.bytes as real, elapsed);
      var bwRate := (k.bytes as real / elapsed).Floor;
      if bwRate <= bwRateMax {
        bwSendStart := k.now;
        return;
      }
      var rateRatio := bwRate as real / bwRateMax as real;
      slept := Some((rateRatio - 1.0) * elapsed);
      bwSendStart := k.after;
    }
  }
}
