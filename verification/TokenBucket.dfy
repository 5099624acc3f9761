/** The clock-injected rate limiter of pkg/presence/presence.go, over exact reals, and the bound it
    puts on any time window. Times are in seconds. */
module TokenBucket {

  datatype Bucket = Bucket(rate: real, burst: real, tokens: real, last: real)

  function MinReal(a: real, b: real): real { if a <= b then a else b }

  /** The tokens that accrue over `seconds`. */
  function Gain(rate: real, seconds: real): real { seconds * rate }

  function Refilled(b: Bucket, now: real): Bucket {
    if now - b.last > 0.0 then b.(tokens := MinReal(b.burst, b.tokens + Gain(b.rate, now - b.last)), last := now) else b
  }

  predicate Grants(b: Bucket, now: real) { Refilled(b, now).tokens >= 1.0 }

  function AfterAllow(b: Bucket, now: real): Bucket {
    var r := Refilled(b, now);
    if Grants(b, now) then r.(tokens := r.tokens - 1.0) else r
  }

  class Limiter {
    var state: Bucket

    constructor (ratePerSecond: real, burst: nat, now: real)
      ensures state == Bucket(ratePerSecond, burst as real, burst as real, now)
    {
      state := Bucket(ratePerSecond, burst as real, burst as real, now);
    }

    method Allow(now: real) returns (ok: bool)
      modifies this
      ensures ok == Grants(old(state), now) && state == AfterAllow(old(state), now)
    {
      var elapsed := now - state.last;
      if elapsed > 0.0 {
        state := state.(tokens := MinReal(state.burst, state.tokens + Gain(state.rate, elapsed)), last := now);
      }
      if state.tokens >= 1.0 {
        state := state.(tokens := state.tokens - 1.0);
        return true;
      }
      return false;
    }
  }

  lemma {:induction false} GainLinear(rate: real, a: real, b: real)
    ensures Gain(rate, a - b) == Gain(rate, a) - Gain(rate, b)
    ensures rate >= 0.0 && a >= b ==> Gain(rate, a) >= Gain(rate, b)
  {
  }

  predicate Chronological(log: seq<real>, last: real) {
    && (forall i, j :: 0 <= i <= j < |log| ==> log[i] <= log[j])
    && (forall i :: 0 <= i < |log| ==> log[i] <= last)
  }

  /** The state of a limiter after granting the calls at the times in `log`: any stretch of calls
      obeys the bound, and so does any stretch up to now together with the tokens left. */
  ghost predicate Limited(b: Bucket, log: seq<real>) {
    && b.rate >= 0.0 && 0.0 <= b.tokens <= b.burst
    && Chronological(log, b.last)
    && (forall i, j :: 0 <= i <= j < |log| ==>
          (j - i + 1) as real <= b.burst + (Gain(b.rate, log[j]) - Gain(b.rate, log[i])))
    && (forall i :: 0 <= i < |log| ==>
          (|log| - i) as real + b.tokens <= b.burst + (Gain(b.rate, b.last) - Gain(b.rate, log[i])))
  }

  lemma {:induction false} RefillKeepsLimited(b: Bucket, log: seq<real>, now: real)
    requires Limited(b, log) && now >= b.last
    ensures Limited(Refilled(b, now), log) && Refilled(b, now).last == now
  {
    hide Gain;
    GainLinear(b.rate, now, b.last);
  }

  lemma {:induction false} GrantKeepsLimited(b: Bucket, log: seq<real>)
    requires Limited(b, log) && b.tokens >= 1.0
    ensures Limited(b.(tokens := b.tokens - 1.0), log + [b.last])
  {
    hide Gain;
  }

  /** Every call, granted or not, keeps the bound, as long as the clock does not run backwards. */
  lemma {:induction false} AllowKeepsLimited(b: Bucket, log: seq<real>, now: real)
    requires Limited(b, log) && now >= b.last
    ensures Limited(AfterAllow(b, now), if Grants(b, now) then log + [now] else log)
    ensures AfterAllow(b, now).last == now
  {
    hide Gain;
    RefillKeepsLimited(b, log, now);
    if Grants(b, now) {
      GrantKeepsLimited(Refilled(b, now), log);
    }
  }

  function CountIn(log: seq<real>, from: real, to: real): nat {
    if log == [] then 0
    else CountIn(log[..|log| - 1], from, to) + if from <= log[|log| - 1] <= to then 1 else 0
  }

  /** The calls of a window are a stretch of the log. */
  lemma {:induction false} CountSpan(log: seq<real>, from: real, to: real) returns (i: nat, j: nat)
    requires forall i, j :: 0 <= i <= j < |log| ==> log[i] <= log[j]
    ensures CountIn(log, from, to) > 0
      ==> i <= j < |log| && from <= log[i] && log[j] <= to && CountIn(log, from, to) <= j - i + 1
  {
    i, j := 0, 0;
    if log != [] {
      var n := |log| - 1;
      i, j := CountSpan(log[..n], from, to);
      if from <= log[n] <= to {
        if CountIn(log[..n], from, to) == 0 { i := n; }
        j := n;
      }
    }
  }

  /** The rate bound: in every time window at most burst plus rate times its length. */
  lemma {:induction false} WindowBound(b: Bucket, log: seq<real>, from: real, to: real)
    requires Limited(b, log) && from <= to
    ensures CountIn(log, from, to) as real <= b.burst + Gain(b.rate, to - from)
  {
    hide Gain;
    var i, j := CountSpan(log, from, to);
    GainLinear(b.rate, to, from);
    if CountIn(log, from, to) > 0 {
      GainLinear(b.rate, to, log[j]);
      GainLinear(b.rate, log[i], from);
    }
  }

  // ----- The limiter gives what the rate allows -----

  /** What a bucket holding at least `floor` tokens, less `used` granted since, still holds later on. */
  lemma {:induction false} AllowKeepsFloor(b: Bucket, now: real, floor: real, used: nat)
    requires now >= b.last && b.rate >= 0.0 && b.tokens >= MinReal(b.burst, floor) - used as real
    ensures AfterAllow(b, now).tokens >= MinReal(b.burst, floor + Gain(b.rate, now - b.last))
                                         - (used + if Grants(b, now) then 1 else 0) as real
  {
    hide Gain;
    GainLinear(b.rate, now, b.last);
    GainNothing(b.rate);
  }

  lemma {:induction false} GainNothing(rate: real)
    ensures Gain(rate, 0.0) == 0.0
  {
  }

  /** A call is granted if and only if a whole token has accrued. */
  lemma {:induction false} GrantedIff(b: Bucket, now: real)
    requires now >= b.last && b.tokens <= b.burst
    ensures Grants(b, now) <==> b.burst >= 1.0 && b.tokens + Gain(b.rate, now - b.last) >= 1.0
  {
    hide Gain;
    GainNothing(b.rate);
    assert now == b.last ==> now - b.last == 0.0;
  }

  /** So once the rate has earned a token since the last call, a limiter with any burst at all grants the
      next. */
  lemma {:induction false} GrantsAfterAWhile(b: Bucket, now: real)
    requires now >= b.last && 0.0 <= b.tokens <= b.burst && b.burst >= 1.0 && Gain(b.rate, now - b.last) >= 1.0
    ensures Grants(b, now)
  {
    hide Gain;
    GrantedIff(b, now);
  }
}
