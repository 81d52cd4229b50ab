/** oracle.rs: the price-delta circuit breaker and the dust filter on its reference price. */
module PriceBreaker {
  import opened Wrappers
  import opened Ints
  import opened Errors

  /** The recorded reference; a zero price means that the breaker was never armed. */
  datatype Breaker = Breaker(lastPrice: u128, updatedAt: i64)

  datatype BreakerParams = BreakerParams(maxDeltaBps: u16, decaySeconds: u32, minAmountUsdc: u64)

  function Elapsed(b: Breaker, now: i64): int { SatI64(now - b.updatedAt) }

  function CheckPriceDelta(params: BreakerParams, b: Breaker, newPrice: u128, now: i64): Result<(), Error> {
    if b.lastPrice == 0 then Ok(())
    else if Elapsed(b, now) > params.decaySeconds then Ok(())
    else
      var delta := if newPrice >= b.lastPrice then newPrice - b.lastPrice else b.lastPrice - newPrice;
      if delta * 10_000 > U128_MAX then Err(ArithmeticOverflow)
      else if !(0 <= b.lastPrice * params.maxDeltaBps <= U128_MAX) then Err(ArithmeticOverflow)
      else if delta * 10_000 <= b.lastPrice * params.maxDeltaBps then Ok(())
      else Err(PriceDeltaExceeded)
  }

  function MaybeUpdateLastPrice(params: BreakerParams, b: Breaker, newPrice: u128, amountUsdc: u64, now: i64): Breaker {
    if b.lastPrice == 0 || amountUsdc >= params.minAmountUsdc then Breaker(newPrice, now) else b
  }

  /** The breaker compares only while it is armed and the reference has not decayed. */
  predicate Compares(params: BreakerParams, b: Breaker, now: i64) {
    b.lastPrice != 0 && now <= b.updatedAt + params.decaySeconds
  }

  /** What the check refuses, in its order: a product out of u128, then a price more than maxDeltaBps
      ten-thousandths away from the reference, above or below. Outside the comparison everything passes. */
  function DeltaRefusal(params: BreakerParams, b: Breaker, price: nat, now: i64): Option<Error> {
    var most: int := b.lastPrice * params.maxDeltaBps;
    if !Compares(params, b, now) then None else
      Need(-U128_MAX <= (price - b.lastPrice) * 10_000 <= U128_MAX, ArithmeticOverflow,
      Need(most <= U128_MAX, ArithmeticOverflow,
      Need(b.lastPrice * 10_000 - most <= price * 10_000 <= b.lastPrice * 10_000 + most, PriceDeltaExceeded,
      None)))
  }

  lemma CheckPriceDeltaExactly(params: BreakerParams, b: Breaker, price: u128, now: i64)
    ensures CheckPriceDelta(params, b, price, now) ==
            match DeltaRefusal(params, b, price, now) case None => Ok(()) case Some(e) => Err(e)
  {
    var most: int := b.lastPrice * params.maxDeltaBps;
    assert most >= 0;
  }

  // ---- Runs ----

  /** The price, the pre-premium value and the time of one priced operation. */
  datatype Print = Print(price: u128, amountUsdc: u64, now: i64)

  function TryPrint(params: BreakerParams, b: Breaker, p: Print): Option<Breaker> {
    if CheckPriceDelta(params, b, p.price, p.now).Ok?
    then Some(MaybeUpdateLastPrice(params, b, p.price, p.amountUsdc, p.now))
    else None
  }

  /** The breaker after a run in which every print was accepted. */
  function Prints(params: BreakerParams, b: Breaker, prints: seq<Print>): Option<Breaker> {
    if prints == [] then Some(b) else
      match Prints(params, b, prints[..|prints| - 1])
      case None => None
      case Some(mid) => TryPrint(params, mid, prints[|prints| - 1])
  }

  /** How many of them were large enough to move the reference. */
  function Recorded(params: BreakerParams, prints: seq<Print>): nat {
    if prints == [] then 0 else
      Recorded(params, prints[..|prints| - 1]) + if prints[|prints| - 1].amountUsdc >= params.minAmountUsdc then 1 else 0
  }

  /** Every recorded price comes within the decay period of the one before it; dust may come at any time. */
  predicate WithinDecay(params: BreakerParams, b: Breaker, prints: seq<Print>) {
    prints == [] ||
    (&& WithinDecay(params, b, prints[..|prints| - 1])
     && match Prints(params, b, prints[..|prints| - 1])
        case None => false
        case Some(mid) =>
          var last := prints[|prints| - 1];
          last.amountUsdc >= params.minAmountUsdc ==> Elapsed(mid, last.now) <= params.decaySeconds)
  }

  /** The last of the prints that was large enough to be recorded. */
  function LastRecorded(params: BreakerParams, prints: seq<Print>): Option<Print> {
    if prints == [] then None
    else if prints[|prints| - 1].amountUsdc >= params.minAmountUsdc then Some(prints[|prints| - 1])
    else LastRecorded(params, prints[..|prints| - 1])
  }

  /** Once armed, the reference is the price and the time of the last recorded print, and nothing else; an
      unarmed breaker takes the first print whatever its size. */
  lemma {:induction false} ReferenceIsLastRecorded(params: BreakerParams, b: Breaker, prints: seq<Print>)
    requires Prints(params, b, prints).Some? && forall p | p in prints :: p.price > 0
    ensures b.lastPrice > 0 ==>
              Prints(params, b, prints).value ==
              match LastRecorded(params, prints) case None => b case Some(p) => Breaker(p.price, p.now)
    ensures b.lastPrice == 0 && prints != [] ==>
              Prints(params, b, prints).value ==
              match LastRecorded(params, prints[1..]) case None => Breaker(prints[0].price, prints[0].now) case Some(p) => Breaker(p.price, p.now)
  {
    if prints != [] {
      var init, last := prints[..|prints| - 1], prints[|prints| - 1];
      ReferenceIsLastRecorded(params, b, init);
      assert last in prints;
      if init != [] {
        assert init[0] in prints;
        assert prints[1..][..|prints| - 2] == init[1..];
        var mid := Prints(params, b, init).value;
        assert mid.lastPrice > 0 by {
          ReferenceStaysArmed(params, b, init);
        }
      }
    }
  }

  lemma {:induction false} ReferenceStaysArmed(params: BreakerParams, b: Breaker, prints: seq<Print>)
    requires Prints(params, b, prints).Some? && forall p | p in prints :: p.price > 0
    requires b.lastPrice > 0 || prints != []
    ensures Prints(params, b, prints).value.lastPrice > 0
  {
    if prints != [] {
      assert prints[|prints| - 1] in prints;
      if b.lastPrice > 0 || |prints| > 1 {
        ReferenceStaysArmed(params, b, prints[..|prints| - 1]);
      }
    }
  }

  /** One accepted print stays within the allowed share of the reference, from below and from above. */
  lemma OneStep(params: BreakerParams, b: Breaker, p: Print)
    requires b.lastPrice > 0 && params.maxDeltaBps <= 10_000
    requires Elapsed(b, p.now) <= params.decaySeconds && TryPrint(params, b, p).Some?
    ensures b.lastPrice * (10_000 - params.maxDeltaBps) <= p.price * 10_000 <= b.lastPrice * (10_000 + params.maxDeltaBps)
  {
    var d: int := params.maxDeltaBps;
    assert b.lastPrice * (10_000 - d) == b.lastPrice * 10_000 - b.lastPrice * d;
    assert b.lastPrice * (10_000 + d) == b.lastPrice * 10_000 + b.lastPrice * d;
  }

  /** The two-sided bound after n recorded prices. */
  predicate Compounded(first: nat, last: nat, d: nat, n: nat)
    requires d <= 10_000
  {
    first * Pow(10_000 - d, n) <= last * Pow(10_000, n) <= first * Pow(10_000 + d, n)
  }

  /** a*p <= m*q and m*r <= c*s give a*(r*p) <= c*(s*q). */
  lemma Chain(a: nat, p: nat, r: nat, m: nat, q: nat, c: nat, s: nat)
    ensures a * p <= m * q && m * r <= c * s ==> a * (r * p) <= c * (s * q)
  {
    if a * p <= m * q && m * r <= c * s {
      MulMono(a * p, r, m * q, r);
      MulMono(m * r, q, c * s, q);
      assert a * (r * p) == (a * p) * r;
      assert (m * q) * r == (m * r) * q;
      assert (c * s) * q == c * (s * q);
    }
  }

  lemma CompoundOnce(first: nat, mid: nat, last: nat, d: nat, n: nat)
    requires d <= 10_000 && Compounded(first, mid, d, n)
    requires mid * (10_000 - d) <= last * 10_000 <= mid * (10_000 + d)
    ensures Compounded(first, last, d, n + 1)
  {
    var lo, hi, base := Pow(10_000 - d, n), Pow(10_000 + d, n), Pow(10_000, n);
    Chain(first, lo, 10_000 - d, mid, base, last, 10_000);
    Chain(last, 10_000, base, mid, 10_000 + d, first, hi);
  }

  /** However many operations there are, n recorded prices, each within the decay period, move the
      reference by at most the n-fold compounding of the allowed share. */
  lemma {:induction false} BreakerCompounds(params: BreakerParams, b: Breaker, prints: seq<Print>)
    requires b.lastPrice > 0 && params.maxDeltaBps <= 10_000
    requires forall p | p in prints :: p.price > 0
    requires WithinDecay(params, b, prints) && Prints(params, b, prints).Some?
    ensures Prints(params, b, prints).value.lastPrice > 0
    ensures Compounded(b.lastPrice, Prints(params, b, prints).value.lastPrice, params.maxDeltaBps, Recorded(params, prints))
  {
    if prints != [] {
      var init, p := prints[..|prints| - 1], prints[|prints| - 1];
      BreakerCompounds(params, b, init);
      var mid := Prints(params, b, init).value;
      if p.amountUsdc >= params.minAmountUsdc {
        OneStep(params, mid, p);
        CompoundOnce(b.lastPrice, mid.lastPrice, p.price, params.maxDeltaBps, Recorded(params, init));
      }
    }
  }

  /** No number of dust operations moves an armed reference, or the time it was set. */
  lemma {:induction false} DustNeverMoves(params: BreakerParams, b: Breaker, prints: seq<Print>)
    requires b.lastPrice > 0 && Prints(params, b, prints).Some?
    requires forall p | p in prints :: p.amountUsdc < params.minAmountUsdc
    ensures Prints(params, b, prints) == Some(b)
  {
    if prints != [] {
      DustNeverMoves(params, b, prints[..|prints| - 1]);
      assert prints[|prints| - 1] in prints;
    }
  }
}
