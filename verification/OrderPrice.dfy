/** The effective price of an order (nado-rust-sdk/src/nado_utils/eip712_structs.rs). */
module OrderPrice {
  import opened Base
  import opened X18
  import Appendix

  const ONE_X6: int := 1_000_000
  const TWO_32: int := 0x1_0000_0000

  /** The fields of an order that its price depends on. */
  datatype Order = Order(priceX18: I128, amount: I128, appendix: Appendix.Bits) {
    predicate IsTwap() {
      Appendix.IsTwap(appendix)
    }

    /** In millionths. */
    function TwapSlippageX6(): (r: Option<nat>)
      ensures r.Some? <==> IsTwap()
      ensures r.Some? ==> r.value < TWO_32
    {
      match Appendix.TwapSlippageX6(appendix)
      case None => None
      case Some(s) => Some(s as nat)
    }

    function OrderPrice(oraclePrice: I128): Option<I128> {
      if !IsTwap() then
        Some(priceX18)
      else
        var scaled :- CheckedI(TwapSlippageX6().value * ONE);
        var slippage := scaled / ONE_X6;
        if amount > 0 then
          var factor :- CheckedI(ONE + slippage);
          var twapPrice :- MulX18(oraclePrice, factor);
          Some(if priceX18 <= twapPrice then priceX18 else twapPrice)
        else
          var factor :- CheckedI(ONE - slippage);
          var twapPrice :- MulX18(oraclePrice, factor);
          Some(if priceX18 >= twapPrice then priceX18 else twapPrice)
    }

    /** The factor applied to the oracle price: 1 plus or minus the slippage, with 18 decimals. */
    function Factor(): (k: int)
      requires IsTwap()
      ensures -TWO_32 * 1_000_000_000_000 < k - ONE < TWO_32 * 1_000_000_000_000
    {
      var slippage := TwapSlippageX6().value * 1_000_000_000_000;
      if amount > 0 then ONE + slippage else ONE - slippage
    }

    /** The oracle price scaled by the factor is representable, so that mul_x18 is exact. */
    predicate InRange(oraclePrice: I128) {
      IsTwap() ==> oraclePrice != I128_MIN && Abs(oraclePrice) * Abs(Factor()) / ONE < TWO_127
    }
  }

  /** In range, a TWAP order trades at the scaled oracle price, clamped by its own limit. */
  lemma OrderPriceMeaning(o: Order, oraclePrice: I128)
    requires o.InRange(oraclePrice)
    ensures o.OrderPrice(oraclePrice).Some?
    ensures o.OrderPrice(oraclePrice).value
         == if !o.IsTwap() then o.priceX18
            else (var scaled := TruncDiv(oraclePrice * o.Factor(), ONE);
                  if o.amount > 0 then Min(o.priceX18, scaled) else Max(o.priceX18, scaled))
  {
    hide Appendix.IsTwap, Appendix.TwapSlippageX6;
    hide MulX18;
    if o.IsTwap() {
      var s := o.TwapSlippageX6().value;
      assert s * ONE / ONE_X6 == s * 1_000_000_000_000;
      MulX18Exact(oraclePrice, o.Factor());
    }
  }

  /** Whatever mul_x18 returns, a buy never pays above its limit and any other order never sells below it. */
  lemma OrderPriceClamped(o: Order, oraclePrice: I128)
    requires o.OrderPrice(oraclePrice).Some?
    ensures o.amount > 0 ==> o.OrderPrice(oraclePrice).value <= o.priceX18
    ensures o.amount <= 0 ==> o.OrderPrice(oraclePrice).value >= o.priceX18
  {
  }

  lemma TruncDivMonotone(a: int, b: int)
    requires a <= b
    ensures TruncDiv(a, ONE) <= TruncDiv(b, ONE)
  {
  }

  lemma ScaledMonotone(p: int, q: int, k: int)
    requires p <= q
    ensures k >= 0 ==> TruncDiv(p * k, ONE) <= TruncDiv(q * k, ONE)
    ensures k <= 0 ==> TruncDiv(q * k, ONE) <= TruncDiv(p * k, ONE)
  {
    hide TruncDiv;
    if k >= 0 {
      assert p * k <= q * k;
      TruncDivMonotone(p * k, q * k);
    }
    if k <= 0 {
      assert q * k <= p * k;
      TruncDivMonotone(q * k, p * k);
    }
  }

  predicate SlippageAtMostFull(o: Order) {
    o.IsTwap() && o.amount <= 0 ==> o.TwapSlippageX6().value <= ONE_X6
  }

  lemma OrderPriceRisesWithOracle(o: Order, p: I128, q: I128)
    requires p <= q && o.InRange(p) && o.InRange(q) && SlippageAtMostFull(o)
    ensures o.OrderPrice(p).Some? && o.OrderPrice(q).Some?
    ensures o.OrderPrice(p).value <= o.OrderPrice(q).value
  {
    hide Appendix.IsTwap, Appendix.TwapSlippageX6;
    hide o.OrderPrice;
    OrderPriceMeaning(o, p);
    OrderPriceMeaning(o, q);
    if o.IsTwap() {
      ScaledMonotone(p, q, o.Factor());
    }
  }

  /** Beyond full slippage the factor is negative and a non-buy's price falls as the oracle price rises. */
  lemma OrderPriceFallsBeyondFullSlippage(o: Order, p: I128, q: I128)
    requires p <= q && o.InRange(p) && o.InRange(q) && !SlippageAtMostFull(o)
    ensures o.OrderPrice(p).Some? && o.OrderPrice(q).Some?
    ensures o.OrderPrice(q).value <= o.OrderPrice(p).value
  {
    hide Appendix.IsTwap, Appendix.TwapSlippageX6;
    hide o.OrderPrice;
    OrderPriceMeaning(o, p);
    OrderPriceMeaning(o, q);
    ScaledMonotone(p, q, o.Factor());
  }

  /** Orders that agree with o except for their limit follow the oracle price upwards. */
  ghost predicate FollowsOracle(o: Order) {
    forall limit: I128, p: I128, q: I128 ::
      p <= q && o.InRange(p) && o.InRange(q) ==> RisesBetween(o.(priceX18 := limit), p, q)
  }

  ghost predicate RisesBetween(o: Order, p: I128, q: I128) {
    o.OrderPrice(p).Some? && o.OrderPrice(q).Some? && o.OrderPrice(p).value <= o.OrderPrice(q).value
  }

  /** Whatever the limit, the price follows the oracle price if and only if slippage is at most 100%. */
  lemma FollowsOracleIffSlippageAtMostFull(o: Order)
    ensures FollowsOracle(o) <==> SlippageAtMostFull(o)
  {
    hide Appendix.IsTwap, Appendix.TwapSlippageX6;
    if SlippageAtMostFull(o) {
      forall limit: I128, p: I128, q: I128 | p <= q && o.InRange(p) && o.InRange(q)
        ensures RisesBetween(o.(priceX18 := limit), p, q)
      {
        OrderPriceRisesWithOracle(o.(priceX18 := limit), p, q);
      }
    } else {
      StrictFall(o);
    }
  }

  lemma StrictFall(o: Order)
    requires !SlippageAtMostFull(o)
    ensures !FollowsOracle(o)
  {
    hide Appendix.IsTwap, Appendix.TwapSlippageX6;
    var o' := o.(priceX18 := -10_000_000_000);
    var (p: I128, q: I128) := (0, 1_000_000);
    var k := o.Factor();
    assert k <= -1_000_000_000_000;
    assert o'.Factor() == k;
    OrderPriceMeaning(o', p);
    OrderPriceMeaning(o', q);
    assert TruncDiv(0, ONE) == 0;
    assert -10_000_000_000 < TruncDiv(1_000_000 * k, ONE) <= -1;
    assert !RisesBetween(o', p, q);
  }

  lemma BuiltSlippage(o: Order, r: Appendix.Request)
    requires Appendix.Pack(r) == Some(o.appendix) && Appendix.Fits(r)
    requires r.trigger.Some? && r.trigger.value.TimeTrigger?
    ensures o.IsTwap() && o.TwapSlippageX6() == Some(r.trigger.value.slippageX6 as nat)
  {
    hide Appendix.Pack, Appendix.Fits;
    Appendix.PackReadsBack(r, o.appendix);
    assert Appendix.TwapSlippageX6(o.appendix) == Some(r.trigger.value.slippageX6);
    hide Appendix.ReadsBack, Appendix.IsTwap, Appendix.TwapSlippageX6;
  }

  /** An order built with a time trigger trades at the slippage it was built with, if its fields fit. */
  lemma BuiltSlippageApplies(o: Order, r: Appendix.Request, oraclePrice: I128)
    requires Appendix.Pack(r) == Some(o.appendix) && Appendix.Fits(r)
    requires r.trigger.Some? && r.trigger.value.TimeTrigger? && o.InRange(oraclePrice)
    ensures var change := r.trigger.value.slippageX6 as nat * 1_000_000_000_000;
            o.OrderPrice(oraclePrice) ==
            Some(if o.amount > 0 then Min(o.priceX18, TruncDiv(oraclePrice * (ONE + change), ONE))
                 else Max(o.priceX18, TruncDiv(oraclePrice * (ONE - change), ONE)))
  {
    hide o.OrderPrice, o.IsTwap, o.TwapSlippageX6, TruncDiv, Appendix.Pack, Appendix.Fits;
    BuiltSlippage(o, r);
    OrderPriceMeaning(o, oraclePrice);
  }
}
