/**
  The packed appendix of an order: how the builder writes it (nado-rust-sdk/src/builders/execute/place_order.rs)
  and how its fields are read (nado-rust-sdk/src/nado_utils/eip712_structs.rs).
*/
module Appendix {
  import opened Base

  type Bits = bv128

  const ORDER_VERSION: Bits := 1

  datatype OrderType = Default | ImmediateOrCancel | FillOrKill | PostOnly

  datatype Trigger = PriceTrigger | TimeTrigger(times: bv32, slippageX6: bv32, custom: bool)

  /** What the builder is given; the margin is in millionths and already cast to 128 bits. */
  datatype Request = Request(
    reduceOnly: bool, margin: Option<Bits>, orderType: OrderType, trigger: Option<Trigger>,
    builder: Option<(bv32, bv32)>)

  function TypeBits(t: OrderType): Bits {
    match t
    case Default => 0
    case ImmediateOrCancel => 1
    case FillOrKill => 2
    case PostOnly => 3
  }

  function KindBits(t: Option<Trigger>): Bits {
    match t
    case None => 0
    case Some(PriceTrigger) => 1
    case Some(TimeTrigger(_, _, custom)) => if custom then 3 else 2
  }

  /** The upper 64 bits: the margin of an isolated order, or the number of slices and the slippage. */
  function UpperBits(r: Request): Bits {
    match (r.margin, r.trigger)
    case (Some(m), _) => MarginBits(m)
    case (None, Some(TimeTrigger(times, slippage, _))) => TwapBits(times, slippage)
    case _ => 0
  }

  function MarginBits(m: Bits): Bits {
    m << 64
  }

  function TwapBits(times: bv32, slippage: bv32): Bits {
    (times as Bits << 96) | (slippage as Bits << 64)
  }

  function BuilderBits(builder: Option<(bv32, bv32)>): Bits {
    match builder
    case None => 0
    case Some((id, fee)) => (id as Bits << 48) | (fee as Bits << 38)
  }

  /** The lower fields but for the builder's. */
  function FlagBits(r: Request): Bits {
    ORDER_VERSION | (if r.reduceOnly then 1 << 11 else 0) | (if r.margin.Some? then 1 << 8 else 0)
    | (TypeBits(r.orderType) << 9) | (KindBits(r.trigger) << 12)
  }

  function Joined(flags: Bits, upper: Bits, builder: Bits): Bits {
    flags | upper | builder
  }

  /** Starting from the version alone; a time trigger on an isolated order is refused. */
  function Pack(r: Request): Option<Bits> {
    if r.margin.Some? && r.trigger.Some? && r.trigger.value.TimeTrigger? then None
    else Some(Joined(FlagBits(r), UpperBits(r), BuilderBits(r.builder)))
  }

  // ---- the readers ----

  function Version(a: Bits): Bits { a & 255 }

  predicate IsIsolated(a: Bits) { (a >> 8) & 1 == 1 }

  function OrderTypeField(a: Bits): Bits { (a >> 9) & 3 }

  predicate ReduceOnly(a: Bits) { (a >> 11) & 1 == 1 }

  predicate IsTriggerOrder(a: Bits) { (a >> 12) & 3 > 0 }

  predicate IsPriceTrigger(a: Bits) { (a >> 12) & 3 == 1 }

  predicate IsTwap(a: Bits) { (a >> 12) & 3 >= 2 }

  predicate IsTwapRandom(a: Bits) { (a >> 12) & 3 == 3 }

  function ReservedBits(a: Bits): Bits { (a >> 14) & 0xff_ffff }

  function BuilderFee(a: Bits): Bits { (a >> 38) & 0x3ff }

  function BuilderId(a: Bits): Bits { (a >> 48) & 0xffff }

  function TwapTimes(a: Bits): Option<bv32> {
    if IsTwap(a) then Some((a >> 96) as bv32) else None
  }

  function TwapSlippageX6(a: Bits): Option<bv32> {
    if IsTwap(a) then Some(((a >> 64) & 0xffff_ffff) as bv32) else None
  }

  function IsolatedMarginX6(a: Bits): Option<Bits> {
    if IsIsolated(a) then Some(a >> 64) else None
  }

  // ---- reading back ----

  /** Every field fits its width: 64 bits of margin, 16 of builder id, 10 of builder fee. */
  predicate Fits(r: Request) {
    && (r.margin.Some? ==> r.margin.value < 0x1_0000_0000_0000_0000)
    && (r.builder.Some? ==> r.builder.value.0 < 0x1_0000 && r.builder.value.1 < 0x400)
  }

  /** The code that an order type has wherever appendices are read: its place in this list. */
  function CodeOf(t: OrderType): Bits {
    if t == Default then 0 else if t == ImmediateOrCancel then 1 else if t == FillOrKill then 2 else 3
  }

  /** Every reader returns what was asked for, and the reserved bits are clear. */
  predicate ReadsBack(a: Bits, r: Request) {
    var times := r.trigger.Some? && r.trigger.value.TimeTrigger?;
    && Version(a) == ORDER_VERSION && ReservedBits(a) == 0
    && (ReduceOnly(a) <==> r.reduceOnly)
    && OrderTypeField(a) == CodeOf(r.orderType)
    && IsolatedMarginX6(a) == r.margin
    && (IsTriggerOrder(a) <==> r.trigger.Some?)
    && (IsPriceTrigger(a) <==> r.trigger == Some(PriceTrigger))
    && (IsTwapRandom(a) <==> times && r.trigger.value.custom)
    && TwapTimes(a) == (if times then Some(r.trigger.value.times) else None)
    && TwapSlippageX6(a) == (if times then Some(r.trigger.value.slippageX6) else None)
    && BuilderId(a) == (if r.builder.Some? then r.builder.value.0 as Bits else 0)
    && BuilderFee(a) == (if r.builder.Some? then r.builder.value.1 as Bits else 0)
  }

  predicate Lowest14(a: Bits) { a < 0x4000 }

  predicate Upper64(a: Bits) { a & 0xffff_ffff_ffff_ffff == 0 }

  predicate Between38And64(a: Bits) { a < 0x1_0000_0000_0000_0000 && a & 0x3f_ffff_ffff == 0 }

  function Low14(a: Bits): Bits { a & 0x3fff }

  function High64(a: Bits): Bits { a >> 64 }

  /** The three groups of fields do not overlap, so each can be read alone. */
  lemma GroupsApart(flags: Bits, upper: Bits, builder: Bits)
    requires Lowest14(flags) && Upper64(upper) && Between38And64(builder)
    ensures var a := Joined(flags, upper, builder);
            && Low14(a) == flags && High64(a) == High64(upper) && ReservedBits(a) == 0
            && BuilderFee(a) == BuilderFee(builder) && BuilderId(a) == BuilderId(builder)
  {
  }

  lemma FlagsRead(a: Bits, r: Request)
    requires Low14(a) == FlagBits(r)
    ensures Version(a) == ORDER_VERSION
    ensures ReduceOnly(a) <==> r.reduceOnly
    ensures OrderTypeField(a) == CodeOf(r.orderType)
    ensures IsIsolated(a) <==> r.margin.Some?
    ensures (a >> 12) & 3 == KindBits(r.trigger)
  {
  }

  lemma FlagsFit(r: Request)
    ensures Lowest14(FlagBits(r))
  {
  }

  lemma BuilderRead(r: Request)
    requires Fits(r)
    ensures var b := BuilderBits(r.builder);
            && Between38And64(b)
            && BuilderId(b) == (if r.builder.Some? then r.builder.value.0 as Bits else 0)
            && BuilderFee(b) == (if r.builder.Some? then r.builder.value.1 as Bits else 0)
  {
  }

  lemma MarginPart(m: Bits)
    requires m < 0x1_0000_0000_0000_0000
    ensures Upper64(MarginBits(m)) && High64(MarginBits(m)) == m
  {
  }

  lemma TwapPart(times: bv32, slippage: bv32)
    ensures Upper64(TwapBits(times, slippage)) && HoldsTwap(High64(TwapBits(times, slippage)), times, slippage)
  {
  }

  predicate HoldsTwap(high: Bits, times: bv32, slippage: bv32) {
    high >> 32 == times as Bits && high & 0xffff_ffff == slippage as Bits
  }

  lemma UpperRead(r: Request)
    requires Fits(r)
    ensures Upper64(UpperBits(r))
    ensures r.margin.Some? ==> High64(UpperBits(r)) == r.margin.value
    ensures r.margin.None? && r.trigger.Some? && r.trigger.value.TimeTrigger? ==>
              HoldsTwap(High64(UpperBits(r)), r.trigger.value.times, r.trigger.value.slippageX6)
  {
    assert Upper64(0);
    hide High64, Upper64, MarginBits, TwapBits, HoldsTwap;
    if r.margin.Some? {
      MarginPart(r.margin.value);
    } else if r.trigger.Some? && r.trigger.value.TimeTrigger? {
      TwapPart(r.trigger.value.times, r.trigger.value.slippageX6);
    }
  }

  lemma KindRead(a: Bits, t: Option<Trigger>)
    requires (a >> 12) & 3 == KindBits(t)
    ensures IsTriggerOrder(a) <==> t.Some?
    ensures IsPriceTrigger(a) <==> t == Some(PriceTrigger)
    ensures IsTwap(a) <==> t.Some? && t.value.TimeTrigger?
    ensures IsTwapRandom(a) <==> t.Some? && t.value.TimeTrigger? && t.value.custom
  {
  }

  lemma GroupsRead(r: Request, a: Bits)
    requires Pack(r) == Some(a) && Fits(r)
    ensures Low14(a) == FlagBits(r) && High64(a) == High64(UpperBits(r)) && ReservedBits(a) == 0
    ensures BuilderId(a) == (if r.builder.Some? then r.builder.value.0 as Bits else 0)
    ensures BuilderFee(a) == (if r.builder.Some? then r.builder.value.1 as Bits else 0)
  {
    hide FlagBits, UpperBits, BuilderBits, ReservedBits, BuilderId, BuilderFee;
    hide Fits, Joined, Low14, High64, Lowest14, Upper64, Between38And64;
    FlagsFit(r);
    BuilderRead(r);
    UpperRead(r);
    GroupsApart(FlagBits(r), UpperBits(r), BuilderBits(r.builder));
  }

  lemma MarginRead(r: Request, a: Bits)
    requires Fits(r) && High64(a) == High64(UpperBits(r)) && (IsIsolated(a) <==> r.margin.Some?)
    ensures IsolatedMarginX6(a) == r.margin
  {
    UpperRead(r);
    hide UpperBits, IsIsolated;
  }

  lemma TwapRead(r: Request, a: Bits)
    requires Fits(r) && r.margin.None? && High64(a) == High64(UpperBits(r))
    requires IsTwap(a) && r.trigger.Some? && r.trigger.value.TimeTrigger?
    ensures TwapTimes(a) == Some(r.trigger.value.times) && TwapSlippageX6(a) == Some(r.trigger.value.slippageX6)
  {
    hide High64, HoldsTwap, UpperBits, IsTwap, TwapTimes, TwapSlippageX6;
    UpperRead(r);
    TwapFields(a, r.trigger.value.times, r.trigger.value.slippageX6);
  }

  lemma TwapFields(a: Bits, times: bv32, slippage: bv32)
    requires IsTwap(a) && HoldsTwap(High64(a), times, slippage)
    ensures TwapTimes(a) == Some(times) && TwapSlippageX6(a) == Some(slippage)
  {
    hide IsTwap;
    assert (a >> 96) as bv32 == times;
    assert ((a >> 64) & 0xffff_ffff) as bv32 == slippage;
  }

  lemma NoTwap(a: Bits)
    requires !IsTwap(a)
    ensures TwapTimes(a) == None && TwapSlippageX6(a) == None
  {
  }

  lemma FittingReadsBack(r: Request, a: Bits)
    requires Pack(r) == Some(a) && Fits(r)
    ensures ReadsBack(a, r)
  {
    assert r.margin.None? || r.trigger.None? || r.trigger.value.PriceTrigger?;
    hide Pack, Fits, FlagBits, UpperBits, BuilderBits, KindBits;
    hide BuilderId, BuilderFee, ReservedBits, Version, ReduceOnly, OrderTypeField, CodeOf;
    hide Low14, High64;
    hide IsTwap, IsTwapRandom, IsPriceTrigger, IsTriggerOrder, IsIsolated, TwapTimes, TwapSlippageX6, IsolatedMarginX6;
    GroupsRead(r, a);
    FlagsRead(a, r);
    KindRead(a, r.trigger);
    MarginRead(r, a);
    if IsTwap(a) {
      TwapRead(r, a);
    } else {
      NoTwap(a);
    }
  }

  /** Reading undoes packing exactly when every field fits its width; nothing in the builder checks that. */
  lemma PackReadsBack(r: Request, a: Bits)
    requires Pack(r) == Some(a)
    ensures ReadsBack(a, r) <==> Fits(r)
  {
    hide Pack, FlagBits, UpperBits, BuilderBits;
    if Fits(r) {
      FittingReadsBack(r, a);
    }
  }

  /** A builder id of 17 bits spills into the slippage. */
  lemma OversizedBuilderIdChangesSlippage(r: Request)
    requires r == Request(false, None, Default, Some(TimeTrigger(1, 0, false)), Some((0x1_0000, 0)))
    ensures Pack(r).Some? && TwapSlippageX6(Pack(r).value) == Some(1)
  {
  }
}
