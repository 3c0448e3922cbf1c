/**
 * Pricing of a storage order (`get_price` and `get_price_in_token`): a linear
 * fee in CRU with a service markup, converted into the paying token through
 * the DEX, directly or bridged through WEGLD.
 */
module Pricing {
  import opened Types

  /** The divisor of the service markup: the rate is in percent on top of 100. */
  const PERCENT: nat := 100

  /** The probe amount (10^12) both bridge legs are quoted for. */
  const UNIT_AMOUNT: nat := 1_000_000_000_000

  /** The linear fee in CRU before the markup: `base + byte * size`. */
  function LinearFee(basePrice: nat, bytePrice: nat, size: u64): nat {
    basePrice + bytePrice * (size as nat)
  }

  /**
   * The fee in CRU with the service markup `* (100 + rate) / 100`: the
   * largest whole amount not above the exact marked-up fee.
   */
  function PriceInCru(basePrice: nat, bytePrice: nat, rate: nat, size: u64): (r: nat)
    ensures r * PERCENT <= LinearFee(basePrice, bytePrice, size) * (PERCENT + rate)
    ensures LinearFee(basePrice, bytePrice, size) * (PERCENT + rate) < (r + 1) * PERCENT
  {
    LinearFee(basePrice, bytePrice, size) * (PERCENT + rate) / PERCENT
  }

  /** The pair address the router reports for (`a`, `b`). */
  function PairOf(s: ContractState, m: Market, a: TokenId, b: TokenId): Address {
    m.getPair(s.routerAddress, a, b)
  }

  /** The WEGLD needed to obtain one probe unit of CRU, from the WEGLD-CRU pair. */
  function UnitCruInEgld(s: ContractState, m: Market): nat {
    m.getAmountIn(PairOf(s, m, s.wegldTokenId, s.cruTokenId), s.cruTokenId, UNIT_AMOUNT)
  }

  /** The quote for one probe unit of `token`, from the WEGLD-`token` pair. */
  function UnitTokenInEgld(s: ContractState, m: Market, token: TokenId): nat {
    m.getAmountIn(PairOf(s, m, s.wegldTokenId, token), token, UNIT_AMOUNT)
  }

  /** No direct `token`-CRU pair, both bridge pairs exist and the divisor is positive. */
  predicate Bridged(s: ContractState, m: Market, token: TokenId) {
    && IsZero(PairOf(s, m, token, s.cruTokenId))
    && !IsZero(PairOf(s, m, s.wegldTokenId, s.cruTokenId))
    && !IsZero(PairOf(s, m, s.wegldTokenId, token))
    && UnitTokenInEgld(s, m, token) > 0
  }

  /**
   * `get_price_in_token`: the amount of `token` worth `cruAmount` CRU. A
   * direct pair quotes it; otherwise the two bridge pairs are each quoted
   * for the probe unit and the result is the floored ratio
   * `cruAmount * unitCruInEgld / unitTokenInEgld`.
   */
  function GetPriceInToken(s: ContractState, m: Market, token: TokenId, cruAmount: nat): (r: Result<nat>)
    ensures !IsZero(PairOf(s, m, token, s.cruTokenId)) ==>
      r == Success(m.getAmountIn(PairOf(s, m, token, s.cruTokenId), s.cruTokenId, cruAmount))
    ensures (IsZero(PairOf(s, m, token, s.cruTokenId)) && IsZero(PairOf(s, m, s.wegldTokenId, s.cruTokenId))) ==>
      r == Failure(EgldCruPairFailed)
    ensures (IsZero(PairOf(s, m, token, s.cruTokenId)) && !IsZero(PairOf(s, m, s.wegldTokenId, s.cruTokenId))
             && IsZero(PairOf(s, m, s.wegldTokenId, token))) ==>
      r == Failure(EgldTokenPairFailed)
    ensures (IsZero(PairOf(s, m, token, s.cruTokenId)) && !IsZero(PairOf(s, m, s.wegldTokenId, s.cruTokenId))
             && !IsZero(PairOf(s, m, s.wegldTokenId, token)) && UnitTokenInEgld(s, m, token) == 0) ==>
      r == Failure(DivisionByZero)
    ensures Bridged(s, m, token) ==>
      (r.Success?
       && r.value * UnitTokenInEgld(s, m, token) <= cruAmount * UnitCruInEgld(s, m)
       && cruAmount * UnitCruInEgld(s, m) < (r.value + 1) * UnitTokenInEgld(s, m, token))
  {
    var direct := PairOf(s, m, token, s.cruTokenId);
    if !IsZero(direct) then
      Success(m.getAmountIn(direct, s.cruTokenId, cruAmount))
    else
      var egldCru := PairOf(s, m, s.wegldTokenId, s.cruTokenId);
      if IsZero(egldCru) then Failure(EgldCruPairFailed)
      else
        var unitCruInEgld := m.getAmountIn(egldCru, s.cruTokenId, UNIT_AMOUNT);
        var egldToken := PairOf(s, m, s.wegldTokenId, token);
        if IsZero(egldToken) then Failure(EgldTokenPairFailed)
        else
          var unitTokenInEgld := m.getAmountIn(egldToken, token, UNIT_AMOUNT);
          if unitTokenInEgld == 0 then Failure(DivisionByZero)
          else Success(cruAmount * unitCruInEgld / unitTokenInEgld)
  }

  /** The token whose market price is asked for: native EGLD is priced as WEGLD. */
  function QuotedToken(s: ContractState, token: TokenId): (r: TokenId)
    ensures r == token || (token == EGLD && r == s.wegldTokenId)
    ensures r != EGLD || s.wegldTokenId == EGLD
  {
    if token == EGLD then s.wegldTokenId else token
  }

  /** Neither price mapper is empty. */
  predicate PriceConfigured(s: ContractState) {
    s.basePrice.Some? && s.bytePrice.Some?
  }

  /**
   * What a `SingleValueMapper<BigUint>` holds after `set(&v)`: the codec
   * encodes zero as no bytes, so a zero leaves the mapper empty.
   */
  function StoredPrice(v: nat): (r: Option<nat>)
    ensures r.Some? <==> v > 0
    ensures r.Some? ==> r.value == v
  {
    if v == 0 then None else Some(v)
  }

  /**
   * `get_price`: the fee for storing `size` bytes, paid in `token`. It
   * checks the size limit first, then that the price is configured; the
   * marked-up CRU fee is the answer for CRU and is converted otherwise.
   */
  function GetPrice(s: ContractState, m: Market, token: TokenId, size: u64): (r: Result<nat>)
    ensures size > s.sizeLimit ==> r == Failure(SizeExceedsLimit)
    ensures size <= s.sizeLimit && !PriceConfigured(s) ==> r == Failure(OrderPriceNotSet)
    ensures size <= s.sizeLimit && PriceConfigured(s) && token == s.cruTokenId ==>
      r == Success(PriceInCru(s.basePrice.value, s.bytePrice.value, s.servicePriceRate, size))
    ensures size <= s.sizeLimit && PriceConfigured(s) && token != s.cruTokenId ==>
      r == GetPriceInToken(s, m, QuotedToken(s, token),
                           PriceInCru(s.basePrice.value, s.bytePrice.value, s.servicePriceRate, size))
  {
    if size > s.sizeLimit then Failure(SizeExceedsLimit)
    else if !PriceConfigured(s) then Failure(OrderPriceNotSet)
    else
      var priceInCru := PriceInCru(s.basePrice.value, s.bytePrice.value, s.servicePriceRate, size);
      if token == s.cruTokenId then Success(priceInCru)
      else GetPriceInToken(s, m, QuotedToken(s, token), priceInCru)
  }

  // ---------------------------------------------------------------------
  // Properties of the CRU fee
  // ---------------------------------------------------------------------

  /** The markup never lowers the fee, and a zero rate leaves it exactly linear. */
  lemma MarkupAtLeastLinearFee(basePrice: nat, bytePrice: nat, rate: nat, size: u64)
    ensures PriceInCru(basePrice, bytePrice, rate, size) >= LinearFee(basePrice, bytePrice, size)
    ensures rate == 0 ==> PriceInCru(basePrice, bytePrice, rate, size) == LinearFee(basePrice, bytePrice, size)
  {
    var fee := LinearFee(basePrice, bytePrice, size);
    var r := PriceInCru(basePrice, bytePrice, rate, size);
    assert fee * (PERCENT + rate) == fee * PERCENT + fee * rate;
    assert fee * PERCENT < (r + 1) * PERCENT;
  }

  /** Larger contents never cost less CRU. */
  lemma PriceInCruMonotoneInSize(basePrice: nat, bytePrice: nat, rate: nat, size1: u64, size2: u64)
    requires size1 <= size2
    ensures PriceInCru(basePrice, bytePrice, rate, size1) <= PriceInCru(basePrice, bytePrice, rate, size2)
  {
    var f1 := LinearFee(basePrice, bytePrice, size1);
    var f2 := LinearFee(basePrice, bytePrice, size2);
    assert bytePrice * (size1 as nat) <= bytePrice * (size2 as nat) by {
      MulLeftMonotone(bytePrice, size1 as nat, size2 as nat);
    }
    MulRightMonotone(f1, f2, PERCENT + rate);
    FloorDivMonotone(f1 * (PERCENT + rate), f2 * (PERCENT + rate), PERCENT);
  }

  /** A higher service rate never lowers the CRU fee. */
  lemma PriceInCruMonotoneInRate(basePrice: nat, bytePrice: nat, rate1: nat, rate2: nat, size: u64)
    requires rate1 <= rate2
    ensures PriceInCru(basePrice, bytePrice, rate1, size) <= PriceInCru(basePrice, bytePrice, rate2, size)
  {
    var fee := LinearFee(basePrice, bytePrice, size);
    MulLeftMonotone(fee, PERCENT + rate1, PERCENT + rate2);
    FloorDivMonotone(fee * (PERCENT + rate1), fee * (PERCENT + rate2), PERCENT);
  }

  // ---------------------------------------------------------------------
  // Properties of get_price
  // ---------------------------------------------------------------------

  /** For CRU, `get_price` succeeds exactly when the size fits and the price is set, and never needs the DEX. */
  lemma GetPriceCru(s: ContractState, m1: Market, m2: Market, size: u64)
    ensures GetPrice(s, m1, s.cruTokenId, size).Success? <==> size <= s.sizeLimit && PriceConfigured(s)
    ensures GetPrice(s, m1, s.cruTokenId, size) == GetPrice(s, m2, s.cruTokenId, size)
  {
  }

  /**
   * After `setOrderPrice(base, perByte)`, a size within the limit is priced
   * exactly when both arguments are non-zero: a zero price reads as unset
   * and fails "Order price has not been set", for every token.
   */
  lemma ZeroPriceLeavesPriceUnset(s: ContractState, m: Market, token: TokenId, size: u64, base: nat, perByte: nat)
    requires size <= s.sizeLimit
    ensures var t := s.(basePrice := StoredPrice(base), bytePrice := StoredPrice(perByte));
            GetPrice(t, m, token, size) == Failure(OrderPriceNotSet) <==> base == 0 || perByte == 0
  {
    var t := s.(basePrice := StoredPrice(base), bytePrice := StoredPrice(perByte));
    if base > 0 && perByte > 0 && token != s.cruTokenId {
      var r := GetPriceInToken(t, m, QuotedToken(t, token),
                               PriceInCru(base, perByte, t.servicePriceRate, size));
      assert r.Success? || r.error != OrderPriceNotSet;
    }
  }

  /** Paying in native EGLD costs what paying in WEGLD costs, unless WEGLD is itself the CRU token. */
  lemma EgldPricedAsWegld(s: ContractState, m: Market, size: u64)
    requires s.wegldTokenId != s.cruTokenId && EGLD != s.cruTokenId
    ensures GetPrice(s, m, EGLD, size) == GetPrice(s, m, s.wegldTokenId, size)
  {
  }

  // ---------------------------------------------------------------------
  // Properties of the bridged conversion
  // ---------------------------------------------------------------------

  /**
   * On the bridged path the conversion is additive up to the final floor:
   * converting `a + b` gives the sum of the two conversions or one more.
   * In particular converting `2 * a` is twice converting `a`, or one more.
   */
  lemma {:induction false} BridgedNearlyAdditive(s: ContractState, m: Market, token: TokenId, a: nat, b: nat)
    requires Bridged(s, m, token)
    ensures var ra := GetPriceInToken(s, m, token, a).value;
            var rb := GetPriceInToken(s, m, token, b).value;
            var rab := GetPriceInToken(s, m, token, a + b).value;
            ra + rb <= rab <= ra + rb + 1
  {
    var u := UnitCruInEgld(s, m);
    var d := UnitTokenInEgld(s, m, token);
    var ra := GetPriceInToken(s, m, token, a).value;
    var rb := GetPriceInToken(s, m, token, b).value;
    var rab := GetPriceInToken(s, m, token, a + b).value;
    assert (a + b) * u == a * u + b * u;
    assert (ra + rb) * d == ra * d + rb * d;
    assert (ra + rb + 2) * d == (ra + 1) * d + (rb + 1) * d;
    // (ra + rb) * d <= (a + b) * u < (rab + 1) * d, so ra + rb <= rab
    LessTimesPositive(ra + rb, rab + 1, d);
    // rab * d <= (a + b) * u < (ra + rb + 2) * d, so rab < ra + rb + 2
    LessTimesPositive(rab, ra + rb + 2, d);
  }

  /** On the bridged path, more CRU never converts to less of the paying token. */
  lemma {:induction false} BridgedMonotone(s: ContractState, m: Market, token: TokenId, a: nat, b: nat)
    requires Bridged(s, m, token) && a <= b
    ensures GetPriceInToken(s, m, token, a).value <= GetPriceInToken(s, m, token, b).value
  {
    BridgedNearlyAdditive(s, m, token, a, b - a);
  }

  // ---------------------------------------------------------------------
  // Arithmetic helpers
  // ---------------------------------------------------------------------

  lemma MulLeftMonotone(k: nat, x: nat, y: nat)
    requires x <= y
    ensures k * x <= k * y
  {
    assert k * y == k * x + k * (y - x);
  }

  lemma MulRightMonotone(x: nat, y: nat, k: nat)
    requires x <= y
    ensures x * k <= y * k
  {
    assert y * k == x * k + (y - x) * k;
  }

  lemma FloorDivMonotone(x: nat, y: nat, d: nat)
    requires x <= y && d > 0
    ensures x / d <= y / d
  {
    assert (x / d) * d <= x && y < (y / d + 1) * d;
    LessTimesPositive(x / d, y / d + 1, d);
  }

  /** If `p * d < q * d` with `d > 0`, then `p < q`. */
  lemma LessTimesPositive(p: nat, q: nat, d: nat)
    requires d > 0 && p * d < q * d
    ensures p < q
  {
    if q <= p {
      MulRightMonotone(q, p, d);
    }
  }
}
