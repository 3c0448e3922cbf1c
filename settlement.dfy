/**
 * What one settlement call (`place_order_with_node`, `place_order`) does,
 * as a value: either the error that aborts it, or the transfers it sends and
 * the event it emits. The contract's methods are proved to apply exactly
 * these effects; the lemmas below state what the effects guarantee.
 */
module Settlement {
  import opened Types
  import opened OrderedSet
  import opened Pricing

  /** The effects of a successful settlement, in the order they happen. */
  datatype Effects = Effects(transfers: seq<Transfer>, event: OrderEvent)

  /** The payment actually made: the first attached ESDT transfer if there is one, else the declared one. */
  function RealPayment(declared: Payment, esdtTransfers: seq<Payment>): (p: Payment)
    ensures esdtTransfers != [] ==> p == esdtTransfers[0]
    ensures p == declared || p in esdtTransfers
  {
    if |esdtTransfers| > 0 then esdtTransfers[0] else declared
  }

  /** The transfers of a settled order: `price` to the node, then the change to the caller if any. */
  function SettlementTransfers(caller: Address, node: Address, token: TokenId, amount: nat, price: nat): seq<Transfer>
    requires price <= amount
  {
    [Transfer(node, token, price)]
      + (if amount > price then [Transfer(caller, token, amount - price)] else [])
  }

  /**
   * `place_order_with_node`: the size check, the ESDT override of the
   * declared payment, the token and node checks, the price, the payment
   * check, then the node payment, the refund and the event.
   */
  function PlanOrderWithNode(s: ContractState, m: Market, caller: Address, epoch: u64,
                             declared: Payment, esdtTransfers: seq<Payment>,
                             node: Address, cid: seq<bv8>, size: u64): (r: Result<Effects>)
    ensures r.Success? ==>
      && size <= s.sizeLimit
      && RealPayment(declared, esdtTransfers).token in s.supportedTokens
      && node in s.orderNodes
      && r.value.event.node == node && r.value.event.caller == caller
      && r.value.event.token == RealPayment(declared, esdtTransfers).token
      && r.value.event.price <= RealPayment(declared, esdtTransfers).amount
  {
    if size > s.sizeLimit then Failure(SizeExceedsLimit)
    else
      var pay := RealPayment(declared, esdtTransfers);
      if pay.token !in s.supportedTokens then Failure(UnsupportedToken)
      else if node !in s.orderNodes then Failure(UnsupportedNode)
      else
        var price := GetPrice(s, m, pay.token, size);
        if price.Failure? then Failure(price.error)
        else if pay.amount < price.value then Failure(PaymentLessThanPrice)
        else
          Success(Effects(
            SettlementTransfers(caller, node, pay.token, pay.amount, price.value),
            OrderEvent(caller, epoch, node, cid, pay.token, price.value, size)))
  }

  /** `place_order`: the node at position `randIndex` of the node set is drawn first, then the order is placed with it. */
  function PlanOrder(s: ContractState, m: Market, randIndex: nat, caller: Address, epoch: u64,
                     declared: Payment, esdtTransfers: seq<Payment>,
                     cid: seq<bv8>, size: u64): (r: Result<Effects>)
    requires s.orderNodes != [] ==> randIndex < |s.orderNodes|
    ensures s.orderNodes == [] ==> r == Failure(NoNodesToChoose)
    ensures r.Success? ==> r.value.event.node == s.orderNodes[randIndex]
  {
    if s.orderNodes == [] then Failure(NoNodesToChoose)
    else PlanOrderWithNode(s, m, caller, epoch, declared, esdtTransfers, s.orderNodes[randIndex], cid, size)
  }

  /** The sum of the amounts a list of transfers moves. */
  function TotalSent(ts: seq<Transfer>): nat {
    if ts == [] then 0 else ts[0].amount + TotalSent(ts[1..])
  }

  // ---------------------------------------------------------------------
  // Failure conditions
  // ---------------------------------------------------------------------

  /**
   * Which check aborts the order, in the order the contract makes them; and
   * the order settles exactly when none does.
   */
  lemma PlanOrderWithNodeErrors(s: ContractState, m: Market, caller: Address, epoch: u64,
                                declared: Payment, esdtTransfers: seq<Payment>,
                                node: Address, cid: seq<bv8>, size: u64)
    ensures var r := PlanOrderWithNode(s, m, caller, epoch, declared, esdtTransfers, node, cid, size);
            var pay := RealPayment(declared, esdtTransfers);
            var price := GetPrice(s, m, pay.token, size);
            && (size > s.sizeLimit ==> r == Failure(SizeExceedsLimit))
            && (size <= s.sizeLimit && pay.token !in s.supportedTokens ==> r == Failure(UnsupportedToken))
            && (size <= s.sizeLimit && pay.token in s.supportedTokens && node !in s.orderNodes ==>
                  r == Failure(UnsupportedNode))
            && (pay.token in s.supportedTokens && node in s.orderNodes && price.Failure? ==>
                  r == Failure(price.error))
            && (pay.token in s.supportedTokens && node in s.orderNodes && price.Success? && pay.amount < price.value ==>
                  r == Failure(PaymentLessThanPrice))
            && (r.Success? <==>
                  pay.token in s.supportedTokens && node in s.orderNodes
                  && price.Success? && pay.amount >= price.value)
  {
    var pay := RealPayment(declared, esdtTransfers);
    if size > s.sizeLimit {
      assert GetPrice(s, m, pay.token, size) == Failure(SizeExceedsLimit);
    }
  }

  /** Only the first attached ESDT transfer matters: the declared payment and later transfers are ignored. */
  lemma FirstEsdtTransferWins(s: ContractState, m: Market, caller: Address, epoch: u64,
                              declared: Payment, esdtTransfers: seq<Payment>,
                              node: Address, cid: seq<bv8>, size: u64)
    requires esdtTransfers != []
    ensures PlanOrderWithNode(s, m, caller, epoch, declared, esdtTransfers, node, cid, size)
         == PlanOrderWithNode(s, m, caller, epoch, esdtTransfers[0], [], node, cid, size)
  {
  }

  // ---------------------------------------------------------------------
  // What a settled order guarantees
  // ---------------------------------------------------------------------

  /**
   * A settled order pays the node exactly the price `get_price` quotes for
   * the real payment token, refunds the change exactly when there is some,
   * and so hands out exactly the amount paid; the event records the order.
   */
  lemma {:induction false} SettlementConservesPayment(s: ContractState, m: Market, caller: Address, epoch: u64,
                                                      declared: Payment, esdtTransfers: seq<Payment>,
                                                      node: Address, cid: seq<bv8>, size: u64)
    requires PlanOrderWithNode(s, m, caller, epoch, declared, esdtTransfers, node, cid, size).Success?
    ensures var e := PlanOrderWithNode(s, m, caller, epoch, declared, esdtTransfers, node, cid, size).value;
            var pay := RealPayment(declared, esdtTransfers);
            && GetPrice(s, m, pay.token, size) == Success(e.event.price)
            && e.event == OrderEvent(caller, epoch, node, cid, pay.token, e.event.price, size)
            && e.event.price <= pay.amount
            && e.transfers[0] == Transfer(node, pay.token, e.event.price)
            && (|e.transfers| == 2 <==> pay.amount > e.event.price)
            && (|e.transfers| == 1 <==> pay.amount == e.event.price)
            && (|e.transfers| == 2 ==> e.transfers[1] == Transfer(caller, pay.token, pay.amount - e.event.price))
            && (forall t | t in e.transfers :: t.token == pay.token)
            && TotalSent(e.transfers) == pay.amount
  {
    var e := PlanOrderWithNode(s, m, caller, epoch, declared, esdtTransfers, node, cid, size).value;
    var pay := RealPayment(declared, esdtTransfers);
    var price := e.event.price;
    if pay.amount > price {
      assert e.transfers == [Transfer(node, pay.token, price), Transfer(caller, pay.token, pay.amount - price)];
      assert TotalSent(e.transfers) == price + TotalSent(e.transfers[1..]);
      assert TotalSent(e.transfers[1..]) == pay.amount - price + TotalSent(e.transfers[2..]);
    } else {
      assert e.transfers == [Transfer(node, pay.token, price)];
      assert TotalSent(e.transfers) == price + TotalSent(e.transfers[1..]);
    }
  }

  /** `place_order` fails with "No nodes to choose" on an empty node set, before any other check. */
  lemma PlaceOrderNeedsNodes(s: ContractState, m: Market, randIndex: nat, caller: Address, epoch: u64,
                             declared: Payment, esdtTransfers: seq<Payment>, cid: seq<bv8>, size: u64)
    requires s.orderNodes == []
    ensures PlanOrder(s, m, randIndex, caller, epoch, declared, esdtTransfers, cid, size) == Failure(NoNodesToChoose)
  {
  }

  /**
   * `place_order` never fails with "Unsupported node to order": the drawn
   * node is registered. A settled order goes to that node.
   */
  lemma PlaceOrderUsesRegisteredNode(s: ContractState, m: Market, randIndex: nat, caller: Address, epoch: u64,
                                     declared: Payment, esdtTransfers: seq<Payment>, cid: seq<bv8>, size: u64)
    requires s.orderNodes != [] ==> randIndex < |s.orderNodes|
    ensures var r := PlanOrder(s, m, randIndex, caller, epoch, declared, esdtTransfers, cid, size);
            && r != Failure(UnsupportedNode)
            && (r.Success? ==> r.value.event.node == s.orderNodes[randIndex] && r.value.event.node in s.orderNodes)
  {
  }

  // ---------------------------------------------------------------------
  // A worked example
  // ---------------------------------------------------------------------

  /**
   * Base price 100, byte price 2, rate 10%, limit 1000: 50 bytes cost
   * (100 + 2 * 50) * 110 / 100 = 220 CRU; paying 300 CRU sends 220 to the
   * node and refunds 80.
   */
  lemma {:induction false} WorkedExample(m: Market, router: Address, cru: TokenId, wegld: TokenId,
                                         caller: Address, node: Address, epoch: u64, cid: seq<bv8>)
    ensures var s := ContractState(router, cru, wegld, [EGLD, wegld, cru], [node], Some(100), Some(2), 10, 1000);
            && GetPrice(s, m, cru, 50) == Success(220)
            && PlanOrderWithNode(s, m, caller, epoch, Payment(cru, 300), [], node, cid, 50)
               == Success(Effects([Transfer(node, cru, 220), Transfer(caller, cru, 80)],
                                  OrderEvent(caller, epoch, node, cid, cru, 220, 50)))
  {
    var s := ContractState(router, cru, wegld, [EGLD, wegld, cru], [node], Some(100), Some(2), 10, 1000);
    assert LinearFee(100, 2, 50) == 200;
    assert PriceInCru(100, 2, 10, 50) == 220;
    assert cru in s.supportedTokens && node in s.orderNodes;
    assert GetPrice(s, m, cru, 50) == Success(220);
    assert SettlementTransfers(caller, node, cru, 300, 220) == [Transfer(node, cru, 220), Transfer(caller, cru, 80)];
  }
}
