/**
 * The storage-order contract: its storage as fields, its owner endpoints
 * as guarded updates of those fields, and the two settlement endpoints as
 * step-by-step methods that append to the log of transfers and events.
 * A failing `require!` returns `Fail` and leaves every field as it was.
 */
module StorageOrderContract {
  import opened Types
  import opened OrderedSet
  import opened Pricing
  import opened Settlement

  class StorageOrder {
    // Fixed by `init`.
    const routerAddress: Address
    const cruTokenId: TokenId
    const wegldTokenId: TokenId

    // Storage mappers the owner endpoints update.
    var supportedTokens: seq<TokenId>   // SetMapper, in iteration order
    var orderNodes: seq<Address>        // SetMapper, in iteration order
    var basePrice: Option<nat>          // None while the mapper is empty
    var bytePrice: Option<nat>
    var servicePriceRate: nat
    var sizeLimit: u64

    // What the contract has done to the outside world.
    var transfers: seq<Transfer>        // every `send().direct`, in order
    var events: seq<OrderEvent>         // every `place_order` event, in order

    /**
     * Neither set mapper holds an element twice, and a price mapper that is
     * not empty holds a non-zero amount (zero is stored as empty).
     */
    predicate Valid()
      reads this
    {
      && NoDup(supportedTokens) && NoDup(orderNodes)
      && (basePrice.Some? ==> basePrice.value > 0)
      && (bytePrice.Some? ==> bytePrice.value > 0)
    }

    /** The storage, as the price and settlement specifications read it. */
    function State(): ContractState
      reads this
    {
      ContractState(routerAddress, cruTokenId, wegldTokenId, supportedTokens, orderNodes,
                    basePrice, bytePrice, servicePriceRate, sizeLimit)
    }

    /** `init`: EGLD, WEGLD and CRU are accepted; no node, no price yet. */
    constructor Init(cruToken: TokenId, wegldToken: TokenId, router: Address, rate: nat, limit: u64)
      ensures Valid()
      ensures routerAddress == router && cruTokenId == cruToken && wegldTokenId == wegldToken
      ensures Elems(supportedTokens) == {EGLD, wegldToken, cruToken}
      ensures supportedTokens == Insert(Insert(Insert([], EGLD), wegldToken), cruToken)
      ensures orderNodes == [] && basePrice == None && bytePrice == None
      ensures servicePriceRate == rate && sizeLimit == limit
      ensures transfers == [] && events == []
    {
      routerAddress := router;
      cruTokenId := cruToken;
      wegldTokenId := wegldToken;
      servicePriceRate := rate;
      sizeLimit := limit;
      supportedTokens := Insert(Insert(Insert([], EGLD), wegldToken), cruToken);
      orderNodes := [];
      basePrice, bytePrice := None, None;
      transfers, events := [], [];
    }

    // -------------------------------------------------------------------
    // Owner endpoints
    // -------------------------------------------------------------------

    /** `addSupportedToken`: fails on a token already accepted; otherwise accepts exactly it. */
    method AddSupportedToken(token: TokenId) returns (r: Outcome)
      requires Valid()
      modifies this`supportedTokens
      ensures Valid()
      ensures token in old(supportedTokens) ==> r == Fail(TokenHasBeenAdded) && supportedTokens == old(supportedTokens)
      ensures token !in old(supportedTokens) ==> r == Pass && supportedTokens == old(supportedTokens) + [token]
      ensures Elems(supportedTokens) == Elems(old(supportedTokens)) + {token}
    {
      if token in supportedTokens {
        return Fail(TokenHasBeenAdded);
      }
      supportedTokens := Insert(supportedTokens, token);
      return Pass;
    }

    /** `addOrderNode`: fails on a node already registered; otherwise registers exactly it. */
    method AddOrderNode(node: Address) returns (r: Outcome)
      requires Valid()
      modifies this`orderNodes
      ensures Valid()
      ensures node in old(orderNodes) ==> r == Fail(NodeHasBeenAdded) && orderNodes == old(orderNodes)
      ensures node !in old(orderNodes) ==> r == Pass && orderNodes == old(orderNodes) + [node]
      ensures Elems(orderNodes) == Elems(old(orderNodes)) + {node}
    {
      if node in orderNodes {
        return Fail(NodeHasBeenAdded);
      }
      orderNodes := Insert(orderNodes, node);
      return Pass;
    }

    /** `removeSupportedToken`: fails on a token not accepted; otherwise withdraws exactly it. */
    method RemoveSupportedToken(token: TokenId) returns (r: Outcome)
      requires Valid()
      modifies this`supportedTokens
      ensures Valid()
      ensures token !in old(supportedTokens) ==> r == Fail(TokenNotFound) && supportedTokens == old(supportedTokens)
      ensures token in old(supportedTokens) ==> r == Pass && supportedTokens == Remove(old(supportedTokens), token)
      ensures Elems(supportedTokens) == Elems(old(supportedTokens)) - {token}
    {
      if token !in supportedTokens {
        return Fail(TokenNotFound);
      }
      supportedTokens := Remove(supportedTokens, token);
      return Pass;
    }

    /** `removeOrderNode`: fails on a node not registered; otherwise deregisters exactly it. */
    method RemoveOrderNode(node: Address) returns (r: Outcome)
      requires Valid()
      modifies this`orderNodes
      ensures Valid()
      ensures node !in old(orderNodes) ==> r == Fail(NodeNotFound) && orderNodes == old(orderNodes)
      ensures node in old(orderNodes) ==> r == Pass && orderNodes == Remove(old(orderNodes), node)
      ensures Elems(orderNodes) == Elems(old(orderNodes)) - {node}
    {
      if node !in orderNodes {
        return Fail(NodeNotFound);
      }
      orderNodes := Remove(orderNodes, node);
      return Pass;
    }

    /**
     * `setOrderPrice`: stores both price parameters. A zero is stored as an
     * empty mapper, so the price counts as configured only when both are
     * non-zero.
     */
    method SetOrderPrice(base: nat, perByte: nat) returns (r: Outcome)
      requires Valid()
      modifies this`basePrice, this`bytePrice
      ensures Valid()
      ensures r == Pass && basePrice == StoredPrice(base) && bytePrice == StoredPrice(perByte)
      ensures PriceConfigured(State()) <==> base > 0 && perByte > 0
      ensures PriceConfigured(State()) ==> basePrice.value == base && bytePrice.value == perByte
    {
      basePrice := StoredPrice(base);
      bytePrice := StoredPrice(perByte);
      return Pass;
    }

    /** `setServicePriceRate`. */
    method SetServicePriceRate(rate: nat) returns (r: Outcome)
      modifies this`servicePriceRate
      ensures r == Pass && servicePriceRate == rate
    {
      servicePriceRate := rate;
      return Pass;
    }

    /** `setSizeLimit`. */
    method SetSizeLimit(limit: u64) returns (r: Outcome)
      modifies this`sizeLimit
      ensures r == Pass && sizeLimit == limit
    {
      sizeLimit := limit;
      return Pass;
    }

    // -------------------------------------------------------------------
    // Node selection
    // -------------------------------------------------------------------

    /**
     * `get_random_node`: fails on an empty node set; otherwise advances an
     * iterator over the set `randIndex` times (the index the randomness
     * source drew in `[0, len)`) and returns the node it then points at.
     */
    method GetRandomNode(randIndex: nat) returns (r: Result<Address>)
      requires orderNodes != [] ==> randIndex < |orderNodes|
      ensures orderNodes == [] <==> r == Failure(NoNodesToChoose)
      ensures orderNodes != [] ==> r == Success(orderNodes[randIndex])
      ensures r.Success? ==> r.value in orderNodes
      ensures Valid() && r.Success? ==> IndexOf(orderNodes, r.value) == randIndex
    {
      if |orderNodes| == 0 {
        return Failure(NoNodesToChoose);
      }
      if Valid() {
        PositionsMatchElements(orderNodes);
      }
      var iter := orderNodes;   // the elements the iterator has not yet passed
      for i := 0 to randIndex
        invariant iter == orderNodes[i..]
      {
        iter := iter[1..];
      }
      return Success(iter[0]);
    }

    // -------------------------------------------------------------------
    // Settlement
    // -------------------------------------------------------------------

    /** One `send().direct`: appends the transfer to the log. */
    method SendDirect(to: Address, token: TokenId, amount: nat)
      modifies this`transfers
      ensures transfers == old(transfers) + [Transfer(to, token, amount)]
    {
      transfers := transfers + [Transfer(to, token, amount)];
    }

    /** `emit_place_order_event`, with the block epoch supplied by the caller of the model. */
    method EmitPlaceOrderEvent(caller: Address, epoch: u64, node: Address, cid: seq<bv8>,
                               token: TokenId, price: nat, size: u64)
      modifies this`events
      ensures events == old(events) + [OrderEvent(caller, epoch, node, cid, token, price, size)]
    {
      events := events + [OrderEvent(caller, epoch, node, cid, token, price, size)];
    }

    /**
     * `placeOrderWithNode`. `paymentToken`/`paymentAmount` are the declared
     * payment, `esdtTransfers` the attached ESDT transfers, `caller` and
     * `epoch` what the blockchain reports. On failure nothing is sent or
     * emitted; on success the transfers and the event of
     * `PlanOrderWithNode` are appended, and no storage mapper changes.
     */
    method PlaceOrderWithNode(m: Market, caller: Address, epoch: u64,
                              paymentToken: TokenId, paymentAmount: nat, esdtTransfers: seq<Payment>,
                              node: Address, cid: seq<bv8>, size: u64) returns (r: Outcome)
      modifies this`transfers, this`events
      ensures var plan := PlanOrderWithNode(old(State()), m, caller, epoch, Payment(paymentToken, paymentAmount),
                                            esdtTransfers, node, cid, size);
              && (plan.Failure? ==> r == Fail(plan.error) && transfers == old(transfers) && events == old(events))
              && (plan.Success? ==>
                    r == Pass && transfers == old(transfers) + plan.value.transfers
                    && events == old(events) + [plan.value.event])
    {
      if size > sizeLimit {
        return Fail(SizeExceedsLimit);
      }
      var realPaymentToken := paymentToken;
      var realPaymentAmount := paymentAmount;
      if |esdtTransfers| > 0 {
        realPaymentToken := esdtTransfers[0].token;
        realPaymentAmount := esdtTransfers[0].amount;
      }
      if realPaymentToken !in supportedTokens {
        return Fail(UnsupportedToken);
      }
      if node !in orderNodes {
        return Fail(UnsupportedNode);
      }

      var quoted := GetPrice(State(), m, realPaymentToken, size);
      if quoted.Failure? {
        return Fail(quoted.error);
      }
      var price := quoted.value;
      if realPaymentAmount < price {
        return Fail(PaymentLessThanPrice);
      }

      SendDirect(node, realPaymentToken, price);
      if realPaymentAmount > price {
        SendDirect(caller, realPaymentToken, realPaymentAmount - price);
      }
      EmitPlaceOrderEvent(caller, epoch, node, cid, realPaymentToken, price, size);
      return Pass;
    }

    /**
     * `placeOrder`: draws the node first, so an empty node set fails with
     * "No nodes to choose" before any other check, then places the order
     * with the drawn node.
     */
    method PlaceOrder(m: Market, randIndex: nat, caller: Address, epoch: u64,
                      paymentToken: TokenId, paymentAmount: nat, esdtTransfers: seq<Payment>,
                      cid: seq<bv8>, size: u64) returns (r: Outcome)
      requires orderNodes != [] ==> randIndex < |orderNodes|
      modifies this`transfers, this`events
      ensures var plan := PlanOrder(old(State()), m, randIndex, caller, epoch, Payment(paymentToken, paymentAmount),
                                    esdtTransfers, cid, size);
              && (plan.Failure? ==> r == Fail(plan.error) && transfers == old(transfers) && events == old(events))
              && (plan.Success? ==>
                    r == Pass && transfers == old(transfers) + plan.value.transfers
                    && events == old(events) + [plan.value.event])
    {
      var drawn := GetRandomNode(randIndex);
      if drawn.Failure? {
        return Fail(drawn.error);
      }
      r := PlaceOrderWithNode(m, caller, epoch, paymentToken, paymentAmount, esdtTransfers, drawn.value, cid, size);
    }
  }
}
