# Storage-order contract model

A Dafny model of the Elrond smart contract `StorageOrder` (src/storage_order.rs).
The contract sells storage orders. A client names a content id and a byte size
and pays in one of the accepted tokens. The contract then works in this order:

- it prices the order in CRU with a linear fee `base + byte * size` and a service markup `* (100 + rate) / 100`;
- it converts that CRU price into the paying token through the DEX's router and pairs, either directly or bridged through WEGLD;
- it picks a storage node, the one the client named or one drawn at random from the registered set;
- it pays the node exactly the price, refunds any change to the caller, and emits a `place_order` event.

The owner endpoints maintain the accepted tokens, the registered nodes, the two
price parameters, the service rate and the size limit.

Files:

- `types.dfy`: identifiers, `u64`, the error per `require!` message, transfers, the event record, the `Market` (the router's `getPair` and the pair's `getAmountIn` views as functions) and the `ContractState` snapshot.
- `ordered_set.dfy`: the `SetMapper` storage as a duplicate-free sequence in iteration order. Insertion links the new element at the end. Removal unlinks the element and keeps the others in order.
- `pricing.dfy`: `get_price` and `get_price_in_token` as functions, with lemmas on the fee and on the bridged conversion.
- `settlement.dfy`: the effects of `place_order_with_node` and `place_order` as values (`PlanOrderWithNode`, `PlanOrder`), with lemmas on failures, the ESDT override and conservation of the payment.
- `storage_order.dfy`: the class `StorageOrder`. Its fields are the storage mappers plus a log of transfers and events. Its methods are the endpoints, written step by step like the source. The settlement methods are proved to append exactly the effects `PlanOrderWithNode`/`PlanOrder` describe.

A failing `require!` is a `Failure`/`Fail` result. No field changes on that path:
every check in the settlement precedes the first transfer, so the host's
rollback has nothing to undo.

Details of the code that the model keeps as written:

- `place_order` draws the node before any check (line 206). An empty node set therefore fails with "No nodes to choose" even when the size or the token would also be rejected.
- `place_order_with_node` checks the size first, before it resolves the payment token.
- The two missing bridge legs fail with two different messages.
- A bridged conversion whose WEGLD-token probe quote is zero divides by zero. The VM aborts the call there, so the model returns `DivisionByZero`.
- Iteration order of a set mapper is insertion order, with removed entries unlinked.
- `setOrderPrice` with a zero base or byte price leaves that mapper empty, because the codec stores a zero `BigUint` as no bytes. `get_price` then fails "Order price has not been set", so a flat fee (byte price 0) or a per-byte-only fee (base price 0) cannot be priced.

## Model

| member | source | states |
|---|---|---|
| OrderedSet.Insert | src/storage_order.rs:65-67 | SetMapper insert: the set gains exactly `x`; a present element changes nothing; a new one is appended after the others; no duplicate appears |
| OrderedSet.Remove | src/storage_order.rs:110 | SetMapper remove: the entry holding `x` is unlinked and the rest keep their order; the set loses exactly `x`, the length drops by one, and no duplicate appears; an absent element changes nothing |
| OrderedSet.InsertThenRemove | src/storage_order.rs:80-110 | adding an absent token or node and then removing it restores the mapper exactly, order included |
| OrderedSet.NoDupCard | src/storage_order.rs:276-281 | for a duplicate-free mapper, `len()` (the range of the random index) equals the number of distinct elements; used by `PositionsMatchElements` |
| OrderedSet.PositionsMatchElements | src/storage_order.rs:276-286 | in a duplicate-free node set the indices `[0, len)` and the distinct nodes correspond one to one: there are as many of each, and every node sits at exactly one index, so the draw of an index in `[0, len)` selects each registered node through exactly one index |
| Pricing.PriceInCru | src/storage_order.rs:180-183 | the marked-up CRU fee is the floor of `(base + byte*size) * (100 + rate) / 100`: `r*100 <= fee*(100+rate) < (r+1)*100` |
| Pricing.GetPriceInToken | src/storage_order.rs:289-331 | a non-zero direct token-CRU pair gives its amount-in quote for the CRU amount; with no direct pair, a missing WEGLD-CRU pair fails "Get egld cru swap pair failed", then a missing WEGLD-token pair fails "Get egld token swap pair failed", and a zero token probe quote aborts on division by zero; otherwise the result is the floor of `cruAmount * unitCruInEgld / unitTokenInEgld`, both quoted for 10^12 |
| Pricing.GetPrice | src/storage_order.rs:165-195 | a size over the limit fails "Size exceeds the limit" whatever the token; then an unset base or byte price fails "Order price has not been set"; CRU gets the marked-up fee; any other token gets that fee converted, with EGLD asked about as WEGLD |
| Pricing.QuotedToken | src/storage_order.rs:189-193 | the token asked about is the paying token itself, or WEGLD when the paying token is native EGLD; native EGLD is never sent to the DEX unless WEGLD is itself named EGLD |
| Pricing.StoredPrice | src/storage_order.rs:137-138 | a `BigUint` price mapper set to `v` reads as non-empty exactly when `v > 0`, and then holds `v`: the codec stores zero as no bytes |
| Pricing.ZeroPriceLeavesPriceUnset | src/storage_order.rs:137-179 | after `setOrderPrice(base, perByte)`, for any token and a size within the limit, `get_price` fails "Order price has not been set" exactly when `base` or `perByte` is zero |
| Pricing.MarkupAtLeastLinearFee | src/storage_order.rs:180-183 | the markup never lowers the linear fee, and a zero rate leaves it exactly `base + byte*size` |
| Pricing.PriceInCruMonotoneInSize | src/storage_order.rs:180-183 | a larger size never costs less CRU |
| Pricing.PriceInCruMonotoneInRate | src/storage_order.rs:182-183 | a higher service rate never lowers the CRU fee |
| Pricing.GetPriceCru | src/storage_order.rs:185-187 | for CRU, `get_price` succeeds exactly when the size fits and the price is set, and the answer does not depend on the DEX |
| Pricing.EgldPricedAsWegld | src/storage_order.rs:188-193 | when WEGLD and EGLD are not the CRU token, paying in EGLD is priced exactly as paying in WEGLD |
| Pricing.BridgedNearlyAdditive | src/storage_order.rs:304-330 | on the bridged path, converting `a + b` gives the sum of the two conversions or one more, so doubling the amount doubles the price up to one unit |
| Pricing.BridgedMonotone | src/storage_order.rs:329 | on the bridged path, more CRU never converts to less of the paying token |
| Settlement.PlanOrderWithNodeErrors | src/storage_order.rs:225-250 | the settlement aborts with the first failing check in the contract's order (size, supported token, registered node, price errors, payment below price) and succeeds exactly when none fails |
| Settlement.FirstEsdtTransferWins | src/storage_order.rs:229-236 | with at least one ESDT transfer attached, the outcome equals paying that first transfer's token and amount; the declared payment and later transfers are ignored |
| Settlement.RealPayment | src/storage_order.rs:229-236 | the payment settled is the first attached ESDT transfer when there is one, and otherwise the declared payment; it is always one of the two |
| Settlement.PlanOrderWithNode | src/storage_order.rs:215-270 | a settled order passed the size, token and node checks and was paid at least its price; its event names the caller, the given node and the real payment token. The abort order is in `PlanOrderWithNodeErrors`, the transfers and conservation in `SettlementConservesPayment`, the ESDT override in `FirstEsdtTransferWins` |
| Settlement.PlanOrder | src/storage_order.rs:197-213 | an empty node set fails "No nodes to choose"; a settled order goes to the node at the drawn index. Further properties are in `PlaceOrderNeedsNodes` and `PlaceOrderUsesRegisteredNode` |
| Settlement.SettlementConservesPayment | src/storage_order.rs:246-267 | a settled order pays the node exactly the `get_price` quote; there is a refund iff the amount exceeds the price, and it is `amount - price` to the caller; every transfer is in the paying token; the transfers add up to the amount paid; the event records caller, epoch, node, cid, token, price and size |
| Settlement.PlaceOrderNeedsNodes | src/storage_order.rs:206 | `place_order` on an empty node set fails "No nodes to choose" whatever the token, size or payment |
| Settlement.PlaceOrderUsesRegisteredNode | src/storage_order.rs:206-244 | `place_order` never fails "Unsupported node to order", and a settled order goes to the drawn node, a registered one |
| Settlement.WorkedExample | src/storage_order.rs:180-258 | base 100, byte 2, rate 10: 50 bytes cost 220 CRU; paying 300 CRU sends 220 to the node and refunds 80 |
| StorageOrderContract.StorageOrder.Init | src/storage_order.rs:51-68 | `init` stores the router, the CRU and WEGLD ids, the rate and the size limit, and accepts exactly EGLD, WEGLD and CRU; no node and no price yet |
| StorageOrderContract.StorageOrder.AddSupportedToken | src/storage_order.rs:70-83 | an accepted token fails "Token has been added" and changes nothing; otherwise exactly that token is appended; no duplicates |
| StorageOrderContract.StorageOrder.AddOrderNode | src/storage_order.rs:85-98 | a registered node fails "Node has been added" and changes nothing; otherwise exactly that node is appended; no duplicates |
| StorageOrderContract.StorageOrder.RemoveSupportedToken | src/storage_order.rs:100-113 | a token not accepted fails "Token not found" and changes nothing; otherwise exactly that token is withdrawn, the others keep their order |
| StorageOrderContract.StorageOrder.RemoveOrderNode | src/storage_order.rs:115-128 | a node not registered fails "Node not found" and changes nothing; otherwise exactly that node is removed, the others keep their order |
| StorageOrderContract.StorageOrder.SetOrderPrice | src/storage_order.rs:130-141 | stores both price parameters as the `BigUint` mappers do, with zero stored as empty; the price is configured afterwards exactly when both arguments are non-zero, and then holds them; keeps `Valid()` |
| StorageOrderContract.StorageOrder.SetServicePriceRate | src/storage_order.rs:143-152 | the service rate becomes the given value |
| StorageOrderContract.StorageOrder.SetSizeLimit | src/storage_order.rs:154-163 | the size limit becomes the given value |
| StorageOrderContract.StorageOrder.GetRandomNode | src/storage_order.rs:274-287 | fails "No nodes to choose" iff the node set is empty; otherwise, after the iterator advances `randIndex` times, returns the node at that position of the set's iteration order, always a registered node, and in a duplicate-free set the one node whose position is `randIndex` |
| StorageOrderContract.StorageOrder.SendDirect | src/storage_order.rs:252 | a direct transfer appends one (recipient, token, amount) record to the transfer log |
| StorageOrderContract.StorageOrder.EmitPlaceOrderEvent | src/storage_order.rs:333-355 | the event with caller, epoch, node, cid, token, price and size is appended to the event log |
| StorageOrderContract.StorageOrder.PlaceOrderWithNode | src/storage_order.rs:215-270 | on failure returns the error of `PlanOrderWithNode` on the storage before the call and sends and emits nothing; on success appends exactly its node payment, optional refund and event; no storage mapper changes |
| StorageOrderContract.StorageOrder.PlaceOrder | src/storage_order.rs:197-213 | draws the node first, then behaves as `PlaceOrderWithNode` with it, exactly as `PlanOrder` describes |

## Left out

- wasm/src/lib.rs: the generated endpoint table has no logic.
- Router and Pair contracts: their views are the two functions of `Market`. The AMM curve is not modelled. A proxy call that itself aborts is not modelled either.
- Randomness: `RandomnessSource` is replaced by the index it draws, passed in and required to lie in `[0, len)`. Whether the draw is uniform cannot be stated here.
- Owner gating (`#[only_owner]`): enforced by the host and not modelled.
- The read-only views other than `getPrice` (`getSupportedTokens`, `getBasePrice`, ...): they return a field unchanged.
- Transfer mechanics: `send().direct` is an appended (recipient, token, amount) record. The nonce, the message text and a transfer failing for lack of balance are not modelled.
- Event encoding (`TopEncode`, indexed topics): the event is a record. The caller, the block epoch, the declared payment and the attached ESDT transfers are inputs.
- Token identifiers are strings and addresses are byte sequences. Their validity rules are not modelled.
- StorageOrderContract.StorageOrder.GetRandomNode: the randomness of the draw is not stated; only the element at the drawn index is.
