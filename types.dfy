/**
 * Values shared by the storage-order contract model: identifiers, amounts,
 * the failure results of `require!`, the records the contract emits, and the
 * external Router/Pair collaborators as plain functions.
 */
module Types {

  /** Rust's `u64`, the type of content sizes and of the size limit. */
  newtype u64 = x: int | 0 <= x < 0x1_0000_0000_0000_0000

  /** An ESDT token identifier such as "CRU-a1b2c3", or the native "EGLD". */
  type TokenId = string

  /** A 32-byte account address (`ManagedAddress`); only compared for equality. */
  type Address = seq<bv8>

  /** The identifier `TokenIdentifier::egld()` stands for: the chain's native currency. */
  const EGLD: TokenId := "EGLD"

  /** `ManagedAddress::is_zero`: every byte is zero. The router answers this when it knows no pair. */
  predicate IsZero(a: Address) {
    forall i | 0 <= i < |a| :: a[i] == 0
  }

  /** One constructor per `require!` message of the contract, plus the VM's division-by-zero abort. */
  datatype Error =
    | TokenHasBeenAdded          // "Token has been added"
    | NodeHasBeenAdded           // "Node has been added"
    | TokenNotFound              // "Token not found"
    | NodeNotFound               // "Node not found"
    | SizeExceedsLimit           // "Size exceeds the limit"
    | OrderPriceNotSet           // "Order price has not been set"
    | UnsupportedToken           // "Unsupported token to pay"
    | UnsupportedNode            // "Unsupported node to order"
    | PaymentLessThanPrice       // "Payment amount less than price, please get price again"
    | NoNodesToChoose            // "No nodes to choose"
    | EgldCruPairFailed          // "Get egld cru swap pair failed"
    | EgldTokenPairFailed        // "Get egld token swap pair failed"
    | DivisionByZero             // BigUint division by zero aborts the call

  /** A value, or the failure that aborted the call. */
  datatype Result<T> = Success(value: T) | Failure(error: Error)

  /** An endpoint returning `SCResult<()>`. */
  datatype Outcome = Pass | Fail(error: Error)

  /** A token and an amount: the declared payment or one attached ESDT transfer. */
  datatype Payment = Payment(token: TokenId, amount: nat)

  /** One `send().direct(to, token, 0, amount, _)` call. */
  datatype Transfer = Transfer(to: Address, token: TokenId, amount: nat)

  /** The `place_order` event: the two indexed topics and the encoded `PlaceOrderEvent` body. */
  datatype OrderEvent = OrderEvent(
    caller: Address,
    epoch: u64,
    node: Address,
    cid: seq<bv8>,
    token: TokenId,
    price: nat,
    size: u64)

  /**
   * The external DEX. `getPair(router, a, b)` is the router's `getPair` view
   * queried at the router's address; `getAmountIn(pair, wanted, amount)` is the
   * pair's `getAmountIn` view: the input needed to obtain `amount` of `wanted`.
   */
  datatype Market = Market(
    getPair: (Address, TokenId, TokenId) -> Address,
    getAmountIn: (Address, TokenId, nat) -> nat)

  /** The contract's persisted storage, as the price and settlement logic read it. */
  datatype ContractState = ContractState(
    routerAddress: Address,
    cruTokenId: TokenId,
    wegldTokenId: TokenId,
    supportedTokens: seq<TokenId>,
    orderNodes: seq<Address>,
    basePrice: Option<nat>,
    bytePrice: Option<nat>,
    servicePriceRate: nat,
    sizeLimit: u64)

  /** A `SingleValueMapper<BigUint>` that may still be empty. */
  datatype Option<T> = None | Some(value: T)
}
