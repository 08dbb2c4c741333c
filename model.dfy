/**
 * The record shapes of the relational schema (core/db/model.py).
 * Database-assigned identifiers are plain integers supplied by the caller;
 * timestamps are whole seconds; `Decimal` columns are reals, which leaves out
 * the float rounding of the anchor price and the rounding of the perturbed
 * ticks to the `Decimal` context.
 */
module Model {

  /** The exclusive upper bound of the `uint256` column type. */
  const UINT256_BOUND: int := 0x1_0000_0000_0000_0000_0000_0000_0000_0000_0000_0000_0000_0000_0000_0000_0000_0000

  /** A value the `uint256` column accepts: a whole number in [0, 2^256). */
  predicate IsUint256(x: real) {
    x.Floor as real == x && 0 <= x.Floor < UINT256_BOUND
  }

  /** A token as the entity factory creates it (before the store assigns an id). */
  datatype Token = Token(name: string, symbol: string, decimals: int)

  /** A protocol together with the tokens it lists. */
  datatype Protocol = Protocol(name: string, tokens: seq<Token>)

  /** The link row between a protocol and one of its tokens; balances and TVL refer to it. */
  datatype ProtocolToken = ProtocolToken(id: int, protocolId: int, tokenId: int)

  /** One row of `account_balance_history`. */
  datatype BalanceRow = BalanceRow(protocolTokenId: int, amount: real, createdAt: int, createdAtBlock: int)

  /** One row of `token_price`. */
  datatype TokenPrice = TokenPrice(tokenId: int, usdPrice: real, createdAt: int)

  /** One row of `tvl_history`. */
  datatype TvlRow = TvlRow(protocolTokenId: int, createdAtBlock: int, amount: real, amountUsd: real, createdAt: int)

  /**
   * An account. Its identity is fixed at creation; the generator only ever
   * appends to its balance history.
   */
  class Account {
    const walletAddress: string
    var balanceHistory: seq<BalanceRow>

    constructor (walletAddress: string)
      ensures this.walletAddress == walletAddress && balanceHistory == []
    {
      this.walletAddress := walletAddress;
      balanceHistory := [];
    }
  }

  /** The primary-key invariant of `protocol_token`: no two rows share an id. */
  predicate UniqueIds(pts: seq<ProtocolToken>) {
    forall i, j :: 0 <= i < j < |pts| ==> pts[i].id != pts[j].id
  }

  /** Pairwise-distinct elements: the account objects every list the generator passes around holds, or token ids. */
  predicate Distinct<T(==)>(s: seq<T>) {
    forall i, j :: 0 <= i < j < |s| ==> s[i] != s[j]
  }
}
