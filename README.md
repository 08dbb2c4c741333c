# protocol-generator, modelled in Dafny

This project models the core of `protocol-generator`. That program seeds a
relational store with synthetic data for one financial protocol: tokens,
accounts, an hourly history of balances and a 10-minute history of token
prices. It then derives a total-value-locked (TVL) history from those rows
with one SQL statement. A second query reads the protocol's current deposit
back from that TVL history.

The model has two halves.

- **The generator** (`ProtocolDataGeneratorService`, `core/service/generator.py`).
  Every random call becomes an explicit, bounded input:
  - a percentage draw in [-15, 15] for `random.randint(-15, 15)`;
  - a list of distinct positions for each `random.sample`;
  - a length and letter positions for `generate_name`;
  - 20 bytes for `secrets.token_hex(20)`.

  Store-assigned ids are inputs too: the protocol-token list and the token
  ids. Timestamps are whole seconds. Amounts and prices are exact reals.
  Code that changes state keeps its form:
  - accounts are objects whose `balanceHistory` the methods append to;
  - the loops over blocks, accounts, tokens and ticks are `while`/`for` loops
    with invariants.

  Each method is proved against a function of its inputs
  (`AccountHistory`, `PriceRows`), and the properties are lemmas about those
  functions.
- **The TVL repository** (`TVLHistoryRepo`, `core/db/repo/tvl_history.py`).
  Both SQL statements are pure functions over sequences of rows:
  - `CalculateHistory` does the join with `protocol_token`, the grouping by
    (protocol token, block), the lateral window of price ticks 0 to 1 hour
    after the balance timestamp, `MIN` over the arrays and the lockstep
    `UNNEST`;
  - `InsertHistory` appends those rows to the table;
  - `GetCurrentProtocolPrice` sums `amount_usd` at the protocol's largest
    block, or gives `None` for SQL's null.

Module layout: `Wrappers` (Option/Result), `Model` (record shapes,
`core/db/model.py`), `GeneratorMath` (ceilings, grids, perturbation), `Names`
(names and wallet addresses), `BalanceHistory` and `PriceHistory` (what the
synthesizers produce, as functions), `Generator` (the service itself, as
methods), `TvlHistory` (the two queries), and `Deposit`, which connects a
generation run to the current-deposit lookup.

What the code does, in the points where it is easy to misread:

- Balances and prices are not random walks. Every perturbed value is the
  fixed anchor (`final_token_amount`, `final_token_price`) moved by its own
  draw (`core/service/generator.py:146-150`, `212-216`).
- Each earlier block changes `ceil(5% × accounts)` accounts
  (`core/service/generator.py:128`), which is exactly one account for 1 to
  20 accounts.
- The history statement does not keep only the earliest tick of the window.
  `UNNEST` emits one TVL row per tick in the window, in time order
  (`core/db/repo/tvl_history.py:20-22`). So an earlier block whose window
  holds several ticks gets several rows per protocol token.
- `MIN` is taken separately over the groups' price arrays and timestamp
  arrays. `CalculateHistory` models this as written. When the two minima
  differ in length, the padded null violates `NOT NULL` and the model
  returns an error. When every row of a group has the same timestamp, as
  the generator writes them, `CalculateHistoryShared` proves that the output
  is one row per tick of that timestamp's window.

## Model

| member | source | states |
|---|---|---|
| `Names.GenerateName` | core/service/generator.py:226-230 | a generated name has a length in [from_k, to_k] and only ASCII letters |
| `Names.GenerateNameReadsBack` | core/service/generator.py:228-230 | each character of the name is the letter drawn for that position, so the draw can be read back |
| `Names.UpperOfLetters` | core/service/generator.py:67 | upper-casing a string of letters yields only upper-case letters, and is idempotent |
| `Names.TokenHex` | core/service/generator.py:77 | a wallet address is 2 lower-case hex digits per random byte: 40 characters for 20 bytes |
| `Names.FromHexTokenHex` | core/service/generator.py:77 | decoding the hex address gives back the drawn bytes |
| `Names.TokenHexInjective` | core/service/generator.py:77 | different byte draws give different wallet addresses |
| `Generator.ProtocolDataGenerator.constructor` | core/service/generator.py:34 | the token count is fixed once per service, within [10, 50] |
| `Generator.MakeToken` | core/service/generator.py:65-69 | a token has a 4–7 letter name, a 3–4 letter upper-case symbol and 1–20 decimals |
| `Generator.ProtocolDataGenerator.GenerateProtocolWithTokens` | core/service/generator.py:60-72 | the protocol has a 5-letter name and exactly `token_number` well-formed tokens, the i-th built from the i-th draw |
| `Generator.GenerateAccounts` | core/service/generator.py:74-80 | exactly n fresh, distinct accounts, each with the 40-hex-digit address of its draw and an empty history |
| `GeneratorMath.CeilDiv` | core/service/generator.py:125-127 | the result is the least whole q with a <= q × b |
| `GeneratorMath.TokensPerAccount` | core/service/generator.py:90 | `ceil(2% × token_number)`, bounded from both sides |
| `GeneratorMath.TokensPerAccountIsOne` | core/service/generator.py:90 | for every token count in [10, 50], each account holds exactly one token |
| `Generator.FinalTokenPrice` | core/service/generator.py:92-96 | price × accounts × tokens per account × 100 = deposit; no price (division by zero) exactly when there are no accounts |
| `GeneratorMath.FinalBlock` | core/service/generator.py:125-127 | `ceil((end − start) / 1 h)`, and 0 exactly when end = start |
| `GeneratorMath.ChangingAccounts` | core/service/generator.py:128 | `ceil(5% × accounts)`, between 1 and the number of accounts when there is any account |
| `GeneratorMath.ChangingAccountsOfSmallPopulation` | core/service/generator.py:128 | with 1 to 20 accounts exactly one account changes per earlier block |
| `GeneratorMath.BlockCreatedAt` | core/service/generator.py:151-153 | block b is stamped `end − (final − b)` hours, which is `end` exactly at the final block |
| `GeneratorMath.Perturb` | core/service/generator.py:146-150 | for a draw in [−15, 15] the value is the anchor times a factor in [0.85, 1.15] |
| `GeneratorMath.PerturbHundred` | core/service/generator.py:146-150 | with the anchor 100 the perturbed amount is the whole number 100 − r |
| `Generator.GenerateAccountTokenBalance` | core/service/generator.py:167-191 | each listed account gets exactly its sampled rows appended, and nothing else changes; when there are more tokens per account than protocol tokens it fails before any append |
| `BalanceHistory.SampleRowsDistinctTokens` | core/service/generator.py:179-191 | one account's rows from one sample name pairwise distinct protocol tokens |
| `Generator.GenerateBlockBalances` | core/service/generator.py:145-165 | one backward step appends block b's rows to exactly the picked accounts |
| `Generator.GenerateBalanceHistory` | core/service/generator.py:116-165 | on success every account's history grows by exactly `AccountHistory`; on failure nothing changes |
| `BalanceHistory.FinalSnapshot` | core/service/generator.py:136-143 | at the final block every account has exactly `tokens_per_account` rows with distinct tokens, amount 100 and timestamp `end` |
| `BalanceHistory.EarlierSnapshot` | core/service/generator.py:145-165 | at an earlier block an account has rows only if picked, then `tokens_per_account` rows with distinct tokens, one shared amount and the block's timestamp |
| `BalanceHistory.ChangedAccountsCount` | core/service/generator.py:128 | exactly `ceil(5% × accounts)` accounts have rows at each earlier block |
| `BalanceHistory.HistoryRowShape` | core/service/generator.py:141-153 | every appended row is on the block grid, for a listed protocol token, with the final amount at the final block and the block's perturbed amount before it |
| `BalanceHistory.HistoryAmountsFitUint256` | core/service/generator.py:146-150 | every amount is a whole number in [85, 115], so fits the `uint256` column |
| `Generator.GenerateTokensPrices` | core/service/generator.py:193-224 | the nested loops return exactly `PriceRows` of the token ids and draws |
| `GeneratorMath.Segments` | core/service/generator.py:202-205 | `ceil((end − start) / 10 min)`, and 0 exactly when end = start |
| `GeneratorMath.TickCreatedAt` | core/service/generator.py:209-211 | tick `delta` is stamped `end − 10·delta` minutes, which is `end` exactly at tick 0 |
| `PriceHistory.TickPriceDrift` | core/service/generator.py:212-220 | every tick lies within 15% of the final price |
| `PriceHistory.PriceRowsCount` | core/service/generator.py:207-224 | exactly `tokens × segments` price rows |
| `PriceHistory.PriceRowsComplete` | core/service/generator.py:207-224 | every tick of every token is among the rows |
| `PriceHistory.PriceRowsSound` | core/service/generator.py:207-224 | every row belongs to a listed token, lies on the tick grid at or before `end`, equals the final price at tick 0 and is within drift elsewhere |
| `PriceHistory.PriceRowsOfEmptyRange` | core/service/generator.py:201-205 | no price rows at all when end = start |
| `Generator.ProtocolDataGenerator.GenerateBalanceHistoryAndTokenPrice` | core/service/generator.py:82-114 | division by zero exactly when there are no accounts, the sampling error exactly when the protocol has too few tokens, nothing changed on error, else the histories and the price rows of the derived final price |
| `TvlHistory.FindTokenUnique` | core/db/repo/tvl_history.py:24 | joining on the primary key finds the one protocol token with that id |
| `TvlHistory.Joined` | core/db/repo/tvl_history.py:23-24 | exactly the balance rows whose protocol token belongs to the protocol take part, each as often as in the table |
| `TvlHistory.Keys` | core/db/repo/tvl_history.py:38-40 | one distinct key per (protocol token, block) that occurs, and every row's key occurs |
| `TvlHistory.Window` | core/db/repo/tvl_history.py:25-36 | the window holds exactly the token's ticks 0 to 1 hour (inclusive) after the balance timestamp, each as often as in the table, sorted by time |
| `TvlHistory.LexMinIsLeast` | core/db/repo/tvl_history.py:20-22 | no array of the group is smaller than its `MIN` in the array order |
| `TvlHistory.TickRows` | core/db/repo/tvl_history.py:17-22 | one TVL row per tick of a window, in order, with `amount_usd` = that tick's price × the group sum and that tick's timestamp |
| `TvlHistory.GroupOutput` | core/db/repo/tvl_history.py:16-40 | a group emits nothing exactly when none of its rows has a tick in its window; every emitted row carries the group's key and sum |
| `TvlHistory.GroupOutputShared` | core/db/repo/tvl_history.py:20-22 | when every row of a group saw the same window, the group emits one row per tick of it |
| `TvlHistory.CalculateHistory` | core/db/repo/tvl_history.py:8-40 | every inserted row belongs to the protocol, comes from a group of its balance rows, and carries that group's sum |
| `TvlHistory.CalculateHistoryShared` | core/db/repo/tvl_history.py:16-40 | with one timestamp per group, the calculation succeeds with one row per tick of each group's window |
| `TvlHistory.SharedGroupRows` | core/db/repo/tvl_history.py:17-36 | a group's rows are its window's ticks, each priced at tick price × group sum |
| `TvlHistory.TickRowsAscending` | core/db/repo/tvl_history.py:27-28 | a group's rows come out in ascending time order |
| `TvlHistory.SharedGroupWithoutTick` | core/db/repo/tvl_history.py:25-36 | a group with no tick in its window emits no row: no zero row and no carried-forward price |
| `TvlHistory.CalculateHistoryIgnoresOtherProtocols` | core/db/repo/tvl_history.py:37 | balance rows of other protocols change nothing |
| `TvlHistory.InsertHistory` | core/db/repo/tvl_history.py:59-63 | the insert appends the calculated rows and keeps the existing ones; an error inserts nothing |
| `TvlHistory.RerunDoublesCurrentValue` | core/db/repo/tvl_history.py:8-15 | running the calculation twice duplicates the rows, so the current value doubles |
| `TvlHistory.MaxBlock` | core/db/repo/tvl_history.py:45 | `MAX(created_at_block)` is attained by a row and no row is larger |
| `TvlHistory.GetCurrentProtocolPrice` | core/db/repo/tvl_history.py:43-56 | null exactly when the protocol has no TVL row; else the sum of `amount_usd` at the block of a latest row |
| `TvlHistory.LatestRowAtMaxBlock` | core/db/repo/tvl_history.py:44-49 | the maximum block is the block of a row no other row of the protocol exceeds |
| `TvlHistory.CurrentAtLatestBlock` | core/db/repo/tvl_history.py:50-56 | when the protocol's rows reach `block` and none go past it, the lookup is the sum at `block` |
| `TvlHistory.CurrentIgnoresOtherProtocols` | core/db/repo/tvl_history.py:47-55 | TVL rows of other protocols, wherever they stand, change nothing in the lookup |
| `Deposit.GeneratedTableOnGrid` | core/service/generator.py:136-165 | every generated balance row belongs to the protocol and sits on the hourly block grid |
| `Deposit.PriceRowsFinalTicks` | core/service/generator.py:207-224 | for every token, the only tick within the hour after `end` is its tick 0, at the final price |
| `Deposit.GridTableCurrentValue` | core/db/repo/tvl_history.py:16-56 | on grid balance rows the calculation succeeds and the lookup is the final price times the holdings at the final block |
| `Deposit.CurrentDepositIsDeposit` | core/service/generator.py:92-96 | after a run with start < end, aggregation followed by the lookup returns exactly the deposit |

## Left out

- Sessions, engine, commits and rollback (`core/db/__init__.py`,
  `core/db/repo/base.py`) and the `generate_all` orchestration. These are
  I/O and transactions. Ids that the store assigns are inputs.
- The ORM query of `core/db/repo/protocol_token.py`. Its result is the
  protocol-token list that the generator methods take as input.
- The REPL, asyncio, argparse, pydantic and `fromisoformat` (`core/shell/`),
  and the settings in `core/config.py`. Only the `end >= start` check of
  `core/shell/model.py:44-48` is kept, as a precondition.
- `core/service/price.py` is not part of this model. Its `if not
  protocol_price` test (`core/service/price.py:24`) never fires: the lookup
  is an aggregate without `GROUP BY`, so `one_or_none()` always returns one
  row, and the row `(None,)` is truthy. An unknown protocol therefore yields
  `None` from the wrapper, not its `ValueError`. `GetCurrentProtocolPrice`
  models the query's single value, with `None` for SQL's null.
- Randomness. The draws are inputs whose bounds are preconditions, and the
  model does not describe their distribution.
- Floating point. `deposit` is a `float` in the source, and `0.02`, `0.05`,
  `total_seconds() / 3600` and the anchor `final_token_price = deposit / (...)`
  (`core/service/generator.py:92-96`) are float arithmetic. The model uses
  exact reals and exact integer ceilings, so it does not capture float
  rounding of `final_token_price`.
- Deposit.CurrentDepositIsDeposit: returns exactly the deposit only in exact
  arithmetic. In the source the lookup gives back `deposit` up to the float
  rounding of `final_token_price`.
- PriceHistory.TickPriceDrift, PriceHistory.PriceRowsSound: hold in exact
  arithmetic only. The anchor reaches the price synthesizer as
  `Decimal(final_token_price)` (`core/service/generator.py:107-111`), and tick 0
  stores that value unchanged. Each perturbed tick
  `final_token_price * (100 - r) / 100` (`core/service/generator.py:212-216`)
  is computed in `Decimal` and rounded to its 28-digit context. At r = ±15 a
  stored tick can therefore lie outside the 15% band by that rounding error.
  The balance amounts `100 * (100 - r) / 100` are whole numbers and are not
  rounded.
- Names.GenerateName: its precondition excludes an empty range
  (from_k > to_k), where `random.choice` raises `IndexError`, and a negative
  length, where `random.choices` returns `""` and the length bound fails. No
  caller in the generator reaches either case.
- `datetime` and time zones. Timestamps are whole seconds.
- The `account_id` and `id` columns of the history tables. A balance row
  belongs to the account whose `balanceHistory` holds it. The balance table
  is all accounts' histories, account after account.
- SQL result order. `GROUP BY` returns groups in an unspecified order, and
  the model emits them in order of first appearance. `ORDER BY created_at`
  leaves ties unspecified, and the model keeps table order for ties.
- Database uniqueness constraints (protocol name, token name and symbol,
  wallet address). The generator does not check them, and a violation is a
  store error. Address distinctness is stated only for distinct byte draws.
- Generator.GenerateAccountTokenBalance, Generator.GenerateBalanceHistory:
  require pairwise-distinct account objects. Python lists could hold the
  same object twice, and the model does not capture that aliasing.
- Indexes and other performance concerns of `core/db/model.py`. Only the
  record shapes and the `uint256` bound are kept.
