/**
 * From one generation run to the current-deposit lookup: the balance rows of
 * `generate_balance_history_and_token_price` and its price ticks, aggregated
 * by the TVL history calculation, give back exactly the deposit the run was
 * asked to spread, as long as `start < end`.
 *
 * At the final block every account holds `tokensPerAccount` rows of the final
 * amount stamped `end`; the only tick of a token in the hour after `end` is its
 * tick 0, stamped `end` and priced at the final token price; and the final
 * block is the largest block.
 */
module Deposit {
  import opened Wrappers
  import opened Model
  import opened GeneratorMath
  import opened BalanceHistory
  import opened PriceHistory
  import opened TvlHistory
  import opened Generator

  /** Each account's appended rows, account by account. */
  function PlannedHistories(p: Plan, d: BalanceDraws): (hs: seq<seq<BalanceRow>>)
    requires DrawsFit(p, d) && CanSampleTokens(p)
    ensures |hs| == p.accountCount
  {
    seq(p.accountCount, j requires 0 <= j < p.accountCount => AccountHistory(p, d, j))
  }

  function Concat(hs: seq<seq<BalanceRow>>): seq<BalanceRow>
  {
    if hs == [] then [] else Concat(hs[..|hs| - 1]) + hs[|hs| - 1]
  }

  /** The `account_balance_history` rows of one run, account after account. */
  function BalanceTable(p: Plan, d: BalanceDraws): seq<BalanceRow>
    requires DrawsFit(p, d) && CanSampleTokens(p)
  {
    Concat(PlannedHistories(p, d))
  }

  lemma {:induction false} ConcatMembers(hs: seq<seq<BalanceRow>>, x: BalanceRow)
    ensures x in Concat(hs) <==> exists j :: 0 <= j < |hs| && x in hs[j]
  {
    if hs != [] {
      var init := hs[..|hs| - 1];
      ConcatMembers(init, x);
      assert forall j :: 0 <= j < |init| ==> init[j] == hs[j];
    }
  }

  /** A row is in the table exactly when some account's history holds it. */
  lemma {:induction false} BalanceTableMembers(p: Plan, d: BalanceDraws, x: BalanceRow)
    requires DrawsFit(p, d) && CanSampleTokens(p)
    ensures x in BalanceTable(p, d) <==> exists j :: 0 <= j < p.accountCount && x in AccountHistory(p, d, j)
  {
    var hs := PlannedHistories(p, d);
    ConcatMembers(hs, x);
    assert forall j :: 0 <= j < |hs| ==> hs[j] == AccountHistory(p, d, j);
  }

  /** The protocol's `protocol_token` rows, with unique ids, each for a token that has price ticks. */
  predicate ProtocolSetup(protocolId: int, pts: seq<ProtocolToken>, ptl: seq<ProtocolToken>, tokenIds: seq<int>)
  {
    UniqueIds(pts) && UniqueIds(ptl) &&
    (forall i :: 0 <= i < |ptl| ==> ptl[i] in pts && ptl[i].protocolId == protocolId && ptl[i].tokenId in tokenIds) &&
    Distinct(tokenIds)
  }

  /**
   * What the TVL calculation needs of a balance row: its protocol token is the
   * protocol's and has price ticks, and it sits on the block grid up to `finalBlock`.
   */
  predicate TableRow(protocolId: int, pts: seq<ProtocolToken>, tokenIds: seq<int>, end: int, finalBlock: int,
                     x: BalanceRow)
  {
    BelongsTo(pts, protocolId, x.protocolTokenId) &&
    FindToken(pts, x.protocolTokenId).value.tokenId in tokenIds &&
    0 <= x.createdAtBlock <= finalBlock && x.createdAt == BlockCreatedAt(end, finalBlock, x.createdAtBlock)
  }

  predicate GridTable(protocolId: int, pts: seq<ProtocolToken>, tokenIds: seq<int>, end: int, finalBlock: int,
                      table: seq<BalanceRow>)
  {
    forall x :: x in table ==> TableRow(protocolId, pts, tokenIds, end, finalBlock, x)
  }

  /** Every generated row is of the protocol, on the grid, for a token with ticks. */
  lemma {:induction false} GeneratedTableOnGrid(protocolId: int, pts: seq<ProtocolToken>, p: Plan, d: BalanceDraws, tokenIds: seq<int>)
    requires DrawsFit(p, d) && CanSampleTokens(p) && ProtocolSetup(protocolId, pts, p.ptl, tokenIds)
    ensures GridTable(protocolId, pts, tokenIds, p.end, p.finalBlock, BalanceTable(p, d))
  {
    forall x | x in BalanceTable(p, d)
      ensures TableRow(protocolId, pts, tokenIds, p.end, p.finalBlock, x)
    {
      BalanceTableMembers(p, d, x);
      var j :| 0 <= j < p.accountCount && x in AccountHistory(p, d, j);
      HistoryRowShape(p, d, j, x);
      var i :| 0 <= i < |p.ptl| && p.ptl[i].id == x.protocolTokenId;
      assert p.ptl[i] in pts;
      var k :| 0 <= k < |pts| && pts[k] == p.ptl[i];
      FindTokenUnique(pts, k);
    }
  }

  /** Every row of a grid table takes part, and the rows of one block share its timestamp. */
  lemma {:induction false} GridTableJoinsWhole(protocolId: int, pts: seq<ProtocolToken>, tokenIds: seq<int>, end: int, finalBlock: int,
                            table: seq<BalanceRow>)
    requires GridTable(protocolId, pts, tokenIds, end, finalBlock, table)
    ensures Joined(pts, protocolId, table) == table
    ensures SharedTimestamps(table)
  {
    forall i | 0 <= i < |table| ensures BelongsTo(pts, protocolId, table[i].protocolTokenId) {
      assert table[i] in table;
    }
    FilterAll(table, (r: BalanceRow) => BelongsTo(pts, protocolId, r.protocolTokenId));
    forall i, j | 0 <= i < |table| && 0 <= j < |table| && KeyOf(table[i]) == KeyOf(table[j])
      ensures table[i].createdAt == table[j].createdAt
    {
      assert table[i] in table && table[j] in table;
    }
  }

  // ---------------------------------------------------------------------
  // The window of the final block
  // ---------------------------------------------------------------------

  /** Of one token's ticks, only tick 0 lies in the hour after `end`, and only for its own token. */
  lemma {:induction false} TokenTicksAtEnd(id: int, tokenId: int, finalPrice: real, end: int, draws: seq<int>)
    requires |draws| > 0
    ensures Candidates(TokenTicks(id, finalPrice, end, draws), tokenId, end) ==
      if id == tokenId then [TokenPrice(tokenId, finalPrice, end)] else []
  {
    var ticks := TokenTicks(id, finalPrice, end, draws);
    var keep := (x: TokenPrice) => InWindow(x, tokenId, end);
    FilterNone(ticks[1..], (x: TokenPrice) => InWindow(x, tokenId, end));
    FilterAppend([ticks[0]], ticks[1..], (x: TokenPrice) => InWindow(x, tokenId, end));
    assert ticks == [ticks[0]] + ticks[1..];
    assert Filter([ticks[0]], (x: TokenPrice) => InWindow(x, tokenId, end)) ==
      if id == tokenId then [ticks[0]] else [];
  }

  /** Distinct ids stay distinct without the last one, which occurs nowhere before. */
  lemma DistinctInit(s: seq<int>)
    requires Distinct(s) && |s| > 0
    ensures Distinct(s[..|s| - 1]) && s[|s| - 1] !in s[..|s| - 1]
  {
    var init := s[..|s| - 1];
    forall i | 0 <= i < |init| ensures init[i] != s[|s| - 1] {
      assert init[i] == s[i];
    }
  }

  lemma {:induction false} PriceRowsAtEnd(tokenIds: seq<int>, tokenId: int, finalPrice: real, end: int,
                                          draws: seq<seq<int>>, segments: int)
    requires PriceDrawsFit(draws, |tokenIds|, segments) && segments > 0
    requires Distinct(tokenIds)
    ensures Candidates(PriceRows(tokenIds, finalPrice, end, draws), tokenId, end) ==
      if tokenId in tokenIds then [TokenPrice(tokenId, finalPrice, end)] else []
    decreases |tokenIds|
  {
    if tokenIds != [] {
      var n := |tokenIds| - 1;
      var ids, ds := tokenIds[..n], draws[..n];
      var front := PriceRows(ids, finalPrice, end, ds);
      var ticks := TokenTicks(tokenIds[n], finalPrice, end, draws[n]);
      var t := TokenPrice(tokenId, finalPrice, end);
      PriceDrawsFitFront(draws, |tokenIds|, segments);
      DistinctInit(tokenIds);
      PriceRowsAtEnd(ids, tokenId, finalPrice, end, ds, segments);
      TokenTicksAtEnd(tokenIds[n], tokenId, finalPrice, end, draws[n]);
      CandidatesSplit(PriceRows(tokenIds, finalPrice, end, draws), front, ticks, tokenId, end);
      SplitLast(tokenIds, tokenId);
      MergeAtEnd(Candidates(PriceRows(tokenIds, finalPrice, end, draws), tokenId, end), Candidates(front, tokenId, end),
                 Candidates(ticks, tokenId, end), t, tokenId in ids, tokenIds[n] == tokenId, tokenId in tokenIds);
    }
  }

  /** Draws that fit all tokens fit all but the last one. */
  lemma PriceDrawsFitFront(draws: seq<seq<int>>, tokenCount: int, segments: int)
    requires PriceDrawsFit(draws, tokenCount, segments) && tokenCount > 0
    ensures PriceDrawsFit(draws[..tokenCount - 1], tokenCount - 1, segments)
  {
    forall t | 0 <= t < tokenCount - 1 ensures draws[..tokenCount - 1][t] == draws[t] { }
  }

  /** The candidates of a concatenation are the candidates of each part, in order. */
  lemma {:induction false} CandidatesSplit(all: seq<TokenPrice>, front: seq<TokenPrice>, ticks: seq<TokenPrice>,
                                           tokenId: int, end: int)
    requires all == front + ticks
    ensures Candidates(all, tokenId, end) == Candidates(front, tokenId, end) + Candidates(ticks, tokenId, end)
  {
    FilterAppend(front, ticks, (x: TokenPrice) => InWindow(x, tokenId, end));
  }

  /** A sequence holds `x` exactly when its front or its last element does. */
  lemma {:induction false} SplitLast(s: seq<int>, x: int)
    requires |s| > 0
    ensures x in s <==> x in s[..|s| - 1] || x == s[|s| - 1]
  {
    assert s == s[..|s| - 1] + [s[|s| - 1]];
  }

  /** The ticks of the front tokens and of the last token, put together, when at most one of them has `t`. */
  lemma {:induction false} MergeAtEnd(c: seq<TokenPrice>, a: seq<TokenPrice>, b: seq<TokenPrice>, t: TokenPrice,
                                      inFront: bool, isLast: bool, inAll: bool)
    requires c == a + b && a == (if inFront then [t] else []) && b == (if isLast then [t] else [])
    requires inAll == (inFront || isLast) && !(inFront && isLast)
    ensures c == if inAll then [t] else []
  {
    if !inFront {
      assert c == b;
    }
  }

  /** The window of a balance row stamped `end`: the token's tick 0 alone. */
  lemma {:induction false} FinalWindow(tokenIds: seq<int>, tokenId: int, finalPrice: real, end: int, draws: seq<seq<int>>, segments: int)
    requires PriceDrawsFit(draws, |tokenIds|, segments) && segments > 0 && tokenId in tokenIds
    requires Distinct(tokenIds)
    ensures Window(PriceRows(tokenIds, finalPrice, end, draws), tokenId, end) == [TokenPrice(tokenId, finalPrice, end)]
  {
    PriceRowsAtEnd(tokenIds, tokenId, finalPrice, end, draws, segments);
    var c := [TokenPrice(tokenId, finalPrice, end)];
    assert SortByTime(c) == InsertByTime(SortByTime([]), c[0]);
  }

  // ---------------------------------------------------------------------
  // The TVL rows of a grid table
  // ---------------------------------------------------------------------

  /** The ticks in the hour after `end`: for each token with ticks, its tick 0 alone, at the final price. */
  predicate FinalTicks(prices: seq<TokenPrice>, tokenIds: seq<int>, finalPrice: real, end: int)
  {
    forall tokenId :: tokenId in tokenIds ==> Window(prices, tokenId, end) == [TokenPrice(tokenId, finalPrice, end)]
  }

  lemma {:induction false} PriceRowsFinalTicks(tokenIds: seq<int>, finalPrice: real, end: int, draws: seq<seq<int>>, segments: int)
    requires PriceDrawsFit(draws, |tokenIds|, segments) && segments > 0
    requires Distinct(tokenIds)
    ensures FinalTicks(PriceRows(tokenIds, finalPrice, end, draws), tokenIds, finalPrice, end)
  {
    forall tokenId | tokenId in tokenIds
      ensures Window(PriceRows(tokenIds, finalPrice, end, draws), tokenId, end) == [TokenPrice(tokenId, finalPrice, end)]
    {
      FinalWindow(tokenIds, tokenId, finalPrice, end, draws, segments);
    }
  }

  /** A group of the final block emits one row, for the tick 0 of its token. */
  lemma {:induction false} FinalGroupRows(protocolId: int, pts: seq<ProtocolToken>, tokenIds: seq<int>, end: int, finalBlock: int,
                       table: seq<BalanceRow>, prices: seq<TokenPrice>, finalPrice: real, key: GroupKey)
    requires GridTable(protocolId, pts, tokenIds, end, finalBlock, table)
    requires FinalTicks(prices, tokenIds, finalPrice, end)
    requires key in Keys(table) && key.block == finalBlock
    ensures FindToken(pts, key.protocolTokenId).Some?
    ensures SharedKeyRows(pts, prices, table, key) ==
      TickRows(key, GroupSum(GroupRows(table, key)), [TokenPrice(FindToken(pts, key.protocolTokenId).value.tokenId, finalPrice, end)])
  {
    var i :| 0 <= i < |table| && KeyOf(table[i]) == key;
    var rows := GroupRows(table, key);
    assert table[i] in rows;
    assert rows[0] in rows;
    assert TableRow(protocolId, pts, tokenIds, end, finalBlock, rows[0]);
    assert rows[0].createdAt == end;
    var pt := FindToken(pts, key.protocolTokenId).value;
    assert Window(prices, pt.tokenId, rows[0].createdAt) == [TokenPrice(pt.tokenId, finalPrice, end)];
    SharedKeyRowsOf(pts, prices, table, key, pt);
  }

  /** A group of a known protocol token with rows: its ticks times its sum. */
  lemma {:induction false} SharedKeyRowsOf(pts: seq<ProtocolToken>, prices: seq<TokenPrice>, table: seq<BalanceRow>, key: GroupKey,
                        pt: ProtocolToken)
    requires FindToken(pts, key.protocolTokenId) == Some(pt) && |GroupRows(table, key)| > 0
    ensures var rows := GroupRows(table, key);
      SharedKeyRows(pts, prices, table, key) ==
        TickRows(key, GroupSum(rows), Window(prices, pt.tokenId, rows[0].createdAt))
  {
  }

  /** The one row of a group with a single tick, at the group's block, is worth the tick's price times the sum. */
  lemma {:induction false} SingleTickUsd(key: GroupKey, sum: real, tokenId: int, price: real, createdAt: int)
    ensures Sum(UsdAmounts(AtTvlBlock(TickRows(key, sum, [TokenPrice(tokenId, price, createdAt)]), key.block))) ==
      UsdValue(price, sum)
  {
    var t := TickRows(key, sum, [TokenPrice(tokenId, price, createdAt)]);
    assert |t| == 1 && t[0].createdAtBlock == key.block;
    FilterAll(t, (x: TvlRow) => x.createdAtBlock == key.block);
    var w := [TokenPrice(tokenId, price, createdAt)];
    assert t[0].amountUsd == w[0].usdPrice * sum;
    assert w[0].usdPrice == price;
    assert t[0].amountUsd == price * sum;
    var u := UsdAmounts(t);
    assert u[0] == price * sum;
    assert u == [price * sum];
    assert u[..0] == [];
  }

  /** Every row a group emits carries the group's block. */
  lemma {:induction false} SharedKeyRowsBlock(pts: seq<ProtocolToken>, prices: seq<TokenPrice>, table: seq<BalanceRow>, key: GroupKey)
    ensures forall x :: x in SharedKeyRows(pts, prices, table, key) ==> x.createdAtBlock == key.block
  {
  }

  /** A group's sum if it lies at `block`, else nothing: its share of the sums at `block`. */
  function AtBlockSum(table: seq<BalanceRow>, block: int, key: GroupKey): real
  {
    if key.block == block then GroupSum(GroupRows(table, key)) else 0.0
  }

  /** The sum, over the keys at `block`, of their groups' sums. */
  function KeySum(keys: seq<GroupKey>, table: seq<BalanceRow>, block: int): real
  {
    if keys == [] then 0.0 else KeySum(keys[..|keys| - 1], table, block) + AtBlockSum(table, block, keys[|keys| - 1])
  }

  lemma {:induction false} GroupSumSingle(r: BalanceRow)
    ensures GroupSum([r]) == r.amount
  {
    var a := Amounts([r]);
    assert a == [r.amount];
    assert a[..0] == [];
    assert Sum(a) == Sum(a[..0]) + a[0];
  }

  lemma {:induction false} GroupRowsSnoc(table: seq<BalanceRow>, r: BalanceRow, key: GroupKey)
    ensures GroupRows(table + [r], key) == GroupRows(table, key) + (if KeyOf(r) == key then [r] else [])
  {
    FilterAppend(table, [r], (x: BalanceRow) => KeyOf(x) == key);
    assert [r][..0] == [];
  }

  lemma {:induction false} KeySumUnaffected(keys: seq<GroupKey>, table: seq<BalanceRow>, r: BalanceRow, block: int)
    requires KeyOf(r) !in keys
    ensures KeySum(keys, table + [r], block) == KeySum(keys, table, block)
    decreases |keys|
  {
    if keys != [] {
      var init, last := keys[..|keys| - 1], keys[|keys| - 1];
      assert keys == init + [last];
      assert KeyOf(r) !in init && KeyOf(r) != last;
      KeySumUnaffected(init, table, r, block);
      GroupRowsSnoc(table, r, last);
      assert GroupRows(table + [r], last) == GroupRows(table, last);
    }
  }

  lemma {:induction false} KeySumStep(keys: seq<GroupKey>, table: seq<BalanceRow>, r: BalanceRow, block: int)
    requires Distinct(keys)
    requires KeyOf(r) in keys
    ensures KeySum(keys, table + [r], block) ==
      KeySum(keys, table, block) + (if r.createdAtBlock == block then r.amount else 0.0)
    decreases |keys|
  {
    var init, last := keys[..|keys| - 1], keys[|keys| - 1];
    assert keys == init + [last];
    GroupRowsSnoc(table, r, last);
    if last == KeyOf(r) {
      assert KeyOf(r) !in init by {
        forall i | 0 <= i < |init| ensures init[i] != last {
          assert init[i] == keys[i];
        }
      }
      KeySumUnaffected(init, table, r, block);
      GroupSumAppend(GroupRows(table, last), [r]);
      GroupSumSingle(r);
    } else {
      assert KeyOf(r) in init;
      assert forall i, j :: 0 <= i < j < |init| ==> init[i] == keys[i] && init[j] == keys[j];
      KeySumStep(init, table, r, block);
      assert GroupRows(table + [r], last) == GroupRows(table, last);
    }
  }

  lemma {:induction false} KeySumOfEmpty(keys: seq<GroupKey>, block: int)
    ensures KeySum(keys, [], block) == 0.0
    decreases |keys|
  {
    if keys != [] {
      KeySumOfEmpty(keys[..|keys| - 1], block);
      assert GroupRows([], keys[|keys| - 1]) == [];
      assert Amounts([]) == [];
    }
  }

  /** The groups partition the rows: their sums at a block add up to the sum of the rows at that block. */
  lemma {:induction false} KeySumPartition(keys: seq<GroupKey>, table: seq<BalanceRow>, block: int)
    requires Distinct(keys)
    requires forall i :: 0 <= i < |table| ==> KeyOf(table[i]) in keys
    ensures KeySum(keys, table, block) == GroupSum(AtBlock(table, block))
    decreases |table|
  {
    if table == [] {
      KeySumOfEmpty(keys, block);
      assert Amounts([]) == [];
    } else {
      var init, r := table[..|table| - 1], table[|table| - 1];
      assert table == init + [r];
      assert forall i :: 0 <= i < |init| ==> init[i] == table[i];
      KeySumPartition(keys, init, block);
      KeySumStep(keys, init, r, block);
      AtBlockAppend(init, [r], block);
      assert [r][1..] == [];
      GroupSumAppend(AtBlock(init, block), AtBlock([r], block));
      if r.createdAtBlock == block {
        GroupSumSingle(r);
      } else {
        assert Amounts([]) == [];
      }
    }
  }

  /** `SUM(amount_usd)` over one group's TVL rows at `block`. */
  function GroupUsd(pts: seq<ProtocolToken>, prices: seq<TokenPrice>, table: seq<BalanceRow>, key: GroupKey, block: int)
    : real
  {
    Sum(UsdAmounts(AtTvlBlock(SharedKeyRows(pts, prices, table, key), block)))
  }

  function UsdSum(pts: seq<ProtocolToken>, prices: seq<TokenPrice>, table: seq<BalanceRow>, keys: seq<GroupKey>,
                  block: int): real
  {
    if keys == [] then 0.0
    else UsdSum(pts, prices, table, keys[..|keys| - 1], block) + GroupUsd(pts, prices, table, keys[|keys| - 1], block)
  }

  /** The USD amounts at a block of the calculated history add up group by group. */
  lemma {:induction false} UsdOfHistory(pts: seq<ProtocolToken>, prices: seq<TokenPrice>, table: seq<BalanceRow>,
                                        keys: seq<GroupKey>, block: int)
    ensures Sum(UsdAmounts(AtTvlBlock(SharedHistory(pts, prices, table, keys), block))) ==
      UsdSum(pts, prices, table, keys, block)
    decreases |keys|
  {
    if keys == [] {
      assert UsdAmounts([]) == [];
    } else {
      var init, key := keys[..|keys| - 1], keys[|keys| - 1];
      UsdOfHistory(pts, prices, table, init, block);
      var front, here := SharedHistory(pts, prices, table, init), SharedKeyRows(pts, prices, table, key);
      FilterAppend(front, here, (x: TvlRow) => x.createdAtBlock == block);
      UsdAmountsAppend(AtTvlBlock(front, block), AtTvlBlock(here, block));
      SumAppend(UsdAmounts(AtTvlBlock(front, block)), UsdAmounts(AtTvlBlock(here, block)));
    }
  }

  /** A group whose rows meet a single tick is worth, at its block, that tick's price times its sum. */
  lemma {:induction false} GroupUsdOfSingleTick(pts: seq<ProtocolToken>, prices: seq<TokenPrice>, table: seq<BalanceRow>, key: GroupKey,
                             tokenId: int, price: real, createdAt: int)
    requires SharedKeyRows(pts, prices, table, key) ==
      TickRows(key, GroupSum(GroupRows(table, key)), [TokenPrice(tokenId, price, createdAt)])
    ensures GroupUsd(pts, prices, table, key, key.block) == UsdValue(price, GroupSum(GroupRows(table, key)))
  {
    SingleTickUsd(key, GroupSum(GroupRows(table, key)), tokenId, price, createdAt);
  }

  /** A group of another block is worth nothing at `block`. */
  lemma {:induction false} GroupUsdOtherBlock(pts: seq<ProtocolToken>, prices: seq<TokenPrice>, table: seq<BalanceRow>, key: GroupKey,
                           block: int)
    requires key.block != block
    ensures GroupUsd(pts, prices, table, key, block) == 0.0
  {
    var here := SharedKeyRows(pts, prices, table, key);
    SharedKeyRowsBlock(pts, prices, table, key);
    FilterNone(here, (x: TvlRow) => x.createdAtBlock == block);
    assert UsdAmounts([]) == [];
  }

  /** At the final block a group is worth its share of the final block's sums at the final price. */
  lemma {:induction false} GroupUsdAtFinalBlock(protocolId: int, pts: seq<ProtocolToken>, tokenIds: seq<int>, end: int,
                             finalBlock: int, table: seq<BalanceRow>, prices: seq<TokenPrice>, finalPrice: real,
                             key: GroupKey)
    requires GridTable(protocolId, pts, tokenIds, end, finalBlock, table)
    requires FinalTicks(prices, tokenIds, finalPrice, end)
    requires key in Keys(table)
    ensures GroupUsd(pts, prices, table, key, finalBlock) == UsdValue(finalPrice, AtBlockSum(table, finalBlock, key))
  {
    if key.block == finalBlock {
      FinalGroupRows(protocolId, pts, tokenIds, end, finalBlock, table, prices, finalPrice, key);
      GroupUsdOfSingleTick(pts, prices, table, key, FindToken(pts, key.protocolTokenId).value.tokenId, finalPrice, end);
    } else {
      GroupUsdOtherBlock(pts, prices, table, key, finalBlock);
      UsdValueOfNothing(finalPrice);
    }
  }

  /** The USD value of `amount` tokens at `price` each. */
  function UsdValue(price: real, amount: real): real
  {
    price * amount
  }

  lemma {:induction false} UsdValueOfNothing(price: real)
    ensures UsdValue(price, 0.0) == 0.0
  {
  }

  /** Values add up as the amounts do. */
  lemma {:induction false} UsdValueAdds(price: real, a: real, b: real, c: real)
    requires c == a + b
    ensures UsdValue(price, c) == UsdValue(price, a) + UsdValue(price, b)
  {
  }

  /** A row of the calculated history lies at a block no later than the final one. */
  lemma {:induction false} HistoryBlocks(protocolId: int, pts: seq<ProtocolToken>, tokenIds: seq<int>, end: int, finalBlock: int,
                      table: seq<BalanceRow>, prices: seq<TokenPrice>, x: TvlRow)
    requires GridTable(protocolId, pts, tokenIds, end, finalBlock, table)
    requires x in SharedHistory(pts, prices, table, Keys(table))
    ensures x.createdAtBlock <= finalBlock
  {
    var key := SharedHistorySource(pts, prices, table, Keys(table), x);
    SharedKeyRowsBlock(pts, prices, table, key);
    var i :| 0 <= i < |table| && KeyOf(table[i]) == key;
    assert table[i] in table;
  }

  /** A balance row at the final block makes a TVL row at the final block. */
  lemma {:induction false} FinalRowExists(protocolId: int, pts: seq<ProtocolToken>, tokenIds: seq<int>, end: int, finalBlock: int,
                       table: seq<BalanceRow>, prices: seq<TokenPrice>, finalPrice: real, b: BalanceRow)
    requires GridTable(protocolId, pts, tokenIds, end, finalBlock, table)
    requires FinalTicks(prices, tokenIds, finalPrice, end)
    requires b in table && b.createdAtBlock == finalBlock
    ensures exists x :: x in SharedHistory(pts, prices, table, Keys(table)) && x.createdAtBlock == finalBlock
  {
    var i :| 0 <= i < |table| && table[i] == b;
    var key := KeyOf(b);
    assert key in Keys(table);
    FinalGroupRows(protocolId, pts, tokenIds, end, finalBlock, table, prices, finalPrice, key);
    var x := SharedKeyRows(pts, prices, table, key)[0];
    SharedHistoryIncludes(pts, prices, table, Keys(table), key, x);
  }

  /** The calculation succeeds on a grid table, and the protocol's rows of the TVL table are then exactly its output. */
  lemma {:induction false} GridTableHistory(protocolId: int, pts: seq<ProtocolToken>, tokenIds: seq<int>, end: int, finalBlock: int,
                         table: seq<BalanceRow>, tvl: seq<TvlRow>, prices: seq<TokenPrice>)
    requires GridTable(protocolId, pts, tokenIds, end, finalBlock, table)
    requires forall x :: x in tvl ==> !BelongsTo(pts, protocolId, x.protocolTokenId)
    ensures CalculateHistory(protocolId, pts, table, prices) == Ok(SharedHistory(pts, prices, table, Keys(table)))
    ensures ProtocolTvl(pts, protocolId, tvl + SharedHistory(pts, prices, table, Keys(table))) ==
      SharedHistory(pts, prices, table, Keys(table))
  {
    GridTableJoinsWhole(protocolId, pts, tokenIds, end, finalBlock, table);
    CalculateHistoryShared(protocolId, pts, table, prices);
    var rows := SharedHistory(pts, prices, table, Keys(table));
    FilterAppend(tvl, rows, (x: TvlRow) => BelongsTo(pts, protocolId, x.protocolTokenId));
    FilterNone(tvl, (x: TvlRow) => BelongsTo(pts, protocolId, x.protocolTokenId));
    forall i | 0 <= i < |rows| ensures BelongsTo(pts, protocolId, rows[i].protocolTokenId) {
      assert rows[i] in rows;
    }
    FilterAll(rows, (x: TvlRow) => BelongsTo(pts, protocolId, x.protocolTokenId));
  }

  /** The current lookup over the calculated rows reads them at the final block. */
  lemma {:induction false} GridTableLatest(protocolId: int, pts: seq<ProtocolToken>, tokenIds: seq<int>, end: int, finalBlock: int,
                        table: seq<BalanceRow>, tvl: seq<TvlRow>, prices: seq<TokenPrice>, finalPrice: real,
                        b: BalanceRow)
    requires GridTable(protocolId, pts, tokenIds, end, finalBlock, table)
    requires FinalTicks(prices, tokenIds, finalPrice, end)
    requires b in table && b.createdAtBlock == finalBlock
    requires forall x :: x in tvl ==> !BelongsTo(pts, protocolId, x.protocolTokenId)
    ensures var rows := SharedHistory(pts, prices, table, Keys(table));
      GetCurrentProtocolPrice(protocolId, pts, tvl + rows) ==
        Some(Sum(UsdAmounts(AtTvlBlock(rows, finalBlock))))
  {
    var rows := SharedHistory(pts, prices, table, Keys(table));
    GridTableHistory(protocolId, pts, tokenIds, end, finalBlock, table, tvl, prices);
    FinalRowExists(protocolId, pts, tokenIds, end, finalBlock, table, prices, finalPrice, b);
    forall y | y in rows ensures y.createdAtBlock <= finalBlock {
      HistoryBlocks(protocolId, pts, tokenIds, end, finalBlock, table, prices, y);
    }
    CurrentAtLatestBlock(protocolId, pts, tvl + rows, finalBlock);
  }

  /** Group values that are `price` times their shares of the sums at `block` total `price` times those sums. */
  lemma {:induction false} UsdSumScaled(pts: seq<ProtocolToken>, prices: seq<TokenPrice>, table: seq<BalanceRow>,
                                        keys: seq<GroupKey>, block: int, price: real)
    requires forall key :: key in keys ==> GroupUsd(pts, prices, table, key, block) == UsdValue(price, AtBlockSum(table, block, key))
    ensures UsdSum(pts, prices, table, keys, block) == UsdValue(price, KeySum(keys, table, block))
    decreases |keys|
  {
    if keys == [] {
      UsdValueOfNothing(price);
    } else {
      var init, key := keys[..|keys| - 1], keys[|keys| - 1];
      assert forall k :: k in init ==> k in keys;
      UsdSumScaled(pts, prices, table, init, block, price);
      assert key in keys;
      UsdValueAdds(price, KeySum(init, table, block), AtBlockSum(table, block, key), KeySum(keys, table, block));
    }
  }

  /** On a grid table the groups at the final block are worth the final price times their sums. */
  lemma {:induction false} GridTableUsd(protocolId: int, pts: seq<ProtocolToken>, tokenIds: seq<int>, end: int, finalBlock: int,
                                        table: seq<BalanceRow>, prices: seq<TokenPrice>, finalPrice: real)
    requires GridTable(protocolId, pts, tokenIds, end, finalBlock, table)
    requires FinalTicks(prices, tokenIds, finalPrice, end)
    ensures UsdSum(pts, prices, table, Keys(table), finalBlock) == UsdValue(finalPrice, KeySum(Keys(table), table, finalBlock))
  {
    forall key | key in Keys(table)
      ensures GroupUsd(pts, prices, table, key, finalBlock) == UsdValue(finalPrice, AtBlockSum(table, finalBlock, key))
    {
      GroupUsdAtFinalBlock(protocolId, pts, tokenIds, end, finalBlock, table, prices, finalPrice, key);
    }
    UsdSumScaled(pts, prices, table, Keys(table), finalBlock, finalPrice);
  }

  /**
   * On a grid table with a row at the final block, over a TVL table with no
   * earlier rows of the protocol, the calculation succeeds and the current
   * lookup is the final price times the group sums at the final block.
   */
  lemma {:induction false} GridTableCurrentValue(protocolId: int, pts: seq<ProtocolToken>, tokenIds: seq<int>, end: int, finalBlock: int,
                              table: seq<BalanceRow>, tvl: seq<TvlRow>, prices: seq<TokenPrice>, finalPrice: real,
                              b: BalanceRow)
    requires GridTable(protocolId, pts, tokenIds, end, finalBlock, table)
    requires FinalTicks(prices, tokenIds, finalPrice, end)
    requires b in table && b.createdAtBlock == finalBlock
    requires forall x :: x in tvl ==> !BelongsTo(pts, protocolId, x.protocolTokenId)
    ensures var history := CalculateHistory(protocolId, pts, table, prices);
      history.Ok? &&
      GetCurrentProtocolPrice(protocolId, pts, tvl + history.value) == Some(UsdValue(finalPrice, KeySum(Keys(table), table, finalBlock)))
  {
    GridTableHistory(protocolId, pts, tokenIds, end, finalBlock, table, tvl, prices);
    GridTableLatest(protocolId, pts, tokenIds, end, finalBlock, table, tvl, prices, finalPrice, b);
    UsdOfHistory(pts, prices, table, Keys(table), finalBlock);
    GridTableUsd(protocolId, pts, tokenIds, end, finalBlock, table, prices, finalPrice);
  }

  // ---------------------------------------------------------------------
  // The current deposit
  // ---------------------------------------------------------------------

  /** `n` copies of `a` added up, so that the inductions below stay linear. */
  function Times(n: nat, a: real): real
  {
    if n == 0 then 0.0 else Times(n - 1, a) + a
  }

  lemma {:induction false} TimesIsProduct(n: nat, a: real)
    ensures Times(n, a) == n as real * a
  {
    if n > 0 {
      TimesIsProduct(n - 1, a);
    }
  }

  /** Each account holds `tokensPerAccount` rows of the final amount at the final block. */
  lemma {:induction false} AccountFinalTotal(p: Plan, d: BalanceDraws, j: int)
    requires DrawsFit(p, d) && CanSampleTokens(p) && UniqueIds(p.ptl) && 0 <= j < p.accountCount
    ensures GroupSum(AtBlock(AccountHistory(p, d, j), p.finalBlock)) == Times(p.tokensPerAccount, p.finalAmount)
  {
    FinalSnapshot(p, d, j);
    SumOfCopies(Amounts(AtBlock(AccountHistory(p, d, j), p.finalBlock)), p.finalAmount);
  }

  /** If every history sums to `v` at `block`, the table sums to `|hs|` copies of `v`. */
  lemma {:induction false} ConcatSumAtBlock(hs: seq<seq<BalanceRow>>, block: int, v: real)
    requires forall j :: 0 <= j < |hs| ==> GroupSum(AtBlock(hs[j], block)) == v
    ensures GroupSum(AtBlock(Concat(hs), block)) == Times(|hs|, v)
  {
    if hs == [] {
      assert Amounts([]) == [];
    } else {
      var init, last := hs[..|hs| - 1], hs[|hs| - 1];
      assert forall j :: 0 <= j < |init| ==> init[j] == hs[j];
      ConcatSumAtBlock(init, block, v);
      AtBlockAppend(Concat(init), last, block);
      GroupSumAppend(AtBlock(Concat(init), block), AtBlock(last, block));
    }
  }

  /** All accounts hold `tokensPerAccount` rows of the final amount at the final block. */
  lemma {:induction false} FinalBlockTotal(p: Plan, d: BalanceDraws)
    requires DrawsFit(p, d) && CanSampleTokens(p) && UniqueIds(p.ptl)
    ensures GroupSum(AtBlock(BalanceTable(p, d), p.finalBlock)) ==
      Times(p.accountCount, Times(p.tokensPerAccount, p.finalAmount))
  {
    var hs := PlannedHistories(p, d);
    forall j | 0 <= j < |hs| ensures GroupSum(AtBlock(hs[j], p.finalBlock)) == Times(p.tokensPerAccount, p.finalAmount) {
      AccountFinalTotal(p, d, j);
    }
    ConcatSumAtBlock(hs, p.finalBlock, Times(p.tokensPerAccount, p.finalAmount));
  }

  lemma {:induction false} SumOfCopies(s: seq<real>, a: real)
    requires forall i :: 0 <= i < |s| ==> s[i] == a
    ensures Sum(s) == Times(|s|, a)
    decreases |s|
  {
    if |s| > 0 {
      SumOfCopies(s[..|s| - 1], a);
    }
  }

  /** With at least one account and one token per account, some generated row lies at the final block. */
  lemma {:induction false} FinalBlockRow(p: Plan, d: BalanceDraws) returns (b: BalanceRow)
    requires DrawsFit(p, d) && CanSampleTokens(p) && UniqueIds(p.ptl)
    requires p.accountCount > 0 && p.tokensPerAccount > 0
    ensures b in BalanceTable(p, d) && b.createdAtBlock == p.finalBlock
  {
    FinalSnapshot(p, d, 0);
    var at := AtBlock(AccountHistory(p, d, 0), p.finalBlock);
    AtBlockMembers(AccountHistory(p, d, 0), p.finalBlock);
    assert at[0] in at;
    b := at[0];
    BalanceTableMembers(p, d, b);
  }

  /**
   * The end-to-end property: after a run with at least one account and one
   * token per account over a range with `start < end`, the calculation
   * succeeds and the current lookup on a TVL table with no earlier rows of
   * the protocol returns the deposit, exactly.
   */
  lemma {:induction false} CurrentDepositIsDeposit(protocolId: int, pts: seq<ProtocolToken>, tvl: seq<TvlRow>, p: Plan, d: BalanceDraws,
                                tokenIds: seq<int>, priceDraws: seq<seq<int>>, start: int, deposit: real)
    requires start < p.end && p.finalBlock == FinalBlock(start, p.end) && p.finalAmount == FINAL_TOKEN_AMOUNT
    requires p.accountCount > 0 && p.tokensPerAccount > 0
    requires DrawsFit(p, d) && CanSampleTokens(p) && ProtocolSetup(protocolId, pts, p.ptl, tokenIds)
    requires PriceDrawsFit(priceDraws, |tokenIds|, Segments(start, p.end))
    requires forall x :: x in tvl ==> !BelongsTo(pts, protocolId, x.protocolTokenId)
    ensures var price := FinalTokenPrice(deposit, p.accountCount, p.tokensPerAccount);
      var history := CalculateHistory(protocolId, pts, BalanceTable(p, d),
                                      PriceRows(tokenIds, price.value, p.end, priceDraws));
      history.Ok? && GetCurrentProtocolPrice(protocolId, pts, tvl + history.value) == Some(deposit)
  {
    var price := FinalTokenPrice(deposit, p.accountCount, p.tokensPerAccount).value;
    var table := BalanceTable(p, d);
    var prices := PriceRows(tokenIds, price, p.end, priceDraws);
    GeneratedTableOnGrid(protocolId, pts, p, d, tokenIds);
    PriceRowsFinalTicks(tokenIds, price, p.end, priceDraws, Segments(start, p.end));
    var b := FinalBlockRow(p, d);
    GridTableCurrentValue(protocolId, pts, tokenIds, p.end, p.finalBlock, table, tvl, prices, price, b);
    KeySumPartition(Keys(table), table, p.finalBlock);
    FinalBlockTotal(p, d);
    DepositSplit(deposit, p.accountCount, p.tokensPerAccount, KeySum(Keys(table), table, p.finalBlock),
                 GroupSum(AtBlock(table, p.finalBlock)));
  }

  /** The final price times the tokens held gives back the deposit. */
  lemma {:induction false} DepositSplit(deposit: real, accountCount: nat, tokensPerAccount: nat, groups: real, held: real)
    requires accountCount > 0 && tokensPerAccount > 0
    requires groups == held && held == Times(accountCount, Times(tokensPerAccount, FINAL_TOKEN_AMOUNT))
    ensures UsdValue(FinalTokenPrice(deposit, accountCount, tokensPerAccount).value, groups) == deposit
  {
    TimesIsProduct(tokensPerAccount, FINAL_TOKEN_AMOUNT);
    TimesIsProduct(accountCount, tokensPerAccount as real * FINAL_TOKEN_AMOUNT);
    assert (accountCount * tokensPerAccount) as real == accountCount as real * tokensPerAccount as real;
  }
}
