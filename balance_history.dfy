/**
 * What the balance history synthesizer appends to each account
 * (core/service/generator.py, `_generate_balance_history` and
 * `_generate_account_token_balance`), as functions of its inputs and its
 * random draws, with the properties the generator promises about it.
 */
module BalanceHistory {
  import opened Model
  import opened GeneratorMath

  /** `final_token_amount`: every held token's amount at the end of the range. */
  const FINAL_TOKEN_AMOUNT: real := 100.0

  /** A result `random.sample(range(population), size)` can produce: `size` distinct positions. */
  predicate IsSample(s: seq<int>, size: int, population: int) {
    |s| == size &&
    (forall i :: 0 <= i < |s| ==> 0 <= s[i] < population) &&
    Distinct(s)
  }

  /** The rows one account receives for one token sample. */
  function SampleRows(ptl: seq<ProtocolToken>, sample: seq<int>, amount: real, createdAt: int, block: int): (rows: seq<BalanceRow>)
    requires forall i :: 0 <= i < |sample| ==> 0 <= sample[i] < |ptl|
    ensures |rows| == |sample|
    ensures forall i :: 0 <= i < |rows| ==> rows[i] == BalanceRow(ptl[sample[i]].id, amount, createdAt, block)
  {
    seq(|sample|, i requires 0 <= i < |sample| && 0 <= sample[i] < |ptl| =>
      BalanceRow(ptl[sample[i]].id, amount, createdAt, block))
  }

  /** An account's rows from one sample name pairwise distinct protocol tokens. */
  lemma SampleRowsDistinctTokens(ptl: seq<ProtocolToken>, sample: seq<int>, amount: real, createdAt: int, block: int)
    requires UniqueIds(ptl) && IsSample(sample, |sample|, |ptl|)
    ensures var rows := SampleRows(ptl, sample, amount, createdAt, block);
      forall i, j :: 0 <= i < j < |rows| ==> rows[i].protocolTokenId != rows[j].protocolTokenId
  {
    var rows := SampleRows(ptl, sample, amount, createdAt, block);
    forall i, j | 0 <= i < j < |rows| ensures rows[i].protocolTokenId != rows[j].protocolTokenId {
      var a, b := sample[i], sample[j];
      assert a != b;
      if a < b { assert ptl[a].id != ptl[b].id; } else { assert ptl[b].id != ptl[a].id; }
    }
  }

  /** The position of `x` in `s`. */
  function IndexOf(s: seq<int>, x: int): (i: int)
    requires x in s
    ensures 0 <= i < |s| && s[i] == x
    ensures forall k :: 0 <= k < i ==> s[k] != x
  {
    if s[0] == x then 0 else 1 + IndexOf(s[1..], x)
  }

  /** In a sequence without repetitions the position of an element is where it stands. */
  lemma IndexOfDistinct(s: seq<int>, q: int)
    requires 0 <= q < |s|
    requires Distinct(s)
    ensures IndexOf(s, s[q]) == q
  {
  }

  /**
   * The fixed inputs of one `_generate_balance_history` call: the protocol's
   * tokens, the number of accounts, the tokens per account, the final amount,
   * the end timestamp and the final block.
   */
  datatype Plan = Plan(ptl: seq<ProtocolToken>, accountCount: nat, tokensPerAccount: nat,
                       finalAmount: real, end: int, finalBlock: nat)

  /**
   * The random draws of one call. Draws for block `b` (with b < finalBlock) sit at index b:
   * the percentage, the accounts `random.sample` picks, and a token sample for
   * the q-th picked account.
   */
  datatype BalanceDraws = BalanceDraws(
    finalSamples: seq<seq<int>>,
    percents: seq<int>,
    accountSamples: seq<seq<int>>,
    tokenSamples: seq<seq<seq<int>>>)

  /** Whether `random.sample` can deliver the token samples: it raises when asked for more tokens than there are. */
  predicate CanSampleTokens(p: Plan) {
    p.tokensPerAccount <= |p.ptl|
  }

  /** Draws the random calls can produce for `p`. Token samples only exist where sampling does not raise. */
  predicate DrawsFit(p: Plan, d: BalanceDraws) {
    var m := ChangingAccounts(p.accountCount);
    |d.finalSamples| == p.accountCount &&
    |d.percents| == p.finalBlock && |d.accountSamples| == p.finalBlock && |d.tokenSamples| == p.finalBlock &&
    (forall b :: 0 <= b < p.finalBlock ==>
      IsPercentDraw(d.percents[b]) && IsSample(d.accountSamples[b], m, p.accountCount) && |d.tokenSamples[b]| == m) &&
    (CanSampleTokens(p) ==>
      (forall j :: 0 <= j < p.accountCount ==> IsSample(d.finalSamples[j], p.tokensPerAccount, |p.ptl|)) &&
      (forall b, q :: 0 <= b < p.finalBlock && 0 <= q < |d.tokenSamples[b]| ==>
        IsSample(d.tokenSamples[b][q], p.tokensPerAccount, |p.ptl|)))
  }

  /** The amount every row of earlier block `b` carries. */
  function BlockAmount(p: Plan, d: BalanceDraws, b: int): real
    requires DrawsFit(p, d) && 0 <= b < p.finalBlock
  {
    Perturb(p.finalAmount, d.percents[b])
  }

  /** Account `j`'s rows of the final snapshot. */
  function FinalRows(p: Plan, d: BalanceDraws, j: int): seq<BalanceRow>
    requires DrawsFit(p, d) && CanSampleTokens(p) && 0 <= j < p.accountCount
  {
    SampleRows(p.ptl, d.finalSamples[j], p.finalAmount, p.end, p.finalBlock)
  }

  /** Account `j`'s rows of earlier block `b`: none unless it was picked at that block. */
  function BlockRows(p: Plan, d: BalanceDraws, j: int, b: int): seq<BalanceRow>
    requires DrawsFit(p, d) && CanSampleTokens(p) && 0 <= b < p.finalBlock
  {
    var picked := d.accountSamples[b];
    if j in picked then
      SampleRows(p.ptl, d.tokenSamples[b][IndexOf(picked, j)], BlockAmount(p, d, b),
                 BlockCreatedAt(p.end, p.finalBlock, b), b)
    else []
  }

  /** Account `j`'s rows of every earlier block, indexed by block. */
  function BlockList(p: Plan, d: BalanceDraws, j: int): (bs: seq<seq<BalanceRow>>)
    requires DrawsFit(p, d) && CanSampleTokens(p)
    ensures |bs| == p.finalBlock && forall b :: 0 <= b < p.finalBlock ==> bs[b] == BlockRows(p, d, j, b)
  {
    seq(p.finalBlock, b requires 0 <= b < p.finalBlock && DrawsFit(p, d) && CanSampleTokens(p) => BlockRows(p, d, j, b))
  }

  /** The rows of blocks |bs|-1 down to `b`, in the order a backward walk appends them. */
  function Walk(bs: seq<seq<BalanceRow>>, b: nat): seq<BalanceRow>
    decreases |bs| - b
  {
    if b >= |bs| then [] else Walk(bs, b + 1) + bs[b]
  }

  /** Account `j`'s rows of blocks finalBlock-1 down to `b`, in the order the backward walk appends them. */
  function EarlierRows(p: Plan, d: BalanceDraws, j: int, b: nat): seq<BalanceRow>
    requires DrawsFit(p, d) && CanSampleTokens(p)
  {
    Walk(BlockList(p, d, j), b)
  }

  /** One step of the backward walk appends the rows of block `b`. */
  lemma EarlierRowsUnfold(p: Plan, d: BalanceDraws, j: int, b: nat)
    requires DrawsFit(p, d) && CanSampleTokens(p) && b < p.finalBlock
    ensures EarlierRows(p, d, j, b) == EarlierRows(p, d, j, b + 1) + BlockRows(p, d, j, b)
  {
  }

  /** Everything one `_generate_balance_history` call appends to account `j`. */
  function AccountHistory(p: Plan, d: BalanceDraws, j: int): seq<BalanceRow>
    requires DrawsFit(p, d) && CanSampleTokens(p) && 0 <= j < p.accountCount
  {
    FinalRows(p, d, j) + EarlierRows(p, d, j, 0)
  }

  /** The rows of `rows` at block `b`, in order. */
  function AtBlock(rows: seq<BalanceRow>, b: int): (r: seq<BalanceRow>)
    ensures |r| <= |rows|
  {
    if rows == [] then []
    else (if rows[0].createdAtBlock == b then [rows[0]] else []) + AtBlock(rows[1..], b)
  }

  /** `AtBlock` keeps exactly the rows at block `b`. */
  lemma {:induction false} AtBlockMembers(rows: seq<BalanceRow>, b: int)
    ensures forall x :: x in AtBlock(rows, b) <==> x in rows && x.createdAtBlock == b
  {
    if rows != [] {
      AtBlockMembers(rows[1..], b);
      assert rows == [rows[0]] + rows[1..];
    }
  }

  lemma {:induction false} AtBlockAppend(a: seq<BalanceRow>, c: seq<BalanceRow>, b: int)
    ensures AtBlock(a + c, b) == AtBlock(a, b) + AtBlock(c, b)
  {
    if a == [] {
      assert a + c == c;
    } else {
      var head := if a[0].createdAtBlock == b then [a[0]] else [];
      assert (a + c)[0] == a[0];
      assert (a + c)[1..] == a[1..] + c;
      AtBlockAppend(a[1..], c, b);
      assert AtBlock(a + c, b) == head + (AtBlock(a[1..], b) + AtBlock(c, b));
      assert head + (AtBlock(a[1..], b) + AtBlock(c, b)) == (head + AtBlock(a[1..], b)) + AtBlock(c, b);
    }
  }

  lemma {:induction false} AtBlockAll(rows: seq<BalanceRow>, b: int)
    requires forall x :: x in rows ==> x.createdAtBlock == b
    ensures AtBlock(rows, b) == rows
  {
    if rows != [] {
      assert rows[0] in rows;
      AtBlockAll(rows[1..], b);
    }
  }

  lemma {:induction false} AtBlockNone(rows: seq<BalanceRow>, b: int)
    requires forall x :: x in rows ==> x.createdAtBlock != b
    ensures AtBlock(rows, b) == []
  {
    if rows != [] {
      assert rows[0] in rows;
      AtBlockNone(rows[1..], b);
    }
  }

  /** The rows of one earlier block all sit at that block. */
  lemma BlockRowsAtBlock(p: Plan, d: BalanceDraws, j: int, b: int)
    requires DrawsFit(p, d) && CanSampleTokens(p) && 0 <= b < p.finalBlock
    ensures forall x :: x in BlockRows(p, d, j, b) ==> x.createdAtBlock == b
  {
  }

  /** Every list entry holds only rows of its own block. */
  predicate OnOwnBlocks(bs: seq<seq<BalanceRow>>) {
    forall b :: 0 <= b < |bs| ==> forall x :: x in bs[b] ==> x.createdAtBlock == b
  }

  lemma BlockListOnOwnBlocks(p: Plan, d: BalanceDraws, j: int)
    requires DrawsFit(p, d) && CanSampleTokens(p)
    ensures OnOwnBlocks(BlockList(p, d, j))
  {
    var bs := BlockList(p, d, j);
    forall b | 0 <= b < |bs| ensures forall x: BalanceRow :: x in bs[b] ==> x.createdAtBlock == b {
      BlockRowsAtBlock(p, d, j, b);
    }
  }

  /** Every row a walk from `b0` appends sits at a block in [b0, |bs|). */
  lemma {:induction false} WalkBlocks(bs: seq<seq<BalanceRow>>, b0: nat)
    requires OnOwnBlocks(bs)
    ensures forall x :: x in Walk(bs, b0) ==> b0 <= x.createdAtBlock < |bs|
    decreases |bs| - b0
  {
    if b0 < |bs| {
      var later, here := Walk(bs, b0 + 1), bs[b0];
      WalkBlocks(bs, b0 + 1);
      forall x: BalanceRow | x in later + here ensures b0 <= x.createdAtBlock < |bs| {
        if x in later { } else { assert x in here; }
      }
    }
  }

  /** At a block a walk from `b0` visited, the walk holds exactly that block's entry. */
  lemma {:induction false} WalkAtBlock(bs: seq<seq<BalanceRow>>, b0: nat, b: int)
    requires OnOwnBlocks(bs) && b0 <= b < |bs|
    ensures AtBlock(Walk(bs, b0), b) == bs[b]
    decreases |bs| - b0
  {
    var later, here := Walk(bs, b0 + 1), bs[b0];
    AtBlockAppend(later, here, b);
    if b == b0 {
      WalkBlocks(bs, b0 + 1);
      AtBlockNone(later, b);
      AtBlockAll(here, b);
      assert [] + here == here;
    } else {
      WalkAtBlock(bs, b0 + 1, b);
      AtBlockNone(here, b);
      assert bs[b] + [] == bs[b];
    }
  }

  /** Every row appended for earlier blocks from `b0` on sits at a block in [b0, finalBlock). */
  lemma EarlierRowsBlocks(p: Plan, d: BalanceDraws, j: int, b0: nat)
    requires DrawsFit(p, d) && CanSampleTokens(p)
    ensures forall x :: x in EarlierRows(p, d, j, b0) ==> b0 <= x.createdAtBlock < p.finalBlock
  {
    BlockListOnOwnBlocks(p, d, j);
    WalkBlocks(BlockList(p, d, j), b0);
  }

  /** At a block the backward walk visited, account `j` has exactly the rows of that block. */
  lemma EarlierRowsAtBlock(p: Plan, d: BalanceDraws, j: int, b0: nat, b: int)
    requires DrawsFit(p, d) && CanSampleTokens(p) && b0 <= b < p.finalBlock
    ensures AtBlock(EarlierRows(p, d, j, b0), b) == BlockRows(p, d, j, b)
  {
    BlockListOnOwnBlocks(p, d, j);
    WalkAtBlock(BlockList(p, d, j), b0, b);
  }

  /**
   * Final snapshot: at the final block every account holds exactly its
   * final sample, `tokensPerAccount` rows with distinct protocol tokens, each
   * of amount `finalAmount` stamped `end`.
   */
  lemma FinalSnapshot(p: Plan, d: BalanceDraws, j: int)
    requires DrawsFit(p, d) && CanSampleTokens(p) && UniqueIds(p.ptl) && 0 <= j < p.accountCount
    ensures var rows := AtBlock(AccountHistory(p, d, j), p.finalBlock);
      |rows| == p.tokensPerAccount &&
      (forall i :: 0 <= i < |rows| ==>
        rows[i].amount == p.finalAmount && rows[i].createdAt == p.end && rows[i].createdAtBlock == p.finalBlock) &&
      (forall i, k :: 0 <= i < k < |rows| ==> rows[i].protocolTokenId != rows[k].protocolTokenId)
  {
    var fin := FinalRows(p, d, j);
    AtBlockAppend(fin, EarlierRows(p, d, j, 0), p.finalBlock);
    AtBlockAll(fin, p.finalBlock);
    EarlierRowsBlocks(p, d, j, 0);
    AtBlockNone(EarlierRows(p, d, j, 0), p.finalBlock);
    SampleRowsDistinctTokens(p.ptl, d.finalSamples[j], p.finalAmount, p.end, p.finalBlock);
  }

  /**
   * Earlier blocks: at block b < finalBlock account `j` has rows exactly
   * when the account sample of that block picked it, and then
   * `tokensPerAccount` rows with distinct protocol tokens, all of the block's
   * one amount and stamped `end - (finalBlock - b)` hours.
   */
  lemma EarlierSnapshot(p: Plan, d: BalanceDraws, j: int, b: int)
    requires DrawsFit(p, d) && CanSampleTokens(p) && UniqueIds(p.ptl) && 0 <= j < p.accountCount
    requires 0 <= b < p.finalBlock
    ensures var rows := AtBlock(AccountHistory(p, d, j), b);
      (j !in d.accountSamples[b] ==> rows == []) &&
      (j in d.accountSamples[b] ==>
        |rows| == p.tokensPerAccount &&
        (forall i :: 0 <= i < |rows| ==>
          rows[i].amount == BlockAmount(p, d, b) &&
          rows[i].createdAt == BlockCreatedAt(p.end, p.finalBlock, b) && rows[i].createdAtBlock == b) &&
        (forall i, k :: 0 <= i < k < |rows| ==> rows[i].protocolTokenId != rows[k].protocolTokenId))
  {
    var fin := FinalRows(p, d, j);
    AtBlockAppend(fin, EarlierRows(p, d, j, 0), b);
    AtBlockNone(fin, b);
    EarlierRowsAtBlock(p, d, j, 0, b);
    var picked := d.accountSamples[b];
    if j in picked {
      SampleRowsDistinctTokens(p.ptl, d.tokenSamples[b][IndexOf(picked, j)], BlockAmount(p, d, b),
                               BlockCreatedAt(p.end, p.finalBlock, b), b);
    }
  }

  /** The accounts that have rows at an earlier block `b`. */
  function ChangedAt(p: Plan, d: BalanceDraws, b: int): set<int>
    requires DrawsFit(p, d) && CanSampleTokens(p)
  {
    set j | 0 <= j < p.accountCount && 0 <= b < p.finalBlock && AtBlock(AccountHistory(p, d, j), b) != []
  }

  /** At every earlier block exactly ceil(5% of the accounts) accounts change. */
  lemma ChangedAccountsCount(p: Plan, d: BalanceDraws, b: int)
    requires DrawsFit(p, d) && CanSampleTokens(p) && UniqueIds(p.ptl) && p.tokensPerAccount > 0
    requires 0 <= b < p.finalBlock
    ensures |ChangedAt(p, d, b)| == ChangingAccounts(p.accountCount)
  {
    var picked := d.accountSamples[b];
    forall j | 0 <= j < p.accountCount
      ensures AtBlock(AccountHistory(p, d, j), b) != [] <==> j in picked
    {
      EarlierSnapshot(p, d, j, b);
    }
    assert ChangedAt(p, d, b) == set q | 0 <= q < |picked| :: picked[q];
    DistinctCard(picked);
  }

  /** A sequence without repetitions has as many distinct elements as positions. */
  lemma {:induction false} DistinctCard(s: seq<int>)
    requires Distinct(s)
    ensures |set q | 0 <= q < |s| :: s[q]| == |s|
  {
    if s != [] {
      var t := s[..|s| - 1];
      DistinctCard(t);
      var front := set q | 0 <= q < |t| :: t[q];
      assert (set q | 0 <= q < |s| :: s[q]) == front + {s[|s| - 1]};
      assert s[|s| - 1] !in front;
    }
  }

  /**
   * Every row appended to account `j` sits on the block grid: its timestamp is
   * `end - (finalBlock - block)` hours, and its amount is the final amount at
   * the final block and that block's perturbed amount before it.
   */
  lemma HistoryRowShape(p: Plan, d: BalanceDraws, j: int, x: BalanceRow)
    requires DrawsFit(p, d) && CanSampleTokens(p) && 0 <= j < p.accountCount
    requires x in AccountHistory(p, d, j)
    ensures 0 <= x.createdAtBlock <= p.finalBlock
    ensures x.createdAt == BlockCreatedAt(p.end, p.finalBlock, x.createdAtBlock)
    ensures x.createdAtBlock == p.finalBlock ==> x.amount == p.finalAmount
    ensures x.createdAtBlock < p.finalBlock ==> x.amount == BlockAmount(p, d, x.createdAtBlock)
    ensures exists i :: 0 <= i < |p.ptl| && p.ptl[i].id == x.protocolTokenId
  {
    var b := x.createdAtBlock;
    if x in FinalRows(p, d, j) {
      var rows := FinalRows(p, d, j);
      var i :| 0 <= i < |rows| && rows[i] == x;
      assert p.ptl[d.finalSamples[j][i]].id == x.protocolTokenId;
    } else {
      EarlierRowsBlocks(p, d, j, 0);
      AtBlockMembers(EarlierRows(p, d, j, 0), b);
      assert x in AtBlock(EarlierRows(p, d, j, 0), b);
      EarlierRowsAtBlock(p, d, j, 0, b);
      var rows := BlockRows(p, d, j, b);
      var i :| 0 <= i < |rows| && rows[i] == x;
      var picked := d.accountSamples[b];
      assert j in picked;
      assert p.ptl[d.tokenSamples[b][IndexOf(picked, j)][i]].id == x.protocolTokenId;
    }
  }

  /** With the generator's final amount of 100 every amount is a whole number in [85, 115], so fits `uint256`. */
  lemma HistoryAmountsFitUint256(p: Plan, d: BalanceDraws, j: int, x: BalanceRow)
    requires DrawsFit(p, d) && CanSampleTokens(p) && 0 <= j < p.accountCount
    requires p.finalAmount == FINAL_TOKEN_AMOUNT && x in AccountHistory(p, d, j)
    ensures 85.0 <= x.amount <= 115.0 && IsUint256(x.amount)
  {
    HistoryRowShape(p, d, j, x);
    var whole := 100;
    if x.createdAtBlock < p.finalBlock {
      var r := d.percents[x.createdAtBlock];
      PerturbHundred(r);
      whole := 100 - r;
    }
    assert x.amount == whole as real;
    WholeAmountFits(whole);
  }

  lemma WholeAmountFits(v: int)
    requires 0 <= v <= 115
    ensures IsUint256(v as real)
  {
    assert (v as real).Floor == v;
  }
}
