/**
 * The synthetic data generator (core/service/generator.py,
 * `ProtocolDataGeneratorService`). Every random call is replaced by an
 * explicit draw; the store-assigned ids of tokens and protocol tokens are inputs.
 */
module Generator {
  import opened Wrappers
  import opened Model
  import opened Names
  import opened GeneratorMath
  import opened BalanceHistory
  import opened PriceHistory

  /** The exceptions the generator can raise. */
  datatype GenError =
    | DivisionByZero              // `deposit / (len(accounts) * ...)` with no accounts
    | SampleLargerThanPopulation  // `random.sample` asked for more protocol tokens than exist

  /** The number of tokens `random.randint(10, 50)` can pick for a generator. */
  type TokenCount = x: int | 10 <= x <= 50 witness 10

  /** The number of random bytes behind each wallet address (`secrets.token_hex(20)`). */
  const ADDRESS_BYTES: int := 20

  /** The random input for one token: its name, its symbol and `random.randint(1, 20)` decimals. */
  datatype TokenDraw = TokenDraw(name: NameDraw, symbol: NameDraw, decimals: int)

  predicate TokenDrawFits(d: TokenDraw) {
    NameDrawFits(d.name, 4, 7) && NameDrawFits(d.symbol, 3, 4) && 1 <= d.decimals <= 20
  }

  /** A token as the factory builds it: a 4 to 7 letter name, a 3 to 4 letter upper-case symbol, 1 to 20 decimals. */
  predicate WellFormedToken(t: Token) {
    4 <= |t.name| <= 7 && (forall i :: 0 <= i < |t.name| ==> IsAsciiLetter(t.name[i])) &&
    3 <= |t.symbol| <= 4 && (forall i :: 0 <= i < |t.symbol| ==> IsUpperLetter(t.symbol[i])) &&
    1 <= t.decimals <= 20
  }

  /** A new token: a 4 to 7 letter name, an upper-cased 3 to 4 letter symbol and the drawn decimals. */
  function MakeToken(d: TokenDraw): (t: Token)
    requires TokenDrawFits(d)
    ensures WellFormedToken(t)
  {
    var symbol := GenerateName(d.symbol, 3, 4);
    UpperOfLetters(symbol);
    Token(GenerateName(d.name, 4, 7), Upper(symbol), d.decimals)
  }

  /**
   * `final_token_price = deposit / (len(accounts) * number_of_tokens_per_account * final_token_amount)`;
   * None is the division by zero.
   */
  function FinalTokenPrice(deposit: real, accountCount: nat, tokensPerAccount: nat): (price: Option<real>)
    ensures price.None? <==> accountCount == 0 || tokensPerAccount == 0
    ensures price.Some? ==> price.value * (accountCount * tokensPerAccount) as real * FINAL_TOKEN_AMOUNT == deposit
  {
    var held := (accountCount * tokensPerAccount) as real * FINAL_TOKEN_AMOUNT;
    if held == 0.0 then None else Some(deposit / held)
  }

  /**
   * `generate_accounts(accounts_number)`: one fresh account per draw (none for a
   * non-positive count), each with the 40 hex digits of its 20 drawn bytes
   * and an empty balance history.
   */
  method GenerateAccounts(accountsNumber: int, addressDraws: seq<seq<byte>>) returns (accounts: seq<Account>)
    requires |addressDraws| == (if accountsNumber > 0 then accountsNumber else 0)
    requires forall i :: 0 <= i < |addressDraws| ==> |addressDraws[i]| == ADDRESS_BYTES
    ensures |accounts| == |addressDraws| && Distinct(accounts)
    ensures forall i :: 0 <= i < |accounts| ==>
      fresh(accounts[i]) && accounts[i].balanceHistory == [] &&
      accounts[i].walletAddress == TokenHex(addressDraws[i]) && |accounts[i].walletAddress| == 2 * ADDRESS_BYTES
  {
    accounts := [];
    for i := 0 to |addressDraws|
      invariant |accounts| == i && Distinct(accounts)
      invariant forall k :: 0 <= k < i ==>
        fresh(accounts[k]) && accounts[k].balanceHistory == [] && accounts[k].walletAddress == TokenHex(addressDraws[k])
    {
      var account := new Account(TokenHex(addressDraws[i]));
      accounts := accounts + [account];
    }
  }

  /**
   * `_generate_account_token_balance`: for each listed account in turn, draws
   * a sample of `tokensPerAccount` protocol tokens and appends one row per
   * sampled token. Sampling raises before the first append when there are
   * not enough protocol tokens; unlisted accounts are never touched.
   */
  method GenerateAccountTokenBalance(ptl: seq<ProtocolToken>, accounts: seq<Account>, tokensPerAccount: nat,
                                     amount: real, createdAt: int, block: int, samples: seq<seq<int>>)
    returns (outcome: Outcome<GenError>)
    requires Distinct(accounts) && |samples| == |accounts|
    requires tokensPerAccount <= |ptl| ==>
      forall q :: 0 <= q < |samples| ==> IsSample(samples[q], tokensPerAccount, |ptl|)
    modifies accounts
    ensures outcome.Fail? <==> |accounts| > 0 && tokensPerAccount > |ptl|
    ensures outcome.Fail? ==> outcome.error == SampleLargerThanPopulation
    ensures forall q :: 0 <= q < |accounts| ==>
      accounts[q].balanceHistory == old(accounts[q].balanceHistory) +
        (if outcome.Pass? && tokensPerAccount <= |ptl| && IsSample(samples[q], tokensPerAccount, |ptl|)
         then SampleRows(ptl, samples[q], amount, createdAt, block) else [])
  {
    outcome := Pass;
    var q := 0;
    while q < |accounts|
      invariant 0 <= q <= |accounts|
      invariant q > 0 ==> tokensPerAccount <= |ptl|
      invariant forall i :: 0 <= i < q ==>
        accounts[i].balanceHistory == old(accounts[i].balanceHistory) + SampleRows(ptl, samples[i], amount, createdAt, block)
      invariant forall i :: q <= i < |accounts| ==> accounts[i].balanceHistory == old(accounts[i].balanceHistory)
    {
      var account := accounts[q];
      if tokensPerAccount > |ptl| {
        outcome := Fail(SampleLargerThanPopulation);
        return;
      }
      var sample := samples[q];
      ghost var rows := SampleRows(ptl, sample, amount, createdAt, block);
      var i := 0;
      while i < |sample|
        invariant 0 <= i <= |sample|
        invariant account.balanceHistory == old(account.balanceHistory) + rows[..i]
        modifies account
      {
        account.balanceHistory := account.balanceHistory + [BalanceRow(ptl[sample[i]].id, amount, createdAt, block)];
        assert rows[..i + 1] == rows[..i] + [rows[i]];
        i := i + 1;
      }
      assert rows[..|sample|] == rows;
      q := q + 1;
    }
  }

  /**
   * `_generate_balance_history`: the full snapshot at the final block, then
   * the backward walk over blocks finalBlock-1 down to 0. At each block one
   * percentage draw fixes the amount around the final amount, and the
   * sampled `ceil(5%)` of the accounts receive rows stamped that block's hour.
   */
  method GenerateBalanceHistory(ptl: seq<ProtocolToken>, accounts: seq<Account>, tokensPerAccount: nat,
                                finalAmount: real, start: int, end: int, draws: BalanceDraws)
    returns (outcome: Outcome<GenError>)
    requires start <= end && Distinct(accounts)
    requires DrawsFit(Plan(ptl, |accounts|, tokensPerAccount, finalAmount, end, FinalBlock(start, end)), draws)
    modifies accounts
    ensures outcome.Fail? <==> |accounts| > 0 && tokensPerAccount > |ptl|
    ensures outcome.Fail? ==> outcome.error == SampleLargerThanPopulation
    ensures outcome.Fail? ==>
      forall j :: 0 <= j < |accounts| ==> accounts[j].balanceHistory == old(accounts[j].balanceHistory)
    ensures outcome.Pass? ==> forall j :: 0 <= j < |accounts| ==>
      accounts[j].balanceHistory == old(accounts[j].balanceHistory) +
        AccountHistory(Plan(ptl, |accounts|, tokensPerAccount, finalAmount, end, FinalBlock(start, end)), draws, j)
  {
    var finalBlock := FinalBlock(start, end);
    var plan := Plan(ptl, |accounts|, tokensPerAccount, finalAmount, end, finalBlock);

    ghost var initial := Histories(accounts);
    outcome := GenerateAccountTokenBalance(ptl, accounts, tokensPerAccount, finalAmount, end, finalBlock, draws.finalSamples);
    if outcome.Fail? {
      return;
    }

    var block := finalBlock;
    while block > 0
      invariant 0 <= block <= finalBlock && outcome.Pass?
      invariant forall j :: 0 <= j < |accounts| ==>
        accounts[j].balanceHistory == initial[j] + FinalRows(plan, draws, j) + EarlierRows(plan, draws, j, block)
    {
      block := block - 1;
      GenerateBlockBalances(plan, accounts, draws, block, initial);
    }
  }

  /**
   * One iteration of the backward walk of `_generate_balance_history`: the
   * amount of block `block`, its timestamp, the sampled accounts, and their rows.
   */
  method GenerateBlockBalances(plan: Plan, accounts: seq<Account>, draws: BalanceDraws, block: nat,
                               ghost initial: seq<seq<BalanceRow>>)
    requires Distinct(accounts) && plan.accountCount == |accounts| && |initial| == |accounts|
    requires DrawsFit(plan, draws) && block < plan.finalBlock
    requires |accounts| > 0 ==> CanSampleTokens(plan)
    requires forall j :: 0 <= j < |accounts| ==>
      accounts[j].balanceHistory == initial[j] + FinalRows(plan, draws, j) + EarlierRows(plan, draws, j, block + 1)
    modifies accounts
    ensures forall j :: 0 <= j < |accounts| ==>
      accounts[j].balanceHistory == initial[j] + FinalRows(plan, draws, j) + EarlierRows(plan, draws, j, block)
  {
    var tokenAmount := Perturb(plan.finalAmount, draws.percents[block]);
    var createdAt := BlockCreatedAt(plan.end, plan.finalBlock, block);
    var changingCount := ChangingAccounts(|accounts|);
    var picked := draws.accountSamples[block];
    var changing := seq(changingCount, q requires 0 <= q < changingCount => accounts[picked[q]]);
    ghost var before := Histories(accounts);
    PickedAccounts(accounts, picked, changing);
    var outcome := GenerateAccountTokenBalance(plan.ptl, changing, plan.tokensPerAccount, tokenAmount, createdAt, block,
                                               draws.tokenSamples[block]);
    assert outcome.Pass?;
    ghost var after := Histories(accounts);
    forall q | 0 <= q < changingCount
      ensures after[picked[q]] == before[picked[q]] + SampleRows(plan.ptl, draws.tokenSamples[block][q], tokenAmount, createdAt, block)
    {
      assert IsSample(draws.tokenSamples[block][q], plan.tokensPerAccount, |plan.ptl|);
      assert changing[q] == accounts[picked[q]];
    }
    if |accounts| > 0 {
      BlockStep(plan, draws, block, initial, before, after);
    }
  }

  /** `random.sample(accounts, m)` through the drawn positions: the picked accounts are distinct, and no other account is among them. */
  lemma PickedAccounts(accounts: seq<Account>, picked: seq<int>, changing: seq<Account>)
    requires Distinct(accounts) && IsSample(picked, |picked|, |accounts|)
    requires |changing| == |picked| && forall q :: 0 <= q < |picked| ==> changing[q] == accounts[picked[q]]
    ensures Distinct(changing)
    ensures forall j :: 0 <= j < |accounts| && j !in picked ==> accounts[j] !in changing
  {
    forall a, c | 0 <= a < c < |changing| ensures changing[a] != changing[c] {
      assert picked[a] != picked[c];
      if picked[a] < picked[c] { } else { }
    }
    forall j | 0 <= j < |accounts| && j !in picked ensures accounts[j] !in changing {
      forall q | 0 <= q < |changing| ensures changing[q] != accounts[j] {
        assert picked[q] != j;
        if picked[q] < j { } else { }
      }
    }
  }

  /** The current balance history of each listed account. */
  ghost function Histories(accounts: seq<Account>): (h: seq<seq<BalanceRow>>)
    reads accounts
    ensures |h| == |accounts| && forall j :: 0 <= j < |accounts| ==> h[j] == accounts[j].balanceHistory
  {
    seq(|accounts|, j requires 0 <= j < |accounts| reads accounts => accounts[j].balanceHistory)
  }

  /**
   * One step of the backward walk: if the picked accounts got their sampled
   * rows and no other account changed, every account got exactly its rows of that block.
   */
  lemma BlockStep(plan: Plan, draws: BalanceDraws, block: int,
                  initial: seq<seq<BalanceRow>>, before: seq<seq<BalanceRow>>, after: seq<seq<BalanceRow>>)
    requires DrawsFit(plan, draws) && CanSampleTokens(plan) && 0 <= block < plan.finalBlock
    requires |initial| == |before| == |after| == plan.accountCount
    requires forall j :: 0 <= j < plan.accountCount ==>
      before[j] == initial[j] + FinalRows(plan, draws, j) + EarlierRows(plan, draws, j, block + 1)
    requires forall q :: 0 <= q < |draws.accountSamples[block]| ==>
      var j := draws.accountSamples[block][q];
      after[j] == before[j] + SampleRows(plan.ptl, draws.tokenSamples[block][q], BlockAmount(plan, draws, block),
                                         BlockCreatedAt(plan.end, plan.finalBlock, block), block)
    requires forall j :: 0 <= j < plan.accountCount && j !in draws.accountSamples[block] ==> after[j] == before[j]
    ensures forall j :: 0 <= j < plan.accountCount ==>
      after[j] == initial[j] + FinalRows(plan, draws, j) + EarlierRows(plan, draws, j, block)
  {
    var picked := draws.accountSamples[block];
    forall j | 0 <= j < plan.accountCount ensures after[j] == before[j] + BlockRows(plan, draws, j, block) {
      if j in picked {
        var q := IndexOf(picked, j);
        IndexOfDistinct(picked, q);
      }
    }
    forall j | 0 <= j < plan.accountCount
      ensures after[j] == initial[j] + FinalRows(plan, draws, j) + EarlierRows(plan, draws, j, block)
    {
      EarlierRowsStep(plan, draws, j, block, initial[j], before[j], after[j]);
    }
  }

  /** One account's side of `BlockStep`: its rows of `block` extend its earlier rows. */
  lemma EarlierRowsStep(plan: Plan, draws: BalanceDraws, j: int, block: nat,
                        initial: seq<BalanceRow>, before: seq<BalanceRow>, after: seq<BalanceRow>)
    requires DrawsFit(plan, draws) && CanSampleTokens(plan) && block < plan.finalBlock && 0 <= j < plan.accountCount
    requires before == initial + FinalRows(plan, draws, j) + EarlierRows(plan, draws, j, block + 1)
    requires after == before + BlockRows(plan, draws, j, block)
    ensures after == initial + FinalRows(plan, draws, j) + EarlierRows(plan, draws, j, block)
  {
    EarlierRowsUnfold(plan, draws, j, block);
    AppendStep(initial, FinalRows(plan, draws, j), EarlierRows(plan, draws, j, block + 1), BlockRows(plan, draws, j, block),
               EarlierRows(plan, draws, j, block), before, after);
  }

  lemma AppendStep(initial: seq<BalanceRow>, fin: seq<BalanceRow>, later: seq<BalanceRow>, here: seq<BalanceRow>,
                   earlier: seq<BalanceRow>, before: seq<BalanceRow>, after: seq<BalanceRow>)
    requires before == initial + fin + later && after == before + here && earlier == later + here
    ensures after == initial + fin + earlier
  {
    assert initial + fin + later + here == initial + fin + (later + here);
  }

  /**
   * `_generate_tokens_prices`: for each token, for each tick `delta` of
   * `ceil((end - start) / 10 minutes)`, one price row stamped
   * `end - 10 * delta` minutes; tick 0 carries the final price itself,
   * every other tick the final price moved by its own draw.
   */
  method GenerateTokensPrices(tokenIds: seq<int>, finalPrice: real, start: int, end: int, draws: seq<seq<int>>)
    returns (prices: seq<TokenPrice>)
    requires start <= end && PriceDrawsFit(draws, |tokenIds|, Segments(start, end))
    ensures prices == PriceRows(tokenIds, finalPrice, end, draws)
  {
    prices := [];
    var segments := Segments(start, end);
    for t := 0 to |tokenIds|
      invariant prices == PriceRows(tokenIds[..t], finalPrice, end, draws[..t])
    {
      ghost var ticks := TokenTicks(tokenIds[t], finalPrice, end, draws[t]);
      ghost var done := prices;
      for delta := 0 to segments
        invariant prices == done + ticks[..delta]
      {
        var createdAt := end - delta * TICK_SECONDS;
        var usdPrice := Perturb(finalPrice, draws[t][delta]);
        prices := prices + [TokenPrice(tokenIds[t], if delta != 0 then usdPrice else finalPrice, createdAt)];
        assert ticks[..delta + 1] == ticks[..delta] + [ticks[delta]];
      }
      assert ticks[..segments] == ticks;
      assert tokenIds[..t + 1][..t] == tokenIds[..t] && draws[..t + 1][..t] == draws[..t];
    }
    assert tokenIds[..|tokenIds|] == tokenIds && draws[..|draws|] == draws;
  }

  /** `ProtocolDataGeneratorService`: the token count is drawn once, at construction. */
  class ProtocolDataGenerator {
    const tokenNumber: TokenCount

    constructor (tokenNumberDraw: TokenCount)
      ensures tokenNumber == tokenNumberDraw
    {
      tokenNumber := tokenNumberDraw;
    }

    /**
     * `generate_protocol_with_tokens`: a protocol with a 5-letter name and
     * exactly `tokenNumber` tokens, the i-th built from the i-th draw.
     */
    method GenerateProtocolWithTokens(nameDraw: NameDraw, tokenDraws: seq<TokenDraw>) returns (protocol: Protocol)
      requires NameDrawFits(nameDraw, 5, 5)
      requires |tokenDraws| == tokenNumber && forall i :: 0 <= i < |tokenDraws| ==> TokenDrawFits(tokenDraws[i])
      ensures protocol.name == GenerateName(nameDraw) && |protocol.name| == 5
      ensures |protocol.tokens| == tokenNumber
      ensures forall i :: 0 <= i < |protocol.tokens| ==>
        protocol.tokens[i] == MakeToken(tokenDraws[i]) && WellFormedToken(protocol.tokens[i])
    {
      protocol := Protocol(GenerateName(nameDraw), []);
      for i := 0 to tokenNumber
        invariant protocol.name == GenerateName(nameDraw) && |protocol.tokens| == i
        invariant forall k :: 0 <= k < i ==> protocol.tokens[k] == MakeToken(tokenDraws[k])
      {
        var token := MakeToken(tokenDraws[i]);
        protocol := protocol.(tokens := protocol.tokens + [token]);
      }
    }

    /**
     * `generate_balance_history_and_token_price`: derives the tokens per
     * account and the final price from the deposit, fills the balance
     * histories and returns the price rows. Raises (and changes nothing)
     * on an empty account list, or when sampling needs more protocol tokens
     * than there are.
     */
    method GenerateBalanceHistoryAndTokenPrice(ptl: seq<ProtocolToken>, tokenIds: seq<int>, accounts: seq<Account>,
                                               start: int, end: int, deposit: real,
                                               balanceDraws: BalanceDraws, priceDraws: seq<seq<int>>)
      returns (result: Result<seq<TokenPrice>, GenError>)
      requires start <= end && Distinct(accounts)
      requires DrawsFit(Plan(ptl, |accounts|, TokensPerAccount(tokenNumber), FINAL_TOKEN_AMOUNT, end, FinalBlock(start, end)),
                        balanceDraws)
      requires PriceDrawsFit(priceDraws, |tokenIds|, Segments(start, end))
      modifies accounts
      ensures result == Err(DivisionByZero) <==> |accounts| == 0
      ensures result == Err(SampleLargerThanPopulation) <==> |accounts| > 0 && TokensPerAccount(tokenNumber) > |ptl|
      ensures result.Err? ==> forall j :: 0 <= j < |accounts| ==> accounts[j].balanceHistory == old(accounts[j].balanceHistory)
      ensures result.Ok? ==>
        var plan := Plan(ptl, |accounts|, TokensPerAccount(tokenNumber), FINAL_TOKEN_AMOUNT, end, FinalBlock(start, end));
        var price := FinalTokenPrice(deposit, |accounts|, TokensPerAccount(tokenNumber));
        price.Some? && result.value == PriceRows(tokenIds, price.value, end, priceDraws) &&
        forall j :: 0 <= j < |accounts| ==>
          accounts[j].balanceHistory == old(accounts[j].balanceHistory) + AccountHistory(plan, balanceDraws, j)
    {
      var tokensPerAccount := TokensPerAccount(tokenNumber);
      var finalTokenPrice := FinalTokenPrice(deposit, |accounts|, tokensPerAccount);
      if finalTokenPrice.None? {
        return Err(DivisionByZero);
      }
      var outcome := GenerateBalanceHistory(ptl, accounts, tokensPerAccount, FINAL_TOKEN_AMOUNT, start, end, balanceDraws);
      if outcome.Fail? {
        return Err(outcome.error);
      }
      var prices := GenerateTokensPrices(tokenIds, finalTokenPrice.value, start, end, priceDraws);
      return Ok(prices);
    }
  }
}
