/**
 * The arithmetic the history synthesizers share (core/service/generator.py):
 * integer ceilings, the hourly block grid, the 10-minute tick grid and the
 * percentage perturbation around an anchor value.
 */
module GeneratorMath {

  /** Seconds per balance block. */
  const BLOCK_SECONDS: int := 3600

  /** Seconds per price tick (`tick_in_minutes = 10`). */
  const TICK_SECONDS: int := 600

  /** Bound of the percentage draw `random.randint(-15, 15)`. */
  const MAX_PERCENT: int := 15

  /** `math.ceil(a / b)` for a non-negative numerator, computed exactly. */
  function CeilDiv(a: int, b: int): (q: int)
    requires a >= 0 && b > 0
    ensures 0 <= q && a <= q * b && (q - 1) * b < a
  {
    (a + b - 1) / b
  }

  /** `math.ceil(0.02 * token_number)`: the number of tokens each account holds. */
  function TokensPerAccount(tokenNumber: int): (k: int)
    requires tokenNumber >= 0
    ensures 0 <= k && 2 * tokenNumber <= 100 * k && 100 * (k - 1) < 2 * tokenNumber
  {
    CeilDiv(2 * tokenNumber, 100)
  }

  /** For every token count the constructor can draw, each account holds exactly one token. */
  lemma TokensPerAccountIsOne(tokenNumber: int)
    requires 10 <= tokenNumber <= 50
    ensures TokensPerAccount(tokenNumber) == 1
  {
  }

  /** `math.ceil(len(accounts) * 0.05)`: how many accounts change at each earlier block. */
  function ChangingAccounts(accountCount: int): (m: int)
    requires accountCount >= 0
    ensures 5 * accountCount <= 100 * m && 100 * (m - 1) < 5 * accountCount
    ensures 0 <= m <= accountCount
    ensures accountCount > 0 ==> m >= 1
  {
    CeilDiv(5 * accountCount, 100)
  }

  /** With fewer than 21 accounts exactly one account changes per earlier block. */
  lemma ChangingAccountsOfSmallPopulation(accountCount: int)
    requires 1 <= accountCount <= 20
    ensures ChangingAccounts(accountCount) == 1
  {
  }

  /** The index of the final block: whole hours from start to end, rounded up. */
  function FinalBlock(start: int, end: int): (f: int)
    requires start <= end
    ensures 0 <= f && end - start <= f * BLOCK_SECONDS && (f - 1) * BLOCK_SECONDS < end - start
    ensures f == 0 <==> start == end
  {
    CeilDiv(end - start, BLOCK_SECONDS)
  }

  /** The number of price ticks per token: ten-minute steps from start to end, rounded up. */
  function Segments(start: int, end: int): (s: int)
    requires start <= end
    ensures 0 <= s && end - start <= s * TICK_SECONDS && (s - 1) * TICK_SECONDS < end - start
    ensures s == 0 <==> start == end
  {
    CeilDiv(end - start, TICK_SECONDS)
  }

  /** The timestamp of block `block`: `end - (final_created_at_block - block)` hours. */
  function BlockCreatedAt(end: int, finalBlock: int, block: int): (t: int)
    ensures block <= finalBlock ==> t <= end
    ensures t == end <==> block == finalBlock
  {
    end - (finalBlock - block) * BLOCK_SECONDS
  }

  /** The timestamp of tick `delta`: `end - 10 * delta` minutes. */
  function TickCreatedAt(end: int, delta: int): (t: int)
    ensures delta >= 0 ==> t <= end
    ensures t == end <==> delta == 0
  {
    end - delta * TICK_SECONDS
  }

  /** A percentage draw `random.randint(-15, 15)` can produce. */
  predicate IsPercentDraw(r: int) {
    -MAX_PERCENT <= r <= MAX_PERCENT
  }

  /** `anchor * (100 - r) / 100`: the anchor moved by r percent. */
  function Perturb(anchor: real, r: int): (v: real)
    ensures IsPercentDraw(r) ==> v == anchor * Factor(r) && 85.0 / 100.0 <= Factor(r) <= 115.0 / 100.0
    ensures IsPercentDraw(r) && anchor >= 0.0 ==> 85.0 * anchor / 100.0 <= v <= 115.0 * anchor / 100.0
  {
    anchor * (100 - r) as real / 100.0
  }

  /** The multiplier a percentage draw applies. */
  function Factor(r: int): real {
    (100 - r) as real / 100.0
  }

  /** With the anchor 100 a perturbed amount is the whole number 100 - r. */
  lemma PerturbHundred(r: int)
    ensures Perturb(100.0, r) == (100 - r) as real
  {
  }
}
