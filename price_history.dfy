/**
 * What the price history synthesizer returns (core/service/generator.py,
 * `_generate_tokens_prices`) as a function of its inputs and random draws,
 * with the properties the generator promises about it.
 */
module PriceHistory {
  import opened Model
  import opened GeneratorMath

  /**
   * The price of tick `delta`. Tick 0 is the anchor itself; every other tick
   * is the anchor moved by its own draw (the draw of tick 0 is made and discarded).
   */
  function TickPrice(finalPrice: real, r: int, delta: int): real {
    if delta == 0 then finalPrice else Perturb(finalPrice, r)
  }

  /** One token's ticks, newest first: tick `delta` is stamped `end - 10 * delta` minutes. */
  function TokenTicks(tokenId: int, finalPrice: real, end: int, draws: seq<int>): (ticks: seq<TokenPrice>)
    ensures |ticks| == |draws|
    ensures forall delta :: 0 <= delta < |ticks| ==>
      ticks[delta] == TokenPrice(tokenId, TickPrice(finalPrice, draws[delta], delta), TickCreatedAt(end, delta))
  {
    seq(|draws|, delta requires 0 <= delta < |draws| =>
      TokenPrice(tokenId, TickPrice(finalPrice, draws[delta], delta), TickCreatedAt(end, delta)))
  }

  /** Draws for `tokenCount` tokens, `segments` percentages each, all in [-15, 15]. */
  predicate PriceDrawsFit(draws: seq<seq<int>>, tokenCount: int, segments: int) {
    |draws| == tokenCount &&
    forall t :: 0 <= t < |draws| ==>
      |draws[t]| == segments && forall delta :: 0 <= delta < segments ==> IsPercentDraw(draws[t][delta])
  }

  /** All tokens' ticks, token after token, in the order the nested loops append them. */
  function PriceRows(tokenIds: seq<int>, finalPrice: real, end: int, draws: seq<seq<int>>): seq<TokenPrice>
    requires |draws| == |tokenIds|
  {
    if tokenIds == [] then []
    else
      var n := |tokenIds| - 1;
      PriceRows(tokenIds[..n], finalPrice, end, draws[..n]) + TokenTicks(tokenIds[n], finalPrice, end, draws[n])
  }

  /** `v` lies within 15 percent of `anchor`. */
  predicate WithinDrift(v: real, anchor: real) {
    if anchor >= 0.0 then anchor * 0.85 <= v <= anchor * 1.15
    else anchor * 1.15 <= v <= anchor * 0.85
  }

  /** Every tick but tick 0 lies within 15 percent of the final price. */
  lemma TickPriceDrift(finalPrice: real, r: int, delta: int)
    requires IsPercentDraw(r)
    ensures WithinDrift(TickPrice(finalPrice, r, delta), finalPrice)
  {
    if delta != 0 {
      var f := Factor(r);
      assert Perturb(finalPrice, r) == finalPrice * f;
      assert 85.0 / 100.0 <= f <= 115.0 / 100.0;
      ScaleBetween(finalPrice, 0.85, f, 1.15);
      assert TickPrice(finalPrice, r, delta) == finalPrice * f;
      assert finalPrice < 0.0 ==> finalPrice * f <= finalPrice * 0.85;
      assert finalPrice < 0.0 ==> finalPrice * 1.15 <= finalPrice * f;
      assert WithinDrift(finalPrice * f, finalPrice);
    }
  }

  /** Multiplying `lo <= f <= hi` by `a` keeps `a * f` between `a * lo` and `a * hi`, in the order the sign of `a` gives. */
  lemma ScaleBetween(a: real, lo: real, f: real, hi: real)
    requires lo <= f <= hi
    ensures a >= 0.0 ==> a * lo <= a * f <= a * hi
    ensures a < 0.0 ==> a * hi <= a * f <= a * lo
  {
    if a >= 0.0 {
      assert a * (f - lo) >= 0.0;
      assert a * (hi - f) >= 0.0;
    } else {
      assert (-a) * (f - lo) >= 0.0;
      assert (-a) * (hi - f) >= 0.0;
    }
  }

  /** A price row as tick synthesis can make it for a token: on the tick grid below `end`, anchored and within drift. */
  predicate IsTick(x: TokenPrice, finalPrice: real, end: int, segments: int) {
    var age := end - x.createdAt;
    0 <= age < segments * TICK_SECONDS && age % TICK_SECONDS == 0 &&
    (age == 0 ==> x.usdPrice == finalPrice) &&
    WithinDrift(x.usdPrice, finalPrice)
  }

  /** `|tokens| * segments` rows in all. */
  lemma {:induction false} PriceRowsCount(tokenIds: seq<int>, finalPrice: real, end: int, draws: seq<seq<int>>, segments: int)
    requires PriceDrawsFit(draws, |tokenIds|, segments)
    ensures |PriceRows(tokenIds, finalPrice, end, draws)| == |tokenIds| * segments
  {
    if tokenIds != [] {
      var n := |tokenIds| - 1;
      assert PriceDrawsFit(draws[..n], n, segments);
      PriceRowsCount(tokenIds[..n], finalPrice, end, draws[..n], segments);
      assert (n + 1) * segments == n * segments + segments;
    }
  }

  /** Every tick `delta` of every token is in the list, stamped `end - 10 * delta` minutes. */
  lemma {:induction false} PriceRowsComplete(tokenIds: seq<int>, finalPrice: real, end: int, draws: seq<seq<int>>, segments: int)
    requires PriceDrawsFit(draws, |tokenIds|, segments)
    ensures forall t, delta :: 0 <= t < |tokenIds| && 0 <= delta < segments ==>
      TokenTicks(tokenIds[t], finalPrice, end, draws[t])[delta] in PriceRows(tokenIds, finalPrice, end, draws)
  {
    if tokenIds != [] {
      var n := |tokenIds| - 1;
      assert PriceDrawsFit(draws[..n], n, segments);
      PriceRowsComplete(tokenIds[..n], finalPrice, end, draws[..n], segments);
      forall t, delta | 0 <= t < |tokenIds| && 0 <= delta < segments
        ensures TokenTicks(tokenIds[t], finalPrice, end, draws[t])[delta] in PriceRows(tokenIds, finalPrice, end, draws)
      {
        if t < n {
          assert tokenIds[..n][t] == tokenIds[t] && draws[..n][t] == draws[t];
        }
      }
    }
  }

  /** Every row belongs to one of the tokens and is a tick of it. */
  lemma {:induction false} PriceRowsSound(tokenIds: seq<int>, finalPrice: real, end: int, draws: seq<seq<int>>, segments: int)
    requires PriceDrawsFit(draws, |tokenIds|, segments)
    ensures forall x :: x in PriceRows(tokenIds, finalPrice, end, draws) ==>
      x.tokenId in tokenIds && IsTick(x, finalPrice, end, segments)
  {
    if tokenIds != [] {
      var n := |tokenIds| - 1;
      assert PriceDrawsFit(draws[..n], n, segments);
      PriceRowsSound(tokenIds[..n], finalPrice, end, draws[..n], segments);
      var ticks := TokenTicks(tokenIds[n], finalPrice, end, draws[n]);
      forall delta | 0 <= delta < segments ensures IsTick(ticks[delta], finalPrice, end, segments) {
        TickPriceDrift(finalPrice, draws[n][delta], delta);
        assert end - ticks[delta].createdAt == delta * TICK_SECONDS;
      }
      forall x | x in PriceRows(tokenIds[..n], finalPrice, end, draws[..n]) ensures x.tokenId in tokenIds {
        assert x.tokenId in tokenIds[..n];
      }
    }
  }

  /** No price rows at all for an empty range. */
  lemma PriceRowsOfEmptyRange(tokenIds: seq<int>, finalPrice: real, end: int, draws: seq<seq<int>>)
    requires PriceDrawsFit(draws, |tokenIds|, Segments(end, end))
    ensures PriceRows(tokenIds, finalPrice, end, draws) == []
  {
    PriceRowsCount(tokenIds, finalPrice, end, draws, Segments(end, end));
  }
}
