/**
 * The two queries of the TVL history repository, as functions over the rows
 * of the `protocol_token`, `account_balance_history`, `token_price` and
 * `tvl_history` tables.
 *
 * History calculation: the protocol's balance rows are grouped by
 * (protocol token, block). Every balance row is paired with the array of its
 * token's price ticks that lie 0 to 1 hour after the row's timestamp, ordered
 * by time. The group's `MIN` of those price arrays and `MIN` of those
 * timestamp arrays are unnested in lockstep, one TVL row per element, with
 * `amount_usd = price * SUM(amount)`.
 *
 * Current lookup: the sum of `amount_usd` over the protocol's TVL rows at the
 * protocol's largest TVL block.
 */
module TvlHistory {
  import opened Wrappers
  import opened Model

  /** `BETWEEN INTERVAL '0' AND INTERVAL '1 hour'`, both ends inclusive. */
  const WINDOW_SECONDS := 3600

  /**
   * `tvl_history.amount_usd` and `tvl_history.created_at` are NOT NULL, so a
   * null produced by the lockstep `UNNEST` of arrays of different lengths
   * aborts the whole `INSERT`.
   */
  datatype TvlError = NotNullViolation

  /** A `WHERE` clause: the elements of `s` that pass `keep`, in order. */
  function Filter<T(!new)>(s: seq<T>, keep: T -> bool): (r: seq<T>)
    ensures |r| <= |s|
    ensures forall x {:trigger x in r} {:trigger x in s} :: x in r <==> x in s && keep(x)
  {
    if |s| == 0 then []
    else
      assert s == s[..|s| - 1] + [s[|s| - 1]];
      Filter(s[..|s| - 1], keep) + (if keep(s[|s| - 1]) then [s[|s| - 1]] else [])
  }

  /** `Filter` keeps each kept element as often as it occurs, and adds nothing. */
  lemma {:induction false} FilterMultiset<T(!new)>(s: seq<T>, keep: T -> bool)
    ensures multiset(Filter(s, keep)) <= multiset(s)
    ensures forall x {:trigger multiset(Filter(s, keep))[x]} :: keep(x) ==> multiset(Filter(s, keep))[x] == multiset(s)[x]
    decreases |s|
  {
    if |s| > 0 {
      var init, last := s[..|s| - 1], s[|s| - 1];
      var tail := if keep(last) then [last] else [];
      FilterMultiset(init, keep);
      assert s == init + [last];
      assert multiset(s) == multiset(init) + multiset{last};
      assert Filter(s, keep) == Filter(init, keep) + tail;
      assert multiset(Filter(s, keep)) == multiset(Filter(init, keep)) + multiset(tail);
    }
  }

  lemma {:induction false} FilterAppend<T(!new)>(a: seq<T>, b: seq<T>, keep: T -> bool)
    ensures Filter(a + b, keep) == Filter(a, keep) + Filter(b, keep)
    decreases |b|
  {
    if |b| == 0 {
      assert a + b == a;
    } else {
      var b' := b[..|b| - 1];
      assert (a + b)[..|a + b| - 1] == a + b';
      assert (a + b)[|a + b| - 1] == b[|b| - 1];
      FilterAppend(a, b', keep);
    }
  }

  lemma {:induction false} FilterNone<T(!new)>(s: seq<T>, keep: T -> bool)
    requires forall i :: 0 <= i < |s| ==> !keep(s[i])
    ensures Filter(s, keep) == []
    decreases |s|
  {
    if |s| > 0 {
      FilterNone(s[..|s| - 1], keep);
    }
  }

  lemma {:induction false} FilterAll<T(!new)>(s: seq<T>, keep: T -> bool)
    requires forall i :: 0 <= i < |s| ==> keep(s[i])
    ensures Filter(s, keep) == s
    decreases |s|
  {
    if |s| > 0 {
      FilterAll(s[..|s| - 1], keep);
      assert s == s[..|s| - 1] + [s[|s| - 1]];
    }
  }

  /** Elements that fail the filter can be dropped from anywhere in the input. */
  lemma FilterSkips<T(!new)>(a: seq<T>, o: seq<T>, c: seq<T>, keep: T -> bool)
    requires forall i :: 0 <= i < |o| ==> !keep(o[i])
    ensures Filter(a + o + c, keep) == Filter(a + c, keep)
  {
    FilterAppend(a + o, c, keep);
    FilterAppend(a, o, keep);
    FilterAppend(a, c, keep);
    FilterNone(o, keep);
    assert Filter(a, keep) + [] == Filter(a, keep);
  }

  /** The sum of a sequence of reals, left to right. */
  function Sum(s: seq<real>): real
  {
    if |s| == 0 then 0.0 else Sum(s[..|s| - 1]) + s[|s| - 1]
  }

  lemma {:induction false} SumAppend(a: seq<real>, b: seq<real>)
    ensures Sum(a + b) == Sum(a) + Sum(b)
    decreases |b|
  {
    if |b| == 0 {
      assert a + b == a;
    } else {
      assert (a + b)[..|a + b| - 1] == a + b[..|b| - 1];
      SumAppend(a, b[..|b| - 1]);
    }
  }

  // ---------------------------------------------------------------------
  // The join with `protocol_token`
  // ---------------------------------------------------------------------

  /** The `protocol_token` row with `id`; the first if ids were not unique. */
  function FindToken(pts: seq<ProtocolToken>, id: int): (r: Option<ProtocolToken>)
    ensures r.Some? ==> r.value in pts && r.value.id == id
    ensures r.None? <==> forall i :: 0 <= i < |pts| ==> pts[i].id != id
  {
    if |pts| == 0 then None
    else if pts[0].id == id then Some(pts[0])
    else FindToken(pts[1..], id)
  }

  /** With `id` the primary key, the row found is the one row carrying `id`. */
  lemma FindTokenUnique(pts: seq<ProtocolToken>, i: int)
    requires UniqueIds(pts) && 0 <= i < |pts|
    ensures FindToken(pts, pts[i].id) == Some(pts[i])
  {
    var r := FindToken(pts, pts[i].id);
    var j :| 0 <= j < |pts| && pts[j] == r.value;
    assert pts[j].id == pts[i].id;
  }

  /** `JOIN protocol_token pt ON ... = pt.id WHERE pt.protocol_id = :protocol_id`. */
  predicate BelongsTo(pts: seq<ProtocolToken>, protocolId: int, protocolTokenId: int)
  {
    var pt := FindToken(pts, protocolTokenId);
    pt.Some? && pt.value.protocolId == protocolId
  }

  /** The balance rows that take part in the protocol's history. */
  function Joined(pts: seq<ProtocolToken>, protocolId: int, balances: seq<BalanceRow>): (rows: seq<BalanceRow>)
    ensures forall r :: r in rows <==> r in balances && BelongsTo(pts, protocolId, r.protocolTokenId)
    ensures multiset(rows) <= multiset(balances)
    ensures forall r: BalanceRow {:trigger multiset(rows)[r]} :: BelongsTo(pts, protocolId, r.protocolTokenId) ==>
      multiset(rows)[r] == multiset(balances)[r]
  {
    FilterMultiset(balances, (r: BalanceRow) => BelongsTo(pts, protocolId, r.protocolTokenId));
    Filter(balances, (r: BalanceRow) => BelongsTo(pts, protocolId, r.protocolTokenId))
  }

  // ---------------------------------------------------------------------
  // `GROUP BY abh.protocol_token_id, abh.created_at_block`
  // ---------------------------------------------------------------------

  datatype GroupKey = GroupKey(protocolTokenId: int, block: int)

  function KeyOf(r: BalanceRow): GroupKey
  {
    GroupKey(r.protocolTokenId, r.createdAtBlock)
  }

  /** The distinct group keys of `rows`, in order of first appearance. */
  function Keys(rows: seq<BalanceRow>): (keys: seq<GroupKey>)
    ensures Distinct(keys)
    ensures forall i :: 0 <= i < |rows| ==> KeyOf(rows[i]) in keys
    ensures forall k :: k in keys ==> exists i :: 0 <= i < |rows| && KeyOf(rows[i]) == k
  {
    if |rows| == 0 then []
    else
      var init := Keys(rows[..|rows| - 1]);
      var k := KeyOf(rows[|rows| - 1]);
      assert forall i :: 0 <= i < |rows| - 1 ==> rows[..|rows| - 1][i] == rows[i];
      if k in init then init else init + [k]
  }

  /** The rows of one group. */
  function GroupRows(rows: seq<BalanceRow>, key: GroupKey): (g: seq<BalanceRow>)
    ensures forall r :: r in g <==> r in rows && KeyOf(r) == key
  {
    Filter(rows, (r: BalanceRow) => KeyOf(r) == key)
  }

  function Amounts(rows: seq<BalanceRow>): (a: seq<real>)
    ensures |a| == |rows| && forall i {:trigger a[i]} :: 0 <= i < |rows| ==> a[i] == rows[i].amount
  {
    seq(|rows|, i requires 0 <= i < |rows| => rows[i].amount)
  }

  /** `SUM(abh.amount)` of a group. */
  function GroupSum(rows: seq<BalanceRow>): real
  {
    Sum(Amounts(rows))
  }

  lemma GroupSumAppend(a: seq<BalanceRow>, b: seq<BalanceRow>)
    ensures GroupSum(a + b) == GroupSum(a) + GroupSum(b)
  {
    assert Amounts(a + b) == Amounts(a) + Amounts(b);
    SumAppend(Amounts(a), Amounts(b));
  }

  // ---------------------------------------------------------------------
  // The lateral price window
  // ---------------------------------------------------------------------

  /** `tp.token_id = pt.token_id AND tp.created_at - abh.created_at BETWEEN 0 AND 1 hour`. */
  predicate InWindow(p: TokenPrice, tokenId: int, createdAt: int)
  {
    p.tokenId == tokenId && 0 <= p.createdAt - createdAt <= WINDOW_SECONDS
  }

  /** The time of the tick at `i`; sortedness is stated over it so that it is used only where asked for. */
  function TimeAt(s: seq<TokenPrice>, i: int): int
    requires 0 <= i < |s|
  {
    s[i].createdAt
  }

  predicate SortedByTime(s: seq<TokenPrice>)
  {
    forall i, j :: 0 <= i < j < |s| ==> TimeAt(s, i) <= TimeAt(s, j)
  }

  lemma SortedAt(s: seq<TokenPrice>, i: int, j: int)
    requires SortedByTime(s) && 0 <= i <= j < |s|
    ensures s[i].createdAt <= s[j].createdAt
  {
    if i < j {
      assert TimeAt(s, i) <= TimeAt(s, j);
    }
  }

  lemma SortedCons(t: TokenPrice, s: seq<TokenPrice>)
    requires SortedByTime(s) && forall j :: 0 <= j < |s| ==> t.createdAt <= s[j].createdAt
    ensures SortedByTime([t] + s)
  {
    var r := [t] + s;
    forall i, j | 0 <= i < j < |r| ensures TimeAt(r, i) <= TimeAt(r, j) {
      assert r[j] == s[j - 1];
      if i > 0 {
        assert r[i] == s[i - 1];
        SortedAt(s, i - 1, j - 1);
      }
    }
  }

  lemma SortedTail(s: seq<TokenPrice>)
    requires SortedByTime(s) && |s| > 0
    ensures SortedByTime(s[1..])
  {
    var r := s[1..];
    forall i, j | 0 <= i < j < |r| ensures TimeAt(r, i) <= TimeAt(r, j) {
      SortedAt(s, i + 1, j + 1);
    }
  }

  /** Places `x` after every tick not later than it. */
  function InsertByTime(s: seq<TokenPrice>, x: TokenPrice): (r: seq<TokenPrice>)
    requires SortedByTime(s)
    ensures SortedByTime(r) && multiset(r) == multiset(s) + multiset{x}
  {
    if |s| == 0 then
      SortedCons(x, s);
      [x]
    else if x.createdAt < s[0].createdAt then
      assert forall j :: 0 <= j < |s| ==> x.createdAt <= s[j].createdAt by {
        forall j | 0 <= j < |s| ensures x.createdAt <= s[j].createdAt {
          SortedAt(s, 0, j);
        }
      }
      SortedCons(x, s);
      [x] + s
    else
      SortedTail(s);
      var rest := InsertByTime(s[1..], x);
      assert forall j :: 0 <= j < |rest| ==> s[0].createdAt <= rest[j].createdAt by {
        forall j | 0 <= j < |rest| ensures s[0].createdAt <= rest[j].createdAt {
          assert rest[j] in multiset(rest);
          if rest[j] != x {
            assert rest[j] in s[1..];
            var k :| 0 <= k < |s[1..]| && s[1..][k] == rest[j];
            SortedAt(s, 0, k + 1);
          }
        }
      }
      SortedCons(s[0], rest);
      assert s == [s[0]] + s[1..];
      [s[0]] + rest
  }

  /** `ORDER BY tp.created_at`, ties kept in table order. */
  function SortByTime(s: seq<TokenPrice>): (r: seq<TokenPrice>)
    ensures SortedByTime(r) && multiset(r) == multiset(s)
  {
    if |s| == 0 then []
    else
      assert s == s[..|s| - 1] + [s[|s| - 1]];
      InsertByTime(SortByTime(s[..|s| - 1]), s[|s| - 1])
  }

  /** The price rows of the token that fall in the window, in table order. */
  function Candidates(prices: seq<TokenPrice>, tokenId: int, createdAt: int): (c: seq<TokenPrice>)
    ensures forall p :: p in c <==> p in prices && InWindow(p, tokenId, createdAt)
  {
    Filter(prices, (p: TokenPrice) => InWindow(p, tokenId, createdAt))
  }

  /**
   * The ticks behind one balance row's `ARRAY_AGG(... ORDER BY tp.created_at)`:
   * exactly the token's ticks in the window, each as often as in the table, by time.
   */
  function Window(prices: seq<TokenPrice>, tokenId: int, createdAt: int): (w: seq<TokenPrice>)
    ensures SortedByTime(w)
    ensures multiset(w) == multiset(Candidates(prices, tokenId, createdAt))
    ensures forall p :: p in w <==> p in prices && InWindow(p, tokenId, createdAt)
  {
    var c := Candidates(prices, tokenId, createdAt);
    var w := SortByTime(c);
    assert forall p :: p in w <==> p in multiset(c);
    w
  }

  function PricesOf(w: seq<TokenPrice>): (a: seq<real>)
    ensures |a| == |w| && forall i {:trigger a[i]} :: 0 <= i < |w| ==> a[i] == w[i].usdPrice
  {
    seq(|w|, i requires 0 <= i < |w| => w[i].usdPrice)
  }

  function TimesOf(w: seq<TokenPrice>): (a: seq<int>)
    ensures |a| == |w| && forall i {:trigger a[i]} :: 0 <= i < |w| ==> a[i] == w[i].createdAt
  {
    seq(|w|, i requires 0 <= i < |w| => w[i].createdAt)
  }

  // ---------------------------------------------------------------------
  // `MIN` over arrays
  // ---------------------------------------------------------------------

  /** PostgreSQL's array order: the first differing element decides, and a proper prefix is smaller. */
  predicate LexLess<T(==)>(a: seq<T>, b: seq<T>, less: (T, T) -> bool)
    decreases |a|
  {
    |b| > 0 && (|a| == 0 || if a[0] == b[0] then LexLess(a[1..], b[1..], less) else less(a[0], b[0]))
  }

  ghost predicate StrictOrder<T(!new)>(less: (T, T) -> bool)
  {
    (forall x :: !less(x, x)) && (forall x, y, z :: less(x, y) && less(y, z) ==> less(x, z))
  }

  const RealLess: (real, real) -> bool := (x: real, y: real) => x < y
  const IntLess: (int, int) -> bool := (x: int, y: int) => x < y

  lemma NumericOrdersAreStrict()
    ensures StrictOrder(RealLess) && StrictOrder(IntLess)
  {
  }

  lemma {:induction false} LexLessTransitive<T(!new)>(a: seq<T>, b: seq<T>, c: seq<T>, less: (T, T) -> bool)
    requires StrictOrder(less) && LexLess(a, b, less) && LexLess(b, c, less)
    ensures LexLess(a, c, less)
    decreases |a|
  {
    if |a| > 0 {
      if a[0] == b[0] && b[0] == c[0] {
        LexLessTransitive(a[1..], b[1..], c[1..], less);
      } else if a[0] != b[0] && b[0] != c[0] {
        assert less(a[0], b[0]) && less(b[0], c[0]);
      }
    }
  }

  lemma {:induction false} LexLessIrreflexive<T(!new)>(a: seq<T>, less: (T, T) -> bool)
    requires StrictOrder(less)
    ensures !LexLess(a, a, less)
    decreases |a|
  {
    if |a| > 0 {
      LexLessIrreflexive(a[1..], less);
    }
  }

  /** `MIN` of a non-empty list of arrays, as a left fold keeping the smaller. */
  function LexMin<T(==)>(xs: seq<seq<T>>, less: (T, T) -> bool): (m: seq<T>)
    requires |xs| > 0
    ensures m in xs
  {
    if |xs| == 1 then xs[0]
    else
      var m := LexMin(xs[..|xs| - 1], less);
      assert xs == xs[..|xs| - 1] + [xs[|xs| - 1]];
      if LexLess(xs[|xs| - 1], m, less) then xs[|xs| - 1] else m
  }

  /** Under a strict order, no array of the list is smaller than its `MIN`. */
  lemma {:induction false} LexMinIsLeast<T(!new)>(xs: seq<seq<T>>, less: (T, T) -> bool)
    requires |xs| > 0 && StrictOrder(less)
    ensures forall x :: x in xs ==> !LexLess(x, LexMin(xs, less), less)
    decreases |xs|
  {
    if |xs| == 1 {
      LexLessIrreflexive(xs[0], less);
    } else {
      var init, last := xs[..|xs| - 1], xs[|xs| - 1];
      var m := LexMin(init, less);
      LexMinIsLeast(init, less);
      assert xs == init + [last];
      assert LexMin(xs, less) == if LexLess(last, m, less) then last else m;
      forall x | x in xs ensures !LexLess(x, LexMin(xs, less), less) {
        if x == last {
          LexLessIrreflexive(last, less);
        } else {
          assert x in init;
          if LexLess(last, m, less) && LexLess(x, last, less) {
            LexLessTransitive(x, last, m, less);
          }
        }
      }
    }
  }

  // ---------------------------------------------------------------------
  // One group's output
  // ---------------------------------------------------------------------

  /** The rows whose array is not null: `ARRAY_AGG` over no tick is null, and `MIN` skips nulls. */
  function Matched(windows: seq<seq<TokenPrice>>): (m: seq<seq<TokenPrice>>)
    ensures forall w :: w in m <==> w in windows && w != []
  {
    Filter(windows, (w: seq<TokenPrice>) => w != [])
  }

  function PriceArrays(windows: seq<seq<TokenPrice>>): (a: seq<seq<real>>)
    ensures |a| == |windows| && forall i :: 0 <= i < |windows| ==> a[i] == PricesOf(windows[i])
  {
    seq(|windows|, i requires 0 <= i < |windows| => PricesOf(windows[i]))
  }

  function TimeArrays(windows: seq<seq<TokenPrice>>): (a: seq<seq<int>>)
    ensures |a| == |windows| && forall i :: 0 <= i < |windows| ==> a[i] == TimesOf(windows[i])
  {
    seq(|windows|, i requires 0 <= i < |windows| => TimesOf(windows[i]))
  }

  /** The lockstep `UNNEST` of a price array and a timestamp array of the same length. */
  function UnnestRows(key: GroupKey, sum: real, prices: seq<real>, times: seq<int>): (rows: seq<TvlRow>)
    requires |prices| == |times|
    ensures |rows| == |prices|
    ensures forall i {:trigger rows[i]} :: 0 <= i < |prices| ==>
      rows[i] == TvlRow(key.protocolTokenId, key.block, sum, prices[i] * sum, times[i])
  {
    seq(|prices|, i requires 0 <= i < |prices| =>
      TvlRow(key.protocolTokenId, key.block, sum, prices[i] * sum, times[i]))
  }

  /** One window's ticks as TVL rows of the group: one row per tick, in order. */
  function TickRows(key: GroupKey, sum: real, w: seq<TokenPrice>): (rows: seq<TvlRow>)
    ensures |rows| == |w|
    ensures forall i {:trigger rows[i]} :: 0 <= i < |w| ==>
      rows[i] == TvlRow(key.protocolTokenId, key.block, sum, w[i].usdPrice * sum, w[i].createdAt)
  {
    UnnestRows(key, sum, PricesOf(w), TimesOf(w))
  }

  /**
   * `UNNEST(MIN(price arrays)) * SUM(amount)` beside `UNNEST(MIN(timestamp
   * arrays))` for a group whose rows have the given windows: no row if every
   * window is empty, the NOT NULL error if the two minima differ in length.
   */
  function GroupOutput(key: GroupKey, sum: real, windows: seq<seq<TokenPrice>>): (r: Result<seq<TvlRow>, TvlError>)
    ensures (r.Ok? && r.value == []) <==> forall i :: 0 <= i < |windows| ==> windows[i] == []
    ensures r.Ok? ==> forall x :: x in r.value ==>
      x.protocolTokenId == key.protocolTokenId && x.createdAtBlock == key.block && x.amount == sum
  {
    var matched := Matched(windows);
    if |matched| == 0 then
      assert forall i :: 0 <= i < |windows| ==> windows[i] !in matched;
      Ok([])
    else
      var prices := LexMin(PriceArrays(matched), RealLess);
      var times := LexMin(TimeArrays(matched), IntLess);
      assert prices != [] by {
        var i :| 0 <= i < |matched| && PriceArrays(matched)[i] == prices;
        assert matched[i] in matched;
      }
      assert exists i :: 0 <= i < |windows| && windows[i] != [] by {
        assert matched[0] in windows;
      }
      if |prices| != |times| then Err(NotNullViolation)
      else Ok(UnnestRows(key, sum, prices, times))
  }

  /** The `MIN` of copies of one array is that array. */
  lemma LexMinOfCopies<T>(xs: seq<seq<T>>, less: (T, T) -> bool, v: seq<T>)
    requires |xs| > 0 && forall i :: 0 <= i < |xs| ==> xs[i] == v
    ensures LexMin(xs, less) == v
  {
  }

  /** When every row of a group saw the same window, the group emits one row per tick of it. */
  lemma GroupOutputShared(key: GroupKey, sum: real, windows: seq<seq<TokenPrice>>, w: seq<TokenPrice>)
    requires |windows| > 0 && forall i :: 0 <= i < |windows| ==> windows[i] == w
    ensures GroupOutput(key, sum, windows) == Ok(TickRows(key, sum, w))
  {
    var matched := Matched(windows);
    assert windows[0] in windows;
    if w != [] {
      assert w in matched;
      assert forall i :: 0 <= i < |matched| ==> matched[i] == w by {
        forall i | 0 <= i < |matched| ensures matched[i] == w {
          assert matched[i] in matched;
        }
      }
      LexMinOfCopies(PriceArrays(matched), RealLess, PricesOf(w));
      LexMinOfCopies(TimeArrays(matched), IntLess, TimesOf(w));
    }
  }

  // ---------------------------------------------------------------------
  // `CALCULATE_HISTORY_SQL`
  // ---------------------------------------------------------------------

  /** The windows of a group's rows, one per balance row. */
  function RowWindows(prices: seq<TokenPrice>, tokenId: int, rows: seq<BalanceRow>): (ws: seq<seq<TokenPrice>>)
    ensures |ws| == |rows| && forall i {:trigger ws[i]} :: 0 <= i < |rows| ==> ws[i] == Window(prices, tokenId, rows[i].createdAt)
  {
    seq(|rows|, i requires 0 <= i < |rows| => Window(prices, tokenId, rows[i].createdAt))
  }

  /** The TVL row `x` was computed from the group of the balance row `b`. */
  predicate FromGroup(b: BalanceRow, x: TvlRow)
  {
    b.protocolTokenId == x.protocolTokenId && b.createdAtBlock == x.createdAtBlock
  }

  /** The output of the group `key` of the joined rows (a joined key always has its protocol token). */
  function KeyOutput(pts: seq<ProtocolToken>, prices: seq<TokenPrice>, joined: seq<BalanceRow>, key: GroupKey)
    : Result<seq<TvlRow>, TvlError>
  {
    var rows := GroupRows(joined, key);
    match FindToken(pts, key.protocolTokenId)
    case None => Ok([])
    case Some(pt) => GroupOutput(key, GroupSum(rows), RowWindows(prices, pt.tokenId, rows))
  }

  /** The groups' outputs in key order; the first error aborts the statement. */
  function CollectGroups(pts: seq<ProtocolToken>, prices: seq<TokenPrice>, joined: seq<BalanceRow>, keys: seq<GroupKey>)
    : (r: Result<seq<TvlRow>, TvlError>)
    ensures r.Ok? ==> forall x :: x in r.value ==> GroupKey(x.protocolTokenId, x.createdAtBlock) in keys
    ensures r.Ok? ==> forall x :: x in r.value ==> x.amount == GroupSum(GroupRows(joined, GroupKey(x.protocolTokenId, x.createdAtBlock)))
  {
    if |keys| == 0 then Ok([])
    else
      var key := keys[|keys| - 1];
      match CollectGroups(pts, prices, joined, keys[..|keys| - 1])
      case Err(e) => Err(e)
      case Ok(rows) =>
        match KeyOutput(pts, prices, joined, key)
        case Err(e) => Err(e)
        case Ok(more) =>
          assert forall k :: k in keys[..|keys| - 1] ==> k in keys;
          Ok(rows + more)
  }

  /**
   * The rows `CALCULATE_HISTORY_SQL` inserts for `protocolId`, or the error
   * that aborts it. Every inserted row is a group of the protocol's balance
   * rows, carrying that group's sum.
   */
  function CalculateHistory(protocolId: int, pts: seq<ProtocolToken>, balances: seq<BalanceRow>, prices: seq<TokenPrice>)
    : (r: Result<seq<TvlRow>, TvlError>)
    ensures r.Ok? ==> forall x :: x in r.value ==> BelongsTo(pts, protocolId, x.protocolTokenId)
    ensures r.Ok? ==> forall x :: x in r.value ==>
      exists b :: b in balances && BelongsTo(pts, protocolId, b.protocolTokenId) && FromGroup(b, x)
    ensures r.Ok? ==> forall x :: x in r.value ==>
      x.amount == GroupSum(GroupRows(Joined(pts, protocolId, balances), GroupKey(x.protocolTokenId, x.createdAtBlock)))
  {
    var joined := Joined(pts, protocolId, balances);
    var r := CollectGroups(pts, prices, joined, Keys(joined));
    if r.Ok? then
      assert forall x :: x in r.value ==>
        exists b :: b in balances && BelongsTo(pts, protocolId, b.protocolTokenId) && FromGroup(b, x) by {
        forall x | x in r.value
          ensures exists b :: b in balances && BelongsTo(pts, protocolId, b.protocolTokenId) && FromGroup(b, x) {
          JoinedKeySource(pts, protocolId, balances, GroupKey(x.protocolTokenId, x.createdAtBlock));
        }
      }
      r
    else r
  }

  /** Every group key of the joined rows comes from a balance row of the protocol. */
  lemma JoinedKeySource(pts: seq<ProtocolToken>, protocolId: int, balances: seq<BalanceRow>, key: GroupKey)
    requires key in Keys(Joined(pts, protocolId, balances))
    ensures exists b :: b in balances && BelongsTo(pts, protocolId, b.protocolTokenId) && KeyOf(b) == key
  {
    var joined := Joined(pts, protocolId, balances);
    var i :| 0 <= i < |joined| && KeyOf(joined[i]) == key;
    assert joined[i] in joined;
  }

  /** `INSERT INTO tvl_history ... SELECT`: appends, leaving the existing rows; an error inserts nothing. */
  function InsertHistory(table: seq<TvlRow>, protocolId: int, pts: seq<ProtocolToken>, balances: seq<BalanceRow>,
                         prices: seq<TokenPrice>): (r: Result<seq<TvlRow>, TvlError>)
    ensures r.Ok? <==> CalculateHistory(protocolId, pts, balances, prices).Ok?
    ensures r.Ok? ==> r.value == table + CalculateHistory(protocolId, pts, balances, prices).value
    ensures r.Err? ==> r.error == CalculateHistory(protocolId, pts, balances, prices).error
  {
    match CalculateHistory(protocolId, pts, balances, prices)
    case Err(e) => Err(e)
    case Ok(rows) => Ok(table + rows)
  }

  // ---------------------------------------------------------------------
  // Groups whose rows share one timestamp
  // ---------------------------------------------------------------------

  /** Every two rows of one group carry the same timestamp. */
  predicate SharedTimestamps(rows: seq<BalanceRow>)
  {
    forall i, j :: 0 <= i < |rows| && 0 <= j < |rows| && KeyOf(rows[i]) == KeyOf(rows[j]) ==>
      rows[i].createdAt == rows[j].createdAt
  }

  /** Reference output of one group with a shared timestamp: a row per tick in that timestamp's window. */
  function SharedKeyRows(pts: seq<ProtocolToken>, prices: seq<TokenPrice>, joined: seq<BalanceRow>, key: GroupKey)
    : seq<TvlRow>
  {
    var rows := GroupRows(joined, key);
    match FindToken(pts, key.protocolTokenId)
    case None => []
    case Some(pt) =>
      if |rows| == 0 then [] else TickRows(key, GroupSum(rows), Window(prices, pt.tokenId, rows[0].createdAt))
  }

  /** Reference output of all groups, in key order. */
  function SharedHistory(pts: seq<ProtocolToken>, prices: seq<TokenPrice>, joined: seq<BalanceRow>, keys: seq<GroupKey>)
    : seq<TvlRow>
  {
    if |keys| == 0 then []
    else SharedHistory(pts, prices, joined, keys[..|keys| - 1]) + SharedKeyRows(pts, prices, joined, keys[|keys| - 1])
  }

  lemma KeyOutputShared(pts: seq<ProtocolToken>, prices: seq<TokenPrice>, joined: seq<BalanceRow>, key: GroupKey)
    requires SharedTimestamps(joined)
    ensures KeyOutput(pts, prices, joined, key) == Ok(SharedKeyRows(pts, prices, joined, key))
  {
    var rows := GroupRows(joined, key);
    match FindToken(pts, key.protocolTokenId)
    case None =>
    case Some(pt) =>
      var windows := RowWindows(prices, pt.tokenId, rows);
      if |rows| == 0 {
        assert Matched(windows) == [];
      } else {
        var w := Window(prices, pt.tokenId, rows[0].createdAt);
        forall i | 0 <= i < |rows| ensures windows[i] == w {
          assert rows[i] in joined && rows[0] in joined;
          var a :| 0 <= a < |joined| && joined[a] == rows[i];
          var b :| 0 <= b < |joined| && joined[b] == rows[0];
          assert rows[i].createdAt == rows[0].createdAt;
        }
        GroupOutputShared(key, GroupSum(rows), windows, w);
      }
  }

  lemma {:induction false} CollectGroupsShared(pts: seq<ProtocolToken>, prices: seq<TokenPrice>, joined: seq<BalanceRow>,
                                               keys: seq<GroupKey>)
    requires SharedTimestamps(joined)
    ensures CollectGroups(pts, prices, joined, keys) == Ok(SharedHistory(pts, prices, joined, keys))
    decreases |keys|
  {
    if |keys| > 0 {
      CollectGroupsShared(pts, prices, joined, keys[..|keys| - 1]);
      KeyOutputShared(pts, prices, joined, keys[|keys| - 1]);
    }
  }

  /**
   * With shared group timestamps, as the generator writes them, the
   * calculation never fails and emits the reference rows.
   */
  lemma CalculateHistoryShared(protocolId: int, pts: seq<ProtocolToken>, balances: seq<BalanceRow>, prices: seq<TokenPrice>)
    requires SharedTimestamps(Joined(pts, protocolId, balances))
    ensures var joined := Joined(pts, protocolId, balances);
      CalculateHistory(protocolId, pts, balances, prices) == Ok(SharedHistory(pts, prices, joined, Keys(joined)))
  {
    var joined := Joined(pts, protocolId, balances);
    CollectGroupsShared(pts, prices, joined, Keys(joined));
  }

  /** Every row of the reference output comes from one of the groups. */
  lemma {:induction false} SharedHistorySource(pts: seq<ProtocolToken>, prices: seq<TokenPrice>, joined: seq<BalanceRow>,
                                               keys: seq<GroupKey>, x: TvlRow) returns (k: GroupKey)
    requires x in SharedHistory(pts, prices, joined, keys)
    ensures k in keys && x in SharedKeyRows(pts, prices, joined, k)
    decreases |keys|
  {
    var init, last := keys[..|keys| - 1], keys[|keys| - 1];
    assert keys == init + [last];
    if x in SharedKeyRows(pts, prices, joined, last) {
      k := last;
    } else {
      k := SharedHistorySource(pts, prices, joined, init, x);
    }
  }

  /** Every row a group emits is in the reference output. */
  lemma {:induction false} SharedHistoryIncludes(pts: seq<ProtocolToken>, prices: seq<TokenPrice>, joined: seq<BalanceRow>,
                                                 keys: seq<GroupKey>, k: GroupKey, x: TvlRow)
    requires k in keys && x in SharedKeyRows(pts, prices, joined, k)
    ensures x in SharedHistory(pts, prices, joined, keys)
    decreases |keys|
  {
    var init, last := keys[..|keys| - 1], keys[|keys| - 1];
    assert keys == init + [last];
    if k != last {
      SharedHistoryIncludes(pts, prices, joined, init, k, x);
    }
  }

  /**
   * A group of the protocol, with the generator's shared timestamp, emits the
   * tick rows of the window of any one of its balance rows.
   */
  lemma SharedGroupRows(protocolId: int, pts: seq<ProtocolToken>, balances: seq<BalanceRow>, prices: seq<TokenPrice>,
                        b: BalanceRow)
    requires b in balances && BelongsTo(pts, protocolId, b.protocolTokenId)
    requires SharedTimestamps(Joined(pts, protocolId, balances))
    ensures SharedKeyRows(pts, prices, Joined(pts, protocolId, balances), KeyOf(b)) ==
      TickRows(KeyOf(b), GroupSum(GroupRows(Joined(pts, protocolId, balances), KeyOf(b))),
               Window(prices, FindToken(pts, b.protocolTokenId).value.tokenId, b.createdAt))
  {
    var joined := Joined(pts, protocolId, balances);
    var rows := GroupRows(joined, KeyOf(b));
    assert b in joined && b in rows;
    assert rows[0] in rows && rows[0] in joined;
    var a :| 0 <= a < |joined| && joined[a] == rows[0];
    var c :| 0 <= c < |joined| && joined[c] == b;
    assert rows[0].createdAt == b.createdAt;
  }

  /** The rows of a window come out in time order, one per tick, carrying the tick's time. */
  lemma TickRowsAscending(key: GroupKey, sum: real, w: seq<TokenPrice>)
    requires SortedByTime(w)
    ensures forall i, j :: 0 <= i < j < |w| ==> TickRows(key, sum, w)[i].createdAt <= TickRows(key, sum, w)[j].createdAt
  {
    forall i, j | 0 <= i < j < |w| ensures TickRows(key, sum, w)[i].createdAt <= TickRows(key, sum, w)[j].createdAt {
      SortedAt(w, i, j);
    }
  }

  /** A group with no tick in its window emits nothing: no zero row, no carried-forward price. */
  lemma SharedGroupWithoutTick(pts: seq<ProtocolToken>, prices: seq<TokenPrice>, joined: seq<BalanceRow>, key: GroupKey)
    requires FindToken(pts, key.protocolTokenId).Some?
    requires forall r :: r in GroupRows(joined, key) ==>
      forall p :: p in prices ==> !InWindow(p, FindToken(pts, key.protocolTokenId).value.tokenId, r.createdAt)
    ensures SharedKeyRows(pts, prices, joined, key) == []
  {
    var rows := GroupRows(joined, key);
    if |rows| > 0 {
      assert rows[0] in rows;
      WindowEmpty(prices, FindToken(pts, key.protocolTokenId).value.tokenId, rows[0].createdAt);
    }
  }

  lemma WindowEmpty(prices: seq<TokenPrice>, tokenId: int, createdAt: int)
    requires forall p :: p in prices ==> !InWindow(p, tokenId, createdAt)
    ensures Window(prices, tokenId, createdAt) == []
  {
    FilterNone(prices, (p: TokenPrice) => InWindow(p, tokenId, createdAt));
  }

  lemma JoinedAppend(pts: seq<ProtocolToken>, protocolId: int, a: seq<BalanceRow>, b: seq<BalanceRow>)
    ensures Joined(pts, protocolId, a + b) == Joined(pts, protocolId, a) + Joined(pts, protocolId, b)
  {
    FilterAppend(a, b, (r: BalanceRow) => BelongsTo(pts, protocolId, r.protocolTokenId));
  }

  /** Balance rows of other protocols change nothing. */
  lemma CalculateHistoryIgnoresOtherProtocols(protocolId: int, pts: seq<ProtocolToken>, balances: seq<BalanceRow>,
                                              others: seq<BalanceRow>, prices: seq<TokenPrice>)
    requires forall b :: b in others ==> !BelongsTo(pts, protocolId, b.protocolTokenId)
    ensures CalculateHistory(protocolId, pts, balances + others, prices) == CalculateHistory(protocolId, pts, balances, prices)
  {
    JoinedAppend(pts, protocolId, balances, others);
    FilterNone(others, (r: BalanceRow) => BelongsTo(pts, protocolId, r.protocolTokenId));
    assert Joined(pts, protocolId, balances + others) == Joined(pts, protocolId, balances);
  }

  // ---------------------------------------------------------------------
  // `GET_CURRENT_PROTOCOL_PRICE_SQL`
  // ---------------------------------------------------------------------

  /** The TVL rows joined to a protocol token of the protocol. */
  function ProtocolTvl(pts: seq<ProtocolToken>, protocolId: int, table: seq<TvlRow>): (rows: seq<TvlRow>)
    ensures forall x :: x in rows <==> x in table && BelongsTo(pts, protocolId, x.protocolTokenId)
  {
    Filter(table, (x: TvlRow) => BelongsTo(pts, protocolId, x.protocolTokenId))
  }

  /** `MAX(tvl.created_at_block)`: attained by a row, and no row is later. */
  function MaxBlock(rows: seq<TvlRow>): (m: int)
    requires |rows| > 0
    ensures exists i :: 0 <= i < |rows| && rows[i].createdAtBlock == m
    ensures forall i :: 0 <= i < |rows| ==> rows[i].createdAtBlock <= m
  {
    if |rows| == 1 then rows[0].createdAtBlock
    else
      var m := MaxBlock(rows[..|rows| - 1]);
      assert forall i :: 0 <= i < |rows| - 1 ==> rows[..|rows| - 1][i] == rows[i];
      if rows[|rows| - 1].createdAtBlock > m then rows[|rows| - 1].createdAtBlock else m
  }

  function AtTvlBlock(rows: seq<TvlRow>, block: int): (a: seq<TvlRow>)
    ensures forall x :: x in a <==> x in rows && x.createdAtBlock == block
  {
    Filter(rows, (x: TvlRow) => x.createdAtBlock == block)
  }

  function UsdAmounts(rows: seq<TvlRow>): (a: seq<real>)
    ensures |a| == |rows| && forall i :: 0 <= i < |rows| ==> a[i] == rows[i].amountUsd
  {
    seq(|rows|, i requires 0 <= i < |rows| => rows[i].amountUsd)
  }

  /** `x` is a TVL row of the protocol, and no row of the protocol has a later block. */
  predicate IsLatestRow(protocolId: int, pts: seq<ProtocolToken>, table: seq<TvlRow>, x: TvlRow)
  {
    x in table && BelongsTo(pts, protocolId, x.protocolTokenId) &&
    forall y :: y in table && BelongsTo(pts, protocolId, y.protocolTokenId) ==> y.createdAtBlock <= x.createdAtBlock
  }

  /** The sum of `amount_usd` over the protocol's rows at `block`. */
  function LatestSum(protocolId: int, pts: seq<ProtocolToken>, table: seq<TvlRow>, block: int): real
  {
    Sum(UsdAmounts(AtTvlBlock(ProtocolTvl(pts, protocolId, table), block)))
  }

  /**
   * The protocol's current TVL: null exactly when it has no TVL row, else the
   * sum of `amount_usd` over its rows at the protocol's largest block, across
   * all its protocol tokens.
   */
  function GetCurrentProtocolPrice(protocolId: int, pts: seq<ProtocolToken>, table: seq<TvlRow>): (r: Option<real>)
    ensures r.None? <==> forall x :: x in table ==> !BelongsTo(pts, protocolId, x.protocolTokenId)
    ensures r.Some? ==>
      exists x :: IsLatestRow(protocolId, pts, table, x) && r.value == LatestSum(protocolId, pts, table, x.createdAtBlock)
  {
    var rows := ProtocolTvl(pts, protocolId, table);
    if |rows| == 0 then None
    else
      LatestRowAtMaxBlock(protocolId, pts, table);
      Some(LatestSum(protocolId, pts, table, MaxBlock(rows)))
  }

  /** `MAX(created_at_block)` over the protocol's rows is the block of a latest row. */
  lemma LatestRowAtMaxBlock(protocolId: int, pts: seq<ProtocolToken>, table: seq<TvlRow>)
    requires |ProtocolTvl(pts, protocolId, table)| > 0
    ensures exists x :: IsLatestRow(protocolId, pts, table, x) && x.createdAtBlock == MaxBlock(ProtocolTvl(pts, protocolId, table))
  {
    var rows := ProtocolTvl(pts, protocolId, table);
    var m := MaxBlock(rows);
    var i :| 0 <= i < |rows| && rows[i].createdAtBlock == m;
    assert rows[i] in rows;
    forall y | y in table && BelongsTo(pts, protocolId, y.protocolTokenId) ensures y.createdAtBlock <= m {
      assert y in rows;
      var j :| 0 <= j < |rows| && rows[j] == y;
    }
    assert IsLatestRow(protocolId, pts, table, rows[i]);
  }

  /** When a protocol row lies at `block` and none lies later, the current lookup is the sum at `block`. */
  lemma CurrentAtLatestBlock(protocolId: int, pts: seq<ProtocolToken>, table: seq<TvlRow>, block: int)
    requires exists y :: y in ProtocolTvl(pts, protocolId, table) && y.createdAtBlock == block
    requires forall y :: y in ProtocolTvl(pts, protocolId, table) ==> y.createdAtBlock <= block
    ensures GetCurrentProtocolPrice(protocolId, pts, table) == Some(LatestSum(protocolId, pts, table, block))
  {
    var y :| y in ProtocolTvl(pts, protocolId, table) && y.createdAtBlock == block;
    var r := GetCurrentProtocolPrice(protocolId, pts, table);
    assert r.Some?;
    var x :| IsLatestRow(protocolId, pts, table, x) && r.value == LatestSum(protocolId, pts, table, x.createdAtBlock);
    assert x in ProtocolTvl(pts, protocolId, table);
  }

  /** TVL rows of other protocols change nothing in the current lookup, wherever they stand in the table. */
  lemma CurrentIgnoresOtherProtocols(protocolId: int, pts: seq<ProtocolToken>, before: seq<TvlRow>, others: seq<TvlRow>,
                                     after: seq<TvlRow>)
    requires forall x :: x in others ==> !BelongsTo(pts, protocolId, x.protocolTokenId)
    ensures GetCurrentProtocolPrice(protocolId, pts, before + others + after) ==
      GetCurrentProtocolPrice(protocolId, pts, before + after)
  {
    ProtocolTvlSkipsOthers(protocolId, pts, before, others, after);
    CurrentDependsOnProtocolRows(protocolId, pts, before + others + after, before + after);
  }

  lemma ProtocolTvlSkipsOthers(protocolId: int, pts: seq<ProtocolToken>, before: seq<TvlRow>, others: seq<TvlRow>,
                               after: seq<TvlRow>)
    requires forall x :: x in others ==> !BelongsTo(pts, protocolId, x.protocolTokenId)
    ensures ProtocolTvl(pts, protocolId, before + others + after) == ProtocolTvl(pts, protocolId, before + after)
  {
    FilterSkips(before, others, after, (x: TvlRow) => BelongsTo(pts, protocolId, x.protocolTokenId));
  }

  /** The lookup reads nothing of the table but the protocol's rows. */
  lemma CurrentDependsOnProtocolRows(protocolId: int, pts: seq<ProtocolToken>, a: seq<TvlRow>, b: seq<TvlRow>)
    requires ProtocolTvl(pts, protocolId, a) == ProtocolTvl(pts, protocolId, b)
    ensures GetCurrentProtocolPrice(protocolId, pts, a) == GetCurrentProtocolPrice(protocolId, pts, b)
  {
  }

  lemma MaxBlockOfDouble(rows: seq<TvlRow>)
    requires |rows| > 0
    ensures MaxBlock(rows + rows) == MaxBlock(rows)
  {
    var m, m2 := MaxBlock(rows), MaxBlock(rows + rows);
    var i :| 0 <= i < |rows| && rows[i].createdAtBlock == m;
    var j :| 0 <= j < |rows + rows| && (rows + rows)[j].createdAtBlock == m2;
    assert (rows + rows)[i] == rows[i];
    if j >= |rows| {
      assert (rows + rows)[j] == rows[j - |rows|];
    }
  }

  lemma UsdAmountsAppend(a: seq<TvlRow>, b: seq<TvlRow>)
    ensures UsdAmounts(a + b) == UsdAmounts(a) + UsdAmounts(b)
  {
  }

  /**
   * Running the calculation a second time appends the same rows again, so for
   * a protocol with no TVL rows before, the current-value lookup then reports
   * twice the value of the first run.
   */
  lemma RerunDoublesCurrentValue(protocolId: int, pts: seq<ProtocolToken>, table: seq<TvlRow>,
                                 balances: seq<BalanceRow>, prices: seq<TokenPrice>)
    requires forall x :: x in table ==> !BelongsTo(pts, protocolId, x.protocolTokenId)
    requires CalculateHistory(protocolId, pts, balances, prices).Ok?
    ensures var once := InsertHistory(table, protocolId, pts, balances, prices).value;
      var twice := InsertHistory(once, protocolId, pts, balances, prices).value;
      var v1, v2 := GetCurrentProtocolPrice(protocolId, pts, once), GetCurrentProtocolPrice(protocolId, pts, twice);
      v1.Some? == v2.Some? && (v1.Some? ==> v2.value == 2.0 * v1.value)
  {
    var rows := CalculateHistory(protocolId, pts, balances, prices).value;
    FilterAppend(table, rows, (x: TvlRow) => BelongsTo(pts, protocolId, x.protocolTokenId));
    FilterAppend(table + rows, rows, (x: TvlRow) => BelongsTo(pts, protocolId, x.protocolTokenId));
    FilterNone(table, (x: TvlRow) => BelongsTo(pts, protocolId, x.protocolTokenId));
    var mine := ProtocolTvl(pts, protocolId, rows);
    assert ProtocolTvl(pts, protocolId, table + rows) == mine;
    assert ProtocolTvl(pts, protocolId, table + rows + rows) == mine + mine;
    if |mine| > 0 {
      MaxBlockOfDouble(mine);
      var m := MaxBlock(mine);
      var at := AtTvlBlock(mine, m);
      FilterAppend(mine, mine, (x: TvlRow) => x.createdAtBlock == m);
      assert AtTvlBlock(mine + mine, m) == at + at;
      UsdAmountsAppend(at, at);
      SumAppend(UsdAmounts(at), UsdAmounts(at));
    }
  }
}
