/**
 * Trade and strategy rows as the performance analyser, the heatmap and the
 * dashboard read them, with the sums and counts the rest of the model shares.
 *
 * Every aggregate over a sequence of trades is defined by recursion on the
 * sequence without its last element, which is the order in which the
 * source's `forEach` and `reduce` calls visit the trades.
 */
module TradeData {

  datatype Option<T> = None | Some(value: T)

  /** The three result strings a trade row carries. */
  datatype Outcome = Win | Loss | BreakEven {
    function Text(): string {
      match this
      case Win => "WIN"
      case Loss => "LOSS"
      case BreakEven => "BREAK EVEN"
    }
  }

  datatype Direction = Buy | Sell

  datatype Weekday = Mon | Tue | Wed | Thu | Fri | Sat | Sun

  /**
   * The parts of a row's `created_at` that the model reads: the `YYYY-MM`
   * month key, and the local weekday and hour of the day.
   */
  datatype Timestamp = Timestamp(month: string, weekday: Weekday, hour: int)

  /**
   * A trade row. `result` is a free string in the database; the optional
   * fields are the columns the analyser reads that may be missing or null.
   */
  datatype Trade = Trade(
    result: string,
    profitLoss: Option<real>,
    strategyUsed: Option<string>,
    riskRewardRatio: Option<real>,
    holdingDurationMinutes: Option<real>,
    checklistUsedId: Option<string>,
    createdAt: Timestamp)

  datatype Strategy = Strategy(id: string, name: string)

  /** JavaScript truthiness of an optional string: present and not empty. */
  predicate Truthy(o: Option<string>) {
    o.Some? && o.value != ""
  }

  /** `trade.profit_loss || 0`: a missing value reads as zero. */
  function ProfitLoss(t: Trade): real {
    if t.profitLoss.Some? then t.profitLoss.value else 0.0
  }

  predicate IsWin(t: Trade) {
    t.result == Win.Text()
  }

  function Last<T>(s: seq<T>): T
    requires s != []
  {
    s[|s| - 1]
  }

  function DropLast<T>(s: seq<T>): seq<T>
    requires s != []
  {
    s[..|s| - 1]
  }

  lemma DropLastAppend<T>(s: seq<T>, x: T)
    ensures DropLast(s + [x]) == s && Last(s + [x]) == x
  {
    assert (s + [x])[..|s|] == s;
  }

  /** `Math.round`: the nearest integer, halves rounded up. */
  function Round(x: real): int {
    (x + 0.5).Floor
  }

  /** `Math.abs` */
  function Abs(x: real): real {
    if x < 0.0 then -x else x
  }

  /** `Math.min` */
  function Min(a: real, b: real): real {
    if a <= b then a else b
  }

  /** `(part / whole) * 100`, the form in which every rate of the source is computed. */
  function Percent(part: nat, whole: nat): real
    requires whole > 0
  {
    (part as real / whole as real) * 100.0
  }

  lemma PercentBounds(part: nat, whole: nat)
    requires 0 < whole && part <= whole
    ensures 0.0 <= Percent(part, whole) <= 100.0
    ensures Percent(part, whole) == 0.0 <==> part == 0
    ensures Percent(part, whole) == 100.0 <==> part == whole
  {
    var q := part as real / whole as real;
    assert q * whole as real == part as real;
    AboveOneScales(q, whole as real);
    if q == 1.0 {
      assert part as real == whole as real;
    }
  }

  lemma AboveOneScales(q: real, w: real)
    requires w > 0.0
    ensures q > 1.0 ==> q * w > w
  {
  }

  lemma MulAddOne(n: real, b: real)
    ensures (n + 1.0) * b == n * b + b
  {
  }

  /** The number of winning trades. */
  function Wins(ts: seq<Trade>): (n: nat)
    ensures n <= |ts|
  {
    if ts == [] then 0 else Wins(DropLast(ts)) + (if IsWin(Last(ts)) then 1 else 0)
  }

  /** Left-to-right sum of `f` over the trades. */
  function Sum(ts: seq<Trade>, f: Trade -> real): real {
    if ts == [] then 0.0 else Sum(DropLast(ts), f) + f(Last(ts))
  }

  /** `trades.reduce((sum, trade) => sum + (trade.profit_loss || 0), 0)` */
  function TotalPnL(ts: seq<Trade>): real {
    Sum(ts, ProfitLoss)
  }

  lemma {:induction false} WinsExtremes(ts: seq<Trade>)
    ensures Wins(ts) == 0 <==> forall i :: 0 <= i < |ts| ==> !IsWin(ts[i])
    ensures Wins(ts) == |ts| <==> forall i :: 0 <= i < |ts| ==> IsWin(ts[i])
  {
    if ts != [] {
      var p := DropLast(ts);
      WinsExtremes(p);
      assert forall i :: 0 <= i < |p| ==> p[i] == ts[i];
      assert ts[|ts| - 1] == Last(ts);
    }
  }
}
