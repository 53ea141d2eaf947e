/**
  Splitting an integer primary-key range among workers (`split_pk_ranges`,
  src-tauri/src/data_transfer.rs).
*/
module PkRanges {
  import Text

  datatype Range = Range(low: int, high: int)

  /** Non-empty half-open ranges that follow each other without a gap, from `low` up to `high`. */
  predicate Tiles(rs: seq<Range>, low: int, high: int) {
    if rs == [] then low == high
    else rs[0].low == low && low < rs[0].high && Tiles(rs[1..], rs[0].high, high)
  }

  function Min(a: int, b: int): int { if a < b then a else b }
  function Max(a: int, b: int): int { if a > b then a else b }

  lemma {:induction false} TilesWithin(rs: seq<Range>, low: int, high: int)
    requires Tiles(rs, low, high)
    ensures low <= high
    ensures forall i :: 0 <= i < |rs| ==> low <= rs[i].low < rs[i].high <= high
  {
    if rs != [] {
      TilesWithin(rs[1..], rs[0].high, high);
      forall i | 0 <= i < |rs| ensures low <= rs[i].low < rs[i].high <= high {
        if i > 0 {
          assert rs[i] == rs[1..][i - 1];
        }
      }
    }
  }

  /** Tiling ranges are disjoint and cover every key: each key of the span is in exactly one of them. */
  lemma {:induction false} TilesExactlyOnce(rs: seq<Range>, low: int, high: int, k: int) returns (i: nat)
    requires Tiles(rs, low, high) && low <= k < high
    ensures i < |rs| && rs[i].low <= k < rs[i].high
    ensures forall j :: 0 <= j < |rs| && rs[j].low <= k < rs[j].high ==> j == i
  {
    TilesWithin(rs[1..], rs[0].high, high);
    if k < rs[0].high {
      i := 0;
      assert forall j :: 0 < j < |rs| ==> rs[j] == rs[1..][j - 1];
    } else {
      var n := TilesExactlyOnce(rs[1..], rs[0].high, high, k);
      i := n + 1;
      assert forall j :: 0 < j < |rs| ==> rs[j] == rs[1..][j - 1];
    }
  }

  /** What the loop still pushes, `left` workers before its end. */
  function RangesFrom(cur: int, max: int, step: nat, left: nat): seq<Range>
    decreases left
  {
    if left == 0 then []
    else
      var hi := if left == 1 then max + 1 else Min(cur + step, max + 1);
      (if cur < hi then [Range(cur, hi)] else []) + RangesFrom(hi, max, step, left - 1)
  }

  function Step(min: int, max: int, workers: nat): nat
    requires workers > 0
  {
    Max((max - min + 1) / workers, 1)
  }

  lemma RangesTurn(cur: int, max: int, step: nat, left: nat)
    ensures left == 0 ==> RangesFrom(cur, max, step, left) == []
    ensures left > 0 ==>
            var hi := if left == 1 then max + 1 else Min(cur + step, max + 1);
            RangesFrom(cur, max, step, left)
            == if cur < hi then [Range(cur, hi)] + RangesFrom(hi, max, step, left - 1)
               else RangesFrom(hi, max, step, left - 1)
  {
  }

  method SplitPkRanges(min: int, max: int, workers: nat) returns (ranges: seq<Range>)
    requires workers > 0
    ensures ranges == RangesFrom(min, max, Step(min, max, workers), workers)
  {
    hide RangesFrom;
    var span := max - min + 1;
    var step := Max(span / workers, 1);
    ranges := [];
    var cur := min;
    for i := 0 to workers
      invariant ranges + RangesFrom(cur, max, step, workers - i) == RangesFrom(min, max, step, workers)
    {
      var hi := if i + 1 == workers then max + 1 else Min(cur + step, max + 1);
      RangesTurn(cur, max, step, workers - i);
      if cur < hi {
        Text.Assoc(ranges, [Range(cur, hi)], RangesFrom(hi, max, step, workers - i - 1));
        ranges := ranges + [Range(cur, hi)];
      }
      cur := hi;
    }
    RangesTurn(cur, max, step, 0);
  }

  predicate AllOfSize(rs: seq<Range>, n: int) {
    forall i :: 0 <= i < |rs| ==> rs[i].high - rs[i].low == n
  }

  /** From an empty span nothing is pushed. */
  lemma {:induction false} NothingLeft(cur: int, max: int, step: nat, left: nat)
    requires cur > max && step > 0
    ensures RangesFrom(cur, max, step, left) == []
    decreases left
  {
    if left > 0 {
      NothingLeft(max + 1, max, step, left - 1);
    }
  }

  lemma Distr(n: nat, step: nat)
    requires n > 0
    ensures n * step == (n - 1) * step + step
  {
  }

  /** Enough keys for everybody: equal ranges, the last one takes the remainder. */
  lemma {:induction false} EvenRanges(cur: int, max: int, step: nat, left: nat, extra: nat)
    requires step > 0 && left > 0 && max + 1 == cur + left * step + extra
    ensures var rs := RangesFrom(cur, max, step, left);
            && |rs| == left && Tiles(rs, cur, max + 1)
            && AllOfSize(rs[..left - 1], step)
            && rs[left - 1].high - rs[left - 1].low == step + extra
    decreases left
  {
    var rs := RangesFrom(cur, max, step, left);
    Distr(left, step);
    if left > 1 {
      Distr(left - 1, step);
      var tail := RangesFrom(cur + step, max, step, left - 1);
      EvenRanges(cur + step, max, step, left - 1, extra);
      assert rs == [Range(cur, cur + step)] + tail;
      EvenCons(rs, tail, cur, cur + step, max + 1, step);
    } else {
      assert rs == [Range(cur, max + 1)];
    }
  }

  lemma {:induction false} EvenCons(rs: seq<Range>, tail: seq<Range>, low: int, mid: int, high: int, step: int)
    requires rs == [Range(low, mid)] + tail && low < mid && mid - low == step && tail != []
    requires Tiles(tail, mid, high) && AllOfSize(tail[..|tail| - 1], step)
    ensures Tiles(rs, low, high) && AllOfSize(rs[..|rs| - 1], step) && rs[|rs| - 1] == tail[|tail| - 1]
  {
    assert rs[1..] == tail && rs[..|rs| - 1] == [rs[0]] + tail[..|tail| - 1];
  }

  /** Fewer keys than workers: one key each until they run out. */
  lemma {:induction false} ThinRanges(cur: int, max: int, left: nat)
    requires 0 <= max + 1 - cur < left
    ensures var rs := RangesFrom(cur, max, 1, left);
            |rs| == max + 1 - cur && Tiles(rs, cur, max + 1) && AllOfSize(rs, 1)
    decreases left
  {
    if cur > max {
      NothingLeft(cur, max, 1, left);
    } else {
      ThinRanges(cur + 1, max, left - 1);
      var rs, tail := RangesFrom(cur, max, 1, left), RangesFrom(cur + 1, max, 1, left - 1);
      assert rs == [Range(cur, cur + 1)] + tail && rs[1..] == tail;
    }
  }

  /**
    The ranges are non-empty, contiguous, and cover `[min, max]` exactly, at most
    one per worker. With at least one key per worker there is one per worker, all
    but the last of size floor(span / workers), the last longer by less than
    `workers`; with fewer keys than workers every range is a single key.
  */
  lemma {:induction false} RangesPartition(min: int, max: int, workers: nat)
    requires workers > 0
    ensures var rs, span := RangesFrom(min, max, Step(min, max, workers), workers), max - min + 1;
            && Tiles(rs, min, Max(min, max + 1)) && |rs| <= workers
            && (span >= workers ==>
                  && |rs| == workers
                  && AllOfSize(rs[..workers - 1], span / workers)
                  && span / workers <= rs[workers - 1].high - rs[workers - 1].low <= span / workers + workers - 1)
            && (span < workers ==> |rs| == Max(span, 0) && AllOfSize(rs, 1))
  {
    var span := max - min + 1;
    if span >= workers {
      DivBounds(span, workers);
      var step := span / workers;
      assert workers * step == step * workers;
      EvenRanges(min, max, step, workers, span - step * workers);
    } else if span >= 0 {
      DivBounds(span, workers);
      ThinRanges(min, max, workers);
    } else {
      NothingLeft(min, max, Step(min, max, workers), workers);
    }
  }

  lemma DivBounds(a: nat, b: nat)
    requires b > 0
    ensures (a / b) * b <= a < (a / b) * b + b
    ensures if a >= b then a / b >= 1 else a / b == 0
  {
  }
}
