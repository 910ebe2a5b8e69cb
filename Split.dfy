/** The train/validation split of `main` (convert_dataset.py, lines 137-141): after the shuffle,
    `n_val = int(len(rows) * val)`, the first `n_val` rows go to validation and the rest to training.
    The split is global over all rows; it is not done per class. The ratio `val` is the exact rational
    valNum / valDen. */
module Split {

  /** Python's int() of the quotient num / den: truncation toward zero. */
  function Trunc(num: int, den: nat): (t: int)
    requires den > 0
    ensures num >= 0 ==> 0 <= t * den <= num < t * den + den
    ensures num < 0 ==> t * den - den < num <= t * den <= 0
  {
    if num >= 0 then
      DivBounds(num, den);
      num / den
    else
      var q := (-num) / den;
      DivBounds(-num, den);
      assert (-q) * den == -(q * den);
      -q
  }

  /** Euclidean division of a natural number: the quotient times the divisor is within one divisor below. */
  lemma DivBounds(a: nat, d: nat)
    requires d > 0
    ensures 0 <= (a / d) * d <= a < (a / d) * d + d
  {
    assert a == (a / d) * d + a % d;
  }

  /** n_val for `n` rows and the ratio valNum / valDen. */
  function ValCount(n: nat, valNum: int, valDen: nat): int
    requires valDen > 0
  {
    Trunc(n * valNum, valDen)
  }

  /** Python's reading of a slice bound `k` over a list of length `n`: a negative bound counts from the
      end, and the result is clamped to 0 .. n. */
  function SliceBound(k: int, n: nat): (b: nat)
    ensures b <= n
    ensures 0 <= k <= n ==> b == k
  {
    if k < 0 then (if k + n < 0 then 0 else k + n)
    else if k > n then n
    else k
  }

  datatype Partition<T> = Partition(val: seq<T>, train: seq<T>)

  /** `val_rows = rows[:n_val]` and `train_rows = rows[n_val:]`. */
  function SplitAt<T>(shuffled: seq<T>, nVal: int): (p: Partition<T>)
    ensures p.val + p.train == shuffled
    ensures |p.val| == SliceBound(nVal, |shuffled|)
  {
    var b := SliceBound(nVal, |shuffled|);
    assert shuffled[..b] + shuffled[b..] == shuffled;
    Partition(shuffled[..b], shuffled[b..])
  }

  /** For a ratio in [0, 1], the validation part holds floor(n * ratio) rows and the training part the
      remaining ones. */
  lemma SplitSizes<T>(shuffled: seq<T>, valNum: int, valDen: nat)
    requires valDen > 0 && 0 <= valNum <= valDen
    ensures 0 <= ValCount(|shuffled|, valNum, valDen) <= |shuffled|
    ensures |SplitAt(shuffled, ValCount(|shuffled|, valNum, valDen)).val| == (|shuffled| * valNum) / valDen
    ensures |SplitAt(shuffled, ValCount(|shuffled|, valNum, valDen)).train| == |shuffled| - (|shuffled| * valNum) / valDen
  {
    var n := |shuffled|;
    FloorAtMost(n, valNum, valDen);
    var t := (n * valNum) / valDen;
    assert ValCount(n, valNum, valDen) == t;
    assert SliceBound(t, n) == t;
  }

  /** floor(n * num / den) lies in 0 .. n for a ratio num / den in [0, 1]. */
  lemma FloorAtMost(n: nat, num: int, den: nat)
    requires den > 0 && 0 <= num <= den
    ensures n * num >= 0
    ensures 0 <= (n * num) / den <= n
  {
    var m := n * num;
    assert m >= 0 && n * den - m == n * (den - num) >= 0;
    DivBounds(m, den);
    MulCancel(m / den, n, den);
  }

  /** Cancelling a positive factor on both sides of an inequality. */
  lemma MulCancel(a: int, b: int, c: int)
    requires c > 0 && a * c <= b * c
    ensures a <= b
  {
    assert (b - a) * c >= 0;
  }

  /** If the shuffle only reorders the collected rows, the two parts together hold exactly the collected
      rows, each as often as before. */
  lemma SplitIsPermutation<T>(collected: seq<T>, shuffled: seq<T>, nVal: int)
    requires multiset(shuffled) == multiset(collected)
    ensures multiset(SplitAt(shuffled, nVal).val) + multiset(SplitAt(shuffled, nVal).train) == multiset(collected)
    ensures |SplitAt(shuffled, nVal).val| + |SplitAt(shuffled, nVal).train| == |collected|
  {
    var p := SplitAt(shuffled, nVal);
    assert multiset(p.val + p.train) == multiset(p.val) + multiset(p.train);
    assert |multiset(shuffled)| == |multiset(collected)|;
  }

  /** A negative ratio makes n_val negative, and Python's slicing then sends all but the last |n_val|
      rows to validation (and none when n_val truncates to 0). */
  lemma NegativeRatioSplit<T>(shuffled: seq<T>, valNum: int, valDen: nat)
    requires valDen > 0 && -(valDen as int) <= valNum < 0
    ensures var q := (|shuffled| * -valNum) / valDen;
      q > 0 ==> |SplitAt(shuffled, ValCount(|shuffled|, valNum, valDen)).train| == q
    ensures (|shuffled| * -valNum) / valDen == 0 ==> SplitAt(shuffled, ValCount(|shuffled|, valNum, valDen)).val == []
  {
    var n := |shuffled|;
    var m := n * -valNum;
    FloorAtMost(n, -valNum, valDen);
    var q := m / valDen;
    assert ValCount(n, valNum, valDen) == -q by {
      assert n * valNum == -m;
      if m == 0 {
        assert q == 0;
      }
    }
  }

  /** The split ignores classes: with the default ratio 1/5 and five rows of which the first is the only
      one of its class, that lone row is the one sent to validation, and its class gets no training row. */
  lemma SplitIgnoresClasses()
    ensures var classes := [0, 1, 1, 1, 1];
      SplitAt(classes, ValCount(|classes|, 1, 5)) == Partition([0], [1, 1, 1, 1])
  {
    var classes := [0, 1, 1, 1, 1];
    assert ValCount(5, 1, 5) == 1;
    assert classes[..1] == [0] && classes[1..] == [1, 1, 1, 1];
  }
}
