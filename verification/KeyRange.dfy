/** The parallel key pattern: one range of keys per client, and the sequential key iterator. */
module KeyRange {
  import opened Arithmetic

  // ----- the split -----

  datatype Range = Range(min: nat, max: int)

  function Width(min: nat, max: nat, n: nat): nat
    requires n > 0 && min <= max
  {
    (max - min) / n + 1
  }

  /** The range client::setup_client gives to client i of n. */
  function ClientRange(min: nat, max: nat, n: nat, i: nat): Range
    requires n > 0 && min <= max && i < n
  {
    var range := Width(min, max, n);
    var first := min + range * i;
    Range(first, if i == n - 1 then max else first + range - 1)
  }

  predicate Holds(r: Range, k: nat) {
    r.min <= k <= r.max
  }

  predicate NonEmpty(r: Range) {
    r.min <= r.max
  }

  /** A key is in the range of client i. */
  predicate Owns(min: nat, max: nat, n: nat, i: nat, k: nat)
    requires n > 0 && min <= max && i < n
  {
    Holds(ClientRange(min, max, n, i), k)
  }

  /** No range is empty, every key of [min, max] and no other is in one, and no key is in two. */
  ghost predicate Splits(min: nat, max: nat, n: nat)
    requires n > 0 && min <= max
  {
    && (forall i: nat :: i < n ==> NonEmpty(ClientRange(min, max, n, i)))
    && (forall i: nat, j: nat, k: nat :: i < j < n && Owns(min, max, n, i, k) ==> !Owns(min, max, n, j, k))
    && (forall i: nat, k: nat :: i < n && Owns(min, max, n, i, k) ==> min <= k <= max)
    && (forall k: nat :: min <= k <= max ==> Owned(min, max, n, k))
  }

  ghost predicate Owned(min: nat, max: nat, n: nat, k: nat)
    requires n > 0 && min <= max
  {
    exists i: nat :: i < n && Owns(min, max, n, i, k)
  }

  /** The client whose range holds a key. */
  function Owner(min: nat, max: nat, n: nat, k: nat): (i: nat)
    requires n > 0 && min <= k <= max
    ensures i < n
  {
    var q := (k - min) / Width(min, max, n);
    if q >= n then n - 1 else q
  }

  /** Ranges of later clients start after earlier ones end. */
  lemma RangesAscend(min: nat, max: nat, n: nat, i: nat, j: nat)
    requires n > 0 && min <= max && i < j < n
    ensures ClientRange(min, max, n, i).max < ClientRange(min, max, n, j).min
    ensures NonEmpty(ClientRange(min, max, n, i))
    ensures ClientRange(min, max, n, i).max < ClientRange(min, max, n, n - 1).min
  {
    hide Width;
    var w: nat := Width(min, max, n);
    MulMonotone(w, i + 1, j);
    MulMonotone(w, i + 1, n - 1);
    assert w * (i + 1) == w * i + w;
    assert w > 0 by { WidthPositive(min, max, n); }
  }

  lemma WidthPositive(min: nat, max: nat, n: nat)
    requires n > 0 && min <= max
    ensures Width(min, max, n) > 0
  {
  }

  lemma MulMonotone(w: nat, a: nat, b: nat)
    requires a <= b
    ensures w * a <= w * b
  {
    MulDifference(a, b, w);
    assert (b - a) * w >= 0;
    assert a * w == w * a && b * w == w * b;
  }

  lemma OwnerOwns(min: nat, max: nat, n: nat, k: nat)
    requires n > 0 && min <= k <= max
    ensures Owns(min, max, n, Owner(min, max, n, k), k)
  {
    hide Width;
    WidthPositive(min, max, n);
    var w: nat := Width(min, max, n);
    var q, r := (k - min) / w, (k - min) % w;
    assert k - min == w * q + r && 0 <= r < w;
    if q >= n - 1 {
      MulMonotone(w, n - 1, q);
    }
  }

  /** The split is a partition of [min, max] exactly when the last client starts inside it. */
  lemma SplitsExactly(min: nat, max: nat, n: nat)
    requires n > 0 && min <= max
    ensures Splits(min, max, n) <==> Width(min, max, n) * (n - 1) <= max - min
  {
    hide Width, ClientRange;
    LastRange(min, max, n);
    if Width(min, max, n) * (n - 1) <= max - min {
      forall i: nat | i < n
        ensures NonEmpty(ClientRange(min, max, n, i))
        ensures min <= ClientRange(min, max, n, i).min && ClientRange(min, max, n, i).max <= max
      {
        if i < n - 1 {
          RangesAscend(min, max, n, i, n - 1);
        }
        FirstKey(min, max, n, i);
      }
      forall i: nat, j: nat, k: nat | i < j < n && Owns(min, max, n, i, k) ensures !Owns(min, max, n, j, k) {
        RangesAscend(min, max, n, i, j);
      }
      forall k: nat | min <= k <= max ensures Owned(min, max, n, k) {
        OwnerOwns(min, max, n, k);
      }
    } else {
      assert !NonEmpty(ClientRange(min, max, n, n - 1));
    }
  }

  /** Eleven keys for five clients: ranges of three leave nothing for the last client. */
  lemma TooFewKeys()
    ensures !Splits(0, 10, 5)
  {
    SplitsExactly(0, 10, 5);
  }

  lemma LastRange(min: nat, max: nat, n: nat)
    requires n > 0 && min <= max
    ensures ClientRange(min, max, n, n - 1) == Range(min + Width(min, max, n) * (n - 1), max)
  {
  }

  lemma FirstKey(min: nat, max: nat, n: nat, i: nat)
    requires n > 0 && min <= max && i < n
    ensures ClientRange(min, max, n, i).min >= min
  {
  }

  /** Enough keys for the number of clients. */
  lemma EnoughKeysSplit(min: nat, max: nat, n: nat)
    requires n > 0 && min <= max && n * (n - 1) <= max - min
    ensures Splits(min, max, n)
  {
    hide Splits;
    var span := max - min;
    var q, r := span / n, span % n;
    assert span == n * q + r;
    AtLeast(span, n, n - 1);
    assert (q + 1) * (n - 1) == n * q - q + n - 1;
    SplitsExactly(min, max, n);
  }

  lemma AtLeast(x: nat, n: nat, k: nat)
    requires n > 0 && n * k <= x
    ensures x / n >= k
  {
    var q, r := x / n, x % n;
    assert x == n * q + r && 0 <= r < n;
    assert n * (q + 1) == n * q + n;
    if q < k {
      MulMonotone(n, q + 1, k);
    }
  }

  // ----- the sequential iterator -----

  class KeyGenerator {
    var keyMin: nat
    var keyMax: nat
    var nextKey: nat
    ghost var given: nat

    /** The iterator stands where given steps from the lower end leave it. */
    ghost predicate Valid()
      reads this
    {
      if given == 0 then nextKey == 0 else nextKey == KeyAt(keyMin, keyMax, given)
    }

    constructor (min: nat, max: nat)
      ensures Valid() && given == 0 && keyMin == min && keyMax == max
    {
      keyMin, keyMax, nextKey, given := min, max, 0, 0;
    }

    /** object_generator::get_key_index for a sequential iterator. */
    method GetKeyIndex() returns (k: nat)
      requires Valid()
      modifies this
      ensures Valid() && given == old(given) + 1 && keyMin == old(keyMin) && keyMax == old(keyMax)
      ensures k == KeyAt(keyMin, keyMax, old(given))
    {
      KeyAtStep(keyMin, keyMax, given);
      if nextKey < keyMin {
        nextKey := keyMin;
      }
      k := nextKey;
      nextKey := nextKey + 1;
      if nextKey > keyMax {
        nextKey := keyMin;
      }
      given := given + 1;
    }
  }

  /** The n-th key of a range, going round; of an empty range, always its lower end. */
  function KeyAt(min: nat, max: int, n: nat): (k: nat)
    ensures if min <= max then min <= k <= max else k == min
  {
    if min <= max then min + n % (max - min + 1) else min
  }

  lemma KeyAtStep(min: nat, max: int, n: nat)
    ensures KeyAt(min, max, 0) == min
    ensures KeyAt(min, max, n + 1) == if KeyAt(min, max, n) >= max then min else KeyAt(min, max, n) + 1
  {
    if min <= max {
      DivModStep(n, max - min + 1);
      DivModUnique(0, max - min + 1, 0, 0);
    }
  }

  // ----- -n allkeys with P:P and 1:0 -----

  /** The request budget config_init_defaults computes for -n allkeys with the P:P pattern. */
  function Budget(min: nat, max: nat, n: nat): nat
    requires n > 0 && min <= max
  {
    (max - min) / n + 1
  }

  /** How often a client with this range writes key k within its budget. */
  function Writes(r: Range, budget: nat, k: nat): nat {
    if budget == 0 then 0 else Writes(r, budget - 1, k) + if KeyAt(r.min, r.max, budget - 1) == k then 1 else 0
  }

  /** Within the first round of a range every key reached so far is written once. */
  lemma {:induction false} FirstRound(r: Range, budget: nat, k: nat)
    requires budget <= r.max - r.min + 1
    ensures Writes(r, budget, k) == if r.min <= k < r.min + budget then 1 else 0
  {
    if budget > 0 {
      FirstRound(r, budget - 1, k);
      DivModUnique(budget - 1, r.max - r.min + 1, 0, budget - 1);
    }
  }

  lemma {:induction false} WritesGrow(r: Range, a: nat, b: nat, k: nat)
    requires a <= b
    ensures Writes(r, a, k) <= Writes(r, b, k)
    ensures !Holds(r, k) && k != r.min ==> Writes(r, b, k) == 0
    decreases b
  {
    if a < b {
      WritesGrow(r, a, b - 1, k);
    } else if b > 0 {
      WritesGrow(r, b - 1, b - 1, k);
    }
  }

  /** A client with an empty range writes its lower end and nothing else. */
  lemma {:induction false} EmptyRangeWrites(r: Range, budget: nat, k: nat)
    requires !NonEmpty(r)
    ensures Writes(r, budget, k) == if k == r.min then budget else 0
  {
    if budget > 0 {
      EmptyRangeWrites(r, budget - 1, k);
    }
  }

  /** With the budget of -n allkeys every client but the last writes each of its keys exactly once and nothing else.
      The last one writes each of its keys at least once, or, if it has none, one key above the maximum. */
  lemma AllKeysWritten(min: nat, max: nat, n: nat, i: nat, k: nat)
    requires n > 0 && min <= max && i < n
    ensures var r := ClientRange(min, max, n, i); var w := Writes(r, Budget(min, max, n), k);
            && (i < n - 1 ==> w == if Owns(min, max, n, i, k) then 1 else 0)
            && (i == n - 1 && NonEmpty(r) ==> (w >= 1 <==> Owns(min, max, n, i, k)))
            && (i == n - 1 && !NonEmpty(r) ==> max < r.min && w == if k == r.min then Budget(min, max, n) else 0)
  {
    hide Writes;
    var r := ClientRange(min, max, n, i);
    var budget := Budget(min, max, n);
    if i < n - 1 {
      FirstRound(r, budget, k);
    } else if NonEmpty(r) {
      LastFits(min, max, n);
      var size := r.max - r.min + 1;
      FirstRound(r, size, k);
      WritesGrow(r, size, budget, k);
    } else {
      EmptyRangeWrites(r, budget, k);
    }
  }

  /** Every key is written, by its owner and by no other client, and exactly once unless the owner is the last client,
      whatever the number of clients. */
  lemma EveryKeyWritten(min: nat, max: nat, n: nat, i: nat, k: nat)
    requires n > 0 && min <= k <= max && i < n
    ensures var w := Writes(ClientRange(min, max, n, i), Budget(min, max, n), k); var o := Owner(min, max, n, k);
            && (i == o ==> w >= 1) && (i == o < n - 1 ==> w == 1) && (i != o ==> w == 0)
  {
    hide Writes, Owner, ClientRange, Budget;
    OwnerOwns(min, max, n, k);
    AllKeysWritten(min, max, n, i, k);
    if i < Owner(min, max, n, k) {
      RangesAscend(min, max, n, i, Owner(min, max, n, k));
    } else if Owner(min, max, n, k) < i {
      RangesAscend(min, max, n, Owner(min, max, n, k), i);
    }
  }

  /** No client writes a key outside the range if and only if the split is a partition. */
  lemma OnlyKeysWritten(min: nat, max: nat, n: nat)
    requires n > 0 && min <= max
    ensures Splits(min, max, n) <==>
            forall i: nat, k: nat :: i < n && !(min <= k <= max) ==> Unwritten(min, max, n, i, k)
  {
    hide Splits, Writes, ClientRange, Budget;
    SplitsExactly(min, max, n);
    LastRange(min, max, n);
    var last := ClientRange(min, max, n, n - 1);
    if Splits(min, max, n) {
      forall i: nat, k: nat | i < n && !(min <= k <= max) ensures Unwritten(min, max, n, i, k) {
        AllKeysWritten(min, max, n, i, k);
        FirstKey(min, max, n, i);
        if i < n - 1 {
          RangesAscend(min, max, n, i, n - 1);
        }
      }
    } else {
      AllKeysWritten(min, max, n, n - 1, last.min);
      BudgetPositive(min, max, n);
      assert !Unwritten(min, max, n, n - 1, last.min);
    }
  }

  predicate Unwritten(min: nat, max: nat, n: nat, i: nat, k: nat)
    requires n > 0 && min <= max && i < n
  {
    Writes(ClientRange(min, max, n, i), Budget(min, max, n), k) == 0
  }

  lemma BudgetPositive(min: nat, max: nat, n: nat)
    requires n > 0 && min <= max
    ensures Budget(min, max, n) > 0
  {
  }

  lemma LastFits(min: nat, max: nat, n: nat)
    requires n > 0 && min <= max
    ensures var r := ClientRange(min, max, n, n - 1); r.max - r.min + 1 <= Budget(min, max, n)
  {
    var span := max - min;
    var q, r := span / n, span % n;
    assert span == n * q + r && r < n;
    assert (q + 1) * (n - 1) == n * q - q + n - 1;
  }
}
