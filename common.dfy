/** Small shared vocabulary: an optional value (Python's `None` or a value)
    and order-independent sums over the keys of a dictionary, which model
    Python's `sum(...)` over `dict.values()`. */
module Common {

  datatype Option<+T> = None | Some(value: T)

  /** The sum of `f` over a finite set of keys, in no particular order. */
  ghost function SumOver<K>(keys: set<K>, f: K -> int): int
    decreases keys
  {
    if keys == {} then 0 else var k :| k in keys; f(k) + SumOver(keys - {k}, f)
  }

  /** Any key may be taken out first: the sum does not depend on the order. */
  lemma {:induction false} SumOverRemove<K>(keys: set<K>, f: K -> int, k: K)
    requires k in keys
    ensures SumOver(keys, f) == f(k) + SumOver(keys - {k}, f)
    decreases keys
  {
    var j :| j in keys && SumOver(keys, f) == f(j) + SumOver(keys - {j}, f);
    if j != k {
      SumOverRemove(keys - {j}, f, k);
      SumOverRemove(keys - {k}, f, j);
      assert keys - {j} - {k} == keys - {k} - {j};
    }
  }

  /** Two summands that agree on the keys have the same sum. */
  lemma {:induction false} SumOverCongruent<K>(keys: set<K>, f: K -> int, g: K -> int)
    requires forall k :: k in keys ==> f(k) == g(k)
    ensures SumOver(keys, f) == SumOver(keys, g)
    decreases keys
  {
    if keys != {} {
      var k :| k in keys;
      SumOverRemove(keys, f, k);
      SumOverRemove(keys, g, k);
      SumOverCongruent(keys - {k}, f, g);
    }
  }

  /** Sums add pointwise. */
  lemma {:induction false} SumOverAdd<K>(keys: set<K>, f: K -> int, g: K -> int, h: K -> int)
    requires forall k :: k in keys ==> f(k) + g(k) == h(k)
    ensures SumOver(keys, f) + SumOver(keys, g) == SumOver(keys, h)
    decreases keys
  {
    if keys != {} {
      var k :| k in keys;
      SumOverRemove(keys, f, k);
      SumOverRemove(keys, g, k);
      SumOverRemove(keys, h, k);
      SumOverAdd(keys - {k}, f, g, h);
    }
  }

  /** Keys whose summand is zero may be dropped without changing the sum. */
  lemma {:induction false} SumOverDropZeros<K>(keys: set<K>, kept: set<K>, f: K -> int)
    requires kept <= keys
    requires forall k :: k in keys && k !in kept ==> f(k) == 0
    ensures SumOver(keys, f) == SumOver(kept, f)
    decreases keys
  {
    if keys != {} {
      var k :| k in keys;
      SumOverRemove(keys, f, k);
      if k in kept {
        SumOverRemove(kept, f, k);
        SumOverDropZeros(keys - {k}, kept - {k}, f);
      } else {
        SumOverDropZeros(keys - {k}, kept, f);
      }
    }
  }
}
