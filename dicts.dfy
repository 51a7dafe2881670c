/**
 * A dict filled by a loop that stores some of the items it walks over,
 * `out[key] = value`, so that a later item with the same key replaces an
 * earlier one. `None` stands for an item the loop skips.
 */
module Dicts {
  import opened Wrappers

  /** The dict after the loop has walked over `items` in order. */
  function Fill<K(==), V(==)>(items: seq<Option<(K, V)>>): map<K, V>
  {
    if |items| == 0 then map[]
    else
      var m := Fill(items[..|items| - 1]);
      match items[|items| - 1]
      case None => m
      case Some(kv) => m[kv.0 := kv.1]
  }

  /** The item stores key `k`. */
  predicate Stores<K(==), V(==)>(item: Option<(K, V)>, k: K)
  {
    item.Some? && item.value.0 == k
  }

  /** The last item that stores `k` stores `v` under it. */
  predicate LastStored<K(==), V(==)>(items: seq<Option<(K, V)>>, k: K, v: V)
  {
    exists i :: 0 <= i < |items| && items[i] == Some((k, v))
      && forall j :: i < j < |items| ==> !Stores(items[j], k)
  }

  /** A key is in the dict exactly when some item stores it, and it holds the value of the last such item. */
  lemma FillLastWins<K, V>(items: seq<Option<(K, V)>>)
    ensures forall k :: k in Fill(items) <==> exists i :: 0 <= i < |items| && Stores(items[i], k)
    ensures forall k :: k in Fill(items) ==> LastStored(items, k, Fill(items)[k])
  {
    forall k
      ensures k in Fill(items) <==> exists i :: 0 <= i < |items| && Stores(items[i], k)
      ensures k in Fill(items) ==> LastStored(items, k, Fill(items)[k])
    {
      FillKey(items, k);
    }
  }

  lemma {:induction false} FillKey<K, V>(items: seq<Option<(K, V)>>, k: K)
    ensures k in Fill(items) <==> exists i :: 0 <= i < |items| && Stores(items[i], k)
    ensures k in Fill(items) ==> LastStored(items, k, Fill(items)[k])
  {
    if |items| > 0 {
      var n := |items| - 1;
      var front := items[..n];
      FillKey(front, k);
      var m := Fill(items);
      if Stores(items[n], k) {
        assert k in m && m[k] == items[n].value.1;
        assert items[n] == Some((k, m[k]));
      } else {
        assert k in m <==> k in Fill(front);
        assert k in m ==> m[k] == Fill(front)[k];
        if k in Fill(front) {
          var i :| 0 <= i < n && front[i] == Some((k, Fill(front)[k]))
            && forall j :: i < j < n ==> !Stores(front[j], k);
          assert front[i] == items[i];
          forall j | i < j < |items|
            ensures !Stores(items[j], k)
          {
            if j < n {
              assert front[j] == items[j];
            }
          }
        }
        if exists i :: 0 <= i < |items| && Stores(items[i], k) {
          var i :| 0 <= i < |items| && Stores(items[i], k);
          assert front[i] == items[i];
        }
      }
    }
  }

  /** The loop one item further: the dict so far with that item stored, if it is stored. */
  lemma FillStep<K, V>(items: seq<Option<(K, V)>>, i: nat)
    requires i < |items|
    ensures Fill(items[..i + 1]) == match items[i] case None => Fill(items[..i]) case Some(kv) => Fill(items[..i])[kv.0 := kv.1]
  {
    assert items[..i + 1][..i] == items[..i];
  }
}
