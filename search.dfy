/**
 * The linear "first index that passes" scan shared by the error-correction
 * loops of src/decoder/format.rs and src/decoder/version.rs, stated over
 * indices so that its properties do not depend on the predicate being searched for.
 */
module Search {
  import opened Wrappers

  /** The lowest index in [i, n) accepted by `ok`, if any. */
  function First(ok: nat -> bool, i: nat, n: nat): (r: Option<nat>)
    ensures r.Some? ==> i <= r.value < n && ok(r.value)
    decreases n - i
  {
    if i >= n then None
    else if ok(i) then Some(i)
    else First(ok, i + 1, n)
  }

  /** The scan fails exactly when no index in [i, n) is accepted. */
  lemma {:induction false} FirstNone(ok: nat -> bool, i: nat, n: nat)
    ensures First(ok, i, n).None? <==> forall k :: i <= k < n ==> !ok(k)
    decreases n - i
  {
    if i < n && !ok(i) {
      FirstNone(ok, i + 1, n);
    }
  }

  /** What the scan finds is accepted, and no index before it is. */
  lemma {:induction false} FirstFound(ok: nat -> bool, i: nat, n: nat)
    ensures First(ok, i, n).Some? ==>
      var k := First(ok, i, n).value;
      i <= k < n && ok(k) && forall k' :: i <= k' < k ==> !ok(k')
    decreases n - i
  {
    if i < n && !ok(i) {
      FirstFound(ok, i + 1, n);
    }
  }

  /** An accepted index with no accepted index before it is the one found. */
  lemma FirstIsLowest(ok: nat -> bool, i: nat, n: nat, k: nat)
    requires i <= k < n && ok(k)
    requires forall k' :: i <= k' < k ==> !ok(k')
    ensures First(ok, i, n) == Some(k)
  {
    FirstNone(ok, i, n);
    FirstFound(ok, i, n);
    var j := First(ok, i, n).value;
    assert !(j < k) && !(k < j);
  }
}
