/** Sequences of identifiers: removal and absence of repeats. */
module Lists {

  /** `std::erase`: every occurrence goes, the rest keeps its order. */
  function Without(ids: seq<nat>, id: nat): (r: seq<nat>)
    ensures id !in r
    ensures forall x :: x in r <==> x in ids && x != id
  {
    if ids == [] then []
    else if ids[0] == id then Without(ids[1..], id)
    else [ids[0]] + Without(ids[1..], id)
  }

  /** `ps` lists in order, once each, the positions below `n` that are wanted. */
  ghost predicate Enumerates(ps: seq<nat>, n: nat, wanted: nat -> bool) {
    && (forall k :: 0 <= k < |ps| ==> ps[k] < n)
    && (forall k, l :: 0 <= k < l < |ps| ==> ps[k] < ps[l])
    && forall i: nat :: i < n ==> (i in ps <==> wanted(i))
  }

  lemma EnumerateNext(ps: seq<nat>, n: nat, before: nat -> bool, wanted: nat -> bool)
    requires Enumerates(ps, n, before) && forall i: nat :: i < n ==> (before(i) <==> wanted(i))
    ensures Enumerates(if wanted(n) then ps + [n] else ps, n + 1, wanted)
  {
    assert n !in ps;
  }

  /** The elements of `source` at the positions `ps`. */
  predicate Takes<T(==)>(result: seq<T>, source: seq<T>, ps: seq<nat>) {
    |result| == |ps| && forall k :: 0 <= k < |ps| ==> ps[k] < |source| && result[k] == source[ps[k]]
  }

  lemma TakesNext<T>(result: seq<T>, source: seq<T>, ps: seq<nat>, n: nat, next: seq<T>, taken: seq<nat>)
    requires n + 1 == |source| && Takes(result, source[..n], ps)
    requires (next == result && taken == ps) || (next == result + [source[n]] && taken == ps + [n])
    ensures Takes(next, source, taken)
  {
  }

  predicate NoDuplicates(ids: seq<nat>) {
    forall i, j :: 0 <= i < j < |ids| ==> ids[i] != ids[j]
  }

  lemma {:induction false} WithoutAbsent(ids: seq<nat>, id: nat)
    requires id !in ids
    ensures Without(ids, id) == ids
  {
    if ids != [] {
      assert ids[0] in ids;
      WithoutAbsent(ids[1..], id);
    }
  }

  lemma {:induction false} WithoutAt(ids: seq<nat>, k: nat)
    requires NoDuplicates(ids) && k < |ids|
    ensures Without(ids, ids[k]) == ids[..k] + ids[k + 1..]
  {
    if k == 0 {
      WithoutAbsent(ids[1..], ids[0]);
    } else {
      WithoutAt(ids[1..], k - 1);
      assert ids[1..][k - 1] == ids[k];
      assert [ids[0]] + (ids[1..][..k - 1] + ids[1..][k..]) == ids[..k] + ids[k + 1..];
    }
  }

  lemma FrontKeepsDistinct(ids: seq<nat>, id: nat)
    requires NoDuplicates(ids)
    ensures NoDuplicates([id] + Without(ids, id))
  {
    if id in ids {
      var k :| 0 <= k < |ids| && ids[k] == id;
      WithoutAt(ids, k);
      var rest := ids[..k] + ids[k + 1..];
      assert forall i :: 0 <= i < |rest| ==> rest[i] == ids[if i < k then i else i + 1];
    } else {
      WithoutAbsent(ids, id);
    }
  }

  lemma {:induction false} DistinctCount(ids: seq<nat>, s: set<nat>)
    requires NoDuplicates(ids) && forall x :: x in ids <==> x in s
    ensures |s| == |ids|
  {
    if ids == [] {
      assert s == {};
    } else {
      assert ids[0] in ids;
      assert forall x :: x in ids[1..] <==> x in s - {ids[0]} by {
        forall x ensures x in ids[1..] <==> x in s - {ids[0]} {
          assert x in ids <==> x == ids[0] || x in ids[1..];
        }
      }
      DistinctCount(ids[1..], s - {ids[0]});
    }
  }
}
