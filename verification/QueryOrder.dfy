/** ORDER BY over up to three integer columns, the last one the row id. */
module QueryOrder {
  datatype SortKey = SortKey(major: int, minor: int, id: int)

  predicate Precedes(a: SortKey, b: SortKey) {
    || a.major < b.major
    || (a.major == b.major && a.minor < b.minor)
    || (a.major == b.major && a.minor == b.minor && a.id < b.id)
  }

  /** `first` is what ORDER BY key LIMIT 1 returns. */
  predicate IsFirst(ids: set<int>, key: int -> SortKey, first: int) {
    first in ids && forall j :: j in ids && j != first ==> Precedes(key(first), key(j))
  }

  lemma SomeMember(ids: set<int>)
    ensures ids == {} || exists i :: i in ids
  {
    if forall i :: i !in ids {
      assert ids == {};
    }
  }

  lemma SubsetSize(a: set<int>, b: set<int>)
    requires a <= b
    ensures |a| <= |b|
    ensures |b - a| == |b| - |a|
  {
    assert b == a + (b - a);
  }

  lemma {:induction false} FirstExists(ids: set<int>, key: int -> SortKey) returns (first: int)
    requires ids != {}
    requires forall i :: i in ids ==> key(i).id == i
    ensures IsFirst(ids, key, first)
    decreases ids
  {
    SomeMember(ids);
    var i :| i in ids;
    var rest := ids - {i};
    if rest == {} {
      assert ids == {i};
      first := i;
    } else {
      var least := FirstExists(rest, key);
      first := if Precedes(key(i), key(least)) then i else least;
    }
  }

  /** ORDER BY key LIMIT 1. */
  method PickFirst(ids: set<int>, key: int -> SortKey) returns (first: int)
    requires ids != {}
    requires forall i :: i in ids ==> key(i).id == i
    ensures IsFirst(ids, key, first)
  {
    ghost var least := FirstExists(ids, key);
    first :| first in ids && forall j :: j in ids && j != first ==> Precedes(key(first), key(j));
  }
}
