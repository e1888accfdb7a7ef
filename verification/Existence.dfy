/** The existence check used before lines or ingredients are written: look the
    ids up, then compare the number of rows found with the number of ids. */
module Existence {

  ghost predicate Distinct<T>(ids: seq<T>) {
    forall i, j :: 0 <= i < j < |ids| ==> ids[i] != ids[j]
  }

  /** The keys `findMany({ where: { id: { in: ids } } })` returns. */
  function FindMany<T(==)>(table: set<T>, ids: seq<T>): set<T> {
    set x | x in table && x in ids
  }

  /** The check itself: it passes when the counts agree. */
  predicate AllFound<T(==)>(table: set<T>, ids: seq<T>) {
    |FindMany(table, ids)| == |ids|
  }

  lemma {:induction false} FoundAtMost<T>(table: set<T>, ids: seq<T>)
    ensures |FindMany(table, ids)| <= |ids|
  {
    if ids == [] {
      assert FindMany(table, ids) == {};
    } else {
      var n := |ids| - 1;
      FoundAtMost(table, ids[..n]);
      assert FindMany(table, ids) <= FindMany(table, ids[..n]) + {ids[n]} by {
        assert ids == ids[..n] + [ids[n]];
      }
      SubsetSize(FindMany(table, ids), FindMany(table, ids[..n]) + {ids[n]});
    }
  }

  lemma SubsetSize<T>(a: set<T>, b: set<T>)
    requires a <= b
    ensures |a| <= |b|
  {
    assert b == a + (b - a);
  }

  /** Counting accepts a list exactly when its ids are pairwise distinct and
      all of them exist: it also refuses a list that names one row twice. */
  lemma {:induction false} AllFoundExactly<T>(table: set<T>, ids: seq<T>)
    ensures AllFound(table, ids) <==> Distinct(ids) && forall x :: x in ids ==> x in table
  {
    if ids == [] {
      assert FindMany(table, ids) == {};
    } else {
      var n := |ids| - 1;
      var init, last := ids[..n], ids[n];
      assert ids == init + [last];
      AllFoundExactly(table, init);
      FoundAtMost(table, init);
      var found := FindMany(table, init);
      if last in table && last !in init {
        assert FindMany(table, ids) == found + {last};
      } else {
        assert FindMany(table, ids) == found;
        if last in init {
          var i :| 0 <= i < n && init[i] == last;
          assert ids[i] == ids[n];
        } else {
          assert last in ids;
        }
      }
      if Distinct(ids) {
        assert forall i, j :: 0 <= i < j < n ==> ids[i] == init[i] && ids[j] == init[j];
        assert Distinct(init);
      }
    }
  }

  /** The same position by position. */
  lemma AcceptedIds<T>(table: set<T>, ids: seq<T>)
    ensures AllFound(table, ids)
            <==> && (forall i :: 0 <= i < |ids| ==> ids[i] in table)
                 && (forall i, j :: 0 <= i < j < |ids| ==> ids[i] != ids[j])
  {
    AllFoundExactly(table, ids);
  }
}
