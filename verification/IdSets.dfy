/** Sets of chunk identifiers and their sizes. */
module IdSets {
  import opened Wire

  predicate IsBelow(i: u16, count: nat) {
    i < count
  }

  function Below(count: nat): set<u16> {
    set i: u16 | IsBelow(i, count)
  }

  lemma {:induction false} SubsetSmaller(a: set<u16>, b: set<u16>)
    requires a <= b
    ensures |a| <= |b|
  {
    if a != {} {
      var x :| x in a;
      SubsetSmaller(a - {x}, b - {x});
    }
  }

  lemma {:induction false} BelowSize(count: nat)
    requires count <= 0x1_0000
    ensures |Below(count)| == count
    decreases count
  {
    if count == 0 {
      assert Below(count) == {};
    } else {
      BelowSize(count - 1);
      assert Below(count) == Below(count - 1) + {count - 1};
    }
  }

  /** A set of identifiers below `count` is all of them exactly when it has `count`
      members. */
  lemma FullByCounting(ids: set<u16>, count: u16)
    requires ids <= Below(count)
    ensures |ids| <= count
    ensures |ids| == count <==> ids == Below(count)
  {
    BelowSize(count);
    SubsetSmaller(ids, Below(count));
    if ids != Below(count) {
      var gap :| gap in Below(count) && gap !in ids;
      SubsetSmaller(ids, Below(count) - {gap});
    }
  }
}
