/** Vector clocks: what the comparison loop decides and the merge loop computes. */
module VectorClocks {

  // ----- Clocks as values; an absent entry reads as zero -----

  function At(c: map<string, int>, d: string): int {
    if d in c then c[d] else 0
  }

  ghost predicate Leq(a: map<string, int>, b: map<string, int>) {
    forall d :: At(a, d) <= At(b, d)
  }

  ghost predicate Before(a: map<string, int>, b: map<string, int>) {
    Leq(a, b) && exists d :: At(a, d) < At(b, d)
  }

  ghost predicate Concurrent(a: map<string, int>, b: map<string, int>) {
    !Before(a, b) && !Before(b, a)
  }

  /** Equal up to entries that are zero. */
  ghost predicate Same(a: map<string, int>, b: map<string, int>) {
    forall d :: At(a, d) == At(b, d)
  }

  function Incremented(c: map<string, int>, d: string): map<string, int> {
    c[d := At(c, d) + 1]
  }

  function Max(a: int, b: int): int {
    if a > b then a else b
  }

  function Merged(a: map<string, int>, b: map<string, int>): map<string, int> {
    a + map d | d in b :: Max(At(a, d), b[d])
  }

  lemma BeforeIsStrictOrder(a: map<string, int>, b: map<string, int>, c: map<string, int>)
    ensures !Before(a, a)
    ensures Before(a, b) ==> !Before(b, a)
    ensures Before(a, b) && Before(b, c) ==> Before(a, c)
  {
    if Before(a, b) && Before(b, c) {
      var d :| At(a, d) < At(b, d);
      assert At(b, d) <= At(c, d);
      forall e ensures At(a, e) <= At(c, e) {
        assert At(a, e) <= At(b, e) <= At(c, e);
      }
    }
  }

  /** Incrementing strictly advances a clock, and by the least step in its entry. */
  lemma IncrementAdvances(c: map<string, int>, d: string, later: map<string, int>)
    ensures Before(c, Incremented(c, d))
    ensures Leq(c, later) && At(c, d) < At(later, d) ==> Leq(Incremented(c, d), later)
  {
    var i := Incremented(c, d);
    assert At(c, d) < At(i, d);
    forall e ensures At(c, e) <= At(i, e) && (e != d ==> At(i, e) == At(c, e)) {
    }
  }

  /** The merge is the entrywise maximum exactly when no entry that only the first clock has is
      negative; clocks that are only incremented have none. */
  lemma MergeIsMaximumExactlyWhen(a: map<string, int>, b: map<string, int>)
    ensures (forall d :: At(Merged(a, b), d) == Max(At(a, d), At(b, d))) <==>
            (forall d :: d in a && d !in b ==> a[d] >= 0)
  {
    if forall d :: At(Merged(a, b), d) == Max(At(a, d), At(b, d)) {
      forall d | d in a && d !in b ensures a[d] >= 0 {
        assert At(Merged(a, b), d) == Max(At(a, d), At(b, d));
      }
    }
  }

  ghost predicate NonNegative(c: map<string, int>) {
    forall d :: d in c ==> c[d] >= 0
  }

  lemma MergeAt(a: map<string, int>, b: map<string, int>, d: string)
    requires NonNegative(a) && NonNegative(b)
    ensures At(Merged(a, b), d) == Max(At(a, d), At(b, d))
  {
  }

  lemma MergeStaysNonNegative(a: map<string, int>, b: map<string, int>)
    requires NonNegative(a) && NonNegative(b)
    ensures NonNegative(Merged(a, b))
  {
  }

  /** Then it is the least upper bound. */
  lemma MergeIsLeastUpperBound(a: map<string, int>, b: map<string, int>, c: map<string, int>)
    requires NonNegative(a) && NonNegative(b)
    ensures Leq(a, Merged(a, b)) && Leq(b, Merged(a, b))
    ensures Leq(a, c) && Leq(b, c) ==> Leq(Merged(a, b), c)
  {
    forall d ensures At(Merged(a, b), d) == Max(At(a, d), At(b, d)) {
      MergeAt(a, b, d);
    }
  }

  /** And commutative, associative and idempotent, up to entries that are zero. */
  lemma MergeIsSemilattice(a: map<string, int>, b: map<string, int>, c: map<string, int>)
    requires NonNegative(a) && NonNegative(b) && NonNegative(c)
    ensures Same(Merged(a, b), Merged(b, a)) && Same(Merged(a, a), a)
    ensures Same(Merged(a, Merged(b, c)), Merged(Merged(a, b), c))
  {
    hide Merged, NonNegative;
    MergeStaysNonNegative(a, b);
    MergeStaysNonNegative(b, c);
    forall d ensures At(Merged(a, b), d) == At(Merged(b, a), d) && At(Merged(a, a), d) == At(a, d) {
      MergeAt(a, b, d);
      MergeAt(b, a, d);
      MergeAt(a, a, d);
    }
    forall d ensures At(Merged(a, Merged(b, c)), d) == At(Merged(Merged(a, b), c), d) {
      MergeAt(a, b, d);
      MergeAt(b, c, d);
      MergeAt(a, Merged(b, c), d);
      MergeAt(Merged(a, b), c, d);
    }
  }

  // ----- Clocks as objects -----

  class VectorClock {
    var clock: map<string, int>

    constructor ()
      ensures clock == map[]
    {
      clock := map[];
    }

    method Increment(domainId: string)
      modifies this
      ensures clock == Incremented(old(clock), domainId)
    {
      clock := clock[domainId := (if domainId in clock then clock[domainId] else 0) + 1];
    }

    /** Whatever the order in which the other clock's entries are visited, and even when the
        other clock is this one. */
    method Update(other: VectorClock)
      modifies this
      ensures clock == Merged(old(clock), old(other.clock))
    {
      var items := other.clock;
      var todo := items.Keys;
      while todo != {}
        invariant todo <= items.Keys
        invariant clock == old(clock) + map d | d in items && d !in todo :: Max(At(old(clock), d), items[d])
        decreases todo
      {
        var d :| d in todo;
        todo := todo - {d};
        clock := clock[d := Max(if d in clock then clock[d] else 0, items[d])];
      }
    }

    method HappensBefore(other: VectorClock) returns (before: bool)
      ensures before == Before(clock, other.clock)
    {
      var strictlyLess := false;
      var todo := clock.Keys + other.clock.Keys;
      while todo != {}
        invariant todo <= clock.Keys + other.clock.Keys
        invariant forall d :: d !in todo ==> At(clock, d) <= At(other.clock, d)
        invariant strictlyLess <==> exists d :: d !in todo && At(clock, d) < At(other.clock, d)
        decreases todo
      {
        var d :| d in todo;
        var t1 := if d in clock then clock[d] else 0;
        var t2 := if d in other.clock then other.clock[d] else 0;
        if t1 > t2 {
          assert At(clock, d) > At(other.clock, d);
          return false;
        }
        assert t1 == At(clock, d) && t2 == At(other.clock, d);
        ghost var open := todo;
        todo := todo - {d};
        if t1 < t2 {
          strictlyLess := true;
          assert d !in todo && At(clock, d) < At(other.clock, d);
        } else if strictlyLess {
          ghost var e :| e !in open && At(clock, e) < At(other.clock, e);
          assert e !in todo;
        }
      }
      return strictlyLess;
    }

    method ConcurrentWith(other: VectorClock) returns (concurrent: bool)
      ensures concurrent == Concurrent(clock, other.clock)
    {
      var first := HappensBefore(other);
      if first {
        return false;
      }
      var second := other.HappensBefore(this);
      return !second;
    }
  }
}
