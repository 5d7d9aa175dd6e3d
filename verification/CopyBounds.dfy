/** The buffer before permanent memory: a copy of the defaults there are, indexed by position. */
module CopyBounds {
  import opened CmosStore
  import opened OptimalDefaults
  import opened Boot
  import opened PeiLaws
  import opened HandOverLaws

  /** The position of the register lies inside a copy of this many entries. */
  predicate InsideCopy(l: Layout, count: nat, a: nat)
  {
    l.InRegion(a) && a - l.first + 1 < count
  }

  /** Every register of the region has its cell in the copy exactly when the last one has. */
  lemma CopyCoversExactly(l: Layout, count: nat)
    requires l.Valid()
    ensures (forall a: nat :: l.InRegion(a) ==> InsideCopy(l, count, a)) <==> l.last - l.first + 1 < count
  {
    if l.last - l.first + 1 >= count {
      assert l.InRegion(l.last) && !InsideCopy(l, count, l.last);
    }
  }

  /** As many entries as there are managed registers, and the unused first one. */
  function OneDefaultEach(l: Layout): (count: nat)
    requires l.first <= l.last
    ensures count >= 1
  {
    1 + Rank(l, l.last + 1)
  }

  /** With one default for each managed register the copy covers the region exactly when all are managed. */
  lemma CoversRegionExactly(l: Layout)
    requires l.Valid()
    ensures (forall a: nat :: l.InRegion(a) ==> InsideCopy(l, OneDefaultEach(l), a)) <==> NoUnmanagedBelow(l, l.last + 1)
  {
    CopyCoversExactly(l, OneDefaultEach(l));
    RankIsPosition(l, l.last + 1);
    RankIsMonotone(l, l.first, l.last + 1);
  }

  ghost predicate Managed(l: Layout, a: nat)
  {
    l.InRegion(a) && a !in l.unmanaged
  }

  /** The last managed register before `end`. */
  lemma {:induction false} LastManaged(l: Layout, a: nat, end: nat) returns (m: nat)
    requires l.first <= a < end <= l.last + 1 && Managed(l, a)
    ensures a <= m < end && Managed(l, m) && Rank(l, end) == Rank(l, m) + 1
    decreases end
  {
    if Managed(l, end - 1) {
      m := end - 1;
      RankStep(l, m);
    } else {
      RankStep(l, end - 1);
      m := LastManaged(l, a, end - 1);
    }
  }

  /** With an unmanaged register before a managed one, the last managed one falls outside the copy. */
  lemma SomeOutside(l: Layout, a: nat) returns (m: nat)
    requires l.Valid() && Managed(l, a) && !NoUnmanagedBelow(l, a)
    ensures Managed(l, m) && !InsideCopy(l, OneDefaultEach(l), m)
  {
    m := LastManaged(l, a, l.last + 1);
    RankIsPosition(l, a);
    RankIsMonotone(l, l.first, a);
    RankIsMonotone(l, a, m);
  }

  /**
   With one default for each managed register, the managed registers have their
   cells in the copy exactly when no unmanaged register comes before one of them.
   */
  lemma CoversManagedExactly(l: Layout)
    requires l.Valid()
    ensures (forall a: nat :: Managed(l, a) ==> InsideCopy(l, OneDefaultEach(l), a))
            <==> (forall a: nat :: Managed(l, a) ==> NoUnmanagedBelow(l, a))
  {
    forall a: nat | Managed(l, a) && !NoUnmanagedBelow(l, a)
      ensures exists m: nat :: Managed(l, m) && !InsideCopy(l, OneDefaultEach(l), m)
    {
      var m := SomeOutside(l, a);
    }
    forall a: nat | Managed(l, a) && NoUnmanagedBelow(l, a)
      ensures InsideCopy(l, OneDefaultEach(l), a)
    {
      RankIsPosition(l, a);
      RankStep(l, a);
      RankIsMonotone(l, a + 1, l.last + 1);
    }
  }

  /** What a register shows once the first phase has gone over to such a copy. */
  lemma ShownFromCopy(s: State, h: Hooks, count: nat, address: nat, behind: nat -> bv8, a: nat)
    requires IsNew(s) && s.cfg.ApiValid() && count <= |s.buf| && ExecutingInMemory !in s.status
    requires Decision(h, s.Coherent()) == UseBuffer && s.cfg.Summed(a)
    ensures PeiEntered(s, h, count, address, behind).View(a) ==
            var i := a - s.cfg.first + 1;
            if InsideCopy(s.cfg, count, a) then s.buf[i] else behind(i - count)
  {
    hide PeiEntered, State.Coherent, Layout.Valid;
    PeiEntryEstablishes(s, h, count, address, behind);
  }

  /**
   A checksummed register shows its own cell of the table, whatever memory holds
   behind the copy, if and only if its position lies inside the copy.
   */
  lemma OwnCellExactly(s: State, h: Hooks, count: nat, address: nat, a: nat)
    requires IsNew(s) && s.cfg.ApiValid() && count <= |s.buf| && ExecutingInMemory !in s.status
    requires Decision(h, s.Coherent()) == UseBuffer && s.cfg.Summed(a)
    ensures (forall behind: nat -> bv8 ::
               PeiEntered(s, h, count, address, behind).View(a) == s.buf[a - s.cfg.first + 1])
            <==> InsideCopy(s.cfg, count, a)
  {
    hide PeiEntered, State.Coherent, Layout.Valid, State.View;
    forall behind: nat -> bv8
      ensures PeiEntered(s, h, count, address, behind).View(a) ==
              if InsideCopy(s.cfg, count, a) then s.buf[a - s.cfg.first + 1] else behind(a - s.cfg.first + 1 - count)
    {
      ShownFromCopy(s, h, count, address, behind, a);
    }
    if !InsideCopy(s.cfg, count, a) {
      var other := !s.buf[a - s.cfg.first + 1];
      var foreign: nat -> bv8 := i => other;
      ComplementDiffers(s.buf[a - s.cfg.first + 1]);
      ShownFromCopy(s, h, count, address, foreign, a);
      assert PeiEntered(s, h, count, address, foreign).View(a) == other;
    }
  }
}
