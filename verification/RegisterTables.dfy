/**
 The register lists the manager scans: entries 1 .. count - 1 in rising order.
 Each scan ends by looking at the cell it stopped on, which is the cell after
 the table when every entry was passed.
 */
module RegisterTables {

  /** `cells[count]` is the memory just after the table. */
  datatype Table = Table(cells: seq<nat>, count: nat) {

    ghost predicate Valid()
    {
      && 1 <= count < |cells|
      && forall i, j :: 1 <= i < j < count ==> cells[i] < cells[j]
    }

    ghost predicate Lists(a: nat)
      requires Valid()
    {
      exists i :: 1 <= i < count && cells[i] == a
    }

    ghost function Entries(): set<nat>
      requires Valid()
    {
      set i | 1 <= i < count :: cells[i]
    }

    /** The entries before `k` are below the address. */
    ghost predicate Below(k: nat, a: nat)
      requires Valid() && k <= count
    {
      forall i :: 1 <= i < k ==> cells[i] < a
    }

    /** A scan for the address runs off the table and finds it in the cell after. */
    ghost predicate Misread(a: nat)
      requires Valid()
    {
      Below(count, a) && cells[count] == a
    }

    /** Where a forward scan for the address may stop. */
    ghost predicate StopsAt(k: nat, a: nat)
      requires Valid()
    {
      1 <= k <= count && Below(k, a) && (k < count ==> a <= cells[k])
    }
  }

  /** The look at the cell under the cursor answers membership, or is a misread. */
  lemma ScanAnswers(t: Table, k: nat, a: nat)
    requires t.Valid() && t.StopsAt(k, a)
    ensures t.cells[k] == a <==> t.Lists(a) || t.Misread(a)
    ensures !(t.Lists(a) && t.Misread(a))
  {
    if t.Lists(a) {
      var i :| 1 <= i < t.count && t.cells[i] == a;
      assert i <= k;
      assert k <= i;
      assert t.cells[k] == a;
    }
  }

  ghost predicate ScanIsMembership(t: Table, first: nat, last: nat)
    requires t.Valid()
  {
    forall a, k: nat :: first <= a <= last && t.StopsAt(k, a) ==> (t.cells[k] == a <==> t.Lists(a))
  }

  ghost predicate GuardInert(t: Table, first: nat, last: nat)
    requires t.Valid()
  {
    var g := t.cells[t.count];
    first <= g <= last ==> t.Lists(g) || !t.Below(t.count, g)
  }

  /**
   Scans over a range of registers are exact if and only if the cell after the
   table does not hold a register of the range above the last entry.
   */
  lemma ScanExactWhenGuardInert(t: Table, first: nat, last: nat)
    requires t.Valid()
    ensures ScanIsMembership(t, first, last) <==> GuardInert(t, first, last)
  {
    if GuardInert(t, first, last) {
      forall a, k: nat | first <= a <= last && t.StopsAt(k, a)
        ensures t.cells[k] == a <==> t.Lists(a)
      {
        ScanAnswers(t, k, a);
      }
    } else {
      var g := t.cells[t.count];
      assert t.StopsAt(t.count, g) && t.cells[t.count] == g && !t.Lists(g);
    }
  }

  lemma EntriesAreListed(t: Table, a: nat)
    requires t.Valid()
    ensures a in t.Entries() <==> t.Lists(a)
  {
  }

  /** The forward scan, decided: for a register of the range, or a listed one. */
  lemma ScanDecides(t: Table, first: nat, last: nat, k: nat, a: nat)
    requires t.Valid() && GuardInert(t, first, last) && t.StopsAt(k, a)
    requires first <= a <= last || t.Lists(a)
    ensures t.cells[k] == a <==> a in t.Entries()
  {
    ScanAnswers(t, k, a);
    EntriesAreListed(t, a);
  }

  /** The table copied elsewhere: the same entries, another cell after them. */
  function Relocated(t: Table, guard: nat): (m: Table)
    requires 1 <= t.count < |t.cells|
  {
    Table(t.cells[..t.count] + [guard], t.count)
  }

  lemma RelocatedIsSame(t: Table, guard: nat)
    requires t.Valid()
    ensures Relocated(t, guard).Valid() && Relocated(t, guard).Entries() == t.Entries()
  {
    var m := Relocated(t, guard);
    assert forall i :: 1 <= i < t.count ==> m.cells[i] == t.cells[i];
    forall a
      ensures a in m.Entries() <==> a in t.Entries()
    {
      if a in t.Entries() {
        var i :| 1 <= i < t.count && t.cells[i] == a;
        assert m.cells[i] == a;
      }
    }
  }
}
