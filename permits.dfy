/**
 * DBI permits: the derived columns (`units`, `blocklot`, `na_existing_units`),
 * the cycle-window inclusion test over the five permit dates, and the
 * classification of permits that count towards RHNA.
 */
module Permits {
  import opened Wrappers
  import opened Records
  import Windows
  import Tables

  /** `fillna(0)`. */
  function OrZero(o: Option<int>): int
  {
    if o.Some? then o.value else 0
  }

  /** The derived columns, computed from the raw ones: the net unit gain (a
      missing unit count reads as 0), the block followed by the lot, and
      whether the existing unit count was missing. */
  function WithDerived(p: Permit): Permit
  {
    p.(units := OrZero(p.proposedUnits) - OrZero(p.existingUnits),
       blocklot := p.block + p.lot,
       naExistingUnits := p.existingUnits.None?)
  }

  function DeriveAll(rows: seq<Permit>): seq<Permit>
  {
    Tables.Map(rows, WithDerived)
  }

  /** Recomputing the derived columns of a frame that already has them changes nothing. */
  lemma DeriveAllIdempotent(rows: seq<Permit>)
    ensures DeriveAll(DeriveAll(rows)) == DeriveAll(rows)
  {
    var once := DeriveAll(rows);
    var twice := DeriveAll(once);
    assert forall i :: 0 <= i < |rows| ==> twice[i] == once[i];
  }

  /** The proposed uses that count as residential construction (exact, case-sensitive match). */
  const RelevantUses: seq<string> := [
    "apartments", "1 family dwelling", "2 family dwelling",
    "residential hotel", "misc group residns.", "artist live/work",
    "convalescent home", "accessory cottage", "nursing home non amb",
    "orphanage", "r-3(dwg) nursing", "nursing home gt 6",
    "day care home gt 12", "day care home lt 7", "day care home 7 - 12",
    "nursing home lte 6"
  ]

  /** Permit types that count: new construction and additions/alterations. */
  const ConstructionTypes: set<int> := {1, 2, 3, 8}

  /** A permit counts towards RHNA: it adds units, for a residential use, by a construction permit type. */
  predicate CountsTowardRhna(p: Permit)
  {
    p.units > 0 && p.proposedUse in RelevantUses && p.permitType in ConstructionTypes
  }

  /** One of the five permit dates falls in the cycle window starting at `start`. */
  predicate PermitInWindow(p: Permit, start: int)
  {
    || Windows.InWindow(p.statusDate, start)
    || Windows.InWindow(p.permitCreationDate, start)
    || Windows.InWindow(p.issuedDate, start)
    || Windows.InWindow(p.filedDate, start)
    || Windows.InWindow(p.completedDate, start)
  }

  function CountsMask(): Permit -> bool { (p: Permit) => CountsTowardRhna(p) }

  function InCycle(start: int): Permit -> bool { (p: Permit) => PermitInWindow(p, start) }

  /** The window mask applied to a permit table. */
  function PermitsInWindow(rows: seq<Permit>, start: int): (r: seq<Permit>)
    ensures Tables.IsSubsequence(r, rows)
    ensures forall p :: p in r <==> p in rows && PermitInWindow(p, start)
    ensures forall p :: multiset(r)[p] == if PermitInWindow(p, start) then multiset(rows)[p] else 0
  {
    Tables.FilterMultiset(rows, InCycle(start));
    Tables.Filter(rows, InCycle(start))
  }

  /** The classification mask (when `filterForConstruction`), then the window mask. */
  function Classified(rows: seq<Permit>, start: int, filterForConstruction: bool): seq<Permit>
  {
    var kept := if filterForConstruction then Tables.Filter(rows, CountsMask()) else rows;
    Tables.Filter(kept, InCycle(start))
  }

  /** The permits kept are, in their order and unchanged, exactly those in the
      window that (when filtering for construction) count towards RHNA. */
  lemma ClassifiedSpec(rows: seq<Permit>, start: int, filterForConstruction: bool)
    ensures Tables.IsSubsequence(Classified(rows, start, filterForConstruction), rows)
    ensures forall p :: p in Classified(rows, start, filterForConstruction) <==>
      p in rows && (filterForConstruction ==> CountsTowardRhna(p)) && PermitInWindow(p, start)
    ensures forall p ::
      multiset(Classified(rows, start, filterForConstruction))[p] == (if (filterForConstruction ==> CountsTowardRhna(p)) && PermitInWindow(p, start) then multiset(rows)[p] else 0)
  {
    if filterForConstruction {
      var both := (p: Permit) => CountsTowardRhna(p) && PermitInWindow(p, start);
      Tables.FilterFilter(rows, CountsMask(), InCycle(start), both);
      Tables.FilterMultiset(rows, both);
    } else {
      Tables.FilterMultiset(rows, InCycle(start));
    }
  }

  /** The permit frame shared through the cache; `hasUnits` says whether the
      derived columns have been added to it. */
  class PermitFrame {
    var rows: seq<Permit>
    var hasUnits: bool

    constructor (rows: seq<Permit>)
      ensures this.rows == rows && !hasUnits
    {
      this.rows := rows;
      hasUnits := false;
    }

    /** Add (or overwrite) the derived columns. */
    method Derive()
      modifies this
      ensures hasUnits && rows == DeriveAll(old(rows))
    {
      rows := DeriveAll(rows);
      hasUnits := true;
    }

    /** Add the derived columns only when `units` is not yet a column. */
    method DeriveIfAbsent()
      modifies this
      ensures hasUnits
      ensures rows == if old(hasUnits) then old(rows) else DeriveAll(old(rows))
    {
      if !hasUnits {
        Derive();
      }
    }
  }
}
