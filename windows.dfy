/**
 * RHNA cycle windows.  A cycle starting in year `start` covers the years
 * `[start, start + 8)`.  Comparisons with a missing year (NaT) are false, as
 * in pandas, so a missing year never satisfies a comparison.
 */
module Windows {
  import opened Wrappers
  import opened Records
  import Tables

  const Rhna3Start := 1999
  const Rhna4Start := 2007
  const Rhna5Start := 2015
  const CycleYears := 8

  /** `{3: rhna3start, 4: rhna4start, 5: rhna5start}.get(cycle, fallback)`. */
  function CycleStart(cycle: int, fallback: int): int
  {
    if cycle == 3 then Rhna3Start
    else if cycle == 4 then Rhna4Start
    else if cycle == 5 then Rhna5Start
    else fallback
  }

  /** `year < bound`, false on NaT. */
  predicate Before(y: Option<int>, bound: int)
  {
    y.Some? && y.value < bound
  }

  /** `year >= bound`, false on NaT. */
  predicate AtOrAfter(y: Option<int>, bound: int)
  {
    y.Some? && y.value >= bound
  }

  /** `(year >= start) & (year < start + 8)`, false on NaT. */
  predicate InWindow(y: Option<int>, start: int)
  {
    y.Some? && start <= y.value < start + CycleYears
  }

  /** A parcel survives the window of the cycle starting at `start`: it was not
      deleted (on the map or in the records) before the window opened, and not
      added (in the records or on the map) once it had closed. */
  predicate ParcelActive(p: Parcel, start: int)
  {
    && !Before(p.dateMapDeleted, start)
    && !Before(p.dateRecDeleted, start)
    && !AtOrAfter(p.dateRecAdded, start + CycleYears)
    && !AtOrAfter(p.dateMapAdded, start + CycleYears)
  }

  function IsActive(start: int): Parcel -> bool { (p: Parcel) => ParcelActive(p, start) }

  // The four masks the source applies one after the other.
  function KeepMapDeleted(start: int): Parcel -> bool { (p: Parcel) => !Before(p.dateMapDeleted, start) }
  function KeepRecDeleted(start: int): Parcel -> bool { (p: Parcel) => !Before(p.dateRecDeleted, start) }
  function KeepRecAdded(start: int): Parcel -> bool { (p: Parcel) => !AtOrAfter(p.dateRecAdded, start + CycleYears) }
  function KeepMapAdded(start: int): Parcel -> bool { (p: Parcel) => !AtOrAfter(p.dateMapAdded, start + CycleYears) }

  /** Four successive exclusion masks on the parcel table. */
  function ActiveParcels(ps: seq<Parcel>, start: int): seq<Parcel>
  {
    var a := Tables.Filter(ps, KeepMapDeleted(start));
    var b := Tables.Filter(a, KeepRecDeleted(start));
    var c := Tables.Filter(b, KeepRecAdded(start));
    Tables.Filter(c, KeepMapAdded(start))
  }

  /** The four successive masks are one mask: the result is the order-preserving
      subsequence of exactly the active parcels, rows unchanged. */
  lemma ActiveParcelsSpec(ps: seq<Parcel>, start: int)
    ensures ActiveParcels(ps, start) == Tables.Filter(ps, IsActive(start))
    ensures Tables.IsSubsequence(ActiveParcels(ps, start), ps)
    ensures forall p :: p in ActiveParcels(ps, start) <==> p in ps && ParcelActive(p, start)
  {
    var ab: Parcel -> bool := (p: Parcel) => !Before(p.dateMapDeleted, start) && !Before(p.dateRecDeleted, start);
    var abc: Parcel -> bool := (p: Parcel) => ab(p) && !AtOrAfter(p.dateRecAdded, start + CycleYears);
    var a := Tables.Filter(ps, KeepMapDeleted(start));
    Tables.FilterFilter(ps, KeepMapDeleted(start), KeepRecDeleted(start), ab);
    Tables.FilterFilter(ps, ab, KeepRecAdded(start), abc);
    Tables.FilterFilter(ps, abc, KeepMapAdded(start), IsActive(start));
  }

  /** `get_rhna4_parcels`: drops a parcel deleted (on the map or in the
      records) before 2007 or added (in the records or on the map) in 2015 or
      later; a missing year never drops it.  The kept parcels are the input's,
      unchanged and in order. */
  function Rhna4Parcels(ps: seq<Parcel>): (r: seq<Parcel>)
    ensures Tables.IsSubsequence(r, ps)
    ensures forall p :: p in r <==>
      (&& p in ps
       && !(p.dateMapDeleted.Some? && p.dateMapDeleted.value < 2007)
       && !(p.dateRecDeleted.Some? && p.dateRecDeleted.value < 2007)
       && !(p.dateRecAdded.Some? && p.dateRecAdded.value >= 2015)
       && !(p.dateMapAdded.Some? && p.dateMapAdded.value >= 2015))
    ensures forall p :: multiset(r)[p] == if ParcelActive(p, Rhna4Start) then multiset(ps)[p] else 0
    ensures r == Tables.Filter(ps, IsActive(Rhna4Start))
  {
    ActiveParcelsSpec(ps, Rhna4Start);
    Tables.FilterMultiset(ps, IsActive(Rhna4Start));
    ActiveParcels(ps, Rhna4Start)
  }

  /** `get_rhna5_parcels`: the same rule with 2015 and 2023. */
  function Rhna5Parcels(ps: seq<Parcel>): (r: seq<Parcel>)
    ensures Tables.IsSubsequence(r, ps)
    ensures forall p :: p in r <==>
      (&& p in ps
       && !(p.dateMapDeleted.Some? && p.dateMapDeleted.value < 2015)
       && !(p.dateRecDeleted.Some? && p.dateRecDeleted.value < 2015)
       && !(p.dateRecAdded.Some? && p.dateRecAdded.value >= 2023)
       && !(p.dateMapAdded.Some? && p.dateMapAdded.value >= 2023))
    ensures forall p :: multiset(r)[p] == if ParcelActive(p, Rhna5Start) then multiset(ps)[p] else 0
    ensures r == Tables.Filter(ps, IsActive(Rhna5Start))
  {
    ActiveParcelsSpec(ps, Rhna5Start);
    Tables.FilterMultiset(ps, IsActive(Rhna5Start));
    ActiveParcels(ps, Rhna5Start)
  }

  /** The parcels `transform_bluesky_to_geospatial` merges for a cycle: the
      survivors of the RHNA4 or RHNA5 window, and every parcel for any other
      cycle. */
  function CycleParcels(ps: seq<Parcel>, cycle: int): (r: seq<Parcel>)
    ensures cycle != 4 && cycle != 5 ==> r == ps
    ensures cycle == 4 || cycle == 5 ==> Tables.IsSubsequence(r, ps)
    ensures forall p :: p in r <==> p in ps && (cycle == 4 || cycle == 5 ==> ParcelActive(p, CycleStart(cycle, 0)))
    ensures forall p ::
      multiset(r)[p] == (if (cycle == 4 || cycle == 5) && !ParcelActive(p, CycleStart(cycle, 0)) then 0 else multiset(ps)[p])
  {
    if cycle == 4 then ActiveParcelsSpec(ps, Rhna4Start); Rhna4Parcels(ps)
    else if cycle == 5 then ActiveParcelsSpec(ps, Rhna5Start); Rhna5Parcels(ps)
    else ps
  }
}
