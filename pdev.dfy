/**
 * The entry points of pdev/clean_utils.py.  The module-level caches of the
 * parcel and permit tables are `Cache` objects passed in; what reading a file
 * yields is their `onDisk` field.  Each entry point is a method stating the frame it
 * changes and tying its result to the specification functions of the other
 * modules.
 */
module PdevCleanUtils {
  import opened Wrappers
  import opened Records
  import Tables
  import Caching
  import Windows
  import Permits
  import Pipeline
  import Linkage

  /** `get_site_inventory_feature`: writes the `inInventory` flag into the
      caller's table and returns that same table. */
  method GetSiteInventoryFeature(df: Tables.Table<Candidate>, sites: seq<Site>, cycle: int)
    returns (out: Tables.Table<Candidate>)
    modifies df
    ensures out == df
    ensures df.rows == Linkage.FlagInventory(old(df.rows), sites, cycle)
  {
    df.rows := Linkage.FlagInventory(df.rows, sites, cycle);
    out := df;
  }

  /** The identifiers of the parcel layer dissolved by `mapblklot`. */
  function ParcelIds(ps: seq<Parcel>): set<string>
  {
    set p | p in ps :: p.mapblklot
  }

  /** `merge_tax`: rewrites the caller's tax table with the cleaned master
      identifier, loads the parcel layer through the cache when none is
      given, and returns the identifier join followed by the spatial fallback,
      or the one-to-one validation error. */
  method MergeTax(df: Tables.Table<Candidate>, tax: Tables.Table<TaxRow>, parcels: Option<seq<Parcel>>,
                  cache: Caching.Cache<seq<Parcel>>, intersects: (Candidate, string) -> bool)
    returns (r: Result<seq<Joined>, Linkage.MergeError>)
    modifies tax, cache
    ensures tax.rows == Tables.Map(old(tax.rows), Linkage.WithMaster)
    ensures parcels.None? ==> cache.value == Some(old(cache.Current()))
    ensures parcels.Some? ==> cache.value == old(cache.value)
    ensures r == Linkage.MergeTaxRows(df.rows, tax.rows,
                   ParcelIds(if parcels.Some? then parcels.value else old(cache.Current())), intersects)
  {
    tax.rows := Tables.Map(tax.rows, Linkage.WithMaster);
    var all: seq<Parcel>;
    if parcels.None? {
      all := cache.Get();
    } else {
      all := parcels.value;
    }
    r := Linkage.MergeTaxRows(df.rows, tax.rows, ParcelIds(all), intersects);
  }

  /** `transform_bluesky_to_geospatial`: the parcels of the cycle right-merged
      with the sites, one most recent row per master identifier. */
  method TransformBlueskyToGeospatial(cache: Caching.Cache<seq<Parcel>>, bluesky: seq<Candidate>, cycle: int)
    returns (r: map<string, GeoRow>)
    modifies cache
    ensures cache.value == Some(old(cache.Current()))
    ensures r == Linkage.MostRecentLink(Windows.CycleParcels(old(cache.Current()), cycle), bluesky)
  {
    var all := cache.Get();
    r := Linkage.MostRecentLink(Windows.CycleParcels(all, cycle), bluesky);
  }

  /** `get_pipeline_permits`: the given frame, or the cached one, gains the
      derived columns unless it already has them; the result aggregates its
      permits in the cycle's window under the `permit` prefix. */
  method GetPipelinePermits(cache: Caching.Cache<Permits.PermitFrame>, cycle: int, dbi: Permits.PermitFrame?)
    returns (t: Pipeline.PipelineTable)
    modifies cache, cache.Current(), dbi
    ensures dbi != null ==> cache.value == old(cache.value)
    ensures dbi == null ==> cache.value == Some(old(cache.Current()))
    ensures dbi != null && dbi != old(cache.Current()) ==> unchanged(old(cache.Current()))
    ensures var f := if dbi != null then dbi else old(cache.Current());
      && f.hasUnits
      && f.rows == (if old(f.hasUnits) then old(f.rows) else Permits.DeriveAll(old(f.rows)))
      && t == Pipeline.CyclePipeline(f.rows, cycle, "permit")
  {
    var f: Permits.PermitFrame;
    if dbi == null {
      f := cache.Get();
    } else {
      f := dbi;
    }
    f.DeriveIfAbsent();
    t := Pipeline.CyclePipeline(f.rows, cycle, "permit");
  }

  /** The selection `get_dbi_permits` makes from the raw permit rows: each row
      with its derived columns recomputed, kept exactly when it counts towards
      RHNA and has a date in the cycle's window (the window starting in year 4
      for a cycle other than 3, 4 or 5), in the order of the input. */
  function DbiPermits(rows: seq<Permit>, cycle: int): (r: seq<Permit>)
    ensures Tables.IsSubsequence(r, Permits.DeriveAll(rows))
    ensures forall q :: q in r <==>
      (&& (exists p :: p in rows && q == Permits.WithDerived(p))
       && Permits.CountsTowardRhna(q)
       && Permits.PermitInWindow(q, Windows.CycleStart(cycle, 4)))
    ensures forall q ::
      multiset(r)[q] == (if Permits.CountsTowardRhna(q) && Permits.PermitInWindow(q, Windows.CycleStart(cycle, 4))
                         then multiset(Permits.DeriveAll(rows))[q] else 0)
  {
    var derived := Permits.DeriveAll(rows);
    Permits.ClassifiedSpec(derived, Windows.CycleStart(cycle, 4), true);
    DerivedRows(rows);
    Permits.Classified(derived, Windows.CycleStart(cycle, 4), true)
  }

  lemma DerivedRows(rows: seq<Permit>)
    ensures forall q :: q in Permits.DeriveAll(rows) <==> exists p :: p in rows && q == Permits.WithDerived(p)
  {
    forall q
      ensures q in Permits.DeriveAll(rows) <==> exists p :: p in rows && q == Permits.WithDerived(p)
    {
      Tables.MapContains(rows, Permits.WithDerived, q);
    }
  }

  /** `get_dbi_permits`: the cached permit frame gets its derived columns
      recomputed unconditionally; the construction filter is always applied,
      whatever `filterForConstruction` says. */
  method GetDbiPermits(cache: Caching.Cache<Permits.PermitFrame>, cycle: int, filterForConstruction: bool)
    returns (r: seq<Permit>)
    modifies cache, cache.Current()
    ensures cache.value == Some(old(cache.Current()))
    ensures old(cache.Current()).hasUnits
    ensures old(cache.Current()).rows == Permits.DeriveAll(old(cache.Current().rows))
    ensures r == DbiPermits(old(cache.Current().rows), cycle)
  {
    var f := cache.Get();
    var raw := f.rows;
    f.Derive();
    r := DbiPermits(raw, cycle);
  }
}
