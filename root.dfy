/**
 * The entry points of clean_utils.py at the repository root.  They differ from
 * pdev/clean_utils.py in four places: `get_rhna4_parcels` names an undefined
 * `rhna4end`, the bluesky transform adds the backup lists, the pipeline
 * columns carry the `pipeline` prefix, and `get_dbi_permits` honours
 * `filter_for_construction` and keeps derived columns that already exist.
 */
module RootCleanUtils {
  import opened Wrappers
  import opened Records
  import Tables
  import Caching
  import Windows
  import Permits
  import Pipeline
  import Linkage

  /** The exception Python raises. */
  datatype PyError = NameError(name: string)

  /** `get_rhna4_parcels` as written: the first two masks apply, then the
      third names `rhna4end`, which is defined nowhere in the module, so every
      call raises, whatever the table holds. */
  function GetRhna4ParcelsAsWritten(ps: seq<Parcel>): (r: Result<seq<Parcel>, PyError>)
    ensures r.Err? && r.error == NameError("rhna4end")
  {
    Err(NameError("rhna4end"))
  }

  /** The two readings of `get_rhna4_parcels` part on every table: as written
      it raises, while the intended rule, the one
      pdev/clean_utils.py spells `rhna4start + 8`, returns the parcels active
      in 2007 to 2014, the empty table included. */
  lemma Rhna4NameError(ps: seq<Parcel>)
    ensures GetRhna4ParcelsAsWritten(ps).Err?
    ensures Windows.CycleParcels(ps, 4) == Windows.Rhna4Parcels(ps)
    ensures forall p :: p in Windows.Rhna4Parcels(ps) <==> p in ps && Windows.ParcelActive(p, 2007)
  {
    Windows.ActiveParcelsSpec(ps, Windows.Rhna4Start);
  }

  /** The parcel selection of `transform_bluesky_to_geospatial` as written:
      cycle 4 goes through the raising `get_rhna4_parcels`. */
  function ParcelsForCycleAsWritten(ps: seq<Parcel>, cycle: int): (r: Result<seq<Parcel>, PyError>)
    ensures cycle == 4 <==> r.Err?
    ensures r.Err? ==> r.error == NameError("rhna4end")
    ensures cycle != 4 ==> r.Ok? && r.value == Windows.CycleParcels(ps, cycle)
  {
    if cycle == 4 then GetRhna4ParcelsAsWritten(ps) else Ok(Windows.CycleParcels(ps, cycle))
  }

  /** `transform_bluesky_to_geospatial` as written: the cached parcels are
      loaded; for cycle 4, the default, the call raises `NameError`; for any
      other cycle the result is the parcels of the cycle right-merged with the
      sites, one most recent row per master identifier, each joined with its
      backup lists. */
  method TransformBlueskyToGeospatial(cache: Caching.Cache<seq<Parcel>>, bluesky: seq<Candidate>, cycle: int)
    returns (r: Result<map<string, Linkage.Linked>, PyError>)
    modifies cache
    ensures cache.value == Some(old(cache.Current()))
    ensures cycle == 4 ==> r == Err(NameError("rhna4end"))
    ensures cycle != 4 ==> r == Ok(Linkage.LinkWithBackup(Windows.CycleParcels(old(cache.Current()), cycle), bluesky))
  {
    var all := cache.Get();
    var selected := ParcelsForCycleAsWritten(all, cycle);
    if selected.Err? {
      r := Err(selected.error);
    } else {
      r := Ok(Linkage.LinkWithBackup(selected.value, bluesky));
    }
  }

  /** `transform_bluesky_to_geospatial` with `get_rhna4_parcels` corrected to
      end the RHNA4 window at `rhna4start + 8`: every cycle, cycle 4 included,
      yields the link with backups of the cycle's parcels. */
  method TransformBlueskyToGeospatialIntended(cache: Caching.Cache<seq<Parcel>>, bluesky: seq<Candidate>, cycle: int)
    returns (r: map<string, Linkage.Linked>)
    modifies cache
    ensures cache.value == Some(old(cache.Current()))
    ensures r == Linkage.LinkWithBackup(Windows.CycleParcels(old(cache.Current()), cycle), bluesky)
  {
    var all := cache.Get();
    r := Linkage.LinkWithBackup(Windows.CycleParcels(all, cycle), bluesky);
  }

  /** `get_pipeline_permits`: as in pdev/clean_utils.py, with the `pipeline`
      prefix on the cost and type columns. */
  method GetPipelinePermits(cache: Caching.Cache<Permits.PermitFrame>, cycle: int, dbi: Permits.PermitFrame?)
    returns (t: Pipeline.PipelineTable)
    modifies cache, cache.Current(), dbi
    ensures dbi != null ==> cache.value == old(cache.value)
    ensures dbi == null ==> cache.value == Some(old(cache.Current()))
    ensures dbi != null && dbi != old(cache.Current()) ==> unchanged(old(cache.Current()))
    ensures var f := if dbi != null then dbi else old(cache.Current());
      && f.hasUnits
      && f.rows == (if old(f.hasUnits) then old(f.rows) else Permits.DeriveAll(old(f.rows)))
      && t == Pipeline.CyclePipeline(f.rows, cycle, "pipeline")
  {
    var f: Permits.PermitFrame;
    if dbi == null {
      f := cache.Get();
    } else {
      f := dbi;
    }
    f.DeriveIfAbsent();
    t := Pipeline.CyclePipeline(f.rows, cycle, "pipeline");
  }

  /** `get_dbi_permits`: the cached permit frame gains the derived columns
      unless it has them; the result keeps, in order, the permits with a date
      in the cycle's window (the window starting in year 4 for a cycle other
      than 3, 4 or 5) that, when `filterForConstruction`, count towards RHNA. */
  method GetDbiPermits(cache: Caching.Cache<Permits.PermitFrame>, cycle: int, filterForConstruction: bool)
    returns (r: seq<Permit>)
    modifies cache, cache.Current()
    ensures cache.value == Some(old(cache.Current()))
    ensures var f := old(cache.Current());
      && f.hasUnits
      && f.rows == (if old(f.hasUnits) then old(f.rows) else Permits.DeriveAll(old(f.rows)))
      && Tables.IsSubsequence(r, f.rows)
      && (forall p :: p in r <==>
            (&& p in f.rows
             && (filterForConstruction ==> Permits.CountsTowardRhna(p))
             && Permits.PermitInWindow(p, Windows.CycleStart(cycle, 4))))
      && (forall p ::
            multiset(r)[p] == (if (filterForConstruction ==> Permits.CountsTowardRhna(p))
                                  && Permits.PermitInWindow(p, Windows.CycleStart(cycle, 4))
                               then multiset(f.rows)[p] else 0))
  {
    var f := cache.Get();
    f.DeriveIfAbsent();
    var start := Windows.CycleStart(cycle, 4);
    r := Permits.Classified(f.rows, start, filterForConstruction);
    Permits.ClassifiedSpec(f.rows, start, filterForConstruction);
  }
}
