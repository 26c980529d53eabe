/**
 * Linking external tables to parcels: the site-inventory flag, the tax-roll
 * join with its spatial fallback (`merge_tax`), and the bluesky right merge
 * with its most-recent-parcel choice and backup lists
 * (`transform_bluesky_to_geospatial`).  Geometric predicates are parameters.
 */
module Linkage {
  import opened Wrappers
  import opened Records
  import Tables
  import Text

  // ----- Site inventory -----

  /** `.str.split('/').str.join('')` on a site identifier (NaN stays NaN). */
  function NormaliseSiteId(id: Option<string>): (r: Option<string>)
    ensures r.Some? <==> id.Some?
    ensures r.Some? ==> '/' !in r.value && Tables.IsSubsequence(r.value, id.value)
    ensures r.Some? ==> multiset(r.value) == multiset(id.value)['/' := 0]
  {
    if id.Some? then Some(Text.Strip(id.value, '/')) else None
  }

  function OfCycle(cycle: int): Site -> bool
  {
    (s: Site) => s.rhnacyc == "RHNA" + Text.IntToString(cycle)
  }

  function InSanFrancisco(): Site -> bool
  {
    (s: Site) => s.jurisdict == "San Francisco"
  }

  function LocApn(s: Site): Option<string> { NormaliseSiteId(s.locapn) }

  function Apn(s: Site): Option<string> { NormaliseSiteId(s.apn) }

  /** The inventory sites of the cycle in San Francisco. */
  function CycleSites(sites: seq<Site>, cycle: int): seq<Site>
  {
    Tables.Filter(Tables.Filter(sites, OfCycle(cycle)), InSanFrancisco())
  }

  /** `isin(rhna.locapn.values) | isin(rhna.apn.values)` for one identifier. */
  function InInventory(master: string, sites: seq<Site>, cycle: int): bool
  {
    var rhna := CycleSites(sites, cycle);
    Some(master) in Tables.Map(rhna, LocApn) || Some(master) in Tables.Map(rhna, Apn)
  }

  /** An identifier is flagged exactly when it is the normalised `locapn` or
      `apn` of a San Francisco inventory site of the cycle. */
  lemma InInventorySpec(master: string, sites: seq<Site>, cycle: int)
    ensures InInventory(master, sites, cycle) <==>
      exists s :: s in sites && s.rhnacyc == "RHNA" + Text.IntToString(cycle) && s.jurisdict == "San Francisco"
                  && (NormaliseSiteId(s.locapn) == Some(master) || NormaliseSiteId(s.apn) == Some(master))
  {
    var rhna := CycleSites(sites, cycle);
    Tables.MapContains(rhna, LocApn, Some(master));
    Tables.MapContains(rhna, Apn, Some(master));
  }

  /** The frame with its `inInventory` column set: the same rows in the same
      order, each flagged exactly when its identifier is the normalised `locapn`
      or `apn` of a San Francisco inventory site of the cycle. */
  function FlagInventory(rows: seq<Candidate>, sites: seq<Site>, cycle: int): (r: seq<Candidate>)
    ensures |r| == |rows|
    ensures forall i :: 0 <= i < |rows| ==> r[i].master == rows[i].master && r[i].geometry == rows[i].geometry
    ensures forall i :: 0 <= i < |rows| ==>
      (r[i].inInventory == Some(true) <==>
         exists s :: s in sites && s.rhnacyc == "RHNA" + Text.IntToString(cycle) && s.jurisdict == "San Francisco"
                     && (NormaliseSiteId(s.locapn) == Some(rows[i].master) || NormaliseSiteId(s.apn) == Some(rows[i].master)))
    ensures forall i :: 0 <= i < |rows| ==> r[i].inInventory.Some?
  {
    InInventoryAll(rows, sites, cycle);
    seq(|rows|, i requires 0 <= i < |rows| =>
      rows[i].(inInventory := Some(InInventory(rows[i].master, sites, cycle))))
  }

  lemma InInventoryAll(rows: seq<Candidate>, sites: seq<Site>, cycle: int)
    ensures forall i :: 0 <= i < |rows| ==>
      (InInventory(rows[i].master, sites, cycle) <==>
         exists s :: s in sites && s.rhnacyc == "RHNA" + Text.IntToString(cycle) && s.jurisdict == "San Francisco"
                     && (NormaliseSiteId(s.locapn) == Some(rows[i].master) || NormaliseSiteId(s.apn) == Some(rows[i].master)))
  {
    forall i | 0 <= i < |rows| {
      InInventorySpec(rows[i].master, sites, cycle);
    }
  }

  // ----- Tax roll -----

  /** `''.join(str(apn).split(' '))`. */
  function CleanApn(apn: string): (r: string)
    ensures ' ' !in r
    ensures Tables.IsSubsequence(r, apn)
    ensures multiset(r) == multiset(apn)[' ' := 0]
  {
    Text.Strip(apn, ' ')
  }

  /** `tax['MapBlkLot_Master'] = tax.RP1PRCLID.apply(clean_apn)` on one row. */
  function WithMaster(t: TaxRow): TaxRow
  {
    t.(master := CleanApn(t.prclid))
  }

  function TaxMaster(t: TaxRow): string { t.master }

  function HasMaster(m: string): TaxRow -> bool
  {
    (t: TaxRow) => t.master == m
  }

  function JoinWith(l: Candidate): TaxRow -> Joined
  {
    (t: TaxRow) => Joined(l, t)
  }

  /** Inner merge on the identifier, in the order of the left rows. */
  function IdJoin(df: seq<Candidate>, tax: seq<TaxRow>): seq<Joined>
  {
    if df == [] then []
    else Tables.Map(Tables.Filter(tax, HasMaster(df[0].master)), JoinWith(df[0])) + IdJoin(df[1..], tax)
  }

  /** Pairing one left row with tax rows keeps one pair per copy of each tax row. */
  lemma {:induction false} JoinWithMultiset(ts: seq<TaxRow>, l: Candidate)
    ensures forall j :: multiset(Tables.Map(ts, JoinWith(l)))[j] == if j.left == l then multiset(ts)[j.right] else 0
  {
    if ts != [] {
      JoinWithMultiset(ts[1..], l);
      assert ts == [ts[0]] + ts[1..];
      assert Tables.Map(ts, JoinWith(l)) == [Joined(l, ts[0])] + Tables.Map(ts[1..], JoinWith(l));
    }
  }

  /** The inner merge holds exactly the pairs whose identifiers agree. */
  lemma {:induction false} IdJoinSpec(df: seq<Candidate>, tax: seq<TaxRow>)
    ensures forall j :: j in IdJoin(df, tax) <==> j.left in df && j.right in tax && j.left.master == j.right.master
  {
    if df != [] {
      IdJoinSpec(df[1..], tax);
      var here := Tables.Filter(tax, HasMaster(df[0].master));
      forall j
        ensures j in Tables.Map(here, JoinWith(df[0])) <==> j.left == df[0] && j.right in tax && j.left.master == j.right.master
      {
        Tables.MapContains(here, JoinWith(df[0]), j);
      }
      assert df == [df[0]] + df[1..];
    }
  }

  /** How often the pair `j` occurs in an inner merge of `df` with `tax`: once
      for every copy of its left row times every copy of its right row. */
  function PairCount(df: seq<Candidate>, tax: seq<TaxRow>, j: Joined): nat
  {
    if j.left.master == j.right.master then multiset(df)[j.left] * multiset(tax)[j.right] else 0
  }

  /** Taking the first left row off removes its group of right copies. */
  lemma PairCountCons(df: seq<Candidate>, tax: seq<TaxRow>, j: Joined)
    requires df != []
    ensures PairCount(df, tax, j) ==
      (if j.left == df[0] && j.left.master == j.right.master then multiset(tax)[j.right] else 0) + PairCount(df[1..], tax, j)
  {
    assert df == [df[0]] + df[1..];
    var rest := multiset(df[1..])[j.left];
    if j.left == df[0] && j.left.master == j.right.master {
      assert multiset(df)[j.left] == 1 + rest;
    }
  }

  lemma {:induction false} IdJoinCount(df: seq<Candidate>, tax: seq<TaxRow>, j: Joined)
    ensures multiset(IdJoin(df, tax))[j] == PairCount(df, tax, j)
  {
    if df != [] {
      IdJoinCount(df[1..], tax, j);
      PairCountCons(df, tax, j);
      var here := Tables.Filter(tax, HasMaster(df[0].master));
      var head := Tables.Map(here, JoinWith(df[0]));
      Tables.FilterMultiset(tax, HasMaster(df[0].master));
      JoinWithMultiset(here, df[0]);
      assert IdJoin(df, tax) == head + IdJoin(df[1..], tax);
      assert multiset(head)[j] == if j.left == df[0] then multiset(here)[j.right] else 0;
    }
  }

  /** With one-to-one tax identifiers every tax row occurs once. */
  lemma {:induction false} OneToOneOnce(tax: seq<TaxRow>, t: TaxRow)
    requires forall i, k :: 0 <= i < k < |tax| ==> tax[i].master != tax[k].master
    requires t in tax
    ensures multiset(tax)[t] == 1
  {
    assert tax == [tax[0]] + tax[1..];
    if t != tax[0] {
      OneToOneOnce(tax[1..], t);
    }
  }

  lemma OneToOneAllOnce(tax: seq<TaxRow>)
    ensures (forall i, k :: 0 <= i < k < |tax| ==> tax[i].master != tax[k].master) ==>
      forall t :: t in tax ==> multiset(tax)[t] == 1
  {
    if forall i, k :: 0 <= i < k < |tax| ==> tax[i].master != tax[k].master {
      forall t | t in tax
        ensures multiset(tax)[t] == 1
      {
        OneToOneOnce(tax, t);
      }
    }
  }

  /** Each matching pair occurs once for every copy of its left row times
      every copy of its right row, as in an inner merge. */
  lemma IdJoinMultiset(df: seq<Candidate>, tax: seq<TaxRow>)
    ensures forall j :: multiset(IdJoin(df, tax))[j] == PairCount(df, tax, j)
  {
    forall j
      ensures multiset(IdJoin(df, tax))[j] == PairCount(df, tax, j)
    {
      IdJoinCount(df, tax, j);
    }
  }

  /** The rows whose identifier is not a tax identifier: `~isin(tax.MapBlkLot_Master)`. */
  function NotIn(ids: seq<string>): Candidate -> bool
  {
    (l: Candidate) => l.master !in ids
  }

  function Unidentified(df: seq<Candidate>, tax: seq<TaxRow>): seq<Candidate>
  {
    Tables.Filter(df, NotIn(Tables.Map(tax, TaxMaster)))
  }

  /** The tax rows that have a (dissolved) parcel geometry. */
  function TaxGeo(tax: seq<TaxRow>, parcelIds: set<string>): seq<TaxRow>
  {
    Tables.Filter(tax, (t: TaxRow) => t.master in parcelIds)
  }

  function Hits(l: Candidate, intersects: (Candidate, string) -> bool): TaxRow -> bool
  {
    (t: TaxRow) => intersects(l, t.master)
  }

  /** `sjoin(..., how="inner", predicate='intersects')`: every left row paired with every right row it meets. */
  function SpatialJoin(cant: seq<Candidate>, geo: seq<TaxRow>, intersects: (Candidate, string) -> bool): seq<Joined>
  {
    if cant == [] then []
    else Tables.Map(Tables.Filter(geo, Hits(cant[0], intersects)), JoinWith(cant[0])) + SpatialJoin(cant[1..], geo, intersects)
  }

  lemma {:induction false} SpatialJoinSpec(cant: seq<Candidate>, geo: seq<TaxRow>, intersects: (Candidate, string) -> bool)
    ensures forall j :: j in SpatialJoin(cant, geo, intersects) <==> j.left in cant && j.right in geo && intersects(j.left, j.right.master)
  {
    if cant != [] {
      SpatialJoinSpec(cant[1..], geo, intersects);
      var here := Tables.Filter(geo, Hits(cant[0], intersects));
      forall j
        ensures j in Tables.Map(here, JoinWith(cant[0])) <==> j.left == cant[0] && j.right in geo && intersects(j.left, j.right.master)
      {
        Tables.MapContains(here, JoinWith(cant[0]), j);
      }
      assert cant == [cant[0]] + cant[1..];
    }
  }

  /** No two rows share a left identifier. */
  predicate OnePerMaster(js: seq<Joined>)
  {
    forall i, k :: 0 <= i < k < |js| ==> js[i].left.master != js[k].left.master
  }

  /** `drop_duplicates('MapBlkLot_Master_left')`: the first row of each left
      identifier not in `seen`, in order. */
  function FirstPerMaster(js: seq<Joined>, seen: set<string>): (r: seq<Joined>)
    ensures forall j :: j in r ==> j in js && j.left.master !in seen
    ensures OnePerMaster(r)
  {
    if js == [] then []
    else if js[0].left.master in seen then FirstPerMaster(js[1..], seen)
    else [js[0]] + FirstPerMaster(js[1..], seen + {js[0].left.master})
  }

  /** Every identifier not in `seen` keeps a row. */
  lemma {:induction false} FirstPerMasterCovers(js: seq<Joined>, seen: set<string>, j: Joined)
    requires j in js && j.left.master !in seen
    ensures exists k :: k in FirstPerMaster(js, seen) && k.left.master == j.left.master
  {
    if js[0] != j {
      var m := js[0].left.master;
      if m in seen {
        FirstPerMasterCovers(js[1..], seen, j);
      } else if m != j.left.master {
        FirstPerMasterCovers(js[1..], seen + {m}, j);
      }
    }
  }

  /** Each kept row is the first row of the join with its identifier. */
  predicate FirstOfItsMaster(js: seq<Joined>, j: Joined)
  {
    exists k :: 0 <= k < |js| && js[k] == j && forall k' :: 0 <= k' < k ==> js[k'].left.master != j.left.master
  }

  lemma {:induction false} FirstPerMasterKeepsFirst(js: seq<Joined>, seen: set<string>)
    ensures forall j :: j in FirstPerMaster(js, seen) ==> FirstOfItsMaster(js, j)
  {
    if js != [] {
      var m := js[0].left.master;
      var seen' := if m in seen then seen else seen + {m};
      FirstPerMasterKeepsFirst(js[1..], seen');
      forall j | j in FirstPerMaster(js[1..], seen')
        ensures FirstOfItsMaster(js, j)
      {
        var k :| 0 <= k < |js[1..]| && js[1..][k] == j && forall k' :: 0 <= k' < k ==> js[1..][k'].left.master != j.left.master;
        assert j.left.master !in seen';
        forall k' | 0 <= k' < k + 1
          ensures js[k'].left.master != j.left.master
        {
          if k' > 0 {
            assert js[k'] == js[1..][k' - 1];
          }
        }
      }
      if m !in seen {
        assert FirstOfItsMaster(js, js[0]);
      }
    }
  }

  /** The rows recovered spatially: rows whose identifier is not in the tax
      roll, joined to a tax parcel they intersect, one per identifier. */
  function Fallback(df: seq<Candidate>, tax: seq<TaxRow>, parcelIds: set<string>,
                    intersects: (Candidate, string) -> bool): seq<Joined>
  {
    FirstPerMaster(SpatialJoin(Unidentified(df, tax), TaxGeo(tax, parcelIds), intersects), {})
  }

  /** Raised by `validate='one_to_one'`. */
  datatype MergeError = NotOneToOne

  /** `merge_tax` on a tax roll whose identifiers are already normalised: the
      error when a tax identifier repeats; otherwise the identifier join (every
      pair of rows with equal identifiers, once per pair of copies) followed by the spatial fallback:
      rows the tax roll cannot identify, each joined to a tax parcel it
      intersects, one row per identifier and that the first pair the spatial
      join produced for it; every such row that meets some tax parcel with a
      geometry is represented. */
  function MergeTaxRows(df: seq<Candidate>, tax: seq<TaxRow>, parcelIds: set<string>,
                        intersects: (Candidate, string) -> bool): (r: Result<seq<Joined>, MergeError>)
    ensures r.Err? <==> exists i, k :: 0 <= i < k < |tax| && tax[i].master == tax[k].master
    ensures r.Ok? ==> |IdJoin(df, tax)| <= |r.value|
    ensures r.Ok? ==> forall j :: j in r.value[..|IdJoin(df, tax)|] <==>
      j.left in df && j.right in tax && j.left.master == j.right.master
    ensures r.Ok? ==> forall j :: multiset(r.value[..|IdJoin(df, tax)|])[j] == PairCount(df, tax, j)
    ensures r.Ok? ==> OnePerMaster(r.value[|IdJoin(df, tax)|..])
    ensures r.Ok? ==> forall j :: j in r.value[|IdJoin(df, tax)|..] ==>
      && j.left in df && (forall t :: t in tax ==> t.master != j.left.master)
      && j.right in tax && j.right.master in parcelIds && intersects(j.left, j.right.master)
    ensures r.Ok? ==> forall j :: j in r.value[|IdJoin(df, tax)|..] ==>
      FirstOfItsMaster(SpatialJoin(Unidentified(df, tax), TaxGeo(tax, parcelIds), intersects), j)
    ensures r.Ok? ==> forall l, t ::
      (&& l in df && (forall u :: u in tax ==> u.master != l.master)
       && t in tax && t.master in parcelIds && intersects(l, t.master)) ==>
      exists k :: k in r.value[|IdJoin(df, tax)|..] && k.left.master == l.master
  {
    IdJoinSpec(df, tax);
    IdJoinMultiset(df, tax);
    FallbackSpec(df, tax, parcelIds, intersects);
    var id := IdJoin(df, tax);
    var fb := Fallback(df, tax, parcelIds, intersects);
    assert (id + fb)[..|id|] == id && (id + fb)[|id|..] == fb;
    if !Tables.Distinct(Tables.Map(tax, TaxMaster)) then Err(NotOneToOne)
    else Ok(id + fb)
  }

  /** Since a merge that succeeds has one-to-one tax identifiers, its
      identifier part holds each matching pair once per copy of the left row. */
  lemma MergeTaxOneToOne(df: seq<Candidate>, tax: seq<TaxRow>, parcelIds: set<string>,
                         intersects: (Candidate, string) -> bool)
    ensures var r := MergeTaxRows(df, tax, parcelIds, intersects);
      r.Ok? ==> forall j: Joined :: j.right in tax && j.left.master == j.right.master ==>
        multiset(r.value[..|IdJoin(df, tax)|])[j] == multiset(df)[j.left]
  {
    var r := MergeTaxRows(df, tax, parcelIds, intersects);
    if r.Ok? {
      var id := r.value[..|IdJoin(df, tax)|];
      OneToOneAllOnce(tax);
      forall j: Joined | j.right in tax && j.left.master == j.right.master
        ensures multiset(id)[j] == multiset(df)[j.left]
      {
        assert multiset(tax)[j.right] == 1;
        assert multiset(id)[j] == PairCount(df, tax, j);
      }
    }
  }

  /** The spatial part: only rows whose identifier the tax roll lacks, each
      joined to a tax parcel with a geometry that it intersects, at most one
      row per identifier and that the first the spatial join produced; every
      such row that meets some tax parcel is represented. */
  lemma FallbackSpec(df: seq<Candidate>, tax: seq<TaxRow>, parcelIds: set<string>,
                     intersects: (Candidate, string) -> bool)
    ensures var fb := Fallback(df, tax, parcelIds, intersects);
      && OnePerMaster(fb)
      && (forall j :: j in fb ==>
            && j.left in df && (forall t :: t in tax ==> t.master != j.left.master)
            && j.right in tax && j.right.master in parcelIds && intersects(j.left, j.right.master)
            && FirstOfItsMaster(SpatialJoin(Unidentified(df, tax), TaxGeo(tax, parcelIds), intersects), j))
      && (forall l, t ::
            (l in df && (forall u :: u in tax ==> u.master != l.master)
             && t in tax && t.master in parcelIds && intersects(l, t.master)) ==>
            exists k :: k in fb && k.left.master == l.master)
  {
    var cant := Unidentified(df, tax);
    var geo := TaxGeo(tax, parcelIds);
    var sj := SpatialJoin(cant, geo, intersects);
    SpatialJoinSpec(cant, geo, intersects);
    FirstPerMasterKeepsFirst(sj, {});
    forall l | l in df
      ensures l in cant <==> forall u :: u in tax ==> u.master != l.master
    {
      forall u | u in tax
        ensures TaxMaster(u) in Tables.Map(tax, TaxMaster)
      {
        Tables.MapContains(tax, TaxMaster, TaxMaster(u));
      }
      Tables.MapContains(tax, TaxMaster, l.master);
    }
    forall l, t | l in df && (forall u :: u in tax ==> u.master != l.master)
        && t in tax && t.master in parcelIds && intersects(l, t.master)
      ensures exists k :: k in Fallback(df, tax, parcelIds, intersects) && k.left.master == l.master
    {
      assert Joined(l, t) in sj;
      FirstPerMasterCovers(sj, {}, Joined(l, t));
    }
  }

  // ----- Bluesky to parcels -----

  function HasId(m: string): Parcel -> bool
  {
    (p: Parcel) => p.mapblklot == m
  }

  function WithParcel(c: Candidate): Parcel -> GeoRow
  {
    (p: Parcel) => GeoRow(Some(p), c)
  }

  /** The rows the right merge produces for one candidate site. */
  function MatchesOf(parcels: seq<Parcel>, c: Candidate): seq<GeoRow>
  {
    var ms := Tables.Filter(parcels, HasId(c.master));
    if ms == [] then [GeoRow(None, c)] else Tables.Map(ms, WithParcel(c))
  }

  /** `parcels.merge(bluesky, left_on='mapblklot', right_on='MapBlkLot_Master', how='right')`. */
  function RightMerge(parcels: seq<Parcel>, bluesky: seq<Candidate>): seq<GeoRow>
  {
    if bluesky == [] then [] else MatchesOf(parcels, bluesky[0]) + RightMerge(parcels, bluesky[1..])
  }

  /** A merged row is what the right merge promises. */
  predicate Merged(parcels: seq<Parcel>, bluesky: seq<Candidate>, r: GeoRow)
  {
    && r.site in bluesky
    && (r.parcel.Some? ==> r.parcel.value in parcels && r.parcel.value.mapblklot == r.site.master)
    && (r.parcel.None? ==> forall p :: p in parcels ==> p.mapblklot != r.site.master)
  }

  /** Every site is kept: paired with each parcel bearing its identifier, or
      with no parcel when there is none. */
  lemma {:induction false} RightMergeSpec(parcels: seq<Parcel>, bluesky: seq<Candidate>)
    ensures forall r :: r in RightMerge(parcels, bluesky) <==> Merged(parcels, bluesky, r)
  {
    if bluesky != [] {
      var c := bluesky[0];
      RightMergeSpec(parcels, bluesky[1..]);
      var ms := Tables.Filter(parcels, HasId(c.master));
      forall r
        ensures r in MatchesOf(parcels, c) <==> r.site == c && Merged(parcels, [c], r)
      {
        if ms != [] {
          Tables.MapContains(ms, WithParcel(c), r);
          if r.site == c && r.parcel.None? {
            assert ms[0] in parcels;
          }
        } else {
          if r.site == c && r.parcel.Some? {
            assert r.parcel.value !in ms;
          }
        }
      }
      assert bluesky == [c] + bluesky[1..];
    }
  }

  /** Every site has at least one merged row. */
  lemma RightMergeKeepsSites(parcels: seq<Parcel>, bluesky: seq<Candidate>, c: Candidate)
    requires c in bluesky
    ensures exists r :: r in RightMerge(parcels, bluesky) && r.site == c
  {
    RightMergeSpec(parcels, bluesky);
    if exists p :: p in parcels && p.mapblklot == c.master {
      var p :| p in parcels && p.mapblklot == c.master;
      assert Merged(parcels, bluesky, GeoRow(Some(p), c));
    } else {
      assert Merged(parcels, bluesky, GeoRow(None, c));
    }
  }

  function MapAdded(r: GeoRow): Option<int>
  {
    if r.parcel.Some? then r.parcel.value.dateMapAdded else None
  }

  /** `a` sorts strictly before `b` under `sort_values(ascending=False)` with NaT last,
      compared on the years the records hold. */
  predicate Newer(a: Option<int>, b: Option<int>)
  {
    a.Some? && (b.None? || a.value > b.value)
  }

  /** The first row after sorting by map-added date, newest first, NaT last. */
  function MostRecent(rows: seq<GeoRow>): (r: GeoRow)
    requires |rows| > 0
    ensures r in rows
    ensures forall x :: x in rows ==> !Newer(MapAdded(x), MapAdded(r))
  {
    if |rows| == 1 then rows[0]
    else
      var best := MostRecent(rows[1..]);
      if Newer(MapAdded(best), MapAdded(rows[0])) then best else rows[0]
  }

  function ForMaster(m: string): GeoRow -> bool
  {
    (r: GeoRow) => r.site.master == m
  }

  /** The merged rows of one master identifier. */
  function RowsOf(geo: seq<GeoRow>, m: string): (rs: seq<GeoRow>)
    ensures forall r :: r in rs <==> r in geo && r.site.master == m
  {
    Tables.Filter(geo, ForMaster(m))
  }

  function MastersOf(geo: seq<GeoRow>): set<string>
  {
    set r | r in geo :: r.site.master
  }

  /** `sort_values('date_map_a', ascending=False).groupby('MapBlkLot_Master').nth(0)`. */
  function PrimaryRows(geo: seq<GeoRow>): (m: map<string, GeoRow>)
    ensures m.Keys == MastersOf(geo)
    ensures forall k :: k in m ==> m[k] in geo && m[k].site.master == k
    ensures forall k, x :: k in m && x in geo && x.site.master == k ==> !Newer(MapAdded(x), MapAdded(m[k]))
  {
    map k | k in MastersOf(geo) :: MasterHasRows(geo, k); MostRecent(RowsOf(geo, k))
  }

  lemma MasterHasRows(geo: seq<GeoRow>, k: string)
    requires k in MastersOf(geo)
    ensures |RowsOf(geo, k)| > 0
  {
    var r :| r in geo && r.site.master == k;
    assert r in RowsOf(geo, k);
  }

  /** `backup`: absent when the list has at most one element. */
  function Backup<T>(orig: seq<T>): Option<seq<T>>
  {
    if |orig| <= 1 then None else Some(orig)
  }

  function BlklotOf(r: GeoRow): Option<string>
  {
    if r.parcel.Some? then Some(r.parcel.value.blklot) else None
  }

  function GeometryOf(r: GeoRow): Option<Geometry>
  {
    if r.parcel.Some? then Some(r.parcel.value.geometry) else None
  }

  /** `transform_bluesky_to_geospatial` in pdev/clean_utils.py: one row per
      master identifier of the sites, namely a merged row of that identifier
      whose map-added date no other merged row of it beats (NaT counting as
      oldest). */
  function MostRecentLink(parcels: seq<Parcel>, bluesky: seq<Candidate>): (r: map<string, GeoRow>)
    ensures r.Keys == set c | c in bluesky :: c.master
    ensures forall k :: k in r ==> Merged(parcels, bluesky, r[k]) && r[k].site.master == k
    ensures forall k, x :: k in r && Merged(parcels, bluesky, x) && x.site.master == k ==>
      !Newer(MapAdded(x), MapAdded(r[k]))
  {
    RightMergeSpec(parcels, bluesky);
    MergedMasters(parcels, bluesky);
    PrimaryRows(RightMerge(parcels, bluesky))
  }

  lemma MergedMasters(parcels: seq<Parcel>, bluesky: seq<Candidate>)
    ensures MastersOf(RightMerge(parcels, bluesky)) == set c | c in bluesky :: c.master
  {
    RightMergeSpec(parcels, bluesky);
    forall c | c in bluesky
      ensures c.master in MastersOf(RightMerge(parcels, bluesky))
    {
      RightMergeKeepsSites(parcels, bluesky, c);
    }
  }

  /** A row of the root variant's result: the chosen row and the two backup lists. */
  datatype Linked = Linked(row: GeoRow, blklotBackup: Option<seq<Option<string>>>, geometryBackup: Option<seq<Option<Geometry>>>)

  /** `transform_bluesky_to_geospatial` in clean_utils.py: the chosen rows
      right-merged with the backup table, one backup list per column. */
  function LinkWithBackup(parcels: seq<Parcel>, bluesky: seq<Candidate>): (r: map<string, Linked>)
    ensures r.Keys == set c | c in bluesky :: c.master
    ensures forall k :: k in r ==> k in MostRecentLink(parcels, bluesky) && r[k].row == MostRecentLink(parcels, bluesky)[k]
    ensures forall k :: k in r ==> BackupOf(parcels, bluesky, k, BlklotOf, r[k].blklotBackup)
    ensures forall k :: k in r ==> BackupOf(parcels, bluesky, k, GeometryOf, r[k].geometryBackup)
  {
    var geo := RightMerge(parcels, bluesky);
    var primary := MostRecentLink(parcels, bluesky);
    var r := map k | k in primary ::
      Linked(primary[k],
             Backup(Tables.Unique(Tables.Map(RowsOf(geo, k), BlklotOf))),
             Backup(Tables.Unique(Tables.Map(RowsOf(geo, k), GeometryOf))));
    BackupsHold(parcels, bluesky, r);
    r
  }

  /** What the backup list `b` of column `f` promises for identifier `k`: it
      is absent exactly when all merged rows of `k` agree on the column, and
      otherwise lists each value the merged rows of `k` take, once, and has at
      least two entries. */
  ghost predicate BackupOf<T(!new)>(parcels: seq<Parcel>, bluesky: seq<Candidate>, k: string, f: GeoRow -> T, b: Option<seq<T>>)
  {
    && (b.None? <==>
          forall x, y :: Merged(parcels, bluesky, x) && x.site.master == k && Merged(parcels, bluesky, y) && y.site.master == k
            ==> f(x) == f(y))
    && (b.Some? ==>
          && Tables.Distinct(b.value) && |b.value| >= 2
          && forall v :: v in b.value <==> exists x :: Merged(parcels, bluesky, x) && x.site.master == k && f(x) == v)
  }

  lemma BackupsHold(parcels: seq<Parcel>, bluesky: seq<Candidate>, r: map<string, Linked>)
    requires forall k :: k in r ==>
      && r[k].blklotBackup == Backup(Tables.Unique(Tables.Map(RowsOf(RightMerge(parcels, bluesky), k), BlklotOf)))
      && r[k].geometryBackup == Backup(Tables.Unique(Tables.Map(RowsOf(RightMerge(parcels, bluesky), k), GeometryOf)))
    ensures forall k :: k in r ==> BackupOf(parcels, bluesky, k, BlklotOf, r[k].blklotBackup)
    ensures forall k :: k in r ==> BackupOf(parcels, bluesky, k, GeometryOf, r[k].geometryBackup)
  {
    forall k | k in r
      ensures BackupOf(parcels, bluesky, k, BlklotOf, r[k].blklotBackup)
      ensures BackupOf(parcels, bluesky, k, GeometryOf, r[k].geometryBackup)
    {
      BackupOfMerged(parcels, bluesky, k, BlklotOf);
      BackupOfMerged(parcels, bluesky, k, GeometryOf);
    }
  }

  lemma BackupOfMerged<T(!new)>(parcels: seq<Parcel>, bluesky: seq<Candidate>, k: string, f: GeoRow -> T)
    ensures BackupOf(parcels, bluesky, k, f, Backup(Tables.Unique(Tables.Map(RowsOf(RightMerge(parcels, bluesky), k), f))))
  {
    var rows := RowsOf(RightMerge(parcels, bluesky), k);
    RightMergeSpec(parcels, bluesky);
    assert forall x :: x in rows <==> Merged(parcels, bluesky, x) && x.site.master == k;
    BackupSpec(rows, f);
  }

  /** The backup list of a column is absent exactly when all rows of the
      identifier agree on it, and otherwise lists its distinct values. */
  lemma BackupSpec<T(!new)>(rows: seq<GeoRow>, f: GeoRow -> T)
    ensures var b := Backup(Tables.Unique(Tables.Map(rows, f)));
      && (b.None? <==> forall x, y :: x in rows && y in rows ==> f(x) == f(y))
      && (b.Some? ==> Tables.Distinct(b.value) && |b.value| >= 2)
      && (b.Some? ==> forall v :: v in b.value <==> exists x :: x in rows && f(x) == v)
  {
    var col := Tables.Map(rows, f);
    Tables.UniqueAtMostOne(col);
    if forall x, y :: x in rows && y in rows ==> f(x) == f(y) {
      forall i, j | 0 <= i < |col| && 0 <= j < |col|
        ensures col[i] == col[j]
      {
        assert rows[i] in rows && rows[j] in rows;
      }
    } else {
      var x, y :| x in rows && y in rows && f(x) != f(y);
      var i :| 0 <= i < |rows| && rows[i] == x;
      var j :| 0 <= j < |rows| && rows[j] == y;
      assert col[i] != col[j];
    }
    forall v
      ensures v in Tables.Unique(col) <==> exists x :: x in rows && f(x) == v
    {
      Tables.MapContains(rows, f, v);
    }
  }
}
