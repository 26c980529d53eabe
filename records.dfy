/**
 * The rows of the tables the pipeline works on, as they stand after
 * `clean_dates`: every date column holds the year of its timestamp or `None`
 * (NaT).  Columns the pipeline never reads are left out; geometries are
 * opaque identifiers.
 */
module Records {
  import opened Wrappers

  /** A polygon or point, compared only for equality. */
  type Geometry = nat

  /** A row of the parcel shapefile. */
  datatype Parcel = Parcel(
    mapblklot: string,
    blklot: string,
    geometry: Geometry,
    dateMapAdded: Option<int>,
    dateMapDeleted: Option<int>,
    dateRecAdded: Option<int>,
    dateRecDeleted: Option<int>)

  /** A row of the DBI building-permit table.  `units`, `blocklot` and
      `naExistingUnits` are the derived columns; they mean something only once
      the frame holding the row has them (`PermitFrame.hasUnits`). */
  datatype Permit = Permit(
    block: string,
    lot: string,
    permitType: int,
    proposedUnits: Option<int>,
    existingUnits: Option<int>,
    proposedUse: string,
    estimatedCost: Option<int>,
    statusDate: Option<int>,
    permitCreationDate: Option<int>,
    issuedDate: Option<int>,
    filedDate: Option<int>,
    completedDate: Option<int>,
    units: int,
    blocklot: string,
    naExistingUnits: bool)

  /** A row of an externally supplied table keyed by `MapBlkLot_Master`
      (the bluesky candidate sites, or the frame `merge_tax` links);
      `inInventory` is the column `get_site_inventory_feature` adds. */
  datatype Candidate = Candidate(
    master: string,
    geometry: Option<Geometry>,
    inInventory: Option<bool>)

  /** A row of the housing-element site inventory. */
  datatype Site = Site(
    rhnacyc: string,
    jurisdict: string,
    locapn: Option<string>,
    apn: Option<string>)

  /** A row of the tax roll; `master` is the column `merge_tax` (re)computes. */
  datatype TaxRow = TaxRow(prclid: string, master: string, assessedValue: Option<int>)

  /** A row of `merge_tax`'s result: a candidate with the tax row linked to it. */
  datatype Joined = Joined(left: Candidate, right: TaxRow)

  /** A row of the right merge of parcels onto candidate sites: no parcel when
      the site's identifier matched none. */
  datatype GeoRow = GeoRow(parcel: Option<Parcel>, site: Candidate)
}
