/**
 The values the breadcrumb component works with: regions as they appear in
 the trail and in the selection, the tri-state `hasSubregions` flag, the
 answers of the two remote lookups, and the requests the component issues.
 */
module Regions {

  /** A JavaScript id: `None` stands for `null`; `Some(0)` is the World root. */
  datatype Option<T> = None | Some(value: T)

  /** `hasSubregions` is tri-state: `undefined` until resolved, then a boolean. */
  datatype Flag = Undefined | Known(value: bool)

  /** A `{id, name, hasSubregions}` record, used both for trail entries and for the selection. */
  datatype Region = Region(id: Option<int>, name: string, hasSubregions: Flag)

  /** What the ancestor lookup handed back: an array of regions, or anything that is not an array. */
  datatype AncestorsResult = Arr(items: seq<Region>) | NotArray

  /**
   What reading `hasSubregions` off the region lookup produced: a value
   (`Undefined` when the returned object has no such field, as with the empty
   array the lookup substitutes for a transport failure), or an exception.
   */
  datatype RegionLookup = Ok(hasSubregions: Flag) | Threw

  /** A remote request the component issues, with the hierarchy it is scoped to. */
  datatype Request =
    | FetchAncestors(regionId: int, hierarchyId: int)
    | FetchRegion(regionId: int, hierarchyId: int)

  /** The two ids that denote the World root: `null` and `0`. */
  predicate IsRoot(id: Option<int>)
  {
    id == None || id == Some(0)
  }

  /** The synthetic World entry with the given root id. */
  function World(id: Option<int>): Region
    requires IsRoot(id)
  {
    Region(id, "World", Known(true))
  }

  /** An entry is a World entry when it has a root id, the name World and children. */
  predicate IsWorld(e: Region)
  {
    IsRoot(e.id) && e.name == "World" && e.hasSubregions == Known(true)
  }
}
