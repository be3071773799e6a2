/**
 The breadcrumb component as an object: the trail it keeps, the selection it
 reads and writes, and the remote requests it issues. Each handler is one
 atomic step; the answer of a remote lookup is a parameter of the handler
 that issues it.
 */
module Navigation {
  import opened Regions
  import opened Trail

  /** Turns the order of `a` around in place, as `Array.prototype.reverse` does. */
  method ReverseInPlace<T>(a: array<T>)
    modifies a
    ensures a[..] == Reversed(old(a[..]))
  {
    var lo, hi := 0, a.Length;
    while lo + 1 < hi
      invariant 0 <= lo <= hi <= a.Length && lo + hi == a.Length
      invariant forall k :: 0 <= k < lo ==> a[k] == old(a[a.Length - 1 - k])
      invariant forall k :: hi <= k < a.Length ==> a[k] == old(a[a.Length - 1 - k])
      invariant forall k :: lo <= k < hi ==> a[k] == old(a[k])
      decreases hi - lo
    {
      a[lo], a[hi - 1] := a[hi - 1], a[lo];
      lo, hi := lo + 1, hi - 1;
    }
    ghost var before := old(a[..]);
    assert forall k :: 0 <= k < a.Length ==> a[..][k] == Reversed(before)[k];
  }

  class BreadcrumbNavigation {
    /** The entries shown, root first. */
    var trail: seq<Region>
    /** The selected region, shared with the rest of the application. */
    var selectedRegion: Region
    /** The id of the selected hierarchy, which scopes every lookup. */
    var hierarchyId: int
    /** Every remote request issued so far, oldest first. */
    var requests: seq<Request>

    /** The trail always starts with a World entry. */
    ghost predicate Valid()
      reads this
    {
      |trail| >= 1 && IsWorld(trail[0])
    }

    /** A freshly mounted component shows World alone, with id `null`. */
    constructor (selection: Region, hierarchy: int)
      ensures Valid()
      ensures trail == [Region(None, "World", Known(true))]
      ensures selectedRegion == selection && hierarchyId == hierarchy && requests == []
    {
      trail := [World(None)];
      selectedRegion := selection;
      hierarchyId := hierarchy;
      requests := [];
    }

    /**
     Reacts to a new selection. A root selection resets the trail to World
     alone without asking anything; otherwise the ancestors of the selected
     region are requested and `result` is the answer.
     */
    method FetchAndSetAncestors(result: AncestorsResult)
      requires Valid()
      modifies this
      ensures Valid()
      ensures trail == Rebuild(old(trail), selectedRegion.id, result)
      ensures selectedRegion == old(selectedRegion) && hierarchyId == old(hierarchyId)
      ensures requests == old(requests) +
        if IsRoot(selectedRegion.id) then [] else [FetchAncestors(selectedRegion.id.value, hierarchyId)]
    {
      var id := selectedRegion.id;
      if id != None && id != Some(0) {
        requests := requests + [FetchAncestors(id.value, hierarchyId)];
        match result
        case Arr(items) =>
          var fetched := new Region[|items|](i requires 0 <= i < |items| => items[i]);
          assert fetched[..] == items;
          ReverseInPlace(fetched);
          trail := [World(Some(0))] + fetched[..];
          assert trail == AncestorTrail(items);
        case NotArray =>
          // the answer is only logged; the previous trail stays
      } else {
        trail := [World(None)];
      }
    }

    /**
     Reacts to a click on the entry at position `index`, whose id and name
     are `regionId` and `regionName`. For a non-root entry the region is
     requested and `lookup` is what reading its `hasSubregions` produced.
     The selection becomes the clicked entry and the trail is cut back to it.
     */
    method HandleBreadcrumbClick(regionId: Option<int>, regionName: string, index: nat, lookup: RegionLookup)
      requires Valid()
      modifies this
      ensures Valid()
      ensures selectedRegion == Region(regionId, regionName, ResolveHasSubregions(regionId, lookup))
      ensures trail == Truncate(old(trail), index)
      ensures index < |old(trail)| && regionId == old(trail)[index].id ==>
        trail[|trail| - 1].id == selectedRegion.id
      ensures hierarchyId == old(hierarchyId)
      ensures requests == old(requests) +
        if IsRoot(regionId) then [] else [FetchRegion(regionId.value, hierarchyId)]
    {
      var hasSubregions: Flag;
      if regionId == None || regionId == Some(0) {
        hasSubregions := Known(true);
      } else {
        requests := requests + [FetchRegion(regionId.value, hierarchyId)];
        match lookup
        case Ok(flag) =>
          hasSubregions := flag;
        case Threw =>
          hasSubregions := Known(false);
      }
      selectedRegion := Region(regionId, regionName, hasSubregions);
      trail := trail[..Min(index + 1, |trail|)];
    }
  }

  /**
   A session: mount, select a country, click back to its continent (whose
   lookup throws), then let the selection change rebuild the trail.
   */
  method Scenario()
  {
    var world := Region(None, "World", Known(true));
    var europe := Region(Some(3), "Europe", Known(true));
    var france := Region(Some(12), "France", Known(true));
    var brittany := Region(Some(40), "Brittany", Known(false));

    var nav := new BreadcrumbNavigation(world, 1);
    nav.FetchAndSetAncestors(NotArray);
    assert nav.trail == [world] && nav.requests == [];

    nav.selectedRegion := brittany;
    nav.FetchAndSetAncestors(Arr([brittany, france, europe]));
    assert nav.trail == [Region(Some(0), "World", Known(true)), europe, france, brittany];
    assert nav.requests == [FetchAncestors(40, 1)];

    nav.FetchAndSetAncestors(NotArray);
    assert nav.trail == [Region(Some(0), "World", Known(true)), europe, france, brittany];

    nav.HandleBreadcrumbClick(europe.id, europe.name, 1, Threw);
    assert nav.selectedRegion == Region(Some(3), "Europe", Known(false));
    assert nav.trail == [Region(Some(0), "World", Known(true)), europe];

    nav.FetchAndSetAncestors(Arr([europe]));
    assert nav.trail == [Region(Some(0), "World", Known(true)), europe];

    nav.HandleBreadcrumbClick(Some(0), "World", 0, Threw);
    assert nav.selectedRegion == Region(Some(0), "World", Known(true));
    nav.FetchAndSetAncestors(NotArray);
    assert nav.trail == [world];
    assert nav.requests == [FetchAncestors(40, 1), FetchAncestors(40, 1), FetchRegion(3, 1), FetchAncestors(3, 1)];
  }
}
