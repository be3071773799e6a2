/**
 The breadcrumb trail as a value: how it is rebuilt after a selection change,
 how it is cut back when an entry is clicked, and how the clicked entry's
 `hasSubregions` flag is resolved. The component in module Navigation is
 proved to compute exactly these values.
 */
module Trail {
  import opened Regions

  function Min(a: int, b: int): (m: int)
  {
    if a <= b then a else b
  }

  /** The order of `s` turned around, as `Array.prototype.reverse` leaves it. */
  function Reversed<T>(s: seq<T>): (r: seq<T>)
    ensures |r| == |s|
    ensures forall k :: 0 <= k < |s| ==> r[k] == s[|s| - 1 - k]
  {
    if s == [] then [] else [s[|s| - 1]] + Reversed(s[..|s| - 1])
  }

  /** The trail shown when the root is selected: World alone, with id `null`. */
  function RootTrail(): seq<Region>
  {
    [World(None)]
  }

  /**
   The trail built from an ancestor array, which the lookup lists from the
   selected region up to the topmost ancestor: a World root with id `0`,
   then the ancestors from the top down.
   */
  function AncestorTrail(ancestors: seq<Region>): (t: seq<Region>)
    ensures |t| == |ancestors| + 1
    ensures IsWorld(t[0]) && t[0].id == Some(0)
    ensures forall k :: 1 <= k <= |ancestors| ==> t[k] == ancestors[|ancestors| - k]
  {
    [World(Some(0))] + Reversed(ancestors)
  }

  /**
   The trail after the selection moved to `id`, given the trail before and the
   ancestor lookup's answer (which is never asked for, and so ignored, when
   `id` is a root id).
   */
  function Rebuild(trail: seq<Region>, id: Option<int>, result: AncestorsResult): (t: seq<Region>)
    ensures |trail| >= 1 && IsWorld(trail[0]) ==> |t| >= 1 && IsWorld(t[0])
  {
    if IsRoot(id) then RootTrail()
    else match result
      case Arr(items) => AncestorTrail(items)
      case NotArray => trail
  }

  /** The trail cut back to the entries up to and including position `index`. */
  function Truncate(trail: seq<Region>, index: nat): (t: seq<Region>)
    ensures |t| == Min(index + 1, |trail|)
    ensures t <= trail
    ensures index < |trail| ==> t[index] == trail[index]
    ensures |trail| >= 1 ==> |t| >= 1 && t[0] == trail[0]
  {
    trail[..Min(index + 1, |trail|)]
  }

  /**
   The `hasSubregions` flag a click on an entry with id `id` writes into the
   selection: `true` exactly for root ids or a lookup answering `true`,
   `false` exactly when a non-root lookup threw or answered `false`, and
   still undefined exactly when the lookup answered without a value.
   */
  function ResolveHasSubregions(id: Option<int>, lookup: RegionLookup): (f: Flag)
    ensures f == Known(true) <==> IsRoot(id) || lookup == Ok(Known(true))
    ensures f == Known(false) <==> !IsRoot(id) && (lookup.Threw? || lookup == Ok(Known(false)))
    ensures f == Undefined <==> !IsRoot(id) && lookup == Ok(Undefined)
  {
    if IsRoot(id) then Known(true)
    else match lookup
      case Ok(flag) => flag
      case Threw => Known(false)
  }

  /** A root selection gives the World-only trail, whatever the old trail and whatever a lookup would have said. */
  lemma RootShortCircuit(trail: seq<Region>, trail': seq<Region>, id: Option<int>, result: AncestorsResult, result': AncestorsResult)
    requires IsRoot(id)
    ensures Rebuild(trail, id, result) == Rebuild(trail', id, result') == [World(None)]
  {
  }

  /** A non-root selection with an array answer gives World (id 0) followed by the reversed answer; the old trail plays no part. */
  lemma RebuildFromArray(trail: seq<Region>, id: Option<int>, ancestors: seq<Region>)
    requires !IsRoot(id)
    ensures var t := Rebuild(trail, id, Arr(ancestors));
      && |t| == |ancestors| + 1
      && t[0] == World(Some(0))
      && (forall k :: 1 <= k <= |ancestors| ==> t[k] == ancestors[|ancestors| - k])
  {
  }

  /** An answer that is not an array leaves the trail exactly as it was. */
  lemma RebuildKeepsTrailOnMalformed(trail: seq<Region>, id: Option<int>)
    requires !IsRoot(id)
    ensures Rebuild(trail, id, NotArray) == trail
  {
  }

  /** Resolving the same selection with the same answer twice in a row gives the same trail as once. */
  lemma RebuildIdempotent(trail: seq<Region>, id: Option<int>, result: AncestorsResult)
    ensures Rebuild(Rebuild(trail, id, result), id, result) == Rebuild(trail, id, result)
  {
  }

  /**
   When the lookup lists the selected region first, as the ancestor chain
   does, the rebuilt trail ends at the entry the lookup gave for the selected
   id. (The whole record can differ from the selection: a click whose lookup
   threw selects the region with `false`, whatever the server says.)
   */
  lemma TrailEndsAtSelection(trail: seq<Region>, id: Option<int>, ancestors: seq<Region>)
    requires !IsRoot(id) && |ancestors| >= 1 && ancestors[0].id == id
    ensures var t := Rebuild(trail, id, Arr(ancestors));
      t[|t| - 1] == ancestors[0] && t[|t| - 1].id == id
  {
  }

  /**
   A lookup that found no ancestors (the empty array the ancestor lookup also
   hands back on a transport failure) collapses the trail to World with id
   `0`, whatever the old trail was.
   */
  lemma EmptyAncestorsGiveWorldOnly(trail: seq<Region>, id: Option<int>)
    requires !IsRoot(id)
    ensures Rebuild(trail, id, Arr([])) == [World(Some(0))]
  {
  }

  /** Two successive cuts keep as much as the shorter one. */
  lemma TruncateTwice(trail: seq<Region>, i: nat, j: nat)
    ensures Truncate(Truncate(trail, i), j) == Truncate(trail, Min(i, j))
  {
  }

  /**
   Cutting the trail of a region's ancestor chain back to the entry at
   position `k` gives exactly the trail the ancestor chain of that entry
   builds: the chain's last `k` regions. The local cut therefore never keeps
   an entry a refetch for the clicked region would drop.
   */
  lemma TruncateMatchesRefetch(ancestors: seq<Region>, k: nat)
    requires 1 <= k <= |ancestors|
    ensures Truncate(AncestorTrail(ancestors), k) == AncestorTrail(ancestors[|ancestors| - k..])
  {
  }

  /**
   After a click on the non-root entry at position `k` of an ancestor trail,
   the refetch for the clicked region, answered with that region's own
   ancestor chain, rebuilds exactly the trail the click cut back to.
   */
  lemma RefetchAfterClickKeepsCut(ancestors: seq<Region>, k: nat)
    requires 1 <= k <= |ancestors| && !IsRoot(ancestors[|ancestors| - k].id)
    ensures var cut := Truncate(AncestorTrail(ancestors), k);
      Rebuild(cut, ancestors[|ancestors| - k].id, Arr(ancestors[|ancestors| - k..])) == cut
  {
    TruncateMatchesRefetch(ancestors, k);
  }

  /**
   Clicking the World entry of an ancestor trail is where the local cut and
   the refetch disagree: the cut keeps World with id `0`, and the rebuild
   for the root id `0` that follows replaces it with World with id `null`.
   */
  lemma ClickWorldThenRefetch(ancestors: seq<Region>, result: AncestorsResult)
    ensures Truncate(AncestorTrail(ancestors), 0) == [World(Some(0))]
    ensures Rebuild(Truncate(AncestorTrail(ancestors), 0), Some(0), result) == [World(None)]
  {
  }
}
