# Breadcrumb trail of the region browser

This project models the breadcrumb component of the region browser
(`BreadcrumbNavigation`). The component keeps a root-first trail of
`{id, name, hasSubregions}` entries that follows the selected region. Two
events change it:

- a **selection change** rebuilds the trail.
  - If the selected id is a root id (`null` or `0`), the trail becomes World
    alone, with id `null`, and nothing is fetched.
  - Otherwise the ancestors are fetched. The answer lists them from the
    selected region up to the top. It is reversed, and a synthetic World
    entry with id `0` is put in front.
  - An answer that is not an array is only logged, and the old trail stays.
    The ancestor lookup itself never produces such an answer on failure: it
    swallows transport errors (and a "no content" reply) and returns an empty
    array, which collapses the trail to World with id `0`
    (`EmptyAncestorsGiveWorldOnly`).
- a **click** on the entry at position `index`:
  - resolves that entry's tri-state `hasSubregions` flag;
  - writes `{id, name, hasSubregions}` as the new selection;
  - cuts the trail back to `slice(0, index + 1)`.

Files:

- `regions.dfy` (module `Regions`) holds the values:
  - `Region` is an entry or a selection;
  - `Flag` is `hasSubregions`, either `Undefined` or `Known(b)`;
  - `AncestorsResult` is `Arr(items)` or `NotArray`;
  - `RegionLookup` is `Ok(flag)` or `Threw`;
  - `Request` is one remote request the component issued.
- `trail.dfy` (module `Trail`) holds the trail as pure functions, with lemmas
  about them: `Rebuild`, `AncestorTrail`, `Truncate` and `ResolveHasSubregions`.
- `navigation.dfy` (module `Navigation`) holds the class
  `BreadcrumbNavigation`:
  - its fields are `trail`, `selectedRegion`, `hierarchyId` and a log of
    issued `requests`;
  - `FetchAndSetAncestors` and `HandleBreadcrumbClick` are its two handlers;
  - each handler is proved to compute exactly the pure function of the old
    state, and to keep the invariant `Valid()` (the trail is never empty and
    starts with a World entry);
  - the array reversal runs in place on an `array`, as `Array.prototype.reverse`
    does (`ReverseInPlace`);
  - `Scenario` is a client session that uses only the handlers' contracts.

Remote lookups are not calls. The handler that would make a lookup appends
the request, with the current hierarchy id, to `requests`. The lookup's
answer arrives as a parameter of that handler. "No lookup is made" therefore
means that `requests` is unchanged and the answer parameter is ignored.

The region lookup swallows its own transport errors and returns an empty
array. Reading `hasSubregions` from that array gives `undefined`, so a
transport failure reaches the click handler as `Ok(Undefined)`. The handler's
`catch` (which sets `false`) is modelled as `Threw`: reading the field throws,
for example on a null body. The model follows the code here. A general
statement that "a failed lookup yields `false`" is not what the code does, and
the contract of `ResolveHasSubregions` states exactly when each of the three values comes out.

## Model

| member | source | states |
|---|---|---|
| `Navigation.BreadcrumbNavigation.constructor` | frontend/src/components/BreadcrumbNavigation.jsx:9 | the initial trail is exactly one entry: World with id `null` and `hasSubregions` true, the same literal the effect writes for a root selection at line 22; no request has been issued |
| `Navigation.BreadcrumbNavigation.FetchAndSetAncestors` | frontend/src/components/BreadcrumbNavigation.jsx:11-26 | the new trail is `Rebuild` of the old trail, the selected id and the answer; it issues an ancestor request, scoped to the current hierarchy, exactly when the selected id is not a root id; the selection and hierarchy are unchanged; the trail still starts with World |
| `Navigation.BreadcrumbNavigation.HandleBreadcrumbClick` | frontend/src/components/BreadcrumbNavigation.jsx:28-48 | the selection becomes the clicked id and name, with the flag `ResolveHasSubregions` gives; the trail becomes `Truncate(old trail, index)`; when the click is on an entry of the trail (its position and id), the cut trail ends at an entry with the newly selected id; it issues a region request exactly when the clicked id is not a root id; the trail still starts with World |
| `Navigation.ReverseInPlace` | frontend/src/components/BreadcrumbNavigation.jsx:16 | after the in-place reversal, the array holds `Reversed` of its old contents |
| `Trail.Reversed` | frontend/src/components/BreadcrumbNavigation.jsx:16 | the reversal keeps the length, and position `k` holds the element at position `n-1-k` of the input |
| `Trail.AncestorTrail` | frontend/src/components/BreadcrumbNavigation.jsx:15-17 | a trail built from ancestors `A` has length `len(A)+1`; entry 0 is World with id `0`; entry `k` (for `1 <= k <= len(A)`) is `A[len(A)-k]` |
| `Trail.Rebuild` | frontend/src/components/BreadcrumbNavigation.jsx:13-23 | a rebuild of a trail that starts with a World entry gives a nonempty trail that starts with a World entry |
| `Trail.RootShortCircuit` | frontend/src/components/BreadcrumbNavigation.jsx:13-23 | for a root id (`null` or `0`), the trail becomes exactly `[World(null)]` (the initial trail's literal from line 9), whatever the old trail was and whatever a lookup would have answered |
| `Trail.RebuildFromArray` | frontend/src/components/BreadcrumbNavigation.jsx:13-17 | for a non-root id and an array answer `A`, the new trail has length `len(A)+1`, starts with World with id `0`, holds `A` in reverse after it, and does not depend on the old trail |
| `Trail.RebuildKeepsTrailOnMalformed` | frontend/src/components/BreadcrumbNavigation.jsx:15-20 | for a non-root id, an answer that is not an array leaves the trail exactly as it was |
| `Trail.RebuildIdempotent` | frontend/src/components/BreadcrumbNavigation.jsx:11-24 | resolving the same selection with the same answer twice in a row gives the same trail as resolving it once |
| `Trail.TrailEndsAtSelection` | frontend/src/components/BreadcrumbNavigation.jsx:13-17 | for a non-root id and an array answer whose first entry carries that id, the rebuilt trail's last entry is that answer entry, so its id is the selected id |
| `Trail.EmptyAncestorsGiveWorldOnly` | frontend/src/components/BreadcrumbNavigation.jsx:15-17 | for a non-root id, an empty array answer gives exactly `[World(0)]`, whatever the old trail was |
| `Trail.Truncate` | frontend/src/components/BreadcrumbNavigation.jsx:47 | the cut trail is a prefix of the old trail, of length `min(index+1, len(trail))`; when `index` is a position of the trail, the clicked entry is kept at its place; the first entry is kept |
| `Trail.TruncateTwice` | frontend/src/components/BreadcrumbNavigation.jsx:47 | two successive cuts at `i` and `j` equal one cut at `min(i, j)` |
| `Trail.TruncateMatchesRefetch` | frontend/src/components/BreadcrumbNavigation.jsx:47 | for `1 <= k <= len(A)`, cutting the trail of ancestors `A` back to entry `k` gives exactly the trail that the clicked entry's own ancestor chain builds, so the local cut agrees with the refetch that follows a consistent click |
| `Trail.RefetchAfterClickKeepsCut` | frontend/src/components/BreadcrumbNavigation.jsx:11-47 | after a click on the non-root entry at position `k` (for `1 <= k <= len(A)`) of the trail of ancestors `A`, the rebuild for the clicked id, answered with that entry's own ancestor chain, gives exactly the cut trail |
| `Trail.ClickWorldThenRefetch` | frontend/src/components/BreadcrumbNavigation.jsx:47 | clicking World (position 0) in an ancestor trail cuts it to `[World(0)]`, and the rebuild for id `0` that follows gives `[World(null)]`: the two World ids are two forms of the same root |
| `Trail.ResolveHasSubregions` | frontend/src/components/BreadcrumbNavigation.jsx:29-40 | the resolved flag is true exactly for a root id or a lookup answering true; it is false exactly when the lookup threw or answered false for a non-root id; it stays undefined exactly when the lookup answered without a value |

## Left out

- The HTTP layer behind both lookups (base URL, requests, status codes, error swallowing) is outside the model. Each lookup's answer is a parameter of the handler that would make it.
- Rendering of the trail (breadcrumb, typography and button components) is pure display and is not modelled.
- The selection store (`useNavigation`) is not part of this model. The selection and hierarchy are plain fields of the class, and other code may assign them.
- React's effect scheduling is not modelled. A selection change is an explicit call to `FetchAndSetAncestors`. The effect fires again on every new selection object, including the one a click writes.
- The handlers are `async`, so in the code their steps can interleave. Each handler is modelled as one atomic step. The code has no generation counter, so a late ancestor answer can overwrite a trail built for a newer selection. Discarding stale answers is therefore neither modelled nor claimed.
- The selected hierarchy is always present (`hierarchyId: int`). In the code, a missing hierarchy makes reading its id inside the `try` throw before any request is sent; the model's `Threw` always records the region request, so that case is not modelled.
- JavaScript values other than the ones the component distinguishes are not modelled. Ids are `null` or integers, and `hasSubregions` is undefined or a boolean. Strict equality with `null` and `0` is the only test the code applies.
- The `console.error` logging on a malformed ancestor answer and on a thrown region lookup is not modelled. Only the resulting state is.
