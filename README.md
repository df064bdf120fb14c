# Travelio map widget: marker state machine

This project models the interaction state of Travelio's `Map` component
(`app/components/Map.tsx`) and proves what its handlers do to it. The
widget holds four pieces of state: the selected destination (an optional
name), the placement-mode flag, the ordered list of custom markers the user
has placed, and the id allocator `nextMarkerId`, which starts at 1. The
handlers select a destination, toggle placement mode, place a marker on a
map click, remove one marker by id, and clear all markers.

Layout:

- `wrappers.dfy`, module `Wrappers`: `Option`, standing for the source's `T | null`.
- `markers.dfy`, module `Markers`: positions, the static destinations table,
  custom markers, JavaScript's `answer || fallback` for prompt answers
  (`Or`), the id filter used by removal (`RemoveById`), the marker-list
  invariant (`WellFormed`) and the lemmas about them.
- `map_widget.dfy`, module `MapComponent`: the class `MapWidget` with the
  four state fields and one method per handler. Each method states its whole
  new state, and `Valid()` (the invariant) is kept by every method. Client
  methods at the end replay usage scenarios: placing "Beach" at (10, 20);
  placing two markers and removing id 1; clearing then placing; removing the
  same id twice; toggling placement mode twice; selecting the same
  destination twice.

The invariant is that ids strictly increase in list order, every live id is
at least 1 and below `nextMarkerId`, and `nextMarkerId >= 1`. Pairwise distinctness of live
ids follows (`WellFormedIdsDistinct`).

"Clear all" (`app/components/Map.tsx:264-267`) resets the allocator to 1, so
ids are reused after a clear. The invariant therefore covers only live
markers.

## Model

| member | source | states |
|---|---|---|
| `Markers.Or` | app/components/Map.tsx:76-77 | a non-empty answer is kept as typed; a dismissed (null) or empty answer gives the fallback |
| `Markers.PlacedNameNonEmpty` | app/components/Map.tsx:76 | a placed marker's name is never empty, and it is "Custom Location" exactly when the answer was dismissed, empty or that very string |
| `Markers.NewMarker` | app/components/Map.tsx:76-84 | the placed marker carries the given id and position, its name is the name answer or "Custom Location" (never empty), and its description is the description answer or "" |
| `Markers.DestinationsAreKeyed` | app/components/Map.tsx:24-49 | the static table has four destinations whose ids and names are pairwise distinct |
| `Markers.RemoveById` | app/components/Map.tsx:93 | the filtered list is no longer than the input and no marker in it carries the removed id |
| `Markers.RemoveByIdMembers` | app/components/Map.tsx:93 | a marker survives removal if and only if it was in the list and its id differs from the removed one |
| `Markers.RemoveByIdSelects` | app/components/Map.tsx:93 | the result is the input read at exactly the positions whose id differs, in increasing order, so survivors keep their relative order |
| `Markers.RemoveAbsentId` | app/components/Map.tsx:92-94 | removing an id no marker carries leaves the list unchanged |
| `Markers.RemoveByIdIdempotent` | app/components/Map.tsx:92-94 | removing the same id twice equals removing it once |
| `Markers.RemovePresentDropsOne` | app/components/Map.tsx:92-94 | on a list that keeps the invariant, removing a live id shortens the list by exactly one |
| `Markers.WellFormedIdsDistinct` | app/components/Map.tsx:66-72 | under the invariant, live marker ids are pairwise distinct |
| `Markers.PlaceKeepsWellFormed` | app/components/Map.tsx:79-87 | appending a marker stamped with the allocator value and bumping the allocator keeps the invariant |
| `Markers.RemoveKeepsWellFormed` | app/components/Map.tsx:93 | filtering by id keeps the invariant under the same allocator value |
| `MapComponent.MapWidget.constructor` | app/components/Map.tsx:64-72 | initial state: nothing selected, not placing, no markers, allocator 1; the invariant holds |
| `MapComponent.MapWidget.SelectDestination` | app/components/Map.tsx:110 | the selection becomes the given name; mode, markers and allocator are unchanged |
| `MapComponent.MapWidget.TogglePlacementMode` | app/components/Map.tsx:248 | placement mode is negated; selection, markers and allocator are unchanged |
| `MapComponent.MapWidget.HandleMapClick` | app/components/Map.tsx:74-90 | outside placement mode nothing changes; in it, exactly one marker with the old allocator value, the clicked position and the defaulted name and description is appended after the unchanged old markers, the allocator grows by one and placement mode ends |
| `MapComponent.MapWidget.OnMapClick` | app/components/Map.tsx:52-61 | the click listener forwards only in placement mode, with the same resulting state as HandleMapClick |
| `MapComponent.MapWidget.RemoveCustomMarker` | app/components/Map.tsx:92-94 | the list becomes the id filter of the old list; allocator, mode and selection are unchanged; the invariant holds |
| `MapComponent.MapWidget.ClearAllCustomMarkers` | app/components/Map.tsx:259-267 | offered only while markers exist; leaves no markers and the allocator at 1, with mode and selection unchanged |
| `MapComponent.PlaceBeach` | app/components/Map.tsx:74-90 | one placement at (10, 20) named "Beach" with the description dismissed gives exactly that marker with id 1, allocator 2 and placement mode off |
| `MapComponent.PlaceTwoRemoveFirst` | app/components/Map.tsx:74-94 | after placing two markers and removing id 1, only the marker with id 2 is left and the allocator stays at 3 |
| `MapComponent.ClearThenPlace` | app/components/Map.tsx:259-267 | after clearing, the next placed marker gets id 1 and the allocator becomes 2 |
| `MapComponent.RemoveTwice` | app/components/Map.tsx:92-94 | two removals of the same id leave the list a single removal leaves |
| `MapComponent.ToggleTwice` | app/components/Map.tsx:248 | toggling twice restores placement mode; selection, markers and allocator are unchanged |
| `MapComponent.SelectTwice` | app/components/Map.tsx:110 | selecting the same name twice leaves it selected; mode, markers and allocator are unchanged |

## Left out

- Rendering: the JSX, CSS class choices and which panels are shown are not modelled. The one exception is the rule that "clear all" is offered only while markers exist; it is the precondition of `ClearAllCustomMarkers`.
- Leaflet and react-leaflet (map container, tiles, markers, popups, icons, event hooks) and the tile downloads are foreign library code and network I/O. The click listener is modelled only as the filter in `OnMapClick`.
- The two blocking `prompt()` calls are inputs: each handler call takes both answers as `Option<string>`, with `None` for a dismissed prompt.
- The "Plan Trip" buttons only write to the console and change no state, so they are not modelled.
- Latitude and longitude are JavaScript floats that are only stored. They are modelled as `real` pairs and never computed with.
- React's batching of state updates and its stale closures are not modelled. Each handler is one atomic transition.
- Marker ids are JavaScript numbers. They are modelled as unbounded integers; a session never places enough markers to reach the float precision limit.
- `app/page.tsx` is static markup plus a lazy import of the component, with no logic to model.
