/** The map widget's interaction state and the handlers that change it:
    destination selection, the placement-mode toggle, placing a marker on a
    map click, removing one marker and clearing them all. Each handler is one
    atomic transition of the widget's four state fields. */
module MapComponent {

  import opened Wrappers
  import opened Markers

  class MapWidget {
    /** Name of the highlighted destination, if any. */
    var selectedDestination: Option<string>
    /** Whether the next map click places a custom marker. */
    var isPlacingMarker: bool
    /** The user's markers, oldest first. */
    var customMarkers: seq<CustomMarker>
    /** The id the next placed marker receives. */
    var nextMarkerId: int

    /** The marker list and the id allocator agree: ids strictly increase
        along the list, all are at least 1 and below the allocator, and the
        allocator is at least 1. */
    ghost predicate Valid()
      reads this
    {
      WellFormed(customMarkers, nextMarkerId)
    }

    /** The widget's initial state. */
    constructor ()
      ensures Valid()
      ensures selectedDestination == None && !isPlacingMarker
      ensures customMarkers == [] && nextMarkerId == 1
    {
      selectedDestination := None;
      isPlacingMarker := false;
      customMarkers := [];
      nextMarkerId := 1;
    }

    /** Highlights the destination called `name`; nothing else changes. */
    method SelectDestination(name: string)
      requires Valid()
      modifies this`selectedDestination
      ensures Valid()
      ensures selectedDestination == Some(name)
      ensures isPlacingMarker == old(isPlacingMarker)
      ensures customMarkers == old(customMarkers) && nextMarkerId == old(nextMarkerId)
    {
      selectedDestination := Some(name);
    }

    /** Enters placement mode, or cancels it; nothing else changes. */
    method TogglePlacementMode()
      requires Valid()
      modifies this`isPlacingMarker
      ensures Valid()
      ensures isPlacingMarker == !old(isPlacingMarker)
      ensures selectedDestination == old(selectedDestination)
      ensures customMarkers == old(customMarkers) && nextMarkerId == old(nextMarkerId)
    {
      isPlacingMarker := !isPlacingMarker;
    }

    /** A click at (lat, lng). Outside placement mode it does nothing. In
        placement mode it appends one marker stamped with the allocator's
        value, named and described from the two prompt answers, bumps the
        allocator and leaves placement mode. */
    method HandleMapClick(lat: real, lng: real, nameAnswer: Option<string>,
                          descriptionAnswer: Option<string>)
      requires Valid()
      modifies this
      ensures Valid()
      ensures selectedDestination == old(selectedDestination)
      ensures old(isPlacingMarker) ==>
        && customMarkers == old(customMarkers)
             + [NewMarker(old(nextMarkerId), LatLng(lat, lng), nameAnswer, descriptionAnswer)]
        && nextMarkerId == old(nextMarkerId) + 1
        && !isPlacingMarker
      ensures !old(isPlacingMarker) ==>
        && customMarkers == old(customMarkers)
        && nextMarkerId == old(nextMarkerId)
        && isPlacingMarker == old(isPlacingMarker)
    {
      if isPlacingMarker {
        var newMarker := NewMarker(nextMarkerId, LatLng(lat, lng), nameAnswer, descriptionAnswer);
        PlaceKeepsWellFormed(customMarkers, nextMarkerId, newMarker);
        customMarkers := customMarkers + [newMarker];
        nextMarkerId := nextMarkerId + 1;
        isPlacingMarker := false;
      }
    }

    /** The map's click listener: forwards a click to HandleMapClick only
        while placement mode is on. */
    method OnMapClick(lat: real, lng: real, nameAnswer: Option<string>,
                      descriptionAnswer: Option<string>)
      requires Valid()
      modifies this
      ensures Valid()
      ensures selectedDestination == old(selectedDestination)
      ensures old(isPlacingMarker) ==>
        && customMarkers == old(customMarkers)
             + [NewMarker(old(nextMarkerId), LatLng(lat, lng), nameAnswer, descriptionAnswer)]
        && nextMarkerId == old(nextMarkerId) + 1
        && !isPlacingMarker
      ensures !old(isPlacingMarker) ==>
        && customMarkers == old(customMarkers)
        && nextMarkerId == old(nextMarkerId)
        && isPlacingMarker == old(isPlacingMarker)
    {
      if isPlacingMarker {
        HandleMapClick(lat, lng, nameAnswer, descriptionAnswer);
      }
    }

    /** Drops every marker whose id is `markerId`, keeping the others in
        order; the allocator, the mode and the selection do not change. */
    method RemoveCustomMarker(markerId: int)
      requires Valid()
      modifies this`customMarkers
      ensures Valid()
      ensures customMarkers == RemoveById(old(customMarkers), markerId)
      ensures nextMarkerId == old(nextMarkerId) && isPlacingMarker == old(isPlacingMarker)
      ensures selectedDestination == old(selectedDestination)
    {
      RemoveKeepsWellFormed(customMarkers, nextMarkerId, markerId);
      customMarkers := RemoveById(customMarkers, markerId);
    }

    /** The "clear all" button, shown only while there are markers: empties
        the list and restarts the allocator at 1. */
    method ClearAllCustomMarkers()
      requires Valid()
      requires customMarkers != []
      modifies this`customMarkers, this`nextMarkerId
      ensures Valid()
      ensures customMarkers == [] && nextMarkerId == 1
      ensures isPlacingMarker == old(isPlacingMarker)
      ensures selectedDestination == old(selectedDestination)
    {
      customMarkers := [];
      nextMarkerId := 1;
    }
  }

  /** A fresh widget, placement mode on, one click at (10, 20) answered
      "Beach" with the description prompt dismissed. */
  method PlaceBeach() returns (w: MapWidget)
    ensures w.customMarkers == [CustomMarker(1, LatLng(10.0, 20.0), "Beach", "")]
    ensures w.nextMarkerId == 2 && !w.isPlacingMarker
  {
    w := new MapWidget();
    w.TogglePlacementMode();
    w.HandleMapClick(10.0, 20.0, Some("Beach"), None);
  }

  /** Two markers placed, then the first removed: only the second is left
      and its id is not handed out again. */
  method PlaceTwoRemoveFirst(p: LatLng, q: LatLng) returns (w: MapWidget)
    ensures w.customMarkers == [CustomMarker(2, q, DefaultMarkerName, "")]
    ensures w.nextMarkerId == 3
  {
    w := new MapWidget();
    w.TogglePlacementMode();
    w.HandleMapClick(p.lat, p.lng, None, None);
    w.TogglePlacementMode();
    w.HandleMapClick(q.lat, q.lng, Some(""), Some(""));
    w.RemoveCustomMarker(1);
    assert w.customMarkers == RemoveById([CustomMarker(2, q, DefaultMarkerName, "")], 1);
  }

  /** After clearing, the next placed marker gets id 1 again. */
  method ClearThenPlace(w: MapWidget, lat: real, lng: real,
                        nameAnswer: Option<string>, descriptionAnswer: Option<string>)
    requires w.Valid() && w.customMarkers != []
    modifies w
    ensures w.Valid()
    ensures w.customMarkers == [NewMarker(1, LatLng(lat, lng), nameAnswer, descriptionAnswer)]
    ensures w.nextMarkerId == 2 && !w.isPlacingMarker
  {
    w.ClearAllCustomMarkers();
    if !w.isPlacingMarker {
      w.TogglePlacementMode();
    }
    w.HandleMapClick(lat, lng, nameAnswer, descriptionAnswer);
  }

  /** Removing the same id twice leaves the list as removing it once does. */
  method RemoveTwice(w: MapWidget, markerId: int)
    requires w.Valid()
    modifies w
    ensures w.Valid()
    ensures w.customMarkers == RemoveById(old(w.customMarkers), markerId)
  {
    w.RemoveCustomMarker(markerId);
    w.RemoveCustomMarker(markerId);
    RemoveByIdIdempotent(old(w.customMarkers), markerId);
  }

  /** Toggling placement mode twice restores it; nothing else changes. */
  method ToggleTwice(w: MapWidget)
    requires w.Valid()
    modifies w`isPlacingMarker
    ensures w.Valid()
    ensures w.isPlacingMarker == old(w.isPlacingMarker)
    ensures w.selectedDestination == old(w.selectedDestination)
    ensures w.customMarkers == old(w.customMarkers) && w.nextMarkerId == old(w.nextMarkerId)
  {
    w.TogglePlacementMode();
    w.TogglePlacementMode();
  }

  /** Selecting the same destination twice keeps it selected; nothing else
      changes. */
  method SelectTwice(w: MapWidget, name: string)
    requires w.Valid()
    modifies w`selectedDestination
    ensures w.Valid()
    ensures w.selectedDestination == Some(name)
    ensures w.isPlacingMarker == old(w.isPlacingMarker)
    ensures w.customMarkers == old(w.customMarkers) && w.nextMarkerId == old(w.nextMarkerId)
  {
    w.SelectDestination(name);
    w.SelectDestination(name);
  }
}
