/** Values of the map widget: positions, the predefined destinations, custom
    markers, and the list operations the widget's handlers apply to its
    marker list, with the invariant those operations keep. */
module Markers {

  import opened Wrappers

  /** A latitude/longitude pair. The widget only stores positions and hands
      them to the map library; it never computes with them. */
  datatype LatLng = LatLng(lat: real, lng: real)

  /** One entry of the static destinations table. */
  datatype Destination = Destination(id: int, name: string, position: LatLng, description: string)

  /** A marker the user placed on the map. */
  datatype CustomMarker = CustomMarker(id: int, position: LatLng, name: string, description: string)

  /** Name a placed marker gets when the name prompt is dismissed or left empty. */
  const DefaultMarkerName: string := "Custom Location"

  /** Description a placed marker gets when the description prompt is dismissed or left empty. */
  const DefaultMarkerDescription: string := ""

  /** The four predefined destinations, in display order. */
  const Destinations: seq<Destination> := [
    Destination(1, "London", LatLng(51.505, -0.09),
                "The capital of England and the United Kingdom"),
    Destination(2, "Paris", LatLng(48.8566, 2.3522),
                "The City of Light, capital of France"),
    Destination(3, "New York", LatLng(40.7128, -74.0060),
                "The Big Apple, a global center of culture and commerce"),
    Destination(4, "Tokyo", LatLng(35.6762, 139.6503),
                "The capital of Japan, a blend of tradition and innovation")
  ]

  /** The table's ids are distinct and so are its names, so at most one
      entry's name can equal the selected name. */
  lemma DestinationsAreKeyed()
    ensures |Destinations| == 4
    ensures forall i, j :: 0 <= i < j < |Destinations| ==>
      Destinations[i].id != Destinations[j].id && Destinations[i].name != Destinations[j].name
  {
  }

  /** The string a prompt contributes under `answer || fallback`: a
      dismissed prompt (null) and an empty answer are both falsy, so they
      give the fallback; any other answer is kept as typed. */
  function Or(answer: Option<string>, fallback: string): (r: string)
    ensures answer.Some? && answer.value != "" ==> r == answer.value
    ensures answer.None? || answer.value == "" ==> r == fallback
  {
    match answer
    case Some(s) => if s != "" then s else fallback
    case None => fallback
  }

  /** A placed marker's name is never empty: every path through `Or` with
      the non-empty default yields a non-empty string. */
  lemma PlacedNameNonEmpty(answer: Option<string>)
    ensures Or(answer, DefaultMarkerName) != ""
    ensures Or(answer, DefaultMarkerName) == DefaultMarkerName <==>
      answer.None? || answer.value == "" || answer.value == DefaultMarkerName
  {
  }

  /** The marker the widget builds for a click at `pos` with the given
      prompt answers, stamped with the allocator's current value. */
  function NewMarker(id: int, pos: LatLng, nameAnswer: Option<string>,
                     descriptionAnswer: Option<string>): (r: CustomMarker)
    ensures r.id == id && r.position == pos
    ensures r.name == Or(nameAnswer, DefaultMarkerName) && r.name != ""
    ensures r.description == Or(descriptionAnswer, DefaultMarkerDescription)
  {
    CustomMarker(id, pos, Or(nameAnswer, DefaultMarkerName),
                 Or(descriptionAnswer, DefaultMarkerDescription))
  }

  /** The marker list with every marker whose id is `id` filtered out. */
  function RemoveById(ms: seq<CustomMarker>, id: int): (r: seq<CustomMarker>)
    ensures |r| <= |ms|
    ensures forall k :: 0 <= k < |r| ==> r[k].id != id
  {
    if ms == [] then []
    else if ms[0].id == id then RemoveById(ms[1..], id)
    else [ms[0]] + RemoveById(ms[1..], id)
  }

  /** The markers RemoveById keeps are exactly the markers of `ms` whose id
      differs from `id`. */
  lemma {:induction false} RemoveByIdMembers(ms: seq<CustomMarker>, id: int)
    ensures forall m :: m in RemoveById(ms, id) <==> m in ms && m.id != id
  {
    if ms != [] {
      RemoveByIdMembers(ms[1..], id);
      assert ms == [ms[0]] + ms[1..];
    }
  }

  /** RemoveById keeps the surviving markers in their original relative
      order: `idx` lists, in increasing order, exactly the positions of
      `ms` whose id differs from `id`, and the result is `ms` read at
      those positions. */
  lemma {:induction false} RemoveByIdSelects(ms: seq<CustomMarker>, id: int) returns (idx: seq<nat>)
    ensures |idx| == |RemoveById(ms, id)|
    ensures forall k :: 0 <= k < |idx| ==> idx[k] < |ms| && RemoveById(ms, id)[k] == ms[idx[k]]
    ensures forall k, l :: 0 <= k < l < |idx| ==> idx[k] < idx[l]
    ensures forall i :: i in idx <==> 0 <= i < |ms| && ms[i].id != id
  {
    if ms == [] {
      idx := [];
    } else {
      var tail := RemoveByIdSelects(ms[1..], id);
      var rest := RemoveById(ms[1..], id);
      assert IsSelection(ms[1..], id, rest, tail);
      if ms[0].id == id {
        SelectionDropHead(ms, id, rest, tail);
        idx := ShiftUp(tail);
        assert RemoveById(ms, id) == rest;
      } else {
        SelectionKeepHead(ms, id, rest, tail);
        idx := [0] + ShiftUp(tail);
        assert RemoveById(ms, id) == [ms[0]] + rest;
      }
    }
  }

  /** `r` is `ms` read at the increasing positions `idx`, which are exactly
      the positions whose marker id differs from `id`. */
  ghost predicate IsSelection(ms: seq<CustomMarker>, id: int, r: seq<CustomMarker>, idx: seq<nat>)
  {
    && |idx| == |r|
    && (forall k :: 0 <= k < |idx| ==> idx[k] < |ms| && r[k] == ms[idx[k]])
    && (forall k, l :: 0 <= k < l < |idx| ==> idx[k] < idx[l])
    && (forall i :: i in idx <==> 0 <= i < |ms| && ms[i].id != id)
  }

  /** A head whose id is removed contributes no position. */
  lemma SelectionDropHead(ms: seq<CustomMarker>, id: int, rest: seq<CustomMarker>, tail: seq<nat>)
    requires ms != [] && ms[0].id == id
    requires IsSelection(ms[1..], id, rest, tail)
    ensures IsSelection(ms, id, rest, ShiftUp(tail))
  {
    var idx := ShiftUp(tail);
    forall k | 0 <= k < |idx| ensures idx[k] < |ms| && rest[k] == ms[idx[k]] {
      assert rest[k] == ms[1..][tail[k]];
    }
    forall i ensures i in idx <==> 0 <= i < |ms| && ms[i].id != id {
      if i != 0 {
        assert i - 1 in tail <==> 0 <= i - 1 < |ms[1..]| && ms[1..][i - 1].id != id;
      }
    }
  }

  /** A head whose id is kept contributes position 0. */
  lemma SelectionKeepHead(ms: seq<CustomMarker>, id: int, rest: seq<CustomMarker>, tail: seq<nat>)
    requires ms != [] && ms[0].id != id
    requires IsSelection(ms[1..], id, rest, tail)
    ensures IsSelection(ms, id, [ms[0]] + rest, [0] + ShiftUp(tail))
  {
    KeepHeadReads(ms, rest, tail);
    KeepHeadIncreasing(tail);
    KeepHeadPositions(ms, id, tail);
  }

  /** Reading through the extended positions gives the extended list. */
  lemma KeepHeadReads(ms: seq<CustomMarker>, rest: seq<CustomMarker>, tail: seq<nat>)
    requires ms != [] && |tail| == |rest|
    requires forall k :: 0 <= k < |tail| ==> tail[k] < |ms| - 1 && rest[k] == ms[1..][tail[k]]
    ensures forall k :: 0 <= k < |tail| + 1 ==>
      ([0] + ShiftUp(tail))[k] < |ms| && ([ms[0]] + rest)[k] == ms[([0] + ShiftUp(tail))[k]]
  {
    var r := [ms[0]] + rest;
    var idx := [0] + ShiftUp(tail);
    forall k | 0 <= k < |idx| ensures idx[k] < |ms| && r[k] == ms[idx[k]] {
      if k > 0 {
        assert idx[k] == tail[k - 1] + 1;
        assert r[k] == rest[k - 1] == ms[1..][tail[k - 1]];
      }
    }
  }

  /** Prefixing 0 to shifted increasing positions keeps them increasing. */
  lemma KeepHeadIncreasing(tail: seq<nat>)
    requires forall k, l :: 0 <= k < l < |tail| ==> tail[k] < tail[l]
    ensures forall k, l :: 0 <= k < l < |tail| + 1 ==> ([0] + ShiftUp(tail))[k] < ([0] + ShiftUp(tail))[l]
  {
    var idx := [0] + ShiftUp(tail);
    forall k, l | 0 <= k < l < |idx| ensures idx[k] < idx[l] {
      assert idx[l] == tail[l - 1] + 1;
      if k > 0 { assert idx[k] == tail[k - 1] + 1; }
    }
  }

  /** The extended positions are exactly those of `ms` whose id differs. */
  lemma KeepHeadPositions(ms: seq<CustomMarker>, id: int, tail: seq<nat>)
    requires ms != [] && ms[0].id != id
    requires forall i :: i in tail <==> 0 <= i < |ms[1..]| && ms[1..][i].id != id
    ensures forall i :: i in [0] + ShiftUp(tail) <==> 0 <= i < |ms| && ms[i].id != id
  {
    var shifted := ShiftUp(tail);
    forall i ensures i in [0] + shifted <==> 0 <= i < |ms| && ms[i].id != id {
      if i != 0 {
        assert i in [0] + shifted <==> i in shifted;
        assert i - 1 in tail <==> 0 <= i - 1 < |ms[1..]| && ms[1..][i - 1].id != id;
      }
    }
  }

  /** Every entry of `idx` plus one, in the same order. */
  function ShiftUp(idx: seq<nat>): (r: seq<nat>)
    ensures |r| == |idx|
    ensures forall k :: 0 <= k < |r| ==> r[k] == idx[k] + 1
    ensures forall i :: i in r <==> i >= 1 && i - 1 in idx
  {
    if idx == [] then [] else [idx[0] + 1] + ShiftUp(idx[1..])
  }

  /** Removing an id no marker carries leaves the list as it was. */
  lemma {:induction false} RemoveAbsentId(ms: seq<CustomMarker>, id: int)
    requires forall m :: m in ms ==> m.id != id
    ensures RemoveById(ms, id) == ms
  {
    if ms != [] {
      assert ms[0] in ms;
      assert forall m :: m in ms[1..] ==> m in ms;
      RemoveAbsentId(ms[1..], id);
      assert ms == [ms[0]] + ms[1..];
    }
  }

  /** Removing the same id twice is the same as removing it once. */
  lemma {:induction false} RemoveByIdIdempotent(ms: seq<CustomMarker>, id: int)
    ensures RemoveById(RemoveById(ms, id), id) == RemoveById(ms, id)
  {
    var r := RemoveById(ms, id);
    forall m | m in r ensures m.id != id {
      var k :| 0 <= k < |r| && r[k] == m;
    }
    RemoveAbsentId(r, id);
  }

  /** The marker-list invariant, against the allocator's value `next`:
      the allocator is at least 1, ids run strictly increasing in list
      order, and every live id is at least 1 and below the allocator. */
  predicate WellFormed(ms: seq<CustomMarker>, next: int)
  {
    && next >= 1
    && (forall i, j :: 0 <= i < j < |ms| ==> ms[i].id < ms[j].id)
    && (forall i :: 0 <= i < |ms| ==> 1 <= ms[i].id < next)
  }

  /** Live ids are pairwise distinct, so a marker id names one marker. */
  lemma WellFormedIdsDistinct(ms: seq<CustomMarker>, next: int)
    requires WellFormed(ms, next)
    ensures forall i, j :: 0 <= i < |ms| && 0 <= j < |ms| && i != j ==> ms[i].id != ms[j].id
  {
  }

  /** Appending a marker stamped with the allocator's value and bumping the
      allocator keeps the invariant. */
  lemma PlaceKeepsWellFormed(ms: seq<CustomMarker>, next: int, m: CustomMarker)
    requires WellFormed(ms, next)
    requires m.id == next
    ensures WellFormed(ms + [m], next + 1)
  {
  }

  /** Filtering markers out of a well-formed list keeps it well formed
      under the same allocator value. */
  lemma RemoveKeepsWellFormed(ms: seq<CustomMarker>, next: int, id: int)
    requires WellFormed(ms, next)
    ensures WellFormed(RemoveById(ms, id), next)
  {
    var r := RemoveById(ms, id);
    var idx := RemoveByIdSelects(ms, id);
    forall i, j | 0 <= i < j < |r| ensures r[i].id < r[j].id {
      assert r[i] == ms[idx[i]] && r[j] == ms[idx[j]] && idx[i] < idx[j];
    }
    forall i | 0 <= i < |r| ensures r[i].id < next {
      assert r[i] == ms[idx[i]];
    }
  }

  /** On a well-formed list, removing the id of a live marker drops exactly
      that one marker. */
  lemma {:induction false} RemovePresentDropsOne(ms: seq<CustomMarker>, next: int, id: int)
    requires WellFormed(ms, next)
    requires exists m :: m in ms && m.id == id
    ensures |RemoveById(ms, id)| == |ms| - 1
  {
    var tail := ms[1..];
    assert WellFormed(tail, next) by {
      forall i, j | 0 <= i < j < |tail| ensures tail[i].id < tail[j].id {
        assert tail[i] == ms[i + 1] && tail[j] == ms[j + 1];
      }
    }
    if ms[0].id == id {
      forall m | m in tail ensures m.id != id {
        var k :| 0 < k < |ms| && ms[k] == m;
      }
      RemoveAbsentId(tail, id);
    } else {
      var m :| m in ms && m.id == id;
      assert m in tail;
      RemovePresentDropsOne(tail, next, id);
    }
  }
}
