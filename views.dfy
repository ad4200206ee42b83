/** What the callbacks derive from the train list: the moving/stopped
    classification, the summary counts, the serialisation done by
    `update_data`, the marker arrays of `update_map` and the list of
    `update_train_list`. Layout, figures and number formatting are not
    modelled; the derived values are. The two front ends differ in small
    ways, selected by `App`. */
module Views {
  import opened Wrappers
  import opened Trains
  import opened Search
  import opened FeedClient

  /** `TrackerApp` is train_tracker.py (pandas), `VercelApp` is
      api/vercel_app.py (plain lists). */
  datatype App = TrackerApp | VercelApp

  datatype Status = Moving | Stopped

  datatype Color = Blue | Red

  function StatusOf(t: Train): (s: Status)
    ensures s == Moving <==> IsMoving(t)
  {
    if IsMoving(t) then Moving else Stopped
  }

  /** Moving trains are drawn blue, all others red. */
  function ColorOf(t: Train): (c: Color)
    ensures c == Blue <==> IsMoving(t)
  {
    if StatusOf(t) == Moving then Blue else Red
  }

  /** A train is stopped (red) exactly when its speed is unknown or not
      positive; an unknown speed never counts as moving. */
  lemma StoppedMeansNoPositiveSpeed(t: Train)
    ensures StatusOf(t) == Stopped <==> t.speed.None? || t.speed.value <= 0.0
    ensures ColorOf(t) == Red <==> StatusOf(t) == Stopped
    ensures t.speed.None? ==> ColorOf(t) == Red
  {
  }

  // ---------------------------------------------------------------------
  // Summary counts (api/vercel_app.py)

  datatype Summary = Summary(total: nat, moving: nat, stopped: nat)

  /** `sum(1 for train in train_data if speed is not None and speed > 0)`. */
  function CountMoving(trains: seq<Train>): (n: nat)
    ensures n <= |trains|
  {
    if trains == [] then 0
    else CountMoving(trains[..|trains| - 1]) + if IsMoving(trains[|trains| - 1]) then 1 else 0
  }

  /** The indices of the moving trains. */
  function MovingIndices(trains: seq<Train>): set<nat> {
    set i: nat | i < |trains| && IsMoving(trains[i])
  }

  /** The count equals the number of positions holding a moving train. */
  lemma {:induction false} CountMovingIsCardinality(trains: seq<Train>)
    ensures CountMoving(trains) == |MovingIndices(trains)|
  {
    if trains != [] {
      var n := |trains| - 1;
      var init := trains[..n];
      CountMovingIsCardinality(init);
      var before := MovingIndices(init);
      assert MovingIndices(trains) == before + if IsMoving(trains[n]) then {n} else {};
      assert n !in before;
    }
  }

  /** The statistics line: totals over the whole train list, whatever the
      search. Moving and stopped partition the total. */
  function SummaryOf(trains: seq<Train>): (s: Summary)
    ensures s.total == |trains|
    ensures s.moving + s.stopped == s.total
    ensures s.moving == |MovingIndices(trains)|
  {
    CountMovingIsCardinality(trains);
    var total := |trains|;
    var moving := CountMoving(trains);
    Summary(total, moving, total - moving)
  }

  // ---------------------------------------------------------------------
  // update_data

  /** Stamps produced by the feed are `datetime`s (or absent). */
  predicate FreshStamps(trains: seq<Train>) {
    forall i :: 0 <= i < |trains| ==> trains[i].timestamp.None? || trains[i].timestamp.value.Moment?
  }

  /** `dict(train)` with a present timestamp replaced by its `isoformat()`. */
  function SerializeTrain(t: Train, isoformat: int -> string): (r: Train)
    requires t.timestamp.None? || t.timestamp.value.Moment?
    ensures r.(timestamp := t.timestamp) == t
    ensures r.timestamp.Some? <==> t.timestamp.Some?
    ensures r.timestamp.Some? ==> r.timestamp.value == Iso(isoformat(t.timestamp.value.epochSeconds))
  {
    match t.timestamp
    case None => t
    case Some(stamp) => t.(timestamp := Some(Iso(isoformat(stamp.epochSeconds))))
  }

  /** The serialisation loop of `update_data`: same length and order, each
      record copied with only its timestamp converted. */
  method SerializeTrains(trains: seq<Train>, isoformat: int -> string) returns (out: seq<Train>)
    requires FreshStamps(trains)
    ensures |out| == |trains|
    ensures forall i :: 0 <= i < |trains| ==> out[i] == SerializeTrain(trains[i], isoformat)
  {
    out := [];
    for i := 0 to |trains|
      invariant |out| == i
      invariant forall k :: 0 <= k < i ==> out[k] == SerializeTrain(trains[k], isoformat)
    {
      var train := trains[i];
      if train.timestamp.Some? {
        train := train.(timestamp := Some(Iso(isoformat(train.timestamp.value.epochSeconds))));
      }
      out := out + [train];
    }
  }

  /** What the feed client hands to `update_data` can be serialised. */
  lemma FetchedStampsAreFresh(outcome: Outcome)
    ensures FreshStamps(FetchedTrains(outcome))
  {
    if CaptureOf(outcome) == Fresh {
      NormalizedStampsAreMoments(outcome.body.entities);
      var ts := FetchedTrains(outcome);
      assert forall i :: 0 <= i < |ts| ==> ts[i] in ts;
    }
  }

  /** The store behind the page (`train-data-store` and the `update-time`
      text): replaced wholesale by every `update_data` call. */
  class TrainStore {
    var data: seq<Train>
    var updateTime: string

    /** The store starts empty, showing the label of the start-up fetch. */
    constructor (initialTime: string)
      ensures data == [] && updateTime == initialTime
    {
      data := [];
      updateTime := initialTime;
    }

    /** `update_data`: fetch, serialise, replace. On any failure the store
        holds no trains (the previous ones are discarded, not merged) and
        the label names the failure. */
    method UpdateData(client: Client, now: real, outcome: Outcome, completedAt: real,
                      timeOfDay: string, isoformat: int -> string)
      returns (requestAt: real)
      modifies this, client
      ensures FreshStamps(FetchedTrains(outcome))
      ensures |data| == |FetchedTrains(outcome)|
      ensures forall i :: 0 <= i < |data| ==> data[i] == SerializeTrain(FetchedTrains(outcome)[i], isoformat)
      ensures updateTime == CaptureLabel(timeOfDay, CaptureOf(outcome))
      ensures requestAt == now + WaitBefore(old(client.lastRequestTime), now)
      ensures client.lastRequestTime == if MarksRequest(outcome) then completedAt else old(client.lastRequestTime)
    {
      var trains, time;
      trains, time, requestAt := client.Fetch(now, outcome, completedAt, timeOfDay);
      FetchedStampsAreFresh(outcome);
      data := SerializeTrains(trains, isoformat);
      updateTime := time;
    }
  }

  // ---------------------------------------------------------------------
  // update_map

  /** The hover text's content: id, speed, position, and the route and trip
      lines when shown. */
  datatype Hover = Hover(id: string, speed: Option<real>, lat: real, lon: real,
                         route: Option<string>, trip: Option<string>)

  /** Whether an optional text field is printed: train_tracker.py prints it
      whenever it is not `None` (`pd.notna`); api/vercel_app.py only when it
      is truthy, so an empty string is hidden too. */
  predicate Shows(app: App, field: Option<string>) {
    field.Some? && (app == TrackerApp || field.value != "")
  }

  function HoverOf(app: App, t: Train): (h: Hover)
    ensures h.route.Some? <==> Shows(app, t.routeId)
    ensures h.trip.Some? <==> Shows(app, t.tripId)
    ensures h.route.Some? ==> h.route == t.routeId
    ensures h.trip.Some? ==> h.trip == t.tripId
    ensures h.id == t.id && h.speed == t.speed && h.lat == t.lat && h.lon == t.lon
  {
    Hover(t.id, t.speed, t.lat, t.lon,
          if Shows(app, t.routeId) then t.routeId else None,
          if Shows(app, t.tripId) then t.tripId else None)
  }

  /** The marker arrays of `update_map`: five parallel lists, entry i of
      each taken from train i. The number of blue markers is the moving
      count of the summary. (An empty list draws the empty map, which is
      the case of five empty lists.) */
  method MapMarkers(app: App, trainData: seq<Train>)
    returns (lats: seq<real>, lons: seq<real>, labels: seq<string>, colors: seq<Color>, hovers: seq<Hover>)
    ensures |lats| == |lons| == |labels| == |colors| == |hovers| == |trainData|
    ensures forall i :: 0 <= i < |trainData| ==>
      && lats[i] == trainData[i].lat && lons[i] == trainData[i].lon
      && labels[i] == trainData[i].id
      && colors[i] == ColorOf(trainData[i])
      && hovers[i] == HoverOf(app, trainData[i])
    ensures |set i: nat | i < |colors| && colors[i] == Blue| == SummaryOf(trainData).moving
  {
    lats, lons, labels, colors, hovers := [], [], [], [], [];
    for i := 0 to |trainData|
      invariant |lats| == |lons| == |labels| == |colors| == |hovers| == i
      invariant forall k :: 0 <= k < i ==>
        && lats[k] == trainData[k].lat && lons[k] == trainData[k].lon
        && labels[k] == trainData[k].id
        && colors[k] == ColorOf(trainData[k])
        && hovers[k] == HoverOf(app, trainData[k])
    {
      var train := trainData[i];
      lats := lats + [train.lat];
      lons := lons + [train.lon];
      labels := labels + [train.id];
      var isMoving := train.speed.Some? && train.speed.value > 0.0;
      colors := colors + [if isMoving then Blue else Red];
      hovers := hovers + [HoverOf(app, train)];
    }
    assert (set i: nat | i < |colors| && colors[i] == Blue) == MovingIndices(trainData);
  }

  // ---------------------------------------------------------------------
  // update_train_list

  /** One entry of the list: id, speed, status (and its colour), position,
      and the route when shown. */
  datatype ListItem = ListItem(id: string, speed: Option<real>, status: Status, lat: real, lon: real,
                               route: Option<string>)

  function ItemOf(app: App, t: Train): (item: ListItem)
    ensures item.status == Moving <==> IsMoving(t)
    ensures item.route.Some? <==> Shows(app, t.routeId)
    ensures item.route.Some? ==> item.route == t.routeId
    ensures item.id == t.id && item.speed == t.speed && item.lat == t.lat && item.lon == t.lon
  {
    ListItem(t.id, t.speed, StatusOf(t), t.lat, t.lon, if Shows(app, t.routeId) then t.routeId else None)
  }

  /** What the list callback shows: a placeholder for an empty train list,
      another for a search that matches nothing, or the items (preceded, in
      api/vercel_app.py, by the statistics line). */
  datatype TrainList = NoTrains | NoMatches | Listing(stats: Option<Summary>, items: seq<ListItem>)

  /** The trains listed, in display order: searched, then sorted by id. */
  function Displayed(app: App, trainData: seq<Train>, search: Option<string>): (r: seq<Train>)
    ensures |r| <= |trainData|
  {
    SortById(if app == VercelApp then FilterTrains(trainData, search) else TrackerSearchAsWritten(trainData, search))
  }

  /** The list is in id order and holds exactly the trains the search
      selected from the train list; api/vercel_app.py's order among equal
      ids is the order of the train list. */
  lemma DisplayedMeaning(app: App, trainData: seq<Train>, search: Option<string>)
    ensures var found := if app == VercelApp then FilterTrains(trainData, search) else TrackerSearchAsWritten(trainData, search);
      && SortedById(Displayed(app, trainData, search))
      && multiset(Displayed(app, trainData, search)) == multiset(found)
      && IsSubsequence(found, trainData)
      && (app == VercelApp ==>
            forall id :: Select(Displayed(app, trainData, search), Exact(id)) == Select(found, Exact(id)))
  {
    var found := if app == VercelApp then FilterTrains(trainData, search) else TrackerSearchAsWritten(trainData, search);
    SortByIdCorrect(found);
    FilterTrainsMeaning(trainData, search);
    TrackerSearchAsWrittenMeaning(trainData, search);
  }

  /** The item loop of `update_train_list`: one item per train, in order. */
  method BuildItems(app: App, trains: seq<Train>) returns (items: seq<ListItem>)
    ensures |items| == |trains|
    ensures forall i :: 0 <= i < |trains| ==> items[i] == ItemOf(app, trains[i])
  {
    items := [];
    for i := 0 to |trains|
      invariant |items| == i
      invariant forall k :: 0 <= k < i ==> items[k] == ItemOf(app, trains[k])
    {
      var train := trains[i];
      var status := if train.speed.Some? && train.speed.value > 0.0 then Moving else Stopped;
      var route := if Shows(app, train.routeId) then train.routeId else None;
      items := items + [ListItem(train.id, train.speed, status, train.lat, train.lon, route)];
    }
  }

  /** `update_train_list`: the items of the displayed trains, and the
      statistics over the whole train list (not the filtered one). */
  method UpdateTrainList(app: App, trainData: seq<Train>, search: Option<string>) returns (view: TrainList)
    ensures trainData == [] ==> view == NoTrains
    ensures trainData != [] && Displayed(app, trainData, search) == [] ==> view == NoMatches
    ensures trainData != [] && Displayed(app, trainData, search) != [] ==>
      && view.Listing?
      && view.stats == (if app == VercelApp then Some(SummaryOf(trainData)) else None)
      && |view.items| == |Displayed(app, trainData, search)|
      && forall i :: 0 <= i < |view.items| ==> view.items[i] == ItemOf(app, Displayed(app, trainData, search)[i])
  {
    if trainData == [] {
      return NoTrains;
    }
    var filtered := if app == VercelApp then FilterTrains(trainData, search) else TrackerSearchAsWritten(trainData, search);
    var sorted := SortById(filtered);
    assert sorted == Displayed(app, trainData, search);
    var items := BuildItems(app, sorted);
    if items == [] {
      return NoMatches;
    }
    var stats := if app == VercelApp then Some(SummaryOf(trainData)) else None;
    view := Listing(stats, items);
  }
}
