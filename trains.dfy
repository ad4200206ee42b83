/** The normalised train record and the loop that builds the train list from
    the entities of a decoded feed (`fetch_train_locations`, the body of the
    `for entity in feed.entity` loop). */
module Trains {
  import opened Wrappers
  import opened Gtfs

  /** The `timestamp` field of a record: a `datetime` built from the feed's
      epoch seconds, or, after `update_data`, its ISO-8601 text. */
  datatype Stamp = Moment(epochSeconds: int) | Iso(text: string)

  /** The dict appended for each kept entity: `id`, `lat`, `lon`, `speed`
      (km/h), `timestamp`, `trip_id`, `route_id`. `None` is Python's `None`. */
  datatype Train = Train(
    id: string,
    lat: real,
    lon: real,
    speed: Option<real>,
    timestamp: Option<Stamp>,
    tripId: Option<string>,
    routeId: Option<string>)

  /** The id given to a vehicle whose descriptor carries no id. */
  const UnknownId: string := "Unknown"

  /** Kilometres per hour in one meter per second. */
  const KmhPerMps: real := 3.6

  /** An entity yields a record exactly when it has a vehicle position that
      itself has a position. */
  predicate Kept(e: FeedEntity) {
    e.vehicle.Some? && e.vehicle.value.position.Some?
  }

  /** `vehicle.vehicle.id`, or "Unknown" when the descriptor or its id is unset. */
  function VehicleId(v: VehiclePosition): (id: string)
    ensures (v.vehicle.Some? && v.vehicle.value.id.Some?) ==> id == v.vehicle.value.id.value
    ensures (v.vehicle.None? || v.vehicle.value.id.None?) ==> id == UnknownId
  {
    match v.vehicle
    case Some(VehicleDescriptor(Some(id))) => id
    case _ => UnknownId
  }

  /** A trip field is read only when the trip sub-message is present. */
  function TripField(trip: Option<TripDescriptor>, field: TripDescriptor -> Option<string>): (r: Option<string>)
    ensures r.Some? ==> trip.Some? && field(trip.value) == r
    ensures trip.Some? ==> r == field(trip.value)
  {
    if trip.Some? then field(trip.value) else None
  }

  /** The record built for a kept entity. Speed is converted from m/s to km/h
      and stays absent when the feed omits it (absent is not 0). */
  function Record(e: FeedEntity): (t: Train)
    requires Kept(e)
    ensures var v := e.vehicle.value; var p := v.position.value;
      && t.id == VehicleId(v)
      && t.lat == p.latitude && t.lon == p.longitude
      && (t.speed.Some? <==> p.speed.Some?)
      && (t.speed.Some? ==> t.speed.value / KmhPerMps == p.speed.value)
      && (t.speed == Some(0.0) <==> p.speed == Some(0.0))
      && (t.timestamp.Some? <==> v.timestamp.Some?)
      && (t.timestamp.Some? ==> t.timestamp.value == Moment(v.timestamp.value))
      && t.tripId == (if v.trip.Some? then v.trip.value.tripId else None)
      && t.routeId == (if v.trip.Some? then v.trip.value.routeId else None)
  {
    var v := e.vehicle.value;
    var p := v.position.value;
    Train(
      VehicleId(v),
      p.latitude,
      p.longitude,
      if p.speed.Some? then Some(p.speed.value * KmhPerMps) else None,
      if v.timestamp.Some? then Some(Moment(v.timestamp.value)) else None,
      TripField(v.trip, (d: TripDescriptor) => d.tripId),
      TripField(v.trip, (d: TripDescriptor) => d.routeId))
  }

  /** A train is shown as moving (blue) iff its speed is known and positive. */
  predicate IsMoving(t: Train) {
    t.speed.Some? && t.speed.value > 0.0
  }

  /** Conversion to km/h keeps the sign, so a record is moving iff the feed
      reported a positive speed in m/s. */
  lemma RecordMoving(e: FeedEntity)
    requires Kept(e)
    ensures IsMoving(Record(e)) <==> (var p := e.vehicle.value.position.value; p.speed.Some? && p.speed.value > 0.0)
  {
  }

  /** The train list of a feed: one record per kept entity, in feed order. */
  function Normalized(es: seq<FeedEntity>): (ts: seq<Train>)
    ensures |ts| <= |es|
  {
    if es == [] then []
    else Normalized(es[..|es| - 1]) + (if Kept(es[|es| - 1]) then [Record(es[|es| - 1])] else [])
  }

  /** The `for entity in feed.entity` loop: entities without a vehicle are
      passed over, those without a position are skipped with `continue`, and
      every other entity appends its record. */
  method Normalize(es: seq<FeedEntity>) returns (trains: seq<Train>)
    ensures trains == Normalized(es)
  {
    trains := [];
    var i := 0;
    while i < |es|
      invariant 0 <= i <= |es|
      invariant trains == Normalized(es[..i])
    {
      var e := es[i];
      assert es[..i + 1][..i] == es[..i];
      if e.vehicle.Some? {
        var v := e.vehicle.value;
        if v.position.None? {
          i := i + 1;
          continue;
        }
        trains := trains + [Record(e)];
      }
      i := i + 1;
    }
    assert es[..i] == es;
  }

  /** The indices of the kept entities, in increasing order. */
  function KeptIndices(es: seq<FeedEntity>): seq<nat> {
    if es == [] then []
    else KeptIndices(es[..|es| - 1]) + (if Kept(es[|es| - 1]) then [|es| - 1] else [])
  }

  /** Record k of the train list comes from the k-th kept entity: the list
      holds exactly one record for each entity with a vehicle position, and
      none for any other, in the feed's order. */
  lemma NormalizedMatchesKeptEntities(es: seq<FeedEntity>)
    ensures var ix := KeptIndices(es); var ts := Normalized(es);
      && |ix| == |ts|
      && (forall k, l :: 0 <= k < l < |ix| ==> ix[k] < ix[l])
      && (forall i :: i in ix <==> 0 <= i < |es| && Kept(es[i]))
      && (forall k :: 0 <= k < |ix| ==> ix[k] < |es| && Kept(es[ix[k]]) && ts[k] == Record(es[ix[k]]))
  {
    KeptIndicesSelectKept(es);
    NormalizedFollowsKeptIndices(es);
  }

  lemma {:induction false} KeptIndicesSelectKept(es: seq<FeedEntity>)
    ensures var ix := KeptIndices(es);
      && (forall k, l :: 0 <= k < l < |ix| ==> ix[k] < ix[l])
      && (forall i :: i in ix <==> 0 <= i < |es| && Kept(es[i]))
      && (forall k :: 0 <= k < |ix| ==> ix[k] < |es| && Kept(es[ix[k]]))
  {
    if es != [] {
      var n := |es| - 1;
      var init := es[..n];
      KeptIndicesSelectKept(init);
      var ix, ix' := KeptIndices(es), KeptIndices(init);
      var added := if Kept(es[n]) then [n] else [];
      assert ix == ix' + added;
      forall k | 0 <= k < |ix|
        ensures ix[k] < |es| && Kept(es[ix[k]])
        ensures k < |ix'| ==> ix[k] == ix'[k] && ix[k] < n
      {
        if k < |ix'| {
          assert init[ix'[k]] == es[ix'[k]];
        }
      }
      forall i | 0 <= i < n
        ensures Kept(init[i]) <==> Kept(es[i])
      {
        assert init[i] == es[i];
      }
    }
  }

  lemma {:induction false} NormalizedFollowsKeptIndices(es: seq<FeedEntity>)
    ensures forall k :: 0 <= k < |KeptIndices(es)| ==> KeptIndices(es)[k] < |es| && Kept(es[KeptIndices(es)[k]])
    ensures |KeptIndices(es)| == |Normalized(es)|
    ensures forall k :: 0 <= k < |KeptIndices(es)| ==> Normalized(es)[k] == Record(es[KeptIndices(es)[k]])
  {
    KeptIndicesSelectKept(es);
    if es != [] {
      var init := es[..|es| - 1];
      NormalizedFollowsKeptIndices(init);
      var ix, ix' := KeptIndices(es), KeptIndices(init);
      var ts, ts' := Normalized(es), Normalized(init);
      forall k | 0 <= k < |ix|
        ensures ts[k] == Record(es[ix[k]])
      {
        if k < |ix'| {
          assert ix[k] == ix'[k] && ts[k] == ts'[k];
          assert init[ix'[k]] == es[ix'[k]];
        }
      }
    }
  }

  /** Every record the normaliser produces has a position-derived coordinate
      pair and a `datetime` (never a string) in `timestamp`, if any. */
  lemma {:induction false} NormalizedStampsAreMoments(es: seq<FeedEntity>)
    ensures forall t :: t in Normalized(es) ==> t.timestamp.None? || t.timestamp.value.Moment?
  {
    if es != [] {
      NormalizedStampsAreMoments(es[..|es| - 1]);
    }
  }

  /** Only kept entities count: the list is as long as the number of entities
      with a position, and no longer than the feed. */
  lemma NormalizedLength(es: seq<FeedEntity>)
    ensures |Normalized(es)| == |KeptIndices(es)| <= |es|
  {
    NormalizedMatchesKeptEntities(es);
    KeptIndicesBounded(es);
  }

  lemma {:induction false} KeptIndicesBounded(es: seq<FeedEntity>)
    ensures |KeptIndices(es)| <= |es|
  {
    if es != [] {
      KeptIndicesBounded(es[..|es| - 1]);
    }
  }
}
