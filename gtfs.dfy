/** The decoded GTFS Realtime messages the tracker reads (from
    gtfs-realtime.proto), restricted to the fields it touches. Every optional
    field and sub-message is an `Option`: `None` is "HasField is false". */
module Gtfs {
  import opened Wrappers

  /** One entry of `FeedMessage.entity`; `vehicle` is its optional
      `VehiclePosition`. */
  datatype FeedEntity = FeedEntity(vehicle: Option<VehiclePosition>)

  /** `VehiclePosition`: the trip it serves, the vehicle descriptor, its
      position and the POSIX time (seconds) of the observation. */
  datatype VehiclePosition = VehiclePosition(
    trip: Option<TripDescriptor>,
    vehicle: Option<VehicleDescriptor>,
    position: Option<Position>,
    timestamp: Option<nat>)

  datatype TripDescriptor = TripDescriptor(tripId: Option<string>, routeId: Option<string>)

  datatype VehicleDescriptor = VehicleDescriptor(id: Option<string>)

  /** `Position`: degrees of latitude and longitude, and the optional
      momentary speed in meters per second. */
  datatype Position = Position(latitude: real, longitude: real, speed: Option<real>)
}
