/**
  The coordinator's state behind its mutex. Each method is one critical section, and does
  to the fields what the protocol's functions do to the shared maps of every state that
  the fields back.
 */
module SchemaCoordinator {
  import opened Basics
  import opened SchemaFlights

  class Coordinator {
    var flights: map<Key, Flight>
    var published: map<Space, nat>

    constructor ()
      ensures Backs(State(map[], map[], map[], map[], map[], {}, map[], map[], []))
    {
      flights, published := map[], map[];
    }

    /** The fields hold the shared maps of `s`. */
    ghost predicate Backs(s: State)
      reads this
    {
      flights == s.flights && published == s.published
    }

    /** The decision at the start of a call; `flight` is the handle a new leader allocates. */
    method Begin(c: Caller, key: Key, flight: Flight) returns (entry: Entry)
      modifies this
      ensures forall s | old(Backs(s)) :: entry == Enter(s, key)
      ensures forall s | old(Backs(s)) :: Backs(if entry.Starts? then Register(s, c, key, flight) else s)
      ensures flights == (if entry.Starts? then old(flights)[key := flight] else old(flights)) && published == old(published)
      ensures entry.AlreadyPublished? <==> key.space in old(published) && old(published)[key.space] >= key.version
      ensures entry.Starts? ==> key !in old(flights)
      ensures entry.Joins? ==> key in old(flights) && entry.flight == old(flights)[key]
    {
      if key.space in published && published[key.space] >= key.version {
        return AlreadyPublished;
      }
      if key in flights {
        return Joins(flights[key]);
      }
      flights := flights[key := flight];
      return Starts;
    }

    /** The second look at the published version, under the namespace lock. */
    method Recheck(key: Key) returns (done: bool)
      ensures forall s | Backs(s) :: done == Published(s, key)
    {
      done := key.space in published && published[key.space] >= key.version;
    }

    /** The leader's critical section: raise the published version on success, drop its own flight. */
    method Complete(key: Key, flight: Flight, outcome: Outcome)
      modifies this
      ensures forall s | old(Backs(s)) :: Backs(Record(s, key, flight, outcome))
      ensures forall k | k in old(flights) && !(k == key && old(flights)[k] == flight) :: k in flights && flights[k] == old(flights)[k]
      ensures flights.Keys <= old(flights).Keys && (key in flights ==> flights[key] != flight)
      ensures outcome.Err? ==> published == old(published)
      ensures outcome.Ok? ==> key.space in published && published[key.space] >= key.version
      ensures forall space | space != key.space :: (space in published <==> space in old(published))
                && (space in published ==> published[space] == old(published)[space])
    {
      if outcome.Ok? {
        if key.space in published {
          if published[key.space] < key.version {
            published := published[key.space := key.version];
          }
        } else {
          published := published[key.space := key.version];
        }
      }
      if key in flights && flights[key] == flight {
        flights := flights - {key};
      }
    }
  }
}
