/**
  Single-flight schema publication. Callers run concurrently; each step below is one
  critical section of the coordinator, one lock operation, one poll, or a cancellation.
 */
module SchemaFlights {
  import opened Basics

  datatype Space = Space(scope: string, namespace: string)

  datatype Key = Key(space: Space, version: nat)

  type Caller = nat
  type Flight = nat
  type Outcome = Result<(), string>

  /** Where a caller stands in `coordinate`. `held` says it owns the namespace lock. */
  datatype Phase =
    | Fresh
    | Following(flight: Flight)
    | Checking(flight: Flight, late: bool)
    | Sleeping(flight: Flight, late: bool)
    | Leading(flight: Flight)
    | Locked(flight: Flight)
    | Operating(flight: Flight)
    | Completing(flight: Flight, outcome: Outcome, held: bool)
    | Recorded(flight: Flight, outcome: Outcome, held: bool)
    | Notifying(flight: Flight, outcome: Outcome, held: bool)
    | Leaving(flight: Flight, outcome: Outcome, held: bool)
    | Returned(outcome: Outcome, via: Option<Flight>)
    | Dropped(via: Option<Flight>)

  datatype Call = Call(key: Key, phase: Phase)

  /** `log` lists, in order, the keys whose operation succeeded; nothing reads it. */
  datatype State = State(
    calls: map<Caller, Call>,
    flights: map<Key, Flight>,
    keyOf: map<Flight, Key>,
    leader: map<Flight, Caller>,
    results: map<Flight, Outcome>,
    notified: set<Flight>,
    locks: map<Space, Caller>,
    published: map<Space, nat>,
    log: seq<Key>)

  predicate Published(s: State, key: Key) {
    key.space in s.published && s.published[key.space] >= key.version
  }

  predicate Holds(p: Phase) {
    match p
    case Locked(_) => true
    case Operating(_) => true
    case Completing(_, _, held) => held
    case Recorded(_, _, held) => held
    case Notifying(_, _, held) => held
    case Leaving(_, _, held) => held
    case _ => false
  }

  /** A leader whose flight is still to be taken out of the map. */
  predicate InFlight(p: Phase) {
    p.Leading? || p.Locked? || p.Operating? || p.Completing?
  }

  /** A leader that has not finished `complete`. */
  predicate Live(p: Phase) {
    InFlight(p) || p.Recorded? || p.Notifying?
  }

  predicate Leads(p: Phase) {
    Live(p) || p.Leaving?
  }

  predicate Follows(p: Phase) {
    p.Following? || p.Checking? || p.Sleeping?
  }

  // ---- the critical sections of the coordinator ----

  datatype Entry = AlreadyPublished | Joins(flight: Flight) | Starts

  /** What `coordinate` decides under the state lock. */
  function Enter(s: State, key: Key): Entry {
    if Published(s, key) then AlreadyPublished
    else if key in s.flights then Joins(s.flights[key])
    else Starts
  }

  /** What `complete` does to the shared maps under the state lock. */
  function Record(s: State, key: Key, flight: Flight, outcome: Outcome): State {
    var published :=
      if outcome.Err? then s.published
      else if key.space in s.published
      then s.published[key.space := if s.published[key.space] < key.version then key.version else s.published[key.space]]
      else s.published[key.space := key.version];
    var flights := if key in s.flights && s.flights[key] == flight then s.flights - {key} else s.flights;
    s.(published := published, flights := flights)
  }

  /** What `coordinate` does to the shared maps when the caller becomes a leader. */
  function Register(s: State, c: Caller, key: Key, flight: Flight): State {
    s.(flights := s.flights[key := flight], keyOf := s.keyOf[flight := key], leader := s.leader[flight := c])
  }

  // ---- steps ----

  datatype Step =
    | Arrive(caller: Caller, key: Key)
    | Begin(caller: Caller, flight: Flight)
    | Listen(caller: Caller)
    | Check(caller: Caller)
    | Wake(caller: Caller)
    | Acquire(caller: Caller)
    | Recheck(caller: Caller)
    | Operated(caller: Caller, outcome: Outcome)
    | Complete(caller: Caller)
    | SetResult(caller: Caller)
    | Notify(caller: Caller)
    | Return(caller: Caller)
    | Cancel(caller: Caller, reason: string)

  predicate Enabled(s: State, step: Step) {
    if step.Arrive? then step.caller !in s.calls
    else
      && step.caller in s.calls
      && var Call(key, p) := s.calls[step.caller];
         match step
         case Begin(_, flight) => p.Fresh? && flight !in s.keyOf
         case Listen(_) => p.Following?
         case Check(_) => p.Checking?
         // `notify_waiters` wakes every listener created before it, polled or not.
         case Wake(_) => p.Sleeping? && p.flight in s.notified && !p.late
         case Acquire(_) => p.Leading? && key.space !in s.locks
         case Recheck(_) => p.Locked?
         case Operated(_, _) => p.Operating?
         case Complete(_) => p.Completing?
         case SetResult(_) => p.Recorded?
         case Notify(_) => p.Notifying?
         case Return(_) => p.Leaving?
         case Cancel(_, _) => p.Fresh? || Follows(p) || p.Leading? || p.Operating?
  }

  /** Where a follower goes after it has looked for the flight's result. */
  function Checked(s: State, f: Flight, late: bool): Phase {
    if f in s.results then Returned(s.results[f], Some(f)) else Sleeping(f, late)
  }

  /** The phase a step takes its caller to. */
  function NextPhase(s: State, step: Step): Phase
    requires Enabled(s, step)
  {
    if step.Arrive? then Fresh else
      var Call(key, p) := s.calls[step.caller];
      match step
      case Begin(_, flight) =>
        (match Enter(s, key)
         case AlreadyPublished => Returned(Ok(()), None)
         case Joins(f) => Following(f)
         case Starts => Leading(flight))
      case Listen(_) => Checking(p.flight, p.flight in s.notified)
      case Check(_) => Checked(s, p.flight, p.late)
      case Wake(_) => Following(p.flight)
      case Acquire(_) => Locked(p.flight)
      case Recheck(_) => if Published(s, key) then Completing(p.flight, Ok(()), true) else Operating(p.flight)
      case Operated(_, outcome) => Completing(p.flight, outcome, true)
      case Complete(_) => Recorded(p.flight, p.outcome, p.held)
      case SetResult(_) => Notifying(p.flight, p.outcome, p.held)
      case Notify(_) => Leaving(p.flight, p.outcome, p.held)
      case Return(_) => if p.held then Returned(p.outcome, Some(p.flight)) else Dropped(Some(p.flight))
      case Cancel(_, reason) =>
        if p.Leading? || p.Operating? then Completing(p.flight, Err(reason), false) else Dropped(None)
  }

  /** The step makes its caller the leader of a new flight. */
  predicate Founds(s: State, step: Step)
    requires Enabled(s, step)
  {
    step.Begin? && Enter(s, s.calls[step.caller].key).Starts?
  }

  function KeyOfCall(s: State, step: Step): Key
    requires Enabled(s, step)
  {
    if step.Arrive? then step.key else s.calls[step.caller].key
  }

  // What a step does to each shared map.

  function NextFlights(s: State, step: Step): map<Key, Flight>
    requires Enabled(s, step)
  {
    var key := KeyOfCall(s, step);
    if Founds(s, step) then Register(s, step.caller, key, step.flight).flights
    else if step.Complete? then
      var p := s.calls[step.caller].phase;
      Record(s, key, p.flight, p.outcome).flights
    else s.flights
  }

  function NextKeyOf(s: State, step: Step): map<Flight, Key>
    requires Enabled(s, step)
  {
    if Founds(s, step) then Register(s, step.caller, KeyOfCall(s, step), step.flight).keyOf else s.keyOf
  }

  function NextLeader(s: State, step: Step): map<Flight, Caller>
    requires Enabled(s, step)
  {
    if Founds(s, step) then Register(s, step.caller, KeyOfCall(s, step), step.flight).leader else s.leader
  }

  function NextResults(s: State, step: Step): map<Flight, Outcome>
    requires Enabled(s, step)
  {
    if step.SetResult? then s.results[s.calls[step.caller].phase.flight := s.calls[step.caller].phase.outcome] else s.results
  }

  function NextNotified(s: State, step: Step): set<Flight>
    requires Enabled(s, step)
  {
    if step.Notify? then s.notified + {s.calls[step.caller].phase.flight} else s.notified
  }

  /** A cancelled leader drops its locals in reverse order: the namespace guard first, then the leader handle. */
  function NextLocks(s: State, step: Step): map<Space, Caller>
    requires Enabled(s, step)
  {
    var space := KeyOfCall(s, step).space;
    if step.Acquire? then s.locks[space := step.caller]
    else if (step.Return? && s.calls[step.caller].phase.held) || (step.Cancel? && s.calls[step.caller].phase.Operating?)
    then s.locks - {space}
    else s.locks
  }

  function NextPublished(s: State, step: Step): map<Space, nat>
    requires Enabled(s, step)
  {
    if step.Complete? then
      var Call(key, p) := s.calls[step.caller];
      Record(s, key, p.flight, p.outcome).published
    else s.published
  }

  function NextLog(s: State, step: Step): seq<Key>
    requires Enabled(s, step)
  {
    if step.Operated? && step.outcome.Ok? then s.log + [KeyOfCall(s, step)] else s.log
  }

  function Next(s: State, step: Step): State
    requires Enabled(s, step)
  {
    State(s.calls[step.caller := Call(KeyOfCall(s, step), NextPhase(s, step))],
          NextFlights(s, step), NextKeyOf(s, step), NextLeader(s, step), NextResults(s, step), NextNotified(s, step),
          NextLocks(s, step), NextPublished(s, step), NextLog(s, step))
  }

  // ---- the invariant ----

  /** A leader's flight is known by its key and its leader. */
  ghost predicate LeadsOwn(s: State, c: Caller)
    requires c in s.calls
  {
    var Call(key, p) := s.calls[c];
    Leads(p) ==> p.flight in s.keyOf && s.keyOf[p.flight] == key && p.flight in s.leader && s.leader[p.flight] == c
  }

  /** Until the result is recorded, the flight is in the map and has no result. */
  ghost predicate Unfinished(s: State, c: Caller)
    requires c in s.calls
  {
    var Call(key, p) := s.calls[c];
    && (InFlight(p) ==> key in s.flights && s.flights[key] == p.flight)
    && (InFlight(p) || p.Recorded? ==> p.flight !in s.results && p.flight !in s.notified)
  }

  /** The namespace lock is held as the phase says, and an operation runs only for an unpublished version. */
  ghost predicate HoldsOwn(s: State, c: Caller)
    requires c in s.calls
  {
    var Call(key, p) := s.calls[c];
    && (Holds(p) ==> key.space in s.locks && s.locks[key.space] == c)
    && (p.Operating? ==> !Published(s, key))
  }

  /** What a leader that has an outcome has already done with it. */
  ghost predicate CompletingOk(s: State, c: Caller)
    requires c in s.calls
  {
    var Call(key, p) := s.calls[c];
    && (p.Completing? || p.Recorded? || p.Notifying? || p.Leaving? ==> (!p.held ==> p.outcome.Err?))
    && (p.Recorded? || p.Notifying? || p.Leaving? ==> (p.outcome.Ok? ==> Published(s, key)))
    && (p.Notifying? || p.Leaving? ==> p.flight in s.results && s.results[p.flight] == p.outcome)
    && (p.Notifying? ==> p.flight !in s.notified)
    && (p.Leaving? ==> p.flight in s.notified)
  }

  /** What a follower, or a caller that is gone, can rely on. */
  ghost predicate FollowingOk(s: State, c: Caller)
    requires c in s.calls
  {
    var Call(key, p) := s.calls[c];
    && (Follows(p) ==> p.flight in s.keyOf && s.keyOf[p.flight] == key && p.flight in s.leader)
    && (p.Checking? && p.late ==> p.flight in s.results)
    && (p.Sleeping? ==> !p.late)
    && (p.Returned? && p.outcome.Ok? ==> Published(s, key))
    && (p.Returned? && p.via.Some? ==> p.via.value in s.results && s.results[p.via.value] == p.outcome)
    && (p.Dropped? && p.via.Some? ==> p.via.value in s.results && s.results[p.via.value].Err?)
  }

  ghost predicate CallOk(s: State, c: Caller)
    requires c in s.calls
  {
    LeadsOwn(s, c) && Unfinished(s, c) && HoldsOwn(s, c) && CompletingOk(s, c) && FollowingOk(s, c)
  }

  /** A flight in the map has a live leader that has not recorded its result. */
  ghost predicate FlightOk(s: State, key: Key)
    requires key in s.flights
  {
    var f := s.flights[key];
    && f in s.leader && s.leader[f] in s.calls
    && s.calls[s.leader[f]].key == key && InFlight(s.calls[s.leader[f]].phase) && s.calls[s.leader[f]].phase.flight == f
  }

  /** A known flight has a leader; a finished one has a result, an unfinished one a live leader. */
  ghost predicate LeaderOk(s: State, f: Flight)
    requires f in s.leader
  {
    && f in s.keyOf && s.leader[f] in s.calls && s.calls[s.leader[f]].key == s.keyOf[f]
    && (f in s.results ==> (s.results[f].Ok? ==> Published(s, s.keyOf[f])))
    && (f in s.notified ==> f in s.results)
    && (f !in s.notified ==> Live(s.calls[s.leader[f]].phase) && s.calls[s.leader[f]].phase.flight == f)
  }

  ghost predicate LockOk(s: State, space: Space)
    requires space in s.locks
  {
    && s.locks[space] in s.calls && s.calls[s.locks[space]].key.space == space && Holds(s.calls[s.locks[space]].phase)
  }

  /** A success not yet recorded belongs to the caller that holds the namespace lock. */
  ghost predicate Unrecorded(s: State, key: Key) {
    && key.space in s.locks && s.locks[key.space] in s.calls
    && s.calls[s.locks[key.space]].key == key
    && s.calls[s.locks[key.space]].phase.Completing? && s.calls[s.locks[key.space]].phase.outcome.Ok?
  }

  /** Successes of one namespace have strictly increasing versions. */
  ghost predicate Increasing(log: seq<Key>) {
    forall i, j | 0 <= i < j < |log| && log[i].space == log[j].space :: log[i].version < log[j].version
  }

  ghost predicate LogOk(s: State) {
    && Increasing(s.log)
    && forall i | 0 <= i < |s.log| :: Published(s, s.log[i]) || Unrecorded(s, s.log[i])
  }

  ghost predicate FlightsKnown(s: State) {
    s.keyOf.Keys == s.leader.Keys && s.results.Keys <= s.leader.Keys && s.notified <= s.leader.Keys
  }

  /** The shared parts of the invariant, without the callers' own beliefs. */
  ghost predicate SharedOk(s: State) {
    && (forall key | key in s.flights :: FlightOk(s, key))
    && (forall f | f in s.leader :: LeaderOk(s, f))
    && (forall space | space in s.locks :: LockOk(s, space))
    && FlightsKnown(s)
  }

  ghost predicate CallsOk(s: State) {
    forall c | c in s.calls :: CallOk(s, c)
  }

  ghost predicate Inv(s: State) {
    CallsOk(s) && SharedOk(s) && LogOk(s)
  }

  // ---- what a step of one caller leaves alone ----

  /** Flights known to `s` stay known, with the same key and leader. */
  ghost predicate Remembers(s: State, s': State) {
    && (forall f | f in s.leader :: f in s'.leader && s'.leader[f] == s.leader[f])
    && (forall f | f in s.keyOf :: f in s'.keyOf && s'.keyOf[f] == s.keyOf[f])
    && (forall f | f in s.results :: f in s'.results && s'.results[f] == s.results[f])
    && s.notified <= s'.notified
  }

  ghost predicate StaysPublished(s: State, s': State) {
    forall key | Published(s, key) :: Published(s', key)
  }

  ghost predicate OtherCalls(s: State, s': State, c: Caller) {
    && (forall d | d in s.calls && d != c :: d in s'.calls && s'.calls[d] == s.calls[d])
    && (forall d | d in s'.calls && d != c :: d in s.calls)
  }

  /** Everything new about a flight is the doing of caller `c`. */
  ghost predicate OwnFlights(s: State, s': State, c: Caller) {
    && (forall f | f in s'.leader && f !in s.leader :: s'.leader[f] == c)
    && (forall f | f in s'.results && f !in s.results :: f in s.leader && s.leader[f] == c)
    && (forall f | f in s'.notified && f !in s.notified :: f in s.leader && s.leader[f] == c)
    && (forall key | key in s.flights && key !in s'.flights :: s.flights[key] in s.leader && s.leader[s.flights[key]] == c)
    && (forall key | key in s.flights && key in s'.flights :: s'.flights[key] == s.flights[key])
    && (forall key | key in s'.flights && key !in s.flights :: s'.flights[key] in s'.leader && s'.leader[s'.flights[key]] == c)
  }

  /** Everything new about a lock or a publication is the doing of caller `c`. */
  ghost predicate OwnLocks(s: State, s': State, c: Caller) {
    && (forall space | space in s.locks && s.locks[space] != c :: space in s'.locks && s'.locks[space] == s.locks[space])
    && (forall space | space in s'.locks && s'.locks[space] != c :: space in s.locks && s.locks[space] == s'.locks[space])
    && (forall key | Published(s', key) && !Published(s, key) :: key.space in s.locks && s.locks[key.space] == c)
  }

  lemma StepRemembers(s: State, step: Step)
    requires Enabled(s, step) && FlightsKnown(s) && (step.Arrive? || Unfinished(s, step.caller))
    ensures Remembers(s, Next(s, step))
  {
  }

  lemma StepStaysPublished(s: State, step: Step)
    requires Enabled(s, step)
    ensures StaysPublished(s, Next(s, step))
  {
  }

  lemma StepOtherCalls(s: State, step: Step)
    requires Enabled(s, step)
    ensures OtherCalls(s, Next(s, step), step.caller)
  {
  }

  lemma StepOwnFlights(s: State, step: Step)
    requires Enabled(s, step) && FlightsKnown(s) && (step.Arrive? || LeadsOwn(s, step.caller))
    ensures OwnFlights(s, Next(s, step), step.caller)
  {
  }

  lemma StepOwnLocks(s: State, step: Step)
    requires Enabled(s, step) && (step.Arrive? || (HoldsOwn(s, step.caller) && CompletingOk(s, step.caller)))
    ensures OwnLocks(s, Next(s, step), step.caller)
  {
  }

  lemma StepKnown(s: State, step: Step)
    requires Enabled(s, step) && FlightsKnown(s) && (step.Arrive? || LeadsOwn(s, step.caller))
    ensures FlightsKnown(Next(s, step))
  {
    if step.Begin? && Enter(s, s.calls[step.caller].key).Starts? {
      var s' := Next(s, step);
      assert s'.keyOf.Keys == s'.leader.Keys;
    }
  }

  // ---- what a step of one caller means for another ----

  lemma OtherLeading(s: State, s': State, c: Caller, d: Caller)
    requires Remembers(s, s') && OtherCalls(s, s', c) && OwnFlights(s, s', c) && d != c && d in s.calls
    requires LeadsOwn(s, d) && Unfinished(s, d)
    ensures LeadsOwn(s', d) && Unfinished(s', d)
  {
  }

  lemma OtherHolds(s: State, s': State, c: Caller, d: Caller)
    requires OtherCalls(s, s', c) && OwnLocks(s, s', c) && d != c && d in s.calls && HoldsOwn(s, d)
    ensures HoldsOwn(s', d)
  {
  }

  lemma OtherCompleting(s: State, s': State, c: Caller, d: Caller)
    requires Remembers(s, s') && StaysPublished(s, s') && OtherCalls(s, s', c) && OwnFlights(s, s', c) && d != c && d in s.calls
    requires LeadsOwn(s, d) && CompletingOk(s, d) && FollowingOk(s, d)
    ensures CompletingOk(s', d) && FollowingOk(s', d)
  {
  }

  lemma OtherFlights(s: State, s': State, c: Caller, key: Key)
    requires Remembers(s, s') && OtherCalls(s, s', c) && OwnFlights(s, s', c) && key in s.flights && FlightOk(s, key)
    requires key in s'.flights && s'.flights[key] in s'.leader && s'.leader[s'.flights[key]] != c
    ensures FlightOk(s', key)
  {
  }

  lemma OtherLeaders(s: State, s': State, c: Caller, f: Flight)
    requires Remembers(s, s') && StaysPublished(s, s') && OtherCalls(s, s', c) && OwnFlights(s, s', c)
    requires f in s'.leader && s'.leader[f] != c && f in s.leader && LeaderOk(s, f)
    ensures LeaderOk(s', f)
  {
  }

  lemma OtherLocks(s: State, s': State, c: Caller, space: Space)
    requires OtherCalls(s, s', c) && space in s'.locks && s'.locks[space] != c
    requires space in s.locks && s.locks[space] == s'.locks[space] && LockOk(s, space)
    ensures LockOk(s', space)
  {
  }

  // ---- what a step means for its own caller ----

  lemma StepLeadsOwn(s: State, step: Step)
    requires Enabled(s, step) && (step.Arrive? || LeadsOwn(s, step.caller))
    ensures LeadsOwn(Next(s, step), step.caller)
  {
  }

  lemma StepUnfinished(s: State, step: Step)
    requires Enabled(s, step) && FlightsKnown(s) && (step.Arrive? || Unfinished(s, step.caller))
    ensures Unfinished(Next(s, step), step.caller)
  {
  }

  lemma StepHoldsOwn(s: State, step: Step)
    requires Enabled(s, step) && (step.Arrive? || HoldsOwn(s, step.caller))
    ensures HoldsOwn(Next(s, step), step.caller)
  {
  }

  lemma StepCompleting(s: State, step: Step)
    requires Enabled(s, step) && (step.Arrive? || (CompletingOk(s, step.caller) && Unfinished(s, step.caller)))
    ensures CompletingOk(Next(s, step), step.caller)
  {
  }

  /** The flight a follower step reads. */
  ghost predicate FlightRead(s: State, step: Step)
    requires Enabled(s, step)
  {
    match step
    case Begin(c, _) => s.calls[c].key in s.flights ==>
                          FlightOk(s, s.calls[c].key) && LeaderOk(s, s.flights[s.calls[c].key])
    case Listen(c) => s.calls[c].phase.flight in s.leader && LeaderOk(s, s.calls[c].phase.flight)
    case Check(c) => s.calls[c].phase.flight in s.leader && LeaderOk(s, s.calls[c].phase.flight)
    case _ => true
  }

  /** A late listener finds the result, so no follower falls asleep after the wake-up. */
  lemma StepFollowing(s: State, step: Step)
    requires Enabled(s, step) && (step.Arrive? || (FollowingOk(s, step.caller) && CompletingOk(s, step.caller))) && FlightRead(s, step)
    ensures FollowingOk(Next(s, step), step.caller)
  {
  }

  lemma StepReads(s: State, step: Step)
    requires Enabled(s, step) && (step.Arrive? || FollowingOk(s, step.caller)) && SharedOk(s)
    ensures FlightRead(s, step)
  {
    if step.Begin? && s.calls[step.caller].key in s.flights {
      assert FlightOk(s, s.calls[step.caller].key);
      assert LeaderOk(s, s.flights[s.calls[step.caller].key]);
    }
  }

  /** A flight in the map that the caller leads after the step. */
  lemma OwnFlight(s: State, step: Step, key: Key)
    requires Enabled(s, step) && (key in s.flights ==> FlightOk(s, key))
    requires key in Next(s, step).flights && Next(s, step).flights[key] in Next(s, step).leader
    requires Next(s, step).leader[Next(s, step).flights[key]] == step.caller
    requires step.Begin? ==> step.flight !in s.leader
    ensures FlightOk(Next(s, step), key)
  {
  }

  lemma OwnLive(s: State, step: Step, f: Flight)
    requires Enabled(s, step) && FlightsKnown(s) && (f in s.leader ==> LeaderOk(s, f))
    requires step.Arrive? || LeadsOwn(s, step.caller)
    requires f in Next(s, step).leader && Next(s, step).leader[f] == step.caller && f !in Next(s, step).notified
    ensures Live(NextPhase(s, step)) && NextPhase(s, step).flight == f
  {
  }

  lemma OwnLeader(s: State, step: Step, f: Flight)
    requires Enabled(s, step) && FlightsKnown(s) && (f in s.leader ==> LeaderOk(s, f)) && StaysPublished(s, Next(s, step))
    requires step.Arrive? || (LeadsOwn(s, step.caller) && CompletingOk(s, step.caller))
    requires f in Next(s, step).leader && Next(s, step).leader[f] == step.caller
    ensures LeaderOk(Next(s, step), f)
  {
    if f !in Next(s, step).notified { OwnLive(s, step, f); }
  }

  lemma OwnLock(s: State, step: Step, space: Space)
    requires Enabled(s, step) && (space in s.locks ==> LockOk(s, space))
    requires space in Next(s, step).locks && Next(s, step).locks[space] == step.caller
    ensures LockOk(Next(s, step), space)
  {
  }

  // ---- the log of successes ----

  lemma StepUnrecorded(s: State, step: Step, key: Key)
    requires Enabled(s, step) && (step.Arrive? || HoldsOwn(s, step.caller)) && (Published(s, key) || Unrecorded(s, key))
    ensures Published(Next(s, step), key) || Unrecorded(Next(s, step), key)
  {
  }

  /** A success is newer than every earlier success of its namespace. */
  lemma SuccessIsNewer(s: State, c: Caller, i: nat)
    requires LogOk(s) && c in s.calls && s.calls[c].phase.Operating? && HoldsOwn(s, c)
    requires i < |s.log| && s.log[i].space == s.calls[c].key.space
    ensures s.log[i].version < s.calls[c].key.version
  {
    assert Published(s, s.log[i]) || Unrecorded(s, s.log[i]);
  }

  lemma StepLog(s: State, step: Step)
    requires Enabled(s, step)
    ensures Next(s, step).log == s.log + if step.Operated? && step.outcome.Ok? then [s.calls[step.caller].key] else []
  {
  }

  lemma StepLogOk(s: State, step: Step)
    requires Enabled(s, step) && (step.Arrive? || HoldsOwn(s, step.caller)) && LogOk(s)
    ensures LogOk(Next(s, step))
  {
    var s' := Next(s, step);
    StepLog(s, step);
    forall i | 0 <= i < |s.log| ensures Published(s', s.log[i]) || Unrecorded(s', s.log[i]) {
      StepUnrecorded(s, step, s.log[i]);
    }
    if step.Operated? && step.outcome.Ok? {
      forall i | 0 <= i < |s.log| && s.log[i].space == s.calls[step.caller].key.space
        ensures s.log[i].version < s.calls[step.caller].key.version
      {
        SuccessIsNewer(s, step.caller, i);
      }
      assert Unrecorded(s', s.calls[step.caller].key);
    }
  }

  // ---- every step keeps the invariant ----

  lemma StepBelieved(s: State, step: Step)
    requires CallsOk(s) && Enabled(s, step)
    ensures step.Arrive? || (step.caller in s.calls && CallOk(s, step.caller))
  {
  }

  lemma StepFrame(s: State, step: Step)
    requires Inv(s) && Enabled(s, step)
    ensures var s' := Next(s, step);
            && Remembers(s, s') && StaysPublished(s, s') && OtherCalls(s, s', step.caller)
            && OwnFlights(s, s', step.caller) && OwnLocks(s, s', step.caller)
  {
    StepBelieved(s, step);
    StepRemembers(s, step);
    StepStaysPublished(s, step);
    StepOtherCalls(s, step);
    StepOwnFlights(s, step);
    StepOwnLocks(s, step);
  }

  lemma StepOwnCall(s: State, step: Step)
    requires Inv(s) && Enabled(s, step)
    ensures CallOk(Next(s, step), step.caller)
  {
    StepBelieved(s, step);
    StepReads(s, step);
    StepLeadsOwn(s, step);
    StepUnfinished(s, step);
    StepHoldsOwn(s, step);
    StepCompleting(s, step);
    StepFollowing(s, step);
  }

  lemma StepCallsOk(s: State, step: Step)
    requires Inv(s) && Enabled(s, step)
    ensures CallsOk(Next(s, step))
  {
    var s', c := Next(s, step), step.caller;
    forall d | d in s'.calls ensures CallOk(s', d) {
      if d == c {
        StepOwnCall(s, step);
      } else {
        StepFrame(s, step);
        assert CallOk(s, d);
        OtherLeading(s, s', c, d);
        OtherHolds(s, s', c, d);
        OtherCompleting(s, s', c, d);
      }
    }
  }

  lemma StepFlightOk(s: State, step: Step, key: Key)
    requires Inv(s) && Enabled(s, step) && key in Next(s, step).flights
    ensures FlightOk(Next(s, step), key)
  {
    var s', c := Next(s, step), step.caller;
    StepFrame(s, step);
    if key in s.flights { assert FlightOk(s, key); }
    if s'.leader[s'.flights[key]] == c {
      StepBelieved(s, step);
      OwnFlight(s, step, key);
    } else {
      OtherFlights(s, s', c, key);
    }
  }

  lemma StepLeaderOk(s: State, step: Step, f: Flight)
    requires Inv(s) && Enabled(s, step) && f in Next(s, step).leader
    ensures LeaderOk(Next(s, step), f)
  {
    var s', c := Next(s, step), step.caller;
    StepFrame(s, step);
    if f in s.leader { assert LeaderOk(s, f); }
    if s'.leader[f] == c {
      StepBelieved(s, step);
      OwnLeader(s, step, f);
    } else {
      OtherLeaders(s, s', c, f);
    }
  }

  lemma StepLockOk(s: State, step: Step, space: Space)
    requires Inv(s) && Enabled(s, step) && space in Next(s, step).locks
    ensures LockOk(Next(s, step), space)
  {
    var s', c := Next(s, step), step.caller;
    StepFrame(s, step);
    if space in s.locks { assert LockOk(s, space); }
    if s'.locks[space] == c {
      StepBelieved(s, step);
      OwnLock(s, step, space);
    } else {
      OtherLocks(s, s', c, space);
    }
  }

  lemma StepSharedOk(s: State, step: Step)
    requires Inv(s) && Enabled(s, step)
    ensures SharedOk(Next(s, step))
  {
    var s' := Next(s, step);
    forall key | key in s'.flights ensures FlightOk(s', key) { StepFlightOk(s, step, key); }
    forall f | f in s'.leader ensures LeaderOk(s', f) { StepLeaderOk(s, step, f); }
    forall space | space in s'.locks ensures LockOk(s', space) { StepLockOk(s, step, space); }
    StepBelieved(s, step);
    StepKnown(s, step);
  }

  lemma StepKeepsInv(s: State, step: Step)
    requires Inv(s) && Enabled(s, step)
    ensures Inv(Next(s, step))
  {
    var s' := Next(s, step);
    assert CallsOk(s') by { StepCallsOk(s, step); }
    assert SharedOk(s') by { StepSharedOk(s, step); }
    assert LogOk(s') by {
      StepBelieved(s, step);
      StepLogOk(s, step);
    }
  }
}
