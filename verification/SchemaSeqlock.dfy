/**
  The versioned schema read of one namespace. Publishers store a schema and then bump the
  version; readers read the version, the schema, and the version again. Any number of both
  run at once, and each step is one access to shared memory.
 */
module SchemaSeqlock {
  import opened Basics
  import opened SchemaSuperset

  type Actor = nat

  const MAX_ITERS: nat := 50

  /** What an actor does once a publication it started is over. */
  datatype After = Stop | Resume(v1: nat, iters: nat)

  /**
    One load of the schema: the value, how many publications there had been, the version at that
    moment, and how many publishers had stored a schema without having bumped the version.
   */
  datatype Load = Load(schema: Schema, number: nat, version: nat, pending: nat)

  datatype Phase =
    | Offering(candidate: Schema, after: After)
    | Stored(after: After)
    | Starting(iters: nat)
    | Probing(v1: nat, iters: nat)
    | Preparing(v1: nat, iters: nat)
    | Loading(v1: nat, iters: nat)
    | Holding(v1: nat, iters: nat, load: Load)
    | Exhausted(v1: nat, load: Load)
    | Returned(v1: nat, load: Load, hash: nat, stable: bool)
    | Done

  /** `history` lists every schema ever stored; readers and publishers see only `current`. */
  datatype State = State(current: Option<Schema>, version: nat, actors: map<Actor, Phase>, history: seq<Schema>)

  const EMPTY: State := State(None, 0, map[], [])

  /** Actors that have stored a schema and not yet bumped the version. */
  function Pending(s: State): set<Actor> {
    set a | a in s.actors && s.actors[a].Stored?
  }

  datatype Step =
    | Publish(actor: Actor, candidate: Schema)
    | Read(actor: Actor)
    | ReadVersion(actor: Actor)
    | Probe(actor: Actor)
    | Prepare(actor: Actor, candidate: Schema)
    | Store(actor: Actor)
    | Bump(actor: Actor)
    | LoadSchema(actor: Actor)
    | Compare(actor: Actor)
    | LastRead(actor: Actor)

  predicate Enabled(s: State, step: Step) {
    if step.Publish? || step.Read? then step.actor !in s.actors
    else
      && step.actor in s.actors
      && var p := s.actors[step.actor];
         match step
         case ReadVersion(_) => p.Starting?
         case Probe(_) => p.Probing?
         case Prepare(_, _) => p.Preparing?
         case Store(_) => p.Offering?
         case Bump(_) => p.Stored?
         case LoadSchema(_) => p.Loading? && s.current.Some?
         case Compare(_) => p.Holding?
         case LastRead(_) => p.Exhausted?
  }

  /** A schema is stored when there is none, or when it differs from the current one and is a superset of it. */
  predicate Accepts(fp: Schema -> string, current: Option<Schema>, candidate: Schema) {
    current.None? || (fp(current.value) != fp(candidate) && IsSuperset(candidate, current.value))
  }

  function Then(after: After): Phase {
    match after
    case Stop => Done
    case Resume(v1, iters) => Loading(v1, iters)
  }

  function NextPhase(fp: Schema -> string, s: State, step: Step): Phase
    requires Enabled(s, step)
  {
    match step
    case Publish(_, candidate) => Offering(candidate, Stop)
    case Read(_) => Starting(0)
    case ReadVersion(a) => Probing(s.version, s.actors[a].iters)
    case Probe(a) =>
      var Probing(v1, iters) := s.actors[a];
      if s.current.Some? then Loading(v1, iters) else Preparing(v1, iters)
    case Prepare(a, candidate) =>
      var Preparing(v1, iters) := s.actors[a];
      if s.current.Some? then Loading(v1, iters) else Offering(candidate, Resume(v1, iters))
    case Store(a) =>
      var Offering(candidate, after) := s.actors[a];
      if Accepts(fp, s.current, candidate) then Stored(after) else Then(after)
    case Bump(a) => Then(s.actors[a].after)
    case LoadSchema(a) =>
      var Loading(v1, iters) := s.actors[a];
      Holding(v1, iters, Load(s.current.value, |s.history|, s.version, |Pending(s)|))
    case Compare(a) =>
      var Holding(v1, iters, load) := s.actors[a];
      if v1 == s.version then Returned(v1, load, v1, true)
      else if iters >= MAX_ITERS then Exhausted(v1, load)
      else Starting(iters + 1)
    case LastRead(a) => Returned(s.actors[a].v1, s.actors[a].load, s.version, false)
  }

  function Next(fp: Schema -> string, s: State, step: Step): State
    requires Enabled(s, step)
  {
    var actors := s.actors[step.actor := NextPhase(fp, s, step)];
    if step.Store? && Accepts(fp, s.current, s.actors[step.actor].candidate) then
      var candidate := s.actors[step.actor].candidate;
      State(Some(candidate), s.version, actors, s.history + [candidate])
    else if step.Bump? then State(s.current, s.version + 1, actors, s.history)
    else State(s.current, s.version, actors, s.history)
  }

  // ---- the invariant ----

  /** Each publication is a superset of every earlier one. */
  ghost predicate Growing(history: seq<Schema>) {
    forall i, j | 0 <= i < j < |history| :: IsSuperset(history[j], history[i])
  }

  ghost predicate LoadOk(s: State, v1: nat, load: Load) {
    && 1 <= load.number <= |s.history| && load.schema == s.history[load.number - 1]
    && v1 <= load.version <= s.version && load.number == load.version + load.pending
  }

  ghost predicate ActorOk(s: State, a: Actor)
    requires a in s.actors
  {
    match s.actors[a]
    case Offering(_, Resume(v1, iters)) => v1 <= s.version && iters <= MAX_ITERS
    case Stored(Resume(v1, iters)) => v1 <= s.version && iters <= MAX_ITERS && s.current.Some?
    case Starting(iters) => iters <= MAX_ITERS
    case Probing(v1, iters) => v1 <= s.version && iters <= MAX_ITERS
    case Preparing(v1, iters) => v1 <= s.version && iters <= MAX_ITERS
    case Loading(v1, iters) => v1 <= s.version && iters <= MAX_ITERS && s.current.Some?
    case Holding(v1, iters, load) => iters <= MAX_ITERS && LoadOk(s, v1, load)
    case Exhausted(v1, load) => v1 < s.version && LoadOk(s, v1, load)
    case Returned(v1, load, hash, stable) =>
      && LoadOk(s, v1, load) && hash <= s.version
      && (stable ==> hash == v1 == load.version) && (!stable ==> v1 < hash && load.version <= hash)
    case _ => true
  }

  ghost predicate Inv(s: State) {
    && s.current == (if s.history == [] then None else Some(s.history[|s.history| - 1]))
    && s.version + |Pending(s)| == |s.history|
    && Growing(s.history)
    && forall a | a in s.actors :: ActorOk(s, a)
  }

  lemma PendingMoves(s: State, a: Actor, p: Phase)
    ensures var s' := s.(actors := s.actors[a := p]);
            |Pending(s')| == |Pending(s)| + (if p.Stored? then 1 else 0) - (if a in Pending(s) then 1 else 0)
  {
    var s' := s.(actors := s.actors[a := p]);
    assert Pending(s') == if p.Stored? then Pending(s) - {a} + {a} else Pending(s) - {a};
  }

  lemma StepPending(fp: Schema -> string, s: State, step: Step)
    requires Enabled(s, step)
    ensures var s' := Next(fp, s, step);
            s'.version + |Pending(s')| - |s'.history| == s.version + |Pending(s)| - |s.history|
  {
    PendingMoves(s, step.actor, NextPhase(fp, s, step));
    assert Pending(Next(fp, s, step)) == Pending(s.(actors := s.actors[step.actor := NextPhase(fp, s, step)]));
  }

  lemma StoreGrows(fp: Schema -> string, history: seq<Schema>, candidate: Schema)
    requires Growing(history)
    requires history != [] ==> IsSuperset(candidate, history[|history| - 1])
    ensures Growing(history + [candidate])
  {
    forall i | 0 <= i < |history| ensures IsSuperset(candidate, history[i]) {
      if i < |history| - 1 { SupersetTransitive(candidate, history[|history| - 1], history[i]); }
    }
  }

  lemma StepHistory(fp: Schema -> string, s: State, step: Step)
    requires Inv(s) && Enabled(s, step)
    ensures var s' := Next(fp, s, step);
            && s'.current == (if s'.history == [] then None else Some(s'.history[|s'.history| - 1]))
            && Growing(s'.history) && s.history <= s'.history && s.version <= s'.version
  {
    if step.Store? && Accepts(fp, s.current, s.actors[step.actor].candidate) {
      StoreGrows(fp, s.history, s.actors[step.actor].candidate);
    }
  }

  /** Facts about an actor survive every step of another one. */
  lemma OthersKeep(s: State, s': State, a: Actor)
    requires a in s.actors && a in s'.actors && s'.actors[a] == s.actors[a] && ActorOk(s, a)
    requires s.history <= s'.history && s.version <= s'.version && (s.current.Some? ==> s'.current.Some?)
    ensures ActorOk(s', a)
  {
  }

  lemma OwnKeeps(fp: Schema -> string, s: State, step: Step)
    requires Inv(s) && Enabled(s, step)
    ensures ActorOk(Next(fp, s, step), step.actor)
  {
    if step.actor in s.actors { assert ActorOk(s, step.actor); }
  }

  lemma StepKeepsInv(fp: Schema -> string, s: State, step: Step)
    requires Inv(s) && Enabled(s, step)
    ensures Inv(Next(fp, s, step))
  {
    var s' := Next(fp, s, step);
    StepPending(fp, s, step);
    StepHistory(fp, s, step);
    forall a | a in s'.actors ensures ActorOk(s', a) {
      if a == step.actor { OwnKeeps(fp, s, step); } else { OthersKeep(s, s', a); }
    }
  }

  // ---- whole runs ----

  ghost predicate StepBetween(fp: Schema -> string, s: State, step: Step, s': State) {
    Enabled(s, step) && s' == Next(fp, s, step)
  }

  ghost predicate IsRun(fp: Schema -> string, states: seq<State>, steps: seq<Step>) {
    && |states| == |steps| + 1 && states[0] == EMPTY
    && forall i | 0 <= i < |steps| :: StepBetween(fp, states[i], steps[i], states[i + 1])
  }

  lemma {:induction false} RunKeepsInv(fp: Schema -> string, states: seq<State>, steps: seq<Step>, n: nat)
    requires IsRun(fp, states, steps) && n < |states|
    ensures Inv(states[n])
  {
    if n > 0 {
      RunKeepsInv(fp, states, steps, n - 1);
      assert StepBetween(fp, states[n - 1], steps[n - 1], states[n - 1 + 1]);
      StepKeepsInv(fp, states[n - 1], steps[n - 1]);
    }
  }

  /** Every load in a run saw at most `k` publishers between store and bump. */
  ghost predicate AtMost(k: nat, s: State) {
    forall a | a in s.actors && (s.actors[a].Holding? || s.actors[a].Exhausted? || s.actors[a].Returned?) ::
      s.actors[a].load.pending <= k
  }

  lemma {:induction false} LoadsSeeFew(fp: Schema -> string, states: seq<State>, steps: seq<Step>, k: nat, n: nat)
    requires IsRun(fp, states, steps) && n < |states| && forall i | 0 <= i < |states| :: |Pending(states[i])| <= k
    ensures AtMost(k, states[n])
  {
    if n > 0 {
      LoadsSeeFew(fp, states, steps, k, n - 1);
      assert StepBetween(fp, states[n - 1], steps[n - 1], states[n - 1 + 1]);
      assert |Pending(states[n - 1])| <= k;
    }
  }

  /**
    A read that returns because both version reads gave `v` yields publication number `v` plus the
    publishers that were between store and bump when the schema was loaded: never an older one than
    `v`, hence publication `v` or a superset of it, and exactly publication `v` if and only if no
    publisher was in between.
   */
  lemma StableRead(fp: Schema -> string, states: seq<State>, steps: seq<Step>, n: nat, a: Actor)
    requires IsRun(fp, states, steps) && n < |states| && a in states[n].actors
    requires states[n].actors[a].Returned? && states[n].actors[a].stable
    ensures var Returned(_, load, v, _) := states[n].actors[a];
            && v <= load.number <= |states[n].history| && 1 <= load.number
            && load.schema == states[n].history[load.number - 1]
            && (load.number == v <==> load.pending == 0) && load.number == v + load.pending
            && (1 <= v < load.number ==> IsSuperset(load.schema, states[n].history[v - 1]))
  {
    RunKeepsInv(fp, states, steps, n);
    assert ActorOk(states[n], a);
  }

  /** With one publisher at a time, a stable read of version `v` yields publication `v` or `v + 1`. */
  lemma OnePublisher(fp: Schema -> string, states: seq<State>, steps: seq<Step>, n: nat, a: Actor)
    requires IsRun(fp, states, steps) && n < |states| && a in states[n].actors
    requires forall i | 0 <= i < |states| :: |Pending(states[i])| <= 1
    requires states[n].actors[a].Returned? && states[n].actors[a].stable
    ensures states[n].actors[a].load.number in {states[n].actors[a].hash, states[n].actors[a].hash + 1}
  {
    StableRead(fp, states, steps, n, a);
    LoadsSeeFew(fp, states, steps, 1, n);
  }

  /**
    A read that gives up after `MAX_ITERS` retries promises less: its schema is not older than the
    version it started from, and the version it reports is strictly newer than that. The reported
    version is ahead of the schema exactly when more publishers have bumped it since the load than
    were between store and bump at the load, and then its own schema is a superset of the one returned.
   */
  lemma ExhaustedRead(fp: Schema -> string, states: seq<State>, steps: seq<Step>, n: nat, a: Actor)
    requires IsRun(fp, states, steps) && n < |states| && a in states[n].actors
    requires states[n].actors[a].Returned? && !states[n].actors[a].stable
    ensures var Returned(v1, load, hash, _) := states[n].actors[a];
            && v1 < hash <= states[n].version && 1 <= load.number <= |states[n].history| && v1 <= load.number
            && load.schema == states[n].history[load.number - 1]
            && (1 <= v1 < load.number ==> IsSuperset(load.schema, states[n].history[v1 - 1]))
            && (load.number < hash <==> hash - load.version > load.pending)
            && (load.number < hash ==> hash <= |states[n].history| && IsSuperset(states[n].history[hash - 1], load.schema))
  {
    RunKeepsInv(fp, states, steps, n);
    assert ActorOk(states[n], a);
  }

  /** In every reachable state, a reader about to load the schema finds one. */
  lemma LoadNeverMisses(fp: Schema -> string, states: seq<State>, steps: seq<Step>, n: nat, a: Actor)
    requires IsRun(fp, states, steps) && n < |states| && a in states[n].actors && states[n].actors[a].Loading?
    ensures Enabled(states[n], LoadSchema(a))
  {
    RunKeepsInv(fp, states, steps, n);
    assert ActorOk(states[n], a);
  }

  /** A publisher that has stored `y` and not bumped, and a reader that passes by. */
  ghost function Passing(y: Schema, x: Schema, p: Phase): State {
    State(Some(y), 1, map[0 := Done, 1 := Stored(Stop), 2 := p], [x, y])
  }

  lemma PublishHalf(fp: Schema -> string, x: Schema, y: Schema) returns (states: seq<State>, steps: seq<Step>)
    requires fp(x) != fp(y) && IsSuperset(y, x)
    ensures IsRun(fp, states, steps) && forall i | 0 <= i < |states| :: |Pending(states[i])| <= 1
    ensures states[|steps|] == State(Some(y), 1, map[0 := Done, 1 := Stored(Stop)], [x, y])
  {
    steps := [Publish(0, x), Store(0), Bump(0), Publish(1, y), Store(1)];
    states := [
      EMPTY,
      State(None, 0, map[0 := Offering(x, Stop)], []),
      State(Some(x), 0, map[0 := Stored(Stop)], [x]),
      State(Some(x), 1, map[0 := Done], [x]),
      State(Some(x), 1, map[0 := Done, 1 := Offering(y, Stop)], [x]),
      State(Some(y), 1, map[0 := Done, 1 := Stored(Stop)], [x, y])];
    forall i | 0 <= i < |steps| ensures StepBetween(fp, states[i], steps[i], states[i + 1]) {}
    forall i | 0 <= i < |states| ensures |Pending(states[i])| <= 1 { Few(Pending(states[i])); }
  }

  lemma ReadPast(fp: Schema -> string, x: Schema, y: Schema, start: State) returns (states: seq<State>, steps: seq<Step>)
    requires start == State(Some(y), 1, map[0 := Done, 1 := Stored(Stop)], [x, y])
    ensures |states| == |steps| + 1 && states[0] == start
    ensures forall i | 0 <= i < |steps| :: StepBetween(fp, states[i], steps[i], states[i + 1])
    ensures forall i | 0 <= i < |states| :: |Pending(states[i])| <= 1
    ensures states[|steps|] == Passing(y, x, Returned(1, Load(y, 2, 1, 1), 1, true))
  {
    var load := Load(y, 2, 1, 1);
    steps := [Read(2), ReadVersion(2), Probe(2), LoadSchema(2), Compare(2)];
    states := [start, Passing(y, x, Starting(0)), Passing(y, x, Probing(1, 0)), Passing(y, x, Loading(1, 0)),
               Passing(y, x, Holding(1, 0, load)), Passing(y, x, Returned(1, load, 1, true))];
    assert Pending(states[3]) == {1};
    forall i | 0 <= i < |steps| ensures StepBetween(fp, states[i], steps[i], states[i + 1]) {}
    forall i | 0 <= i < |states| ensures |Pending(states[i])| <= 1 { Few(Pending(states[i])); }
  }

  /** A stable read can pair the schema of publication 2 with version 1. */
  lemma NewSchemaOldVersion(fp: Schema -> string, x: Schema, y: Schema) returns (states: seq<State>, steps: seq<Step>)
    requires fp(x) != fp(y) && IsSuperset(y, x)
    ensures IsRun(fp, states, steps) && forall i | 0 <= i < |states| :: |Pending(states[i])| <= 1
    ensures states[|steps|].actors == map[0 := Done, 1 := Stored(Stop), 2 := Returned(1, Load(y, 2, 1, 1), 1, true)]
  {
    var ss, xs := PublishHalf(fp, x, y);
    var ts, ys := ReadPast(fp, x, y, ss[|xs|]);
    states, steps := ss + ts[1..], xs + ys;
    forall i | 0 <= i < |steps| ensures StepBetween(fp, states[i], steps[i], states[i + 1]) {
      if i < |xs| {
        assert StepBetween(fp, ss[i], xs[i], ss[i + 1]);
      } else {
        assert states[i] == ts[i - |xs|] && states[i + 1] == ts[i - |xs| + 1];
        assert StepBetween(fp, ts[i - |xs|], ys[i - |xs|], ts[i - |xs| + 1]);
      }
    }
  }

  lemma Few(pending: set<Actor>)
    requires pending <= {0} || pending <= {1}
    ensures |pending| <= 1
  {
    assert pending == {} || pending == {0} || pending == {1};
  }
}
