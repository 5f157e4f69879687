/** How often a versioned read tries, when it returns, and what a publication changes. */
module SchemaReads {
  import opened Basics
  import opened SchemaSuperset
  import opened SchemaSeqlock

  // ---- what is published is read ----

  /** The states that the steps lead through, one after the other. */
  ghost predicate Passes(fp: Schema -> string, states: seq<State>, steps: seq<Step>) {
    |states| == |steps| + 1 && forall i | 0 <= i < |steps| :: StepBetween(fp, states[i], steps[i], states[i + 1])
  }

  /** The steps of a read, in their order. */
  ghost predicate ReadAlone(steps: seq<Step>, b: Actor) {
    steps == [Read(b), ReadVersion(b), Probe(b), LoadSchema(b), Compare(b)]
  }

  /** The actor has returned the schema and the version, as a stable read. */
  ghost predicate HasRead(s: State, b: Actor, schema: Schema, version: nat) {
    b in s.actors && s.actors[b].Returned? && s.actors[b].stable && s.actors[b].load.schema == schema && s.actors[b].hash == version
  }

  /** A read that nobody disturbs returns the current schema and version, as stable. */
  lemma UndisturbedRead(fp: Schema -> string, s: State, b: Actor) returns (states: seq<State>, steps: seq<Step>)
    requires b !in s.actors && s.current.Some?
    ensures Passes(fp, states, steps) && states[0] == s && ReadAlone(steps, b)
    ensures HasRead(states[|steps|], b, s.current.value, s.version)
  {
    var s1 := Next(fp, s, Read(b));
    var s2 := Next(fp, s1, ReadVersion(b));
    var s3 := Next(fp, s2, Probe(b));
    var s4 := Next(fp, s3, LoadSchema(b));
    var s5 := Next(fp, s4, Compare(b));
    states, steps := [s, s1, s2, s3, s4, s5], [Read(b), ReadVersion(b), Probe(b), LoadSchema(b), Compare(b)];
  }

  /** An offered schema may take the place of the current one. */
  ghost predicate MayFollow(fp: Schema -> string, s: State, candidate: Schema) {
    s.current.None? || (fp(s.current.value) != fp(candidate) && IsSuperset(candidate, s.current.value))
  }

  /** Offering a schema that may follow makes it current under the next version; any other offer changes nothing. */
  lemma OfferEnds(fp: Schema -> string, s: State, a: Actor) returns (states: seq<State>, steps: seq<Step>)
    requires a in s.actors && s.actors[a].Offering? && s.actors[a].after.Stop?
    ensures Passes(fp, states, steps) && states[0] == s
    ensures steps == if MayFollow(fp, s, s.actors[a].candidate) then [Store(a), Bump(a)] else [Store(a)]
    ensures var end := states[|steps|];
            && end.actors == s.actors[a := Done]
            && end.current == (if MayFollow(fp, s, s.actors[a].candidate) then Some(s.actors[a].candidate) else s.current)
            && end.version == (if MayFollow(fp, s, s.actors[a].candidate) then s.version + 1 else s.version)
  {
    var s1 := Next(fp, s, Store(a));
    if s1.actors[a].Stored? {
      states, steps := [s, s1, Next(fp, s1, Bump(a))], [Store(a), Bump(a)];
    } else {
      states, steps := [s, s1], [Store(a)];
    }
  }

  /**
    A publisher's candidate is what the next read returns, under the next version, if there is no schema
    yet, or if it has another fingerprint and keeps every field of the current one; otherwise the next
    read returns what it would have returned before.
   */
  lemma PublishedIsRead(fp: Schema -> string, s: State, a: Actor, b: Actor)
      returns (offer: seq<State>, offering: seq<Step>, read: seq<State>, reading: seq<Step>)
    requires a in s.actors && b !in s.actors && s.actors[a].Offering? && s.actors[a].after.Stop?
    ensures Passes(fp, offer, offering) && offer[0] == s && offer[|offering|].actors == s.actors[a := Done]
    ensures Passes(fp, read, reading) && read[0] == offer[|offering|] && ReadAlone(reading, b)
    ensures if MayFollow(fp, s, s.actors[a].candidate) then HasRead(read[|reading|], b, s.actors[a].candidate, s.version + 1)
            else HasRead(read[|reading|], b, s.current.value, s.version)
  {
    offer, offering := OfferEnds(fp, s, a);
    read, reading := UndisturbedRead(fp, offer[|offering|], b);
  }

  /** Two publications in a row have different fingerprints. */
  ghost predicate Changing(fp: Schema -> string, history: seq<Schema>) {
    forall i | 0 < i < |history| :: fp(history[i - 1]) != fp(history[i])
  }

  /** In every run each publication differs from the one before it. */
  lemma {:induction false} PublicationsChange(fp: Schema -> string, states: seq<State>, steps: seq<Step>, n: nat)
    requires IsRun(fp, states, steps) && n < |states|
    ensures Changing(fp, states[n].history)
  {
    if n > 0 {
      PublicationsChange(fp, states, steps, n - 1);
      RunKeepsInv(fp, states, steps, n - 1);
      assert StepBetween(fp, states[n - 1], steps[n - 1], states[n - 1 + 1]);
    }
  }

  // ---- how often a read tries ----

  /** How many of the first `n` steps compare versions for the reader. */
  function Tries(steps: seq<Step>, n: nat, a: Actor): nat
    requires n <= |steps|
  {
    if n == 0 then 0 else Tries(steps, n - 1, a) + if steps[n - 1] == Compare(a) then 1 else 0
  }

  /** The tries a reader in this phase has behind it. */
  ghost predicate Tried(p: Phase, tries: nat) {
    match p
    case Offering(_, Resume(_, iters)) => tries == iters
    case Stored(Resume(_, iters)) => tries == iters
    case Starting(iters) => tries == iters
    case Probing(_, iters) => tries == iters
    case Preparing(_, iters) => tries == iters
    case Loading(_, iters) => tries == iters
    case Holding(_, iters, _) => tries == iters
    case Exhausted(_, _) => tries == MAX_ITERS + 1
    case Returned(_, _, _, stable) => if stable then 1 <= tries <= MAX_ITERS + 1 else tries == MAX_ITERS + 1
    case _ => tries == 0
  }

  ghost predicate AllTried(s: State, steps: seq<Step>, n: nat)
    requires n <= |steps|
  {
    forall a :: if a in s.actors then Tried(s.actors[a], Tries(steps, n, a)) else Tries(steps, n, a) == 0
  }

  lemma StepTried(fp: Schema -> string, s: State, step: Step, tries: nat)
    requires Inv(s) && Enabled(s, step)
    requires if step.actor in s.actors then Tried(s.actors[step.actor], tries) else tries == 0
    ensures Tried(NextPhase(fp, s, step), tries + if step.Compare? then 1 else 0)
  {
    if step.actor in s.actors { assert ActorOk(s, step.actor); }
  }

  lemma {:induction false} RunTried(fp: Schema -> string, states: seq<State>, steps: seq<Step>, n: nat)
    requires IsRun(fp, states, steps) && n < |states|
    ensures AllTried(states[n], steps, n)
  {
    if n > 0 {
      var s, step := states[n - 1], steps[n - 1];
      RunTried(fp, states, steps, n - 1);
      RunKeepsInv(fp, states, steps, n - 1);
      assert StepBetween(fp, s, step, states[n - 1 + 1]);
      StepTried(fp, s, step, Tries(steps, n - 1, step.actor));
      forall a
        ensures if a in states[n].actors then Tried(states[n].actors[a], Tries(steps, n, a)) else Tries(steps, n, a) == 0
      {
        assert a != step.actor ==> steps[n - 1] != Compare(a);
      }
    }
  }

  /**
    A read gives up only at its 51st try, and a stable one takes at most as many. It returns at the first
    try at which the two versions are equal: at every other the version had changed.
   */
  lemma ReadTries(fp: Schema -> string, states: seq<State>, steps: seq<Step>, n: nat, a: Actor)
    requires IsRun(fp, states, steps) && n < |states| && a in states[n].actors && states[n].actors[a].Returned?
    ensures if states[n].actors[a].stable then 1 <= Tries(steps, n, a) <= 51 else Tries(steps, n, a) == 51
  {
    RunTried(fp, states, steps, n);
  }

  /** A try ends the read as stable exactly when the version is the one read first; else it tries again up to 51 times. */
  lemma TryExactly(fp: Schema -> string, states: seq<State>, steps: seq<Step>, i: nat, a: Actor)
    requires IsRun(fp, states, steps) && i < |steps| && steps[i] == Compare(a)
    ensures a in states[i].actors && states[i].actors[a].Holding?
    ensures var Holding(v1, _, load), p := states[i].actors[a], states[i + 1].actors[a];
            if v1 == states[i].version then p == Returned(v1, load, v1, true)
            else if Tries(steps, i, a) < 50 then p.Starting? && Enabled(states[i + 1], ReadVersion(a))
            else p == Exhausted(v1, load)
  {
    RunTried(fp, states, steps, i);
    assert StepBetween(fp, states[i], steps[i], states[i + 1]);
    assert Tried(states[i].actors[a], Tries(steps, i, a));
  }
}
