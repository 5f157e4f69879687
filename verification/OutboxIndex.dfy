/** The in-memory index over the outbox directory. */
module OutboxIndex {
  import opened Basics
  import opened CatalogTypes

  /** The waiting entries, each at its next attempt time. */
  function DueOf(entries: map<Id, Meta>): set<Stamp> {
    set id | id in entries && !entries[id].terminal :: Stamp(entries[id].nextAttemptAt, id)
  }

  /** All entries, each at its creation time. */
  function CreatedOf(entries: map<Id, Meta>): set<Stamp> {
    set id | id in entries :: Stamp(entries[id].createdAt, id)
  }

  function TerminalIds(entries: map<Id, Meta>): set<Id> {
    set id | id in entries && entries[id].terminal
  }

  /** `oldest` is the time of the first member of `created`. */
  ghost predicate OldestIs(created: set<Stamp>, oldest: Option<nat>) {
    match oldest
    case None => created == {}
    case Some(t) => (exists s :: s in created && s.time == t) && forall s | s in created :: t <= s.time
  }

  /** The derived parts of the index are the ones `entries` determines. */
  ghost predicate Mirrors(entries: map<Id, Meta>, due: set<Stamp>, created: set<Stamp>, terminals: nat, oldest: Option<nat>) {
    && due == DueOf(entries) && created == CreatedOf(entries)
    && terminals == |TerminalIds(entries)| && OldestIs(created, oldest)
  }

  /** Equal entries leave no freedom in the rest of the index. */
  lemma MirrorsDetermined(
      entries: map<Id, Meta>,
      due: set<Stamp>, created: set<Stamp>, terminals: nat, oldest: Option<nat>,
      due': set<Stamp>, created': set<Stamp>, terminals': nat, oldest': Option<nat>)
    requires Mirrors(entries, due, created, terminals, oldest)
    requires Mirrors(entries, due', created', terminals', oldest')
    ensures due == due' && created == created' && terminals == terminals' && oldest == oldest'
  {
    if oldest.Some? && oldest'.Some? {
      var s :| s in created && s.time == oldest.value;
      var s' :| s' in created && s'.time == oldest'.value;
    }
  }

  /** Every entry is either waiting or terminal. */
  lemma {:induction false} PendingPlusTerminal(entries: map<Id, Meta>)
    ensures |DueOf(entries)| + |TerminalIds(entries)| == |entries|
    decreases |entries|
  {
    if entries != map[] {
      var id :| id in entries;
      var rest := entries - {id};
      PendingPlusTerminal(rest);
      WithoutEntry(entries, id);
      assert |rest| == |entries| - 1 by { assert rest.Keys == entries.Keys - {id}; }
    }
  }

  lemma StampMembers(entries: map<Id, Meta>)
    ensures forall s: Stamp :: s in CreatedOf(entries) <==> s.id in entries && s.time == entries[s.id].createdAt
    ensures forall s: Stamp ::
              s in DueOf(entries) <==> s.id in entries && !entries[s.id].terminal && s.time == entries[s.id].nextAttemptAt
  {
    forall s: Stamp | s.id in entries
      ensures s.time == entries[s.id].createdAt ==> s in CreatedOf(entries)
      ensures !entries[s.id].terminal && s.time == entries[s.id].nextAttemptAt ==> s in DueOf(entries)
    {
      assert s == Stamp(s.time, s.id);
    }
  }

  /** How the derived parts change when an entry leaves. */
  lemma WithoutEntry(entries: map<Id, Meta>, id: Id)
    requires id in entries
    ensures var m, rest := entries[id], entries - {id};
            && DueOf(rest) == (if m.terminal then DueOf(entries) else DueOf(entries) - {Stamp(m.nextAttemptAt, id)})
            && DueOf(entries) == (if m.terminal then DueOf(rest) else DueOf(rest) + {Stamp(m.nextAttemptAt, id)})
            && CreatedOf(rest) == CreatedOf(entries) - {Stamp(m.createdAt, id)}
            && CreatedOf(entries) == CreatedOf(rest) + {Stamp(m.createdAt, id)}
            && |TerminalIds(entries)| == |TerminalIds(rest)| + (if m.terminal then 1 else 0)
  {
    var m, rest := entries[id], entries - {id};
    StampMembers(entries);
    StampMembers(rest);
    assert CreatedOf(entries) == CreatedOf(rest) + {Stamp(m.createdAt, id)};
    if m.terminal {
      assert TerminalIds(entries) == TerminalIds(rest) + {id};
      assert DueOf(entries) == DueOf(rest);
    } else {
      assert TerminalIds(entries) == TerminalIds(rest);
      assert DueOf(entries) == DueOf(rest) + {Stamp(m.nextAttemptAt, id)};
    }
  }

  lemma MirrorsRemove(
      entries: map<Id, Meta>, due: set<Stamp>, created: set<Stamp>, terminals: nat, oldest: Option<nat>,
      id: Id, oldest': Option<nat>)
    requires Mirrors(entries, due, created, terminals, oldest) && id in entries
    requires OldestIs(created - {Stamp(entries[id].createdAt, id)}, oldest')
    ensures entries[id].terminal ==>
              terminals > 0
              && Mirrors(entries - {id}, due, created - {Stamp(entries[id].createdAt, id)}, terminals - 1, oldest')
    ensures !entries[id].terminal ==>
              Mirrors(entries - {id}, due - {Stamp(entries[id].nextAttemptAt, id)},
                      created - {Stamp(entries[id].createdAt, id)}, terminals, oldest')
  {
    WithoutEntry(entries, id);
  }

  lemma MirrorsInsert(
      entries: map<Id, Meta>, due: set<Stamp>, created: set<Stamp>, terminals: nat, oldest: Option<nat>,
      id: Id, meta: Meta, oldest': Option<nat>)
    requires Mirrors(entries, due, created, terminals, oldest) && id !in entries
    requires OldestIs(created + {Stamp(meta.createdAt, id)}, oldest')
    ensures meta.terminal ==>
              Mirrors(entries[id := meta], due, created + {Stamp(meta.createdAt, id)}, terminals + 1, oldest')
    ensures !meta.terminal ==>
              Mirrors(entries[id := meta], due + {Stamp(meta.nextAttemptAt, id)},
                      created + {Stamp(meta.createdAt, id)}, terminals, oldest')
  {
    assert entries[id := meta] - {id} == entries;
    WithoutEntry(entries[id := meta], id);
  }

  /** The entries a scan at `now` may return. */
  function Eligible(entries: map<Id, Meta>, now: nat): set<Stamp> {
    set s | s in DueOf(entries) && s.time <= now
  }

  method Least(pool: set<Stamp>) returns (m: Stamp)
    requires pool != {}
    ensures m in pool && forall s | s in pool && s != m :: Before(m, s)
  {
    m :| m in pool;
    var rest := pool - {m};
    while rest != {}
      invariant rest <= pool && m in pool && m !in rest
      invariant forall s | s in pool && s !in rest && s != m :: Before(m, s)
      decreases rest
    {
      var s :| s in rest;
      BeforeTotal(m, s);
      if Before(s, m) {
        forall r | r in pool && r !in rest && r != m ensures Before(s, r) { BeforeTrans(s, m, r); }
        m := s;
      }
      rest := rest - {s};
    }
  }

  /** The time of the first member of `created`, if there is one. */
  method FirstCreated(created: set<Stamp>) returns (t: Option<nat>)
    ensures OldestIs(created, t)
  {
    if created == {} { return None; }
    var first := Least(created);
    t := Some(first.time);
  }

  class Index {
    var entries: map<Id, Meta>
    var due: set<Stamp>
    var created: set<Stamp>
    var terminalCount: nat
    var oldestCreatedAt: Option<nat>
    var directorySyncRequired: bool

    ghost predicate Valid()
      reads this
    {
      Mirrors(entries, due, created, terminalCount, oldestCreatedAt)
    }

    constructor ()
      ensures Valid() && entries == map[] && !directorySyncRequired
    {
      entries, due, created := map[], {}, {};
      terminalCount, oldestCreatedAt, directorySyncRequired := 0, None, false;
    }

    method Remove(id: Id) returns (removed: Option<Meta>)
      requires Valid()
      modifies this
      ensures Valid() && entries == old(entries) - {id} && directorySyncRequired == old(directorySyncRequired)
      ensures removed == if id in old(entries) then Some(old(entries)[id]) else None
    {
      if id !in entries {
        assert entries - {id} == entries;
        return None;
      }
      var existing := entries[id];
      var due', terminals' := due, terminalCount;
      if existing.terminal {
        terminals' := if terminalCount == 0 then 0 else terminalCount - 1;
      } else {
        due' := due - {Stamp(existing.nextAttemptAt, id)};
      }
      var created' := created - {Stamp(existing.createdAt, id)};
      var oldest' := FirstCreated(created');
      MirrorsRemove(entries, due, created, terminalCount, oldestCreatedAt, id, oldest');
      entries, due, created, terminalCount, oldestCreatedAt := entries - {id}, due', created', terminals', oldest';
      removed := Some(existing);
    }

    method Insert(id: Id, meta: Meta)
      requires Valid() && id !in entries
      modifies this
      ensures Valid() && entries == old(entries)[id := meta] && directorySyncRequired == old(directorySyncRequired)
    {
      var due', terminals' := due, terminalCount;
      if meta.terminal {
        terminals' := terminalCount + 1;
      } else {
        due' := due + {Stamp(meta.nextAttemptAt, id)};
      }
      var created' := created + {Stamp(meta.createdAt, id)};
      var oldest' := FirstCreated(created');
      MirrorsInsert(entries, due, created, terminalCount, oldestCreatedAt, id, meta, oldest');
      entries, due, created, terminalCount, oldestCreatedAt := entries[id := meta], due', created', terminals', oldest';
    }

    method Upsert(id: Id, meta: Meta)
      requires Valid()
      modifies this
      ensures Valid() && entries == old(entries)[id := meta] && directorySyncRequired == old(directorySyncRequired)
    {
      var _ := Remove(id);
      Insert(id, meta);
    }

    /** The first `limit` due ids, in (time, id) order. */
    method DueIds(now: nat, limit: nat) returns (ids: seq<Id>)
      requires Valid() && forall id | id in entries :: IsHex(id)
      ensures |ids| == Min(limit, |Eligible(entries, now)|)
      ensures forall i | 0 <= i < |ids| ::
                ids[i] in entries && Stamp(entries[ids[i]].nextAttemptAt, ids[i]) in Eligible(entries, now)
      ensures forall i, j | 0 <= i < j < |ids| ::
                Before(Stamp(entries[ids[i]].nextAttemptAt, ids[i]), Stamp(entries[ids[j]].nextAttemptAt, ids[j]))
      ensures forall s, i | s in Eligible(entries, now) && s.id !in ids && 0 <= i < |ids| ::
                Before(Stamp(entries[ids[i]].nextAttemptAt, ids[i]), s)
    {
      var pool := set s | s in due && !Before(Stamp(now, MAX_ID), s);
      assert pool == Eligible(entries, now) by {
        forall s | s in due ensures !Before(Stamp(now, MAX_ID), s) <==> s.time <= now { DueBound(s, now); }
      }
      ids := [];
      ghost var taken: seq<Stamp> := [];
      while |ids| < limit && pool != {}
        invariant |taken| == |ids| <= limit
        invariant forall i | 0 <= i < |ids| :: taken[i].id == ids[i] && taken[i] in Eligible(entries, now)
        invariant pool <= Eligible(entries, now)
        invariant |pool| + |ids| == |Eligible(entries, now)|
        invariant forall s | s in Eligible(entries, now) :: s in pool <==> s !in taken
        invariant forall i, j | 0 <= i < j < |taken| :: Before(taken[i], taken[j])
        invariant forall s, i | s in pool && 0 <= i < |taken| :: Before(taken[i], s)
      {
        var first := Least(pool);
        pool := pool - {first};
        ids := ids + [first.id];
        taken := taken + [first];
      }
    }
  }
}
