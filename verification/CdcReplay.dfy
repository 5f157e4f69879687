/**
  Whole runs: batches delivered one after another, each by any plan. What the
  target ends up holding depends on which events were delivered, not on their
  order, their repetition, their chunking or the plan that applied them.
 */
module CdcReplay {
  import opened Basics
  import opened OrderTokens
  import opened CdcTables
  import opened CdcBulk
  import opened CdcEquivalence

  datatype Plan = Guarded | Merges | Redshift

  datatype Delivery = Delivery(plan: Plan, rows: seq<Row>)

  function Deliver(layout: Layout, t: Tables, d: Delivery): Tables {
    match d.plan
    case Guarded => ApplyRows(layout, t, d.rows)
    case Merges => ApplyMerges(layout, t, WinnersOf(layout, d.rows))
    case Redshift => ApplyRedshift(layout, t, WinnersOf(layout, d.rows))
  }

  function Run(layout: Layout, t: Tables, ds: seq<Delivery>): Tables
    decreases |ds|
  {
    if ds == [] then t else Run(layout, Deliver(layout, t, ds[0]), ds[1..])
  }

  ghost predicate AllRunsCover(layout: Layout, ds: seq<Delivery>) {
    forall i | 0 <= i < |ds| :: AllCover(layout, ds[i].rows)
  }

  lemma DeliverKeepsInv(layout: Layout, t: Tables, d: Delivery)
    requires layout.Valid() && Inv(layout, t)
    ensures Inv(layout, Deliver(layout, t, d))
  {
    ApplyRowsKeepsInv(layout, t, d.rows);
    WinnersFacts(layout, d.rows);
    MergesKeepInv(layout, t, WinnersOf(layout, d.rows));
    RedshiftMatchesMerges(layout, t, WinnersOf(layout, d.rows));
  }

  /** Every state a run reaches satisfies the invariant. */
  lemma {:induction false} RunKeepsInv(layout: Layout, t: Tables, ds: seq<Delivery>)
    requires layout.Valid() && Inv(layout, t)
    ensures Inv(layout, Run(layout, t, ds))
    decreases |ds|
  {
    if ds != [] {
      DeliverKeepsInv(layout, t, ds[0]);
      RunKeepsInv(layout, Deliver(layout, t, ds[0]), ds[1..]);
    }
  }

  // ---- no later batches tell the two paths apart ----

  lemma DeliverWrites(layout: Layout, t: Tables, d: Delivery, k: Key)
    requires layout.Valid() && Inv(layout, t) && AllCover(layout, d.rows) && AscendingOrdinals(d.rows)
    ensures RegisterAt(Deliver(layout, t, d), k) == WriteAll(layout, k, RegisterAt(t, k), d.rows)
  {
    match d.plan
    case Guarded => ApplyRowsWrites(layout, t, d.rows, k);
    case Merges => MergesWriteAll(layout, t, d.rows, k);
    case Redshift => RedshiftMatchesMerges(layout, t, WinnersOf(layout, d.rows)); MergesWriteAll(layout, t, d.rows, k);
  }

  lemma MergesWriteAll(layout: Layout, t: Tables, rows: seq<Row>, k: Key)
    requires layout.Valid() && Inv(layout, t) && AllCover(layout, rows) && AscendingOrdinals(rows)
    ensures RegisterAt(ApplyMerges(layout, t, WinnersOf(layout, rows)), k) == WriteAll(layout, k, RegisterAt(t, k), rows)
  {
    MergesWrite(layout, t, rows, k);
    ScanIsEarliest(layout, k, RegisterAt(t, k), rows);
    AscendingAgrees(layout, rows, k);
  }

  /**
    Two runs of the same batches, each batch by any plan on either side, started
    from tables with equal registers, keep equal targets and equal watermarks.
   */
  lemma {:induction false} PlansIndistinguishable(layout: Layout, a: Tables, b: Tables, ds: seq<Delivery>, es: seq<Delivery>)
    requires layout.Valid() && Inv(layout, a) && Inv(layout, b) && SameRegisters(a, b)
    requires |ds| == |es| && AllRunsCover(layout, ds)
    requires forall i | 0 <= i < |ds| :: ds[i].rows == es[i].rows && AscendingOrdinals(ds[i].rows)
    ensures Run(layout, a, ds).target == Run(layout, b, es).target
    ensures SameRegisters(Run(layout, a, ds), Run(layout, b, es))
    decreases |ds|
  {
    if ds == [] {
      RegistersAreTheTarget(layout, a, b);
    } else {
      var a', b' := Deliver(layout, a, ds[0]), Deliver(layout, b, es[0]);
      forall k: Key ensures RegisterAt(a', k) == RegisterAt(b', k) {
        DeliverWrites(layout, a, ds[0], k);
        DeliverWrites(layout, b, es[0], k);
        assert RegisterAt(a, k) == RegisterAt(b, k);
      }
      DeliverKeepsInv(layout, a, ds[0]);
      DeliverKeepsInv(layout, b, es[0]);
      PlansIndistinguishable(layout, a', b', ds[1..], es[1..]);
    }
  }

  // ---- delivered events ----

  /** A row without its stage ordinal; a delete carries no values. */
  datatype Event = Event(key: Key, token: Token, content: Option<Cells>)

  function EventOf(layout: Layout, row: Row): Event {
    Event(KeyOf(layout, row.cells), row.token, if row.mutation.Upsert? then Some(row.cells) else None)
  }

  function EventsOf(layout: Layout, rows: seq<Row>): set<Event> {
    set i | 0 <= i < |rows| :: EventOf(layout, rows[i])
  }

  function Events(layout: Layout, ds: seq<Delivery>): set<Event> {
    set i, j | 0 <= i < |ds| && 0 <= j < |ds[i].rows| :: EventOf(layout, ds[i].rows[j])
  }

  ghost predicate Newest(es: set<Event>, e: Event) {
    e in es && forall f | f in es && f.key == e.key :: !Less(e.token, f.token)
  }

  /** The newest events of a key all carry the same content. */
  ghost predicate NewestAgree(es: set<Event>) {
    forall e, f | Newest(es, e) && Newest(es, f) && e.key == f.key :: e.content == f.content
  }

  /** `out` is what register `reg` of key `k` becomes once all of `es` has been delivered. */
  ghost predicate Settled(k: Key, reg: Register, es: set<Event>, out: Register) {
    && (out == reg || exists e :: e in es && Decides(k, reg, e, out))
    && forall e | e in es && e.key == k :: !Below(out.mark, e.token)
  }

  ghost predicate Decides(k: Key, reg: Register, e: Event, out: Register) {
    e.key == k && Below(reg.mark, e.token) && out == Register(e.content, Some(e.token))
  }

  lemma WriteSettles(layout: Layout, k: Key, reg: Register, row: Row)
    requires KeyOf(layout, row.cells) == k
    ensures Settled(k, reg, {EventOf(layout, row)}, Write(reg, row))
  {
    var e := EventOf(layout, row);
    if Below(reg.mark, row.token) {
      assert Decides(k, reg, e, Write(reg, row));
      if Less(row.token, row.token) { Asymmetric(row.token, row.token); }
    }
  }

  /** Delivering one set of events after another delivers their union. */
  lemma SettledComposes(k: Key, reg: Register, es: set<Event>, mid: Register, fs: set<Event>, out: Register)
    requires Settled(k, reg, es, mid) && Settled(k, mid, fs, out)
    ensures Settled(k, reg, es + fs, out)
  {
    if out != mid {
      var f :| f in fs && Decides(k, mid, f, out);
      if mid != reg {
        var e :| e in es && Decides(k, reg, e, mid);
        if reg.mark.Some? { Transitive(reg.mark.value, e.token, f.token); }
      }
      assert f in es + fs && Decides(k, reg, f, out);
      forall e | e in es && e.key == k ensures !Below(out.mark, e.token) {
        if Less(f.token, e.token) && mid.mark.Some? { Transitive(mid.mark.value, f.token, e.token); }
      }
    } else if mid != reg {
      var e :| e in es && Decides(k, reg, e, mid);
      assert e in es + fs;
    }
  }

  lemma {:induction false} WriteAllSettles(layout: Layout, k: Key, reg: Register, rows: seq<Row>)
    ensures Settled(k, reg, EventsOf(layout, rows), WriteAll(layout, k, reg, rows))
    decreases |rows|
  {
    if rows != [] {
      var head, rest := EventOf(layout, rows[0]), EventsOf(layout, rows[1..]);
      assert EventsOf(layout, rows) == {head} + rest by { SplitEvents(layout, rows); }
      if KeyOf(layout, rows[0].cells) == k {
        var mid := Write(reg, rows[0]);
        WriteSettles(layout, k, reg, rows[0]);
        WriteAllSettles(layout, k, mid, rows[1..]);
        SettledComposes(k, reg, {head}, mid, rest, WriteAll(layout, k, mid, rows[1..]));
      } else {
        WriteAllSettles(layout, k, reg, rows[1..]);
        SettledComposes(k, reg, {head}, reg, rest, WriteAll(layout, k, reg, rows[1..]));
      }
    }
  }

  lemma SplitEvents(layout: Layout, rows: seq<Row>)
    requires rows != []
    ensures EventsOf(layout, rows) == {EventOf(layout, rows[0])} + EventsOf(layout, rows[1..])
  {
    var rest := rows[1..];
    forall e | e in EventsOf(layout, rows)
      ensures e in {EventOf(layout, rows[0])} + EventsOf(layout, rest)
    {
      var i :| 0 <= i < |rows| && EventOf(layout, rows[i]) == e;
      if i > 0 { assert rest[i - 1] == rows[i]; }
    }
    forall e | e in EventsOf(layout, rest) ensures e in EventsOf(layout, rows) {
      var i :| 0 <= i < |rest| && EventOf(layout, rest[i]) == e;
      assert rows[i + 1] == rest[i];
    }
  }

  lemma BestSettles(layout: Layout, k: Key, reg: Register, rows: seq<Row>)
    ensures var best := Best(layout, rows, k);
            Settled(k, reg, EventsOf(layout, rows), if best.Some? then Write(reg, best.value) else reg)
  {
    BestIsFirst(layout, rows, k);
    var best := Best(layout, rows, k);
    if best.Some? {
      var b := best.value;
      var out := Write(reg, b);
      WriteSettles(layout, k, reg, b);
      var w :| 0 <= w < |rows| && rows[w] == b;
      assert EventOf(layout, b) in EventsOf(layout, rows);
      forall e | e in EventsOf(layout, rows) && e.key == k ensures !Below(out.mark, e.token) {
        var i :| 0 <= i < |rows| && EventOf(layout, rows[i]) == e;
        assert EventOf(layout, b) in {EventOf(layout, b)} && !Below(out.mark, b.token);
        assert !Less(b.token, rows[i].token);
        NotBelowTrans(out.mark, b.token, e.token);
      }
    }
  }

  /** Any delivery, by any plan, settles its own events, whatever its ordinals. */
  lemma DeliverSettles(layout: Layout, t: Tables, d: Delivery, k: Key)
    requires layout.Valid() && Inv(layout, t) && AllCover(layout, d.rows)
    ensures Settled(k, RegisterAt(t, k), EventsOf(layout, d.rows), RegisterAt(Deliver(layout, t, d), k))
  {
    match d.plan
    case Guarded => GuardedSettles(layout, t, d.rows, k);
    case Merges => MergesSettle(layout, t, d.rows, k);
    case Redshift => RedshiftMatchesMerges(layout, t, WinnersOf(layout, d.rows)); MergesSettle(layout, t, d.rows, k);
  }

  lemma GuardedSettles(layout: Layout, t: Tables, rows: seq<Row>, k: Key)
    requires layout.Valid() && Inv(layout, t) && AllCover(layout, rows)
    ensures Settled(k, RegisterAt(t, k), EventsOf(layout, rows), RegisterAt(ApplyRows(layout, t, rows), k))
  {
    ApplyRowsWrites(layout, t, rows, k);
    WriteAllSettles(layout, k, RegisterAt(t, k), rows);
  }

  lemma MergesSettle(layout: Layout, t: Tables, rows: seq<Row>, k: Key)
    requires layout.Valid() && Inv(layout, t) && AllCover(layout, rows)
    ensures Settled(k, RegisterAt(t, k), EventsOf(layout, rows), RegisterAt(ApplyMerges(layout, t, WinnersOf(layout, rows)), k))
  {
    MergesWrite(layout, t, rows, k);
    BestSettles(layout, k, RegisterAt(t, k), rows);
  }

  lemma {:induction false} RunSettles(layout: Layout, t: Tables, ds: seq<Delivery>, k: Key)
    requires layout.Valid() && Inv(layout, t) && AllRunsCover(layout, ds)
    ensures Settled(k, RegisterAt(t, k), Events(layout, ds), RegisterAt(Run(layout, t, ds), k))
    decreases |ds|
  {
    if ds != [] {
      var t' := Deliver(layout, t, ds[0]);
      DeliverKeepsInv(layout, t, ds[0]);
      DeliverSettles(layout, t, ds[0], k);
      RunSettles(layout, t', ds[1..], k);
      SettledComposes(k, RegisterAt(t, k), EventsOf(layout, ds[0].rows), RegisterAt(t', k),
                      Events(layout, ds[1..]), RegisterAt(Run(layout, t, ds), k));
      SplitRuns(layout, ds);
    }
  }

  lemma SplitRuns(layout: Layout, ds: seq<Delivery>)
    requires ds != []
    ensures Events(layout, ds) == EventsOf(layout, ds[0].rows) + Events(layout, ds[1..])
  {
    var rest := ds[1..];
    forall e | e in Events(layout, ds)
      ensures e in EventsOf(layout, ds[0].rows) + Events(layout, rest)
    {
      var i, j :| 0 <= i < |ds| && 0 <= j < |ds[i].rows| && EventOf(layout, ds[i].rows[j]) == e;
      if i > 0 { assert rest[i - 1] == ds[i]; }
    }
    forall e | e in EventsOf(layout, ds[0].rows) + Events(layout, rest) ensures e in Events(layout, ds) {
      if e in Events(layout, rest) {
        var i, j :| 0 <= i < |rest| && 0 <= j < |rest[i].rows| && EventOf(layout, rest[i].rows[j]) == e;
        assert ds[i + 1] == rest[i];
      }
    }
  }

  /** What a set of events settles to is unique when its newest events agree. */
  lemma SettledUnique(k: Key, reg: Register, es: set<Event>, a: Register, b: Register)
    requires Settled(k, reg, es, a) && Settled(k, reg, es, b) && NewestAgree(es)
    ensures a == b
  {
    if a != reg && b != reg {
      var e :| e in es && Decides(k, reg, e, a);
      var f :| f in es && Decides(k, reg, f, b);
      Trichotomy(e.token, f.token);
      assert Newest(es, e) && Newest(es, f);
    }
  }

  ghost predicate SameTarget(a: Tables, b: Tables) {
    a.target == b.target && forall k: Key :: Watermark(a, k) == Watermark(b, k)
  }

  /**
    Two runs that deliver the same events, in any order, any number of times, in
    any batches and by any plans, leave the same target and watermarks.
   */
  lemma ReplayConverges(layout: Layout, t: Tables, ds: seq<Delivery>, es: seq<Delivery>)
    requires layout.Valid() && Inv(layout, t) && AllRunsCover(layout, ds) && AllRunsCover(layout, es)
    requires Events(layout, ds) == Events(layout, es) && NewestAgree(Events(layout, ds))
    ensures SameTarget(Run(layout, t, ds), Run(layout, t, es))
  {
    var a, b := Run(layout, t, ds), Run(layout, t, es);
    forall k: Key ensures RegisterAt(a, k) == RegisterAt(b, k) {
      RunSettles(layout, t, ds, k);
      RunSettles(layout, t, es, k);
      SettledUnique(k, RegisterAt(t, k), Events(layout, ds), RegisterAt(a, k), RegisterAt(b, k));
    }
    RunKeepsInv(layout, t, ds);
    RunKeepsInv(layout, t, es);
    RegistersAreTheTarget(layout, a, b);
  }

  ghost predicate Converges(layout: Layout, rows: seq<Row>, ds: seq<Delivery>) {
    AllRunsCover(layout, ds) && Events(layout, ds) == EventsOf(layout, rows) ==>
      SameTarget(Run(layout, Tables(map[], map[]), ds), ApplyRows(layout, Tables(map[], map[]), rows))
  }

  lemma OneDelivery(layout: Layout, t: Tables, rows: seq<Row>)
    requires layout.Valid() && AllCover(layout, rows)
    ensures var whole := [Delivery(Guarded, rows)];
            AllRunsCover(layout, whole) && Run(layout, t, whole) == ApplyRows(layout, t, rows)
            && Events(layout, whole) == EventsOf(layout, rows)
  {
    var whole := [Delivery(Guarded, rows)];
    assert whole[1..] == [];
    assert Run(layout, ApplyRows(layout, t, rows), []) == ApplyRows(layout, t, rows);
    SplitRuns(layout, whole);
  }

  /** The condition is exact: when two newest events of a key disagree, some order of delivery shows it. */
  lemma ReplayConvergesExactly(layout: Layout, rows: seq<Row>)
    requires layout.Valid() && AllCover(layout, rows)
    ensures (forall ds :: Converges(layout, rows, ds)) <==> NewestAgree(EventsOf(layout, rows))
  {
    var t := Tables(map[], map[]);
    var whole := [Delivery(Guarded, rows)];
    OneDelivery(layout, t, rows);
    if NewestAgree(EventsOf(layout, rows)) {
      forall ds | AllRunsCover(layout, ds) && Events(layout, ds) == EventsOf(layout, rows)
        ensures Converges(layout, rows, ds)
      {
        ReplayConverges(layout, t, ds, whole);
      }
    } else {
      var ds := SomeOrderShows(layout, rows);
      assert !Converges(layout, rows, ds);
    }
  }

  /** Leading with one or the other of two disagreeing newest rows gives different outcomes. */
  lemma SomeOrderShows(layout: Layout, rows: seq<Row>) returns (ds: seq<Delivery>)
    requires layout.Valid() && AllCover(layout, rows) && !NewestAgree(EventsOf(layout, rows))
    ensures !Converges(layout, rows, ds)
  {
    var es := EventsOf(layout, rows);
    var e, f :| Newest(es, e) && Newest(es, f) && e.key == f.key && e.content != f.content;
    var i :| 0 <= i < |rows| && EventOf(layout, rows[i]) == e;
    var j :| 0 <= j < |rows| && EventOf(layout, rows[j]) == f;
    ds := LeadWith(layout, rows, i);
    if Converges(layout, rows, ds) {
      SameOutcome(layout, rows, ds, e.key);
      ds := LeadWith(layout, rows, j);
      if Converges(layout, rows, ds) { SameOutcome(layout, rows, ds, e.key); }
    }
  }

  lemma SameOutcome(layout: Layout, rows: seq<Row>, ds: seq<Delivery>, k: Key)
    requires Converges(layout, rows, ds) && AllRunsCover(layout, ds) && Events(layout, ds) == EventsOf(layout, rows)
    ensures RegisterAt(Run(layout, Tables(map[], map[]), ds), k) == RegisterAt(ApplyRows(layout, Tables(map[], map[]), rows), k)
  {
  }

  /** Delivering a newest row first makes its content the outcome. */
  lemma LeadWith(layout: Layout, rows: seq<Row>, i: nat) returns (ds: seq<Delivery>)
    requires layout.Valid() && AllCover(layout, rows) && i < |rows|
    requires Newest(EventsOf(layout, rows), EventOf(layout, rows[i]))
    ensures AllRunsCover(layout, ds) && Events(layout, ds) == EventsOf(layout, rows)
    ensures var e := EventOf(layout, rows[i]);
            RegisterAt(Run(layout, Tables(map[], map[]), ds), e.key) == Register(e.content, Some(e.token))
  {
    var t, e := Tables(map[], map[]), EventOf(layout, rows[i]);
    var lead, rest := Delivery(Guarded, [rows[i]]), Delivery(Guarded, rows);
    ds := [lead, rest];
    SplitRuns(layout, ds);
    assert ds[1..] == [rest];
    SplitRuns(layout, [rest]);
    assert EventsOf(layout, [rows[i]]) == {e} by { SplitEvents(layout, [rows[i]]); }
    var mid := Register(e.content, Some(e.token));
    var t' := Deliver(layout, t, lead);
    DeliverKeepsInv(layout, t, lead);
    DeliverSettles(layout, t, lead, e.key);
    assert RegisterAt(t', e.key) == mid;
    RunSettles(layout, t', [rest], e.key);
  }
}
