/** One database's event poller: rows become visible, a poll fetches all of them, deletes up to the
    largest id it saw and sends the batch on. Inserts interleave with every step. */
module Events {

  datatype Event = Event(id: int, kind: string, entity: string)

  type Batch = seq<Event>

  /** Where `poll_once` is suspended. */
  datatype Phase = Idle | Fetched(batch: Batch) | Deleted(batch: Batch)

  /** `inserted` is history: every row that ever became visible, in order of visibility. */
  datatype Source = Source(inserted: seq<Event>, table: seq<Event>, phase: Phase, sent: seq<Batch>)

  datatype SourceStep = Insert(e: Event) | Fetch | Delete(ok: bool) | Send

  // ---- SQL ----

  /** The table is kept as `ORDER BY id` shows it. */
  function Place(e: Event, table: seq<Event>): seq<Event> {
    if table == [] || e.id < table[0].id then [e] + table else [table[0]] + Place(e, table[1..])
  }

  /** `DELETE FROM ui_events WHERE id <= max` */
  function After(table: seq<Event>, max: int): (r: seq<Event>)
    ensures forall e :: e in r <==> e in table && e.id > max
  {
    if table == [] then [] else
    var rest := After(table[1..], max);
    assert table == [table[0]] + table[1..];
    if table[0].id > max then [table[0]] + rest else rest
  }

  function MaxId(batch: Batch): (m: int)
    requires batch != []
    ensures forall i | 0 <= i < |batch| :: batch[i].id <= m
    ensures exists i :: 0 <= i < |batch| && batch[i].id == m
  {
    if |batch| == 1 then batch[0].id else
    var m := MaxId(batch[1..]);
    assert forall i | 1 <= i < |batch| :: batch[i] == batch[1..][i - 1];
    assert exists i :: 0 <= i < |batch| && batch[i].id == m by {
      var j :| 0 <= j < |batch[1..]| && batch[1..][j].id == m;
      assert batch[j + 1].id == m;
    }
    if batch[0].id > m then batch[0].id else m
  }

  // ---- steps ----

  predicate Can(s: Source, a: SourceStep) {
    match a
    case Insert(_) => true
    case Fetch => s.phase.Idle?
    case Delete(_) => s.phase.Fetched? && s.phase.batch != []
    case Send => s.phase.Deleted?
  }

  /** A failed fetch changes nothing and is left out; a failed delete is logged and the batch is
      dispatched all the same. */
  function Do(s: Source, a: SourceStep): Source
    requires Can(s, a)
  {
    match a
    case Insert(e) => s.(inserted := s.inserted + [e], table := Place(e, s.table))
    case Fetch => if s.table == [] then s else s.(phase := Fetched(s.table))
    case Delete(ok) =>
      s.(phase := Deleted(s.phase.batch), table := if ok then After(s.table, MaxId(s.phase.batch)) else s.table)
    case Send => s.(phase := Idle, sent := s.sent + [s.phase.batch])
  }

  predicate Ascending(q: seq<Event>) {
    forall i, j | 0 <= i < j < |q| :: q[i].id < q[j].id
  }

  /** Rows become visible in id order. */
  predicate InOrder(s: Source, a: SourceStep) {
    a.Insert? ==> forall i | 0 <= i < |s.inserted| :: s.inserted[i].id < a.e.id
  }

  function Flatten(batches: seq<Batch>): seq<Event> {
    if batches == [] then [] else batches[0] + Flatten(batches[1..])
  }

  lemma {:induction false} FlattenAppend(batches: seq<Batch>, b: Batch)
    ensures Flatten(batches + [b]) == Flatten(batches) + b
  {
    if batches == [] {
      assert [b][1..] == [] && batches + [b] == [b];
    } else {
      FlattenAppend(batches[1..], b);
      assert (batches + [b])[1..] == batches[1..] + [b];
    }
  }

  lemma {:induction false} PlaceLast(e: Event, table: seq<Event>)
    requires forall i | 0 <= i < |table| :: table[i].id < e.id
    ensures Place(e, table) == table + [e]
  {
    if table != [] { PlaceLast(e, table[1..]); }
  }

  lemma {:induction false} AfterPrefix(batch: Batch, later: seq<Event>, max: int)
    requires forall i | 0 <= i < |batch| :: batch[i].id <= max
    requires forall i | 0 <= i < |later| :: later[i].id > max
    ensures After(batch + later, max) == later
  {
    if batch != [] {
      assert (batch + later)[1..] == batch[1..] + later;
      AfterPrefix(batch[1..], later, max);
    } else {
      assert batch + later == later;
      if later != [] { AfterPrefix([], later[1..], max); assert [] + later[1..] == later[1..]; }
    }
  }

  // ---- every event once, in order ----

  /** Rows not yet sent, in the order they will be sent. */
  function Pending(s: Source): seq<Event> {
    if s.phase.Deleted? then s.phase.batch + s.table else s.table
  }

  ghost predicate ExactlyOnce(s: Source) {
    && Ascending(s.inserted)
    && Flatten(s.sent) + Pending(s) == s.inserted
    && (s.phase.Fetched? ==> s.phase.batch != [] && s.phase.batch <= s.table)
    && (s.phase.Deleted? ==> s.phase.batch != [])
    && forall i | 0 <= i < |s.sent| :: s.sent[i] != []
  }

  lemma InsertKeepsExactlyOnce(s: Source, e: Event)
    requires ExactlyOnce(s) && InOrder(s, Insert(e))
    ensures ExactlyOnce(Do(s, Insert(e)))
  {
    var n := |s.inserted| - |s.table|;
    forall i | 0 <= i < |s.table| ensures s.table[i].id < e.id {
      assert s.table[i] == s.inserted[n + i];
    }
    PlaceLast(e, s.table);
    assert Pending(Do(s, Insert(e))) == Pending(s) + [e];
    assert Flatten(s.sent) + (Pending(s) + [e]) == (Flatten(s.sent) + Pending(s)) + [e];
  }

  lemma DeleteKeepsExactlyOnce(s: Source)
    requires ExactlyOnce(s) && Can(s, Delete(true))
    ensures ExactlyOnce(Do(s, Delete(true)))
  {
    var n, b := |Flatten(s.sent)|, s.phase.batch;
    var later := s.table[|b|..];
    assert s.table == b + later;
    var k :| 0 <= k < |b| && b[k].id == MaxId(b);
    forall i | 0 <= i < |later| ensures later[i].id > MaxId(b) {
      assert later[i] == s.inserted[n + |b| + i] && b[k] == s.inserted[n + k];
    }
    AfterPrefix(b, later, MaxId(b));
  }

  /** If rows become visible in id order and no delete fails, what was sent followed by what is in
      flight and in the table is the inserted sequence: nothing lost, repeated or reordered. */
  lemma StepKeepsExactlyOnce(s: Source, a: SourceStep)
    requires ExactlyOnce(s) && Can(s, a) && InOrder(s, a) && a != Delete(false)
    ensures ExactlyOnce(Do(s, a))
  {
    match a
    case Insert(e) => InsertKeepsExactlyOnce(s, e);
    case Fetch =>
    case Delete(ok) => DeleteKeepsExactlyOnce(s);
    case Send =>
      FlattenAppend(s.sent, s.phase.batch);
      assert Flatten(s.sent) + (s.phase.batch + s.table) == Flatten(s.sent) + s.phase.batch + s.table;
  }

  // ---- a poll delivers everything ----

  function InsertAll(s: Source, xs: seq<Event>): Source
    decreases xs
  {
    if xs == [] then s else InsertAll(Do(s, Insert(xs[0])), xs[1..])
  }

  lemma {:induction false} InsertAllInOrder(s: Source, xs: seq<Event>)
    requires Ascending(s.inserted + xs) && forall i | 0 <= i < |s.table| :: s.table[i] in s.inserted
    ensures InsertAll(s, xs) == s.(inserted := s.inserted + xs, table := s.table + xs)
    decreases xs
  {
    if xs != [] {
      var e, s' := xs[0], Do(s, Insert(xs[0]));
      var all := s.inserted + xs;
      forall i | 0 <= i < |s.table| ensures s.table[i].id < e.id {
        var k :| 0 <= k < |s.inserted| && s.inserted[k] == s.table[i];
        assert all[k].id < all[|s.inserted|].id;
      }
      PlaceLast(e, s.table);
      assert s'.inserted + xs[1..] == all;
      InsertAllInOrder(s', xs[1..]);
      assert s.table + [e] + xs[1..] == s.table + xs;
    } else {
      assert s.inserted + xs == s.inserted && s.table + xs == s.table;
    }
  }

  /** A whole poll of a non-empty table, with rows becoming visible between its steps. */
  function Polled(s: Source, xs: seq<Event>, ys: seq<Event>): Source
    requires s.phase.Idle? && s.table != []
  {
    var fetched := InsertAll(Do(s, Fetch), xs);
    if !Can(fetched, Delete(true)) then fetched else
    var deleted := InsertAll(Do(fetched, Delete(true)), ys);
    if !Can(deleted, Send) then deleted else Do(deleted, Send)
  }

  lemma FetchedThenInserted(s: Source, xs: seq<Event>)
    requires ExactlyOnce(s) && s.phase.Idle? && s.table != [] && Ascending(s.inserted + xs)
    ensures InsertAll(Do(s, Fetch), xs) ==
      s.(inserted := s.inserted + xs, table := s.table + xs, phase := Fetched(s.table))
  {
    var n := |s.inserted| - |s.table|;
    forall i | 0 <= i < |s.table| ensures s.table[i] in s.inserted { assert s.table[i] == s.inserted[n + i]; }
    InsertAllInOrder(Do(s, Fetch), xs);
  }

  lemma LaterRowsStay(inserted: seq<Event>, table: seq<Event>, xs: seq<Event>)
    requires Ascending(inserted + xs) && table != []
    requires |table| <= |inserted| && table == inserted[|inserted| - |table|..]
    ensures After(table + xs, MaxId(table)) == xs
  {
    var n, max, all := |inserted| - |table|, MaxId(table), inserted + xs;
    var k :| 0 <= k < |table| && table[k].id == max;
    assert all[n + k] == table[k];
    forall i | 0 <= i < |xs| ensures xs[i].id > max { assert all[|inserted| + i] == xs[i]; }
    AfterPrefix(table, xs, max);
  }

  lemma TailInserted(inserted: seq<Event>, xs: seq<Event>)
    ensures forall i | 0 <= i < |xs| :: xs[i] in inserted + xs
  {
    forall i | 0 <= i < |xs| ensures xs[i] in inserted + xs { assert (inserted + xs)[|inserted| + i] == xs[i]; }
  }

  lemma AscendingPrefix(a: seq<Event>, b: seq<Event>)
    requires Ascending(a + b)
    ensures Ascending(a)
  {
    assert forall i | 0 <= i < |a| :: a[i] == (a + b)[i];
  }

  /** From an idle poller with rows to send, a poll goes through: fetch, delete and send are enabled in
      turn. It sends the whole table as one batch, so that everything visible at its fetch has been
      sent, and leaves in the table exactly the rows that appeared meanwhile. */
  lemma PollDelivers(s: Source, xs: seq<Event>, ys: seq<Event>)
    requires ExactlyOnce(s) && s.phase.Idle? && s.table != [] && Ascending(s.inserted + xs + ys)
    ensures Can(s, Fetch) && Can(InsertAll(Do(s, Fetch), xs), Delete(true))
    ensures Can(InsertAll(Do(InsertAll(Do(s, Fetch), xs), Delete(true)), ys), Send)
    ensures Polled(s, xs, ys) == Source(s.inserted + xs + ys, xs + ys, Idle, s.sent + [s.table])
    ensures Flatten(Polled(s, xs, ys).sent) == s.inserted
  {
    AscendingPrefix(s.inserted + xs, ys);
    FetchedThenInserted(s, xs);
    assert s.table == s.inserted[|s.inserted| - |s.table|..];
    LaterRowsStay(s.inserted, s.table, xs);
    var deleted := Do(InsertAll(Do(s, Fetch), xs), Delete(true));
    assert deleted == Source(s.inserted + xs, xs, Deleted(s.table), s.sent);
    TailInserted(s.inserted, xs);
    InsertAllInOrder(deleted, ys);
    FlattenAppend(s.sent, s.table);
  }

  // ---- every event at least once ----

  ghost predicate Accounted(s: Source, e: Event) {
    || e in s.table
    || (s.phase.Deleted? && e in s.phase.batch)
    || exists i :: 0 <= i < |s.sent| && e in s.sent[i]
  }

  /** The rows a fetched batch may be deleted with: nothing has appeared below its largest id. */
  ghost predicate NoLateRow(s: Source)
    requires s.phase.Fetched? && s.phase.batch != []
  {
    forall e | e in s.table && e.id <= MaxId(s.phase.batch) :: e in s.phase.batch
  }

  ghost predicate AtLeastOnce(s: Source) {
    && Ascending(s.inserted)
    && (forall e | e in s.inserted :: Accounted(s, e))
    && (forall e | e in s.table :: e in s.inserted)
    && (s.phase.Fetched? ==> s.phase.batch != [] && NoLateRow(s) && forall e | e in s.phase.batch :: e in s.inserted)
  }

  lemma {:induction false} PlaceAdds(e: Event, table: seq<Event>)
    ensures forall x :: x in Place(e, table) <==> x == e || x in table
  {
    if table != [] {
      PlaceAdds(e, table[1..]);
      assert table == [table[0]] + table[1..];
    }
  }

  /** Even when deletes fail, an event whose row became visible in id order is always in the table,
      in flight or sent. */
  lemma StepKeepsAtLeastOnce(s: Source, a: SourceStep)
    requires AtLeastOnce(s) && Can(s, a) && InOrder(s, a)
    ensures AtLeastOnce(Do(s, a))
  {
    var s' := Do(s, a);
    if a.Insert? {
      PlaceAdds(a.e, s.table);
      if s.phase.Fetched? {
        var k :| 0 <= k < |s.phase.batch| && s.phase.batch[k].id == MaxId(s.phase.batch);
        assert s.phase.batch[k] in s.inserted;
      }
    }
    forall e | e in s'.inserted ensures Accounted(s', e) {
      if e in s.inserted {
        assert Accounted(s, e);
        if i :| 0 <= i < |s.sent| && e in s.sent[i] {
          assert s'.sent[i] == s.sent[i];
        } else if a.Send? && e in s.phase.batch {
          assert s'.sent[|s.sent|] == s.phase.batch;
        }
      }
    }
  }

  /** What a delete loses is exactly what appeared below the largest fetched id after the fetch. */
  lemma DeleteLosesExactlyLateRows(s: Source, e: Event)
    requires s.phase.Fetched? && s.phase.batch != [] && e in s.table
    ensures Accounted(Do(s, Delete(true)), e) <==>
      e.id > MaxId(s.phase.batch) || e in s.phase.batch || exists i :: 0 <= i < |s.sent| && e in s.sent[i]
  {
  }

  /** Every row the delete is about to meet is above the largest fetched id, fetched, or sent. */
  ghost predicate DeletesOnlySeen(s: Source)
    requires s.phase.Fetched? && s.phase.batch != []
  {
    forall e | e in s.table ::
      e.id > MaxId(s.phase.batch) || e in s.phase.batch || exists i :: 0 <= i < |s.sent| && e in s.sent[i]
  }

  ghost predicate AllAccounted(s: Source) {
    forall e | e in s.inserted :: Accounted(s, e)
  }

  /** The table holds rows that were inserted, and a fetched batch is one to delete. */
  ghost predicate TableInserted(s: Source) {
    && (forall e | e in s.table :: e in s.inserted)
    && (s.phase.Fetched? ==> s.phase.batch != [])
  }

  lemma StepKeepsTable(s: Source, a: SourceStep)
    requires TableInserted(s) && Can(s, a)
    ensures TableInserted(Do(s, a))
  {
    if a.Insert? { PlaceAdds(a.e, s.table); }
  }

  lemma StaysAccounted(s: Source, a: SourceStep, e: Event)
    requires Can(s, a) && a != Delete(true) && Accounted(s, e)
    ensures Accounted(Do(s, a), e)
  {
    var s' := Do(s, a);
    if a.Insert? { PlaceAdds(a.e, s.table); }
    if i :| 0 <= i < |s.sent| && e in s.sent[i] {
      assert s'.sent[i] == s.sent[i];
    } else if a.Send? && e in s.phase.batch {
      assert s'.sent[|s.sent|] == s.phase.batch;
    }
  }

  /** A step keeps every inserted event accounted for exactly when it is not a successful delete that
      meets a row nobody has seen. No order of visibility is assumed. */
  lemma AccountedIffDeletesSeen(s: Source, a: SourceStep)
    requires TableInserted(s) && AllAccounted(s) && Can(s, a)
    ensures AllAccounted(Do(s, a)) <==> (a == Delete(true) ==> DeletesOnlySeen(s))
  {
    var s' := Do(s, a);
    if a == Delete(true) {
      forall e | e in s.table ensures Accounted(s', e) <==>
        e.id > MaxId(s.phase.batch) || e in s.phase.batch || exists i :: 0 <= i < |s.sent| && e in s.sent[i]
      {
        DeleteLosesExactlyLateRows(s, e);
      }
      forall e | e in s.inserted && e !in s.table ensures Accounted(s', e) { assert Accounted(s, e); }
    } else {
      forall e | e in s.inserted ensures Accounted(s', e) { StaysAccounted(s, a, e); }
      if a.Insert? { PlaceAdds(a.e, s.table); }
    }
  }

  // ---- whole runs ----

  datatype Trace = Start | Then(before: Trace, a: SourceStep)

  ghost predicate Legal(t: Trace)
    decreases t, 0
  {
    t.Then? ==> Legal(t.before) && Can(Final(t.before), t.a)
  }

  ghost function Final(t: Trace): Source
    requires Legal(t)
    decreases t, 1
  {
    if t.Start? then Source([], [], Idle, []) else Do(Final(t.before), t.a)
  }

  ghost predicate VisibleInOrder(t: Trace)
    requires Legal(t)
  {
    t.Then? ==> VisibleInOrder(t.before) && InOrder(Final(t.before), t.a)
  }

  ghost predicate NoDeleteFails(t: Trace) {
    t.Then? ==> NoDeleteFails(t.before) && t.a != Delete(false)
  }

  lemma {:induction false} EveryEventOnceInOrder(t: Trace)
    requires Legal(t) && VisibleInOrder(t) && NoDeleteFails(t)
    ensures ExactlyOnce(Final(t)) && Flatten(Final(t).sent) <= Final(t).inserted
  {
    if t.Then? {
      EveryEventOnceInOrder(t.before);
      StepKeepsExactlyOnce(Final(t.before), t.a);
    }
    assert ExactlyOnce(Final(t));
  }

  /** After every poll of every such run, everything visible at its fetch has been sent, once and in
      order, and exactly the later rows are left. */
  lemma EveryPollDelivers(t: Trace, xs: seq<Event>, ys: seq<Event>)
    requires Legal(t) && VisibleInOrder(t) && NoDeleteFails(t)
    requires Final(t).phase.Idle? && Final(t).table != [] && Ascending(Final(t).inserted + xs + ys)
    ensures var s := Polled(Final(t), xs, ys);
      s.phase.Idle? && Flatten(s.sent) == Final(t).inserted && s.table == xs + ys
  {
    EveryEventOnceInOrder(t);
    PollDelivers(Final(t), xs, ys);
  }

  lemma {:induction false} EveryEventAtLeastOnce(t: Trace)
    requires Legal(t) && VisibleInOrder(t)
    ensures AtLeastOnce(Final(t))
  {
    if t.Then? {
      EveryEventAtLeastOnce(t.before);
      StepKeepsAtLeastOnce(Final(t.before), t.a);
    }
  }

  /** At every point of the run so far. */
  ghost predicate AlwaysAccounted(t: Trace)
    requires Legal(t)
  {
    AllAccounted(Final(t)) && (t.Then? ==> AlwaysAccounted(t.before))
  }

  ghost predicate EveryDeleteSeen(t: Trace)
    requires Legal(t)
  {
    t.Then? ==> EveryDeleteSeen(t.before) && (t.a == Delete(true) ==> DeletesOnlySeen(Final(t.before)))
  }

  lemma {:induction false} TableAlwaysInserted(t: Trace)
    requires Legal(t)
    ensures TableInserted(Final(t))
  {
    if t.Then? {
      TableAlwaysInserted(t.before);
      StepKeepsTable(Final(t.before), t.a);
    }
  }

  /** In every run, whatever the order of visibility and whichever deletes fail, every inserted event
      is in the table, in flight or sent throughout exactly when every successful delete meets only
      rows above the largest fetched id, fetched rows, or rows already sent. */
  lemma {:induction false} AlwaysAccountedIffDeletesSeen(t: Trace)
    requires Legal(t)
    ensures AlwaysAccounted(t) <==> EveryDeleteSeen(t)
  {
    if t.Then? {
      AlwaysAccountedIffDeletesSeen(t.before);
      if AlwaysAccounted(t.before) {
        TableAlwaysInserted(t.before);
        AccountedIffDeletesSeen(Final(t.before), t.a);
      }
    }
  }

  /** Without visibility in id order an event can vanish: a row with a smaller id, committed
      between a fetch and its delete, is deleted unseen. */
  lemma LateRowIsLost() returns (t: Trace, e: Event)
    ensures Legal(t) && NoDeleteFails(t)
    ensures e in Final(t).inserted && !Accounted(Final(t), e) && Final(t).phase.Idle?
  {
    e := Event(1, "ticket", "late");
    var f := Event(2, "ticket", "early");
    var t1 := Then(Start, Insert(f));
    assert Final(t1).table == [f];
    var t2 := Then(t1, Fetch);
    var t3 := Then(t2, Insert(e));
    assert Place(e, [f]) == [e, f];
    assert Final(t3) == Source([f, e], [e, f], Fetched([f]), []);
    var t4 := Then(t3, Delete(true));
    assert [e, f][1..] == [f] && [f][1..] == [];
    assert After([f], 2) == [] && After([e, f], 2) == [];
    assert Final(t4) == Source([f, e], [], Deleted([f]), []);
    t := Then(t4, Send);
    assert Final(t) == Source([f, e], [], Idle, [[f]]);
    assert e in [f, e] by { assert [f, e][1] == e; }
  }
}
