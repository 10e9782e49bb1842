/** The merged event stream: two pollers feed one loop, which sends every batch to all registered
    listeners and prunes the closed ones. */
module UiEvents {
  import opened Events

  datatype Db = Ticket | Workflow

  datatype Item = Item(db: Db, batch: Batch)

  /** A listener's history: where the merged stream stood when it subscribed, and what it got. */
  datatype Log = Log(from: nat, received: seq<Item>)

  // ---- dispatch ----

  function Open(listeners: seq<nat>, closed: set<nat>): (r: seq<nat>)
    ensures forall n :: n in r <==> n in listeners && n !in closed
  {
    if listeners == [] then [] else
    var rest := Open(listeners[1..], closed);
    assert listeners == [listeners[0]] + listeners[1..];
    if listeners[0] in closed then rest else [listeners[0]] + rest
  }

  lemma {:induction false} OpenAppend(listeners: seq<nat>, n: nat, closed: set<nat>)
    ensures Open(listeners + [n], closed) == Open(listeners, closed) + if n in closed then [] else [n]
  {
    if listeners == [] {
      assert listeners + [n] == [n] && [n][1..] == [];
    } else {
      OpenAppend(listeners[1..], n, closed);
      assert (listeners + [n])[1..] == listeners[1..] + [n];
    }
  }

  ghost function Delivered(logs: map<nat, Log>, to: set<nat>, item: Item): map<nat, Log> {
    map n | n in logs :: if n in to then logs[n].(received := logs[n].received + [item]) else logs[n]
  }

  /** The listener list of a poller, shared with the tasks that subscribe. */
  class Hub {
    var listeners: seq<nat>
    var logs: map<nat, Log>
    var closed: set<nat>    // receivers that have gone away

    ghost predicate Valid()
      reads this
    {
      (forall n | n in listeners :: n in logs) && Distinct(listeners)
    }

    /** Send to each listener in turn, keeping those whose send succeeded. */
    method DispatchBatch(item: Item)
      requires Valid()
      modifies this`listeners, this`logs
      ensures Valid()
      ensures listeners == Open(old(listeners), closed)
      ensures logs == Delivered(old(logs), (set n | n in old(listeners) && n !in closed), item)
    {
      if listeners == [] {
        assert Delivered(logs, {}, item) == logs;
        return;
      }
      var alive: seq<nat> := [];
      ghost var reached: set<nat> := {};
      var drained := listeners;
      assert Delivered(logs, {}, item) == logs;
      for i := 0 to |drained|
        invariant listeners == drained == old(listeners) && Valid()
        invariant alive == Open(drained[..i], closed)
        invariant reached == set n | n in drained[..i] && n !in closed
        invariant logs == Delivered(old(logs), reached, item)
      {
        var tx := drained[i];
        assert drained[..i + 1] == drained[..i] + [tx];
        OpenAppend(drained[..i], tx, closed);
        if tx !in closed {
          assert tx !in drained[..i];
          logs := logs[tx := logs[tx].(received := logs[tx].received + [item])];
          alive := alive + [tx];
          reached := reached + {tx};
        }
      }
      assert drained[..|drained|] == drained;
      OpenKeepsDistinct(drained, closed);
      listeners := alive;
    }
  }

  predicate Distinct(q: seq<nat>) {
    forall i, j | 0 <= i < j < |q| :: q[i] != q[j]
  }

  lemma {:induction false} OpenKeepsDistinct(q: seq<nat>, closed: set<nat>)
    requires Distinct(q)
    ensures Distinct(Open(q, closed))
  {
    if q != [] { OpenKeepsDistinct(q[1..], closed); }
  }

  // ---- the pipeline ----

  /** One poller and how many of its batches the merge loop has received. */
  datatype Feed = Feed(source: Source, taken: nat)

  datatype Pipe = Pipe(
    ticket: Feed,
    workflow: Feed,
    merged: seq<Item>,         // history of the merge loop
    listeners: seq<nat>,
    logs: map<nat, Log>,
    closed: set<nat>,
    next: nat)

  datatype Step = Poll(db: Db, a: SourceStep) | Merge(db: Db) | Subscribe | Close(n: nat)

  function Get(p: Pipe, db: Db): Feed {
    if db.Ticket? then p.ticket else p.workflow
  }

  function Put(p: Pipe, db: Db, feed: Feed): Pipe {
    if db.Ticket? then p.(ticket := feed) else p.(workflow := feed)
  }

  predicate Can(p: Pipe, a: Step) {
    match a
    case Poll(db, step) => Events.Can(Get(p, db).source, step)
    case Merge(db) => Get(p, db).taken < |Get(p, db).source.sent|
    case Subscribe => true
    case Close(n) => n in p.logs
  }

  ghost function Do(p: Pipe, a: Step): Pipe
    requires Can(p, a)
  {
    match a
    case Poll(db, step) => Put(p, db, Get(p, db).(source := Events.Do(Get(p, db).source, step)))
    case Merge(db) =>
      var feed := Get(p, db);
      var item := Item(db, feed.source.sent[feed.taken]);
      Put(p, db, feed.(taken := feed.taken + 1)).(
        merged := p.merged + [item],
        listeners := Open(p.listeners, p.closed),
        logs := Delivered(p.logs, (set n | n in p.listeners && n !in p.closed), item))
    case Subscribe =>
      p.(listeners := p.listeners + [p.next], logs := p.logs[p.next := Log(|p.merged|, [])], next := p.next + 1)
    case Close(n) => p.(closed := p.closed + {n})
  }

  function Only(items: seq<Item>, db: Db): seq<Batch> {
    if items == [] then [] else
    (if items[0].db == db then [items[0].batch] else []) + Only(items[1..], db)
  }

  lemma {:induction false} OnlyAppend(items: seq<Item>, item: Item, db: Db)
    ensures Only(items + [item], db) == Only(items, db) + if item.db == db then [item.batch] else []
  {
    if items == [] {
      assert items + [item] == [item] && [item][1..] == [];
    } else {
      OnlyAppend(items[1..], item, db);
      assert (items + [item])[1..] == items[1..] + [item];
    }
  }

  predicate Rising(q: seq<nat>) {
    forall i, j | 0 <= i < j < |q| :: q[i] < q[j]
  }

  lemma {:induction false} OpenKeepsRising(q: seq<nat>, closed: set<nat>)
    requires Rising(q)
    ensures Rising(Open(q, closed))
  {
    if q != [] {
      OpenKeepsRising(q[1..], closed);
      var rest := Open(q[1..], closed);
      forall i | 0 <= i < |rest| ensures q[0] < rest[i] {
        assert rest[i] in rest;
        var j :| 0 <= j < |q[1..]| && q[1..][j] == rest[i];
      }
    }
  }

  /** The merged stream restricted to a database is that poller's batch sequence, as far as taken. */
  ghost predicate MergedInOrder(p: Pipe) {
    forall db :: TakenInOrder(p, db)
  }

  predicate TakenInOrder(p: Pipe, db: Db) {
    var feed := Get(p, db);
    feed.taken <= |feed.source.sent| && Only(p.merged, db) == feed.source.sent[..feed.taken]
  }

  /** A log is a contiguous segment of the merged stream, up to its end while the listener is open. */
  predicate Segment(log: Log, merged: seq<Item>, open: bool) {
    && log.from + |log.received| <= |merged|
    && log.received == merged[log.from..log.from + |log.received|]
    && (open ==> log.from + |log.received| == |merged|)
  }

  /** Exactly the listeners never closed are sure to be registered, in order of subscription. */
  ghost predicate LogsAreSegments(p: Pipe) {
    && (forall n | n in p.logs :: n < p.next && Segment(p.logs[n], p.merged, n !in p.closed))
    && (forall n | n in p.listeners :: n in p.logs)
    && (forall n | n in p.logs && n !in p.closed :: n in p.listeners)
    && (forall n | n in p.closed :: n in p.logs)
    && Rising(p.listeners)
  }

  lemma StepKeepsMerged(p: Pipe, a: Step, db: Db)
    requires TakenInOrder(p, db) && Can(p, a)
    ensures TakenInOrder(Do(p, a), db)
  {
    if a.Merge? {
      OnlyAppend(p.merged, Item(a.db, Get(p, a.db).source.sent[Get(p, a.db).taken]), db);
    } else if a.Poll? {
      assert Get(p, db).source.sent <= Get(Do(p, a), db).source.sent;
    }
  }

  lemma LogGrows(log: Log, merged: seq<Item>, item: Item, open: bool, delivered: bool)
    requires Segment(log, merged, open) && (open ==> delivered) && (delivered ==> open)
    ensures Segment(if delivered then log.(received := log.received + [item]) else log, merged + [item], open)
  {
  }

  lemma MergeKeepsSegments(p: Pipe, a: Step)
    requires LogsAreSegments(p) && Can(p, a) && a.Merge?
    ensures LogsAreSegments(Do(p, a))
  {
    var p' := Do(p, a);
    var item := Item(a.db, Get(p, a.db).source.sent[Get(p, a.db).taken]);
    OpenKeepsRising(p.listeners, p.closed);
    forall n | n in p'.logs ensures n < p'.next && Segment(p'.logs[n], p'.merged, n !in p'.closed) {
      assert Segment(p.logs[n], p.merged, n !in p.closed);
      LogGrows(p.logs[n], p.merged, item, n !in p.closed, n in p.listeners && n !in p.closed);
    }
  }

  lemma StepKeepsSegments(p: Pipe, a: Step)
    requires LogsAreSegments(p) && Can(p, a)
    ensures LogsAreSegments(Do(p, a))
  {
    if a.Merge? {
      MergeKeepsSegments(p, a);
    } else if a.Subscribe? {
      forall i | 0 <= i < |p.listeners| ensures p.listeners[i] < p.next { assert p.listeners[i] in p.listeners; }
    }
  }

  // ---- listeners come and go ----

  /** Subscribing registers a new listener: open, with an empty log from here on, after the others,
      whose logs and registration stay. */
  lemma SubscribeRegisters(p: Pipe)
    requires LogsAreSegments(p)
    ensures var p' := Do(p, Subscribe);
      && p.next !in p.logs && p.next !in p'.closed && p'.next > p.next
      && p'.logs == p.logs[p.next := Log(|p.merged|, [])]
      && p'.listeners == p.listeners + [p.next] && p'.merged == p.merged && p'.closed == p.closed
  {
  }

  /** A closed listener gets nothing more, and the next batch takes it off the list. */
  lemma CloseEnds(p: Pipe, n: nat, db: Db)
    requires Can(p, Close(n)) && Can(Do(p, Close(n)), Merge(db))
    ensures var p' := Do(Do(p, Close(n)), Merge(db));
      n !in p'.listeners && n in p'.logs && p'.logs[n] == p.logs[n]
      && forall m | m in p.listeners && m !in p.closed && m != n :: m in p'.listeners
  {
  }

  // ---- a poll reaches every listener ----

  /** A poll of one database and the merge of what it sends. */
  ghost predicate CanPass(p: Pipe, db: Db) {
    && Can(p, Poll(db, Fetch))
    && var p1 := Do(p, Poll(db, Fetch));
    && Can(p1, Poll(db, Delete(true)))
    && var p2 := Do(p1, Poll(db, Delete(true)));
    && Can(p2, Poll(db, Send))
    && Can(Do(p2, Poll(db, Send)), Merge(db))
  }

  ghost function Passed(p: Pipe, db: Db): Pipe
    requires CanPass(p, db)
  {
    Do(Do(Do(Do(p, Poll(db, Fetch)), Poll(db, Delete(true))), Poll(db, Send)), Merge(db))
  }

  /** When a poller is idle with rows in its table and the merge loop has taken all it sent, its next
      poll and merge go through, and every registered open listener receives the whole table as its
      next batch; closed ones receive nothing and the other database is left alone. */
  lemma RowsReachListeners(p: Pipe, db: Db)
    requires Get(p, db).source.phase.Idle? && Get(p, db).source.table != []
    requires Get(p, db).taken == |Get(p, db).source.sent|
    ensures CanPass(p, db)
    ensures var p', item := Passed(p, db), Item(db, Get(p, db).source.table);
      && p'.merged == p.merged + [item] && p'.listeners == Open(p.listeners, p.closed)
      && p'.logs.Keys == p.logs.Keys
      && (forall n | n in p.logs && n in p.listeners && n !in p.closed ::
            p'.logs[n] == p.logs[n].(received := p.logs[n].received + [item]))
      && (forall n | n in p.logs && !(n in p.listeners && n !in p.closed) :: p'.logs[n] == p.logs[n])
      && (forall other | other != db :: Get(p', other) == Get(p, other))
  {
    var table := Get(p, db).source.table;
    var p1 := Do(p, Poll(db, Fetch));
    assert Get(p1, db).source.phase == Fetched(table);
    var p2 := Do(p1, Poll(db, Delete(true)));
    assert Get(p2, db).source.phase == Deleted(table);
    var p3 := Do(p2, Poll(db, Send));
    assert Get(p3, db).source.sent == Get(p, db).source.sent + [table] && Get(p3, db).taken == Get(p, db).taken;
  }

  // ---- whole runs, end to end ----

  datatype Trace = Start | Then(before: Trace, a: Step)

  ghost predicate Legal(t: Trace)
    decreases t, 0
  {
    t.Then? ==> Legal(t.before) && Can(Final(t.before), t.a)
  }

  ghost function Final(t: Trace): Pipe
    requires Legal(t)
    decreases t, 1
  {
    if t.Start? then
      var empty := Feed(Source([], [], Idle, []), 0);
      Pipe(empty, empty, [], [], map[], {}, 0)
    else Do(Final(t.before), t.a)
  }

  lemma {:induction false} EveryRunIsSegmented(t: Trace)
    requires Legal(t)
    ensures MergedInOrder(Final(t)) && LogsAreSegments(Final(t))
  {
    if t.Then? {
      EveryRunIsSegmented(t.before);
      StepKeepsSegments(Final(t.before), t.a);
      forall db ensures TakenInOrder(Final(t), db) { StepKeepsMerged(Final(t.before), t.a, db); }
    } else {
      forall db ensures TakenInOrder(Final(t), db) {}
    }
  }

  /** Rows visible in id order and no failed delete, in both databases. */
  ghost predicate Reliable(t: Trace)
    requires Legal(t)
  {
    t.Then? ==>
      && Reliable(t.before)
      && (t.a.Poll? ==> InOrder(Get(Final(t.before), t.a.db).source, t.a.a) && t.a.a != Delete(false))
  }

  lemma {:induction false} SourcesExact(t: Trace, db: Db)
    requires Legal(t) && Reliable(t)
    ensures ExactlyOnce(Get(Final(t), db).source)
  {
    if t.Then? {
      SourcesExact(t.before, db);
      if t.a.Poll? && t.a.db == db {
        StepKeepsExactlyOnce(Get(Final(t.before), db).source, t.a.a);
      }
    }
  }

  lemma Associative<T>(x: seq<T>, y: seq<T>, z: seq<T>)
    ensures x + (y + z) == (x + y) + z
  {
  }

  lemma {:induction false} FlattenConcat(a: seq<Batch>, b: seq<Batch>)
    ensures Flatten(a + b) == Flatten(a) + Flatten(b)
  {
    if a == [] {
      assert a + b == b;
    } else {
      FlattenConcat(a[1..], b);
      assert (a + b)[1..] == a[1..] + b;
      Associative(a[0], Flatten(a[1..]), Flatten(b));
    }
  }

  lemma {:induction false} OnlyConcat(a: seq<Item>, b: seq<Item>, db: Db)
    ensures Only(a + b, db) == Only(a, db) + Only(b, db)
  {
    if a == [] {
      assert a + b == b;
    } else {
      OnlyConcat(a[1..], b, db);
      assert (a + b)[1..] == a[1..] + b;
      Associative(if a[0].db == db then [a[0].batch] else [], Only(a[1..], db), Only(b, db));
    }
  }

  /** The events of `db` in the first `k` items of the merged stream. */
  ghost function EventsOf(p: Pipe, db: Db, k: nat): seq<Event>
    requires k <= |p.merged|
  {
    Flatten(Only(p.merged[..k], db))
  }

  lemma EventsOfSplit(p: Pipe, db: Db, i: nat, j: nat)
    requires i <= j <= |p.merged|
    ensures EventsOf(p, db, j) == EventsOf(p, db, i) + Flatten(Only(p.merged[i..j], db))
  {
    assert p.merged[..j] == p.merged[..i] + p.merged[i..j];
    OnlyConcat(p.merged[..i], p.merged[i..j], db);
    FlattenConcat(Only(p.merged[..i], db), Only(p.merged[i..j], db));
  }

  lemma EventsOfLog(p: Pipe, db: Db, log: Log, open: bool)
    requires Segment(log, p.merged, open)
    ensures EventsOf(p, db, log.from) + Flatten(Only(log.received, db)) <= EventsOf(p, db, |p.merged|)
    ensures open ==> EventsOf(p, db, log.from) + Flatten(Only(log.received, db)) == EventsOf(p, db, |p.merged|)
  {
    var upTo := log.from + |log.received|;
    EventsOfSplit(p, db, log.from, upTo);
    EventsOfSplit(p, db, upTo, |p.merged|);
  }

  lemma MergedIsInsertedPrefix(t: Trace, db: Db)
    requires Legal(t) && Reliable(t)
    ensures var p := Final(t); EventsOf(p, db, |p.merged|) <= Get(p, db).source.inserted
  {
    var p := Final(t);
    EveryRunIsSegmented(t);
    SourcesExact(t, db);
    assert TakenInOrder(p, db);
    var sent, k := Get(p, db).source.sent, Get(p, db).taken;
    assert p.merged[..|p.merged|] == p.merged;
    FlattenConcat(sent[..k], sent[k..]);
    assert sent == sent[..k] + sent[k..];
  }

  /** End to end: in every reliable run, for every listener ever registered and either database,
      the events of that database it has received follow those merged before it subscribed, and
      both together are a prefix of the rows inserted there: in order, none missing, none twice.
      While it stays open it has everything merged so far. */
  lemma ListenerSeesInsertedStretch(t: Trace, n: nat, db: Db)
    requires Legal(t) && Reliable(t) && n in Final(t).logs
    ensures var p := Final(t); var log := p.logs[n];
      && log.from <= |p.merged|
      && EventsOf(p, db, log.from) + Flatten(Only(log.received, db)) <= Get(p, db).source.inserted
      && (n !in p.closed ==>
            EventsOf(p, db, log.from) + Flatten(Only(log.received, db)) == EventsOf(p, db, |p.merged|))
  {
    var p := Final(t);
    EveryRunIsSegmented(t);
    MergedIsInsertedPrefix(t, db);
    var log := p.logs[n];
    assert Segment(log, p.merged, n !in p.closed);
    EventsOfLog(p, db, log, n !in p.closed);
  }
}
