/** Many launches and stops of exclusive-slot workers running at once against the claim set, the
    database and the containers. Every action is one atomic step of the code between awaits; a
    launch can be cancelled at any of them. A launch, its worker row and its container share one
    id, so process ids are distinct. */
module Fleet {
  import opened Overlay
  import opened Pool

  type Id = nat

  datatype Status = Provisioning | Running | Stopped

  datatype Row = Row(status: Status, slot: SlotId)

  /** Where a launch is suspended. */
  datatype Pc =
    | Trying(candidates: seq<SlotId>, k: nat)   // snapshot taken, k candidates refused
    | Scanning                                  // every candidate refused
    | Preparing(index: nat)
    | Inserting(index: nat)
    | Inserted(slot: SlotId)                    // row visible, not yet claimed
    | Recycling(slot: SlotId)
    | Acquired(slot: SlotId)
    | Recorded(slot: SlotId)                    // provisioning row written
    | Starting(slot: SlotId)                    // container exists, builderd waits for its health
    | Up(slot: SlotId)                          // container healthy
    | Finalized(slot: SlotId)                   // row marked running
    | Linked(slot: SlotId)
    | Undoing(slot: SlotId)                     // finalize or link failed: stop the container
    | Erasing(slot: SlotId)                     // then delete the row

  datatype StopPc = Read | Cleaning | Unlinked

  datatype State = State(
    limit: nat,
    slots: map<SlotId, nat>,      // slot rows: id to slot name
    dirs: set<nat>,               // numeric slot directories on disk
    claims: set<SlotId>,
    launches: map<Id, Pc>,
    used: set<Id>,
    rows: map<Id, Row>,
    links: map<Id, SlotId>,       // worker_slot
    containers: set<Id>,
    stops: map<Id, StopPc>)

  /** Steps of `acquire_slot`. */
  datatype AcquireStep =
    | Query(candidates: seq<SlotId>)
    | Try
    | FallThrough
    | Recycle(ok: bool)
    | Scan(scan: seq<nat>)
    | Prepare(ok: bool, made: bool)
    | InsertRow(id: SlotId, ok: bool)
    | ClaimNew

  /** Steps of `run_and_record` and the end of `launch`. */
  datatype RecordStep =
    | Provision(ok: bool)
    | Run(ok: bool)                   // docker run
    | Ready(ok: bool, cleaned: bool)  // the startup check, and builderd's own cleanup if it fails
    | Finalize(ok: bool)
    | Link(ok: bool)
    | Undo(ok: bool)
    | Erase(ok: bool)
    | Finish
    | Cancel      // the launch future is dropped, at whatever await it is suspended

  /** Steps of `stop_by_worker_id`. */
  datatype StopStep = ReadRow | StopContainer | CleanAndUnlink | MarkStopped | Abort

  datatype Action =
    | Acquire(l: Id, acq: AcquireStep)
    | Record(l: Id, rec: RecordStep)
    | Stop(w: Id, stp: StopStep)

  // ---- one id at a time ----

  function Get<V>(m: map<Id, V>, u: Id): Option<V> {
    if u in m then Some(m[u]) else None
  }

  function Set<V(==)>(m: map<Id, V>, u: Id, v: Option<V>): map<Id, V> {
    if Get(m, u) == v then m else if v.Some? then m[u := v.value] else m - {u}
  }

  /** Everything the state says about one id. */
  datatype Local = Local(
    used: bool, pc: Option<Pc>, row: Option<Row>, link: Option<SlotId>, up: bool, stop: Option<StopPc>)

  function View(s: State, u: Id): Local {
    Local(u in s.used, Get(s.launches, u), Get(s.rows, u), Get(s.links, u), u in s.containers, Get(s.stops, u))
  }

  /** The state with another view of one id that has been used. */
  function Put(s: State, u: Id, v: Local): State {
    s.(launches := Set(s.launches, u, v.pc),
       rows := Set(s.rows, u, v.row),
       links := Set(s.links, u, v.link),
       containers := if v.up == (u in s.containers) then s.containers
                     else if v.up then s.containers + {u} else s.containers - {u},
       stops := Set(s.stops, u, v.stop))
  }

  lemma PutThenView(s: State, u: Id, v: Local)
    requires v.used == (u in s.used)
    ensures View(Put(s, u, v), u) == v
  {
  }

  lemma PutFrame(s: State, u: Id, v: Local, w: Id)
    requires w != u
    ensures View(Put(s, u, v), w) == View(s, w)
  {
  }

  /** The slot whose `SlotClaim` guard a launch owns. */
  function Guard(pc: Pc): Option<SlotId> {
    match pc
    case Trying(_, _) => None
    case Scanning => None
    case Preparing(_) => None
    case Inserting(_) => None
    case Inserted(_) => None
    case _ => Some(pc.slot)
  }

  /** Not linked to an active worker, as `find_available_slots` selects. */
  ghost predicate Available(s: State, id: SlotId) {
    id in s.slots && forall w | w in s.links && s.links[w] == id :: w in s.rows && s.rows[w].status == Stopped
  }

  ghost predicate CanAcquire(s: State, l: Id, a: AcquireStep) {
    if a.Query? then l !in s.used && forall id :: id in a.candidates <==> Available(s, id)
    else
      l in s.launches &&
      var pc := s.launches[l];
      match a
      case Try => pc.Trying? && pc.k < |pc.candidates|
      case FallThrough => pc.Trying? && pc.k == |pc.candidates|
      case Recycle(_) => pc.Recycling?
      case Scan(_) => pc.Scanning?
      case Prepare(_, _) => pc.Preparing?
      case InsertRow(id, ok) =>
        pc.Inserting? && (ok ==> id !in s.slots && forall other | other in s.slots :: s.slots[other] != pc.index)
      case ClaimNew => pc.Inserted?
  }

  /** Steps of a launch that has its slot, on its own view; a launch that ends has no pc. */
  predicate MayRecord(v: Local, a: RecordStep) {
    v.pc.Some? &&
    var pc := v.pc.value;
    match a
    case Provision(_) => pc.Acquired?
    case Run(_) => pc.Recorded?
    case Ready(_, _) => pc.Starting?
    case Finalize(ok) => pc.Up? && (ok ==> v.row.Some?)
    case Link(ok) => pc.Finalized? && (ok ==> v.row.Some? && v.link.None?)
    case Undo(_) => pc.Undoing?
    case Erase(_) => pc.Erasing?
    case Finish => pc.Linked?
    case Cancel => true
  }

  function AfterRecord(v: Local, a: RecordStep): Local
    requires MayRecord(v, a)
  {
    if a.Cancel? || a.Finish? then v.(pc := None) else
    var id := v.pc.value.slot;
    match a
    case Provision(ok) =>
      if ok then v.(pc := Some(Recorded(id)), row := Some(Row(Provisioning, id))) else v.(pc := None)
    case Run(ok) => if ok then v.(pc := Some(Starting(id)), up := true) else v.(pc := Some(Erasing(id)))
    case Ready(ok, cleaned) =>
      if ok then v.(pc := Some(Up(id))) else v.(pc := Some(Erasing(id)), up := v.up && !cleaned)
    case Finalize(ok) =>
      if ok then v.(pc := Some(Finalized(id)), row := Some(v.row.value.(status := Running)))
      else v.(pc := Some(Undoing(id)))
    case Link(ok) => if ok then v.(pc := Some(Linked(id)), link := Some(id)) else v.(pc := Some(Undoing(id)))
    case Undo(ok) => v.(pc := Some(Erasing(id)), up := v.up && !ok)
    case Erase(ok) => if ok then v.(pc := None, row := None, link := None) else v.(pc := None)
  }

  predicate CanRecord(s: State, l: Id, a: RecordStep) {
    MayRecord(View(s, l), a) && (a == Link(true) ==> s.launches[l].slot in s.slots)
  }

  predicate MayStop(v: Local, a: StopStep) {
    match a
    case ReadRow => v.row.Some? && v.stop.None?
    case StopContainer => v.stop == Some(Read)
    case CleanAndUnlink => v.stop == Some(Cleaning)
    case MarkStopped => v.stop == Some(Unlinked)
    case Abort => v.stop.Some?
  }

  function AfterStop(v: Local, a: StopStep): Local
    requires MayStop(v, a)
  {
    match a
    case ReadRow => v.(stop := Some(Read))
    case StopContainer => v.(up := false, stop := Some(Cleaning))
    case CleanAndUnlink => v.(link := None, stop := Some(Unlinked))
    case MarkStopped => v.(row := if v.row.Some? then Some(v.row.value.(status := Stopped)) else None, stop := None)
    case Abort => v.(stop := None)
  }

  predicate CanStop(s: State, w: Id, a: StopStep) {
    MayStop(View(s, w), a)
  }

  ghost predicate Enabled(s: State, a: Action) {
    match a
    case Acquire(l, step) => CanAcquire(s, l, step)
    case Record(l, step) => CanRecord(s, l, step)
    case Stop(w, step) => CanStop(s, w, step)
  }

  /** The launch ends and its guard, if it owns one, is dropped. */
  function Drop(s: State, l: Id): State
    requires l in s.launches
  {
    var held := Guard(s.launches[l]);
    s.(launches := s.launches - {l}, claims := if held.Some? then s.claims - {held.value} else s.claims)
  }

  function Move(s: State, l: Id, pc: Pc): State {
    s.(launches := s.launches[l := pc])
  }

  /** `claim_slot` and what follows when it succeeds. */
  function Claim(s: State, l: Id, id: SlotId, pc: Pc): State {
    Move(s, l, pc).(claims := s.claims + {id})
  }

  ghost function DoAcquire(s: State, l: Id, a: AcquireStep): (s': State)
    requires CanAcquire(s, l, a)
    ensures s'.rows == s.rows && s'.links == s.links && s'.containers == s.containers && s'.stops == s.stops
    ensures forall u | u != l :: u in s'.launches <==> u in s.launches
    ensures forall u | u != l && u in s.launches :: s'.launches[u] == s.launches[u]
    ensures forall u | u != l :: u in s'.used <==> u in s.used
  {
    match a
    case Query(candidates) => Move(s, l, Trying(candidates, 0)).(used := s.used + {l})
    case Try =>
      var pc := s.launches[l];
      var id := pc.candidates[pc.k];
      if id in s.claims then Move(s, l, pc.(k := pc.k + 1)) else Claim(s, l, id, Recycling(id))
    case FallThrough => Move(s, l, Scanning)
    case Recycle(ok) => if ok then Move(s, l, Acquired(s.launches[l].slot)) else Drop(s, l)
    case Scan(scan) => if |scan| >= s.limit then Drop(s, l) else Move(s, l, Preparing(NextIndex(scan)))
    case Prepare(ok, made) =>
      var index := s.launches[l].index;
      var s' := if ok || made then s.(dirs := s.dirs + {index}) else s;
      if ok then Move(s', l, Inserting(index)) else Drop(s', l)
    case InsertRow(id, ok) =>
      if ok then Move(s, l, Inserted(id)).(slots := s.slots[id := s.launches[l].index]) else Drop(s, l)
    case ClaimNew =>
      var id := s.launches[l].slot;
      if id in s.claims then Drop(s, l) else Claim(s, l, id, Acquired(id))
  }

  function DoRecord(s: State, l: Id, a: RecordStep): State
    requires CanRecord(s, l, a)
  {
    var v := AfterRecord(View(s, l), a);
    var held := Guard(s.launches[l]);
    Put(s, l, v).(claims := if v.pc.None? && held.Some? then s.claims - {held.value} else s.claims)
  }

  function DoStop(s: State, w: Id, a: StopStep): State
    requires CanStop(s, w, a)
  {
    Put(s, w, AfterStop(View(s, w), a))
  }

  ghost function Do(s: State, a: Action): State
    requires Enabled(s, a)
  {
    match a
    case Acquire(l, step) => DoAcquire(s, l, step)
    case Record(l, step) => DoRecord(s, l, step)
    case Stop(w, step) => DoStop(s, w, step)
  }

  // ---- claims: hold in every interleaving ----

  type Launches = map<Id, Pc>

  ghost predicate Holds(launches: Launches, l: Id, id: SlotId) {
    l in launches && Guard(launches[l]) == Some(id)
  }

  /** The claim set is exactly the ids of the live guards, and no two guards share an id. */
  ghost predicate ClaimsAreGuards(launches: Launches, claims: set<SlotId>) {
    && (forall id | id in claims :: exists l :: Holds(launches, l, id))
    && (forall l, id | Holds(launches, l, id) :: id in claims)
    && (forall l, m, id | Holds(launches, l, id) && Holds(launches, m, id) :: l == m)
  }

  ghost predicate GuardsExact(s: State) {
    ClaimsAreGuards(s.launches, s.claims) && s.launches.Keys <= s.used
  }

  /** A launch moves on with the guard it had. */
  lemma KeepGuard(launches: Launches, claims: set<SlotId>, l: Id, pc: Pc)
    requires ClaimsAreGuards(launches, claims)
    requires Guard(pc) == if l in launches then Guard(launches[l]) else None
    ensures ClaimsAreGuards(launches[l := pc], claims)
  {
    var next := launches[l := pc];
    forall m, id ensures Holds(next, m, id) <==> Holds(launches, m, id) {}
    forall id | id in claims ensures exists m :: Holds(next, m, id) {
      var m :| Holds(launches, m, id);
      assert Holds(next, m, id);
    }
  }

  /** A launch without a guard takes a free one. */
  lemma TakeGuard(launches: Launches, claims: set<SlotId>, l: Id, pc: Pc, id: SlotId)
    requires ClaimsAreGuards(launches, claims) && id !in claims && Guard(pc) == Some(id)
    requires l in launches && Guard(launches[l]).None?
    ensures ClaimsAreGuards(launches[l := pc], claims + {id})
  {
    var next := launches[l := pc];
    assert Holds(next, l, id);
    forall m, other | m != l ensures Holds(next, m, other) <==> Holds(launches, m, other) {}
    forall other | other in claims ensures exists m :: Holds(next, m, other) {
      var m :| Holds(launches, m, other);
      assert Holds(next, m, other);
    }
  }

  /** A launch ends: only its own claim, if any, is released. */
  lemma DropGuard(s: State, l: Id)
    requires ClaimsAreGuards(s.launches, s.claims) && l in s.launches
    ensures ClaimsAreGuards(Drop(s, l).launches, Drop(s, l).claims)
  {
    var next := Drop(s, l).launches;
    forall m, id | m != l ensures Holds(next, m, id) <==> Holds(s.launches, m, id) {}
    forall id | id in Drop(s, l).claims ensures exists m :: Holds(next, m, id) {
      var m :| Holds(s.launches, m, id);
      assert Holds(next, m, id);
    }
    var held := Guard(s.launches[l]);
    if held.Some? { assert Holds(s.launches, l, held.value); }
  }

  lemma StepKeepsGuards(s: State, a: Action)
    requires GuardsExact(s) && Enabled(s, a)
    ensures GuardsExact(Do(s, a))
  {
    match a
    case Acquire(l, step) => AcquireKeepsGuards(s, l, step);
    case Record(l, step) => RecordKeepsGuards(s, l, step);
    case Stop(w, step) => StopLeavesPool(s, w, step);
  }

  lemma StopLeavesPool(s: State, w: Id, a: StopStep)
    requires CanStop(s, w, a)
    ensures var s' := DoStop(s, w, a);
      && s'.launches == s.launches && s'.claims == s.claims && s'.used == s.used
      && s'.limit == s.limit && s'.slots == s.slots && s'.dirs == s.dirs
  {
  }

  lemma AcquireKeepsGuards(s: State, l: Id, a: AcquireStep)
    requires GuardsExact(s) && CanAcquire(s, l, a)
    ensures GuardsExact(DoAcquire(s, l, a))
  {
    var s' := DoAcquire(s, l, a);
    if l !in s'.launches {
      DropGuard(s, l);
    } else if s'.claims == s.claims {
      KeepGuard(s.launches, s.claims, l, s'.launches[l]);
    } else {
      TakeGuard(s.launches, s.claims, l, s'.launches[l], s'.launches[l].slot);
    }
  }

  lemma RecordKeepsGuards(s: State, l: Id, a: RecordStep)
    requires GuardsExact(s) && CanRecord(s, l, a)
    ensures GuardsExact(DoRecord(s, l, a))
  {
    var s' := DoRecord(s, l, a);
    if l !in s'.launches {
      DropGuard(s, l);
    } else {
      KeepGuard(s.launches, s.claims, l, s'.launches[l]);
    }
  }

  // ---- the pool limit: holds in every interleaving, however stale the scans ----

  predicate NamesWithin(slots: map<SlotId, nat>, limit: nat) {
    && (forall id | id in slots :: slots[id] < limit)
    && (forall a, b | a in slots && b in slots && slots[a] == slots[b] :: a == b)
  }

  predicate IndexOf(pc: Pc, limit: nat) {
    pc.Preparing? || pc.Inserting? ==> pc.index < limit
  }

  ghost predicate WithinLimit(s: State) {
    && (forall d | d in s.dirs :: d < s.limit)
    && NamesWithin(s.slots, s.limit)
    && (forall l | l in s.launches :: IndexOf(s.launches[l], s.limit))
  }

  lemma StepKeepsLimit(s: State, a: Action)
    requires WithinLimit(s) && Enabled(s, a)
    ensures WithinLimit(Do(s, a)) && Do(s, a).limit == s.limit
  {
    match a
    case Acquire(l, step) => AcquireKeepsLimit(s, l, step);
    case Record(l, step) => RecordKeepsLimit(s, l, step);
    case Stop(w, step) => StopLeavesPool(s, w, step);
  }

  lemma RecordKeepsLimit(s: State, l: Id, a: RecordStep)
    requires WithinLimit(s) && CanRecord(s, l, a)
    ensures WithinLimit(DoRecord(s, l, a)) && DoRecord(s, l, a).limit == s.limit
  {
    var s' := DoRecord(s, l, a);
    RecordChanges(s, l, a);
    forall m | m in s'.launches ensures IndexOf(s'.launches[m], s.limit) {
      if m != l {
        RecordFrame(s, l, a, m);
        assert View(s', m).pc == View(s, m).pc;
      } else {
        assert View(s', l).pc == AfterRecord(View(s, l), a).pc;
      }
    }
  }

  lemma AcquireKeepsLimit(s: State, l: Id, a: AcquireStep)
    requires WithinLimit(s) && CanAcquire(s, l, a)
    ensures WithinLimit(DoAcquire(s, l, a)) && DoAcquire(s, l, a).limit == s.limit
  {
    var s' := DoAcquire(s, l, a);
    if a.Scan? { NextFromStops(a.scan, 0); }
    assert l in s'.launches ==> IndexOf(s'.launches[l], s.limit);
    assert forall m | m in s'.launches :: IndexOf(s'.launches[m], s.limit);
    if a.InsertRow? && a.ok {
      NewNameWithin(s.slots, s.limit, a.id, s.launches[l].index);
    }
  }

  lemma NewNameWithin(slots: map<SlotId, nat>, limit: nat, id: SlotId, index: nat)
    requires NamesWithin(slots, limit) && index < limit
    requires forall other | other in slots :: slots[other] != index
    ensures NamesWithin(slots[id := index], limit)
  {
  }

  lemma {:induction false} BoundedSetSize(d: set<nat>, n: nat)
    requires forall x | x in d :: x < n
    ensures |d| <= n
  {
    if n == 0 {
      assert d == {};
    } else {
      BoundedSetSize(d - {n - 1}, n - 1);
    }
  }

  lemma {:induction false} DistinctNames(slots: map<SlotId, nat>)
    requires forall a, b | a in slots && b in slots && slots[a] == slots[b] :: a == b
    ensures |slots| == |slots.Values|
  {
    if slots == map[] {
      assert slots.Values == {};
    } else {
      var a :| a in slots;
      var rest := slots - {a};
      DistinctNames(rest);
      assert slots.Keys == rest.Keys + {a};
      assert slots.Values == rest.Values + {slots[a]} by {
        forall v | v in slots.Values ensures v in rest.Values + {slots[a]} {
          var b :| b in slots && slots[b] == v;
          if b != a { assert b in rest && rest[b] == v; }
        }
        assert slots[a] in slots.Values;
        forall v | v in rest.Values ensures v in slots.Values {
          var b :| b in rest && rest[b] == v;
          assert slots[b] == v;
        }
      }
      assert slots[a] !in rest.Values;
    }
  }

  lemma LimitBoundsPool(s: State)
    requires WithinLimit(s)
    ensures |s.dirs| <= s.limit && |s.slots| <= s.limit
  {
    BoundedSetSize(s.dirs, s.limit);
    DistinctNames(s.slots);
    forall v | v in s.slots.Values ensures v < s.limit {
      var id :| id in s.slots && s.slots[id] == v;
    }
    BoundedSetSize(s.slots.Values, s.limit);
  }

  // ---- frames ----

  function Subject(a: Action): Id {
    if a.Stop? then a.w else a.l
  }

  lemma OnlySubjectChanges(s: State, a: Action, u: Id)
    requires Enabled(s, a) && u != Subject(a)
    ensures View(Do(s, a), u) == View(s, u)
  {
    match a
    case Acquire(l, step) => AcquireFrame(s, l, step, u);
    case Record(l, step) => RecordFrame(s, l, step, u);
    case Stop(w, step) => StopFrame(s, w, step, u);
  }

  lemma AcquireFrame(s: State, l: Id, a: AcquireStep, u: Id)
    requires CanAcquire(s, l, a) && u != l
    ensures View(DoAcquire(s, l, a), u) == View(s, u)
  {
  }

  lemma RecordFrame(s: State, l: Id, a: RecordStep, u: Id)
    requires CanRecord(s, l, a) && u != l
    ensures View(DoRecord(s, l, a), u) == View(s, u)
  {
    PutFrame(s, l, AfterRecord(View(s, l), a), u);
  }

  lemma StopFrame(s: State, w: Id, a: StopStep, u: Id)
    requires CanStop(s, w, a) && u != w
    ensures View(DoStop(s, w, a), u) == View(s, u)
  {
    PutFrame(s, w, AfterStop(View(s, w), a), u);
  }

  lemma RecordChanges(s: State, l: Id, a: RecordStep)
    requires CanRecord(s, l, a)
    ensures View(DoRecord(s, l, a), l) == AfterRecord(View(s, l), a)
  {
    PutThenView(s, l, AfterRecord(View(s, l), a));
  }

  lemma StopChanges(s: State, w: Id, a: StopStep)
    requires CanStop(s, w, a)
    ensures View(DoStop(s, w, a), w) == AfterStop(View(s, w), a)
  {
    PutThenView(s, w, AfterStop(View(s, w), a));
  }

  predicate Untouched(v: Local) {
    v.row.None? && v.link.None? && !v.up && v.stop.None?
  }

  /** The slot a view's guard reserves. */
  function Claimed(v: Local): Option<SlotId> {
    if v.pc.Some? then Guard(v.pc.value) else None
  }

  // ---- facts of every run ----

  /** What the code alone guarantees about one id, whatever is cancelled, fails or is stopped. */
  predicate Shape(v: Local) {
    && (!v.used ==> v.pc.None? && Untouched(v))
    && (v.link.Some? ==> v.row.Some? && v.row.value.slot == v.link.value)
    && (match v.pc
        case None => true
        case Some(Recorded(id)) => v.link.None? && v.row.Some? && v.row.value.slot == id && !v.up
        case Some(Starting(id)) => v.link.None? && v.row.Some? && v.row.value.slot == id
        case Some(Up(id)) => v.link.None? && v.row.Some? && v.row.value.slot == id
        case Some(Finalized(id)) => v.link.None? && v.row.Some? && v.row.value.slot == id
        case Some(Undoing(id)) => v.link.None? && v.row.Some? && v.row.value.slot == id
        case Some(Erasing(id)) => v.link.None? && v.row.Some? && v.row.value.slot == id
        case Some(Linked(id)) => v.row.Some? && v.row.value.slot == id
        case Some(_) => Untouched(v))
  }

  /** `worker_slot.slot_id` references `slot`. */
  ghost predicate LinksKnown(s: State) {
    forall w | w in s.links :: s.links[w] in s.slots
  }

  ghost predicate Shaped(s: State) {
    s.launches.Keys <= s.used && LinksKnown(s) && forall u :: Shape(View(s, u))
  }

  lemma StepKeepsShape(s: State, a: Action)
    requires Shaped(s) && Enabled(s, a)
    ensures Shaped(Do(s, a))
  {
    var s', w := Do(s, a), Subject(a);
    forall u | u != w ensures View(s', u) == View(s, u) { OnlySubjectChanges(s, a, u); }
    match a {
      case Acquire(l, step) => AcquireShape(s, l, step);
      case Record(l, step) => RecordShape(s, l, step);
      case Stop(_, step) => StopShape(s, w, step);
    }
  }

  lemma AcquireShape(s: State, l: Id, a: AcquireStep)
    requires Shaped(s) && CanAcquire(s, l, a)
    ensures Shape(View(DoAcquire(s, l, a), l)) && LinksKnown(DoAcquire(s, l, a))
    ensures DoAcquire(s, l, a).launches.Keys <= DoAcquire(s, l, a).used
  {
    assert Shape(View(s, l));
  }

  lemma RecordShape(s: State, l: Id, a: RecordStep)
    requires Shaped(s) && CanRecord(s, l, a)
    ensures Shape(View(DoRecord(s, l, a), l)) && LinksKnown(DoRecord(s, l, a))
    ensures DoRecord(s, l, a).launches.Keys <= DoRecord(s, l, a).used
  {
    assert Shape(View(s, l));
    RecordChanges(s, l, a);
    RecordShapeAt(View(s, l), a);
  }

  lemma RecordShapeAt(v: Local, a: RecordStep)
    requires MayRecord(v, a) && Shape(v)
    ensures Shape(AfterRecord(v, a))
  {
  }

  lemma StopShape(s: State, w: Id, a: StopStep)
    requires Shaped(s) && CanStop(s, w, a)
    ensures Shape(View(DoStop(s, w, a), w)) && LinksKnown(DoStop(s, w, a))
    ensures DoStop(s, w, a).launches == s.launches && DoStop(s, w, a).used == s.used
  {
    assert Shape(View(s, w));
    StopChanges(s, w, a);
  }

  // ---- exclusive slots, and exactly which steps keep them so ----

  /** An id is working on a slot's files: its launch holds the slot, its container runs in it, or
      its stop is cleaning it. */
  predicate Works(v: Local, id: SlotId) {
    || Claimed(v) == Some(id)
    || (v.row.Some? && v.row.value.slot == id && (v.up || v.stop == Some(Cleaning)))
  }

  ghost predicate Uses(s: State, u: Id, id: SlotId) {
    Works(View(s, u), id)
  }

  ghost predicate NobodyLinked(s: State, id: SlotId) {
    forall w | w in s.links :: s.links[w] != id
  }

  /** The worker is fully recorded: a running row and the link to its slot. */
  predicate LinkedRunning(s: State, u: Id) {
    u in s.rows && u in s.links && s.rows[u] == Row(Running, s.links[u])
  }

  predicate HoldsOwnSlot(s: State, u: Id) {
    u in s.rows && u in s.launches && Guard(s.launches[u]) == Some(s.rows[u].slot)
  }

  /** Every container has its row, and its slot is claimed by its launch or linked to it. */
  ghost predicate ContainersHeld(s: State) {
    forall u | u in s.containers :: HoldsOwnSlot(s, u) || LinkedRunning(s, u)
  }

  /** No slot is linked to two workers, a claimed slot is unlinked or linked to the claimant's own
      worker, recycling, running and cleaning of one slot are never done by two ids at once, and
      every container is held. */
  ghost predicate Exclusive(s: State) {
    && (forall u, w | u in s.links && w in s.links && s.links[u] == s.links[w] :: u == w)
    && (forall l, w, id | Holds(s.launches, l, id) && w in s.links && s.links[w] == id :: w == l)
    && (forall u, w, id | Uses(s, u, id) && Uses(s, w, id) :: u == w)
    && ContainersHeld(s)
  }

  /** The slot an action newly claims, if it does. */
  ghost function NewClaim(s: State, a: Action): Option<SlotId>
    requires Enabled(s, a)
  {
    if a.Acquire? && a.acq.Try? then
      var pc := s.launches[a.l];
      if pc.candidates[pc.k] in s.claims then None else Some(pc.candidates[pc.k])
    else if a.Acquire? && a.acq.ClaimNew? then
      if s.launches[a.l].slot in s.claims then None else Some(s.launches[a.l].slot)
    else None
  }

  /** What must be checked before a step for containers to stay held: a launch ends only when its
      container is gone or fully recorded, and a stop unlinks or marks a worker only when that
      worker's container is gone or still held by its launch. */
  predicate HeldSafe(s: State, a: Action) {
    match a
    case Acquire(_, _) => true
    case Record(l, step) =>
      && (step.Erase? ==> l !in s.containers)
      && (step.Cancel? || step.Finish? ==> l in s.containers ==> LinkedRunning(s, l))
    case Stop(w, step) =>
      step.CleanAndUnlink? || step.MarkStopped? ==> w in s.containers ==> HoldsOwnSlot(s, w)
  }

  /** And for slots to stay exclusive: besides, a slot is claimed only while nobody is linked to it or
      works in it, and a stop turns to a slot only while nobody else works in it. */
  ghost predicate Safe(s: State, a: Action)
    requires Enabled(s, a)
  {
    && HeldSafe(s, a)
    && (NewClaim(s, a).Some? ==>
          NobodyLinked(s, NewClaim(s, a).value) && forall u :: !Uses(s, u, NewClaim(s, a).value))
    && (a.Stop? && a.stp.StopContainer? && a.w in s.rows ==> forall u | u != a.w :: !Uses(s, u, s.rows[a.w].slot))
  }

  predicate Held(v: Local) {
    v.up ==>
      && v.row.Some?
      && (Claimed(v) == Some(v.row.value.slot) || (v.row.value.status == Running && v.link == Some(v.row.value.slot)))
  }

  /** Two ids stay out of each other's way. */
  ghost predicate Apart(v: Local, x: Local) {
    && (v.link.Some? ==> v.link != x.link && v.link != Claimed(x))
    && (x.link.Some? ==> x.link != Claimed(v))
    && forall id :: !(Works(v, id) && Works(x, id))
  }

  ghost predicate PairwiseApart(s: State) {
    (forall u :: Held(View(s, u))) && forall u, w | u != w :: Apart(View(s, u), View(s, w))
  }

  lemma ExclusiveIsPairwise(s: State)
    ensures Exclusive(s) <==> PairwiseApart(s)
  {
    forall u ensures Held(View(s, u)) <==> (u in s.containers ==> HoldsOwnSlot(s, u) || LinkedRunning(s, u)) {}
    if PairwiseApart(s) {
      forall u, w | u in s.links && w in s.links && s.links[u] == s.links[w] ensures u == w {
        assert u != w ==> Apart(View(s, u), View(s, w));
      }
      forall l, w, id | Holds(s.launches, l, id) && w in s.links && s.links[w] == id ensures w == l {
        assert w != l ==> Apart(View(s, l), View(s, w));
      }
      forall u, w, id | Uses(s, u, id) && Uses(s, w, id) ensures u == w {
        assert u != w ==> Apart(View(s, u), View(s, w));
      }
    }
    if Exclusive(s) {
      forall u, w | u != w ensures Apart(View(s, u), View(s, w)) { ExclusiveApart(s, u, w); }
    }
  }

  lemma ExclusiveApart(s: State, u: Id, w: Id)
    requires Exclusive(s) && u != w
    ensures Apart(View(s, u), View(s, w))
  {
    forall id ensures !(Works(View(s, u), id) && Works(View(s, w), id)) {
      assert Uses(s, u, id) && Uses(s, w, id) ==> u == w;
    }
    if u in s.links {
      assert Holds(s.launches, w, s.links[u]) ==> u == w;
    }
    if w in s.links {
      assert Holds(s.launches, u, s.links[w]) ==> u == w;
    }
  }

  /** Only the subject's view changes, so only its own hold and its pairs can break. */
  lemma ExclusiveAfter(s: State, a: Action)
    requires Enabled(s, a) && Exclusive(s)
    ensures var v' := View(Do(s, a), Subject(a));
      Exclusive(Do(s, a)) <==> Held(v') && forall u | u != Subject(a) :: Apart(v', View(s, u))
  {
    var s', w := Do(s, a), Subject(a);
    ExclusiveIsPairwise(s);
    ExclusiveIsPairwise(s');
    forall u | u != w ensures View(s', u) == View(s, u) { OnlySubjectChanges(s, a, u); }
    var v' := View(s', w);
    if Held(v') && forall u | u != w :: Apart(v', View(s, u)) {
      forall x, y | x != y ensures Apart(View(s', x), View(s', y)) {
        if x == w {
          assert Apart(v', View(s, y));
        } else if y == w {
          assert Apart(v', View(s, x));
        } else {
          assert Apart(View(s, x), View(s, y));
        }
      }
    }
    if PairwiseApart(s') {
      forall u | u != w ensures Apart(v', View(s, u)) { assert Apart(View(s', w), View(s', u)); }
    }
  }

  /** A view that asks for no more than it did. */
  ghost predicate AsksNoMore(v: Local, v': Local) {
    && v'.link in {v.link, None}
    && Claimed(v') in {Claimed(v), None}
    && forall id | Works(v', id) :: Works(v, id)
  }

  lemma StillApart(v: Local, v': Local, x: Local)
    requires Apart(v, x) && AsksNoMore(v, v')
    ensures Apart(v', x)
  {
  }

  /** From any exclusive state the code can be in, a step keeps the slots exclusive exactly when it
      is safe. */
  lemma ExclusiveIffSafe(s: State, a: Action)
    requires Shaped(s) && Exclusive(s) && Enabled(s, a)
    ensures Exclusive(Do(s, a)) <==> Safe(s, a)
  {
    var w := Subject(a);
    var v, v' := View(s, w), View(Do(s, a), w);
    assert Shape(v);
    ExclusiveIsPairwise(s);
    assert Held(v);
    ExclusiveAfter(s, a);
    match a {
      case Acquire(l, step) =>
        if NewClaim(s, a).Some? {
          ClaimView(s, l, step);
          ClaimIffVacant(s, v', l, NewClaim(s, a).value);
        } else {
          AcquireView(s, l, step);
          AllStillApart(s, w, v');
        }
      case Record(l, step) =>
        if step == Link(true) {
          LinkView(s, l);
          LinkStaysApart(s, l, v');
        } else {
          RecordView(s, l, step);
          AllStillApart(s, w, v');
        }
      case Stop(_, step) =>
        if step.StopContainer? {
          StopIffAlone(s, w, v');
        } else {
          StopView(s, w, step);
          AllStillApart(s, w, v');
        }
    }
  }

  lemma AllStillApart(s: State, w: Id, v': Local)
    requires PairwiseApart(s) && AsksNoMore(View(s, w), v')
    ensures forall u | u != w :: Apart(v', View(s, u))
  {
    forall u | u != w ensures Apart(v', View(s, u)) {
      assert Apart(View(s, w), View(s, u));
      StillApart(View(s, w), v', View(s, u));
    }
  }

  lemma AcquireView(s: State, l: Id, a: AcquireStep)
    requires Shape(View(s, l)) && CanAcquire(s, l, a) && NewClaim(s, Acquire(l, a)).None?
    requires s.launches.Keys <= s.used
    ensures AsksNoMore(View(s, l), View(DoAcquire(s, l, a), l)) && Held(View(DoAcquire(s, l, a), l))
  {
  }

  lemma ClaimView(s: State, l: Id, a: AcquireStep)
    requires Shape(View(s, l)) && CanAcquire(s, l, a) && NewClaim(s, Acquire(l, a)).Some?
    ensures var v' := View(DoAcquire(s, l, a), l);
      Untouched(v') && Claimed(v') == NewClaim(s, Acquire(l, a)) && Untouched(View(s, l)) && Claimed(View(s, l)).None?
  {
  }

  lemma ClaimIffVacant(s: State, v': Local, l: Id, id: SlotId)
    requires Untouched(View(s, l)) && Claimed(View(s, l)).None? && Untouched(v') && Claimed(v') == Some(id)
    ensures Held(v')
    ensures (forall u | u != l :: Apart(v', View(s, u))) <==> NobodyLinked(s, id) && forall u :: !Uses(s, u, id)
  {
    assert Works(v', id) && forall other | other != id :: !Works(v', other);
    assert !Uses(s, l, id) && l !in s.links;
    if forall u | u != l :: Apart(v', View(s, u)) {
      forall u ensures !Uses(s, u, id) { assert u != l ==> Apart(v', View(s, u)); }
      forall u | u in s.links ensures s.links[u] != id { assert Apart(v', View(s, u)); }
    }
    if NobodyLinked(s, id) && forall u :: !Uses(s, u, id) {
      forall u | u != l ensures Apart(v', View(s, u)) { assert !Uses(s, u, id); }
    }
  }

  lemma RecordView(s: State, l: Id, a: RecordStep)
    requires Shape(View(s, l)) && Held(View(s, l)) && CanRecord(s, l, a) && a != Link(true)
    ensures var v' := View(DoRecord(s, l, a), l);
      AsksNoMore(View(s, l), v') && (Held(v') <==> Safe(s, Record(l, a)))
  {
    RecordChanges(s, l, a);
    RecordViewAt(View(s, l), a);
  }

  lemma RecordViewAt(v: Local, a: RecordStep)
    requires MayRecord(v, a) && Shape(v) && Held(v) && a != Link(true)
    ensures AsksNoMore(v, AfterRecord(v, a))
    ensures Held(AfterRecord(v, a)) <==>
      && (a.Erase? ==> !v.up)
      && (a.Cancel? || a.Finish? ==> v.up ==> v.row.Some? && v.link.Some? && v.row.value == Row(Running, v.link.value))
  {
  }

  lemma LinkView(s: State, l: Id)
    requires Shape(View(s, l)) && CanRecord(s, l, Link(true))
    ensures var v, v' := View(s, l), View(DoRecord(s, l, Link(true)), l);
      Claimed(v).Some? && v' == v.(pc := Some(Linked(Claimed(v).value)), link := Claimed(v)) && Held(v')
  {
    RecordChanges(s, l, Link(true));
  }

  /** Linking is always safe: the launch's claim has kept everyone else off the slot. */
  lemma LinkStaysApart(s: State, l: Id, v': Local)
    requires var v := View(s, l);
      Claimed(v).Some? && v' == v.(pc := Some(Linked(Claimed(v).value)), link := Claimed(v))
    requires PairwiseApart(s)
    ensures forall u | u != l :: Apart(v', View(s, u))
  {
    var v := View(s, l);
    assert Works(v, Claimed(v).value);
    forall u | u != l ensures Apart(v', View(s, u)) {
      var x := View(s, u);
      assert Apart(v, x);
      assert !Works(x, Claimed(v).value);
      forall id ensures Works(v', id) <==> Works(v, id) {}
    }
  }

  lemma StopView(s: State, w: Id, a: StopStep)
    requires Shape(View(s, w)) && Held(View(s, w)) && CanStop(s, w, a) && !a.StopContainer?
    ensures var v' := View(DoStop(s, w, a), w);
      AsksNoMore(View(s, w), v') && (Held(v') <==> Safe(s, Stop(w, a)))
  {
    StopChanges(s, w, a);
  }

  lemma StopIffAlone(s: State, w: Id, v': Local)
    requires CanStop(s, w, StopContainer) && v' == View(DoStop(s, w, StopContainer), w) && PairwiseApart(s)
    ensures Held(v')
    ensures (forall u | u != w :: Apart(v', View(s, u))) <==> Safe(s, Stop(w, StopContainer))
  {
    var v := View(s, w);
    StopChanges(s, w, StopContainer);
    assert v' == v.(up := false, stop := Some(Cleaning));
    if w in s.rows {
      var id := s.rows[w].slot;
      assert Works(v', id);
      if forall u | u != w :: Apart(v', View(s, u)) {
        forall u | u != w ensures !Uses(s, u, id) { assert Apart(v', View(s, u)); }
      }
      if forall u | u != w :: !Uses(s, u, id) {
        forall u | u != w ensures Apart(v', View(s, u)) {
          assert Apart(v, View(s, u)) && !Uses(s, u, id);
          forall other | other != id && Works(v', other) ensures Works(v, other) {}
        }
      }
    } else {
      assert AsksNoMore(v, v');
      AllStillApart(s, w, v');
    }
  }

  // ---- held containers on their own, exclusive or not ----

  lemma HeldIsContainersHeld(s: State)
    ensures ContainersHeld(s) <==> forall u :: Held(View(s, u))
  {
    forall u ensures Held(View(s, u)) <==> (u in s.containers ==> HoldsOwnSlot(s, u) || LinkedRunning(s, u)) {}
  }

  lemma SubjectHeldIffSafe(s: State, a: Action)
    requires Shaped(s) && Held(View(s, Subject(a))) && Enabled(s, a)
    ensures Held(View(Do(s, a), Subject(a))) <==> HeldSafe(s, a)
  {
    assert Shape(View(s, Subject(a)));
    match a
    case Acquire(l, step) => if NewClaim(s, a).Some? { ClaimView(s, l, step); } else { AcquireView(s, l, step); }
    case Record(l, step) => if step == Link(true) { LinkView(s, l); } else { RecordView(s, l, step); }
    case Stop(w, step) => if step.StopContainer? { StopChanges(s, w, step); } else { StopView(s, w, step); }
  }

  /** From any state of the code in which every container is held, a step keeps it so exactly when
      none of its clauses about containers is violated. Claims, fresh or stale, do not matter. */
  lemma HeldIffSafe(s: State, a: Action)
    requires Shaped(s) && ContainersHeld(s) && Enabled(s, a)
    ensures ContainersHeld(Do(s, a)) <==> HeldSafe(s, a)
  {
    HeldIsContainersHeld(s);
    HeldIsContainersHeld(Do(s, a));
    SubjectHeldIffSafe(s, a);
    forall u | u != Subject(a) ensures Held(View(Do(s, a), u)) { OnlySubjectChanges(s, a, u); }
  }

  /** Enough for that: no launch is cancelled between container start and link, the containers of
      failed launches are removed, and no worker is stopped before it is linked. Stops may be
      retried, and stopped workers stopped again. */
  predicate Prudent(s: State, a: Action)
    requires a.Record? ==> CanRecord(s, a.l, a.rec)
  {
    match a
    case Acquire(_, _) => true
    case Record(l, step) => CarefulRecord(s.launches[l], step)
    case Stop(w, step) => step.ReadRow? ==> w !in s.launches || s.launches[w].Linked?
  }

  /** A view of a run of such steps. */
  predicate Tidy(v: Local) {
    && (v.stop.Some? ==> v.pc.None? || v.pc.value.Linked?)
    && (v.stop.Some? && !v.stop.value.Read? ==> !v.up)
    && (match v.pc
        case None => v.up ==> v.link.Some? && v.row == Some(Row(Running, v.link.value))
        case Some(Linked(_)) => v.up ==> v.link.Some? && v.row == Some(Row(Running, v.link.value))
        case Some(Finalized(id)) => v.row == Some(Row(Running, id))
        case Some(Erasing(_)) => !v.up
        case Some(_) => true)
  }

  ghost predicate AllTidy(s: State) {
    forall u :: Tidy(View(s, u))
  }

  lemma PrudentStaysTidy(s: State, a: Action)
    requires Shaped(s) && AllTidy(s) && Enabled(s, a) && Prudent(s, a)
    ensures AllTidy(Do(s, a))
  {
    var w := Subject(a);
    assert Shape(View(s, w)) && Tidy(View(s, w));
    forall u | u != w ensures Tidy(View(Do(s, a), u)) {
      OnlySubjectChanges(s, a, u);
      assert Tidy(View(s, u));
    }
    match a {
      case Acquire(l, step) => AcquireTidy(s, l, step);
      case Record(l, step) =>
        RecordChanges(s, l, step);
        RecordTidy(View(s, l), step);
      case Stop(_, step) =>
        StopChanges(s, w, step);
        StopTidy(View(s, w), step);
    }
  }

  lemma AcquireTidy(s: State, l: Id, a: AcquireStep)
    requires s.launches.Keys <= s.used && Shape(View(s, l)) && Tidy(View(s, l)) && CanAcquire(s, l, a)
    ensures Tidy(View(DoAcquire(s, l, a), l))
  {
  }

  lemma RecordTidy(v: Local, a: RecordStep)
    requires MayRecord(v, a) && Shape(v) && Tidy(v) && CarefulRecord(v.pc.value, a)
    ensures Tidy(AfterRecord(v, a))
  {
  }

  lemma StopTidy(v: Local, a: StopStep)
    requires MayStop(v, a) && Shape(v) && Tidy(v) && (a.ReadRow? ==> v.pc.None? || v.pc.value.Linked?)
    ensures Tidy(AfterStop(v, a))
  {
  }

  lemma TidyIsHeld(s: State)
    requires Shaped(s) && AllTidy(s)
    ensures ContainersHeld(s)
  {
    HeldIsContainersHeld(s);
    forall u ensures Held(View(s, u)) { assert Shape(View(s, u)) && Tidy(View(s, u)); }
  }

  // ---- exclusive links on their own ----

  /** The slot a worker that is not marked stopped is linked to. */
  function ActiveSlot(v: Local): Option<SlotId> {
    if v.link.Some? && v.row.Some? && v.row.value.status != Stopped then v.link else None
  }

  predicate Active(s: State, w: Id, id: SlotId) {
    ActiveSlot(View(s, w)) == Some(id)
  }

  ghost predicate NobodyActive(s: State, id: SlotId) {
    forall w :: !Active(s, w, id)
  }

  /** No slot is linked to two active workers, and an active worker linked to a claimed slot is the
      claimant's own. */
  ghost predicate LinksExclusive(s: State) {
    && (forall u, w, id | Active(s, u, id) && Active(s, w, id) :: u == w)
    && (forall l, w, id | Holds(s.launches, l, id) && Active(s, w, id) :: w == l)
  }

  /** A slot is listed as free exactly when it exists and no active worker is linked to it. */
  lemma AvailableMeans(s: State, id: SlotId)
    requires Shaped(s)
    ensures Available(s, id) <==> id in s.slots && NobodyActive(s, id)
  {
    forall w | w in s.links ensures w in s.rows { assert Shape(View(s, w)); }
    if NobodyActive(s, id) {
      forall w | w in s.links && s.links[w] == id ensures s.rows[w].status == Stopped { assert !Active(s, w, id); }
    }
  }

  /** A view that is linked to no other slot and claims no other slot than it did. */
  predicate NoNewSlot(v: Local, v': Local) {
    ActiveSlot(v') in {ActiveSlot(v), None} && Claimed(v') in {Claimed(v), None}
  }

  lemma HoldsIsClaimed(s: State, l: Id, id: SlotId)
    ensures Holds(s.launches, l, id) <==> Claimed(View(s, l)) == Some(id)
  {
  }

  lemma NoNewSlotStaysExclusive(s: State, s': State, w: Id)
    requires LinksExclusive(s) && NoNewSlot(View(s, w), View(s', w))
    requires forall u | u != w :: View(s', u) == View(s, u)
    ensures LinksExclusive(s')
  {
    forall u, id | Active(s', u, id) ensures Active(s, u, id) { assert u != w ==> View(s', u) == View(s, u); }
    forall l, id | Holds(s'.launches, l, id) ensures Holds(s.launches, l, id) {
      HoldsIsClaimed(s, l, id);
      HoldsIsClaimed(s', l, id);
      assert l != w ==> View(s', l) == View(s, l);
    }
  }

  lemma LinkStaysExclusive(s: State, s': State, l: Id)
    requires GuardsExact(s) && LinksExclusive(s)
    requires var v := View(s, l);
      Claimed(v).Some? && View(s', l) == v.(pc := Some(Linked(Claimed(v).value)), link := Claimed(v))
    requires forall u | u != l :: View(s', u) == View(s, u)
    ensures LinksExclusive(s')
  {
    var id := Claimed(View(s, l)).value;
    HoldsIsClaimed(s, l, id);
    forall u, other | u != l ensures Active(s', u, other) <==> Active(s, u, other) {
      assert View(s', u) == View(s, u);
    }
    forall m, other ensures Holds(s'.launches, m, other) <==> Holds(s.launches, m, other) {
      HoldsIsClaimed(s, m, other);
      HoldsIsClaimed(s', m, other);
      assert m != l ==> View(s', m) == View(s, m);
    }
  }

  lemma ClaimExclusiveIff(s: State, s': State, l: Id, id: SlotId)
    requires LinksExclusive(s) && Untouched(View(s, l)) && Claimed(View(s, l)).None?
    requires Untouched(View(s', l)) && Claimed(View(s', l)) == Some(id)
    requires forall u | u != l :: View(s', u) == View(s, u)
    ensures LinksExclusive(s') <==> NobodyActive(s, id)
  {
    HoldsIsClaimed(s', l, id);
    forall u, other ensures Active(s', u, other) <==> Active(s, u, other) {
      assert u != l ==> View(s', u) == View(s, u);
    }
    forall m, other | m != l ensures Holds(s'.launches, m, other) <==> Holds(s.launches, m, other) {
      HoldsIsClaimed(s, m, other);
      HoldsIsClaimed(s', m, other);
      assert View(s', m) == View(s, m);
    }
    if w :| Active(s, w, id) {
      assert w != l && Active(s', w, id) && Holds(s'.launches, l, id);
    } else {
      forall other | Holds(s'.launches, l, other) ensures other == id { HoldsIsClaimed(s', l, other); }
    }
  }

  lemma RecordLinksNothingNew(v: Local, a: RecordStep)
    requires MayRecord(v, a) && Shape(v) && a != Link(true)
    ensures NoNewSlot(v, AfterRecord(v, a))
  {
  }

  /** From any state of the code with exclusive links, a step keeps them exclusive exactly when the
      slot it claims, if it claims one, has no active worker. Cancellations, failed compensation and
      stops do not matter. */
  lemma LinksExclusiveIffClaim(s: State, a: Action)
    requires GuardsExact(s) && Shaped(s) && LinksExclusive(s) && Enabled(s, a)
    ensures LinksExclusive(Do(s, a)) <==> (NewClaim(s, a).Some? ==> NobodyActive(s, NewClaim(s, a).value))
  {
    var w, s' := Subject(a), Do(s, a);
    assert Shape(View(s, w));
    forall u | u != w ensures View(s', u) == View(s, u) { OnlySubjectChanges(s, a, u); }
    match a
    case Acquire(l, step) =>
      if NewClaim(s, a).Some? {
        ClaimView(s, l, step);
        ClaimExclusiveIff(s, s', l, NewClaim(s, a).value);
      } else {
        AcquireView(s, l, step);
        NoNewSlotStaysExclusive(s, s', l);
      }
    case Record(l, step) =>
      if step == Link(true) {
        LinkView(s, l);
        LinkStaysExclusive(s, s', l);
      } else {
        RecordChanges(s, l, step);
        RecordLinksNothingNew(View(s, l), step);
        NoNewSlotStaysExclusive(s, s', l);
      }
    case Stop(_, step) =>
      StopChanges(s, w, step);
      NoNewSlotStaysExclusive(s, s', w);
  }

  // ---- a discipline under which runs stay exclusive ----

  /** What must be true of one id, depending on where its launch and its stop are. */
  predicate LocalOk(v: Local) {
    && (!v.used ==> v.pc.None? && Untouched(v))
    && (v.link.Some? ==> v.row == Some(Row(Running, v.link.value)))
    && (match v.stop
        case None => true
        case Some(Read) => v.link.Some?
        case Some(Cleaning) => v.link.Some? && !v.up
        case Some(Unlinked) => v.link.None? && !v.up && v.row.Some?)
    && (match v.pc
        case None => v.up ==> v.link.Some?
        case Some(Recorded(id)) => v.link.None? && v.stop.None? && !v.up && v.row == Some(Row(Provisioning, id))
        case Some(Starting(id)) => v.link.None? && v.stop.None? && v.up && v.row == Some(Row(Provisioning, id))
        case Some(Up(id)) => v.link.None? && v.stop.None? && v.up && v.row == Some(Row(Provisioning, id))
        case Some(Finalized(id)) => v.link.None? && v.stop.None? && v.up && v.row == Some(Row(Running, id))
        case Some(Undoing(id)) => v.link.None? && v.stop.None? && v.up && v.row.Some? && v.row.value.slot == id
        case Some(Erasing(id)) => v.link.None? && v.stop.None? && !v.up && v.row.Some? && v.row.value.slot == id
        case Some(Linked(id)) => v.row.Some? && v.row.value.slot == id && (v.up ==> v.link.Some?)
        case Some(_) => Untouched(v))
  }

  ghost predicate AllOk(s: State) {
    forall u :: LocalOk(View(s, u))
  }

  /** No launch is cancelled between container start and link, the containers of failed launches
      are removed, and only linked workers are stopped. */
  predicate Careful(s: State, a: Action)
    requires a.Record? ==> CanRecord(s, a.l, a.rec)
  {
    match a
    case Acquire(_, _) => true
    case Record(l, step) => CarefulRecord(s.launches[l], step)
    case Stop(w, step) => step.ReadRow? ==> w in s.links
  }

  predicate CarefulRecord(pc: Pc, a: RecordStep) {
    && (a.Cancel? ==> !pc.Starting? && !pc.Up? && !pc.Finalized? && !pc.Undoing?)
    && (a.Undo? ==> a.ok)
    && (a.Ready? && !a.ok ==> a.cleaned)
  }

  lemma AcquireLocal(s: State, l: Id, a: AcquireStep)
    requires s.launches.Keys <= s.used && LocalOk(View(s, l)) && CanAcquire(s, l, a)
    ensures LocalOk(View(DoAcquire(s, l, a), l))
  {
  }

  lemma RecordLocal(s: State, l: Id, a: RecordStep)
    requires LocalOk(View(s, l)) && CanRecord(s, l, a)
    ensures LocalOk(View(DoRecord(s, l, a), l)) <==> Careful(s, Record(l, a))
  {
    RecordChanges(s, l, a);
    RecordLocalAt(View(s, l), a);
  }

  lemma RecordLocalAt(v: Local, a: RecordStep)
    requires MayRecord(v, a) && LocalOk(v)
    ensures LocalOk(AfterRecord(v, a)) <==> CarefulRecord(v.pc.value, a)
  {
  }

  lemma StopLocal(s: State, w: Id, a: StopStep)
    requires LocalOk(View(s, w)) && CanStop(s, w, a)
    ensures LocalOk(View(DoStop(s, w, a), w)) <==> Careful(s, Stop(w, a))
  {
    StopChanges(s, w, a);
  }

  lemma OkIffCareful(s: State, a: Action)
    requires s.launches.Keys <= s.used && AllOk(s) && Enabled(s, a)
    ensures AllOk(Do(s, a)) <==> Careful(s, a)
  {
    var s', w := Do(s, a), Subject(a);
    forall u | u != w ensures View(s', u) == View(s, u) { OnlySubjectChanges(s, a, u); }
    assert LocalOk(View(s, w));
    match a {
      case Acquire(l, step) => AcquireLocal(s, l, step);
      case Record(l, step) => RecordLocal(s, l, step);
      case Stop(_, step) => StopLocal(s, w, step);
    }
    forall u | u != w ensures LocalOk(View(s', u)) { assert LocalOk(View(s, u)); }
  }

  /** Such states are safe for every careful step but a claim, and for a claim exactly when the slot
      is not linked. */
  lemma SafeWhenCareful(s: State, a: Action)
    requires GuardsExact(s) && AllOk(s) && Exclusive(s) && Enabled(s, a) && Careful(s, a)
    requires NewClaim(s, a).Some? ==> NobodyLinked(s, NewClaim(s, a).value)
    ensures Safe(s, a)
  {
    assert LocalOk(View(s, Subject(a)));
    match a
    case Acquire(l, step) =>
      if NewClaim(s, a).Some? { UnlinkedIsVacant(s, NewClaim(s, a).value); }
    case Record(l, step) =>
    case Stop(w, step) =>
      if step.StopContainer? {
        var id := s.rows[w].slot;
        forall u | u != w ensures !Uses(s, u, id) { LinkedKeepsOthersOut(s, w, u); }
      }
  }

  lemma UnlinkedIsVacant(s: State, id: SlotId)
    requires GuardsExact(s) && AllOk(s) && id !in s.claims && NobodyLinked(s, id)
    ensures forall u :: !Uses(s, u, id)
  {
    forall u ensures !Uses(s, u, id) {
      assert LocalOk(View(s, u));
      assert !Holds(s.launches, u, id);
    }
  }

  lemma LinkedKeepsOthersOut(s: State, w: Id, u: Id)
    requires AllOk(s) && Exclusive(s) && w in s.links && u != w
    ensures w in s.rows && !Uses(s, u, s.rows[w].slot)
  {
    assert LocalOk(View(s, w)) && LocalOk(View(s, u));
    var id := s.rows[w].slot;
    assert s.links[w] == id;
    assert !Holds(s.launches, u, id);
    assert !(u in s.links && s.links[u] == id);
  }
}
