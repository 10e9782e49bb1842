/** Running one host command: the overlay lease it takes and the frames its caller sees. */
module Exec {
  import opened Overlay
  import opened OverlayManager
  import B = Bracket

  datatype Frame =
    | Output(data: string)
    | ExitCode(code: int)
    | StreamError(message: string)
    | RestoreFailed    // "command finished but restoring local overlay files failed"

  /** What happens on the caller's side of the channel, in order. */
  datatype Event = Sent(frame: Frame) | Released(ok: bool)

  predicate SentExit(e: Event) {
    e.Sent? && e.frame.ExitCode?
  }

  datatype Reply =
    | ConcealRejected(restored: bool)
    | SpawnFailed(restored: bool)
    | Streamed

  /** The first exit code is frame `n`, or there is none among the `n` frames. */
  predicate EndsAt(frames: seq<Frame>, n: nat) {
    n <= |frames| && (forall i | 0 <= i < n :: !frames[i].ExitCode?) && (n < |frames| ==> frames[n].ExitCode?)
  }

  /** A caller that takes `listens` frames and then goes away hears the child's frames before its exit
      code, in order; then the lease is released; then it hears the child's own exit frame, if there
      is one, or that restoring failed. */
  ghost predicate Heard(frames: seq<Frame>, n: nat, restored: bool, listens: nat, events: seq<Event>)
    requires n <= |frames|
  {
    var k := if listens < n then listens else n;
    && |events| > k && (forall i | 0 <= i < k :: events[i] == Sent(frames[i])) && events[k] == Released(restored)
    && events[k + 1..] ==
       if listens <= n then []
       else if !restored then [Sent(RestoreFailed)]
       else if n < |frames| then [Sent(frames[n])] else []
  }

  predicate Bracketed(command: string) {
    command == "git" || command == "gh"
  }

  /** Any git transition that leaves `.git/ur-overlay` alone. */
  ghost predicate LeavesOverlayState(s: SlotState, s': SlotState) {
    WellFormed(s') && s' == s.(index := s'.index, skip := s'.skip, worktree := s'.worktree)
  }

  /** Any command at all may run; one that is bracketed leaves the overlay state alone. */
  ghost predicate Plausible(command: string, after: SlotState -> SlotState) {
    forall s {:trigger after(s)} :: WellFormed(s) ==>
      WellFormed(after(s)) && (Bracketed(command) ==> LeavesOverlayState(s, after(s)))
  }

  /** A send to a caller that takes `listens` more frames. */
  method Send(listens: nat, frame: Frame) returns (more: nat, events: seq<Event>)
    ensures more == if listens == 0 then 0 else listens - 1
    ensures events == if listens == 0 then [] else [Sent(frame)]
  {
    if listens == 0 { return 0, []; }
    return listens - 1, [Sent(frame)];
  }

  /** Forward a bracketed child's output, release the lease, and only then report the outcome.
      Draining goes on after the caller has left. */
  method ForwardThenReveal(slot: Slot, frames: seq<Frame>, listens: nat)
    returns (restored: bool, events: seq<Event>, ghost n: nat)
    requires slot.Valid()
    modifies slot`mishaps, slot`disk, slot`active, slot`released, slot`revealCount
    ensures slot.Valid() && slot.mishaps >= old(slot.mishaps) && slot.released == old(slot.released) + 1
    ensures RevealStep(old(slot.disk), old(slot.active), slot.disk, slot.active, restored)
    ensures restored <==> slot.mishaps == old(slot.mishaps) && (old(slot.active) <= 1 ==> CanReveal(old(slot.disk)))
    ensures EndsAt(frames, n) && Heard(frames, n, restored, listens, events)
  {
    events := [];
    var next, left := 0, listens;
    var sent: seq<Event>;
    while next < |frames| && !frames[next].ExitCode?
      invariant next <= |frames| && forall i | 0 <= i < next :: !frames[i].ExitCode?
      invariant left == if listens < next then 0 else listens - next
      invariant |events| == listens - left && forall i | 0 <= i < |events| :: events[i] == Sent(frames[i])
      modifies {}
    {
      left, sent := Send(left, frames[next]);
      events := events + sent;
      next := next + 1;
    }
    n := next;
    restored := slot.RevealAfter();
    events := events + [Released(restored)];
    ghost var before := events;
    if !restored {
      left, sent := Send(left, RestoreFailed);
      events := events + sent;
    } else if next < |frames| {
      left, sent := Send(left, frames[next]);
      events := events + sent;
    }
    assert events[..|before|] == before;
  }

  /** A command of a slot running to its end; it does not touch the lease counter. */
  method RunChild(slot: Slot, left: SlotState)
    requires slot.Valid() && slot.present && WellFormed(left)
    modifies slot`disk
    ensures slot.Valid() && slot.disk == left
  {
    slot.disk := left;
  }

  /** An exit code reaches the caller only after the release has succeeded. */
  ghost predicate ExitAfterRelease(events: seq<Event>) {
    forall i | 0 <= i < |events| && SentExit(events[i]) :: Released(true) in events[..i]
  }

  /** The slot when the child of a leased command is done, or could not be started. */
  ghost function ChildDone(s: SlotState, reply: Reply, after: SlotState -> SlotState): SlotState {
    if reply.Streamed? then after(s) else s
  }

  /** What is sent, and where the one release stands in it. */
  ghost predicate ReleasedOnce(frames: seq<Frame>, spawns: bool, listens: nat, events: seq<Event>) {
    if spawns then exists n: nat :: EndsAt(frames, n) && Heard(frames, n, Released(true) in events, listens, events)
    else exists restored :: events == [Released(restored)]
  }

  /** The part of `spawn_command` that holds a lease: it gives it back exactly once on every path,
      after the child is done. */
  method RunLeased(
    slot: Slot, command: string, frames: seq<Frame>, after: SlotState -> SlotState, spawns: bool, listens: nat)
    returns (reply: Reply, events: seq<Event>)
    requires slot.Valid() && slot.present && slot.active > 0
    requires Bracketed(command) && Plausible(command, after)
    modifies slot`mishaps, slot`disk, slot`active, slot`released, slot`revealCount
    ensures slot.Valid() && slot.mishaps >= old(slot.mishaps)
    ensures reply == if spawns then Streamed else SpawnFailed(Released(true) in events)
    ensures slot.released == old(slot.released) + 1
    ensures var left := ChildDone(old(slot.disk), reply, after);
      && RevealStep(left, old(slot.active), slot.disk, slot.active, Released(true) in events)
      && (Released(true) in events <==>
            slot.mishaps == old(slot.mishaps) && (old(slot.active) <= 1 ==> CanReveal(left)))
    ensures ReleasedOnce(frames, spawns, listens, events) && ExitAfterRelease(events)
  {
    var restored := false;
    if !spawns {
      restored := slot.RevealAfter();
      events := [Released(restored)];
      return SpawnFailed(restored), events;
    }
    RunChild(slot, after(slot.disk));
    ghost var n;
    restored, events, n := ForwardThenReveal(slot, frames, listens);
    HeardMeansReleased(frames, n, restored, listens, events);
    reply := Streamed;
  }

  /** The part of `spawn_command` without a lease: the caller gets every frame it waits for. */
  method RunPlain(
    slot: Slot, command: string, frames: seq<Frame>, after: SlotState -> SlotState, spawns: bool, listens: nat)
    returns (reply: Reply, events: seq<Event>)
    requires slot.Valid() && slot.present && Plausible(command, after)
    modifies slot`disk
    ensures slot.Valid() && reply == if spawns then Streamed else SpawnFailed(true)
    ensures slot.disk == ChildDone(old(slot.disk), reply, after)
    ensures |events| == if !spawns then 0 else if listens < |frames| then listens else |frames|
    ensures forall i | 0 <= i < |events| :: events[i] == Sent(frames[i])
  {
    events := [];
    if !spawns { return SpawnFailed(true), events; }
    RunChild(slot, after(slot.disk));
    var left := listens;
    for i := 0 to |frames|
      invariant left == if listens < i then 0 else listens - i
      invariant |events| == listens - left && forall k | 0 <= k < |events| :: events[k] == Sent(frames[k])
      modifies {}
    {
      var sent: seq<Event>;
      left, sent := Send(left, frames[i]);
      events := events + sent;
    }
    reply := Streamed;
  }

  /** A slot before and after one leased command: a lease is taken, the child does its work on the
      hidden slot, the lease is given back. */
  ghost predicate LeasedOutcome(
    s: SlotState, active: nat, s': SlotState, reply: Reply, restored: bool, after: SlotState -> SlotState)
  {
    exists hidden ::
      && ConcealStep(s, active, hidden, active + 1, Leased)
      && RevealStep(ChildDone(hidden, reply, after), active + 1, s', active, restored)
  }

  /** One short-lived command in a slot. `after` picks what the child does to the slot, `spawns` says
      whether it can be started and `listens` how many frames the caller waits for. Whatever
      happens, the lease counter ends where it was, and every lease granted is released once. */
  method SpawnCommand(
    slot: Slot, command: string, frames: seq<Frame>, after: SlotState -> SlotState, spawns: bool, listens: nat)
    returns (reply: Reply, events: seq<Event>, leased: bool)
    requires slot.Valid() && slot.present && Plausible(command, after)
    modifies slot`mishaps, slot`disk, slot`active, slot`granted, slot`released, slot`concealCount, slot`revealCount
    ensures slot.Valid() && slot.active == old(slot.active)
    ensures slot.granted - old(slot.granted) == slot.released - old(slot.released) == if leased then 1 else 0
    ensures leased || reply.ConcealRejected? <==> (command == "git" || command == "gh") && old(slot.disk).installed
    ensures reply.ConcealRejected? ==>
      && !leased && events == [] && slot.revealCount == old(slot.revealCount) + 1
      && (slot.mishaps > old(slot.mishaps) || !CanHide(old(slot.disk)))
      && ConcealStep(old(slot.disk), old(slot.active), slot.disk, slot.active, Refused(reply.restored))
    ensures !reply.ConcealRejected? ==> (reply.SpawnFailed? <==> !spawns)
    ensures leased ==>
      && LeasedOutcome(old(slot.disk), old(slot.active), slot.disk, reply, Released(true) in events, after)
      && ReleasedOnce(frames, spawns, listens, events) && ExitAfterRelease(events)
    ensures !leased && !reply.ConcealRejected? ==>
      && slot.disk == ChildDone(old(slot.disk), reply, after)
      && |events| == (if !spawns then 0 else if listens < |frames| then listens else |frames|)
      && forall i | 0 <= i < |events| :: events[i] == Sent(frames[i])
  {
    events, leased := [], false;
    if Bracketed(command) {
      var out := slot.ConcealFor();
      if out.Refused? {
        return ConcealRejected(out.restored), events, leased;
      }
      leased := out.Leased?;
    }
    if leased {
      reply, events := RunLeased(slot, command, frames, after, spawns, listens);
    } else {
      reply, events := RunPlain(slot, command, frames, after, spawns, listens);
    }
  }

  /** What a leased command means for the worker. Alone in the slot, once its release has succeeded:
      the overlays have the content they had, everything else is what the child left. Overlapping
      others, it leaves the slot hidden, as its child did. */
  lemma LeasedOutcomeMeans(
    s: SlotState, active: nat, s': SlotState, command: string, reply: Reply, restored: bool,
    after: SlotState -> SlotState)
    requires WellFormed(s) && Bracketed(command) && Plausible(command, after)
    requires LeasedOutcome(s, active, s', reply, restored, after)
    ensures active > 0 ==> s' == ChildDone(s, reply, after)
    ensures active == 0 && restored ==>
      && s' == Revealed(ChildDone(Concealed(s), reply, after))
      && (forall p | p in s.overlay :: p in s'.worktree && s'.worktree[p] == File(LatestContent(s, p)))
      && (forall p | p !in s.overlay :: SameAt(ChildDone(Concealed(s), reply, after).worktree, s'.worktree, p))
  {
    var hidden :| ConcealStep(s, active, hidden, active + 1, Leased) &&
      RevealStep(ChildDone(hidden, reply, after), active + 1, s', active, restored);
    if active == 0 {
      KeptWellFormed(s);
      BracketRoundTrip(s, ChildDone(hidden, reply, after));
    }
  }

  /** A lease machine on its way through one leased command. */
  function Holding(m: B.Machine, l: nat, slot: SlotState): B.Machine {
    m.(slot := slot, active := m.active + 1, leases := m.leases + {l})
  }

  function Finished(m: B.Machine, slot: SlotState, restored: bool): B.Machine {
    m.(slot := slot, healthy := m.healthy && restored)
  }

  lemma TakeIsStep(m: B.Machine, l: nat, hidden: SlotState)
    requires l !in m.leases && ConcealStep(m.slot, m.active, hidden, m.active + 1, Leased)
    ensures B.Step(m, Holding(m, l, hidden), B.Acquire(l))
  {
  }

  lemma RunIsStep(m: B.Machine, l: nat, hidden: SlotState, left: SlotState)
    requires LeavesOverlayState(hidden, left)
    ensures B.Step(Holding(m, l, hidden), Holding(m, l, left), B.Command(l))
  {
  }

  lemma ReturnIsStep(m: B.Machine, l: nat, left: SlotState, s': SlotState, restored: bool)
    requires l !in m.leases && RevealStep(left, m.active + 1, s', m.active, restored)
    ensures B.Step(Holding(m, l, left), Finished(m, s', restored), B.Release(l, restored))
  {
    assert m.leases + {l} - {l} == m.leases;
  }

  /** Every leased command is a sequence of steps of the lease machine, so what holds in all its
      interleavings holds of commands: take a lease, run the child if it could be started, give that
      lease back. */
  lemma LeasedCommandIsSteps(
    m: B.Machine, l: nat, s': SlotState, command: string, reply: Reply, restored: bool, after: SlotState -> SlotState)
    returns (hidden: SlotState)
    requires B.Inv(m) && l !in m.leases && Bracketed(command) && Plausible(command, after)
    requires LeasedOutcome(m.slot, m.active, s', reply, restored, after)
    ensures B.Step(m, Holding(m, l, hidden), B.Acquire(l))
    ensures var left := ChildDone(hidden, reply, after);
      && (if reply.Streamed? then B.Step(Holding(m, l, hidden), Holding(m, l, left), B.Command(l)) else left == hidden)
      && B.Step(Holding(m, l, left), Finished(m, s', restored), B.Release(l, restored))
  {
    hidden :| ConcealStep(m.slot, m.active, hidden, m.active + 1, Leased) &&
      RevealStep(ChildDone(hidden, reply, after), m.active + 1, s', m.active, restored);
    KeptWellFormed(m.slot);
    TakeIsStep(m, l, hidden);
    if reply.Streamed? { RunIsStep(m, l, hidden, after(hidden)); }
    ReturnIsStep(m, l, ChildDone(hidden, reply, after), s', restored);
  }

  /** And a command whose conceal is refused is one step of it. */
  lemma RefusedCommandIsStep(m: B.Machine, s': SlotState, active: nat, restored: bool) returns (m': B.Machine)
    requires ConcealStep(m.slot, m.active, s', active, Refused(restored))
    ensures B.Step(m, m', B.AcquireFails(restored)) && m'.slot == s' && m'.active == active && m'.leases == m.leases
  {
    m' := m.(slot := s', active := active, healthy := m.healthy && B.Recovered(m.slot, s'));
  }

  lemma HeardMeansReleased(frames: seq<Frame>, n: nat, restored: bool, listens: nat, events: seq<Event>)
    requires EndsAt(frames, n) && Heard(frames, n, restored, listens, events)
    ensures ExitAfterRelease(events)
    ensures Released(true) in events <==> restored
    ensures forall i, j | 0 <= i < |events| && 0 <= j < |events| && events[i].Released? && events[j].Released? :: i == j
  {
    var k := if listens < n then listens else n;
    assert forall i | k < i < |events| :: events[i] == events[k + 1..][i - k - 1];
    forall i | 0 <= i < |events| && SentExit(events[i]) ensures Released(true) in events[..i] {
      assert i > k && events[..i][k] == Released(restored);
    }
  }

  /** What the caller can rely on, of frames and events alone. Any exit code it is sent is the
      child's own first one. If it waits to the end it is sent every frame before that, and then,
      once the release has succeeded, that very exit frame as the last thing or, if the child's
      stream ended without one, no exit code at all; after a failed release it is told so last. */
  lemma HeardIsTrue(frames: seq<Frame>, n: nat, restored: bool, listens: nat, events: seq<Event>)
    requires EndsAt(frames, n) && Heard(frames, n, restored, listens, events)
    ensures forall i | 0 <= i < |events| && SentExit(events[i]) ::
      i == |events| - 1 && exists j :: FirstExit(frames, j) && events[i] == Sent(frames[j])
    ensures listens > |frames| ==>
      && (forall j | 0 <= j < |frames| && NoExitUpTo(frames, j) :: j < |events| && events[j] == Sent(frames[j]))
      && (restored ==> forall j | FirstExit(frames, j) :: events[|events| - 1] == Sent(frames[j]))
      && (restored && (forall j | 0 <= j < |frames| :: !frames[j].ExitCode?) ==>
            events[|events| - 1] == Released(true) && forall i | 0 <= i < |events| :: !SentExit(events[i]))
      && (!restored ==> events[|events| - 1] == Sent(RestoreFailed))
  {
    var k := if listens < n then listens else n;
    assert forall i | k < i < |events| :: events[i] == events[k + 1..][i - k - 1];
    forall i | 0 <= i < |events| && SentExit(events[i])
      ensures i == |events| - 1 && exists j :: FirstExit(frames, j) && events[i] == Sent(frames[j])
    {
      assert i == k + 1 && events[i] == Sent(frames[n]) && FirstExit(frames, n);
    }
  }

  /** Frame `j` is the first exit code. */
  predicate FirstExit(frames: seq<Frame>, j: int) {
    0 <= j < |frames| && frames[j].ExitCode? && forall i | 0 <= i < j :: !frames[i].ExitCode?
  }

  /** No exit code up to and including frame `j`. */
  predicate NoExitUpTo(frames: seq<Frame>, j: int) {
    forall i | 0 <= i <= j && i < |frames| :: !frames[i].ExitCode?
  }
}
