/** The clock and the sweep together: what a file of a link must have lived through, in process
    uptime, before it can go by age. */
module AgeRetention {
  import opened Wrappers
  import C = RetentionClock
  import S = RetentionSweep

  /** One link's turn in a daily sweep: the clock reading it begins with, what the sweep reads,
      and how many durable steps the process still lives for. */
  datatype Turn = Turn(rawWall: u64, after: nat, storedClock: bool, gates: S.Gates,
                       globalDays: u64, tenantDays: Option<u64>, linkDays: Option<u64>,
                       verified: string -> bool, stored: bool, removable: string -> bool, budget: nat)
  {
    function Reading(): C.Event { C.Observes(rawWall, after, storedClock) }

    function Window(): Option<u64> { S.NarrowestRetentionDays(globalDays, tenantDays, linkDays) }
  }

  datatype Event =
    | Sweeps(turn: Turn)
    | Restarts(after: nat, first: int)
    // Everything else that happens to the link: uploads, downloads, deletions by hand.
    | Changes(uploads: seq<S.Upload>, disk: set<string>)

  /** What the clock sees of an event. */
  function ClockEvents(events: seq<Event>): seq<C.Event> {
    if events == [] then [] else ClockEvents(events[..|events| - 1]) + ClockEvent(events[|events| - 1])
  }

  function ClockEvent(e: Event): seq<C.Event> {
    match e
    case Sweeps(turn) => [turn.Reading()]
    case Restarts(after, first) => [C.Restarts(after, first)]
    case Changes(_, _) => []
  }

  function Spent(e: Event): nat {
    match e
    case Sweeps(turn) => turn.after
    case Restarts(after, _) => after
    case Changes(_, _) => 0
  }

  function Uptime(events: seq<Event>): nat { C.TotalUptime(ClockEvents(events)) }

  /** In nanoseconds: `path` may go before `limit` only if it is on record and every live record of
      it completed a whole window earlier. */
  ghost predicate Outlived(uploads: seq<S.Upload>, turn: Turn, path: string, limit: int) {
    && !S.Gone(uploads, path)
    && forall u :: u in uploads && S.LiveRecord(u, path) ==>
      turn.Window().Some? && u.completedAt > 0 && (u.completedAt + turn.Window().value * S.DAY) * C.SECOND < limit
  }

  datatype State = State(clock: C.World, uploads: seq<S.Upload>, disk: set<string>)

  /** What the clock makes of an event. */
  function ClockAfter(e: Event, w: C.World): C.World {
    match e
    case Sweeps(turn) => C.Next(w, turn.Reading())
    case Restarts(after, first) => C.Next(w, C.Restarts(after, first))
    case Changes(_, _) => w
  }

  /** One event: what it did and, if it was a sweep, what that logged. */
  ghost predicate Step(e: Event, s: State, t: State, log: seq<S.Effect>) {
    && t.clock == ClockAfter(e, s.clock)
    && match e
       case Sweeps(turn) =>
         Swept(turn, C.Answer(s.clock, turn.Reading()), s.uploads, s.disk, t.uploads, t.disk, log)
       case Restarts(_, _) => t.uploads == s.uploads && t.disk == s.disk && log == []
       case Changes(uploads, disk) => t.uploads == uploads && t.disk == disk && log == []
  }

  /** The sweep goes by the clock's answer; without one, or without its permission, nothing goes. */
  ghost predicate Swept(turn: Turn, answer: Option<C.Observation>, uploads: seq<S.Upload>, disk: set<string>,
                        uploads': seq<S.Upload>, disk': set<string>, log: seq<S.Effect>)
  {
    if answer.None? then uploads' == uploads && disk' == disk && log == []
    else
      && S.SafelySwept(uploads, disk, uploads', disk', log, turn.gates, answer.value.effectiveAt,
                       turn.globalDays, turn.tenantDays, turn.linkDays)
      && (!answer.value.allowAge ==> log == [])
  }

  ghost function StateOf(c: C.Installation, link: S.Link): State
    reads c, link
  {
    State(c.View(), link.uploads, link.disk)
  }

  /** The sweep of one link, if the clock answered. */
  method SweepByAnswer(link: S.Link, turn: Turn, answer: Option<C.Observation>) returns (ghost log: seq<S.Effect>)
    requires S.DistinctIds(link.uploads)
    modifies link
    ensures Swept(turn, answer, old(link.uploads), old(link.disk), link.uploads, link.disk, log)
    ensures link.trace == old(link.trace) + log
  {
    log := [];
    link.budget := turn.budget;
    if answer.Some? {
      log := S.SweepUnderClock(link, turn.gates, answer.value, turn.globalDays, turn.tenantDays, turn.linkDays,
                               turn.verified, turn.stored, turn.removable);
    }
  }

  /** One link's turn: the clock is read, and the sweep runs by what it answers. */
  method TakeTurn(c: C.Installation, link: S.Link, now: int, turn: Turn) returns (ghost log: seq<S.Effect>)
    requires c.Valid() && c.clock + turn.after == now && S.DistinctIds(link.uploads)
    modifies c, link
    ensures Step(Sweeps(turn), old(StateOf(c, link)), StateOf(c, link), log)
    ensures link.trace == old(link.trace) + log
  {
    var answer := c.Observe(turn.rawWall, now, turn.storedClock);
    log := SweepByAnswer(link, turn, answer);
  }

  // ------------------------------------------------------------------------------ whole runs

  ghost predicate Run(states: seq<State>, events: seq<Event>, logs: seq<seq<S.Effect>>) {
    && |states| == |events| + 1 && |logs| == |events|
    && forall i :: 0 <= i < |events| ==> Step(events[i], states[i], states[i + 1], logs[i])
  }

  lemma UptimeStep(events: seq<Event>, i: nat)
    requires i < |events|
    ensures Uptime(events[..i + 1]) == Uptime(events[..i]) + Spent(events[i])
  {
    assert events[..i + 1][..i] == events[..i];
    var before := ClockEvents(events[..i]);
    match events[i]
    case Sweeps(turn) => C.UptimeAppend(before, turn.Reading());
    case Restarts(after, first) => C.UptimeAppend(before, C.Restarts(after, first));
    case Changes(_, _) => assert before + [] == before;
  }

  lemma ClockStep(e: Event, w: C.World)
    requires w.Valid()
    ensures ClockAfter(e, w).Valid() && ClockAfter(e, w).acknowledged == w.acknowledged
    ensures ClockAfter(e, w).Uptime() == w.Uptime() + Spent(e) && (w.row.None? ==> ClockAfter(e, w).row.None?)
  {
    match e
    case Sweeps(turn) => C.NextIsValid(w, turn.Reading());
    case Restarts(after, first) => C.NextIsValid(w, C.Restarts(after, first));
    case Changes(_, _) =>
  }

  lemma ClockOfStep(states: seq<State>, events: seq<Event>, logs: seq<seq<S.Effect>>, n: nat)
    requires Run(states, events, logs) && n < |events|
    ensures states[n + 1].clock == ClockAfter(events[n], states[n].clock)
  {
  }

  lemma {:induction false} ClockOfRun(states: seq<State>, events: seq<Event>, logs: seq<seq<S.Effect>>, n: nat)
    requires Run(states, events, logs) && states[0].clock.Valid() && n <= |events|
    ensures states[n].clock.Valid() && states[n].clock.acknowledged == states[0].clock.acknowledged
    ensures states[n].clock.Uptime() == states[0].clock.Uptime() + Uptime(events[..n])
    ensures states[0].clock.row.None? ==> states[n].clock.row.None?
  {
    if n == 0 {
      assert events[..0] == [];
    } else {
      ClockOfRun(states, events, logs, n - 1);
      ClockOfStep(states, events, logs, n - 1);
      ClockStep(events[n - 1], states[n - 1].clock);
      UptimeStep(events, n - 1);
    }
  }

  lemma TurnIsSafe(turn: Turn, s: State, t: State, log: seq<S.Effect>)
    requires s.clock.Valid() && Step(Sweeps(turn), s, t, log)
    ensures S.RecordsFirst(log) && (s.clock.row.None? ==> log == [])
    ensures forall p :: p in S.RemovedIn(log) ==>
      Outlived(s.uploads, turn, p, t.clock.acknowledged * C.SECOND + t.clock.Uptime())
  {
    var answer := C.Answer(s.clock, turn.Reading());
    C.NextIsValid(s.clock, turn.Reading());
    C.AnswerIsEarned(s.clock, turn.Reading());
    forall p | p in S.RemovedIn(log)
      ensures Outlived(s.uploads, turn, p, t.clock.acknowledged * C.SECOND + t.clock.Uptime())
    {
      assert S.Justified(s.uploads, t.uploads, turn.gates, answer.value.effectiveAt,
                         turn.globalDays, turn.tenantDays, turn.linkDays, p);
    }
  }

  /** Any run of sweeps, restarts and other changes since an acknowledgement: whatever a sweep
      removes, its records had completed a whole window before the acknowledged time plus all the
      uptime since, however the wall clock jumped and wherever processes died. Without an
      acknowledgement nothing ever goes. */
  lemma SweepsAreEarned(states: seq<State>, events: seq<Event>, logs: seq<seq<S.Effect>>, n: nat)
    requires Run(states, events, logs) && states[0].clock.Valid() && n < |events| && events[n].Sweeps?
    ensures S.RecordsFirst(logs[n]) && (states[0].clock.row.None? ==> logs[n] == [])
    ensures forall p :: p in S.RemovedIn(logs[n]) ==>
      Outlived(states[n].uploads, events[n].turn, p,
               states[0].clock.acknowledged * C.SECOND + states[0].clock.Uptime() + Uptime(events[..n + 1]))
  {
    ClockOfRun(states, events, logs, n);
    ClockOfRun(states, events, logs, n + 1);
    TurnIsSafe(events[n].turn, states[n], states[n + 1], logs[n]);
  }
}
