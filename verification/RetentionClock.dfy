/** The trusted clock behind age retention: it can be held back and it can lag, but between
    acknowledgements it never runs ahead of the time this process has actually been up. */
module RetentionClock {
  import opened Wrappers

  const SECOND: nat := 1_000_000_000
  const I64_MAX: u64 := 0x7FFF_FFFF_FFFF_FFFF

  datatype Observation = Observation(effectiveAt: u64, allowAge: bool)

  /** `advance_retention_clock`: the row only moves forward, compared and stored as `i64`. */
  function StoreAdvance(row: u64, at: u64): u64 {
    if Min(row, I64_MAX) < Min(at, I64_MAX) then Min(at, I64_MAX) else row
  }

  /** Seconds since the anchor was set, on the monotonic clock. */
  function ElapsedSeconds(startedAt: int, now: int): u64 {
    Min(Max(now - startedAt, 0) / SECOND, U64_LIMIT - 1)
  }

  /** Everything there is to know of an installation: the row in its database; what the process
      that serves it holds in memory; the reading of the monotonic clock; the time accepted at the
      last acknowledgement; and how long processes had been up since, when this one took over. */
  datatype World = World(row: Option<u64>, trustedAt: Option<u64>, anchorAt: u64, startedAt: int,
                         clock: int, acknowledged: u64, upBefore: nat)
  {
    /** Nanoseconds of process uptime since the last acknowledgement. */
    function Uptime(): int { upBefore + (clock - startedAt) }

    /** `t` is no later than the acknowledged time plus the uptime since. */
    predicate Earned(t: u64) { (t - acknowledged) * SECOND <= Uptime() }

    predicate Valid() {
      && startedAt <= clock
      && (row.None? <==> trustedAt.None?)
      && (row.Some? ==>
            && row.value <= trustedAt.value
            && (anchorAt - acknowledged) * SECOND <= upBefore
            && Earned(trustedAt.value))
    }

    function Effective(rawWall: u64, now: int): u64 {
      Min(rawWall, SaturatingAdd(anchorAt, ElapsedSeconds(startedAt, now)))
    }
  }

  /** Time passes, and then: an observation under some wall clock; a restart, of which `first` is
      the new process's first reading; or an acknowledgement of `at` under the wall clock `wall`.
      `stored` says whether the database accepted the write. */
  datatype Event =
    | Observes(rawWall: u64, after: nat, stored: bool)
    | Restarts(after: nat, first: int)
    | Acknowledges(at: u64, wall: u64, after: nat, stored: bool)

  function Next(w: World, e: Event): World {
    var now := w.clock + e.after;
    match e
    case Observes(rawWall, _, stored) =>
      var effective := w.Effective(rawWall, now);
      if w.trustedAt.None? || w.row.None? || effective <= w.trustedAt.value || !stored then w.(clock := now)
      else w.(clock := now, row := Some(StoreAdvance(w.row.value, effective)), trustedAt := Some(effective))
    case Restarts(_, first) =>
      w.(trustedAt := w.row, anchorAt := if w.row.Some? then w.row.value else 0, startedAt := first, clock := first,
         upBefore := Max(w.Uptime() + e.after, 0))
    case Acknowledges(at, wall, _, stored) =>
      if at > wall || !stored then w.(clock := now)
      else
        var trusted := Max(if w.row.Some? then w.row.value else at, at);
        World(Some(trusted), Some(trusted), trusted, now, now, trusted, 0)
  }

  /** What an observation answers. */
  function Answer(w: World, e: Event): Option<Observation>
    requires e.Observes?
  {
    var effective := w.Effective(e.rawWall, w.clock + e.after);
    if w.trustedAt.None? then Some(Observation(e.rawWall, false))
    else if effective > w.trustedAt.value && !e.stored then None
    else Some(Observation(effective, true))
  }

  lemma NextIsValid(w: World, e: Event)
    requires w.Valid()
    ensures Next(w, e).Valid()
    ensures w.row.Some? ==> Next(w, e).row.Some? && Next(w, e).row.value >= w.row.value
    ensures !e.Acknowledges? ==>
      && Next(w, e).acknowledged == w.acknowledged && Next(w, e).Uptime() == w.Uptime() + e.after
      && (w.row.None? ==> Next(w, e).row.None?)
  {
    if e.Observes? && w.row.Some? { EffectiveIsEarned(w, e.rawWall, w.clock + e.after); }
  }

  lemma EffectiveIsEarned(w: World, rawWall: u64, now: int)
    requires w.Valid() && w.row.Some? && w.clock <= now
    ensures w.(clock := now).Earned(w.Effective(rawWall, now))
  {
    assert ElapsedSeconds(w.startedAt, now) * SECOND <= now - w.startedAt;
  }

  lemma AnswerIsEarned(w: World, e: Event)
    requires w.Valid() && e.Observes?
    ensures var r := Answer(w, e);
      r.Some? && r.value.allowAge ==>
        w.row.Some? && Next(w, e).Earned(r.value.effectiveAt) && r.value.effectiveAt <= e.rawWall
  {
    if w.row.Some? { EffectiveIsEarned(w, e.rawWall, w.clock + e.after); }
  }

  /** An observation, case by case. */
  lemma ObservationMeans(w: World, e: Event)
    requires w.Valid() && e.Observes?
    ensures var effective, next, r := w.Effective(e.rawWall, w.clock + e.after), Next(w, e), Answer(w, e);
      if w.trustedAt.None? then
        r == Some(Observation(e.rawWall, false)) && next.row == w.row && next.trustedAt == w.trustedAt
      else if effective > w.trustedAt.value && !e.stored then
        r.None? && next.row == w.row && next.trustedAt == w.trustedAt
      else
        && r == Some(Observation(effective, true))
        && next.trustedAt == Some(Max(w.trustedAt.value, effective))
        && next.row == Some(if effective > w.trustedAt.value then StoreAdvance(w.row.value, effective) else w.row.value)
  {
  }

  /** One installation: the row in its database and the process that currently serves it. */
  class Installation {
    // durable
    var row: Option<u64>
    // in memory
    var trustedAt: Option<u64>
    var anchorAt: u64
    var startedAt: int

    // The time accepted at the last acknowledgement, and the nanoseconds that processes
    // have been up since, not counting the current reading of `startedAt`.
    ghost var acknowledged: u64
    ghost var upBefore: nat
    ghost var clock: int

    ghost function View(): World
      reads this
    {
      World(row, trustedAt, anchorAt, startedAt, clock, acknowledged, upBefore)
    }

    ghost function Uptime(): int
      reads this
    {
      View().Uptime()
    }

    ghost predicate Earned(t: u64)
      reads this
    {
      View().Earned(t)
    }

    ghost predicate Valid()
      reads this
    {
      View().Valid()
    }

    /** A database whose clock has been acknowledged at `at`, or never. */
    constructor (at: Option<u64>, now: int)
      ensures Valid() && row == at && trustedAt == at && clock == now
      ensures at.Some? ==> acknowledged == at.value && upBefore == 0 && Uptime() == 0
    {
      row, trustedAt := at, at;
      anchorAt := if at.Some? then at.value else 0;
      startedAt := now;
      acknowledged, upBefore, clock := if at.Some? then at.value else 0, 0, now;
    }

    /** `RetentionClock::open` after a restart. `died` is the old process's last instant, `now`
        the new one's first; the two monotonic clocks are unrelated. */
    method Restart(ghost died: int, now: int)
      requires Valid() && clock <= died
      modifies this
      ensures View() == Next(old(View()), Restarts(died - old(clock), now))
      ensures Valid() && row == old(row) && trustedAt == row
      ensures acknowledged == old(acknowledged) && Uptime() == old(Uptime()) + (died - old(clock))
      ensures anchorAt == (if row.Some? then row.value else 0) && startedAt == now && clock == now
    {
      upBefore := upBefore + (died - startedAt);
      clock := now;
      trustedAt := row;
      anchorAt := if row.Some? then row.value else 0;
      startedAt := now;
    }

    /** `observe`. `stored` says whether the database accepted the write. */
    method Observe(rawWall: u64, now: int, stored: bool) returns (r: Option<Observation>)
      requires Valid() && clock <= now
      modifies this
      ensures View() == Next(old(View()), Observes(rawWall, now - old(clock), stored))
      ensures r == Answer(old(View()), Observes(rawWall, now - old(clock), stored))
      ensures Valid() && clock == now && acknowledged == old(acknowledged)
      ensures Uptime() == old(Uptime()) + (now - old(clock))
      ensures anchorAt == old(anchorAt) && startedAt == old(startedAt)
      ensures old(trustedAt).None? ==>
        r == Some(Observation(rawWall, false)) && row == old(row) && trustedAt == old(trustedAt)
      ensures old(trustedAt).Some? ==>
        var effective := Min(rawWall, SaturatingAdd(anchorAt, ElapsedSeconds(startedAt, now)));
        if effective > old(trustedAt).value && !stored then
          r.None? && row == old(row) && trustedAt == old(trustedAt)
        else
          && r == Some(Observation(effective, true))
          && trustedAt == Some(Max(old(trustedAt).value, effective))
          && row == Some(if effective > old(trustedAt).value then StoreAdvance(old(row).value, effective)
                         else old(row).value)
      ensures old(row).Some? ==> row.Some? && row.value >= old(row).value && Earned(row.value)
      ensures r.Some? && r.value.allowAge ==> row.Some? && Earned(r.value.effectiveAt) && r.value.effectiveAt <= rawWall
    {
      ghost var w, e := View(), Observes(rawWall, now - clock, stored);
      NextIsValid(w, e);
      AnswerIsEarned(w, e);
      ObservationMeans(w, e);
      var was := trustedAt;
      clock := now;
      if was.None? {
        return Some(Observation(rawWall, false));
      }
      var ceiling := SaturatingAdd(anchorAt, ElapsedSeconds(startedAt, now));
      var effective := Min(rawWall, ceiling);
      var persisted := Max(was.value, effective);
      if persisted > was.value {
        if !stored {
          return None;
        }
        row := Some(StoreAdvance(row.value, persisted));
        trustedAt := Some(persisted);
      }
      r := Some(Observation(effective, true));
      assert View() == Next(w, e);
    }

    /** `acknowledge`: an operator vouches for the wall time `at`, no later than the current
        one; the database keeps the later of it and what it already trusts. */
    method Acknowledge(at: u64, wall: u64, now: int, stored: bool) returns (ok: bool)
      requires Valid() && clock <= now
      modifies this
      ensures View() == Next(old(View()), Acknowledges(at, wall, now - old(clock), stored))
      ensures Valid() && clock == now
      ensures ok <==> at <= wall && stored
      ensures !ok ==> (row, trustedAt, anchorAt, startedAt) == old((row, trustedAt, anchorAt, startedAt))
      ensures !ok ==> acknowledged == old(acknowledged)
      ensures ok ==> row == Some(Max(if old(row).Some? then old(row).value else at, at))
      ensures ok ==> trustedAt == row && anchorAt == row.value == acknowledged && startedAt == now && Uptime() == 0
      ensures old(row).Some? ==> row.Some? && row.value >= old(row).value
    {
      clock := now;
      if at > wall || !stored {
        return false;
      }
      var previous := if row.Some? then row.value else at;
      row := Some(Max(previous, at));
      trustedAt := row;
      anchorAt := row.value;
      startedAt := now;
      acknowledged, upBefore := row.value, 0;
      ok := true;
    }
  }

  // ------------------------------------------------------------------------------ whole runs

  ghost predicate Run(states: seq<World>, events: seq<Event>) {
    |states| == |events| + 1 && forall i :: 0 <= i < |events| ==> states[i + 1] == Next(states[i], events[i])
  }

  /** Nanoseconds of uptime that events account for. */
  function TotalUptime(events: seq<Event>): nat {
    if events == [] then 0 else TotalUptime(events[..|events| - 1]) + events[|events| - 1].after
  }

  lemma UptimeAppend(events: seq<Event>, e: Event)
    ensures TotalUptime(events + [e]) == TotalUptime(events) + e.after
  {
    assert (events + [e])[..|events|] == events;
  }

  ghost predicate Quiet(events: seq<Event>) { forall e :: e in events ==> !e.Acknowledges? }

  /** In every state of every run, acknowledgements included, the stored time is earned since the
      last of them, and it has not gone back. */
  lemma {:induction false} RunsStayValid(states: seq<World>, events: seq<Event>, n: nat)
    requires Run(states, events) && states[0].Valid() && n < |states|
    ensures states[n].Valid()
    ensures states[n].row.Some? ==> states[n].Earned(states[n].row.value)
    ensures states[0].row.Some? ==> states[n].row.Some? && states[n].row.value >= states[0].row.value
  {
    if n > 0 {
      RunsStayValid(states, events, n - 1);
      NextIsValid(states[n - 1], events[n - 1]);
    }
  }

  /** Between acknowledgements the uptime is what the events account for. */
  lemma {:induction false} QuietRuns(states: seq<World>, events: seq<Event>, n: nat)
    requires Run(states, events) && states[0].Valid() && Quiet(events) && n < |states|
    ensures states[n].acknowledged == states[0].acknowledged
    ensures states[n].Uptime() == states[0].Uptime() + TotalUptime(events[..n])
    ensures states[0].row.None? ==> states[n].row.None?
  {
    if n > 0 {
      QuietRuns(states, events, n - 1);
      RunsStayValid(states, events, n - 1);
      assert events[n - 1] in events;
      NextIsValid(states[n - 1], events[n - 1]);
      assert events[..n][..n - 1] == events[..n - 1];
    }
  }

  /** So between acknowledgements, over any observations, wall clock jumps and restarts, neither
      the stored time nor any time that permits age deletion passes the acknowledged time plus
      the uptime since; and without an anchor none permits. */
  lemma RunsAreBounded(states: seq<World>, events: seq<Event>, n: nat)
    requires Run(states, events) && states[0].Valid() && Quiet(events) && n < |events| && events[n].Observes?
    ensures var limit := states[0].acknowledged * SECOND + states[0].Uptime() + TotalUptime(events[..n + 1]);
      && (states[n + 1].row.Some? ==> states[n + 1].row.value * SECOND <= limit)
      && (var r := Answer(states[n], events[n]);
          r.Some? && r.value.allowAge ==> states[0].row.Some? && r.value.effectiveAt * SECOND <= limit)
  {
    RunsStayValid(states, events, n);
    RunsStayValid(states, events, n + 1);
    QuietRuns(states, events, n);
    QuietRuns(states, events, n + 1);
    AnswerIsEarned(states[n], events[n]);
  }

  ghost predicate AllBounded(answers: seq<Option<Observation>>, limit: int) {
    forall o :: o in answers && o.Some? && o.value.allowAge ==> o.value.effectiveAt * SECOND <= limit
  }

  /** One event of a run. */
  method Perform(c: Installation, now: int, e: Event) returns (answer: Option<Observation>, later: int)
    requires c.Valid() && c.clock == now
    modifies c
    ensures c.Valid() && c.View() == Next(old(c.View()), e) && later == c.clock
    ensures answer == if e.Observes? then Answer(old(c.View()), e) else None
  {
    answer, later := None, now + e.after;
    match e {
      case Observes(rawWall, _, stored) =>
        answer := c.Observe(rawWall, later, stored);
      case Restarts(_, first) =>
        c.Restart(later, first);
        later := first;
      case Acknowledges(at, wall, _, stored) =>
        var ok := c.Acknowledge(at, wall, later, stored);
    }
  }

  /** The run of an installation: its states follow from its events one by one, and each answer
      is the answer to its own event. */
  method Replay(c: Installation, start: int, events: seq<Event>)
    returns (answers: seq<Option<Observation>>, ghost states: seq<World>)
    requires c.Valid() && c.clock == start
    modifies c
    ensures Run(states, events) && states[0] == old(c.View()) && states[|events|] == c.View()
    ensures |answers| == |events|
    ensures forall i :: 0 <= i < |events| ==>
      answers[i] == if events[i].Observes? then Answer(states[i], events[i]) else None
    ensures c.Valid() && (old(c.row).Some? ==> c.row.Some? && c.row.value >= old(c.row).value)
    ensures Quiet(events) ==>
      AllBounded(answers, old(c.acknowledged) * SECOND + old(c.Uptime()) + TotalUptime(events))
    ensures Quiet(events) && old(c.row).None? ==>
      c.row.None? && forall o :: o in answers && o.Some? ==> !o.value.allowAge
  {
    answers, states := [], [c.View()];
    var now := start;
    for i := 0 to |events|
      invariant |states| == i + 1 && |answers| == i && c.Valid() && states[0] == old(c.View()) && states[i] == c.View()
      invariant c.clock == now
      invariant forall j :: 0 <= j < i ==> states[j + 1] == Next(states[j], events[j])
      invariant forall j :: 0 <= j < i ==>
        answers[j] == if events[j].Observes? then Answer(states[j], events[j]) else None
    {
      var answer;
      answer, now := Perform(c, now, events[i]);
      answers, states := answers + [answer], states + [c.View()];
    }
    RunsStayValid(states, events, |events|);
    if Quiet(events) { AnswersAreBounded(states, events, answers); }
  }

  lemma {:induction false} UptimeGrows(events: seq<Event>, n: nat)
    requires n <= |events|
    ensures TotalUptime(events[..n]) <= TotalUptime(events)
    decreases |events| - n
  {
    if n == |events| {
      assert events[..n] == events;
    } else {
      UptimeGrows(events, n + 1);
      assert events[..n + 1][..n] == events[..n];
    }
  }

  lemma {:induction false} AnswersAreBounded(states: seq<World>, events: seq<Event>, answers: seq<Option<Observation>>)
    requires Run(states, events) && states[0].Valid() && Quiet(events) && |answers| == |events|
    requires forall i :: 0 <= i < |events| ==>
      answers[i] == if events[i].Observes? then Answer(states[i], events[i]) else None
    ensures AllBounded(answers, states[0].acknowledged * SECOND + states[0].Uptime() + TotalUptime(events))
    ensures states[0].row.None? ==>
      states[|events|].row.None? && forall o :: o in answers && o.Some? ==> !o.value.allowAge
  {
    QuietRuns(states, events, |events|);
    forall o | o in answers && o.Some? && o.value.allowAge
      ensures o.value.effectiveAt * SECOND <= states[0].acknowledged * SECOND + states[0].Uptime() + TotalUptime(events)
      ensures states[0].row.Some?
    {
      var i :| 0 <= i < |answers| && answers[i] == o;
      RunsAreBounded(states, events, i);
      UptimeGrows(events, i + 1);
    }
  }
}
