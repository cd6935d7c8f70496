/** The process-wide OIDC client slot: one discovery at a time, a cooldown after failure,
    and callers whose tasks can be cancelled at any await. */
module SsoSlot {
  import opened Wrappers

  type Instant = int
  type Client = int
  type Task = nat

  datatype State = Empty | Discovering | Ready(client: Client) | Failed(at: Instant)

  /** A claim is awaiting its discovery, or has stored the result and not yet been dropped. */
  datatype Phase = Awaiting | Settled

  datatype Entry = Started | Have(client: Client) | Refused

  /** Any two starts are at least one cooldown apart. */
  ghost predicate Paced(starts: seq<Instant>, cooldown: nat) {
    forall i, j :: 0 <= i < j < |starts| ==> starts[j] - starts[i] >= cooldown
  }

  /** What callers, results, cancellations and failed verifications do to the slot. */
  datatype Event =
    | Enters(task: Task)
    | Settles(task: Task, result: Option<Client>)
    | Drops(task: Task)
    | Invalidates

  /** The slot, the claims alive, and when discoveries started. */
  datatype View = View(inner: State, claims: map<Task, Phase>, starts: seq<Instant>)
  {
    /** Some claim is awaiting its discovery. */
    predicate InFlight() { exists t :: t in claims && claims[t] == Awaiting }

    /** Whether a caller would be refused. */
    predicate Refuses(cooldown: nat, now: Instant) {
      inner.Discovering? || (inner.Failed? && now - inner.at < cooldown)
    }

    predicate Starts(e: Event, cooldown: nat, now: Instant) {
      e.Enters? && e.task !in claims && !inner.Ready? && !Refuses(cooldown, now)
    }

    ghost predicate Valid(cooldown: nat, now: Instant) {
      && Paced(starts, cooldown)
      && (starts != [] ==> starts[|starts| - 1] <= now)
      && (inner.Empty? ==> starts == [])
      && (inner.Failed? ==> inner.at <= now && (starts != [] ==> starts[|starts| - 1] <= inner.at))
      && (inner.Discovering? ==> InFlight())
    }
  }

  /** One event; what a task is not in a position to do is skipped. */
  function Next(v: View, e: Event, cooldown: nat, now: Instant): View {
    match e
    case Enters(task) =>
      if v.Starts(e, cooldown, now) then View(Discovering, v.claims[task := Awaiting], v.starts + [now]) else v
    case Settles(task, result) =>
      if task !in v.claims || v.claims[task] != Awaiting then v
      else
        v.(claims := v.claims[task := Settled],
           inner := if v.inner.Ready? then v.inner else if result.Some? then Ready(result.value) else Failed(now))
    case Drops(task) =>
      if task !in v.claims then v
      else v.(claims := v.claims - {task}, inner := if v.inner.Discovering? then Failed(now) else v.inner)
    case Invalidates =>
      v.(inner := if v.inner.Ready? then Failed(now) else v.inner)
  }

  lemma NextIsValid(v: View, e: Event, cooldown: nat, was: Instant, now: Instant)
    requires v.Valid(cooldown, was) && was <= now
    ensures Next(v, e, cooldown, now).Valid(cooldown, now)
  {
    var w := Next(v, e, cooldown, now);
    if v.Starts(e, cooldown, now) {
      assert w.claims[e.task] == Awaiting;
      StartIsPaced(v.starts, now, cooldown);
    } else if v.inner.Discovering? && w.inner.Discovering? {
      assert w == v;
    }
  }

  lemma StartIsPaced(starts: seq<Instant>, now: Instant, cooldown: nat)
    requires Paced(starts, cooldown) && (starts != [] ==> now - starts[|starts| - 1] >= cooldown)
    ensures Paced(starts + [now], cooldown)
  {
    forall i | 0 <= i < |starts| ensures now - starts[i] >= cooldown {
      if i < |starts| - 1 { assert starts[|starts| - 1] - starts[i] >= cooldown; }
    }
  }

  class Slot {
    const cooldown: nat
    var inner: State
    var claims: map<Task, Phase>
    ghost var starts: seq<Instant>
    ghost var clock: Instant

    ghost function Seen(): View
      reads this
    {
      View(inner, claims, starts)
    }

    ghost predicate Valid()
      reads this
    {
      Seen().Valid(cooldown, clock)
    }

    ghost predicate InFlight()
      reads this
    {
      Seen().InFlight()
    }

    constructor (cooldown: nat, now: Instant)
      ensures Valid() && this.cooldown == cooldown && inner == Empty && claims == map[] && starts == [] && clock == now
    {
      this.cooldown, inner, claims, starts, clock := cooldown, Empty, map[], [], now;
    }

    /** The locked check at the head of `get_or_discover_with`. */
    method Enter(task: Task, now: Instant) returns (r: Entry)
      requires Valid() && clock <= now && task !in claims
      modifies this
      ensures Seen() == Next(old(Seen()), Enters(task), cooldown, now)
      ensures Valid() && clock == now
      ensures r.Have? <==> old(inner).Ready?
      ensures r.Have? ==> r.client == old(inner).client
      ensures r.Refused? <==> old(inner).Discovering? || (old(inner).Failed? && now - old(inner).at < cooldown)
      ensures r.Started? ==>
        inner == Discovering && claims == old(claims)[task := Awaiting] && starts == old(starts) + [now]
      ensures !r.Started? ==> inner == old(inner) && claims == old(claims) && starts == old(starts)
      // Nothing can wedge it: once a cooldown has passed, only a live discovery holds callers off.
      ensures r.Refused? && now >= old(clock) + cooldown ==> old(InFlight())
    {
      NextIsValid(Seen(), Enters(task), cooldown, clock, now);
      clock := now;
      match inner {
        case Ready(client) => return Have(client);
        case Discovering => return Refused;
        case Failed(at) =>
          if now - at < cooldown { return Refused; }
        case Empty =>
      }
      inner := Discovering;
      claims := claims[task := Awaiting];
      starts := starts + [now];
      r := Started;
    }

    /** The discovery returned: store its result, unless someone else's client is there. */
    method Settle(task: Task, result: Option<Client>, now: Instant) returns (r: Option<Client>)
      requires Valid() && clock <= now && task in claims && claims[task] == Awaiting
      modifies this
      ensures Seen() == Next(old(Seen()), Settles(task, result), cooldown, now)
      ensures Valid() && clock == now && claims == old(claims)[task := Settled] && starts == old(starts)
      ensures inner ==
        if old(inner).Ready? then old(inner) else if result.Some? then Ready(result.value) else Failed(now)
      ensures r == if old(inner).Ready? then Some(old(inner).client) else result
    {
      NextIsValid(Seen(), Settles(task, result), cooldown, clock, now);
      clock := now;
      claims := claims[task := Settled];
      if inner.Ready? {
        return Some(inner.client);
      }
      inner := if result.Some? then Ready(result.value) else Failed(now);
      r := result;
    }

    /** `DiscoveringClaim::drop`: at the end of a settled call, or at a cancellation. Between
        settling and this drop another caller may already have begun a new discovery. */
    method DropClaim(task: Task, now: Instant)
      requires Valid() && clock <= now && task in claims
      modifies this
      ensures Seen() == Next(old(Seen()), Drops(task), cooldown, now)
      ensures Valid() && clock == now && claims == old(claims) - {task} && starts == old(starts)
      ensures inner == if old(inner).Discovering? then Failed(now) else old(inner)
    {
      NextIsValid(Seen(), Drops(task), cooldown, clock, now);
      clock := now;
      claims := claims - {task};
      if inner.Discovering? {
        inner := Failed(now);
      }
    }

    method InvalidateReady(now: Instant)
      requires Valid() && clock <= now
      modifies this
      ensures Seen() == Next(old(Seen()), Invalidates, cooldown, now)
      ensures Valid() && clock == now && claims == old(claims) && starts == old(starts)
      ensures inner == if old(inner).Ready? then Failed(now) else old(inner)
    {
      NextIsValid(Seen(), Invalidates, cooldown, clock, now);
      clock := now;
      if inner.Ready? {
        inner := Failed(now);
      }
    }
  }

  // ----------------------------------------------------------------------------- whole runs

  /** An interleaving of events at the given times, from the empty slot. */
  ghost predicate Run(states: seq<View>, events: seq<Event>, times: seq<Instant>, cooldown: nat) {
    && |states| == |events| + 1 && |times| == |events|
    && (forall i, j :: 0 <= i <= j < |times| ==> times[i] <= times[j])
    && states[0] == View(Empty, map[], [])
    && forall i :: 0 <= i < |events| ==> states[i + 1] == Next(states[i], events[i], cooldown, times[i])
  }

  /** In every state of every run discovery starts are a cooldown apart, and the slot is never
      discovering without a live claim. */
  lemma {:induction false} RunsAreValid(states: seq<View>, events: seq<Event>, times: seq<Instant>, cooldown: nat,
                                        n: nat)
    requires Run(states, events, times, cooldown) && n < |states|
    ensures forall now :: (n > 0 ==> times[n - 1] <= now) ==> states[n].Valid(cooldown, now)
    ensures Paced(states[n].starts, cooldown) && (states[n].inner.Discovering? ==> states[n].InFlight())
  {
    if n > 0 {
      RunsAreValid(states, events, times, cooldown, n - 1);
      NextIsValid(states[n - 1], events[n - 1], cooldown, times[n - 1], times[n - 1]);
    }
    assert states[n].Valid(cooldown, if n > 0 then times[n - 1] else 0);
  }

  /** `starts` is a faithful record: any two events of a run that start a discovery are a
      cooldown apart. */
  lemma StartsArePaced(states: seq<View>, events: seq<Event>, times: seq<Instant>, cooldown: nat, i: nat, j: nat)
    requires Run(states, events, times, cooldown) && i < j < |events|
    requires states[i].Starts(events[i], cooldown, times[i]) && states[j].Starts(events[j], cooldown, times[j])
    ensures times[j] - times[i] >= cooldown
  {
    RecordGrows(states, events, times, cooldown, i + 1, j);
    var before, after := |states[i].starts|, |states[j].starts|;
    assert states[j].starts[before] == times[i] && states[j + 1].starts[after] == times[j];
    RunsAreValid(states, events, times, cooldown, j + 1);
    assert states[j + 1].starts[before] == times[i];
  }

  lemma {:induction false} RecordGrows(states: seq<View>, events: seq<Event>, times: seq<Instant>, cooldown: nat,
                                       m: nat, n: nat)
    requires Run(states, events, times, cooldown) && m <= n < |states|
    ensures states[m].starts <= states[n].starts
    decreases n - m
  {
    if m < n {
      RecordGrows(states, events, times, cooldown, m, n - 1);
      assert states[n] == Next(states[n - 1], events[n - 1], cooldown, times[n - 1]);
    }
  }

  /** Nothing wedges the slot: a caller refused a cooldown after everything else that happened is
      held off by a live discovery. */
  lemma NeverWedged(states: seq<View>, events: seq<Event>, times: seq<Instant>, cooldown: nat, n: nat, now: Instant)
    requires Run(states, events, times, cooldown) && n < |states| && (n > 0 ==> times[n - 1] + cooldown <= now)
    requires states[n].Refuses(cooldown, now)
    ensures states[n].InFlight()
  {
    RunsAreValid(states, events, times, cooldown, n);
    assert states[n].Valid(cooldown, now - cooldown);
  }

  /** The run itself: `begun` are the starts of its discoveries, in order. */
  method Interleave(cooldown: nat, events: seq<Event>, times: seq<Instant>)
    returns (s: Slot, begun: seq<Instant>, ghost states: seq<View>)
    requires |times| == |events| && forall i, j :: 0 <= i <= j < |times| ==> times[i] <= times[j]
    ensures fresh(s) && s.Valid()
    ensures Run(states, events, times, cooldown) && states[|events|] == s.Seen()
    ensures begun == states[|events|].starts && Paced(begun, cooldown)
    ensures s.inner.Discovering? ==> exists t :: t in s.claims && s.claims[t] == Awaiting
  {
    s := new Slot(cooldown, if times == [] then 0 else times[0]);
    begun, states := [], [s.Seen()];
    for i := 0 to |events|
      invariant fresh(s) && s.Valid() && s.cooldown == cooldown && |states| == i + 1 && states[i] == s.Seen()
      invariant i < |events| ==> s.clock <= times[i]
      invariant states[0] == View(Empty, map[], []) && begun == s.starts
      invariant forall j :: 0 <= j < i ==> states[j + 1] == Next(states[j], events[j], cooldown, times[j])
    {
      var started := Perform(s, events[i], times[i]);
      if started { begun := begun + [times[i]]; }
      states := states + [s.Seen()];
    }
    RunsAreValid(states, events, times, cooldown, |events|);
  }

  method Perform(s: Slot, e: Event, now: Instant) returns (started: bool)
    requires s.Valid() && s.clock <= now
    modifies s
    ensures s.Valid() && s.clock <= now && s.Seen() == Next(old(s.Seen()), e, s.cooldown, now)
    ensures started <==> old(s.Seen()).Starts(e, s.cooldown, now)
  {
    started := false;
    match e {
      case Enters(task) =>
        if task !in s.claims {
          var r := s.Enter(task, now);
          started := r.Started?;
        }
      case Settles(task, result) =>
        if task in s.claims && s.claims[task] == Awaiting {
          var r := s.Settle(task, result, now);
        }
      case Drops(task) =>
        if task in s.claims { s.DropClaim(task, now); }
      case Invalidates =>
        s.InvalidateReady(now);
    }
  }
}
