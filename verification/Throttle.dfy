/** The password-guess throttles: five granted claims, then a minute's lockout. */
module Throttle {
  import opened Wrappers

  // Monotonic instants, in nanoseconds.
  type Instant = int

  const SECOND: int := 1_000_000_000
  const LOCKOUT_THRESHOLD: int := 5
  const LOCKOUT: int := 60 * SECOND
  const ENTRY_TTL: int := 600 * SECOND
  const TABLE_CAP: int := 4096

  // ---------------------------------------------------------------- the pace of granted claims

  ghost predicate Ordered(log: seq<Instant>) {
    forall i, j :: 0 <= i <= j < |log| ==> log[i] <= log[j]
  }

  /** Any six consecutive grants span at least the lockout. */
  ghost predicate Paced(log: seq<Instant>) {
    forall i :: 0 <= i && i + 5 < |log| ==> log[i + 5] - log[i] >= LOCKOUT
  }

  /** So n grants take at least a minute per five. */
  lemma {:induction false} GrantsTakeTime(log: seq<Instant>)
    requires Ordered(log) && Paced(log) && |log| > 0
    ensures log[|log| - 1] - log[0] >= LOCKOUT * ((|log| - 1) / 5)
    decreases |log|
  {
    if |log| > 5 {
      var early := log[..|log| - 5];
      GrantsTakeTime(early);
      assert log[|log| - 6 + 5] - log[|log| - 6] >= LOCKOUT;
      assert (|log| - 1) / 5 == (|early| - 1) / 5 + 1;
    }
  }

  /** What the counters remember about the grants since they were last forgotten: the
      last `failures` of them came after a pause of one lockout. */
  ghost predicate Remembers(log: seq<Instant>, failures: int, lockedUntil: Option<Instant>) {
    && 0 <= failures < LOCKOUT_THRESHOLD && failures <= |log|
    && (failures == 0 && |log| > 0 ==> lockedUntil.Some? && lockedUntil.value >= log[|log| - 1] + LOCKOUT)
    && (0 < failures < |log| ==> log[|log| - failures] - log[|log| - failures - 1] >= LOCKOUT)
  }

  ghost predicate LogOk(log: seq<Instant>, clock: Instant) {
    Ordered(log) && Paced(log) && (|log| > 0 ==> log[|log| - 1] <= clock)
  }

  function Locked(lockedUntil: Option<Instant>, now: Instant): bool {
    lockedUntil.Some? && now < lockedUntil.value
  }

  /** The counters after one more granted claim. */
  function Count(failures: int, lockedUntil: Option<Instant>, stamp: Instant): (int, Option<Instant>) {
    if failures + 1 >= LOCKOUT_THRESHOLD then (0, Some(stamp + LOCKOUT)) else (failures + 1, lockedUntil)
  }

  lemma GrantKeepsPace(log: seq<Instant>, failures: int, lockedUntil: Option<Instant>,
                       clock: Instant, check: Instant, stamp: Instant)
    requires LogOk(log, clock) && Remembers(log, failures, lockedUntil)
    requires clock <= check <= stamp && !Locked(lockedUntil, check)
    ensures var (f, u) := Count(failures, lockedUntil, stamp);
      LogOk(log + [stamp], stamp) && Remembers(log + [stamp], f, u)
  {
    var n, log' := |log|, log + [stamp];
    if n >= 5 {
      var b := n - failures;
      assert log'[b] - log[b - 1] >= LOCKOUT;
      assert log[n - 5] <= log[b - 1] && log'[b] <= stamp;
    }
    forall i | 0 <= i && i + 5 < |log'|
      ensures log'[i + 5] - log'[i] >= LOCKOUT
    {
      if i + 5 < n {
        assert log[i + 5] - log[i] >= LOCKOUT;
      }
    }
  }

  /** Forgetting counters that have been idle for a lockout or longer costs nothing. */
  lemma FreshCountersKeepPace(log: seq<Instant>, clock: Instant, stamp: Instant)
    requires LogOk(log, clock) && clock <= stamp
    requires |log| > 0 ==> stamp - log[|log| - 1] >= LOCKOUT
    ensures LogOk(log + [stamp], stamp) && Remembers(log + [stamp], 1, None)
  {
    var n, log' := |log|, log + [stamp];
    forall i | 0 <= i && i + 5 < |log'|
      ensures log'[i + 5] - log'[i] >= LOCKOUT
    {
      if i + 5 < n {
        assert log[i + 5] - log[i] >= LOCKOUT;
      } else {
        assert log[i] <= log[n - 1];
      }
    }
  }

  // ------------------------------------------------------------------------ one global counter

  class LoginThrottle {
    var failures: int
    var lockedUntil: Option<Instant>
    ghost var granted: seq<Instant>
    ghost var clock: Instant

    ghost predicate Valid()
      reads this
    {
      LogOk(granted, clock) && Remembers(granted, failures, lockedUntil)
    }

    constructor ()
      ensures Valid() && granted == [] && failures == 0 && lockedUntil == None
    {
      failures, lockedUntil, granted, clock := 0, None, [], 0;
      new;
      clock := 0;
    }

    /** `check` is the reading compared with the lockout, `stamp` the one that starts it and
        that dates the grant. */
    method Claim(check: Instant, stamp: Instant) returns (ok: bool)
      requires Valid() && clock <= check <= stamp
      modifies this
      ensures Valid() && clock == stamp
      ensures ok <==> !Locked(old(lockedUntil), check)
      ensures granted == if ok then old(granted) + [stamp] else old(granted)
      ensures (failures, lockedUntil) ==
        if ok then Count(old(failures), old(lockedUntil), stamp) else old((failures, lockedUntil))
    {
      clock := stamp;
      if Locked(lockedUntil, check) {
        return false;
      }
      GrantKeepsPace(granted, failures, lockedUntil, old(clock), check, stamp);
      granted := granted + [stamp];
      failures := failures + 1;
      if failures >= LOCKOUT_THRESHOLD {
        lockedUntil := Some(stamp + LOCKOUT);
        failures := 0;
      }
      ok := true;
    }

    /** A correct password clears the claims. */
    method Succeeded()
      requires Valid()
      modifies this
      ensures Valid() && failures == 0 && lockedUntil == None && granted == [] && clock == old(clock)
    {
      failures, lockedUntil, granted := 0, None, [];
    }
  }

  // ----------------------------------------------------------------------- one counter per key

  datatype IpState = IpState(failures: int, lockedUntil: Option<Instant>, lastSeen: Instant)

  type Table = map<string, IpState>

  predicate Live(e: IpState, now: Instant) { Locked(e.lockedUntil, now) }

  /** Whole seconds idle, as the sweep measures them. */
  predicate Idle(e: IpState, now: Instant) {
    !Live(e, now) && !((if now >= e.lastSeen then now - e.lastSeen else 0) / SECOND < ENTRY_TTL / SECOND)
  }

  function Swept(t: Table, now: Instant): Table {
    map k | k in t && !Idle(t[k], now) :: t[k]
  }

  /** Where a full table finds room for a new key: the least recently seen entry without a
      live lockout, or if there is none the lockout nearest its end. */
  predicate Victim(t: Table, now: Instant, v: string) {
    v in t
    && (if exists k :: k in t && !Live(t[k], now)
        then !Live(t[v], now) && forall k :: k in t && !Live(t[k], now) ==> t[v].lastSeen <= t[k].lastSeen
        else forall k :: k in t ==> t[v].lockedUntil.value <= t[k].lockedUntil.value)
  }

  lemma {:induction false} LeastKey(keys: set<string>, rank: string -> Instant) returns (v: string)
    requires keys != {}
    ensures v in keys && forall k :: k in keys ==> rank(v) <= rank(k)
    decreases |keys|
  {
    var x :| x in keys;
    v := x;
    if keys != {x} {
      var w := LeastKey(keys - {x}, rank);
      if rank(w) < rank(x) { v := w; }
    }
  }

  lemma VictimExists(t: Table, now: Instant)
    requires t != map[]
    ensures exists v :: Victim(t, now, v)
  {
    var open := set k | k in t && !Live(t[k], now);
    if open != {} {
      var v := LeastKey(open, k => if k in t then t[k].lastSeen else 0);
      forall k | k in t && !Live(t[k], now) ensures t[v].lastSeen <= t[k].lastSeen { assert k in open; }
      assert Victim(t, now, v);
    } else {
      forall k | k in t ensures Live(t[k], now) { assert k !in open; }
      var v := LeastKey(t.Keys, k => if k in t && t[k].lockedUntil.Some? then t[k].lockedUntil.value else 0);
      assert Victim(t, now, v);
    }
  }

  ghost predicate KeyOk(log: seq<Instant>, entry: Option<IpState>, clock: Instant) {
    && LogOk(log, clock)
    && (entry.Some? ==>
        && Remembers(log, entry.value.failures, entry.value.lockedUntil)
        && |log| > 0 && log[|log| - 1] <= entry.value.lastSeen <= clock)
    && (entry.None? && |log| > 0 ==> clock - log[|log| - 1] >= LOCKOUT)
  }

  function EntryOf(t: Table, k: string): Option<IpState> { if k in t then Some(t[k]) else None }

  /** The sweep leaves every key's record sound: what it forgets was idle long enough. */
  lemma SweepKeepsKey(t: Table, k: string, log: seq<Instant>, clock: Instant, now: Instant)
    requires KeyOk(log, EntryOf(t, k), clock) && clock <= now
    ensures KeyOk(log, EntryOf(t, k), now) && KeyOk(log, EntryOf(Swept(t, now), k), now)
  {
    if k in t && Idle(t[k], now) {
      assert now - t[k].lastSeen >= ENTRY_TTL;
    }
  }

  lemma SweptSize(t: Table, now: Instant)
    ensures |Swept(t, now)| <= |t|
    ensures |Swept(t, now)| == |t| ==> Swept(t, now) == t
  {
    var s := Swept(t, now);
    SubsetSize(s.Keys, t.Keys);
  }

  /** A live lockout is displaced only when every entry holds one. */
  lemma LiveLockoutsGoLast(t: Table, now: Instant, v: string)
    requires Victim(t, now, v) && Live(t[v], now)
    ensures forall k :: k in t ==> Live(t[k], now)
  {
  }

  /** A new key on a full table takes the place of the key that goes first. */
  predicate Displaces(t: Table, ip: string, now: Instant, v: string) {
    |t| == TABLE_CAP && ip !in t && v in t && Victim(t, now, v)
  }

  /** The table after making room: the sweep if full, then the displacement if any. */
  function Evicted(t: Table, now: Instant, displaced: Option<string>): Table {
    var s := if |t| >= TABLE_CAP then Swept(t, now) else t;
    if displaced.Some? then s - {displaced.value} else s
  }

  function Entered(t: Table, ip: string, stamp: Instant): IpState {
    if ip in t then t[ip] else IpState(0, None, stamp)
  }

  function AfterClaim(t: Table, ip: string, stamp: Instant, displaced: Option<string>): Table {
    var room := Evicted(t, stamp, displaced);
    room[ip := Counted(Entered(room, ip, stamp), stamp)]
  }

  ghost function Kept(logs: map<string, seq<Instant>>, displaced: Option<string>): map<string, seq<Instant>> {
    if displaced.Some? then logs - {displaced.value} else logs
  }

  function Counted(e: IpState, stamp: Instant): IpState {
    var (f, u) := Count(e.failures, e.lockedUntil, stamp);
    IpState(f, u, stamp)
  }

  lemma NextEntryOk(log: seq<Instant>, entry: Option<IpState>, clock: Instant, check: Instant, stamp: Instant)
    requires clock <= check <= stamp && LogOk(log, clock) && KeyOk(log, entry, stamp)
    requires entry.Some? ==> !Live(entry.value, check)
    ensures var e := if entry.Some? then entry.value else IpState(0, None, stamp);
      KeyOk(log + [stamp], Some(Counted(e, stamp)), stamp)
  {
    if entry.Some? {
      GrantKeepsPace(log, entry.value.failures, entry.value.lockedUntil, clock, check, stamp);
    } else {
      FreshCountersKeepPace(log, clock, stamp);
    }
  }

  class IpThrottle {
    var table: Table
    // Per key, the grants since it was last cleared by a success or displaced.
    ghost var logs: map<string, seq<Instant>>
    ghost var clock: Instant

    ghost function Log(k: string): seq<Instant>
      reads this
    {
      if k in logs then logs[k] else []
    }

    ghost predicate Valid()
      reads this
    {
      |table| <= TABLE_CAP && forall k :: KeyOk(Log(k), EntryOf(table, k), clock)
    }

    constructor (now: Instant)
      ensures Valid() && table == map[] && clock == now && forall k :: Log(k) == []
    {
      table, logs, clock := map[], map[], now;
    }

    /** The sweep and, if it freed nothing and the key is new, the displacement. */
    method EvictIfFull(ip: string, now: Instant) returns (ghost displaced: Option<string>)
      requires Valid() && clock <= now
      modifies this
      ensures Valid() && clock == now
      ensures (|table| < TABLE_CAP || ip in table) && |table| <= |old(table)|
      ensures table == Evicted(old(table), now, displaced)
      ensures logs == Kept(old(logs), displaced)
      ensures displaced.Some? ==> Displaces(old(table), ip, now, displaced.value)
    {
      displaced := None;
      clock := now;
      forall k
        ensures KeyOk(Log(k), EntryOf(table, k), now) && KeyOk(Log(k), EntryOf(Swept(table, now), k), now)
      {
        assert KeyOk(old(Log(k)), EntryOf(old(table), k), old(clock));
        SweepKeepsKey(table, k, Log(k), old(clock), now);
      }
      if |table| >= TABLE_CAP {
        SweptSize(table, now);
        table := Swept(table, now);
        if |table| >= TABLE_CAP && ip !in table {
          VictimExists(table, now);
          var victim :| victim in table && Victim(table, now, victim);
          displaced := Some(victim);
          Displace(victim);
        }
      }
    }

    ghost predicate Consistent()
      reads this
    {
      forall k :: KeyOk(Log(k), EntryOf(table, k), clock)
    }

    method Displace(victim: string)
      requires Consistent() && victim in table && |table| <= TABLE_CAP
      modifies this`table, this`logs
      ensures Valid() && table == old(table) - {victim} && logs == old(logs) - {victim}
      ensures |table| == |old(table)| - 1
    {
      table := table - {victim};
      logs := logs - {victim};
      assert old(table).Keys == table.Keys + {victim};
      forall k ensures KeyOk(Log(k), EntryOf(table, k), clock) {
        assert KeyOk(old(Log(k)), EntryOf(old(table), k), clock);
      }
    }

    /** Claims one attempt for `ip`. */
    method Claim(ip: string, check: Instant, stamp: Instant) returns (ok: bool, ghost displaced: Option<string>)
      requires Valid() && clock <= check <= stamp
      modifies this
      ensures Valid() && clock == stamp
      ensures ok <==> !(ip in old(table) && Live(old(table)[ip], check))
      ensures !ok ==> displaced.None? && table == old(table) && logs == old(logs)
      ensures ok ==> table == AfterClaim(old(table), ip, stamp, displaced)
      ensures ok ==> logs == Kept(old(logs), displaced)[ip := old(Log(ip)) + [stamp]]
      ensures displaced.Some? ==> Displaces(old(table), ip, stamp, displaced.value)
      ensures |table| <= |old(table)| + 1
    {
      displaced := None;
      if ip in table && Live(table[ip], check) {
        Tick(stamp);
        return false, None;
      }
      assert KeyOk(Log(ip), EntryOf(table, ip), clock);
      displaced := EvictIfFull(ip, stamp);
      CountGrant(ip, old(clock), check, stamp);
      ok := true;
    }

    ghost method Tick(now: Instant)
      requires Valid() && clock <= now
      modifies this`clock
      ensures Valid() && clock == now
    {
      clock := now;
      assert forall k :: KeyOk(old(Log(k)), EntryOf(old(table), k), old(clock));
    }

    /** The entry, found or new, takes one more claim. */
    method CountGrant(ip: string, ghost since: Instant, ghost check: Instant, stamp: Instant)
      requires Valid() && (|table| < TABLE_CAP || ip in table)
      requires since <= check <= stamp == clock && LogOk(Log(ip), since)
      requires ip in table ==> !Live(table[ip], check)
      modifies this`table, this`logs
      ensures Valid() && logs == old(logs)[ip := old(Log(ip)) + [stamp]]
      ensures table == old(table)[ip := Counted(Entered(old(table), ip, stamp), stamp)]
      ensures |table| <= |old(table)| + 1
    {
      var entry := if ip in table then table[ip] else IpState(0, None, stamp);
      assert KeyOk(Log(ip), EntryOf(table, ip), clock);
      NextEntryOk(Log(ip), EntryOf(table, ip), since, check, stamp);
      entry := entry.(lastSeen := stamp);
      entry := entry.(failures := entry.failures + 1);
      if entry.failures >= LOCKOUT_THRESHOLD {
        entry := entry.(lockedUntil := Some(stamp + LOCKOUT));
        entry := entry.(failures := 0);
      }
      Record(ip, entry, Log(ip) + [stamp]);
    }

    method Record(ip: string, entry: IpState, ghost log: seq<Instant>)
      requires Valid() && (|table| < TABLE_CAP || ip in table) && KeyOk(log, Some(entry), clock)
      modifies this`table, this`logs
      ensures Valid() && table == old(table)[ip := entry] && logs == old(logs)[ip := log]
      ensures |table| <= |old(table)| + 1
    {
      table := table[ip := entry];
      logs := logs[ip := log];
      assert table.Keys == old(table).Keys + {ip};
      forall k ensures KeyOk(Log(k), EntryOf(table, k), clock) {
        assert KeyOk(old(Log(k)), EntryOf(old(table), k), clock);
      }
    }

    /** A correct password clears the key. */
    method Succeeded(ip: string)
      requires Valid()
      modifies this
      ensures Valid() && clock == old(clock)
      ensures table == old(table) - {ip} && logs == old(logs) - {ip} && |table| <= |old(table)|
    {
      table := table - {ip};
      logs := logs - {ip};
      assert old(table).Keys == table.Keys + (old(table).Keys * {ip});
      forall k ensures KeyOk(Log(k), EntryOf(table, k), clock) {
        assert KeyOk(old(Log(k)), EntryOf(old(table), k), clock);
      }
    }
  }

  // ----------------------------------------------------------------------------- whole runs

  datatype Event = Claims(ip: string, check: Instant, stamp: Instant) | Succeeds(ip: string)

  /** The stamp of the last claim. */
  function ClockAfter(events: seq<Event>, start: Instant): Instant {
    if events == [] then start
    else if events[|events| - 1].Claims? then events[|events| - 1].stamp
    else ClockAfter(events[..|events| - 1], start)
  }

  /** Each claim reads the clock after the one before it, and twice in order. */
  predicate Timed(events: seq<Event>, start: Instant) {
    events == []
    || (var front, last := events[..|events| - 1], events[|events| - 1];
        Timed(front, start) && (last.Claims? ==> ClockAfter(front, start) <= last.check <= last.stamp))
  }

  /** One event of a run: the table it met, whether it was a granted claim, whom it displaced. */
  datatype Turn = Turn(event: Event, table: Table, granted: bool, displaced: Option<string>)
  {
    /** The table it left, and when it may grant and displace. */
    ghost predicate Leads(next: Table) {
      match event
      case Claims(ip, check, stamp) =>
        && (granted <==> !(ip in table && Live(table[ip], check)))
        && next == (if granted then AfterClaim(table, ip, stamp, displaced) else table)
        && |next| <= Max(|table|, TABLE_CAP)
        && (displaced.Some? ==> granted && Displaces(table, ip, stamp, displaced.value))
      case Succeeds(ip) =>
        next == table - {ip} && !granted && displaced.None?
    }

    /** The stamp of the claim, if it was granted and to `key`. */
    function Granted(key: string): seq<Instant> {
      if granted && event.Claims? && event.ip == key then [event.stamp] else []
    }

    predicate Forgets(key: string) { event == Succeeds(key) || displaced == Some(key) }
  }

  /** The turns of a run that began with one table and ended with another. */
  ghost predicate Run(turns: seq<Turn>, events: seq<Event>, first: Table, last: Table) {
    if turns == [] || events == [] then turns == [] && events == [] && last == first
    else
      var turn := turns[|turns| - 1];
      && turn.event == events[|events| - 1] && turn.Leads(last)
      && Run(turns[..|turns| - 1], events[..|events| - 1], first, turn.table)
  }

  /** The stamps of the claims granted to `key`. */
  function Grants(turns: seq<Turn>, key: string): seq<Instant> {
    if turns == [] then []
    else
      Grants(turns[..|turns| - 1], key) + turns[|turns| - 1].Granted(key)
  }

  /** Those granted since `key` was last cleared or displaced. */
  function Recent(turns: seq<Turn>, key: string): seq<Instant> {
    if turns == [] then []
    else
      var last := turns[|turns| - 1];
      (if last.Forgets(key) then [] else Recent(turns[..|turns| - 1], key)) + last.Granted(key)
  }

  ghost predicate Forgotten(turns: seq<Turn>, key: string) {
    exists turn :: turn in turns && turn.Forgets(key)
  }

  lemma {:induction false} RecentIsAll(turns: seq<Turn>, key: string)
    requires !Forgotten(turns, key)
    ensures Recent(turns, key) == Grants(turns, key)
  {
    if turns != [] {
      assert turns[|turns| - 1] in turns;
      assert forall t :: t in turns[..|turns| - 1] ==> t in turns;
      RecentIsAll(turns[..|turns| - 1], key);
    }
  }

  lemma RoomKeepsKey(t: Table, key: string, log: seq<Instant>, clock: Instant, now: Instant, displaced: Option<string>)
    requires KeyOk(log, EntryOf(t, key), clock) && clock <= now
    ensures KeyOk(if displaced == Some(key) then [] else log, EntryOf(Evicted(t, now, displaced), key), now)
  {
    SweepKeepsKey(t, key, log, clock, now);
  }

  lemma GrantKeepsOthers(t: Table, ip: string, key: string, log: seq<Instant>, clock: Instant, stamp: Instant,
                         displaced: Option<string>)
    requires KeyOk(log, EntryOf(t, key), clock) && clock <= stamp && ip != key
    ensures KeyOk(if displaced == Some(key) then [] else log, EntryOf(AfterClaim(t, ip, stamp, displaced), key), stamp)
  {
    RoomKeepsKey(t, key, log, clock, stamp, displaced);
    OthersAfterClaim(t, ip, key, stamp, displaced);
  }

  lemma OthersAfterClaim(t: Table, ip: string, key: string, stamp: Instant, displaced: Option<string>)
    requires ip != key
    ensures EntryOf(AfterClaim(t, ip, stamp, displaced), key) == EntryOf(Evicted(t, stamp, displaced), key)
  {
  }

  lemma OwnAfterClaim(t: Table, key: string, stamp: Instant, displaced: Option<string>)
    ensures var entry := EntryOf(Evicted(t, stamp, displaced), key);
      EntryOf(AfterClaim(t, key, stamp, displaced), key)
        == Some(Counted(if entry.Some? then entry.value else IpState(0, None, stamp), stamp))
    ensures key in Evicted(t, stamp, displaced) ==> key in t && Evicted(t, stamp, displaced)[key] == t[key]
  {
  }

  lemma GrantKeepsOwn(t: Table, key: string, log: seq<Instant>, clock: Instant, check: Instant, stamp: Instant,
                      displaced: Option<string>)
    requires KeyOk(log, EntryOf(t, key), clock) && clock <= check <= stamp && displaced != Some(key)
    requires key in t ==> !Live(t[key], check)
    ensures KeyOk(log + [stamp], EntryOf(AfterClaim(t, key, stamp, displaced), key), stamp)
  {
    RoomKeepsKey(t, key, log, clock, stamp, displaced);
    OwnAfterClaim(t, key, stamp, displaced);
    NextEntryOk(log, EntryOf(Evicted(t, stamp, displaced), key), clock, check, stamp);
  }

  /** What the table remembers of a key stays true to the grants since it was last forgotten. */
  lemma TurnKeepsKey(turn: Turn, next: Table, key: string, log: seq<Instant>, clock: Instant)
    requires turn.Leads(next) && KeyOk(log, EntryOf(turn.table, key), clock)
    requires turn.event.Claims? ==> clock <= turn.event.check <= turn.event.stamp
    ensures KeyOk((if turn.Forgets(key) then [] else log) + turn.Granted(key), EntryOf(next, key),
                  if turn.event.Claims? then turn.event.stamp else clock)
  {
    assert log + [] == log;
    if turn.granted && turn.event.ip == key {
      GrantKeepsOwn(turn.table, key, log, clock, turn.event.check, turn.event.stamp, turn.displaced);
    } else if turn.granted {
      GrantKeepsOthers(turn.table, turn.event.ip, key, log, clock, turn.event.stamp, turn.displaced);
    } else if turn.event.Claims? {
      SweepKeepsKey(turn.table, key, log, clock, turn.event.stamp);
    }
  }

  /** In every run, however long, whatever was displaced: the grants of a key since it was last
      cleared or displaced are paced. */
  lemma {:induction false} RunsArePaced(turns: seq<Turn>, events: seq<Event>, first: Table, last: Table, key: string,
                                        start: Instant)
    requires Run(turns, events, first, last) && Timed(events, start) && KeyOk([], EntryOf(first, key), start)
    ensures KeyOk(Recent(turns, key), EntryOf(last, key), ClockAfter(events, start))
    ensures |last| <= Max(|first|, TABLE_CAP)
  {
    if turns != [] {
      var n := |turns| - 1;
      RunsArePaced(turns[..n], events[..|events| - 1], first, turns[n].table, key, start);
      TurnKeepsKey(turns[n], last, key, Recent(turns[..n], key), ClockAfter(events[..|events| - 1], start));
    }
  }

  /** So a key neither cleared nor displaced needs at least a minute per five grants. */
  lemma RunsTakeTime(turns: seq<Turn>, events: seq<Event>, first: Table, last: Table, key: string, start: Instant)
    requires Run(turns, events, first, last) && Timed(events, start) && KeyOk([], EntryOf(first, key), start)
    requires !Forgotten(turns, key)
    ensures Ordered(Grants(turns, key)) && Paced(Grants(turns, key))
    ensures var grants := Grants(turns, key);
      grants != [] ==> grants[|grants| - 1] - grants[0] >= LOCKOUT * ((|grants| - 1) / 5)
  {
    RunsArePaced(turns, events, first, last, key, start);
    RecentIsAll(turns, key);
    if Grants(turns, key) != [] { GrantsTakeTime(Grants(turns, key)); }
  }

  // ------------------------------------------------------------------------ the code that runs

  lemma RunAppend(turns: seq<Turn>, events: seq<Event>, first: Table, turn: Turn, next: Table)
    requires Run(turns, events, first, turn.table) && turn.Leads(next)
    ensures Run(turns + [turn], events + [turn.event], first, next)
  {
    assert (turns + [turn])[..|turns|] == turns && (events + [turn.event])[..|events|] == events;
  }

  lemma GrantsAppend(turns: seq<Turn>, turn: Turn, key: string)
    ensures Grants(turns + [turn], key) == Grants(turns, key) + turn.Granted(key)
  {
    assert (turns + [turn])[..|turns|] == turns;
  }

  /** One event of a run. */
  method TakeTurn(t: IpThrottle, e: Event) returns (ok: bool, ghost turn: Turn)
    requires t.Valid() && (e.Claims? ==> t.clock <= e.check <= e.stamp)
    modifies t
    ensures t.Valid() && t.clock == if e.Claims? then e.stamp else old(t.clock)
    ensures turn.event == e && turn.table == old(t.table) && turn.Leads(t.table)
    ensures ok ==> e.Claims?
    ensures turn.granted == ok
  {
    match e {
      case Claims(ip, check, stamp) =>
        ghost var displaced;
        ok, displaced := t.Claim(ip, check, stamp);
        turn := Turn(e, old(t.table), ok, displaced);
      case Succeeds(ip) =>
        t.Succeeded(ip);
        ok, turn := false, Turn(e, old(t.table), false, None);
    }
  }

  /** Any run at all over the table, however long: `grants` are exactly the claims granted to the
      key; they are paced, n of them taking at least a minute per five, unless the run cleared
      the key or displaced it, as its victim, from a full table; and the table stays within its
      cap. */
  method RunThrottle(t: IpThrottle, key: string, events: seq<Event>)
    returns (grants: seq<Instant>, ghost turns: seq<Turn>)
    requires t.Valid() && t.Log(key) == [] && Timed(events, t.clock)
    modifies t
    ensures t.Valid() && |t.table| <= TABLE_CAP
    ensures Run(turns, events, old(t.table), t.table) && grants == Grants(turns, key)
    ensures !Forgotten(turns, key) ==> Ordered(grants) && Paced(grants)
    ensures !Forgotten(turns, key) && grants != [] ==>
      grants[|grants| - 1] - grants[0] >= LOCKOUT * ((|grants| - 1) / 5)
  {
    ghost var first, start := t.table, t.clock;
    assert KeyOk(t.Log(key), EntryOf(t.table, key), t.clock);
    grants, turns := Serve(t, key, events);
    if !Forgotten(turns, key) { RunsTakeTime(turns, events, first, t.table, key, start); }
  }

  method ServeOne(t: IpThrottle, key: string, e: Event, ghost first: Table, ghost done: seq<Event>,
                  sofar: seq<Instant>, ghost before: seq<Turn>)
    returns (grants: seq<Instant>, ghost turns: seq<Turn>)
    requires t.Valid() && (e.Claims? ==> t.clock <= e.check <= e.stamp)
    requires Run(before, done, first, t.table) && sofar == Grants(before, key)
    modifies t
    ensures t.Valid() && t.clock == if e.Claims? then e.stamp else old(t.clock)
    ensures Run(turns, done + [e], first, t.table) && grants == Grants(turns, key)
  {
    ghost var turn;
    var ok;
    ok, turn := TakeTurn(t, e);
    RunAppend(before, done, first, turn, t.table);
    GrantsAppend(before, turn, key);
    grants := if ok && e.ip == key then sofar + [e.stamp] else sofar;
    turns := before + [turn];
  }

  method Serve(t: IpThrottle, key: string, events: seq<Event>) returns (grants: seq<Instant>, ghost turns: seq<Turn>)
    requires t.Valid() && Timed(events, t.clock)
    modifies t
    ensures t.Valid() && t.clock == ClockAfter(events, old(t.clock))
    ensures Run(turns, events, old(t.table), t.table) && grants == Grants(turns, key)
  {
    if events == [] { return [], []; }
    var front, last := events[..|events| - 1], events[|events| - 1];
    assert front + [last] == events;
    grants, turns := Serve(t, key, front);
    grants, turns := ServeOne(t, key, last, old(t.table), front, grants, turns);
  }
}
