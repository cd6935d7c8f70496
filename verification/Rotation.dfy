/** Backup archives and how they rotate: the pruning rule of the local root, the gentler rule
    while the remote copy keeps failing, and what a backup run does with both. */
module Rotation {
  import opened Wrappers
  import opened ByteOrder
  import opened Sorting

  /** Owned archive names, which are never empty. */
  type Name = s: seq<byte> | s != [] witness [118]

  const NANOS: int := 1_000_000_000
  const DAY_SECONDS: u64 := 86_400
  const EARLIEST_SECOND: int := -0x8000_0000_0000_0000

  /** A listed archive and its modification time, in nanoseconds from the epoch. */
  datatype Archive = Archive(name: Name, created: int)

  datatype Rule = Rule(days: u64, count: u64, protected: Option<Name>, cutoff: int)

  // ---------------------------------------------------------------------------- the order

  /** The comparison of the sort: the protected archive first, then newer, then larger name. */
  predicate NotAfter(protected: Option<Name>, a: Archive, b: Archive) {
    var first: seq<byte> := if protected.Some? then protected.value else [];
    if (a.name == first) != (b.name == first) then a.name == first
    else if a.created != b.created then a.created > b.created
    else Leq(b.name, a.name)
  }

  function Order(protected: Option<Name>): (Archive, Archive) -> bool {
    (a: Archive, b: Archive) => NotAfter(protected, a, b)
  }

  lemma OrderIsTotal(protected: Option<Name>, a: Archive, b: Archive)
    ensures NotAfter(protected, a, b) || NotAfter(protected, b, a)
    ensures NotAfter(protected, a, b) && NotAfter(protected, b, a) ==> a.name == b.name
  {
    LeqTotal(a.name, b.name);
  }

  lemma OrderIsTransitive(protected: Option<Name>, a: Archive, b: Archive, c: Archive)
    requires NotAfter(protected, a, b) && NotAfter(protected, b, c)
    ensures NotAfter(protected, a, c)
  {
    if a.created == b.created == c.created && Leq(c.name, b.name) && Leq(b.name, a.name) {
      LeqTransitive(c.name, b.name, a.name);
    }
  }

  lemma OrderIsPreorder(protected: Option<Name>)
    ensures Preorder(Order(protected))
  {
    forall a: Archive, b: Archive ensures Order(protected)(a, b) || Order(protected)(b, a) {
      OrderIsTotal(protected, a, b);
    }
    forall a: Archive, b: Archive, c: Archive | Order(protected)(a, b) && Order(protected)(b, c)
      ensures Order(protected)(a, c)
    {
      OrderIsTransitive(protected, a, b, c);
    }
  }

  // ----------------------------------------------------------------------------- the rule

  /** The archives that come before `n`. */
  function Ahead(files: map<Name, int>, protected: Option<Name>, n: Name): set<Name>
    requires n in files
  {
    set b | b in files && b != n && NotAfter(protected, Archive(b, files[b]), Archive(n, files[n]))
  }

  /** Protected, or neither too old nor preceded by as many archives as may remain. */
  predicate Keeps(files: map<Name, int>, rule: Rule, n: Name)
    requires n in files
  {
    || rule.protected == Some(n)
    || ((rule.days == 0 || files[n] >= rule.cutoff)
        && (rule.count == 0 || |Ahead(files, rule.protected, n)| < rule.count))
  }

  function Survivors(files: map<Name, int>, rule: Rule): map<Name, int> {
    map n | n in files && Keeps(files, rule, n) :: files[n]
  }

  /** The archives of a directory listing, each once, in whatever order the directory has. */
  ghost predicate Lists(listing: seq<Archive>, files: map<Name, int>) {
    && (forall i :: 0 <= i < |listing| ==> listing[i].name in files && files[listing[i].name] == listing[i].created)
    && (forall i, j :: 0 <= i < j < |listing| ==> listing[i].name != listing[j].name)
    && (forall n :: n in files ==> Archive(n, files[n]) in listing)
  }

  function NamesOf(listing: seq<Archive>): set<Name> { set a | a in listing :: a.name }

  lemma NamesAppend(front: seq<Archive>, last: Archive)
    ensures NamesOf(front + [last]) == NamesOf(front) + {last.name}
  {
    assert last in front + [last];
    assert forall a :: a in front ==> a in front + [last];
  }

  lemma NewName(front: seq<Archive>, last: Archive)
    requires forall i :: 0 <= i < |front| ==> front[i].name != last.name
    ensures last.name !in NamesOf(front)
  {
  }

  lemma {:induction false} DistinctNames(listing: seq<Archive>)
    requires forall i, j :: 0 <= i < j < |listing| ==> listing[i].name != listing[j].name
    ensures |NamesOf(listing)| == |listing|
  {
    if listing != [] {
      var front, last := listing[..|listing| - 1], listing[|listing| - 1];
      assert listing == front + [last];
      DistinctNames(front);
      NamesAppend(front, last);
      NewName(front, last);
    }
  }

  /** In the sorted listing the archives ahead of one are those listed before it, so its index
      is how many they are. */
  lemma IndexIsRank(files: map<Name, int>, protected: Option<Name>, sorted: seq<Archive>, i: nat)
    requires Lists(sorted, files) && Sorted(sorted, Order(protected)) && i < |sorted|
    ensures Ahead(files, protected, sorted[i].name) == NamesOf(sorted[..i])
    ensures |Ahead(files, protected, sorted[i].name)| == i
  {
    var ahead, n := Ahead(files, protected, sorted[i].name), sorted[i].name;
    forall b | b in ahead ensures b in NamesOf(sorted[..i]) {
      var a := Archive(b, files[b]);
      var j :| 0 <= j < |sorted| && sorted[j] == a;
      if j > i {
        assert Order(protected)(sorted[i], sorted[j]);
        OrderIsTotal(protected, a, sorted[i]);
      }
      assert a in sorted[..i];
    }
    forall b | b in NamesOf(sorted[..i]) ensures b in ahead {
      var a :| a in sorted[..i] && a.name == b;
      var j :| 0 <= j < i && sorted[j] == a;
      assert Order(protected)(sorted[j], sorted[i]);
    }
    DistinctNames(sorted[..i]);
  }

  /** So what the pruning loop decides about an index is what the rule says of the archive. */
  lemma Verdict(files: map<Name, int>, rule: Rule, sorted: seq<Archive>, i: nat)
    requires Lists(sorted, files) && Sorted(sorted, Order(rule.protected)) && i < |sorted|
    ensures sorted[i].name in Survivors(files, rule) <==>
      || rule.protected == Some(sorted[i].name)
      || !((rule.days > 0 && sorted[i].created < rule.cutoff) || (rule.count > 0 && i >= rule.count))
  {
    IndexIsRank(files, rule.protected, sorted, i);
  }

  lemma SortedListing(listing: seq<Archive>, files: map<Name, int>, protected: Option<Name>)
    requires Lists(listing, files)
    ensures Lists(SortBy(listing, Order(protected)), files)
    ensures Sorted(SortBy(listing, Order(protected)), Order(protected))
  {
    OrderIsPreorder(protected);
    SortSorts(listing, Order(protected));
    SortPermutes(listing, Order(protected));
    Relisted(listing, SortBy(listing, Order(protected)), files);
  }

  lemma Relisted(listing: seq<Archive>, sorted: seq<Archive>, files: map<Name, int>)
    requires Lists(listing, files) && multiset(sorted) == multiset(listing) && |sorted| == |listing|
    ensures Lists(sorted, files)
  {
    forall a ensures a in sorted <==> a in listing {
      assert a in sorted <==> a in multiset(sorted);
    }
    DistinctNames(listing);
    assert NamesOf(sorted) == NamesOf(listing);
    NamesAreDistinct(sorted);
    forall i | 0 <= i < |sorted|
      ensures sorted[i].name in files && files[sorted[i].name] == sorted[i].created
    {
      assert sorted[i] in listing;
    }
  }

  lemma {:induction false} NamesAreDistinct(listing: seq<Archive>)
    requires |NamesOf(listing)| == |listing|
    ensures forall i, j :: 0 <= i < j < |listing| ==> listing[i].name != listing[j].name
  {
    if listing != [] {
      var front, last := listing[..|listing| - 1], listing[|listing| - 1];
      assert listing == front + [last];
      NamesAppend(front, last);
      NamesAtMost(front);
      NamesAreDistinct(front);
      forall i | 0 <= i < |front| ensures listing[i].name != last.name {
        assert front[i] in front;
      }
    }
  }

  lemma {:induction false} NamesAtMost(listing: seq<Archive>)
    ensures |NamesOf(listing)| <= |listing|
  {
    if listing != [] {
      var front, last := listing[..|listing| - 1], listing[|listing| - 1];
      assert listing == front + [last];
      NamesAppend(front, last);
      NamesAtMost(front);
    }
  }

  // --------------------------------------------------------------------- what the rule means

  lemma AheadGrows(files: map<Name, int>, protected: Option<Name>, a: Name, b: Name)
    requires a in files && b in files && a != b
    requires NotAfter(protected, Archive(a, files[a]), Archive(b, files[b]))
    ensures Ahead(files, protected, a) + {a} <= Ahead(files, protected, b)
    ensures |Ahead(files, protected, a)| < |Ahead(files, protected, b)|
  {
    forall c | c in Ahead(files, protected, a) ensures c in Ahead(files, protected, b) {
      OrderIsTransitive(protected, Archive(c, files[c]), Archive(a, files[a]), Archive(b, files[b]));
      OrderIsTotal(protected, Archive(a, files[a]), Archive(b, files[b]));
    }
    SubsetSize(Ahead(files, protected, a) + {a}, Ahead(files, protected, b));
  }

  /** The survivors are the front of the order, and the protected archive: whatever comes before
      an unprotected survivor survives too. */
  lemma SurvivorsAreInFront(files: map<Name, int>, rule: Rule, a: Name, b: Name)
    requires a in files && b in Survivors(files, rule) && rule.protected != Some(b)
    requires NotAfter(rule.protected, Archive(a, files[a]), Archive(b, files[b]))
    ensures a in Survivors(files, rule)
  {
    if a != b {
      AheadGrows(files, rule.protected, a, b);
    }
  }

  /** No unprotected survivor is older than an archive that goes. */
  lemma TheOldestGo(files: map<Name, int>, rule: Rule, gone: Name, kept: Name)
    requires gone in files && gone !in Survivors(files, rule)
    requires kept in Survivors(files, rule) && rule.protected != Some(kept)
    ensures files[kept] >= files[gone]
  {
    if files[kept] < files[gone] {
      SurvivorsAreInFront(files, rule, gone, kept);
    }
  }

  lemma SurvivorsAreEarly(files: map<Name, int>, rule: Rule, sorted: seq<Archive>)
    requires rule.count > 0 && Lists(sorted, files) && Sorted(sorted, Order(rule.protected))
    ensures Survivors(files, rule).Keys <= NamesOf(sorted[..Min(rule.count, |sorted|)])
  {
    var n := Min(rule.count, |sorted|);
    forall name | name in Survivors(files, rule) ensures name in NamesOf(sorted[..n]) {
      var i :| 0 <= i < |sorted| && sorted[i] == Archive(name, files[name]);
      IndexIsRank(files, rule.protected, sorted, i);
      if rule.protected == Some(name) { ProtectedIsFirst(files, name); }
      assert sorted[i] in sorted[..n];
    }
  }

  lemma EarlyOnesSurvive(files: map<Name, int>, rule: Rule, sorted: seq<Archive>)
    requires rule.days == 0 && rule.count > 0 && Lists(sorted, files) && Sorted(sorted, Order(rule.protected))
    ensures NamesOf(sorted[..Min(rule.count, |sorted|)]) <= Survivors(files, rule).Keys
  {
    var n := Min(rule.count, |sorted|);
    forall name | name in NamesOf(sorted[..n]) ensures name in Survivors(files, rule) {
      var i :| 0 <= i < n && sorted[i].name == name;
      IndexIsRank(files, rule.protected, sorted, i);
    }
  }

  lemma ListOne(listing: seq<Archive>, files: map<Name, int>, n: Name, created: int)
    requires Lists(listing, files) && n !in files
    ensures Lists(listing + [Archive(n, created)], files[n := created])
  {
  }

  lemma {:induction false} SomeListing(files: map<Name, int>) returns (listing: seq<Archive>)
    ensures Lists(listing, files) && |listing| == |files|
    decreases |files|
  {
    if files == map[] {
      listing := [];
    } else {
      var n :| n in files;
      var rest := files - {n};
      assert files.Keys == rest.Keys + {n};
      assert |files| == |files.Keys| && |rest| == |rest.Keys|;
      var front := SomeListing(rest);
      ListOne(front, rest, n, files[n]);
      assert rest[n := files[n]] == files;
      listing := front + [Archive(n, files[n])];
    }
  }

  /** With a positive count no more than that many remain; without an age rule exactly that many
      do, or all there are. */
  lemma CountIsKept(files: map<Name, int>, rule: Rule)
    requires rule.count > 0
    ensures |Survivors(files, rule)| <= rule.count
    ensures rule.days == 0 ==> |Survivors(files, rule)| == Min(rule.count, |files|)
  {
    var listing := SomeListing(files);
    var sorted := SortBy(listing, Order(rule.protected));
    SortedListing(listing, files, rule.protected);
    SortPermutes(listing, Order(rule.protected));
    var n := Min(rule.count, |sorted|);
    DistinctNames(sorted[..n]);
    SurvivorsAreEarly(files, rule, sorted);
    SubsetSize(Survivors(files, rule).Keys, NamesOf(sorted[..n]));
    if rule.days == 0 {
      EarlyOnesSurvive(files, rule, sorted);
      assert Survivors(files, rule).Keys == NamesOf(sorted[..n]);
    }
  }

  lemma ProtectedIsFirst(files: map<Name, int>, n: Name)
    requires n in files
    ensures Ahead(files, Some(n), n) == {}
  {
  }

  /** Zero means unlimited. */
  lemma ZeroKeepsAll(files: map<Name, int>, rule: Rule)
    requires rule.days == 0 && rule.count == 0
    ensures Survivors(files, rule) == files
  {
  }

  /** Pruning twice with the same arguments is pruning once. */
  lemma PruningTwice(files: map<Name, int>, rule: Rule)
    ensures Survivors(Survivors(files, rule), rule) == Survivors(files, rule)
  {
    var once := Survivors(files, rule);
    forall n | n in once ensures Keeps(once, rule, n) {
      SubsetSize(Ahead(once, rule.protected, n), Ahead(files, rule.protected, n));
    }
  }

  // --------------------------------------------------------------------------- the clock's part

  /** `checked_sub` of the saturated number of seconds; the epoch where time cannot reach back
      that far. */
  function Cutoff(now: u64, days: u64): int {
    var second := now - SaturatingMul(days, DAY_SECONDS);
    if second < EARLIEST_SECOND then 0 else second * NANOS
  }

  /** Whole seconds since the epoch, none before it. */
  function Secs(created: int): nat { if created < 0 then 0 else created / NANOS }

  /** Saturation and all, an archive made since the epoch is too old exactly when its age is
      more than that many days. */
  lemma AgeIsExact(now: u64, days: u64, created: int)
    requires created >= 0 && now < 0x8000_0000_0000_0000
    ensures created < Cutoff(now, days) <==> now * NANOS - created > days * DAY_SECONDS * NANOS
  {
  }

  // -------------------------------------------------------------------------- the outage rule

  /** The archives of before the last complete run, and the newest. */
  function OutageSurvivors(files: map<Name, int>, lastSuccess: u64, keep: Name): map<Name, int> {
    map n | n in files && (n == keep || Secs(files[n]) <= lastSuccess) :: files[n]
  }

  /** A pruning that may have been cut short: everything due to stay is there, unchanged. */
  ghost predicate Between(kept: map<Name, int>, after: map<Name, int>, before: map<Name, int>) {
    && kept.Keys <= after.Keys <= before.Keys
    && (forall n :: n in after ==> after[n] == before[n])
  }

  /** A removal loop under way: before index `i` only what is kept is left and nothing that had
      to go was stuck; from there on everything is still there. */
  ghost predicate Sweeping(before: map<Name, int>, after: map<Name, int>, kept: map<Name, int>,
                           files: seq<Archive>, i: nat, stuck: set<Name>)
    requires i <= |files|
  {
    && after.Keys <= before.Keys && (forall n :: n in after ==> after[n] == before[n])
    && (forall j :: 0 <= j < i ==> (files[j].name in after <==> files[j].name in kept))
    && (forall j :: 0 <= j < i && files[j].name in stuck ==> files[j].name in kept)
    && (forall j :: i <= j < |files| ==> files[j].name in after)
  }

  lemma ListingSize(listing: seq<Archive>, files: map<Name, int>)
    requires Lists(listing, files)
    ensures |listing| == |files|
  {
    DistinctNames(listing);
    assert NamesOf(listing) == files.Keys;
  }

  lemma SweepStarts(before: map<Name, int>, kept: map<Name, int>, files: seq<Archive>, stuck: set<Name>)
    requires Lists(files, before)
    ensures Sweeping(before, before, kept, files, 0, stuck)
  {
  }

  lemma SweepOn(before: map<Name, int>, after: map<Name, int>, kept: map<Name, int>, files: seq<Archive>, i: nat,
                stuck: set<Name>)
    requires Lists(files, before) && i < |files| && Sweeping(before, after, kept, files, i, stuck)
    requires files[i].name in kept || files[i].name !in stuck
    ensures Sweeping(before, if files[i].name in kept then after else after - {files[i].name}, kept, files, i + 1,
                     stuck)
  {
  }

  lemma SweepStops(before: map<Name, int>, after: map<Name, int>, kept: map<Name, int>, files: seq<Archive>, i: nat,
                   stuck: set<Name>)
    requires Lists(files, before) && i <= |files| && Sweeping(before, after, kept, files, i, stuck)
    requires kept.Keys <= before.Keys && (forall n :: n in kept ==> kept[n] == before[n])
    ensures Between(kept, after, before)
    ensures i < |files| && files[i].name !in kept && files[i].name in stuck ==> !(before.Keys * stuck <= kept.Keys)
    ensures i == |files| ==> after == kept && before.Keys * stuck <= kept.Keys
  {
    forall n | n in before
      ensures n in kept ==> n in after
      ensures i == |files| ==> (n in after <==> n in kept) && (n in stuck ==> n in kept)
    {
      var j :| 0 <= j < |files| && files[j] == Archive(n, before[n]);
    }
    if i < |files| && files[i].name !in kept && files[i].name in stuck {
      assert files[i].name in before.Keys * stuck;
    }
  }

  datatype Destination = Local | S3 | Both

  /** A backup run: its archive, the configuration, the retention clock's answer, the wall clock
      at the end, and what happened on the way: the status file could be read, the archive was
      built, the link to its name could be made if the name was free, and everything up to the
      flush after that went through.
      `stuck` are the archives that cannot be removed, and `budget` is how many writes, links and
      removals the process lives for. */
  datatype Run = Run(id: Name, created: int, destination: Destination, days: u64, count: u64,
                     allowAge: bool, effectiveAt: u64, now: u64,
                     readable: bool, built: bool, linked: bool, published: bool, uploaded: bool, remotePruned: bool,
                     stuck: set<Name>, budget: nat)
  {
    /** An unreadable status is replaced by an empty one before anything else. */
    function Recorded(lastSuccess: Option<u64>): Option<u64> { if readable then lastSuccess else None }

    /** The archive was built and took its name in the local root, */
    predicate Links(archives: map<Name, int>) { built && linked && id !in archives }

    /** for good. */
    predicate Publishes(archives: map<Name, int>) { Links(archives) && published }

    /** What a run that fails before that leaves: once the archive is built the cleanup removes
        whatever has its name, be it an older archive that had taken the name before. */
    function Unpublished(archives: map<Name, int>): map<Name, int> {
      if !built then archives
      else if linked && id !in archives then (if id in stuck then archives[id := created] else archives)
      else if id in stuck then archives else archives - {id}
    }

    /** Every copy the configuration asks for exists. */
    predicate Completes() { destination == Local || uploaded }

    function Retention(): Rule {
      var effective := if allowAge then days else 0;
      Rule(effective, count, Some(id), Cutoff(effectiveAt, effective))
    }

    /** What is due to stay of the local root once the archive has its name in it. With both
        destinations the local archives rotate only once the remote copy exists; until then only
        copies taken since the last complete run do, and by the ordinary rule if no such run is on
        record. */
    function Kept(taken: map<Name, int>, lastSuccess: Option<u64>): map<Name, int> {
      match destination
      case S3 => taken - {id}
      case Local => Survivors(taken, Retention())
      case Both =>
        if uploaded || lastSuccess.None? then Survivors(taken, Retention())
        else OutageSurvivors(taken, lastSuccess.value, id)
    }
  }

  /** How a pruning or a run ends: well, badly, or with its process. */
  datatype Outcome = Success | Failure | Died

  function Ended(ok: bool): Outcome { if ok then Success else Failure }

  class Backups {
    // The local root, and the recorded end of the last complete run.
    var archives: map<Name, int>
    var lastSuccess: Option<u64>
    // How many more durable steps this process lives for.
    var budget: nat

    constructor (archives: map<Name, int>, lastSuccess: Option<u64>)
      ensures this.archives == archives && this.lastSuccess == lastSuccess
    {
      this.archives, this.lastSuccess, budget := archives, lastSuccess, 0;
    }

    /** One durable step, or the end of the process. */
    method Live() returns (alive: bool)
      modifies this`budget
      ensures alive <==> old(budget) > 0
      ensures budget == if alive then old(budget) - 1 else 0
    {
      alive := budget > 0;
      if alive { budget := budget - 1; }
    }

    /** One archive removed, if it is there and can be. */
    method Remove(name: Name, stuck: set<Name>) returns (outcome: Outcome)
      modifies this`archives, this`budget
      ensures archives == if outcome.Success? then old(archives) - {name} else old(archives)
      ensures outcome.Failure? <==> name in stuck
      ensures outcome.Died? ==> budget == 0 == old(budget) && name in archives
      ensures budget + 1 >= old(budget)
    {
      if name in stuck { return Failure; }
      if name in archives {
        var alive := Live();
        if !alive { return Died; }
      }
      archives := archives - {name};
      outcome := Success;
    }

    /** `local_files`: the entries of the directory, in the directory's order. */
    method ListFiles() returns (listing: seq<Archive>)
      ensures Lists(listing, archives)
    {
      listing := [];
      var left, done := archives, map[];
      while left != map[]
        invariant left.Keys !! done.Keys && done + left == archives
        invariant Lists(listing, done)
        decreases left.Keys
      {
        var n :| n in left;
        ListOne(listing, done, n, left[n]);
        listing := listing + [Archive(n, left[n])];
        done, left := done[n := left[n]], left - {n};
      }
    }

    /** Sorts the listing and removes what the rule does not keep, up to the first archive that
        cannot be removed. */
    method PruneLocal(rule: Rule, stuck: set<Name>) returns (outcome: Outcome)
      modifies this`archives, this`budget
      ensures Prunes(old(archives), archives, Survivors(old(archives), rule), stuck, outcome)
      ensures budget + |old(archives)| >= old(budget)
      ensures outcome.Died? ==> budget == 0 && old(budget) < |old(archives)|
    {
      var listing := ListFiles();
      var files := SortBy(listing, Order(rule.protected));
      SortedListing(listing, archives, rule.protected);
      ListingSize(files, archives);
      ghost var before, kept := archives, Survivors(archives, rule);
      SweepStarts(before, kept, files, stuck);
      for index := 0 to |files|
        invariant Sweeping(before, archives, kept, files, index, stuck)
        invariant budget + index >= old(budget)
      {
        var a := files[index];
        Verdict(before, rule, files, index);
        SweepStops(before, archives, kept, files, index, stuck);
        if a.name in kept || a.name !in stuck { SweepOn(before, archives, kept, files, index, stuck); }
        if rule.protected != Some(a.name) {
          if (rule.days > 0 && a.created < rule.cutoff) || (rule.count > 0 && index >= rule.count) {
            outcome := Remove(a.name, stuck);
            if !outcome.Success? { return; }
          }
        }
      }
      SweepStops(before, archives, kept, files, |files|, stuck);
      outcome := Success;
    }

    /** `prune_outage_copies`. */
    method PruneOutageCopies(at: u64, keep: Name, stuck: set<Name>) returns (outcome: Outcome)
      modifies this`archives, this`budget
      ensures Prunes(old(archives), archives, OutageSurvivors(old(archives), at, keep), stuck, outcome)
      ensures budget + |old(archives)| >= old(budget)
      ensures outcome.Died? ==> budget == 0 && old(budget) < |old(archives)|
    {
      var files := ListFiles();
      ListingSize(files, archives);
      ghost var before, kept := archives, OutageSurvivors(archives, at, keep);
      SweepStarts(before, kept, files, stuck);
      for i := 0 to |files|
        invariant Sweeping(before, archives, kept, files, i, stuck)
        invariant budget + i >= old(budget)
      {
        var a := files[i];
        SweepStops(before, archives, kept, files, i, stuck);
        if a.name in kept || a.name !in stuck { SweepOn(before, archives, kept, files, i, stuck); }
        if a.name != keep && Secs(a.created) > at {
          outcome := Remove(a.name, stuck);
          if !outcome.Success? { return; }
        }
      }
      SweepStops(before, archives, kept, files, |files|, stuck);
      outcome := Success;
    }

    /** What rotates while the remote copy is missing. */
    method PruneInOutage(run: Run) returns (outcome: Outcome)
      requires run.destination == Both && !run.uploaded
      modifies this`archives, this`budget
      ensures Prunes(old(archives), archives, run.Kept(old(archives), lastSuccess), run.stuck, outcome)
      ensures budget + |old(archives)| >= old(budget)
      ensures outcome.Died? ==> budget == 0 && old(budget) < |old(archives)|
    {
      if lastSuccess.Some? {
        outcome := PruneOutageCopies(lastSuccess.value, run.id, run.stuck);
      } else {
        outcome := PruneLocal(run.Retention(), run.stuck);
      }
    }

    /** `run_inner`: publish, upload, rotate. */
    method RunInner(run: Run) returns (outcome: Outcome, complete: bool)
      modifies this`archives, this`budget
      ensures outcome.Died? ==> Leaves(old(archives), run, archives, lastSuccess)
      ensures outcome.Died? ==> budget == 0 && old(budget) < |old(archives)| + 2
      ensures budget + |old(archives)| + 2 >= old(budget)
      ensures !outcome.Died? && !run.Publishes(old(archives)) ==>
        outcome.Failure? && !complete && archives == run.Unpublished(old(archives))
      ensures !outcome.Died? && run.Publishes(old(archives)) ==>
        RunStep(old(archives)[run.id := run.created], archives, run, lastSuccess, outcome)
        && complete == run.Completes()
    {
      if !run.built { return Failure, false; }
      var linked := run.linked && run.id !in archives;
      if linked {
        var alive := Live();
        if !alive { return Died, false; }
        archives := archives[run.id := run.created];
      }
      if !linked || !run.published {
        outcome := Remove(run.id, run.stuck);
        return if outcome.Died? then Died else Failure, false;
      }
      match run.destination {
        case Local =>
          outcome := PruneLocal(run.Retention(), run.stuck);
          complete := true;
        case S3 =>
          outcome := Remove(run.id, run.stuck);
          complete := run.uploaded;
        case Both =>
          if !run.uploaded {
            outcome := PruneInOutage(run);
            return if outcome.Died? then Died else Failure, false;
          }
          outcome := PruneLocal(run.Retention(), run.stuck);
          complete := true;
      }
      if outcome.Success? && run.destination != Local { outcome := Ended(run.uploaded && run.remotePruned); }
    }

    /** `run_operation`: a run is recorded as a success once every copy asked for exists, even
        if pruning failed after that. */
    method RunOperation(run: Run) returns (outcome: Outcome)
      modifies this
      ensures Operates(old(Shelf(archives, lastSuccess)), run, Shelf(archives, lastSuccess), outcome)
    {
      budget := run.budget;
      var alive := Live();
      if !alive { return Died; }
      lastSuccess := run.Recorded(lastSuccess);
      var complete;
      outcome, complete := RunInner(run);
      if outcome.Died? { return; }
      alive := Live();
      if !alive { return Died; }
      if outcome.Success? || complete { lastSuccess := Some(run.now); }
    }
  }

  /** A pruning of `before` down to `kept`, that finishes unless something due to go is stuck or
      the process dies; what is due to stay always does. */
  ghost predicate Prunes(before: map<Name, int>, after: map<Name, int>, kept: map<Name, int>, stuck: set<Name>,
                         outcome: Outcome)
  {
    && Between(kept, after, before)
    && (outcome.Success? ==> after == kept && before.Keys * stuck <= kept.Keys)
    && (outcome.Failure? ==> !(before.Keys * stuck <= kept.Keys))
  }

  /** What a run that published its archive leaves of the local root, `taken` being what was
      there with the new archive. */
  ghost predicate RunStep(taken: map<Name, int>, after: map<Name, int>, run: Run, lastSuccess: Option<u64>,
                          outcome: Outcome)
  {
    var kept := run.Kept(taken, lastSuccess);
    var finished := taken.Keys * run.stuck <= kept.Keys;
    && Prunes(taken, after, kept, run.stuck, Ended(finished))
    && outcome == Ended(run.Completes() && finished && (run.destination == Local || run.remotePruned))
  }

  /** What a run whose process dies leaves of the local root: nothing new, what its cleanup left,
      or, once its archive has its name there, a rotation under way. */
  ghost predicate Leaves(archives: map<Name, int>, run: Run, after: map<Name, int>, lastSuccess: Option<u64>) {
    var taken := archives[run.id := run.created];
    || after == archives
    || after == run.Unpublished(archives)
    || (run.Links(archives) && Between(run.Kept(taken, lastSuccess), after, taken))
  }

  // ------------------------------------------------------------------------------ whole runs

  /** The local root and the record of success, before and after a run. */
  datatype Shelf = Shelf(archives: map<Name, int>, lastSuccess: Option<u64>)

  /** A run, which may die at any step, though not if it lives for enough of them. */
  ghost predicate Operates(s: Shelf, run: Run, t: Shelf, outcome: Outcome) {
    var recorded := run.Recorded(s.lastSuccess);
    if outcome.Died? then
      && run.budget < |s.archives| + 4
      && (t == s || (t.lastSuccess == recorded && Leaves(s.archives, run, t.archives, recorded)))
    else if !run.Publishes(s.archives) then
      outcome.Failure? && t == Shelf(run.Unpublished(s.archives), recorded)
    else
      && RunStep(s.archives[run.id := run.created], t.archives, run, recorded, outcome)
      && t.lastSuccess == if run.Completes() then Some(run.now) else recorded
  }

  /** Nothing that a run takes is lost by that run: a new local archive always stays, even if the
      process dies. */
  lemma NewArchiveStays(s: Shelf, run: Run, t: Shelf, outcome: Outcome)
    requires Operates(s, run, t, outcome) && run.destination != S3 && run.Publishes(s.archives)
    ensures outcome.Died? || (run.id in t.archives && t.archives[run.id] == run.created)
    ensures t.archives == s.archives || (run.id in t.archives && t.archives[run.id] == run.created)
  {
  }

  /** Runs one after the other, with what each leaves. */
  ghost predicate History(shelves: seq<Shelf>, runs: seq<Run>, outcomes: seq<Outcome>) {
    && |shelves| == |runs| + 1 && |outcomes| == |runs|
    && forall i :: 0 <= i < |runs| ==> Operates(shelves[i], runs[i], shelves[i + 1], outcomes[i])
  }

  /** Both destinations are asked for, the record is there to be read, and the upload fails or the
      process dies before that. */
  predicate Fails(run: Run) { run.destination == Both && !run.uploaded && run.readable }

  predicate AllFail(runs: seq<Run>) { forall i :: 0 <= i < |runs| ==> Fails(runs[i]) }

  /** No archive but `newest` was taken after `t`. */
  ghost predicate OnlyNewest(archives: map<Name, int>, t: u64, newest: Name) {
    forall n :: n in archives && Secs(archives[n]) > t ==> n == newest
  }

  /** Nothing that the outage rule wants gone is stuck. */
  ghost predicate Unobstructed(archives: map<Name, int>, run: Run, t: u64) {
    forall n :: n in archives && n in run.stuck ==> Secs(archives[n]) <= t
  }

  /** The run leaves no new archive: it never gets its name, or its cleanup takes it away again. */
  ghost predicate LeavesNothing(s: Shelf, run: Run, outcome: Outcome) {
    || !run.Links(s.archives)
    || (!outcome.Died? && !run.published && run.id !in run.stuck)
  }

  lemma FailingRun(s: Shelf, run: Run, t: Shelf, outcome: Outcome, at: u64)
    requires Fails(run) && s.lastSuccess == Some(at) && Operates(s, run, t, outcome)
    ensures t.lastSuccess == Some(at)
    ensures forall n :: n in s.archives && n != run.id && Secs(s.archives[n]) <= at ==>
      n in t.archives && t.archives[n] == s.archives[n]
    ensures !outcome.Died? && run.Publishes(s.archives) ==> run.id in t.archives
    ensures !outcome.Died? && run.Publishes(s.archives) && Unobstructed(s.archives, run, at) ==>
      OnlyNewest(t.archives, at, run.id)
    ensures LeavesNothing(s, run, outcome) ==> t.archives == s.archives || t.archives == s.archives - {run.id}
  {
  }

  /** A run that records no success: its upload fails, or its process dies first, even if the
      upload was done. */
  predicate Unrecorded(run: Run, outcome: Outcome) { run.readable && (Fails(run) || outcome.Died?) }

  /** With a complete run on record at `at`: however many runs fail to upload, and wherever
      processes die, the record stays. */
  lemma {:induction false} RecordStays(shelves: seq<Shelf>, runs: seq<Run>, outcomes: seq<Outcome>, at: u64, n: nat)
    requires History(shelves, runs, outcomes) && shelves[0].lastSuccess == Some(at) && n < |shelves|
    requires forall i :: 0 <= i < n ==> Unrecorded(runs[i], outcomes[i])
    ensures shelves[n].lastSuccess == Some(at)
  {
    if n > 0 {
      RecordStays(shelves, runs, outcomes, at, n - 1);
      assert Operates(shelves[n - 1], runs[n - 1], shelves[n], outcomes[n - 1]);
    }
  }

  lemma FailingStep(shelves: seq<Shelf>, runs: seq<Run>, outcomes: seq<Outcome>, at: u64, i: nat)
    requires History(shelves, runs, outcomes) && AllFail(runs) && shelves[0].lastSuccess == Some(at) && i < |runs|
    ensures Fails(runs[i]) && shelves[i].lastSuccess == Some(at)
    ensures Operates(shelves[i], runs[i], shelves[i + 1], outcomes[i])
  {
    RecordStays(shelves, runs, outcomes, at, i);
  }

  /** In a remote outage, wherever processes die, no archive of before it is lost, unless a run
      builds one of the same name, */
  lemma {:induction false} OldArchivesSurvive(shelves: seq<Shelf>, runs: seq<Run>, outcomes: seq<Outcome>, at: u64,
                                              n: nat, name: Name)
    requires History(shelves, runs, outcomes) && AllFail(runs) && shelves[0].lastSuccess == Some(at) && n < |shelves|
    requires name in shelves[0].archives && Secs(shelves[0].archives[name]) <= at
    requires forall i :: 0 <= i < n ==> runs[i].id != name
    ensures name in shelves[n].archives && shelves[n].archives[name] == shelves[0].archives[name]
  {
    if n > 0 {
      OldArchivesSurvive(shelves, runs, outcomes, at, n - 1, name);
      FailingStep(shelves, runs, outcomes, at, n - 1);
      FailingRun(shelves[n - 1], runs[n - 1], shelves[n], outcomes[n - 1], at);
    }
  }

  lemma QuietStep(shelves: seq<Shelf>, runs: seq<Run>, outcomes: seq<Outcome>, at: u64, i: nat, newest: Name)
    requires History(shelves, runs, outcomes) && AllFail(runs) && shelves[0].lastSuccess == Some(at) && i < |runs|
    requires LeavesNothing(shelves[i], runs[i], outcomes[i]) && OnlyNewest(shelves[i].archives, at, newest)
    ensures OnlyNewest(shelves[i + 1].archives, at, newest)
    ensures newest in shelves[i].archives && runs[i].id != newest ==> newest in shelves[i + 1].archives
  {
    FailingStep(shelves, runs, outcomes, at, i);
    FailingRun(shelves[i], runs[i], shelves[i + 1], outcomes[i], at);
  }

  lemma PublishingStep(shelves: seq<Shelf>, runs: seq<Run>, outcomes: seq<Outcome>, at: u64, k: nat)
    requires History(shelves, runs, outcomes) && AllFail(runs) && shelves[0].lastSuccess == Some(at) && k < |runs|
    requires runs[k].Publishes(shelves[k].archives) && Unobstructed(shelves[k].archives, runs[k], at)
    requires !outcomes[k].Died?
    ensures OnlyNewest(shelves[k + 1].archives, at, runs[k].id) && runs[k].id in shelves[k + 1].archives
  {
    FailingStep(shelves, runs, outcomes, at, k);
    FailingRun(shelves[k], runs[k], shelves[k + 1], outcomes[k], at);
  }

  /** and if run `k` published and nothing obstructed or cut short its pruning, and no run since
      left an archive, only its archive is kept of those taken since. */
  lemma {:induction false} OnlyNewestIsKept(shelves: seq<Shelf>, runs: seq<Run>, outcomes: seq<Outcome>, at: u64,
                                            k: nat, n: nat)
    requires History(shelves, runs, outcomes) && AllFail(runs) && shelves[0].lastSuccess == Some(at)
    requires k < n < |shelves| && !outcomes[k].Died?
    requires runs[k].Publishes(shelves[k].archives) && Unobstructed(shelves[k].archives, runs[k], at)
    requires forall i :: k < i < n ==> LeavesNothing(shelves[i], runs[i], outcomes[i])
    ensures OnlyNewest(shelves[n].archives, at, runs[k].id)
    ensures (forall i :: k < i < n ==> runs[i].id != runs[k].id) ==> runs[k].id in shelves[n].archives
  {
    if n - 1 > k {
      OnlyNewestIsKept(shelves, runs, outcomes, at, k, n - 1);
      QuietStep(shelves, runs, outcomes, at, n - 1, runs[k].id);
    } else {
      PublishingStep(shelves, runs, outcomes, at, k);
    }
  }

  /** The restore point an outage must not rotate away: the archive of the last complete run,
      unless its clock ran ahead of the record or a run builds one of the same name, is there
      after any number of failing runs. */
  lemma CompleteRunSurvives(shelves: seq<Shelf>, runs: seq<Run>, outcomes: seq<Outcome>, n: nat)
    requires History(shelves, runs, outcomes) && runs != [] && 0 < n < |shelves| && !outcomes[0].Died?
    requires runs[0].destination == Both && runs[0].uploaded && runs[0].Publishes(shelves[0].archives)
    requires Secs(runs[0].created) <= runs[0].now
    requires forall i :: 0 < i < n ==> Fails(runs[i]) && runs[i].id != runs[0].id
    ensures shelves[n].lastSuccess == Some(runs[0].now)
    ensures runs[0].id in shelves[n].archives && shelves[n].archives[runs[0].id] == runs[0].created
  {
    var id, at := runs[0].id, runs[0].now;
    assert Operates(shelves[0], runs[0], shelves[1], outcomes[0]);
    var since, later, results := shelves[1..n + 1], runs[1..n], outcomes[1..n];
    forall i | 0 <= i < |later| ensures Operates(since[i], later[i], since[i + 1], results[i]) {
      assert Operates(shelves[i + 1], runs[i + 1], shelves[i + 2], outcomes[i + 1]);
    }
    RecordStays(since, later, results, at, n - 1);
    OldArchivesSurvive(since, later, results, at, n - 1, id);
  }

  /** The runs themselves. */
  method RunAll(b: Backups, runs: seq<Run>) returns (outcomes: seq<Outcome>, ghost shelves: seq<Shelf>)
    modifies b
    ensures History(shelves, runs, outcomes)
    ensures shelves[0] == old(Shelf(b.archives, b.lastSuccess)) && shelves[|runs|] == Shelf(b.archives, b.lastSuccess)
  {
    outcomes, shelves := [], [Shelf(b.archives, b.lastSuccess)];
    for i := 0 to |runs|
      invariant |outcomes| == i && |shelves| == i + 1
      invariant shelves[0] == old(Shelf(b.archives, b.lastSuccess)) && shelves[i] == Shelf(b.archives, b.lastSuccess)
      invariant forall j :: 0 <= j < i ==> Operates(shelves[j], runs[j], shelves[j + 1], outcomes[j])
    {
      var outcome := b.RunOperation(runs[i]);
      outcomes, shelves := outcomes + [outcome], shelves + [Shelf(b.archives, b.lastSuccess)];
    }
  }
}
