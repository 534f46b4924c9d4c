/** `prune` of `scripts/backup_data.py` run after run: each run lists the folder anew, in whatever
    order, and what stays in the end does not depend on the runs before as long as no two backups
    have one stamp. */
module PruneRuns {
  import opened Sequences
  import opened Retention

  type Entries = map<string, Folder>

  // ------------------------------------------------------------ other ranks, the same choice

  function Image(s: set<nat>, f: nat -> nat): set<nat> { set x | x in s :: f(x) }

  /** New ranks in the same order and the same months. */
  ghost predicate Renames(s: set<nat>, f: nat -> nat) {
    && (forall x, y :: x in s && y in s && x < y ==> f(x) < f(y))
    && (forall x :: x in s ==> Month(f(x)) == Month(x))
  }

  lemma {:induction false} ImageCount(s: set<nat>, f: nat -> nat)
    requires Renames(s, f)
    ensures |Image(s, f)| == |s|
  {
    if s != {} {
      var x :| x in s;
      ImageCount(s - {x}, f);
      assert Image(s, f) == Image(s - {x}, f) + {f(x)};
      forall y | y in s - {x} ensures f(y) != f(x) { assert x < y || y < x; }
    } else {
      assert Image(s, f) == {};
    }
  }

  lemma AboveImage(s: set<nat>, f: nat -> nat, x: nat)
    requires Renames(s, f) && x in s
    ensures Above(Image(s, f), f(x)) == Image(Above(s, x), f)
    ensures |Above(Image(s, f), f(x))| == |Above(s, x)|
  {
    forall y | y in s ensures f(y) > f(x) <==> y > x { assert x < y || y < x || x == y; }
    ImageCount(Above(s, x), f);
  }

  lemma MonthsImage(s: set<nat>, f: nat -> nat)
    requires Renames(s, f)
    ensures Months(Image(s, f)) == Months(s)
  {
    forall m | m in Months(s) ensures m in Months(Image(s, f)) {
      var x :| x in s && Month(x) == m;
      assert f(x) in Image(s, f);
    }
  }

  lemma NewestImage(s: set<nat>, f: nat -> nat, x: nat)
    requires Renames(s, f) && x in s
    ensures NewestOfMonth(Image(s, f), f(x)) <==> NewestOfMonth(s, x)
  {
    forall y | y in s ensures f(y) > f(x) <==> y > x { assert x < y || y < x || x == y; }
    if !NewestOfMonth(s, x) {
      var y :| y in s && y > x && Month(y) == Month(x);
      assert f(y) in Image(s, f);
    }
  }

  /** What the policy keeps depends on the order and the months alone. */
  lemma KeepRenamed(p: Policy, s: set<nat>, f: nat -> nat, x: nat)
    requires Renames(s, f) && x in s
    ensures f(x) in p.Keep(Image(s, f)) <==> x in p.Keep(s)
  {
    AboveImage(s, f, x);
    MonthsImage(s, f);
    NewestImage(s, f, x);
  }

  // ------------------------------------------------------------ ranks by stamp alone

  function StampRank(f: Folder): nat
    requires IsBackup(f)
  {
    Rank(f.stamp.value, TIES - 1)
  }

  function StampRanks(e: Entries): set<nat> { set n | n in e && IsBackup(e[n]) :: StampRank(e[n]) }

  ghost predicate DistinctStamps(e: Entries) {
    forall n, k :: n in e && k in e && IsBackup(e[n]) && IsBackup(e[k]) && e[n].stamp == e[k].stamp ==> n == k
  }

  function Floor(rank: nat): nat { rank - rank % TIES }

  lemma FloorMeans(a: nat, i: nat)
    requires i < TIES
    ensures Floor(Rank(a, i)) == Rank(a, TIES - 1)
  {
  }

  /** What stays when the policy goes by the stamps. */
  ghost function ByStamp(e: Entries, p: Policy): Entries {
    map n | n in e && (IsBackup(e[n]) ==> StampRank(e[n]) in p.Keep(StampRanks(e))) :: e[n]
  }

  lemma RanksFloor(e: Entries, listing: seq<string>)
    requires Lists(listing, e)
    ensures Image(Ranks(e, listing), Floor) == StampRanks(e)
  {
    forall i: nat | BackupAt(e, listing, i) ensures Floor(RankAt(e, listing, i)) == StampRank(e[listing[i]]) {
      FloorMeans(e[listing[i]].stamp.value, i);
    }
    forall n | n in e && IsBackup(e[n]) ensures StampRank(e[n]) in Image(Ranks(e, listing), Floor) {
      assert n in listing;
      var i: nat :| i < |listing| && listing[i] == n;
      assert BackupAt(e, listing, i) && RankAt(e, listing, i) in Ranks(e, listing);
    }
  }

  lemma FloorRenames(e: Entries, listing: seq<string>)
    requires Lists(listing, e) && DistinctStamps(e)
    ensures Renames(Ranks(e, listing), Floor)
  {
    forall x, y | x in Ranks(e, listing) && y in Ranks(e, listing) && x < y ensures Floor(x) < Floor(y) {
      RankListed(e, listing, x);
      RankListed(e, listing, y);
      FloorGrows(e, listing, PlaceOf(x), PlaceOf(y));
    }
    forall x | x in Ranks(e, listing) ensures Month(Floor(x)) == Month(x) {
      RankListed(e, listing, x);
      var a, i := e[listing[PlaceOf(x)]].stamp.value, PlaceOf(x);
      FloorMeans(a, i);
      RankMeans(a, i, 0, 0);
      RankMeans(a, TIES - 1, 0, 0);
    }
  }

  lemma FloorGrows(e: Entries, listing: seq<string>, i: nat, j: nat)
    requires Lists(listing, e) && DistinctStamps(e) && BackupAt(e, listing, i) && BackupAt(e, listing, j)
    requires RankAt(e, listing, i) < RankAt(e, listing, j)
    ensures Floor(RankAt(e, listing, i)) < Floor(RankAt(e, listing, j))
  {
    var a, b := e[listing[i]].stamp.value, e[listing[j]].stamp.value;
    RankMeans(b, j, a, i);
    RankMeans(b, TIES - 1, a, TIES - 1);
    FloorMeans(a, i);
    FloorMeans(b, j);
    StampsDiffer(e, listing, i, j);
  }

  lemma StampsDiffer(e: Entries, listing: seq<string>, i: nat, j: nat)
    requires Lists(listing, e) && DistinctStamps(e) && BackupAt(e, listing, i) && BackupAt(e, listing, j) && i != j
    ensures e[listing[i]].stamp != e[listing[j]].stamp
  {
    assert listing[i] != listing[j];
  }

  /** With a stamp for each, the listing does not matter. */
  lemma LeftIsByStamp(e: Entries, listing: seq<string>, p: Policy)
    requires Lists(listing, e) && DistinctStamps(e)
    ensures Left(e, listing, p) == ByStamp(e, p)
  {
    FloorRenames(e, listing);
    RanksFloor(e, listing);
    forall n | n in e && IsBackup(e[n])
      ensures Stays(e, listing, p, n) <==> StampRank(e[n]) in p.Keep(StampRanks(e))
    {
      StaysByStamp(e, listing, p, n);
    }
  }

  lemma StaysByStamp(e: Entries, listing: seq<string>, p: Policy, n: string)
    requires Lists(listing, e) && n in e && IsBackup(e[n])
    requires Renames(Ranks(e, listing), Floor) && Image(Ranks(e, listing), Floor) == StampRanks(e)
    ensures Stays(e, listing, p, n) <==> StampRank(e[n]) in p.Keep(StampRanks(e))
  {
    var i := PlaceIn(listing, n);
    var rank := RankAt(e, listing, i);
    assert rank in Ranks(e, listing);
    KeepRenamed(p, Ranks(e, listing), Floor, rank);
    FloorMeans(e[n].stamp.value, i);
    StaysAt(e, listing, p, i);
  }

  lemma PlaceIn(listing: seq<string>, n: string) returns (i: nat)
    requires n in listing
    ensures i < |listing| && listing[i] == n
  {
    i :| 0 <= i < |listing| && listing[i] == n;
  }

  lemma StaysAt(e: Entries, listing: seq<string>, p: Policy, i: nat)
    requires Lists(listing, e) && BackupAt(e, listing, i)
    ensures Stays(e, listing, p, listing[i]) <==> RankAt(e, listing, i) in p.Keep(Ranks(e, listing))
  {
    if RankAt(e, listing, i) !in p.Keep(Ranks(e, listing)) { GoesAt(e, listing, p, i); }
  }

  // ------------------------------------------------------------ run after run

  lemma StampRankIsStamp(f: Folder, g: Folder)
    requires IsBackup(f) && IsBackup(g) && StampRank(f) == StampRank(g)
    ensures f.stamp == g.stamp
  {
    RankMeans(f.stamp.value, TIES - 1, g.stamp.value, TIES - 1);
    RankMeans(g.stamp.value, TIES - 1, f.stamp.value, TIES - 1);
  }

  lemma FewerStamps(e: Entries, less: Entries)
    requires DistinctStamps(e) && forall n :: n in less ==> n in e && less[n] == e[n]
    ensures DistinctStamps(less)
  {
  }

  /** What happens to the folder: an entry is added, or `prune` runs and lists the entries its way. */
  datatype Happening = Added(name: string, folder: Folder) | Pruning(listing: seq<string>)

  ghost function Folders(p: Policy, history: seq<Happening>): Entries
    requires Happens(p, history)
    decreases |history|, 1
  {
    if history == [] then map[] else
      var before := Folders(p, history[..|history| - 1]);
      match history[|history| - 1]
      case Added(name, folder) => before[name := folder]
      case Pruning(listing) => Left(before, listing, p)
  }

  function EverAdded(history: seq<Happening>): Entries {
    if history == [] then map[] else
      var before := EverAdded(history[..|history| - 1]);
      match history[|history| - 1]
      case Added(name, folder) => before[name := folder]
      case Pruning(_) => before
  }

  /** Every name is new, and every listing lists what is there. */
  ghost predicate Happens(p: Policy, history: seq<Happening>)
    decreases |history|, 0
  {
    history == [] ||
    (var init := history[..|history| - 1];
     && Happens(p, init)
     && match history[|history| - 1]
        case Added(name, _) => name !in EverAdded(init)
        case Pruning(listing) => Lists(listing, Folders(p, init)))
  }

  /** The same on the ranks: only a backup has one. */
  function RankEvents(history: seq<Happening>): seq<Event> {
    if history == [] then [] else
      RankEvents(history[..|history| - 1]) +
      match history[|history| - 1]
      case Added(_, folder) => if IsBackup(folder) then [Made(StampRank(folder))] else []
      case Pruning(_) => [Pruned]
  }

  lemma RanksOfMore(e: Entries, name: string, folder: Folder)
    requires name !in e
    ensures StampRanks(e[name := folder]) == StampRanks(e) + if IsBackup(folder) then {StampRank(folder)} else {}
  {
    var more := e[name := folder];
    assert forall n :: n in e ==> more[n] == e[n];
    if IsBackup(folder) { assert more[name] == folder && StampRank(more[name]) in StampRanks(more); }
    forall n | n in e && IsBackup(e[n]) ensures StampRank(e[n]) in StampRanks(more) {
      assert more[n] == e[n];
    }
  }

  lemma RanksOfByStamp(e: Entries, p: Policy)
    ensures StampRanks(ByStamp(e, p)) == p.Keep(StampRanks(e))
  {
    forall x | x in p.Keep(StampRanks(e)) ensures x in StampRanks(ByStamp(e, p)) {
      var n :| n in e && IsBackup(e[n]) && StampRank(e[n]) == x;
      assert n in ByStamp(e, p);
    }
  }

  lemma EventsSnoc(p: Policy, events: seq<Event>, e: Event)
    ensures OnDisk(p, events + [e]) == match e { case Made(rank) => OnDisk(p, events) + {rank}
                                                 case Pruned => p.Keep(OnDisk(p, events)) }
    ensures EverMade(events + [e]) == EverMade(events) + if e.Made? then {e.rank} else {}
  {
    assert (events + [e])[..|events|] == events;
  }

  /** What is there was added, nothing but backups ever went, and the ranks follow the policy. */
  lemma {:induction false} FoldersFollow(p: Policy, history: seq<Happening>)
    requires Happens(p, history) && DistinctStamps(EverAdded(history))
    ensures var there, ever := Folders(p, history), EverAdded(history);
            && (forall n :: n in there ==> n in ever && there[n] == ever[n])
            && (forall n :: n in ever && !IsBackup(ever[n]) ==> n in there)
            && StampRanks(there) == OnDisk(p, RankEvents(history))
            && StampRanks(ever) == EverMade(RankEvents(history))
  {
    if history != [] {
      var init, last := history[..|history| - 1], history[|history| - 1];
      var there, ever := Folders(p, init), EverAdded(init);
      FewerStamps(EverAdded(history), ever);
      FoldersFollow(p, init);
      match last {
        case Added(name, folder) =>
          RanksOfMore(there, name, folder);
          RanksOfMore(ever, name, folder);
          if IsBackup(folder) { EventsSnoc(p, RankEvents(init), Made(StampRank(folder))); }
          else { assert RankEvents(init) + [] == RankEvents(init); }
        case Pruning(listing) =>
          FewerStamps(ever, there);
          LeftIsByStamp(there, listing, p);
          RanksOfByStamp(there, p);
          EventsSnoc(p, RankEvents(init), Pruned);
      }
    }
  }

  /** However often and whenever `prune` ran before and in whatever order it found the entries, the next
      run leaves what a single run over everything ever added would leave, provided that no two backups
      ever added have one stamp. */
  lemma AnyHistory(p: Policy, history: seq<Happening>, now: seq<string>, once: seq<string>)
    requires Happens(p, history) && DistinctStamps(EverAdded(history))
    requires Lists(now, Folders(p, history)) && Lists(once, EverAdded(history))
    ensures Left(Folders(p, history), now, p) == Left(EverAdded(history), once, p)
  {
    var there, ever := Folders(p, history), EverAdded(history);
    FoldersFollow(p, history);
    FewerStamps(ever, there);
    LeftIsByStamp(there, now, p);
    LeftIsByStamp(ever, once, p);
    AnySchedule(p, RankEvents(history));
    SameByStamp(p, there, ever);
  }

  lemma SameByStamp(p: Policy, there: Entries, ever: Entries)
    requires DistinctStamps(ever) && forall n :: n in there ==> n in ever && there[n] == ever[n]
    requires forall n :: n in ever && !IsBackup(ever[n]) ==> n in there
    requires p.Keep(StampRanks(there)) == p.Keep(StampRanks(ever))
    ensures ByStamp(there, p) == ByStamp(ever, p)
  {
    forall n | n in ByStamp(ever, p) ensures n in there {
      if IsBackup(ever[n]) {
        assert StampRank(ever[n]) in StampRanks(there);
        var k :| k in there && IsBackup(there[k]) && StampRank(there[k]) == StampRank(ever[n]);
        StampRankIsStamp(there[k], ever[n]);
      }
    }
  }

  // ------------------------------------------------------------ two backups of one stamp

  lemma {:induction false} SomeOrder(names: set<string>) returns (listing: seq<string>)
    ensures NoRepeats(listing) && |listing| == |names| && forall n :: n in listing <==> n in names
  {
    if names == {} {
      listing := [];
    } else {
      var n :| n in names;
      var rest := SomeOrder(names - {n});
      NoRepeatsConcat([n], rest);
      listing := [n] + rest;
    }
  }

  lemma SomeListing(e: Entries) returns (listing: seq<string>)
    requires |e| <= TIES
    ensures Lists(listing, e)
  {
    listing := SomeOrder(e.Keys);
    assert |e.Keys| == |e|;
  }

  /** A listing that begins with these two. */
  function Leading(n: string, k: string, rest: seq<string>): seq<string> { [n, k] + rest }

  /** Listed first, `n` is kept and `k` is not, if the policy keeps just the newer ones and one more. */
  lemma FirstStays(e: Entries, n: string, k: string, rest: seq<string>, p: Policy)
    requires Lists(Leading(n, k, rest), e) && n in e && k in e && n != k
    requires IsBackup(e[n]) && IsBackup(e[k]) && e[n].stamp == e[k].stamp
    requires var all := Ranks(e, Leading(n, k, rest));
             p == Policy(|Above(all, Rank(e[n].stamp.value, 0))| + 1, 0)
    ensures n in Left(e, Leading(n, k, rest), p) && k !in Left(e, Leading(n, k, rest), p)
  {
    var l, a := Leading(n, k, rest), e[n].stamp.value;
    var all := Ranks(e, l);
    var first, second := Rank(a, 0), Rank(a, 1);
    assert BackupAt(e, l, 0) && RankAt(e, l, 0) == first && BackupAt(e, l, 1) && RankAt(e, l, 1) == second;
    assert first in all && second in all;
    RankMeans(a, 0, a, 1);
    Smaller(Above(all, first) + {first}, Above(all, second));
    assert |Above(all, first) + {first}| == |Above(all, first)| + 1;
    assert p.Recent(all, first) && !p.Recent(all, second) && !p.Monthly(all, second);
    assert first in p.Keep(all) && second !in p.Keep(all);
  }

  lemma SameAbove(e: Entries, n: string, k: string, rest: seq<string>)
    requires Lists(Leading(n, k, rest), e) && Lists(Leading(k, n, rest), e) && n in e && k in e
    requires IsBackup(e[n]) && IsBackup(e[k]) && e[n].stamp == e[k].stamp
    ensures var first := Rank(e[n].stamp.value, 0);
            Above(Ranks(e, Leading(n, k, rest)), first) == Above(Ranks(e, Leading(k, n, rest)), first)
  {
    AboveWithin(e, n, k, rest);
    AboveWithin(e, k, n, rest);
  }

  lemma AboveWithin(e: Entries, n: string, k: string, rest: seq<string>)
    requires Lists(Leading(n, k, rest), e) && |Leading(k, n, rest)| <= TIES && n in e && k in e
    requires IsBackup(e[n]) && IsBackup(e[k]) && e[n].stamp == e[k].stamp
    ensures var first := Rank(e[n].stamp.value, 0);
            Above(Ranks(e, Leading(n, k, rest)), first) <= Above(Ranks(e, Leading(k, n, rest)), first)
  {
    var l, m, a := Leading(n, k, rest), Leading(k, n, rest), e[n].stamp.value;
    forall x | x in Above(Ranks(e, l), Rank(a, 0)) ensures x in Ranks(e, m) {
      var i: nat :| i < |l| && BackupAt(e, l, i) && RankAt(e, l, i) == x;
      RankMeans(a, i, a, 0);
      assert i > 1;
      assert m[i] == l[i] && BackupAt(e, m, i) && RankAt(e, m, i) == x;
    }
  }

  /** Two backups of one stamp: under some policy it is the listing that decides which of them stays. */
  lemma TieMatters(e: Entries, n: string, k: string) returns (p: Policy, l: seq<string>, m: seq<string>)
    requires |e| <= TIES && n in e && k in e && n != k
    requires IsBackup(e[n]) && IsBackup(e[k]) && e[n].stamp == e[k].stamp
    ensures p.daily >= 1 && Lists(l, e) && Lists(m, e) && Left(e, l, p) != Left(e, m, p)
  {
    var rest := SomeOrder(e.Keys - {n, k});
    l, m := Leading(n, k, rest), Leading(k, n, rest);
    LeadingLists(e, n, k, rest);
    LeadingLists(e, k, n, rest);
    p := Policy(|Above(Ranks(e, l), Rank(e[n].stamp.value, 0))| + 1, 0);
    SameAbove(e, n, k, rest);
    FirstStays(e, n, k, rest, p);
    FirstStays(e, k, n, rest, p);
  }

  lemma LeadingLists(e: Entries, n: string, k: string, rest: seq<string>)
    requires |e| <= TIES && n in e && k in e && n != k
    requires NoRepeats(rest) && |rest| == |e.Keys - {n, k}| && forall x :: x in rest <==> x in e.Keys - {n, k}
    ensures Lists(Leading(n, k, rest), e)
  {
    NoRepeatsConcat([n, k], rest);
    assert |e.Keys - {n, k}| == |e.Keys| - |{n, k}|;
  }

  // ------------------------------------------------------------ two runs or one

  lemma RanksOfBoth(a: Entries, b: Entries)
    requires a.Keys !! b.Keys
    ensures StampRanks(a + b) == StampRanks(a) + StampRanks(b)
  {
    forall n | n in a && IsBackup(a[n]) ensures StampRank(a[n]) in StampRanks(a + b) { assert (a + b)[n] == a[n]; }
    forall n | n in b && IsBackup(b[n]) ensures StampRank(b[n]) in StampRanks(a + b) { assert (a + b)[n] == b[n]; }
  }

  lemma TwoRunsByStamp(a: Entries, b: Entries, p: Policy)
    requires a.Keys !! b.Keys && DistinctStamps(a + b)
    ensures ByStamp(ByStamp(a, p) + b, p) == ByStamp(a + b, p)
  {
    RanksOfBoth(a, b);
    RanksOfBoth(ByStamp(a, p), b);
    RanksOfByStamp(a, p);
    PathIndependent(p, StampRanks(a), StampRanks(b));
    SameByStamp(p, ByStamp(a, p) + b, a + b);
  }

  lemma TwoRunsAreOne(a: Entries, b: Entries, p: Policy, first: seq<string>, second: seq<string>, once: seq<string>)
    requires a.Keys !! b.Keys && DistinctStamps(a + b)
    requires TwoRuns(a, b, p, first, second, once)
    ensures Left(Left(a, first, p) + b, second, p) == Left(a + b, once, p)
  {
    FewerStamps(a + b, a);
    LeftIsByStamp(a, first, p);
    FewerStamps(a + b, Left(a, first, p) + b);
    LeftIsByStamp(Left(a, first, p) + b, second, p);
    LeftIsByStamp(a + b, once, p);
    TwoRunsByStamp(a, b, p);
  }

  /** `prune` runs, entries are added, and it runs again; or it runs once, on all of them. */
  ghost predicate TwoRuns(a: Entries, b: Entries, p: Policy, first: seq<string>, second: seq<string>,
                          once: seq<string>) {
    p.daily >= 1 && Lists(first, a) && Lists(second, Left(a, first, p) + b) && Lists(once, a + b)
  }

  /** Pruning, adding entries and pruning again leaves what one prune at the end leaves, under every policy
      and whatever the listings, if and only if no two of the backups have one stamp. */
  lemma TwoRunsAreOneIff(a: Entries, b: Entries)
    requires a.Keys !! b.Keys && |a + b| <= TIES
    ensures DistinctStamps(a + b)
       <==> forall p, first, second, once :: TwoRuns(a, b, p, first, second, once) ==>
              Left(Left(a, first, p) + b, second, p) == Left(a + b, once, p)
  {
    if DistinctStamps(a + b) {
      forall p, first, second, once | TwoRuns(a, b, p, first, second, once)
        ensures Left(Left(a, first, p) + b, second, p) == Left(a + b, once, p)
      {
        TwoRunsAreOne(a, b, p, first, second, once);
      }
    } else {
      var p, first, second, once := TiedRuns(a, b);
    }
  }

  lemma TiedRuns(a: Entries, b: Entries)
    returns (p: Policy, first: seq<string>, second: seq<string>, once: seq<string>)
    requires a.Keys !! b.Keys && |a + b| <= TIES && !DistinctStamps(a + b)
    ensures TwoRuns(a, b, p, first, second, once)
    ensures Left(Left(a, first, p) + b, second, p) != Left(a + b, once, p)
  {
    var e := a + b;
    var n, k :| n in e && k in e && IsBackup(e[n]) && IsBackup(e[k]) && e[n].stamp == e[k].stamp && n != k;
    var l, m;
    p, l, m := TieMatters(e, n, k);
    Fewer(a, e);
    first := SomeListing(a);
    Fewer(Left(a, first, p) + b, e);
    second := SomeListing(Left(a, first, p) + b);
    once := if Left(Left(a, first, p) + b, second, p) == Left(e, l, p) then m else l;
  }

  lemma Fewer(less: Entries, e: Entries)
    requires less.Keys <= e.Keys
    ensures |less| <= |e|
  {
    Smaller(less.Keys, e.Keys);
    assert |less| == |less.Keys| && |e| == |e.Keys|;
  }
}
