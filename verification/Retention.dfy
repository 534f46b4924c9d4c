/** Retention of `scripts/backup_data.py`: which backups `prune` keeps.

    A backup's stamp is a count of microseconds in which every month is given 31 days, so that the
    stamps of one month are together and later stamps are larger. Its rank counts finer: backups
    with one stamp, which sorting leaves in the order the folder lists them, have ranks of their own. */
module Retention {
  import opened Sequences

  const MONTH: nat := 31 * 24 * 60 * 60 * 1_000_000

  /** More than any folder has entries. */
  const TIES: nat := 1_000_000_000_000_000_000

  const PERIOD: nat := 31 * 24 * 60 * 60 * 1_000_000 * 1_000_000_000_000_000_000

  function Rank(stamp: nat, place: nat): nat
    requires place < TIES
  {
    stamp * TIES + (TIES - 1 - place)
  }

  function PlaceOf(rank: nat): nat { TIES - 1 - rank % TIES }

  function Month(rank: nat): nat { rank / PERIOD }

  /** Ranks order backups by stamp, the first listed of equal stamps before the others; a rank shows
      the place and has the month of its stamp. */
  lemma RankMeans(a: nat, i: nat, b: nat, j: nat)
    requires i < TIES && j < TIES
    ensures Rank(a, i) > Rank(b, j) <==> a > b || (a == b && i < j)
    ensures PlaceOf(Rank(a, i)) == i && Month(Rank(a, i)) == a / MONTH
  {
    MonthOfRank(a, TIES - 1 - i);
  }

  lemma MonthOfRank(a: nat, tie: nat)
    requires tie < TIES
    ensures (a * TIES + tie) / PERIOD == a / MONTH
  {
    var m, rest := a / MONTH, a % MONTH;
    assert a * TIES + tie == m * PERIOD + (rest * TIES + tie);
    assert rest * TIES + tie < PERIOD;
  }

  lemma MonthsFollowStamps(a: nat, b: nat)
    requires a <= b
    ensures Month(a) <= Month(b)
  {}

  function Months(s: set<nat>): set<nat> { set x | x in s :: Month(x) }

  /** The members of `s` beyond `x`: the newer backups, or the later months. */
  function Above(s: set<nat>, x: nat): set<nat> { set y | y in s && y > x }

  predicate NewestOfMonth(s: set<nat>, b: nat) {
    forall x :: x in s && x > b ==> Month(x) != Month(b)
  }

  /** How many to keep: the newest `daily`, and the newest of each of the last `monthly` months. */
  datatype Policy = Policy(daily: nat, monthly: nat) {

    predicate Recent(s: set<nat>, b: nat) { |Above(s, b)| < daily }

    predicate Monthly(s: set<nat>, b: nat) {
      NewestOfMonth(s, b) && |Above(Months(s), Month(b))| < monthly
    }

    /** The backups that stay. */
    function Keep(s: set<nat>): set<nat> {
      set b | b in s && (Recent(s, b) || Monthly(s, b))
    }
  }

  // ------------------------------------------------------------ counting from the top

  lemma {:induction false} Least(s: set<nat>) returns (x: nat)
    requires s != {}
    ensures x in s && forall y :: y in s ==> x <= y
  {
    var z :| z in s;
    var rest := s - {z};
    if rest == {} {
      assert s == {z};
      x := z;
    } else {
      var y := Least(rest);
      x := if y < z then y else z;
      assert s == rest + {z};
    }
  }

  lemma {:induction false} Greatest(s: set<nat>) returns (x: nat)
    requires s != {}
    ensures x in s && forall y :: y in s ==> y <= x
  {
    var z :| z in s;
    var rest := s - {z};
    if rest == {} {
      assert s == {z};
      x := z;
    } else {
      var y := Greatest(rest);
      x := if y > z then y else z;
      assert s == rest + {z};
    }
  }

  /** The first `n` members of `s` from the top. */
  function Top(s: set<nat>, n: nat): set<nat> { set y | y in s && |Above(s, y)| < n }

  lemma TopAtMost(s: set<nat>, n: nat)
    ensures |Top(s, n)| <= n
  {
    if Top(s, n) != {} {
      var x := Least(Top(s, n));
      Smaller(Top(s, n) - {x}, Above(s, x));
    }
  }

  /** If `n` members lie beyond `x`, then so do the first `n` from the top. */
  lemma {:induction false} TopIsAbove(s: set<nat>, x: nat, n: nat)
    requires |Above(s, x)| >= n
    ensures |Above(s, x) * Top(s, n)| >= n
    decreases |Above(s, x)|
  {
    var above := Above(s, x);
    if |above| == n {
      forall y | y in above ensures y in Top(s, n) {
        Smaller(Above(s, y), above - {y});
      }
      assert above * Top(s, n) == above;
    } else {
      var y := Least(above);
      assert Above(s, y) == above - {y};
      TopIsAbove(s, y, n);
      Smaller(Above(s, y) * Top(s, n), above * Top(s, n));
    }
  }

  // ------------------------------------------------------------ path independence

  lemma FewerAbove(a: set<nat>, b: set<nat>, x: nat)
    requires a <= b
    ensures |Above(a, x)| <= |Above(b, x)| && |Above(Months(a), Month(x))| <= |Above(Months(b), Month(x))|
  {
    Smaller(Above(a, x), Above(b, x));
    Smaller(Above(Months(a), Month(x)), Above(Months(b), Month(x)));
  }

  /** A backup kept among many is kept among any of them that include it. */
  lemma KeptAmongFewer(p: Policy, a: set<nat>, b: set<nat>, x: nat)
    requires a <= b && x in a && x in p.Keep(b)
    ensures x in p.Keep(a)
  {
    FewerAbove(a, b, x);
  }

  lemma NewestOf(s: set<nat>, month: nat) returns (b: nat)
    requires month in Months(s)
    ensures b in s && Month(b) == month && NewestOfMonth(s, b)
  {
    var those := set x | x in s && Month(x) == month;
    var w :| w in s && Month(w) == month;
    assert w in those;
    b := Greatest(those);
    forall x | x in s && x > b ensures Month(x) != month { assert x in those <==> Month(x) == month; }
  }

  /** The last `monthly` months each keep a backup. */
  lemma LastMonthsStay(p: Policy, s: set<nat>)
    ensures Top(Months(s), p.monthly) <= Months(p.Keep(s))
  {
    forall month | month in Top(Months(s), p.monthly) ensures month in Months(p.Keep(s)) {
      var b := NewestOf(s, month);
      assert p.Monthly(s, b) && b in p.Keep(s);
    }
  }

  /** Behind a backup that `a` drops there are enough newer ones that it keeps. */
  lemma DroppedIsCrowded(p: Policy, a: set<nat>, x: nat)
    requires x in a && x !in p.Keep(a)
    ensures |Above(p.Keep(a), x)| >= p.daily
  {
    TopIsAbove(a, x, p.daily);
    Smaller(Above(a, x) * Top(a, p.daily), Above(p.Keep(a), x));
  }

  /** Behind a month of `a` that keeps no backup newer than `x` there are enough later months. */
  lemma DroppedMonthIsCrowded(p: Policy, a: set<nat>, x: nat)
    requires x in a
    requires forall y :: y in p.Keep(a) && Month(y) == Month(x) ==> y < x
    ensures |Above(Months(p.Keep(a)), Month(x))| >= p.monthly
  {
    var months := Months(a);
    assert Month(x) in months;
    var y := NewestOf(a, Month(x));
    assert y !in p.Keep(a);
    TopIsAbove(months, Month(x), p.monthly);
    LastMonthsStay(p, a);
    Smaller(Above(months, Month(x)) * Top(months, p.monthly), Above(Months(p.Keep(a)), Month(x)));
  }

  /** A backup kept after an earlier prune would have been kept without it. */
  lemma KeptWithoutPruning(p: Policy, a: set<nat>, b: set<nat>, x: nat)
    requires x in p.Keep(p.Keep(a) + b)
    ensures x in p.Keep(a + b)
  {
    var now, all := p.Keep(a) + b, a + b;
    if p.Recent(now, x) {
      forall y | y in Above(all, x) ensures y in Above(now, x) {
        if y !in now {
          DroppedIsCrowded(p, a, y);
          Smaller(Above(p.Keep(a), y), Above(now, x));
        }
      }
      Smaller(Above(all, x), Above(now, x));
    } else {
      forall y | y in all && y > x ensures Month(y) != Month(x) {
        if Month(y) == Month(x) {
          assert y in a && forall z :: z in p.Keep(a) && Month(z) == Month(y) ==> z < y;
          DroppedMonthIsCrowded(p, a, y);
          Smaller(Above(Months(p.Keep(a)), Month(y)), Above(Months(now), Month(x)));
        }
      }
      forall month | month in Above(Months(all), Month(x)) ensures month in Months(now) {
        var y :| y in all && Month(y) == month;
        if month !in Months(now) {
          assert y in a && forall z :: z in p.Keep(a) && Month(z) == Month(y) ==> z in now;
          DroppedMonthIsCrowded(p, a, y);
          Smaller(Above(Months(p.Keep(a)), month), Above(Months(now), Month(x)));
        }
      }
      Smaller(Above(Months(all), Month(x)), Above(Months(now), Month(x)));
    }
  }

  /** Pruning, adding any backups, and pruning again keeps exactly what one prune would keep. */
  lemma PathIndependent(p: Policy, a: set<nat>, b: set<nat>)
    ensures p.Keep(p.Keep(a) + b) == p.Keep(a + b)
  {
    forall x | x in p.Keep(p.Keep(a) + b) ensures x in p.Keep(a + b) { KeptWithoutPruning(p, a, b, x); }
    forall x | x in p.Keep(a + b) ensures x in p.Keep(p.Keep(a) + b) {
      if x in a { KeptAmongFewer(p, a, a + b, x); }
      KeptAmongFewer(p, p.Keep(a) + b, a + b, x);
    }
  }

  datatype Event = Made(rank: nat) | Pruned

  /** The backups on disk after a history of backups made and prunes run. */
  function OnDisk(p: Policy, history: seq<Event>): set<nat> {
    if history == [] then {} else
      var before := OnDisk(p, history[..|history| - 1]);
      match history[|history| - 1]
      case Made(rank) => before + {rank}
      case Pruned => p.Keep(before)
  }

  function EverMade(history: seq<Event>): set<nat> {
    if history == [] then {} else
      var before := EverMade(history[..|history| - 1]);
      match history[|history| - 1]
      case Made(rank) => before + {rank}
      case Pruned => before
  }

  /** However often and whenever `prune` ran before, the next one keeps what a single prune of
      everything ever made would keep. */
  lemma {:induction false} AnySchedule(p: Policy, history: seq<Event>)
    ensures p.Keep(OnDisk(p, history)) == p.Keep(EverMade(history))
  {
    if history != [] {
      var earlier := history[..|history| - 1];
      var disk, made := OnDisk(p, earlier), EverMade(earlier);
      AnySchedule(p, earlier);
      match history[|history| - 1] {
        case Made(rank) =>
          PathIndependent(p, disk, {rank});
          PathIndependent(p, made, {rank});
        case Pruned =>
          PathIndependent(p, disk, {});
          assert p.Keep(disk) + {} == p.Keep(disk) && disk + {} == disk;
      }
    }
  }

  /** At most `daily + monthly` backups stay, the newest among them. */
  lemma KeepBounds(p: Policy, s: set<nat>)
    ensures |p.Keep(s)| <= p.daily + p.monthly
    ensures p.daily > 0 ==> forall b :: b in s && Above(s, b) == {} ==> b in p.Keep(s)
  {
    var monthly := set b | b in s && p.Monthly(s, b);
    var recent := Top(s, p.daily);
    MonthlyCount(p, s, monthly);
    TopAtMost(Months(s), p.monthly);
    TopAtMost(s, p.daily);
    Smaller(p.Keep(s), recent + monthly);
    assert recent + monthly == recent + (monthly - recent);
    Smaller(monthly - recent, monthly);
  }

  lemma MonthlyCount(p: Policy, s: set<nat>, which: set<nat>)
    requires forall b :: b in which ==> b in s && p.Monthly(s, b)
    ensures |which| <= |Top(Months(s), p.monthly)|
  {
    forall x, y | x in which && y in which && x < y ensures Month(x) != Month(y) {
      assert NewestOfMonth(s, x);
    }
    MonthsApart(which);
    Smaller(Months(which), Top(Months(s), p.monthly));
  }

  lemma {:induction false} MonthsApart(which: set<nat>)
    requires forall x, y :: x in which && y in which && x < y ==> Month(x) != Month(y)
    ensures |which| == |Months(which)|
  {
    if which == {} {
      assert Months(which) == {};
    } else {
      var b :| b in which;
      var rest := which - {b};
      MonthsApart(rest);
      forall x | x in rest ensures Month(x) != Month(b) {
        assert x < b || b < x;
      }
      assert Months(which) == Months(rest) + {Month(b)};
    }
  }

  // ------------------------------------------------------------ the program

  ghost predicate NewestFirst(ranks: seq<nat>) {
    forall i, j :: 0 <= i < j < |ranks| ==> ranks[i] > ranks[j]
  }

  lemma AboveInList(ranks: seq<nat>, k: nat)
    requires NewestFirst(ranks) && k < |ranks|
    ensures Above(Elements(ranks), ranks[k]) == Elements(ranks[..k])
    ensures |Elements(ranks[..k])| == k
  {
    ElementsCount(ranks[..k]);
  }

  lemma RecentInList(p: Policy, ranks: seq<nat>, k: nat)
    requires NewestFirst(ranks) && k < |ranks|
    ensures p.Recent(Elements(ranks), ranks[k]) <==> k < p.daily
  {
    AboveInList(ranks, k);
  }

  /** A backup is the newest of its month when no newer backup is of that month. */
  lemma NewestByNewer(all: set<nat>, b: nat)
    ensures NewestOfMonth(all, b) <==> Month(b) !in Months(Above(all, b))
  {
    if Month(b) in Months(Above(all, b)) {
      var x :| x in Above(all, b) && Month(x) == Month(b);
    }
    forall x | x in all && x > b && Month(b) !in Months(Above(all, b)) ensures Month(x) != Month(b) {
      assert x in Above(all, b) && Month(x) in Months(Above(all, b));
    }
  }

  /** And then the later months are the months of the newer backups. */
  lemma LaterByNewer(all: set<nat>, b: nat)
    requires NewestOfMonth(all, b)
    ensures Above(Months(all), Month(b)) == Months(Above(all, b))
  {
    forall m | m in Above(Months(all), Month(b)) ensures m in Months(Above(all, b)) {
      var x :| x in all && Month(x) == m;
      if x <= b { MonthsFollowStamps(x, b); }
      assert x in Above(all, b);
    }
    forall m | m in Months(Above(all, b)) ensures m in Above(Months(all), Month(b)) {
      var x :| x in Above(all, b) && Month(x) == m;
      MonthsFollowStamps(b, x);
    }
  }

  function First(ranks: seq<nat>, n: nat): seq<nat> {
    if n <= |ranks| then ranks[..n] else ranks
  }

  function SetOf(s: seq<nat>): set<nat> { set x | x in s }

  lemma KeptAtTheEnds(p: Policy, all: set<nat>)
    ensures KeptSoFar(p, all, {}) == set b | b in all && p.Recent(all, b)
    ensures KeptSoFar(p, all, all) == p.Keep(all)
    ensures Months({}) == {}
  {}

  /** The loop of `prune` over the backups, newest first. */
  method KeepList(ranks: seq<nat>, p: Policy) returns (keep: set<nat>)
    requires NewestFirst(ranks)
    ensures keep == p.Keep(Elements(ranks))
  {
    keep := SetOf(First(ranks, p.daily));
    var months: seq<nat> := [];
    ghost var all := Elements(ranks);
    FirstAreRecent(ranks, p);
    KeptAtTheEnds(p, all);
    assert ranks[..0] == [];
    for k := 0 to |ranks|
      invariant KeptTo(p, ranks, k, months, keep)
    {
      var month := Month(ranks[k]);
      KeptToNext(p, ranks, k, months, keep);
      if month !in months {
        months := months + [month];
        if |months| <= p.monthly {
          keep := keep + {ranks[k]};
        }
      }
    }
    assert ranks[..|ranks|] == ranks;
  }

  /** The loop's two variables after the first `k` backups. */
  ghost predicate KeptTo(p: Policy, ranks: seq<nat>, k: nat, months: seq<nat>, keep: set<nat>) {
    && k <= |ranks|
    && NoRepeats(months) && Elements(months) == Months(Elements(ranks[..k]))
    && keep == KeptSoFar(p, Elements(ranks), Elements(ranks[..k]))
  }

  lemma KeptToNext(p: Policy, ranks: seq<nat>, k: nat, months: seq<nat>, keep: set<nat>)
    requires NewestFirst(ranks) && k < |ranks| && KeptTo(p, ranks, k, months, keep)
    ensures Month(ranks[k]) in months ==> KeptTo(p, ranks, k + 1, months, keep)
    ensures Month(ranks[k]) !in months
            ==> KeptTo(p, ranks, k + 1, months + [Month(ranks[k])],
                       if |months| < p.monthly then keep + {ranks[k]} else keep)
  {
    KeepTurn(p, ranks, k, months);
    MonthsTurn(ranks, k, months);
  }

  /** The backups kept after the loop has seen those in `done`. */
  ghost function KeptSoFar(p: Policy, all: set<nat>, done: set<nat>): set<nat> {
    set b | b in all && (p.Recent(all, b) || (b in done && p.Monthly(all, b)))
  }

  /** The test the loop makes on each backup. */
  lemma MonthlyInList(p: Policy, ranks: seq<nat>, k: nat, months: seq<nat>)
    requires NewestFirst(ranks) && k < |ranks|
    requires NoRepeats(months) && Elements(months) == Months(Elements(ranks[..k]))
    ensures p.Monthly(Elements(ranks), ranks[k]) <==> Month(ranks[k]) !in months && |months| < p.monthly
  {
    var all, b := Elements(ranks), ranks[k];
    AboveInList(ranks, k);
    NewestByNewer(all, b);
    if NewestOfMonth(all, b) { LaterByNewer(all, b); }
    ElementsCount(months);
  }

  lemma KeepTurn(p: Policy, ranks: seq<nat>, k: nat, months: seq<nat>)
    requires NewestFirst(ranks) && k < |ranks|
    requires NoRepeats(months) && Elements(months) == Months(Elements(ranks[..k]))
    ensures KeptSoFar(p, Elements(ranks), Elements(ranks[..k + 1]))
         == KeptSoFar(p, Elements(ranks), Elements(ranks[..k]))
            + if Month(ranks[k]) !in months && |months| < p.monthly then {ranks[k]} else {}
  {
    MonthlyInList(p, ranks, k, months);
    assert Elements(ranks[..k + 1]) == Elements(ranks[..k]) + {ranks[k]} by { OneMoreRank(ranks, k); }
    KeptStep(p, Elements(ranks), Elements(ranks[..k]), ranks[k]);
  }

  lemma MonthsTurn(ranks: seq<nat>, k: nat, months: seq<nat>)
    requires k < |ranks|
    requires NoRepeats(months) && Elements(months) == Months(Elements(ranks[..k]))
    ensures Month(ranks[k]) in months ==> Elements(months) == Months(Elements(ranks[..k + 1]))
    ensures Month(ranks[k]) !in months
            ==> NoRepeats(months + [Month(ranks[k])])
                && Elements(months + [Month(ranks[k])]) == Months(Elements(ranks[..k + 1]))
  {
    OneMoreRank(ranks, k);
    if Month(ranks[k]) !in months { ElementsSnoc(months, Month(ranks[k])); }
  }

  lemma ElementsSnoc(s: seq<nat>, x: nat)
    requires NoRepeats(s) && x !in s
    ensures NoRepeats(s + [x]) && Elements(s + [x]) == Elements(s) + {x}
  {
    NoRepeatsConcat(s, [x]);
    assert (s + [x])[..|s|] == s;
  }

  lemma OneMoreRank(ranks: seq<nat>, k: nat)
    requires k < |ranks|
    ensures Elements(ranks[..k + 1]) == Elements(ranks[..k]) + {ranks[k]}
    ensures Months(Elements(ranks[..k + 1])) == Months(Elements(ranks[..k])) + {Month(ranks[k])}
  {
    assert ranks[..k + 1][..k] == ranks[..k];
    MonthsOfMore(Elements(ranks[..k]), ranks[k]);
  }

  lemma MonthsOfMore(s: set<nat>, b: nat)
    ensures Months(s + {b}) == Months(s) + {Month(b)}
  {}

  lemma KeptStep(p: Policy, all: set<nat>, done: set<nat>, b: nat)
    requires b in all
    ensures KeptSoFar(p, all, done + {b}) == KeptSoFar(p, all, done) + if p.Monthly(all, b) then {b} else {}
  {}

  lemma FirstAreRecent(ranks: seq<nat>, p: Policy)
    requires NewestFirst(ranks)
    ensures SetOf(First(ranks, p.daily)) == set b | b in Elements(ranks) && p.Recent(Elements(ranks), b)
  {
    forall b | b in ranks ensures b in First(ranks, p.daily) <==> p.Recent(Elements(ranks), b) {
      var i: nat :| i < |ranks| && ranks[i] == b;
      RecentInList(p, ranks, i);
      InFirst(ranks, p.daily, i);
    }
  }

  lemma InFirst(ranks: seq<nat>, n: nat, i: nat)
    requires NewestFirst(ranks) && i < |ranks|
    ensures ranks[i] in First(ranks, n) <==> i < n
  {
    var first := First(ranks, n);
    if i < n { assert first[i] == ranks[i]; }
    if ranks[i] in first {
      var j: nat :| j < |first| && first[j] == ranks[i];
      assert ranks[j] == ranks[i];
    }
  }

  /** An entry of the backup root: whether it is a folder, the stamp its name carries if the
      name is one of this tool's, and whether it holds a manifest this version can read. */
  datatype Folder = Folder(isDirectory: bool, stamp: Option<nat>, readable: bool)

  predicate IsBackup(f: Folder) { f.isDirectory && f.stamp.Some? && f.readable }

  /** `Path.iterdir` lists every entry once, in whatever order. */
  ghost predicate Lists(listing: seq<string>, entries: map<string, Folder>) {
    NoRepeats(listing) && |listing| <= TIES && forall n :: n in listing <==> n in entries
  }

  predicate BackupAt(entries: map<string, Folder>, listing: seq<string>, i: nat) {
    i < |listing| && listing[i] in entries && IsBackup(entries[listing[i]])
  }

  function RankAt(entries: map<string, Folder>, listing: seq<string>, i: nat): nat
    requires BackupAt(entries, listing, i) && i < TIES
  {
    Rank(entries[listing[i]].stamp.value, i)
  }

  /** The ranks of the backups among the first `n` entries listed. */
  ghost function RanksTo(entries: map<string, Folder>, listing: seq<string>, n: nat): set<nat>
    requires n <= TIES
  {
    set i: nat | i < n && BackupAt(entries, listing, i) :: RankAt(entries, listing, i)
  }

  ghost function Ranks(entries: map<string, Folder>, listing: seq<string>): set<nat>
    requires |listing| <= TIES
  {
    RanksTo(entries, listing, |listing|)
  }

  lemma RanksStep(entries: map<string, Folder>, listing: seq<string>, n: nat)
    requires n < |listing| <= TIES
    ensures RanksTo(entries, listing, n + 1) == RanksTo(entries, listing, n)
              + if BackupAt(entries, listing, n) then {RankAt(entries, listing, n)} else {}
    ensures BackupAt(entries, listing, n) ==> RankAt(entries, listing, n) !in RanksTo(entries, listing, n)
  {
    if BackupAt(entries, listing, n) {
      forall i: nat | i < n && BackupAt(entries, listing, i)
        ensures RankAt(entries, listing, i) != RankAt(entries, listing, n)
      {
        RankMeans(entries[listing[i]].stamp.value, i, entries[listing[n]].stamp.value, n);
        RankMeans(entries[listing[n]].stamp.value, n, entries[listing[i]].stamp.value, i);
      }
    }
  }

  lemma RankListed(entries: map<string, Folder>, listing: seq<string>, rank: nat)
    requires |listing| <= TIES && rank in Ranks(entries, listing)
    ensures BackupAt(entries, listing, PlaceOf(rank)) && RankAt(entries, listing, PlaceOf(rank)) == rank
  {
    var i: nat :| i < |listing| && BackupAt(entries, listing, i) && RankAt(entries, listing, i) == rank;
    RankMeans(entries[listing[i]].stamp.value, i, 0, 0);
  }

  /** Those of the ranks that are not kept, in the same order. */
  ghost predicate Dropped(dropped: seq<nat>, ranks: seq<nat>, keep: set<nat>) {
    NewestFirst(dropped) && Elements(dropped) == Elements(ranks) - keep
  }

  lemma ElementsMore<T(!new)>(s: seq<T>, x: T)
    ensures Elements(s + [x]) == Elements(s) + {x}
  {
    assert (s + [x])[..|s|] == s;
  }

  lemma NewestFirstMore(s: seq<nat>, x: nat)
    requires NewestFirst(s) && forall y :: y in s ==> y > x
    ensures NewestFirst(s + [x])
  {
    assert forall i :: 0 <= i < |s| ==> s[i] in s;
  }

  lemma Older(ranks: seq<nat>, k: nat)
    requires NewestFirst(ranks) && k < |ranks|
    ensures forall y :: y in Elements(ranks[..k]) ==> y > ranks[k]
  {
  }

  lemma DropStep(dropped: seq<nat>, ranks: seq<nat>, k: nat, keep: set<nat>)
    requires NewestFirst(ranks) && k < |ranks| && Dropped(dropped, ranks[..k], keep)
    ensures ranks[k] in keep ==> Dropped(dropped, ranks[..k + 1], keep)
    ensures ranks[k] !in keep ==> Dropped(dropped + [ranks[k]], ranks[..k + 1], keep)
  {
    OneMoreRank(ranks, k);
    if ranks[k] !in keep {
      ElementsMore(dropped, ranks[k]);
      Older(ranks, k);
      NewestFirstMore(dropped, ranks[k]);
    }
  }

  /** The names are those of the backups with these ranks, in this order. */
  ghost predicate Named(entries: map<string, Folder>, listing: seq<string>, ranks: seq<nat>, names: seq<string>)
    requires |listing| <= TIES
  {
    && |names| == |ranks|
    && forall k :: 0 <= k < |ranks| ==>
         && BackupAt(entries, listing, PlaceOf(ranks[k]))
         && RankAt(entries, listing, PlaceOf(ranks[k])) == ranks[k]
         && names[k] == listing[PlaceOf(ranks[k])]
  }

  lemma NamedMore(entries: map<string, Folder>, listing: seq<string>, ranks: seq<nat>, names: seq<string>, rank: nat)
    requires |listing| <= TIES && Named(entries, listing, ranks, names) && rank in Ranks(entries, listing)
    ensures 0 <= PlaceOf(rank) < |listing| && Named(entries, listing, ranks + [rank], names + [listing[PlaceOf(rank)]])
  {
    RankListed(entries, listing, rank);
  }

  lemma DropNext(entries: map<string, Folder>, listing: seq<string>, ranks: seq<nat>, k: nat, keep: set<nat>,
                 dropped: seq<nat>, deleted: seq<string>)
    requires NewestFirst(ranks) && k < |ranks| && |listing| <= TIES && Elements(ranks) == Ranks(entries, listing)
    requires Dropped(dropped, ranks[..k], keep) && Named(entries, listing, dropped, deleted)
    ensures 0 <= PlaceOf(ranks[k]) < |listing|
    ensures ranks[k] in keep ==> Dropped(dropped, ranks[..k + 1], keep)
    ensures ranks[k] !in keep ==>
              var name := listing[PlaceOf(ranks[k])];
              && Dropped(dropped + [ranks[k]], ranks[..k + 1], keep)
              && Named(entries, listing, dropped + [ranks[k]], deleted + [name])
              && entries - Elements(deleted + [name]) == entries - Elements(deleted) - {name}
  {
    assert ranks[k] in Elements(ranks);
    RankListed(entries, listing, ranks[k]);
    DropStep(dropped, ranks, k, keep);
    NamedMore(entries, listing, dropped, deleted, ranks[k]);
    LessOne(entries, deleted, listing[PlaceOf(ranks[k])]);
  }

  lemma LessOne(entries: map<string, Folder>, names: seq<string>, name: string)
    ensures entries - Elements(names + [name]) == entries - Elements(names) - {name}
  {
    ElementsMore(names, name);
    LessBoth(entries, Elements(names), Elements(names + [name]), name);
  }

  lemma LessBoth(entries: map<string, Folder>, a: set<string>, b: set<string>, name: string)
    requires b == a + {name}
    ensures entries - b == entries - a - {name}
  {
  }

  /** The entry is no backup, or one that the policy keeps by its rank in this listing. */
  ghost predicate Stays(entries: map<string, Folder>, listing: seq<string>, p: Policy, n: string)
    requires |listing| <= TIES && n in entries
  {
    IsBackup(entries[n]) ==>
      exists i: nat :: BackupAt(entries, listing, i) && listing[i] == n
                       && RankAt(entries, listing, i) in p.Keep(Ranks(entries, listing))
  }

  /** What `prune` leaves. */
  ghost function Left(entries: map<string, Folder>, listing: seq<string>, p: Policy): map<string, Folder>
    requires |listing| <= TIES
  {
    map n | n in entries && Stays(entries, listing, p, n) :: entries[n]
  }

  lemma DroppedGoes(entries: map<string, Folder>, listing: seq<string>, p: Policy, dropped: seq<nat>,
                    deleted: seq<string>, n: string)
    requires Lists(listing, entries) && Named(entries, listing, dropped, deleted)
    requires Elements(dropped) == Ranks(entries, listing) - p.Keep(Ranks(entries, listing)) && n in deleted
    ensures n in entries && !Stays(entries, listing, p, n)
  {
    var k :| 0 <= k < |deleted| && deleted[k] == n;
    assert dropped[k] in dropped;
    GoesAt(entries, listing, p, PlaceOf(dropped[k]));
  }

  lemma GoesAt(entries: map<string, Folder>, listing: seq<string>, p: Policy, i: nat)
    requires Lists(listing, entries) && BackupAt(entries, listing, i)
    requires RankAt(entries, listing, i) !in p.Keep(Ranks(entries, listing))
    ensures !Stays(entries, listing, p, listing[i])
  {
    forall j: nat | BackupAt(entries, listing, j) && listing[j] == listing[i] ensures j == i {
      assert !(i < j) && !(j < i);
    }
  }

  lemma StayingIsKept(entries: map<string, Folder>, listing: seq<string>, p: Policy, dropped: seq<nat>,
                      deleted: seq<string>, n: string)
    requires Lists(listing, entries) && Named(entries, listing, dropped, deleted)
    requires Elements(dropped) == Ranks(entries, listing) - p.Keep(Ranks(entries, listing))
    requires n in entries && n !in deleted
    ensures Stays(entries, listing, p, n)
  {
    if IsBackup(entries[n]) {
      var i: nat :| i < |listing| && listing[i] == n;
      var rank := RankAt(entries, listing, i);
      RankMeans(entries[n].stamp.value, i, 0, 0);
      if rank !in p.Keep(Ranks(entries, listing)) { DroppedIsDeleted(entries, listing, dropped, deleted, rank); }
    }
  }

  lemma DroppedIsDeleted(entries: map<string, Folder>, listing: seq<string>, dropped: seq<nat>,
                         deleted: seq<string>, rank: nat)
    requires |listing| <= TIES && Named(entries, listing, dropped, deleted) && rank in Elements(dropped)
    ensures 0 <= PlaceOf(rank) < |listing| && listing[PlaceOf(rank)] in deleted
  {
    var k :| 0 <= k < |dropped| && dropped[k] == rank;
    assert deleted[k] in deleted;
  }

  lemma LeftIs(entries: map<string, Folder>, listing: seq<string>, p: Policy, dropped: seq<nat>, deleted: seq<string>)
    requires Lists(listing, entries) && Named(entries, listing, dropped, deleted)
    requires Elements(dropped) == Ranks(entries, listing) - p.Keep(Ranks(entries, listing))
    ensures entries - Elements(deleted) == Left(entries, listing, p)
  {
    forall n | n in entries ensures n in deleted <==> !Stays(entries, listing, p, n) {
      if n in deleted {
        DroppedGoes(entries, listing, p, dropped, deleted, n);
      } else {
        StayingIsKept(entries, listing, p, dropped, deleted, n);
      }
    }
  }

  /** The ranks of the backups among the first `i` entries listed, newest first. */
  ghost predicate Collected(entries: map<string, Folder>, listing: seq<string>, i: nat, ranks: seq<nat>) {
    i <= |listing| <= TIES && NewestFirst(ranks) && Elements(ranks) == RanksTo(entries, listing, i)
  }

  lemma CollectNext(entries: map<string, Folder>, listing: seq<string>, i: nat, ranks: seq<nat>)
    requires Lists(listing, entries) && i < |listing| && Collected(entries, listing, i, ranks)
    ensures listing[i] in entries
    ensures !IsBackup(entries[listing[i]]) ==> Collected(entries, listing, i + 1, ranks)
    ensures IsBackup(entries[listing[i]]) ==>
              var rank := RankAt(entries, listing, i);
              rank !in ranks && Collected(entries, listing, i + 1, Insert(rank, ranks))
  {
    assert listing[i] in listing;
    RanksStep(entries, listing, i);
  }

  /** A folder with a stamp of this tool in its name and a manifest this version can read. */
  predicate Deletable(entries: map<string, Folder>, n: string) {
    n in entries && entries[n].isDirectory && entries[n].stamp.Some? && entries[n].readable
  }

  /** The ranks of a listing are those of its deletable entries, each by its own stamp and place. */
  lemma RanksAre(entries: map<string, Folder>, listing: seq<string>)
    requires Lists(listing, entries)
    ensures forall i: nat :: i < |listing| && Deletable(entries, listing[i])
                             ==> Rank(entries[listing[i]].stamp.value, i) in Ranks(entries, listing)
    ensures forall rank :: rank in Ranks(entries, listing) ==>
              var i := PlaceOf(rank);
              i < |listing| && Deletable(entries, listing[i]) && rank == Rank(entries[listing[i]].stamp.value, i)
  {
    forall i: nat | i < |listing| && Deletable(entries, listing[i])
      ensures Rank(entries[listing[i]].stamp.value, i) in Ranks(entries, listing)
    {
      assert RankAt(entries, listing, i) in Ranks(entries, listing);
    }
    forall rank | rank in Ranks(entries, listing)
      ensures PlaceOf(rank) < |listing| && Deletable(entries, listing[PlaceOf(rank)])
              && rank == Rank(entries[listing[PlaceOf(rank)]].stamp.value, PlaceOf(rank))
    {
      RankListed(entries, listing, rank);
    }
  }

  lemma NamedAreBackups(entries: map<string, Folder>, listing: seq<string>, ranks: seq<nat>, names: seq<string>,
                        n: string)
    requires |listing| <= TIES && Named(entries, listing, ranks, names) && n in names
    ensures Deletable(entries, n)
  {
    var k :| 0 <= k < |names| && names[k] == n;
    assert BackupAt(entries, listing, PlaceOf(ranks[k]));
  }

  class BackupRoot {
    var entries: map<string, Folder>

    /** `_backups`: the ranks of this tool's backups, newest first. */
    method Backups(listing: seq<string>) returns (ranks: seq<nat>)
      requires Lists(listing, entries)
      ensures NewestFirst(ranks) && Elements(ranks) == Ranks(entries, listing)
    {
      ranks := [];
      for i := 0 to |listing|
        invariant Collected(entries, listing, i, ranks)
      {
        CollectNext(entries, listing, i, ranks);
        if IsBackup(entries[listing[i]]) {
          ranks := Insert(RankAt(entries, listing, i), ranks);
        }
      }
    }

    /** `prune`. It refuses a policy that could drop the newest backup; otherwise exactly the
        backups outside the policy go, newest first, and every other entry stays as it was. */
    method Prune(listing: seq<string>, keepDaily: int, keepMonthly: int)
      returns (refused: bool, deleted: seq<string>, ghost dropped: seq<nat>)
      requires Lists(listing, entries)
      modifies this
      ensures refused <==> keepDaily < 1 || keepMonthly < 0
      ensures refused ==> entries == old(entries) && deleted == []
      ensures !refused ==>
                var all := Ranks(old(entries), listing);
                && NewestFirst(dropped)
                && Elements(dropped) == all - Policy(keepDaily, keepMonthly).Keep(all)
                && Named(old(entries), listing, dropped, deleted)
                && entries == old(entries) - Elements(deleted)
                && entries == Left(old(entries), listing, Policy(keepDaily, keepMonthly))
      ensures forall n :: n in deleted ==> Deletable(old(entries), n)
    {
      deleted, dropped := [], [];
      if keepDaily < 1 || keepMonthly < 0 {
        return true, deleted, dropped;
      }
      refused := false;
      var ranks := Backups(listing);
      var keep := KeepList(ranks, Policy(keepDaily, keepMonthly));
      for k := 0 to |ranks|
        invariant Dropped(dropped, ranks[..k], keep) && Named(old(entries), listing, dropped, deleted)
        invariant entries == old(entries) - Elements(deleted)
      {
        DropNext(old(entries), listing, ranks, k, keep, dropped, deleted);
        if ranks[k] !in keep {
          var name := listing[PlaceOf(ranks[k])];
          entries := entries - {name};
          deleted, dropped := deleted + [name], dropped + [ranks[k]];
        }
      }
      assert ranks[..|ranks|] == ranks;
      LeftIs(old(entries), listing, Policy(keepDaily, keepMonthly), dropped, deleted);
      forall n | n in deleted ensures Deletable(old(entries), n) {
        NamedAreBackups(old(entries), listing, dropped, deleted, n);
      }
    }
  }

  function Insert(x: nat, ranks: seq<nat>): (r: seq<nat>)
    requires NewestFirst(ranks) && x !in ranks
    ensures NewestFirst(r) && forall y :: y in r <==> y == x || y in ranks
  {
    if ranks == [] then [x]
    else if x > ranks[0] then
      ListHead(ranks);
      NewestFirstCons(x, ranks);
      [x] + ranks
    else
      ListHead(ranks);
      NewestFirstCons(ranks[0], Insert(x, ranks[1..]));
      [ranks[0]] + Insert(x, ranks[1..])
  }

  lemma NewestFirstCons(x: nat, ranks: seq<nat>)
    requires NewestFirst(ranks) && forall y :: y in ranks ==> x > y
    ensures NewestFirst([x] + ranks)
  {
    assert forall j :: 0 <= j < |ranks| ==> ranks[j] in ranks;
  }

  lemma ListHead(ranks: seq<nat>)
    requires NewestFirst(ranks) && ranks != []
    ensures ranks == [ranks[0]] + ranks[1..]
    ensures forall y :: y in ranks[1..] ==> ranks[0] > y
    ensures forall y :: y in ranks ==> ranks[0] >= y
  {}
}
