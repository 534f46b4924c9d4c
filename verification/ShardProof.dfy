/** The exactly-once proof of `scripts/ci_test_ids.py`: which report says that a test ran, what the
    shards' lists say together, and the merged durations. */
module ShardProof {
  import opened Sequences

  // ------------------------------------------------------------ the reports of one session

  datatype When = Setup | Call | Teardown
  datatype Outcome = Passed | Failed | Skipped
  datatype Report = Report(nodeid: string, when: When, outcome: Outcome)

  /** `ran_once`. */
  predicate RanOnce(r: Report) { r.when == Call || (r.when == Setup && r.outcome != Passed) }

  /** The ids that `pytest_runtest_logreport` appends to the file, in order. */
  function Logged(reports: seq<Report>): seq<string> {
    if reports == [] then [] else
      var last := reports[|reports| - 1];
      Logged(reports[..|reports| - 1]) + if RanOnce(last) then [last.nodeid] else []
  }

  /** The reports of one test, in order. */
  function OfTest(reports: seq<Report>, test: string): seq<Report> {
    if reports == [] then [] else
      var last := reports[|reports| - 1];
      OfTest(reports[..|reports| - 1], test) + if last.nodeid == test then [last] else []
  }

  /** One test run from beginning to end: setup, then the call only if setup passed, then teardown. */
  predicate OneRun(reports: seq<Report>) {
    || (|reports| == 3 && reports[0].when == Setup && reports[0].outcome == Passed
        && reports[1].when == Call && reports[2].when == Teardown)
    || (|reports| == 2 && reports[0].when == Setup && reports[0].outcome != Passed && reports[1].when == Teardown)
  }

  /** A test whose setup passes is reported three times, one whose setup fails or skips twice. */
  lemma RunsAre(t: string, o: Outcome, end: Outcome)
    ensures OneRun([Report(t, Setup, Passed), Report(t, Call, o), Report(t, Teardown, end)])
    ensures o != Passed ==> OneRun([Report(t, Setup, o), Report(t, Teardown, end)])
  {
  }

  function Flatten(runs: seq<seq<Report>>): seq<Report> {
    if runs == [] then [] else Flatten(runs[..|runs| - 1]) + runs[|runs| - 1]
  }

  ghost predicate CompleteRuns(reports: seq<Report>, runs: seq<seq<Report>>) {
    reports == Flatten(runs) && forall k :: 0 <= k < |runs| ==> OneRun(runs[k])
  }

  function Ran(reports: seq<Report>): nat {
    if reports == [] then 0 else
      Ran(reports[..|reports| - 1]) + if RanOnce(reports[|reports| - 1]) then 1 else 0
  }

  lemma {:induction false} RanConcat(a: seq<Report>, b: seq<Report>)
    ensures Ran(a + b) == Ran(a) + Ran(b)
  {
    if b == [] {
      assert a + b == a;
    } else {
      RanConcat(a, b[..|b| - 1]);
      assert (a + b)[..|a + b| - 1] == a + b[..|b| - 1];
    }
  }

  lemma RanInOneRun(reports: seq<Report>)
    requires OneRun(reports)
    ensures Ran(reports) == 1
  {
    RanConcat([reports[0]], [reports[1]]);
    if |reports| == 3 {
      RanConcat([reports[0]] + [reports[1]], [reports[2]]);
      assert reports == [reports[0]] + [reports[1]] + [reports[2]];
    } else {
      assert reports == [reports[0]] + [reports[1]];
    }
    assert forall r: Report :: Ran([r]) == if RanOnce(r) then 1 else 0 by {
      forall r: Report ensures Ran([r]) == if RanOnce(r) then 1 else 0 { assert [r][..0] == []; }
    }
  }

  lemma {:induction false} RanInRuns(runs: seq<seq<Report>>)
    requires forall k :: 0 <= k < |runs| ==> OneRun(runs[k])
    ensures Ran(Flatten(runs)) == |runs|
  {
    if runs != [] {
      RanInRuns(runs[..|runs| - 1]);
      RanConcat(Flatten(runs[..|runs| - 1]), runs[|runs| - 1]);
      RanInOneRun(runs[|runs| - 1]);
    }
  }

  lemma {:induction false} LoggedOfTest(reports: seq<Report>, test: string)
    ensures multiset(Logged(reports))[test] == Ran(OfTest(reports, test))
  {
    if reports != [] {
      var rest, last := reports[..|reports| - 1], reports[|reports| - 1];
      LoggedOfTest(rest, test);
      if last.nodeid == test {
        assert [last][..0] == [];
        RanConcat(OfTest(rest, test), [last]);
      } else {
        assert OfTest(reports, test) == OfTest(rest, test);
      }
    }
  }

  /** Logged are exactly the tests of which a call is reported, or a setup that did not pass; a test
      whose setup passed and whose call never came is not. */
  lemma {:induction false} LoggedIff(reports: seq<Report>, test: string)
    ensures test in Logged(reports)
       <==> || Report(test, Call, Passed) in reports || Report(test, Call, Failed) in reports
            || Report(test, Call, Skipped) in reports
            || Report(test, Setup, Failed) in reports || Report(test, Setup, Skipped) in reports
  {
    if reports != [] {
      var init, last := reports[..|reports| - 1], reports[|reports| - 1];
      LoggedIff(init, test);
      assert forall r :: r in reports <==> r in init || r == last;
      LastLogged(last, test);
    }
  }

  lemma LastLogged(last: Report, test: string)
    ensures RanOnce(last) && last.nodeid == test
       <==> last in {Report(test, Call, Passed), Report(test, Call, Failed), Report(test, Call, Skipped),
                     Report(test, Setup, Failed), Report(test, Setup, Skipped)}
  {
    match last.outcome { case Passed => case Failed => case Skipped => }
  }

  /** However the reports of different tests are interleaved, a test is logged once for each of its
      complete runs. */
  lemma LoggedPerRun(reports: seq<Report>, test: string, runs: seq<seq<Report>>)
    requires CompleteRuns(OfTest(reports, test), runs)
    ensures multiset(Logged(reports))[test] == |runs|
  {
    LoggedOfTest(reports, test);
    RanInRuns(runs);
  }

  /** The session ran each of these tests once, to the end, and no other. */
  ghost predicate Session(reports: seq<Report>, tests: set<string>) {
    forall t: string :: if t in tests then OneRun(OfTest(reports, t)) else OfTest(reports, t) == []
  }

  /** Then its log holds each of them exactly once and nothing else. */
  lemma SessionLog(reports: seq<Report>, tests: set<string>)
    requires Session(reports, tests)
    ensures multiset(Logged(reports)) == multiset(tests)
  {
    forall t: string ensures multiset(Logged(reports))[t] == multiset(tests)[t] {
      LoggedOfTest(reports, t);
      if t in tests { RanInOneRun(OfTest(reports, t)); }
    }
  }

  // ------------------------------------------------------------ compare

  datatype Shard = Shard(name: string, ids: seq<string>, durations: map<string, real>)

  /** The ids of all shards, one list after the other. */
  function AllIds(shards: seq<Shard>): seq<string> {
    if shards == [] then [] else AllIds(shards[..|shards| - 1]) + shards[|shards| - 1].ids
  }

  datatype Verdict =
    Verdict(ok: bool, dupFull: set<string>, missing: set<string>, twice: set<string>, extra: set<string>)

  /** `compare`: the four lists say exactly what is wrong, and the verdict is good exactly when the
      collection is not empty, repeats nothing, and is, id by id, what the shards ran. */
  method Compare(full: seq<string>, shards: seq<Shard>) returns (v: Verdict)
    ensures forall i :: i in v.dupFull <==> multiset(full)[i] > 1
    ensures forall i :: i in v.missing <==> i in full && i !in AllIds(shards)
    ensures forall i :: i in v.twice <==> multiset(AllIds(shards))[i] > 1
    ensures forall i :: i in v.extra <==> i in AllIds(shards) && i !in full
    ensures v.ok <==> full != [] && NoRepeats(full) && multiset(full) == multiset(AllIds(shards))
  {
    var ran := CountShards(shards);
    var counted := multiset(full);
    var expected := set i | i in full;
    var dupFull := set i | i in full && counted[i] > 1;
    var missing := set i | i in expected && i !in ran;
    var twice := set i | i in ran && ran[i] > 1;
    var extra := set i | i in ran && i !in expected;
    var ok := !(dupFull != {} || missing != {} || twice != {} || extra != {}) && full != [];
    v := Verdict(ok, dupFull, missing, twice, extra);
    assert forall i :: i in ran <==> i in AllIds(shards);
    NothingWrong(v, full, ran);
  }

  /** `ran.update(ids)`, shard by shard. */
  method CountShards(shards: seq<Shard>) returns (ran: multiset<string>)
    ensures ran == multiset(AllIds(shards))
  {
    ran := multiset{};
    for k := 0 to |shards|
      invariant ran == multiset(AllIds(shards[..k]))
    {
      assert shards[..k + 1][..k] == shards[..k];
      ran := ran + multiset(shards[k].ids);
    }
    assert shards[..|shards|] == shards;
  }

  lemma NothingWrong(v: Verdict, full: seq<string>, ran: multiset<string>)
    requires forall i :: i in v.dupFull <==> multiset(full)[i] > 1
    requires forall i :: i in v.missing <==> i in full && i !in ran
    requires forall i :: i in v.twice <==> ran[i] > 1
    requires forall i :: i in v.extra <==> i in ran && i !in full
    ensures v.dupFull == {} && v.missing == {} && v.twice == {} && v.extra == {}
       <==> NoRepeats(full) && multiset(full) == ran
  {
    OnceEach(full, ran);
  }

  lemma OnceEach(full: seq<string>, ran: multiset<string>)
    ensures NoRepeats(full) && multiset(full) == ran
       <==> forall i :: multiset(full)[i] <= 1 && ran[i] <= 1 && (i in full <==> i in ran)
  {
    NoRepeatsCounts(full);
    assert forall i :: i in full <==> i in multiset(full);
    if forall i :: multiset(full)[i] <= 1 && ran[i] <= 1 && (i in full <==> i in ran) {
      forall i ensures multiset(full)[i] == ran[i] { assert i in full <==> i in ran; }
    }
  }

  lemma {:induction false} NoRepeatsCounts<T(!new)>(s: seq<T>)
    ensures NoRepeats(s) <==> forall x :: multiset(s)[x] <= 1
  {
    if s != [] {
      var init, x := s[..|s| - 1], s[|s| - 1];
      NoRepeatsCounts(init);
      assert s == init + [x];
      assert NoRepeats(s) <==> NoRepeats(init) && x !in init by {
        if NoRepeats(init) && x !in init { NoRepeatsConcat(init, [x]); }
        if NoRepeats(s) { NoRepeatsPrefix(s); }
      }
      assert forall y :: multiset(s)[y] == multiset(init)[y] + if y == x then 1 else 0;
      assert x in init <==> multiset(init)[x] > 0;
    }
  }

  lemma NoRepeatsPrefix<T>(s: seq<T>)
    requires NoRepeats(s) && s != []
    ensures NoRepeats(s[..|s| - 1]) && s[|s| - 1] !in s[..|s| - 1]
  {
  }

  // ------------------------------------------------------------ the whole proof

  /** The union of the shards' test sets. */
  ghost function Union(sets: seq<set<string>>): set<string> {
    if sets == [] then {} else Union(sets[..|sets| - 1]) + sets[|sets| - 1]
  }

  ghost predicate Disjoint(sets: seq<set<string>>) {
    forall i, j :: 0 <= i < j < |sets| ==> sets[i] !! sets[j]
  }

  /** Each shard's list is the log of a session that ran these tests. */
  ghost predicate Sharded(shards: seq<Shard>, sessions: seq<seq<Report>>, tests: seq<set<string>>) {
    && |shards| == |sessions| == |tests|
    && forall k :: 0 <= k < |shards| ==> Session(sessions[k], tests[k]) && shards[k].ids == Logged(sessions[k])
  }

  ghost predicate AtMostOnce(ids: seq<string>) { forall t :: multiset(ids)[t] <= 1 }

  lemma {:induction false} IdsOfShards(shards: seq<Shard>, sessions: seq<seq<Report>>, tests: seq<set<string>>)
    requires Sharded(shards, sessions, tests)
    ensures forall t :: t in AllIds(shards) <==> t in Union(tests)
    ensures Disjoint(tests) <==> AtMostOnce(AllIds(shards))
  {
    if shards != [] {
      var last := |shards| - 1;
      var before := AllIds(shards[..last]);
      ShardedPrefix(shards, sessions, tests);
      IdsOfShards(shards[..last], sessions[..last], tests[..last]);
      SessionLog(sessions[last], tests[last]);
      IdsStep(before, shards[last].ids, tests[last]);
      DisjointLast(tests);
      assert Union(tests[..last]) !! tests[last] <==> forall t :: t in before ==> t !in tests[last];
      assert AllIds(shards) == before + shards[last].ids;
    }
  }

  lemma ShardedPrefix(shards: seq<Shard>, sessions: seq<seq<Report>>, tests: seq<set<string>>)
    requires Sharded(shards, sessions, tests) && shards != []
    ensures var last := |shards| - 1; Sharded(shards[..last], sessions[..last], tests[..last])
  {
  }

  lemma IdsStep(before: seq<string>, ids: seq<string>, tests: set<string>)
    requires multiset(ids) == multiset(tests)
    ensures forall t :: t in before + ids <==> t in before || t in tests
    ensures AtMostOnce(before + ids) <==> AtMostOnce(before) && forall t :: t in before ==> t !in tests
  {
    assert forall t :: t in ids <==> t in multiset(ids);
    assert forall t :: t in before <==> t in multiset(before);
    assert forall t :: multiset(before + ids)[t] == multiset(before)[t] + multiset(tests)[t];
    assert forall t :: multiset(tests)[t] == if t in tests then 1 else 0;
    if AtMostOnce(before + ids) {
      forall t ensures multiset(before)[t] <= 1 && (t in before ==> t !in tests) {
        assert multiset(before + ids)[t] <= 1;
      }
    }
  }

  lemma {:induction false} InUnion(sets: seq<set<string>>, t: string)
    ensures t in Union(sets) <==> exists i :: 0 <= i < |sets| && t in sets[i]
  {
    if sets != [] {
      InUnion(sets[..|sets| - 1], t);
      assert forall i :: 0 <= i < |sets| - 1 ==> sets[..|sets| - 1][i] == sets[i];
    }
  }

  lemma DisjointLast(sets: seq<set<string>>)
    requires sets != []
    ensures Disjoint(sets) <==> Disjoint(sets[..|sets| - 1]) && Union(sets[..|sets| - 1]) !! sets[|sets| - 1]
  {
    var init := sets[..|sets| - 1];
    if Disjoint(sets) {
      forall t | t in Union(init) ensures t !in sets[|sets| - 1] { InUnion(init, t); }
    }
    if Disjoint(init) && Union(init) !! sets[|sets| - 1] {
      forall i, j | 0 <= i < j < |sets| ensures sets[i] !! sets[j] {
        if j == |sets| - 1 {
          forall t | t in sets[i] ensures t !in sets[j] {
            assert init[i] == sets[i];
            InUnion(init, t);
          }
        } else {
          assert init[i] == sets[i] && init[j] == sets[j];
        }
      }
    }
  }

  /** The verdict over shards that each ran their tests to the end: good if and only if the collected
      tests, repeated nowhere, are split among the shards, each to exactly one. */
  lemma OkIffPartition(full: seq<string>, shards: seq<Shard>, sessions: seq<seq<Report>>, tests: seq<set<string>>)
    requires Sharded(shards, sessions, tests)
    ensures full != [] && NoRepeats(full) && multiset(full) == multiset(AllIds(shards))
       <==> full != [] && NoRepeats(full) && Disjoint(tests) && forall t :: t in full <==> t in Union(tests)
  {
    IdsOfShards(shards, sessions, tests);
    OnceEach(full, multiset(AllIds(shards)));
    NoRepeatsCounts(full);
    assert forall t :: t in AllIds(shards) <==> t in multiset(AllIds(shards));
  }

  // ------------------------------------------------------------ merged durations

  /** Shard `k` is the last that ran the test. */
  ghost predicate LastRan(shards: seq<Shard>, test: string, k: nat) {
    k < |shards| && test in shards[k].ids && forall m :: k < m < |shards| ==> test !in shards[m].ids
  }

  ghost predicate Stored(shards: seq<Shard>) {
    forall k :: 0 <= k < |shards| ==> forall t :: t in shards[k].ids ==> t in shards[k].durations
  }

  /** The durations so far: one for each test that ran, from the last shard that ran it. */
  ghost predicate MergedFrom(shards: seq<Shard>, merged: map<string, real>) {
    && (forall t :: t in merged <==> t in AllIds(shards))
    && forall t, k: nat :: t in merged && LastRan(shards, t, k) && t in shards[k].durations ==>
         merged[t] == shards[k].durations[t]
  }

  /** `merge_durations`; `None` is its error. */
  method MergeDurations(shards: seq<Shard>) returns (result: Option<map<string, real>>)
    ensures result.Some? <==> Stored(shards)
    ensures result.Some? ==> MergedFrom(shards, result.value)
  {
    var merged: map<string, real> := map[];
    var missing: seq<string> := [];
    for k := 0 to |shards|
      invariant missing == [] <==> Stored(shards[..k])
      invariant missing == [] ==> MergedFrom(shards[..k], merged)
    {
      ghost var before := merged;
      var lost: seq<string>;
      merged, lost := MergeShard(merged, shards[k]);
      missing := missing + lost;
      assert shards[..k + 1] == shards[..k] + [shards[k]];
      assert Stored(shards[..k + 1]) <==> Stored(shards[..k]) && lost == [];
      if missing == [] { MergeStep(shards, k, before, merged); }
    }
    assert shards[..|shards|] == shards;
    result := if missing != [] then None else Some(merged);
  }

  /** The inner loop, for one shard. */
  method MergeShard(before: map<string, real>, shard: Shard) returns (merged: map<string, real>, lost: seq<string>)
    ensures lost == [] <==> forall t :: t in shard.ids ==> t in shard.durations
    ensures lost == [] ==> forall t :: t in merged <==> t in before || t in shard.ids
    ensures lost == [] ==>
              forall t :: t in merged ==> merged[t] == if t in shard.ids && t in shard.durations then shard.durations[t]
                                                        else if t in before then before[t] else 0.0
  {
    merged, lost := before, [];
    for i := 0 to |shard.ids|
      invariant lost == [] <==> forall t :: t in shard.ids[..i] ==> t in shard.durations
      invariant forall t :: t in merged <==> t in before || (t in shard.ids[..i] && t in shard.durations)
      invariant forall t :: t in merged ==>
                  merged[t] == if t in shard.ids[..i] && t in shard.durations then shard.durations[t]
                               else if t in before then before[t] else 0.0
    {
      var test := shard.ids[i];
      assert shard.ids[..i + 1] == shard.ids[..i] + [test];
      if test in shard.durations {
        merged := merged[test := shard.durations[test]];
      } else {
        lost := lost + [test];
      }
    }
    assert shard.ids[..|shard.ids|] == shard.ids;
  }

  lemma MergeStep(shards: seq<Shard>, k: nat, before: map<string, real>, merged: map<string, real>)
    requires k < |shards| && MergedFrom(shards[..k], before)
    requires forall t :: t in shards[k].ids ==> t in shards[k].durations
    requires forall t :: t in merged <==> t in before || t in shards[k].ids
    requires forall t :: t in merged ==>
               merged[t] == if t in shards[k].ids && t in shards[k].durations then shards[k].durations[t]
                            else if t in before then before[t] else 0.0
    ensures MergedFrom(shards[..k + 1], merged)
  {
    var now := shards[..k + 1];
    assert now[..k] == shards[..k];
    forall t, m: nat | t in merged && LastRan(now, t, m) && t in now[m].durations
      ensures merged[t] == now[m].durations[t]
    {
      if m < k {
        assert t !in now[k].ids;
        assert LastRan(shards[..k], t, m) && shards[..k][m] == now[m];
      }
    }
  }
}
