/** `_reserve_name` of `scripts/backup_db.py`: a backup file name is taken by creating the
    file exclusively, and a name that exists is skipped. */
module NameReservation {
  import opened Sequences
  import opened Decimals

  const NAME_ATTEMPTS: nat := 100

  function Suffix(attempt: nat): string { if attempt == 0 then "" else "-" + Decimal(attempt) }

  function Candidate(stamp: string, attempt: nat): string {
    "rag_intelligence-" + stamp + Suffix(attempt) + ".sqlite"
  }

  /** Different attempts ask for different names. */
  lemma CandidatesDiffer(stamp: string, a: nat, b: nat)
    requires Candidate(stamp, a) == Candidate(stamp, b)
    ensures a == b
  {
    var head, tail := "rag_intelligence-" + stamp, ".sqlite";
    var x, y := Candidate(stamp, a), Candidate(stamp, b);
    assert x[|head|..|x| - |tail|] == Suffix(a) && y[|head|..|y| - |tail|] == Suffix(b);
    if a != 0 && b != 0 {
      assert Suffix(a)[1..] == Decimal(a) && Suffix(b)[1..] == Decimal(b);
    }
    ReadBack(a);
    ReadBack(b);
  }

  /** The directory: file names and what the files hold. */
  type Files = map<string, string>

  class Directory {
    var files: Files

    /** One caller on its own: it creates the first free name, or finds all of them taken. */
    method ReserveName(stamp: string) returns (r: Option<string>)
      modifies this
      ensures r.Some? ==> exists k: nat :: k < NAME_ATTEMPTS && r.value == Candidate(stamp, k)
                            && (forall j: nat :: j < k ==> Candidate(stamp, j) in old(files))
                            && r.value !in old(files) && files == old(files)[r.value := ""]
      ensures r.None? ==> files == old(files)
                          && forall k: nat :: k < NAME_ATTEMPTS ==> Candidate(stamp, k) in files
    {
      for attempt := 0 to NAME_ATTEMPTS
        invariant files == old(files)
        invariant forall j: nat :: j < attempt ==> Candidate(stamp, j) in files
      {
        var candidate := Candidate(stamp, attempt);
        if candidate in files { continue; }
        files := files[candidate := ""];
        return Some(candidate);
      }
      r := None;
    }
  }

  /** The names that a call with this stamp tries, in order. */
  function Candidates(stamp: string): (names: seq<string>)
    ensures |names| == NAME_ATTEMPTS && forall k :: 0 <= k < NAME_ATTEMPTS ==> names[k] == Candidate(stamp, k)
  {
    seq(NAME_ATTEMPTS, k requires 0 <= k < NAME_ATTEMPTS => Candidate(stamp, k))
  }

  lemma CandidatesAreDistinct(stamp: string)
    ensures NoRepeats(Candidates(stamp))
  {
    forall i, j | 0 <= i < j < NAME_ATTEMPTS ensures Candidate(stamp, i) != Candidate(stamp, j) {
      if Candidate(stamp, i) == Candidate(stamp, j) { CandidatesDiffer(stamp, i, j); }
    }
  }

  // ------------------------------------------------------------ many callers at once

  /** A caller is about to try an attempt, has its name, or has given up. */
  datatype Caller = Trying(attempt: nat) | Returned(attempt: nat) | Raised

  datatype State = State(files: Files, callers: seq<Caller>)

  /** Caller `c` makes its next exclusive create, or, having its name, writes its own file. */
  datatype Step = Try(c: nat) | Write(c: nat, content: string)

  function Start(files: Files, n: nat): State {
    State(files, seq(n, _ => Trying(0)))
  }

  /** One step of callers that all try `names` in order. */
  function Next(names: seq<string>, s: State, step: Step): State {
    if step.c >= |s.callers| then s
    else match (step, s.callers[step.c]) {
      case (Try(c), Trying(k)) =>
        if k >= |names| then s.(callers := s.callers[c := Raised])
        else if names[k] in s.files then s.(callers := s.callers[c := Trying(k + 1)])
        else State(s.files[names[k] := ""], s.callers[c := Returned(k)])
      case (Write(c, content), Returned(k)) =>
        if k < |names| then s.(files := s.files[names[k] := content]) else s
      case _ => s
    }
  }

  function Run(names: seq<string>, s: State, steps: seq<Step>): State {
    if steps == [] then s else Next(names, Run(names, s, steps[..|steps| - 1]), steps[|steps| - 1])
  }

  /** The caller found attempt `j` taken. */
  predicate Passed(names: seq<string>, caller: Caller, j: nat) {
    match caller
    case Trying(k) => j < k <= |names|
    case Returned(k) => j < k < |names|
    case Raised => j < |names|
  }

  /** The files of before are there as they were. */
  ghost predicate OldKept(before: Files, s: State) {
    forall f :: f in before ==> f in s.files && s.files[f] == before[f]
  }

  /** A caller's name is new and its own. */
  ghost predicate NamesOwn(names: seq<string>, before: Files, s: State) {
    && (forall c :: 0 <= c < |s.callers| && s.callers[c].Returned?
          ==> s.callers[c].attempt < |names| && names[s.callers[c].attempt] !in before
              && names[s.callers[c].attempt] in s.files)
    && (forall c, d :: 0 <= c < d < |s.callers| && s.callers[c].Returned? && s.callers[d].Returned?
          ==> s.callers[c].attempt != s.callers[d].attempt)
  }

  /** Every new file is some caller's. */
  ghost predicate NewFilesOwned(names: seq<string>, before: Files, s: State) {
    forall f :: f in s.files && f !in before ==> Owned(names, s, f)
  }

  ghost predicate Owned(names: seq<string>, s: State, f: string) {
    exists c :: 0 <= c < |s.callers| && s.callers[c].Returned? && s.callers[c].attempt < |names|
                && f == names[s.callers[c].attempt]
  }

  /** A caller has only skipped names that exist. */
  ghost predicate SkippedTaken(names: seq<string>, s: State) {
    forall c, j: nat :: 0 <= c < |s.callers| && Passed(names, s.callers[c], j) ==> names[j] in s.files
  }

  ghost predicate InRange(names: seq<string>, s: State) {
    forall c :: 0 <= c < |s.callers| && s.callers[c].Trying? ==> s.callers[c].attempt <= |names|
  }

  ghost predicate Inv(names: seq<string>, before: Files, s: State) {
    && OldKept(before, s) && NamesOwn(names, before, s) && NewFilesOwned(names, before, s)
    && SkippedTaken(names, s) && InRange(names, s)
  }

  lemma StepKeepsOld(names: seq<string>, before: Files, s: State, step: Step)
    requires Inv(names, before, s)
    ensures OldKept(before, Next(names, s, step))
  {}

  lemma StepKeepsSkipped(names: seq<string>, before: Files, s: State, step: Step)
    requires Inv(names, before, s)
    ensures SkippedTaken(names, Next(names, s, step)) && InRange(names, Next(names, s, step))
  {
    var t := Next(names, s, step);
    forall c, j: nat | 0 <= c < |t.callers| && Passed(names, t.callers[c], j) ensures names[j] in t.files {
      assert Passed(names, s.callers[c], j) || names[j] in s.files;
    }
  }

  lemma StepKeepsNames(names: seq<string>, before: Files, s: State, step: Step)
    requires NoRepeats(names) && OldKept(before, s) && NamesOwn(names, before, s)
    ensures NamesOwn(names, before, Next(names, s, step))
  {
    if step.Try? && step.c < |s.callers| && s.callers[step.c].Trying? {
      var k := s.callers[step.c].attempt;
      if k < |names| && names[k] !in s.files {
        forall d | 0 <= d < |s.callers| && s.callers[d].Returned? ensures s.callers[d].attempt != k {}
      }
    }
  }

  lemma StepKeepsOwned(names: seq<string>, before: Files, s: State, step: Step)
    requires Inv(names, before, s)
    ensures NewFilesOwned(names, before, Next(names, s, step))
  {
    var t := Next(names, s, step);
    forall f | f in t.files && f !in before ensures Owned(names, t, f) {
      if f in s.files {
        var c :| 0 <= c < |s.callers| && s.callers[c].Returned? && s.callers[c].attempt < |names|
                 && f == names[s.callers[c].attempt];
        assert t.callers[c] == s.callers[c];
      } else {
        assert t.callers[step.c].Returned?;
      }
    }
  }

  lemma {:induction false} EveryRunKeepsInv(names: seq<string>, before: Files, n: nat, steps: seq<Step>)
    requires NoRepeats(names)
    ensures Inv(names, before, Run(names, Start(before, n), steps))
    ensures |Run(names, Start(before, n), steps).callers| == n
  {
    if steps != [] {
      var s := Run(names, Start(before, n), steps[..|steps| - 1]);
      EveryRunKeepsInv(names, before, n, steps[..|steps| - 1]);
      StepKeepsOld(names, before, s, steps[|steps| - 1]);
      StepKeepsSkipped(names, before, s, steps[|steps| - 1]);
      StepKeepsNames(names, before, s, steps[|steps| - 1]);
      StepKeepsOwned(names, before, s, steps[|steps| - 1]);
    }
  }

  /** In every interleaving no two callers get one name, and no caller gets or alters a file that
      was there before. */
  lemma NamesAreOwn(stamp: string, before: Files, n: nat, steps: seq<Step>)
    ensures var s := Run(Candidates(stamp), Start(before, n), steps);
            && |s.callers| == n
            && (forall f :: f in before ==> f in s.files && s.files[f] == before[f])
            && (forall c :: 0 <= c < n && s.callers[c].Returned? ==> Candidate(stamp, s.callers[c].attempt) !in before)
            && (forall c, d :: 0 <= c < d < n && s.callers[c].Returned? && s.callers[d].Returned?
                  ==> Candidate(stamp, s.callers[c].attempt) != Candidate(stamp, s.callers[d].attempt))
  {
    CandidatesAreDistinct(stamp);
    EveryRunKeepsInv(Candidates(stamp), before, n, steps);
    var s := Run(Candidates(stamp), Start(before, n), steps);
    forall c, d | 0 <= c < d < n && s.callers[c].Returned? && s.callers[d].Returned?
      ensures Candidate(stamp, s.callers[c].attempt) != Candidate(stamp, s.callers[d].attempt)
    {
      if Candidate(stamp, s.callers[c].attempt) == Candidate(stamp, s.callers[d].attempt) {
        CandidatesDiffer(stamp, s.callers[c].attempt, s.callers[d].attempt);
      }
    }
  }

  /** What caller `c` wrote last, of its writes after it had its name. */
  ghost function Written(names: seq<string>, start: State, steps: seq<Step>, c: nat): string {
    if steps == [] then "" else
      var before, last := steps[..|steps| - 1], steps[|steps| - 1];
      var s := Run(names, start, before);
      if last.Write? && last.c == c < |s.callers| && s.callers[c].Returned? then last.content
      else Written(names, start, before, c)
  }

  lemma StepKeepsWritten(names: seq<string>, before: Files, s: State, step: Step, c: nat)
    requires NoRepeats(names) && Inv(names, before, s) && c < |s.callers| && s.callers[c].Returned?
    ensures var t := Next(names, s, step);
            && t.callers[c] == s.callers[c] && names[s.callers[c].attempt] in t.files
            && t.files[names[s.callers[c].attempt]]
               == if step.Write? && step.c == c then step.content else s.files[names[s.callers[c].attempt]]
  {
    if step.c < |s.callers| && step.c != c && s.callers[step.c].Returned? {
      assert s.callers[step.c].attempt != s.callers[c].attempt;
    }
  }

  /** In every interleaving the file of a caller that has its name holds what this caller wrote last, or
      nothing yet, whatever the others write. */
  lemma {:induction false} WritesStay(names: seq<string>, before: Files, n: nat, steps: seq<Step>, c: nat)
    requires NoRepeats(names) && c < n
    ensures var s := Run(names, Start(before, n), steps);
            && |s.callers| == n
            && (s.callers[c].Returned? ==>
                  && s.callers[c].attempt < |names| && names[s.callers[c].attempt] in s.files
                  && s.files[names[s.callers[c].attempt]] == Written(names, Start(before, n), steps, c))
            && (!s.callers[c].Returned? ==> Written(names, Start(before, n), steps, c) == "")
  {
    EveryRunKeepsInv(names, before, n, steps);
    if steps != [] {
      var init, step := steps[..|steps| - 1], steps[|steps| - 1];
      var s := Run(names, Start(before, n), init);
      EveryRunKeepsInv(names, before, n, init);
      WritesStay(names, before, n, init, c);
      if s.callers[c].Returned? { StepKeepsWritten(names, before, s, step, c); }
    }
  }

  /** How many of the steps are tries of caller `c`. */
  function Tries(steps: seq<Step>, c: nat): nat {
    if steps == [] then 0
    else Tries(steps[..|steps| - 1], c) + if steps[|steps| - 1] == Try(c) then 1 else 0
  }

  /** A caller given NAME_ATTEMPTS + 1 tries has finished, whatever the others do. */
  lemma {:induction false} EachCallerFinishes(names: seq<string>, before: Files, n: nat, steps: seq<Step>, c: nat)
    requires c < n && NoRepeats(names)
    ensures var s := Run(names, Start(before, n), steps);
            |s.callers| == n && (s.callers[c].Trying? ==> s.callers[c].attempt == Tries(steps, c) <= |names|)
  {
    EveryRunKeepsInv(names, before, n, steps);
    if steps != [] {
      EachCallerFinishes(names, before, n, steps[..|steps| - 1], c);
    }
  }

  /** The attempts whose names a directory already holds. */
  ghost function Taken(names: seq<string>, files: Files): set<nat> {
    set k | k in Below(|names|) && names[k] in files
  }

  /** The attempts whose names the callers have. */
  ghost function Given(callers: seq<Caller>): set<nat> {
    if callers == [] then {} else
      Given(callers[..|callers| - 1])
      + if callers[|callers| - 1].Returned? then {callers[|callers| - 1].attempt} else {}
  }

  lemma {:induction false} GivenAre(callers: seq<Caller>, k: nat)
    ensures k in Given(callers) <==> Returned(k) in callers
  {
    if callers != [] {
      var last := |callers| - 1;
      GivenAre(callers[..last], k);
      assert callers == callers[..last] + [callers[last]];
    }
  }

  lemma {:induction false} GivenAtMost(callers: seq<Caller>)
    ensures |Given(callers)| <= |callers|
    ensures (exists c :: 0 <= c < |callers| && !callers[c].Returned?) ==> |Given(callers)| < |callers|
  {
    if callers != [] {
      GivenAtMost(callers[..|callers| - 1]);
      assert callers == callers[..|callers| - 1] + [callers[|callers| - 1]];
    }
  }

  lemma {:induction false} GivenByAll(callers: seq<Caller>)
    requires forall c :: 0 <= c < |callers| ==> callers[c].Returned?
    requires forall c, d :: 0 <= c < d < |callers| ==> callers[c].attempt != callers[d].attempt
    ensures |Given(callers)| == |callers|
  {
    if callers != [] {
      var last := |callers| - 1;
      GivenByAll(callers[..last]);
      GivenAre(callers[..last], callers[last].attempt);
      assert callers[last].attempt !in Given(callers[..last]);
    }
  }

  lemma GivenCount(callers: seq<Caller>)
    requires forall c, d :: 0 <= c < d < |callers| && callers[c].Returned? && callers[d].Returned?
               ==> callers[c].attempt != callers[d].attempt
    ensures |Given(callers)| <= |callers|
    ensures |Given(callers)| == |callers| <==> forall c :: 0 <= c < |callers| ==> callers[c].Returned?
  {
    GivenAtMost(callers);
    if forall c :: 0 <= c < |callers| ==> callers[c].Returned? { GivenByAll(callers); }
  }

  /** The names given are none of those taken before, and as many as the callers that have one. */
  lemma GivenFit(names: seq<string>, before: Files, s: State)
    requires Inv(names, before, s)
    ensures Given(s.callers) <= Below(|names|) && Taken(names, before) !! Given(s.callers)
    ensures |Given(s.callers)| <= |s.callers|
    ensures |Given(s.callers)| == |s.callers| <==> forall c :: 0 <= c < |s.callers| ==> s.callers[c].Returned?
  {
    forall k: nat | k in Given(s.callers) ensures k < |names| && k !in Taken(names, before) {
      GivenAre(s.callers, k);
      var c :| 0 <= c < |s.callers| && s.callers[c] == Returned(k);
    }
    GivenCount(s.callers);
  }

  lemma AllReturnedFit(names: seq<string>, before: Files, s: State)
    requires NoRepeats(names) && Inv(names, before, s)
    requires forall c :: 0 <= c < |s.callers| ==> s.callers[c].Returned?
    ensures |Taken(names, before)| + |s.callers| <= |names|
  {
    GivenFit(names, before, s);
    Room(|names|, Taken(names, before), Given(s.callers), |s.callers|);
  }

  lemma OneRaisedDoesNotFit(names: seq<string>, before: Files, s: State, c: nat)
    requires NoRepeats(names) && Inv(names, before, s) && c < |s.callers| && s.callers[c] == Raised
    ensures |Taken(names, before)| + |s.callers| > |names|
  {
    GivenFit(names, before, s);
    EveryNameGone(names, before, s, c);
    assert Taken(names, before) + Given(s.callers) == Below(|names|);
    Room(|names|, Taken(names, before), Given(s.callers), |s.callers|);
  }

  /** Once every caller has finished: all of them have a name if and only if the names taken
      before and the callers together are within the attempt bound. */
  lemma AllReturnIffRoom(names: seq<string>, before: Files, n: nat, steps: seq<Step>)
    requires NoRepeats(names)
    requires forall caller :: caller in Run(names, Start(before, n), steps).callers ==> !caller.Trying?
    ensures (forall caller :: caller in Run(names, Start(before, n), steps).callers ==> caller.Returned?)
            <==> |Taken(names, before)| + n <= |names|
  {
    EveryRunKeepsInv(names, before, n, steps);
    var s := Run(names, Start(before, n), steps);
    if c: nat :| c < n && !s.callers[c].Returned? {
      assert s.callers[c] in s.callers;
      OneRaisedDoesNotFit(names, before, s, c);
    } else {
      AllReturnedFit(names, before, s);
    }
  }

  lemma Room(total: nat, earlier: set<nat>, given: set<nat>, n: nat)
    requires earlier <= Below(total) && given <= Below(total) && earlier !! given && |given| <= n
    ensures |given| == n ==> |earlier| + n <= total
    ensures |given| < n && earlier + given == Below(total) ==> |earlier| + n > total
  {
    assert |earlier + given| == |earlier| + |given|;
    Smaller(earlier + given, Below(total));
  }

  /** A caller that gave up found every name taken, before or by the others. */
  lemma EveryNameGone(names: seq<string>, before: Files, s: State, c: nat)
    requires NoRepeats(names) && Inv(names, before, s) && c < |s.callers| && s.callers[c] == Raised
    ensures forall k: nat :: k < |names| ==> k in Taken(names, before) || k in Given(s.callers)
  {
    forall k: nat | k < |names| ensures k in Taken(names, before) || k in Given(s.callers) {
      assert Passed(names, s.callers[c], k);
      if names[k] !in before {
        assert Owned(names, s, names[k]);
        var d :| 0 <= d < |s.callers| && s.callers[d].Returned? && s.callers[d].attempt < |names|
                 && names[k] == names[s.callers[d].attempt];
        assert s.callers[d] == Returned(k);
        GivenAre(s.callers, k);
      }
    }
  }
}
