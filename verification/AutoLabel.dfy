/** One evaluation of `scripts/auto_label.py`: what the checks say, what the comments
    say, one decision, and the loop over pull requests. */
module AutoLabel {
  import opened Sequences

  const MIN_SHA: nat := 8
  const TRUSTED: set<string> := {"OWNER", "MEMBER", "COLLABORATOR"}
  const BAD_CONCLUSIONS: set<string> :=
    {"failure", "cancelled", "timed_out", "action_required", "startup_failure", "stale"}
  const IGNORED_CONCLUSIONS: set<string> := {"skipped", "neutral"}
  const REQUIRED_CHECKS: seq<string> := [
    "backend (pytest)", "backend lint, anchors and benchmarks", "backend shard 1/3", "backend shard 2/3",
    "backend shard 3/3", "does the app start?", "frontend (vitest + tsc)",
    "accessibility (axe serious/critical gate)", "gitleaks", "no-client-data guard",
    "dependency audit (python)", "dependency audit (frontend)"]
  const PAGE: nat := 100
  const PAGES: nat := 10
  const SEEN: nat := PAGE * PAGES

  // ------------------------------------------------------------ the checks of a head

  datatype CheckRun = CheckRun(name: string, status: string, conclusion: Option<string>)
  datatype Checks = Green | Red | Pending

  predicate Concluded(run: CheckRun, among: set<string>) { run.conclusion.Some? && run.conclusion.value in among }

  predicate Completed(run: CheckRun) { run.status == "completed" }

  predicate Succeeded(run: CheckRun) { run.conclusion == Some("success") }

  /** The runs that count: neither skipped nor neutral. */
  function RealRuns(runs: seq<CheckRun>): (counted: seq<CheckRun>)
    ensures forall run :: run in counted <==> run in runs && !Concluded(run, IGNORED_CONCLUSIONS)
  {
    if runs == [] then [] else
      (if Concluded(runs[0], IGNORED_CONCLUSIONS) then [] else [runs[0]]) + RealRuns(runs[1..])
  }

  /** `{run["name"]: run for run in counted}.get(name)`: the last run of that name. */
  function ByName(counted: seq<CheckRun>, name: string): (run: Option<CheckRun>)
    ensures run.Some? ==> run.value in counted && run.value.name == name
    ensures run.None? ==> forall r :: r in counted ==> r.name != name
  {
    if counted == [] then None
    else if counted[|counted| - 1].name == name then Some(counted[|counted| - 1])
    else ByName(counted[..|counted| - 1], name)
  }

  predicate IsWaiting(counted: seq<CheckRun>, name: string) {
    var run := ByName(counted, name);
    run.None? || !Completed(run.value)
  }

  /** `checks_state`. */
  function ChecksState(required: seq<string>, runs: seq<CheckRun>): Checks {
    var counted := RealRuns(runs);
    if exists run :: run in counted && Concluded(run, BAD_CONCLUSIONS) then Red
    else if exists name :: name in required && IsWaiting(counted, name) then Pending
    else if exists run :: run in counted && !Completed(run) then Pending
    else if forall run :: run in counted ==> Succeeded(run) then Green
    else Red
  }

  predicate Counts(runs: seq<CheckRun>, run: CheckRun) {
    run in runs && run.conclusion != Some("skipped") && run.conclusion != Some("neutral")
  }

  predicate WentWrong(run: CheckRun) {
    run.conclusion in {Some("failure"), Some("cancelled"), Some("timed_out"), Some("action_required"),
                       Some("startup_failure"), Some("stale")}
  }

  ghost predicate HasRun(runs: seq<CheckRun>, name: string) { exists run :: Counts(runs, run) && run.name == name }

  /** Every required check has a run that counts, and every run that counts is complete and successful. */
  ghost predicate AllSucceeded(required: seq<string>, runs: seq<CheckRun>) {
    && (forall name :: name in required ==> HasRun(runs, name))
    && forall run :: Counts(runs, run) ==> Completed(run) && Succeeded(run)
  }

  /** Some run that counts concluded badly; or all required checks are in, every run that counts is
      complete, and one did not succeed. */
  ghost predicate Failed(required: seq<string>, runs: seq<CheckRun>) {
    || (exists run :: Counts(runs, run) && WentWrong(run))
    || (&& (forall name :: name in required ==> HasRun(runs, name))
        && (forall run :: Counts(runs, run) ==> Completed(run))
        && exists run :: Counts(runs, run) && !Succeeded(run))
  }

  /** When every run that counts is complete, a required check waits exactly when it has none. */
  lemma WaitingIff(required: seq<string>, runs: seq<CheckRun>, name: string)
    ensures var counted := RealRuns(runs);
            && (!HasRun(runs, name) ==> IsWaiting(counted, name))
            && (HasRun(runs, name) && (forall run :: Counts(runs, run) ==> Completed(run))
                ==> !IsWaiting(counted, name))
  {
    var counted := RealRuns(runs);
    var run := ByName(counted, name);
    if run.Some? {
      assert Counts(runs, run.value);
    } else {
      assert forall r :: Counts(runs, r) ==> r in counted;
    }
  }

  /** Green means that every required check has a run that counts, and that every run that counts
      is complete and successful, whatever order they are listed in and however often a name repeats. */
  lemma GreenIff(required: seq<string>, runs: seq<CheckRun>)
    ensures ChecksState(required, runs) == Green <==> AllSucceeded(required, runs)
  {
    var counted := RealRuns(runs);
    assert forall run :: run in counted <==> Counts(runs, run);
    NotBad();
    forall name { WaitingIff(required, runs, name); }
  }

  /** Red means that a run that counts concluded badly, or that nothing is missing or unfinished and
      some run that counts did not succeed. */
  lemma RedIff(required: seq<string>, runs: seq<CheckRun>)
    ensures ChecksState(required, runs) == Red <==> Failed(required, runs)
  {
    var counted := RealRuns(runs);
    assert forall run :: run in counted <==> Counts(runs, run);
    forall name { WaitingIff(required, runs, name); }
  }

  lemma NotBad()
    ensures "success" !in BAD_CONCLUSIONS
  {
    assert |"success"| == 7 && |"failure"| == 7 && "success"[0] == 's' && "failure"[0] == 'f';
    assert |"cancelled"| == 9 && |"timed_out"| == 9 && |"action_required"| == 15;
    assert |"startup_failure"| == 15 && |"stale"| == 5;
  }

  // ------------------------------------------------------------ the comments

  /** What the regular expressions of the script find: the sentences of a text, the first
      "approved at <sha>" token of a sentence, whether a text hedges, the shas a text names. */
  datatype Language = Language(sentences: string -> seq<string>, approval: string -> Option<string>,
                               hedges: string -> bool, shas: string -> seq<string>, lower: string -> string) {

    ghost predicate Valid() {
      forall s: string :: approval(s).Some? ==> |lower(approval(s).value)| >= MIN_SHA
    }
  }

  predicate SentenceApproves(lang: Language, sentence: string, head: string) {
    && lang.approval(sentence).Some?
    && lang.lower(lang.approval(sentence).value) <= lang.lower(head)
    && !lang.hedges(sentence)
  }

  predicate Approves(lang: Language, body: string, head: string) {
    exists sentence :: sentence in lang.sentences(body) && SentenceApproves(lang, sentence, head)
  }

  predicate NamesHead(lang: Language, body: string, head: string) {
    exists token :: token in lang.shas(body) && lang.lower(token) <= lang.lower(head)
  }

  predicate Withdraws(lang: Language, body: string, head: string) {
    NamesHead(lang, body, head) && lang.hedges(body) && !Approves(lang, body, head)
  }

  datatype Remark = Remark(association: string, isBot: bool, body: string)

  predicate Trusted(c: Remark) { c.association in TRUSTED && !c.isBot }

  predicate Decides(lang: Language, c: Remark, head: string) {
    Trusted(c) && (Approves(lang, c.body, head) || Withdraws(lang, c.body, head))
  }

  /** The newest trusted comment that approves or withdraws this head approves it. */
  ghost predicate ApprovedNow(lang: Language, comments: seq<Remark>, head: string) {
    exists i ::
      && 0 <= i < |comments| && Trusted(comments[i]) && Approves(lang, comments[i].body, head)
      && forall j :: i < j < |comments| ==> !Decides(lang, comments[j], head)
  }

  /** `approved_now`, from the newest comment back. */
  method ReadApproval(lang: Language, comments: seq<Remark>, head: string) returns (approved: bool)
    ensures approved == ApprovedNow(lang, comments, head)
  {
    var n := |comments|;
    while n > 0
      invariant 0 <= n <= |comments|
      invariant forall j :: n <= j < |comments| ==> !Decides(lang, comments[j], head)
    {
      n := n - 1;
      if !Trusted(comments[n]) { continue; }
      if Approves(lang, comments[n].body, head) { return true; }
      if Withdraws(lang, comments[n].body, head) { return false; }
    }
    return false;
  }

  /** Comment `j` is the newest that decides. */
  predicate DecidesLast(lang: Language, comments: seq<Remark>, head: string, j: nat) {
    && j < |comments| && Decides(lang, comments[j], head)
    && forall m :: j < m < |comments| ==> !Decides(lang, comments[m], head)
  }

  lemma ApprovedByLast(lang: Language, comments: seq<Remark>, head: string, j: nat)
    requires DecidesLast(lang, comments, head, j)
    ensures ApprovedNow(lang, comments, head) <==> Approves(lang, comments[j].body, head)
  {
    if ApprovedNow(lang, comments, head) {
      var i :| && 0 <= i < |comments| && Trusted(comments[i]) && Approves(lang, comments[i].body, head)
               && forall m :: i < m < |comments| ==> !Decides(lang, comments[m], head);
      assert Decides(lang, comments[i], head);
    }
  }

  lemma {:induction false} SomeDecidesLast(lang: Language, comments: seq<Remark>, head: string, n: nat) returns (j: nat)
    requires n <= |comments| && (forall m :: n <= m < |comments| ==> !Decides(lang, comments[m], head))
    requires exists i :: 0 <= i < n && Decides(lang, comments[i], head)
    ensures DecidesLast(lang, comments, head, j)
  {
    if Decides(lang, comments[n - 1], head) {
      j := n - 1;
    } else {
      j := SomeDecidesLast(lang, comments, head, n - 1);
    }
  }

  /** The newest comment decides if it is trusted and has a sentence that approves the head without a
      hedge, or if it is trusted, names the head, hedges and has no such sentence; any other changes
      nothing. */
  lemma NewestComment(lang: Language, comments: seq<Remark>, c: Remark, head: string)
    ensures var clear := exists s :: s in lang.sentences(c.body) && !lang.hedges(s) && lang.approval(s).Some?
                                     && lang.lower(lang.approval(s).value) <= lang.lower(head);
            var named := exists token :: token in lang.shas(c.body) && lang.lower(token) <= lang.lower(head);
            var trusted := c.association in {"OWNER", "MEMBER", "COLLABORATOR"} && !c.isBot;
            ApprovedNow(lang, comments + [c], head)
            <==> if trusted && clear then true
                 else if trusted && named && lang.hedges(c.body) then false
                 else ApprovedNow(lang, comments, head)
  {
    if s :| s in lang.sentences(c.body) && !lang.hedges(s) && lang.approval(s).Some?
            && lang.lower(lang.approval(s).value) <= lang.lower(head) {
      assert SentenceApproves(lang, s, head);
    }
    if Decides(lang, c, head) {
      Decided(lang, comments, c, head);
    } else {
      Undecided(lang, comments, c, head);
    }
  }

  lemma Decided(lang: Language, comments: seq<Remark>, c: Remark, head: string)
    requires Decides(lang, c, head)
    ensures ApprovedNow(lang, comments + [c], head) <==> Approves(lang, c.body, head)
  {
    assert (comments + [c])[|comments|] == c;
    ApprovedByLast(lang, comments + [c], head, |comments|);
  }

  lemma Undecided(lang: Language, comments: seq<Remark>, c: Remark, head: string)
    requires !Decides(lang, c, head)
    ensures ApprovedNow(lang, comments + [c], head) <==> ApprovedNow(lang, comments, head)
  {
    var all, n := comments + [c], |comments|;
    assert forall i :: 0 <= i < n ==> all[i] == comments[i];
    assert all[n] == c;
    if i :| 0 <= i < n && Decides(lang, comments[i], head) {
      var j := SomeDecidesLast(lang, comments, head, n);
      ApprovedByLast(lang, comments, head, j);
      assert DecidesLast(lang, all, head, j);
      ApprovedByLast(lang, all, head, j);
    }
  }

  /** An approval does not carry over a push: a sentence that approves the new head does not
      approve an old head whose first eight characters differ. */
  lemma NoCarryOver(lang: Language, sentence: string, before: string, after: string)
    requires lang.Valid() && |lang.lower(before)| >= MIN_SHA && |lang.lower(after)| >= MIN_SHA
    requires lang.lower(before)[..MIN_SHA] != lang.lower(after)[..MIN_SHA]
    requires SentenceApproves(lang, sentence, after)
    ensures !SentenceApproves(lang, sentence, before)
  {
    var token := lang.lower(lang.approval(sentence).value);
    var start, other := token[..MIN_SHA], lang.lower(before)[..MIN_SHA];
    assert lang.lower(after)[..MIN_SHA] == start;
    assert token <= lang.lower(before) ==> other == start;
  }

  function Seen<T>(all: seq<T>): seq<T> { if |all| <= SEEN then all else all[..SEEN] }

  /** `Api.pages`: pages of a hundred, ten at most, until one is not full. */
  method Pages<T>(all: seq<T>) returns (found: seq<T>)
    ensures found == Seen(all)
  {
    found := [];
    var page := 1;
    while page <= PAGES
      invariant 1 <= page <= PAGES + 1 && (page - 1) * PAGE <= |all|
      invariant found == all[..(page - 1) * PAGE]
    {
      var upto := if page * PAGE <= |all| then page * PAGE else |all|;
      var items := all[(page - 1) * PAGE..upto];
      found := found + items;
      assert found == all[..upto];
      if |items| < PAGE { break; }
      page := page + 1;
    }
  }

  /** The script reads the oldest thousand comments. What they say is what all comments say exactly
      when the newest deciding comment is among them or decides as they do. */
  lemma OldestThousandDecide(lang: Language, comments: seq<Remark>, head: string)
    ensures ApprovedNow(lang, Seen(comments), head) == ApprovedNow(lang, comments, head)
       <==> forall j: nat :: 1000 <= j && DecidesLast(lang, comments, head, j) ==>
              (Approves(lang, comments[j].body, head) <==> ApprovedNow(lang, Seen(comments), head))
  {
    var seen := Seen(comments);
    if j: nat :| SEEN <= j && DecidesLast(lang, comments, head, j) {
      ApprovedByLast(lang, comments, head, j);
    } else {
      forall m | |seen| <= m < |comments| ensures !Decides(lang, comments[m], head) {
        if Decides(lang, comments[m], head) {
          var j := SomeDecidesLast(lang, comments, head, |comments|);
        }
      }
      SeenDecides(lang, comments, head);
    }
  }

  /** When no deciding comment comes later, the oldest thousand decide as all do. */
  lemma SeenDecides(lang: Language, comments: seq<Remark>, head: string)
    requires forall m :: |Seen(comments)| <= m < |comments| ==> !Decides(lang, comments[m], head)
    ensures ApprovedNow(lang, Seen(comments), head) == ApprovedNow(lang, comments, head)
  {
    var seen := Seen(comments);
    assert forall m :: 0 <= m < |seen| ==> comments[m] == seen[m];
    if i :| 0 <= i < |seen| && Decides(lang, seen[i], head) {
      var j := SomeDecidesLast(lang, comments, head, |comments|);
      assert DecidesLast(lang, seen, head, j);
      ApprovedByLast(lang, comments, head, j);
      ApprovedByLast(lang, seen, head, j);
    } else {
      assert forall i :: 0 <= i < |comments| ==> !Decides(lang, comments[i], head);
    }
  }

  lemma LateWithdrawalUnseen(lang: Language, comments: seq<Remark>, c: Remark, head: string)
    requires |comments| >= 1000 && Trusted(c) && Withdraws(lang, c.body, head)
    ensures !ApprovedNow(lang, comments + [c], head)
    ensures ApprovedNow(lang, Seen(comments + [c]), head) == ApprovedNow(lang, Seen(comments), head)
  {
    var all := comments + [c];
    assert Seen(all) == Seen(comments);
    assert all[|comments|] == c && Decides(lang, all[|comments|], head);
  }

  /** A thousand approvals of a head and then a withdrawal, in whatever words the script takes for
      that: it reads an approval that no longer stands. */
  lemma WithdrawalIgnored(lang: Language, head: string, approval: Remark, withdrawal: Remark)
    returns (comments: seq<Remark>)
    requires Trusted(approval) && Approves(lang, approval.body, head)
    requires Trusted(withdrawal) && Withdraws(lang, withdrawal.body, head)
    ensures forall c :: c in comments <==> c == approval || c == withdrawal
    ensures ApprovedNow(lang, Seen(comments), head) && !ApprovedNow(lang, comments, head)
  {
    var early := seq(SEEN, i => approval);
    assert Seen(early) == early && early[SEEN - 1] == approval;
    assert ApprovedNow(lang, early, head);
    comments := early + [withdrawal];
    LateWithdrawalUnseen(lang, early, withdrawal, head);
  }

  // ------------------------------------------------------------ one decision

  /** `pull_request_target` (a push), `issue_comment`, `workflow_run`. */
  datatype Event = Pushed | Commented | Finished
  datatype Action = Add | Remove | Keep

  datatype Pr = Pr(head: string, open: bool, labelled: bool, comments: seq<Remark>,
                   runs: map<string, seq<CheckRun>>)

  function RunsAt(pr: Pr, head: string): seq<CheckRun> { if head in pr.runs then pr.runs[head] else [] }

  function RunsOn(pr: Pr): seq<CheckRun> { RunsAt(pr, pr.head) }

  /** What an evaluation has read: the head and whether the label is on, the comments, and the checks of
      that head. */
  datatype Look = Look(head: string, labelled: bool, comments: seq<Remark>, runs: seq<CheckRun>)

  /** All required checks are in and successful, and the newest deciding comment approves the head. */
  ghost predicate EarnedBy(lang: Language, look: Look) {
    ChecksState(REQUIRED_CHECKS, look.runs) == Green && ApprovedNow(lang, look.comments, look.head)
  }

  ghost function Decision(lang: Language, event: Event, look: Look): Action {
    if event == Pushed then if look.labelled then Remove else Keep
    else if EarnedBy(lang, look) then if look.labelled then Keep else Add
    else if look.labelled && ChecksState(REQUIRED_CHECKS, look.runs) == Red then Remove
    else Keep
  }

  /** `decide`. */
  method Decide(lang: Language, event: Event, head: string, comments: seq<Remark>, runs: seq<CheckRun>,
                labelled: bool) returns (action: Action)
    ensures action == Decision(lang, event, Look(head, labelled, comments, runs))
  {
    if event == Pushed { return if labelled then Remove else Keep; }
    var state := ChecksState(REQUIRED_CHECKS, runs);
    if state == Green {
      var approved := ReadApproval(lang, comments, head);
      if approved { return if labelled then Keep else Add; }
    }
    if labelled && state == Red { return Remove; }
    return Keep;
  }

  /** What an evaluation reads that nothing disturbs. */
  function Snapshot(pr: Pr): Look { Look(pr.head, pr.labelled, Seen(pr.comments), Seen(RunsOn(pr))) }

  ghost predicate Earned(lang: Language, pr: Pr) { EarnedBy(lang, Snapshot(pr)) }

  function Apply(action: Action, labelled: bool): bool {
    match action case Add => true case Remove => false case Keep => labelled
  }

  /** What one undisturbed evaluation leaves of the label. */
  ghost function Evaluated(lang: Language, event: Event, pr: Pr): Pr {
    if pr.open then pr.(labelled := Apply(Decision(lang, event, Snapshot(pr)), pr.labelled)) else pr
  }

  /** Open pull requests after an undisturbed evaluation: a push or a failed head leaves the label off;
      an earned label is on; and only a push or a failed head takes a label off, so a comment that
      withdraws an approval stops a later label but does not remove one. */
  lemma EvaluationMeans(lang: Language, event: Event, pr: Pr)
    requires pr.open
    ensures var runs := Seen(RunsOn(pr));
            Evaluated(lang, event, pr).labelled
            <==> && event != Pushed && !Failed(REQUIRED_CHECKS, runs)
                 && (pr.labelled
                     || (AllSucceeded(REQUIRED_CHECKS, runs) && ApprovedNow(lang, Seen(pr.comments), pr.head)))
    ensures Evaluated(lang, event, pr) == pr.(labelled := Evaluated(lang, event, pr).labelled)
  {
    RedIff(REQUIRED_CHECKS, Seen(RunsOn(pr)));
    GreenIff(REQUIRED_CHECKS, Seen(RunsOn(pr)));
  }

  /** A run that counts and concluded badly leaves the label off, whatever the event and the comments. */
  lemma BadRunUnlabels(lang: Language, event: Event, pr: Pr, run: CheckRun)
    requires pr.open && Counts(Seen(RunsOn(pr)), run) && WentWrong(run)
    ensures !Evaluated(lang, event, pr).labelled
  {
    EvaluationMeans(lang, event, pr);
  }

  // ------------------------------------------------------------ the loop over pull requests

  ghost function EvaluateAll(lang: Language, event: Event, prs: map<nat, Pr>, numbers: seq<nat>): map<nat, Pr>
    requires forall n :: n in numbers ==> n in prs
    ensures EvaluateAll(lang, event, prs, numbers).Keys == prs.Keys
  {
    if numbers == [] then prs else
      var last := numbers[|numbers| - 1];
      var before := EvaluateAll(lang, event, prs, numbers[..|numbers| - 1]);
      before[last := Evaluated(lang, event, before[last])]
  }

  /** The pull requests of the event that are open, with what is decided for each in its turn. */
  ghost function Done(lang: Language, event: Event, prs: map<nat, Pr>, numbers: seq<nat>): seq<(nat, Action)>
    requires forall n :: n in numbers ==> n in prs
  {
    if numbers == [] then [] else
      var last := numbers[|numbers| - 1];
      var pr := EvaluateAll(lang, event, prs, numbers[..|numbers| - 1])[last];
      Done(lang, event, prs, numbers[..|numbers| - 1])
      + if pr.open then [(last, Decision(lang, event, Snapshot(pr)))] else []
  }

  /** One turn of the loop of `run`: the pull request is read, decided and, if need be, labelled. */
  method EvaluateOne(lang: Language, event: Event, pr: Pr) returns (after: Pr, action: Action)
    requires pr.open
    ensures action == Decision(lang, event, Snapshot(pr)) && after == Evaluated(lang, event, pr)
  {
    var comments := Pages(pr.comments);
    var runs := Pages(RunsOn(pr));
    action := Decide(lang, event, pr.head, comments, runs, pr.labelled);
    after := pr.(labelled := Apply(action, pr.labelled));
  }

  lemma OneMoreNumber(lang: Language, event: Event, prs: map<nat, Pr>, numbers: seq<nat>, k: nat)
    requires (forall n :: n in numbers ==> n in prs) && k < |numbers|
    ensures forall n :: n in numbers[..k + 1] ==> n in prs
    ensures var now := EvaluateAll(lang, event, prs, numbers[..k]);
            var pr := now[numbers[k]];
            && EvaluateAll(lang, event, prs, numbers[..k + 1]) == now[numbers[k] := Evaluated(lang, event, pr)]
            && Done(lang, event, prs, numbers[..k + 1])
               == Done(lang, event, prs, numbers[..k])
                  + if pr.open then [(numbers[k], Decision(lang, event, Snapshot(pr)))] else []
  {
    assert numbers[..k + 1][..k] == numbers[..k];
    assert forall n :: n in numbers[..k + 1] ==> n in numbers;
  }

  class Repository {
    var prs: map<nat, Pr>

    constructor (known: map<nat, Pr>)
      ensures prs == known
    {
      prs := known;
    }

    /** `run`, over the pull requests of one event, none of which changes meanwhile. */
    method Run(lang: Language, event: Event, numbers: seq<nat>) returns (done: seq<(nat, Action)>)
      requires forall n :: n in numbers ==> n in prs
      modifies this
      ensures prs == EvaluateAll(lang, event, old(prs), numbers)
      ensures done == Done(lang, event, old(prs), numbers)
    {
      done := [];
      for k := 0 to |numbers|
        invariant prs == EvaluateAll(lang, event, old(prs), numbers[..k])
        invariant done == Done(lang, event, old(prs), numbers[..k])
      {
        var number := numbers[k];
        OneMoreNumber(lang, event, old(prs), numbers, k);
        var pr := prs[number];
        if !pr.open {
          assert prs[number := pr] == prs;
          continue;
        }
        var after, action := EvaluateOne(lang, event, pr);
        prs := prs[number := after];
        done := done + [(number, action)];
      }
      assert numbers[..|numbers|] == numbers;
    }
  }
}
