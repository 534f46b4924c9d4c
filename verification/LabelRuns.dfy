/** The label of `scripts/auto_label.py` over every run: pushes, comments, checks, and evaluations
    that read the pull request, its comments and its checks and write at moments of their own. */
module LabelRuns {
  import opened Sequences
  import opened AutoLabel

  /** How an evaluation decides, and when it finds the label earned. */
  datatype Rule = Rule(decide: (Event, Look) -> Action, earned: Look -> bool)

  /** The rule of the script. */
  ghost function RuleOf(lang: Language): Rule {
    Rule((event: Event, look: Look) => Decision(lang, event, look), (look: Look) => EarnedBy(lang, look))
  }

  /** An addition is earned and no push's, and a push takes the label off. */
  predicate FitsRule(rule: Rule, event: Event, look: Look) {
    && (rule.decide(event, look) == Add ==> event != Pushed && rule.earned(look))
    && (event == Pushed ==> rule.decide(event, look) == OnPush(look.labelled))
  }

  function OnPush(labelled: bool): Action { if labelled then Remove else Keep }

  ghost predicate Proper(rule: Rule) { forall event, look: Look :: FitsRule(rule, event, look) }

  lemma ScriptIsProper(lang: Language)
    ensures Proper(RuleOf(lang))
  {
    forall event, look: Look ensures FitsRule(RuleOf(lang), event, look) {}
  }

  /** An evaluation under way: its event, how many pushes came before it read the pull request, what it
      found there, and the comments and the checks of that head once it has read them. */
  datatype Job = Job(event: Event, epoch: nat, head: string, labelled: bool,
                     comments: Option<seq<Remark>>, runs: Option<seq<CheckRun>>) {

    predicate HasRead() { comments.Some? && runs.Some? }

    function Found(): Look
      requires HasRead()
    {
      Look(head, labelled, comments.value, runs.value)
    }
  }

  /** A push's evaluation decides by the label alone; one that has not read everything writes nothing. */
  function ActionOf(rule: Rule, job: Job): Action {
    if job.event == Pushed then OnPush(job.labelled)
    else if job.HasRead() then rule.decide(job.event, job.Found())
    else Keep
  }

  /** The pull request, how many pushes there were, the evaluations under way, and after which of
      the pushes some evaluation found the label earned. */
  datatype System = System(pr: Pr, epoch: nat, jobs: seq<Job>, earned: set<nat>)

  /** `Read` is an evaluation that finds the pull request open; one that finds it closed does
      nothing and is no step. Then it reads the comments, and then the checks of the head it found. */
  datatype Step =
    | Push(head: string)
    | Say(remark: Remark)
    | Check(sha: string, found: seq<CheckRun>)
    | Read(event: Event)
    | ReadComments(k: nat)
    | ReadChecks(k: nat)
    | Write(k: nat)

  predicate Starts(s: System) { s.epoch == 0 && s.jobs == [] && s.earned == {} && !s.pr.labelled }

  function NewJob(s: System, event: Event): Job { Job(event, s.epoch, s.pr.head, s.pr.labelled, None, None) }

  function WithComments(s: System, job: Job): Job { job.(comments := Some(Seen(s.pr.comments))) }

  function WithChecks(s: System, job: Job): Job { job.(runs := Some(Seen(RunsAt(s.pr, job.head)))) }

  function AfterComments(s: System, k: nat): System {
    if k < |s.jobs| && s.jobs[k].comments.None? then s.(jobs := s.jobs[k := WithComments(s, s.jobs[k])]) else s
  }

  predicate FindsEarned(rule: Rule, job: Job) { job.event != Pushed && job.HasRead() && rule.earned(job.Found()) }

  function AfterChecks(rule: Rule, s: System, k: nat): System {
    if k < |s.jobs| && s.jobs[k].comments.Some? && s.jobs[k].runs.None? then
      var job := WithChecks(s, s.jobs[k]);
      s.(jobs := s.jobs[k := job], earned := if FindsEarned(rule, job) then s.earned + {job.epoch} else s.earned)
    else s
  }

  function AfterWrite(rule: Rule, s: System, k: nat): System
    requires k < |s.jobs|
  {
    s.(pr := s.pr.(labelled := Apply(ActionOf(rule, s.jobs[k]), s.pr.labelled)), jobs := Removed(s.jobs, k))
  }

  /** A push changes the head; the label changes only when an evaluation writes. */
  function Next(rule: Rule, s: System, step: Step): System
    requires step.Write? ==> step.k < |s.jobs|
  {
    match step
    case Push(head) => s.(pr := s.pr.(head := head), epoch := s.epoch + 1)
    case Say(remark) => s.(pr := s.pr.(comments := s.pr.comments + [remark]))
    case Check(sha, found) => s.(pr := s.pr.(runs := s.pr.runs[sha := found]))
    case Read(event) => s.(jobs := s.jobs + [NewJob(s, event)])
    case ReadComments(k) => AfterComments(s, k)
    case ReadChecks(k) => AfterChecks(rule, s, k)
    case Write(k) => AfterWrite(rule, s, k)
  }

  /** What happens before a reading is read: a comment, the checks of the head found, a new head. */
  lemma StepsAreRead(rule: Rule, s: System, k: nat, remark: Remark, found: seq<CheckRun>, head: string, event: Event)
    requires k < |s.jobs|
    ensures s.jobs[k].comments.None? ==>
              Next(rule, Next(rule, s, Say(remark)), ReadComments(k)).jobs[k].comments
              == Some(Seen(s.pr.comments + [remark]))
    ensures s.jobs[k].comments.Some? && s.jobs[k].runs.None? ==>
              Next(rule, Next(rule, s, Check(s.jobs[k].head, found)), ReadChecks(k)).jobs[k].runs == Some(Seen(found))
    ensures var jobs := Next(rule, Next(rule, s, Push(head)), Read(event)).jobs;
            |jobs| == |s.jobs| + 1 && jobs[|s.jobs|].head == head && jobs[|s.jobs|].event == event
  {
  }

  // ------------------------------------------------------------ orders of pushes and evaluations

  /** What the order of a run is made of: pushes, and for each evaluation when it reads the pull request
      and when it writes. All the rest may come anywhere in between. */
  datatype Move = Pushing | Reading(event: Event) | Writing(k: nat)

  /** An evaluation: its event, where in the order it reads, and how many pushes come before that. */
  datatype Evaluation = Evaluation(event: Event, at: nat, epoch: nat)

  function Epoch(order: seq<Move>): nat {
    if order == [] then 0 else Epoch(order[..|order| - 1]) + if order[|order| - 1].Pushing? then 1 else 0
  }

  /** The evaluations that have read and not written at the end of the order. */
  function UnderWay(order: seq<Move>): seq<Evaluation> {
    if order == [] then [] else
      var n := |order| - 1;
      var before := UnderWay(order[..n]);
      match order[n]
      case Pushing => before
      case Reading(event) => before + [Evaluation(event, n, Epoch(order[..n]))]
      case Writing(k) => if k < |before| then Removed(before, k) else before
  }

  /** Every write is that of an evaluation under way. */
  predicate Possible(order: seq<Move>) {
    order == [] ||
    (var n := |order| - 1;
     Possible(order[..n]) && (order[n].Writing? ==> order[n].k < |UnderWay(order[..n])|))
  }

  /** At `w` evaluation `x` writes. */
  predicate Writes(order: seq<Move>, w: nat, x: Evaluation) {
    && w < |order| && order[w].Writing? && order[w].k < |UnderWay(order[..w])|
    && UnderWay(order[..w])[order[w].k] == x
  }

  /** At `w` an evaluation of a comment or of checks writes that read before the last push. */
  predicate OldWrite(order: seq<Move>, w: nat, x: Evaluation) {
    Writes(order, w, x) && x.event != Pushed && x.epoch < Epoch(order)
  }

  /** After `w` an evaluation of a push has read and written. */
  ghost predicate ClearedAfter(order: seq<Move>, w: nat) {
    exists p: nat, y: Evaluation :: Writes(order, p, y) && y.event == Pushed && y.at > w
  }

  /** Since each write of an evaluation that read before the last push, some push's evaluation has
      read and written. */
  ghost predicate Covered(order: seq<Move>) {
    forall w: nat, x: Evaluation :: OldWrite(order, w, x) ==> ClearedAfter(order, w)
  }

  lemma Grown(order: seq<Move>, m: Move)
    ensures (order + [m])[..|order|] == order && (order + [m])[|order|] == m
    ensures Epoch(order + [m]) == Epoch(order) + if m.Pushing? then 1 else 0
    ensures m.Pushing? ==> UnderWay(order + [m]) == UnderWay(order)
    ensures m.Reading? ==> UnderWay(order + [m]) == UnderWay(order) + [Evaluation(m.event, |order|, Epoch(order))]
    ensures m.Writing? && m.k < |UnderWay(order)| ==> UnderWay(order + [m]) == Removed(UnderWay(order), m.k)
    ensures Possible(order + [m]) <==> Possible(order) && (m.Writing? ==> m.k < |UnderWay(order)|)
  {
  }

  /** What one step adds to the order. */
  function MoveOf(step: Step): Option<Move> {
    match step
    case Push(_) => Some(Pushing)
    case Read(event) => Some(Reading(event))
    case Write(k) => Some(Writing(k))
    case _ => None
  }

  function Order(steps: seq<Step>): seq<Move> {
    if steps == [] then [] else
      var before, m := Order(steps[..|steps| - 1]), MoveOf(steps[|steps| - 1]);
      if m.Some? then before + [m.value] else before
  }

  lemma OrderInit(steps: seq<Step>)
    requires steps != [] && Possible(Order(steps))
    ensures Possible(Order(steps[..|steps| - 1]))
    ensures var last := steps[|steps| - 1];
            last.Write? ==> last.k < |UnderWay(Order(steps[..|steps| - 1]))|
  {
    LastMove(steps);
    var before, m := Order(steps[..|steps| - 1]), MoveOf(steps[|steps| - 1]);
    if m.Some? { Grown(before, m.value); }
  }

  lemma LastMove(steps: seq<Step>)
    requires steps != []
    ensures var before, last := Order(steps[..|steps| - 1]), steps[|steps| - 1];
            && Order(steps) == (if MoveOf(last).Some? then before + [MoveOf(last).value] else before)
            && (last.Write? ==> MoveOf(last) == Some(Writing(last.k)))
  {
  }

  function JobsMore(step: Step): int { if step.Read? then 1 else if step.Write? then -1 else 0 }

  lemma NextJobs(rule: Rule, s: System, step: Step)
    requires step.Write? ==> step.k < |s.jobs|
    ensures |Next(rule, s, step).jobs| == |s.jobs| + JobsMore(step)
  {
  }

  lemma UnderWayMore(steps: seq<Step>)
    requires steps != [] && Possible(Order(steps))
    ensures |UnderWay(Order(steps))| == |UnderWay(Order(steps[..|steps| - 1]))| + JobsMore(steps[|steps| - 1])
  {
    OrderInit(steps);
    LastMove(steps);
    var before, m := Order(steps[..|steps| - 1]), MoveOf(steps[|steps| - 1]);
    if m.Some? { Grown(before, m.value); }
  }

  /** The system after a run. */
  ghost function After(rule: Rule, s: System, steps: seq<Step>): (end: System)
    requires s.jobs == [] && Possible(Order(steps))
    ensures |end.jobs| == |UnderWay(Order(steps))|
  {
    if steps == [] then s else
      OrderInit(steps);
      UnderWayMore(steps);
      var before := After(rule, s, steps[..|steps| - 1]);
      NextJobs(rule, before, steps[|steps| - 1]);
      Next(rule, before, steps[|steps| - 1])
  }

  /** A label means that it was earned since the last push. */
  predicate Honest(s: System) { s.pr.labelled ==> s.epoch in s.earned }

  // ------------------------------------------------------------ covered orders are safe

  lemma {:induction false} UnderWayFacts(order: seq<Move>, j: nat)
    requires j < |UnderWay(order)|
    ensures var x := UnderWay(order)[j];
            && x.at < |order| && order[x.at] == Reading(x.event) && x.epoch == Epoch(order[..x.at])
  {
    var n := |order| - 1;
    var before := UnderWay(order[..n]);
    match order[n]
    case Pushing =>
      UnderWayFacts(order[..n], j);
      Shorter(order, UnderWay(order)[j].at);
    case Reading(event) =>
      if j < |before| {
        UnderWayFacts(order[..n], j);
        Shorter(order, UnderWay(order)[j].at);
      }
    case Writing(k) =>
      var i := if k < |before| && j >= k then j + 1 else j;
      assert UnderWay(order)[j] == before[i];
      UnderWayFacts(order[..n], i);
      Shorter(order, before[i].at);
  }

  lemma Shorter(order: seq<Move>, i: nat)
    requires order != []
    ensures i < |order| ==> order[..|order| - 1][..i] == order[..i]
  {
  }

  lemma WritesGrown(order: seq<Move>, m: Move, w: nat, x: Evaluation)
    ensures w < |order| ==> (Writes(order + [m], w, x) <==> Writes(order, w, x))
    ensures w == |order| && m.Writing? && m.k < |UnderWay(order)| ==>
              (Writes(order + [m], w, x) <==> x == UnderWay(order)[m.k])
    ensures w == |order| && !m.Writing? ==> !Writes(order + [m], w, x)
  {
    Grown(order, m);
    if w < |order| { assert (order + [m])[..w] == order[..w]; }
  }

  /** No push's evaluation that read after `w` has written. */
  ghost predicate Uncleared(order: seq<Move>, w: nat) { !ClearedAfter(order, w) }

  /** The jobs are the order's pending evaluations, and what they decided fits what was earned. */
  ghost predicate Sound(rule: Rule, s: System, order: seq<Move>) {
    && s.epoch == Epoch(order) && |s.jobs| == |UnderWay(order)|
    && (forall j :: 0 <= j < |s.jobs| ==> FitsJob(rule, s, UnderWay(order)[j], s.jobs[j]))
    && (forall e :: e in s.earned ==> e <= s.epoch)
  }

  predicate FitsJob(rule: Rule, s: System, x: Evaluation, job: Job) {
    && job.event == x.event && job.epoch == x.epoch <= s.epoch && (job.runs.Some? ==> job.comments.Some?)
    && (FindsEarned(rule, job) ==> x.epoch in s.earned)
  }

  lemma AddsWhatIsEarned(rule: Rule, s: System, x: Evaluation, job: Job)
    requires Proper(rule) && FitsJob(rule, s, x, job) && ActionOf(rule, job) == Add
    ensures x.event != Pushed && x.epoch in s.earned
  {
    assert FitsRule(rule, job.event, job.Found());
  }

  /** The pushes' evaluations under way that read after `w` found the label on. */
  predicate Marked(s: System, order: seq<Move>, w: nat)
    requires |s.jobs| == |UnderWay(order)|
  {
    forall j :: 0 <= j < |s.jobs| && UnderWay(order)[j].event == Pushed && UnderWay(order)[j].at > w ==>
      s.jobs[j].labelled
  }

  /** Write `w` put the label on, and what still may come has seen it. */
  ghost predicate PutOn(s: System, order: seq<Move>, w: nat, x: Evaluation)
    requires |s.jobs| == |UnderWay(order)|
  {
    Writes(order, w, x) && x.event != Pushed && x.epoch in s.earned && Uncleared(order, w) && Marked(s, order, w)
  }

  ghost predicate Traced(s: System, order: seq<Move>)
    requires |s.jobs| == |UnderWay(order)|
  {
    s.pr.labelled ==> exists w: nat, x: Evaluation :: PutOn(s, order, w, x)
  }

  lemma StaysSound(rule: Rule, s: System, order: seq<Move>, step: Step)
    requires Sound(rule, s, order)
    requires MoveOf(step).Some? && Possible(order + [MoveOf(step).value])
    ensures step.Write? ==> step.k < |s.jobs|
    ensures Sound(rule, Next(rule, s, step), order + [MoveOf(step).value])
  {
    var m := MoveOf(step).value;
    Grown(order, m);
    if step.Write? {
      var rest, evaluations := Removed(s.jobs, step.k), Removed(UnderWay(order), step.k);
      forall j | 0 <= j < |rest| ensures FitsJob(rule, Next(rule, s, step), evaluations[j], rest[j]) {
        var i := if j < step.k then j else j + 1;
        assert rest[j] == s.jobs[i] && evaluations[j] == UnderWay(order)[i];
      }
    }
  }

  lemma UnclearedGrown(order: seq<Move>, m: Move, w: nat)
    requires Uncleared(order, w) && Possible(order + [m])
    requires m.Writing? ==> var y := UnderWay(order)[m.k]; y.event == Pushed ==> y.at <= w
    ensures Uncleared(order + [m], w)
  {
    Grown(order, m);
    if p: nat, y: Evaluation :| Writes(order + [m], p, y) && y.event == Pushed && y.at > w {
      WritesGrown(order, m, p, y);
    }
  }

  /** The write that put the label on is still uncleared after one more move. */
  lemma PutOnStays(rule: Rule, s: System, order: seq<Move>, step: Step, w: nat, x: Evaluation)
    requires Proper(rule) && Sound(rule, s, order)
    requires MoveOf(step).Some? && Possible(order + [MoveOf(step).value])
    requires PutOn(s, order, w, x) && s.pr.labelled
    requires step.Write? ==> step.k < |s.jobs| && ActionOf(rule, s.jobs[step.k]) == Keep
    ensures step.Write? ==> step.k < |s.jobs|
    ensures Sound(rule, Next(rule, s, step), order + [MoveOf(step).value])
    ensures PutOn(Next(rule, s, step), order + [MoveOf(step).value], w, x)
  {
    var m := MoveOf(step).value;
    var next, longer := Next(rule, s, step), order + [m];
    StaysSound(rule, s, order, step);
    Grown(order, m);
    WritesGrown(order, m, w, x);
    UnclearedGrown(order, m, w);
    MarkedStay(rule, s, order, step, w);
  }

  lemma MarkedStay(rule: Rule, s: System, order: seq<Move>, step: Step, w: nat)
    requires |s.jobs| == |UnderWay(order)| && Marked(s, order, w) && s.pr.labelled
    requires MoveOf(step).Some? && Possible(order + [MoveOf(step).value]) && (step.Write? ==> step.k < |s.jobs|)
    ensures |Next(rule, s, step).jobs| == |UnderWay(order + [MoveOf(step).value])|
    ensures Marked(Next(rule, s, step), order + [MoveOf(step).value], w)
  {
    var m := MoveOf(step).value;
    var next, longer := Next(rule, s, step), order + [m];
    Grown(order, m);
    forall j | 0 <= j < |next.jobs| && UnderWay(longer)[j].event == Pushed && UnderWay(longer)[j].at > w
      ensures next.jobs[j].labelled
    {
      if step.Write? {
        var i := if j < step.k then j else j + 1;
        assert next.jobs[j] == s.jobs[i] && UnderWay(longer)[j] == UnderWay(order)[i];
      }
    }
  }

  lemma NothingAfter(order: seq<Move>, w: nat)
    requires |order| <= w + 1
    ensures Uncleared(order, w)
  {
    if p: nat, y: Evaluation :| Writes(order, p, y) && y.event == Pushed && y.at > w {
      UnderWayFacts(order[..p], order[p].k);
    }
  }

  /** The write of an addition puts the label on. */
  lemma PutsOn(rule: Rule, s: System, order: seq<Move>, k: nat)
    requires Proper(rule) && Sound(rule, s, order) && Possible(order + [Writing(k)])
    requires k < |s.jobs| && ActionOf(rule, s.jobs[k]) == Add
    requires Sound(rule, AfterWrite(rule, s, k), order + [Writing(k)])
    ensures PutOn(AfterWrite(rule, s, k), order + [Writing(k)], |order|, UnderWay(order)[k])
  {
    assert FitsJob(rule, s, UnderWay(order)[k], s.jobs[k]);
    AddsWhatIsEarned(rule, s, UnderWay(order)[k], s.jobs[k]);
    WritesGrown(order, Writing(k), |order|, UnderWay(order)[k]);
    NothingAfter(order + [Writing(k)], |order|);
    ReadBefore(order, k);
  }

  /** What is still under way read before. */
  lemma ReadBefore(order: seq<Move>, k: nat)
    requires k < |UnderWay(order)|
    ensures forall j :: 0 <= j < |UnderWay(order + [Writing(k)])| ==> UnderWay(order + [Writing(k)])[j].at < |order|
  {
    var longer := order + [Writing(k)];
    Grown(order, Writing(k));
    forall j | 0 <= j < |UnderWay(longer)| ensures UnderWay(longer)[j].at < |order| {
      assert UnderWay(longer)[j] == UnderWay(order)[if j < k then j else j + 1];
      UnderWayFacts(order, if j < k then j else j + 1);
    }
  }

  lemma StaysTraced(rule: Rule, s: System, order: seq<Move>, step: Step)
    requires Proper(rule) && Sound(rule, s, order) && Traced(s, order)
    requires MoveOf(step).Some? && Possible(order + [MoveOf(step).value])
    ensures step.Write? ==> step.k < |s.jobs|
    ensures var next, longer := Next(rule, s, step), order + [MoveOf(step).value];
            Sound(rule, next, longer) && Traced(next, longer)
  {
    StaysSound(rule, s, order, step);
    if Next(rule, s, step).pr.labelled {
      if step.Write? && ActionOf(rule, s.jobs[step.k]) == Add {
        PutsOn(rule, s, order, step.k);
      } else {
        var w: nat, x: Evaluation :| PutOn(s, order, w, x);
        PutOnStays(rule, s, order, step, w, x);
      }
    }
  }

  lemma {:induction false} RunIsTraced(rule: Rule, s: System, steps: seq<Step>)
    requires Proper(rule) && Starts(s) && Possible(Order(steps))
    ensures Sound(rule, After(rule, s, steps), Order(steps)) && Traced(After(rule, s, steps), Order(steps))
  {
    if steps != [] {
      var init, last := steps[..|steps| - 1], steps[|steps| - 1];
      OrderInit(steps);
      RunIsTraced(rule, s, init);
      if MoveOf(last).Some? {
        StaysTraced(rule, After(rule, s, init), Order(init), last);
      } else {
        SaidAndChecked(rule, After(rule, s, init), Order(init), last);
      }
    }
  }

  lemma SaidAndChecked(rule: Rule, s: System, order: seq<Move>, step: Step)
    requires Sound(rule, s, order) && Traced(s, order) && MoveOf(step).None?
    ensures Sound(rule, Next(rule, s, step), order) && Traced(Next(rule, s, step), order)
  {
    var next := Next(rule, s, step);
    forall j | 0 <= j < |s.jobs| ensures FitsJob(rule, next, UnderWay(order)[j], next.jobs[j]) {
      assert FitsJob(rule, s, UnderWay(order)[j], s.jobs[j]);
    }
    if s.pr.labelled {
      var w: nat, x: Evaluation :| PutOn(s, order, w, x);
      assert forall j :: 0 <= j < |s.jobs| ==> next.jobs[j].labelled == s.jobs[j].labelled;
      assert PutOn(next, order, w, x);
    }
  }

  lemma TracedIsHonest(rule: Rule, s: System, order: seq<Move>)
    requires Sound(rule, s, order) && Traced(s, order) && Covered(order)
    ensures Honest(s)
  {
    if s.pr.labelled {
      var w: nat, x: Evaluation :| PutOn(s, order, w, x);
      assert !OldWrite(order, w, x);
    }
  }

  /** Every run of a covered order ends honest. */
  lemma CoveredIsHonest(rule: Rule, s: System, steps: seq<Step>)
    requires Proper(rule) && Starts(s) && Possible(Order(steps)) && Covered(Order(steps))
    ensures Honest(After(rule, s, steps))
  {
    RunIsTraced(rule, s, steps);
    TracedIsHonest(rule, After(rule, s, steps), Order(steps));
  }

  // ------------------------------------------------------------ other orders are not

  /** An evaluation writes once: evaluations under way have different places. */
  lemma {:induction false} UnderWayDiffer(order: seq<Move>, i: nat, j: nat)
    requires i < j < |UnderWay(order)|
    ensures UnderWay(order)[i].at < UnderWay(order)[j].at
  {
    var n := |order| - 1;
    var before := UnderWay(order[..n]);
    match order[n]
    case Pushing => UnderWayDiffer(order[..n], i, j);
    case Reading(event) =>
      if j < |before| { UnderWayDiffer(order[..n], i, j); } else { UnderWayFacts(order[..n], i); }
    case Writing(k) =>
      if k < |before| {
        assert forall m :: 0 <= m < |before| - 1 ==> Removed(before, k)[m] == before[if m < k then m else m + 1];
        UnderWayDiffer(order[..n], if i < k then i else i + 1, if j < k then j else j + 1);
      } else {
        UnderWayDiffer(order[..n], i, j);
      }
  }

  lemma {:induction false} Gone(order: seq<Move>, w: nat, x: Evaluation, j: nat)
    requires Writes(order, w, x) && j < |UnderWay(order)|
    ensures UnderWay(order)[j].at != x.at
    decreases |order|
  {
    var n := |order| - 1;
    var init := order[..n];
    var before := UnderWay(init);
    UnderWayFacts(order[..w], order[w].k);
    assert order == init + [order[n]];
    Grown(init, order[n]);
    WritesGrown(init, order[n], w, x);
    if w < n {
      assert init[..w] == order[..w];
      match order[n]
      case Pushing => Gone(init, w, x, j);
      case Reading(event) => if j < |before| { Gone(init, w, x, j); }
      case Writing(k) => Gone(init, w, x, if k < |before| && j >= k then j + 1 else j);
    } else {
      var k := order[n].k;
      var i := if j < k then j else j + 1;
      assert UnderWay(order)[j] == before[i];
      if i < k { UnderWayDiffer(init, i, k); } else { UnderWayDiffer(init, k, i); }
    }
  }

  /** The run that shows it: only the evaluation that reads at `r` finds the label earned, and its
      write at `w` is never cleared. The head pushed just before is `good`, every other is `other`;
      `green` are the checks that earn the label and `approval` the comment; before and after, a check
      of the good head is queued, and other heads have no checks. */
  datatype Plot = Plot(order: seq<Move>, r: nat, w: nat, event: Event, good: string, other: string,
                       green: seq<CheckRun>, queued: seq<CheckRun>, approval: Remark)

  function EarningEpoch(p: Plot): nat
    requires p.r <= |p.order|
  {
    Epoch(p.order[..p.r])
  }

  ghost predicate Works(p: Plot) {
    && Possible(p.order) && p.event != Pushed && p.r < p.w < |p.order| && p.order[p.r] == Reading(p.event)
    && Writes(p.order, p.w, Evaluation(p.event, p.r, EarningEpoch(p))) && Uncleared(p.order, p.w)
    && EarningEpoch(p) < Epoch(p.order)
  }

  /** Without checks or with one queued nothing is earned and nothing is done; with the green ones the good
      head earns. */
  predicate Plays(rule: Rule, p: Plot, event: Event, look: Look) {
    && (event != Pushed && (look.runs == [] || look.runs == p.queued)
        ==> rule.decide(event, look) == Keep && !rule.earned(look))
    && (event != Pushed && look == Look(p.good, false, [p.approval], p.green)
        ==> rule.decide(event, look) == Add && rule.earned(look))
  }

  ghost predicate Stages(rule: Rule, p: Plot) {
    && Works(p) && Proper(rule) && Seen(p.green) == p.green && Seen(p.queued) == p.queued
    && forall event, look: Look :: Plays(rule, p, event, look)
  }

  function HeadAt(p: Plot, epoch: nat): string
    requires p.r <= |p.order|
  {
    if epoch == EarningEpoch(p) then p.good else p.other
  }

  function ChecksRead(p: Plot, x: Evaluation): seq<CheckRun>
    requires p.r <= |p.order|
  {
    if x.at == p.r then p.green else if HeadAt(p, x.epoch) == p.good then p.queued else []
  }

  function JobOf(p: Plot, x: Evaluation): Job
    requires p.r <= |p.order|
  {
    Job(x.event, x.epoch, HeadAt(p, x.epoch), x.at > p.w, Some([p.approval]), Some(ChecksRead(p, x)))
  }

  function JobsOf(p: Plot, evaluations: seq<Evaluation>): seq<Job>
    requires p.r <= |p.order|
  {
    seq(|evaluations|, j requires 0 <= j < |evaluations| => JobOf(p, evaluations[j]))
  }

  lemma ActionIs(rule: Rule, p: Plot, x: Evaluation)
    requires Stages(rule, p) && (x.at == p.r ==> x == Evaluation(p.event, p.r, EarningEpoch(p)))
    ensures ActionOf(rule, JobOf(p, x))
         == if x.at == p.r then Add else if x.event == Pushed then OnPush(x.at > p.w) else Keep
    ensures FindsEarned(rule, JobOf(p, x)) <==> x.at == p.r
  {
    var look := Look(HeadAt(p, x.epoch), x.at > p.w, [p.approval], ChecksRead(p, x));
    assert JobOf(p, x).Found() == look && Plays(rule, p, x.event, look);
  }

  /** The system after the first `n` moves. */
  function At(p: Plot, n: nat): System
    requires p.r <= |p.order| && n <= |p.order|
  {
    System(Pr(HeadAt(p, Epoch(p.order[..n])), true, p.w < n, [p.approval], map[p.good := p.queued]),
           Epoch(p.order[..n]), JobsOf(p, UnderWay(p.order[..n])), if p.r < n then {EarningEpoch(p)} else {})
  }

  /** Steps that leave no mark in the order, one after the other. */
  ghost predicate Aside(steps: seq<Step>) { forall i :: 0 <= i < |steps| ==> MoveOf(steps[i]).None? }

  function Follow(rule: Rule, s: System, steps: seq<Step>): System
    requires Aside(steps)
    decreases |steps|
  {
    if steps == [] then s else Follow(rule, Next(rule, s, steps[0]), steps[1..])
  }

  lemma FollowOne(rule: Rule, s: System, a: Step, rest: seq<Step>)
    requires MoveOf(a).None? && Aside(rest)
    ensures Aside([a] + rest) && Follow(rule, s, [a] + rest) == Follow(rule, Next(rule, s, a), rest)
  {
    assert ([a] + rest)[1..] == rest;
  }

  lemma FollowTwo(rule: Rule, s: System, a: Step, b: Step)
    requires MoveOf(a).None? && MoveOf(b).None?
    ensures Follow(rule, s, [a, b]) == Next(rule, Next(rule, s, a), b)
  {
    assert [a, b] == [a] + ([b] + []);
    FollowOne(rule, Next(rule, s, a), b, []);
    FollowOne(rule, s, a, [b] + []);
  }

  lemma FollowFour(rule: Rule, s: System, a: Step, b: Step, c: Step, d: Step)
    requires MoveOf(a).None? && MoveOf(b).None? && MoveOf(c).None? && MoveOf(d).None?
    ensures Follow(rule, s, [a, b, c, d]) == Next(rule, Next(rule, Next(rule, Next(rule, s, a), b), c), d)
  {
    assert [a, b, c, d] == [a] + ([b] + [c, d]);
    FollowTwo(rule, Next(rule, Next(rule, s, a), b), c, d);
    FollowOne(rule, Next(rule, s, a), b, [c, d]);
    FollowOne(rule, s, a, [b] + [c, d]);
  }

  /** The first step of a move, and the steps that are told after it: an evaluation reads the comments
      and the checks at once; while the earning one reads, the checks are green. */
  function StepFor(p: Plot, n: nat): Step
    requires p.r <= |p.order| && n < |p.order|
  {
    match p.order[n]
    case Pushing => Push(HeadAt(p, Epoch(p.order[..n]) + 1))
    case Reading(event) => Read(event)
    case Writing(k) => Write(k)
  }

  function Then(p: Plot, n: nat): (steps: seq<Step>)
    requires n < |p.order|
    ensures Aside(steps)
  {
    var k := |UnderWay(p.order[..n])|;
    if !p.order[n].Reading? then []
    else if n == p.r then [ReadComments(k), Check(p.good, p.green), ReadChecks(k), Check(p.good, p.queued)]
    else [ReadComments(k), ReadChecks(k)]
  }

  lemma Extended(order: seq<Move>, n: nat)
    requires n < |order|
    ensures order[..n + 1] == order[..n] + [order[n]]
  {
  }

  lemma MovePushing(rule: Rule, p: Plot, n: nat)
    requires Stages(rule, p) && n < |p.order| && p.order[n].Pushing?
    ensures Next(rule, At(p, n), StepFor(p, n)) == At(p, n + 1)
  {
    Extended(p.order, n);
    Grown(p.order[..n], p.order[n]);
  }

  lemma OneMoreJob(p: Plot, evaluations: seq<Evaluation>, x: Evaluation)
    requires p.r <= |p.order|
    ensures JobsOf(p, evaluations + [x]) == JobsOf(p, evaluations) + [JobOf(p, x)]
  {
  }

  lemma JobsRemoved(p: Plot, evaluations: seq<Evaluation>, k: nat)
    requires p.r <= |p.order| && k < |evaluations|
    ensures JobsOf(p, Removed(evaluations, k)) == Removed(JobsOf(p, evaluations), k)
    ensures JobsOf(p, evaluations)[k] == JobOf(p, evaluations[k])
  {
  }

  /** A reading at one go. */
  lemma ReadsAtOnce(rule: Rule, s: System, event: Event)
    ensures var k := |s.jobs|;
            var job := WithChecks(s, WithComments(s, NewJob(s, event)));
            Follow(rule, Next(rule, s, Read(event)), [ReadComments(k), ReadChecks(k)])
            == s.(jobs := s.jobs + [job], earned := if FindsEarned(rule, job) then s.earned + {s.epoch} else s.earned)
  {
    var k := |s.jobs|;
    var s1 := Next(rule, s, Read(event));
    var s2 := AfterComments(s1, k);
    FollowTwo(rule, s1, ReadComments(k), ReadChecks(k));
    assert s2.jobs == s.jobs + [WithComments(s, NewJob(s, event))];
    assert AfterChecks(rule, s2, k).jobs == s.jobs + [WithChecks(s, s2.jobs[k])];
  }

  /** A reading while the head's checks are green, one of which is queued again afterwards. */
  lemma ReadsWhileGreen(rule: Rule, s: System, event: Event, green: seq<CheckRun>, queued: seq<CheckRun>)
    requires s.pr.head in s.pr.runs && s.pr.runs[s.pr.head] == queued
    ensures var k, head := |s.jobs|, s.pr.head;
            var job := WithComments(s, NewJob(s, event)).(runs := Some(Seen(green)));
            Follow(rule, Next(rule, s, Read(event)),
                   [ReadComments(k), Check(head, green), ReadChecks(k), Check(head, queued)])
            == s.(jobs := s.jobs + [job], earned := if FindsEarned(rule, job) then s.earned + {s.epoch} else s.earned)
  {
    var k, head := |s.jobs|, s.pr.head;
    var s1 := Next(rule, s, Read(event));
    var s2 := AfterComments(s1, k);
    var s3 := Next(rule, s2, Check(head, green));
    FollowFour(rule, s1, ReadComments(k), Check(head, green), ReadChecks(k), Check(head, queued));
    assert s2.jobs == s.jobs + [WithComments(s, NewJob(s, event))];
    assert AfterChecks(rule, s3, k).jobs == s.jobs + [WithChecks(s3, s2.jobs[k])];
    assert s.pr.runs[head := green][head := queued] == s.pr.runs;
  }

  lemma MoveReading(rule: Rule, p: Plot, n: nat)
    requires Stages(rule, p) && n < |p.order| && p.order[n].Reading? && n != p.r
    ensures Follow(rule, Next(rule, At(p, n), StepFor(p, n)), Then(p, n)) == At(p, n + 1)
  {
    var o, e := p.order[..n], p.order[n].event;
    var x := Evaluation(e, n, Epoch(o));
    Extended(p.order, n);
    Grown(o, p.order[n]);
    ReadsAtOnce(rule, At(p, n), e);
    OneMoreJob(p, UnderWay(o), x);
    ActionIs(rule, p, x);
    assert WithChecks(At(p, n), WithComments(At(p, n), NewJob(At(p, n), e))) == JobOf(p, x);
  }

  lemma MoveEarning(rule: Rule, p: Plot)
    requires Stages(rule, p)
    ensures Follow(rule, Next(rule, At(p, p.r), StepFor(p, p.r)), Then(p, p.r)) == At(p, p.r + 1)
  {
    var o, here := p.order[..p.r], At(p, p.r);
    var x := Evaluation(p.event, p.r, EarningEpoch(p));
    Extended(p.order, p.r);
    Grown(o, p.order[p.r]);
    ReadsWhileGreen(rule, here, p.event, p.green, p.queued);
    OneMoreJob(p, UnderWay(o), x);
    ActionIs(rule, p, x);
    assert WithComments(here, NewJob(here, p.event)).(runs := Some(Seen(p.green))) == JobOf(p, x);
    assert {} + {EarningEpoch(p)} == {EarningEpoch(p)};
  }

  lemma MoveWriting(rule: Rule, p: Plot, n: nat)
    requires Stages(rule, p) && n < |p.order| && p.order[n].Writing?
    ensures p.order[n].k < |At(p, n).jobs|
    ensures Next(rule, At(p, n), StepFor(p, n)) == At(p, n + 1)
  {
    var o, k := p.order[..n], p.order[n].k;
    PossibleAt(p.order, n);
    Extended(p.order, n);
    Grown(o, p.order[n]);
    JobsRemoved(p, UnderWay(o), k);
    WhatIsWritten(rule, p, n);
  }

  lemma {:induction false} PossibleAt(order: seq<Move>, n: nat)
    requires Possible(order) && n < |order| && order[n].Writing?
    ensures order[n].k < |UnderWay(order[..n])|
  {
    if n < |order| - 1 {
      PossibleAt(order[..|order| - 1], n);
      Shorter(order, n);
    }
  }

  /** Before and after `w` nothing but a `Keep` is written. */
  lemma WhatIsWritten(rule: Rule, p: Plot, n: nat)
    requires Stages(rule, p) && n < |p.order| && p.order[n].Writing? && p.order[n].k < |UnderWay(p.order[..n])|
    ensures ActionOf(rule, JobOf(p, UnderWay(p.order[..n])[p.order[n].k])) == if n == p.w then Add else Keep
  {
    var o, k := p.order[..n], p.order[n].k;
    var x := UnderWay(o)[k];
    var earning := Evaluation(p.event, p.r, EarningEpoch(p));
    UnderWayFacts(o, k);
    if x.at == p.r { assert o[..p.r] == p.order[..p.r]; }
    ActionIs(rule, p, x);
    assert Writes(p.order, n, x);
    if n < p.w {
      var later := p.order[..p.w];
      assert later[..n] == o && Writes(later, n, x);
      Gone(later, n, x, p.order[p.w].k);
    } else if n > p.w {
      assert o[..p.w] == p.order[..p.w] && Writes(o, p.w, earning);
      Gone(o, p.w, earning, k);
      assert !(x.event == Pushed && x.at > p.w);
    }
  }

  lemma OrderSnoc(steps: seq<Step>, step: Step)
    ensures Order(steps + [step])
         == Order(steps) + if MoveOf(step).Some? then [MoveOf(step).value] else []
  {
    assert (steps + [step])[..|steps|] == steps;
  }

  lemma AfterSnoc(rule: Rule, s: System, steps: seq<Step>, step: Step)
    requires s.jobs == [] && Possible(Order(steps)) && Possible(Order(steps + [step]))
    ensures step.Write? ==> step.k < |After(rule, s, steps).jobs|
    ensures After(rule, s, steps + [step]) == Next(rule, After(rule, s, steps), step)
  {
    assert (steps + [step])[..|steps|] == steps;
    OrderInit(steps + [step]);
  }

  lemma OneAside(rule: Rule, start: System, prev: seq<Step>, a: Step)
    requires start.jobs == [] && Possible(Order(prev)) && MoveOf(a).None?
    ensures Order(prev + [a]) == Order(prev)
    ensures After(rule, start, prev + [a]) == Next(rule, After(rule, start, prev), a)
  {
    OrderSnoc(prev, a);
    AfterSnoc(rule, start, prev, a);
  }

  lemma Joined(prev: seq<Step>, steps: seq<Step>)
    requires steps != []
    ensures prev + [steps[0]] + steps[1..] == prev + steps
  {
  }

  lemma {:induction false} FollowAfter(rule: Rule, start: System, prev: seq<Step>, rest: seq<Step>)
    requires start.jobs == [] && Possible(Order(prev)) && Aside(rest)
    ensures Order(prev + rest) == Order(prev)
    ensures After(rule, start, prev + rest) == Follow(rule, After(rule, start, prev), rest)
    decreases |rest|
  {
    if rest == [] {
      assert prev + rest == prev;
    } else {
      OneAside(rule, start, prev, rest[0]);
      FollowAfter(rule, start, prev + [rest[0]], rest[1..]);
      Joined(prev, rest);
    }
  }

  /** One move of an order as the steps of a run: its own step, and steps that leave no mark. */
  ghost predicate Tells(rule: Rule, here: System, steps: seq<Step>, m: Move, there: System) {
    && steps != [] && MoveOf(steps[0]) == Some(m) && (m.Writing? ==> m.k < |here.jobs|) && Aside(steps[1..])
    && Follow(rule, Next(rule, here, steps[0]), steps[1..]) == there
  }

  ghost predicate TellsAll(rule: Rule, order: seq<Move>, told: seq<seq<Step>>, trace: seq<System>) {
    && |told| == |order| && |trace| == |order| + 1 && Possible(order) && trace[0].jobs == []
    && forall n :: 0 <= n < |order| ==> Tells(rule, trace[n], told[n], order[n], trace[n + 1])
  }

  lemma TellOne(rule: Rule, start: System, prev: seq<Step>, steps: seq<Step>, m: Move, here: System, there: System)
    requires start.jobs == [] && Possible(Order(prev)) && Possible(Order(prev) + [m])
    requires After(rule, start, prev) == here && Tells(rule, here, steps, m, there)
    ensures Order(prev + steps) == Order(prev) + [m] && After(rule, start, prev + steps) == there
  {
    OrderSnoc(prev, steps[0]);
    AfterSnoc(rule, start, prev, steps[0]);
    FollowAfter(rule, start, prev + [steps[0]], steps[1..]);
    Joined(prev, steps);
  }

  lemma ToldAt(rule: Rule, order: seq<Move>, told: seq<seq<Step>>, trace: seq<System>, n: nat)
    requires TellsAll(rule, order, told, trace) && n < |order|
    ensures Tells(rule, trace[n], told[n], order[n], trace[n + 1])
  {
  }

  lemma {:induction false} ToldRuns(rule: Rule, order: seq<Move>, told: seq<seq<Step>>, trace: seq<System>, n: nat)
    returns (steps: seq<Step>)
    requires TellsAll(rule, order, told, trace) && n <= |order|
    ensures Order(steps) == order[..n] && Possible(order[..n]) && After(rule, trace[0], steps) == trace[n]
  {
    PossiblePrefix(order, n);
    if n == 0 {
      steps := [];
    } else {
      var prev := ToldRuns(rule, order, told, trace, n - 1);
      var m, here, there := order[n - 1], trace[n - 1], trace[n];
      Extended(order, n - 1);
      ToldAt(rule, order, told, trace, n - 1);
      TellOne(rule, trace[0], prev, told[n - 1], m, here, there);
      steps := prev + told[n - 1];
    }
  }

  lemma {:induction false} PossiblePrefix(order: seq<Move>, n: nat)
    requires Possible(order) && n <= |order|
    ensures Possible(order[..n])
    decreases |order|
  {
    if n < |order| {
      PossiblePrefix(order[..|order| - 1], n);
      Shorter(order, n);
      assert order[..|order| - 1][..n] == order[..n];
    } else {
      assert order[..n] == order;
    }
  }

  lemma MoveIsTold(rule: Rule, p: Plot, n: nat)
    requires Stages(rule, p) && n < |p.order|
    ensures Tells(rule, At(p, n), [StepFor(p, n)] + Then(p, n), p.order[n], At(p, n + 1))
  {
    assert ([StepFor(p, n)] + Then(p, n))[1..] == Then(p, n);
    match p.order[n]
    case Pushing => MovePushing(rule, p, n);
    case Reading(_) => if n == p.r { MoveEarning(rule, p); } else { MoveReading(rule, p, n); }
    case Writing(_) => MoveWriting(rule, p, n);
  }

  function ToldOf(p: Plot): seq<seq<Step>>
    requires p.r <= |p.order|
  {
    seq(|p.order|, n requires 0 <= n < |p.order| => [StepFor(p, n)] + Then(p, n))
  }

  function TraceOf(p: Plot): seq<System>
    requires p.r <= |p.order|
  {
    seq(|p.order| + 1, n requires 0 <= n <= |p.order| => At(p, n))
  }

  lemma StartsIdle(p: Plot)
    requires p.r <= |p.order|
    ensures At(p, 0).jobs == [] && TraceOf(p)[0] == At(p, 0)
  {
    assert UnderWay(p.order[..0]) == [];
  }

  lemma PlotIsTold(rule: Rule, p: Plot)
    requires Stages(rule, p)
    ensures TellsAll(rule, p.order, ToldOf(p), TraceOf(p))
  {
    StartsIdle(p);
    forall n | 0 <= n < |p.order| ensures Tells(rule, TraceOf(p)[n], ToldOf(p)[n], p.order[n], TraceOf(p)[n + 1]) {
      MoveIsTold(rule, p, n);
    }
  }

  /** The plot's run. */
  lemma PlotRuns(rule: Rule, p: Plot) returns (steps: seq<Step>)
    requires Stages(rule, p)
    ensures At(p, 0).jobs == [] && Order(steps) == p.order
    ensures After(rule, At(p, 0), steps) == At(p, |p.order|)
  {
    StartsIdle(p);
    PlotIsTold(rule, p);
    steps := ToldToTheEnd(rule, p.order, ToldOf(p), TraceOf(p));
  }

  lemma ToldToTheEnd(rule: Rule, order: seq<Move>, told: seq<seq<Step>>, trace: seq<System>)
    returns (steps: seq<Step>)
    requires TellsAll(rule, order, told, trace)
    ensures Order(steps) == order && After(rule, trace[0], steps) == trace[|order|]
  {
    steps := ToldRuns(rule, order, told, trace, |order|);
    assert order[..|order|] == order;
  }

  // ------------------------------------------------------------ the script itself

  function Passed(required: seq<string>): seq<CheckRun> {
    seq(|required|, i requires 0 <= i < |required| => CheckRun(required[i], "completed", Some("success")))
  }

  lemma PassedSucceed(required: seq<string>)
    ensures AllSucceeded(required, Passed(required))
  {
    var runs := Passed(required);
    NotIgnored();
    forall name | name in required ensures HasRun(runs, name) {
      var i :| 0 <= i < |required| && required[i] == name;
      assert Counts(runs, runs[i]);
    }
  }

  function AllGreen(): seq<CheckRun> { Passed(REQUIRED_CHECKS) }

  lemma AllGreenIsGreen()
    ensures ChecksState(REQUIRED_CHECKS, Seen(AllGreen())) == Green
  {
    assert Seen(AllGreen()) == AllGreen() by { assert |REQUIRED_CHECKS| == 12; }
    PassedSucceed(REQUIRED_CHECKS);
    GreenIff(REQUIRED_CHECKS, AllGreen());
  }

  lemma NotIgnored()
    ensures "success" !in IGNORED_CONCLUSIONS
  {
    assert |"success"| == 7 && |"skipped"| == 7 && "success"[1] == 'u' && "skipped"[1] == 'k';
    assert |"neutral"| == 7 && "neutral"[0] == 'n' && "success"[0] == 's';
  }

  lemma NoRunsArePending()
    ensures ChecksState(REQUIRED_CHECKS, Seen([])) == Pending
  {
    assert RealRuns([]) == [];
    assert REQUIRED_CHECKS[0] in REQUIRED_CHECKS && IsWaiting([], REQUIRED_CHECKS[0]);
  }

  /** The same checks with the first of them queued again. */
  function OneQueued(): seq<CheckRun> { AllGreen()[0 := CheckRun(REQUIRED_CHECKS[0], "queued", None)] }

  lemma UnfinishedIsPending(required: seq<string>, runs: seq<CheckRun>, run: CheckRun)
    requires run in runs && run.conclusion.None? && !Completed(run)
    requires forall other :: other in runs ==> !Concluded(other, BAD_CONCLUSIONS)
    ensures ChecksState(required, runs) == Pending
  {
    assert run in RealRuns(runs);
  }

  lemma QueuedOrGreen(run: CheckRun)
    requires run in OneQueued()
    ensures run.conclusion.None? || run.conclusion == Some("success")
  {
    var i :| 0 <= i < |OneQueued()| && OneQueued()[i] == run;
    if i > 0 { assert OneQueued()[i] == AllGreen()[i]; }
  }

  lemma OneQueuedIsPending()
    ensures Seen(OneQueued()) == OneQueued() && ChecksState(REQUIRED_CHECKS, Seen(OneQueued())) == Pending
  {
    var runs := OneQueued();
    assert |runs| == 12;
    assert !Completed(runs[0]) by { assert |"queued"| == 6 && |"completed"| == 9; }
    forall other | other in runs ensures !Concluded(other, BAD_CONCLUSIONS) {
      QueuedOrGreen(other);
      NotBad();
    }
    assert runs[0] in runs;
    UnfinishedIsPending(REQUIRED_CHECKS, runs, runs[0]);
  }

  /** In any language in which the comment approves the head, the script plays the plot. */
  lemma ScriptStages(lang: Language, p: Plot)
    requires Works(p) && p.green == AllGreen() && p.queued == OneQueued()
    requires Trusted(p.approval) && Approves(lang, p.approval.body, p.good)
    ensures Stages(RuleOf(lang), p)
  {
    ScriptIsProper(lang);
    AllGreenIsGreen();
    OneQueuedIsPending();
    assert Seen(AllGreen()) == AllGreen();
    forall event, look: Look ensures Plays(RuleOf(lang), p, event, look) { ScriptPlays(lang, p, event, look); }
  }

  lemma ScriptPlays(lang: Language, p: Plot, event: Event, look: Look)
    requires p.green == AllGreen() && p.queued == OneQueued()
    requires Trusted(p.approval) && Approves(lang, p.approval.body, p.good)
    ensures Plays(RuleOf(lang), p, event, look)
  {
    if event != Pushed && (look.runs == [] || look.runs == p.queued) { ScriptWaits(lang, event, look); }
    if event != Pushed && look == Look(p.good, false, [p.approval], p.green) {
      ScriptAdds(lang, event, look, p.good, p.approval);
    }
  }

  lemma ScriptWaits(lang: Language, event: Event, look: Look)
    requires event != Pushed && (look.runs == [] || look.runs == OneQueued())
    ensures !EarnedBy(lang, look) && Decision(lang, event, look) == Keep
  {
    NoRunsArePending();
    OneQueuedIsPending();
    assert Seen(look.runs) == look.runs;
  }

  lemma ScriptAdds(lang: Language, event: Event, look: Look, good: string, approval: Remark)
    requires event != Pushed && look == Look(good, false, [approval], AllGreen())
    requires Trusted(approval) && Approves(lang, approval.body, good)
    ensures EarnedBy(lang, look) && Decision(lang, event, look) == Add
  {
    AllGreenIsGreen();
    OneApproval(lang, approval, good);
  }

  lemma OneApproval(lang: Language, approval: Remark, head: string)
    requires Trusted(approval)
    ensures Seen([approval]) == [approval]
    ensures ApprovedNow(lang, [approval], head) <==> Approves(lang, approval.body, head)
  {
    assert [approval][0] == approval;
  }

  /** An order that is not covered has a run that ends with a label that was not earned since the last
      push; if the only comment does not approve `other`, on a head that no comment approves. */
  lemma UncoveredIsDishonest(lang: Language, good: string, other: string, approval: Remark, order: seq<Move>)
    returns (s: System, steps: seq<Step>)
    requires Trusted(approval) && Approves(lang, approval.body, good)
    requires Possible(order) && !Covered(order)
    ensures Starts(s) && Order(steps) == order
    ensures var end := After(RuleOf(lang), s, steps);
            && !Honest(end) && end.pr.labelled && end.pr.head == other && end.pr.comments == [approval]
            && (!Approves(lang, approval.body, other) ==> !ApprovedNow(lang, Seen(end.pr.comments), other))
  {
    var w: nat, x: Evaluation :| OldWrite(order, w, x) && Uncleared(order, w);
    UnderWayFacts(order[..w], order[w].k);
    assert order[..w][..x.at] == order[..x.at];
    var p := Plot(order, x.at, w, x.event, good, other, AllGreen(), OneQueued(), approval);
    ScriptStages(lang, p);
    steps := PlotRuns(RuleOf(lang), p);
    assert order[..|order|] == order && order[..0] == [];
    s := At(p, 0);
    assert JobsOf(p, []) == [];
    OneApproval(lang, approval, other);
  }

  /** The label's promise depends on the order alone. As soon as some comment can approve some head,
      every run of an order ends with an earned label or none, whatever the comments and checks say and
      whenever they come and are read, if and only if the order is covered. */
  lemma HonestIffCovered(lang: Language, good: string, approval: Remark, order: seq<Move>)
    requires Trusted(approval) && Approves(lang, approval.body, good)
    requires Possible(order)
    ensures Covered(order)
       <==> forall s: System, steps: seq<Step> ::
              Starts(s) && Order(steps) == order ==> Honest(After(RuleOf(lang), s, steps))
  {
    if Covered(order) {
      forall s: System, steps: seq<Step> | Starts(s) && Order(steps) == order
        ensures Honest(After(RuleOf(lang), s, steps))
      {
        ScriptIsProper(lang);
        CoveredIsHonest(RuleOf(lang), s, steps);
      }
    } else {
      var s, steps := UncoveredIsDishonest(lang, good, good, approval, order);
    }
  }

  // ------------------------------------------------------------ after every write

  /** The order is covered whenever an evaluation has just written. */
  ghost predicate CoveredAtWrites(order: seq<Move>) {
    forall n: nat :: 0 < n <= |order| && order[n - 1].Writing? ==> Covered(order[..n])
  }

  /** A run of a beginning of the order that ends with a write. */
  ghost predicate RunsUpToAWrite(order: seq<Move>, s: System, steps: seq<Step>) {
    Starts(s) && steps != [] && steps[|steps| - 1].Write? && Possible(Order(steps)) && Order(steps) <= order
  }

  lemma HonestAtWrite(lang: Language, order: seq<Move>, s: System, steps: seq<Step>)
    requires CoveredAtWrites(order) && RunsUpToAWrite(order, s, steps)
    ensures Honest(After(RuleOf(lang), s, steps))
  {
    var n := |Order(steps)|;
    assert order[..n] == Order(steps) && Order(steps)[n - 1].Writing?;
    ScriptIsProper(lang);
    CoveredIsHonest(RuleOf(lang), s, steps);
  }

  /** A dishonest end is as dishonest at the last write. */
  lemma CutAtLastWrite(rule: Rule, order: seq<Move>, n: nat, s: System, full: seq<Step>) returns (steps: seq<Step>)
    requires Starts(s) && 0 < n <= |order| && order[n - 1].Writing? && Possible(order[..n])
    requires Order(full) == order[..n] && !Honest(After(rule, s, full))
    ensures RunsUpToAWrite(order, s, steps) && !Honest(After(rule, s, steps))
  {
    steps := LastWrite(full);
    assert full[..|steps|] == steps;
    SameWithoutChecks(rule, s, full, |steps|);
  }

  lemma DishonestWrite(lang: Language, good: string, approval: Remark, order: seq<Move>)
    returns (s: System, steps: seq<Step>)
    requires Trusted(approval) && Approves(lang, approval.body, good)
    requires Possible(order) && !CoveredAtWrites(order)
    ensures RunsUpToAWrite(order, s, steps) && !Honest(After(RuleOf(lang), s, steps))
  {
    var n: nat :| 0 < n <= |order| && order[n - 1].Writing? && !Covered(order[..n]);
    PossiblePrefix(order, n);
    var full: seq<Step>;
    s, full := UncoveredIsDishonest(lang, good, good, approval, order[..n]);
    steps := CutAtLastWrite(RuleOf(lang), order, n, s, full);
  }

  /** After every evaluation's write the label was earned since the last push, in every run whose
      order is `order` or a beginning of it, if and only if `order` is covered at its writes. */
  lemma HonestAtWritesIff(lang: Language, good: string, approval: Remark, order: seq<Move>)
    requires Trusted(approval) && Approves(lang, approval.body, good)
    requires Possible(order)
    ensures CoveredAtWrites(order)
       <==> forall s: System, steps: seq<Step> ::
              RunsUpToAWrite(order, s, steps) ==> Honest(After(RuleOf(lang), s, steps))
  {
    if CoveredAtWrites(order) {
      forall s: System, steps: seq<Step> | RunsUpToAWrite(order, s, steps)
        ensures Honest(After(RuleOf(lang), s, steps))
      {
        HonestAtWrite(lang, order, s, steps);
      }
    } else {
      var s, steps := DishonestWrite(lang, good, approval, order);
    }
  }

  /** A run up to its last write. */
  function LastWrite(steps: seq<Step>): (r: seq<Step>)
    ensures r <= steps
  {
    if steps == [] || steps[|steps| - 1].Write? then steps else LastWrite(steps[..|steps| - 1])
  }

  lemma NoMarkOfItsOwn(rule: Rule, s: System, step: Step)
    requires MoveOf(step).None?
    ensures Next(rule, s, step).pr.labelled == s.pr.labelled && Next(rule, s, step).epoch == s.epoch
    ensures s.earned <= Next(rule, s, step).earned
  {
  }

  lemma LastIsAside(rule: Rule, s: System, steps: seq<Step>)
    requires s.jobs == [] && Possible(Order(steps)) && steps != [] && !steps[|steps| - 1].Write?
    requires Order(steps) != [] && Order(steps)[|Order(steps)| - 1].Writing?
    ensures var init := steps[..|steps| - 1];
            && Order(init) == Order(steps) && Possible(Order(init))
            && After(rule, s, steps).pr.labelled == After(rule, s, init).pr.labelled
            && After(rule, s, steps).epoch == After(rule, s, init).epoch
            && After(rule, s, init).earned <= After(rule, s, steps).earned
  {
    OrderInit(steps);
    LastMove(steps);
    assert MoveOf(steps[|steps| - 1]).None?;
    NoMarkOfItsOwn(rule, After(rule, s, steps[..|steps| - 1]), steps[|steps| - 1]);
  }

  lemma {:induction false} SameWithoutChecks(rule: Rule, s: System, steps: seq<Step>, n: nat)
    requires s.jobs == [] && Possible(Order(steps)) && n == |LastWrite(steps)|
    requires Order(steps) != [] && Order(steps)[|Order(steps)| - 1].Writing?
    ensures n > 0 && steps[n - 1].Write? && Order(steps[..n]) == Order(steps)
    ensures After(rule, s, steps[..n]).pr.labelled == After(rule, s, steps).pr.labelled
    ensures After(rule, s, steps[..n]).epoch == After(rule, s, steps).epoch
    ensures After(rule, s, steps[..n]).earned <= After(rule, s, steps).earned
  {
    if steps[|steps| - 1].Write? {
      assert steps[..n] == steps;
    } else {
      var init := steps[..|steps| - 1];
      LastIsAside(rule, s, steps);
      SameWithoutChecks(rule, s, init, n);
      assert init[..n] == steps[..n];
    }
  }

  /** What a queue that puts the push's evaluation first would give: nothing is written that read
      before a push, and after each push its own evaluation writes before any other. */
  ghost predicate PushFirst(order: seq<Move>) {
    && (forall w: nat, x: Evaluation :: Writes(order, w, x) ==> x.epoch == Epoch(order[..w]))
    && (forall w: nat, x: Evaluation :: Writes(order, w, x) && x.event != Pushed && x.epoch > 0 ==>
          PushWritten(order, w, x.epoch))
  }

  ghost predicate PushWritten(order: seq<Move>, w: nat, epoch: nat) {
    exists p: nat, y: Evaluation :: p < w && Writes(order, p, y) && y.event == Pushed && y.epoch == epoch
  }

  lemma {:induction false} EpochGrows(order: seq<Move>, a: nat, b: nat)
    requires a <= b <= |order|
    ensures Epoch(order[..a]) <= Epoch(order[..b])
  {
    if a < b {
      EpochGrows(order, a, b - 1);
      Extended(order, b - 1);
      Grown(order[..b - 1], order[b - 1]);
    }
  }

  /** Then the label is earned after every write, in every run. */
  lemma PushFirstIsCovered(order: seq<Move>)
    requires Possible(order) && PushFirst(order)
    ensures CoveredAtWrites(order)
  {
    forall n: nat | 0 < n <= |order| && order[n - 1].Writing? ensures Covered(order[..n]) {
      forall w: nat, x: Evaluation | OldWrite(order[..n], w, x) ensures ClearedAfter(order[..n], w) {
        PushWroteSince(order, n, w, x);
      }
    }
  }

  lemma WritesInPrefix(order: seq<Move>, n: nat, w: nat, x: Evaluation)
    requires w < n <= |order|
    ensures Writes(order[..n], w, x) <==> Writes(order, w, x)
  {
    assert order[..n][..w] == order[..w];
  }

  /** Some push's evaluation of the epoch has written when any evaluation of it has. */
  lemma PushWroteFirst(order: seq<Move>, n: nat) returns (p: nat, y: Evaluation)
    requires Possible(order) && PushFirst(order) && 0 < n <= |order| && order[n - 1].Writing?
    requires Epoch(order[..n]) > 0
    ensures p < n && Writes(order, p, y) && y.event == Pushed && y.epoch == Epoch(order[..n])
  {
    PossibleAt(order, n - 1);
    Extended(order, n - 1);
    Grown(order[..n - 1], order[n - 1]);
    p, y := n - 1, UnderWay(order[..n - 1])[order[n - 1].k];
    assert Writes(order, p, y) && y.epoch == Epoch(order[..n]);
    if y.event != Pushed {
      assert PushWritten(order, n - 1, y.epoch);
      p, y :| p < n - 1 && Writes(order, p, y) && y.event == Pushed && y.epoch == Epoch(order[..n]);
    }
  }

  lemma PushWroteSince(order: seq<Move>, n: nat, w: nat, x: Evaluation)
    requires Possible(order) && PushFirst(order) && 0 < n <= |order| && order[n - 1].Writing?
    requires OldWrite(order[..n], w, x)
    ensures ClearedAfter(order[..n], w)
  {
    WritesInPrefix(order, n, w, x);
    var p, y := PushWroteFirst(order, n);
    WritesInPrefix(order, n, p, y);
    ReadsLater(order, w, p, y);
  }

  /** An evaluation that read in a later epoch read after the write. */
  lemma ReadsLater(order: seq<Move>, w: nat, p: nat, y: Evaluation)
    requires w < |order| && Writes(order, p, y) && Epoch(order[..w]) < y.epoch && order[w].Writing?
    ensures y.at > w
  {
    UnderWayFacts(order[..p], order[p].k);
    assert order[..p][..y.at] == order[..y.at];
    if y.at <= w { EpochGrows(order, y.at, w); }
  }

  // ------------------------------------------------------------ one evaluation at a time

  /** No evaluation reads while another is between reading and writing. */
  ghost predicate OneAtATime(order: seq<Move>) {
    forall i: nat :: i < |order| && order[i].Reading? ==> UnderWay(order[..i]) == []
  }

  /** Then, pushes falling between reading and writing included, the order is covered as soon as the
      last push's own evaluation has written, and for as long as no new push comes. */
  lemma OneAtATimeIsCovered(order: seq<Move>, p: nat, y: Evaluation)
    requires Possible(order) && OneAtATime(order)
    requires Writes(order, p, y) && y.event == Pushed && y.epoch == Epoch(order)
    ensures Covered(order)
  {
    forall w: nat, x: Evaluation | OldWrite(order, w, x) ensures ClearedAfter(order, w) {
      ReadInBetween(order, p, y, w, x);
    }
  }

  lemma ReadInBetween(order: seq<Move>, p: nat, y: Evaluation, w: nat, x: Evaluation)
    requires Possible(order) && OneAtATime(order) && Writes(order, p, y) && Writes(order, w, x)
    requires x.epoch < y.epoch
    ensures y.at > w
  {
    UnderWayFacts(order[..p], order[p].k);
    UnderWayFacts(order[..w], order[w].k);
    assert order[..p][..y.at] == order[..y.at] && order[..w][..x.at] == order[..x.at];
    if y.at < w {
      if x.at < y.at { StillUnderWay(order, w, x, y.at); } else { EpochGrows(order, y.at, x.at); }
    }
  }

  lemma WasUnderWay(order: seq<Move>, m: Move, x: Evaluation)
    requires x in UnderWay(order + [m]) && x.at < |order|
    ensures x in UnderWay(order)
  {
    Grown(order, m);
    if m.Writing? {
      if m.k < |UnderWay(order)| {
        InRemoved(UnderWay(order), m.k, x);
      } else {
        NothingWrites(order, m);
      }
    }
  }

  lemma InRemoved(evaluations: seq<Evaluation>, k: nat, x: Evaluation)
    requires k < |evaluations| && x in Removed(evaluations, k)
    ensures x in evaluations
  {
  }

  lemma NothingWrites(order: seq<Move>, m: Move)
    requires m.Writing? && m.k >= |UnderWay(order)|
    ensures UnderWay(order + [m]) == UnderWay(order)
  {
    assert (order + [m])[..|order|] == order;
  }

  /** Between its reading and its writing an evaluation is under way. */
  lemma {:induction false} StillUnderWay(order: seq<Move>, w: nat, x: Evaluation, m: nat)
    requires Writes(order, w, x) && x.at < m <= w
    ensures x in UnderWay(order[..m])
    decreases w - m
  {
    if m < w {
      StillUnderWay(order, w, x, m + 1);
      Extended(order, m);
      WasUnderWay(order[..m], order[m], x);
    }
  }

  // ------------------------------------------------------------ what "earned" records

  predicate NoPush(steps: seq<Step>, from: nat) { forall m :: from <= m < |steps| ==> !steps[m].Push? }

  lemma {:induction false} StepsPrefix(steps: seq<Step>, n: nat)
    requires Possible(Order(steps)) && n <= |steps|
    ensures Possible(Order(steps[..n]))
    decreases |steps|
  {
    if n < |steps| {
      OrderInit(steps);
      StepsPrefix(steps[..|steps| - 1], n);
      assert steps[..|steps| - 1][..n] == steps[..n];
    } else {
      assert steps[..n] == steps;
    }
  }

  lemma NextEpoch(rule: Rule, s: System, step: Step)
    requires step.Write? ==> step.k < |s.jobs|
    ensures Next(rule, s, step).epoch == s.epoch + if step.Push? then 1 else 0
    ensures !step.Push? ==> Next(rule, s, step).pr.head == s.pr.head
  {
  }

  lemma NoPushMore(steps: seq<Step>, n: nat)
    requires steps != [] && NoPush(steps[..|steps| - 1], n) && !steps[|steps| - 1].Push?
    ensures NoPush(steps, n)
  {
    assert forall m :: 0 <= m < |steps| - 1 ==> steps[..|steps| - 1][m] == steps[m];
  }

  /** Since a moment of the same epoch there was no push, and the head is still the same. */
  lemma {:induction false} SameEpoch(rule: Rule, s: System, steps: seq<Step>, n: nat)
    requires s.jobs == [] && Possible(Order(steps)) && n <= |steps| && Possible(Order(steps[..n]))
    ensures After(rule, s, steps[..n]).epoch <= After(rule, s, steps).epoch
    ensures After(rule, s, steps[..n]).epoch == After(rule, s, steps).epoch
            ==> NoPush(steps, n) && After(rule, s, steps[..n]).pr.head == After(rule, s, steps).pr.head
    decreases |steps|
  {
    if n < |steps| {
      var init := steps[..|steps| - 1];
      assert init[..n] == steps[..n];
      OrderInit(steps);
      SameEpoch(rule, s, init, n);
      NextEpoch(rule, After(rule, s, init), steps[|steps| - 1]);
      if NoPush(init, n) && !steps[|steps| - 1].Push? { NoPushMore(steps, n); }
    } else {
      assert steps[..n] == steps;
    }
  }

  /** At step `c` an evaluation that had found this head after `epoch` pushes read the comments. */
  ghost predicate CommentsAt(rule: Rule, s: System, steps: seq<Step>, epoch: nat, head: string,
                             comments: seq<Remark>, c: nat)
    requires s.jobs == []
  {
    && c < |steps| && Possible(Order(steps[..c]))
    && var here := After(rule, s, steps[..c]);
       here.epoch >= epoch && (here.epoch == epoch ==> here.pr.head == head) && comments == Seen(here.pr.comments)
  }

  /** The same of the checks of that head. */
  ghost predicate ChecksAt(rule: Rule, s: System, steps: seq<Step>, epoch: nat, head: string,
                           runs: seq<CheckRun>, c: nat)
    requires s.jobs == []
  {
    && c < |steps| && Possible(Order(steps[..c]))
    && var here := After(rule, s, steps[..c]);
       here.epoch >= epoch && (here.epoch == epoch ==> here.pr.head == head) && runs == Seen(RunsAt(here.pr, head))
  }

  ghost predicate CommentsRead(rule: Rule, s: System, steps: seq<Step>, job: Job)
    requires s.jobs == []
  {
    job.comments.Some? ==> exists c :: CommentsAt(rule, s, steps, job.epoch, job.head, job.comments.value, c)
  }

  /** First the comments and then the checks were read, and together they earn the label. */
  ghost predicate EarnedAt(rule: Rule, s: System, steps: seq<Step>, epoch: nat, look: Look, c: nat, k: nat)
    requires s.jobs == []
  {
    && c < k && rule.earned(look) && CommentsAt(rule, s, steps, epoch, look.head, look.comments, c)
    && ChecksAt(rule, s, steps, epoch, look.head, look.runs, k)
  }

  ghost predicate EarnedSometime(rule: Rule, s: System, steps: seq<Step>, epoch: nat)
    requires s.jobs == []
  {
    exists look, c, k :: EarnedAt(rule, s, steps, epoch, look, c, k)
  }

  /** The reading of each evaluation under way, and of each that earned the label, is in the run. */
  ghost predicate Recorded(rule: Rule, s: System, steps: seq<Step>)
    requires s.jobs == [] && Possible(Order(steps))
  {
    var end := After(rule, s, steps);
    && (forall j :: 0 <= j < |end.jobs| ==> HeadFits(end, end.jobs[j]) && CommentsRead(rule, s, steps, end.jobs[j]))
    && (forall e :: e in end.earned ==> EarnedSometime(rule, s, steps, e))
  }

  predicate HeadFits(s: System, job: Job) {
    job.epoch <= s.epoch && (job.epoch == s.epoch ==> job.head == s.pr.head)
  }

  lemma LongerRun(rule: Rule, s: System, steps: seq<Step>, step: Step, epoch: nat, head: string,
                  comments: seq<Remark>, runs: seq<CheckRun>, c: nat)
    requires s.jobs == []
    ensures CommentsAt(rule, s, steps, epoch, head, comments, c)
            ==> CommentsAt(rule, s, steps + [step], epoch, head, comments, c)
    ensures ChecksAt(rule, s, steps, epoch, head, runs, c)
            ==> ChecksAt(rule, s, steps + [step], epoch, head, runs, c)
  {
    if c < |steps| { assert (steps + [step])[..c] == steps[..c]; }
  }

  lemma CommentsStay(rule: Rule, s: System, steps: seq<Step>, step: Step, job: Job)
    requires s.jobs == [] && CommentsRead(rule, s, steps, job)
    ensures CommentsRead(rule, s, steps + [step], job)
  {
    if job.comments.Some? {
      var c :| CommentsAt(rule, s, steps, job.epoch, job.head, job.comments.value, c);
      LongerRun(rule, s, steps, step, job.epoch, job.head, job.comments.value, [], c);
    }
  }

  lemma EarnedStays(rule: Rule, s: System, steps: seq<Step>, step: Step, epoch: nat)
    requires s.jobs == [] && EarnedSometime(rule, s, steps, epoch)
    ensures EarnedSometime(rule, s, steps + [step], epoch)
  {
    var look, c, k :| EarnedAt(rule, s, steps, epoch, look, c, k);
    LongerRun(rule, s, steps, step, epoch, look.head, look.comments, look.runs, c);
    LongerRun(rule, s, steps, step, epoch, look.head, look.comments, look.runs, k);
    assert EarnedAt(rule, s, steps + [step], epoch, look, c, k);
  }

  /** The comments an evaluation reads now are recorded at this step. */
  lemma CommentsNow(rule: Rule, s: System, steps: seq<Step>, step: Step, job: Job)
    requires s.jobs == [] && Possible(Order(steps)) && HeadFits(After(rule, s, steps), job)
    ensures CommentsRead(rule, s, steps + [step], WithComments(After(rule, s, steps), job))
  {
    assert (steps + [step])[..|steps|] == steps;
    var read := WithComments(After(rule, s, steps), job);
    assert CommentsAt(rule, s, steps + [step], job.epoch, job.head, read.comments.value, |steps|);
  }

  /** And so are the checks, and what they earn. */
  lemma EarnedNow(rule: Rule, s: System, steps: seq<Step>, step: Step, job: Job)
    requires s.jobs == [] && Possible(Order(steps)) && HeadFits(After(rule, s, steps), job)
    requires CommentsRead(rule, s, steps, job) && job.comments.Some?
    requires FindsEarned(rule, WithChecks(After(rule, s, steps), job))
    ensures EarnedSometime(rule, s, steps + [step], job.epoch)
  {
    assert (steps + [step])[..|steps|] == steps;
    var look := WithChecks(After(rule, s, steps), job).Found();
    var c :| CommentsAt(rule, s, steps, job.epoch, job.head, job.comments.value, c);
    LongerRun(rule, s, steps, step, job.epoch, job.head, job.comments.value, [], c);
    assert ChecksAt(rule, s, steps + [step], job.epoch, job.head, look.runs, |steps|);
    assert EarnedAt(rule, s, steps + [step], job.epoch, look, c, |steps|);
  }

  lemma HeadStays(rule: Rule, s: System, step: Step, job: Job)
    requires HeadFits(s, job) && (step.Write? ==> step.k < |s.jobs|)
    ensures HeadFits(Next(rule, s, step), job)
  {
  }

  /** A job after a step is new, or one from before that may have read something. */
  lemma JobFrom(rule: Rule, s: System, step: Step, j: nat) returns (i: nat)
    requires (step.Write? ==> step.k < |s.jobs|) && j < |Next(rule, s, step).jobs|
    ensures step.Read? && j == |s.jobs| ==> Next(rule, s, step).jobs[j] == NewJob(s, step.event)
    ensures !(step.Read? && j == |s.jobs|) ==>
              var job := Next(rule, s, step).jobs[j];
              && i < |s.jobs|
              && (job == s.jobs[i] || (step.ReadComments? && job == WithComments(s, s.jobs[i]))
                  || (step.ReadChecks? && job == WithChecks(s, s.jobs[i])))
  {
    i := if step.Write? && j >= step.k then j + 1 else j;
  }

  lemma JobsAfter(rule: Rule, s: System, steps: seq<Step>, step: Step, j: nat)
    requires s.jobs == [] && Possible(Order(steps)) && Recorded(rule, s, steps)
    requires step.Write? ==> step.k < |After(rule, s, steps).jobs|
    requires j < |Next(rule, After(rule, s, steps), step).jobs|
    ensures var next := Next(rule, After(rule, s, steps), step);
            HeadFits(next, next.jobs[j]) && CommentsRead(rule, s, steps + [step], next.jobs[j])
  {
    var here := After(rule, s, steps);
    var i := JobFrom(rule, here, step, j);
    if !(step.Read? && j == |here.jobs|) {
      var job := here.jobs[i];
      assert HeadFits(here, job) && CommentsRead(rule, s, steps, job);
      HeadStays(rule, here, step, job);
      CommentsStay(rule, s, steps, step, job);
      if step.ReadComments? { CommentsNow(rule, s, steps, step, job); }
    }
  }

  lemma EarnedAfter(rule: Rule, s: System, steps: seq<Step>, step: Step, e: nat)
    requires s.jobs == [] && Possible(Order(steps)) && Recorded(rule, s, steps)
    requires step.Write? ==> step.k < |After(rule, s, steps).jobs|
    requires e in Next(rule, After(rule, s, steps), step).earned
    ensures EarnedSometime(rule, s, steps + [step], e)
  {
    var here := After(rule, s, steps);
    if e in here.earned {
      EarnedStays(rule, s, steps, step, e);
    } else {
      assert HeadFits(here, here.jobs[step.k]);
      EarnedNow(rule, s, steps, step, here.jobs[step.k]);
    }
  }

  lemma {:induction false} RunIsRecorded(rule: Rule, s: System, steps: seq<Step>)
    requires Starts(s) && Possible(Order(steps))
    ensures Recorded(rule, s, steps)
  {
    if steps != [] {
      var init, last := steps[..|steps| - 1], steps[|steps| - 1];
      OrderInit(steps);
      RunIsRecorded(rule, s, init);
      assert steps == init + [last];
      var end := After(rule, s, steps);
      forall j | 0 <= j < |end.jobs| ensures HeadFits(end, end.jobs[j]) && CommentsRead(rule, s, steps, end.jobs[j]) {
        JobsAfter(rule, s, init, last, j);
      }
      forall e | e in end.earned ensures EarnedSometime(rule, s, steps, e) {
        EarnedAfter(rule, s, init, last, e);
      }
    }
  }

  /** An epoch is marked as earned by an evaluation that found the head it still has, and read of it
      first the comments and then the checks. */
  lemma EarnedMeans(rule: Rule, s: System, steps: seq<Step>) returns (look: Look, c: nat, k: nat)
    requires Starts(s) && Possible(Order(steps))
    requires After(rule, s, steps).epoch in After(rule, s, steps).earned
    ensures EarnedAt(rule, s, steps, After(rule, s, steps).epoch, look, c, k) && NoPush(steps, c)
    ensures look.head == After(rule, s, steps).pr.head
    ensures After(rule, s, steps[..c]).pr.head == look.head == After(rule, s, steps[..k]).pr.head
  {
    RunIsRecorded(rule, s, steps);
    look, c, k :| EarnedAt(rule, s, steps, After(rule, s, steps).epoch, look, c, k);
    SameEpoch(rule, s, steps, c);
    SameEpoch(rule, s, steps, k);
  }

  /** The label's promise in the script's terms: at the end of every run of a covered order, a set
      label means that since the last push an evaluation read, on the very head that is current, first
      comments of which the newest deciding one approves, at step `c`, and then checks that are all
      successful, at step `k`. */
  lemma LabelMeans(lang: Language, s: System, steps: seq<Step>) returns (c: nat, k: nat)
    requires Starts(s) && Possible(Order(steps)) && Covered(Order(steps))
    requires After(RuleOf(lang), s, steps).pr.labelled
    ensures c < k < |steps| && NoPush(steps, c) && Possible(Order(steps[..c])) && Possible(Order(steps[..k]))
    ensures var head := After(RuleOf(lang), s, steps).pr.head;
            var early, late := After(RuleOf(lang), s, steps[..c]).pr, After(RuleOf(lang), s, steps[..k]).pr;
            && early.head == head && ApprovedNow(lang, Seen(early.comments), head)
            && late.head == head && AllSucceeded(REQUIRED_CHECKS, Seen(RunsOn(late)))
  {
    ScriptIsProper(lang);
    CoveredIsHonest(RuleOf(lang), s, steps);
    var look;
    look, c, k := EarnedMeans(RuleOf(lang), s, steps);
    GreenIff(REQUIRED_CHECKS, Seen(RunsOn(After(RuleOf(lang), s, steps[..k]).pr)));
  }

  // ------------------------------------------------------------ overlapping evaluations

  /** An evaluation of checks reads, a push comes, the push's evaluation reads and writes, and then
      the first one writes. */
  function Overlapping(head: string): seq<Step> {
    [Read(Finished), ReadComments(0), ReadChecks(0), Push(head), Read(Pushed), Write(1), Write(0)]
  }

  /** From any unlabelled pull request that has earned its label, and for any new head that no
      trusted comment approves, such a run ends with the label on that unapproved head. */
  lemma OverlapLabelsAnUnapprovedHead(lang: Language, s: System, head: string)
    requires Starts(s) && Earned(lang, s.pr)
    requires forall c :: c in s.pr.comments && Trusted(c) ==> !Approves(lang, c.body, head)
    ensures head != s.pr.head && Possible(Order(Overlapping(head)))
    ensures var end := After(RuleOf(lang), s, Overlapping(head));
            && end.pr.head == head && end.pr.labelled
            && !ApprovedNow(lang, Seen(end.pr.comments), end.pr.head)
  {
    var rule, pr, moved := RuleOf(lang), s.pr, s.pr.(head := head);
    var first := WithChecks(s, WithComments(s, NewJob(s, Finished)));
    var s1 := s.(jobs := [first], earned := {0});
    var s2 := System(moved, 1, [first], {0});
    var second := NewJob(s2, Pushed);
    var s3 := s2.(jobs := [first, second]);
    var s5 := System(moved.(labelled := true), 1, [], {0});
    EarnedIsApproved(lang, pr, head);
    ReadsEarned(lang, s, first, s1);
    OverlapWrites(rule, s3, s2, s5);
    assert s1.jobs + [second] == s3.jobs;
    OverlapSteps(rule, s, head, s1, s2, s3, s2, s5);
  }

  lemma ReadsEarned(lang: Language, s: System, first: Job, s1: System)
    requires Starts(s) && Earned(lang, s.pr)
    requires first == WithChecks(s, WithComments(s, NewJob(s, Finished))) && s1 == s.(jobs := [first], earned := {0})
    ensures ActionOf(RuleOf(lang), first) == Add
    ensures Follow(RuleOf(lang), Next(RuleOf(lang), s, Read(Finished)), [ReadComments(0), ReadChecks(0)]) == s1
  {
    ReadsAtOnce(RuleOf(lang), s, Finished);
    assert first.Found() == Snapshot(s.pr);
    assert [] + [first] == [first] && {} + {0} == {0};
  }

  lemma OverlapWrites(rule: Rule, s3: System, s4: System, s5: System)
    requires |s3.jobs| == 2 && ActionOf(rule, s3.jobs[0]) == Add && ActionOf(rule, s3.jobs[1]) == Keep
    requires !s3.pr.labelled
    requires s4 == s3.(jobs := [s3.jobs[0]]) && s5 == s3.(pr := s3.pr.(labelled := true), jobs := [])
    ensures AfterWrite(rule, s3, 1) == s4 && AfterWrite(rule, s4, 0) == s5
  {
    assert Removed(s3.jobs, 1) == s4.jobs && Removed(s4.jobs, 0) == s5.jobs;
  }

  lemma OverlapSteps(rule: Rule, s: System, head: string, s1: System, s2: System, s3: System, s4: System, s5: System)
    requires s.jobs == []
    requires Follow(rule, Next(rule, s, Read(Finished)), [ReadComments(0), ReadChecks(0)]) == s1
    requires Next(rule, s1, Push(head)) == s2 && Next(rule, s2, Read(Pushed)) == s3
    requires |s3.jobs| == 2 && AfterWrite(rule, s3, 1) == s4 && |s4.jobs| == 1 && AfterWrite(rule, s4, 0) == s5
    ensures Possible(Order(Overlapping(head))) && After(rule, s, Overlapping(head)) == s5
  {
    FirstReading(rule, s, s1);
    TwoSteps(rule, s, ReadingSteps(), Push(head), Read(Pushed), s1, s2, s3);
    BothReadings(head);
    OverlapEnds(rule, s, head, ReadBoth(head), s3, s4, s5);
  }

  /** Up to the writes. */
  function ReadBoth(head: string): seq<Step> {
    [Read(Finished), ReadComments(0), ReadChecks(0), Push(head), Read(Pushed)]
  }

  lemma BothReadings(head: string)
    ensures ReadingSteps() + [Push(head)] + [Read(Pushed)] == ReadBoth(head)
    ensures ReadBoth(head) + [Write(1)] + [Write(0)] == Overlapping(head)
  {
  }

  lemma OverlapEnds(rule: Rule, s: System, head: string, steps: seq<Step>, s3: System, s4: System, s5: System)
    requires s.jobs == [] && Possible(Order(steps)) && After(rule, s, steps) == s3
    requires |s3.jobs| == 2 && AfterWrite(rule, s3, 1) == s4 && |s4.jobs| == 1 && AfterWrite(rule, s4, 0) == s5
    ensures Possible(Order(steps + [Write(1)] + [Write(0)])) && After(rule, s, steps + [Write(1)] + [Write(0)]) == s5
  {
    TwoSteps(rule, s, steps, Write(1), Write(0), s3, s4, s5);
  }

  function ReadingSteps(): seq<Step> { [Read(Finished), ReadComments(0), ReadChecks(0)] }

  lemma FirstReading(rule: Rule, s: System, s1: System)
    requires s.jobs == []
    requires Follow(rule, Next(rule, s, Read(Finished)), [ReadComments(0), ReadChecks(0)]) == s1
    ensures Possible(Order(ReadingSteps())) && After(rule, s, ReadingSteps()) == s1
  {
    var steps := ReadingSteps();
    Grown([], Reading(Finished));
    assert steps[1..] == [ReadComments(0), ReadChecks(0)];
    TellOne(rule, s, [], steps, Reading(Finished), s, s1);
    assert [] + steps == steps;
  }

  lemma TwoSteps(rule: Rule, s: System, steps: seq<Step>, a: Step, b: Step, s1: System, s2: System, s3: System)
    requires s.jobs == [] && Possible(Order(steps)) && After(rule, s, steps) == s1
    requires MoveOf(a).Some? && (a.Write? ==> a.k < |s1.jobs|) && Next(rule, s1, a) == s2
    requires MoveOf(b).Some? && (b.Write? ==> b.k < |s2.jobs|) && Next(rule, s2, b) == s3
    ensures Possible(Order(steps + [a] + [b])) && After(rule, s, steps + [a] + [b]) == s3
  {
    Goes(rule, s, steps, a, s1, s2);
    Goes(rule, s, steps + [a], b, s2, s3);
  }

  lemma EarnedIsApproved(lang: Language, pr: Pr, head: string)
    requires Earned(lang, pr)
    requires forall c :: c in pr.comments && Trusted(c) ==> !Approves(lang, c.body, head)
    ensures head != pr.head && !ApprovedNow(lang, Seen(pr.comments), head)
  {
    var seen := Seen(pr.comments);
    assert forall i :: 0 <= i < |seen| ==> seen[i] == pr.comments[i] && seen[i] in pr.comments;
  }

  lemma Goes(rule: Rule, start: System, prev: seq<Step>, step: Step, here: System, there: System)
    requires start.jobs == [] && Possible(Order(prev)) && After(rule, start, prev) == here
    requires MoveOf(step).Some? && (step.Write? ==> step.k < |here.jobs|) && Next(rule, here, step) == there
    ensures Possible(Order(prev + [step])) && After(rule, start, prev + [step]) == there
  {
    OrderSnoc(prev, step);
    Grown(Order(prev), MoveOf(step).value);
    AfterSnoc(rule, start, prev, step);
  }

  /** Such a pull request exists as soon as some comment can approve one head and not another. */
  lemma OverlapHappens(lang: Language, good: string, head: string, approval: Remark) returns (s: System)
    requires Trusted(approval) && Approves(lang, approval.body, good) && !Approves(lang, approval.body, head)
    ensures Starts(s) && s.pr.head == good && Earned(lang, s.pr)
    ensures forall c :: c in s.pr.comments && Trusted(c) ==> !Approves(lang, c.body, head)
  {
    s := System(Pr(good, true, false, [approval], map[good := AllGreen()]), 0, [], {});
    AllGreenIsGreen();
    OneApproval(lang, approval, good);
  }
}
