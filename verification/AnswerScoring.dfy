/** `score_file` of `scripts/datasheet_bench.py`: one reading scored against one file's
    answer key. Every value gets exactly one outcome and every answer is used at most once. */
module AnswerScoring {
  import opened Sequences

  type FieldKey = set<string>

  datatype Expected = Expected(field: string, aliases: seq<string>, value: string, unit: string)
  datatype Fact = Fact(field: string, value: string, blank: bool)

  /** The functions the program takes from elsewhere: `field_key` (the product's own field-name
      normalisation, as a set of words) and `value_matches` (its unit normalisation). */
  datatype Rules = Rules(fieldKey: string -> FieldKey, valueMatches: (Expected, Fact) -> bool)

  datatype Entry = Entry(expected: seq<Expected>, forbidden: seq<string>, ignore: seq<string>)

  datatype Verdict = Correct | WrongValue | Forbidden | Extra | Duplicate | Ignored

  const SEPARATOR := " - "

  predicate SeparatorAt(name: string, i: nat) {
    i + 3 <= |name| && name[i..i + 3] == SEPARATOR
  }

  /** Where `str.rpartition(" - ")` splits: the last occurrence at or before `i`. */
  function LastSeparator(name: string, i: nat): (r: Option<nat>)
    ensures r.Some? ==> r.value <= i && SeparatorAt(name, r.value)
    ensures forall k: nat :: k <= i && (r.None? || r.value < k) ==> !SeparatorAt(name, k)
  {
    if SeparatorAt(name, i) then Some(i)
    else if i == 0 then None
    else LastSeparator(name, i - 1)
  }

  predicate NotOnlySpace(s: string) {
    exists i :: 0 <= i < |s| && s[i] !in " \t\n\r"
  }

  /** The label itself and, for "<row label> - <column header>", the row label alone. */
  function LabelForms(rules: Rules, name: string): seq<FieldKey> {
    var whole := rules.fieldKey(name);
    var cut := LastSeparator(name, |name|);
    var row := if cut.Some? && NotOnlySpace(name[..cut.value])
               then [rules.fieldKey(name[..cut.value])] else [];
    NonEmpty([whole] + row)
  }

  function NonEmpty(keys: seq<FieldKey>): (kept: seq<FieldKey>)
    ensures forall key :: key in kept <==> key in keys && key != {}
  {
    if keys == [] then []
    else if keys[0] == {} then NonEmpty(keys[1..])
    else [keys[0]] + NonEmpty(keys[1..])
  }

  predicate Shares(forms: seq<FieldKey>, names: seq<FieldKey>) {
    exists i :: 0 <= i < |forms| && forms[i] in names
  }

  function KeysOf(rules: Rules, labels: seq<string>): seq<FieldKey> {
    seq(|labels|, i requires 0 <= i < |labels| => rules.fieldKey(labels[i]))
  }

  predicate FieldMatches(rules: Rules, e: Expected, name: string) {
    Shares(LabelForms(rules, name), KeysOf(rules, [e.field] + e.aliases))
  }

  /** A reading: the key's entry and the reported values that are not blank. */
  datatype Reading = Reading(rules: Rules, entry: Entry, values: seq<Fact>) {

    predicate SameField(i: nat, j: nat) {
      i < |values| && j < |entry.expected| && FieldMatches(rules, entry.expected[j], values[i].field)
    }

    /** Value `i` is a right answer to question `j`. */
    predicate Answers(i: nat, j: nat) {
      SameField(i, j) && rules.valueMatches(entry.expected[j], values[i])
    }

    predicate AnswersSome(i: nat) { exists j :: 0 <= j < |entry.expected| && Answers(i, j) }

    predicate NamesSome(i: nat) { exists j :: 0 <= j < |entry.expected| && SameField(i, j) }

    /** The first answer at or after `j` that `i` gives and `taken` does not hold. */
    function FirstFree(i: nat, taken: seq<Option<nat>>, j: nat): Option<nat>
      decreases |entry.expected| - j
    {
      if j >= |entry.expected| then None
      else if Answers(i, j) && Some(j) !in taken then Some(j)
      else FirstFree(i, taken, j + 1)
    }

    /** Which answer each of the first `n` values is given. */
    function Given(n: nat): (r: seq<Option<nat>>)
      requires n <= |values|
      ensures |r| == n
    {
      if n == 0 then [] else var before := Given(n - 1); before + [FirstFree(n - 1, before, 0)]
    }

    function Result(): seq<Option<nat>> { Given(|values|) }

    /** The outcome of value `i`, the cases in the order the program tries them. */
    function VerdictOf(i: nat): Verdict
      requires i < |values|
    {
      var forms := LabelForms(rules, values[i].field);
      if Result()[i].Some? then Correct
      else if AnswersSome(i) then Duplicate
      else if Shares(forms, KeysOf(rules, entry.ignore)) then Ignored
      else if Shares(forms, KeysOf(rules, entry.forbidden)) then Forbidden
      else if NamesSome(i) then WrongValue
      else Extra
    }
  }

  // ------------------------------------------------------------ matchings

  /** `p` gives each value at most one answer it really gives, and no answer twice. */
  ghost predicate OneToOne(r: Reading, p: seq<Option<nat>>) {
    && |p| <= |r.values|
    && (forall i: nat :: i in Matched(p) ==> r.Answers(i, At(p, i)))
    && Apart(p)
  }

  ghost predicate Apart(p: seq<Option<nat>>) {
    forall i: nat, k: nat :: i in Matched(p) && k in Matched(p) && i != k ==> At(p, i) != At(p, k)
  }

  function At(p: seq<Option<nat>>, i: nat): nat {
    if i < |p| && p[i].Some? then p[i].value else 0
  }

  ghost function Matched(p: seq<Option<nat>>): set<nat> {
    set i | 0 <= i < |p| && p[i].Some?
  }

  /** The answers that the values in `which` are given. */
  ghost function Used(p: seq<Option<nat>>, which: set<nat>): set<nat> {
    set i | i in which :: At(p, i)
  }

  lemma {:induction false} UsedCount(p: seq<Option<nat>>, which: set<nat>)
    requires Apart(p) && which <= Matched(p)
    ensures |Used(p, which)| == |which|
  {
    if which == {} {
      assert Used(p, which) == {};
    } else {
      var i :| i in which;
      var rest := which - {i};
      UsedCount(p, rest);
      assert Used(p, which) == Used(p, rest) + {At(p, i)};
    }
  }

  lemma {:induction false} FirstFreeIs(r: Reading, i: nat, taken: seq<Option<nat>>, j: nat)
    ensures var f := r.FirstFree(i, taken, j);
            && (f.Some? ==> j <= f.value && r.Answers(i, f.value) && Some(f.value) !in taken)
            && forall k: nat :: j <= k && r.Answers(i, k) && Some(k) !in taken ==> f.Some? && f.value <= k
    decreases |r.entry.expected| - j
  {
    if j < |r.entry.expected| { FirstFreeIs(r, i, taken, j + 1); }
  }

  lemma {:induction false} GivenPrefix(r: Reading, n: nat, i: nat)
    requires i <= n <= |r.values|
    ensures r.Given(n)[..i] == r.Given(i)
  {
    if i < n { GivenPrefix(r, n - 1, i); }
  }

  /** Each answer is used at most once. */
  lemma {:induction false} GivenOneToOne(r: Reading, n: nat)
    requires n <= |r.values|
    ensures OneToOne(r, r.Given(n))
  {
    if n > 0 {
      GivenOneToOne(r, n - 1);
      FirstFreeIs(r, n - 1, r.Given(n - 1), 0);
      var before, now := r.Given(n - 1), r.Given(n);
      forall i: nat | i in Matched(now) ensures r.Answers(i, At(now, i)) {
        if i < n - 1 { assert i in Matched(before) && At(before, i) == At(now, i); }
      }
      forall i: nat, k: nat | i in Matched(now) && k in Matched(now) && i < k
        ensures At(now, i) != At(now, k)
      {
        assert i in Matched(before) && At(before, i) == At(now, i) && before[i] in before;
        if k < n - 1 { assert k in Matched(before) && At(before, k) == At(now, k); }
      }
    }
  }

  /** Greedy leaves no free pair: a value left without an answer finds all its answers used. */
  lemma LeftOver(r: Reading, i: nat, j: nat)
    requires i < |r.values| && r.Answers(i, j) && r.Result()[i].None?
    ensures j in Used(r.Result(), Matched(r.Result()))
  {
    var before := r.Given(i);
    GivenPrefix(r, |r.values|, i + 1);
    GivenPrefix(r, |r.values|, i);
    assert r.Given(i + 1)[i] == r.Result()[..i + 1][i];
    FirstFreeIs(r, i, before, 0);
    var k: nat :| k < i && before[k] == Some(j);
    assert r.Result()[k] == r.Result()[..i][k];
    assert At(r.Result(), k) == j;
  }

  lemma Both<T>(a: set<T>, b: set<T>)
    ensures |a| == |a * b| + |a - b|
  {
    assert a == a * b + (a - b);
  }

  /** `correct` is at least half of what any one-to-one matching of values to answers reaches. */
  lemma AtLeastHalf(r: Reading, p: seq<Option<nat>>)
    requires OneToOne(r, p)
    ensures |Matched(p)| <= 2 * |Matched(r.Result())|
  {
    var g := r.Result();
    GivenOneToOne(r, |r.values|);
    var rest := Matched(p) - Matched(g);
    Both(Matched(p), Matched(g));
    Smaller(Matched(p) * Matched(g), Matched(g));
    UsedCount(p, rest);
    UsedCount(g, Matched(g));
    forall i | i in rest ensures At(p, i) in Used(g, Matched(g)) { LeftOver(r, i, At(p, i)); }
    Smaller(Used(p, rest), Used(g, Matched(g)));
  }

  /** Two values have the same right answers, or none in common. */
  ghost predicate EqualOrDisjoint(r: Reading) {
    forall i: nat, k: nat, j: nat, l: nat {:trigger r.Answers(i, j), r.Answers(k, j), r.Answers(i, l)} ::
      r.Answers(i, j) && r.Answers(k, j) && r.Answers(i, l) ==> r.Answers(k, l)
  }

  /** Every answer that value `i` gives is used by the greedy scoring. */
  ghost predicate Full(r: Reading, i: nat) {
    forall j: nat :: r.Answers(i, j) ==> j in Used(r.Result(), Matched(r.Result()))
  }

  lemma FullSpreads(r: Reading, i: nat, k: nat, j: nat)
    requires EqualOrDisjoint(r) && r.Answers(i, j) && r.Answers(k, j) && Full(r, i)
    ensures Full(r, k)
  {
    forall l: nat | r.Answers(k, l) ensures l in Used(r.Result(), Matched(r.Result())) {
      assert r.Answers(i, l);
    }
  }

  /** Outside `full` every value of `p` is also one of `g`; inside, its answers are used by
      `g`, and by values of `full` only. Then `p` matches no more values than `g`. */
  lemma NoMoreThan(p: seq<Option<nat>>, g: seq<Option<nat>>, full: set<nat>)
    requires Apart(p) && Apart(g) && Matched(p) - full <= Matched(g) - full
    requires forall i: nat :: i in Matched(p) * full ==> At(p, i) in Used(g, Matched(g))
    requires forall i: nat, k: nat :: i in Matched(p) * full && k in Matched(g) - full ==> At(p, i) != At(g, k)
    ensures |Matched(p)| <= |Matched(g)|
  {
    var a, b := Used(p, Matched(p) * full), Used(g, Matched(g) - full);
    Both(Matched(p), full);
    Smaller(Matched(p) - full, Matched(g) - full);
    UsedCount(p, Matched(p) * full);
    UsedCount(g, Matched(g) - full);
    UsedCount(g, Matched(g));
    assert a !! b;
    Smaller(a + b, Used(g, Matched(g)));
  }

  /** Then `correct` is as large as any one-to-one matching can be. */
  lemma GreedyIsMaximum(r: Reading, p: seq<Option<nat>>)
    requires OneToOne(r, p) && EqualOrDisjoint(r)
    ensures |Matched(p)| <= |Matched(r.Result())|
  {
    var g := r.Result();
    GivenOneToOne(r, |r.values|);
    var full: set<nat> := set i | i in Below(|r.values|) && Full(r, i);
    forall i: nat | i in Matched(p) - full ensures i in Matched(g) {
      if g[i].None? {
        forall j: nat | r.Answers(i, j) ensures j in Used(g, Matched(g)) { LeftOver(r, i, j); }
      }
    }
    forall i: nat, k: nat | i in Matched(p) * full && k in Matched(g) - full
      ensures At(p, i) != At(g, k)
    {
      if At(p, i) == At(g, k) { FullSpreads(r, i, k, At(p, i)); }
    }
    NoMoreThan(p, g, full);
  }

  /** The greedy scoring reaches as much as any matching. */
  ghost predicate IsMaximum(r: Reading) {
    forall p: seq<Option<nat>> :: OneToOne(r, p) ==> |Matched(p)| <= |Matched(r.Result())|
  }

  /** Some of the values and some of the answers, in any order. */
  ghost predicate Selects(r: Reading, vs: seq<nat>, es: seq<nat>) {
    && NoRepeats(vs) && (forall i :: 0 <= i < |vs| ==> vs[i] < |r.values|)
    && NoRepeats(es) && (forall j :: 0 <= j < |es| ==> es[j] < |r.entry.expected|)
  }

  /** The reading that has only these. */
  ghost function Selection(r: Reading, vs: seq<nat>, es: seq<nat>): Reading
    requires Selects(r, vs, es)
  {
    Reading(r.rules,
            r.entry.(expected := seq(|es|, j requires 0 <= j < |es| => r.entry.expected[es[j]])),
            seq(|vs|, i requires 0 <= i < |vs| => r.values[vs[i]]))
  }

  lemma SelectedAnswers(r: Reading, vs: seq<nat>, es: seq<nat>, i: nat, j: nat)
    requires Selects(r, vs, es)
    ensures Selection(r, vs, es).Answers(i, j) <==> i < |vs| && j < |es| && r.Answers(vs[i], es[j])
  {
  }

  lemma SelectionKeeps(r: Reading, vs: seq<nat>, es: seq<nat>)
    requires Selects(r, vs, es) && EqualOrDisjoint(r)
    ensures EqualOrDisjoint(Selection(r, vs, es))
  {
    var q := Selection(r, vs, es);
    forall i: nat, k: nat, j: nat, l: nat | q.Answers(i, j) && q.Answers(k, j) && q.Answers(i, l)
      ensures q.Answers(k, l)
    {
      SelectedAnswers(r, vs, es, i, j);
      SelectedAnswers(r, vs, es, k, j);
      SelectedAnswers(r, vs, es, i, l);
      SelectedAnswers(r, vs, es, k, l);
    }
  }

  /** Where two values have an answer in common and one of them another, they are enough to lose it. */
  lemma PairLoses(r: Reading, i: nat, k: nat, j: nat, l: nat)
    requires r.Answers(i, j) && r.Answers(k, j) && r.Answers(i, l) && !r.Answers(k, l)
    ensures Selects(r, [i, k], [j, l]) && !IsMaximum(Selection(r, [i, k], [j, l]))
  {
    assert i != k && j != l;
    var q, p := Selection(r, [i, k], [j, l]), [Some(1), Some(0)];
    forall a: nat, b: nat | a < 2 && b < 2
      ensures q.Answers(a, b) <==> !(a == 1 && b == 1)
    {
      SelectedAnswers(r, [i, k], [j, l], a, b);
    }
    GivenOfPair(q);
    assert Matched(p) == {0, 1};
    assert OneToOne(q, p);
  }

  lemma GivenOfPair(q: Reading)
    requires |q.values| == 2 && |q.entry.expected| == 2
    requires q.Answers(0, 0) && q.Answers(1, 0) && !q.Answers(1, 1)
    ensures Matched(q.Result()) == {0}
  {
    assert q.Given(0) == [];
    assert q.FirstFree(0, [], 0) == Some(0);
    assert q.Given(1) == [Some(0)];
    assert q.FirstFree(1, [Some(0)], 2) == None && q.FirstFree(1, [Some(0)], 1) == None;
    assert q.FirstFree(1, [Some(0)], 0) == None;
    assert q.Given(2) == [Some(0), None];
  }

  ghost predicate MaximumOnSelections(r: Reading) {
    forall vs, es :: Selects(r, vs, es) ==> IsMaximum(Selection(r, vs, es))
  }

  ghost predicate MaximumOnPairs(r: Reading) {
    forall i: nat, k: nat, j: nat, l: nat :: Selects(r, [i, k], [j, l]) ==> IsMaximum(Selection(r, [i, k], [j, l]))
  }

  /** The condition is exact: the answers of any two values are equal or disjoint if and only if the
      greedy scoring is the maximum on every selection of the values and answers, in every order, and
      selections of two values and two answers are enough to tell. */
  lemma MaximumOnEverySelectionIff(r: Reading)
    ensures EqualOrDisjoint(r) <==> MaximumOnSelections(r)
    ensures EqualOrDisjoint(r) <==> MaximumOnPairs(r)
  {
    if EqualOrDisjoint(r) { EqualOrDisjointIsEnough(r); }
    if MaximumOnSelections(r) { PairsAreSelections(r); }
    if MaximumOnPairs(r) { PairsAreEnough(r); }
  }

  lemma PairsAreSelections(r: Reading)
    requires MaximumOnSelections(r)
    ensures MaximumOnPairs(r)
  {
  }

  lemma PairsAreEnough(r: Reading)
    requires MaximumOnPairs(r)
    ensures EqualOrDisjoint(r)
  {
    forall i: nat, k: nat, j: nat, l: nat | r.Answers(i, j) && r.Answers(k, j) && r.Answers(i, l)
      ensures r.Answers(k, l)
    {
      if !r.Answers(k, l) { PairLoses(r, i, k, j, l); }
    }
  }

  lemma EqualOrDisjointIsEnough(r: Reading)
    requires EqualOrDisjoint(r)
    ensures MaximumOnSelections(r)
  {
    forall vs, es | Selects(r, vs, es) ensures IsMaximum(Selection(r, vs, es)) {
      SelectionKeeps(r, vs, es);
      MaximumHere(Selection(r, vs, es));
    }
  }

  lemma MaximumHere(r: Reading)
    requires EqualOrDisjoint(r)
    ensures IsMaximum(r)
  {
    forall p: seq<Option<nat>> | OneToOne(r, p) ensures |Matched(p)| <= |Matched(r.Result())| { GreedyIsMaximum(r, p); }
  }

  /** A value is `correct` or `duplicate` exactly when it gives some answer of the key. */
  lemma RightMeansCorrectOrDuplicate(r: Reading, i: nat)
    requires i < |r.values|
    ensures r.AnswersSome(i) <==> r.VerdictOf(i) == Correct || r.VerdictOf(i) == Duplicate
    ensures r.VerdictOf(i) == Correct ==> r.Answers(i, At(r.Result(), i))
  {
    GivenOneToOne(r, |r.values|);
    if r.Result()[i].Some? { assert i in Matched(r.Result()); }
  }

  /** A value bears one of these labels: the key of the label is one of the value's own forms. */
  ghost predicate Bears(rules: Rules, name: string, labels: seq<string>) {
    exists term :: term in labels && rules.fieldKey(term) in LabelForms(rules, name)
  }

  lemma BearsIff(rules: Rules, name: string, labels: seq<string>)
    ensures Shares(LabelForms(rules, name), KeysOf(rules, labels)) <==> Bears(rules, name, labels)
  {
    var forms, keys := LabelForms(rules, name), KeysOf(rules, labels);
    if i :| 0 <= i < |forms| && forms[i] in keys {
      var k :| 0 <= k < |keys| && keys[k] == forms[i];
      assert labels[k] in labels && rules.fieldKey(labels[k]) in forms;
    }
    if term :| term in labels && rules.fieldKey(term) in forms {
      var k :| 0 <= k < |labels| && labels[k] == term;
      assert keys[k] == rules.fieldKey(term) && keys[k] in keys;
    }
  }

  /** The value bears the name of expected answer `j`, or one of its aliases. */
  ghost predicate AsksFor(r: Reading, i: nat, j: nat) {
    && i < |r.values| && j < |r.entry.expected|
    && Bears(r.rules, r.values[i].field, [r.entry.expected[j].field] + r.entry.expected[j].aliases)
  }

  lemma AsksForIff(r: Reading, i: nat, j: nat)
    ensures r.SameField(i, j) <==> AsksFor(r, i, j)
    ensures r.Answers(i, j) <==> AsksFor(r, i, j) && r.rules.valueMatches(r.entry.expected[j], r.values[i])
  {
    if i < |r.values| && j < |r.entry.expected| {
      BearsIff(r.rules, r.values[i].field, [r.entry.expected[j].field] + r.entry.expected[j].aliases);
    }
  }

  /** Any other value is `ignored` if it bears a label to ignore, else `forbidden` if it bears a
      forbidden one, else `wrong_value` if it bears the name of an expected answer, else `extra`. */
  lemma OtherwiseMeans(r: Reading, i: nat)
    requires i < |r.values| && forall j: nat :: !(AsksFor(r, i, j)
                                               && r.rules.valueMatches(r.entry.expected[j], r.values[i]))
    ensures var name, verdict := r.values[i].field, r.VerdictOf(i);
            && (verdict == Ignored <==> Bears(r.rules, name, r.entry.ignore))
            && (verdict == Forbidden
                <==> Bears(r.rules, name, r.entry.forbidden) && !Bears(r.rules, name, r.entry.ignore))
            && (verdict == WrongValue
                <==> !Bears(r.rules, name, r.entry.ignore) && !Bears(r.rules, name, r.entry.forbidden)
                     && exists j: nat :: AsksFor(r, i, j))
            && (verdict == Extra
                <==> !Bears(r.rules, name, r.entry.ignore) && !Bears(r.rules, name, r.entry.forbidden)
                     && forall j: nat :: !AsksFor(r, i, j))
  {
    RightMeansCorrectOrDuplicate(r, i);
    BearsIff(r.rules, r.values[i].field, r.entry.ignore);
    BearsIff(r.rules, r.values[i].field, r.entry.forbidden);
    forall j: nat ensures (r.SameField(i, j) <==> AsksFor(r, i, j)) && !r.Answers(i, j) { AsksForIff(r, i, j); }
    assert !r.AnswersSome(i);
    assert r.NamesSome(i) <==> exists j: nat :: AsksFor(r, i, j);
  }

  /** Without that condition the first-come rule can lose an answer: the first value takes the
      answer the second needed. */
  lemma GreedyCanMiss() returns (r: Reading, p: seq<Option<nat>>)
    ensures OneToOne(r, p) && |Matched(p)| == 2 && |Matched(r.Result())| == 1
  {
    var rules := Rules((s: string) => {s}, (e: Expected, f: Fact) => e.value == f.value || f.value == "100.4");
    var entry := Entry([Expected("flow", [], "100", ""), Expected("flow", [], "100.6", "")], [], []);
    r := Reading(rules, entry, [Fact("flow", "100.4", false), Fact("flow", "100", false)]);
    p := [Some(1), Some(0)];
    OneForm(rules, "flow");
    assert forall i: nat :: i < 2 ==> LabelForms(rules, r.values[i].field) == [{"flow"}];
    assert forall j: nat ::
        j < 2 ==> KeysOf(rules, [entry.expected[j].field] + entry.expected[j].aliases)[0] == {"flow"};
    assert forall i: nat, j: nat :: i < 2 && j < 2 ==> r.SameField(i, j) by {
      forall i: nat, j: nat | i < 2 && j < 2 ensures r.SameField(i, j) {
        var names := KeysOf(rules, [entry.expected[j].field] + entry.expected[j].aliases);
        assert LabelForms(rules, r.values[i].field)[0] in names;
      }
    }
    assert r.Answers(0, 0) && r.Answers(0, 1) && r.Answers(1, 0) && !r.Answers(1, 1);
    assert Matched(p) == {0, 1};
    assert r.Given(0) == [] && r.Given(1) == [Some(0)];
    assert r.FirstFree(1, r.Given(1), 2) == None;
    assert r.FirstFree(1, r.Given(1), 1) == None;
    assert r.Given(2) == [Some(0), None];
    assert Matched(r.Given(2)) == {0};
  }

  lemma SeparatorSplits(name: string, c: nat, k: nat)
    requires SeparatorAt(name, k) && c <= k
    ensures name[c..] == name[c..k] + " - " + name[k + 3..]
  {
    assert name[c..] == name[c..k] + name[k..k + 3] + name[k + 3..];
  }

  lemma HasSpace(u: string, v: string)
    ensures ' ' in u + " - " + v
  {
    assert (u + " - " + v)[|u|] == ' ';
  }

  /** A label without " - " has its own key as its only form, unless that key is empty. */
  lemma PlainLabel(rules: Rules, name: string)
    requires forall u, v :: name != u + " - " + v
    ensures LabelForms(rules, name) == NonEmpty([rules.fieldKey(name)])
  {
    var cut := LastSeparator(name, |name|);
    if cut.Some? { SeparatorSplits(name, 0, cut.value); }
    assert name[0..] == name;
    assert [rules.fieldKey(name)] + [] == [rules.fieldKey(name)];
  }

  /** A label with a " - " that no other one follows has its own key and, unless the text before it is
      blank, the key of that text. */
  lemma RowLabel(rules: Rules, before: string, after: string)
    requires forall u, v :: " - " + after == u + " - " + v ==> u == ""
    ensures var name := before + " - " + after;
            LabelForms(rules, name)
            == NonEmpty([rules.fieldKey(name)]
                        + if exists i :: 0 <= i < |before| && before[i] !in {' ', '\t', '\n', '\r'}
                          then [rules.fieldKey(before)] else [])
  {
    var name, c := before + " - " + after, |before|;
    assert SeparatorAt(name, c) && name[..c] == before && name[c..] == " - " + after;
    forall k: nat | c < k ensures !SeparatorAt(name, k) {
      if SeparatorAt(name, k) { SeparatorSplits(name, c, k); }
    }
    assert LastSeparator(name, |name|) == Some(c);
    NotOnlySpaceIff(before);
  }

  lemma NotOnlySpaceIff(s: string)
    ensures NotOnlySpace(s) <==> exists i :: 0 <= i < |s| && s[i] !in {' ', '\t', '\n', '\r'}
  {
    forall i | 0 <= i < |s| ensures s[i] in " \t\n\r" <==> s[i] in {' ', '\t', '\n', '\r'} {}
  }

  lemma OneForm(rules: Rules, name: string)
    requires (forall i :: 0 <= i < |name| ==> name[i] != ' ') && rules.fieldKey(name) != {}
    ensures LabelForms(rules, name) == [rules.fieldKey(name)]
  {
    forall u, v ensures name != u + " - " + v {
      HasSpace(u, v);
    }
    PlainLabel(rules, name);
    var whole := rules.fieldKey(name);
    assert [whole] + [] == [whole] && [whole][1..] == [];
    assert NonEmpty([whole]) == [whole] + NonEmpty([]);
  }

  // ------------------------------------------------------------ the program

  /** `missed` names answers and `errors` values by their place; the ratios are not rounded. */
  datatype FileScore = FileScore(outcome: seq<Verdict>, counts: map<Verdict, nat>, found: nat, reported: nat,
                                 blanks: nat, recall: Option<real>, precision: Option<real>,
                                 missed: seq<nat>, errors: seq<nat>)

  /** `_ratio`. */
  function Ratio(numerator: nat, denominator: nat): Option<real> {
    if denominator == 0 then None else Some(numerator as real / denominator as real)
  }

  /** No ratio of nothing; else the number that times the denominator is the numerator. */
  ghost predicate IsRatio(ratio: Option<real>, numerator: nat, denominator: nat) {
    if denominator == 0 then ratio.None? else ratio.Some? && ratio.value * denominator as real == numerator as real
  }

  lemma RatioMeans(numerator: nat, denominator: nat)
    ensures IsRatio(Ratio(numerator, denominator), numerator, denominator)
  {
  }

  predicate IsError(v: Verdict) { v == WrongValue || v == Forbidden || v == Extra }

  function NonBlank(facts: seq<Fact>): seq<Fact> {
    if facts == [] then [] else
      var last := facts[|facts| - 1];
      NonBlank(facts[..|facts| - 1]) + if last.blank then [] else [last]
  }

  ghost function BlankAt(facts: seq<Fact>): set<nat> { set i: nat | i < |facts| && facts[i].blank }

  ghost function ScoredAt(facts: seq<Fact>): set<nat> { set i: nat | i < |facts| && !facts[i].blank }

  /** The values scored are the reported values that are not blank, in their order. */
  lemma {:induction false} NonBlankListed(facts: seq<Fact>)
    ensures Sequences.Selection(facts, ScoredAt(facts), NonBlank(facts))
  {
    if facts == [] {
      SelectNone<Fact>();
      assert ScoredAt(facts) == {};
    } else {
      var n := |facts| - 1;
      NonBlankListed(facts[..n]);
      assert facts[..n + 1] == facts;
      assert ScoredAt(facts) == if facts[n].blank then ScoredAt(facts[..n]) else ScoredAt(facts[..n]) + {n};
      SelectNext(facts, n, ScoredAt(facts[..n]), NonBlank(facts[..n]), ScoredAt(facts), NonBlank(facts));
    }
  }

  /** Each as often as it is reported. */
  lemma {:induction false} NonBlankCounted(facts: seq<Fact>, f: Fact)
    ensures multiset(NonBlank(facts))[f] == if f.blank then 0 else multiset(facts)[f]
  {
    if facts != [] {
      var n := |facts| - 1;
      NonBlankCounted(facts[..n], f);
      assert facts == facts[..n] + [facts[n]];
    }
  }

  /** And the others are the blank ones. */
  lemma {:induction false} BlanksCounted(facts: seq<Fact>)
    ensures |NonBlank(facts)| + |BlankAt(facts)| == |facts|
  {
    if facts == [] {
      assert BlankAt(facts) == {};
    } else {
      var n := |facts| - 1;
      BlanksCounted(facts[..n]);
      OneMoreBlank(facts, n);
    }
  }

  lemma OneMoreBlank(facts: seq<Fact>, n: nat)
    requires |facts| == n + 1
    ensures |BlankAt(facts)| == |BlankAt(facts[..n])| + if facts[n].blank then 1 else 0
  {
    var before := BlankAt(facts[..n]);
    assert n !in before;
    assert BlankAt(facts) == if facts[n].blank then before + {n} else before;
  }

  ghost predicate UsedAre(r: Reading, used: seq<bool>, given: seq<Option<nat>>) {
    |used| == |r.entry.expected| && forall j: nat :: j < |used| ==> (used[j] <==> Some(j) in given)
  }

  ghost predicate OutcomesAre(outcome: seq<Option<Verdict>>, given: seq<Option<nat>>) {
    |given| <= |outcome| &&
    forall k: nat :: k < |outcome|
                     ==> outcome[k] == if k < |given| && given[k].Some? then Some(Correct) else None
  }

  /** Pass 1: every exact match first. */
  method GiveAnswers(r: Reading) returns (used: array<bool>, outcome: array<Option<Verdict>>)
    ensures fresh(used) && fresh(outcome)
    ensures outcome.Length == |r.values|
    ensures UsedAre(r, used[..], r.Result()) && OutcomesAre(outcome[..], r.Result())
  {
    used := new bool[|r.entry.expected|](_ => false);
    outcome := new Option<Verdict>[|r.values|](_ => None);
    for i := 0 to |r.values|
      invariant UsedAre(r, used[..], r.Given(i)) && OutcomesAre(outcome[..], r.Given(i))
    {
      GiveAnswer(r, i, used, outcome);
    }
  }

  /** The inner loop: value `i` takes the first unused answer it gives. */
  method GiveAnswer(r: Reading, i: nat, used: array<bool>, outcome: array<Option<Verdict>>)
    requires i < |r.values| == outcome.Length
    requires UsedAre(r, used[..], r.Given(i)) && OutcomesAre(outcome[..], r.Given(i))
    modifies used, outcome
    ensures UsedAre(r, used[..], r.Given(i + 1)) && OutcomesAre(outcome[..], r.Given(i + 1))
  {
    ghost var before := r.Given(i);
    for j := 0 to |r.entry.expected|
      invariant r.FirstFree(i, before, 0) == r.FirstFree(i, before, j)
      invariant UsedAre(r, used[..], before) && OutcomesAre(outcome[..], before)
    {
      assert used[j] <==> Some(j) in before;
      if !used[j] && r.Answers(i, j) {
        used[j] := true;
        outcome[i] := Some(Correct);
        assert r.Given(i + 1) == before + [Some(j)];
        return;
      }
    }
    assert r.Given(i + 1) == before + [None];
  }

  /** Pass 2: every value left over. */
  method JudgeRest(r: Reading, given: array<Option<Verdict>>) returns (outcome: seq<Verdict>)
    requires given.Length == |r.values| && OutcomesAre(given[..], r.Result())
    ensures |outcome| == |r.values| && forall i: nat :: i < |r.values| ==> outcome[i] == r.VerdictOf(i)
  {
    outcome := [];
    for i := 0 to |r.values|
      invariant |outcome| == i && forall k: nat :: k < i ==> outcome[k] == r.VerdictOf(k)
      invariant OutcomesAre(given[..], r.Result())
    {
      assert given[..][i] == given[i];
      var verdict;
      if given[i].Some? {
        verdict := given[i].value;
      } else {
        var forms := LabelForms(r.rules, r.values[i].field);
        if r.AnswersSome(i) {
          verdict := Duplicate;
        } else if Shares(forms, KeysOf(r.rules, r.entry.ignore)) {
          verdict := Ignored;
        } else if Shares(forms, KeysOf(r.rules, r.entry.forbidden)) {
          verdict := Forbidden;
        } else if r.NamesSome(i) {
          verdict := WrongValue;
        } else {
          verdict := Extra;
        }
      }
      outcome := outcome + [verdict];
    }
  }

  method Unused(r: Reading, used: array<bool>) returns (missed: seq<nat>)
    requires UsedAre(r, used[..], r.Result())
    ensures NoRepeats(missed)
    ensures forall j: nat :: j in missed <==> j < |r.entry.expected| && Some(j) !in r.Result()
  {
    missed := [];
    for j := 0 to used.Length
      invariant UsedAre(r, used[..], r.Result())
      invariant forall k: nat :: k in missed <==> k < j && Some(k) !in r.Result()
      invariant NoRepeats(missed)
    {
      assert used[j] <==> Some(j) in r.Result();
      if !used[j] { NoRepeatsConcat(missed, [j]); missed := missed + [j]; }
    }
  }

  function Counts(outcome: seq<Verdict>): map<Verdict, nat> {
    var m := multiset(outcome);
    map[Correct := m[Correct], WrongValue := m[WrongValue], Forbidden := m[Forbidden],
        Extra := m[Extra], Duplicate := m[Duplicate], Ignored := m[Ignored]]
  }

  lemma CountsAre(outcome: seq<Verdict>)
    ensures forall v: Verdict :: v in Counts(outcome) && Counts(outcome)[v] == multiset(outcome)[v]
  {
    forall v: Verdict ensures v in Counts(outcome) && Counts(outcome)[v] == multiset(outcome)[v] {
      match v { case Correct => case WrongValue => case Forbidden => case Extra => case Duplicate => case Ignored => }
    }
  }

  /** `score_file`. */
  method ScoreFile(rules: Rules, entry: Entry, facts: seq<Fact>) returns (score: FileScore)
    ensures var r := Reading(rules, entry, NonBlank(facts));
            && Sequences.Selection(facts, ScoredAt(facts), r.values)
            && (forall f :: multiset(r.values)[f] == if f.blank then 0 else multiset(facts)[f])
            && |score.outcome| == |r.values|
            && (forall i: nat :: i < |r.values| ==> score.outcome[i] == r.VerdictOf(i))
            && (forall v: Verdict :: v in score.counts && score.counts[v] == multiset(score.outcome)[v])
            && score.found == |Matched(r.Result())|
            && score.reported == score.counts[Correct] + score.counts[WrongValue]
                                 + score.counts[Forbidden] + score.counts[Extra]
            && (forall j: nat :: j in score.missed <==> j < |entry.expected| && Some(j) !in r.Result())
            && score.found + |score.missed| == |entry.expected|
            && score.blanks == |BlankAt(facts)| && score.blanks + |r.values| == |facts|
            && IsRatio(score.recall, score.found, |entry.expected|)
            && IsRatio(score.precision, score.found, score.reported)
            && Increasing(score.errors)
            && (forall i: nat :: i in score.errors <==> i < |r.values| && IsError(r.VerdictOf(i)))
  {
    var r := Reading(rules, entry, NonBlank(facts));
    var used, given := GiveAnswers(r);
    var outcome := JudgeRest(r, given);
    var missed := Unused(r, used);
    var counts := Counts(outcome);
    CountsAre(outcome);
    CorrectCount(r, outcome);
    MissedCount(r, missed);
    NonBlankListed(facts);
    forall f { NonBlankCounted(facts, f); }
    BlanksCounted(facts);
    var errors := Errors(outcome);
    RatioMeans(counts[Correct], |entry.expected|);
    var reported := counts[Correct] + counts[WrongValue] + counts[Forbidden] + counts[Extra];
    RatioMeans(counts[Correct], reported);
    score := FileScore(outcome, counts, counts[Correct], reported, |facts| - |r.values|,
                       Ratio(counts[Correct], |entry.expected|), Ratio(counts[Correct], reported), missed, errors);
  }

  /** The loop that fills `detail`. */
  method Errors(outcome: seq<Verdict>) returns (errors: seq<nat>)
    ensures Increasing(errors)
    ensures forall i: nat :: i in errors <==> i < |outcome| && IsError(outcome[i])
  {
    errors := [];
    for i := 0 to |outcome|
      invariant Increasing(errors)
      invariant forall k: nat :: k in errors <==> k < i && IsError(outcome[k])
    {
      if outcome[i] != Correct && outcome[i] != Duplicate && outcome[i] != Ignored {
        assert forall m :: 0 <= m < |errors| ==> errors[m] in errors;
        errors := errors + [i];
      }
    }
  }

  lemma CorrectCount(r: Reading, outcome: seq<Verdict>)
    requires |outcome| == |r.values| && forall i: nat :: i < |r.values| ==> outcome[i] == r.VerdictOf(i)
    ensures multiset(outcome)[Correct] == |Matched(r.Result())|
  {
    SomesCounted(r.Result(), outcome);
  }

  lemma {:induction false} SomesCounted(p: seq<Option<nat>>, outcome: seq<Verdict>)
    requires |p| == |outcome| && forall i :: 0 <= i < |p| ==> (outcome[i] == Correct <==> p[i].Some?)
    ensures multiset(outcome)[Correct] == |Matched(p)|
  {
    if |p| == 0 {
      assert outcome == [] && Matched(p) == {};
    } else {
      var n := |p| - 1;
      SomesCounted(p[..n], outcome[..n]);
      assert outcome == outcome[..n] + [outcome[n]];
      assert multiset(outcome) == multiset(outcome[..n]) + multiset{outcome[n]};
      assert Matched(p) == if p[n].Some? then Matched(p[..n]) + {n} else Matched(p[..n]);
    }
  }

  lemma MissedCount(r: Reading, missed: seq<nat>)
    requires NoRepeats(missed)
    requires forall j: nat :: j in missed <==> j < |r.entry.expected| && Some(j) !in r.Result()
    ensures |Matched(r.Result())| + |missed| == |r.entry.expected|
  {
    var g := r.Result();
    GivenOneToOne(r, |r.values|);
    UsedCount(g, Matched(g));
    ElementsCount(missed);
    var all, used := Below(|r.entry.expected|), Used(g, Matched(g));
    forall j: nat ensures j in used <==> j < |r.entry.expected| && Some(j) in g {
      if Some(j) in g {
        var i: nat :| i < |g| && g[i] == Some(j);
        assert i in Matched(g) && At(g, i) == j;
      }
    }
    assert all == used + Elements(missed) && used !! Elements(missed);
  }

  /** The six outcomes add up to the values scored. */
  lemma {:induction false} OutcomesAddUp(outcome: seq<Verdict>)
    ensures var m := multiset(outcome);
            m[Correct] + m[WrongValue] + m[Forbidden] + m[Extra] + m[Duplicate] + m[Ignored] == |outcome|
  {
    if |outcome| > 0 {
      var n := |outcome| - 1;
      OutcomesAddUp(outcome[..n]);
      assert outcome == outcome[..n] + [outcome[n]];
      assert multiset(outcome) == multiset(outcome[..n]) + multiset{outcome[n]};
      match outcome[n] {
        case Correct => case WrongValue => case Forbidden => case Extra => case Duplicate => case Ignored =>
      }
    }
  }
}
