/** `score` and `breakdown` of `scripts/eval_extraction.py`: what the matching is used
    for. Both count every gold row and every extracted row exactly once. */
module ExtractionScore {
  import opened Sequences
  import opened RowMatching
  import opened PageMatching

  /** A row. `columns` holds its other columns (`value_min`, `value_max`, `blank_marker`), which only the
      comparison of values reads. */
  datatype Row = Row(page: Page, fieldName: string, value: string, unit: string, isBlank: bool,
                     columns: map<string, string>)

  /** The functions the program takes from elsewhere: name normalisation, value folding,
      the similarity ratio and the comparison of two rows' values (`values_agree`). */
  datatype Rules = Rules(
    norm: string -> string,
    fold: string -> string,
    ratio: (string, string) -> real,
    agree: (Row, Row) -> bool)

  function Keys(rules: Rules, rows: seq<Row>): (keys: seq<Key>)
    ensures |keys| == |rows|
    ensures forall i :: 0 <= i < |rows| ==> keys[i] == Key(rows[i].page, rules.norm(rows[i].fieldName))
  {
    seq(|rows|, i requires 0 <= i < |rows| => Key(rows[i].page, rules.norm(rows[i].fieldName)))
  }

  /** The gold sheet and the extraction being compared. */
  datatype Sheets = Sheets(rules: Rules, gold: seq<Row>, got: seq<Row>) {

    function Scope(): RowMatching.Scope {
      RowMatching.Scope(Keys(rules, gold), Keys(rules, got), rules.ratio)
    }

    predicate Agree(g: nat, e: nat) {
      g < |gold| && e < |got| && rules.agree(gold[g], got[e])
    }

    /** The true positives: paired, and the values agree. */
    ghost predicate Hit(g: nat, e: nat) {
      g < |gold| && e < |got| && Scope().Mate(g, e) && rules.agree(gold[g], got[e])
    }

    /** Paired, and the values do not agree. */
    ghost predicate Wrong(g: nat, e: nat) {
      g < |gold| && e < |got| && Scope().Mate(g, e) && !rules.agree(gold[g], got[e])
    }

    ghost predicate GoldHit(g: nat) { exists e: nat :: Hit(g, e) }

    ghost predicate GotHit(e: nat) { exists g: nat :: Hit(g, e) }
  }

  function GoldsOf(pairs: seq<Pair>): (r: seq<nat>)
    ensures |r| == |pairs| && forall i :: 0 <= i < |r| ==> r[i] == pairs[i].g
  {
    seq(|pairs|, i requires 0 <= i < |pairs| => pairs[i].g)
  }

  function GotsOf(pairs: seq<Pair>): (r: seq<nat>)
    ensures |r| == |pairs| && forall i :: 0 <= i < |r| ==> r[i] == pairs[i].e
  {
    seq(|pairs|, i requires 0 <= i < |pairs| => pairs[i].e)
  }

  lemma PairedGold(c: Scope, r: Outcome, g: nat)
    requires Complete(c, r)
    ensures g in GoldsOf(r.pairs) <==> c.GoldMated(g)
  {
    if g in GoldsOf(r.pairs) {
      var i :| 0 <= i < |r.pairs| && GoldsOf(r.pairs)[i] == g;
      assert r.pairs[i] in r.pairs && c.Mate(g, r.pairs[i].e);
    }
    if e: nat :| c.Mate(g, e) {
      var i :| 0 <= i < |r.pairs| && r.pairs[i] == Pair(g, e, c.Score(g, e));
      assert GoldsOf(r.pairs)[i] == g;
    }
  }

  lemma PairedGot(c: Scope, r: Outcome, e: nat)
    requires Complete(c, r)
    ensures e in GotsOf(r.pairs) <==> c.GotMated(e)
  {
    if e in GotsOf(r.pairs) {
      var i :| 0 <= i < |r.pairs| && GotsOf(r.pairs)[i] == e;
      assert r.pairs[i] in r.pairs && c.Mate(r.pairs[i].g, e);
    }
    if g: nat :| c.Mate(g, e) {
      var i :| 0 <= i < |r.pairs| && r.pairs[i] == Pair(g, e, c.Score(g, e));
      assert GotsOf(r.pairs)[i] == e;
    }
  }

  /** Paired rows and unmatched rows together list every row of either side once. */
  lemma RowsOnce(c: Scope, r: Outcome)
    requires Complete(c, r)
    ensures NoRepeats(GoldsOf(r.pairs) + r.missed) && NoRepeats(GotsOf(r.pairs) + r.extra)
    ensures forall g: nat :: g in GoldsOf(r.pairs) + r.missed <==> g < |c.gold|
    ensures forall e: nat :: e in GotsOf(r.pairs) + r.extra <==> e < |c.got|
  {
    forall x: nat ensures x in GoldsOf(r.pairs) <==> c.GoldMated(x) { PairedGold(c, r, x); }
    forall x: nat ensures x in GotsOf(r.pairs) <==> c.GotMated(x) { PairedGot(c, r, x); }
    NoRepeatsConcat(GoldsOf(r.pairs), r.missed);
    NoRepeatsConcat(GotsOf(r.pairs), r.extra);
  }

  // ------------------------------------------------------------ score

  datatype Miss = NotExtracted(g: nat) | GoldWrongValue(g: nat, e: nat)
  datatype FalseRow = NotInGold(e: nat) | GotWrongValue(g: nat, e: nat)

  datatype Report = Report(hits: seq<Pair>, misses: seq<Miss>, falses: seq<FalseRow>,
                           precision: real, recall: real, f1: real)

  /** Precision, recall and F1 as `score` computes them, with their zero cases. */
  function Fraction(part: nat, whole: nat): real {
    if whole != 0 then part as real / whole as real else 0.0
  }

  function Harmonic(precision: real, recall: real): real {
    if precision + recall != 0.0 then 2.0 * precision * recall / (precision + recall) else 0.0
  }

  /** F1 is 2TP over the rows of both sides, and 0 when nothing is right. */
  lemma F1IsDice(tp: nat, gold: nat, got: nat)
    requires tp <= gold && tp <= got
    ensures Harmonic(Fraction(tp, got), Fraction(tp, gold))
            == if tp > 0 then (2 * tp) as real / (gold + got) as real else 0.0
  {
    if tp > 0 {
      var t, m, n := tp as real, got as real, gold as real;
      var p, r := t / m, t / n;
      assert p * m == t && r * n == t;
      assert p > 0.0 && r > 0.0;
      assert p * r * m == t * r && p * r * n == t * p;
      assert p * r * (m + n) == t * (p + r);
      assert (p + r) * (2.0 * p * r / (p + r)) == 2.0 * p * r;
      var f := 2.0 * p * r / (p + r);
      assert f * (p + r) * (m + n) == 2.0 * t * (p + r);
      assert (p + r) * (f * (m + n) - 2.0 * t) == 0.0;
      assert f * (m + n) == 2.0 * t;
      assert f == 2.0 * t / (m + n);
    }
  }

  function Misses(missed: seq<nat>, wrong: seq<Pair>): seq<Miss> {
    seq(|missed|, i requires 0 <= i < |missed| => NotExtracted(missed[i]))
    + seq(|wrong|, i requires 0 <= i < |wrong| => GoldWrongValue(wrong[i].g, wrong[i].e))
  }

  function Falses(extra: seq<nat>, wrong: seq<Pair>): seq<FalseRow> {
    seq(|extra|, i requires 0 <= i < |extra| => NotInGold(extra[i]))
    + seq(|wrong|, i requires 0 <= i < |wrong| => GotWrongValue(wrong[i].g, wrong[i].e))
  }

  method SplitPairs(s: Sheets, pairs: seq<Pair>) returns (hits: seq<Pair>, wrong: seq<Pair>)
    ensures |hits| + |wrong| == |pairs|
    ensures forall p :: p in hits <==> p in pairs && s.Agree(p.g, p.e)
    ensures forall p :: p in wrong <==> p in pairs && !s.Agree(p.g, p.e)
  {
    hits, wrong := [], [];
    for k := 0 to |pairs|
      invariant |hits| + |wrong| == k
      invariant forall p :: p in hits <==> p in pairs[..k] && s.Agree(p.g, p.e)
      invariant forall p :: p in wrong <==> p in pairs[..k] && !s.Agree(p.g, p.e)
    {
      assert pairs[..k + 1] == pairs[..k] + [pairs[k]];
      if s.Agree(pairs[k].g, pairs[k].e) {
        hits := hits + [pairs[k]];
      } else {
        wrong := wrong + [pairs[k]];
      }
    }
    assert pairs[..|pairs|] == pairs;
  }

  /** `score`. The hits are exactly the paired rows whose values agree; a gold row is a miss
      and an extracted row a false extraction exactly when it is in no hit; and the numbers
      conserve the rows of both sides. */
  method Score(s: Sheets) returns (r: Report)
    ensures forall p :: p in r.hits ==> s.Hit(p.g, p.e)
    ensures forall g: nat, e: nat :: s.Hit(g, e) ==> Pair(g, e, s.Scope().Score(g, e)) in r.hits
    ensures forall m :: m in r.misses <==>
              match m
              case NotExtracted(g) => g < |s.gold| && !s.Scope().GoldMated(g)
              case GoldWrongValue(g, e) => s.Wrong(g, e)
    ensures forall f :: f in r.falses <==>
              match f
              case NotInGold(e) => e < |s.got| && !s.Scope().GotMated(e)
              case GotWrongValue(g, e) => s.Wrong(g, e)
    ensures forall g: nat :: g in MissGolds(r.misses) <==> g < |s.gold| && !s.GoldHit(g)
    ensures forall e: nat :: e in FalseGots(r.falses) <==> e < |s.got| && !s.GotHit(e)
    ensures |r.hits| + |r.misses| == |s.gold| && |r.hits| + |r.falses| == |s.got|
    ensures r.precision == Fraction(|r.hits|, |s.got|) && r.recall == Fraction(|r.hits|, |s.gold|)
    ensures r.f1 == if |r.hits| > 0 then (2 * |r.hits|) as real / (|s.gold| + |s.got|) as real else 0.0
  {
    var all := MatchAll(s.Scope());
    var hits, wrong := SplitPairs(s, all.pairs);
    var misses, falses := Misses(all.missed, wrong), Falses(all.extra, wrong);
    var precision, recall := Fraction(|hits|, |s.got|), Fraction(|hits|, |s.gold|);
    r := Report(hits, misses, falses, precision, recall, Harmonic(precision, recall));
    Conserved(s.Scope(), all);
    F1IsDice(|hits|, |s.gold|, |s.got|);
    MissesAre(s, all, wrong);
    FalsesAre(s, all, wrong);
    ReasonsAre(s, all, wrong);
  }

  /** A list entry says why its row is in no hit. */
  lemma ReasonsAre(s: Sheets, all: Outcome, wrong: seq<Pair>)
    requires Complete(s.Scope(), all)
    requires forall p :: p in wrong <==> p in all.pairs && !s.Agree(p.g, p.e)
    ensures forall m :: m in Misses(all.missed, wrong) <==>
              match m
              case NotExtracted(g) => g < |s.gold| && !s.Scope().GoldMated(g)
              case GoldWrongValue(g, e) => s.Wrong(g, e)
    ensures forall f :: f in Falses(all.extra, wrong) <==>
              match f
              case NotInGold(e) => e < |s.got| && !s.Scope().GotMated(e)
              case GotWrongValue(g, e) => s.Wrong(g, e)
  {
    forall g: nat, e: nat
      ensures s.Wrong(g, e) <==> exists i :: 0 <= i < |wrong| && wrong[i].g == g && wrong[i].e == e
    {
      WrongPairs(s, all, wrong, g, e);
    }
    forall m { MissReason(all.missed, wrong, m); }
    forall f { FalseReason(all.extra, wrong, f); }
  }

  lemma WrongPairs(s: Sheets, all: Outcome, wrong: seq<Pair>, g: nat, e: nat)
    requires Complete(s.Scope(), all)
    requires forall p :: p in wrong <==> p in all.pairs && !s.Agree(p.g, p.e)
    ensures s.Wrong(g, e) <==> exists i :: 0 <= i < |wrong| && wrong[i].g == g && wrong[i].e == e
  {
    var c := s.Scope();
    if s.Wrong(g, e) {
      var i :| 0 <= i < |wrong| && wrong[i] == Pair(g, e, c.Score(g, e));
    }
    if i :| 0 <= i < |wrong| && wrong[i].g == g && wrong[i].e == e {
      assert wrong[i] in wrong;
    }
  }

  lemma MissReason(missed: seq<nat>, wrong: seq<Pair>, m: Miss)
    ensures m in Misses(missed, wrong) <==>
              match m
              case NotExtracted(g) => g in missed
              case GoldWrongValue(g, e) => exists i :: 0 <= i < |wrong| && wrong[i].g == g && wrong[i].e == e
  {
    var all := Misses(missed, wrong);
    assert forall i :: 0 <= i < |missed| ==> all[i] == NotExtracted(missed[i]);
    assert forall i :: 0 <= i < |wrong| ==> all[|missed| + i] == GoldWrongValue(wrong[i].g, wrong[i].e);
  }

  lemma FalseReason(extra: seq<nat>, wrong: seq<Pair>, f: FalseRow)
    ensures f in Falses(extra, wrong) <==>
              match f
              case NotInGold(e) => e in extra
              case GotWrongValue(g, e) => exists i :: 0 <= i < |wrong| && wrong[i].g == g && wrong[i].e == e
  {
    var all := Falses(extra, wrong);
    assert forall i :: 0 <= i < |extra| ==> all[i] == NotInGold(extra[i]);
    assert forall i :: 0 <= i < |wrong| ==> all[|extra| + i] == GotWrongValue(wrong[i].g, wrong[i].e);
  }

  lemma Conserved(c: Scope, r: Outcome)
    requires Complete(c, r)
    ensures |r.pairs| + |r.missed| == |c.gold|
    ensures |r.pairs| + |r.extra| == |c.got|
  {
    RowsOnce(c, r);
    CoverCounts(GoldsOf(r.pairs) + r.missed, |c.gold|);
    CoverCounts(GotsOf(r.pairs) + r.extra, |c.got|);
  }

  /** The gold rows of the miss list, and the extracted rows of the false-extraction list. */
  function MissGolds(ms: seq<Miss>): (r: seq<nat>)
    ensures |r| == |ms|
  {
    seq(|ms|, i requires 0 <= i < |ms| => ms[i].g)
  }

  function FalseGots(fs: seq<FalseRow>): (r: seq<nat>)
    ensures |r| == |fs|
  {
    seq(|fs|, i requires 0 <= i < |fs| => fs[i].e)
  }

  lemma WrongGold(s: Sheets, all: Outcome, wrong: seq<Pair>, g: nat)
    requires Complete(s.Scope(), all)
    requires forall p :: p in wrong <==> p in all.pairs && !s.Agree(p.g, p.e)
    ensures g in GoldsOf(wrong) <==> s.Scope().GoldMated(g) && !s.GoldHit(g)
    ensures g in all.missed + GoldsOf(wrong) <==> g < |s.gold| && !s.GoldHit(g)
  {
    var c := s.Scope();
    if g in GoldsOf(wrong) {
      var i :| 0 <= i < |wrong| && GoldsOf(wrong)[i] == g;
      assert wrong[i] in wrong && c.Mate(g, wrong[i].e);
      forall e: nat | c.Mate(g, e) ensures e == wrong[i].e { MateOneToOne(c, g, e, g, wrong[i].e); }
    }
    if s.Scope().GoldMated(g) && !s.GoldHit(g) {
      var e: nat :| c.Mate(g, e);
      assert !s.Hit(g, e);
      var i :| 0 <= i < |wrong| && wrong[i] == Pair(g, e, c.Score(g, e));
      assert GoldsOf(wrong)[i] == g;
    }
  }

  lemma WrongGot(s: Sheets, all: Outcome, wrong: seq<Pair>, e: nat)
    requires Complete(s.Scope(), all)
    requires forall p :: p in wrong <==> p in all.pairs && !s.Agree(p.g, p.e)
    ensures e in GotsOf(wrong) <==> s.Scope().GotMated(e) && !s.GotHit(e)
    ensures e in all.extra + GotsOf(wrong) <==> e < |s.got| && !s.GotHit(e)
  {
    var c := s.Scope();
    if e in GotsOf(wrong) {
      var i :| 0 <= i < |wrong| && GotsOf(wrong)[i] == e;
      assert wrong[i] in wrong && c.Mate(wrong[i].g, e);
      forall g: nat | c.Mate(g, e) ensures g == wrong[i].g { MateOneToOne(c, g, e, wrong[i].g, e); }
    }
    if s.Scope().GotMated(e) && !s.GotHit(e) {
      var g: nat :| c.Mate(g, e);
      assert !s.Hit(g, e);
      var i :| 0 <= i < |wrong| && wrong[i] == Pair(g, e, c.Score(g, e));
      assert GotsOf(wrong)[i] == e;
    }
  }

  lemma MissGoldsAre(missed: seq<nat>, wrong: seq<Pair>)
    ensures MissGolds(Misses(missed, wrong)) == missed + GoldsOf(wrong)
  {}

  lemma FalseGotsAre(extra: seq<nat>, wrong: seq<Pair>)
    ensures FalseGots(Falses(extra, wrong)) == extra + GotsOf(wrong)
  {}

  lemma MissesAre(s: Sheets, all: Outcome, wrong: seq<Pair>)
    requires Complete(s.Scope(), all)
    requires forall p :: p in wrong <==> p in all.pairs && !s.Agree(p.g, p.e)
    ensures forall g: nat :: g in MissGolds(Misses(all.missed, wrong)) <==> g < |s.gold| && !s.GoldHit(g)
  {
    MissGoldsAre(all.missed, wrong);
    forall g: nat ensures g in all.missed + GoldsOf(wrong) <==> g < |s.gold| && !s.GoldHit(g) {
      WrongGold(s, all, wrong, g);
    }
  }

  lemma FalsesAre(s: Sheets, all: Outcome, wrong: seq<Pair>)
    requires Complete(s.Scope(), all)
    requires forall p :: p in wrong <==> p in all.pairs && !s.Agree(p.g, p.e)
    ensures forall e: nat :: e in FalseGots(Falses(all.extra, wrong)) <==> e < |s.got| && !s.GotHit(e)
  {
    FalseGotsAre(all.extra, wrong);
    forall e: nat ensures e in all.extra + GotsOf(wrong) <==> e < |s.got| && !s.GotHit(e) {
      WrongGot(s, all, wrong, e);
    }
  }

  // ------------------------------------------------------------ breakdown

  datatype Fate = Recovered | WrongValue | Absent

  /** A gold row's category: blank by design or not, and what became of it. */
  datatype Category = Category(blank: bool, fate: Fate)

  datatype Breakdown = Breakdown(
    gold: map<Category, nat>,
    matched: nat, matchedWrong: nat, duplicates: nat, spurious: nat)

  /** What makes two extracted rows the same row (`_row_identity`). */
  datatype Identity = Identity(page: Page, name: string, value: string, unit: string, blank: bool)

  function RowIdentity(rules: Rules, row: Row): Identity {
    Identity(row.page, rules.norm(row.fieldName), rules.fold(row.value), rules.fold(row.unit), row.isBlank)
  }

  ghost function CategoryOf(s: Sheets, g: nat): Category
    requires g < |s.gold|
  {
    Category(s.gold[g].isBlank,
             if !s.Scope().GoldMated(g) then Absent
             else if s.GoldHit(g) then Recovered else WrongValue)
  }

  /** Every gold row's category, and whether every extracted row is paired. */
  ghost function Categories(s: Sheets): (r: seq<Category>)
    ensures |r| == |s.gold| && forall g :: 0 <= g < |r| ==> r[g] == CategoryOf(s, g)
  {
    seq(|s.gold|, g requires 0 <= g < |s.gold| => CategoryOf(s, g))
  }

  ghost function Paired(s: Sheets): (r: seq<bool>)
    ensures |r| == |s.got| && forall e :: 0 <= e < |r| ==> r[e] == s.Scope().GotMated(e)
  {
    seq(|s.got|, e requires 0 <= e < |s.got| => s.Scope().GotMated(e))
  }

  function Blanks(rows: seq<Row>): seq<bool> {
    seq(|rows|, g requires 0 <= g < |rows| => rows[g].isBlank)
  }

  /** The row has this page, name, value, unit and blankness, names normalised and texts folded. */
  ghost predicate Carries(s: Sheets, e: nat, i: Identity) {
    && e < |s.got| && s.got[e].page == i.page && s.rules.norm(s.got[e].fieldName) == i.name
    && s.rules.fold(s.got[e].value) == i.value && s.rules.fold(s.got[e].unit) == i.unit
    && s.got[e].isBlank == i.blank
  }

  /** Some unpaired row carries the identity and no paired row does. */
  ghost predicate Spurious(s: Sheets, i: Identity) {
    && (exists e: nat :: Carries(s, e, i) && !s.Scope().GotMated(e))
    && !exists e: nat :: Carries(s, e, i) && s.Scope().GotMated(e)
  }

  function Get(counts: map<Category, nat>, c: Category): nat { if c in counts then counts[c] else 0 }

  function Counted(counts: map<Category, nat>, c: Category): map<Category, nat> { counts[c := Get(counts, c) + 1] }

  /** How many rows of either kind were given a wrong value. */
  function WrongIn(counts: map<Category, nat>): nat {
    Get(counts, Category(false, WrongValue)) + Get(counts, Category(true, WrongValue))
  }

  /** `counts` holds the category sizes of the gold rows in `done`. */
  ghost predicate Tallied(cats: seq<Category>, counts: map<Category, nat>, done: seq<nat>) {
    && (forall i :: 0 <= i < |done| ==> done[i] < |cats|)
    && forall c: Category :: c in counts && Get(counts, c) == CountIn(cats, done, c)
  }

  lemma TallyOne(cats: seq<Category>, counts: map<Category, nat>, done: seq<nat>, g: nat)
    requires Tallied(cats, counts, done) && g < |cats|
    ensures Tallied(cats, Counted(counts, cats[g]), done + [g])
    ensures WrongIn(Counted(counts, cats[g])) == WrongIn(counts) + if cats[g].fate == WrongValue then 1 else 0
  {
    assert (done + [g])[..|done|] == done;
    assert cats[g] == Category(true, cats[g].fate) || cats[g] == Category(false, cats[g].fate);
  }

  lemma PairCategory(s: Sheets, all: Outcome, p: Pair)
    requires Complete(s.Scope(), all) && p in all.pairs
    ensures CategoryOf(s, p.g)
         == Category(s.gold[p.g].isBlank, if s.Agree(p.g, p.e) then Recovered else WrongValue)
  {
    var c := s.Scope();
    assert c.Mate(p.g, p.e);
    if s.Agree(p.g, p.e) { assert s.Hit(p.g, p.e); }
    forall e: nat | c.Mate(p.g, e) ensures e == p.e { MateOneToOne(c, p.g, e, p.g, p.e); }
  }

  /** The identities that a list of extracted rows carries. */
  ghost function Identities(s: Sheets, es: seq<nat>): set<Identity> {
    if es == [] then {} else
      var last := |es| - 1;
      Identities(s, es[..last]) + if es[last] < |s.got| then {RowIdentity(s.rules, s.got[es[last]])} else {}
  }

  lemma {:induction false} IdentitiesAre(s: Sheets, es: seq<nat>, i: Identity)
    ensures i in Identities(s, es) <==>
              exists e: nat :: e in es && Carries(s, e, i)
  {
    if es != [] {
      var last := |es| - 1;
      IdentitiesAre(s, es[..last], i);
      assert es == es[..last] + [es[last]] && es[last] in es;
      assert Carries(s, es[last], i) <==> es[last] < |s.got| && RowIdentity(s.rules, s.got[es[last]]) == i;
      if e: nat :| e in es && Carries(s, e, i) {
        assert e in es[..last] || e == es[last];
      }
    }
  }

  const NOTHING_YET: map<Category, nat> :=
    map[Category(false, Recovered) := 0, Category(false, WrongValue) := 0, Category(false, Absent) := 0,
        Category(true, Recovered) := 0, Category(true, WrongValue) := 0, Category(true, Absent) := 0]

  lemma NothingTallied(cats: seq<Category>)
    ensures Tallied(cats, NOTHING_YET, []) && WrongIn(NOTHING_YET) == 0
  {
    forall c: Category ensures c in NOTHING_YET && NOTHING_YET[c] == 0 {
      match c.fate { case Recovered => case WrongValue => case Absent => }
    }
  }

  /** The category of each pair's gold row, by what the comparison says. */
  ghost predicate PairsHave(s: Sheets, pairs: seq<Pair>, cats: seq<Category>) {
    && |cats| == |s.gold|
    && (forall k :: 0 <= k < |pairs| ==> pairs[k].e < |s.got| && pairs[k].g < |s.gold|)
    && (forall k :: 0 <= k < |pairs| ==>
          cats[pairs[k].g] == Category(s.gold[pairs[k].g].isBlank,
                                       if s.Agree(pairs[k].g, pairs[k].e) then Recovered else WrongValue))
  }

  /** The gold side of `breakdown`, first the loop over the pairs. */
  method TallyPairs(s: Sheets, pairs: seq<Pair>, ghost cats: seq<Category>)
    returns (counts: map<Category, nat>, wrong: nat, matched: set<nat>, identities: set<Identity>)
    requires PairsHave(s, pairs, cats)
    ensures Tallied(cats, counts, GoldsOf(pairs)) && wrong == WrongIn(counts)
    ensures matched == Elements(GoldsOf(pairs)) && identities == Identities(s, GotsOf(pairs))
  {
    counts, wrong, matched, identities := NOTHING_YET, 0, {}, {};
    NothingTallied(cats);
    for k := 0 to |pairs|
      invariant Tallied(cats, counts, GoldsOf(pairs)[..k]) && wrong == WrongIn(counts)
      invariant matched == Elements(GoldsOf(pairs)[..k]) && identities == Identities(s, GotsOf(pairs)[..k])
    {
      var p := pairs[k];
      NextPair(s, pairs, k);
      TallyOne(cats, counts, GoldsOf(pairs)[..k], p.g);
      matched := matched + {p.g};
      identities := identities + {RowIdentity(s.rules, s.got[p.e])};
      var agree := s.Agree(p.g, p.e);
      if !agree { wrong := wrong + 1; }
      counts := Counted(counts, Category(s.gold[p.g].isBlank, if agree then Recovered else WrongValue));
    }
    assert GoldsOf(pairs)[..|pairs|] == GoldsOf(pairs) && GotsOf(pairs)[..|pairs|] == GotsOf(pairs);
  }

  lemma NextPair(s: Sheets, pairs: seq<Pair>, k: nat)
    requires k < |pairs| && pairs[k].e < |s.got|
    ensures GoldsOf(pairs)[..k + 1] == GoldsOf(pairs)[..k] + [pairs[k].g]
    ensures Elements(GoldsOf(pairs)[..k + 1]) == Elements(GoldsOf(pairs)[..k]) + {pairs[k].g}
    ensures Identities(s, GotsOf(pairs)[..k + 1])
         == Identities(s, GotsOf(pairs)[..k]) + {RowIdentity(s.rules, s.got[pairs[k].e])}
  {
    assert GoldsOf(pairs)[..k + 1] == GoldsOf(pairs)[..k] + [pairs[k].g];
    OneMoreElement(GoldsOf(pairs), k);
    OneMoreIdentity(s, GotsOf(pairs), k);
  }

  lemma OneMoreElement(list: seq<nat>, k: nat)
    requires k < |list|
    ensures Elements(list[..k + 1]) == Elements(list[..k]) + {list[k]}
  {
    assert list[..k + 1][..k] == list[..k];
  }

  lemma OneMoreIdentity(s: Sheets, es: seq<nat>, k: nat)
    requires k < |es| && es[k] < |s.got|
    ensures Identities(s, es[..k + 1]) == Identities(s, es[..k]) + {RowIdentity(s.rules, s.got[es[k]])}
  {
    assert es[..k + 1][..k] == es[..k];
  }

  /** Then the loop over the gold rows, for those in no pair. */
  method TallyAbsent(s: Sheets, matched: set<nat>, paired: map<Category, nat>,
                     ghost cats: seq<Category>, ghost golds: seq<nat>)
    returns (counts: map<Category, nat>)
    requires |cats| == |s.gold| && Tallied(cats, paired, golds) && NoRepeats(golds)
    requires matched == Elements(golds)
    requires forall g: nat :: g < |cats| && g !in matched ==> cats[g] == Category(s.gold[g].isBlank, Absent)
    ensures forall c: Category :: c in counts && counts[c] == multiset(cats)[c]
    ensures WrongIn(counts) == WrongIn(paired)
  {
    counts := paired;
    ghost var done: seq<nat> := golds;
    for g := 0 to |s.gold|
      invariant Tallied(cats, counts, done) && WrongIn(counts) == WrongIn(paired)
      invariant SeenBefore(done, matched, g)
    {
      if g !in matched {
        TallyOne(cats, counts, done, g);
        SeeNext(done, matched, g);
        counts := Counted(counts, Category(s.gold[g].isBlank, Absent));
        done := done + [g];
      }
    }
    AllCounted(cats, counts, done, matched);
  }

  /** Once each: the matched rows and those before `g`. */
  ghost predicate SeenBefore(done: seq<nat>, matched: set<nat>, g: nat) {
    NoRepeats(done) && forall x: nat :: x in done <==> x in matched || x < g
  }

  lemma SeeNext(done: seq<nat>, matched: set<nat>, g: nat)
    requires SeenBefore(done, matched, g) && g !in matched
    ensures SeenBefore(done + [g], matched, g + 1)
  {
    NoRepeatsConcat(done, [g]);
  }

  lemma AllCounted(cats: seq<Category>, counts: map<Category, nat>, done: seq<nat>, matched: set<nat>)
    requires Tallied(cats, counts, done) && SeenBefore(done, matched, |cats|)
    ensures forall c: Category :: c in counts && counts[c] == multiset(cats)[c]
  {
    forall c: Category ensures Get(counts, c) == multiset(cats)[c] { CountAll(cats, done, c); }
  }

  /** What the pairs say about every gold row's category. */
  lemma CategoriesOf(s: Sheets, all: Outcome)
    requires Complete(s.Scope(), all)
    ensures PairsHave(s, all.pairs, Categories(s))
  {
    forall k | 0 <= k < |all.pairs|
      ensures && all.pairs[k].g < |s.gold| && all.pairs[k].e < |s.got|
              && Categories(s)[all.pairs[k].g]
                 == Category(s.gold[all.pairs[k].g].isBlank,
                             if s.Agree(all.pairs[k].g, all.pairs[k].e) then Recovered else WrongValue)
    {
      PairCategory(s, all, all.pairs[k]);
    }
  }

  lemma AbsentCategories(s: Sheets, all: Outcome)
    requires Complete(s.Scope(), all)
    ensures NoRepeats(GoldsOf(all.pairs))
    ensures forall g: nat :: g < |s.gold| && g !in GoldsOf(all.pairs)
                             ==> Categories(s)[g] == Category(s.gold[g].isBlank, Absent)
  {
    forall g: nat | g < |s.gold| && g !in GoldsOf(all.pairs)
      ensures Categories(s)[g] == Category(s.gold[g].isBlank, Absent)
    {
      PairedGold(s.Scope(), all, g);
    }
  }

  /** The three fates of the filled slots add up to the filled slots; likewise the blank ones. */
  lemma CategoriesPartition(s: Sheets, blank: bool)
    ensures var cats := multiset(Categories(s));
            cats[Category(blank, Recovered)] + cats[Category(blank, WrongValue)] + cats[Category(blank, Absent)]
            == multiset(Blanks(s.gold))[blank]
  {
    SumOfFates(Categories(s), Blanks(s.gold), blank);
  }

  lemma {:induction false} SumOfFates(cats: seq<Category>, blanks: seq<bool>, blank: bool)
    requires |cats| == |blanks| && forall g :: 0 <= g < |cats| ==> cats[g].blank == blanks[g]
    ensures var m := multiset(cats);
            m[Category(blank, Recovered)] + m[Category(blank, WrongValue)] + m[Category(blank, Absent)]
            == multiset(blanks)[blank]
  {
    if |cats| > 0 {
      var n := |cats| - 1;
      SumOfFates(cats[..n], blanks[..n], blank);
      LastOf(cats);
      LastOf(blanks);
      OneMoreFate(multiset(cats[..n]), cats[n], blank);
    }
  }

  lemma LastOf<T>(s: seq<T>)
    requires s != []
    ensures multiset(s) == multiset(s[..|s| - 1]) + multiset{s[|s| - 1]}
  {
    assert s == s[..|s| - 1] + [s[|s| - 1]];
  }

  lemma OneMoreFate(m: multiset<Category>, c: Category, blank: bool)
    ensures var more := m + multiset{c};
            more[Category(blank, Recovered)] + more[Category(blank, WrongValue)] + more[Category(blank, Absent)]
            == m[Category(blank, Recovered)] + m[Category(blank, WrongValue)] + m[Category(blank, Absent)]
               + if c.blank == blank then 1 else 0
  {
    match c.fate { case Recovered => case WrongValue => case Absent => }
  }

  /** `breakdown`: every gold row in its category; every extracted row matched, duplicate or
      spurious; and one spurious row for each identity that only unpaired rows carry. */
  method BreakDown(s: Sheets) returns (b: Breakdown, ghost spurious: set<Identity>)
    ensures forall c: Category :: c in b.gold && b.gold[c] == multiset(Categories(s))[c]
    ensures b.matchedWrong == b.gold[Category(false, WrongValue)] + b.gold[Category(true, WrongValue)]
    ensures b.matched == multiset(Paired(s))[true]
    ensures b.matched + b.duplicates + b.spurious == |s.got|
    ensures b.spurious == |spurious| && forall i :: i in spurious <==> Spurious(s, i)
  {
    var all := MatchAll(s.Scope());
    Conserved(s.Scope(), all);
    CategoriesOf(s, all);
    AbsentCategories(s, all);
    var counts, wrong, matched, identities := TallyPairs(s, all.pairs, Categories(s));
    var gold := TallyAbsent(s, matched, counts, Categories(s), GoldsOf(all.pairs));
    var duplicates, seen := CountExtra(s, all.extra, identities);
    b := Breakdown(gold, |all.pairs|, wrong, duplicates, |seen|);
    spurious := seen;
    PairedRows(s, all);
    forall i ensures i in spurious <==> Spurious(s, i) { SpuriousIs(s, all, i); }
  }

  method CountExtra(s: Sheets, extra: seq<nat>, identities: set<Identity>)
    returns (duplicates: nat, seen: set<Identity>)
    requires forall e: nat :: e in extra ==> e < |s.got|
    ensures duplicates + |seen| == |extra|
    ensures seen == Identities(s, extra) - identities
  {
    duplicates, seen := 0, {};
    var spurious := 0;
    for k := 0 to |extra|
      invariant duplicates + spurious == k && spurious == |seen|
      invariant seen == Identities(s, extra[..k]) - identities
    {
      assert extra[k] in extra;
      assert extra[..k + 1][..k] == extra[..k];
      var identity := RowIdentity(s.rules, s.got[extra[k]]);
      if identity in identities || identity in seen {
        duplicates := duplicates + 1;
      } else {
        seen := seen + {identity};
        spurious := spurious + 1;
      }
    }
    assert extra[..|extra|] == extra;
  }

  lemma SpuriousIs(s: Sheets, all: Outcome, i: Identity)
    requires Complete(s.Scope(), all)
    ensures i in Identities(s, all.extra) - Identities(s, GotsOf(all.pairs)) <==> Spurious(s, i)
  {
    IdentitiesAre(s, all.extra, i);
    IdentitiesAre(s, GotsOf(all.pairs), i);
    forall e: nat ensures e in GotsOf(all.pairs) <==> s.Scope().GotMated(e) {
      PairedGot(s.Scope(), all, e);
    }
  }

  lemma PairedRows(s: Sheets, all: Outcome)
    requires Complete(s.Scope(), all)
    ensures |all.pairs| == multiset(Paired(s))[true]
  {
    var c := s.Scope();
    var es := GotsOf(all.pairs);
    RowsOnce(c, all);
    var list := es + all.extra;
    assert forall i :: 0 <= i < |list| ==> list[i] in list;
    forall i | 0 <= i < |es| ensures es[i] < |s.got| && Paired(s)[es[i]] {
      assert es[i] in es && list[i] == es[i];
      PairedGot(c, all, es[i]);
    }
    forall i | 0 <= i < |all.extra| ensures all.extra[i] < |s.got| && !Paired(s)[all.extra[i]] {
      assert all.extra[i] in all.extra;
    }
    CountFirstPart(Paired(s), es, all.extra);
  }

  lemma CountFirstPart(flags: seq<bool>, a: seq<nat>, b: seq<nat>)
    requires NoRepeats(a + b) && forall i: nat :: i < |flags| ==> i in a + b
    requires forall i :: 0 <= i < |a| ==> a[i] < |flags| && flags[a[i]]
    requires forall i :: 0 <= i < |b| ==> b[i] < |flags| && !flags[b[i]]
    ensures |a| == multiset(flags)[true]
  {
    CountInConcat(flags, a, b, true);
    CountAll(flags, a + b, true);
    CountSame(flags, a, true);
    CountSame(flags, b, false);
  }

  lemma {:induction false} CountSame(flags: seq<bool>, list: seq<nat>, flag: bool)
    requires forall i :: 0 <= i < |list| ==> list[i] < |flags| && flags[list[i]] == flag
    ensures CountIn(flags, list, true) == if flag then |list| else 0
  {
    if list != [] { CountSame(flags, list[..|list| - 1], flag); }
  }
}
