/** `score_standard` of `scripts/gold_score.py`: one standard's stored requirements scored
    against an engineer's gold sheet. Each gold limit takes, and removes, one stored limit. */
module GoldSheet {
  import opened Sequences

  datatype Kind = Limit | Statement | Table | Trigger

  /** A gold row or a stored row; `number` and the key functions have already been applied. A sheet
      without an operator gives an empty one, which is not the absent one of a stored row. */
  datatype GoldRow =
    GoldRow(clause: string, kind: Kind, operator: string, value: Option<real>, unit: string)
  datatype StoredRow =
    StoredRow(clause: string, kind: string, operator: Option<string>, value: Option<real>, unit: string)

  function StoredKind(kind: Kind): set<string> {
    match kind
    case Limit => {"numeric_limit", "relative_limit"}
    case Statement => {"statement"}
    case Table => {"table_row", "table_value"}
    case Trigger => {"applicability_trigger"}
  }

  function Opposite(operator: string): set<string> {
    if operator == "<=" || operator == "<" then {">=", ">"}
    else if operator == ">=" || operator == ">" then {"<=", "<"}
    else {}
  }

  datatype Key = Key(clause: string, value: Option<real>, operator: Option<string>)

  function GoldKey(g: GoldRow): Key { Key(g.clause, g.value, Some(g.operator)) }
  function StoredKey(s: StoredRow): Key { Key(s.clause, s.value, s.operator) }

  /** What becomes of a gold limit, with the stored row it used up. */
  datatype Fate =
    | Found(hit: StoredRow)
    | Flipped(hit: StoredRow)
    | WrongUnit(hit: StoredRow)
    | MissedOther(hit: StoredRow)
    | MissedNone

  predicate Same(want: GoldRow, s: StoredRow) {
    s.clause == want.clause && s.value == want.value
  }

  predicate Agrees(want: GoldRow, s: StoredRow) {
    Same(want, s) && s.operator == Some(want.operator)
  }

  function FirstAgreeing(want: GoldRow, rows: seq<StoredRow>, i: nat): (r: Option<nat>)
    decreases |rows| - i
    ensures r.Some? ==> i <= r.value < |rows| && Agrees(want, rows[r.value])
    ensures forall k :: i <= k < |rows| && (r.None? || k < r.value) ==> !Agrees(want, rows[k])
  {
    if i >= |rows| then None
    else if Agrees(want, rows[i]) then Some(i)
    else FirstAgreeing(want, rows, i + 1)
  }

  function FirstSame(want: GoldRow, rows: seq<StoredRow>, i: nat): (r: Option<nat>)
    decreases |rows| - i
    ensures r.Some? ==> i <= r.value < |rows| && Same(want, rows[r.value])
    ensures forall k :: i <= k < |rows| && (r.None? || k < r.value) ==> !Same(want, rows[k])
  {
    if i >= |rows| then None
    else if Same(want, rows[i]) then Some(i)
    else FirstSame(want, rows, i + 1)
  }

  /** The stored row a gold limit takes: the first that agrees on the operator too, else the
      first with its clause and value. */
  function Pick(want: GoldRow, rows: seq<StoredRow>): (r: Option<nat>)
    ensures r.Some? ==> r.value < |rows|
  {
    var agreeing := FirstAgreeing(want, rows, 0);
    if agreeing.Some? then agreeing else FirstSame(want, rows, 0)
  }

  function FateOf(want: GoldRow, hit: StoredRow): Fate {
    if hit.operator != Some(want.operator) then
      if hit.operator.Some? && hit.operator.value in Opposite(want.operator) then Flipped(hit) else MissedOther(hit)
    else if want.unit != "" && hit.unit != want.unit then WrongUnit(hit)
    else Found(hit)
  }

  datatype Run = Run(fates: seq<Fate>, unmatched: seq<StoredRow>)

  /** The loop of `score_standard` over gold limits, as a function. */
  function Match(gold: seq<GoldRow>, rows: seq<StoredRow>): (r: Run)
    ensures |r.fates| == |gold|
  {
    if gold == [] then Run([], rows) else
      var pick := Pick(gold[0], rows);
      if pick.None? then
        var rest := Match(gold[1..], rows);
        Run([MissedNone] + rest.fates, rest.unmatched)
      else
        var rest := Match(gold[1..], Removed(rows, pick.value));
        Run([FateOf(gold[0], rows[pick.value])] + rest.fates, rest.unmatched)
  }

  /** The stored rows that the fates used up. */
  function Hits(fates: seq<Fate>): seq<StoredRow> {
    if fates == [] then []
    else if fates[0].MissedNone? then Hits(fates[1..])
    else [fates[0].hit] + Hits(fates[1..])
  }

  /** Every stored limit is used up once or left as spurious, none twice. */
  lemma {:induction false} StoredConserved(gold: seq<GoldRow>, rows: seq<StoredRow>)
    ensures var r := Match(gold, rows);
            multiset(Hits(r.fates)) + multiset(r.unmatched) == multiset(rows)
  {
    if gold != [] {
      var pick := Pick(gold[0], rows);
      var left := if pick.None? then rows else Removed(rows, pick.value);
      var rest := Match(gold[1..], left);
      StoredConserved(gold[1..], left);
      assert Match(gold, rows).fates[1..] == rest.fates;
      if pick.Some? {
        RemovedRest(rows, pick.value);
        var hit, hits := rows[pick.value], Hits(rest.fates);
        assert multiset([hit] + hits) == multiset{hit} + multiset(hits);
      }
    }
  }

  /** The units of the rows of one key, in order. */
  function GoldUnits(gold: seq<GoldRow>, key: Key): seq<string> {
    if gold == [] then []
    else if GoldKey(gold[0]) == key then [gold[0].unit] + GoldUnits(gold[1..], key)
    else GoldUnits(gold[1..], key)
  }

  function StoredUnits(rows: seq<StoredRow>, key: Key): seq<string> {
    if rows == [] then []
    else if StoredKey(rows[0]) == key then [rows[0].unit] + StoredUnits(rows[1..], key)
    else StoredUnits(rows[1..], key)
  }

  lemma {:induction false} StoredUnitsConcat(a: seq<StoredRow>, b: seq<StoredRow>, key: Key)
    ensures StoredUnits(a + b, key) == StoredUnits(a, key) + StoredUnits(b, key)
  {
    if a == [] {
      assert a + b == b;
    } else {
      StoredUnitsConcat(a[1..], b, key);
      assert (a + b)[1..] == a[1..] + b;
    }
  }

  lemma {:induction false} NoUnits(rows: seq<StoredRow>, key: Key)
    requires forall k :: 0 <= k < |rows| ==> StoredKey(rows[k]) != key
    ensures StoredUnits(rows, key) == []
  {
    if rows != [] { NoUnits(rows[1..], key); }
  }

  /** Taking the first row of a key takes the head of that key's units and no other unit. */
  lemma TakeFirst(rows: seq<StoredRow>, k: nat, key: Key)
    requires k < |rows|
    requires forall j :: 0 <= j < k ==> StoredKey(rows[j]) != StoredKey(rows[k])
    ensures if StoredKey(rows[k]) == key
            then StoredUnits(rows, key) == [rows[k].unit] + StoredUnits(Removed(rows, k), key)
            else StoredUnits(Removed(rows, k), key) == StoredUnits(rows, key)
  {
    assert rows == rows[..k] + ([rows[k]] + rows[k + 1..]);
    StoredUnitsConcat(rows[..k], [rows[k]] + rows[k + 1..], key);
    StoredUnitsConcat(rows[..k], rows[k + 1..], key);
    if StoredKey(rows[k]) == key { NoUnits(rows[..k], key); }
  }

  lemma AgreeingExists(want: GoldRow, rows: seq<StoredRow>)
    ensures FirstAgreeing(want, rows, 0).Some? <==> StoredUnits(rows, GoldKey(want)) != []
  {
    var f := FirstAgreeing(want, rows, 0);
    if f.Some? {
      TakeFirst(rows, f.value, GoldKey(want));
    } else {
      NoUnits(rows, GoldKey(want));
    }
  }

  predicate Clean(fates: seq<Fate>) {
    forall i :: 0 <= i < |fates| ==> fates[i].Found? || fates[i].WrongUnit?
  }

  predicate AllFound(fates: seq<Fate>) {
    forall i :: 0 <= i < |fates| ==> fates[i].Found?
  }

  /** For every clause, value and operator the store holds at least as many rows as the sheet. */
  ghost predicate Contained(gold: seq<GoldRow>, rows: seq<StoredRow>) {
    forall key :: |GoldUnits(gold, key)| <= |StoredUnits(rows, key)|
  }

  predicate UnitsAgree(gold: seq<string>, stored: seq<string>) {
    |gold| <= |stored| && forall k :: 0 <= k < |gold| ==> gold[k] == "" || gold[k] == stored[k]
  }

  /** Nothing is flipped or missed, whatever the order, if and only if the sheet's limits are
      contained in the store's. */
  lemma {:induction false} CleanIffContained(gold: seq<GoldRow>, rows: seq<StoredRow>)
    ensures Clean(Match(gold, rows).fates) <==> Contained(gold, rows)
  {
    if gold != [] {
      var want, fates := gold[0], Match(gold, rows).fates;
      var f := FirstAgreeing(want, rows, 0);
      AgreeingExists(want, rows);
      if f.Some? {
        var left := Removed(rows, f.value);
        CleanIffContained(gold[1..], left);
        assert fates == [FateOf(want, rows[f.value])] + Match(gold[1..], left).fates;
        assert Clean(fates) <==> Clean(fates[1..]);
        forall key
          ensures |GoldUnits(gold, key)| <= |StoredUnits(rows, key)|
                  <==> |GoldUnits(gold[1..], key)| <= |StoredUnits(left, key)|
        {
          TakeFirst(rows, f.value, key);
        }
      } else {
        assert |GoldUnits(gold, GoldKey(want))| > |StoredUnits(rows, GoldKey(want))|;
        assert !(fates[0].Found? || fates[0].WrongUnit?);
      }
    }
  }

  predicate KeyAgrees(gold: seq<GoldRow>, rows: seq<StoredRow>, key: Key) {
    UnitsAgree(GoldUnits(gold, key), StoredUnits(rows, key))
  }

  /** Every gold limit is found if and only if, besides, the k-th gold limit of each clause,
      value and operator names no unit or the unit of the k-th stored one. */
  lemma {:induction false} AllFoundIff(gold: seq<GoldRow>, rows: seq<StoredRow>)
    ensures AllFound(Match(gold, rows).fates) <==> forall key :: KeyAgrees(gold, rows, key)
  {
    if gold != [] {
      var want, fates := gold[0], Match(gold, rows).fates;
      var f := FirstAgreeing(want, rows, 0);
      AgreeingExists(want, rows);
      if f.Some? {
        var left := Removed(rows, f.value);
        AllFoundIff(gold[1..], left);
        assert fates[1..] == Match(gold[1..], left).fates;
        assert AllFound(fates) <==> fates[0].Found? && AllFound(fates[1..]);
        forall key ensures KeyAgrees(gold, rows, key)
            <==> KeyAgrees(gold[1..], left, key) && (key == GoldKey(want) ==> fates[0].Found?)
        {
          TakeFirst(rows, f.value, key);
          HeadAndTail(want.unit, GoldUnits(gold[1..], key), rows[f.value].unit, StoredUnits(left, key));
        }
        assert KeyAgrees(gold, rows, GoldKey(want)) ==> fates[0].Found?;
      } else {
        assert !KeyAgrees(gold, rows, GoldKey(want));
        assert !fates[0].Found?;
      }
    }
  }

  lemma HeadAndTail(g: string, gold: seq<string>, s: string, stored: seq<string>)
    ensures UnitsAgree([g] + gold, [s] + stored) <==> (g == "" || g == s) && UnitsAgree(gold, stored)
  {
    if UnitsAgree([g] + gold, [s] + stored) {
      assert ([g] + gold)[0] == g && ([s] + stored)[0] == s;
      forall k | 0 <= k < |gold| ensures gold[k] == "" || gold[k] == stored[k] {
        assert ([g] + gold)[k + 1] == gold[k] && ([s] + stored)[k + 1] == stored[k];
      }
    }
  }

  /** Without containment a gold row can use up the row a later one needed: the sheet says
      ">= 5" then "<= 5", the store holds "<= 5" only, and both gold rows are lost. */
  lemma StolenMatch()
    ensures var gold := [GoldRow("5.3", Limit, ">=", Some(5.0), ""),
                         GoldRow("5.3", Limit, "<=", Some(5.0), "")];
            var rows := [StoredRow("5.3", "numeric_limit", Some("<="), Some(5.0), "")];
            Match(gold, rows) == Run([Flipped(rows[0]), MissedNone], [])
  {
    var gold := [GoldRow("5.3", Limit, ">=", Some(5.0), ""), GoldRow("5.3", Limit, "<=", Some(5.0), "")];
    var rows := [StoredRow("5.3", "numeric_limit", Some("<="), Some(5.0), "")];
    assert FirstAgreeing(gold[0], rows, 0) == None && FirstSame(gold[0], rows, 0) == Some(0);
    assert Removed(rows, 0) == [];
    assert gold[1..] == [gold[1]] && Match(gold[1..], []) == Run([MissedNone], []);
  }

  /** The sheet and the store hold the same rows, and both are still scored as wrong units. */
  lemma UnitOrderMatters()
    ensures var gold := [GoldRow("7", Limit, "<=", Some(1.0), "m"),
                         GoldRow("7", Limit, "<=", Some(1.0), "mm")];
            var rows := [StoredRow("7", "numeric_limit", Some("<="), Some(1.0), "mm"),
                         StoredRow("7", "numeric_limit", Some("<="), Some(1.0), "m")];
            Match(gold, rows) == Run([WrongUnit(rows[0]), WrongUnit(rows[1])], [])
  {
    var gold := [GoldRow("7", Limit, "<=", Some(1.0), "m"), GoldRow("7", Limit, "<=", Some(1.0), "mm")];
    var rows := [StoredRow("7", "numeric_limit", Some("<="), Some(1.0), "mm"),
                 StoredRow("7", "numeric_limit", Some("<="), Some(1.0), "m")];
    assert FirstAgreeing(gold[0], rows, 0) == Some(0) && Removed(rows, 0) == [rows[1]];
    assert gold[1..] == [gold[1]] && FirstAgreeing(gold[1], [rows[1]], 0) == Some(0);
    assert Removed([rows[1]], 0) == [];
    assert Match(gold[1..], [rows[1]]) == Run([WrongUnit(rows[1])], []);
  }

  // ------------------------------------------------------------ the program

  datatype Score = Score(goldLimits: nat, storedLimits: nat, found: seq<GoldRow>, flipped: seq<GoldRow>,
                         wrongUnit: seq<GoldRow>, missed: seq<GoldRow>, spurious: seq<StoredRow>,
                         kindRight: nat, kindWrong: nat)

  function GoldLimits(gold: seq<GoldRow>): seq<GoldRow> {
    if gold == [] then [] else
      var n := |gold| - 1;
      GoldLimits(gold[..n]) + if gold[n].kind.Limit? then [gold[n]] else []
  }

  function StoredLimits(rows: seq<StoredRow>): seq<StoredRow> {
    if rows == [] then [] else
      var n := |rows| - 1;
      StoredLimits(rows[..n]) + if rows[n].kind in StoredKind(Limit) then [rows[n]] else []
  }

  ghost function LimitsAt(gold: seq<GoldRow>): set<nat> { set i: nat | i < |gold| && gold[i].kind == Limit }

  ghost function StoredLimitsAt(rows: seq<StoredRow>): set<nat> {
    set i: nat | i < |rows| && (rows[i].kind == "numeric_limit" || rows[i].kind == "relative_limit")
  }

  /** The gold limits are the rows marked as such, in the sheet's order. */
  lemma {:induction false} LimitsListed(gold: seq<GoldRow>)
    ensures Selection(gold, LimitsAt(gold), GoldLimits(gold))
  {
    if gold == [] {
      SelectNone<GoldRow>();
      assert LimitsAt(gold) == {};
    } else {
      var n := |gold| - 1;
      LimitsListed(gold[..n]);
      assert gold[..n + 1] == gold;
      assert LimitsAt(gold) == if gold[n].kind.Limit? then LimitsAt(gold[..n]) + {n} else LimitsAt(gold[..n]);
      SelectNext(gold, n, LimitsAt(gold[..n]), GoldLimits(gold[..n]), LimitsAt(gold), GoldLimits(gold));
    }
  }

  /** The stored limits are the rows of the two kinds of limit, in the store's order. */
  lemma {:induction false} StoredLimitsListed(rows: seq<StoredRow>)
    ensures Selection(rows, StoredLimitsAt(rows), StoredLimits(rows))
  {
    if rows == [] {
      SelectNone<StoredRow>();
      assert StoredLimitsAt(rows) == {};
    } else {
      var n := |rows| - 1;
      StoredLimitsListed(rows[..n]);
      assert rows[..n + 1] == rows;
      assert StoredLimitsAt(rows)
          == if rows[n].kind in StoredKind(Limit) then StoredLimitsAt(rows[..n]) + {n} else StoredLimitsAt(rows[..n]);
      SelectNext(rows, n, StoredLimitsAt(rows[..n]), StoredLimits(rows[..n]), StoredLimitsAt(rows), StoredLimits(rows));
    }
  }

  // The places of the gold limits that met each fate.

  ghost function FoundAt(fates: seq<Fate>): set<nat> { set i: nat | i < |fates| && fates[i].Found? }

  ghost function FlippedAt(fates: seq<Fate>): set<nat> { set i: nat | i < |fates| && fates[i].Flipped? }

  ghost function WrongUnitAt(fates: seq<Fate>): set<nat> { set i: nat | i < |fates| && fates[i].WrongUnit? }

  ghost function MissedAt(fates: seq<Fate>): set<nat> {
    set i: nat | i < |fates| && (fates[i].MissedOther? || fates[i].MissedNone?)
  }

  /** Each list holds the gold limits that met its fate, in the sheet's order. */
  ghost predicate Sorted(gold: seq<GoldRow>, fates: seq<Fate>, found: seq<GoldRow>, flipped: seq<GoldRow>,
                         wrongUnit: seq<GoldRow>, missed: seq<GoldRow>)
  {
    && Selection(gold, FoundAt(fates), found) && Selection(gold, FlippedAt(fates), flipped)
    && Selection(gold, WrongUnitAt(fates), wrongUnit) && Selection(gold, MissedAt(fates), missed)
  }

  /** The four lists together hold each gold limit once. */
  lemma GoldConserved(gold: seq<GoldRow>, fates: seq<Fate>, found: seq<GoldRow>, flipped: seq<GoldRow>,
                      wrongUnit: seq<GoldRow>, missed: seq<GoldRow>)
    requires |gold| == |fates| && Sorted(gold, fates, found, flipped, wrongUnit, missed)
    ensures multiset(found) + multiset(flipped) + multiset(wrongUnit) + multiset(missed) == multiset(gold)
  {
    var a, b, c, d := FoundAt(fates), FlippedAt(fates), WrongUnitAt(fates), MissedAt(fates);
    var one := SelectEither(gold, a, found, b, flipped);
    var two := SelectEither(gold, a + b, one, c, wrongUnit);
    var all := SelectEither(gold, a + b + c, two, d, missed);
    AllSelected(gold, a + b + c + d, all);
  }

  /** Nothing is in the flipped and missed lists exactly when no fate is of these kinds; everything is in
      the found list exactly when every fate is. */
  lemma SortedMeans(gold: seq<GoldRow>, fates: seq<Fate>, found: seq<GoldRow>, flipped: seq<GoldRow>,
                    wrongUnit: seq<GoldRow>, missed: seq<GoldRow>)
    requires |gold| == |fates| && Sorted(gold, fates, found, flipped, wrongUnit, missed)
    ensures Clean(fates) <==> flipped == [] && missed == []
    ensures AllFound(fates) <==> found == gold
  {
    SelectedCount(gold, FlippedAt(fates), flipped);
    SelectedCount(gold, MissedAt(fates), missed);
    AllSelected(gold, FoundAt(fates), found);
    CleanMeans(fates);
    AllFoundMeans(fates);
  }

  lemma CleanMeans(fates: seq<Fate>)
    ensures Clean(fates) <==> |FlippedAt(fates)| == |MissedAt(fates)| == 0
  {
    if i: nat :| i < |fates| && !(fates[i].Found? || fates[i].WrongUnit?) {
      assert i in FlippedAt(fates) + MissedAt(fates);
    } else {
      assert FlippedAt(fates) == {} && MissedAt(fates) == {};
    }
  }

  lemma AllFoundMeans(fates: seq<Fate>)
    ensures AllFound(fates) <==> forall i: nat :: i < |fates| ==> i in FoundAt(fates)
  {
    if i: nat :| i < |fates| && !fates[i].Found? {
      assert i !in FoundAt(fates);
    }
  }

  predicate KindAgrees(want: GoldRow, rows: seq<StoredRow>) {
    exists i :: 0 <= i < |rows| && rows[i].clause == want.clause && rows[i].kind in StoredKind(want.kind)
  }

  predicate IsUpper(operator: Option<string>) { operator == Some("<=") || operator == Some("<") }

  predicate IsLower(operator: Option<string>) { operator == Some(">=") || operator == Some(">") }

  /** One bounds from above and the other from below. */
  predicate Opposed(a: Option<string>, b: Option<string>) {
    (IsUpper(a) && IsLower(b)) || (IsLower(a) && IsUpper(b))
  }

  /** Row `k` is the one a gold limit uses up: the first that agrees with it on the operator too; only
      when none does, the first of its clause and value. */
  ghost predicate IsTaken(want: GoldRow, rows: seq<StoredRow>, k: nat) {
    && k < |rows| && Same(want, rows[k])
    && (forall i :: 0 <= i < k ==> !Agrees(want, rows[i]))
    && (Agrees(want, rows[k]) || ((forall i :: 0 <= i < |rows| ==> !Agrees(want, rows[i]))
                                  && forall i :: 0 <= i < k ==> !Same(want, rows[i])))
  }

  /** What the pair of a gold limit and the stored row it used up means. */
  ghost predicate Means(want: GoldRow, hit: StoredRow, fate: Fate) {
    && !fate.MissedNone? && fate.hit == hit
    && (fate.Found? <==> Agrees(want, hit) && (want.unit == "" || want.unit == hit.unit))
    && (fate.WrongUnit? <==> Agrees(want, hit) && want.unit != "" && want.unit != hit.unit)
    && (fate.Flipped? <==> Opposed(Some(want.operator), hit.operator))
  }

  /** One gold limit uses up one stored row, or none when no row has its clause and value. */
  method Take(want: GoldRow, unmatched: seq<StoredRow>)
    returns (taken: Option<nat>, fate: Fate, left: seq<StoredRow>)
    ensures taken.None? ==> (forall i :: 0 <= i < |unmatched| ==> !Same(want, unmatched[i]))
                            && fate == MissedNone && left == unmatched
    ensures taken.Some? ==> IsTaken(want, unmatched, taken.value) && Means(want, unmatched[taken.value], fate)
                            && multiset(left) + multiset{unmatched[taken.value]} == multiset(unmatched)
                            && left == Removed(unmatched, taken.value)
  {
    taken := FindTaken(want, unmatched);
    if taken.None? { return None, MissedNone, unmatched; }
    var hit := unmatched[taken.value];
    left := Removed(unmatched, taken.value);
    RemovedRest(unmatched, taken.value);
    if hit.operator != Some(want.operator) {
      fate := if hit.operator.Some? && hit.operator.value in Opposite(want.operator) then Flipped(hit)
              else MissedOther(hit);
    } else if want.unit != "" && hit.unit != want.unit {
      fate := WrongUnit(hit);
    } else {
      fate := Found(hit);
    }
  }

  /** The rows of the clause and value, and among them the first that agrees, else the first. */
  method FindTaken(want: GoldRow, rows: seq<StoredRow>) returns (taken: Option<nat>)
    ensures taken.None? ==> forall i :: 0 <= i < |rows| ==> !Same(want, rows[i])
    ensures taken.Some? ==> IsTaken(want, rows, taken.value)
  {
    var same: Option<nat> := None;
    for i := 0 to |rows|
      invariant same.None? ==> forall k :: 0 <= k < i ==> !Same(want, rows[k])
      invariant same.Some? ==> same.value < i && Same(want, rows[same.value])
                               && forall k :: 0 <= k < same.value ==> !Same(want, rows[k])
      invariant forall k :: 0 <= k < i ==> !Agrees(want, rows[k])
    {
      if Same(want, rows[i]) {
        if rows[i].operator == Some(want.operator) { return Some(i); }
        if same.None? { same := Some(i); }
      }
    }
    return same;
  }

  /** That determines the row and the fate. */
  lemma TakenIsPicked(want: GoldRow, rows: seq<StoredRow>, k: nat, fate: Fate)
    requires IsTaken(want, rows, k) && Means(want, rows[k], fate)
    ensures Pick(want, rows) == Some(k) && fate == FateOf(want, rows[k])
  {
  }

  method ScoreLimits(gold: seq<GoldRow>, stored: seq<StoredRow>)
    returns (found: seq<GoldRow>, flipped: seq<GoldRow>, wrongUnit: seq<GoldRow>, missed: seq<GoldRow>,
             unmatched: seq<StoredRow>)
    ensures unmatched == Match(gold, stored).unmatched
    ensures Sorted(gold, Match(gold, stored).fates, found, flipped, wrongUnit, missed)
  {
    found, flipped, wrongUnit, missed, unmatched := [], [], [], [], stored;
    ghost var fates: seq<Fate> := [];
    Start(gold, stored);
    SortedNone();
    for k := 0 to |gold|
      invariant |fates| == k && Progress(gold, stored, k, fates, unmatched)
      invariant Sorted(gold[..k], fates, found, flipped, wrongUnit, missed)
    {
      Advance(gold, stored, k, fates, unmatched);
      var taken, fate, left := Take(gold[k], unmatched);
      if taken.Some? { TakenIsPicked(gold[k], unmatched, taken.value, fate); }
      SortedAppend(gold, k, fates, fate, found, flipped, wrongUnit, missed);
      match fate {
        case Found(_) => found := found + [gold[k]];
        case Flipped(_) => flipped := flipped + [gold[k]];
        case WrongUnit(_) => wrongUnit := wrongUnit + [gold[k]];
        case MissedOther(_) | MissedNone => missed := missed + [gold[k]];
      }
      unmatched := left;
      fates := fates + [fate];
    }
    Finish(gold, stored, fates, unmatched);
  }

  /** After `k` gold limits the rest of the run is a run over the rest of the sheet. */
  ghost predicate Progress(gold: seq<GoldRow>, stored: seq<StoredRow>, k: nat, fates: seq<Fate>, left: seq<StoredRow>)
    requires k <= |gold|
  {
    Match(gold, stored) == Run(fates + Match(gold[k..], left).fates, Match(gold[k..], left).unmatched)
  }

  lemma Start(gold: seq<GoldRow>, stored: seq<StoredRow>)
    ensures Progress(gold, stored, 0, [], stored)
  {
    assert gold[0..] == gold && [] + Match(gold, stored).fates == Match(gold, stored).fates;
  }

  lemma Finish(gold: seq<GoldRow>, stored: seq<StoredRow>, fates: seq<Fate>, left: seq<StoredRow>)
    requires Progress(gold, stored, |gold|, fates, left)
    ensures Match(gold, stored) == Run(fates, left) && gold[..|gold|] == gold
  {
    assert gold[|gold|..] == [] && fates + [] == fates;
  }

  lemma Advance(gold: seq<GoldRow>, stored: seq<StoredRow>, k: nat, fates: seq<Fate>, left: seq<StoredRow>)
    requires k < |gold| && Progress(gold, stored, k, fates, left)
    ensures var pick := Pick(gold[k], left);
            if pick.None? then Progress(gold, stored, k + 1, fates + [MissedNone], left)
            else Progress(gold, stored, k + 1, fates + [FateOf(gold[k], left[pick.value])], Removed(left, pick.value))
  {
    var pick := Pick(gold[k], left);
    var fate := if pick.None? then MissedNone else FateOf(gold[k], left[pick.value]);
    var rest := Match(gold[k + 1..], if pick.None? then left else Removed(left, pick.value));
    assert gold[k..][1..] == gold[k + 1..];
    assert Match(gold[k..], left) == Run([fate] + rest.fates, rest.unmatched);
    assert fates + ([fate] + rest.fates) == (fates + [fate]) + rest.fates;
  }

  lemma SortedNone()
    ensures Sorted([], [], [], [], [], [])
  {
    SelectNone<GoldRow>();
    assert FoundAt([]) == FlippedAt([]) == WrongUnitAt([]) == MissedAt([]) == {};
  }

  lemma SortedAppend(gold: seq<GoldRow>, k: nat, fates: seq<Fate>, fate: Fate, found: seq<GoldRow>,
                     flipped: seq<GoldRow>, wrongUnit: seq<GoldRow>, missed: seq<GoldRow>)
    requires k < |gold| && |fates| == k
    requires Sorted(gold[..k], fates, found, flipped, wrongUnit, missed)
    ensures Sorted(gold[..k + 1], fates + [fate],
                   if fate.Found? then found + [gold[k]] else found,
                   if fate.Flipped? then flipped + [gold[k]] else flipped,
                   if fate.WrongUnit? then wrongUnit + [gold[k]] else wrongUnit,
                   if fate.MissedOther? || fate.MissedNone? then missed + [gold[k]] else missed)
  {
    var more, g := fates + [fate], gold[k];
    OneMoreFate(fates, fate);
    SelectNext(gold, k, FoundAt(fates), found, FoundAt(more), if fate.Found? then found + [g] else found);
    SelectNext(gold, k, FlippedAt(fates), flipped, FlippedAt(more), if fate.Flipped? then flipped + [g] else flipped);
    SelectNext(gold, k, WrongUnitAt(fates), wrongUnit, WrongUnitAt(more),
               if fate.WrongUnit? then wrongUnit + [g] else wrongUnit);
    SelectNext(gold, k, MissedAt(fates), missed, MissedAt(more),
               if fate.MissedOther? || fate.MissedNone? then missed + [g] else missed);
  }

  lemma OneMoreFate(fates: seq<Fate>, fate: Fate)
    ensures var more, here := fates + [fate], {|fates|};
            && FoundAt(more) == (if fate.Found? then FoundAt(fates) + here else FoundAt(fates))
            && FlippedAt(more) == (if fate.Flipped? then FlippedAt(fates) + here else FlippedAt(fates))
            && WrongUnitAt(more) == (if fate.WrongUnit? then WrongUnitAt(fates) + here else WrongUnitAt(fates))
            && MissedAt(more)
               == if fate.MissedOther? || fate.MissedNone? then MissedAt(fates) + here else MissedAt(fates)
  {
  }

  /** How many rows that are not limits the store has with the clause and a matching kind, or without. */
  function KindCount(gold: seq<GoldRow>, stored: seq<StoredRow>, agrees: bool): nat {
    if gold == [] then 0 else
      var last := gold[|gold| - 1];
      KindCount(gold[..|gold| - 1], stored, agrees)
      + if !last.kind.Limit? && KindAgrees(last, stored) == agrees then 1 else 0
  }

  lemma {:induction false} KindsCounted(gold: seq<GoldRow>, stored: seq<StoredRow>)
    ensures KindCount(gold, stored, true) + KindCount(gold, stored, false) + |GoldLimits(gold)| == |gold|
  {
    if gold == [] {
      assert GoldLimits(gold) == [];
    } else {
      KindsCounted(gold[..|gold| - 1], stored);
    }
  }

  /** A stored row of the same clause is of the kind the sheet says. */
  ghost predicate Confirmed(want: GoldRow, stored: seq<StoredRow>) {
    exists s :: && s in stored && s.clause == want.clause
                && match want.kind
                   case Limit => s.kind == "numeric_limit" || s.kind == "relative_limit"
                   case Statement => s.kind == "statement"
                   case Table => s.kind == "table_row" || s.kind == "table_value"
                   case Trigger => s.kind == "applicability_trigger"
  }

  lemma KindAgreesIff(want: GoldRow, stored: seq<StoredRow>)
    ensures KindAgrees(want, stored) <==> Confirmed(want, stored)
  {
    forall s ensures s in stored <==> exists i :: 0 <= i < |stored| && stored[i] == s {}
    match want.kind { case Limit => case Statement => case Table => case Trigger => }
  }

  /** The gold rows that are not limits, and are confirmed or not. */
  ghost function KindsAt(gold: seq<GoldRow>, stored: seq<StoredRow>, agrees: bool): set<nat> {
    set i: nat | i < |gold| && gold[i].kind != Limit && Confirmed(gold[i], stored) == agrees
  }

  ghost function KindFlags(gold: seq<GoldRow>, stored: seq<StoredRow>, agrees: bool): seq<bool> {
    seq(|gold|, i requires 0 <= i < |gold| => !gold[i].kind.Limit? && KindAgrees(gold[i], stored) == agrees)
  }

  lemma {:induction false} KindCountFlags(gold: seq<GoldRow>, stored: seq<StoredRow>, agrees: bool)
    ensures KindCount(gold, stored, agrees) == multiset(KindFlags(gold, stored, agrees))[true]
  {
    if gold != [] {
      var n := |gold| - 1;
      KindCountFlags(gold[..n], stored, agrees);
      var flags := KindFlags(gold, stored, agrees);
      assert flags == KindFlags(gold[..n], stored, agrees) + [flags[n]];
    }
  }

  lemma KindCountIs(gold: seq<GoldRow>, stored: seq<StoredRow>, agrees: bool)
    ensures KindCount(gold, stored, agrees) == |KindsAt(gold, stored, agrees)|
  {
    KindCountFlags(gold, stored, agrees);
    TruesCounted(KindFlags(gold, stored, agrees));
    forall i: nat | i < |gold| ensures KindAgrees(gold[i], stored) <==> Confirmed(gold[i], stored) {
      KindAgreesIff(gold[i], stored);
    }
    assert TruesAt(KindFlags(gold, stored, agrees)) == KindsAt(gold, stored, agrees);
  }

  /** `score_standard`. */
  method ScoreStandard(gold: seq<GoldRow>, stored: seq<StoredRow>) returns (s: Score)
    ensures var limits, rows := GoldLimits(gold), StoredLimits(stored);
            && Selection(gold, LimitsAt(gold), limits) && Selection(stored, StoredLimitsAt(stored), rows)
            && s.goldLimits == |limits| && s.storedLimits == |rows|
            && Sorted(limits, Match(limits, rows).fates, s.found, s.flipped, s.wrongUnit, s.missed)
            && s.spurious == Match(limits, rows).unmatched
            && multiset(s.found) + multiset(s.flipped) + multiset(s.wrongUnit) + multiset(s.missed)
               == multiset(limits)
            && (Contained(limits, rows) <==> s.flipped == [] && s.missed == [])
            && (s.found == limits <==> forall key :: KeyAgrees(limits, rows, key))
            && s.kindRight == |KindsAt(gold, stored, true)| && s.kindWrong == |KindsAt(gold, stored, false)|
            && s.kindRight + s.kindWrong + |limits| == |gold|
  {
    var limits, rows := GoldLimits(gold), StoredLimits(stored);
    var found, flipped, wrongUnit, missed, unmatched := ScoreLimits(limits, rows);
    var right, wrong := 0, 0;
    for k := 0 to |gold|
      invariant right == KindCount(gold[..k], stored, true) && wrong == KindCount(gold[..k], stored, false)
    {
      assert gold[..k + 1][..k] == gold[..k];
      if !gold[k].kind.Limit? {
        if KindAgrees(gold[k], stored) { right := right + 1; } else { wrong := wrong + 1; }
      }
    }
    KindsCounted(gold, stored);
    KindCountIs(gold, stored, true);
    KindCountIs(gold, stored, false);
    assert gold[..|gold|] == gold;
    ghost var fates := Match(limits, rows).fates;
    GoldConserved(limits, fates, found, flipped, wrongUnit, missed);
    SortedMeans(limits, fates, found, flipped, wrongUnit, missed);
    CleanIffContained(limits, rows);
    AllFoundIff(limits, rows);
    LimitsListed(gold);
    StoredLimitsListed(stored);
    s := Score(|limits|, |rows|, found, flipped, wrongUnit, missed, unmatched, right, wrong);
  }
}
