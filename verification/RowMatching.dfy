/** Row matching of `scripts/eval_extraction.py`: extracted rows are paired with
    gold rows one-to-one within a page, exact normalised names first, then fuzzy.

    Rows are named by their index, which stands for Python's `id()`. Who ends up
    paired with whom is stated here without any loop (`Scope.Mate`), with what it
    means; `PageMatching` holds the program. */
module RowMatching {
  import opened Sequences

  const SIMILARITY := 0.93
  const MARGIN := 0.03

  type Page = Option<int>

  /** What the matching reads of a row: its page and its normalised name. */
  datatype Key = Key(page: Page, name: string)

  /** The indices below `n` that carry `key`, in order. */
  function Positions(keys: seq<Key>, key: Key, n: nat): seq<nat>
    requires n <= |keys|
  {
    if n == 0 then []
    else if keys[n - 1] == key then Positions(keys, key, n - 1) + [n - 1]
    else Positions(keys, key, n - 1)
  }

  /** How many earlier rows carry the same page and name. */
  function Rank(keys: seq<Key>, i: nat): nat
    requires i < |keys|
  {
    |Positions(keys, keys[i], i)|
  }

  lemma {:induction false} RankIsPosition(keys: seq<Key>, n: nat, i: nat)
    requires i < n <= |keys|
    ensures Rank(keys, i) < |Positions(keys, keys[i], n)|
    ensures Positions(keys, keys[i], n)[Rank(keys, i)] == i
  {
    if i < n - 1 {
      RankIsPosition(keys, n - 1, i);
    }
  }

  lemma {:induction false} PositionIsRank(keys: seq<Key>, key: Key, n: nat, r: nat)
    requires n <= |keys| && r < |Positions(keys, key, n)|
    ensures var i := Positions(keys, key, n)[r]; i < n && keys[i] == key && Rank(keys, i) == r
  {
    if r < |Positions(keys, key, n - 1)| {
      PositionIsRank(keys, key, n - 1, r);
    }
  }

  lemma PositionsIncrease(keys: seq<Key>, key: Key, n: nat)
    requires n <= |keys|
    ensures Increasing(Positions(keys, key, n))
    ensures forall k :: 0 <= k < |Positions(keys, key, n)| ==> Positions(keys, key, n)[k] < n
  {}

  /** A pair the matching reports, with the name score it reports for it. */
  datatype Pair = Pair(g: nat, e: nat, score: real)

  /** One scope: its gold rows, its extracted rows, and `difflib`'s similarity ratio
      (the extracted name first). */
  datatype Scope = Scope(gold: seq<Key>, got: seq<Key>, ratio: (string, string) -> real) {

    /** Same page, same normalised name, same place among the rows of that name. */
    predicate ExactMate(g: nat, e: nat) {
      && g < |gold| && e < |got|
      && gold[g] == got[e]
      && Rank(gold, g) == Rank(got, e)
    }

    predicate GoldTaken(g: nat) {
      g < |gold| && Rank(gold, g) < |Positions(got, gold[g], |got|)|
    }

    predicate GotTaken(e: nat) {
      e < |got| && Rank(got, e) < |Positions(gold, got[e], |gold|)|
    }

    /** Both rows are left over on one page after the exact pass. */
    predicate Candidates(e: nat, g: nat) {
      && e < |got| && !GotTaken(e)
      && g < |gold| && !GoldTaken(g)
      && gold[g].page == got[e].page
    }

    function Ratio(e: nat, g: nat): real {
      if e < |got| && g < |gold| then ratio(got[e].name, gold[g].name) else 0.0
    }

    /** `g` is similar enough to `e`, and no other gold row comes within the margin. */
    ghost predicate ClearBest(e: nat, g: nat) {
      && Candidates(e, g)
      && Ratio(e, g) >= SIMILARITY
      && forall h: nat :: Candidates(e, h) && h != g ==> Ratio(e, g) - Ratio(e, h) >= MARGIN
    }

    predicate Outbids(e: nat, f: nat, g: nat) {
      Ratio(e, g) > Ratio(f, g) || (Ratio(e, g) == Ratio(f, g) && e < f)
    }

    /** Of all rows whose clear best is `g`, `e` has the highest score, the first of equals. */
    ghost predicate FuzzyMate(g: nat, e: nat) {
      && ClearBest(e, g)
      && forall f: nat :: ClearBest(f, g) && f != e ==> Outbids(e, f, g)
    }

    ghost predicate Mate(g: nat, e: nat) {
      ExactMate(g, e) || FuzzyMate(g, e)
    }

    /** `e` came near enough to some gold row and yet has no clear best one. */
    ghost predicate Ambiguous(e: nat) {
      && (exists g: nat :: Candidates(e, g) && Ratio(e, g) >= SIMILARITY)
      && !exists g: nat :: ClearBest(e, g)
    }

    ghost predicate GoldMated(g: nat) { exists e: nat :: Mate(g, e) }

    ghost predicate GotMated(e: nat) { exists g: nat :: Mate(g, e) }

    function Score(g: nat, e: nat): real {
      if ExactMate(g, e) then 1.0 else Ratio(e, g)
    }
  }

  // ------------------------------------------------------------ what the pairing means

  lemma ExactMateUnique(s: Scope, g: nat, e: nat, h: nat, f: nat)
    requires s.ExactMate(g, e) && s.ExactMate(h, f)
    ensures g == h <==> e == f
  {
    RankIsPosition(s.gold, |s.gold|, g);
    RankIsPosition(s.gold, |s.gold|, h);
    RankIsPosition(s.got, |s.got|, e);
    RankIsPosition(s.got, |s.got|, f);
  }

  lemma ExactMateTakes(s: Scope, g: nat, e: nat)
    requires s.ExactMate(g, e)
    ensures s.GoldTaken(g) && s.GotTaken(e)
  {
    RankIsPosition(s.gold, |s.gold|, g);
    RankIsPosition(s.got, |s.got|, e);
  }

  lemma GoldTakenHasMate(s: Scope, g: nat) returns (e: nat)
    requires g < |s.gold| && s.GoldTaken(g)
    ensures s.ExactMate(g, e)
  {
    var r := Rank(s.gold, g);
    PositionIsRank(s.got, s.gold[g], |s.got|, r);
    e := Positions(s.got, s.gold[g], |s.got|)[r];
  }

  lemma GotTakenHasMate(s: Scope, e: nat) returns (g: nat)
    requires e < |s.got| && s.GotTaken(e)
    ensures s.ExactMate(g, e)
  {
    var r := Rank(s.got, e);
    PositionIsRank(s.gold, s.got[e], |s.gold|, r);
    g := Positions(s.gold, s.got[e], |s.gold|)[r];
  }

  /** One-to-one: two pairs share a gold row exactly when they share an extracted row. */
  lemma MateOneToOne(s: Scope, g: nat, e: nat, h: nat, f: nat)
    requires s.Mate(g, e) && s.Mate(h, f)
    ensures g == h <==> e == f
  {
    if s.ExactMate(g, e) { ExactMateTakes(s, g, e); }
    if s.ExactMate(h, f) { ExactMateTakes(s, h, f); }
    if s.ExactMate(g, e) && s.ExactMate(h, f) {
      ExactMateUnique(s, g, e, h, f);
    } else if s.FuzzyMate(g, e) && s.FuzzyMate(h, f) {
      assert g == h && e != f ==> s.Outbids(e, f, g);
    }
  }

  /** A name's exact pairs are its first min(gold, extracted) rows on either side, in order. */
  lemma ExactPairsInOrder(s: Scope, key: Key, k: nat)
    ensures var gs := Positions(s.gold, key, |s.gold|);
            var es := Positions(s.got, key, |s.got|);
            && (k < |gs| && k < |es| ==> s.ExactMate(gs[k], es[k]))
            && (k < |gs| ==> (s.GoldTaken(gs[k]) <==> k < |es|))
            && (k < |es| ==> (s.GotTaken(es[k]) <==> k < |gs|))
  {
    var gs := Positions(s.gold, key, |s.gold|);
    var es := Positions(s.got, key, |s.got|);
    if k < |gs| { PositionIsRank(s.gold, key, |s.gold|, k); }
    if k < |es| { PositionIsRank(s.got, key, |s.got|, k); }
  }

  /** The exact pass comes first: a gold row paired fuzzily has no extracted row of its
      own name that the exact pass left over, and the other way round. */
  lemma FuzzyOnlyAfterExact(s: Scope, g: nat, e: nat, f: nat, h: nat)
    requires s.FuzzyMate(g, e)
    ensures f < |s.got| && s.got[f] == s.gold[g] ==> s.GotTaken(f)
    ensures h < |s.gold| && s.gold[h] == s.got[e] ==> s.GoldTaken(h)
  {
    if f < |s.got| && s.got[f] == s.gold[g] {
      RankIsPosition(s.gold, |s.gold|, g);
      RankIsPosition(s.got, |s.got|, f);
    }
    if h < |s.gold| && s.gold[h] == s.got[e] {
      RankIsPosition(s.got, |s.got|, e);
      RankIsPosition(s.gold, |s.gold|, h);
    }
  }

  /** Stability: an unpaired extracted row is ambiguous, or near no gold row of its page, or
      its clear best gold row is paired with a row that scored at least as high. */
  lemma WhyUnpaired(s: Scope, e: nat) returns (g: nat, f: nat)
    requires e < |s.got| && !s.GotMated(e)
    ensures || s.Ambiguous(e)
            || (forall h: nat :: s.Candidates(e, h) ==> s.Ratio(e, h) < SIMILARITY)
            || (s.ClearBest(e, g) && s.FuzzyMate(g, f) && s.Ratio(f, g) >= s.Ratio(e, g))
  {
    g, f := 0, 0;
    if h: nat :| s.ClearBest(e, h) {
      g := h;
      f := TopClaimant(s, g, e, |s.got|);
    }
  }

  /** Among the first `n` extracted rows, the one that outbids every other claimant of `g`. */
  lemma {:induction false} TopClaimant(s: Scope, g: nat, e: nat, n: nat) returns (f: nat)
    requires e < n <= |s.got| && s.ClearBest(e, g)
    ensures f < n && s.ClearBest(f, g)
    ensures forall k: nat :: k < n && s.ClearBest(k, g) && k != f ==> s.Outbids(f, k, g)
    ensures n == |s.got| ==> s.FuzzyMate(g, f) && s.Ratio(f, g) >= s.Ratio(e, g)
    decreases n
  {
    if e == n - 1 {
      if k: nat :| k < n - 1 && s.ClearBest(k, g) {
        f := TopClaimant(s, g, k, n - 1);
        if s.Outbids(e, f, g) { f := e; }
      } else {
        f := e;
      }
    } else {
      f := TopClaimant(s, g, e, n - 1);
      if s.ClearBest(n - 1, g) && s.Outbids(n - 1, f, g) { f := n - 1; }
    }
  }
}
