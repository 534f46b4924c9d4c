/** The matching program of `scripts/eval_extraction.py`, `match_page` and `match_all`: its loops
    are proved to produce exactly the pairs that `RowMatching` describes. */
module PageMatching {
  import opened Sequences
  import opened RowMatching

  /** What one call returns: pairs, unmatched gold rows, unmatched extracted rows, and the
      extracted rows logged as `ambiguous_name`. */
  datatype Outcome = Outcome(pairs: seq<Pair>, missed: seq<nat>, extra: seq<nat>, ambiguous: seq<nat>)

  ghost predicate Distinct(pairs: seq<Pair>) {
    forall i, j :: 0 <= i < j < |pairs| ==> pairs[i].g != pairs[j].g && pairs[i].e != pairs[j].e
  }

  ghost predicate PairsAre(s: Scope, pages: set<Page>, pairs: seq<Pair>) {
    && (forall p :: p in pairs ==> p.g < |s.gold| && p.e < |s.got| && s.gold[p.g].page in pages
                                   && s.Mate(p.g, p.e) && p.score == s.Score(p.g, p.e))
    && (forall g: nat, e: nat :: s.Mate(g, e) && s.gold[g].page in pages
                                 ==> Pair(g, e, s.Score(g, e)) in pairs)
    && Distinct(pairs)
  }

  /** `r` settles every row of `pages`: exactly the mates are paired and every other row is
      listed once as unmatched. */
  ghost predicate Settles(s: Scope, pages: set<Page>, r: Outcome) {
    && PairsAre(s, pages, r.pairs)
    && NoRepeats(r.missed) && NoRepeats(r.extra)
    && (forall g: nat :: g in r.missed <==> g < |s.gold| && s.gold[g].page in pages && !s.GoldMated(g))
    && (forall e: nat :: e in r.extra <==> e < |s.got| && s.got[e].page in pages && !s.GotMated(e))
  }

  /** Exactly the ambiguous rows are logged as such. */
  ghost predicate LogsAmbiguous(s: Scope, pages: set<Page>, r: Outcome) {
    forall e: nat :: e in r.ambiguous <==> e < |s.got| && s.got[e].page in pages && s.Ambiguous(e)
  }

  function Bucket(buckets: map<string, seq<nat>>, name: string): seq<nat> {
    if name in buckets then buckets[name] else []
  }

  function Drop(s: seq<nat>, k: nat): seq<nat> {
    if k <= |s| then s[k..] else []
  }

  method FillBuckets(s: Scope, page: Page) returns (buckets: map<string, seq<nat>>, order: seq<string>)
    ensures forall name ::
              Bucket(buckets, name) == Positions(s.gold, Key(page, name), |s.gold|)
    ensures NoRepeats(order) && forall name :: name in order <==> name in buckets
  {
    buckets, order := map[], [];
    for i := 0 to |s.gold|
      invariant forall name :: Bucket(buckets, name) == Positions(s.gold, Key(page, name), i)
      invariant NoRepeats(order) && forall name :: name in order <==> name in buckets
    {
      if s.gold[i].page == page {
        var name := s.gold[i].name;
        if name !in buckets {
          order := order + [name];
        }
        buckets := buckets[name := Bucket(buckets, name) + [i]];
      }
    }
  }

  /** The gold row in the same place among the rows of `e`'s page and name. */
  function SameplaceGold(s: Scope, e: nat): nat
    requires s.GotTaken(e)
  {
    Positions(s.gold, s.got[e], |s.gold|)[Rank(s.got, e)]
  }

  function ExactUpTo(s: Scope, page: Page, n: nat): seq<Pair>
    requires n <= |s.got|
  {
    if n == 0 then []
    else if s.got[n - 1].page == page && s.GotTaken(n - 1) then
      ExactUpTo(s, page, n - 1) + [Pair(SameplaceGold(s, n - 1), n - 1, 1.0)]
    else ExactUpTo(s, page, n - 1)
  }

  function StillUpTo(s: Scope, page: Page, n: nat): seq<nat>
    requires n <= |s.got|
  {
    if n == 0 then []
    else if s.got[n - 1].page == page && !s.GotTaken(n - 1) then StillUpTo(s, page, n - 1) + [n - 1]
    else StillUpTo(s, page, n - 1)
  }

  lemma {:induction false} StillIs(s: Scope, page: Page, n: nat)
    requires n <= |s.got|
    ensures Increasing(StillUpTo(s, page, n))
    ensures forall e: nat :: e in StillUpTo(s, page, n) <==> e < n && s.got[e].page == page && !s.GotTaken(e)
  {
    if n > 0 {
      StillIs(s, page, n - 1);
      var before := StillUpTo(s, page, n - 1);
      assert forall i :: 0 <= i < |before| ==> before[i] in before;
    }
  }

  lemma {:induction false} ExactIs(s: Scope, page: Page, n: nat)
    requires n <= |s.got|
    ensures forall p :: p in ExactUpTo(s, page, n)
                        ==> s.ExactMate(p.g, p.e) && s.gold[p.g].page == page && p.score == 1.0 && p.e < n
    ensures forall g: nat, e: nat :: s.ExactMate(g, e) && s.got[e].page == page && e < n
                                     ==> Pair(g, e, 1.0) in ExactUpTo(s, page, n)
    ensures Distinct(ExactUpTo(s, page, n))
  {
    if n > 0 {
      ExactIs(s, page, n - 1);
      var e := n - 1;
      var before := ExactUpTo(s, page, e);
      if s.got[e].page == page && s.GotTaken(e) {
        var g := SameplaceGold(s, e);
        PositionIsRank(s.gold, s.got[e], |s.gold|, Rank(s.got, e));
        assert s.ExactMate(g, e);
        forall h: nat | s.ExactMate(h, e) ensures h == g { ExactMateUnique(s, g, e, h, e); }
        forall i | 0 <= i < |before| ensures before[i].g != g && before[i].e != e {
          assert before[i] in before;
          ExactMateUnique(s, g, e, before[i].g, before[i].e);
        }
      } else {
        forall h: nat | s.ExactMate(h, e) && s.got[e].page == page ensures false { ExactMateTakes(s, h, e); }
      }
    }
  }

  lemma BucketHead(s: Scope, page: Page, e: nat)
    requires e < |s.got| && s.got[e].page == page
    ensures var all := Positions(s.gold, Key(page, s.got[e].name), |s.gold|);
            var bucket := Drop(all, |Positions(s.got, Key(page, s.got[e].name), e)|);
            && (bucket != [] <==> s.GotTaken(e))
            && (bucket != [] ==> bucket[0] == SameplaceGold(s, e))
            && (if bucket != [] then bucket[1..] else [])
               == Drop(all, |Positions(s.got, Key(page, s.got[e].name), e + 1)|)
  {
    assert s.got[e] == Key(page, s.got[e].name);
  }

  /** Each bucket is without the gold rows that the first `n` extracted rows have popped. */
  ghost predicate PoppedTo(s: Scope, page: Page, buckets: map<string, seq<nat>>, n: nat)
    requires n <= |s.got|
  {
    forall name {:trigger Bucket(buckets, name)} ::
      Bucket(buckets, name) == Drop(Positions(s.gold, Key(page, name), |s.gold|),
                                    |Positions(s.got, Key(page, name), n)|)
  }

  lemma OtherBucket(s: Scope, page: Page, e: nat, name: string)
    requires e < |s.got| && s.got[e] != Key(page, name)
    ensures Positions(s.got, Key(page, name), e + 1) == Positions(s.got, Key(page, name), e)
  {
  }

  lemma PopsNothing(s: Scope, page: Page, buckets: map<string, seq<nat>>, e: nat)
    requires e < |s.got| && s.got[e].page != page && PoppedTo(s, page, buckets, e)
    ensures PoppedTo(s, page, buckets, e + 1)
  {
    forall name {:trigger Bucket(buckets, name)}
      ensures Bucket(buckets, name) == Drop(Positions(s.gold, Key(page, name), |s.gold|),
                                            |Positions(s.got, Key(page, name), e + 1)|)
    {
      OtherBucket(s, page, e, name);
    }
  }

  function Popped(buckets: map<string, seq<nat>>, name: string): map<string, seq<nat>> {
    if Bucket(buckets, name) == [] then buckets else buckets[name := Bucket(buckets, name)[1..]]
  }

  lemma PopsOne(s: Scope, page: Page, buckets: map<string, seq<nat>>, e: nat)
    requires e < |s.got| && s.got[e].page == page && PoppedTo(s, page, buckets, e)
    ensures PoppedTo(s, page, Popped(buckets, s.got[e].name), e + 1)
  {
    var after := Popped(buckets, s.got[e].name);
    forall name {:trigger Bucket(after, name)}
      ensures Bucket(after, name) == Drop(Positions(s.gold, Key(page, name), |s.gold|),
                                          |Positions(s.got, Key(page, name), e + 1)|)
    {
      assert Bucket(buckets, name) == Drop(Positions(s.gold, Key(page, name), |s.gold|),
                                           |Positions(s.got, Key(page, name), e)|);
      if name == s.got[e].name { BucketHead(s, page, e); } else { OtherBucket(s, page, e, name); }
    }
  }

  lemma PairsOne(s: Scope, page: Page, buckets: map<string, seq<nat>>, e: nat)
    requires e < |s.got| && s.got[e].page == page && PoppedTo(s, page, buckets, e)
    ensures var bucket := Bucket(buckets, s.got[e].name);
            if bucket != [] then
              && ExactUpTo(s, page, e + 1) == ExactUpTo(s, page, e) + [Pair(bucket[0], e, 1.0)]
              && StillUpTo(s, page, e + 1) == StillUpTo(s, page, e)
            else
              && ExactUpTo(s, page, e + 1) == ExactUpTo(s, page, e)
              && StillUpTo(s, page, e + 1) == StillUpTo(s, page, e) + [e]
  {
    BucketHead(s, page, e);
  }

  lemma PoppedStart(s: Scope, page: Page, filled: map<string, seq<nat>>)
    requires forall name :: Bucket(filled, name) == Positions(s.gold, Key(page, name), |s.gold|)
    ensures PoppedTo(s, page, filled, 0)
  {
  }

  /** One extracted row of the page: it pops the first gold row of its name, or stays. */
  method PopOne(s: Scope, page: Page, e: nat, pairs: seq<Pair>, still: seq<nat>, buckets: map<string, seq<nat>>)
    returns (morePairs: seq<Pair>, moreStill: seq<nat>, after: map<string, seq<nat>>)
    requires e < |s.got| && s.got[e].page == page && PoppedTo(s, page, buckets, e)
    requires pairs == ExactUpTo(s, page, e) && still == StillUpTo(s, page, e)
    ensures after.Keys == buckets.Keys && PoppedTo(s, page, after, e + 1)
    ensures morePairs == ExactUpTo(s, page, e + 1) && moreStill == StillUpTo(s, page, e + 1)
  {
    var name := s.got[e].name;
    var bucket := Bucket(buckets, name);
    morePairs, moreStill, after := pairs, still, buckets;
    PopsOne(s, page, buckets, e);
    PairsOne(s, page, buckets, e);
    if bucket != [] {
      morePairs := pairs + [Pair(bucket[0], e, 1.0)];
      after := buckets[name := bucket[1..]];
    } else {
      moreStill := still + [e];
    }
  }

  /** Pass 1: exact on the normalised name, in order, one-to-one. */
  method ExactPass(s: Scope, page: Page, filled: map<string, seq<nat>>)
    returns (pairs: seq<Pair>, still: seq<nat>, buckets: map<string, seq<nat>>)
    requires forall name :: Bucket(filled, name) == Positions(s.gold, Key(page, name), |s.gold|)
    ensures buckets.Keys == filled.Keys
    ensures forall name {:trigger Bucket(buckets, name)} ::
              Bucket(buckets, name) == Drop(Positions(s.gold, Key(page, name), |s.gold|),
                                            |Positions(s.got, Key(page, name), |s.got|)|)
    ensures pairs == ExactUpTo(s, page, |s.got|) && still == StillUpTo(s, page, |s.got|)
  {
    pairs, still, buckets := [], [], filled;
    PoppedStart(s, page, filled);
    for e := 0 to |s.got|
      invariant buckets.Keys == filled.Keys && PoppedTo(s, page, buckets, e)
      invariant pairs == ExactUpTo(s, page, e) && still == StillUpTo(s, page, e)
    {
      if s.got[e].page == page {
        pairs, still, buckets := PopOne(s, page, e, pairs, still, buckets);
      } else {
        PopsNothing(s, page, buckets, e);
      }
    }
  }

  lemma LeftInBucket(s: Scope, page: Page, name: string, g: nat)
    ensures g in Drop(Positions(s.gold, Key(page, name), |s.gold|),
                      |Positions(s.got, Key(page, name), |s.got|)|)
            <==> g < |s.gold| && s.gold[g] == Key(page, name) && !s.GoldTaken(g)
  {
    var ps := Positions(s.gold, Key(page, name), |s.gold|);
    var taken := |Positions(s.got, Key(page, name), |s.got|)|;
    if g < |s.gold| && s.gold[g] == Key(page, name) {
      var r := Rank(s.gold, g);
      RankIsPosition(s.gold, |s.gold|, g);
      if r >= taken { assert ps[taken..][r - taken] == g; }
    }
    if taken <= |ps| && g in ps[taken..] {
      var k :| 0 <= k < |ps[taken..]| && ps[taken..][k] == g;
      PositionIsRank(s.gold, Key(page, name), |s.gold|, taken + k);
    }
  }

  function Chain(buckets: map<string, seq<nat>>, order: seq<string>): seq<nat> {
    if order == [] then [] else
      Chain(buckets, order[..|order| - 1]) + Bucket(buckets, order[|order| - 1])
  }

  /** What the exact pass left in the buckets: each leftover gold row of the page once. */
  lemma {:induction false} ChainIs(s: Scope, page: Page, buckets: map<string, seq<nat>>, order: seq<string>)
    requires NoRepeats(order)
    requires forall name {:trigger Bucket(buckets, name)} ::
               Bucket(buckets, name) == Drop(Positions(s.gold, Key(page, name), |s.gold|),
                                             |Positions(s.got, Key(page, name), |s.got|)|)
    ensures NoRepeats(Chain(buckets, order))
    ensures forall g: nat :: g in Chain(buckets, order) <==>
              g < |s.gold| && s.gold[g].page == page && !s.GoldTaken(g) && s.gold[g].name in order
  {
    if order != [] {
      var last := |order| - 1;
      var name := order[last];
      var rest := Chain(buckets, order[..last]);
      ChainIs(s, page, buckets, order[..last]);
      assert order == order[..last] + [name] && name !in order[..last];
      forall g: nat ensures g in Bucket(buckets, name) <==>
                              g < |s.gold| && s.gold[g] == Key(page, name) && !s.GoldTaken(g)
      {
        LeftInBucket(s, page, name, g);
      }
      PositionsIncrease(s.gold, Key(page, name), |s.gold|);
      NoRepeatsConcat(rest, Bucket(buckets, name));
    }
  }

  method GoldLeft(s: Scope, page: Page, buckets: map<string, seq<nat>>, order: seq<string>)
    returns (left: seq<nat>)
    requires NoRepeats(order) && forall name :: name in order <==> name in buckets
    requires forall name {:trigger Bucket(buckets, name)} ::
               Bucket(buckets, name) == Drop(Positions(s.gold, Key(page, name), |s.gold|),
                                             |Positions(s.got, Key(page, name), |s.got|)|)
    ensures NoRepeats(left)
    ensures forall g: nat :: g in left <==> g < |s.gold| && s.gold[g].page == page && !s.GoldTaken(g)
  {
    left := [];
    for k := 0 to |order|
      invariant left == Chain(buckets, order[..k])
    {
      assert order[..k + 1][..k] == order[..k];
      left := left + buckets[order[k]];
    }
    assert order[..|order|] == order;
    ChainIsLeft(s, page, buckets, order);
  }

  lemma ChainIsLeft(s: Scope, page: Page, buckets: map<string, seq<nat>>, order: seq<string>)
    requires NoRepeats(order) && forall name :: name in order <==> name in buckets
    requires forall name {:trigger Bucket(buckets, name)} ::
               Bucket(buckets, name) == Drop(Positions(s.gold, Key(page, name), |s.gold|),
                                             |Positions(s.got, Key(page, name), |s.got|)|)
    ensures NoRepeats(Chain(buckets, order))
    ensures forall g: nat ::
              g in Chain(buckets, order) <==> g < |s.gold| && s.gold[g].page == page && !s.GoldTaken(g)
  {
    ChainIs(s, page, buckets, order);
    forall g: nat | g < |s.gold| && s.gold[g].page == page && !s.GoldTaken(g)
      ensures s.gold[g].name in order
    {
      LeftInOrder(s, page, buckets, g);
    }
  }

  lemma LeftInOrder(s: Scope, page: Page, buckets: map<string, seq<nat>>, g: nat)
    requires g < |s.gold| && s.gold[g].page == page && !s.GoldTaken(g)
    requires Bucket(buckets, s.gold[g].name) == Drop(Positions(s.gold, Key(page, s.gold[g].name), |s.gold|),
                                                     |Positions(s.got, Key(page, s.gold[g].name), |s.got|)|)
    ensures s.gold[g].name in buckets
  {
    LeftInBucket(s, page, s.gold[g].name, g);
  }

  /** The highest ratio, a gold row that reaches it, and the second highest ratio
      (0.0 when there is no second row). */
  method TopTwo(s: Scope, e: nat, left: seq<nat>) returns (best: real, g: nat, runner: real)
    requires e < |s.got| && left != [] && NoRepeats(left)
    requires forall h: nat :: h in left ==> h < |s.gold|
    ensures g in left && best == s.Ratio(e, g)
    ensures |left| == 1 ==> runner == 0.0
    ensures |left| > 1 ==> exists h :: h in left && h != g && runner == s.Ratio(e, h)
    ensures forall h :: h in left && h != g ==> s.Ratio(e, h) <= runner <= best
  {
    g, best, runner := left[0], s.Ratio(e, left[0]), 0.0;
    for k := 1 to |left|
      invariant g in left[..k] && best == s.Ratio(e, g)
      invariant k == 1 ==> runner == 0.0
      invariant k > 1 ==> exists h :: h in left[..k] && h != g && runner == s.Ratio(e, h)
      invariant forall h :: h in left[..k] && h != g ==> s.Ratio(e, h) <= runner <= best
    {
      var h := left[k];
      assert left[..k + 1] == left[..k] + [h];
      assert h !in left[..k];
      assert g in left[..k + 1] && h in left[..k + 1];
      var ratio := s.Ratio(e, h);
      if ratio > best {
        assert runner <= best || k == 1;
        runner, best, g := best, ratio, h;
      } else if k == 1 || ratio > runner {
        runner := ratio;
      }
    }
    assert left[..|left|] == left;
  }

  datatype Claim = Claim(score: real, e: nat, g: nat)

  /** The claims of the rows seen so far, in their order: exactly their clear bests. */
  ghost predicate ClaimsOf(s: Scope, claims: seq<Claim>, rows: seq<nat>) {
    && (forall i, j :: 0 <= i < j < |claims| ==> claims[i].e < claims[j].e)
    && (forall c :: c in claims ==> s.ClearBest(c.e, c.g) && c.score == s.Ratio(c.e, c.g) && c.e in rows)
    && (forall e: nat, g: nat :: s.ClearBest(e, g) && e in rows ==> Claim(s.Ratio(e, g), e, g) in claims)
  }

  ghost predicate LogOf(s: Scope, ambiguous: seq<nat>, rows: seq<nat>) {
    forall e: nat :: e in ambiguous <==> e in rows && s.Ambiguous(e)
  }

  lemma NoClaim(s: Scope, claims: seq<Claim>, ambiguous: seq<nat>, rows: seq<nat>, e: nat)
    requires ClaimsOf(s, claims, rows) && LogOf(s, ambiguous, rows)
    ensures (forall h: nat :: !s.ClearBest(e, h)) ==> ClaimsOf(s, claims, rows + [e])
    ensures !s.Ambiguous(e) ==> LogOf(s, ambiguous, rows + [e])
  {
  }

  lemma OneClaim(s: Scope, claims: seq<Claim>, rows: seq<nat>, e: nat, g: nat)
    requires ClaimsOf(s, claims, rows) && forall d :: d in rows ==> d < e
    ensures (forall h: nat :: s.ClearBest(e, h) <==> h == g) ==>
              ClaimsOf(s, claims + [Claim(s.Ratio(e, g), e, g)], rows + [e])
  {
    assert forall i :: 0 <= i < |claims| ==> claims[i] in claims;
  }

  lemma OneTie(s: Scope, ambiguous: seq<nat>, rows: seq<nat>, e: nat)
    requires LogOf(s, ambiguous, rows)
    ensures s.Ambiguous(e) ==> LogOf(s, ambiguous + [e], rows + [e])
  {
  }

  /** What the best and second-best ratios say about a leftover row. */
  lemma TopTwoDecides(s: Scope, e: nat, left: seq<nat>, best: real, g: nat, runner: real)
    requires forall h: nat :: s.Candidates(e, h) <==> h in left
    requires g in left && best == s.Ratio(e, g)
    requires |left| == 1 ==> runner == 0.0
    requires |left| > 1 ==> exists h :: h in left && h != g && runner == s.Ratio(e, h)
    requires forall h :: h in left && h != g ==> s.Ratio(e, h) <= runner <= best
    ensures forall h: nat :: s.ClearBest(e, h) <==> h == g && best >= SIMILARITY && best - runner >= MARGIN
    ensures s.Ambiguous(e) <==> best >= SIMILARITY && best - runner < MARGIN
  {
    assert s.Candidates(e, g);
    if best >= SIMILARITY && best - runner >= MARGIN {
      assert s.ClearBest(e, g);
      ClearBestOnly(s, e, g);
    }
    forall h: nat | s.ClearBest(e, h) ensures h == g && best - runner >= MARGIN {
      assert h != g ==> s.Ratio(e, h) - s.Ratio(e, g) >= MARGIN;
      if |left| == 1 { assert left[0] == g; }
    }
  }

  lemma ClearBestOnly(s: Scope, e: nat, g: nat)
    requires s.ClearBest(e, g)
    ensures forall h: nat :: s.ClearBest(e, h) ==> h == g
    ensures !s.Ambiguous(e)
  {
    forall h: nat | s.ClearBest(e, h) ensures h == g {
      assert h != g ==> s.Ratio(e, g) - s.Ratio(e, h) >= MARGIN;
      assert h != g ==> s.Ratio(e, h) - s.Ratio(e, g) >= MARGIN;
    }
  }

  /** Every leftover row with a clear best gold row claims it; near ties are logged. */
  method Claims(s: Scope, page: Page, still: seq<nat>, left: seq<nat>)
    returns (claims: seq<Claim>, ambiguous: seq<nat>)
    requires Increasing(still) && NoRepeats(left)
    requires forall e: nat :: e in still <==> e < |s.got| && s.got[e].page == page && !s.GotTaken(e)
    requires forall g: nat :: g in left <==> g < |s.gold| && s.gold[g].page == page && !s.GoldTaken(g)
    ensures forall i, j :: 0 <= i < j < |claims| ==> claims[i].e < claims[j].e
    ensures forall c :: c in claims ==> s.ClearBest(c.e, c.g) && c.score == s.Ratio(c.e, c.g)
                                        && s.got[c.e].page == page
    ensures forall e: nat, g: nat :: s.ClearBest(e, g) && s.got[e].page == page
                                     ==> Claim(s.Ratio(e, g), e, g) in claims
    ensures forall e: nat :: e in ambiguous <==> e < |s.got| && s.got[e].page == page && s.Ambiguous(e)
  {
    claims, ambiguous := [], [];
    for k := 0 to |still|
      invariant ClaimsOf(s, claims, still[..k]) && LogOf(s, ambiguous, still[..k])
    {
      var e := still[k];
      assert still[..k + 1] == still[..k] + [e];
      assert e in still && forall d :: d in still[..k] ==> d < e;
      assert forall h: nat :: s.Candidates(e, h) <==> h in left;
      NoClaim(s, claims, ambiguous, still[..k], e);
      if left != [] {
        var best, g, runner := TopTwo(s, e, left);
        TopTwoDecides(s, e, left, best, g, runner);
        OneClaim(s, claims, still[..k], e, g);
        OneTie(s, ambiguous, still[..k], e);
        if best >= SIMILARITY && best - runner >= MARGIN {
          claims := claims + [Claim(best, e, g)];
        } else if best >= SIMILARITY {
          ambiguous := ambiguous + [e];
        }
      }
    }
    assert still[..|still|] == still;
  }

  predicate Before(a: Claim, b: Claim) {
    a.score > b.score || (a.score == b.score && a.e < b.e)
  }

  predicate InOrder(claims: seq<Claim>) {
    forall i, j :: 0 <= i < j < |claims| ==> Before(claims[i], claims[j])
  }

  lemma InOrderCons(c: Claim, claims: seq<Claim>)
    requires InOrder(claims) && forall d :: d in claims ==> Before(c, d)
    ensures InOrder([c] + claims)
  {
    assert forall j :: 0 <= j < |claims| ==> claims[j] in claims;
  }

  lemma InOrderFirst(claims: seq<Claim>)
    requires InOrder(claims) && claims != []
    ensures claims == [claims[0]] + claims[1..] && InOrder(claims[1..])
    ensures forall d :: d in claims[1..] ==> Before(claims[0], d)
  {
  }

  /** Python's stable sort by descending score. */
  function SortClaims(claims: seq<Claim>): (sorted: seq<Claim>)
    requires forall i, j :: 0 <= i < j < |claims| ==> claims[i].e < claims[j].e
    ensures forall c :: c in sorted <==> c in claims
    ensures InOrder(sorted)
  {
    if claims == [] then [] else
      assert claims == [claims[0]] + claims[1..];
      InsertClaim(claims[0], SortClaims(claims[1..]))
  }

  function InsertClaim(c: Claim, sorted: seq<Claim>): (r: seq<Claim>)
    requires InOrder(sorted) && forall d :: d in sorted ==> c.e < d.e
    ensures InOrder(r) && forall d :: d in r <==> d == c || d in sorted
  {
    if sorted == [] then [c] else
      InOrderFirst(sorted);
      if sorted[0].score > c.score then
        InOrderCons(sorted[0], InsertClaim(c, sorted[1..]));
        [sorted[0]] + InsertClaim(c, sorted[1..])
      else
        InOrderCons(c, sorted);
        [c] + sorted
  }

  /** No earlier claim asks for the same gold row. */
  predicate FirstFor(claims: seq<Claim>, k: nat) {
    k < |claims| && forall j :: 0 <= j < k ==> claims[j].g != claims[k].g
  }

  function PairOf(c: Claim): Pair { Pair(c.g, c.e, c.score) }

  function FirstClaims(claims: seq<Claim>, n: nat): seq<Pair>
    requires n <= |claims|
  {
    if n == 0 then []
    else if FirstFor(claims, n - 1) then FirstClaims(claims, n - 1) + [PairOf(claims[n - 1])]
    else FirstClaims(claims, n - 1)
  }

  lemma {:induction false} FirstClaimIn(claims: seq<Claim>, n: nat, k: nat)
    requires k < n <= |claims| && FirstFor(claims, k)
    ensures PairOf(claims[k]) in FirstClaims(claims, n)
  {
    if k < n - 1 {
      FirstClaimIn(claims, n - 1, k);
    }
  }

  lemma {:induction false} FirstClaimOf(claims: seq<Claim>, n: nat, i: nat) returns (k: nat)
    requires n <= |claims| && i < |FirstClaims(claims, n)|
    ensures k < n && FirstFor(claims, k) && FirstClaims(claims, n)[i] == PairOf(claims[k])
  {
    if i < |FirstClaims(claims, n - 1)| {
      k := FirstClaimOf(claims, n - 1, i);
    } else {
      k := n - 1;
    }
  }

  lemma {:induction false} FirstClaimsDistinct(claims: seq<Claim>, n: nat)
    requires n <= |claims|
    requires forall i, j :: 0 <= i < j < |claims| ==> claims[i].e != claims[j].e
    ensures Distinct(FirstClaims(claims, n))
  {
    if n > 0 {
      FirstClaimsDistinct(claims, n - 1);
      var before := FirstClaims(claims, n - 1);
      if FirstFor(claims, n - 1) {
        forall i | 0 <= i < |before|
          ensures before[i].g != claims[n - 1].g && before[i].e != claims[n - 1].e
        {
          var k := FirstClaimOf(claims, n - 1, i);
        }
      }
    }
  }

  ghost function Golds(pairs: seq<Pair>): set<nat> {
    if pairs == [] then {} else Golds(pairs[..|pairs| - 1]) + {pairs[|pairs| - 1].g}
  }

  ghost function Gots(pairs: seq<Pair>): set<nat> {
    if pairs == [] then {} else Gots(pairs[..|pairs| - 1]) + {pairs[|pairs| - 1].e}
  }

  lemma {:induction false} GoldsAre(pairs: seq<Pair>, x: nat)
    ensures x in Golds(pairs) <==> exists p :: p in pairs && p.g == x
    ensures x in Gots(pairs) <==> exists p :: p in pairs && p.e == x
  {
    if pairs != [] {
      var last := pairs[|pairs| - 1];
      GoldsAre(pairs[..|pairs| - 1], x);
      assert pairs == pairs[..|pairs| - 1] + [last];
      assert last in pairs;
    }
  }

  lemma {:induction false} GotsSoFar(claims: seq<Claim>, n: nat, k: nat)
    requires n <= k < |claims|
    requires forall i, j :: 0 <= i < j < |claims| ==> claims[i].e != claims[j].e
    ensures claims[k].e !in Gots(FirstClaims(claims, n))
  {
    if n > 0 {
      GotsSoFar(claims, n - 1, k);
      var before := FirstClaims(claims, n - 1);
      assert (before + [PairOf(claims[n - 1])])[..|before|] == before;
    }
  }

  lemma {:induction false} GoldsSoFar(claims: seq<Claim>, n: nat, g: nat)
    requires n <= |claims|
    ensures g in Golds(FirstClaims(claims, n)) <==> exists j :: 0 <= j < n && claims[j].g == g
  {
    if n > 0 {
      GoldsSoFar(claims, n - 1, g);
      GoldsSoFar(claims, n - 1, claims[n - 1].g);
      var before := FirstClaims(claims, n - 1);
      assert (before + [PairOf(claims[n - 1])])[..|before|] == before;
    }
  }

  /** Pass 2: walk the claims by descending score, skipping rows already taken. */
  method TakeGreedily(claims: seq<Claim>)
    returns (pairs: seq<Pair>, takenGold: set<nat>, takenGot: set<nat>)
    requires forall i, j :: 0 <= i < j < |claims| ==> claims[i].e != claims[j].e
    ensures pairs == FirstClaims(claims, |claims|)
    ensures takenGold == Golds(pairs) && takenGot == Gots(pairs)
  {
    pairs, takenGold, takenGot := [], {}, {};
    for k := 0 to |claims|
      invariant pairs == FirstClaims(claims, k)
      invariant takenGold == Golds(pairs) && takenGot == Gots(pairs)
    {
      var c := claims[k];
      GotsSoFar(claims, k, k);
      GoldsSoFar(claims, k, c.g);
      if c.g !in takenGold && c.e !in takenGot {
        assert (pairs + [PairOf(c)])[..|pairs|] == pairs;
        pairs := pairs + [PairOf(c)];
        takenGold := takenGold + {c.g};
        takenGot := takenGot + {c.e};
      }
    }
  }

  /** The first claim for a gold row, by descending score, is its fuzzy mate, and no other is. */
  lemma FirstClaimWins(s: Scope, page: Page, claims: seq<Claim>, k: nat)
    requires InOrder(claims)
    requires forall c :: c in claims ==> s.ClearBest(c.e, c.g) && c.score == s.Ratio(c.e, c.g)
                                            && s.got[c.e].page == page
    requires forall e: nat, g: nat :: s.ClearBest(e, g) && s.got[e].page == page
                                      ==> Claim(s.Ratio(e, g), e, g) in claims
    requires k < |claims|
    ensures FirstFor(claims, k) <==> s.FuzzyMate(claims[k].g, claims[k].e)
  {
    var c := claims[k];
    assert c in claims;
    if FirstFor(claims, k) {
      forall f: nat | s.ClearBest(f, c.g) && f != c.e ensures s.Outbids(c.e, f, c.g) {
        var i :| 0 <= i < |claims| && claims[i] == Claim(s.Ratio(f, c.g), f, c.g);
        assert Before(c, claims[i]);
      }
    } else {
      var j :| 0 <= j < k && claims[j].g == c.g;
      assert claims[j] in claims && Before(claims[j], c);
      assert s.ClearBest(claims[j].e, c.g) && !s.Outbids(c.e, claims[j].e, c.g);
    }
  }

  /** Two claims never come from one extracted row. */
  lemma ClaimsApart(s: Scope, claims: seq<Claim>)
    requires InOrder(claims)
    requires forall c :: c in claims ==> s.ClearBest(c.e, c.g) && c.score == s.Ratio(c.e, c.g)
    ensures forall i, j :: 0 <= i < j < |claims| ==> claims[i].e != claims[j].e
  {
    forall i, j | 0 <= i < j < |claims| ensures claims[i].e != claims[j].e {
      assert claims[i] in claims && claims[j] in claims && Before(claims[i], claims[j]);
      ClearBestOnly(s, claims[i].e, claims[i].g);
      assert s.ClearBest(claims[j].e, claims[j].g);
    }
  }

  method Without(s: seq<nat>, taken: set<nat>) returns (r: seq<nat>)
    requires NoRepeats(s)
    ensures NoRepeats(r)
    ensures forall x :: x in r <==> x in s && x !in taken
  {
    r := [];
    for k := 0 to |s|
      invariant NoRepeats(r)
      invariant forall x :: x in r <==> x in s[..k] && x !in taken
    {
      assert s[..k + 1] == s[..k] + [s[k]];
      assert s[k] !in s[..k];
      if s[k] !in taken { r := r + [s[k]]; }
    }
    assert s[..|s|] == s;
  }

  /** `match_page`. */
  method MatchPage(s: Scope, page: Page) returns (r: Outcome)
    ensures Settles(s, {page}, r) && LogsAmbiguous(s, {page}, r)
  {
    var filled, order := FillBuckets(s, page);
    var exact, still, buckets := ExactPass(s, page, filled);
    StillIs(s, page, |s.got|);
    ExactIs(s, page, |s.got|);
    var left := GoldLeft(s, page, buckets, order);
    var claims, ambiguous := Claims(s, page, still, left);
    var sorted := SortClaims(claims);
    ClaimsApart(s, sorted);
    var fuzzy, takenGold, takenGot := TakeGreedily(sorted);
    GreedyIsFuzzy(s, page, sorted, fuzzy);
    FirstClaimsDistinct(sorted, |sorted|);
    var missed := Without(left, takenGold);
    var extra := Without(still, takenGot);
    PageIsSettled(s, page, exact, fuzzy);
    r := Outcome(exact + fuzzy, missed, extra, ambiguous);
    forall g: nat ensures g in missed <==> g < |s.gold| && s.gold[g].page == page && !s.GoldMated(g) {
      GoldMatedHow(s, g);
      GoldsAre(fuzzy, g);
    }
    forall e: nat ensures e in extra <==> e < |s.got| && s.got[e].page == page && !s.GotMated(e) {
      GotMatedHow(s, e);
      GoldsAre(fuzzy, e);
    }
  }

  /** The claims of a page in the order they are taken: exactly its clear bests, the better bid first. */
  ghost predicate ClaimsInOrder(s: Scope, page: Page, claims: seq<Claim>) {
    && InOrder(claims)
    && (forall c :: c in claims ==> s.ClearBest(c.e, c.g) && c.score == s.Ratio(c.e, c.g) && s.got[c.e].page == page)
    && (forall e: nat, g: nat :: s.ClearBest(e, g) && s.got[e].page == page ==> Claim(s.Ratio(e, g), e, g) in claims)
  }

  lemma TakenIsFuzzy(s: Scope, page: Page, claims: seq<Claim>, i: nat)
    requires ClaimsInOrder(s, page, claims) && i < |FirstClaims(claims, |claims|)|
    ensures var p := FirstClaims(claims, |claims|)[i];
            s.FuzzyMate(p.g, p.e) && s.gold[p.g].page == page && p.score == s.Ratio(p.e, p.g)
  {
    var k := FirstClaimOf(claims, |claims|, i);
    FirstClaimWins(s, page, claims, k);
    assert claims[k] in claims;
  }

  lemma FuzzyIsTaken(s: Scope, page: Page, claims: seq<Claim>, g: nat, e: nat)
    requires ClaimsInOrder(s, page, claims) && s.FuzzyMate(g, e) && s.gold[g].page == page
    ensures Pair(g, e, s.Ratio(e, g)) in FirstClaims(claims, |claims|)
  {
    var k :| 0 <= k < |claims| && claims[k] == Claim(s.Ratio(e, g), e, g);
    FirstClaimWins(s, page, claims, k);
    FirstClaimIn(claims, |claims|, k);
  }

  lemma GreedyIsFuzzy(s: Scope, page: Page, claims: seq<Claim>, pairs: seq<Pair>)
    requires ClaimsInOrder(s, page, claims) && pairs == FirstClaims(claims, |claims|)
    ensures forall p :: p in pairs ==> s.FuzzyMate(p.g, p.e) && s.gold[p.g].page == page
                                          && p.score == s.Ratio(p.e, p.g)
    ensures forall g: nat, e: nat :: s.FuzzyMate(g, e) && s.gold[g].page == page
                                     ==> Pair(g, e, s.Ratio(e, g)) in pairs
  {
    forall p | p in pairs
      ensures s.FuzzyMate(p.g, p.e) && s.gold[p.g].page == page && p.score == s.Ratio(p.e, p.g)
    {
      var i :| 0 <= i < |pairs| && pairs[i] == p;
      TakenIsFuzzy(s, page, claims, i);
    }
    forall g: nat, e: nat | s.FuzzyMate(g, e) && s.gold[g].page == page
      ensures Pair(g, e, s.Ratio(e, g)) in pairs
    {
      FuzzyIsTaken(s, page, claims, g, e);
    }
  }

  lemma GoldMatedHow(s: Scope, g: nat)
    ensures s.GoldMated(g) <==> g < |s.gold| && (s.GoldTaken(g) || exists e: nat :: s.FuzzyMate(g, e))
  {
    if g < |s.gold| && s.GoldTaken(g) {
      var e := GoldTakenHasMate(s, g);
      assert s.Mate(g, e);
    }
    if e: nat :| s.FuzzyMate(g, e) { assert s.Mate(g, e); }
    if e: nat :| s.ExactMate(g, e) { ExactMateTakes(s, g, e); }
  }

  lemma GotMatedHow(s: Scope, e: nat)
    ensures s.GotMated(e) <==> e < |s.got| && (s.GotTaken(e) || exists g: nat :: s.FuzzyMate(g, e))
  {
    if e < |s.got| && s.GotTaken(e) {
      var g := GotTakenHasMate(s, e);
      assert s.Mate(g, e);
    }
    if g: nat :| s.FuzzyMate(g, e) { assert s.Mate(g, e); }
    if g: nat :| s.ExactMate(g, e) { ExactMateTakes(s, g, e); }
  }

  lemma PageIsSettled(s: Scope, page: Page, exact: seq<Pair>, fuzzy: seq<Pair>)
    requires forall p :: p in exact ==> s.ExactMate(p.g, p.e) && s.gold[p.g].page == page && p.score == 1.0
    requires forall g: nat, e: nat :: s.ExactMate(g, e) && s.got[e].page == page ==> Pair(g, e, 1.0) in exact
    requires forall p :: p in fuzzy ==> s.FuzzyMate(p.g, p.e) && s.gold[p.g].page == page
                                        && p.score == s.Ratio(p.e, p.g)
    requires forall g: nat, e: nat :: s.FuzzyMate(g, e) && s.gold[g].page == page
                                      ==> Pair(g, e, s.Ratio(e, g)) in fuzzy
    requires Distinct(exact) && Distinct(fuzzy)
    ensures PairsAre(s, {page}, exact + fuzzy)
  {
    var pairs := exact + fuzzy;
    forall g: nat, e: nat | s.FuzzyMate(g, e) ensures !s.ExactMate(g, e) {
      if s.ExactMate(g, e) { ExactMateTakes(s, g, e); }
    }
    forall i, j | 0 <= i < j < |pairs| ensures pairs[i].g != pairs[j].g && pairs[i].e != pairs[j].e {
      if i < |exact| <= j {
        ExactMateTakes(s, pairs[i].g, pairs[i].e);
        assert pairs[j] in fuzzy;
      }
    }
  }

  /** Pages in the order `sorted(..., key=lambda p: (p is None, p))` gives them. */
  predicate PageBefore(a: Page, b: Page) {
    a.Some? && (b.None? || a.value < b.value)
  }

  function InsertPage(page: Page, pages: seq<Page>): (r: seq<Page>)
    requires forall i, j :: 0 <= i < j < |pages| ==> PageBefore(pages[i], pages[j])
    ensures forall i, j :: 0 <= i < j < |r| ==> PageBefore(r[i], r[j])
    ensures forall p :: p in r <==> p == page || p in pages
  {
    if pages == [] then [page]
    else if page == pages[0] then pages
    else if PageBefore(page, pages[0]) then
      assert forall j :: 0 < j < |pages| ==> PageBefore(pages[0], pages[j]);
      [page] + pages
    else
      assert pages == [pages[0]] + pages[1..];
      assert forall p :: p in pages[1..] ==> PageBefore(pages[0], p);
      [pages[0]] + InsertPage(page, pages[1..])
  }

  function PagesOf(keys: seq<Key>): (r: seq<Page>)
    ensures forall i, j :: 0 <= i < j < |r| ==> PageBefore(r[i], r[j])
    ensures forall p :: p in r <==> exists key :: key in keys && key.page == p
  {
    if keys == [] then [] else
      assert keys == [keys[0]] + keys[1..];
      InsertPage(keys[0].page, PagesOf(keys[1..]))
  }

  lemma PagesCover(s: Scope, pages: seq<Page>)
    requires pages == PagesOf(s.gold + s.got)
    ensures forall g: nat :: g < |s.gold| ==> s.gold[g].page in pages
    ensures forall e: nat :: e < |s.got| ==> s.got[e].page in pages
  {
    forall g: nat | g < |s.gold| ensures s.gold[g].page in pages { assert s.gold[g] in s.gold + s.got; }
    forall e: nat | e < |s.got| ensures s.got[e].page in pages {
      assert (s.gold + s.got)[|s.gold| + e] == s.got[e];
    }
  }

  function Both(r: Outcome, q: Outcome): Outcome {
    Outcome(r.pairs + q.pairs, r.missed + q.missed, r.extra + q.extra, r.ambiguous + q.ambiguous)
  }

  lemma SettlesTogether(s: Scope, a: set<Page>, b: set<Page>, r: Outcome, q: Outcome)
    requires a !! b && Settles(s, a, r) && Settles(s, b, q)
    ensures Settles(s, a + b, Both(r, q))
  {
    forall p, w | p in r.pairs && w in q.pairs ensures p.g != w.g && p.e != w.e {
      MateOneToOne(s, p.g, p.e, w.g, w.e);
    }
    NoRepeatsConcat(r.missed, q.missed);
    NoRepeatsConcat(r.extra, q.extra);
    assert PairsAre(s, a + b, r.pairs + q.pairs);
  }

  /** Every mate of the scope is paired, once, and every other row is listed once. */
  ghost predicate Complete(s: Scope, r: Outcome) {
    && (forall p :: p in r.pairs ==> s.Mate(p.g, p.e) && p.score == s.Score(p.g, p.e))
    && (forall g: nat, e: nat :: s.Mate(g, e) ==> Pair(g, e, s.Score(g, e)) in r.pairs)
    && Distinct(r.pairs) && NoRepeats(r.missed) && NoRepeats(r.extra)
    && (forall g: nat :: g in r.missed <==> g < |s.gold| && !s.GoldMated(g))
    && (forall e: nat :: e in r.extra <==> e < |s.got| && !s.GotMated(e))
  }

  lemma AllPagesComplete(s: Scope, pages: set<Page>, r: Outcome)
    requires Settles(s, pages, r)
    requires forall g: nat :: g < |s.gold| ==> s.gold[g].page in pages
    requires forall e: nat :: e < |s.got| ==> s.got[e].page in pages
    ensures Complete(s, r)
  {}

  lemma NextPage(pages: seq<Page>, k: nat)
    requires k < |pages| && forall i, j :: 0 <= i < j < |pages| ==> PageBefore(pages[i], pages[j])
    ensures pages[k] !in Elements(pages[..k])
    ensures Elements(pages[..k + 1]) == Elements(pages[..k]) + {pages[k]}
  {
    assert pages[..k + 1] == pages[..k] + [pages[k]];
  }

  lemma OneMorePage(s: Scope, done: set<Page>, page: Page, r: Outcome, q: Outcome)
    requires page !in done && Settles(s, done, r) && LogsAmbiguous(s, done, r)
    requires Settles(s, {page}, q) && LogsAmbiguous(s, {page}, q)
    ensures Settles(s, done + {page}, Both(r, q)) && LogsAmbiguous(s, done + {page}, Both(r, q))
  {
    SettlesTogether(s, done, {page}, r, q);
  }

  /** The first `k` pages are settled. */
  ghost predicate SettledTo(s: Scope, pages: seq<Page>, k: nat, r: Outcome)
    requires k <= |pages|
  {
    Settles(s, Elements(pages[..k]), r) && LogsAmbiguous(s, Elements(pages[..k]), r)
  }

  lemma SettledNext(s: Scope, pages: seq<Page>, k: nat, r: Outcome, q: Outcome)
    requires pages == PagesOf(s.gold + s.got) && k < |pages| && SettledTo(s, pages, k, r)
    requires Settles(s, {pages[k]}, q) && LogsAmbiguous(s, {pages[k]}, q)
    ensures SettledTo(s, pages, k + 1, Both(r, q))
  {
    NextPage(pages, k);
    OneMorePage(s, Elements(pages[..k]), pages[k], r, q);
  }

  lemma AllSettled(s: Scope, pages: seq<Page>, r: Outcome)
    requires pages == PagesOf(s.gold + s.got) && SettledTo(s, pages, |pages|, r)
    ensures Complete(s, r) && forall e: nat :: e in r.ambiguous <==> s.Ambiguous(e)
  {
    assert pages[..|pages|] == pages;
    PagesCover(s, pages);
    AllPagesComplete(s, Elements(pages), r);
  }

  /** `match_all`: the pages in order, each settled on its own. */
  method MatchAll(s: Scope) returns (r: Outcome)
    ensures Complete(s, r)
    ensures forall e: nat :: e in r.ambiguous <==> s.Ambiguous(e)
  {
    var pages := PagesOf(s.gold + s.got);
    r := Outcome([], [], [], []);
    for k := 0 to |pages|
      invariant SettledTo(s, pages, k, r)
    {
      var page := MatchPage(s, pages[k]);
      SettledNext(s, pages, k, r, page);
      r := Both(r, page);
    }
    AllSettled(s, pages, r);
  }
}
