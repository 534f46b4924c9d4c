/** The stratified draw of `eval/refusal_calibration.py`: `sample_chunks` and `find_present_items`. */
module ChunkSampler {
  import opened Sequences

  datatype Chunk = Chunk(id: int, doc: string, text: string)

  /** The shuffled chunks of each document. */
  type Buckets = map<string, seq<Chunk>>

  function Bucket(buckets: Buckets, doc: string): seq<Chunk> { if doc in buckets then buckets[doc] else [] }

  /** How many chunks a document has. */
  ghost function Size(buckets: Buckets, doc: string): nat { if doc in buckets then |buckets[doc]| else 0 }

  /** One draw: the chunk at this place of this document's bucket. */
  datatype Pick = Pick(doc: string, index: nat)

  // ------------------------------------------------------------ the order of draws

  /** The draws of one round: one from each document that still has a chunk. */
  function Round(buckets: Buckets, docs: seq<string>, r: nat): seq<Pick> {
    if docs == [] then [] else
      var last := docs[|docs| - 1];
      Round(buckets, docs[..|docs| - 1], r) + if r < |Bucket(buckets, last)| then [Pick(last, r)] else []
  }

  function Concat(parts: nat -> seq<Pick>, r: nat): seq<Pick> {
    if r == 0 then [] else Concat(parts, r - 1) + parts(r - 1)
  }

  function ByRound(buckets: Buckets, docs: seq<string>): nat -> seq<Pick> { (r: nat) => Round(buckets, docs, r) }

  /** The draws of the first `r` rounds. */
  function Rounds(buckets: Buckets, docs: seq<string>, r: nat): seq<Pick> { Concat(ByRound(buckets, docs), r) }

  /** The length of the longest bucket. */
  function Longest(buckets: Buckets, docs: seq<string>): nat {
    if docs == [] then 0 else
      var rest := Longest(buckets, docs[..|docs| - 1]);
      var mine := |Bucket(buckets, docs[|docs| - 1])|;
      if mine > rest then mine else rest
  }

  function Take(picks: seq<Pick>, n: int): seq<Pick> {
    if n <= 0 then [] else if n < |picks| then picks[..n] else picks
  }

  /** Every draw, round after round, cut at `n`. */
  function Drawn(buckets: Buckets, docs: seq<string>, n: int): seq<Pick> {
    Take(Rounds(buckets, docs, Longest(buckets, docs)), n)
  }

  predicate InBucket(buckets: Buckets, p: Pick) { p.index < |Bucket(buckets, p.doc)| }

  /** The chunks that these draws give. */
  function Chunks(buckets: Buckets, picks: seq<Pick>): seq<Chunk> {
    if picks == [] then [] else
      var last := picks[|picks| - 1];
      Chunks(buckets, picks[..|picks| - 1])
      + if InBucket(buckets, last) then [Bucket(buckets, last.doc)[last.index]] else []
  }

  /** Every draw of some rounds gives a chunk. */
  lemma {:induction false} DrawsGive(buckets: Buckets, docs: seq<string>, r: nat, p: Pick)
    requires p in Rounds(buckets, docs, r)
    ensures p.doc in docs && InBucket(buckets, p)
  {
    if p in Round(buckets, docs, r - 1) {
      RoundGives(buckets, docs, r - 1, p);
    } else {
      DrawsGive(buckets, docs, r - 1, p);
    }
  }

  lemma {:induction false} RoundGives(buckets: Buckets, docs: seq<string>, r: nat, p: Pick)
    requires p in Round(buckets, docs, r)
    ensures p.doc in docs && InBucket(buckets, p)
  {
    if p in Round(buckets, docs[..|docs| - 1], r) { RoundGives(buckets, docs[..|docs| - 1], r, p); }
  }

  lemma {:induction false} OneChunkEach(buckets: Buckets, picks: seq<Pick>)
    requires forall p :: p in picks ==> InBucket(buckets, p)
    ensures |Chunks(buckets, picks)| == |picks|
  {
    if picks != [] {
      assert picks[|picks| - 1] in picks;
      OneChunkEach(buckets, picks[..|picks| - 1]);
    }
  }

  /** The i-th chunk is the one at the i-th draw's place. */
  lemma {:induction false} ChunkOfPick(buckets: Buckets, picks: seq<Pick>, i: nat)
    requires (forall p :: p in picks ==> InBucket(buckets, p)) && i < |picks|
    ensures InBucket(buckets, picks[i]) && i < |Chunks(buckets, picks)|
    ensures Chunks(buckets, picks)[i] == Bucket(buckets, picks[i].doc)[picks[i].index]
  {
    assert picks[i] in picks;
    OneChunkEach(buckets, picks);
    OneChunkEach(buckets, picks[..|picks| - 1]);
    if i < |picks| - 1 { ChunkOfPick(buckets, picks[..|picks| - 1], i); }
  }

  lemma {:induction false} NoMoreRounds(buckets: Buckets, docs: seq<string>, r: nat)
    requires Longest(buckets, docs) <= r
    ensures Round(buckets, docs, r) == []
  {
    if docs != [] { NoMoreRounds(buckets, docs[..|docs| - 1], r); }
  }

  lemma {:induction false} RoundsGrow(buckets: Buckets, docs: seq<string>, r: nat, q: nat)
    requires r <= q
    ensures Rounds(buckets, docs, r) <= Rounds(buckets, docs, q)
    ensures r >= Longest(buckets, docs) ==> Rounds(buckets, docs, r) == Rounds(buckets, docs, q)
  {
    if r < q {
      RoundsGrow(buckets, docs, r, q - 1);
      if r >= Longest(buckets, docs) { NoMoreRounds(buckets, docs, q - 1); }
    }
  }

  /** Enough rounds give every draw; a draw of `n` that is full does not depend on later rounds. */
  lemma EnoughRounds(buckets: Buckets, docs: seq<string>, n: int, r: nat)
    requires |Take(Rounds(buckets, docs, r), n)| >= n || r >= Longest(buckets, docs)
    ensures Take(Rounds(buckets, docs, r), n) == Drawn(buckets, docs, n)
  {
    var most := Longest(buckets, docs);
    if r <= most { RoundsGrow(buckets, docs, r, most); } else { RoundsGrow(buckets, docs, most, r); }
  }

  // ------------------------------------------------------------ the loop

  lemma TakeStays(a: seq<Pick>, b: seq<Pick>, n: int)
    requires |Take(a, n)| >= n
    ensures Take(a + b, n) == Take(a, n)
  {
  }

  lemma TakeGrows(a: seq<Pick>, p: Pick, n: int)
    requires |Take(a, n)| < n
    ensures Take(a + [p], n) == Take(a, n) + [p]
  {
  }

  /** The draws up to document `k` of a round. */
  function Sofar(buckets: Buckets, docs: seq<string>, r: nat, k: nat): seq<Pick>
    requires k <= |docs|
  {
    Rounds(buckets, docs, r) + Round(buckets, docs[..k], r)
  }

  lemma SofarNext(buckets: Buckets, docs: seq<string>, r: nat, k: nat)
    requires k < |docs|
    ensures Sofar(buckets, docs, r, k + 1)
         == if r < |Bucket(buckets, docs[k])| then Sofar(buckets, docs, r, k) + [Pick(docs[k], r)]
            else Sofar(buckets, docs, r, k)
  {
    assert docs[..k + 1][..k] == docs[..k];
  }

  lemma SofarStep(buckets: Buckets, docs: seq<string>, r: nat, k: nat, n: int)
    requires k < |docs|
    ensures var now, next := Sofar(buckets, docs, r, k), Sofar(buckets, docs, r, k + 1);
            if |Take(now, n)| < n && r < |Bucket(buckets, docs[k])|
            then Take(next, n) == Take(now, n) + [Pick(docs[k], r)]
            else Take(next, n) == Take(now, n)
  {
    var now := Sofar(buckets, docs, r, k);
    SofarNext(buckets, docs, r, k);
    if |Take(now, n)| < n { TakeGrows(now, Pick(docs[k], r), n); } else { TakeStays(now, [Pick(docs[k], r)], n); }
  }

  lemma {:induction false} SofarStays(buckets: Buckets, docs: seq<string>, r: nat, k: nat, n: int)
    requires k <= |docs| && |Take(Sofar(buckets, docs, r, k), n)| >= n
    ensures Take(Sofar(buckets, docs, r, |docs|), n) == Take(Sofar(buckets, docs, r, k), n)
    decreases |docs| - k
  {
    if k < |docs| {
      SofarStep(buckets, docs, r, k, n);
      SofarStays(buckets, docs, r, k + 1, n);
    }
  }

  lemma SofarEnds(buckets: Buckets, docs: seq<string>, r: nat)
    ensures Sofar(buckets, docs, r, 0) == Rounds(buckets, docs, r)
    ensures Sofar(buckets, docs, r, |docs|) == Rounds(buckets, docs, r + 1)
  {
    assert docs[..|docs|] == docs;
  }

  lemma SofarCount(buckets: Buckets, docs: seq<string>, r: nat, k: nat, n: int)
    requires k <= |docs|
    ensures |Chunks(buckets, Take(Sofar(buckets, docs, r, k), n))| == |Take(Sofar(buckets, docs, r, k), n)|
  {
    var now := Take(Sofar(buckets, docs, r, k), n);
    forall p | p in now ensures InBucket(buckets, p) {
      if p in Rounds(buckets, docs, r) {
        DrawsGive(buckets, docs, r, p);
      } else {
        RoundGives(buckets, docs[..k], r, p);
      }
    }
    OneChunkEach(buckets, now);
  }

  /** These are the chunks of the first `n` of some draws. */
  predicate ArePicked(buckets: Buckets, picked: seq<Chunk>, draws: seq<Pick>, n: int) {
    picked == Chunks(buckets, Take(draws, n))
  }

  /** The loop over the documents, in one round. */
  method DrawRound(buckets: Buckets, docs: seq<string>, n: int, round: nat, before: seq<Chunk>)
    returns (picked: seq<Chunk>)
    requires ArePicked(buckets, before, Rounds(buckets, docs, round), n)
    ensures ArePicked(buckets, picked, Rounds(buckets, docs, round + 1), n)
  {
    picked := before;
    SofarEnds(buckets, docs, round);
    for k := 0 to |docs|
      invariant picked == Chunks(buckets, Take(Sofar(buckets, docs, round, k), n))
    {
      SofarCount(buckets, docs, round, k, n);
      if |picked| >= n {
        SofarStays(buckets, docs, round, k, n);
        break;
      }
      SofarStep(buckets, docs, round, k, n);
      var bucket := Bucket(buckets, docs[k]);
      if round < |bucket| {
        AddPick(buckets, Take(Sofar(buckets, docs, round, k), n), Pick(docs[k], round));
        picked := picked + [bucket[round]];
      }
    }
  }

  lemma AddPick(buckets: Buckets, picks: seq<Pick>, p: Pick)
    requires InBucket(buckets, p)
    ensures Chunks(buckets, picks + [p]) == Chunks(buckets, picks) + [Bucket(buckets, p.doc)[p.index]]
  {
    assert (picks + [p])[..|picks|] == picks;
  }

  /** `any(by_doc.values())`. */
  predicate AnyLeft(buckets: Buckets, docs: seq<string>): (any: bool)
    ensures any <==> exists doc :: doc in docs && doc in buckets && buckets[doc] != []
  {
    docs != [] && (Bucket(buckets, docs[|docs| - 1]) != [] || AnyLeft(buckets, docs[..|docs| - 1]))
  }

  /** `sample_chunks`, over buckets and a document order that the shuffles leave arbitrary. */
  method SampleChunks(buckets: Buckets, docs: seq<string>, n: int) returns (picked: seq<Chunk>)
    ensures picked == Chunks(buckets, Drawn(buckets, docs, n))
  {
    picked := [];
    var longest := Longest(buckets, docs);
    var any := AnyLeft(buckets, docs);
    var round := 0;
    while |picked| < n && any
      invariant round <= longest
      invariant ArePicked(buckets, picked, Rounds(buckets, docs, round), n)
      decreases longest - round
    {
      picked := DrawRound(buckets, docs, n, round, picked);
      round := round + 1;
      if round > longest { break; }
    }
    DrawEnds(buckets, docs, n, round, picked);
  }

  lemma DrawEnds(buckets: Buckets, docs: seq<string>, n: int, round: nat, picked: seq<Chunk>)
    requires ArePicked(buckets, picked, Rounds(buckets, docs, round), n)
    requires |picked| >= n || round >= Longest(buckets, docs) || !AnyLeft(buckets, docs)
    ensures picked == Chunks(buckets, Drawn(buckets, docs, n))
  {
    if |picked| >= n {
      SofarEnds(buckets, docs, round);
      SofarCount(buckets, docs, round, 0, n);
    } else if round < Longest(buckets, docs) {
      NoneIsLongest(buckets, docs);
    }
    EnoughRounds(buckets, docs, n, round);
  }

  lemma {:induction false} NoneIsLongest(buckets: Buckets, docs: seq<string>)
    requires !AnyLeft(buckets, docs)
    ensures Longest(buckets, docs) == 0
  {
    if docs != [] {
      NoneIsLongest(buckets, docs[..|docs| - 1]);
    }
  }

  // ------------------------------------------------------------ how many are drawn

  function Fewer(a: nat, b: nat): nat { if a < b then a else b }

  /** What the documents hold, counting at most `r` chunks of each. */
  function Held(buckets: Buckets, docs: seq<string>, r: nat): nat {
    if docs == [] then 0 else
      Held(buckets, docs[..|docs| - 1], r) + Fewer(r, |Bucket(buckets, docs[|docs| - 1])|)
  }

  ghost function Total(buckets: Buckets, docs: seq<string>): nat {
    if docs == [] then 0 else Total(buckets, docs[..|docs| - 1]) + Size(buckets, docs[|docs| - 1])
  }

  lemma {:induction false} HeldStep(buckets: Buckets, docs: seq<string>, r: nat)
    ensures Held(buckets, docs, r + 1) == Held(buckets, docs, r) + |Round(buckets, docs, r)|
  {
    if docs != [] { HeldStep(buckets, docs[..|docs| - 1], r); }
  }

  lemma {:induction false} HeldStart(buckets: Buckets, docs: seq<string>)
    ensures Held(buckets, docs, 0) == 0
  {
    if docs != [] { HeldStart(buckets, docs[..|docs| - 1]); }
  }

  lemma {:induction false} HeldAll(buckets: Buckets, docs: seq<string>, r: nat)
    requires Longest(buckets, docs) <= r
    ensures Held(buckets, docs, r) == Total(buckets, docs)
  {
    if docs != [] { HeldAll(buckets, docs[..|docs| - 1], r); }
  }

  lemma {:induction false} RoundsHold(buckets: Buckets, docs: seq<string>, r: nat)
    ensures |Rounds(buckets, docs, r)| == Held(buckets, docs, r)
  {
    if r == 0 {
      HeldStart(buckets, docs);
    } else {
      RoundsHold(buckets, docs, r - 1);
      HeldStep(buckets, docs, r - 1);
    }
  }

  /** Exactly as many as asked for, or all there are; none when a negative number is asked for. */
  lemma DrawsAsMany(buckets: Buckets, docs: seq<string>, n: int)
    ensures |Drawn(buckets, docs, n)| == if n < 0 then 0 else Fewer(n, Total(buckets, docs))
  {
    RoundsHold(buckets, docs, Longest(buckets, docs));
    HeldAll(buckets, docs, Longest(buckets, docs));
  }

  // ------------------------------------------------------------ fairness

  /** How many draws are from one document. */
  function Count(picks: seq<Pick>, doc: string): nat {
    if picks == [] then 0 else
      Count(picks[..|picks| - 1], doc) + if picks[|picks| - 1].doc == doc then 1 else 0
  }

  lemma {:induction false} CountConcat(a: seq<Pick>, b: seq<Pick>, doc: string)
    ensures Count(a + b, doc) == Count(a, doc) + Count(b, doc)
  {
    if b == [] {
      assert a + b == a;
    } else {
      CountConcat(a, b[..|b| - 1], doc);
      assert (a + b)[..|a + b| - 1] == a + b[..|b| - 1];
    }
  }

  lemma {:induction false} CountRound(buckets: Buckets, docs: seq<string>, r: nat, doc: string)
    requires NoRepeats(docs)
    ensures Count(Round(buckets, docs, r), doc) == if doc in docs && r < |Bucket(buckets, doc)| then 1 else 0
  {
    if docs != [] {
      var init, last := docs[..|docs| - 1], docs[|docs| - 1];
      CountRound(buckets, init, r, doc);
      assert docs == init + [last] && last !in init;
      if r < |Bucket(buckets, last)| {
        CountConcat(Round(buckets, init, r), [Pick(last, r)], doc);
        assert [Pick(last, r)][..0] == [];
      } else {
        assert Round(buckets, docs, r) == Round(buckets, init, r);
      }
    }
  }

  /** Round `q` draws from the document if it holds more than `q` chunks. */
  predicate DrawsOne(parts: nat -> seq<Pick>, doc: string, len: nat, q: nat) {
    Count(parts(q), doc) == if q < len then 1 else 0
  }

  lemma {:induction false} CountParts(parts: nat -> seq<Pick>, r: nat, doc: string, len: nat)
    requires forall q: nat :: DrawsOne(parts, doc, len, q)
    ensures Count(Concat(parts, r), doc) == Fewer(r, len)
  {
    if r > 0 {
      CountParts(parts, r - 1, doc, len);
      assert DrawsOne(parts, doc, len, r - 1);
      CountConcat(Concat(parts, r - 1), parts(r - 1), doc);
    }
  }

  lemma CountRounds(buckets: Buckets, docs: seq<string>, r: nat, doc: string)
    requires NoRepeats(docs) && doc in docs
    ensures Count(Rounds(buckets, docs, r), doc) == Fewer(r, |Bucket(buckets, doc)|)
  {
    var parts, len := ByRound(buckets, docs), |Bucket(buckets, doc)|;
    forall q: nat ensures DrawsOne(parts, doc, len, q) { CountRound(buckets, docs, q, doc); }
    CountParts(parts, r, doc, len);
  }

  lemma CountSofar(buckets: Buckets, docs: seq<string>, r: nat, k: nat, doc: string)
    requires NoRepeats(docs) && doc in docs && k <= |docs|
    ensures Count(Sofar(buckets, docs, r, k), doc)
         == Fewer(if doc in docs[..k] then r + 1 else r, |Bucket(buckets, doc)|)
  {
    CountRounds(buckets, docs, r, doc);
    CountRound(buckets, docs[..k], r, doc);
    CountConcat(Rounds(buckets, docs, r), Round(buckets, docs[..k], r), doc);
  }

  /** Each draw takes the place after those already drawn from its document. */
  predicate InTurn(picks: seq<Pick>) {
    picks == [] ||
    (var init, last := picks[..|picks| - 1], picks[|picks| - 1]; InTurn(init) && last.index == Count(init, last.doc))
  }

  lemma OneMoreInTurn(picks: seq<Pick>, p: Pick)
    requires InTurn(picks) && p.index == Count(picks, p.doc)
    ensures InTurn(picks + [p])
  {
    assert (picks + [p])[..|picks|] == picks;
  }

  /** One draw at most per document, each the next of its document. */
  ghost predicate Follows(a: seq<Pick>, b: seq<Pick>) {
    && (forall i, j :: 0 <= i < j < |b| ==> b[i].doc != b[j].doc)
    && (forall i :: 0 <= i < |b| ==> b[i].index == Count(a, b[i].doc))
  }

  lemma {:induction false} CountNone(b: seq<Pick>, doc: string)
    requires forall i :: 0 <= i < |b| ==> b[i].doc != doc
    ensures Count(b, doc) == 0
  {
    if b != [] { CountNone(b[..|b| - 1], doc); }
  }

  lemma FollowsInit(a: seq<Pick>, b: seq<Pick>)
    requires Follows(a, b) && b != []
    ensures Follows(a, b[..|b| - 1])
    ensures b[|b| - 1].index == Count(a + b[..|b| - 1], b[|b| - 1].doc)
  {
    var init, last := b[..|b| - 1], b[|b| - 1];
    CountConcat(a, init, last.doc);
    CountNone(init, last.doc);
  }

  lemma {:induction false} JoinInTurn(a: seq<Pick>, b: seq<Pick>)
    requires InTurn(a) && Follows(a, b)
    ensures InTurn(a + b)
  {
    if b == [] {
      assert a + b == a;
    } else {
      var init, last := b[..|b| - 1], b[|b| - 1];
      FollowsInit(a, b);
      JoinInTurn(a, init);
      OneMoreInTurn(a + init, last);
      assert a + b == a + init + [last];
    }
  }

  ghost predicate RoundTurn(parts: nat -> seq<Pick>, q: nat) { Follows(Concat(parts, q), parts(q)) }

  lemma {:induction false} RoundsInTurn(parts: nat -> seq<Pick>, r: nat)
    requires forall q: nat :: RoundTurn(parts, q)
    ensures InTurn(Concat(parts, r))
  {
    if r > 0 {
      RoundsInTurn(parts, r - 1);
      assert RoundTurn(parts, r - 1);
      JoinInTurn(Concat(parts, r - 1), parts(r - 1));
    }
  }

  /** The draws of one round: from different documents, which all hold more than `r` chunks. */
  ghost predicate AreRound(buckets: Buckets, docs: seq<string>, r: nat, b: seq<Pick>) {
    && (forall i, j :: 0 <= i < j < |b| ==> b[i].doc != b[j].doc)
    && (forall i :: 0 <= i < |b| ==> b[i].doc in docs && b[i].index == r < |Bucket(buckets, b[i].doc)|)
  }

  lemma {:induction false} RoundDraws(buckets: Buckets, docs: seq<string>, r: nat)
    requires NoRepeats(docs)
    ensures AreRound(buckets, docs, r, Round(buckets, docs, r))
  {
    if docs != [] {
      var init, last := docs[..|docs| - 1], docs[|docs| - 1];
      RoundDraws(buckets, init, r);
      assert docs == init + [last] && last !in init;
      AddToRound(buckets, init, last, r, Round(buckets, init, r));
    }
  }

  lemma AddToRound(buckets: Buckets, docs: seq<string>, last: string, r: nat, b: seq<Pick>)
    requires AreRound(buckets, docs, r, b) && last !in docs
    ensures AreRound(buckets, docs + [last], r, b + if r < |Bucket(buckets, last)| then [Pick(last, r)] else [])
  {
  }

  lemma RoundFollows(buckets: Buckets, docs: seq<string>, r: nat, k: nat)
    requires NoRepeats(docs) && k <= |docs|
    ensures Follows(Rounds(buckets, docs, r), Round(buckets, docs[..k], r))
  {
    var b := Round(buckets, docs[..k], r);
    RoundDraws(buckets, docs[..k], r);
    forall i | 0 <= i < |b| ensures b[i].index == Count(Rounds(buckets, docs, r), b[i].doc) {
      CountRounds(buckets, docs, r, b[i].doc);
    }
  }

  lemma SofarInTurn(buckets: Buckets, docs: seq<string>, r: nat, k: nat)
    requires NoRepeats(docs) && k <= |docs|
    ensures InTurn(Sofar(buckets, docs, r, k))
  {
    var parts := ByRound(buckets, docs);
    forall q: nat ensures RoundTurn(parts, q) {
      RoundFollows(buckets, docs, q, |docs|);
      assert docs[..|docs|] == docs;
    }
    RoundsInTurn(parts, r);
    RoundFollows(buckets, docs, r, k);
    JoinInTurn(Rounds(buckets, docs, r), Round(buckets, docs[..k], r));
  }

  /** A cut through one round stops at some document. */
  lemma {:induction false} CutRound(buckets: Buckets, docs: seq<string>, r: nat, n: nat) returns (k: nat)
    requires n <= |Round(buckets, docs, r)|
    ensures k <= |docs| && Round(buckets, docs, r)[..n] == Round(buckets, docs[..k], r)
  {
    if docs == [] {
      k := 0;
    } else {
      var init := docs[..|docs| - 1];
      if n <= |Round(buckets, init, r)| {
        k := CutRound(buckets, init, r, n);
        assert init[..k] == docs[..k];
      } else {
        k := |docs|;
        assert docs[..k] == docs;
      }
    }
  }

  /** A cut through the draws stops in some round, at some document. */
  lemma {:induction false} CutRounds(buckets: Buckets, docs: seq<string>, q: nat, n: nat) returns (r: nat, k: nat)
    requires n <= |Rounds(buckets, docs, q)|
    ensures k <= |docs| && Rounds(buckets, docs, q)[..n] == Sofar(buckets, docs, r, k)
  {
    if q == 0 || n == |Rounds(buckets, docs, q)| {
      r, k := q, 0;
      SofarEnds(buckets, docs, q);
      assert Rounds(buckets, docs, q)[..n] == Rounds(buckets, docs, q);
    } else {
      var before := Rounds(buckets, docs, q - 1);
      if n <= |before| {
        r, k := CutRounds(buckets, docs, q - 1, n);
      } else {
        r := q - 1;
        k := CutRound(buckets, docs, r, n - |before|);
      }
    }
  }

  /** Fairness: the draws from each document take its bucket from the front, in order, and of any
      two documents the one with more draws has at most one more, unless the other is used up. */
  lemma Fair(buckets: Buckets, docs: seq<string>, n: int, d: string, e: string)
    requires NoRepeats(docs) && d in docs && e in docs
    ensures var drawn := Drawn(buckets, docs, n);
            && InTurn(drawn) && Count(drawn, d) <= Size(buckets, d)
            && (Count(drawn, d) <= Count(drawn, e) + 1 || Count(drawn, e) == Size(buckets, e))
  {
    var r, k := CutDrawn(buckets, docs, n);
    SofarInTurn(buckets, docs, r, k);
    CountSofar(buckets, docs, r, k, d);
    CountSofar(buckets, docs, r, k, e);
  }

  lemma CutDrawn(buckets: Buckets, docs: seq<string>, n: int) returns (r: nat, k: nat)
    ensures k <= |docs| && Drawn(buckets, docs, n) == Sofar(buckets, docs, r, k)
  {
    var rounds := Rounds(buckets, docs, Longest(buckets, docs));
    var m := if n <= 0 then 0 else if n < |rounds| then n else |rounds|;
    assert Take(rounds, n) == rounds[..m];
    r, k := CutRounds(buckets, docs, Longest(buckets, docs), m);
  }

  lemma {:induction false} DrawnBefore(picks: seq<Pick>, p: Pick)
    requires InTurn(picks) && p in picks
    ensures p.index < Count(picks, p.doc)
  {
    if p in picks[..|picks| - 1] { DrawnBefore(picks[..|picks| - 1], p); }
  }

  lemma {:induction false} PicksDiffer(picks: seq<Pick>)
    requires InTurn(picks)
    ensures NoRepeats(picks)
  {
    if picks != [] {
      var init, last := picks[..|picks| - 1], picks[|picks| - 1];
      PicksDiffer(init);
      if last in init {
        DrawnBefore(init, last);
        assert false;
      }
      assert picks == init + [last];
      NoRepeatsConcat(init, [last]);
    }
  }

  /** Nothing is drawn twice. */
  lemma DrawnOnce(buckets: Buckets, docs: seq<string>, n: int)
    requires NoRepeats(docs)
    ensures NoRepeats(Drawn(buckets, docs, n))
  {
    var r, k := CutDrawn(buckets, docs, n);
    SofarInTurn(buckets, docs, r, k);
    PicksDiffer(Drawn(buckets, docs, n));
  }

  /** The i-th chunk picked is the one that the i-th draw names in its document's bucket. */
  lemma PickedAre(buckets: Buckets, docs: seq<string>, n: int, i: nat)
    requires i < |Drawn(buckets, docs, n)|
    ensures var p, picked := Drawn(buckets, docs, n)[i], Chunks(buckets, Drawn(buckets, docs, n));
            && p.doc in docs && p.doc in buckets && p.index < |buckets[p.doc]|
            && |picked| == |Drawn(buckets, docs, n)| && picked[i] == buckets[p.doc][p.index]
  {
    var drawn := Drawn(buckets, docs, n);
    forall p | p in drawn ensures p.doc in docs && InBucket(buckets, p) {
      DrawsGive(buckets, docs, Longest(buckets, docs), p);
    }
    OneChunkEach(buckets, drawn);
    ChunkOfPick(buckets, drawn, i);
    assert drawn[i] in drawn;
  }

  /** Then no chunk is picked twice, as long as no chunk is in the buckets twice. */
  lemma PickedOnce(buckets: Buckets, docs: seq<string>, n: int)
    requires NoRepeats(docs)
    requires forall d, e, i, j :: && d in buckets && e in buckets && 0 <= i < |buckets[d]| && 0 <= j < |buckets[e]|
                                  && buckets[d][i] == buckets[e][j]
                                  ==> d == e && i == j
    ensures NoRepeats(Chunks(buckets, Drawn(buckets, docs, n)))
  {
    var drawn, picked := Drawn(buckets, docs, n), Chunks(buckets, Drawn(buckets, docs, n));
    DrawnOnce(buckets, docs, n);
    if drawn != [] { PickedAre(buckets, docs, n, 0); }
    forall i, j | 0 <= i < j < |picked| ensures picked[i] != picked[j] {
      PickedAre(buckets, docs, n, i);
      PickedAre(buckets, docs, n, j);
    }
  }

  // ------------------------------------------------------------ the scan for sentences

  datatype Item = Item(chunkId: int, requirement: string)

  /** The items of a list of chunks; `requirement` stands for the search in one text. */
  function ItemsOf(requirement: string -> Option<string>, rows: seq<Chunk>): seq<Item> {
    if rows == [] then [] else
      var last := rows[|rows| - 1];
      var found := requirement(last.text);
      ItemsOf(requirement, rows[..|rows| - 1]) + if found.Some? then [Item(last.id, found.value)] else []
  }

  lemma {:induction false} ItemsGrow(requirement: string -> Option<string>, rows: seq<Chunk>, k: nat)
    requires k <= |rows|
    ensures ItemsOf(requirement, rows[..k]) <= ItemsOf(requirement, rows)
    decreases |rows|
  {
    if k < |rows| {
      ItemsGrow(requirement, rows[..|rows| - 1], k);
      assert rows[..|rows| - 1][..k] == rows[..k];
    } else {
      assert rows[..k] == rows;
    }
  }

  function Enough(target: int): nat { if target < 1 then 1 else target }

  /** A first part of the rows was scanned, up to the row that brought the number of items to the
      target, or to one when the target is less than one; all rows if there are too few items. */
  ghost predicate Scanned(requirement: string -> Option<string>, rows: seq<Chunk>, target: int,
                          items: seq<Item>, scanned: nat)
  {
    && scanned <= |rows| && items == ItemsOf(requirement, rows[..scanned])
    && |items| <= Enough(target) && (|items| < Enough(target) ==> scanned == |rows|)
    && forall k :: 0 <= k < scanned ==> |ItemsOf(requirement, rows[..k])| < Enough(target)
  }

  /** `find_present_items`, over the chunks drawn. */
  method FindPresentItems(requirement: string -> Option<string>, rows: seq<Chunk>, target: int)
    returns (items: seq<Item>, scanned: nat)
    ensures Scanned(requirement, rows, target, items, scanned)
  {
    items, scanned := [], 0;
    assert rows[..0] == [];
    for k := 0 to |rows|
      invariant scanned == k && items == ItemsOf(requirement, rows[..k]) && |items| < Enough(target)
      invariant forall m :: 0 <= m < k ==> |ItemsOf(requirement, rows[..m])| < Enough(target)
    {
      var row := rows[k];
      ItemsStep(requirement, rows, k);
      scanned := scanned + 1;
      var req := requirement(row.text);
      if req.Some? {
        items := items + [Item(row.id, req.value)];
        if |items| >= target { break; }
      }
    }
  }

  lemma ItemsStep(requirement: string -> Option<string>, rows: seq<Chunk>, k: nat)
    requires k < |rows|
    ensures ItemsOf(requirement, rows[..k + 1])
         == if requirement(rows[k].text).Some?
            then ItemsOf(requirement, rows[..k]) + [Item(rows[k].id, requirement(rows[k].text).value)]
            else ItemsOf(requirement, rows[..k])
  {
    assert rows[..k + 1][..k] == rows[..k];
  }

  /** The scan gives no more items than asked for, except that a caller who asks for none, or for
      fewer, gets one whenever some chunk has one. */
  lemma AtMostTarget(requirement: string -> Option<string>, rows: seq<Chunk>, target: int,
                     items: seq<Item>, scanned: nat)
    requires Scanned(requirement, rows, target, items, scanned)
    ensures |items| <= (if target < 0 then 0 else target) <==> target >= 1 || ItemsOf(requirement, rows) == []
  {
    ItemsGrow(requirement, rows, scanned);
    assert rows[..|rows|] == rows;
  }
}
