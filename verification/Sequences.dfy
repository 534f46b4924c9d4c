/** Facts about finite sequences and sets that several of the modelled programs rest on. */
module Sequences {

  datatype Option<+T> = None | Some(value: T)

  ghost predicate NoRepeats<T>(s: seq<T>) {
    forall i, j :: 0 <= i < j < |s| ==> s[i] != s[j]
  }

  ghost predicate Increasing(s: seq<nat>) {
    forall i, j :: 0 <= i < j < |s| ==> s[i] < s[j]
  }

  lemma NoRepeatsConcat<T>(a: seq<T>, b: seq<T>)
    requires NoRepeats(a) && NoRepeats(b)
    requires forall x :: x in a ==> x !in b
    ensures NoRepeats(a + b)
  {
    forall i, j | 0 <= i < j < |a + b| ensures (a + b)[i] != (a + b)[j] {
      assert i < |a| <= j ==> a[i] in a && b[j - |a|] in b;
    }
  }

  /** 0, 1, ..., n-1 as a set. */
  ghost function Below(n: nat): (r: set<nat>)
    ensures |r| == n
    ensures forall i: nat :: i in r <==> i < n
  {
    if n == 0 then {} else Below(n - 1) + {n - 1}
  }

  lemma Smaller<T>(a: set<T>, b: set<T>)
    requires a <= b
    ensures |a| <= |b| && (|a| == |b| ==> a == b)
  {
    assert b == a + (b - a);
  }

  ghost function Elements<T(!new)>(s: seq<T>): (r: set<T>)
    ensures forall x :: x in r <==> x in s
  {
    if s == [] then {} else Elements(s[..|s| - 1]) + {s[|s| - 1]}
  }

  lemma {:induction false} ElementsCount<T(!new)>(s: seq<T>)
    requires NoRepeats(s)
    ensures |Elements(s)| == |s|
  {
    if s != [] {
      ElementsCount(s[..|s| - 1]);
    }
  }

  /** A list that names each of 0, 1, ..., n-1 and nothing twice has n members. */
  lemma CoverCounts(s: seq<nat>, n: nat)
    requires NoRepeats(s)
    requires forall i: nat :: i in s <==> i < n
    ensures |s| == n
  {
    ElementsCount(s);
    assert Elements(s) == Below(n);
  }

  ghost function TruesAt(flags: seq<bool>): set<nat> { set i: nat | i < |flags| && flags[i] }

  lemma {:induction false} TruesCounted(flags: seq<bool>)
    ensures multiset(flags)[true] == |TruesAt(flags)|
  {
    if flags == [] {
      assert TruesAt(flags) == {};
    } else {
      var n: nat := |flags| - 1;
      TruesCounted(flags[..n]);
      assert flags == flags[..n] + [flags[n]];
      assert n !in TruesAt(flags[..n]);
      assert TruesAt(flags) == if flags[n] then TruesAt(flags[..n]) + {n} else TruesAt(flags[..n]);
    }
  }

  /** How many members of `list` point at `c`. */
  function CountIn<T(==)>(values: seq<T>, list: seq<nat>, c: T): nat
    requires forall i :: 0 <= i < |list| ==> list[i] < |values|
  {
    if list == [] then 0 else
      var last := |list| - 1;
      CountIn(values, list[..last], c) + if values[list[last]] == c then 1 else 0
  }

  lemma {:induction false} CountInConcat<T>(values: seq<T>, a: seq<nat>, b: seq<nat>, c: T)
    requires forall i :: 0 <= i < |a| ==> a[i] < |values|
    requires forall i :: 0 <= i < |b| ==> b[i] < |values|
    ensures forall i :: 0 <= i < |a + b| ==> (a + b)[i] < |values|
    ensures CountIn(values, a + b, c) == CountIn(values, a, c) + CountIn(values, b, c)
  {
    if b == [] {
      assert a + b == a;
    } else {
      var last := |b| - 1;
      CountInConcat(values, a, b[..last], c);
      assert (a + b)[..|a| + last] == a + b[..last];
    }
  }

  lemma {:induction false} CountInPrefix<T>(values: seq<T>, more: T, list: seq<nat>, c: T)
    requires forall i :: 0 <= i < |list| ==> list[i] < |values|
    ensures CountIn(values + [more], list, c) == CountIn(values, list, c)
  {
    if list != [] { CountInPrefix(values, more, list[..|list| - 1], c); }
  }

  /** `kept` lists the members of `all` at the places in `chosen`, in their order. */
  ghost predicate Selection<T>(all: seq<T>, chosen: set<nat>, kept: seq<T>) {
    exists places: seq<nat> :: SelectedAt(all, chosen, kept, places)
  }

  ghost predicate SelectedAt<T>(all: seq<T>, chosen: set<nat>, kept: seq<T>, places: seq<nat>) {
    && Increasing(places) && (forall i: nat :: i in places <==> i in chosen)
    && |kept| == |places|
    && forall k :: 0 <= k < |places| ==> places[k] < |all| && kept[k] == all[places[k]]
  }

  lemma SelectNone<T>()
    ensures Selection<T>([], {}, [])
  {
    assert SelectedAt<T>([], {}, [], []);
  }

  lemma SelectMore<T>(all: seq<T>, chosen: set<nat>, kept: seq<T>, x: T, take: bool)
    requires Selection(all, chosen, kept)
    ensures Selection(all + [x], if take then chosen + {|all|} else chosen, if take then kept + [x] else kept)
  {
    var places: seq<nat> :| SelectedAt(all, chosen, kept, places);
    if take {
      SelectedLast(all, chosen, kept, places, x);
    } else {
      assert SelectedAt(all + [x], chosen, kept, places);
    }
  }

  /** One more member of `all` is seen, and kept or not. */
  lemma SelectNext<T>(all: seq<T>, k: nat, chosen: set<nat>, kept: seq<T>, more: set<nat>, longer: seq<T>)
    requires k < |all| && Selection(all[..k], chosen, kept)
    requires (more == chosen + {k} && longer == kept + [all[k]]) || (more == chosen && longer == kept)
    ensures Selection(all[..k + 1], more, longer)
  {
    assert all[..k + 1] == all[..k] + [all[k]];
    if more == chosen && longer == kept {
      SelectMore(all[..k], chosen, kept, all[k], false);
    } else {
      SelectMore(all[..k], chosen, kept, all[k], true);
    }
  }

  lemma SelectedLast<T>(all: seq<T>, chosen: set<nat>, kept: seq<T>, places: seq<nat>, x: T)
    requires SelectedAt(all, chosen, kept, places)
    ensures SelectedAt(all + [x], chosen + {|all|}, kept + [x], places + [|all|])
  {
    var n := |all|;
    assert forall k :: 0 <= k < |places| ==> places[k] < n;
    assert Increasing(places + [n]);
    forall i: nat ensures i in places + [n] <==> i in chosen + {n} {
      assert i in places + [n] <==> i in places || i == n;
    }
  }

  lemma IncreasingDiffer(s: seq<nat>)
    requires Increasing(s)
    ensures NoRepeats(s)
  {
  }

  lemma SelectedCount<T>(all: seq<T>, chosen: set<nat>, kept: seq<T>)
    requires Selection(all, chosen, kept)
    ensures |kept| == |chosen|
  {
    var places: seq<nat> :| SelectedAt(all, chosen, kept, places);
    IncreasingDiffer(places);
    ElementsCount(places);
    assert Elements(places) == chosen;
  }

  lemma ChosenAreBelow<T>(all: seq<T>, chosen: set<nat>, kept: seq<T>)
    requires Selection(all, chosen, kept)
    ensures chosen <= Below(|all|)
  {
    var places: seq<nat> :| SelectedAt(all, chosen, kept, places);
    forall i: nat | i in chosen ensures i in Below(|all|) { assert i in places; }
  }

  /** The places and the list determine each other's size: everything is kept exactly when every
      place is chosen. */
  lemma AllSelected<T>(all: seq<T>, chosen: set<nat>, kept: seq<T>)
    requires Selection(all, chosen, kept)
    ensures kept == all <==> forall i: nat :: i < |all| ==> i in chosen
  {
    var places: seq<nat> :| SelectedAt(all, chosen, kept, places);
    SelectedCount(all, chosen, kept);
    ChosenAreBelow(all, chosen, kept);
    Smaller(chosen, Below(|all|));
    if chosen == Below(|all|) {
      Identity(places, |all|);
    }
  }

  lemma {:induction false} Identity(places: seq<nat>, n: nat)
    requires Increasing(places) && |places| == n && forall k :: 0 <= k < n ==> places[k] < n
    ensures forall k :: 0 <= k < n ==> places[k] == k
  {
    if n > 0 {
      assert forall k :: 0 <= k < n - 1 ==> places[k] < places[n - 1];
      Identity(places[..n - 1], n - 1);
      assert forall k :: 0 <= k < n - 1 ==> places[..n - 1][k] == places[k];
      assert n > 1 ==> places[..n - 1][n - 2] == n - 2;
    }
  }

  /** The last member is the largest, and only there. */
  lemma LastIsLargest(s: seq<nat>, i: nat)
    requires Increasing(s) && i in s
    ensures i <= s[|s| - 1] && (i in s[..|s| - 1] <==> i != s[|s| - 1])
  {
    var k :| 0 <= k < |s| && s[k] == i;
    if k < |s| - 1 { assert s[..|s| - 1][k] == i; }
  }

  lemma SelectLess<T>(all: seq<T>, chosen: set<nat>, kept: seq<T>) returns (less: seq<T>)
    requires Selection(all, chosen, kept) && all != []
    ensures var n: nat := |all| - 1;
            Selection(all[..n], chosen - {n}, less) && kept == if n in chosen then less + [all[n]] else less
  {
    var n: nat := |all| - 1;
    var places: seq<nat> :| SelectedAt(all, chosen, kept, places);
    if n in chosen {
      SelectedFirst(all, chosen, kept, places);
      less := kept[..|kept| - 1];
    } else {
      forall k | 0 <= k < |places| ensures places[k] < n { assert places[k] in places; }
      assert chosen - {n} == chosen;
      assert SelectedAt(all[..n], chosen, kept, places);
      less := kept;
    }
  }

  /** And back. */
  lemma SelectAgain<T>(all: seq<T>, chosen: set<nat>, n: nat, less: seq<T>) returns (kept: seq<T>)
    requires |all| == n + 1 && Selection(all[..n], chosen - {n}, less)
    ensures kept == (if n in chosen then less + [all[n]] else less) && Selection(all, chosen, kept)
  {
    SelectMore(all[..n], chosen - {n}, less, all[n], n in chosen);
    assert all[..n] + [all[n]] == all;
    if n in chosen {
      assert chosen == chosen - {n} + {n};
      kept := less + [all[n]];
    } else {
      assert chosen == chosen - {n};
      kept := less;
    }
  }

  lemma SelectedFirst<T>(all: seq<T>, chosen: set<nat>, kept: seq<T>, places: seq<nat>)
    requires all != [] && |all| - 1 in chosen && SelectedAt(all, chosen, kept, places)
    ensures var n, m := |all| - 1, |kept| - 1;
            m >= 0 && kept[m] == all[n] && SelectedAt(all[..n], chosen - {n}, kept[..m], places[..m])
  {
    var n: nat := |all| - 1;
    assert n in places;
    LastIsLargest(places, n);
    var m := |places| - 1;
    assert places[m] == n;
    forall i: nat ensures i in places[..m] <==> i in chosen - {n} {
      if i in places { LastIsLargest(places, i); }
    }
    assert forall k :: 0 <= k < m ==> places[..m][k] == places[k] < places[m];
  }

  /** What either of two disjoint sets of places keeps. */
  lemma {:induction false} SelectEither<T>(all: seq<T>, a: set<nat>, one: seq<T>, b: set<nat>, two: seq<T>)
    returns (both: seq<T>)
    requires Selection(all, a, one) && Selection(all, b, two) && a !! b
    ensures Selection(all, a + b, both) && multiset(both) == multiset(one) + multiset(two)
    decreases |all|
  {
    if all == [] {
      NothingSelected(all, a, one);
      NothingSelected(all, b, two);
      assert a + b == {};
      return [];
    }
    var n: nat := |all| - 1;
    var first := SelectLess(all, a, one);
    var second := SelectLess(all, b, two);
    LessEither(a, b, n);
    var less := SelectEither(all[..n], a - {n}, first, b - {n}, second);
    both := SelectAgain(all, a + b, n, less);
  }

  lemma NothingSelected<T>(all: seq<T>, chosen: set<nat>, kept: seq<T>)
    requires all == [] && Selection(all, chosen, kept)
    ensures chosen == {} && kept == []
  {
    ChosenAreBelow(all, chosen, kept);
    SelectedCount(all, chosen, kept);
  }

  lemma LessEither(a: set<nat>, b: set<nat>, n: nat)
    ensures (a - {n}) + (b - {n}) == (a + b) - {n}
    ensures a !! b ==> a - {n} !! b - {n}
  {
  }

  /** The chosen places determine the list. */
  lemma SelectionIsOne<T>(all: seq<T>, chosen: set<nat>, kept: seq<T>, other: seq<T>)
    requires Selection(all, chosen, kept) && Selection(all, chosen, other)
    ensures kept == other
  {
    var a: seq<nat> :| SelectedAt(all, chosen, kept, a);
    var b: seq<nat> :| SelectedAt(all, chosen, other, b);
    SamePlaces(a, b);
  }

  lemma SameLength(a: seq<nat>, b: seq<nat>)
    requires Increasing(a) && Increasing(b) && forall i: nat :: i in a <==> i in b
    ensures |a| == |b|
  {
    IncreasingDiffer(a);
    IncreasingDiffer(b);
    ElementsCount(a);
    ElementsCount(b);
    assert Elements(a) == Elements(b);
  }

  lemma {:induction false} SamePlaces(a: seq<nat>, b: seq<nat>)
    requires Increasing(a) && Increasing(b) && forall i: nat :: i in a <==> i in b
    ensures a == b
  {
    SameLength(a, b);
    if a != [] {
      var n := |a| - 1;
      assert a[n] in b && b[n] in a;
      LastIsLargest(a, b[n]);
      LastIsLargest(b, a[n]);
      forall i: nat ensures i in a[..n] <==> i in b[..n] {
        if i in a { LastIsLargest(a, i); LastIsLargest(b, i); }
      }
      SamePlaces(a[..n], b[..n]);
      assert a == a[..n] + [a[n]] && b == b[..n] + [b[n]];
    }
  }

  function Removed<T>(s: seq<T>, k: nat): seq<T>
    requires k < |s|
  {
    s[..k] + s[k + 1..]
  }

  lemma RemovedRest<T>(s: seq<T>, k: nat)
    requires k < |s|
    ensures multiset(s) == multiset{s[k]} + multiset(Removed(s, k))
  {
    assert s == s[..k] + [s[k]] + s[k + 1..];
  }

  lemma RemoveOne(list: seq<nat>, k: nat)
    requires NoRepeats(list) && k < |list|
    ensures NoRepeats(Removed(list, k))
    ensures forall x: nat :: x in Removed(list, k) <==> x in list && x != list[k]
  {
    var rest := Removed(list, k);
    assert forall i :: 0 <= i < |rest| ==> rest[i] == list[if i < k then i else i + 1];
    forall x: nat | x in list && x != list[k] ensures x in rest {
      var i :| 0 <= i < |list| && list[i] == x;
      assert rest[if i < k then i else i - 1] == x;
    }
  }

  /** Over a list that names every index once, the count is the value's multiplicity. */
  lemma {:induction false} CountAll<T>(values: seq<T>, list: seq<nat>, c: T)
    requires NoRepeats(list) && forall i :: 0 <= i < |list| ==> list[i] < |values|
    requires forall i: nat :: i < |values| ==> i in list
    ensures CountIn(values, list, c) == multiset(values)[c]
  {
    if |values| == 0 {
      assert forall i: nat :: i in list ==> i < |values|;
      CoverCounts(list, 0);
    } else {
      var n: nat := |values| - 1;
      assert n in list;
      var k: nat :| k < |list| && list[k] == n;
      RemoveOne(list, k);
      var rest := Removed(list, k);
      forall i | 0 <= i < |rest| ensures rest[i] < n { assert rest[i] in rest && rest[i] in list; }
      CountAll(values[..n], Removed(list, k), c);
      CountWithout(values, list, k, c);
      assert values == values[..n] + [values[n]];
      CountInPrefix(values[..n], values[n], Removed(list, k), c);
    }
  }

  lemma CountWithout<T>(values: seq<T>, list: seq<nat>, k: nat, c: T)
    requires k < |list| && forall i :: 0 <= i < |list| ==> list[i] < |values|
    ensures forall i :: 0 <= i < |Removed(list, k)| ==> Removed(list, k)[i] < |values|
    ensures CountIn(values, list, c)
         == CountIn(values, Removed(list, k), c) + if values[list[k]] == c then 1 else 0
  {
    assert list == list[..k] + [list[k]] + list[k + 1..];
    CountInConcat(values, list[..k], list[k + 1..], c);
    CountInConcat(values, list[..k], [list[k]], c);
    CountInConcat(values, list[..k] + [list[k]], list[k + 1..], c);
    assert CountIn(values, [list[k]], c) == if values[list[k]] == c then 1 else 0;
  }
}
