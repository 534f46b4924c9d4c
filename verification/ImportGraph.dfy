/** The reachability walk of `scripts/check_unused_modules.py`. */
module ImportGraph {
  import opened Sequences

  /** Each module of the app and the app modules its file names. */
  type Graph = map<string, set<string>>

  predicate Imports(graph: Graph, from: string, to: string) { from in graph && to in graph[from] && to in graph }

  /** A chain of modules, each of which imports the next. */
  ghost predicate Chain(graph: Graph, path: seq<string>) {
    path != [] && path[0] in graph && forall i :: 0 < i < |path| ==> Imports(graph, path[i - 1], path[i])
  }

  /** Some chain leads from an entry point of the app to the module. */
  ghost predicate Reached(graph: Graph, entries: seq<string>, m: string) {
    exists path :: Chain(graph, path) && path[0] in entries && path[|path| - 1] == m
  }

  lemma OneMore(graph: Graph, entries: seq<string>, from: string, to: string)
    requires Reached(graph, entries, from) && Imports(graph, from, to)
    ensures Reached(graph, entries, to)
  {
    var path :| Chain(graph, path) && path[0] in entries && path[|path| - 1] == from;
    var longer := path + [to];
    assert Chain(graph, longer) && longer[0] in entries && longer[|longer| - 1] == to;
  }

  ghost predicate Closed(graph: Graph, s: set<string>) {
    forall m, n :: m in s && Imports(graph, m, n) ==> n in s
  }

  /** A closed set that holds a chain's first module holds all of it. */
  lemma {:induction false} ClosedHoldsChain(graph: Graph, s: set<string>, path: seq<string>, i: nat)
    requires Closed(graph, s) && Chain(graph, path) && path[0] in s && i < |path|
    ensures path[i] in s
  {
    if i > 0 {
      ClosedHoldsChain(graph, s, path, i - 1);
      assert Imports(graph, path[i - 1], path[i]);
    }
  }

  /** The members of a set as a list, in no particular order. */
  method Listing(s: set<string>) returns (list: seq<string>)
    ensures forall m :: m in list <==> m in s
  {
    list := [];
    var rest := s;
    while rest != {}
      invariant rest <= s && forall m :: m in list <==> m in s && m !in rest
    {
      var m :| m in rest;
      list, rest := list + [m], rest - {m};
    }
  }

  /** `[m for m in entries if m in modules]`. */
  function KnownOnes(graph: Graph, entries: seq<string>): (r: seq<string>)
    ensures forall m :: m in r <==> m in entries && m in graph
  {
    if entries == [] then [] else
      (if entries[0] in graph then [entries[0]] else []) + KnownOnes(graph, entries[1..])
  }

  ghost predicate Walked(graph: Graph, entries: seq<string>, todo: seq<string>, seen: set<string>) {
    && seen <= graph.Keys
    && (forall m :: m in todo || m in seen ==> Reached(graph, entries, m) && m in graph)
    && (forall m :: m in entries && m in graph ==> m in seen || m in todo)
    && (forall m, n :: m in seen && Imports(graph, m, n) ==> n in seen || n in todo)
  }

  /** `reachable`: the walk ends on every graph, cycles and repeated entries included, and finds
      exactly the modules that some chain of imports reaches. */
  method Reachable(graph: Graph, entries: seq<string>) returns (seen: set<string>)
    ensures forall m :: m in seen <==> Reached(graph, entries, m)
  {
    var todo := KnownOnes(graph, entries);
    seen := {};
    StartsWalked(graph, entries, todo);
    while todo != []
      invariant Walked(graph, entries, todo, seen)
      decreases graph.Keys - seen, |todo|
    {
      var name := todo[|todo| - 1];
      ghost var before := todo;
      todo := todo[..|todo| - 1];
      assert before == todo + [name];
      if name in seen { continue; }
      var more := Listing(graph[name] * graph.Keys - (seen + {name}));
      WalkStep(graph, entries, before, todo, seen, name, more);
      assert name in graph.Keys - seen && name !in graph.Keys - (seen + {name});
      seen := seen + {name};
      todo := todo + more;
    }
    WalkEnds(graph, entries, seen);
  }

  lemma StartsWalked(graph: Graph, entries: seq<string>, todo: seq<string>)
    requires todo == KnownOnes(graph, entries)
    ensures Walked(graph, entries, todo, {})
  {
    forall m | m in todo ensures Reached(graph, entries, m) {
      assert Chain(graph, [m]) && [m][0] in entries;
    }
  }

  lemma WalkStep(graph: Graph, entries: seq<string>, before: seq<string>, todo: seq<string>, seen: set<string>,
                 name: string, more: seq<string>)
    requires Walked(graph, entries, before, seen) && before == todo + [name] && name in graph
    requires forall m :: m in more <==> m in graph[name] * graph.Keys - (seen + {name})
    ensures Walked(graph, entries, todo + more, seen + {name})
  {
    assert name in before;
    forall m | m in more ensures Reached(graph, entries, m) { OneMore(graph, entries, name, m); }
  }

  lemma WalkEnds(graph: Graph, entries: seq<string>, seen: set<string>)
    requires Walked(graph, entries, [], seen)
    ensures forall m :: m in seen <==> Reached(graph, entries, m)
  {
    forall m | Reached(graph, entries, m) ensures m in seen {
      var path :| Chain(graph, path) && path[0] in entries && path[|path| - 1] == m;
      ClosedHoldsChain(graph, seen, path, |path| - 1);
    }
  }

  /** `unused`: exactly the modules of the app that no chain reaches. */
  method Unused(graph: Graph, entries: seq<string>) returns (dead: set<string>)
    ensures forall m :: m in dead <==> m in graph && !Reached(graph, entries, m)
  {
    var seen := Reachable(graph, entries);
    dead := graph.Keys - seen;
  }

  /** Deleting every unused module leaves nothing unused and reaches the same modules: no module
      that stays was reached only through one that goes. */
  lemma DeletingUnusedIsEnough(graph: Graph, entries: seq<string>, kept: Graph)
    requires forall m :: m in kept <==> Reached(graph, entries, m)
    requires forall m :: m in kept ==> m in graph && kept[m] == graph[m]
    ensures forall m :: m in kept ==> Reached(kept, entries, m)
  {
    forall m | m in kept ensures Reached(kept, entries, m) {
      var path :| Chain(graph, path) && path[0] in entries && path[|path| - 1] == m;
      forall i | 0 <= i < |path| ensures path[i] in kept { PrefixReached(graph, entries, path, i); }
      assert Chain(kept, path);
    }
  }

  lemma PrefixReached(graph: Graph, entries: seq<string>, path: seq<string>, i: nat)
    requires Chain(graph, path) && path[0] in entries && i < |path|
    ensures Reached(graph, entries, path[i])
  {
    var prefix := path[..i + 1];
    assert Chain(graph, prefix) && prefix[0] in entries && prefix[|prefix| - 1] == path[i];
  }
}
