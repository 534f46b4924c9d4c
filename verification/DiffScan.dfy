/** The known-data part of `scan` in `scripts/check_client_identifiers.py`, over the added lines of
    a diff. */
module DiffScan {
  import opened Sequences
  import opened KnownData
  import opened LineBreaks
  import opened DiffLines

  function RowOf(a: Added): Row { Row(a.lineno, a.text) }

  /** The added lines of one path, in order. */
  function RowsOf(found: seq<Added>, path: string): seq<Row> {
    if found == [] then [] else
      var last := found[|found| - 1];
      RowsOf(found[..|found| - 1], path) + if last.path == path then [RowOf(last)] else []
  }

  /** The places of the added lines of one path. */
  ghost function OfPath(found: seq<Added>, path: string): set<nat> {
    set i: nat | i < |found| && found[i].path == path
  }

  /** One row for each line, with its number and its text. */
  ghost predicate Shows(rows: seq<Row>, lines: seq<Added>) {
    && |rows| == |lines|
    && forall k :: 0 <= k < |rows| ==> rows[k].lineno == lines[k].lineno && rows[k].text == lines[k].text
  }

  /** `rows` are the added lines of that path, in order, and no others. */
  ghost predicate IsRowsOf(rows: seq<Row>, found: seq<Added>, path: string) {
    exists lines :: Selection(found, OfPath(found, path), lines) && Shows(rows, lines)
  }

  lemma {:induction false} RowsListed(found: seq<Added>, path: string) returns (lines: seq<Added>)
    ensures Selection(found, OfPath(found, path), lines) && Shows(RowsOf(found, path), lines)
  {
    if found == [] {
      SelectNone<Added>();
      assert OfPath(found, path) == {};
      lines := [];
    } else {
      var n := |found| - 1;
      var before := RowsListed(found[..n], path);
      assert found[..n + 1] == found;
      assert OfPath(found, path)
          == if found[n].path == path then OfPath(found[..n], path) + {n} else OfPath(found[..n], path);
      lines := if found[n].path == path then before + [found[n]] else before;
      SelectNext(found, n, OfPath(found[..n], path), before, OfPath(found, path), lines);
    }
  }

  /** They are determined by the path. */
  lemma RowsAreOne(rows: seq<Row>, found: seq<Added>, path: string)
    ensures IsRowsOf(rows, found, path) <==> rows == RowsOf(found, path)
  {
    var lines := RowsListed(found, path);
    if IsRowsOf(rows, found, path) {
      var other :| Selection(found, OfPath(found, path), other) && Shows(rows, other);
      SelectionIsOne(found, OfPath(found, path), lines, other);
      assert forall k :: 0 <= k < |rows| ==> rows[k] == RowsOf(found, path)[k];
    }
  }

  /** Every path that is not skipped and has added lines, with these lines. */
  ghost predicate ByPath(found: seq<Added>, skip: set<string>, byPath: map<string, seq<Row>>) {
    && (forall p :: p in byPath <==> p !in skip && exists i :: 0 <= i < |found| && found[i].path == p)
    && (forall p :: p in byPath ==> IsRowsOf(byPath[p], found, p))
  }

  lemma GroupedByPath(found: seq<Added>, skip: set<string>, byPath: map<string, seq<Row>>)
    requires Grouped(found, skip, byPath)
    ensures ByPath(found, skip, byPath)
  {
    forall p ensures p in byPath <==> p !in skip && exists i :: 0 <= i < |found| && found[i].path == p {
      assert HoldsAt(found, skip, byPath, p);
      SomeRow(found, p);
    }
    forall p | p in byPath ensures IsRowsOf(byPath[p], found, p) {
      assert HoldsAt(found, skip, byPath, p);
      RowsAreOne(byPath[p], found, p);
    }
  }

  lemma {:induction false} SomeRow(found: seq<Added>, p: string)
    ensures RowsOf(found, p) != [] <==> exists i :: 0 <= i < |found| && found[i].path == p
  {
    if found != [] {
      var n := |found| - 1;
      SomeRow(found[..n], p);
      assert forall i :: 0 <= i < n ==> found[..n][i] == found[i];
    }
  }

  /** The map holds these rows for the path, or no rows if there are none or the path is skipped. */
  ghost predicate Holds(byPath: map<string, seq<Row>>, skip: set<string>, p: string, rows: seq<Row>) {
    (p in byPath <==> p !in skip && rows != []) && (p in byPath ==> byPath[p] == rows)
  }

  ghost predicate Grouped(found: seq<Added>, skip: set<string>, byPath: map<string, seq<Row>>) {
    forall p :: HoldsAt(found, skip, byPath, p)
  }

  ghost predicate HoldsAt(found: seq<Added>, skip: set<string>, byPath: map<string, seq<Row>>, p: string) {
    Holds(byPath, skip, p, RowsOf(found, p))
  }

  ghost predicate KeysOf(paths: seq<string>, byPath: map<string, seq<Row>>) {
    NoRepeats(paths) && forall p :: p in paths <==> p in byPath
  }

  /** `by_path.setdefault(path, []).append(row)`. */
  function Put(byPath: map<string, seq<Row>>, path: string, row: Row): map<string, seq<Row>> {
    byPath[path := (if path in byPath then byPath[path] else []) + [row]]
  }

  /** The loop of `scan` that fills `by_path`; `paths` are its keys in order of appearance. */
  method GroupByPath(found: seq<Added>, skip: set<string>) returns (paths: seq<string>, byPath: map<string, seq<Row>>)
    ensures KeysOf(paths, byPath) && ByPath(found, skip, byPath)
  {
    paths, byPath := [], map[];
    for k := 0 to |found|
      invariant KeysOf(paths, byPath) && Grouped(found[..k], skip, byPath)
    {
      var path, row := found[k].path, RowOf(found[k]);
      GroupStep(found, skip, k, byPath);
      if path in skip { continue; }
      if path !in byPath {
        NoRepeatsConcat(paths, [path]);
        paths := paths + [path];
      }
      byPath := Put(byPath, path, row);
    }
    assert found[..|found|] == found;
    GroupedByPath(found, skip, byPath);
  }

  lemma RowsStep(found: seq<Added>, k: nat, p: string)
    requires k < |found|
    ensures RowsOf(found[..k + 1], p) == RowsOf(found[..k], p) + if found[k].path == p then [RowOf(found[k])] else []
  {
    assert found[..k + 1][..k] == found[..k];
  }

  lemma GroupStep(found: seq<Added>, skip: set<string>, k: nat, byPath: map<string, seq<Row>>)
    requires k < |found| && Grouped(found[..k], skip, byPath)
    ensures found[k].path in skip ==> Grouped(found[..k + 1], skip, byPath)
    ensures found[k].path !in skip ==> Grouped(found[..k + 1], skip, Put(byPath, found[k].path, RowOf(found[k])))
  {
    if found[k].path in skip {
      GroupSkipped(found, skip, k, byPath);
    } else {
      GroupAdded(found, skip, k, byPath);
    }
  }

  lemma GroupSkipped(found: seq<Added>, skip: set<string>, k: nat, byPath: map<string, seq<Row>>)
    requires k < |found| && Grouped(found[..k], skip, byPath) && found[k].path in skip
    ensures Grouped(found[..k + 1], skip, byPath)
  {
    var now := found[..k + 1];
    forall p ensures HoldsAt(now, skip, byPath, p) {
      RowsStep(found, k, p);
      assert HoldsAt(found[..k], skip, byPath, p);
    }
  }

  lemma GroupAdded(found: seq<Added>, skip: set<string>, k: nat, byPath: map<string, seq<Row>>)
    requires k < |found| && Grouped(found[..k], skip, byPath) && found[k].path !in skip
    ensures Grouped(found[..k + 1], skip, Put(byPath, found[k].path, RowOf(found[k])))
  {
    var path, row, now := found[k].path, RowOf(found[k]), found[..k + 1];
    forall p ensures HoldsAt(now, skip, Put(byPath, path, row), p) {
      RowsStep(found, k, p);
      assert HoldsAt(found[..k], skip, byPath, p);
      HoldsMore(byPath, skip, path, row, p, RowsOf(found[..k], p));
    }
  }

  lemma HoldsMore(byPath: map<string, seq<Row>>, skip: set<string>, path: string, row: Row, p: string, rows: seq<Row>)
    requires path !in skip && Holds(byPath, skip, p, rows)
    ensures Holds(Put(byPath, path, row), skip, p, rows + if path == p then [row] else [])
  {
  }

  lemma GroupAt(found: seq<Added>, skip: set<string>, paths: seq<string>, byPath: map<string, seq<Row>>, k: nat)
    requires KeysOf(paths, byPath) && ByPath(found, skip, byPath) && k < |paths|
    ensures paths[k] in byPath && byPath[paths[k]] == RowsOf(found, paths[k]) && RowsOf(found, paths[k]) != []
  {
    assert paths[k] in paths;
    RowsAreOne(byPath[paths[k]], found, paths[k]);
    SomeRow(found, paths[k]);
  }

  lemma GroupedPaths(found: seq<Added>, skip: set<string>, paths: seq<string>, byPath: map<string, seq<Row>>)
    requires KeysOf(paths, byPath) && ByPath(found, skip, byPath)
    ensures forall p :: p in paths <==> p !in skip && RowsOf(found, p) != []
  {
    forall p ensures RowsOf(found, p) != [] <==> exists i :: 0 <= i < |found| && found[i].path == p {
      SomeRow(found, p);
    }
  }

  datatype Finding = Finding(path: string, report: Report)

  ghost predicate Found(known: KnownList, casing: Casing, rows: seq<Row>, path: string, rep: Report)
    requires known.Valid()
  {
    var hits := known.Hits(JoinedWords(casing, rows), path, |known.lengths|);
    rows != [] && OnRows(hits, rows) && rep in Located(rows, hits)
  }

  /** The scan of the added lines of the path makes this report. */
  ghost predicate Reported(known: KnownList, casing: Casing, found: seq<Added>, path: string, rep: Report)
    requires known.Valid()
  {
    exists rows :: IsRowsOf(rows, found, path) && Found(known, casing, rows, path, rep)
  }

  lemma ReportedOnRows(known: KnownList, casing: Casing, found: seq<Added>, path: string, rep: Report)
    requires known.Valid()
    ensures Reported(known, casing, found, path, rep) <==> Found(known, casing, RowsOf(found, path), path, rep)
  {
    RowsAreOne(RowsOf(found, path), found, path);
    if rows :| IsRowsOf(rows, found, path) && Found(known, casing, rows, path, rep) {
      RowsAreOne(rows, found, path);
    }
  }

  ghost predicate WholeTexts(found: seq<Added>) { forall i :: 0 <= i < |found| ==> '\n' !in found[i].text }

  lemma {:induction false} RowsAreWhole(found: seq<Added>, path: string)
    requires WholeTexts(found)
    ensures WholeLines(RowsOf(found, path))
  {
    if found != [] { RowsAreWhole(found[..|found| - 1], path); }
  }

  lemma VisibleTexts(found: seq<Added>)
    requires AllVisible(found)
    ensures WholeTexts(found)
  {
    forall i | 0 <= i < |found| ensures '\n' !in found[i].text {
      assert Whole(found[i].text);
    }
  }

  function Tag(path: string, reports: seq<Report>): (r: seq<Finding>)
    ensures forall f :: f in r <==> f.path == path && f.report in reports
  {
    if reports == [] then [] else Tag(path, reports[..|reports| - 1]) + [Finding(path, reports[|reports| - 1])]
  }

  /** The findings are those of these paths. */
  ghost predicate Covers(findings: seq<Finding>, known: KnownList, casing: Casing, found: seq<Added>,
                         paths: seq<string>)
    requires known.Valid()
  {
    forall f :: f in findings <==> f.path in paths && Found(known, casing, RowsOf(found, f.path), f.path, f.report)
  }

  ghost predicate FindingsOf(more: seq<Finding>, known: KnownList, casing: Casing, found: seq<Added>, path: string)
    requires known.Valid()
  {
    forall f :: f in more <==> f.path == path && Found(known, casing, RowsOf(found, path), path, f.report)
  }

  lemma CoversStep(findings: seq<Finding>, known: KnownList, casing: Casing, found: seq<Added>, paths: seq<string>,
                   k: nat, more: seq<Finding>)
    requires known.Valid() && k < |paths| && Covers(findings, known, casing, found, paths[..k])
    requires FindingsOf(more, known, casing, found, paths[k])
    ensures Covers(findings + more, known, casing, found, paths[..k + 1])
  {
    assert paths[..k + 1] == paths[..k] + [paths[k]];
  }

  method ScanPath(known: KnownList, casing: Casing, rows: seq<Row>, path: string, ghost found: seq<Added>)
    returns (more: seq<Finding>)
    requires known.Valid() && casing.Valid() && WholeTexts(found) && rows == RowsOf(found, path) != []
    ensures FindingsOf(more, known, casing, found, path)
  {
    RowsAreWhole(found, path);
    var reports := ScanRows(known, casing, rows, path);
    more := Tag(path, reports);
  }

  /** The known-data part of `scan`: the added lines of each path that is not skipped, searched as
      one text. */
  method ScanDiff(known: KnownList, casing: Casing, output: string, skip: set<string>)
    returns (findings: seq<Finding>)
    requires known.Valid() && casing.Valid()
    ensures forall f :: f in findings
                        <==> f.path !in skip && Reported(known, casing, ReadOutput(output), f.path, f.report)
  {
    var found := AddedLines(output);
    ReadIsVisible(output);
    VisibleTexts(found);
    var paths, byPath := GroupByPath(found, skip);
    findings := [];
    for k := 0 to |paths|
      invariant Covers(findings, known, casing, found, paths[..k])
    {
      GroupAt(found, skip, paths, byPath, k);
      var more := ScanPath(known, casing, byPath[paths[k]], paths[k], found);
      CoversStep(findings, known, casing, found, paths, k, more);
      findings := findings + more;
    }
    assert paths[..|paths|] == paths;
    GroupedPaths(found, skip, paths, byPath);
    forall f: Finding { ReportedOnRows(known, casing, found, f.path, f.report); }
  }

  /** The words of the added lines, each with the place of its line, from 1. */
  ghost function LineWords(casing: Casing, lines: seq<Added>): seq<Tagged> {
    TaggedFrom(seq(|lines|, k requires 0 <= k < |lines| => casing.Lower(lines[k].text)), 1)
  }

  lemma WordsShown(casing: Casing, rows: seq<Row>, lines: seq<Added>)
    requires casing.Valid() && Shows(rows, lines) && rows != [] && WholeLines(rows)
    ensures JoinedWords(casing, rows) == LineWords(casing, lines)
  {
    WordsOfJoined(casing, Texts(rows));
    assert LowerAll(casing, Texts(rows))
        == seq(|lines|, k requires 0 <= k < |lines| => casing.Lower(lines[k].text));
  }

  /** Word `i` is a word of added line `k`, and the report has that line's number. */
  ghost predicate StandsOn(casing: Casing, lines: seq<Added>, rep: Report, i: nat, k: nat) {
    var words := LineWords(casing, lines);
    && i < |words| && k < |lines| && words[i].line == k + 1
    && words[i].word in Words(casing.Lower(lines[k].text)) && rep.lineno == lines[k].lineno
  }

  /** Over a list that `build` wrote, and a diff with quiet lines, visible added lines and plain names,
      a report for a file at a line number says exactly that a listed run begins there: `lines` being
      the added lines of that file, among their words there is a known window of that size whose first
      word stands on the line with that number. */
  lemma DiffScanIsExact(casing: Casing, inputs: Inputs, salt: string, exceptions: set<(string, Digest)>,
                        git: Git, files: seq<FileDiff>, path: string, lines: seq<Added>, rep: Report)
    requires casing.Valid() && git.Valid()
    requires QuietFiles(git, files) && VisibleFiles(files) && NamesShown(git, files)
    requires Selection(AddedIn(files), OfPath(AddedIn(files), path), lines)
    ensures Build(casing, inputs, salt, exceptions).Valid()
    ensures var words := LineWords(casing, lines);
            Reported(Build(casing, inputs, salt, exceptions), casing, ReadOutput(Output(git, files)), path, rep)
            <==> rep.size > 0
                 && exists i: nat, k: nat ::
                      && i + rep.size <= |words| && StandsOn(casing, lines, rep, i, k)
                      && Known(casing, inputs, salt, exceptions, words, path, i, rep.size)
  {
    var found := AddedIn(files);
    BuiltLengths(casing, inputs, salt, exceptions);
    ReadsBackIff(git, files);
    FilesVisible(files);
    VisibleTexts(found);
    RowsAreWhole(found, path);
    ReportedOnRows(Build(casing, inputs, salt, exceptions), casing, found, path, rep);
    var shown := RowsListed(found, path);
    SelectionIsOne(found, OfPath(found, path), lines, shown);
    if lines != [] {
      SizesAgree(casing, inputs, salt, exceptions, RowsOf(found, path), lines, path, rep);
    }
  }

  lemma SizesAgree(casing: Casing, inputs: Inputs, salt: string, exceptions: set<(string, Digest)>,
                   rows: seq<Row>, lines: seq<Added>, path: string, rep: Report)
    requires casing.Valid() && rows != [] && WholeLines(rows) && Shows(rows, lines)
    requires Build(casing, inputs, salt, exceptions).Valid()
    ensures var words := LineWords(casing, lines);
            Found(Build(casing, inputs, salt, exceptions), casing, rows, path, rep)
            <==> rep.size > 0
                 && exists i: nat, k: nat ::
                      && i + rep.size <= |words| && StandsOn(casing, lines, rep, i, k)
                      && Known(casing, inputs, salt, exceptions, words, path, i, rep.size)
  {
    var known := Build(casing, inputs, salt, exceptions);
    var words := LineWords(casing, lines);
    var text := JoinLines(Texts(rows));
    WordsShown(casing, rows, lines);
    ReportedWhereItStarts(known, casing, rows, path, rep);
    if i: nat, k: nat :| StartsIn(known, casing, rows, path, rep, i, k) {
      WindowAgrees(casing, inputs, salt, exceptions, text, path, i, rep.size);
      assert StandsOn(casing, lines, rep, i, k);
    }
    if i: nat, k: nat :| rep.size > 0 && i + rep.size <= |words| && StandsOn(casing, lines, rep, i, k)
                         && Known(casing, inputs, salt, exceptions, words, path, i, rep.size)
    {
      WindowAgrees(casing, inputs, salt, exceptions, text, path, i, rep.size);
      BuiltLengths(casing, inputs, salt, exceptions);
      assert StartsIn(known, casing, rows, path, rep, i, k);
    }
  }
}
