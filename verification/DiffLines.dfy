/** The reader of zero-context unified diffs in `scripts/check_client_identifiers.py`
    (`added_lines`), set against what `git diff` prints. */
module DiffLines {
  import opened Sequences
  import opened Decimals
  import opened LineBreaks

  // ------------------------------------------------------------ the reader

  /** An added line: its file, its number in the new file and its text. */
  datatype Added = Added(path: string, lineno: nat, text: string)

  datatype State = State(path: Option<string>, lineno: nat)

  predicate StartsWith(s: string, prefix: string) {
    |prefix| <= |s| && forall i :: 0 <= i < |prefix| ==> s[i] == prefix[i]
  }

  function LeadDigits(s: string): (n: nat)
    ensures n <= |s| && (forall i :: 0 <= i < n ==> IsDigit(s[i])) && (n < |s| ==> !IsDigit(s[n]))
  {
    if s == "" || !IsDigit(s[0]) then 0 else 1 + LeadDigits(s[1..])
  }

  /** The first number right after a plus sign, as `re.search(r"\+(\d+)", line)` finds it. */
  function PlusNumber(line: string): Option<nat> {
    if line == "" then None
    else if line[0] == '+' && LeadDigits(line[1..]) > 0 then Some(Value(line[1..][..LeadDigits(line[1..])]))
    else PlusNumber(line[1..])
  }

  function TargetPath(target: string): Option<string> {
    if StartsWith(target, "b/") then Some(target[2..]) else None
  }

  function Next(s: State, line: string): State {
    if StartsWith(line, "+++ ") then s.(path := TargetPath(line[4..]))
    else if StartsWith(line, "@@") then
      s.(lineno := match PlusNumber(line) case Some(n) => n case None => 0)
    else if StartsWith(line, "+") && s.path.Some? then s.(lineno := s.lineno + 1)
    else s
  }

  function Yield(s: State, line: string): seq<Added> {
    if !StartsWith(line, "+++ ") && !StartsWith(line, "@@") && StartsWith(line, "+") && s.path.Some? then
      [Added(s.path.value, s.lineno, line[1..])]
    else []
  }

  function After(s: State, lines: seq<string>): State
    decreases |lines|
  {
    if lines == [] then s else After(Next(s, lines[0]), lines[1..])
  }

  function Parse(s: State, lines: seq<string>): seq<Added>
    decreases |lines|
  {
    if lines == [] then [] else Yield(s, lines[0]) + Parse(Next(s, lines[0]), lines[1..])
  }

  const START: State := State(None, 0)

  /** What `added_lines` makes of the output of `git diff`. */
  function ReadOutput(output: string): seq<Added> { Parse(START, Cut(AsText(output))) }

  /** `added_lines`, with its two variables. */
  method AddedLines(output: string) returns (found: seq<Added>)
    ensures found == ReadOutput(output)
  {
    var diff := AsText(output);
    var lines := Cut(diff);
    var path: Option<string>, lineno: nat := None, 0;
    found := [];
    for k := 0 to |lines|
      invariant found + Parse(State(path, lineno), lines[k..]) == Parse(START, lines)
    {
      var line := lines[k];
      ghost var before, s := found, State(path, lineno);
      ParseStep(found, s, lines, k);
      if StartsWith(line, "+++ ") {
        var target := line[4..];
        path := if StartsWith(target, "b/") then Some(target[2..]) else None;
        assert found == before + Yield(s, line) && State(path, lineno) == Next(s, line);
        continue;
      }
      if StartsWith(line, "@@") {
        var m := PlusNumber(line);
        lineno := if m.Some? then m.value else 0;
        assert found == before + Yield(s, line) && State(path, lineno) == Next(s, line);
        continue;
      }
      if StartsWith(line, "+") && path.Some? {
        found := found + [Added(path.value, lineno, line[1..])];
        lineno := lineno + 1;
      }
      assert found == before + Yield(s, line) && State(path, lineno) == Next(s, line);
    }
  }

  lemma ParseStep(found: seq<Added>, s: State, lines: seq<string>, k: nat)
    requires k < |lines|
    ensures found + Parse(s, lines[k..]) == found + Yield(s, lines[k]) + Parse(Next(s, lines[k]), lines[k + 1..])
  {
    assert lines[k..][1..] == lines[k + 1..];
  }

  lemma {:induction false} ParseConcat(s: State, a: seq<string>, b: seq<string>)
    ensures Parse(s, a + b) == Parse(s, a) + Parse(After(s, a), b)
    ensures After(s, a + b) == After(After(s, a), b)
    decreases |a|
  {
    if a == [] {
      assert a + b == b;
    } else {
      ParseConcat(Next(s, a[0]), a[1..], b);
      assert (a + b)[0] == a[0] && (a + b)[1..] == a[1..] + b;
    }
  }

  // ------------------------------------------------------------ what a diff prints

  /** The settings of `git diff` that show in a file's name line: what it writes before the name
      (`b/` unless told otherwise), whether characters beyond ASCII put a name in quotes (they do
      unless told otherwise), and how it spells a name in quotes. */
  datatype Git = Git(prefix: string, quoteHigh: bool, escape: string -> string) {
    predicate Valid() { Whole(prefix) }

    predicate Special(c: char) {
      c < ' ' || c == '"' || c == '\\' || c == '\U{7F}' || (quoteHigh && '\U{7F}' < c)
    }

    predicate NeedsQuotes(name: string) { exists i :: 0 <= i < |name| && Special(name[i]) }
  }

  /** A name as printed: in quotes if it must be, and with a tab after it if it holds a space. */
  function Shown(git: Git, path: string): string {
    var name := git.prefix + path;
    var spelt := if git.NeedsQuotes(name) then "\"" + (git.escape(name) + "\"") else name;
    spelt + if ' ' in spelt then "\t" else ""
  }

  /** A hunk without context: the lines taken out at `oldStart`, then the lines put in at `newStart`,
      each as it is in its file up to the line feed. The flags say that a side ends without a line
      feed, which prints a remark. The heading is the piece of the old file shown for orientation. */
  datatype Hunk = Hunk(oldStart: nat, removed: seq<string>, oldCut: bool,
                       newStart: nat, added: seq<string>, newCut: bool, heading: string)

  /** A file of a diff: its lines before the name, its name in the new tree, and its hunks. */
  datatype FileDiff = FileDiff(preamble: seq<string>, path: string, hunks: seq<Hunk>)

  function Range(start: nat, count: nat): string {
    Decimal(start) + if count == 1 then "" else "," + Decimal(count)
  }

  function Numbers(h: Hunk): string {
    "@@ -" + Range(h.oldStart, |h.removed|) + " " + ("+" + Range(h.newStart, |h.added|) + " @@")
  }

  function Prefixed(mark: char, lines: seq<string>): seq<string> {
    seq(|lines|, i requires 0 <= i < |lines| => [mark] + lines[i])
  }

  function Remark(cut: bool): seq<string> { if cut then ["\\ No newline at end of file"] else [] }

  function PrintHunk(h: Hunk): seq<string> {
    [Numbers(h) + h.heading]
    + (Prefixed('-', h.removed) + (Remark(h.oldCut) + (Prefixed('+', h.added) + Remark(h.newCut))))
  }

  function PrintHunks(hunks: seq<Hunk>): seq<string> {
    if hunks == [] then [] else PrintHunk(hunks[0]) + PrintHunks(hunks[1..])
  }

  /** A file without hunks (a rename, a mode, a binary file) prints no name line. */
  function PrintFile(git: Git, f: FileDiff): seq<string> {
    f.preamble + if f.hunks == [] then [] else ["+++ " + Shown(git, f.path)] + PrintHunks(f.hunks)
  }

  function PrintDiff(git: Git, files: seq<FileDiff>): seq<string> {
    if files == [] then [] else PrintFile(git, files[0]) + PrintDiff(git, files[1..])
  }

  function Output(git: Git, files: seq<FileDiff>): string { TextOf(PrintDiff(git, files)) }

  // ------------------------------------------------------------ what it added

  /** The line without the carriage return of a file whose lines end in two characters. */
  function Chomp(line: string): string {
    if line != "" && line[|line| - 1] == '\r' then line[..|line| - 1] else line
  }

  lemma Chomped(text: string)
    ensures Chomp(text + "\r") == text
    ensures '\r' !in text ==> Chomp(text) == text
  {
    assert (text + "\r")[..|text|] == text;
  }

  function Numbered(path: string, lineno: nat, lines: seq<string>): seq<Added> {
    seq(|lines|, i requires 0 <= i < |lines| => Added(path, lineno + i, Chomp(lines[i])))
  }

  function AddedByHunks(path: string, hunks: seq<Hunk>): seq<Added> {
    if hunks == [] then [] else Numbered(path, hunks[0].newStart, hunks[0].added) + AddedByHunks(path, hunks[1..])
  }

  /** Every line the diff adds, with its file and its number in the new file. */
  function AddedIn(files: seq<FileDiff>): seq<Added> {
    if files == [] then [] else AddedByHunks(files[0].path, files[0].hunks) + AddedIn(files[1..])
  }

  ghost predicate ReadsBack(git: Git, files: seq<FileDiff>) { ReadOutput(Output(git, files)) == AddedIn(files) }

  lemma ReadPieces(git: Git, files: seq<FileDiff>)
    ensures ReadOutput(Output(git, files)) == Parse(START, Pieces(PrintDiff(git, files)))
  {
    CutAsText(Output(git, files));
    CutText(PrintDiff(git, files));
  }

  // ------------------------------------------------------------ what the reader needs

  /** A text the reader can find: no separator cuts it, and "+" in front makes no name line of it. */
  predicate Visible(text: string) { Whole(text) && !StartsWith(text, "++ ") }

  predicate VisibleLines(lines: seq<string>) { forall i :: 0 <= i < |lines| ==> Visible(Chomp(lines[i])) }

  predicate VisibleHunks(hunks: seq<Hunk>) { forall i :: 0 <= i < |hunks| ==> VisibleLines(hunks[i].added) }

  predicate VisibleFiles(files: seq<FileDiff>) { forall i :: 0 <= i < |files| ==> VisibleHunks(files[i].hunks) }

  /** A name that is printed as `b/` and itself, on one line. */
  predicate PlainName(git: Git, path: string) {
    git.prefix == "b/" && !git.NeedsQuotes(path) && ' ' !in path && Whole(path)
  }

  predicate NameShown(git: Git, f: FileDiff) {
    PlainName(git, f.path) || forall i :: 0 <= i < |f.hunks| ==> f.hunks[i].added == []
  }

  predicate NamesShown(git: Git, files: seq<FileDiff>) {
    forall i :: 0 <= i < |files| ==> NameShown(git, files[i])
  }

  predicate Idle(line: string) { !StartsWith(line, "+") && !StartsWith(line, "@@") }

  predicate AllIdle(lines: seq<string>) { forall i :: 0 <= i < |lines| ==> Idle(lines[i]) }

  /** What `splitlines` makes of a line's text up to its first separator, and after it. */
  function Head(text: string): string {
    var pieces := Cut(text + "\n");
    if pieces == [] then "" else pieces[0]
  }

  function Tail(text: string): seq<string> {
    var pieces := Cut(text + "\n");
    if pieces == [] then [] else pieces[1..]
  }

  lemma FirstPiece(start: string, text: string)
    requires Whole(start)
    ensures Cut((start + text) + "\n") == [start + Head(text)] + Tail(text)
  {
    CutAfter(start, text + "\n");
    Prepend(start, text, "\n");
  }

  lemma OnePiece(text: string)
    requires Whole(text)
    ensures Head(text) == text && Tail(text) == []
  {
    CutLine(text, "\n", "");
    assert "\n" + "" == "\n";
  }

  /** No piece of the text after a separator begins like a hunk, a name or an added line. */
  predicate Quiet(text: string) { AllIdle(Tail(text)) }

  predicate QuietLines(lines: seq<string>) { forall i :: 0 <= i < |lines| ==> Quiet(lines[i]) }

  predicate QuietHunk(h: Hunk) { Quiet(h.heading) && QuietLines(h.removed) }

  predicate QuietFile(git: Git, f: FileDiff) {
    && AllIdle(Pieces(f.preamble))
    && (f.hunks == [] || Quiet(Shown(git, f.path)))
    && forall i :: 0 <= i < |f.hunks| ==> QuietHunk(f.hunks[i])
  }

  predicate QuietFiles(git: Git, files: seq<FileDiff>) { forall i :: 0 <= i < |files| ==> QuietFile(git, files[i]) }

  // ------------------------------------------------------------ the name line

  lemma SpecialIn(git: Git, a: string, b: string)
    ensures git.NeedsQuotes(a + b) <==> git.NeedsQuotes(a) || git.NeedsQuotes(b)
  {
    var s := a + b;
    if git.NeedsQuotes(a) {
      var i :| 0 <= i < |a| && git.Special(a[i]);
      assert s[i] == a[i];
    }
    if git.NeedsQuotes(b) {
      var i :| 0 <= i < |b| && git.Special(b[i]);
      assert s[|a| + i] == b[i];
    }
  }

  lemma StartsWithSplit(a: string, b: string)
    ensures StartsWith(a + b, a) && (a + b)[|a|..] == b
  {
  }

  lemma WholeConcat(a: string, b: string)
    requires Whole(a) && Whole(b)
    ensures Whole(a + b)
  {
  }

  function NameRead(git: Git, path: string): Option<string> { TargetPath(Head(Shown(git, path))) }

  /** The reader gets a file's own name exactly when the name is printed as it is. */
  lemma PlainNameIff(git: Git, path: string)
    requires git.Valid()
    ensures NameRead(git, path) == Some(path) <==> PlainName(git, path)
    ensures PlainName(git, path) ==> Quiet(Shown(git, path))
  {
    var name := git.prefix + path;
    SpecialIn(git, git.prefix, path);
    if git.NeedsQuotes(name) {
      QuotedPath(git, path);
    } else if Whole(path) {
      WholeConcat(git.prefix, path);
      WholeConcat(name, if ' ' in name then "\t" else "");
      OnePiece(Shown(git, path));
      WholePath(git, path);
    } else {
      ReadIsWhole(git, path);
    }
  }

  lemma QuotedPath(git: Git, path: string)
    requires git.NeedsQuotes(git.prefix + path)
    ensures NameRead(git, path) == None && !PlainName(git, path)
  {
    var rest := QuoteFirst(git, path);
    QuoteIsNoTarget(rest);
    QuotedIsNotPlain(git, path);
  }

  lemma QuoteIsNoTarget(rest: string)
    ensures TargetPath(Head("\"" + rest)) == None
  {
    FirstPiece("\"", rest);
    NoTarget(Head(rest));
  }

  lemma QuotedIsNotPlain(git: Git, path: string)
    requires git.NeedsQuotes(git.prefix + path)
    ensures !PlainName(git, path)
  {
    SpecialIn(git, git.prefix, path);
    assert git.prefix == "b/" ==> !git.NeedsQuotes(git.prefix);
  }

  lemma QuoteFirst(git: Git, path: string) returns (rest: string)
    requires git.NeedsQuotes(git.prefix + path)
    ensures Shown(git, path) == "\"" + rest
  {
    var spelt := git.escape(git.prefix + path) + "\"";
    var end := if ' ' in "\"" + spelt then "\t" else "";
    Prepend("\"", spelt, end);
    rest := spelt + end;
  }

  lemma NoTarget(rest: string)
    ensures TargetPath("\"" + rest) == None
  {
    assert ("\"" + rest)[0] == '"' && "b/"[0] == 'b';
  }

  lemma ReadIsWhole(git: Git, path: string)
    ensures NameRead(git, path).Some? ==> Whole(NameRead(git, path).value)
  {
    CutsAreWhole(Shown(git, path) + "\n");
  }

  lemma WholePath(git: Git, path: string)
    requires !git.NeedsQuotes(git.prefix + path) && Whole(path)
    ensures TargetPath(Shown(git, path)) == Some(path) <==> PlainName(git, path)
  {
    var name := git.prefix + path;
    SpecialIn(git, git.prefix, path);
    if ' ' in name {
      SpacedPath(git, path);
    } else {
      StartsWithSplit(git.prefix, path);
      assert name + "" == name;
      assert TargetPath(name) == Some(path) ==> |git.prefix| == 2;
      assert TargetPath(name) == Some(path) ==> git.prefix == name[..2] == "b/";
    }
  }

  lemma EndsInTab(git: Git, name: string, path: string)
    requires TargetPath(name + "\t") == Some(path)
    ensures git.NeedsQuotes(path)
  {
    assert (name + "\t")[1] == "b/"[1];
    assert path == name[2..] + "\t";
    assert git.Special(path[|path| - 1]);
  }

  lemma SpacedPath(git: Git, path: string)
    requires !git.NeedsQuotes(git.prefix + path) && ' ' in git.prefix + path
    ensures TargetPath(Shown(git, path)) != Some(path) && !PlainName(git, path)
  {
    var name := git.prefix + path;
    SpecialIn(git, git.prefix, path);
    assert Shown(git, path) == name + "\t";
    if TargetPath(name + "\t") == Some(path) { EndsInTab(git, name, path); }
    assert ' ' in git.prefix || ' ' in path;
    assert ' ' !in "b/";
  }

  /** Quotes, backslashes and control characters put a name in quotes; characters beyond ASCII do so
      under the default setting; nothing else does. */
  lemma QuotedFor(git: Git, name: string)
    ensures git.NeedsQuotes(name) <==>
              exists i :: && 0 <= i < |name|
                          && (|| name[i] in {'"', '\\', '\U{7F}'} || name[i] < ' '
                              || (git.quoteHigh && name[i] > '\U{7F}'))
  {
  }

  /** With the default settings every name line is one line. */
  lemma NameIsQuiet(git: Git, path: string)
    requires git.Valid() && git.quoteHigh && Whole(git.escape(git.prefix + path))
    ensures Quiet(Shown(git, path))
  {
    var name := git.prefix + path;
    if git.NeedsQuotes(name) {
      WholeConcat(git.escape(name), "\"");
      WholeConcat("\"", git.escape(name) + "\"");
    } else {
      forall i | 0 <= i < |name| ensures !IsBreak(name[i]) {
        assert !git.Special(name[i]);
      }
    }
    var spelt := if git.NeedsQuotes(name) then "\"" + (git.escape(name) + "\"") else name;
    WholeConcat(spelt, if ' ' in spelt then "\t" else "");
    OnePiece(Shown(git, path));
  }

  // ------------------------------------------------------------ the pieces of one hunk

  lemma {:induction false} NoPlusBefore(a: string, rest: string)
    requires forall i :: 0 <= i < |a| ==> a[i] != '+'
    ensures PlusNumber(a + rest) == PlusNumber(rest)
  {
    if a == "" {
      assert a + rest == rest;
    } else {
      NoPlusBefore(a[1..], rest);
      assert (a + rest)[1..] == a[1..] + rest;
    }
  }

  lemma {:induction false} LeadOf(digits: string, rest: string)
    requires forall i :: 0 <= i < |digits| ==> IsDigit(digits[i])
    requires rest != "" && !IsDigit(rest[0])
    ensures LeadDigits(digits + rest) == |digits|
  {
    if digits == "" {
      assert digits + rest == rest;
    } else {
      LeadOf(digits[1..], rest);
      assert (digits + rest)[1..] == digits[1..] + rest;
    }
  }

  /** A plus sign with a digit after it. */
  predicate PlusDigitAt(line: string, i: nat) { i + 1 < |line| && line[i] == '+' && IsDigit(line[i + 1]) }

  /** The number found is the whole numeral after the first plus sign that has a digit after it. */
  lemma {:induction false} FirstPlusNumber(line: string, i: nat)
    requires PlusDigitAt(line, i) && forall j: nat :: j < i ==> !PlusDigitAt(line, j)
    ensures var text := line[i + 1..]; PlusNumber(line) == Some(Value(text[..LeadDigits(text)]))
    decreases |line|
  {
    if i > 0 {
      forall j: nat | j < i - 1 ensures !PlusDigitAt(line[1..], j) { assert !PlusDigitAt(line, j + 1); }
      assert !PlusDigitAt(line, 0);
      FirstPlusNumber(line[1..], i - 1);
      assert line[1..][i..] == line[i + 1..];
    }
  }

  lemma {:induction false} NoPlusNumber(line: string)
    requires forall j: nat :: !PlusDigitAt(line, j)
    ensures PlusNumber(line) == None
  {
    if line != "" {
      forall j: nat ensures !PlusDigitAt(line[1..], j) { assert !PlusDigitAt(line, j + 1); }
      assert !PlusDigitAt(line, 0);
      NoPlusNumber(line[1..]);
    }
  }

  lemma PlusThenNumber(n: nat, rest: string)
    requires rest != "" && !IsDigit(rest[0])
    ensures PlusNumber("+" + (Decimal(n) + rest)) == Some(n)
  {
    var line := "+" + (Decimal(n) + rest);
    LeadOf(Decimal(n), rest);
    assert line[1..] == Decimal(n) + rest;
    assert line[1..][..|Decimal(n)|] == Decimal(n);
    ReadBack(n);
  }

  /** Whatever heading follows, the header's number is the start of the added lines. */
  lemma NumberOfHeader(h: Hunk, heading: string)
    ensures PlusNumber(Numbers(h) + heading) == Some(h.newStart)
    ensures StartsWith(Numbers(h) + heading, "@@") && !StartsWith(Numbers(h) + heading, "+++ ")
  {
    var lead := "@@ -" + Range(h.oldStart, |h.removed|) + " ";
    var count := if |h.added| == 1 then "" else "," + Decimal(|h.added|);
    var tail := " @@" + heading;
    NoPlusBefore(lead, "+" + Range(h.newStart, |h.added|) + tail);
    Regroup(lead, "+" + Range(h.newStart, |h.added|), " @@", heading);
    RegroupNumber("+", Decimal(h.newStart), count, tail);
    PlusThenNumber(h.newStart, count + tail);
  }

  lemma RegroupNumber(plus: string, digits: string, count: string, tail: string)
    ensures (plus + (digits + count)) + tail == plus + (digits + (count + tail))
  {
  }

  lemma RangeIsWhole(start: nat, count: nat)
    ensures Whole(Range(start, count))
  {
    WholeConcat(Decimal(start), if count == 1 then "" else "," + Decimal(count));
  }

  lemma NumbersAreWhole(h: Hunk)
    ensures Whole(Numbers(h))
  {
    RangeIsWhole(h.oldStart, |h.removed|);
    RangeIsWhole(h.newStart, |h.added|);
    WholeConcat("+" + Range(h.newStart, |h.added|), " @@");
    WholeConcat("@@ -" + Range(h.oldStart, |h.removed|), " ");
  }

  /** The pieces of a hunk between the numbers and the added lines. */
  function Aside(h: Hunk): seq<string> { Tail(h.heading) + (Pieces(Prefixed('-', h.removed)) + Remark(h.oldCut)) }

  function Header(h: Hunk): string { Numbers(h) + Head(h.heading) }

  lemma PieceOfWhole(line: string)
    requires Whole(line)
    ensures Pieces([line]) == [line]
  {
    CutLine(line, "\n", "");
    assert "\n" + "" == "\n";
  }

  lemma RemarkPieces(cut: bool)
    ensures Pieces(Remark(cut)) == Remark(cut)
  {
    if cut { PieceOfWhole(Remark(cut)[0]); }
  }

  lemma HeaderPieces(h: Hunk)
    ensures Pieces([Numbers(h) + h.heading]) == [Header(h)] + Tail(h.heading)
  {
    NumbersAreWhole(h);
    FirstPiece(Numbers(h), h.heading);
    assert Pieces([Numbers(h) + h.heading]) == Cut((Numbers(h) + h.heading) + "\n");
  }

  lemma HunkPieces(h: Hunk)
    ensures Pieces(PrintHunk(h))
         == [Header(h)] + (Aside(h) + (Pieces(Prefixed('+', h.added)) + Remark(h.newCut)))
  {
    var ends := Prefixed('+', h.added) + Remark(h.newCut);
    PiecesConcat([Numbers(h) + h.heading], Prefixed('-', h.removed) + (Remark(h.oldCut) + ends));
    PiecesConcat(Prefixed('-', h.removed), Remark(h.oldCut) + ends);
    PiecesConcat(Remark(h.oldCut), ends);
    PiecesConcat(Prefixed('+', h.added), Remark(h.newCut));
    HeaderPieces(h);
    RemarkPieces(h.oldCut);
    RemarkPieces(h.newCut);
    Flat([Header(h)], Tail(h.heading), Pieces(Prefixed('-', h.removed)), Remark(h.oldCut), Pieces(ends));
  }

  lemma Flat<T>(a: seq<T>, b: seq<T>, c: seq<T>, d: seq<T>, e: seq<T>)
    ensures (a + b) + (c + (d + e)) == a + ((b + (c + d)) + e)
  {
  }

  lemma IdleMark(line: string)
    requires line != "" && line[0] != '+' && line[0] != '@'
    ensures Idle(line)
  {
    assert "+"[0] == '+' && "@@"[0] == '@';
  }

  lemma IdleConcat(a: seq<string>, b: seq<string>)
    ensures AllIdle(a + b) <==> AllIdle(a) && AllIdle(b)
  {
    assert (a + b)[..|a|] == a && (a + b)[|a|..] == b;
  }

  lemma MinusPieces(removed: seq<string>) returns (first: string)
    requires removed != []
    ensures Pieces(Prefixed('-', removed)) == ([first] + Tail(removed[0])) + Pieces(Prefixed('-', removed[1..]))
    ensures AllIdle([first])
  {
    assert Prefixed('-', removed)[0] == "-" + removed[0];
    assert Prefixed('-', removed)[1..] == Prefixed('-', removed[1..]);
    FirstPiece("-", removed[0]);
    first := "-" + Head(removed[0]);
    IdleMark(first);
  }

  lemma {:induction false} RemovedIdleIff(removed: seq<string>)
    ensures AllIdle(Pieces(Prefixed('-', removed))) <==> QuietLines(removed)
  {
    if removed != [] {
      var first := MinusPieces(removed);
      IdleConcat([first], Tail(removed[0]));
      IdleConcat([first] + Tail(removed[0]), Pieces(Prefixed('-', removed[1..])));
      RemovedIdleIff(removed[1..]);
      QuietSplit(removed);
    }
  }

  lemma QuietSplit(lines: seq<string>)
    requires lines != []
    ensures QuietLines(lines) <==> Quiet(lines[0]) && QuietLines(lines[1..])
  {
    assert lines == [lines[0]] + lines[1..];
  }

  lemma AsideIdleIff(h: Hunk)
    ensures AllIdle(Aside(h)) <==> QuietHunk(h)
  {
    IdleConcat(Tail(h.heading), Pieces(Prefixed('-', h.removed)) + Remark(h.oldCut));
    IdleConcat(Pieces(Prefixed('-', h.removed)), Remark(h.oldCut));
    RemovedIdleIff(h.removed);
    IdleMark("\\ No newline at end of file");
  }

  // ------------------------------------------------------------ reading one hunk

  lemma {:induction false} ReadIdle(s: State, lines: seq<string>)
    requires AllIdle(lines)
    ensures Parse(s, lines) == [] && After(s, lines) == s
  {
    if lines != [] { ReadIdle(s, lines[1..]); }
  }

  lemma ReadRemark(s: State, cut: bool)
    ensures Parse(s, Remark(cut)) == [] && After(s, Remark(cut)) == s
  {
    IdleMark("\\ No newline at end of file");
    ReadIdle(s, Remark(cut));
  }

  lemma PlusLine(text: string)
    ensures StartsWith("+" + text, "+++ ") <==> StartsWith(text, "++ ")
    ensures !StartsWith("+" + text, "@@") && StartsWith("+" + text, "+") && ("+" + text)[1..] == text
  {
    var line, mark := "+" + text, "+++ ";
    assert forall i :: 0 <= i < 3 ==> "++ "[i] == mark[i + 1];
    assert "@@"[0] == '@';
    if StartsWith(line, mark) {
      assert forall i :: 0 <= i < 3 ==> text[i] == line[i + 1];
    }
  }

  lemma PlusPiece(line: string)
    requires Whole(Chomp(line))
    ensures Cut((['+'] + line) + "\n") == ["+" + Chomp(line)]
  {
    var end := LineEnd(line);
    WholeConcat("+", Chomp(line));
    CutLine("+" + Chomp(line), end, "");
    RegroupEnd("+", Chomp(line), end, line, "\n");
  }

  /** A line and its line feed are its text and its end. */
  lemma LineEnd(line: string) returns (end: string)
    ensures line + "\n" == Chomp(line) + end && Ends(end, "")
  {
    if Chomp(line) == line {
      end := "\n";
    } else {
      end := "\r\n";
      assert line == Chomp(line) + "\r";
      Prepend(Chomp(line), "\r", "\n");
    }
  }

  lemma RegroupEnd(mark: string, text: string, end: string, line: string, feed: string)
    requires line + feed == text + end
    ensures (mark + line) + feed == (mark + text) + (end + "")
  {
    Prepend(mark, line, feed);
    Prepend(mark, text, end);
  }

  lemma PlusPieces(lines: seq<string>)
    requires lines != [] && Whole(Chomp(lines[0]))
    ensures Pieces(Prefixed('+', lines)) == ["+" + Chomp(lines[0])] + Pieces(Prefixed('+', lines[1..]))
  {
    assert Prefixed('+', lines)[0] == ['+'] + lines[0];
    assert Prefixed('+', lines)[1..] == Prefixed('+', lines[1..]);
    PlusPiece(lines[0]);
  }

  function NumberedIn(s: State, lines: seq<string>): seq<Added> {
    if s.path.Some? then Numbered(s.path.value, s.lineno, lines) else []
  }

  lemma YieldPlus(s: State, text: string)
    requires Visible(text)
    ensures Yield(s, "+" + text) == if s.path.Some? then [Added(s.path.value, s.lineno, text)] else []
    ensures Next(s, "+" + text) == if s.path.Some? then s.(lineno := s.lineno + 1) else s
  {
    PlusLine(text);
  }

  lemma ReadPlus(s: State, lines: seq<string>, line: string)
    requires lines != [] && Visible(Chomp(lines[0])) && line == "+" + Chomp(lines[0])
    ensures NumberedIn(s, lines) == Yield(s, line) + NumberedIn(Next(s, line), lines[1..])
    ensures Next(s, line).path == s.path
  {
    YieldPlus(s, Chomp(lines[0]));
    if s.path.Some? { NumberedStep(s.path.value, s.lineno, lines); }
  }

  lemma NumberedStep(path: string, lineno: nat, lines: seq<string>)
    requires lines != []
    ensures Numbered(path, lineno, lines)
         == [Added(path, lineno, Chomp(lines[0]))] + Numbered(path, lineno + 1, lines[1..])
  {
  }

  lemma {:induction false} ReadAdded(s: State, lines: seq<string>)
    requires VisibleLines(lines)
    ensures Parse(s, Pieces(Prefixed('+', lines))) == NumberedIn(s, lines)
    ensures After(s, Pieces(Prefixed('+', lines))).path == s.path
    decreases |lines|
  {
    if lines != [] {
      var line := "+" + Chomp(lines[0]);
      PlusPieces(lines);
      ReadPlus(s, lines, line);
      ReadFirst(s, line, Pieces(Prefixed('+', lines[1..])));
      ReadAdded(Next(s, line), lines[1..]);
    }
  }

  lemma ReadFirst(s: State, line: string, lines: seq<string>)
    ensures Parse(s, [line] + lines) == Yield(s, line) + Parse(Next(s, line), lines)
    ensures After(s, [line] + lines) == After(Next(s, line), lines)
  {
    assert ([line] + lines)[1..] == lines;
  }

  lemma ReadHunk(s: State, h: Hunk)
    requires QuietHunk(h) && VisibleLines(h.added)
    ensures Parse(s, Pieces(PrintHunk(h))) == NumberedIn(s.(lineno := h.newStart), h.added)
    ensures After(s, Pieces(PrintHunk(h))).path == s.path
  {
    var at := s.(lineno := h.newStart);
    var added := Pieces(Prefixed('+', h.added));
    HunkPieces(h);
    ReadHeader(s, h, Aside(h) + (added + Remark(h.newCut)));
    AsideIdleIff(h);
    ReadIdle(at, Aside(h));
    ParseConcat(at, Aside(h), added + Remark(h.newCut));
    ReadAdded(at, h.added);
    ParseConcat(at, added, Remark(h.newCut));
    ReadRemark(After(at, added), h.newCut);
  }

  lemma ReadHeader(s: State, h: Hunk, lines: seq<string>)
    ensures Parse(s, [Header(h)] + lines) == Parse(s.(lineno := h.newStart), lines)
    ensures After(s, [Header(h)] + lines) == After(s.(lineno := h.newStart), lines)
  {
    NumberOfHeader(h, Head(h.heading));
    ReadFirst(s, Header(h), lines);
  }

  lemma {:induction false} ReadHunks(s: State, hunks: seq<Hunk>)
    requires VisibleHunks(hunks) && forall i :: 0 <= i < |hunks| ==> QuietHunk(hunks[i])
    ensures Parse(s, Pieces(PrintHunks(hunks))) == if s.path.Some? then AddedByHunks(s.path.value, hunks) else []
    decreases |hunks|
  {
    if hunks != [] {
      var first, more := PrintHunk(hunks[0]), PrintHunks(hunks[1..]);
      ReadHunk(s, hunks[0]);
      ReadHunks(After(s, Pieces(first)), hunks[1..]);
      PiecesConcat(first, more);
      ParseConcat(s, Pieces(first), Pieces(more));
    }
  }

  // ------------------------------------------------------------ reading whole diffs

  lemma ReadFile(s: State, git: Git, f: FileDiff)
    requires QuietFile(git, f) && VisibleHunks(f.hunks)
    ensures var name := NameRead(git, f.path);
            Parse(s, Pieces(PrintFile(git, f))) == if name.Some? then AddedByHunks(name.value, f.hunks) else []
  {
    var name, hunks := "+++ " + Shown(git, f.path), PrintHunks(f.hunks);
    ReadIdle(s, Pieces(f.preamble));
    if f.hunks == [] {
      assert f.preamble + [] == f.preamble;
    } else {
      PiecesConcat(f.preamble, [name] + hunks);
      PiecesConcat([name], hunks);
      ParseConcat(s, Pieces(f.preamble), Pieces([name]) + Pieces(hunks));
      ReadNameLine(s, Shown(git, f.path), Pieces(hunks));
      ReadHunks(s.(path := NameRead(git, f.path)), f.hunks);
    }
  }

  lemma ReadName(s: State, name: string, lines: seq<string>)
    ensures Parse(s, ["+++ " + name] + lines) == Parse(s.(path := TargetPath(name)), lines)
  {
    StartsWithSplit("+++ ", name);
    ReadFirst(s, "+++ " + name, lines);
  }

  lemma ReadNameLine(s: State, shown: string, rest: seq<string>)
    requires Quiet(shown)
    ensures Parse(s, Pieces(["+++ " + shown]) + rest) == Parse(s.(path := TargetPath(Head(shown))), rest)
  {
    var at := s.(path := TargetPath(Head(shown)));
    NameLinePieces(shown);
    Prepend(["+++ " + Head(shown)], Tail(shown), rest);
    ReadName(s, Head(shown), Tail(shown) + rest);
    ReadIdle(at, Tail(shown));
    ParseConcat(at, Tail(shown), rest);
  }

  lemma NameLinePieces(shown: string)
    ensures Pieces(["+++ " + shown]) == ["+++ " + Head(shown)] + Tail(shown)
  {
    FirstPiece("+++ ", shown);
    assert Pieces(["+++ " + shown]) == Cut(("+++ " + shown) + "\n") + [];
  }

  lemma FirstFile(s: State, git: Git, files: seq<FileDiff>)
    requires files != []
    ensures var first, more := Pieces(PrintFile(git, files[0])), Pieces(PrintDiff(git, files[1..]));
            Parse(s, Pieces(PrintDiff(git, files))) == Parse(s, first) + Parse(After(s, first), more)
  {
    PiecesConcat(PrintFile(git, files[0]), PrintDiff(git, files[1..]));
    ParseConcat(s, Pieces(PrintFile(git, files[0])), Pieces(PrintDiff(git, files[1..])));
  }

  lemma {:induction false} NothingAdded(path: string, hunks: seq<Hunk>)
    ensures AddedByHunks(path, hunks) == [] <==> forall i :: 0 <= i < |hunks| ==> hunks[i].added == []
  {
    if hunks != [] {
      NothingAdded(path, hunks[1..]);
      assert hunks == [hunks[0]] + hunks[1..];
      assert |Numbered(path, hunks[0].newStart, hunks[0].added)| == |hunks[0].added|;
    }
  }

  lemma ReadFileShown(s: State, git: Git, f: FileDiff)
    requires git.Valid() && QuietFile(git, f) && VisibleHunks(f.hunks) && NameShown(git, f)
    ensures Parse(s, Pieces(PrintFile(git, f))) == AddedByHunks(f.path, f.hunks)
  {
    ReadFile(s, git, f);
    PlainNameIff(git, f.path);
    if !PlainName(git, f.path) {
      NothingAdded(f.path, f.hunks);
      if NameRead(git, f.path).Some? { NothingAdded(NameRead(git, f.path).value, f.hunks); }
    }
  }

  lemma {:induction false} ReadDiff(s: State, git: Git, files: seq<FileDiff>)
    requires git.Valid() && QuietFiles(git, files) && VisibleFiles(files) && NamesShown(git, files)
    ensures Parse(s, Pieces(PrintDiff(git, files))) == AddedIn(files)
    decreases |files|
  {
    if files != [] {
      ReadFileShown(s, git, files[0]);
      FirstFile(s, git, files);
      ReadDiff(After(s, Pieces(PrintFile(git, files[0]))), git, files[1..]);
    }
  }

  // ------------------------------------------------------------ what is read back

  predicate AllVisible(found: seq<Added>) { forall i :: 0 <= i < |found| ==> Visible(found[i].text) }

  lemma VisibleConcat(a: seq<Added>, b: seq<Added>)
    ensures AllVisible(a + b) <==> AllVisible(a) && AllVisible(b)
  {
    assert (a + b)[..|a|] == a && (a + b)[|a|..] == b;
  }

  lemma YieldIsVisible(s: State, line: string)
    requires Whole(line)
    ensures AllVisible(Yield(s, line))
  {
    if Yield(s, line) != [] {
      assert "+"[0] == '+';
      assert line == "+" + line[1..];
      PlusLine(line[1..]);
    }
  }

  lemma {:induction false} YieldsAreVisible(s: State, lines: seq<string>)
    requires forall i :: 0 <= i < |lines| ==> Whole(lines[i])
    ensures AllVisible(Parse(s, lines))
    decreases |lines|
  {
    if lines != [] {
      YieldIsVisible(s, lines[0]);
      YieldsAreVisible(Next(s, lines[0]), lines[1..]);
      VisibleConcat(Yield(s, lines[0]), Parse(Next(s, lines[0]), lines[1..]));
    }
  }

  lemma NumberedVisible(path: string, lineno: nat, lines: seq<string>)
    ensures AllVisible(Numbered(path, lineno, lines)) <==> VisibleLines(lines)
  {
    var found := Numbered(path, lineno, lines);
    assert |found| == |lines| && forall i :: 0 <= i < |lines| ==> found[i].text == Chomp(lines[i]);
  }

  lemma {:induction false} HunksVisible(path: string, hunks: seq<Hunk>)
    ensures AllVisible(AddedByHunks(path, hunks)) <==> VisibleHunks(hunks)
  {
    if hunks != [] {
      var h := hunks[0];
      NumberedVisible(path, h.newStart, h.added);
      HunksVisible(path, hunks[1..]);
      VisibleConcat(Numbered(path, h.newStart, h.added), AddedByHunks(path, hunks[1..]));
      assert hunks == [h] + hunks[1..];
    }
  }

  lemma {:induction false} FilesVisible(files: seq<FileDiff>)
    ensures AllVisible(AddedIn(files)) <==> VisibleFiles(files)
  {
    if files != [] {
      var f := files[0];
      HunksVisible(f.path, f.hunks);
      FilesVisible(files[1..]);
      VisibleConcat(AddedByHunks(f.path, f.hunks), AddedIn(files[1..]));
      assert files == [f] + files[1..];
    }
  }

  lemma ReadIsVisible(output: string)
    ensures AllVisible(ReadOutput(output))
  {
    CutsAreWhole(AsText(output));
    YieldsAreVisible(START, Cut(AsText(output)));
  }

  /** Whatever else a diff holds, an added line with a separator inside, or one that begins with
      "++ ", is not read back. */
  lemma HiddenIsLost(git: Git, files: seq<FileDiff>)
    requires !VisibleFiles(files)
    ensures !ReadsBack(git, files)
  {
    ReadIsVisible(Output(git, files));
    FilesVisible(files);
  }

  lemma {:induction false} SameCount(p: string, q: string, hunks: seq<Hunk>)
    ensures |AddedByHunks(p, hunks)| == |AddedByHunks(q, hunks)|
  {
    if hunks != [] {
      SameCount(p, q, hunks[1..]);
    }
  }

  lemma {:induction false} HunksOfPath(path: string, hunks: seq<Hunk>)
    ensures forall i :: 0 <= i < |AddedByHunks(path, hunks)| ==> AddedByHunks(path, hunks)[i].path == path
  {
    if hunks != [] { HunksOfPath(path, hunks[1..]); }
  }

  lemma FileCount(s: State, git: Git, f: FileDiff)
    requires QuietFile(git, f) && VisibleHunks(f.hunks)
    ensures |Parse(s, Pieces(PrintFile(git, f)))| <= |AddedByHunks(f.path, f.hunks)|
  {
    var name := NameRead(git, f.path);
    ReadFile(s, git, f);
    if name.Some? { SameCount(name.value, f.path, f.hunks); }
  }

  lemma FileNamed(s: State, git: Git, f: FileDiff)
    requires git.Valid() && QuietFile(git, f) && VisibleHunks(f.hunks)
    requires Parse(s, Pieces(PrintFile(git, f))) == AddedByHunks(f.path, f.hunks)
    ensures NameShown(git, f)
  {
    var name := NameRead(git, f.path);
    var found := AddedByHunks(f.path, f.hunks);
    ReadFile(s, git, f);
    PlainNameIff(git, f.path);
    NothingAdded(f.path, f.hunks);
    if found != [] {
      HunksOfPath(f.path, f.hunks);
      if name.Some? { HunksOfPath(name.value, f.hunks); }
      assert found[0].path == f.path;
    }
  }

  lemma {:induction false} DiffCount(s: State, git: Git, files: seq<FileDiff>)
    requires QuietFiles(git, files) && VisibleFiles(files)
    ensures |Parse(s, Pieces(PrintDiff(git, files)))| <= |AddedIn(files)|
    decreases |files|
  {
    if files != [] {
      FileCount(s, git, files[0]);
      FirstFile(s, git, files);
      DiffCount(After(s, Pieces(PrintFile(git, files[0]))), git, files[1..]);
    }
  }

  lemma Align<T>(a: seq<T>, b: seq<T>, c: seq<T>, d: seq<T>)
    requires a + b == c + d && |a| <= |c| && |b| <= |d|
    ensures a == c && b == d
  {
    assert |a + b| == |c + d|;
    assert a == (a + b)[..|a|] && c == (c + d)[..|a|] && b == (a + b)[|a|..] && d == (c + d)[|a|..];
  }

  lemma {:induction false} FilesNamed(s: State, git: Git, files: seq<FileDiff>)
    requires git.Valid() && QuietFiles(git, files) && VisibleFiles(files)
    requires Parse(s, Pieces(PrintDiff(git, files))) == AddedIn(files)
    ensures NamesShown(git, files)
    decreases |files|
  {
    if files != [] {
      FirstRead(s, git, files);
      FileNamed(s, git, files[0]);
      FilesNamed(After(s, Pieces(PrintFile(git, files[0]))), git, files[1..]);
      NamesSplit(git, files);
    }
  }

  lemma NamesSplit(git: Git, files: seq<FileDiff>)
    requires files != [] && NameShown(git, files[0]) && NamesShown(git, files[1..])
    ensures NamesShown(git, files)
  {
    forall i | 0 <= i < |files| ensures NameShown(git, files[i]) {
      assert i > 0 ==> files[i] == files[1..][i - 1];
    }
  }

  lemma FirstRead(s: State, git: Git, files: seq<FileDiff>)
    requires git.Valid() && QuietFiles(git, files) && VisibleFiles(files) && files != []
    requires Parse(s, Pieces(PrintDiff(git, files))) == AddedIn(files)
    ensures var first := Pieces(PrintFile(git, files[0]));
            && Parse(s, first) == AddedByHunks(files[0].path, files[0].hunks)
            && Parse(After(s, first), Pieces(PrintDiff(git, files[1..]))) == AddedIn(files[1..])
  {
    var f := files[0];
    var first, more := Pieces(PrintFile(git, f)), Pieces(PrintDiff(git, files[1..]));
    FirstFile(s, git, files);
    FileCount(s, git, f);
    DiffCount(After(s, first), git, files[1..]);
    Align(Parse(s, first), Parse(After(s, first), more), AddedByHunks(f.path, f.hunks), AddedIn(files[1..]));
  }

  /** Over quiet lines, reading a printed diff gives back exactly the lines it adds, with their files
      and their numbers, if and only if every added line is visible and every file with added lines
      has a plain name. */
  lemma ReadsBackIff(git: Git, files: seq<FileDiff>)
    requires git.Valid() && QuietFiles(git, files)
    ensures ReadsBack(git, files) <==> VisibleFiles(files) && NamesShown(git, files)
  {
    ReadPieces(git, files);
    if !VisibleFiles(files) {
      HiddenIsLost(git, files);
    } else if NamesShown(git, files) {
      ReadDiff(START, git, files);
    } else if ReadsBack(git, files) {
      FilesNamed(START, git, files);
    }
  }

  // ------------------------------------------------------------ the lines nothing is read from

  function OneHunk(path: string, removed: seq<string>, heading: string, n: nat, text: string): FileDiff {
    FileDiff([], path, [Hunk(n, removed, false, n, [text], false, heading)])
  }

  /** However the file is named and numbered, one visible line added after these is read back. */
  ghost predicate Harmless(git: Git, removed: seq<string>, heading: string) {
    forall path, n, text | PlainName(git, path) && Visible(text) ::
      ReadsBack(git, [OneHunk(path, removed, heading, n, text)])
  }

  function Longest(lines: seq<string>): (n: nat)
    ensures forall i :: 0 <= i < |lines| ==> |lines[i]| <= n
  {
    if lines == [] then 0 else
      var n := Longest(lines[1..]);
      if n < |lines[0]| then |lines[0]| else n
  }

  lemma {:induction false} StaysOff(s: State, lines: seq<string>, path: string)
    requires s.path != Some(path) && forall i :: 0 <= i < |lines| ==> |lines[i]| <= |path|
    ensures After(s, lines).path != Some(path)
    decreases |lines|
  {
    if lines != [] { StaysOff(Next(s, lines[0]), lines[1..], path); }
  }

  /** If nothing was read and the name stayed, none of the lines begins with a plus sign. */
  lemma {:induction false} NoPlusLine(s: State, lines: seq<string>, path: string)
    requires s.path == Some(path) == After(s, lines).path && Parse(s, lines) == []
    requires forall i :: 0 <= i < |lines| ==> |lines[i]| <= |path|
    ensures forall i :: 0 <= i < |lines| ==> !StartsWith(lines[i], "+")
    decreases |lines|
  {
    if lines != [] {
      if StartsWith(lines[0], "+++ ") {
        StaysOff(Next(s, lines[0]), lines[1..], path);
      } else {
        assert "@@"[0] == '@' && "+"[0] == '+';
        NoPlusLine(Next(s, lines[0]), lines[1..], path);
      }
    }
  }

  lemma {:induction false} NumberForgotten(s: State, t: State, lines: seq<string>)
    requires s.path == t.path && !AllIdle(lines)
    requires forall i :: 0 <= i < |lines| ==> !StartsWith(lines[i], "+")
    ensures After(s, lines) == After(t, lines)
    decreases |lines|
  {
    assert "+++ "[0] == "+"[0];
    if Idle(lines[0]) {
      NumberForgotten(s, t, lines[1..]);
    } else {
      assert Next(s, lines[0]) == Next(t, lines[0]);
    }
  }

  lemma {:induction false} ShortTexts(s: State, lines: seq<string>, n: nat)
    requires forall i :: 0 <= i < |lines| ==> |lines[i]| <= n
    ensures forall i :: 0 <= i < |Parse(s, lines)| ==> |Parse(s, lines)[i].text| < n
    decreases |lines|
  {
    if lines != [] { ShortTexts(Next(s, lines[0]), lines[1..], n); }
  }

  /** A line long enough is told apart from all that these lines make the reader say. */
  lemma OnlyTheLine(s: State, lines: seq<string>, path: string, text: string)
    requires s.path == Some(path) && Visible(text)
    requires forall i :: 0 <= i < |lines| ==> |lines[i]| <= |path| && |lines[i]| <= |text|
    requires Parse(s, lines + ["+" + text]) == [Added(path, s.lineno, text)]
    ensures After(s, lines) == s && forall i :: 0 <= i < |lines| ==> !StartsWith(lines[i], "+")
  {
    var before, last := Parse(s, lines), Yield(After(s, lines), "+" + text);
    ParseLast(s, lines, "+" + text);
    YieldPlus(After(s, lines), text);
    ShortTexts(s, lines, |text|);
    NoneBefore(before, last, text);
    NoPlusLine(s, lines, path);
  }

  lemma ParseLast(s: State, lines: seq<string>, line: string)
    ensures Parse(s, lines + [line]) == Parse(s, lines) + Yield(After(s, lines), line)
  {
    ParseConcat(s, lines, [line]);
    assert [line] + [] == [line];
    ReadFirst(After(s, lines), line, []);
  }

  lemma NoneBefore(before: seq<Added>, last: seq<Added>, text: string)
    requires |before + last| == 1 && (before + last)[0].text == text
    requires forall i :: 0 <= i < |before| ==> |before[i].text| < |text|
    ensures before == [] && before + last == last
  {
    assert (before + last)[..|before|] == before;
  }

  /** Of two numbers the lines before can keep at most one. */
  lemma Spoiled(lines: seq<string>, path: string, text: string)
    requires !AllIdle(lines) && Visible(text)
    requires forall i :: 0 <= i < |lines| ==> |lines[i]| <= |path| && |lines[i]| <= |text|
    ensures exists n: nat ::
              Parse(State(Some(path), n), lines + ["+" + text]) != [Added(path, n, text)]
  {
    if forall n: nat :: Parse(State(Some(path), n), lines + ["+" + text]) == [Added(path, n, text)] {
      OnlyTheLine(State(Some(path), 0), lines, path, text);
      OnlyTheLine(State(Some(path), 1), lines, path, text);
      NumberForgotten(State(Some(path), 0), State(Some(path), 1), lines);
    }
  }

  /** A diff of one hunk, read: what stands aside, then the added lines. */
  lemma ReadNamedHunk(git: Git, path: string, h: Hunk)
    requires git.Valid() && PlainName(git, path)
    ensures ReadOutput(Output(git, [FileDiff([], path, [h])]))
         == Parse(State(Some(path), h.newStart), Aside(h) + (Pieces(Prefixed('+', h.added)) + Remark(h.newCut)))
  {
    var f := FileDiff([], path, [h]);
    var name := "+++ " + Shown(git, path);
    ReadPieces(git, [f]);
    PrintedAlone(git, f, h);
    PiecesConcat([name], PrintHunk(h));
    PlainNameIff(git, path);
    ReadNameLine(START, Shown(git, path), Pieces(PrintHunk(h)));
    HunkPieces(h);
    ReadHeader(State(Some(path), 0), h, Aside(h) + (Pieces(Prefixed('+', h.added)) + Remark(h.newCut)));
  }

  lemma ReadOneHunk(git: Git, path: string, removed: seq<string>, heading: string, n: nat, text: string)
    requires git.Valid() && PlainName(git, path) && Visible(text)
    ensures var f := OneHunk(path, removed, heading, n, text);
            && ReadOutput(Output(git, [f])) == Parse(State(Some(path), n), Aside(f.hunks[0]) + ["+" + text])
            && AddedIn([f]) == [Added(path, n, text)]
  {
    var f := OneHunk(path, removed, heading, n, text);
    ReadNamedHunk(git, path, f.hunks[0]);
    PlusPieces([text]);
    assert Pieces(Prefixed('+', [text])) + Remark(false) == ["+" + text];
    AddedAlone(f, f.hunks[0], text);
  }

  lemma PrintedAlone(git: Git, f: FileDiff, h: Hunk)
    requires f.preamble == [] && f.hunks == [h]
    ensures PrintDiff(git, [f]) == ["+++ " + Shown(git, f.path)] + PrintHunk(h)
  {
    assert PrintHunks([h]) == PrintHunk(h) + PrintHunks([]) == PrintHunk(h);
    assert PrintDiff(git, [f]) == PrintFile(git, f) + PrintDiff(git, []) == PrintFile(git, f);
  }

  lemma AddedAlone(f: FileDiff, h: Hunk, text: string)
    requires f.hunks == [h] && h.added == [text] && Visible(text)
    ensures AddedIn([f]) == [Added(f.path, h.newStart, text)]
  {
    assert AddedByHunks(f.path, [h]) == Numbered(f.path, h.newStart, [text]) + AddedByHunks(f.path, []);
    assert AddedIn([f]) == AddedByHunks(f.path, [h]) + AddedIn([]);
  }

  lemma QuietReadsBack(git: Git, path: string, removed: seq<string>, heading: string, n: nat, text: string)
    requires git.Valid() && PlainName(git, path) && Visible(text) && Quiet(heading) && QuietLines(removed)
    ensures ReadsBack(git, [OneHunk(path, removed, heading, n, text)])
  {
    var f := OneHunk(path, removed, heading, n, text);
    ReadOneHunk(git, path, removed, heading, n, text);
    AsideIdleIff(f.hunks[0]);
    ReadIdle(State(Some(path), n), Aside(f.hunks[0]));
    ParseLast(State(Some(path), n), Aside(f.hunks[0]), "+" + text);
    YieldPlus(State(Some(path), n), text);
  }

  /** Lines taken out and a heading are quiet exactly when every added line is read back after them. */
  lemma QuietIff(git: Git, removed: seq<string>, heading: string)
    requires git.Valid() && git.prefix == "b/"
    ensures Quiet(heading) && QuietLines(removed) <==> Harmless(git, removed, heading)
  {
    if Quiet(heading) && QuietLines(removed) {
      forall path, n: nat, text | PlainName(git, path) && Visible(text)
        ensures ReadsBack(git, [OneHunk(path, removed, heading, n, text)])
      {
        QuietReadsBack(git, path, removed, heading, n, text);
      }
    } else {
      NotHarmless(git, removed, heading);
    }
  }

  function Long(n: nat): string { seq(n, i => 'x') }

  lemma LongIsPlain(git: Git, n: nat)
    requires git.prefix == "b/"
    ensures |Long(n)| == n && PlainName(git, Long(n)) && Visible(Long(n))
  {
    assert forall i :: 0 <= i < n ==> Long(n)[i] == 'x';
    assert "++ "[0] == '+';
  }

  lemma NotHarmless(git: Git, removed: seq<string>, heading: string)
    requires git.Valid() && git.prefix == "b/" && !(Quiet(heading) && QuietLines(removed))
    ensures !Harmless(git, removed, heading)
  {
    var aside := Aside(OneHunk("", removed, heading, 0, "").hunks[0]);
    AsideIdleIff(OneHunk("", removed, heading, 0, "").hunks[0]);
    var long := Long(Longest(aside));
    LongIsPlain(git, Longest(aside));
    Spoiled(aside, long, long);
    var n: nat :| Parse(State(Some(long), n), aside + ["+" + long]) != [Added(long, n, long)];
    ReadOneHunk(git, long, removed, heading, n, long);
    assert !ReadsBack(git, [OneHunk(long, removed, heading, n, long)]);
  }

  // ------------------------------------------------------------ diffs that are not read back

  /** An added line that begins with "++ " can hide itself and the rest of its hunk. */
  lemma HiddenHunk(s: State, h: Hunk, name: string, rest: seq<string>)
    requires QuietHunk(h) && h.added == ["++ " + name] + rest && VisibleLines(rest)
    requires Whole(name) && !StartsWith(name, "b/")
    ensures Parse(s, Pieces(PrintHunk(h))) == []
  {
    var at := s.(lineno := h.newStart);
    var ends := Pieces(Prefixed('+', rest)) + Remark(h.newCut);
    HunkPieces(h);
    HiddenPieces(name, rest);
    Prepend(["+++ " + name], Pieces(Prefixed('+', rest)), Remark(h.newCut));
    AsideIdleIff(h);
    ReadHeader(s, h, Aside(h) + (["+++ " + name] + ends));
    ReadIdle(at, Aside(h));
    ParseConcat(at, Aside(h), ["+++ " + name] + ends);
    ReadName(at, name, ends);
    ReadOff(at.(path := None), rest, h.newCut);
  }

  lemma HiddenPieces(name: string, rest: seq<string>)
    requires Whole(name)
    ensures Pieces(Prefixed('+', ["++ " + name] + rest)) == ["+++ " + name] + Pieces(Prefixed('+', rest))
  {
    assert ['+'] + ("++ " + name) == "+++ " + name;
    assert Prefixed('+', ["++ " + name] + rest) == ["+++ " + name] + Prefixed('+', rest);
    PiecesConcat(["+++ " + name], Prefixed('+', rest));
    WholeConcat("+++ ", name);
    PieceOfWhole("+++ " + name);
  }

  lemma ReadOff(s: State, added: seq<string>, cut: bool)
    requires s.path.None? && VisibleLines(added)
    ensures Parse(s, Pieces(Prefixed('+', added)) + Remark(cut)) == []
  {
    ReadAdded(s, added);
    ParseConcat(s, Pieces(Prefixed('+', added)), Remark(cut));
    ReadRemark(After(s, Pieces(Prefixed('+', added))), cut);
  }

  lemma ReadAlone(git: Git, f: FileDiff)
    requires QuietFile(git, f) && VisibleHunks(f.hunks)
    ensures var name := NameRead(git, f.path);
            ReadOutput(Output(git, [f])) == if name.Some? then AddedByHunks(name.value, f.hunks) else []
  {
    ReadPieces(git, [f]);
    FirstFile(START, git, [f]);
    ReadFile(START, git, f);
    assert [f][1..] == [];
  }

  /** The lines of a file whose name holds a space are read under a name with a tab at its end,
      which no skip list and no exception mentions. */
  lemma SpacedName(git: Git, f: FileDiff)
    requires git.prefix == "b/" && QuietFile(git, f) && VisibleHunks(f.hunks)
    requires !git.NeedsQuotes(f.path) && ' ' in f.path && Whole(f.path)
    ensures ReadOutput(Output(git, [f])) == AddedByHunks(f.path + "\t", f.hunks)
  {
    ShownSpaced(git, f.path);
    OnePiece("b/" + (f.path + "\t"));
    StartsWithSplit("b/", f.path + "\t");
    ReadAlone(git, f);
  }

  lemma ShownSpaced(git: Git, path: string)
    requires git.prefix == "b/" && !git.NeedsQuotes(path) && ' ' in path && Whole(path)
    ensures Shown(git, path) == "b/" + (path + "\t") && Whole("b/" + (path + "\t"))
  {
    SpecialIn(git, "b/", path);
    var i :| 0 <= i < |path| && path[i] == ' ';
    assert ("b/" + path)[i + 2] == ' ';
    assert !git.NeedsQuotes("b/");
    Prepend("b/", path, "\t");
    WholeConcat(path, "\t");
    WholeConcat("b/", path + "\t");
  }

  /** The lines of a file whose name stands in quotes are not read at all. */
  lemma QuotedName(git: Git, f: FileDiff)
    requires QuietFile(git, f) && VisibleHunks(f.hunks) && git.NeedsQuotes(f.path)
    ensures ReadOutput(Output(git, [f])) == []
  {
    SpecialIn(git, git.prefix, f.path);
    QuotedPath(git, f.path);
    ReadAlone(git, f);
  }

  const FORM_FEED := "\U{C}"

  /** Of an added line with a separator inside, what comes after it is not read. */
  lemma CutShort(git: Git, path: string, n: nat, a: string, b: string)
    requires git.Valid() && PlainName(git, path) && Visible(a) && Whole(b) && Idle(b)
    ensures ReadOutput(Output(git, [OneHunk(path, [], "", n, a + (FORM_FEED + b))])) == [Added(path, n, a)]
  {
    var line := a + (FORM_FEED + b);
    TwoPieces("+", a, b);
    ReadInTwo(git, path, n, line, "+" + a, b);
    ReadCut(State(Some(path), n), a, b);
  }

  lemma ReadInTwo(git: Git, path: string, n: nat, line: string, first: string, second: string)
    requires git.Valid() && PlainName(git, path) && Cut(("+" + line) + "\n") == [first, second]
    ensures ReadOutput(Output(git, [OneHunk(path, [], "", n, line)])) == Parse(State(Some(path), n), [first] + [second])
  {
    var h := OneHunk(path, [], "", n, line).hunks[0];
    ReadNamedHunk(git, path, h);
    NoTail();
    PiecesOfOne('+', line);
    assert Aside(h) + (Pieces(Prefixed('+', [line])) + Remark(false)) == [first] + [second];
  }

  lemma PiecesOfOne(mark: char, line: string)
    ensures Pieces(Prefixed(mark, [line])) == Cut(([mark] + line) + "\n")
  {
    assert Prefixed(mark, [line])[1..] == [];
  }

  lemma ReadCut(s: State, a: string, b: string)
    requires s.path.Some? && Visible(a) && Idle(b)
    ensures Parse(s, ["+" + a] + [b]) == [Added(s.path.value, s.lineno, a)]
  {
    ReadFirst(s, "+" + a, [b]);
    YieldPlus(s, a);
    ReadIdle(Next(s, "+" + a), [b]);
    assert Yield(s, "+" + a) + [] == Yield(s, "+" + a);
  }

  lemma NoTail()
    ensures Tail("") == []
  {
    PieceOfWhole("");
    assert "" + "\n" == "\n";
  }

  lemma TwoPieces(mark: string, a: string, b: string)
    requires Whole(mark) && Whole(a) && Whole(b)
    ensures Cut((mark + (a + (FORM_FEED + b))) + "\n") == [mark + a, b]
  {
    WholeConcat(mark, a);
    CutLine(mark + a, FORM_FEED, b + "\n");
    CutLine(b, "\n", "");
    RegroupTwo(mark, a, FORM_FEED, b, "\n");
    assert "\n" + "" == "\n";
  }

  lemma RegroupTwo(mark: string, a: string, end: string, b: string, feed: string)
    ensures (mark + (a + (end + b))) + feed == (mark + a) + (end + (b + feed))
  {
  }

  /** A removed line with a name line after a separator moves the added lines to that file. */
  lemma InjectedName(git: Git, path: string, other: string, a: string, n: nat, text: string)
    requires git.Valid() && PlainName(git, path) && Whole(a) && Whole(other) && Visible(text)
    ensures ReadOutput(Output(git, [OneHunk(path, [a + (FORM_FEED + ("+++ b/" + other))], "", n, text)]))
         == [Added(other, n, text)]
  {
    var name := "+++ b/" + other;
    WholeConcat("+++ b/", other);
    TwoPieces("-", a, name);
    ReadAfterTwo(git, path, a + (FORM_FEED + name), "-" + a, name, n, text);
    ReadInjected(State(Some(path), n), "-" + a, other, text);
  }

  lemma ReadAfterTwo(git: Git, path: string, line: string, first: string, second: string, n: nat, text: string)
    requires git.Valid() && PlainName(git, path) && Visible(text)
    requires Cut(("-" + line) + "\n") == [first, second]
    ensures ReadOutput(Output(git, [OneHunk(path, [line], "", n, text)]))
         == Parse(State(Some(path), n), ([first] + [second]) + ["+" + text])
  {
    var h := OneHunk(path, [line], "", n, text).hunks[0];
    ReadOneHunk(git, path, [line], "", n, text);
    NoTail();
    PiecesOfOne('-', line);
    assert Aside(h) == [first] + [second];
  }

  lemma ReadInjected(s: State, first: string, other: string, text: string)
    requires Visible(text) && first != "" && first[0] == '-'
    ensures Parse(s, ([first] + ["+++ b/" + other]) + ["+" + text]) == [Added(other, s.lineno, text)]
  {
    var at := s.(path := Some(other));
    IdleMark(first);
    ReadIdle(s, [first]);
    Prepend([first], ["+++ b/" + other], ["+" + text]);
    ParseConcat(s, [first], ["+++ b/" + other] + ["+" + text]);
    Prepend("+++ ", "b/", other);
    ReadName(s, "b/" + other, ["+" + text]);
    StartsWithSplit("b/", other);
    ParseLast(at, [], "+" + text);
    assert [] + ["+" + text] == ["+" + text];
    YieldPlus(at, text);
  }
}
