/** The TypeScript types that `scripts/gen_contract_types.py` prints, and a small parser in
    which postfix `[]` binds tighter than `|`: printing and parsing are inverse. */
module TypeText {
  import opened Sequences

  /** A type that is not a union. A union is the list of its members. */
  datatype Ts =
    | Word(name: string)
    | Lit(value: string)
    | Arr(item: seq<Ts>)
    | Rec(values: seq<Ts>)

  type Union = seq<Ts>

  const BAR := " | "
  const RECORD := "Record<string, "

  predicate StartsWith(s: string, prefix: string) {
    |prefix| <= |s| && s[..|prefix|] == prefix
  }

  /** Python's `in` on strings. */
  predicate Contains(s: string, part: string) {
    exists i :: 0 <= i <= |s| && StartsWith(s[i..], part)
  }

  function Join(texts: seq<string>): string {
    if texts == [] then "" else if |texts| == 1 then texts[0] else texts[0] + BAR + Join(texts[1..])
  }

  /** `f"({item})[]" if " | " in item else f"{item}[]"`. */
  function ArrayText(item: string): string {
    if Contains(item, BAR) then "(" + item + ")[]" else item + "[]"
  }

  function Show(t: Ts): string {
    match t
    case Word(name) => name
    case Lit(value) => "\"" + value + "\""
    case Arr(item) => ArrayText(ShowUnion(item))
    case Rec(values) => RECORD + ShowUnion(values) + ">"
  }

  function ShowUnion(u: Union): string {
    if u == [] then "" else if |u| == 1 then Show(u[0]) else Show(u[0]) + BAR + ShowUnion(u[1..])
  }

  predicate IsNameChar(c: char) {
    'a' <= c <= 'z' || 'A' <= c <= 'Z' || '0' <= c <= '9' || c == '_'
  }

  predicate IsName(s: string) {
    s != [] && forall i :: 0 <= i < |s| ==> IsNameChar(s[i])
  }

  /** A string that may stand between quotes as it is. */
  predicate IsQuotable(s: string) {
    forall i :: 0 <= i < |s| ==> s[i] != '"' && s[i] != '\\' && s[i] != '\n'
  }

  const OPEN := "[\""
  const CLOSE := "\"]"

  /** A name, or the type of a declaration's field: `Name["field"]`. */
  predicate IsTypeName(s: string) { IsName(s) || exists n :: 0 <= n <= |s| && IsFieldOf(s, n) }

  /** The text is a name of `n` characters with a field after it. */
  predicate IsFieldOf(s: string, n: nat) {
    && n + 4 <= |s| && IsName(s[..n]) && s[n..n + 2] == OPEN && s[|s| - 2..] == CLOSE
    && IsQuotable(s[n + 2..|s| - 2])
  }

  lemma FieldTypesAreNames(name: string, field: string)
    requires IsName(name) && IsQuotable(field)
    ensures IsTypeName(name + "[\"" + field + "\"]")
  {
    var s, n := name + "[\"" + field + "\"]", |name|;
    assert s[..n] == name && s[n..n + 2] == "[\"" && s[|s| - 2..] == "\"]" && s[n + 2..|s| - 2] == field;
    assert IsFieldOf(s, n);
  }

  /** What the printer is given: names are names, literals need no escape, unions are not empty. */
  predicate WellFormed(t: Ts) {
    match t
    case Word(name) => IsTypeName(name)
    case Lit(value) => IsQuotable(value)
    case Arr(item) => WellFormedUnion(item)
    case Rec(values) => WellFormedUnion(values)
  }

  predicate WellFormedUnion(u: Union) {
    u != [] && forall i :: 0 <= i < |u| ==> WellFormed(u[i])
  }

  // ------------------------------------------------------------ the parser

  datatype Parsed = Failed | Parsed(union: Union, rest: string)

  function NameLength(s: string): (n: nat)
    ensures n <= |s|
  {
    if s == [] || !IsNameChar(s[0]) then 0 else 1 + NameLength(s[1..])
  }

  /** The length of a quoted text up to its closing quote. */
  function QuotedLength(s: string): (n: nat)
    ensures n <= |s|
  {
    if s == [] || s[0] == '"' || s[0] == '\\' || s[0] == '\n' then 0 else 1 + QuotedLength(s[1..])
  }

  /** The length of a name at the start, with the field after it if there is one. */
  function TypeNameLength(s: string): (n: nat)
    ensures n <= |s|
  {
    var n := NameLength(s);
    if n == 0 || !StartsWith(s[n..], OPEN) then n else
      var key := QuotedLength(s[n + 2..]);
      if StartsWith(s[n + 2 + key..], CLOSE) then n + 2 + key + 2 else n
  }

  function ParseAtom(s: string): (r: Parsed)
    ensures r.Parsed? ==> |r.rest| < |s|
    decreases |s|, 0
  {
    if StartsWith(s, "(") then
      var inner := ParseUnion(s[1..]);
      if inner.Parsed? && StartsWith(inner.rest, ")") then Parsed(inner.union, inner.rest[1..]) else Failed
    else if StartsWith(s, "\"") then
      var n := QuotedLength(s[1..]);
      if StartsWith(s[1 + n..], "\"") then Parsed([Lit(s[1..1 + n])], s[2 + n..]) else Failed
    else if StartsWith(s, RECORD) then
      var inner := ParseUnion(s[|RECORD|..]);
      if inner.Parsed? && StartsWith(inner.rest, ">") then Parsed([Rec(inner.union)], inner.rest[1..]) else Failed
    else
      var n := TypeNameLength(s);
      if n > 0 then Parsed([Word(s[..n])], s[n..]) else Failed
  }

  /** Each `[]` makes an array of what came before it. */
  function Suffixes(u: Union, s: string): (r: Parsed)
    ensures r.Parsed? && |r.rest| <= |s|
    decreases |s|
  {
    if StartsWith(s, "[]") then Suffixes([Arr(u)], s[2..]) else Parsed(u, s)
  }

  function ParseUnion(s: string): (r: Parsed)
    ensures r.Parsed? ==> |r.rest| < |s|
    decreases |s|, 1
  {
    var atom := ParseAtom(s);
    if atom.Failed? then Failed else
      var first := Suffixes(atom.union, atom.rest);
      if StartsWith(first.rest, BAR) then
        var more := ParseUnion(first.rest[|BAR|..]);
        if more.Parsed? then Parsed(first.union + more.union, more.rest) else Failed
      else first
  }

  /** The whole text as one type. */
  function ParseType(s: string): Option<Union> {
    var r := ParseUnion(s);
    if r.Parsed? && r.rest == "" then Some(r.union) else None
  }

  // ------------------------------------------------------------ printing, then parsing

  /** What may follow a type: the end, or a text that cannot extend a name. */
  predicate Ends(s: string) {
    s == "" || !(IsNameChar(s[0]) || s[0] == '<' || StartsWith(s, OPEN))
  }

  lemma Cut(a: string, b: string)
    ensures StartsWith(a + b, a) && (a + b)[|a|..] == b
  {}

  lemma {:induction false} NameRead(name: string, rest: string)
    requires forall i :: 0 <= i < |name| ==> IsNameChar(name[i])
    requires rest == "" || !IsNameChar(rest[0])
    ensures NameLength(name + rest) == |name|
  {
    if name == "" {
      assert name + rest == rest;
    } else {
      NameRead(name[1..], rest);
      assert (name + rest)[1..] == name[1..] + rest;
    }
  }

  lemma {:induction false} QuotedRead(value: string, rest: string)
    requires IsQuotable(value)
    ensures QuotedLength(value + "\"" + rest) == |value|
  {
    if value != "" {
      QuotedRead(value[1..], rest);
      assert (value + "\"" + rest)[1..] == value[1..] + "\"" + rest;
    }
  }

  lemma ReadWord(name: string, rest: string)
    requires IsTypeName(name) && Ends(rest)
    ensures ParseAtom(name + rest) == Parsed([Word(name)], rest)
  {
    if IsName(name) {
      PlainNameRead(name, rest);
      NotRecord(name, |name|, rest);
    } else {
      var n: nat :| n <= |name| && IsFieldOf(name, n);
      FieldRead(name, n, rest);
      NotRecord(name, n, rest);
    }
    AtomOfName(name, rest);
  }

  lemma AtomOfName(name: string, rest: string)
    requires name != "" && IsNameChar(name[0]) && TypeNameLength(name + rest) == |name|
    requires !StartsWith(name + rest, RECORD)
    ensures ParseAtom(name + rest) == Parsed([Word(name)], rest)
  {
    var s := name + rest;
    Cut(name, rest);
    assert s[0] == name[0] && s[..1] == [name[0]] && s[..|name|] == name;
  }

  lemma PlainNameRead(name: string, rest: string)
    requires IsName(name) && Ends(rest)
    ensures TypeNameLength(name + rest) == |name| && IsNameChar(name[0]) && name[..|name|] == name
  {
    NameRead(name, rest);
    assert (name + rest)[|name|..] == rest;
  }

  lemma FieldRead(name: string, n: nat, rest: string)
    requires IsFieldOf(name, n)
    ensures TypeNameLength(name + rest) == |name| && IsNameChar(name[0]) && (name + rest)[n] == '['
  {
    var base, key := name[..n], name[n + 2..|name| - 2];
    FieldParts(name, n);
    Regroup(base + OPEN, key, CLOSE, rest);
    RegroupOpen(base, OPEN, key, CLOSE, rest);
    FieldLength(base, key, rest);
    assert name[0] == base[0] && name[n..n + 2][0] == '[';
  }

  lemma RegroupOpen(base: string, open: string, key: string, close: string, rest: string)
    ensures base + open + key + close + rest == base + (open + (key + (close + rest)))
  {
  }

  lemma KeyRead(key: string, rest: string)
    requires IsQuotable(key)
    ensures QuotedLength(key + (CLOSE + rest)) == |key|
  {
    QuotedRead(key, "]" + rest);
    RegroupClose(key, "\"", "]", rest);
    assert "\"" + "]" == CLOSE;
  }

  lemma RegroupClose(key: string, quote: string, bracket: string, rest: string)
    ensures key + quote + (bracket + rest) == key + ((quote + bracket) + rest)
  {
  }

  lemma FieldLength(base: string, key: string, rest: string)
    requires IsName(base) && IsQuotable(key)
    ensures TypeNameLength(base + (OPEN + (key + (CLOSE + rest)))) == |base| + 2 + |key| + 2
  {
    var after := key + (CLOSE + rest);
    var s := base + (OPEN + after);
    NameRead(base, OPEN + after);
    Cut(base, OPEN + after);
    Cut(OPEN, after);
    KeyRead(key, rest);
    Cut(key, CLOSE + rest);
    Cut(CLOSE, rest);
    assert s[|base| + 2..] == after && s[|base| + 2 + |key|..] == after[|key|..];
  }

  lemma FieldParts(name: string, n: nat)
    requires IsFieldOf(name, n)
    ensures name == name[..n] + OPEN + name[n + 2..|name| - 2] + CLOSE
  {
  }

  /** A name is not the start of a record: "Record" would have to be followed by '<'. */
  lemma NotRecord(name: string, n: nat, rest: string)
    requires n <= |name| && IsName(name[..n])
    requires n < |name + rest| ==> !IsNameChar((name + rest)[n]) && (name + rest)[n] != '<'
    ensures !StartsWith(name + rest, RECORD)
  {
    var s := name + rest;
    var i := if n < 6 then n else 6;
    assert RECORD[6] == '<' && forall k :: 0 <= k < 6 ==> IsNameChar(RECORD[k]);
    if |s| >= |RECORD| {
      assert s[..|RECORD|][i] == s[i] && (i < n ==> s[i] == name[..n][i]);
      assert s[i] != RECORD[i];
    }
  }

  lemma ReadLit(value: string, rest: string)
    requires IsQuotable(value)
    ensures ParseAtom("\"" + value + "\"" + rest) == Parsed([Lit(value)], rest)
  {
    var s := "\"" + value + "\"" + rest;
    assert s[1..] == value + "\"" + rest;
    QuotedRead(value, rest);
    Cut("\"", rest);
    assert s[..1] == "\"";
    assert s[1..1 + |value|] == value && s[1 + |value|..] == "\"" + rest && s[2 + |value|..] == rest;
  }

  lemma ContainsMiddle(a: string, part: string, b: string)
    ensures Contains(a + part + b, part)
  {
    var s := a + part + b;
    assert s[|a|..] == part + b;
    Cut(part, b);
    assert StartsWith(s[|a|..], part);
  }

  lemma ContainsIff(s: string, part: string)
    ensures Contains(s, part) <==> exists before, after :: s == before + part + after
  {
    if i :| 0 <= i <= |s| && StartsWith(s[i..], part) {
      assert s == s[..i] + part + s[i..][|part|..];
    }
    if before, after :| s == before + part + after { ContainsMiddle(before, part, after); }
  }

  lemma BarInUnion(u: Union)
    requires |u| > 1
    ensures Contains(ShowUnion(u), BAR)
  {
    ContainsMiddle(Show(u[0]), BAR, ShowUnion(u[1..]));
  }

  /** Reading a printed type back, with the suffixes that follow it. */
  lemma {:induction false} ReadOne(t: Ts, rest: string)
    requires WellFormed(t) && Ends(rest)
    ensures var atom := ParseAtom(Show(t) + rest);
            atom.Parsed? && Suffixes(atom.union, atom.rest) == Suffixes([t], rest)
    decreases t, 1
  {
    match t {
      case Word(name) => ReadWord(name, rest);
      case Lit(value) => ReadLit(value, rest);
      case Rec(values) => ReadRecord(values, rest);
      case Arr(item) =>
        Bracket(item, rest);
        if Contains(ShowUnion(item), BAR) {
          ReadParenthesized(item, "[]" + rest);
          ParenthesizedText(ShowUnion(item), rest);
        } else {
          OneWithoutBar(item);
          ReadOne(item[0], "[]" + rest);
          PlainArrayText(Show(item[0]), rest);
        }
    }
  }

  lemma ParenthesizedText(item: string, rest: string)
    ensures "(" + item + ")[]" + rest == "(" + item + ")" + ("[]" + rest)
  {}

  lemma PlainArrayText(item: string, rest: string)
    ensures item + "[]" + rest == item + ("[]" + rest)
  {}

  lemma Bracket(u: Union, rest: string)
    ensures Suffixes(u, "[]" + rest) == Suffixes([Arr(u)], rest) && Ends("[]" + rest)
  {
    Cut("[]", rest);
  }

  lemma OneWithoutBar(u: Union)
    requires u != [] && !Contains(ShowUnion(u), BAR)
    ensures u == [u[0]]
  {
    if |u| > 1 { BarInUnion(u); }
  }

  lemma {:induction false} ReadRecord(values: Union, rest: string)
    requires WellFormedUnion(values)
    ensures ParseAtom(RECORD + ShowUnion(values) + ">" + rest) == Parsed([Rec(values)], rest)
    decreases values, 1
  {
    var s := RECORD + ShowUnion(values) + ">" + rest;
    Regroup(RECORD, ShowUnion(values), ">", rest);
    Cut(RECORD, ShowUnion(values) + (">" + rest));
    ReadUnion(values, ">" + rest);
    Cut(">", rest);
    assert s[0] == 'R';
  }

  lemma {:induction false} ReadParenthesized(item: Union, rest: string)
    requires WellFormedUnion(item)
    ensures ParseAtom("(" + ShowUnion(item) + ")" + rest) == Parsed(item, rest)
    decreases item, 1
  {
    var s := "(" + ShowUnion(item) + ")" + rest;
    Regroup("(", ShowUnion(item), ")", rest);
    Cut("(", ShowUnion(item) + (")" + rest));
    ReadUnion(item, ")" + rest);
    Cut(")", rest);
  }

  lemma {:induction false} ReadUnion(u: Union, rest: string)
    requires WellFormedUnion(u) && Ends(rest)
    requires !StartsWith(rest, BAR) && !StartsWith(rest, "[]")
    ensures ParseUnion(ShowUnion(u) + rest) == Parsed(u, rest)
    decreases u, 0
  {
    if |u| == 1 {
      ReadOne(u[0], rest);
      LastMember(Show(u[0]), u[0], rest);
      assert u == [u[0]];
    } else {
      var more := ShowUnion(u[1..]) + rest;
      ShowMore(u, rest);
      ReadOne(u[0], BAR + more);
      ReadUnion(u[1..], rest);
      OneMember(Show(u[0]), u[0], more, u[1..], rest);
    }
  }

  lemma ShowMore(u: Union, rest: string)
    requires |u| > 1
    ensures ShowUnion(u) + rest == Show(u[0]) + (BAR + (ShowUnion(u[1..]) + rest))
    ensures Ends(BAR + (ShowUnion(u[1..]) + rest))
    ensures u == [u[0]] + u[1..]
  {
    Regroup(Show(u[0]), BAR, ShowUnion(u[1..]), rest);
    assert (BAR + (ShowUnion(u[1..]) + rest))[0] == ' ';
  }

  lemma Regroup(a: string, b: string, c: string, d: string)
    ensures a + b + c + d == a + (b + (c + d))
  {}

  lemma OneMember(text: string, t: Ts, more: string, us: Union, rest: string)
    requires var atom := ParseAtom(text + (BAR + more));
             atom.Parsed? && Suffixes(atom.union, atom.rest) == Suffixes([t], BAR + more)
    requires ParseUnion(more) == Parsed(us, rest)
    ensures ParseUnion(text + (BAR + more)) == Parsed([t] + us, rest)
  {
    Cut(BAR, more);
    assert (BAR + more)[..2] != "[]" by { assert (BAR + more)[0] == ' '; }
  }

  lemma LastMember(text: string, t: Ts, rest: string)
    requires var atom := ParseAtom(text + rest);
             atom.Parsed? && Suffixes(atom.union, atom.rest) == Suffixes([t], rest)
    requires !StartsWith(rest, BAR) && !StartsWith(rest, "[]")
    ensures ParseUnion(text + rest) == Parsed([t], rest)
  {}

  /** A printed union parses back as that union: an array of a union never reads as a union that
      ends in an array. */
  lemma ParseShow(u: Union)
    requires WellFormedUnion(u)
    ensures ParseType(ShowUnion(u)) == Some(u)
  {
    ReadUnion(u, "");
    assert ShowUnion(u) + "" == ShowUnion(u);
  }

  /** How unions, arrays and records are written, to the letter. */
  lemma WrittenOut(a: string, b: string)
    ensures ShowUnion([Word(a), Lit(b)]) == a + " | \"" + b + "\""
    ensures Show(Arr([Word(a), Word(b)])) == "(" + a + " | " + b + ")[]"
    ensures IsName(a) ==> Show(Arr([Word(a)])) == a + "[]"
    ensures Show(Rec([Word(a)])) == "Record<string, " + a + ">"
  {
    ShowTwo(Word(a), Lit(b));
    ShowTwo(Word(a), Word(b));
    BarInUnion([Word(a), Word(b)]);
    RegroupQuotes(a, " | ", "\"", b);
    if IsName(a) { NoBarInName(a); }
  }

  lemma NoBarInName(name: string)
    requires IsName(name)
    ensures !Contains(name, BAR)
  {
    forall i | 0 <= i <= |name| ensures !StartsWith(name[i..], BAR) {
      assert BAR[0] == ' ' && (i < |name| ==> name[i..][0] == name[i] != ' ');
    }
  }

  lemma RegroupQuotes(a: string, bar: string, quote: string, b: string)
    ensures a + bar + (quote + b + quote) == a + (bar + quote) + b + quote
  {
  }

  lemma ShowTwo(a: Ts, b: Ts)
    ensures ShowUnion([a, b]) == Show(a) + " | " + Show(b)
  {
    assert [a, b][1..] == [b];
  }
}
