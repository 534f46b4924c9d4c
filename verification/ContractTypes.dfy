/** `_Renderer` of `scripts/gen_contract_types.py`: the JSON Schema that pydantic emits for the
    registered models, translated to TypeScript type text. Both sides get a meaning, a set of
    JSON values, and the translation is proved to lose none of them. */
module ContractTypes {
  import opened Sequences
  import opened TypeText

  // ------------------------------------------------------------ schemas

  datatype Kind = Null | String | Integer | Number | Boolean | Array | Object | Other

  datatype AnyOf = NoAnyOf | AnyOf(parts: seq<Node>)
  datatype Items = NoItems | Items(node: Node)
  datatype Additional = NoAdditional | Flag(allowed: bool) | Values(node: Node)

  /** A schema node: each keyword present or not. `enum` and `const` values are strings. */
  datatype Node = Node(
    tsType: Option<string>, anyOf: AnyOf, ref: Option<string>, enum_: Option<seq<string>>,
    const_: Option<string>, kind: Option<Kind>, items: Items, additional: Additional)

  const EMPTY := Node(None, NoAnyOf, None, None, None, None, NoItems, NoAdditional)

  datatype Prop = Prop(name: string, node: Node)

  /** A model: its properties, the required ones, those with a default that is a value, and whether
      it is closed (`additionalProperties` is false). */
  datatype Model = Model(props: seq<Prop>, required: set<string>, defaults: set<string>, closed: bool)

  type Defs = map<string, Model>

  /** A model's field, or no field (`where`). */
  datatype Where = Nowhere | At(model: string, field: string)

  datatype Renderer = Renderer(names: map<string, string>, unions: map<Where, string>,
                               tsTypes: map<Where, string>, sentDefaults: bool)

  /** `ref.rsplit("/", 1)[-1]`. */
  function LastSegment(ref: string): string {
    if ref == "" then "" else
      if ref[|ref| - 1] == '/' then "" else LastSegment(ref[..|ref| - 1]) + [ref[|ref| - 1]]
  }

  /** It is what follows the last slash, or the whole text when there is none. */
  lemma {:induction false} AfterLastSlash(before: string, name: string)
    requires '/' !in name
    ensures LastSegment(before + "/" + name) == name && LastSegment(name) == name
  {
    if name == "" {
      assert before + "/" + name == before + "/";
    } else {
      var n := |name| - 1;
      var ref := before + "/" + name;
      AfterLastSlash(before, name[..n]);
      assert ref[..|ref| - 1] == before + "/" + name[..n] && name == name[..n] + [name[n]];
    }
  }

  /** The references that pydantic writes name their model. */
  lemma ReferenceNames(name: string)
    requires '/' !in name
    ensures LastSegment("#/$defs/" + name) == name
  {
    AfterLastSlash("#/$defs", name);
    assert "#/$defs/" == "#/$defs" + "/";
  }

  // ------------------------------------------------------------ the translation

  datatype Rendered = Refused | Text(text: string)

  function Literals(values: seq<string>): seq<string> {
    seq(|values|, i requires 0 <= i < |values| => "\"" + values[i] + "\"")
  }

  /** The first of each run of equal values (`dict.fromkeys`). */
  function Unique<T(==)>(xs: seq<T>): seq<T> {
    if xs == [] then [] else
      var before := Unique(xs[..|xs| - 1]);
      if xs[|xs| - 1] in before then before else before + [xs[|xs| - 1]]
  }

  function LiteralValues(node: Node): seq<string> {
    if node.enum_.Some? then node.enum_.value
    else if node.const_.Some? then [node.const_.value] else []
  }

  predicate SaysNull(part: Node) { part.kind == Some(Null) }

  predicate SomeNull(parts: seq<Node>) { exists i :: 0 <= i < |parts| && SaysNull(parts[i]) }

  /** `type_of`: the keywords are tried in this order and the first one present decides. */
  function TypeOf(r: Renderer, node: Node, where: Where): Rendered
    decreases node, 0
  {
    if node.tsType.Some? then
      Text(node.tsType.value + if node.anyOf.AnyOf? && SomeNull(node.anyOf.parts) then BAR + "null" else "")
    else if node.anyOf.AnyOf? then
      var parts := TypesOf(r, node.anyOf.parts, where);
      if parts.None? then Refused else Text(Join(Unique(parts.value)))
    else if node.ref.Some? then
      var name := LastSegment(node.ref.value);
      if name in r.names then Text(r.names[name]) else Refused
    else if node.enum_.Some? || node.const_.Some? then
      if where in r.unions then Text(r.unions[where]) else Text(Join(Literals(LiteralValues(node))))
    else match node.kind
      case Some(Null) => Text("null")
      case Some(String) => Text("string")
      case Some(Integer) => Text("number")
      case Some(Number) => Text("number")
      case Some(Boolean) => Text("boolean")
      case Some(Array) =>
        if node.items.NoItems? then Refused else
          var item := TypeOf(r, node.items.node, Nowhere);
          if item.Refused? then Refused else Text(ArrayText(item.text))
      case Some(Object) =>
        if node.additional.Values? && node.additional.node != EMPTY then
          var values := TypeOf(r, node.additional.node, Nowhere);
          if values.Refused? then Refused else Text(RECORD + values.text + ">")
        else Text(RECORD + "unknown>")
      case _ => Refused
  }

  function TypesOf(r: Renderer, parts: seq<Node>, where: Where): Option<seq<string>>
    decreases parts, 0
  {
    if parts == [] then Some([]) else
      var first := TypeOf(r, parts[0], where);
      var rest := TypesOf(r, parts[1..], where);
      if first.Refused? || rest.None? then None else Some([first.text] + rest.value)
  }

  function LiteralUnion(values: seq<string>): Union {
    seq(|values|, i requires 0 <= i < |values| => Lit(values[i]))
  }

  /** A hand-written text that is a type as the generator itself would print it. */
  predicate IsTypeText(text: string) {
    ParseType(text).Some? && WellFormedUnion(ParseType(text).value) && ShowUnion(ParseType(text).value) == text
  }

  predicate Nullable(node: Node) { node.anyOf.AnyOf? && SomeNull(node.anyOf.parts) }

  /** The type of a node that has a hand-written one, with null beside it if the schema names null. */
  function HandWritten(node: Node): Union
    requires node.tsType.Some?
  {
    var written := ParseType(node.tsType.value);
    (if written.Some? then written.value else []) + if Nullable(node) then [Word("null")] else []
  }

  /** The type meant by a node, as a tree: the list of its union members. */
  function Meant(r: Renderer, node: Node, where: Where): Option<Union>
    decreases node, 0
  {
    if node.tsType.Some? then Some(HandWritten(node))
    else if node.anyOf.AnyOf? then
      var parts := MeantAll(r, node.anyOf.parts, where);
      if parts.None? then None else Some(Flat(Unique(parts.value)))
    else if node.ref.Some? then
      var name := LastSegment(node.ref.value);
      if name in r.names then Some([Word(r.names[name])]) else None
    else if node.enum_.Some? || node.const_.Some? then
      if where in r.unions then Some([Word(r.unions[where])])
      else Some(LiteralUnion(LiteralValues(node)))
    else match node.kind
      case Some(Null) => Some([Word("null")])
      case Some(String) => Some([Word("string")])
      case Some(Integer) => Some([Word("number")])
      case Some(Number) => Some([Word("number")])
      case Some(Boolean) => Some([Word("boolean")])
      case Some(Array) =>
        if node.items.NoItems? then None else
          var item := Meant(r, node.items.node, Nowhere);
          if item.None? then None else Some([Arr(item.value)])
      case Some(Object) =>
        if node.additional.Values? && node.additional.node != EMPTY then
          var values := Meant(r, node.additional.node, Nowhere);
          if values.None? then None else Some([Rec(values.value)])
        else Some([Rec([Word("unknown")])])
      case _ => None
  }

  function MeantAll(r: Renderer, parts: seq<Node>, where: Where): (us: Option<seq<Union>>)
    ensures us.Some? ==> |us.value| == |parts|
    ensures us.Some? ==> forall i :: 0 <= i < |parts| ==> Meant(r, parts[i], where) == Some(us.value[i])
    decreases parts, 0
  {
    if parts == [] then Some([]) else
      var first := Meant(r, parts[0], where);
      var rest := MeantAll(r, parts[1..], where);
      if first.None? || rest.None? then None else Some([first.value] + rest.value)
  }

  function Flat(us: seq<Union>): Union {
    if us == [] then [] else us[0] + Flat(us[1..])
  }

  // ------------------------------------------------------------ the text says what is meant

  /** No empty `anyOf` or `enum`, literals that need no escape between quotes, and hand-written types
      that are types. */
  predicate Plain(node: Node)
    decreases node
  {
    if node.tsType.Some? then IsTypeText(node.tsType.value) else
      && (node.anyOf.AnyOf? ==> node.anyOf.parts != []
                                && forall i :: 0 <= i < |node.anyOf.parts| ==> Plain(node.anyOf.parts[i]))
      && (node.enum_.Some? ==> node.enum_.value != [])
      && (forall i :: 0 <= i < |LiteralValues(node)| ==> IsQuotable(LiteralValues(node)[i]))
      && (node.items.Items? ==> Plain(node.items.node))
      && (node.additional.Values? ==> Plain(node.additional.node))
  }

  predicate NamesAreNames(r: Renderer) {
    && (forall n :: n in r.names ==> IsName(r.names[n]))
    && (forall w :: w in r.unions ==> IsName(r.unions[w]))
  }

  lemma {:induction false} MeantWellFormed(r: Renderer, node: Node, where: Where)
    requires NamesAreNames(r) && Plain(node) && Meant(r, node, where).Some?
    ensures WellFormedUnion(Meant(r, node, where).value)
    decreases node
  {
    if node.tsType.Some? {
      ParseShow(ParseType(node.tsType.value).value);
    } else if node.anyOf.AnyOf? {
      var us := MeantAll(r, node.anyOf.parts, where).value;
      forall i | 0 <= i < |us| ensures WellFormedUnion(us[i]) {
        MeantWellFormed(r, node.anyOf.parts[i], where);
      }
      UniqueSubset(us);
      FlatWellFormed(Unique(us));
    } else if node.ref.Some? || node.enum_.Some? || node.const_.Some? {
    } else {
      match node.kind {
        case Some(Array) => MeantWellFormed(r, node.items.node, Nowhere);
        case Some(Object) =>
          if node.additional.Values? && node.additional.node != EMPTY {
            MeantWellFormed(r, node.additional.node, Nowhere);
          }
        case _ =>
      }
    }
  }

  lemma {:induction false} UniqueSubset<T>(xs: seq<T>)
    ensures forall i :: 0 <= i < |Unique(xs)| ==> Unique(xs)[i] in xs
    ensures forall i :: 0 <= i < |xs| ==> xs[i] in Unique(xs)
  {
    if xs != [] {
      UniqueSubset(xs[..|xs| - 1]);
      assert xs == xs[..|xs| - 1] + [xs[|xs| - 1]];
    }
  }

  lemma {:induction false} FlatWellFormed(us: seq<Union>)
    requires us != [] && forall i :: 0 <= i < |us| ==> WellFormedUnion(us[i])
    ensures WellFormedUnion(Flat(us))
  {
    if |us| > 1 {
      FlatWellFormed(us[1..]);
    } else {
      assert us[1..] == [] && us[0] + [] == us[0];
    }
  }

  function Shows(us: seq<Union>): seq<string> {
    seq(|us|, i requires 0 <= i < |us| => ShowUnion(us[i]))
  }

  lemma {:induction false} JoinFlat(us: seq<Union>)
    requires forall i :: 0 <= i < |us| ==> us[i] != []
    ensures Join(Shows(us)) == ShowUnion(Flat(us))
  {
    if us == [] {
    } else if |us| == 1 {
      assert us[1..] == [] && us[0] + [] == us[0];
    } else {
      JoinFlat(us[1..]);
      assert Shows(us)[1..] == Shows(us[1..]);
      assert Flat(us[1..]) != [];
      ShowConcat(us[0], Flat(us[1..]));
    }
  }

  lemma {:induction false} ShowConcat(a: Union, b: Union)
    requires a != [] && b != []
    ensures ShowUnion(a + b) == ShowUnion(a) + BAR + ShowUnion(b)
  {
    assert (a + b)[0] == a[0] && (a + b)[1..] == a[1..] + b;
    if |a| > 1 {
      ShowConcat(a[1..], b);
      Regrouped(Show(a[0]), ShowUnion(a[1..]), ShowUnion(b));
    } else {
      assert a[1..] + b == b;
    }
  }

  lemma Regrouped(a: string, b: string, c: string)
    ensures a + BAR + (b + BAR + c) == (a + BAR + b) + BAR + c
  {}

  /** Equal texts mean equal types, so dropping repeated texts drops repeated types. */
  lemma {:induction false} UniqueShows(us: seq<Union>)
    requires forall i :: 0 <= i < |us| ==> WellFormedUnion(us[i])
    ensures Unique(Shows(us)) == Shows(Unique(us))
  {
    if us != [] {
      var n := |us| - 1;
      UniqueShows(us[..n]);
      UniqueSubset(us[..n]);
      assert Shows(us)[..n] == Shows(us[..n]);
      var before := Unique(us[..n]);
      if ShowUnion(us[n]) in Shows(before) {
        var i :| 0 <= i < |before| && Shows(before)[i] == ShowUnion(us[n]);
        assert before[i] in us[..n];
        ParseShow(before[i]);
        ParseShow(us[n]);
      }
      if us[n] in before {
        var i :| 0 <= i < |before| && before[i] == us[n];
        assert Shows(before)[i] == ShowUnion(us[n]);
      }
      assert Shows(before + [us[n]]) == Shows(before) + [ShowUnion(us[n])];
    }
  }

  lemma {:induction false} LiteralsShown(values: seq<string>)
    ensures Join(Literals(values)) == ShowUnion(LiteralUnion(values))
  {
    if |values| > 1 {
      LiteralsShown(values[1..]);
      assert Literals(values)[1..] == Literals(values[1..]);
      assert LiteralUnion(values)[1..] == LiteralUnion(values[1..]);
    }
  }

  lemma PrintedUnion(us: seq<Union>)
    requires forall i :: 0 <= i < |us| ==> WellFormedUnion(us[i])
    ensures Join(Unique(Shows(us))) == ShowUnion(Flat(Unique(us)))
  {
    UniqueShows(us);
    UniqueSubset(us);
    JoinFlat(Unique(us));
  }

  lemma WithNull(text: string)
    ensures text + (BAR + "null") == text + BAR + ShowUnion([Word("null")])
  {
  }

  lemma PrintedByHand(node: Node)
    requires node.tsType.Some? && IsTypeText(node.tsType.value)
    ensures node.tsType.value + (if Nullable(node) then BAR + "null" else "") == ShowUnion(HandWritten(node))
  {
    var written, none := ParseType(node.tsType.value).value, [Word("null")];
    if Nullable(node) {
      ShowConcat(written, none);
      WithNull(ShowUnion(written));
    } else {
      assert written + [] == written;
      assert ShowUnion(written) + "" == ShowUnion(written);
    }
  }

  /** The generator prints exactly the type meant, and refuses exactly when none is meant. */
  lemma {:induction false} Printed(r: Renderer, node: Node, where: Where)
    requires NamesAreNames(r) && Plain(node)
    ensures TypeOf(r, node, where)
         == match Meant(r, node, where) { case None => Refused case Some(u) => Text(ShowUnion(u)) }
    decreases node, 1
  {
    if node.tsType.Some? {
      PrintedByHand(node);
    } else if node.anyOf.AnyOf? {
      PrintedAll(r, node.anyOf.parts, where);
      var us := MeantAll(r, node.anyOf.parts, where);
      if us.Some? {
        forall i | 0 <= i < |us.value| ensures WellFormedUnion(us.value[i]) {
          MeantWellFormed(r, node.anyOf.parts[i], where);
        }
        PrintedUnion(us.value);
      }
    } else if node.ref.Some? {
    } else if node.enum_.Some? || node.const_.Some? {
      LiteralsShown(LiteralValues(node));
    } else {
      match node.kind {
        case Some(Array) => if node.items.Items? { Printed(r, node.items.node, Nowhere); }
        case Some(Object) =>
          if node.additional.Values? && node.additional.node != EMPTY { Printed(r, node.additional.node, Nowhere); }
        case _ =>
      }
    }
  }

  lemma {:induction false} PrintedAll(r: Renderer, parts: seq<Node>, where: Where)
    requires NamesAreNames(r) && forall i :: 0 <= i < |parts| ==> Plain(parts[i])
    ensures TypesOf(r, parts, where)
         == match MeantAll(r, parts, where) { case None => None case Some(us) => Some(Shows(us)) }
    decreases parts, 0
  {
    if parts != [] {
      Printed(r, parts[0], where);
      PrintedAll(r, parts[1..], where);
      var first, rest := Meant(r, parts[0], where), MeantAll(r, parts[1..], where);
      if first.Some? && rest.Some? { ShowsCons(first.value, rest.value); }
    } else {
      ShowsEmpty();
    }
  }

  lemma ShowsEmpty()
    ensures Shows([]) == []
  {}

  lemma ShowsCons(u: Union, us: seq<Union>)
    ensures Shows([u] + us) == [ShowUnion(u)] + Shows(us)
  {}

  /** The printed text parses back as the type meant. */
  lemma TextParsesBack(r: Renderer, node: Node, where: Where)
    requires NamesAreNames(r) && Plain(node) && TypeOf(r, node, where).Text?
    ensures Meant(r, node, where).Some? && ParseType(TypeOf(r, node, where).text) == Meant(r, node, where)
  {
    Printed(r, node, where);
    MeantWellFormed(r, node, where);
    ParseShow(Meant(r, node, where).value);
  }

  // ------------------------------------------------------------ what schemas and types accept

  datatype Json =
    | JNull | JBool(b: bool) | JNum(n: real) | JStr(s: string)
    | JArr(elements: seq<Json>) | JObj(members: seq<Member>)

  datatype Member = Member(key: string, value: Json)

  predicate HasKey(v: Json, key: string) {
    v.JObj? && exists i :: 0 <= i < |v.members| && v.members[i].key == key
  }

  predicate KindHolds(kind: Kind, v: Json) {
    match kind
    case Null => v.JNull?
    case String => v.JStr?
    case Integer => v.JNum? && v.n.Floor as real == v.n
    case Number => v.JNum?
    case Boolean => v.JBool?
    case Array => v.JArr?
    case Object => v.JObj?
    case Other => false
  }

  datatype Field = Field(name: string, optional: bool, union: Union)

  /** What a generated file declares: an interface, or a named union of string literals; and what other
      files declare, of which only the values matter. */
  datatype Decl = Interface(fields: seq<Field>) | Alias(values: seq<string>) | Outside(holds: Json -> bool)

  type Env = map<string, Decl>

  const BUILT_IN: set<string> := {"null", "string", "number", "boolean", "unknown"}

  /** A value belongs to a TypeScript type; a name nothing declares has no values. */
  ghost predicate Belongs(env: Env, t: Ts, v: Json)
    decreases v, 0
  {
    match t
    case Lit(value) => v == JStr(value)
    case Arr(item) => v.JArr? && forall i :: 0 <= i < |v.elements| ==> BelongsTo(env, item, v.elements[i])
    case Rec(values) => v.JObj? && forall i :: 0 <= i < |v.members| ==> BelongsTo(env, values, v.members[i].value)
    case Word(name) =>
      if name == "null" then v.JNull?
      else if name == "string" then v.JStr?
      else if name == "number" then v.JNum?
      else if name == "boolean" then v.JBool?
      else if name == "unknown" then true
      else if name !in env then false
      else match env[name]
        case Alias(values) => v.JStr? && v.s in values
        case Outside(holds) => holds(v)
        case Interface(fields) =>
          && v.JObj?
          && (forall f, i :: 0 <= f < |fields| && 0 <= i < |v.members| && v.members[i].key == fields[f].name
                ==> BelongsTo(env, fields[f].union, v.members[i].value))
          && (forall f :: 0 <= f < |fields| && !fields[f].optional ==> HasKey(v, fields[f].name))
  }

  ghost predicate BelongsTo(env: Env, u: Union, v: Json)
    decreases v, 1
  {
    exists i :: 0 <= i < |u| && Belongs(env, u[i], v)
  }

  // ------------------------------------------------------------ what schemas accept

  /** The fields `interface` writes without a question mark. */
  function Required(r: Renderer, model: Model): set<string> {
    model.required + if r.sentDefaults then model.defaults else {}
  }

  function FieldNode(r: Renderer, name: string, p: Prop): Node {
    if At(name, p.name) in r.tsTypes then p.node.(tsType := Some(r.tsTypes[At(name, p.name)])) else p.node
  }

  /** Whether hand-written types are looked at: a schema alone knows nothing of them; or a value of a node
      that has one is judged by that type in place of the schema. */
  datatype Hand = Ignored | Judged(r: Renderer, env: Env)

  /** How a schema is read. With `sent`, only the values that the server sends count, which carry every
      field that has a default. With `wide`, only what TypeScript can say counts: an integer is a
      number, and other fields than those named cannot be forbidden. */
  datatype How = How(sent: bool, wide: bool, hand: Hand)

  predicate ByHand(how: How, node: Node) { how.hand.Judged? && node.tsType.Some? }

  function NodeOf(how: How, name: string, p: Prop): Node {
    if how.hand.Judged? then FieldNode(how.hand.r, name, p) else p.node
  }

  /** A key is one of the members' keys. */
  lemma HasKeyIff(v: Json, key: string)
    requires v.JObj?
    ensures HasKey(v, key) <==> exists m :: m in v.members && m.key == key
  {
    if m :| m in v.members && m.key == key {
      var i :| 0 <= i < |v.members| && v.members[i] == m;
    }
  }

  /** A value meets a schema node: every keyword present holds. `anyOf` is section 10.2.1.2 and
      `$ref` section 8.2.3.1 of JSON Schema Core 2020-12. */
  ghost predicate Accepts(defs: Defs, how: How, node: Node, v: Json)
    decreases v, 1, node
  {
    if ByHand(how, node) then BelongsTo(how.hand.env, HandWritten(node), v) else
      && (node.anyOf.AnyOf? ==>
            exists i :: 0 <= i < |node.anyOf.parts| && Accepts(defs, how, node.anyOf.parts[i], v))
      && (node.ref.Some? ==> LastSegment(node.ref.value) in defs
                             && AcceptsModel(defs, how, LastSegment(node.ref.value), v))
      && (node.enum_.Some? ==> v.JStr? && v.s in node.enum_.value)
      && (node.const_.Some? ==> v == JStr(node.const_.value))
      && (node.kind.Some?
          ==> KindHolds(if how.wide && node.kind == Some(Integer) then Number else node.kind.value, v))
      && (node.items.Items? && v.JArr?
          ==> forall i :: 0 <= i < |v.elements| ==> Accepts(defs, how, node.items.node, v.elements[i]))
      && (node.additional.Values? && v.JObj?
          ==> forall i :: 0 <= i < |v.members| ==> Accepts(defs, how, node.additional.node, v.members[i].value))
      && (node.additional == Flag(false) && v.JObj? && !how.wide ==> v.members == [])
  }

  ghost predicate AcceptsModel(defs: Defs, how: How, name: string, v: Json)
    requires name in defs
    decreases v, 0
  {
    var model := defs[name];
    && v.JObj?
    && (forall p, i :: 0 <= p < |model.props| && 0 <= i < |v.members| && v.members[i].key == model.props[p].name
          ==> Accepts(defs, how, NodeOf(how, name, model.props[p]), v.members[i].value))
    && (forall key :: key in model.required ==> HasKey(v, key))
    && (how.sent ==> forall key :: key in model.defaults ==> HasKey(v, key))
    && (model.closed && !how.wide ==> forall i :: 0 <= i < |v.members| ==> IsProp(model, v.members[i].key))
  }

  predicate IsProp(model: Model, key: string) {
    exists p :: 0 <= p < |model.props| && model.props[p].name == key
  }

  // ------------------------------------------------------------ interfaces and named unions

  function FieldLine(r: Renderer, model: Model, p: Prop, text: string): string {
    "  " + p.name + (if p.name in Required(r, model) then "" else "?") + ": " + text + ";"
  }

  /** The literal values of a field written as a named union: `union` refuses a field that is not
      one `Literal`, or one `Literal` and nulls. */
  function UnionValues(node: Node): Option<seq<string>> {
    var values := NotNull(if node.anyOf.AnyOf? then node.anyOf.parts else [node]);
    if |values| == 1 && (values[0].enum_.Some? || values[0].const_.Some?) then Some(LiteralValues(values[0]))
    else None
  }

  function NotNull(parts: seq<Node>): (kept: seq<Node>)
    ensures forall i :: 0 <= i < |parts| ==> SaysNull(parts[i]) || parts[i] in kept
  {
    if parts == [] then [] else (if SaysNull(parts[0]) then [] else [parts[0]]) + NotNull(parts[1..])
  }

  /** Place `i` holds the only part that is not null. */
  ghost predicate OnlyAt(parts: seq<Node>, i: nat) {
    i < |parts| && forall j :: 0 <= j < |parts| ==> (parts[j].kind != Some(Null) <==> j == i)
  }

  lemma {:induction false} NoneNotNull(parts: seq<Node>)
    ensures NotNull(parts) == [] <==> forall j :: 0 <= j < |parts| ==> parts[j].kind == Some(Null)
  {
    if parts != [] {
      NoneNotNull(parts[1..]);
      assert forall j :: 0 < j < |parts| ==> parts[j] == parts[1..][j - 1];
    }
  }

  lemma OnlyFirst(parts: seq<Node>)
    requires parts != []
    ensures OnlyAt(parts, 0)
       <==> parts[0].kind != Some(Null) && forall j :: 0 <= j < |parts[1..]| ==> parts[1..][j].kind == Some(Null)
  {
    assert forall j :: 0 < j < |parts| ==> parts[j] == parts[1..][j - 1];
  }

  lemma OnlyLater(parts: seq<Node>, i: nat)
    requires parts != []
    ensures OnlyAt(parts, i + 1) <==> parts[0].kind == Some(Null) && OnlyAt(parts[1..], i)
  {
    assert forall j :: 0 < j < |parts| ==> parts[j] == parts[1..][j - 1];
  }

  lemma {:induction false} OnlyIsKept(parts: seq<Node>, i: nat)
    requires OnlyAt(parts, i)
    ensures NotNull(parts) == [parts[i]]
    decreases |parts|
  {
    if i == 0 {
      OnlyFirst(parts);
      NoneNotNull(parts[1..]);
    } else {
      OnlyLater(parts, i - 1);
      OnlyIsKept(parts[1..], i - 1);
    }
  }

  lemma {:induction false} KeptIsOnly(parts: seq<Node>) returns (i: nat)
    requires |NotNull(parts)| == 1
    ensures OnlyAt(parts, i)
  {
    if SaysNull(parts[0]) {
      var k := KeptIsOnly(parts[1..]);
      OnlyLater(parts, k);
      i := k + 1;
    } else {
      NoneNotNull(parts[1..]);
      OnlyFirst(parts);
      i := 0;
    }
  }

  /** `union` refuses a field unless all its parts but one are null and that one is a `Literal`; then
      its values are written. A field without `anyOf` is its own only part. */
  lemma UnionValuesIff(node: Node)
    ensures var parts := if node.anyOf.AnyOf? then node.anyOf.parts else [node];
            && (UnionValues(node).Some?
                <==> exists i: nat :: OnlyAt(parts, i) && (parts[i].enum_.Some? || parts[i].const_.Some?))
            && forall i: nat :: OnlyAt(parts, i) ==>
                 && (parts[i].enum_.Some? ==> UnionValues(node) == parts[i].enum_)
                 && (parts[i].enum_.None? && parts[i].const_.Some?
                     ==> UnionValues(node) == Some([parts[i].const_.value]))
  {
    var parts := if node.anyOf.AnyOf? then node.anyOf.parts else [node];
    forall i: nat | OnlyAt(parts, i) ensures NotNull(parts) == [parts[i]] { OnlyIsKept(parts, i); }
    if |NotNull(parts)| == 1 { var i := KeptIsOnly(parts); }
  }

  function FieldOf(r: Renderer, name: string, model: Model, p: Prop): Field {
    var union := Meant(r, FieldNode(r, name, p), At(name, p.name));
    Field(p.name, p.name !in Required(r, model), if union.Some? then union.value else [])
  }

  function FieldsOf(r: Renderer, name: string, model: Model): seq<Field> {
    seq(|model.props|, i requires 0 <= i < |model.props| => FieldOf(r, name, model, model.props[i]))
  }

  predicate FieldRenders(r: Renderer, name: string, p: Prop) {
    Plain(FieldNode(r, name, p)) && Meant(r, FieldNode(r, name, p), At(name, p.name)).Some?
  }

  /** Every registered model renders, and its field names differ. */
  ghost predicate Renders(r: Renderer, defs: Defs) {
    forall n :: n in r.names ==>
      && n in defs
      && (forall i :: 0 <= i < |defs[n].props| ==> FieldRenders(r, n, defs[n].props[i]))
      && forall i, j :: 0 <= i < j < |defs[n].props| ==> defs[n].props[i].name != defs[n].props[j].name
  }

  /** Hand-written types are judged in place of the schema, and with `sent_defaults` only what the server
      sends counts. */
  function AsSent(r: Renderer, env: Env, wide: bool): How { How(r.sentDefaults, wide, Judged(r, env)) }

  /** `env` is what the generated file declares: each registered model's interface, and each named
      union with its field's values. */
  ghost predicate Declares(env: Env, r: Renderer, defs: Defs) {
    && (forall n :: n in r.names ==>
          && n in defs && r.names[n] in env && r.names[n] !in BUILT_IN
          && env[r.names[n]] == Interface(FieldsOf(r, n, defs[n])))
    && (forall w :: w in r.unions ==>
          && r.unions[w] in env && r.unions[w] !in BUILT_IN
          && env[r.unions[w]].Alias? && w.At? && w.model in defs
          && forall i :: 0 <= i < |defs[w.model].props| && defs[w.model].props[i].name == w.field
               ==> UnionValues(defs[w.model].props[i].node) == Some(env[r.unions[w]].values))
  }

  // ------------------------------------------------------------ nothing accepted is lost

  lemma {:induction false} FlatHas(us: seq<Union>, i: nat, k: nat)
    requires i < |us| && k < |us[i]|
    ensures us[i][k] in Flat(us)
  {
    if i > 0 { FlatHas(us[1..], i - 1, k); }
  }

  lemma {:induction false} FlatFrom(us: seq<Union>, t: Ts) returns (i: nat)
    requires t in Flat(us)
    ensures i < |us| && t in us[i]
  {
    if t in us[0] {
      i := 0;
    } else {
      var j := FlatFrom(us[1..], t);
      i := j + 1;
    }
  }

  /** Belonging to a union of unions is belonging to one of them. */
  lemma BelongsToOne(env: Env, us: seq<Union>, v: Json, i: nat)
    requires i < |us| && BelongsTo(env, us[i], v)
    ensures BelongsTo(env, Flat(Unique(us)), v)
  {
    var once := Unique(us);
    var k: nat :| k < |us[i]| && Belongs(env, us[i][k], v);
    UniqueSubset(us);
    var j: nat :| j < |once| && once[j] == us[i];
    FlatHas(once, j, k);
    var l: nat :| l < |Flat(once)| && Flat(once)[l] == us[i][k];
  }

  lemma BelongsToSome(env: Env, us: seq<Union>, v: Json) returns (i: nat)
    requires BelongsTo(env, Flat(Unique(us)), v)
    ensures i < |us| && BelongsTo(env, us[i], v)
  {
    var once := Unique(us);
    var l: nat :| l < |Flat(once)| && Belongs(env, Flat(once)[l], v);
    var j := FlatFrom(once, Flat(once)[l]);
    UniqueSubset(us);
    var k: nat :| k < |once[j]| && once[j][k] == Flat(once)[l];
    i :| 0 <= i < |us| && us[i] == once[j];
  }

  /** Of the parts of a named union only one is not null, and its literals are the values. */
  lemma OnlyPart(node: Node, i: nat)
    requires UnionValues(node).Some? && node.anyOf.AnyOf? && i < |node.anyOf.parts|
    requires !SaysNull(node.anyOf.parts[i])
    ensures var part := node.anyOf.parts[i];
            (part.enum_.Some? || part.const_.Some?) && LiteralValues(part) == UnionValues(node).value
  {
    var kept := NotNull(node.anyOf.parts);
    assert node.anyOf.parts[i] in kept && |kept| == 1;
    assert node.anyOf.parts[i] == kept[0];
  }

  lemma OnlyNode(node: Node)
    requires UnionValues(node).Some? && node.anyOf.NoAnyOf?
    ensures (node.enum_.Some? || node.const_.Some?) && LiteralValues(node) == UnionValues(node).value
  {
    assert [node][1..] == [];
    assert NotNull([node]) == (if SaysNull(node) then [] else [node]) + NotNull([]);
  }

  /** A string that a named union's field accepts is one of the union's values. */
  lemma UnionHolds(defs: Defs, how: How, node: Node, v: Json)
    requires how.hand.Ignored? && UnionValues(node).Some? && Accepts(defs, how, node, v) && v.JStr?
    ensures v.s in UnionValues(node).value
  {
    if node.anyOf.AnyOf? {
      var i: nat :| i < |node.anyOf.parts| && Accepts(defs, how, node.anyOf.parts[i], v);
      OnlyPart(node, i);
    } else {
      OnlyNode(node);
    }
  }

  /** The same where hand-written types are judged: a string is one of the values, or a hand-written type
      takes it. */
  ghost predicate NamedHolds(defs: Defs, how: How, node: Node, values: seq<string>, v: Json)
    decreases node
  {
    v.JStr? && v.s !in values && !ByHand(how, node) ==>
      && node.anyOf.AnyOf?
      && forall i :: 0 <= i < |node.anyOf.parts| && Accepts(defs, how, node.anyOf.parts[i], v) ==>
           NamedHolds(defs, how, node.anyOf.parts[i], values, v)
  }

  lemma NamedUnionHolds(defs: Defs, how: How, node: Node, v: Json)
    requires UnionValues(node).Some? && Accepts(defs, how, node, v)
    ensures NamedHolds(defs, how, node, UnionValues(node).value, v)
  {
    if node.anyOf.AnyOf? {
      forall i: nat | i < |node.anyOf.parts| && Accepts(defs, how, node.anyOf.parts[i], v)
        ensures NamedHolds(defs, how, node.anyOf.parts[i], UnionValues(node).value, v)
      {
        if !SaysNull(node.anyOf.parts[i]) { OnlyPart(node, i); }
      }
    } else {
      OnlyNode(node);
    }
  }

  /** Every value that a node's schema accepts, or its hand-written type where it has one, belongs to the
      type meant for it. */
  lemma {:induction false} Preserved(r: Renderer, defs: Defs, env: Env, wide: bool, node: Node, where: Where, v: Json)
    requires Renders(r, defs) && Declares(env, r, defs)
    requires Plain(node) && Meant(r, node, where).Some? && Accepts(defs, AsSent(r, env, wide), node, v)
    requires where in r.unions ==> NamedHolds(defs, AsSent(r, env, wide), node, env[r.unions[where]].values, v)
    ensures BelongsTo(env, Meant(r, node, where).value, v)
    decreases v, 1, node
  {
    var how := AsSent(r, env, wide);
    if node.tsType.Some? {
      assert ByHand(how, node);
    } else if node.anyOf.AnyOf? {
      var i: nat :| i < |node.anyOf.parts| && Accepts(defs, how, node.anyOf.parts[i], v);
      Preserved(r, defs, env, wide, node.anyOf.parts[i], where, v);
      BelongsToOne(env, MeantAll(r, node.anyOf.parts, where).value, v, i);
    } else if node.ref.Some? {
      PreservedModel(r, defs, env, wide, LastSegment(node.ref.value), v);
      assert Belongs(env, Meant(r, node, where).value[0], v);
    } else if node.enum_.Some? || node.const_.Some? {
      PreservedLiteral(r, defs, env, wide, node, where, v);
    } else {
      PreservedKind(r, defs, env, wide, node, v);
    }
  }

  lemma PreservedLiteral(r: Renderer, defs: Defs, env: Env, wide: bool, node: Node, where: Where, v: Json)
    requires Declares(env, r, defs) && Accepts(defs, AsSent(r, env, wide), node, v)
    requires node.tsType.None? && node.anyOf.NoAnyOf? && node.ref.None? && (node.enum_.Some? || node.const_.Some?)
    requires where in r.unions ==> NamedHolds(defs, AsSent(r, env, wide), node, env[r.unions[where]].values, v)
    ensures BelongsTo(env, Meant(r, node, where).value, v)
  {
    var u := Meant(r, node, where).value;
    assert v.JStr? && v.s in LiteralValues(node);
    if where in r.unions {
      assert Belongs(env, u[0], v);
    } else {
      var i :| 0 <= i < |LiteralValues(node)| && LiteralValues(node)[i] == v.s;
      assert Belongs(env, u[i], v);
    }
  }

  lemma {:induction false} PreservedKind(r: Renderer, defs: Defs, env: Env, wide: bool, node: Node, v: Json)
    requires Renders(r, defs) && Declares(env, r, defs)
    requires Plain(node) && Meant(r, node, Nowhere).Some? && Accepts(defs, AsSent(r, env, wide), node, v)
    requires node.tsType.None? && node.anyOf.NoAnyOf? && node.ref.None? && node.enum_.None? && node.const_.None?
    ensures BelongsTo(env, Meant(r, node, Nowhere).value, v)
    decreases v, 0, node
  {
    var u := Meant(r, node, Nowhere).value;
    assert Nowhere !in r.unions;
    if node.kind == Some(Array) {
      forall i | 0 <= i < |v.elements| ensures BelongsTo(env, u[0].item, v.elements[i]) {
        Preserved(r, defs, env, wide, node.items.node, Nowhere, v.elements[i]);
      }
    } else if node.kind == Some(Object) {
      forall i | 0 <= i < |v.members| ensures BelongsTo(env, u[0].values, v.members[i].value) {
        if node.additional.Values? && node.additional.node != EMPTY {
          Preserved(r, defs, env, wide, node.additional.node, Nowhere, v.members[i].value);
        } else {
          assert Belongs(env, u[0].values[0], v.members[i].value);
        }
      }
    }
    assert Belongs(env, u[0], v);
  }

  lemma {:induction false} PreservedModel(r: Renderer, defs: Defs, env: Env, wide: bool, name: string, v: Json)
    requires Renders(r, defs) && Declares(env, r, defs)
    requires name in r.names && AcceptsModel(defs, AsSent(r, env, wide), name, v)
    ensures Belongs(env, Word(r.names[name]), v)
    decreases v, 0
  {
    var model := defs[name];
    var fields := FieldsOf(r, name, model);
    forall f, i | 0 <= f < |fields| && 0 <= i < |v.members| && v.members[i].key == fields[f].name
      ensures BelongsTo(env, fields[f].union, v.members[i].value)
    {
      assert Accepts(defs, AsSent(r, env, wide), FieldNode(r, name, model.props[f]), v.members[i].value);
      PreservedField(r, defs, env, wide, name, f, v.members[i].value);
    }
  }

  lemma {:induction false} PreservedField(r: Renderer, defs: Defs, env: Env, wide: bool, name: string, f: nat, v: Json)
    requires Renders(r, defs) && Declares(env, r, defs) && name in r.names && f < |defs[name].props|
    requires Accepts(defs, AsSent(r, env, wide), FieldNode(r, name, defs[name].props[f]), v)
    ensures var p := defs[name].props[f];
            var union := Meant(r, FieldNode(r, name, p), At(name, p.name));
            union.Some? && BelongsTo(env, union.value, v)
    decreases v, 2
  {
    var p, w := defs[name].props[f], At(name, defs[name].props[f].name);
    assert FieldRenders(r, name, p);
    if w in r.unions && FieldNode(r, name, p) == p.node { NamedUnionHolds(defs, AsSent(r, env, wide), p.node, v); }
    Preserved(r, defs, env, wide, FieldNode(r, name, p), w, v);
  }

  lemma NullableIff(node: Node)
    ensures Nullable(node) <==> node.anyOf.AnyOf? && exists part :: part in node.anyOf.parts && part.kind == Some(Null)
  {
    if node.anyOf.AnyOf? {
      var parts := node.anyOf.parts;
      if part :| part in parts && part.kind == Some(Null) {
        var i :| 0 <= i < |parts| && parts[i] == part;
        assert SaysNull(parts[i]);
      }
    }
  }

  /** What a hand-written type takes: its own values, and null exactly where the schema names it. */
  lemma HandWrittenTakes(env: Env, node: Node, v: Json)
    requires node.tsType.Some? && IsTypeText(node.tsType.value)
    ensures BelongsTo(env, HandWritten(node), v)
       <==> || BelongsTo(env, ParseType(node.tsType.value).value, v)
            || (v.JNull? && node.anyOf.AnyOf? && exists part :: part in node.anyOf.parts && part.kind == Some(Null))
  {
    var written, all := ParseType(node.tsType.value).value, HandWritten(node);
    NullableIff(node);
    if i :| 0 <= i < |written| && Belongs(env, written[i], v) { assert all[i] == written[i]; }
    if Nullable(node) { assert Belongs(env, all[|written|], v) <==> v.JNull?; }
  }

  /** The printed text of a field, hand-written or not, parses as the type meant. */
  lemma FieldParsesBack(r: Renderer, name: string, p: Prop)
    requires NamesAreNames(r) && FieldRenders(r, name, p)
    ensures var node, where := FieldNode(r, name, p), At(name, p.name);
            TypeOf(r, node, where).Text? && ParseType(TypeOf(r, node, where).text) == Meant(r, node, where)
  {
    Printed(r, FieldNode(r, name, p), At(name, p.name));
    TextParsesBack(r, FieldNode(r, name, p), At(name, p.name));
  }

  /** A line of a declaration as TypeScript reads it: a name, a question mark if the field may be left
      out, and a type. */
  function ReadField(line: string): Option<Field> {
    if !StartsWith(line, "  ") then None else
      var text := line[2..];
      var n := NameLength(text);
      var optional := StartsWith(text[n..], "?");
      var union := ReadUnionOf(if optional then text[n + 1..] else text[n..]);
      if n == 0 || union.None? then None else Some(Field(text[..n], optional, union.value))
  }

  /** The type after the colon. */
  function ReadUnionOf(tail: string): Option<Union> {
    if |tail| < 3 || !StartsWith(tail, ": ") || tail[|tail| - 1] != ';' then None else ParseType(tail[2..|tail| - 1])
  }

  lemma TailReads(text: string)
    ensures ReadUnionOf(": " + text + ";") == ParseType(text) && (": " + text + ";")[0] == ':'
  {
    var tail := ": " + text + ";";
    assert tail[..2] == ": " && tail[2..|tail| - 1] == text;
  }

  lemma MarkReads(mark: string, tail: string, optional: bool)
    requires mark == (if optional then "?" else "") && tail != "" && tail[0] == ':'
    ensures var s := mark + tail;
            && !IsNameChar(s[0]) && (StartsWith(s, "?") <==> optional)
            && (if optional then s[1..] else s) == tail
  {
    var s := mark + tail;
    assert s[..1] == [s[0]];
  }

  /** A printed line reads as the field it was printed for. */
  lemma LineReads(name: string, optional: bool, text: string)
    requires IsName(name) && ParseType(text).Some?
    ensures ReadField("  " + name + (if optional then "?" else "") + ": " + text + ";")
         == Some(Field(name, optional, ParseType(text).value))
  {
    var mark, tail := if optional then "?" else "", ": " + text + ";";
    TailReads(text);
    MarkReads(mark, tail, optional);
    NameRead(name, mark + tail);
    PartsRead(name, mark + tail, optional, tail);
    RegroupLine("  ", name, mark, ": ", text, ";");
  }

  lemma RegroupLine(indent: string, name: string, mark: string, colon: string, text: string, end: string)
    ensures indent + name + mark + colon + text + end == indent + (name + (mark + (colon + text + end)))
  {
  }

  lemma PartsRead(name: string, after: string, optional: bool, tail: string)
    requires name != "" && NameLength(name + after) == |name|
    requires (StartsWith(after, "?") <==> optional) && after != "" && (if optional then after[1..] else after) == tail
    requires ReadUnionOf(tail).Some?
    ensures ReadField("  " + (name + after)) == Some(Field(name, optional, ReadUnionOf(tail).value))
  {
    var text := name + after;
    Cut("  ", text);
    Cut(name, after);
    assert text[..|name|] == name;
    assert text[|name| + 1..] == after[1..];
  }

  lemma FieldLineReads(r: Renderer, name: string, model: Model, p: Prop)
    requires NamesAreNames(r) && IsName(p.name) && FieldRenders(r, name, p)
    ensures var t := TypeOf(r, FieldNode(r, name, p), At(name, p.name));
            t.Text? && ReadField(FieldLine(r, model, p, t.text)) == Some(FieldOf(r, name, model, p))
  {
    FieldParsesBack(r, name, p);
    LineReads(p.name, p.name !in Required(r, model), TypeOf(r, FieldNode(r, name, p), At(name, p.name)).text);
  }

  /** `interface`, without its comment lines: it refuses when some field has no type, else writes
      one line for each field. */
  method InterfaceLines(r: Renderer, name: string, model: Model, tsName: string) returns (lines: Option<seq<string>>)
    ensures lines.None? <==> exists p :: p in model.props && TypeOf(r, FieldNode(r, name, p), At(name, p.name)).Refused?
    ensures lines.Some? ==>
              && |lines.value| == |model.props| + 2
              && lines.value[0] == "export interface " + tsName + " {" && lines.value[|model.props| + 1] == "}"
              && forall i :: 0 <= i < |model.props| ==>
                   && lines.value[i + 1] == FieldLine(r, model, model.props[i],
                        TypeOf(r, FieldNode(r, name, model.props[i]), At(name, model.props[i].name)).text)
                   && (NamesAreNames(r) && IsName(model.props[i].name) && FieldRenders(r, name, model.props[i])
                       ==> ReadField(lines.value[i + 1]) == Some(FieldsOf(r, name, model)[i]))
  {
    var out := ["export interface " + tsName + " {"];
    for i := 0 to |model.props|
      invariant |out| == i + 1 && out[0] == "export interface " + tsName + " {"
      invariant forall k :: 0 <= k < i ==>
                  var t := TypeOf(r, FieldNode(r, name, model.props[k]), At(name, model.props[k].name));
                  t.Text? && out[k + 1] == FieldLine(r, model, model.props[k], t.text)
    {
      var p := model.props[i];
      var t := TypeOf(r, FieldNode(r, name, p), At(name, p.name));
      if t.Refused? { return None; }
      out := out + [FieldLine(r, model, p, t.text)];
    }
    lines := Some(out + ["}"]);
    forall i | 0 <= i < |model.props| && NamesAreNames(r) && IsName(model.props[i].name)
               && FieldRenders(r, name, model.props[i])
      ensures ReadField(lines.value[i + 1]) == Some(FieldsOf(r, name, model)[i])
    {
      FieldLineReads(r, name, model, model.props[i]);
    }
  }

  /** The generator loses nothing: for a registered field, what its schema accepts, or its hand-written
      type where it has one, belongs to the type that the printed text parses as. */
  lemma TextIsSound(r: Renderer, defs: Defs, env: Env, wide: bool, name: string, i: nat, v: Json)
    requires NamesAreNames(r) && Renders(r, defs) && Declares(env, r, defs)
    requires name in r.names && i < |defs[name].props|
    requires Accepts(defs, AsSent(r, env, wide), FieldNode(r, name, defs[name].props[i]), v)
    ensures var p := defs[name].props[i];
            var text := TypeOf(r, FieldNode(r, name, p), At(name, p.name));
            text.Text? && ParseType(text.text).Some? && BelongsTo(env, ParseType(text.text).value, v)
  {
    var p := defs[name].props[i];
    assert FieldRenders(r, name, p);
    FieldParsesBack(r, name, p);
    PreservedField(r, defs, env, wide, name, i, v);
  }

  // ------------------------------------------------------------ nothing is added

  predicate Bare(node: Node) { node.kind.None? && node.items.NoItems? && node.additional.NoAdditional? }

  /** No keyword beside the one that `type_of` goes by narrows the node's values further. */
  predicate Single(node: Node)
    decreases node
  {
    if node.tsType.Some? then true
    else if node.anyOf.AnyOf? then
      && node.ref.None? && node.enum_.None? && node.const_.None? && Bare(node)
      && forall i :: 0 <= i < |node.anyOf.parts| ==> Single(node.anyOf.parts[i])
    else if node.ref.Some? then node.enum_.None? && node.const_.None? && Bare(node)
    else if node.enum_.Some? || node.const_.Some? then
      (node.enum_.None? || node.const_.None?) && (node.kind.None? || node.kind == Some(String))
    else match node.kind
      case Some(Array) => node.items.Items? ==> Single(node.items.node)
      case Some(Object) => node.additional.Values? && node.additional.node != EMPTY ==> Single(node.additional.node)
      case _ => true
  }

  /** The literals under a node, up to arrays, records and hand-written types, are these values. */
  predicate Carries(node: Node, values: seq<string>)
    decreases node
  {
    node.tsType.None? ==>
      && (node.anyOf.AnyOf? ==> forall i :: 0 <= i < |node.anyOf.parts| ==> Carries(node.anyOf.parts[i], values))
      && (node.enum_.Some? || node.const_.Some? ==> LiteralValues(node) == values)
  }

  ghost predicate AllSingle(r: Renderer, defs: Defs)
    requires Renders(r, defs)
  {
    forall n :: n in r.names ==>
      && (forall i :: 0 <= i < |defs[n].props| ==> Single(FieldNode(r, n, defs[n].props[i])))
      && forall key :: key in Required(r, defs[n]) ==> IsProp(defs[n], key)
  }

  lemma UnionCarries(node: Node)
    requires UnionValues(node).Some? && Single(node)
    ensures Carries(node, UnionValues(node).value)
  {
    if node.tsType.Some? {
    } else if node.anyOf.AnyOf? {
      forall i | 0 <= i < |node.anyOf.parts| ensures Carries(node.anyOf.parts[i], UnionValues(node).value) {
        var part := node.anyOf.parts[i];
        if !SaysNull(part) { assert part in NotNull(node.anyOf.parts); }
      }
    } else {
      assert [node][0] == node;
    }
  }

  /** When the schemas use one keyword at a time, every value that belongs to the type is accepted,
      read as widely as TypeScript can say. */
  lemma {:induction false} NothingAdded(r: Renderer, defs: Defs, env: Env, node: Node, where: Where, v: Json)
    requires Renders(r, defs) && Declares(env, r, defs) && AllSingle(r, defs)
    requires Plain(node) && Single(node) && Meant(r, node, where).Some?
    requires where in r.unions ==> Carries(node, env[r.unions[where]].values)
    requires BelongsTo(env, Meant(r, node, where).value, v)
    ensures Accepts(defs, AsSent(r, env, true), node, v)
    decreases v, 1, node, 2
  {
    if node.tsType.Some? {
      assert ByHand(AsSent(r, env, true), node);
    } else if node.anyOf.AnyOf? {
      NothingAddedPart(r, defs, env, node, where, v);
    } else if node.ref.Some? {
      NothingAddedRef(r, defs, env, node, where, v);
    } else if node.enum_.Some? || node.const_.Some? {
      NothingAddedLiteral(r, defs, env, node, where, v);
    } else {
      NothingAddedKind(r, defs, env, node, where, v);
    }
  }

  lemma {:induction false} NothingAddedPart(r: Renderer, defs: Defs, env: Env, node: Node, where: Where, v: Json)
    requires Renders(r, defs) && Declares(env, r, defs) && AllSingle(r, defs)
    requires Plain(node) && Single(node) && Meant(r, node, where).Some? && node.tsType.None? && node.anyOf.AnyOf?
    requires where in r.unions ==> Carries(node, env[r.unions[where]].values)
    requires BelongsTo(env, Meant(r, node, where).value, v)
    ensures Accepts(defs, AsSent(r, env, true), node, v)
    decreases v, 1, node, 1
  {
    var i := BelongsToSome(env, MeantAll(r, node.anyOf.parts, where).value, v);
    NothingAdded(r, defs, env, node.anyOf.parts[i], where, v);
    PartAccepts(defs, AsSent(r, env, true), node, i, v);
  }

  lemma PartAccepts(defs: Defs, how: How, node: Node, i: nat, v: Json)
    requires node.tsType.None? && node.anyOf.AnyOf? && Single(node) && i < |node.anyOf.parts|
    requires Accepts(defs, how, node.anyOf.parts[i], v)
    ensures Accepts(defs, how, node, v)
  {
  }

  lemma {:induction false} NothingAddedRef(r: Renderer, defs: Defs, env: Env, node: Node, where: Where, v: Json)
    requires Renders(r, defs) && Declares(env, r, defs) && AllSingle(r, defs)
    requires Single(node) && Meant(r, node, where).Some?
    requires node.tsType.None? && node.anyOf.NoAnyOf? && node.ref.Some?
    requires BelongsTo(env, Meant(r, node, where).value, v)
    ensures Accepts(defs, AsSent(r, env, true), node, v)
    decreases v, 1, node, 1
  {
    var name := LastSegment(node.ref.value);
    var u := [Word(r.names[name])];
    assert Meant(r, node, where) == Some(u);
    assert Belongs(env, u[0], v);
    NothingAddedModel(r, defs, env, name, v);
  }

  lemma NothingAddedLiteral(r: Renderer, defs: Defs, env: Env, node: Node, where: Where, v: Json)
    requires Declares(env, r, defs) && Single(node)
    requires node.tsType.None? && node.anyOf.NoAnyOf? && node.ref.None? && (node.enum_.Some? || node.const_.Some?)
    requires where in r.unions ==> Carries(node, env[r.unions[where]].values)
    requires BelongsTo(env, Meant(r, node, where).value, v)
    ensures Accepts(defs, AsSent(r, env, true), node, v)
  {
    var u := Meant(r, node, where).value;
    var i :| 0 <= i < |u| && Belongs(env, u[i], v);
    assert v.JStr? && v.s in LiteralValues(node);
  }

  lemma {:induction false} NothingAddedKind(r: Renderer, defs: Defs, env: Env, node: Node, where: Where, v: Json)
    requires Renders(r, defs) && Declares(env, r, defs) && AllSingle(r, defs)
    requires Plain(node) && Single(node) && Meant(r, node, where).Some?
    requires node.tsType.None? && node.anyOf.NoAnyOf? && node.ref.None? && node.enum_.None? && node.const_.None?
    requires BelongsTo(env, Meant(r, node, where).value, v)
    ensures Accepts(defs, AsSent(r, env, true), node, v)
    decreases v, 1, node, 1
  {
    if node.kind == Some(Array) {
      NothingAddedArray(r, defs, env, node, where, v);
    } else if node.kind == Some(Object) {
      NothingAddedRecord(r, defs, env, node, where, v);
    } else {
      assert Belongs(env, Meant(r, node, where).value[0], v);
    }
  }

  lemma {:induction false} NothingAddedArray(r: Renderer, defs: Defs, env: Env, node: Node, where: Where, v: Json)
    requires Renders(r, defs) && Declares(env, r, defs) && AllSingle(r, defs)
    requires Plain(node) && Single(node) && Meant(r, node, where).Some? && node.kind == Some(Array)
    requires node.tsType.None? && node.anyOf.NoAnyOf? && node.ref.None? && node.enum_.None? && node.const_.None?
    requires BelongsTo(env, Meant(r, node, where).value, v)
    ensures Accepts(defs, AsSent(r, env, true), node, v)
    decreases v, 1, node, 0
  {
    assert Belongs(env, Meant(r, node, where).value[0], v);
    assert Nowhere !in r.unions;
    forall i | 0 <= i < |v.elements|
      ensures Accepts(defs, AsSent(r, env, true), node.items.node, v.elements[i])
    {
      NothingAdded(r, defs, env, node.items.node, Nowhere, v.elements[i]);
    }
  }

  lemma {:induction false} NothingAddedRecord(r: Renderer, defs: Defs, env: Env, node: Node, where: Where, v: Json)
    requires Renders(r, defs) && Declares(env, r, defs) && AllSingle(r, defs)
    requires Plain(node) && Single(node) && Meant(r, node, where).Some? && node.kind == Some(Object)
    requires node.tsType.None? && node.anyOf.NoAnyOf? && node.ref.None? && node.enum_.None? && node.const_.None?
    requires BelongsTo(env, Meant(r, node, where).value, v)
    ensures Accepts(defs, AsSent(r, env, true), node, v)
    decreases v, 1, node, 0
  {
    assert Belongs(env, Meant(r, node, where).value[0], v);
    assert Nowhere !in r.unions;
    if node.additional.Values? {
      forall i | 0 <= i < |v.members|
        ensures Accepts(defs, AsSent(r, env, true), node.additional.node, v.members[i].value)
      {
        if node.additional.node != EMPTY {
          NothingAdded(r, defs, env, node.additional.node, Nowhere, v.members[i].value);
        }
      }
    }
  }

  lemma {:induction false} NothingAddedModel(r: Renderer, defs: Defs, env: Env, name: string, v: Json)
    requires Renders(r, defs) && Declares(env, r, defs) && AllSingle(r, defs)
    requires name in r.names && Belongs(env, Word(r.names[name]), v)
    ensures AcceptsModel(defs, AsSent(r, env, true), name, v)
    decreases v, 0
  {
    var model := defs[name];
    var fields := FieldsOf(r, name, model);
    forall p, i | 0 <= p < |model.props| && 0 <= i < |v.members| && v.members[i].key == model.props[p].name
      ensures Accepts(defs, AsSent(r, env, true), FieldNode(r, name, model.props[p]), v.members[i].value)
    {
      assert v.members[i].key == fields[p].name;
      NothingAddedField(r, defs, env, name, p, v.members[i].value);
    }
    forall key | key in Required(r, model) ensures HasKey(v, key) {
      var p :| 0 <= p < |model.props| && model.props[p].name == key;
      assert !fields[p].optional && fields[p].name == key;
    }
  }

  lemma {:induction false} NothingAddedField(r: Renderer, defs: Defs, env: Env, name: string, f: nat, v: Json)
    requires Renders(r, defs) && Declares(env, r, defs) && AllSingle(r, defs)
    requires name in r.names && f < |defs[name].props|
    requires var p := defs[name].props[f];
             var union := Meant(r, FieldNode(r, name, p), At(name, p.name));
             union.Some? && BelongsTo(env, union.value, v)
    ensures Accepts(defs, AsSent(r, env, true), FieldNode(r, name, defs[name].props[f]), v)
    decreases v, 2
  {
    var p, w := defs[name].props[f], At(name, defs[name].props[f].name);
    assert FieldRenders(r, name, p) && Single(FieldNode(r, name, p));
    if w in r.unions && FieldNode(r, name, p) == p.node { UnionCarries(p.node); }
    NothingAdded(r, defs, env, FieldNode(r, name, p), w, v);
  }

  // ------------------------------------------------------------ the exact type

  /** A registered model's interface has exactly the values that the model accepts when hand-written types
      are judged in place of the schema, integers may be any number and closed models are open. */
  lemma InterfaceIsExact(r: Renderer, defs: Defs, env: Env, name: string, v: Json)
    requires Renders(r, defs) && Declares(env, r, defs) && AllSingle(r, defs) && name in r.names
    ensures Belongs(env, Word(r.names[name]), v)
       <==> AcceptsModel(defs, AsSent(r, env, true), name, v)
  {
    if Belongs(env, Word(r.names[name]), v) {
      NothingAddedModel(r, defs, env, name, v);
    }
    if AcceptsModel(defs, AsSent(r, env, true), name, v) {
      PreservedModel(r, defs, env, true, name, v);
    }
  }

  // ------------------------------------------------------------ values that leave a default out

  /** The value, or one within it that some node under this one describes, leaves out a field that has
      a default value; within `anyOf`, in every part that accepts the value otherwise. */
  ghost predicate LeavesOut(defs: Defs, wide: bool, hand: Hand, node: Node, v: Json)
    decreases v, 1, node
  {
    !ByHand(How(false, wide, hand), node) &&
    (|| (node.anyOf.AnyOf? && forall i :: 0 <= i < |node.anyOf.parts| ==>
           (Accepts(defs, How(false, wide, hand), node.anyOf.parts[i], v)
            ==> LeavesOut(defs, wide, hand, node.anyOf.parts[i], v)))
     || (node.ref.Some? && LastSegment(node.ref.value) in defs
         && LeavesOutOfModel(defs, wide, hand, LastSegment(node.ref.value), v))
     || (node.items.Items? && v.JArr?
         && exists i :: 0 <= i < |v.elements| && LeavesOut(defs, wide, hand, node.items.node, v.elements[i]))
     || (node.additional.Values? && v.JObj?
         && exists i :: 0 <= i < |v.members| && LeavesOut(defs, wide, hand, node.additional.node, v.members[i].value)))
  }

  ghost predicate LeavesOutOfModel(defs: Defs, wide: bool, hand: Hand, name: string, v: Json)
    requires name in defs
    decreases v, 0
  {
    var model, how := defs[name], How(false, wide, hand);
    && v.JObj?
    && (|| (exists key :: key in model.defaults && !HasKey(v, key))
        || exists p, i :: 0 <= p < |model.props| && 0 <= i < |v.members|
                          && v.members[i].key == model.props[p].name
                          && LeavesOut(defs, wide, hand, NodeOf(how, name, model.props[p]), v.members[i].value))
  }

  /** Of what the node accepts, the server's values are those that leave out no default. */
  ghost predicate SentIff(defs: Defs, wide: bool, hand: Hand, node: Node, v: Json) {
    Accepts(defs, How(true, wide, hand), node, v)
    <==> Accepts(defs, How(false, wide, hand), node, v) && !LeavesOut(defs, wide, hand, node, v)
  }

  /** The same for every value that the node's keywords look at. */
  ghost predicate SentWithin(defs: Defs, wide: bool, hand: Hand, node: Node, v: Json) {
    && (node.anyOf.AnyOf? ==>
          forall i :: 0 <= i < |node.anyOf.parts| ==> SentIff(defs, wide, hand, node.anyOf.parts[i], v))
    && (node.ref.Some? && LastSegment(node.ref.value) in defs ==>
          SentModel(defs, wide, hand, LastSegment(node.ref.value), v))
    && (node.items.Items? && v.JArr? ==>
          forall i :: 0 <= i < |v.elements| ==> SentIff(defs, wide, hand, node.items.node, v.elements[i]))
    && (node.additional.Values? && v.JObj? ==>
          forall i :: 0 <= i < |v.members| ==> SentIff(defs, wide, hand, node.additional.node, v.members[i].value))
  }

  ghost predicate SentModel(defs: Defs, wide: bool, hand: Hand, name: string, v: Json)
    requires name in defs
  {
    AcceptsModel(defs, How(true, wide, hand), name, v)
    <==> AcceptsModel(defs, How(false, wide, hand), name, v) && !LeavesOutOfModel(defs, wide, hand, name, v)
  }

  lemma SentIsAccepted(defs: Defs, wide: bool, hand: Hand, node: Node, v: Json)
    requires SentWithin(defs, wide, hand, node, v) && Accepts(defs, How(true, wide, hand), node, v)
    ensures Accepts(defs, How(false, wide, hand), node, v)
  {
  }

  lemma SentLeavesNothingOut(defs: Defs, wide: bool, hand: Hand, node: Node, v: Json)
    requires SentWithin(defs, wide, hand, node, v) && Accepts(defs, How(true, wide, hand), node, v)
    ensures !LeavesOut(defs, wide, hand, node, v)
  {
  }

  lemma NothingLeftOutIsSent(defs: Defs, wide: bool, hand: Hand, node: Node, v: Json)
    requires SentWithin(defs, wide, hand, node, v)
    requires Accepts(defs, How(false, wide, hand), node, v) && !LeavesOut(defs, wide, hand, node, v)
    ensures Accepts(defs, How(true, wide, hand), node, v)
  {
  }

  lemma {:induction false} SentWithinAll(defs: Defs, wide: bool, hand: Hand, node: Node, v: Json)
    ensures SentWithin(defs, wide, hand, node, v)
    decreases v, 1, node, 0
  {
    if node.anyOf.AnyOf? {
      forall i | 0 <= i < |node.anyOf.parts| ensures SentIff(defs, wide, hand, node.anyOf.parts[i], v) {
        SentIffNothingLeftOut(defs, wide, hand, node.anyOf.parts[i], v);
      }
    }
    if node.ref.Some? && LastSegment(node.ref.value) in defs {
      SentModelIff(defs, wide, hand, LastSegment(node.ref.value), v);
    }
    if node.items.Items? && v.JArr? {
      forall i | 0 <= i < |v.elements| ensures SentIff(defs, wide, hand, node.items.node, v.elements[i]) {
        SentIffNothingLeftOut(defs, wide, hand, node.items.node, v.elements[i]);
      }
    }
    if node.additional.Values? && v.JObj? {
      forall i | 0 <= i < |v.members| ensures SentIff(defs, wide, hand, node.additional.node, v.members[i].value) {
        SentIffNothingLeftOut(defs, wide, hand, node.additional.node, v.members[i].value);
      }
    }
  }

  lemma {:induction false} SentIffNothingLeftOut(defs: Defs, wide: bool, hand: Hand, node: Node, v: Json)
    ensures SentIff(defs, wide, hand, node, v)
    decreases v, 1, node, 1
  {
    SentWithinAll(defs, wide, hand, node, v);
    if Accepts(defs, How(true, wide, hand), node, v) {
      SentIsAccepted(defs, wide, hand, node, v);
      SentLeavesNothingOut(defs, wide, hand, node, v);
    } else if Accepts(defs, How(false, wide, hand), node, v) && !LeavesOut(defs, wide, hand, node, v) {
      NothingLeftOutIsSent(defs, wide, hand, node, v);
    }
  }

  /** Of what a model accepts, the server's values are those that leave out no default, whether
      hand-written types are looked at or not. */
  lemma {:induction false} SentModelIff(defs: Defs, wide: bool, hand: Hand, name: string, v: Json)
    requires name in defs
    ensures SentModel(defs, wide, hand, name, v)
    decreases v, 0
  {
    var props, how := defs[name].props, How(false, wide, hand);
    if v.JObj? {
      forall p, i | 0 <= p < |props| && 0 <= i < |v.members| && v.members[i].key == props[p].name
        ensures SentIff(defs, wide, hand, NodeOf(how, name, props[p]), v.members[i].value)
      {
        SentIffNothingLeftOut(defs, wide, hand, NodeOf(how, name, props[p]), v.members[i].value);
      }
    }
  }

  /** Reading widely accepts more. */
  lemma {:induction false} WideAcceptsMore(defs: Defs, sent: bool, hand: Hand, node: Node, v: Json)
    requires Accepts(defs, How(sent, false, hand), node, v)
    ensures Accepts(defs, How(sent, true, hand), node, v)
    decreases v, 1, node
  {
    var narrow, wide := How(sent, false, hand), How(sent, true, hand);
    if !ByHand(narrow, node) {
      if node.anyOf.AnyOf? {
        var i :| 0 <= i < |node.anyOf.parts| && Accepts(defs, narrow, node.anyOf.parts[i], v);
        WideAcceptsMore(defs, sent, hand, node.anyOf.parts[i], v);
      }
      if node.ref.Some? {
        WideModelAcceptsMore(defs, sent, hand, LastSegment(node.ref.value), v);
      }
      if node.items.Items? && v.JArr? {
        forall i | 0 <= i < |v.elements| ensures Accepts(defs, wide, node.items.node, v.elements[i]) {
          WideAcceptsMore(defs, sent, hand, node.items.node, v.elements[i]);
        }
      }
      if node.additional.Values? && v.JObj? {
        forall i | 0 <= i < |v.members| ensures Accepts(defs, wide, node.additional.node, v.members[i].value) {
          WideAcceptsMore(defs, sent, hand, node.additional.node, v.members[i].value);
        }
      }
    }
  }

  lemma {:induction false} WideModelAcceptsMore(defs: Defs, sent: bool, hand: Hand, name: string, v: Json)
    requires name in defs && AcceptsModel(defs, How(sent, false, hand), name, v)
    ensures AcceptsModel(defs, How(sent, true, hand), name, v)
    decreases v, 0
  {
    var props, narrow, wide := defs[name].props, How(sent, false, hand), How(sent, true, hand);
    forall p, i | 0 <= p < |props| && 0 <= i < |v.members| && v.members[i].key == props[p].name
      ensures Accepts(defs, wide, NodeOf(wide, name, props[p]), v.members[i].value)
    {
      assert NodeOf(wide, name, props[p]) == NodeOf(narrow, name, props[p]);
      WideAcceptsMore(defs, sent, hand, NodeOf(narrow, name, props[p]), v.members[i].value);
    }
  }

  /** With `sent_defaults`, a value that the model accepts, be it to the letter or read widely, and whose
      hand-written fields are right, fails the interface exactly when it, or a value within it, leaves
      out a field that has a default. */
  lemma FailsIffDefaultLeftOut(r: Renderer, defs: Defs, env: Env, name: string, wide: bool, v: Json)
    requires Renders(r, defs) && Declares(env, r, defs) && AllSingle(r, defs) && name in r.names && r.sentDefaults
    requires AcceptsModel(defs, How(false, wide, Judged(r, env)), name, v)
    ensures !Belongs(env, Word(r.names[name]), v) <==> LeavesOutOfModel(defs, true, Judged(r, env), name, v)
  {
    if !wide { WideModelAcceptsMore(defs, false, Judged(r, env), name, v); }
    InterfaceIsExact(r, defs, env, name, v);
    SentModelIff(defs, true, Judged(r, env), name, v);
  }

  // ------------------------------------------------------------ values of the schema outside the type

  /** The value, or one within it, leaves out a default that the server sends, or stands where a
      hand-written type is and does not belong to it. Within `anyOf` every part that accepts the value
      misses so, and no other part takes it by its hand-written types. */
  ghost predicate Misses(defs: Defs, r: Renderer, env: Env, wide: bool, node: Node, v: Json)
    decreases v, 1, node
  {
    if node.tsType.Some? then !BelongsTo(env, HandWritten(node), v) else
      || (node.anyOf.AnyOf? && forall i :: 0 <= i < |node.anyOf.parts| ==>
            if Accepts(defs, How(false, wide, Ignored), node.anyOf.parts[i], v)
            then Misses(defs, r, env, wide, node.anyOf.parts[i], v)
            else !Accepts(defs, AsSent(r, env, wide), node.anyOf.parts[i], v))
      || (node.ref.Some? && LastSegment(node.ref.value) in defs
          && MissesModel(defs, r, env, wide, LastSegment(node.ref.value), v))
      || (node.items.Items? && v.JArr?
          && exists i :: 0 <= i < |v.elements| && Misses(defs, r, env, wide, node.items.node, v.elements[i]))
      || (node.additional.Values? && v.JObj?
          && exists i :: 0 <= i < |v.members| && Misses(defs, r, env, wide, node.additional.node, v.members[i].value))
  }

  ghost predicate MissesModel(defs: Defs, r: Renderer, env: Env, wide: bool, name: string, v: Json)
    requires name in defs
    decreases v, 0
  {
    var model := defs[name];
    && v.JObj?
    && (|| (r.sentDefaults && exists key :: key in model.defaults && !HasKey(v, key))
        || exists p, i :: 0 <= p < |model.props| && 0 <= i < |v.members|
                          && v.members[i].key == model.props[p].name
                          && Misses(defs, r, env, wide, FieldNode(r, name, model.props[p]), v.members[i].value))
  }

  /** Of what a schema accepts, what is sent and right by hand is what does not miss. */
  ghost predicate RightIff(defs: Defs, r: Renderer, env: Env, wide: bool, node: Node, v: Json) {
    Accepts(defs, How(false, wide, Ignored), node, v) ==>
      (Accepts(defs, AsSent(r, env, wide), node, v) <==> !Misses(defs, r, env, wide, node, v))
  }

  ghost predicate RightModel(defs: Defs, r: Renderer, env: Env, wide: bool, name: string, v: Json)
    requires name in defs
  {
    AcceptsModel(defs, How(false, wide, Ignored), name, v) ==>
      (AcceptsModel(defs, AsSent(r, env, wide), name, v) <==> !MissesModel(defs, r, env, wide, name, v))
  }

  ghost predicate RightWithin(defs: Defs, r: Renderer, env: Env, wide: bool, node: Node, v: Json) {
    && (node.anyOf.AnyOf? ==>
          forall i :: 0 <= i < |node.anyOf.parts| ==> RightIff(defs, r, env, wide, node.anyOf.parts[i], v))
    && (node.ref.Some? && LastSegment(node.ref.value) in defs ==>
          RightModel(defs, r, env, wide, LastSegment(node.ref.value), v))
    && (node.items.Items? && v.JArr? ==>
          forall i :: 0 <= i < |v.elements| ==> RightIff(defs, r, env, wide, node.items.node, v.elements[i]))
    && (node.additional.Values? && v.JObj? ==>
          forall i :: 0 <= i < |v.members| ==> RightIff(defs, r, env, wide, node.additional.node, v.members[i].value))
  }

  lemma RightDoesNotMiss(defs: Defs, r: Renderer, env: Env, wide: bool, node: Node, v: Json)
    requires RightWithin(defs, r, env, wide, node, v) && Accepts(defs, How(false, wide, Ignored), node, v)
    requires Accepts(defs, AsSent(r, env, wide), node, v)
    ensures !Misses(defs, r, env, wide, node, v)
  {
  }

  lemma NotMissingIsRight(defs: Defs, r: Renderer, env: Env, wide: bool, node: Node, v: Json)
    requires RightWithin(defs, r, env, wide, node, v) && Accepts(defs, How(false, wide, Ignored), node, v)
    requires !Misses(defs, r, env, wide, node, v)
    ensures Accepts(defs, AsSent(r, env, wide), node, v)
  {
  }

  lemma {:induction false} RightWithinAll(defs: Defs, r: Renderer, env: Env, wide: bool, node: Node, v: Json)
    ensures RightWithin(defs, r, env, wide, node, v)
    decreases v, 1, node, 0
  {
    if node.anyOf.AnyOf? {
      forall i | 0 <= i < |node.anyOf.parts| ensures RightIff(defs, r, env, wide, node.anyOf.parts[i], v) {
        RightIffNotMissing(defs, r, env, wide, node.anyOf.parts[i], v);
      }
    }
    if node.ref.Some? && LastSegment(node.ref.value) in defs {
      RightModelIff(defs, r, env, wide, LastSegment(node.ref.value), v);
    }
    if node.items.Items? && v.JArr? {
      forall i | 0 <= i < |v.elements| ensures RightIff(defs, r, env, wide, node.items.node, v.elements[i]) {
        RightIffNotMissing(defs, r, env, wide, node.items.node, v.elements[i]);
      }
    }
    if node.additional.Values? && v.JObj? {
      forall i | 0 <= i < |v.members|
        ensures RightIff(defs, r, env, wide, node.additional.node, v.members[i].value)
      {
        RightIffNotMissing(defs, r, env, wide, node.additional.node, v.members[i].value);
      }
    }
  }

  lemma {:induction false} RightIffNotMissing(defs: Defs, r: Renderer, env: Env, wide: bool, node: Node, v: Json)
    ensures RightIff(defs, r, env, wide, node, v)
    decreases v, 1, node, 1
  {
    RightWithinAll(defs, r, env, wide, node, v);
    if Accepts(defs, How(false, wide, Ignored), node, v) {
      if Accepts(defs, AsSent(r, env, wide), node, v) {
        RightDoesNotMiss(defs, r, env, wide, node, v);
      } else if !Misses(defs, r, env, wide, node, v) {
        NotMissingIsRight(defs, r, env, wide, node, v);
      }
    }
  }

  /** A schema accepts a field's value whatever type is written by hand. */
  lemma HandIgnored(defs: Defs, how: How, r: Renderer, name: string, p: Prop, v: Json)
    requires how.hand.Ignored?
    ensures Accepts(defs, how, FieldNode(r, name, p), v) == Accepts(defs, how, p.node, v)
  {
  }

  lemma {:induction false} RightModelIff(defs: Defs, r: Renderer, env: Env, wide: bool, name: string, v: Json)
    requires name in defs
    ensures RightModel(defs, r, env, wide, name, v)
    decreases v, 0
  {
    var props := defs[name].props;
    if v.JObj? {
      forall p, i | 0 <= p < |props| && 0 <= i < |v.members| && v.members[i].key == props[p].name
        ensures RightIff(defs, r, env, wide, FieldNode(r, name, props[p]), v.members[i].value)
        ensures Accepts(defs, How(false, wide, Ignored), FieldNode(r, name, props[p]), v.members[i].value)
             == Accepts(defs, How(false, wide, Ignored), props[p].node, v.members[i].value)
      {
        HandIgnored(defs, How(false, wide, Ignored), r, name, props[p], v.members[i].value);
        RightIffNotMissing(defs, r, env, wide, FieldNode(r, name, props[p]), v.members[i].value);
      }
    }
  }

  /** A value that the schema accepts, be it to the letter or read widely, fails the interface exactly when it,
      or a value within it, leaves out a default that the server sends or a hand-written type does not
      take it. */
  lemma FailsIffMisses(r: Renderer, defs: Defs, env: Env, name: string, wide: bool, v: Json)
    requires Renders(r, defs) && Declares(env, r, defs) && AllSingle(r, defs) && name in r.names
    requires AcceptsModel(defs, How(false, wide, Ignored), name, v)
    ensures !Belongs(env, Word(r.names[name]), v) <==> MissesModel(defs, r, env, true, name, v)
  {
    if !wide { WideModelAcceptsMore(defs, false, Ignored, name, v); }
    InterfaceIsExact(r, defs, env, name, v);
    RightModelIff(defs, r, env, true, name, v);
  }

  /** Even where the schemas say their types in many ways, nothing else makes an accepted value fail. */
  lemma FailsOnlyByMissing(r: Renderer, defs: Defs, env: Env, name: string, wide: bool, v: Json)
    requires Renders(r, defs) && Declares(env, r, defs) && name in r.names
    requires AcceptsModel(defs, How(false, wide, Ignored), name, v) && !Belongs(env, Word(r.names[name]), v)
    ensures MissesModel(defs, r, env, wide, name, v)
  {
    RightModelIff(defs, r, env, wide, name, v);
    if AcceptsModel(defs, AsSent(r, env, wide), name, v) { PreservedModel(r, defs, env, wide, name, v); }
  }

  // ------------------------------------------------------------ inputs that show it

  /** A closed model rejects a value with another field, and its interface holds it. */
  lemma ClosedModelWidens() returns (r: Renderer, defs: Defs, env: Env, v: Json)
    ensures Renders(r, defs) && Declares(env, r, defs) && "Counts" in r.names
    ensures !AcceptsModel(defs, How(false, false, Ignored), "Counts", v) && Belongs(env, Word(r.names["Counts"]), v)
  {
    r := Renderer(map["Counts" := "RunCounts"], map[], map[], false);
    defs := map["Counts" := Model([], {}, {}, true)];
    env := map["RunCounts" := Interface(FieldsOf(r, "Counts", defs["Counts"]))];
    v := JObj([Member("other", JNull)]);
    assert "RunCounts" !in BUILT_IN;
    assert v.members[0].key == "other" && !IsProp(defs["Counts"], "other");
  }

  /** TypeScript has no integers: a field of kind `integer` gets a type with more values. */
  lemma IntegerWidens(r: Renderer, defs: Defs, env: Env)
    ensures var node := EMPTY.(kind := Some(Integer));
            && Meant(r, node, Nowhere) == Some([Word("number")])
            && BelongsTo(env, [Word("number")], JNum(1.5))
            && !Accepts(defs, How(false, false, Ignored), node, JNum(1.5))
  {
    var one := [Word("number")];
    assert Belongs(env, one[0], JNum(1.5));
  }

  /** A run's model: what changed in the standards, an object or null with a hand-written type, and a number
      with a default. */
  function RunModel(): Model {
    Model([Prop("standards_change", EMPTY.(anyOf := AnyOf([EMPTY.(kind := Some(Object)), EMPTY.(kind := Some(Null))]))),
           Prop("total", EMPTY.(kind := Some(Number)))],
          {}, {"total"}, false)
  }

  function RunRenderer(): Renderer {
    Renderer(map["Run" := "RunSummary"], map[], map[At("Run", "standards_change") := "StandardsChange"], true)
  }

  /** The hand-written type asks for a field of its own. */
  function RunEnv(): Env {
    map["RunSummary" := Interface(FieldsOf(RunRenderer(), "Run", RunModel())),
        "StandardsChange" := Interface([Field("added", false, [Word("string")])])]
  }

  lemma NameIsTypeText(name: string)
    requires IsName(name)
    ensures IsTypeText(name) && ParseType(name) == Some([Word(name)])
  {
    ParseShow([Word(name)]);
  }

  lemma OtherField(model: string, a: string, b: string)
    requires |a| != |b|
    ensures At(model, a) != At(model, b)
  {
  }

  lemma RunFields()
    ensures var node := FieldNode(RunRenderer(), "Run", RunModel().props[0]);
            node.tsType == Some("StandardsChange") && HandWritten(node) == [Word("StandardsChange"), Word("null")]
    ensures IsTypeText("StandardsChange")
    ensures FieldNode(RunRenderer(), "Run", RunModel().props[1]) == RunModel().props[1].node
    ensures Meant(RunRenderer(), RunModel().props[1].node, At("Run", "total")) == Some([Word("number")])
  {
    NameIsTypeText("StandardsChange");
    OtherField("Run", "standards_change", "total");
    RunNullable();
  }

  lemma RunNullable()
    ensures Nullable(RunModel().props[0].node)
  {
    assert SaysNull(RunModel().props[0].node.anyOf.parts[1]);
  }

  /** A renderer of one model with two fields. */
  lemma TwoFields(r: Renderer, defs: Defs, name: string)
    requires r.names.Keys == {name} && name in defs && |defs[name].props| == 2
    requires FieldRenders(r, name, defs[name].props[0]) && FieldRenders(r, name, defs[name].props[1])
    requires defs[name].props[0].name != defs[name].props[1].name
    ensures Renders(r, defs)
  {
    forall n, i | n in r.names && 0 <= i < |defs[n].props| ensures FieldRenders(r, n, defs[n].props[i]) {
      assert i == 0 || i == 1;
    }
  }

  lemma TwoFieldsSingle(r: Renderer, defs: Defs, name: string)
    requires r.names.Keys == {name} && name in defs && |defs[name].props| == 2 && Renders(r, defs)
    requires Single(FieldNode(r, name, defs[name].props[0])) && Single(FieldNode(r, name, defs[name].props[1]))
    requires forall key :: key in Required(r, defs[name]) ==> key == defs[name].props[1].name
    ensures AllSingle(r, defs)
  {
    forall n, i | n in r.names && 0 <= i < |defs[n].props| ensures Single(FieldNode(r, n, defs[n].props[i])) {
      assert i == 0 || i == 1;
    }
  }

  lemma OneDeclared(r: Renderer, defs: Defs, env: Env, name: string, tsName: string)
    requires r.names.Keys == {name} && name in defs && r.names[name] == tsName && tsName !in BUILT_IN
    requires r.unions == map[] && tsName in env && env[tsName] == Interface(FieldsOf(r, name, defs[name]))
    ensures Declares(env, r, defs)
  {
  }

  lemma RunFieldsRender()
    ensures Renders(RunRenderer(), map["Run" := RunModel()])
  {
    RunFields();
    TwoFields(RunRenderer(), map["Run" := RunModel()], "Run");
  }

  lemma RunDeclared()
    ensures Declares(RunEnv(), RunRenderer(), map["Run" := RunModel()]) && "RunSummary" !in BUILT_IN
  {
    assert "RunSummary" !in BUILT_IN;
    OneDeclared(RunRenderer(), map["Run" := RunModel()], RunEnv(), "Run", "RunSummary");
  }

  lemma RunSingle()
    requires Renders(RunRenderer(), map["Run" := RunModel()])
    ensures AllSingle(RunRenderer(), map["Run" := RunModel()])
  {
    RunFields();
    TwoFieldsSingle(RunRenderer(), map["Run" := RunModel()], "Run");
  }

  lemma RunRenders()
    ensures var r, defs := RunRenderer(), map["Run" := RunModel()];
            Renders(r, defs) && Declares(RunEnv(), r, defs) && AllSingle(r, defs)
    ensures "RunSummary" !in BUILT_IN
  {
    RunFieldsRender();
    RunDeclared();
    RunSingle();
  }

  /** With `sent_defaults` a field that has a default is written as required. A value that leaves
      it out meets the schema, and belongs to the type only if the server sends the field. */
  lemma SentDefaultsMustBeSent() returns (r: Renderer, defs: Defs, env: Env, v: Json)
    ensures Renders(r, defs) && Declares(env, r, defs) && AllSingle(r, defs) && "Run" in r.names
    ensures r.sentDefaults && At("Run", "standards_change") in r.tsTypes
    ensures AcceptsModel(defs, How(false, false, Ignored), "Run", v)
    ensures AcceptsModel(defs, How(false, false, Judged(r, env)), "Run", v)
    ensures !Belongs(env, Word(r.names["Run"]), v)
  {
    r, defs, env, v := RunRenderer(), map["Run" := RunModel()], RunEnv(), JObj([]);
    RunRenders();
    EmptyAccepted(defs, How(false, false, Ignored), "Run");
    EmptyAccepted(defs, How(false, false, Judged(r, env)), "Run");
    EmptyMisses(env, "RunSummary", FieldsOf(r, "Run", RunModel()), 1);
  }

  lemma EmptyAccepted(defs: Defs, how: How, name: string)
    requires name in defs && defs[name].required == {} && !how.sent
    ensures AcceptsModel(defs, how, name, JObj([]))
  {
  }

  lemma EmptyMisses(env: Env, tsName: string, fields: seq<Field>, f: nat)
    requires tsName in env && tsName !in BUILT_IN && env[tsName] == Interface(fields)
    requires f < |fields| && !fields[f].optional
    ensures !Belongs(env, Word(tsName), JObj([]))
  {
    assert !HasKey(JObj([]), fields[f].name);
  }

  /** The value of the run: an empty object for what changed, and the total. */
  function RunValue(): Json { JObj([Member("standards_change", JObj([])), Member("total", JNum(0.0))]) }

  lemma RunKeys()
    ensures RunValue().members[0].key != RunModel().props[1].name
    ensures RunValue().members[1].key != RunModel().props[0].name
    ensures HasKey(RunValue(), "total")
  {
    OtherField("", RunValue().members[0].key, RunModel().props[1].name);
    assert RunValue().members[1].key == "total";
  }

  lemma RunAccepts(defs: Defs, how: How)
    requires "Run" in defs && defs["Run"] == RunModel() && how.hand.Ignored?
    ensures AcceptsModel(defs, how, "Run", RunValue())
  {
    var v, props := RunValue(), RunModel().props;
    RunKeys();
    assert Accepts(defs, how, props[0].node.anyOf.parts[0], JObj([]));
    forall p, i | 0 <= p < |props| && 0 <= i < |v.members| && v.members[i].key == props[p].name
      ensures Accepts(defs, how, NodeOf(how, "Run", props[p]), v.members[i].value)
    {
      assert p == i;
    }
  }

  lemma RunMisses()
    ensures !Belongs(RunEnv(), Word("RunSummary"), RunValue())
  {
    var env, v := RunEnv(), RunValue();
    var fields := FieldsOf(RunRenderer(), "Run", RunModel());
    RunFields();
    assert fields[0].union == [Word("StandardsChange"), Word("null")];
    NotAChange(JObj([]));
    assert v.members[0].key == fields[0].name;
  }

  lemma NotAChange(v: Json)
    requires v == JObj([])
    ensures !BelongsTo(RunEnv(), [Word("StandardsChange"), Word("null")], v)
  {
    var fields := [Field("added", false, [Word("string")])];
    assert !fields[0].optional && !HasKey(v, fields[0].name);
  }

  /** A hand-written type is narrower than its schema: a value that leaves nothing out meets the schema, and
      not the type, because the object in it lacks a field of the hand-written type. */
  lemma HandTypeIsNarrower() returns (r: Renderer, defs: Defs, env: Env, v: Json)
    ensures Renders(r, defs) && Declares(env, r, defs) && AllSingle(r, defs) && "Run" in r.names && r.sentDefaults
    ensures AcceptsModel(defs, How(true, false, Ignored), "Run", v)
    ensures !LeavesOutOfModel(defs, true, Ignored, "Run", v) && !Belongs(env, Word(r.names["Run"]), v)
  {
    r, defs, env, v := RunRenderer(), map["Run" := RunModel()], RunEnv(), RunValue();
    RunRenders();
    RunAccepts(defs, How(true, false, Ignored));
    RunAccepts(defs, How(true, true, Ignored));
    SentModelIff(defs, true, Ignored, "Run", v);
    RunMisses();
  }
}
