/** Round trip: every JSON value, printed as tokens, is parsed back to what it means. */
module JsonPrinting {
  import opened JsonCompleteness
  import opened JsonGrammar
  import opened JsonParser
  import opened JsonSoundness
  import opened JsonTable
  import opened JsValues

  /** JSON as written: member order and repeated names are kept. */
  datatype Json =
    | Null | True | False
    | Number(text: string)
    | String(text: string)
    | Array(items: seq<Json>)
    | Object(members: seq<Member>)

  datatype Member = Member(name: string, value: Json)

  function Print(v: Json): seq<Token>
    decreases v, 0
  {
    match v
    case Null => [Token(NULL, "null")]
    case True => [Token(TRUE, "true")]
    case False => [Token(FALSE, "false")]
    case Number(text) => [Token(NUMBER, text)]
    case String(text) => [Token(STRING, text)]
    case Array(items) => [Token(LBRACKET, "[")] + PrintItems(v, |items|) + [Token(RBRACKET, "]")]
    case Object(members) => [Token(LBRACE, "{")] + PrintMembers(v, |members|) + [Token(RBRACE, "}")]
  }

  function PrintItems(v: Json, n: nat): seq<Token>
    requires v.Array? && n <= |v.items|
    decreases v, 0, n
  {
    if n == 0 then []
    else if n == 1 then Print(v.items[0])
    else PrintItems(v, n - 1) + [Token(COMMA, ",")] + Print(v.items[n - 1])
  }

  function PrintMembers(v: Json, n: nat): seq<Token>
    requires v.Object? && n <= |v.members|
    decreases v, 0, n
  {
    if n == 0 then []
    else if n == 1 then PrintMember(v, 0)
    else PrintMembers(v, n - 1) + [Token(COMMA, ",")] + PrintMember(v, n - 1)
  }

  function PrintMember(v: Json, i: nat): seq<Token>
    requires v.Object? && i < |v.members|
    decreases v, 0, i
  {
    [Token(STRING, v.members[i].name), Token(COLON, ":")] + Print(v.members[i].value)
  }

  /** The JavaScript value: later members replace earlier ones of the same name. */
  function Meaning(cv: Conversions, v: Json): Js {
    match v
    case Null => JsNull
    case True => JsBool(true)
    case False => JsBool(false)
    case Number(text) => JsNumber(cv.number(text))
    case String(text) => JsString(cv.unescape(text))
    case Array(items) => JsArray(seq(|items|, i requires 0 <= i < |items| => Meaning(cv, items[i])))
    case Object(members) =>
      JsObject(LastWins(seq(|members|,
                            i requires 0 <= i < |members| =>
                            (cv.unescape(members[i].name), Meaning(cv, members[i].value)))))
  }

  // ----- a derivation for every value -----

  lemma YieldNone(t: Tree)
    requires t.Node?
    ensures YieldUpTo(t, 0) == []
  {
  }

  lemma UnitNode(p: Production, a: Tree)
    requires Derivation(a) && Rhs(p) == [Root(a)]
    ensures Derivation(Node(p, [a])) && Yield(Node(p, [a])) == Yield(a)
  {
    hide Rhs, Lhs, Yield, YieldUpTo;
    var t := Node(p, [a]);
    YieldIsAll(t);
    YieldNone(t);
    ChildSums(t, 0);
  }

  lemma PairNode(p: Production, a: Tree, b: Tree)
    requires Derivation(a) && Derivation(b) && Rhs(p) == [Root(a), Root(b)]
    ensures Derivation(Node(p, [a, b])) && Yield(Node(p, [a, b])) == Yield(a) + Yield(b)
  {
    hide Rhs, Lhs, Yield, YieldUpTo;
    var t := Node(p, [a, b]);
    YieldIsAll(t);
    YieldNone(t);
    ChildSums(t, 0);
    ChildSums(t, 1);
  }

  lemma TripleYield(p: Production, a: Tree, b: Tree, c: Tree)
    ensures Yield(Node(p, [a, b, c])) == Yield(a) + Yield(b) + Yield(c)
  {
    hide Yield, YieldUpTo;
    var t := Node(p, [a, b, c]);
    YieldIsAll(t);
    YieldNone(t);
    ChildSums(t, 0);
    ChildSums(t, 1);
    ChildSums(t, 2);
  }

  lemma TripleNode(p: Production, a: Tree, b: Tree, c: Tree)
    requires Derivation(a) && Derivation(b) && Derivation(c) && Rhs(p) == [Root(a), Root(b), Root(c)]
    ensures Derivation(Node(p, [a, b, c])) && Yield(Node(p, [a, b, c])) == Yield(a) + Yield(b) + Yield(c)
  {
    hide Rhs, Lhs, Yield;
    TripleYield(p, a, b, c);
  }

  lemma LeafTree(k: Token)
    requires Terminal(k.kind)
    ensures Derivation(Leaf(k)) && Yield(Leaf(k)) == [k] && Root(Leaf(k)) == k.kind
  {
  }

  /** A literal of one token, wrapped up to a value. */
  lemma LiteralTree(cv: Conversions, v: Json, k: Token, p: Production, q: Production) returns (t: Tree)
    requires p <= 5 && 7 <= q <= 10 && Rhs(p) == [k.kind] && Rhs(q) == [Lhs(p)]
    requires Print(v) == [k]
    requires Meaning(cv, v) == ValueOfLiteral(cv, p, k.text)
    ensures Derivation(t) && Root(t) == JSONValue && Yield(t) == Print(v) && t.Node? && 7 <= t.prod <= 12
    ensures ValueOf(cv, t) == Meaning(cv, v)
  {
    LiteralTerminal(p);
    var leaf := Leaf(k);
    LeafTree(k);
    var inner := Node(p, [leaf]);
    UnitNode(p, leaf);
    t := Node(q, [inner]);
    UnitNode(q, inner);
    assert ValueOf(cv, inner) == ValueOfLiteral(cv, p, k.text);
    assert ValueOf(cv, t) == ValueOf(cv, t.children[0]);
  }

  lemma LiteralTerminal(p: Production)
    requires p <= 5
    ensures |Rhs(p)| == 1 && Terminal(Rhs(p)[0])
  {
  }

  function ValueOfLiteral(cv: Conversions, p: Production, text: string): Js {
    if p == 1 then JsString(cv.unescape(text))
    else if p == 2 then JsNumber(cv.number(text))
    else if p == 3 then JsNull
    else JsBool(p == 4)
  }

  /** An object or array, wrapped up to a value. */
  lemma WrapTree(cv: Conversions, inner: Tree, q: Production) returns (t: Tree)
    requires Derivation(inner) && inner.Node? && (q == 11 || q == 12) && Rhs(q) == [Root(inner)]
    requires inner.prod == 13 || inner.prod == 14 || inner.prod == 18 || inner.prod == 19
    ensures Derivation(t) && Root(t) == JSONValue && Yield(t) == Yield(inner) && t.Node? && 7 <= t.prod <= 12
    ensures ValueOf(cv, t) == ValueOf(cv, inner)
  {
    t := Node(q, [inner]);
    UnitNode(q, inner);
    assert ValueOf(cv, t) == ValueOf(cv, t.children[0]);
  }

  /** An empty object or array. */
  lemma EmptyTree(cv: Conversions, p: Production, l: Token, r: Token) returns (t: Tree)
    requires (p == 13 || p == 18) && Rhs(p) == [l.kind, r.kind] && Terminal(l.kind) && Terminal(r.kind)
    ensures Derivation(t) && t.Node? && t.prod == p && Yield(t) == [l, r]
    ensures ValueOf(cv, t) == if p == 13 then JsObject(map[]) else JsArray([])
  {
    LeafTree(l);
    LeafTree(r);
    t := Node(p, [Leaf(l), Leaf(r)]);
    hide Yield, Rhs, Lhs;
    PairNode(p, Leaf(l), Leaf(r));
  }

  /** An object or array around its list. */
  lemma FullTree(cv: Conversions, p: Production, l: Token, list: Tree, r: Token) returns (t: Tree)
    requires (p == 14 || p == 19) && Rhs(p) == [l.kind, Root(list), r.kind] && Terminal(l.kind) && Terminal(r.kind)
    requires Derivation(list) && list.Node? && if p == 14 then 16 <= list.prod <= 17 else list.prod >= 20
    ensures Derivation(t) && t.Node? && t.prod == p && Yield(t) == [l] + Yield(list) + [r]
    ensures ValueOf(cv, t) == if p == 14 then JsObject(LastWins(MembersOf(cv, list))) else JsArray(ItemsOf(cv, list))
  {
    LeafTree(l);
    LeafTree(r);
    t := Node(p, [Leaf(l), list, Leaf(r)]);
    hide Yield, Rhs, Lhs, LastWins, MembersOf, ItemsOf, ValueOf, Derivation;
    TripleNode(p, Leaf(l), list, Leaf(r));
    BracketsValue(cv, t);
  }

  lemma BracketsValue(cv: Conversions, t: Tree)
    requires Derivation(t) && t.Node? && (t.prod == 14 || t.prod == 19)
    requires |t.children| == 3
    requires var list := t.children[1];
             Derivation(list) && list.Node? && if t.prod == 14 then 16 <= list.prod <= 17 else list.prod >= 20
    ensures ValueOf(cv, t)
            == if t.prod == 14 then JsObject(LastWins(MembersOf(cv, t.children[1])))
               else JsArray(ItemsOf(cv, t.children[1]))
  {
    hide Derivation, MembersOf, ItemsOf, LastWins;
  }

  /** Every value has a derivation with its printed tokens and its meaning. */
  lemma {:induction false} ValueTree(cv: Conversions, v: Json) returns (t: Tree)
    ensures Derivation(t) && Root(t) == JSONValue && Yield(t) == Print(v) && t.Node? && 7 <= t.prod <= 12
    ensures ValueOf(cv, t) == Meaning(cv, v)
    decreases v, 1
  {
    match v {
      case Null => t := LiteralTree(cv, v, Token(NULL, "null"), 3, 7);
      case True => t := LiteralTree(cv, v, Token(TRUE, "true"), 4, 8);
      case False => t := LiteralTree(cv, v, Token(FALSE, "false"), 5, 8);
      case Number(text) => t := LiteralTree(cv, v, Token(NUMBER, text), 2, 10);
      case String(text) => t := LiteralTree(cv, v, Token(STRING, text), 1, 9);
      case Array(_) => t := ArrayTree(cv, v);
      case Object(_) => t := ObjectTree(cv, v);
    }
  }

  lemma {:induction false} ArrayTree(cv: Conversions, v: Json) returns (t: Tree)
    requires v.Array?
    ensures Derivation(t) && Root(t) == JSONValue && Yield(t) == Print(v) && t.Node? && 7 <= t.prod <= 12
    ensures ValueOf(cv, t) == Meaning(cv, v)
    decreases v, 0, |v.items| + 1
  {
    hide Meaning, ValueOf, Yield, Derivation, Lhs;
    var l, r := Token(LBRACKET, "["), Token(RBRACKET, "]");
    var n := |v.items|;
    var inner;
    if n == 0 {
      inner := EmptyTree(cv, 18, l, r);
      assert PrintItems(v, 0) == [];
    } else {
      var list := ItemsTree(cv, v, n);
      inner := FullTree(cv, 19, l, list, r);
    }
    WrapRoots();
    t := WrapTree(cv, inner, 12);
    ArrayMeaning(cv, v);
  }

  lemma WrapRoots()
    ensures Rhs(11) == [Lhs(13)] == [Lhs(14)] && Rhs(12) == [Lhs(18)] == [Lhs(19)]
  {
  }

  ghost function ItemMeanings(cv: Conversions, v: Json, n: nat): seq<Js>
    requires v.Array? && n <= |v.items|
  {
    seq(n, i requires 0 <= i < n => Meaning(cv, v.items[i]))
  }

  lemma ArrayMeaning(cv: Conversions, v: Json)
    requires v.Array?
    ensures Meaning(cv, v) == JsArray(ItemMeanings(cv, v, |v.items|))
  {
  }

  /** One more item at the end of a list. */
  lemma MoreItems(cv: Conversions, list: Tree, comma: Tree, item: Tree) returns (t: Tree)
    requires Derivation(list) && Root(list) == JSONElementList && list.Node? && list.prod >= 20
    requires Derivation(comma) && Root(comma) == COMMA
    requires Derivation(item) && Root(item) == JSONValue && item.Node? && 7 <= item.prod <= 12
    ensures Derivation(t) && Root(t) == JSONElementList && t.Node? && t.prod >= 20
    ensures Yield(t) == Yield(list) + Yield(comma) + Yield(item)
            && ItemsOf(cv, t) == ItemsOf(cv, list) + [ValueOf(cv, item)]
  {
    hide Yield, ValueOf;
    t := Node(21, [list, comma, item]);
    TripleNode(21, list, comma, item);
    assert ItemsOf(cv, t) == ItemsOf(cv, t.children[0]) + [ValueOf(cv, t.children[2])];
  }

  lemma FirstItem(cv: Conversions, item: Tree) returns (t: Tree)
    requires Derivation(item) && Root(item) == JSONValue && item.Node? && 7 <= item.prod <= 12
    ensures Derivation(t) && Root(t) == JSONElementList && t.Node? && t.prod >= 20
    ensures Yield(t) == Yield(item) && ItemsOf(cv, t) == [ValueOf(cv, item)]
  {
    hide Yield, ValueOf;
    t := Node(20, [item]);
    UnitNode(20, item);
    assert ItemsOf(cv, t) == [ValueOf(cv, t.children[0])];
  }

  lemma {:induction false} ItemsTree(cv: Conversions, v: Json, n: nat) returns (t: Tree)
    requires v.Array? && 0 < n <= |v.items|
    ensures Derivation(t) && Root(t) == JSONElementList && Yield(t) == PrintItems(v, n) && t.Node? && t.prod >= 20
    ensures ItemsOf(cv, t) == ItemMeanings(cv, v, n)
    decreases v, 0, n
  {
    hide Meaning, Derivation, ItemsOf, ValueOf, Yield, Print, Rhs, Lhs;
    var item := ValueTree(cv, v.items[n - 1]);
    if n == 1 {
      t := FirstItem(cv, item);
    } else {
      var list := ItemsTree(cv, v, n - 1);
      var comma := Leaf(Token(COMMA, ","));
      LeafTree(comma.token);
      t := MoreItems(cv, list, comma, item);
    }
  }

  ghost function MemberMeanings(cv: Conversions, v: Json, n: nat): seq<(string, Js)>
    requires v.Object? && n <= |v.members|
  {
    seq(n, i requires 0 <= i < n => (cv.unescape(v.members[i].name), Meaning(cv, v.members[i].value)))
  }

  lemma ObjectMeaning(cv: Conversions, v: Json)
    requires v.Object?
    ensures Meaning(cv, v) == JsObject(LastWins(MemberMeanings(cv, v, |v.members|)))
  {
    hide LastWins;
  }

  lemma {:induction false} ObjectTree(cv: Conversions, v: Json) returns (t: Tree)
    requires v.Object?
    ensures Derivation(t) && Root(t) == JSONValue && Yield(t) == Print(v) && t.Node? && 7 <= t.prod <= 12
    ensures ValueOf(cv, t) == Meaning(cv, v)
    decreases v, 0, |v.members| + 1
  {
    hide Meaning, ValueOf, Yield, Derivation, Lhs, LastWins;
    var l, r := Token(LBRACE, "{"), Token(RBRACE, "}");
    var n := |v.members|;
    var inner;
    if n == 0 {
      inner := EmptyTree(cv, 13, l, r);
      assert PrintMembers(v, 0) == [];
      NoMembers();
      assert MemberMeanings(cv, v, 0) == [];
    } else {
      var list := MembersTree(cv, v, n);
      inner := FullTree(cv, 14, l, list, r);
    }
    WrapRoots();
    t := WrapTree(cv, inner, 11);
    ObjectMeaning(cv, v);
  }

  lemma NoMembers()
    ensures LastWins([]) == map[]
  {
  }

  /** One more member at the end of a list. */
  lemma MoreMembers(cv: Conversions, list: Tree, comma: Tree, member: Tree) returns (t: Tree)
    requires Derivation(list) && Root(list) == JSONMemberList && list.Node? && 16 <= list.prod <= 17
    requires Derivation(comma) && Root(comma) == COMMA
    requires Derivation(member) && Root(member) == JSONMember && member.Node? && member.prod == 15
    ensures Derivation(t) && Root(t) == JSONMemberList && t.Node? && 16 <= t.prod <= 17
    ensures Yield(t) == Yield(list) + Yield(comma) + Yield(member)
            && MembersOf(cv, t) == MembersOf(cv, list) + [MemberOf(cv, member)]
  {
    hide Yield, MemberOf;
    t := Node(17, [list, comma, member]);
    TripleNode(17, list, comma, member);
    assert MembersOf(cv, t) == MembersOf(cv, t.children[0]) + [MemberOf(cv, t.children[2])];
  }

  lemma FirstMember(cv: Conversions, member: Tree) returns (t: Tree)
    requires Derivation(member) && Root(member) == JSONMember && member.Node? && member.prod == 15
    ensures Derivation(t) && Root(t) == JSONMemberList && t.Node? && 16 <= t.prod <= 17
    ensures Yield(t) == Yield(member) && MembersOf(cv, t) == [MemberOf(cv, member)]
  {
    hide Yield, MemberOf;
    t := Node(16, [member]);
    UnitNode(16, member);
    assert MembersOf(cv, t) == [MemberOf(cv, t.children[0])];
  }

  lemma {:induction false} MembersTree(cv: Conversions, v: Json, n: nat) returns (t: Tree)
    requires v.Object? && 0 < n <= |v.members|
    ensures Derivation(t) && Root(t) == JSONMemberList && Yield(t) == PrintMembers(v, n) && t.Node?
            && 16 <= t.prod <= 17
    ensures MembersOf(cv, t) == MemberMeanings(cv, v, n)
    decreases v, 0, n, 1
  {
    hide Meaning, Derivation, MembersOf, MemberOf, Yield, PrintMember, Rhs, Lhs;
    var member := MemberTree(cv, v, n - 1);
    if n == 1 {
      t := FirstMember(cv, member);
    } else {
      var list := MembersTree(cv, v, n - 1);
      var comma := Leaf(Token(COMMA, ","));
      LeafTree(comma.token);
      t := MoreMembers(cv, list, comma, member);
    }
  }

  lemma {:induction false} MemberTree(cv: Conversions, v: Json, i: nat) returns (t: Tree)
    requires v.Object? && i < |v.members|
    ensures Derivation(t) && Root(t) == JSONMember && Yield(t) == PrintMember(v, i) && t.Node? && t.prod == 15
    ensures MemberOf(cv, t) == (cv.unescape(v.members[i].name), Meaning(cv, v.members[i].value))
    decreases v, 0, i + 1, 0
  {
    hide Meaning;
    var value := ValueTree(cv, v.members[i].value);
    var leaf, colon := Leaf(Token(STRING, v.members[i].name)), Leaf(Token(COLON, ":"));
    LeafTree(leaf.token);
    LeafTree(colon.token);
    var name := Node(1, [leaf]);
    UnitNode(1, leaf);
    t := Node(15, [name, colon, value]);
    TripleNode(15, name, colon, value);
    assert NameOf(cv, t.children[0]) == cv.unescape(v.members[i].name);
  }

  /**
   * Any input that starts with a printed value and the end token is a document meaning that value, so parsing it never
   * reaches the error branch and returns that meaning.
   */
  lemma PrintedValue(cv: Conversions, v: Json, rest: seq<Token>) returns (t: Tree)
    ensures Derives(t, Print(v) + [Token(EOF, "")] + rest) && DocumentValue(cv, t) == Meaning(cv, v)
  {
    hide Meaning, Print, Derivation, ValueOf;
    var value := ValueTree(cv, v);
    var eof := Leaf(Token(EOF, ""));
    LeafTree(eof.token);
    t := Node(6, [value, eof]);
    PairNode(6, value, eof);
    assert Yield(t) == Print(v) + [Token(EOF, "")];
    assert t.children[0] == value;
  }

  /** Parsing after printing. */
  method ParsePrinted(cv: Conversions, v: Json, rest: seq<Token>) returns (r: Option<Js>)
    ensures r == Some(Meaning(cv, v))
  {
    hide *;
    ghost var t := PrintedValue(cv, v, rest);
    var shifts, reductions;
    r, shifts, reductions := Parse(cv, Print(v) + [Token(EOF, "")] + rest);
  }
}
