/**
 The grammar behind the generated parser (RFC 8259, sections 2 to 5, as numbered
 by the parser's productions), its parse trees and what they mean.
 */
module JsonGrammar {

  datatype Symbol =
    // terminals; END is the parser's own end marker, EOF the token the grammar mentions
    | END | STRING | NUMBER | NULL | TRUE | FALSE | EOF
    | LBRACE | RBRACE | COLON | COMMA | LBRACKET | RBRACKET | INVALID
    // nonterminals
    | JSONString | JSONNumber | JSONNullLiteral | JSONBooleanLiteral | JSONText | JSONValue
    | JSONObject | JSONArray | JSONMemberList | JSONMember | JSONElementList

  predicate Terminal(s: Symbol) {
    s.END? || s.STRING? || s.NUMBER? || s.NULL? || s.TRUE? || s.FALSE? || s.EOF?
    || s.LBRACE? || s.RBRACE? || s.COLON? || s.COMMA? || s.LBRACKET? || s.RBRACKET? || s.INVALID?
  }

  type Production = p: int | 1 <= p <= 21 witness 1

  function Lhs(p: Production): Symbol {
    if p == 1 then JSONString
    else if p == 2 then JSONNumber
    else if p == 3 then JSONNullLiteral
    else if p <= 5 then JSONBooleanLiteral
    else if p == 6 then JSONText
    else if p <= 12 then JSONValue
    else if p <= 14 then JSONObject
    else if p == 15 then JSONMember
    else if p <= 17 then JSONMemberList
    else if p <= 19 then JSONArray
    else JSONElementList
  }

  function Rhs(p: Production): seq<Symbol> {
    match p
    case 1 => [STRING]
    case 2 => [NUMBER]
    case 3 => [NULL]
    case 4 => [TRUE]
    case 5 => [FALSE]
    case 6 => [JSONValue, EOF]
    case 7 => [JSONNullLiteral]
    case 8 => [JSONBooleanLiteral]
    case 9 => [JSONString]
    case 10 => [JSONNumber]
    case 11 => [JSONObject]
    case 12 => [JSONArray]
    case 13 => [LBRACE, RBRACE]
    case 14 => [LBRACE, JSONMemberList, RBRACE]
    case 15 => [JSONString, COLON, JSONValue]
    case 16 => [JSONMember]
    case 17 => [JSONMemberList, COMMA, JSONMember]
    case 18 => [LBRACKET, RBRACKET]
    case 19 => [LBRACKET, JSONElementList, RBRACKET]
    case 20 => [JSONValue]
    case _ => [JSONElementList, COMMA, JSONValue]
  }

  datatype Token = Token(kind: Symbol, text: string)

  datatype Tree = Leaf(token: Token) | Node(prod: Production, children: seq<Tree>)

  function Root(t: Tree): Symbol {
    if t.Leaf? then t.token.kind else Lhs(t.prod)
  }

  /** A derivation: every inner node applies its production. */
  ghost predicate Derivation(t: Tree) {
    match t
    case Leaf(token) => Terminal(token.kind)
    case Node(p, children) =>
      && |children| == |Rhs(p)|
      && (forall i :: 0 <= i < |children| ==> Root(children[i]) == Rhs(p)[i])
      && forall i :: 0 <= i < |children| ==> Derivation(children[i])
  }

  function Yield(t: Tree): seq<Token>
    decreases t, 1
  {
    match t
    case Leaf(token) => [token]
    case Node(_, children) => YieldUpTo(t, |children|)
  }

  /** The tokens below the first `n` children. */
  function YieldUpTo(t: Tree, n: nat): seq<Token>
    requires t.Node? && n <= |t.children|
    decreases t, 0, n
  {
    if n == 0 then [] else YieldUpTo(t, n - 1) + Yield(t.children[n - 1])
  }

  // ----- meaning -----

  /** The conversions applied to token text; the parser's correctness does not depend on what they are. */
  datatype Conversions = Conversions(unescape: string -> string, number: string -> real)

  datatype Js =
    | JsNull
    | JsBool(b: bool)
    | JsNumber(r: real)
    | JsString(s: string)
    | JsArray(items: seq<Js>)
    | JsObject(members: map<string, Js>)

  /** Members in source order; a later member replaces an earlier one with the same name. */
  function LastWins(members: seq<(string, Js)>): map<string, Js> {
    if members == [] then map[]
    else
      var n := |members| - 1;
      LastWins(members[..n])[members[n].0 := members[n].1]
  }

  /** The value of a value, literal, object or array. */
  ghost function ValueOf(cv: Conversions, t: Tree): Js
    requires Derivation(t) && t.Node? && (t.prod <= 14 || t.prod == 18 || t.prod == 19)
    decreases t
  {
    match t.prod
    case 1 => JsString(cv.unescape(t.children[0].token.text))
    case 2 => JsNumber(cv.number(t.children[0].token.text))
    case 3 => JsNull
    case 4 => JsBool(true)
    case 5 => JsBool(false)
    case 13 => JsObject(map[])
    case 14 => JsObject(LastWins(MembersOf(cv, t.children[1])))
    case 18 => JsArray([])
    case 19 => JsArray(ItemsOf(cv, t.children[1]))
    case _ => ValueOf(cv, t.children[0])
  }

  ghost function NameOf(cv: Conversions, t: Tree): string
    requires Derivation(t) && Root(t) == JSONString
  {
    cv.unescape(t.children[0].token.text)
  }

  ghost function MemberOf(cv: Conversions, t: Tree): (string, Js)
    requires Derivation(t) && t.Node? && t.prod == 15
    decreases t
  {
    (NameOf(cv, t.children[0]), ValueOf(cv, t.children[2]))
  }

  ghost function MembersOf(cv: Conversions, t: Tree): seq<(string, Js)>
    requires Derivation(t) && t.Node? && (t.prod == 16 || t.prod == 17)
    decreases t
  {
    if t.prod == 16 then [MemberOf(cv, t.children[0])]
    else MembersOf(cv, t.children[0]) + [MemberOf(cv, t.children[2])]
  }

  ghost function ItemsOf(cv: Conversions, t: Tree): seq<Js>
    requires Derivation(t) && t.Node? && t.prod >= 20
    decreases t
  {
    if t.prod == 20 then [ValueOf(cv, t.children[0])]
    else ItemsOf(cv, t.children[0]) + [ValueOf(cv, t.children[2])]
  }

  /** What the value stack holds for a subtree: token text, a name-value pair, or the value built so far. */
  ghost function StackValue(cv: Conversions, t: Tree): Js
    requires Derivation(t)
  {
    if t.Leaf? then JsString(t.token.text)
    else if t.prod == 15 then
      var m := MemberOf(cv, t);
      JsArray([JsString(m.0), m.1])
    else if t.prod == 16 || t.prod == 17 then JsObject(LastWins(MembersOf(cv, t)))
    else if t.prod >= 20 then JsArray(ItemsOf(cv, t))
    else ValueOf(cv, t)
  }
}
