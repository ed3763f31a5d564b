/** Soundness: whatever the parser has on its stack is derived from the tokens it has read. */
module JsonSoundness {
  import opened JsonGrammar
  import opened JsonMachine
  import opened JsonTable
  import opened JsValues

  ghost function YieldAll(trees: seq<Tree>): seq<Token> {
    if trees == [] then [] else YieldAll(trees[..|trees| - 1]) + Yield(trees[|trees| - 1])
  }

  /** Consecutive states are linked by transitions on the symbols between them. */
  ghost predicate Linked(states: seq<nat>, symbols: seq<Symbol>) {
    && |states| == |symbols| + 1
    && states[0] == 0
    && forall i :: 0 <= i < |symbols| ==> Trans(states[i], symbols[i]) == Some(states[i + 1])
  }

  /** The trees justify the symbols and values on the stacks. */
  ghost predicate Justified(cv: Conversions, symbols: seq<Symbol>, vstack: seq<Js>, trees: seq<Tree>) {
    && |trees| == |symbols| == |vstack| - 1
    && forall i :: 0 <= i < |trees| ==>
      && Derivation(trees[i]) && Root(trees[i]) == symbols[i] && Root(trees[i]) != JSONText
      && vstack[i + 1] == StackValue(cv, trees[i])
  }

  ghost predicate Inv(cv: Conversions, tokens: seq<Token>, c: Config, trees: seq<Tree>) {
    && c.Running?
    && Linked(c.states, c.symbols)
    && Justified(cv, c.symbols, c.vstack, trees)
    && c.shifts <= |tokens| && YieldAll(trees) == tokens[..c.shifts]
    && (trees != [] && trees[|trees| - 1].Leaf? ==> c.yytext == trees[|trees| - 1].token.text)
  }

  lemma InvStart(cv: Conversions, tokens: seq<Token>)
    ensures Inv(cv, tokens, START, [])
  {
  }

  lemma ShiftKeeps(cv: Conversions, tokens: seq<Token>, c: Config, trees: seq<Tree>)
    requires Inv(cv, tokens, c, trees) && Shape(c)
    requires ActionOf(Top(c), Peek(tokens, c.shifts)).Shift?
    ensures c.shifts < |tokens| && Inv(cv, tokens, Step(cv, tokens, c), trees + [Leaf(tokens[c.shifts])])
  {
    hide StackValue, Linked, Justified, Trans, ActionOf, Peek, Derivation, Yield, YieldAll, Step;
    ShiftIs(cv, tokens, c);
    var t := tokens[c.shifts];
    var next := ActionOf(Top(c), Peek(tokens, c.shifts)).state;
    JustifiedSizes(cv, c.symbols, c.vstack, trees);
    LeafValue(cv, t);
    var n := |c.symbols|;
    assert c.states[..n + 1] == c.states && c.symbols[..n] == c.symbols && c.vstack[..n + 1] == c.vstack
           && trees[..n] == trees;
    LinkedMore(c.states, c.symbols, n, t.kind, next);
    JustifiedMore(cv, c.symbols, c.vstack, trees, n, Leaf(t));
    YieldLeaf(trees, t);
    assert tokens[..c.shifts + 1] == tokens[..c.shifts] + [t];
  }

  /** A shift reads a token and pushes it with the state that the table gives. */
  lemma ShiftIs(cv: Conversions, tokens: seq<Token>, c: Config)
    requires c.Running? && Shape(c) && c.shifts <= |tokens|
    requires ActionOf(Top(c), Peek(tokens, c.shifts)).Shift?
    ensures c.shifts < |tokens| && Terminal(tokens[c.shifts].kind)
    ensures var t, next := tokens[c.shifts], ActionOf(Top(c), Peek(tokens, c.shifts)).state;
            && Trans(Top(c), t.kind) == Some(next)
            && Step(cv, tokens, c) == Running(c.states + [next], c.symbols + [t.kind], c.vstack + [JsString(t.text)],
                                              t.text, c.shifts + 1, c.reductions)
  {
    hide Lookup, Goto, Terminal;
    EndNotShifted(Top(c));
    var a := Peek(tokens, c.shifts);
    ShiftEnters(Top(c), a, ActionOf(Top(c), a).state);
  }

  lemma YieldLeaf(trees: seq<Tree>, t: Token)
    ensures YieldAll(trees + [Leaf(t)]) == YieldAll(trees) + [t]
  {
    assert (trees + [Leaf(t)])[..|trees|] == trees;
  }

  lemma EndNotShifted(state: nat)
    ensures !Lookup(state, END).Shift?
  {
  }

  lemma LeafValue(cv: Conversions, t: Token)
    requires Terminal(t.kind)
    ensures Derivation(Leaf(t)) && StackValue(cv, Leaf(t)) == JsString(t.text)
  {
  }

  // ----- reductions -----

  /** What must be on top of the stack when the parser reduces by `p`. */
  ghost predicate HandleOnTop(states: seq<nat>, symbols: seq<Symbol>, p: Production)
    requires |states| == |symbols| + 1
  {
    var k := |symbols| - |Rhs(p)|;
    && k >= 0
    && (forall i :: 0 <= i < |Rhs(p)| ==> symbols[k + i] == Rhs(p)[i])
    && (p != 6 ==> Goto(states[k], Lhs(p)).Some?)
  }

  ghost predicate Edge(state: nat, x: Symbol, e: nat) {
    ShiftEdge(state, x, e) || GotoEdge(state, x, e)
  }

  lemma HandleUnit(s1: nat, x1: Symbol, e: nat, p: Production)
    requires Edge(s1, x1, e) && ReduceState(e, p) && (p <= 5 || p == 16 || p == 20)
    ensures Rhs(p)[0] == x1 && MayStart(s1, p)
  {
  }

  lemma HandleValue(s1: nat, x1: Symbol, e: nat, p: Production)
    requires Edge(s1, x1, e) && ReduceState(e, p) && 7 <= p <= 12
    ensures Rhs(p)[0] == x1 && MayStart(s1, p)
  {
  }

  lemma HandlePair(s2: nat, x2: Symbol, s1: nat, x1: Symbol, e: nat, p: Production)
    requires Edge(s2, x2, s1) && Edge(s1, x1, e) && ReduceState(e, p) && (p == 6 || p == 13 || p == 18)
    ensures Rhs(p)[0] == x2 && Rhs(p)[1] == x1 && MayStart(s2, p)
  {
  }

  /** The states inside a handle of length three. */
  function FirstState(p: Production): nat {
    if p == 14 then 14 else if p == 15 then 20 else if p == 17 then 18 else if p == 19 then 15 else 22
  }

  function SecondState(p: Production): nat {
    if p == 14 then 18 else if p == 15 then 26 else if p == 17 then 25 else if p == 19 then 22 else 28
  }

  ghost predicate Long(p: Production) {
    p == 14 || p == 15 || p == 17 || p == 19 || p == 21
  }

  lemma HandleLast(s1: nat, x1: Symbol, e: nat, p: Production)
    requires Edge(s1, x1, e) && ReduceState(e, p) && Long(p)
    ensures Rhs(p)[2] == x1 && s1 == SecondState(p)
  {
  }

  lemma HandleMiddle(s2: nat, x2: Symbol, s1: nat, p: Production)
    requires Edge(s2, x2, s1) && s1 == SecondState(p) && Long(p)
    ensures Rhs(p)[1] == x2 && s2 == FirstState(p)
  {
  }

  lemma HandleFirst(s3: nat, x3: Symbol, s2: nat, p: Production)
    requires Edge(s3, x3, s2) && s2 == FirstState(p) && Long(p)
    ensures Rhs(p)[0] == x3 && MayStart(s3, p)
  {
  }

  /** A state that completes a production was not entered directly from the start. */
  lemma DeepEnough(s1: nat, x1: Symbol, e: nat, p: Production)
    requires ReduceState(e, p)
    ensures e != 0 && 1 <= |Rhs(p)| <= 3
    ensures Edge(s1, x1, e) && |Rhs(p)| >= 2 ==> s1 != 0
  {
  }

  lemma RhsLengths(p: Production)
    ensures |Rhs(p)|
            == if p == 6 || p == 13 || p == 18 then 2
               else if p == 14 || p == 15 || p == 17 || p == 19 || p == 21 then 3
               else 1
  {
  }

  lemma LinkedEdge(states: seq<nat>, symbols: seq<Symbol>, i: nat)
    requires Linked(states, symbols) && i < |symbols|
    ensures Edge(states[i], symbols[i], states[i + 1])
  {
    hide Trans, ShiftEdge, GotoEdge;
    TransEdge(states[i], symbols[i], states[i + 1]);
  }

  lemma Handle(states: seq<nat>, symbols: seq<Symbol>, a: Symbol, p: Production)
    requires Linked(states, symbols) && ActionOf(states[|states| - 1], a) == Reduce(p)
    ensures HandleOnTop(states, symbols, p)
  {
    hide ActionOf, Goto, Trans, Lhs, Rhs, Edge, ReduceState, MayStart, SecondState;
    var n := |symbols|;
    var e := states[n];
    ReducesBy(e, a);
    DeepEnough(0, END, e, p);
    var s1, x1 := states[n - 1], symbols[n - 1];
    LinkedEdge(states, symbols, n - 1);
    DeepEnough(s1, x1, e, p);
    RhsLengths(p);
    if 7 <= p <= 12 {
      HandleValue(s1, x1, e, p);
    } else if |Rhs(p)| == 1 {
      HandleUnit(s1, x1, e, p);
    } else {
      var s2, x2 := states[n - 2], symbols[n - 2];
      LinkedEdge(states, symbols, n - 2);
      if |Rhs(p)| == 2 {
        HandlePair(s2, x2, s1, x1, e, p);
      } else {
        HandleLast(s1, x1, e, p);
        HandleMiddle(s2, x2, s1, p);
        var s3, x3 := states[n - 3], symbols[n - 3];
        LinkedEdge(states, symbols, n - 3);
        HandleFirst(s3, x3, s2, p);
      }
    }
    GotoDefined(states[n - |Rhs(p)|], p);
  }

  /** The root of a derivation that is a nonterminal tells its productions. */
  lemma NodeByRoot(t: Tree)
    requires Derivation(t) && !Terminal(Root(t))
    ensures t.Node? && Root(t) == Lhs(t.prod)
  {
  }

  lemma {:induction false} YieldUpToAll(t: Tree, n: nat)
    requires t.Node? && n <= |t.children|
    ensures YieldUpTo(t, n) == YieldAll(t.children[..n])
  {
    if n > 0 {
      YieldUpToAll(t, n - 1);
      assert t.children[..n][..n - 1] == t.children[..n - 1];
    }
  }

  lemma YieldAllNext(trees: seq<Tree>, t: Tree)
    ensures YieldAll(trees + [t]) == YieldAll(trees) + Yield(t)
  {
    hide Yield;
    assert (trees + [t])[..|trees|] == trees;
  }

  lemma {:induction false} YieldAllConcat(a: seq<Tree>, b: seq<Tree>)
    ensures YieldAll(a + b) == YieldAll(a) + YieldAll(b)
  {
    hide YieldAll, Yield;
    if b == [] {
      assert a + b == a;
      NoYield();
    } else {
      var k := |b| - 1;
      YieldAllConcat(a, b[..k]);
      YieldAllNext(a + b[..k], b[k]);
      YieldAllNext(b[..k], b[k]);
      assert a + b == a + b[..k] + [b[k]] && b == b[..k] + [b[k]];
    }
  }

  lemma NoYield()
    ensures YieldAll([]) == []
  {
  }

  /** Replacing the handle by its node keeps the tokens below. */
  lemma YieldReduced(trees: seq<Tree>, k: nat, p: Production)
    requires k <= |trees|
    ensures YieldAll(trees[..k] + [Node(p, trees[k..])]) == YieldAll(trees)
  {
    var t := Node(p, trees[k..]);
    YieldUpToAll(t, |t.children|);
    assert t.children[..|t.children|] == trees[k..];
    YieldAllConcat(trees[..k], trees[k..]);
    assert trees[..k] + trees[k..] == trees;
    assert (trees[..k] + [t])[..k] == trees[..k];
  }

  /** The values of the children of a node are the topmost ones. */
  ghost predicate OnTop(cv: Conversions, t: Tree, yytext: string, vs: seq<Js>)
    requires t.Node? && Derivation(t)
  {
    && |vs| >= |t.children|
    && (forall i :: 0 <= i < |t.children| ==> vs[|vs| - |t.children| + i] == StackValue(cv, t.children[i]))
    && (t.children[|t.children| - 1].Leaf? ==> yytext == t.children[|t.children| - 1].token.text)
  }

  lemma LiteralAction(cv: Conversions, t: Tree, yytext: string, vs: seq<Js>)
    requires t.Node? && Derivation(t) && OnTop(cv, t, yytext, vs) && t.prod <= 5
    ensures PerformAction(cv, t.prod, yytext, vs) == Some(StackValue(cv, t))
  {
    assert Root(t.children[0]) == Rhs(t.prod)[0];
  }

  lemma PassValue(cv: Conversions, t: Tree)
    requires t.Node? && Derivation(t) && 6 <= t.prod <= 12
    ensures ValueOf(cv, t) == StackValue(cv, t.children[0]) && (t.prod != 6 ==> StackValue(cv, t) == ValueOf(cv, t))
  {
    hide LastWins;
    assert Root(t.children[0]) == Rhs(t.prod)[0];
    NodeByRoot(t.children[0]);
  }

  lemma PassPerform(cv: Conversions, p: Production, yytext: string, vs: seq<Js>)
    requires 6 <= p <= 12 && |vs| >= |Rhs(p)|
    ensures p != 6 ==> PerformAction(cv, p, yytext, vs) == Some(vs[|vs| - 1])
  {
  }

  /** The value of the document is below the end marker. */
  lemma DocumentAction(cv: Conversions, t: Tree, yytext: string, vs: seq<Js>)
    requires t.Node? && Derivation(t) && OnTop(cv, t, yytext, vs) && t.prod == 6
    ensures vs[|vs| - 2] == ValueOf(cv, t.children[0])
  {
    hide StackValue, ValueOf, LastWins, PerformAction;
    assert Root(t.children[0]) == Rhs(6)[0];
    ValueValue(cv, t.children[0]);
    assert vs[|vs| - 2] == StackValue(cv, t.children[0]);
  }

  lemma PassAction(cv: Conversions, t: Tree, yytext: string, vs: seq<Js>)
    requires t.Node? && Derivation(t) && OnTop(cv, t, yytext, vs) && 7 <= t.prod <= 12
    ensures PerformAction(cv, t.prod, yytext, vs) == Some(StackValue(cv, t))
  {
    hide StackValue, ValueOf, LastWins, PerformAction;
    PassValue(cv, t);
    PassPerform(cv, t.prod, yytext, vs);
  }

  lemma MembersValue(cv: Conversions, t: Tree)
    requires Derivation(t) && Root(t) == JSONMemberList
    ensures t.Node? && 16 <= t.prod <= 17 && StackValue(cv, t) == JsObject(LastWins(MembersOf(cv, t)))
  {
    NodeByRoot(t);
  }

  lemma ItemsValue(cv: Conversions, t: Tree)
    requires Derivation(t) && Root(t) == JSONElementList
    ensures t.Node? && t.prod >= 20 && StackValue(cv, t) == JsArray(ItemsOf(cv, t))
  {
    NodeByRoot(t);
  }

  lemma PerformBrackets(cv: Conversions, p: Production, yytext: string, vs: seq<Js>)
    requires (p == 13 || p == 14 || p == 18 || p == 19) && |vs| >= |Rhs(p)|
    ensures |Rhs(p)| == if p == 13 || p == 18 then 2 else 3
    ensures PerformAction(cv, p, yytext, vs)
            == Some(if p == 13 then JsObject(map[]) else if p == 18 then JsArray([]) else vs[|vs| - 2])
  {
  }

  /** What the value of an object or array is made of. */
  lemma BracketValue(cv: Conversions, t: Tree)
    requires t.Node? && Derivation(t) && (t.prod == 13 || t.prod == 14 || t.prod == 18 || t.prod == 19)
    ensures t.prod == 13 ==> StackValue(cv, t) == JsObject(map[])
    ensures t.prod == 18 ==> StackValue(cv, t) == JsArray([])
    ensures t.prod == 14 || t.prod == 19 ==>
              && |t.children| == 3 && Derivation(t.children[1])
              && StackValue(cv, t) == StackValue(cv, t.children[1])
  {
    hide LastWins, MembersOf, ItemsOf;
    if t.prod == 14 || t.prod == 19 {
      var c := t.children[1];
      assert Root(c) == Rhs(t.prod)[1];
      if t.prod == 14 {
        MembersValue(cv, c);
      } else {
        ItemsValue(cv, c);
      }
    }
  }

  lemma BracketAction(cv: Conversions, t: Tree, yytext: string, vs: seq<Js>)
    requires t.Node? && Derivation(t) && OnTop(cv, t, yytext, vs)
    requires t.prod == 13 || t.prod == 14 || t.prod == 18 || t.prod == 19
    ensures PerformAction(cv, t.prod, yytext, vs) == Some(StackValue(cv, t))
  {
    hide StackValue, PerformAction, Rhs, Lhs;
    PerformBrackets(cv, t.prod, yytext, vs);
    BracketValue(cv, t);
    if t.prod == 14 || t.prod == 19 {
      assert vs[|vs| - 2] == StackValue(cv, t.children[1]);
    }
  }

  lemma StringValue(cv: Conversions, t: Tree)
    requires Derivation(t) && Root(t) == JSONString
    ensures StackValue(cv, t) == JsString(NameOf(cv, t))
  {
    NodeByRoot(t);
    assert t.prod == 1;
  }

  lemma ValueValue(cv: Conversions, t: Tree)
    requires Derivation(t) && Root(t) == JSONValue
    ensures t.Node? && 7 <= t.prod <= 12 && StackValue(cv, t) == ValueOf(cv, t)
  {
    NodeByRoot(t);
  }

  lemma MemberAction(cv: Conversions, t: Tree, yytext: string, vs: seq<Js>)
    requires t.Node? && Derivation(t) && OnTop(cv, t, yytext, vs) && t.prod == 15
    ensures PerformAction(cv, t.prod, yytext, vs) == Some(StackValue(cv, t))
  {
    hide ValueOf, NameOf;
    var c, d, n := t.children[0], t.children[2], |vs| - 1;
    assert Root(c) == Rhs(15)[0] && Root(d) == Rhs(15)[2];
    StringValue(cv, c);
    ValueValue(cv, d);
    assert vs[n - 2] == JsString(NameOf(cv, c)) && vs[n] == ValueOf(cv, d);
    assert MemberOf(cv, t) == (NameOf(cv, c), ValueOf(cv, d));
  }

  /** What the last child of a list contributes. */
  lemma LastMember(cv: Conversions, t: Tree)
    requires Derivation(t) && Root(t) == JSONMember
    ensures t.Node? && t.prod == 15
    ensures StackValue(cv, t) == JsArray([JsString(MemberOf(cv, t).0), MemberOf(cv, t).1])
  {
    NodeByRoot(t);
  }

  lemma PerformMembers(cv: Conversions, p: Production, yytext: string, vs: seq<Js>)
    requires 16 <= p <= 17 && |vs| >= |Rhs(p)|
    ensures |Rhs(p)| == if p == 16 then 1 else 3
    ensures PerformAction(cv, p, yytext, vs)
            == SetMember(if p == 16 then JsObject(map[]) else vs[|vs| - 3], vs[|vs| - 1])
  {
  }

  lemma FirstMemberAction(cv: Conversions, t: Tree, yytext: string, vs: seq<Js>)
    requires t.Node? && Derivation(t) && OnTop(cv, t, yytext, vs) && t.prod == 16
    ensures PerformAction(cv, t.prod, yytext, vs) == Some(StackValue(cv, t))
  {
    hide MemberOf, PerformAction, LastWins, StackValue;
    PerformMembers(cv, 16, yytext, vs);
    var m := t.children[0];
    assert Root(m) == Rhs(16)[0];
    LastMember(cv, m);
    LastWinsOne(MemberOf(cv, m));
    assert vs[|vs| - 1] == StackValue(cv, m);
    MembersValue(cv, t);
    assert MembersOf(cv, t) == [MemberOf(cv, m)];
  }

  lemma MoreMembersAction(cv: Conversions, t: Tree, yytext: string, vs: seq<Js>)
    requires t.Node? && Derivation(t) && OnTop(cv, t, yytext, vs) && t.prod == 17
    ensures PerformAction(cv, t.prod, yytext, vs) == Some(StackValue(cv, t))
  {
    hide MemberOf, PerformAction, LastWins, StackValue;
    PerformMembers(cv, 17, yytext, vs);
    var l, m := t.children[0], t.children[2];
    assert Root(l) == Rhs(17)[0] && Root(m) == Rhs(17)[2];
    LastMember(cv, m);
    MembersValue(cv, l);
    LastWinsMore(MembersOf(cv, l), MemberOf(cv, m));
    assert vs[|vs| - 3] == StackValue(cv, l) && vs[|vs| - 1] == StackValue(cv, m);
    MembersValue(cv, t);
    assert MembersOf(cv, t) == MembersOf(cv, l) + [MemberOf(cv, m)];
  }

  lemma LastWinsOne(m: (string, Js))
    ensures LastWins([m]) == map[m.0 := m.1]
  {
    assert [m][..0] == [];
  }

  lemma LastWinsMore(members: seq<(string, Js)>, m: (string, Js))
    ensures LastWins(members + [m]) == LastWins(members)[m.0 := m.1]
  {
    assert (members + [m])[..|members|] == members;
  }

  lemma PerformItems(cv: Conversions, p: Production, yytext: string, vs: seq<Js>)
    requires p >= 20 && |vs| >= |Rhs(p)|
    ensures |Rhs(p)| == if p == 20 then 1 else 3
    ensures p == 20 ==> PerformAction(cv, p, yytext, vs) == Some(JsArray([vs[|vs| - 1]]))
    ensures p == 21 && vs[|vs| - 3].JsArray? ==>
            PerformAction(cv, p, yytext, vs) == Some(JsArray(vs[|vs| - 3].items + [vs[|vs| - 1]]))
  {
  }

  lemma ItemsAction(cv: Conversions, t: Tree, yytext: string, vs: seq<Js>)
    requires t.Node? && Derivation(t) && OnTop(cv, t, yytext, vs) && t.prod >= 20
    ensures PerformAction(cv, t.prod, yytext, vs) == Some(StackValue(cv, t))
  {
    hide LastWins, PerformAction, StackValue, ValueOf;
    PerformItems(cv, t.prod, yytext, vs);
    var n := |t.children| - 1;
    var v := t.children[n];
    assert Root(v) == Rhs(t.prod)[n];
    ValueValue(cv, v);
    ItemsValue(cv, t);
    assert vs[|vs| - 1] == StackValue(cv, v);
    if t.prod == 21 {
      var l := t.children[0];
      assert Root(l) == Rhs(t.prod)[0];
      ItemsValue(cv, l);
      assert vs[|vs| - 3] == StackValue(cv, l);
    }
  }

  /** The semantic action of a production computes the value of the node from the values of its children. */
  lemma ActionValue(cv: Conversions, t: Tree, yytext: string, vs: seq<Js>)
    requires t.Node? && Derivation(t) && OnTop(cv, t, yytext, vs)
    ensures t.prod != 6 ==> PerformAction(cv, t.prod, yytext, vs) == Some(StackValue(cv, t))
    ensures t.prod == 6 ==> vs[|vs| - 2] == ValueOf(cv, t.children[0])
  {
    hide PerformAction, StackValue, OnTop;
    if t.prod <= 5 {
      LiteralAction(cv, t, yytext, vs);
    } else if t.prod == 6 {
      DocumentAction(cv, t, yytext, vs);
    } else if t.prod <= 12 {
      PassAction(cv, t, yytext, vs);
    } else if t.prod == 13 || t.prod == 14 || t.prod == 18 || t.prod == 19 {
      BracketAction(cv, t, yytext, vs);
    } else if t.prod == 15 {
      MemberAction(cv, t, yytext, vs);
    } else if t.prod == 16 {
      FirstMemberAction(cv, t, yytext, vs);
    } else if t.prod == 17 {
      MoreMembersAction(cv, t, yytext, vs);
    } else {
      ItemsAction(cv, t, yytext, vs);
    }
  }

  // ----- one turn of the loop -----

  /** The node a reduction builds over the topmost trees. */
  ghost function Reduced(trees: seq<Tree>, p: Production): (t: Tree)
    requires |trees| >= |Rhs(p)|
  {
    Node(p, trees[|trees| - |Rhs(p)|..])
  }

  lemma ReducedNode(cv: Conversions, tokens: seq<Token>, c: Config, trees: seq<Tree>, p: Production)
    requires Inv(cv, tokens, c, trees) && HandleOnTop(c.states, c.symbols, p)
    ensures |trees| >= |Rhs(p)| && Derivation(Reduced(trees, p)) && OnTop(cv, Reduced(trees, p), c.yytext, c.vstack)
  {
    hide StackValue, Linked, Goto, Lhs, Rhs, YieldAll;
    var k := |trees| - |Rhs(p)|;
    var t := Reduced(trees, p);
    RhsLengths(p);
    forall i | 0 <= i < |t.children|
      ensures Derivation(t.children[i]) && Root(t.children[i]) == Rhs(p)[i]
      ensures c.vstack[|c.vstack| - |t.children| + i] == StackValue(cv, t.children[i])
    {
      assert t.children[i] == trees[k + i];
    }
  }

  /** `d` is `c` with the handle of `p` replaced by its left-hand side. */
  ghost predicate Replaced(c: Config, p: Production, value: Js, d: Config)
    requires c.Running? && Shape(c) && |c.symbols| >= |Rhs(p)|
  {
    var k := |c.symbols| - |Rhs(p)|;
    var next := Goto(c.states[k], Lhs(p));
    && next.Some?
    && d == Running(c.states[..k + 1] + [next.value], c.symbols[..k] + [Lhs(p)], c.vstack[..k + 1] + [value], c.yytext,
                    c.shifts, c.reductions + 1)
  }

  /** The machine's reduction, once the handle is there and the action succeeds. */
  lemma DoReduceIs(cv: Conversions, c: Config, p: Production, value: Js)
    requires c.Running? && Shape(c) && p != 6 && HandleOnTop(c.states, c.symbols, p)
    requires |c.vstack| >= |Rhs(p)| && PerformAction(cv, p, c.yytext, c.vstack) == Some(value)
    ensures Replaced(c, p, value, DoReduce(cv, c, p))
  {
    hide PerformAction, Goto, Lhs, Rhs;
    var k := |c.symbols| - |Rhs(p)|;
    assert c.states[..|c.states| - |Rhs(p)|] == c.states[..k + 1];
    assert c.vstack[..|c.vstack| - |Rhs(p)|] == c.vstack[..k + 1];
  }

  lemma LinkedMore(states: seq<nat>, symbols: seq<Symbol>, k: nat, x: Symbol, next: nat)
    requires Linked(states, symbols) && k <= |symbols| && Trans(states[k], x) == Some(next)
    ensures Linked(states[..k + 1] + [next], symbols[..k] + [x])
  {
    hide Trans;
    var more, xs := states[..k + 1] + [next], symbols[..k] + [x];
    forall i | 0 <= i < |xs|
      ensures Trans(more[i], xs[i]) == Some(more[i + 1])
    {
      if i < k {
        assert more[i] == states[i] && more[i + 1] == states[i + 1] && xs[i] == symbols[i];
      } else {
        assert more[i] == states[k] && more[i + 1] == next && xs[i] == x;
      }
    }
  }

  lemma JustifiedMore(cv: Conversions, symbols: seq<Symbol>, vstack: seq<Js>, trees: seq<Tree>, k: nat, t: Tree)
    requires Justified(cv, symbols, vstack, trees) && k <= |trees|
    requires Derivation(t) && Root(t) != JSONText
    ensures Justified(cv, symbols[..k] + [Root(t)], vstack[..k + 1] + [StackValue(cv, t)], trees[..k] + [t])
  {
    hide StackValue, Derivation;
  }

  /** A reduction pushes the node it builds, with the node's own value. */
  lemma ReduceIs(cv: Conversions, tokens: seq<Token>, c: Config, trees: seq<Tree>, p: Production)
    requires Inv(cv, tokens, c, trees) && Shape(c) && p != 6
    requires ActionOf(Top(c), Peek(tokens, c.shifts)) == Reduce(p)
    ensures |trees| == |c.symbols| >= |Rhs(p)| && Derivation(Reduced(trees, p))
    ensures Replaced(c, p, StackValue(cv, Reduced(trees, p)), Step(cv, tokens, c))
  {
    hide StackValue, Trans, Goto, PerformAction, Rhs, ActionOf, Derivation, Lhs, OnTop, Linked, Justified, DoReduce,
         YieldAll, Peek, Replaced;
    Handle(c.states, c.symbols, Peek(tokens, c.shifts), p);
    ReducedNode(cv, tokens, c, trees, p);
    var t := Reduced(trees, p);
    ActionValue(cv, t, c.yytext, c.vstack);
    JustifiedSizes(cv, c.symbols, c.vstack, trees);
    DoReduceIs(cv, c, p, StackValue(cv, t));
    assert Step(cv, tokens, c) == DoReduce(cv, c, p);
  }

  lemma ReduceKeeps(cv: Conversions, tokens: seq<Token>, c: Config, trees: seq<Tree>, p: Production)
    requires Inv(cv, tokens, c, trees) && Shape(c) && p != 6
    requires ActionOf(Top(c), Peek(tokens, c.shifts)) == Reduce(p)
    ensures |trees| >= |Rhs(p)| && Step(cv, tokens, c).Running?
    ensures Inv(cv, tokens, Step(cv, tokens, c), trees[..|trees| - |Rhs(p)|] + [Reduced(trees, p)])
    ensures Step(cv, tokens, c).reductions == c.reductions + 1 && Step(cv, tokens, c).shifts == c.shifts
  {
    hide StackValue, Trans, Goto, Rhs, ActionOf, Derivation, Lhs, Linked, Justified, YieldAll, Yield, Peek, Step;
    ReduceIs(cv, tokens, c, trees, p);
    var k := |trees| - |Rhs(p)|;
    var t := Reduced(trees, p);
    YieldReduced(trees, k, p);
    LhsNotText(p);
    JustifiedSizes(cv, c.symbols, c.vstack, trees);
    GotoIsTrans(c.states[k], p);
    LinkedMore(c.states, c.symbols, k, Lhs(p), Goto(c.states[k], Lhs(p)).value);
    JustifiedMore(cv, c.symbols, c.vstack, trees, k, t);
  }

  lemma JustifiedSizes(cv: Conversions, symbols: seq<Symbol>, vstack: seq<Js>, trees: seq<Tree>)
    requires Justified(cv, symbols, vstack, trees)
    ensures |trees| == |symbols| == |vstack| - 1
  {
  }

  lemma LhsNotText(p: Production)
    ensures p != 6 ==> Lhs(p) != JSONText
  {
  }

  lemma GotoIsTrans(state: nat, p: Production)
    ensures Trans(state, Lhs(p)) == Goto(state, Lhs(p))
  {
  }

  /** A derivation of a whole document. */
  ghost predicate Document(t: Tree) {
    Derivation(t) && t.Node? && t.prod == 6
  }

  /** The last reduction makes a document of all that was read. */
  lemma WholeDocument(cv: Conversions, tokens: seq<Token>, c: Config, trees: seq<Tree>)
    requires Inv(cv, tokens, c, trees) && HandleOnTop(c.states, c.symbols, 6) && |c.symbols| == 2
    ensures |trees| == 2 && Document(Reduced(trees, 6)) && Yield(Reduced(trees, 6)) == tokens[..c.shifts]
    ensures OnTop(cv, Reduced(trees, 6), c.yytext, c.vstack)
  {
    hide StackValue, Trans, Goto, YieldAll, Yield;
    ReducedNode(cv, tokens, c, trees, 6);
    var t := Reduced(trees, 6);
    YieldUpToAll(t, |t.children|);
    NodeYield(t);
    assert t.children[..|t.children|] == t.children == trees;
  }

  lemma NodeYield(t: Tree)
    requires t.Node?
    ensures Yield(t) == YieldUpTo(t, |t.children|)
  {
  }

  lemma ReturnSound(cv: Conversions, tokens: seq<Token>, c: Config, trees: seq<Tree>)
    requires Inv(cv, tokens, c, trees) && Shape(c)
    requires ActionOf(Top(c), Peek(tokens, c.shifts)) == Reduce(6)
    ensures |trees| == 2 && Document(Reduced(trees, 6)) && Yield(Reduced(trees, 6)) == tokens[..c.shifts]
    ensures Step(cv, tokens, c) == Returned(ValueOf(cv, Reduced(trees, 6).children[0]), c.shifts, c.reductions + 1)
  {
    BottomHandle(c.states, c.symbols, Peek(tokens, c.shifts));
    hide StackValue, Trans, Goto, PerformAction, ActionOf, Lhs, Yield, YieldAll;
    WholeDocument(cv, tokens, c, trees);
    ActionValue(cv, Reduced(trees, 6), c.yytext, c.vstack);
  }

  lemma BottomHandle(states: seq<nat>, symbols: seq<Symbol>, a: Symbol)
    requires Linked(states, symbols) && ActionOf(states[|states| - 1], a) == Reduce(6)
    ensures HandleOnTop(states, symbols, 6) && |symbols| == 2
  {
    hide ActionOf, Trans, Goto, Rhs;
    Handle(states, symbols, a, 6);
    var n := |symbols|;
    ReducesBy(states[n], a);
    RhsLengths(6);
    LinkedEdge(states, symbols, n - 1);
    LinkedEdge(states, symbols, n - 2);
    assert states[n - 1] == 2 && states[n - 2] == 0;
    if n > 2 {
      NeverBack(states, symbols, n - 2);
    }
  }

  lemma NeverBack(states: seq<nat>, symbols: seq<Symbol>, i: nat)
    requires Linked(states, symbols) && 0 < i <= |symbols|
    ensures states[i] != 0
  {
    hide Trans;
    LinkedEdge(states, symbols, i - 1);
  }

  /** The table accepts only on the start symbol, which is never pushed. */
  lemma NeverAccepts(cv: Conversions, tokens: seq<Token>, c: Config, trees: seq<Tree>)
    requires Inv(cv, tokens, c, trees) && Shape(c)
    ensures !ActionOf(Top(c), Peek(tokens, c.shifts)).Accept?
  {
    hide Trans, Goto, StackValue, Derivation;
    var n := |c.symbols|;
    AcceptState(Top(c), Peek(tokens, c.shifts));
    if Top(c) == 1 {
      LinkedEdge(c.states, c.symbols, n - 1);
      TextEdge(c.states[n - 1], c.symbols[n - 1]);
    }
  }

  lemma AcceptState(e: nat, a: Symbol)
    ensures ActionOf(e, a).Accept? ==> e == 1
  {
  }

  lemma TextEdge(state: nat, x: Symbol)
    requires Edge(state, x, 1)
    ensures x == JSONText
  {
  }

  // ----- counting -----

  /** The number of reductions behind a tree. */
  ghost function Nodes(t: Tree): nat
    decreases t, 1
  {
    if t.Leaf? then 0 else 1 + NodesUpTo(t, |t.children|)
  }

  ghost function NodesUpTo(t: Tree, n: nat): nat
    requires t.Node? && n <= |t.children|
    decreases t, 0, n
  {
    if n == 0 then 0 else NodesUpTo(t, n - 1) + Nodes(t.children[n - 1])
  }

  ghost function NodesAll(trees: seq<Tree>): nat {
    if trees == [] then 0 else NodesAll(trees[..|trees| - 1]) + Nodes(trees[|trees| - 1])
  }

  /** How far below three reductions a token a subtree stays: unit productions above it may still be applied. */
  ghost function Slack(s: Symbol): nat {
    if Terminal(s) then 3
    else match s
    case JSONMemberList => 0
    case JSONElementList => 0
    case JSONText => 0
    case JSONValue => 1
    case JSONMember => 1
    case _ => 2
  }

  ghost function SlackUpTo(p: Production, n: nat): nat
    requires n <= |Rhs(p)|
  {
    if n == 0 then 0 else SlackUpTo(p, n - 1) + Slack(Rhs(p)[n - 1])
  }

  /** Every production leaves room for its own reduction. */
  lemma SlackRule(p: Production)
    ensures 1 + Slack(Lhs(p)) <= SlackUpTo(p, |Rhs(p)|)
  {
    RhsLengths(p);
    assert SlackUpTo(p, 1) == Slack(Rhs(p)[0]);
    if |Rhs(p)| >= 2 {
      assert SlackUpTo(p, 2) == SlackUpTo(p, 1) + Slack(Rhs(p)[1]);
    }
    if |Rhs(p)| >= 3 {
      assert SlackUpTo(p, 3) == SlackUpTo(p, 2) + Slack(Rhs(p)[2]);
    }
  }

  /** A derivation has fewer than three reductions for each of its tokens. */
  lemma {:induction false} NodesBound(t: Tree)
    requires Derivation(t)
    ensures Nodes(t) + Slack(Root(t)) <= 3 * |Yield(t)|
    decreases t, 1
  {
    hide Slack, Lhs, Rhs;
    if t.Leaf? {
      TerminalSlack(t.token.kind);
    } else {
      NodesUpToBound(t, |t.children|);
      SlackRule(t.prod);
    }
  }

  lemma TerminalSlack(s: Symbol)
    requires Terminal(s)
    ensures Slack(s) == 3
  {
  }

  lemma {:induction false} NodesUpToBound(t: Tree, n: nat)
    requires t.Node? && Derivation(t) && n <= |t.children|
    ensures NodesUpTo(t, n) + SlackUpTo(t.prod, n) <= 3 * |YieldUpTo(t, n)|
    decreases t, 0, n
  {
    hide Slack, Lhs, Rhs, Yield;
    if n > 0 {
      NodesUpToBound(t, n - 1);
      NodesBound(t.children[n - 1]);
    }
  }

  lemma {:induction false} NodesAllConcat(a: seq<Tree>, b: seq<Tree>)
    ensures NodesAll(a + b) == NodesAll(a) + NodesAll(b)
  {
    if b == [] {
      assert a + b == a;
    } else {
      var k := |b| - 1;
      NodesAllConcat(a, b[..k]);
      assert (a + b)[..|a| + k] == a + b[..k];
    }
  }

  lemma {:induction false} NodesUpToAll(t: Tree, n: nat)
    requires t.Node? && n <= |t.children|
    ensures NodesUpTo(t, n) == NodesAll(t.children[..n])
  {
    if n > 0 {
      NodesUpToAll(t, n - 1);
      assert t.children[..n][..n - 1] == t.children[..n - 1];
    }
  }

  /** A reduction adds one node. */
  lemma NodesReduced(trees: seq<Tree>, k: nat, p: Production)
    requires k <= |trees|
    ensures NodesAll(trees[..k] + [Node(p, trees[k..])]) == NodesAll(trees) + 1
  {
    var t := Node(p, trees[k..]);
    NodesUpToAll(t, |t.children|);
    assert t.children[..|t.children|] == trees[k..];
    NodesAllConcat(trees[..k], trees[k..]);
    assert trees[..k] + trees[k..] == trees;
    assert (trees[..k] + [t])[..k] == trees[..k];
  }

  /** At any time at most three reductions have been made for each token read. */
  lemma {:induction false} NodesAllBound(trees: seq<Tree>)
    requires forall i :: 0 <= i < |trees| ==> Derivation(trees[i])
    ensures NodesAll(trees) <= 3 * |YieldAll(trees)|
  {
    if trees != [] {
      NodesAllBound(trees[..|trees| - 1]);
      NodesBound(trees[|trees| - 1]);
    }
  }
}
