/**
 * The rule set of replace_scope.ts: the nested path ClassDeclaration -> Constructor -> Parameter,
 * whose only callback logs the parameter and returns it. Running it changes nothing.
 */
module ReplaceScope {
  import opened Util
  import opened Visitor
  import opened VisitorLaws

  /** The `Parameter.visit` callback; its logging is output only, so it returns the node it got. */
  function LogParameter<A, C>(ctx: C, n: Node<A>): (C, Outcome<A>) {
    (ctx, Same)
  }

  /** `{ visit }` under `Parameter`. */
  function ParameterRule<A, C>(): Transformer<A, C> {
    Table([("visit", BareVisitor(n => n))], None, Some(LogParameter), None)
  }

  /** A rule whose only key nests `sub`, with no callbacks of its own. */
  function PathRule<A, C>(key: string, sub: Transformer<A, C>): Transformer<A, C> {
    Table([(key, sub)], None, None, None)
  }

  /** The exported table: ClassDeclaration -> Constructor -> Parameter. */
  function ScopeTable<A, C>(): Transformer<A, C> {
    PathRule("ClassDeclaration", PathRule("Constructor", PathRule("Parameter", ParameterRule())))
  }

  /** Applying the `Parameter` rule returns the node as it was, with the context unchanged. */
  lemma ParameterRuleIsInert<A, C>(kinds: KindTable, n: Node<A>, ctx: C)
    ensures ApplyRule(kinds, n, ParameterRule(), ctx) == Done(ctx, n)
  {
    var t: Transformer<A, C> := ParameterRule();
    assert forall kind :: !Selects(kinds, t, kind);
    forall k | k in n.children
      ensures Avoids(kinds, t, k)
    {
      NothingSelectedAvoidsAll(kinds, t, k);
    }
    AvoidedChildrenAreUntouched(kinds, n, 0, t, ctx);
    assert n.children[0..] == n.children;
  }

  /** A table that returns every tree unchanged rebuilds every node's children unchanged. */
  lemma {:induction false} InertChildren<A, C>(kinds: KindTable, t: Transformer<A, C>, parent: Node<A>, i: nat, ctx: C)
    requires forall m: Node<A>, c: C :: Rewrite(kinds, m, t, c) == Done(c, m)
    requires i <= |parent.children|
    ensures MapFrom(kinds, parent, i, t, ctx) == Some((ctx, parent.children[i..]))
    decreases |parent.children| - i
  {
    if i < |parent.children| {
      var kid := parent.children[i];
      assert Rewrite(kinds, kid, t, ctx) == Done(ctx, kid);
      InertChildren(kinds, t, parent, i + 1, ctx);
      assert MapFrom(kinds, parent, i + 1, t, ctx) == Some((ctx, parent.children[i + 1..]));
      assert MapFrom(kinds, parent, i, t, ctx) == Some((ctx, [kid] + parent.children[i + 1..]));
      assert [kid] + parent.children[i + 1..] == parent.children[i..];
    }
  }

  /** A path rule without callbacks, applied to a matched node, is inert when its table is. */
  lemma PathRuleApplyIsInert<A, C>(kinds: KindTable, key: string, sub: Transformer<A, C>, n: Node<A>, ctx: C)
    requires forall m: Node<A>, c: C :: Rewrite(kinds, m, PathRule(key, sub), c) == Done(c, m)
    ensures ApplyRule(kinds, n, PathRule(key, sub), ctx) == Done(ctx, n)
  {
    InertChildren(kinds, PathRule(key, sub), n, 0, ctx);
    assert n.children[0..] == n.children;
  }

  /** A table with one key whose rule is inert leaves every tree and the context unchanged. */
  lemma {:induction false} PathRuleIsInert<A, C>(kinds: KindTable, key: string, sub: Transformer<A, C>, n: Node<A>, ctx: C)
    requires forall m: Node<A>, c: C :: ApplyRule(kinds, m, sub, c) == Done(c, m)
    ensures Rewrite(kinds, n, PathRule(key, sub), ctx) == Done(ctx, n)
    decreases n, 1
  {
    var t := PathRule(key, sub);
    if Matches(kinds, key, sub, ctx, n) {
      assert IsFirstMatch(kinds, Keys(t), ctx, n, 0);
      FirstMatchingKeyWins(kinds, n, t, ctx, 0);
    } else {
      NoMatchDescendsWithSameTable(kinds, n, t, ctx);
      PathChildrenAreInert(kinds, key, sub, n, 0, ctx);
      assert n.children[0..] == n.children;
    }
  }

  /** The children of `parent` from `i` on, under an inert one-key table. */
  lemma {:induction false} PathChildrenAreInert<A, C>(kinds: KindTable, key: string, sub: Transformer<A, C>, parent: Node<A>, i: nat, ctx: C)
    requires forall m: Node<A>, c: C :: ApplyRule(kinds, m, sub, c) == Done(c, m)
    requires i <= |parent.children|
    ensures MapFrom(kinds, parent, i, PathRule(key, sub), ctx) == Some((ctx, parent.children[i..]))
    decreases parent, 0, |parent.children| - i
  {
    if i < |parent.children| {
      PathRuleIsInert(kinds, key, sub, parent.children[i], ctx);
      PathChildrenAreInert(kinds, key, sub, parent, i + 1, ctx);
      assert [parent.children[i]] + parent.children[i + 1..] == parent.children[i..];
    }
  }

  /** One level of the path: if `sub` is inert when applied, the path rule around it is too. */
  lemma PathLevelIsInert<A, C>(kinds: KindTable, key: string, sub: Transformer<A, C>)
    requires forall m: Node<A>, c: C :: ApplyRule(kinds, m, sub, c) == Done(c, m)
    ensures forall m: Node<A>, c: C :: Rewrite(kinds, m, PathRule(key, sub), c) == Done(c, m)
    ensures forall m: Node<A>, c: C :: ApplyRule(kinds, m, PathRule(key, sub), c) == Done(c, m)
  {
    forall m: Node<A>, c: C
      ensures Rewrite(kinds, m, PathRule(key, sub), c) == Done(c, m)
    {
      PathRuleIsInert(kinds, key, sub, m, c);
    }
    forall m: Node<A>, c: C
      ensures ApplyRule(kinds, m, PathRule(key, sub), c) == Done(c, m)
    {
      PathRuleApplyIsInert(kinds, key, sub, m, c);
    }
  }

  /**
   * Whatever the kind table says, transforming a tree with the replace_scope.ts table yields the
   * same tree: the nested rules fire only on parameters of constructors of classes, and there
   * they only log.
   */
  lemma ScopeTableIsIdentity<A, C>(kinds: KindTable, root: Node<A>, ctx: C)
    ensures Pipeline(kinds, root, [ScopeTable()], ctx) == Some(Done(ctx, root))
  {
    forall m: Node<A>, c: C
      ensures ApplyRule(kinds, m, ParameterRule(), c) == Done(c, m)
    {
      ParameterRuleIsInert(kinds, m, c);
    }
    PathLevelIsInert(kinds, "Parameter", ParameterRule<A, C>());
    PathLevelIsInert(kinds, "Constructor", PathRule<A, C>("Parameter", ParameterRule()));
    PathLevelIsInert(kinds, "ClassDeclaration", PathRule<A, C>("Constructor", PathRule("Parameter", ParameterRule())));
    assert Rewrite(kinds, root, ScopeTable<A, C>(), ctx) == Done(ctx, root);
    var stages: seq<Transformer<A, C>> := [ScopeTable()];
    assert stages[1..] == [];
  }
}
