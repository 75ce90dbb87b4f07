/**
 * Properties of the rewriter of visitor.ts: how a table's keys select a node, that keys which
 * can never match may be dropped at every nesting level, that a tree with no selected kind is
 * returned untouched, and how `visit`, the descent and `leave` compose in a matched rule.
 */
module VisitorLaws {
  import opened Util
  import opened Visitor

  /** Entry `i` matches `node` and no entry before it does. */
  predicate IsFirstMatch<A, C>(kinds: KindTable, entries: seq<(string, Transformer<A, C>)>, ctx: C, node: Node<A>, i: int) {
    && 0 <= i < |entries|
    && Matches(kinds, entries[i].0, entries[i].1, ctx, node)
    && forall j :: 0 <= j < i ==> !Matches(kinds, entries[j].0, entries[j].1, ctx, node)
  }

  /** The scan selects exactly the first matching entry, and selects nothing iff no entry matches. */
  lemma {:induction false} DispatchIsFirstMatch<A, C>(kinds: KindTable, entries: seq<(string, Transformer<A, C>)>, ctx: C, node: Node<A>)
    ensures Dispatch(kinds, entries, ctx, node).None? <==>
            forall i :: 0 <= i < |entries| ==> !Matches(kinds, entries[i].0, entries[i].1, ctx, node)
    ensures forall i :: IsFirstMatch(kinds, entries, ctx, node, i) ==> Dispatch(kinds, entries, ctx, node) == Some(entries[i].1)
    ensures Dispatch(kinds, entries, ctx, node).Some? ==>
            exists i :: IsFirstMatch(kinds, entries, ctx, node, i) && Dispatch(kinds, entries, ctx, node) == Some(entries[i].1)
    decreases |entries|
  {
    if |entries| > 0 && !Matches(kinds, entries[0].0, entries[0].1, ctx, node) {
      var rest := entries[1..];
      DispatchIsFirstMatch(kinds, rest, ctx, node);
      forall i | IsFirstMatch(kinds, entries, ctx, node, i)
        ensures i > 0 && IsFirstMatch(kinds, rest, ctx, node, i - 1)
      {
        assert i != 0;
      }
      if Dispatch(kinds, rest, ctx, node).Some? {
        var k :| IsFirstMatch(kinds, rest, ctx, node, k) && Dispatch(kinds, rest, ctx, node) == Some(rest[k].1);
        assert IsFirstMatch(kinds, entries, ctx, node, k + 1);
      } else {
        forall i | 0 <= i < |entries|
          ensures !Matches(kinds, entries[i].0, entries[i].1, ctx, node)
        {
          if i > 0 { assert entries[i] == rest[i - 1]; }
        }
      }
    } else if |entries| > 0 {
      assert IsFirstMatch(kinds, entries, ctx, node, 0);
    }
  }

  /** A node selected by the first matching key is rewritten by that key's rule. */
  lemma FirstMatchingKeyWins<A, C>(kinds: KindTable, node: Node<A>, t: Transformer<A, C>, ctx: C, i: int)
    requires IsFirstMatch(kinds, Keys(t), ctx, node, i)
    ensures Rewrite(kinds, node, t, ctx) == ApplyRule(kinds, node, Keys(t)[i].1, ctx)
  {
    DispatchIsFirstMatch(kinds, Keys(t), ctx, node);
  }

  /** With no matching key the node's children are rewritten with the same table. */
  lemma NoMatchDescendsWithSameTable<A, C>(kinds: KindTable, node: Node<A>, t: Transformer<A, C>, ctx: C)
    requires forall i :: 0 <= i < |Keys(t)| ==> !Matches(kinds, Keys(t)[i].0, Keys(t)[i].1, ctx, node)
    ensures Rewrite(kinds, node, t, ctx) == MapChildren(kinds, node, t, ctx)
  {
    DispatchIsFirstMatch(kinds, Keys(t), ctx, node);
  }

  // ---------------------------------------------------------------------------------------
  // Keys that can never match

  /** A reserved key, a name the kind table lacks, or a rule whose filter rejects everything. */
  ghost predicate NeverMatches<A(!new), C(!new)>(kinds: KindTable, key: string, t: Transformer<A, C>) {
    || IsReserved(key)
    || kinds(key).None?
    || (t.Table? && t.filter.Some? && forall c, n :: !t.filter.value(c, n))
  }

  /** The table with every never-matching entry removed, at every nesting level. */
  ghost function Prune<A(!new), C(!new)>(kinds: KindTable, t: Transformer<A, C>): Transformer<A, C>
    decreases t, 1
  {
    match t
    case BareVisitor(_) => t
    case Table(entries, f, v, l) => Table(PruneFrom(kinds, t, 0), f, v, l)
  }

  /** The pruned entries of table `t` from index `i` on. */
  ghost function PruneFrom<A(!new), C(!new)>(kinds: KindTable, t: Transformer<A, C>, i: nat): seq<(string, Transformer<A, C>)>
    requires t.Table? && i <= |t.entries|
    decreases t, 0, |t.entries| - i
  {
    if i == |t.entries| then []
    else if NeverMatches(kinds, t.entries[i].0, t.entries[i].1) then PruneFrom(kinds, t, i + 1)
    else [(t.entries[i].0, Prune(kinds, t.entries[i].1))] + PruneFrom(kinds, t, i + 1)
  }

  /** Pruning keeps what the scan selects (up to pruning the selected rule itself). */
  lemma {:induction false} DispatchPrune<A(!new), C(!new)>(kinds: KindTable, t: Transformer<A, C>, i: nat, ctx: C, node: Node<A>)
    requires t.Table? && i <= |t.entries|
    ensures Dispatch(kinds, PruneFrom(kinds, t, i), ctx, node) ==
            match Dispatch(kinds, t.entries[i..], ctx, node)
            case None => None
            case Some(r) => Some(Prune(kinds, r))
    decreases |t.entries| - i
  {
    if i < |t.entries| {
      var key, v := t.entries[i].0, t.entries[i].1;
      assert t.entries[i..][0] == t.entries[i];
      assert t.entries[i..][1..] == t.entries[i + 1..];
      DispatchPrune(kinds, t, i + 1, ctx, node);
      if NeverMatches(kinds, key, v) {
        assert !Matches(kinds, key, v, ctx, node);
      } else {
        assert Accepts(Prune(kinds, v), ctx, node) == Accepts(v, ctx, node);
      }
    }
  }

  /**
   * Reserved keys, unknown kind names and always-rejecting filters change nothing, at any depth:
   * rewriting with the pruned table gives the same result.
   */
  lemma {:induction false} PruneRewrite<A(!new), C(!new)>(kinds: KindTable, node: Node<A>, t: Transformer<A, C>, ctx: C)
    ensures Rewrite(kinds, node, Prune(kinds, t), ctx) == Rewrite(kinds, node, t, ctx)
    decreases node, 3, 0
  {
    if t.Table? {
      DispatchPrune(kinds, t, 0, ctx, node);
      assert t.entries[0..] == t.entries;
    }
    match Dispatch(kinds, Keys(t), ctx, node)
    case Some(rule) => PruneApplyRule(kinds, node, rule, ctx);
    case None => PruneMapFrom(kinds, node, 0, t, ctx);
  }

  /** A matched rule and its pruned form rewrite a node alike. */
  lemma {:induction false} PruneApplyRule<A(!new), C(!new)>(kinds: KindTable, node: Node<A>, rule: Transformer<A, C>, ctx: C)
    ensures ApplyRule(kinds, node, Prune(kinds, rule), ctx) == ApplyRule(kinds, node, rule, ctx)
    decreases node, 2, 0
  {
    var (c1, visited) := if rule.Table? && rule.visit.Some? then rule.visit.value(ctx, node) else (ctx, Same);
    PruneMapFrom(kinds, node, 0, rule, c1);
  }

  /** Children rewritten with a table and with its pruned form agree. */
  lemma {:induction false} PruneMapFrom<A(!new), C(!new)>(kinds: KindTable, parent: Node<A>, i: nat, t: Transformer<A, C>, ctx: C)
    requires i <= |parent.children|
    ensures MapFrom(kinds, parent, i, Prune(kinds, t), ctx) == MapFrom(kinds, parent, i, t, ctx)
    decreases parent, 0, |parent.children| - i
  {
    if i < |parent.children| {
      PruneRewrite(kinds, parent.children[i], t, ctx);
      match Rewrite(kinds, parent.children[i], t, ctx)
      case Threw =>
      case Done(c1, kid) => PruneMapFrom(kinds, parent, i + 1, t, c1);
    }
  }

  // ---------------------------------------------------------------------------------------
  // Untouched trees

  /** Some non-reserved key of `t` names `kind`. */
  ghost predicate Selects<A, C>(kinds: KindTable, t: Transformer<A, C>, kind: int) {
    exists i :: 0 <= i < |Keys(t)| && !IsReserved(Keys(t)[i].0) && kinds(Keys(t)[i].0) == Some(kind)
  }

  /** No node of the tree has a kind that a key of `t` names. */
  ghost predicate Avoids<A, C>(kinds: KindTable, t: Transformer<A, C>, node: Node<A>)
    decreases node
  {
    && !Selects(kinds, t, node.kind)
    && forall k :: k in node.children ==> Avoids(kinds, t, k)
  }

  /** A tree with no node of a selected kind comes back as it was, and no callback runs. */
  lemma {:induction false} AvoidedTreeIsUntouched<A, C>(kinds: KindTable, node: Node<A>, t: Transformer<A, C>, ctx: C)
    requires Avoids(kinds, t, node)
    ensures Rewrite(kinds, node, t, ctx) == Done(ctx, node)
    decreases node, 1
  {
    DispatchIsFirstMatch(kinds, Keys(t), ctx, node);
    AvoidedChildrenAreUntouched(kinds, node, 0, t, ctx);
    assert node.children[0..] == node.children;
  }

  /** The children of a tree with no selected kind come back as they were. */
  lemma {:induction false} AvoidedChildrenAreUntouched<A, C>(kinds: KindTable, parent: Node<A>, i: nat, t: Transformer<A, C>, ctx: C)
    requires i <= |parent.children|
    requires forall k :: k in parent.children ==> Avoids(kinds, t, k)
    ensures MapFrom(kinds, parent, i, t, ctx) == Some((ctx, parent.children[i..]))
    decreases parent, 0, |parent.children| - i
  {
    if i < |parent.children| {
      assert parent.children[i] in parent.children;
      AvoidedTreeIsUntouched(kinds, parent.children[i], t, ctx);
      AvoidedChildrenAreUntouched(kinds, parent, i + 1, t, ctx);
      assert [parent.children[i]] + parent.children[i + 1..] == parent.children[i..];
    }
  }

  /** When no key names any kind, every tree avoids the table. */
  lemma {:induction false} NothingSelectedAvoidsAll<A, C>(kinds: KindTable, t: Transformer<A, C>, node: Node<A>)
    requires forall kind :: !Selects(kinds, t, kind)
    ensures Avoids(kinds, t, node)
    decreases node
  {
    forall k | k in node.children
      ensures Avoids(kinds, t, k)
    {
      NothingSelectedAvoidsAll(kinds, t, k);
    }
  }

  /** The identity law: an empty rule table returns the input tree and context unchanged. */
  lemma EmptyTableIsIdentity<A, C>(kinds: KindTable, node: Node<A>, f: Option<(C, Node<A>) -> bool>,
                                   v: Option<(C, Node<A>) -> (C, Outcome<A>)>, l: Option<(C, Node<A>) -> (C, Outcome<A>)>, ctx: C)
    ensures Rewrite(kinds, node, Table([], f, v, l), ctx) == Done(ctx, node)
  {
    NothingSelectedAvoidsAll(kinds, Table([], f, v, l), node);
    AvoidedTreeIsUntouched(kinds, node, Table([], f, v, l), ctx);
  }

  /** A plain function given as a rule is never called: the subtree it matches is left as it was. */
  lemma BareVisitorIsNeverCalled<A, C>(kinds: KindTable, node: Node<A>, f: Node<A> -> Node<A>, ctx: C)
    ensures Rewrite(kinds, node, BareVisitor(f), ctx) == Done(ctx, node)
    ensures ApplyRule(kinds, node, BareVisitor(f), ctx) == Done(ctx, node)
  {
    var t: Transformer<A, C> := BareVisitor(f);
    NothingSelectedAvoidsAll(kinds, t, node);
    AvoidedTreeIsUntouched(kinds, node, t, ctx);
    forall k | k in node.children
      ensures Avoids(kinds, t, k)
    {
      NothingSelectedAvoidsAll(kinds, t, k);
    }
    AvoidedChildrenAreUntouched(kinds, node, 0, t, ctx);
    assert node.children[0..] == node.children;
  }

  // ---------------------------------------------------------------------------------------
  // Composition inside a matched rule

  /** A rule without callbacks only descends, with its own nested keys as the table. */
  lemma RuleWithoutCallbacksDescends<A, C>(kinds: KindTable, node: Node<A>, rule: Transformer<A, C>, ctx: C)
    requires rule.Table? && rule.visit.None? && rule.leave.None?
    ensures ApplyRule(kinds, node, rule, ctx) == MapChildren(kinds, node, rule, ctx)
  {
  }

  /**
   * A rule with `visit` and no `leave` whose `visit` returns a new node yields exactly that node:
   * the descent still runs (its context effects and exceptions remain) but its tree is dropped,
   * so no nested key of the rule acts on the result.
   */
  lemma VisitOnlyDiscardsDescent<A, C>(kinds: KindTable, node: Node<A>, rule: Transformer<A, C>, ctx: C,
                                       c1: C, m: Node<A>)
    requires rule.Table? && rule.visit.Some? && rule.leave.None?
    requires rule.visit.value(ctx, node) == (c1, New(m))
    ensures ApplyRule(kinds, node, rule, ctx) ==
            match MapChildren(kinds, node, rule, c1)
            case Threw => Threw
            case Done(c2, _) => Done(c2, m)
  {
  }

  /**
   * A rule with `leave` hands it the node whose children were rewritten with the rule, after
   * `visit` saw the original node; `leave`'s new node is final, whatever `visit` returned.
   */
  lemma LeaveSeesDescendedAndIsFinal<A, C>(kinds: KindTable, node: Node<A>, rule: Transformer<A, C>, ctx: C,
                                           c1: C, visited: Outcome<A>, c2: C, descended: Node<A>, c3: C, m: Node<A>)
    requires rule.Table? && rule.leave.Some?
    requires (c1, visited) == if rule.visit.Some? then rule.visit.value(ctx, node) else (ctx, Same)
    requires !visited.Throw?
    requires MapChildren(kinds, node, rule, c1) == Done(c2, descended)
    requires rule.leave.value(c2, descended) == (c3, New(m))
    ensures ApplyRule(kinds, node, rule, ctx) == Done(c3, m)
  {
  }

  /** When neither callback returns a new node, the descended node is the result. */
  lemma UnchangedYieldsDescended<A, C>(kinds: KindTable, node: Node<A>, rule: Transformer<A, C>, ctx: C,
                                       c1: C, c2: C, descended: Node<A>, c3: C)
    requires rule.Table?
    requires (c1, Same) == if rule.visit.Some? then rule.visit.value(ctx, node) else (ctx, Same)
    requires MapChildren(kinds, node, rule, c1) == Done(c2, descended)
    requires (c3, Same) == if rule.leave.Some? then rule.leave.value(c2, descended) else (c2, Same)
    ensures ApplyRule(kinds, node, rule, ctx) == Done(c3, descended)
  {
  }

  /** An exception from `visit` aborts the rule, whatever the rest would do. */
  lemma VisitExceptionAborts<A, C>(kinds: KindTable, node: Node<A>, rule: Transformer<A, C>, ctx: C, c1: C)
    requires rule.Table? && rule.visit.Some? && rule.visit.value(ctx, node) == (c1, Throw)
    ensures ApplyRule(kinds, node, rule, ctx) == Threw
  {
  }

  // ---------------------------------------------------------------------------------------
  // The pipeline

  /** With no replacements the result stays undefined, so reading its output fails. */
  lemma EmptyPipelineHasNoResult<A, C>(kinds: KindTable, source: Node<A>, ctx: C)
    ensures Pipeline(kinds, source, [], ctx).None?
  {
  }

  /** Stage `k + 1` reads exactly what stages `0..k` produced. */
  lemma {:induction false} StagesFeedForward<A, C>(kinds: KindTable, source: Node<A>, stages: seq<Transformer<A, C>>, ctx: C, k: nat)
    requires k < |stages|
    ensures RunStages(kinds, source, stages[..k + 1], ctx) ==
            match RunStages(kinds, source, stages[..k], ctx)
            case Threw => Threw
            case Done(c, n) => Rewrite(kinds, n, stages[k], c)
  {
    RunStagesSnoc(kinds, source, stages[..k], stages[k], ctx);
    assert stages[..k] + [stages[k]] == stages[..k + 1];
  }
}
