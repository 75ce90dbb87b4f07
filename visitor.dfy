/**
 * The rule-table tree rewriter of visitor.ts.
 *
 * A syntax tree is an immutable value; a rule table ("transformer") is a sequence of
 * (key, value) pairs in the order in which the host object lists its own keys, plus the
 * optional `filter`, `visit` and `leave` callbacks. The callbacks see a context value that
 * is threaded through them in evaluation order; it stands for the caller-owned mutable
 * record that the callbacks of a rule set close over.
 */
module Visitor {
  import opened Util

  /** The kind-name lookup table: the kind number of a symbolic name, `None` for a name it lacks. */
  type KindTable = string -> Option<int>

  /** A syntax node: its kind number, its node-specific attributes and its children in visiting order. */
  datatype Node<A> = Node(kind: int, attrs: A, children: seq<Node<A>>)

  /**
   * What a `visit` or `leave` callback returned. `Same` is the node it was handed (or the matched
   * node itself), `New(n)` any other node object, `Throw` an exception escaping the callback.
   */
  datatype Outcome<A> = Same | New(node: Node<A>) | Throw

  /**
   * A rule table. `Table` is an object: its own keys with their values, in key order (the
   * keys `visit`, `leave`, `filter` and private `_` keys are among them), and its callbacks.
   * `BareVisitor` is a plain function given where a table is expected: it has no own keys
   * and no callback properties.
   */
  datatype Transformer<!A, !C> =
    | Table(entries: seq<(string, Transformer<A, C>)>,
            filter: Option<(C, Node<A>) -> bool>,
            visit: Option<(C, Node<A>) -> (C, Outcome<A>)>,
            leave: Option<(C, Node<A>) -> (C, Outcome<A>)>)
    | BareVisitor(f: Node<A> -> Node<A>)

  /** The result of a traversal step: the context and the node it produced, or an escaped exception. */
  datatype Step<A, C> = Done(ctx: C, node: Node<A>) | Threw

  /** Keys the scan never reads as kind names. */
  predicate IsReserved(key: string) {
    key == "visit" || key == "leave" || key == "filter" || (|key| > 0 && key[0] == '_')
  }

  /** The own keys of a transformer, in order; a function has none. */
  function Keys<A, C>(t: Transformer<A, C>): seq<(string, Transformer<A, C>)> {
    if t.Table? then t.entries else []
  }

  /** The filter test `!t.filter || t.filter(node)`. */
  predicate Accepts<A, C>(t: Transformer<A, C>, ctx: C, node: Node<A>) {
    !t.Table? || t.filter.None? || t.filter.value(ctx, node)
  }

  /** Whether the entry `key: t` selects `node`; the filter is consulted only once the kind agrees. */
  predicate Matches<A, C>(kinds: KindTable, key: string, t: Transformer<A, C>, ctx: C, node: Node<A>) {
    !IsReserved(key) && kinds(key) == Some(node.kind) && Accepts(t, ctx, node)
  }

  /** The value of the first entry that matches `node`, if any. */
  function Dispatch<A, C>(kinds: KindTable, entries: seq<(string, Transformer<A, C>)>, ctx: C, node: Node<A>)
    : Option<Transformer<A, C>>
  {
    if |entries| == 0 then None
    else if Matches(kinds, entries[0].0, entries[0].1, ctx, node) then Some(entries[0].1)
    else Dispatch(kinds, entries[1..], ctx, node)
  }

  /** `traverseChild`: apply the first matching entry, or rebuild the node with the same table. */
  function Rewrite<A, C>(kinds: KindTable, node: Node<A>, t: Transformer<A, C>, ctx: C): Step<A, C>
    decreases node, 3, 0
  {
    match Dispatch(kinds, Keys(t), ctx, node)
    case Some(rule) => ApplyRule(kinds, node, rule, ctx)
    case None => MapChildren(kinds, node, t, ctx)
  }

  /**
   * `doTraverse`: `visit` on the original node, descent into its children with the matched rule
   * as the table, `leave` on the descended node; an unchanged result yields the descended node.
   */
  function ApplyRule<A, C>(kinds: KindTable, node: Node<A>, rule: Transformer<A, C>, ctx: C): Step<A, C>
    decreases node, 2, 0
  {
    var (c1, visited) := if rule.Table? && rule.visit.Some? then rule.visit.value(ctx, node) else (ctx, Same);
    if visited.Throw? then Threw
    else match MapChildren(kinds, node, rule, c1)
      case Threw => Threw
      case Done(c2, descended) =>
        var (c3, result) := if rule.Table? && rule.leave.Some? then rule.leave.value(c2, descended) else (c2, visited);
        if result.Throw? then Threw
        else if result.Same? then Done(c3, descended)
        else Done(c3, result.node)
  }

  /** `visitEachChild`: rewrite every child left to right with table `t` and rebuild the node. */
  function MapChildren<A, C>(kinds: KindTable, node: Node<A>, t: Transformer<A, C>, ctx: C): Step<A, C>
    decreases node, 1, 0
  {
    match MapFrom(kinds, node, 0, t, ctx)
    case None => Threw
    case Some((c, kids)) => Done(c, node.(children := kids))
  }

  /** The rewritten children of `parent` from index `i` on, with the context after them. */
  function MapFrom<A, C>(kinds: KindTable, parent: Node<A>, i: nat, t: Transformer<A, C>, ctx: C)
    : Option<(C, seq<Node<A>>)>
    requires i <= |parent.children|
    decreases parent, 0, |parent.children| - i
  {
    if i == |parent.children| then Some((ctx, []))
    else match Rewrite(kinds, parent.children[i], t, ctx)
      case Threw => None
      case Done(c1, kid) =>
        match MapFrom(kinds, parent, i + 1, t, c1)
        case None => None
        case Some((c2, kids)) => Some((c2, [kid] + kids))
  }

  /** `kids` followed by the children in `rest`, keeping the context of `rest`. */
  function Prepend<A, C>(kids: seq<Node<A>>, rest: Option<(C, seq<Node<A>>)>): Option<(C, seq<Node<A>>)> {
    match rest
    case None => None
    case Some((c, ks)) => Some((c, kids + ks))
  }

  /** The replacement chain of `transformFile`: each stage rewrites the previous stage's output. */
  function RunStages<A, C>(kinds: KindTable, input: Node<A>, stages: seq<Transformer<A, C>>, ctx: C): Step<A, C>
    decreases |stages|
  {
    if |stages| == 0 then Done(ctx, input)
    else match Rewrite(kinds, input, stages[0], ctx)
      case Threw => Threw
      case Done(c, n) => RunStages(kinds, n, stages[1..], c)
  }

  /** The pipeline's result; `None` when no stage ran and `result` is still undefined. */
  function Pipeline<A, C>(kinds: KindTable, source: Node<A>, replacements: seq<Transformer<A, C>>, ctx: C)
    : Option<Step<A, C>>
  {
    if |replacements| == 0 then None else Some(RunStages(kinds, source, replacements, ctx))
  }

  /** The traversal object: it holds the tree it was created for. */
  class Traversal<A, C> {
    const node: Node<A>

    constructor (node: Node<A>)
      ensures this.node == node
    {
      this.node := node;
    }

    /** The root entry: the root handed to `traverseChild` with the whole table. */
    method Traverse(kinds: KindTable, r: Transformer<A, C>, ctx: C) returns (res: Step<A, C>)
      ensures res == Rewrite(kinds, node, r, ctx)
    {
      res := TraverseChild(kinds, node, r, ctx);
    }

    /** The key scan with its early return, and the fallback descent with the same table. */
    method TraverseChild(kinds: KindTable, n: Node<A>, t: Transformer<A, C>, ctx: C) returns (res: Step<A, C>)
      ensures res == Rewrite(kinds, n, t, ctx)
      decreases n, 3, 0
    {
      var keys := Keys(t);
      var i := 0;
      while i < |keys|
        invariant 0 <= i <= |keys|
        invariant Dispatch(kinds, keys, ctx, n) == Dispatch(kinds, keys[i..], ctx, n)
      {
        var key := keys[i].0;
        var value := keys[i].1;
        assert keys[i..][1..] == keys[i + 1..];
        if IsReserved(key) {
          i := i + 1;
          continue;
        }
        if kinds(key) == Some(n.kind) && Accepts(value, ctx, n) {
          res := DoTraverse(kinds, n, value, ctx);
          return;
        }
        i := i + 1;
      }
      res := VisitEachChild(kinds, n, t, ctx);
    }

    /** The matched rule: `visit`, descent with the rule itself, `leave`, then the identity test. */
    method DoTraverse(kinds: KindTable, root: Node<A>, r: Transformer<A, C>, ctx: C) returns (res: Step<A, C>)
      ensures res == ApplyRule(kinds, root, r, ctx)
      decreases root, 2, 0
    {
      var c := ctx;
      var result: Outcome<A> := Same;
      if r.Table? && r.visit.Some? {
        var visited := r.visit.value(c, root);
        c, result := visited.0, visited.1;
        if result.Throw? {
          return Threw;
        }
      }
      var traverseResult := VisitEachChild(kinds, root, r, c);
      if traverseResult.Threw? {
        return Threw;
      }
      c := traverseResult.ctx;
      if r.Table? && r.leave.Some? {
        var left := r.leave.value(c, traverseResult.node);
        c, result := left.0, left.1;
        if result.Throw? {
          return Threw;
        }
      }
      res := if result.Same? then Done(c, traverseResult.node) else Done(c, result.node);
    }

    /** Every child rewritten in order with table `t`; the first exception aborts. */
    method VisitEachChild(kinds: KindTable, n: Node<A>, t: Transformer<A, C>, ctx: C) returns (res: Step<A, C>)
      ensures res == MapChildren(kinds, n, t, ctx)
      decreases n, 1, 0
    {
      var c := ctx;
      var kids: seq<Node<A>> := [];
      var i := 0;
      assert forall ks: seq<Node<A>> :: kids + ks == ks;
      while i < |n.children|
        invariant 0 <= i <= |n.children|
        invariant MapFrom(kinds, n, 0, t, ctx) == Prepend(kids, MapFrom(kinds, n, i, t, c))
      {
        var r := TraverseChild(kinds, n.children[i], t, c);
        if r.Threw? {
          return Threw;
        }
        assert MapFrom(kinds, n, i, t, c) == Prepend([r.node], MapFrom(kinds, n, i + 1, t, r.ctx));
        assert forall ks: seq<Node<A>> :: kids + ([r.node] + ks) == (kids + [r.node]) + ks;
        c, kids := r.ctx, kids + [r.node];
        i := i + 1;
      }
      res := Done(c, n.(children := kids));
    }
  }

  /** `transformFile`'s replacement loop: each stage traverses `transformed[0]` of the previous one. */
  method TransformFile<A, C>(kinds: KindTable, source: Node<A>, replacements: seq<Transformer<A, C>>, ctx: C)
    returns (result: Option<Step<A, C>>)
    ensures result == Pipeline(kinds, source, replacements, ctx)
  {
    result := None;
    var i := 0;
    while i < |replacements|
      invariant 0 <= i <= |replacements|
      invariant i == 0 <==> result.None?
      invariant i > 0 ==> result == Some(RunStages(kinds, source, replacements[..i], ctx)) && result.value.Done?
    {
      var input := if result.Some? then result.value.node else source;
      var c := if result.Some? then result.value.ctx else ctx;
      var traversal := new Traversal(input);
      var step := traversal.Traverse(kinds, replacements[i], c);
      RunStagesSnoc(kinds, source, replacements[..i], replacements[i], ctx);
      assert replacements[..i] + [replacements[i]] == replacements[..i + 1];
      if step.Threw? {
        RunStagesAppend(kinds, source, replacements[..i + 1], replacements[i + 1..], ctx);
        assert replacements[..i + 1] + replacements[i + 1..] == replacements;
        return Some(Threw);
      }
      result := Some(step);
      i := i + 1;
    }
    assert replacements[..i] == replacements;
  }

  /** Running `s1 + s2` is running `s1`, then `s2` on its output; an exception in `s1` ends the run. */
  lemma {:induction false} RunStagesAppend<A, C>(kinds: KindTable, input: Node<A>,
                                                 s1: seq<Transformer<A, C>>, s2: seq<Transformer<A, C>>, ctx: C)
    ensures RunStages(kinds, input, s1 + s2, ctx) ==
            match RunStages(kinds, input, s1, ctx)
            case Threw => Threw
            case Done(c, n) => RunStages(kinds, n, s2, c)
    decreases |s1|
  {
    if |s1| > 0 {
      assert (s1 + s2)[0] == s1[0];
      assert (s1 + s2)[1..] == s1[1..] + s2;
      match Rewrite(kinds, input, s1[0], ctx)
      case Threw =>
      case Done(c, n) => RunStagesAppend(kinds, n, s1[1..], s2, c);
    } else {
      assert s1 + s2 == s2;
    }
  }

  /** Adding one stage at the end feeds it the output of the stages before it. */
  lemma RunStagesSnoc<A, C>(kinds: KindTable, input: Node<A>, s: seq<Transformer<A, C>>, last: Transformer<A, C>, ctx: C)
    ensures RunStages(kinds, input, s + [last], ctx) ==
            match RunStages(kinds, input, s, ctx)
            case Threw => Threw
            case Done(c, n) => Rewrite(kinds, n, last, c)
  {
    RunStagesAppend(kinds, input, s, [last], ctx);
    match RunStages(kinds, input, s, ctx)
    case Threw =>
    case Done(c, n) =>
      assert [last][1..] == [];
  }
}
