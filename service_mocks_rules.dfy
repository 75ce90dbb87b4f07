/**
 * The rule set of service_mocks.ts run on the rewriter of visitor.ts: the `SourceFile` rule
 * records the file, collects interface declarations and `@Injectable` classes below it into
 * the shared context, and on leaving replaces the file by the bundle of generated files.
 */
module ServiceMocksRules {
  import opened Util
  import opened Visitor
  import opened VisitorLaws
  import opened ServiceMocks

  /** Kind numbers of the lookup table (syntax_kind.ts). */
  const ClassDeclarationKind: int := 229
  const InterfaceDeclarationKind: int := 230
  const SourceFileKind: int := 265
  const BundleKind: int := 266

  /** The attributes of a node, as far as the rule set reads them. */
  datatype Decl =
    | SourceFileDecl(file: FileRec)
    | InterfaceDecl(iface: InterfaceRec)
    | ClassDecl(clazz: ClassRec)
    | BundleDecl
    | OtherDecl

  /** The shared context record: collected classes and interfaces, and the visited source file. */
  datatype MocksContext = MocksContext(classes: seq<ClassRec>, interfaces: seq<InterfaceRec>, sourceFile: Option<FileRec>)

  /** The kind table agrees with syntax_kind.ts on the three names the rule set uses. */
  predicate StandardKinds(kinds: KindTable) {
    && kinds("SourceFile") == Some(SourceFileKind)
    && kinds("InterfaceDeclaration") == Some(InterfaceDeclarationKind)
    && kinds("ClassDeclaration") == Some(ClassDeclarationKind)
  }

  /** The source file a node carries (empty for a node of another shape). */
  function FileOf(n: Node<Decl>): FileRec {
    if n.attrs.SourceFileDecl? then n.attrs.file else FileRec("", "")
  }

  /** The interface a node carries (unnamed and empty for a node of another shape). */
  function InterfaceOf(n: Node<Decl>): InterfaceRec {
    if n.attrs.InterfaceDecl? then n.attrs.iface else InterfaceRec("", [])
  }

  /** The class a node carries (unnamed and empty for a node of another shape). */
  function ClassOf(n: Node<Decl>): ClassRec {
    if n.attrs.ClassDecl? then n.attrs.clazz else ClassRec("", None, [], [])
  }

  /** `SourceFile.visit`: remember the file, return the node. */
  function OnSourceFile(ctx: MocksContext, n: Node<Decl>): (MocksContext, Outcome<Decl>) {
    (ctx.(sourceFile := Some(FileOf(n))), Same)
  }

  /** `InterfaceDeclaration.visit`: record the interface, return the node. */
  function OnInterface(ctx: MocksContext, n: Node<Decl>): (MocksContext, Outcome<Decl>) {
    (ctx.(interfaces := ctx.interfaces + [InterfaceOf(n)]), Same)
  }

  /** `ClassDeclaration.filter`: only `@Injectable(...)` classes. */
  predicate ClassFilter(ctx: MocksContext, n: Node<Decl>) {
    IsInjectable(ClassOf(n))
  }

  /** `ClassDeclaration.visit`: record the class, return the node. */
  function OnClass(ctx: MocksContext, n: Node<Decl>): (MocksContext, Outcome<Decl>) {
    (ctx.(classes := ctx.classes + [ClassOf(n)]), Same)
  }

  /** A bundle node over generated source files (their statements are not modelled). */
  function BundleNode(files: seq<FileRec>): (r: Node<Decl>)
    ensures r.kind == BundleKind && |r.children| == |files|
    ensures forall i :: 0 <= i < |files| ==> r.children[i].kind == SourceFileKind && FileOf(r.children[i]) == files[i]
  {
    Node(BundleKind, BundleDecl, seq(|files|, i requires 0 <= i < |files| => Node(SourceFileKind, SourceFileDecl(files[i]), [])))
  }

  /** `SourceFile.leave`: the bundle of the source file and the mock files, or an exception. */
  function OnLeave(printer: Printer, ctx: MocksContext, n: Node<Decl>): (r: (MocksContext, Outcome<Decl>))
    ensures r.0 == ctx && !r.1.Same?
    ensures r.1.Throw? <==> !AllMethodsTyped(Pending(ctx.classes, ctx.interfaces))
    ensures r.1.New? ==>
              && r.1.node.kind == BundleKind
              && |r.1.node.children| == 1 + |Pending(ctx.classes, ctx.interfaces)|
              && FileOf(r.1.node.children[0]).fileName == FileOf(n).fileName
  {
    match MakeBundle(printer, FileOf(n), ctx.classes, ctx.interfaces)
    case None => (ctx, Throw)
    case Some(files) => (ctx, New(BundleNode(files)))
  }

  /** A function-valued own property (`visit`, `leave`, `filter`) seen as a table entry. */
  const Callback: Transformer<Decl, MocksContext> := BareVisitor(n => n)

  /** The `InterfaceDeclaration` rule. */
  const InterfaceRule: Transformer<Decl, MocksContext> := Table([("visit", Callback)], None, Some(OnInterface), None)

  /** The `ClassDeclaration` rule. */
  const ClassRule: Transformer<Decl, MocksContext> :=
    Table([("filter", Callback), ("visit", Callback)], Some(ClassFilter), Some(OnClass), None)

  /** The `SourceFile` rule, its keys in declaration order. */
  function SourceFileRule(printer: Printer): Transformer<Decl, MocksContext> {
    Table([("visit", Callback), ("InterfaceDeclaration", InterfaceRule), ("ClassDeclaration", ClassRule), ("leave", Callback)],
          None, Some(OnSourceFile), Some((c, n) => OnLeave(printer, c, n)))
  }

  /** The exported list of replacements: one table with the single key `SourceFile`. */
  function Replacements(printer: Printer): seq<Transformer<Decl, MocksContext>> {
    [Table([("SourceFile", SourceFileRule(printer))], None, None, None)]
  }

  // ---------------------------------------------------------------------------------------
  // What one run collects

  /**
   * The interfaces and injectable classes the `SourceFile` rule finds at `n`, in document order:
   * a matched declaration is taken whole (nothing below it is searched), any other node is searched.
   */
  function Scan(n: Node<Decl>): (seq<InterfaceRec>, seq<ClassRec>)
    decreases n, 1
  {
    if n.kind == InterfaceDeclarationKind then ([InterfaceOf(n)], [])
    else if n.kind == ClassDeclarationKind && IsInjectable(ClassOf(n)) then ([], [ClassOf(n)])
    else ScanFrom(n, 0)
  }

  /** What `Scan` finds in the children of `parent` from index `i` on. */
  function ScanFrom(parent: Node<Decl>, i: nat): (seq<InterfaceRec>, seq<ClassRec>)
    requires i <= |parent.children|
    decreases parent, 0, |parent.children| - i
  {
    if i == |parent.children| then ([], [])
    else
      var (ifs, cls) := Scan(parent.children[i]);
      var (moreIfs, moreCls) := ScanFrom(parent, i + 1);
      (ifs + moreIfs, cls + moreCls)
  }

  /** The context with found interfaces and classes appended. */
  function Collect(ctx: MocksContext, found: (seq<InterfaceRec>, seq<ClassRec>)): MocksContext {
    ctx.(interfaces := ctx.interfaces + found.0, classes := ctx.classes + found.1)
  }

  /** Collecting twice is collecting the concatenation. */
  lemma CollectTwice(ctx: MocksContext, a: (seq<InterfaceRec>, seq<ClassRec>), b: (seq<InterfaceRec>, seq<ClassRec>))
    ensures Collect(Collect(ctx, a), b) == Collect(ctx, (a.0 + b.0, a.1 + b.1))
  {
    assert ctx.interfaces + a.0 + b.0 == ctx.interfaces + (a.0 + b.0);
    assert ctx.classes + a.1 + b.1 == ctx.classes + (a.1 + b.1);
  }

  /** Below a matched interface or class the rule's own table has no kind keys: nothing changes. */
  lemma InnerRuleLeavesChildren(kinds: KindTable, n: Node<Decl>, rule: Transformer<Decl, MocksContext>, ctx: MocksContext)
    requires rule == InterfaceRule || rule == ClassRule
    ensures MapChildren(kinds, n, rule, ctx) == Done(ctx, n)
  {
    assert forall kind :: !Selects(kinds, rule, kind);
    forall k | k in n.children
      ensures Avoids(kinds, rule, k)
    {
      NothingSelectedAvoidsAll(kinds, rule, k);
    }
    AvoidedChildrenAreUntouched(kinds, n, 0, rule, ctx);
    assert n.children[0..] == n.children;
  }

  /** The `SourceFile` rule as a table returns every node as it was and collects what `Scan` finds. */
  lemma {:induction false} CollectRewrite(kinds: KindTable, printer: Printer, n: Node<Decl>, ctx: MocksContext)
    requires StandardKinds(kinds)
    ensures Rewrite(kinds, n, SourceFileRule(printer), ctx) == Done(Collect(ctx, Scan(n)), n)
    decreases n, 1
  {
    var t := SourceFileRule(printer);
    var entries := Keys(t);
    assert entries[0].0 == "visit" && entries[3].0 == "leave";
    assert !Matches(kinds, entries[0].0, entries[0].1, ctx, n);
    assert !Matches(kinds, entries[3].0, entries[3].1, ctx, n);
    if n.kind == InterfaceDeclarationKind {
      assert IsFirstMatch(kinds, entries, ctx, n, 1);
      FirstMatchingKeyWins(kinds, n, t, ctx, 1);
      InnerRuleLeavesChildren(kinds, n, InterfaceRule, OnInterface(ctx, n).0);
      assert ctx.classes + [] == ctx.classes;
    } else if n.kind == ClassDeclarationKind && IsInjectable(ClassOf(n)) {
      assert !Matches(kinds, entries[1].0, entries[1].1, ctx, n);
      assert IsFirstMatch(kinds, entries, ctx, n, 2);
      FirstMatchingKeyWins(kinds, n, t, ctx, 2);
      InnerRuleLeavesChildren(kinds, n, ClassRule, OnClass(ctx, n).0);
      assert ctx.interfaces + [] == ctx.interfaces;
    } else {
      assert !Matches(kinds, entries[1].0, entries[1].1, ctx, n);
      assert !Matches(kinds, entries[2].0, entries[2].1, ctx, n);
      NoMatchDescendsWithSameTable(kinds, n, t, ctx);
      CollectMapFrom(kinds, printer, n, 0, ctx);
      assert n.children[0..] == n.children;
    }
  }

  /** The children from index `i` on come back as they were, and their findings are appended in order. */
  lemma {:induction false} CollectMapFrom(kinds: KindTable, printer: Printer, parent: Node<Decl>, i: nat, ctx: MocksContext)
    requires StandardKinds(kinds) && i <= |parent.children|
    ensures MapFrom(kinds, parent, i, SourceFileRule(printer), ctx) ==
            Some((Collect(ctx, ScanFrom(parent, i)), parent.children[i..]))
    decreases parent, 0, |parent.children| - i
  {
    if i == |parent.children| {
      assert Collect(ctx, ([], [])) == ctx;
    } else {
      var kid := parent.children[i];
      CollectRewrite(kinds, printer, kid, ctx);
      var c1 := Collect(ctx, Scan(kid));
      CollectMapFrom(kinds, printer, parent, i + 1, c1);
      CollectTwice(ctx, Scan(kid), ScanFrom(parent, i + 1));
      assert [kid] + parent.children[i + 1..] == parent.children[i..];
    }
  }

  /** The context after one run over `root`: the file recorded, then what `Scan` finds below it appended. */
  function RunContext(root: Node<Decl>, ctx0: MocksContext): MocksContext {
    Collect(ctx0.(sourceFile := Some(FileOf(root))), ScanFrom(root, 0))
  }

  /** What leaving the source file with context `ctx` yields: the bundle, or an exception. */
  function LeaveStep(printer: Printer, root: Node<Decl>, ctx: MocksContext): Step<Decl, MocksContext> {
    match MakeBundle(printer, FileOf(root), ctx.classes, ctx.interfaces)
    case None => Threw
    case Some(files) => Done(ctx, BundleNode(files))
  }

  /** The `SourceFile` rule applied to a source file: visit, collect below, then leave. */
  lemma SourceFileRuleApplied(kinds: KindTable, printer: Printer, root: Node<Decl>, ctx0: MocksContext)
    requires StandardKinds(kinds)
    ensures ApplyRule(kinds, root, SourceFileRule(printer), ctx0) == LeaveStep(printer, root, RunContext(root, ctx0))
  {
    var rule := SourceFileRule(printer);
    var c1 := OnSourceFile(ctx0, root).0;
    CollectMapFrom(kinds, printer, root, 0, c1);
    assert root.children[0..] == root.children;
    var c2 := RunContext(root, ctx0);
    assert MapChildren(kinds, root, rule, c1) == Done(c2, root);
    assert rule.leave.value(c2, root) == OnLeave(printer, c2, root);
  }

  /**
   * One run of the rule set on a source file: the file is recorded, the interfaces and
   * injectable classes found below it are appended to the context in document order, and the
   * result is the bundle built from the whole context (or an exception from building it).
   * The context is not reset: whatever it held before the run is part of what is bundled.
   */
  lemma ServiceMocksRun(kinds: KindTable, printer: Printer, root: Node<Decl>, ctx0: MocksContext)
    requires StandardKinds(kinds) && root.kind == SourceFileKind
    ensures Pipeline(kinds, root, Replacements(printer), ctx0) == Some(LeaveStep(printer, root, RunContext(root, ctx0)))
  {
    var stages := Replacements(printer);
    var top := stages[0];
    assert IsFirstMatch(kinds, Keys(top), ctx0, root, 0);
    FirstMatchingKeyWins(kinds, root, top, ctx0, 0);
    SourceFileRuleApplied(kinds, printer, root, ctx0);
    var step := LeaveStep(printer, root, RunContext(root, ctx0));
    assert Rewrite(kinds, root, top, ctx0) == step;
    assert stages[1..] == [];
    assert step.Done? ==> RunStages(kinds, step.node, stages[1..], step.ctx) == step;
  }

  /** The mock files of a run follow the pending classes of the collected context, in order. */
  lemma ServiceMocksRunFiles(kinds: KindTable, printer: Printer, root: Node<Decl>, ctx0: MocksContext)
    requires StandardKinds(kinds) && root.kind == SourceFileKind
    ensures var ctx := RunContext(root, ctx0);
            var pending := Pending(ctx.classes, ctx.interfaces);
            var out := Pipeline(kinds, root, Replacements(printer), ctx0);
            && (out == Some(Threw) <==> !AllMethodsTyped(pending))
            && (out.value.Done? ==>
                  && out.value.node.kind == BundleKind
                  && |out.value.node.children| == 1 + |pending|
                  && FileOf(out.value.node.children[0]).fileName == FileOf(root).fileName
                  && forall i :: 0 <= i < |pending| ==>
                       FileOf(out.value.node.children[1 + i]).fileName == MockFileName(pending[i].name + "Mock"))
  {
    ServiceMocksRun(kinds, printer, root, ctx0);
  }

  // ---------------------------------------------------------------------------------------
  // The context as the mutable record the callbacks update

  /** The module-level context object; each callback updates it in place. */
  class SharedContext {
    var classes: seq<ClassRec>
    var interfaces: seq<InterfaceRec>
    var sourceFile: Option<FileRec>

    /** The initial record: no classes, no interfaces, no source file. */
    constructor ()
      ensures classes == [] && interfaces == [] && sourceFile.None?
    {
      classes, interfaces, sourceFile := [], [], None;
    }

    /** The record's current value. */
    function Value(): MocksContext
      reads this
    {
      MocksContext(classes, interfaces, sourceFile)
    }

    /** `SourceFile.visit`. */
    method VisitSourceFile(n: Node<Decl>) returns (r: Outcome<Decl>)
      modifies this
      ensures r.Same?
      ensures sourceFile == Some(FileOf(n)) && classes == old(classes) && interfaces == old(interfaces)
      ensures (Value(), r) == OnSourceFile(old(Value()), n)
    {
      sourceFile := Some(FileOf(n));
      r := Same;
    }

    /** `InterfaceDeclaration.visit`. */
    method VisitInterface(n: Node<Decl>) returns (r: Outcome<Decl>)
      modifies this
      ensures r.Same?
      ensures interfaces == old(interfaces) + [InterfaceOf(n)] && classes == old(classes) && sourceFile == old(sourceFile)
      ensures (Value(), r) == OnInterface(old(Value()), n)
    {
      interfaces := interfaces + [InterfaceOf(n)];
      r := Same;
    }

    /** `ClassDeclaration.visit`. */
    method VisitClass(n: Node<Decl>) returns (r: Outcome<Decl>)
      modifies this
      ensures r.Same?
      ensures classes == old(classes) + [ClassOf(n)] && interfaces == old(interfaces) && sourceFile == old(sourceFile)
      ensures (Value(), r) == OnClass(old(Value()), n)
    {
      classes := classes + [ClassOf(n)];
      r := Same;
    }
  }
}
