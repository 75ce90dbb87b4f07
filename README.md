# Rule-table rewriting of TypeScript syntax trees, in Dafny

The repository rewrites TypeScript syntax trees with *rule tables*: nested objects whose keys are
syntax-kind names (`ClassDeclaration`, `Constructor`, ...) and whose values are rules that may carry
`visit`, `leave` and `filter` callbacks. `Traversal` (visitor.ts) walks a tree. At each node it scans
the table's keys in order and applies the first rule whose kind matches and whose filter accepts the
node. If nothing matches, it rebuilds the node from its children, each processed with the same table.
A matched rule runs `visit` on the node and descends into the children with the matched rule as the
new table. It then runs `leave` on the descended node, and an identity test picks the result.
`transformFile` chains several tables, each stage reading the first output of the previous one. The
rule set in service_mocks.ts collects the interfaces and `@Injectable(...)` classes of a source file.
On leaving the file it returns a bundle: the file with generated `I<Class>` interfaces appended,
then one `<Class>Mock` file per class that still needs an interface.

The project has these modules:

- `Util` (util.dfy): the `Option` type.
- `Visitor` (visitor.dfy): the rewriter.
  - Trees are `Node` values.
  - A callback answers `Same` (it returned the very node it got), `New(node)` or `Throw`.
  - A context value is threaded through the callbacks in execution order: visit, the children
    left to right, then leave. A filter reads it and does not change it. It stands for the state
    the callbacks share.
  - The recursive functions `Rewrite`, `ApplyRule`, `MapChildren`, `MapFrom` and `Pipeline` are
    the specification.
  - The class `Traversal` (methods `TraverseChild`, `DoTraverse`, `VisitEachChild`, `Traverse`) and
    the method `TransformFile` are the key-scan loop, the step-by-step update of `result`, the
    child loop and the stage loop. Each is proved equal to its specification function.
- `VisitorLaws` (visitor_laws.dfy): the dispatch and composition laws of the rewriter.
- `JsString` (js_string.dfy): the string operations the mock generator uses (`endsWith`,
  `indexOf`, `replace` of the first occurrence, lower-casing the first character, `substring(1)`,
  `join`).
- `ServiceMocks` (service_mocks.dfy): the mock generator on records of classes, interfaces, members
  and files.
- `ServiceMocksRules` (service_mocks_rules.dfy): the service_mocks.ts rule table run on the
  rewriter, its end-to-end behaviour on a source file, and the shared context as a mutable record.
- `ReplaceScope` (replace_scope.dfy): the nested ClassDeclaration → Constructor → Parameter table
  of replace_scope.ts, proved to leave every tree unchanged.

The kind-name lookup (syntax_kind.ts) is a parameter `kinds: string -> Option<int>`. It need not be
injective, because marker names alias real kinds. The proofs about the service_mocks.ts rule set
require only that the three names it uses have their syntax_kind.ts numbers.

## Model

| member | source | states |
|---|---|---|
| Visitor.Traversal.constructor | visitor.ts:51-52 | the traversal holds the tree it was created for |
| Visitor.Traversal.Traverse | visitor.ts:54-60 | the root entry rewrites the held tree with the given table |
| Visitor.Traversal.TraverseChild | visitor.ts:62-77 | the key scan returns the first matching key's rule applied to the node, skipping reserved and private keys; with no match it rebuilds the node from its children processed with the same table |
| Visitor.Traversal.DoTraverse | visitor.ts:79-96 | visit on the original node, descent with the matched rule, leave on the descended node, and the identity test at the end |
| Visitor.Traversal.VisitEachChild | visitor.ts:88 | every child is processed left to right with the context threaded through; an exception in any child aborts the node |
| Visitor.TransformFile | visitor.ts:109-112 | the stage loop applies the replacements in list order, each stage taking the previous stage's output; with no replacements there is no result |
| Visitor.RunStagesAppend | visitor.ts:109-112 | running stages `s1 + s2` is running `s1` and then `s2` on its output and context |
| Visitor.RunStagesSnoc | visitor.ts:109-112 | one more stage rewrites the output of the stages before it, and an earlier exception propagates |
| Visitor.IsReserved | visitor.ts:64-66 | the keys `visit`, `leave`, `filter` and those starting with `_`; `DispatchPrune` and `PruneRewrite` state that they never act as kind names |
| Visitor.Dispatch | visitor.ts:63-74 | the key scan; `DispatchIsFirstMatch` states that it finds the rule at the first matching key, or nothing iff no key matches |
| Visitor.RunStages | visitor.ts:109-112 | the stage chain; `RunStagesAppend` and `StagesFeedForward` state that each stage reads the previous stage's output |
| VisitorLaws.DispatchIsFirstMatch | visitor.ts:63-74 | the key scan finds nothing iff no key matches; when it finds a rule, that rule is the one at the first matching key |
| VisitorLaws.FirstMatchingKeyWins | visitor.ts:68-73 | at the first key whose kind equals the node's kind and whose filter accepts, that rule is applied, whatever later keys say |
| VisitorLaws.NoMatchDescendsWithSameTable | visitor.ts:70-76 | with no matching key, or only keys whose filter rejects, the children are processed with the same table |
| VisitorLaws.DispatchPrune | visitor.ts:63-66 | removing the reserved keys, the `_` keys, the unknown kind names and the always-rejecting rules does not change which rule the scan finds |
| VisitorLaws.PruneRewrite | visitor.ts:63-77 | a table and the table with those keys removed rewrite every tree identically, so they never act as kind names at any depth and never cause an error |
| VisitorLaws.PruneApplyRule | visitor.ts:79-96 | the same for a matched rule and its pruned form |
| VisitorLaws.PruneMapFrom | visitor.ts:76 | the same for the children of a node |
| VisitorLaws.AvoidedTreeIsUntouched | visitor.ts:62-77 | a tree with no node of a kind the table names comes back unchanged, and the context is untouched |
| VisitorLaws.AvoidedChildrenAreUntouched | visitor.ts:76 | children containing no such node come back unchanged |
| VisitorLaws.NothingSelectedAvoidsAll | visitor.ts:63-66 | a table with no non-reserved known key selects no node of any tree |
| VisitorLaws.EmptyTableIsIdentity | visitor.ts:63-76 | with an empty rule table the traversal returns the input tree unchanged |
| VisitorLaws.BareVisitorIsNeverCalled | visitor.ts:79-96 | a plain function given as a rule has no keys and no `visit`/`leave`, so the subtree it matches is returned as it was |
| VisitorLaws.RuleWithoutCallbacksDescends | visitor.ts:83-95 | a matched rule without callbacks yields its node with the children processed by the rule itself |
| VisitorLaws.VisitOnlyDiscardsDescent | visitor.ts:83-95 | a visit-only rule that returns a new node yields that node; the descent still runs (its context effects and exceptions count) but its tree is discarded |
| VisitorLaws.LeaveSeesDescendedAndIsFinal | visitor.ts:88-95 | `leave` receives the descended node, and a new node it returns is the result even when `visit` ran |
| VisitorLaws.UnchangedYieldsDescended | visitor.ts:95 | when neither callback replaced the node, the result is the descended tree |
| VisitorLaws.VisitExceptionAborts | visitor.ts:83-86 | an exception in `visit` aborts the rule before any descent |
| VisitorLaws.EmptyPipelineHasNoResult | visitor.ts:109-126 | with an empty replacement list `result` stays undefined, so the later read of `result.transformed` fails |
| VisitorLaws.StagesFeedForward | visitor.ts:110-111 | stage k+1 rewrites the output and context of the first k stages, and an exception stops the chain |
| JsString.IndexFrom | service_mocks.ts:143 | the result is the first position at or after `i` where the pattern occurs, or none occurs there |
| JsString.IndexOf | service_mocks.ts:143 | the first occurrence of the pattern, and `None` exactly when there is none |
| JsString.ReplaceFirst | service_mocks.ts:143 | without an occurrence the string is unchanged |
| JsString.ReplaceFirstAt | service_mocks.ts:143 | at the first occurrence, the pattern is replaced and the rest of the string is kept |
| JsString.LowerFirst | service_mocks.ts:142 | same length; the first character is lower-cased and the rest kept |
| JsString.DropFirst | service_mocks.ts:99 | the first character followed by the result is the input; the empty string maps to itself |
| JsString.Join | service_mocks.ts:131-133 | no parts give the empty string, one part gives itself |
| ServiceMocks.IsInjectable | service_mocks.ts:47-52 | a class is accepted iff it has decorators and one of them is a call `Injectable(...)` whose callee is the identifier `Injectable`, whatever its arguments |
| ServiceMocks.InjectableFilterCases | service_mocks.ts:47-52 | no decorators, a bare `@Injectable`, another decorator or a call of a call are rejected; `@Injectable()` anywhere in the list is accepted |
| ServiceMocks.Pending | service_mocks.ts:62-66 | a class is pending iff it was collected and no collected interface name ends with its name |
| ServiceMocks.PendingAppend | service_mocks.ts:62-66 | the pending classes keep collection order |
| ServiceMocks.PendingSingle | service_mocks.ts:62-66 | one class is pending exactly when no interface name ends with its name |
| ServiceMocks.OfKind | service_mocks.ts:77 | member filtering keeps exactly the members of the given kind; order and multiplicity are stated by `OfKindAppend` and `OfKindSingle` |
| ServiceMocks.OfKindAppend | service_mocks.ts:77 | filtering distributes over concatenation, so the kept members stay in member order and keep their multiplicity |
| ServiceMocks.OfKindSingle | service_mocks.ts:107 | a single member is kept iff it has the kind |
| ServiceMocks.OfKindKeepsAll | service_mocks.ts:106-107 | filtering members that all have the kind keeps them all, in order |
| ServiceMocks.InterfaceFor | service_mocks.ts:70-91 | the interface of a class is named `I` + class name, and it exists iff every method declaration has a return type (otherwise reading the type throws) |
| ServiceMocks.InterfacesFor | service_mocks.ts:68-93 | pending classes map one to one and in order to their interfaces, and the whole map throws iff one of them does |
| ServiceMocks.InterfaceListsMethods | service_mocks.ts:76-91 | the interface has one method signature per method declaration, in member order, with its name, type parameters, parameters and type; other members are dropped |
| ServiceMocks.MockNamedAfterClass | service_mocks.ts:95-105 | the mock of class `C` is named `C` + `Mock` and implements `IC` |
| ServiceMocks.MockMirrorsClassMethods | service_mocks.ts:106-126 | the mock has one method per method declaration of the class, in order, same name, parameters and type, each returning `undefined` |
| ServiceMocks.MockFor | service_mocks.ts:95-128 | the mock class implements exactly the interface, has no decorators, and has one method per method signature of the interface, in order, with the signature's name and a body returning `undefined` |
| ServiceMocks.MockFileName | service_mocks.ts:142-144 | every mock file name ends with `.mock.ts` |
| ServiceMocks.NoStraddledMock | service_mocks.ts:143 | no occurrence of `Mock` starts in the last three characters before an appended `Mock` |
| ServiceMocks.AppendedMockIsFirst | service_mocks.ts:143 | in a string without `Mock` followed by `Mock`, the appended one is the first occurrence |
| ServiceMocks.LowerFirstAppend | service_mocks.ts:142 | lower-casing the first character acts on the prefix only |
| ServiceMocks.FirstMockRemoved | service_mocks.ts:142-144 | the file name of `P` + `Mock` + `R`, where the lower-cased `P` has no `Mock`, is lower-cased `P` + `R` + `.mock.ts` |
| ServiceMocks.MockFileNameOfPlainClass | service_mocks.ts:142-144 | for a class whose lower-cased name has no `Mock`, the mock file is the lower-cased class name + `.mock.ts` |
| ServiceMocks.MockFileNameDropsInnerMock | service_mocks.ts:141-144 | for class `FooMockService` it is the inner `Mock` that is removed: `fooServiceMock.mock.ts` |
| ServiceMocks.PrintedInterfaces | service_mocks.ts:131-133 | one printed text per pending class, in order: the printer's text of the interface generated for it |
| ServiceMocks.GeneratedFollowPending | service_mocks.ts:131-151 | the printed interfaces and the mock files follow the pending classes one by one: mock file i is named after pending class i and holds the printed mock of its interface |
| ServiceMocks.MakeBundle | service_mocks.ts:130-155 | the bundle is the source file with its text followed by the printed interfaces of the pending classes, in order, joined by newlines; then one mock file per pending class in order, each named by the file-name rule and holding the printed mock; it throws iff an interface cannot be generated |
| ServiceMocks.ExampleServiceNeedsNoMock | examples/example.service.ts:1-14 | for the example service, which already has `IFooService`, the bundle is the source file alone |
| ServiceMocksRules.OnSourceFile | service_mocks.ts:34-37 | `SourceFile.visit`: stated by `SharedContext.VisitSourceFile`, whose new state and result equal this function of the old state |
| ServiceMocksRules.OnInterface | service_mocks.ts:40-43 | `InterfaceDeclaration.visit`: stated by `SharedContext.VisitInterface` |
| ServiceMocksRules.ClassFilter | service_mocks.ts:47-52 | the class filter is `IsInjectable` of the class the node carries, whose contract characterises it; it ignores the context |
| ServiceMocksRules.OnClass | service_mocks.ts:55-58 | `ClassDeclaration.visit`: stated by `SharedContext.VisitClass` |
| ServiceMocksRules.BundleNode | service_mocks.ts:153-155 | the bundle node has kind Bundle and one source-file child per file, in order, each carrying that file |
| ServiceMocksRules.OnLeave | service_mocks.ts:61-156 | `SourceFile.leave` keeps the context and never returns its argument; it throws iff a pending class has an untyped method, and otherwise returns a bundle of 1 + pending files whose first file has the source file's name |
| ServiceMocksRules.SourceFileRule | service_mocks.ts:33-157 | the `SourceFile` rule with its keys in declaration order; what it does to a tree is stated by `CollectRewrite` and `SourceFileRuleApplied` |
| ServiceMocksRules.Replacements | service_mocks.ts:32-158 | the exported single-table list; what one run with it yields is stated by `ServiceMocksRun` |
| ServiceMocksRules.Scan | service_mocks.ts:39-59 | what one run collects in document order; `CollectRewrite` proves the rewriter collects exactly this |
| ServiceMocksRules.InnerRuleLeavesChildren | service_mocks.ts:39-59 | below a matched interface or class the nested rule matches nothing, so its children come back unchanged |
| ServiceMocksRules.CollectRewrite | service_mocks.ts:32-59 | below the source file every node comes back unchanged, and the interfaces and injectable classes found are appended in document order, without looking inside a matched declaration |
| ServiceMocksRules.CollectMapFrom | service_mocks.ts:32-59 | the same for the children of a node, left to right |
| ServiceMocksRules.SourceFileRuleApplied | service_mocks.ts:33-156 | the source-file rule records the file, collects below it, then leaves with the bundle built from the whole collected context |
| ServiceMocksRules.ServiceMocksRun | service_mocks.ts:30-158 | one run on a source file yields the bundle of the context after collection, or the exception from generating an interface; the context is not reset, so what an earlier run collected is bundled again |
| ServiceMocksRules.ServiceMocksRunFiles | service_mocks.ts:61-156 | a run throws iff a pending class has an untyped method; otherwise it yields a bundle node of 1 + pending files, the first named as the source file and the rest named after the pending classes in order |
| ServiceMocksRules.SharedContext.constructor | service_mocks.ts:30 | the shared context starts with no classes, no interfaces and no source file |
| ServiceMocksRules.SharedContext.VisitSourceFile | service_mocks.ts:34-37 | `SourceFile.visit` records the file, changes nothing else and returns its node |
| ServiceMocksRules.SharedContext.VisitInterface | service_mocks.ts:40-43 | `InterfaceDeclaration.visit` appends the interface, changes nothing else and returns its node |
| ServiceMocksRules.SharedContext.VisitClass | service_mocks.ts:55-58 | `ClassDeclaration.visit` appends the class, changes nothing else and returns its node |
| ReplaceScope.ScopeTable | replace_scope.ts:4-17 | the nested ClassDeclaration, Constructor, Parameter table; `ScopeTableIsIdentity` states that it changes no tree |
| ReplaceScope.ParameterRuleIsInert | replace_scope.ts:7-13 | the `Parameter` rule, whose visit only logs, returns every node unchanged |
| ReplaceScope.InertChildren | replace_scope.ts:4-17 | a table that leaves every tree unchanged leaves every child list unchanged |
| ReplaceScope.PathRuleApplyIsInert | replace_scope.ts:5-6 | a callback-free path rule applied to a matched node changes nothing when its table changes nothing |
| ReplaceScope.PathRuleIsInert | replace_scope.ts:5-6 | a one-key table whose rule changes nothing changes no tree |
| ReplaceScope.PathChildrenAreInert | replace_scope.ts:5-6 | the same for the children of a node |
| ReplaceScope.PathLevelIsInert | replace_scope.ts:5-7 | each level of the nested path keeps every tree and the context unchanged |
| ReplaceScope.ScopeTableIsIdentity | replace_scope.ts:4-17 | for any kind table, transforming with the replace_scope.ts table yields the input tree |

## Left out

- Reading and writing files, parsing with `createSourceFile`, the printer and all logging
  (visitor.ts:41-47, 100-107, 114-143). Parsed trees are inputs, and the printer is a parameter that
  maps a generated interface or class to text.
- The TypeScript `transform`, `TransformationContext` and `visitNode` plumbing (visitor.ts:55-59).
  `Traverse` applies the table to the root. `visitEachChild` rebuilds a node from its processed
  children, so a node whose children are unchanged comes back equal to itself.
- Results that are arrays of nodes (`Node[]`) from a callback are not modelled: every callback yields
  one node, the node it got, or an exception.
- Exceptions thrown by a `filter` are not modelled: filters are total predicates.
- Three smaller behaviours are not modelled. A callback returning `undefined` would make
  `visitEachChild` drop the node. Updates to the module-level context made before an exception
  survive it, while `Threw` carries no context. `substring` and `toLowerCase` work on UTF-16 code
  units, while a Dafny `char` is a Unicode scalar value.
- Object identity beyond the `result === rootNode` test: `Same` stands for "returned the node it was
  given". A new but structurally equal node is `New`.
- syntax_kind.ts is not part of this model: it is a constant name-to-number table, given as the
  parameter `kinds`.
- sample.ts is not part of this model: it is a script that reads a file and prints.
- The generated source files' syntax trees: a generated file is its name and text, and its node in
  the bundle has no children.
- Anonymous classes (`clazz.name` undefined at service_mocks.ts:64) and other decorator expression
  shapes beyond identifiers and calls.
- JsString.LowerFirst: lower-cases only the ASCII letters A-Z, not the full Unicode case mapping of
  `toLowerCase`.
- JsString.ReplaceFirst: its contract covers only the case without an occurrence. The replacing case
  is `ReplaceFirstAt`.
- JsString.Join: its contract covers zero and one parts only. Longer lists are used only as printed
  text appended to the source file.
