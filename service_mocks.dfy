/**
 * The mock generator of service_mocks.ts, on simple records: which collected classes still
 * need an interface, the interface and mock class derived from such a class, the mock file
 * name, and the bundle of output files.
 */
module ServiceMocks {
  import opened Util
  import opened JsString

  /** A decorator's expression: an identifier, a call of some callee, or anything else. */
  datatype Expr = Identifier(text: string) | Call(callee: Expr) | OtherExpr

  /** The member kinds the generator tells apart; every other member kind is `OtherMember`. */
  datatype MemberKind = MethodDeclaration | MethodSignature | OtherMember

  /** A statement of a generated method body. */
  datatype Stmt = Return(value: Expr)

  /**
   * A class or interface member: its kind, name, type parameters, parameters and return type
   * annotation (each as source text), and its body (`None` for a signature).
   */
  datatype Member = Member(kind: MemberKind, name: string, typeParameters: seq<string>,
                           parameters: seq<string>, returnType: Option<string>, body: Option<seq<Stmt>>)

  /** A class declaration: name, decorator expressions (`None` when it has none), implemented names, members. */
  datatype ClassRec = ClassRec(name: string, decorators: Option<seq<Expr>>, implements: seq<string>, members: seq<Member>)

  /** An interface declaration. */
  datatype InterfaceRec = InterfaceRec(name: string, members: seq<Member>)

  /** A source file: its name and text. */
  datatype FileRec = FileRec(fileName: string, text: string)

  /** The printer: the text it emits for a generated interface and for a generated class. */
  datatype Printer = Printer(iface: InterfaceRec -> string, clazz: ClassRec -> string)

  /** The decorator `@Injectable(...)`: a call whose callee is the identifier `Injectable`. */
  predicate IsInjectableDecorator(d: Expr) {
    d.Call? && d.callee.Identifier? && d.callee.text == "Injectable"
  }

  /** The class filter: the class has decorators and one of them is `@Injectable(...)`. */
  predicate IsInjectable(c: ClassRec)
    ensures IsInjectable(c) <==> c.decorators.Some? && Call(Identifier("Injectable")) in c.decorators.value
  {
    c.decorators.Some? && exists i :: 0 <= i < |c.decorators.value| && IsInjectableDecorator(c.decorators.value[i])
  }

  /** Some collected interface's name ends with the class's name. */
  predicate HasInterface(c: ClassRec, interfaces: seq<InterfaceRec>) {
    exists i :: 0 <= i < |interfaces| && EndsWith(interfaces[i].name, c.name)
  }

  /** The collected classes that still need an interface, in collection order. */
  function Pending(classes: seq<ClassRec>, interfaces: seq<InterfaceRec>): (r: seq<ClassRec>)
    ensures |r| <= |classes|
    ensures forall c :: c in r <==> c in classes && !HasInterface(c, interfaces)
    decreases |classes|
  {
    if |classes| == 0 then []
    else (if HasInterface(classes[0], interfaces) then [] else [classes[0]]) + Pending(classes[1..], interfaces)
  }

  /** The members of kind `k`, in member order. */
  function OfKind(members: seq<Member>, k: MemberKind): (r: seq<Member>)
    ensures |r| <= |members|
    ensures forall m :: m in r <==> m in members && m.kind == k
    decreases |members|
  {
    if |members| == 0 then []
    else (if members[0].kind == k then [members[0]] else []) + OfKind(members[1..], k)
  }

  /** Every method declaration among the members has a return type annotation. */
  predicate MethodsTyped(members: seq<Member>) {
    forall i :: 0 <= i < |members| && members[i].kind == MethodDeclaration ==> members[i].returnType.Some?
  }

  /** Every method declaration of every class has a return type annotation. */
  predicate AllMethodsTyped(classes: seq<ClassRec>) {
    forall i :: 0 <= i < |classes| ==> MethodsTyped(classes[i].members)
  }

  /** The interface method signature copied from a class method. */
  function SignatureOf(m: Member): Member {
    Member(MethodSignature, m.name, m.typeParameters, m.parameters, m.returnType, None)
  }

  /**
   * The interface generated for a pending class: `I` + its name, one signature per method
   * declaration in member order. Reading the return type text of a method without one
   * throws, so such a class yields `None`.
   */
  function InterfaceFor(c: ClassRec): (r: Option<InterfaceRec>)
    ensures r.Some? <==> MethodsTyped(c.members)
    ensures r.Some? ==> r.value.name == "I" + c.name
  {
    if MethodsTyped(c.members) then
      var methods := OfKind(c.members, MethodDeclaration);
      Some(InterfaceRec("I" + c.name, seq(|methods|, i requires 0 <= i < |methods| => SignatureOf(methods[i]))))
    else None
  }

  /** The interfaces of all pending classes in order, or `None` if generating any of them throws. */
  function InterfacesFor(pending: seq<ClassRec>): (r: Option<seq<InterfaceRec>>)
    ensures r.Some? <==> AllMethodsTyped(pending)
    ensures r.Some? ==> |r.value| == |pending| &&
                        forall i :: 0 <= i < |pending| ==> Some(r.value[i]) == InterfaceFor(pending[i])
    decreases |pending|
  {
    if |pending| == 0 then Some([])
    else match (InterfaceFor(pending[0]), InterfacesFor(pending[1..]))
      case (Some(iface), Some(rest)) => Some([iface] + rest)
      case _ => None
  }

  /** A mock method: the signature's name, type parameters, parameters and type, returning `undefined`. */
  function MockMethod(m: Member): Member {
    Member(MethodDeclaration, m.name, m.typeParameters, m.parameters, m.returnType, Some([Return(Identifier("undefined"))]))
  }

  /** The mock class of an interface: its name without the first character plus `Mock`, implementing it. */
  function MockFor(iface: InterfaceRec): (r: ClassRec)
    ensures r.implements == [iface.name] && r.decorators.None?
    ensures |r.members| == |OfKind(iface.members, MethodSignature)|
    ensures forall i :: 0 <= i < |r.members| ==>
              && r.members[i].kind == MethodDeclaration
              && r.members[i].name == OfKind(iface.members, MethodSignature)[i].name
              && r.members[i].body == Some([Return(Identifier("undefined"))])
  {
    var sigs := OfKind(iface.members, MethodSignature);
    ClassRec(DropFirst(iface.name) + "Mock", None, [iface.name],
             seq(|sigs|, i requires 0 <= i < |sigs| => MockMethod(sigs[i])))
  }

  /** The mock file name: first character lower-cased, first `Mock` removed, then `.mock.ts`. */
  function MockFileName(mockName: string): (r: string)
    ensures EndsWith(r, ".mock.ts")
  {
    ReplaceFirst(LowerFirst(mockName), "Mock", "") + ".mock.ts"
  }

  /** The printed interface of each pending class, in order (empty text where one cannot be generated). */
  function PrintedInterfaces(printer: Printer, pending: seq<ClassRec>): (r: seq<string>)
    ensures |r| == |pending|
    ensures forall i :: 0 <= i < |pending| && MethodsTyped(pending[i].members) ==>
              r[i] == printer.iface(InterfaceFor(pending[i]).value)
  {
    seq(|pending|, i requires 0 <= i < |pending| =>
      match InterfaceFor(pending[i])
      case Some(iface) => printer.iface(iface)
      case None => "")
  }

  /** The printed text of each generated interface, in order. */
  function PrintedOf(printer: Printer, ifaces: seq<InterfaceRec>): seq<string> {
    seq(|ifaces|, i requires 0 <= i < |ifaces| => printer.iface(ifaces[i]))
  }

  /** The mock file of each generated interface, in order: its file name and the printed mock class. */
  function MockFiles(printer: Printer, ifaces: seq<InterfaceRec>): seq<FileRec> {
    seq(|ifaces|, i requires 0 <= i < |ifaces| => FileRec(MockFileName(MockFor(ifaces[i]).name), printer.clazz(MockFor(ifaces[i]))))
  }

  /** The generated texts and mock files follow the pending classes one by one. */
  lemma {:induction false} GeneratedFollowPending(printer: Printer, pending: seq<ClassRec>, ifaces: seq<InterfaceRec>)
    requires InterfacesFor(pending) == Some(ifaces)
    ensures PrintedOf(printer, ifaces) == PrintedInterfaces(printer, pending)
    ensures |MockFiles(printer, ifaces)| == |pending|
    ensures forall i :: 0 <= i < |pending| ==>
              MockFiles(printer, ifaces)[i] ==
              FileRec(MockFileName(pending[i].name + "Mock"), printer.clazz(MockFor(InterfaceFor(pending[i]).value)))
  {
    forall i | 0 <= i < |pending|
      ensures MockFor(ifaces[i]).name == pending[i].name + "Mock"
    {
      MockNamedAfterClass(pending[i]);
    }
  }

  /**
   * The files of the returned bundle: the source file with the printed interfaces appended,
   * then one mock file per pending class; `None` when generating an interface throws.
   */
  function MakeBundle(printer: Printer, file: FileRec, classes: seq<ClassRec>, interfaces: seq<InterfaceRec>)
    : (r: Option<seq<FileRec>>)
    ensures r.Some? <==> AllMethodsTyped(Pending(classes, interfaces))
    ensures var pending := Pending(classes, interfaces);
            r.Some? ==> && |r.value| == 1 + |pending|
                        && r.value[0].fileName == file.fileName
                        && (|pending| == 0 ==> r.value[0].text == file.text)
                        && file.text <= r.value[0].text
                        && r.value[0].text == file.text + Join(PrintedInterfaces(printer, pending), "\n")
                        && forall i :: 0 <= i < |pending| ==>
                             && r.value[1 + i].fileName == MockFileName(pending[i].name + "Mock")
                             && r.value[1 + i].text == printer.clazz(MockFor(InterfaceFor(pending[i]).value))
  {
    var pending := Pending(classes, interfaces);
    var generated := InterfacesFor(pending);
    if generated.None? then None
    else
      var ifaces := generated.value;
      GeneratedFollowPending(printer, pending, ifaces);
      Some([FileRec(file.fileName, file.text + Join(PrintedOf(printer, ifaces), "\n"))] + MockFiles(printer, ifaces))
  }

  // ---------------------------------------------------------------------------------------
  // Properties

  /**
   * The filter on sample decorator lists: no decorators, an empty list, a bare `@Injectable`,
   * another decorator or a call of a call are rejected; `@Injectable()` anywhere in the list is accepted.
   */
  lemma InjectableFilterCases(name: string, members: seq<Member>)
    ensures !IsInjectable(ClassRec(name, None, [], members))
    ensures !IsInjectable(ClassRec(name, Some([]), [], members))
    ensures !IsInjectable(ClassRec(name, Some([Identifier("Injectable")]), [], members))
    ensures !IsInjectable(ClassRec(name, Some([Call(Identifier("Component"))]), [], members))
    ensures !IsInjectable(ClassRec(name, Some([Call(Call(Identifier("Injectable")))]), [], members))
    ensures IsInjectable(ClassRec(name, Some([Call(Identifier("Component")), Call(Identifier("Injectable"))]), [], members))
  {
    var ds := [Call(Identifier("Component")), Call(Identifier("Injectable"))];
    assert IsInjectableDecorator(ds[1]);
  }

  /** Pending classes keep the collection order: the selection distributes over concatenation. */
  lemma {:induction false} PendingAppend(a: seq<ClassRec>, b: seq<ClassRec>, interfaces: seq<InterfaceRec>)
    ensures Pending(a + b, interfaces) == Pending(a, interfaces) + Pending(b, interfaces)
    decreases |a|
  {
    if |a| == 0 {
      assert a + b == b;
    } else {
      assert (a + b)[0] == a[0];
      assert (a + b)[1..] == a[1..] + b;
      PendingAppend(a[1..], b, interfaces);
    }
  }

  /** Member filtering keeps member order and multiplicity: it distributes over concatenation. */
  lemma {:induction false} OfKindAppend(a: seq<Member>, b: seq<Member>, k: MemberKind)
    ensures OfKind(a + b, k) == OfKind(a, k) + OfKind(b, k)
    decreases |a|
  {
    if |a| == 0 {
      assert a + b == b;
    } else {
      assert (a + b)[0] == a[0];
      assert (a + b)[1..] == a[1..] + b;
      OfKindAppend(a[1..], b, k);
    }
  }

  /** A single member is kept iff it has the kind. */
  lemma OfKindSingle(m: Member, k: MemberKind)
    ensures OfKind([m], k) == if m.kind == k then [m] else []
  {
    assert [m][1..] == [];
  }

  /** A class is pending by itself iff no collected interface name ends with its name. */
  lemma PendingSingle(c: ClassRec, interfaces: seq<InterfaceRec>)
    ensures Pending([c], interfaces) == if HasInterface(c, interfaces) then [] else [c]
  {
    assert [c][1..] == [];
  }

  /** The mock of the interface generated for class `C` is named `CMock`. */
  lemma MockNamedAfterClass(c: ClassRec)
    requires MethodsTyped(c.members)
    ensures MockFor(InterfaceFor(c).value).name == c.name + "Mock"
    ensures MockFor(InterfaceFor(c).value).implements == ["I" + c.name]
  {
    assert ("I" + c.name)[0] == 'I';
    assert ("I" + c.name)[1..] == c.name;
  }

  /** Keeping the members of a kind that every member has keeps them all. */
  lemma {:induction false} OfKindKeepsAll(members: seq<Member>, k: MemberKind)
    requires forall i :: 0 <= i < |members| ==> members[i].kind == k
    ensures OfKind(members, k) == members
    decreases |members|
  {
    if |members| > 0 {
      OfKindKeepsAll(members[1..], k);
    }
  }

  /**
   * The mock generated for a pending class has one method per method declaration of the class,
   * in member order, with the same name, type parameters, parameters and return type, and
   * each body returns `undefined`; every other member of the class is dropped.
   */
  lemma MockMirrorsClassMethods(c: ClassRec)
    requires MethodsTyped(c.members)
    ensures var mock := MockFor(InterfaceFor(c).value);
            var methods := OfKind(c.members, MethodDeclaration);
            && |mock.members| == |methods|
            && forall i :: 0 <= i < |methods| ==>
                 && mock.members[i].kind == MethodDeclaration
                 && mock.members[i].name == methods[i].name
                 && mock.members[i].typeParameters == methods[i].typeParameters
                 && mock.members[i].parameters == methods[i].parameters
                 && mock.members[i].returnType == methods[i].returnType
                 && mock.members[i].body == Some([Return(Identifier("undefined"))])
  {
    var iface := InterfaceFor(c).value;
    OfKindKeepsAll(iface.members, MethodSignature);
  }

  /** The generated interface holds exactly the class's method declarations, as signatures. */
  lemma InterfaceListsMethods(c: ClassRec)
    requires MethodsTyped(c.members)
    ensures var iface := InterfaceFor(c).value;
            var methods := OfKind(c.members, MethodDeclaration);
            && |iface.members| == |methods|
            && forall i :: 0 <= i < |methods| ==>
                 && iface.members[i].kind == MethodSignature
                 && iface.members[i].name == methods[i].name
                 && iface.members[i].typeParameters == methods[i].typeParameters
                 && iface.members[i].parameters == methods[i].parameters
                 && iface.members[i].returnType == methods[i].returnType
                 && iface.members[i].body.None?
  {
  }

  /** A `"Mock"` that begins in the last three characters of `s` cannot be found in `s + "Mock" + rest`. */
  lemma NoStraddledMock(s: string, rest: string, j: int)
    requires 0 <= j && |s| - 3 <= j < |s|
    ensures !IsAt(s + "Mock" + rest, "Mock", j)
  {
    var t := s + "Mock" + rest;
    var k := |s| - j;
    assert t[|s|] == 'M';
    assert "Mock"[k] != 'M';
    assert t[j..j + 4][k] == t[|s|];
  }

  /** No `"Mock"` in `s` and none straddling its end: the appended one is the first. */
  lemma {:induction false} AppendedMockIsFirst(s: string, rest: string)
    requires forall j :: !IsAt(s, "Mock", j)
    ensures IsAt(s + "Mock" + rest, "Mock", |s|)
    ensures forall j :: 0 <= j < |s| ==> !IsAt(s + "Mock" + rest, "Mock", j)
  {
    var t := s + "Mock" + rest;
    assert t[|s|..|s| + 4] == "Mock";
    forall j | 0 <= j < |s|
      ensures !IsAt(t, "Mock", j)
    {
      if j + 4 <= |s| {
        assert t[j..j + 4] == s[j..j + 4];
        assert !IsAt(s, "Mock", j);
      } else {
        NoStraddledMock(s, rest, j);
      }
    }
  }

  /** Lower-casing the first character of a non-empty prefix leaves what follows it alone. */
  lemma LowerFirstAppend(prefix: string, tail: string)
    requires |prefix| > 0
    ensures LowerFirst(prefix + tail) == LowerFirst(prefix) + tail
  {
    assert (prefix + tail)[0] == prefix[0];
    assert (prefix + tail)[1..] == prefix[1..] + tail;
  }

  /**
   * The file name drops the first `Mock` of the mock class name: after a prefix whose
   * lower-cased form holds no `Mock`, the next `Mock` is the one removed.
   */
  lemma FirstMockRemoved(prefix: string, rest: string)
    requires |prefix| > 0
    requires forall j :: !IsAt(LowerFirst(prefix), "Mock", j)
    ensures MockFileName(prefix + "Mock" + rest) == LowerFirst(prefix) + rest + ".mock.ts"
  {
    var low := LowerFirst(prefix);
    var s := low + "Mock" + rest;
    LowerFirstAppend(prefix, "Mock" + rest);
    assert prefix + "Mock" + rest == prefix + ("Mock" + rest);
    assert low + ("Mock" + rest) == s;
    AppendedMockIsFirst(low, rest);
    ReplaceFirstAt(s, "Mock", "", |low|);
    assert s[..|low|] == low;
    assert s[|low| + 4..] == rest;
  }

  /** A class name holding no `Mock` gets the file of its lower-cased name plus `.mock.ts`. */
  lemma MockFileNameOfPlainClass(className: string)
    requires |className| > 0
    requires forall j :: !IsAt(LowerFirst(className), "Mock", j)
    ensures MockFileName(className + "Mock") == LowerFirst(className) + ".mock.ts"
  {
    FirstMockRemoved(className, "");
    assert className + "Mock" + "" == className + "Mock";
  }

  /**
   * A class name holding `Mock` loses that inner occurrence instead of the suffix: class
   * `FooMockService` has mock `FooMockServiceMock` and mock file `fooServiceMock.mock.ts`.
   */
  lemma MockFileNameDropsInnerMock()
    ensures LowerFirst("Foo") == "foo"
    ensures MockFileName("Foo" + "Mock" + "ServiceMock") == LowerFirst("Foo") + "ServiceMock" + ".mock.ts"
  {
    assert LowerChar('F') == 'f';
    assert forall j :: !IsAt(LowerFirst("Foo"), "Mock", j);
    FirstMockRemoved("Foo", "ServiceMock");
  }

  /** The example service: `FooService` already has `IFooService`, so the bundle is the source file alone. */
  lemma ExampleServiceNeedsNoMock(printer: Printer, file: FileRec, members: seq<Member>)
    ensures var foo := ClassRec("FooService", Some([Call(Identifier("Injectable"))]), [], members);
            MakeBundle(printer, file, [foo], [InterfaceRec("IFoo", []), InterfaceRec("IFooService", [])]) == Some([file])
  {
    var foo := ClassRec("FooService", Some([Call(Identifier("Injectable"))]), [], members);
    var ifaces := [InterfaceRec("IFoo", []), InterfaceRec("IFooService", [])];
    assert ifaces[1].name[1..] == foo.name;
    assert EndsWith(ifaces[1].name, foo.name);
    PendingSingle(foo, ifaces);
    var r := MakeBundle(printer, file, [foo], ifaces);
    assert r.Some? && |r.value| == 1;
    assert r.value[0] == file;
    assert r.value == [file];
  }
}
