/**
 * CallParentConstructorRule: a service constructor must call
 * `parent::__construct()` somewhere in its body.
 */
module CallParentConstructor {
  import opened Wrappers
  import opened Strings
  import opened Ast
  import opened Layers

  const Message := "Service constructors must call parent::__construct()."

  /** The finder predicate: a static call on the class name `parent` to the identifier `__construct`. */
  predicate IsParentConstructorCall(n: Expr) {
    n.StaticCall? && n.cls == ClassName("parent") && n.member == Ident("__construct")
  }

  /**
   * `processNode`: a service `__construct` with a body gets one error when
   * no node of the body, at any depth, calls the parent constructor.
   */
  function Errors(path: string, m: ClassMethod): (r: seq<string>)
    ensures |r| <= 1
    ensures r != [] <==>
              && m.name == "__construct" && Contains(path, ServicesLayer) && m.stmts.Some?
              && forall n :: n in BodyNodes(m.stmts.value) ==> !IsParentConstructorCall(n)
    ensures r != [] ==> r == [Message]
  {
    if m.name != "__construct" then []
    else if !Contains(path, ServicesLayer) then []
    else if m.stmts.None? then []
    else if FindFirst(BodyNodes(m.stmts.value), IsParentConstructorCall).Some? then []
    else [Message]
  }

  /**
   * A parent-constructor call anywhere inside an expression statement of
   * the body, however deeply nested, satisfies the rule.
   */
  lemma {:induction false} NestedCallSatisfies(path: string, m: ClassMethod, i: nat, call: Expr)
    requires m.stmts.Some? && i < |m.stmts.value| && m.stmts.value[i].ExprStmt?
    requires call in Nodes(m.stmts.value[i].expr) && IsParentConstructorCall(call)
    ensures Errors(path, m) == []
  {
    BodyIncludesStmt(m.stmts.value, i);
  }

  /** A service constructor with an empty body gets the error; other methods never do. */
  lemma {:induction false} EmptyBody(path: string, name: string)
    requires Contains(path, ServicesLayer)
    ensures Errors(path, ClassMethod(name, [], Some([]))) == (if name == "__construct" then [Message] else [])
  {
    var block := Compound([], []);
    assert BodyNodes([]) == ExprListNodes([]) + StmtListNodes([], block);
  }

  /** `self::__construct()` or `Base::__construct()` as the whole body does not satisfy the rule. */
  lemma {:induction false} OtherClassDoesNotSatisfy(path: string, other: string)
    requires Contains(path, ServicesLayer) && other != "parent"
    ensures Errors(path, ClassMethod("__construct", [], Some([ExprStmt(StaticCall(ClassName(other), Ident("__construct"), []))]))) == [Message]
  {
    var e := StaticCall(ClassName(other), Ident("__construct"), []);
    SingleStatementBody(e);
    LeafNodes(e);
  }

  /** `parent::$name()`, a call through a dynamic name, does not satisfy the rule. */
  lemma {:induction false} DynamicNameDoesNotSatisfy(path: string, v: string)
    requires Contains(path, ServicesLayer)
    ensures Errors(path, ClassMethod("__construct", [], Some([ExprStmt(StaticCall(ClassName("parent"), DynamicName(Variable(Named(v))), []))]))) == [Message]
  {
    var dyn := Variable(Named(v));
    var e := StaticCall(ClassName("parent"), DynamicName(dyn), []);
    SingleStatementBody(e);
    LeafNodes(dyn);
    assert Children(e) == [dyn];
    assert NodesOf([dyn], e) == Nodes(dyn) + NodesOf([], e);
    assert Nodes(e) == [e, dyn];
  }
}
