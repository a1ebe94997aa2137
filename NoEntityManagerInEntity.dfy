/**
 * NoEntityManagerInEntityRule: entity methods must not reach the
 * EntityManager, either through an `entityManager` property or through a
 * `getEntityManager()` call; business logic belongs in services.
 */
module NoEntityManagerInEntity {
  import opened Wrappers
  import opened Strings
  import opened Ast
  import opened Layers

  const Message := "Entities must not use EntityManager, move business logic to the corresponding Service class."

  /**
   * The finder predicate: a property fetch named `entityManager` on any
   * object, or a method call named `getEntityManager`; names must be
   * identifiers, so dynamic names never match.
   */
  predicate UsesEntityManager(n: Expr) {
    if n.PropertyFetch? then n.member == Ident("entityManager")
    else if n.MethodCall? then n.member == Ident("getEntityManager")
    else false
  }

  /**
   * `processNode`: an entity method with a body gets one error when some
   * node of it uses the EntityManager, however many do.
   */
  function Errors(path: string, m: ClassMethod): (r: seq<string>)
    ensures |r| <= 1
    ensures r != [] <==>
              && Contains(path, EntitiesLayer) && m.stmts.Some?
              && exists n :: n in BodyNodes(m.stmts.value) && UsesEntityManager(n)
    ensures r != [] ==> r == [Message]
  {
    if !Contains(path, EntitiesLayer) then []
    else if m.stmts.None? then []
    else
      var violations := Find(BodyNodes(m.stmts.value), UsesEntityManager);
      if violations == [] then []
      else
        assert violations[0] in violations;
        [Message]
  }

  /** A use anywhere inside an expression statement of the body, at any depth, is reported. */
  lemma {:induction false} NestedUseReported(path: string, m: ClassMethod, i: nat, use: Expr)
    requires Contains(path, EntitiesLayer)
    requires m.stmts.Some? && i < |m.stmts.value| && m.stmts.value[i].ExprStmt?
    requires use in Nodes(m.stmts.value[i].expr) && UsesEntityManager(use)
    ensures Errors(path, m) == [Message]
  {
    BodyIncludesStmt(m.stmts.value, i);
  }

  /** `$o->entityManager` and `$o->getEntityManager()` are each reported as a whole body. */
  lemma {:induction false} DirectUsesReported(path: string, o: Expr)
    requires Contains(path, EntitiesLayer)
    ensures Errors(path, ClassMethod("f", [], Some([ExprStmt(PropertyFetch(o, Ident("entityManager")))]))) == [Message]
    ensures Errors(path, ClassMethod("f", [], Some([ExprStmt(MethodCall(o, Ident("getEntityManager"), []))]))) == [Message]
  {
    var fetch := PropertyFetch(o, Ident("entityManager"));
    var call := MethodCall(o, Ident("getEntityManager"), []);
    NestedUseReported(path, ClassMethod("f", [], Some([ExprStmt(fetch)])), 0, fetch);
    NestedUseReported(path, ClassMethod("f", [], Some([ExprStmt(call)])), 0, call);
  }

  /** `$this->$name` is not reported, whatever `$name` holds. */
  lemma {:induction false} DynamicNameNotReported(path: string, name: string)
    ensures Errors(path, ClassMethod("f", [], Some([ExprStmt(PropertyFetch(Variable(Named("this")), DynamicName(Variable(Named(name)))))]))) == []
  {
    var self := Variable(Named("this"));
    var dyn := Variable(Named(name));
    var e := PropertyFetch(self, DynamicName(dyn));
    SingleStatementBody(e);
    LeafNodes(self);
    LeafNodes(dyn);
    assert Children(e) == [self, dyn];
    assert NodesOf([self, dyn], e) == Nodes(self) + NodesOf([dyn], e);
    assert NodesOf([dyn], e) == Nodes(dyn) + NodesOf([], e);
    assert Nodes(e) == [e, self, dyn];
  }
}
