/**
 * DependencyVisibilityOrFinalRule: a service class that is not `final` must
 * not promote constructor dependencies to `private` properties, so that
 * subclasses can reach them.
 */
module DependencyVisibilityOrFinal {
  import opened Wrappers
  import opened Strings
  import opened Ast
  import opened Layers

  const Message := "Non-final service class must not use private promoted dependencies; use protected visibility (preferred) or make the class final."

  /** `$class->getMethods()`: the methods declared directly in the class, in order. */
  function Methods(stmts: seq<ClassStmt>): (r: seq<ClassMethod>)
    ensures forall m :: m in r <==> MethodDecl(m) in stmts
  {
    if stmts == [] then []
    else (if stmts[0].MethodDecl? then [stmts[0].decl] else []) + Methods(stmts[1..])
  }

  /** `getMethods()` keeps declaration order: the methods of two stretches of statements, one after the other. */
  lemma {:induction false} MethodsAppend(a: seq<ClassStmt>, b: seq<ClassStmt>)
    ensures Methods(a + b) == Methods(a) + Methods(b)
    decreases |a|
  {
    if a != [] {
      assert (a + b)[1..] == a[1..] + b;
      MethodsAppend(a[1..], b);
    } else {
      assert a + b == b;
    }
  }

  /** The first method named exactly `__construct`. */
  function FirstConstructor(methods: seq<ClassMethod>): (r: Option<ClassMethod>)
    ensures r.None? <==> forall m :: m in methods ==> m.name != "__construct"
    ensures r.Some? ==> r.value in methods && r.value.name == "__construct"
  {
    if methods == [] then None
    else if methods[0].name == "__construct" then Some(methods[0])
    else
      assert forall m :: m in methods <==> m == methods[0] || m in methods[1..];
      FirstConstructor(methods[1..])
  }

  /** Of several constructors, the one declared first is checked. */
  lemma {:induction false} FirstConstructorEarliest(methods: seq<ClassMethod>)
    requires FirstConstructor(methods).Some?
    ensures exists k :: 0 <= k < |methods| && methods[k] == FirstConstructor(methods).value
                        && forall j :: 0 <= j < k ==> methods[j].name != "__construct"
  {
    if methods[0].name != "__construct" {
      var rest := methods[1..];
      FirstConstructorEarliest(rest);
      var k :| 0 <= k < |rest| && rest[k] == FirstConstructor(rest).value
               && forall j :: 0 <= j < k ==> rest[j].name != "__construct";
      assert methods[k + 1] == rest[k];
      assert forall j :: 1 <= j < k + 1 ==> methods[j] == rest[j - 1];
    }
  }

  /** A leading statement that is not a `__construct` declaration does not change the constructor found. */
  lemma {:induction false} FirstConstructorSkip(stmts: seq<ClassStmt>)
    requires stmts != [] && !(stmts[0].MethodDecl? && stmts[0].decl.name == "__construct")
    ensures FirstConstructor(Methods(stmts)) == FirstConstructor(Methods(stmts[1..]))
  {
    if stmts[0].MethodDecl? {
      assert Methods(stmts) == [stmts[0].decl] + Methods(stmts[1..]);
      FirstConstructorCons(stmts[0].decl, Methods(stmts[1..]));
    } else {
      assert Methods(stmts) == Methods(stmts[1..]);
    }
  }

  lemma {:induction false} FirstConstructorCons(x: ClassMethod, ms: seq<ClassMethod>)
    requires x.name != "__construct"
    ensures FirstConstructor([x] + ms) == FirstConstructor(ms)
  {
    assert ([x] + ms)[1..] == ms;
  }

  /** No statement before index `k` declares a `__construct`. */
  predicate NoConstructorBefore(stmts: seq<ClassStmt>, k: nat)
    requires k <= |stmts|
  {
    forall j :: 0 <= j < k && stmts[j].MethodDecl? ==> stmts[j].decl.name != "__construct"
  }

  /** The constructor checked is the first `__construct` declared in the class body. */
  lemma {:induction false} FirstConstructorDeclared(stmts: seq<ClassStmt>, m: ClassMethod)
    requires FirstConstructor(Methods(stmts)) == Some(m)
    ensures exists k :: 0 <= k < |stmts| && stmts[k] == MethodDecl(m) && NoConstructorBefore(stmts, k)
    decreases |stmts|
  {
    assert stmts != [];
    if stmts[0].MethodDecl? && stmts[0].decl.name == "__construct" {
      assert Methods(stmts)[0] == stmts[0].decl;
      assert stmts[0] == MethodDecl(m) && NoConstructorBefore(stmts, 0);
    } else {
      var rest := stmts[1..];
      FirstConstructorSkip(stmts);
      FirstConstructorDeclared(rest, m);
      var k :| 0 <= k < |rest| && rest[k] == MethodDecl(m) && NoConstructorBefore(rest, k);
      forall j | 0 <= j < k + 1 && stmts[j].MethodDecl?
        ensures stmts[j].decl.name != "__construct"
      {
        if j > 0 {
          assert stmts[j] == rest[j - 1];
        }
      }
      assert stmts[k + 1] == MethodDecl(m) && NoConstructorBefore(stmts, k + 1);
    }
  }

  /** A parameter promoted with `private` visibility. */
  predicate PrivatePromoted(p: Param) {
    p.flags & ModifierPrivate != 0
  }

  /**
   * The parameter loop of `processNode`: parameters without visibility bits
   * are not promoted and are skipped; the first `private` one is a violation.
   */
  method HasPrivatePromoted(params: seq<Param>) returns (hasViolation: bool)
    ensures hasViolation <==> exists i :: 0 <= i < |params| && PrivatePromoted(params[i])
  {
    hasViolation := false;
    var i := 0;
    while i < |params|
      invariant 0 <= i <= |params|
      invariant !hasViolation
      invariant forall j :: 0 <= j < i ==> !PrivatePromoted(params[j])
    {
      var param := params[i];
      if param.flags & VisibilityMask == 0 {
        assert param.flags & ModifierPrivate == 0 by {
          PrivateIsVisibility(param.flags);
        }
        i := i + 1;
        continue;
      }
      if param.flags & ModifierPrivate != 0 {
        hasViolation := true;
        break;
      }
      i := i + 1;
    }
  }

  /** The private bit is one of the visibility bits. */
  lemma {:induction false} PrivateIsVisibility(flags: bv32)
    ensures flags & VisibilityMask == 0 ==> flags & ModifierPrivate == 0
  {
  }

  /**
   * `processNode`: in a service file, a class that is not final and whose
   * first `__construct` promotes a parameter as private gets one error.
   * Public and protected promotions, and plain parameters, are fine.
   */
  method ProcessNode(filePath: string, node: Class) returns (errors: seq<string>)
    ensures |errors| <= 1
    ensures errors != [] <==>
              && Contains(filePath, ServicesLayer) && !IsFinal(node.flags)
              && FirstConstructor(Methods(node.stmts)).Some?
              && exists i :: 0 <= i < |FirstConstructor(Methods(node.stmts)).value.params|
                             && PrivatePromoted(FirstConstructor(Methods(node.stmts)).value.params[i])
    ensures errors != [] ==> errors == [Message]
  {
    if IndexOf(filePath, ServicesLayer).None? {
      return [];
    }
    if IsFinal(node.flags) {
      return [];
    }
    var ctor := FirstConstructor(Methods(node.stmts));
    if ctor.None? {
      return [];
    }
    var hasViolation := HasPrivatePromoted(ctor.value.params);
    if !hasViolation {
      return [];
    }
    return [Message];
  }
}
