/**
 * DefineEntityTypeConstantRule: every named entity class must declare
 * `public const string ENTITY_TYPE`. Only the declaration is checked; its
 * value is not looked at.
 */
module DefineEntityTypeConstant {
  import opened Wrappers
  import opened Strings
  import opened Ast
  import opened Layers

  const ConstantName := "ENTITY_TYPE"
  const Message := "Entity must define public const string ENTITY_TYPE."

  /** A public constant statement typed exactly `string` that declares `ENTITY_TYPE`. */
  predicate DeclaresEntityType(s: ClassStmt) {
    && s.ClassConst? && IsPublic(s.constFlags)
    && s.constType == Some(IdentType("string"))
    && exists j :: 0 <= j < |s.consts| && s.consts[j].constId == ConstantName
  }

  /**
   * `processNode`: a named class in an entity file gets one error unless one
   * of its constant statements declares the entity type.
   */
  function Errors(path: string, c: Class): (r: seq<string>)
    ensures |r| <= 1
    ensures r != [] <==>
              && Contains(path, EntitiesLayer) && c.name.Some?
              && forall i :: 0 <= i < |c.stmts| ==> !DeclaresEntityType(c.stmts[i])
    ensures r != [] ==> r == [Message]
  {
    if !Contains(path, EntitiesLayer) then []
    else if c.name.None? then []
    else if exists i :: 0 <= i < |c.stmts| && DeclaresEntityType(c.stmts[i]) then []
    else [Message]
  }

  /** The constant statements with every value replaced by `v`. */
  function WithValues(stmts: seq<ClassStmt>, v: Expr): (r: seq<ClassStmt>)
    ensures |r| == |stmts|
  {
    if stmts == [] then []
    else
      var s := stmts[0];
      [if s.ClassConst? then ClassConst(s.constFlags, s.constType, ConstsWithValue(s.consts, v)) else s]
        + WithValues(stmts[1..], v)
  }

  function ConstsWithValue(consts: seq<ConstDecl>, v: Expr): (r: seq<ConstDecl>)
    ensures |r| == |consts|
    ensures forall j :: 0 <= j < |consts| ==> r[j] == ConstDecl(consts[j].constId, v)
  {
    seq(|consts|, j requires 0 <= j < |consts| => ConstDecl(consts[j].constId, v))
  }

  /** The values of the constants never change the outcome. */
  lemma {:induction false} ValueIgnored(path: string, c: Class, v: Expr)
    ensures Errors(path, c) == Errors(path, Class(c.name, c.flags, c.parent, WithValues(c.stmts, v)))
  {
    WithValuesKeepsDeclarations(c.stmts, v);
  }

  lemma {:induction false} WithValuesKeepsDeclarations(stmts: seq<ClassStmt>, v: Expr)
    ensures forall i :: 0 <= i < |stmts| ==> (DeclaresEntityType(WithValues(stmts, v)[i]) <==> DeclaresEntityType(stmts[i]))
    decreases |stmts|
  {
    if stmts != [] {
      WithValuesKeepsDeclarations(stmts[1..], v);
      var r := WithValues(stmts, v);
      forall i | 0 <= i < |stmts| ensures DeclaresEntityType(r[i]) <==> DeclaresEntityType(stmts[i]) {
        if i == 0 {
          var s := stmts[0];
          if s.ClassConst? {
            var cs := ConstsWithValue(s.consts, v);
            assert forall j :: 0 <= j < |cs| ==> cs[j].constId == s.consts[j].constId;
          }
        } else {
          assert r[i] == WithValues(stmts[1..], v)[i - 1];
        }
      }
    }
  }

  /** An untyped, a non-public or a `?string` `ENTITY_TYPE` does not satisfy the rule. */
  lemma {:induction false} NearMisses(flags: bv32, v: Expr)
    requires IsPublic(flags)
    ensures DeclaresEntityType(ClassConst(flags, Some(IdentType("string")), [ConstDecl(ConstantName, v)]))
    ensures !DeclaresEntityType(ClassConst(flags, None, [ConstDecl(ConstantName, v)]))
    ensures !DeclaresEntityType(ClassConst(ModifierPrivate, Some(IdentType("string")), [ConstDecl(ConstantName, v)]))
    ensures !DeclaresEntityType(ClassConst(ModifierProtected, Some(IdentType("string")), [ConstDecl(ConstantName, v)]))
    ensures !DeclaresEntityType(ClassConst(flags, Some(NullableType(IdentType("string"))), [ConstDecl(ConstantName, v)]))
  {
    var d := [ConstDecl(ConstantName, v)];
    assert d[0].constId == ConstantName;
  }
}
