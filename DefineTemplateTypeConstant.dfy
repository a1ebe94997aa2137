/**
 * DefineTemplateTypeConstantRule: every named entity class must declare a
 * public `TEMPLATE_TYPE` constant whose value is `'Base'`, `'BasePlus'` or
 * `'Event'`.
 */
module DefineTemplateTypeConstant {
  import opened Wrappers
  import opened Strings
  import opened Ast
  import opened Layers

  const ConstantName := "TEMPLATE_TYPE"
  const MissingMessage := "Entity must define public const string TEMPLATE_TYPE with value 'Base', 'BasePlus' or 'Event'."
  const InvalidMessage := "Entity TEMPLATE_TYPE must be 'Base', 'BasePlus' or 'Event'."

  /** The template types EspoCRM knows, compared case-sensitively. */
  predicate KnownTemplate(v: string) {
    v == "Base" || v == "BasePlus" || v == "Event"
  }

  /** The constants of the public constant statements, in declaration order. */
  function PublicConsts(stmts: seq<ClassStmt>): seq<ConstDecl> {
    if stmts == [] then []
    else
      var s := stmts[|stmts| - 1];
      PublicConsts(stmts[..|stmts| - 1]) + (if s.ClassConst? && IsPublic(s.constFlags) then s.consts else [])
  }

  lemma {:induction false} PublicConstsStep(stmts: seq<ClassStmt>, i: nat)
    requires i < |stmts|
    ensures PublicConsts(stmts[..i + 1]) == PublicConsts(stmts[..i])
              + (if stmts[i].ClassConst? && IsPublic(stmts[i].constFlags) then stmts[i].consts else [])
  {
    assert stmts[..i + 1][..i] == stmts[..i];
  }

  /** Whether some public constant is named `TEMPLATE_TYPE`. */
  predicate Declared(decls: seq<ConstDecl>) {
    exists i :: 0 <= i < |decls| && decls[i].constId == ConstantName
  }

  /** A `TEMPLATE_TYPE` constant whose value is a string literal: one that sets validity. */
  predicate LiteralTemplate(d: ConstDecl) {
    d.constId == ConstantName && d.constValue.StringLit?
  }

  /**
   * The `$valid` flag after a scan of `decls`: each `TEMPLATE_TYPE` with a
   * string-literal value overwrites it; other values leave it as it was.
   */
  function Validity(decls: seq<ConstDecl>): bool {
    if decls == [] then false
    else
      var d := decls[|decls| - 1];
      if LiteralTemplate(d) then KnownTemplate(d.constValue.str) else Validity(decls[..|decls| - 1])
  }

  /**
   * The last literal decides: the flag holds exactly when some literal
   * `TEMPLATE_TYPE` has a known value and no later one has a literal value.
   */
  lemma {:induction false} ValidityLastLiteral(decls: seq<ConstDecl>)
    ensures Validity(decls) <==>
              exists i :: 0 <= i < |decls| && LiteralTemplate(decls[i]) && KnownTemplate(decls[i].constValue.str)
                          && forall j :: i < j < |decls| ==> !LiteralTemplate(decls[j])
    decreases |decls|
  {
    if decls != [] {
      var init := decls[..|decls| - 1];
      var d := decls[|decls| - 1];
      ValidityLastLiteral(init);
      if !LiteralTemplate(d) {
        if Validity(decls) {
          var i :| 0 <= i < |init| && LiteralTemplate(init[i]) && KnownTemplate(init[i].constValue.str)
                   && forall j :: i < j < |init| ==> !LiteralTemplate(init[j]);
          assert decls[i] == init[i];
          assert forall j :: i < j < |decls| ==> !LiteralTemplate(decls[j]) by {
            forall j | i < j < |decls| ensures !LiteralTemplate(decls[j]) {
              if j < |init| {
                assert decls[j] == init[j];
              }
            }
          }
        }
        if exists i :: 0 <= i < |decls| && LiteralTemplate(decls[i]) && KnownTemplate(decls[i].constValue.str)
                       && forall j :: i < j < |decls| ==> !LiteralTemplate(decls[j]) {
          var i :| 0 <= i < |decls| && LiteralTemplate(decls[i]) && KnownTemplate(decls[i].constValue.str)
                   && forall j :: i < j < |decls| ==> !LiteralTemplate(decls[j]);
          assert init[i] == decls[i];
          assert forall j :: i < j < |init| ==> init[j] == decls[j];
        }
      } else {
        if !KnownTemplate(d.constValue.str) {
          forall i | 0 <= i < |decls| - 1 && LiteralTemplate(decls[i])
            ensures exists j :: i < j < |decls| && LiteralTemplate(decls[j])
          {
            assert LiteralTemplate(decls[|decls| - 1]);
          }
        }
      }
    }
  }

  /** The messages `processNode` may report for a class, given what its scan found. */
  function Outcome(found: bool, valid: bool): (r: seq<string>)
    ensures |r| <= 1
    ensures r == [MissingMessage] <==> !found
    ensures r == [InvalidMessage] <==> found && !valid
    ensures r == [] <==> found && valid
  {
    if !found then [MissingMessage] else if !valid then [InvalidMessage] else []
  }

  /** One step of the scan: its effect on both flags. */
  lemma {:induction false} ScanStep(decls: seq<ConstDecl>, d: ConstDecl)
    ensures Declared(decls + [d]) == (Declared(decls) || d.constId == ConstantName)
    ensures Validity(decls + [d]) == if LiteralTemplate(d) then KnownTemplate(d.constValue.str) else Validity(decls)
  {
    var all := decls + [d];
    assert all[..|all| - 1] == decls;
    assert all[|all| - 1] == d;
    if Declared(decls) {
      var i :| 0 <= i < |decls| && decls[i].constId == ConstantName;
      assert all[i] == decls[i];
    }
    if d.constId == ConstantName {
      assert all[|decls|] == d;
    }
    if Declared(all) && d.constId != ConstantName {
      var i :| 0 <= i < |all| && all[i].constId == ConstantName;
      assert i != |decls|;
      assert all[i] == decls[i];
    }
  }

  /**
   * The inner loop of `processNode` over one public constant statement: a
   * `TEMPLATE_TYPE` sets `found`, and its value, when a string literal,
   * overwrites `valid`.
   */
  method ScanConsts(consts: seq<ConstDecl>, found0: bool, valid0: bool, ghost before: seq<ConstDecl>)
    returns (found: bool, valid: bool)
    requires found0 == Declared(before) && valid0 == Validity(before)
    ensures found == Declared(before + consts) && valid == Validity(before + consts)
  {
    found, valid := found0, valid0;
    assert before + consts[..0] == before;
    var j := 0;
    while j < |consts|
      invariant 0 <= j <= |consts|
      invariant found == Declared(before + consts[..j])
      invariant valid == Validity(before + consts[..j])
    {
      var c := consts[j];
      ScanStep(before + consts[..j], c);
      assert before + consts[..j + 1] == before + consts[..j] + [c];
      if c.constId == ConstantName {
        found := true;
        if c.constValue.StringLit? {
          valid := KnownTemplate(c.constValue.str);
        }
      }
      j := j + 1;
    }
    assert consts[..j] == consts;
  }

  /**
   * `processNode`: in an entity file, a named class without a public
   * `TEMPLATE_TYPE` gets the "must define" error; one whose deciding value
   * is not a known template type gets the "must be" error.
   */
  method ProcessNode(filePath: string, node: Class) returns (errors: seq<string>)
    ensures !Contains(filePath, EntitiesLayer) || node.name.None? ==> errors == []
    ensures Contains(filePath, EntitiesLayer) && node.name.Some? ==>
              errors == Outcome(Declared(PublicConsts(node.stmts)), Validity(PublicConsts(node.stmts)))
  {
    if IndexOf(filePath, EntitiesLayer).None? {
      return [];
    }
    if node.name.None? {
      return [];
    }
    var found := false;
    var valid := false;
    var i := 0;
    while i < |node.stmts|
      invariant 0 <= i <= |node.stmts|
      invariant found == Declared(PublicConsts(node.stmts[..i]))
      invariant valid == Validity(PublicConsts(node.stmts[..i]))
    {
      var constStmt := node.stmts[i];
      PublicConstsStep(node.stmts, i);
      if constStmt.ClassConst? && IsPublic(constStmt.constFlags) {
        found, valid := ScanConsts(constStmt.consts, found, valid, PublicConsts(node.stmts[..i]));
      } else {
        assert PublicConsts(node.stmts[..i]) + [] == PublicConsts(node.stmts[..i]);
      }
      i := i + 1;
    }
    assert node.stmts[..i] == node.stmts;
    if !found {
      return [MissingMessage];
    }
    if !valid {
      return [InvalidMessage];
    }
    return [];
  }

  /** The constants a statement list contributes, statement by statement. */
  lemma {:induction false} PublicConstsAppend(a: seq<ClassStmt>, b: seq<ClassStmt>)
    ensures PublicConsts(a + b) == PublicConsts(a) + PublicConsts(b)
    decreases |b|
  {
    if b == [] {
      assert a + b == a;
    } else {
      var b' := b[..|b| - 1];
      assert (a + b)[..|a + b| - 1] == a + b';
      PublicConstsAppend(a, b');
    }
  }

  /** A constant statement that is not public is ignored wherever it stands. */
  lemma {:induction false} NonPublicIgnored(a: seq<ClassStmt>, s: ClassStmt, b: seq<ClassStmt>)
    requires !(s.ClassConst? && IsPublic(s.constFlags))
    ensures PublicConsts(a + [s] + b) == PublicConsts(a + b)
  {
    PublicConstsAppend(a + [s], b);
    PublicConstsAppend(a, [s]);
    PublicConstsAppend(a, b);
    assert [s][..0] == [];
  }

  /** A `TEMPLATE_TYPE` whose value is not a string literal is found but never valid on its own. */
  lemma {:induction false} NonLiteralInvalid(v: Expr)
    requires !v.StringLit?
    ensures Outcome(Declared([ConstDecl(ConstantName, v)]), Validity([ConstDecl(ConstantName, v)])) == [InvalidMessage]
  {
    var decls := [ConstDecl(ConstantName, v)];
    assert decls[0].constId == ConstantName;
    assert decls[..0] == [];
  }
}
