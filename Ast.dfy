/**
 * The part of PHP-Parser's syntax tree that the rules look at, and the
 * pre-order node search (`NodeFinder::find` / `findFirst`) they run over a
 * method body.
 */
module Ast {
  import opened Wrappers

  // Modifier bits of `Class_::MODIFIER_*`, shared by classes, class members
  // and promoted constructor parameters.
  const ModifierPublic: bv32 := 1
  const ModifierProtected: bv32 := 2
  const ModifierPrivate: bv32 := 4
  const ModifierStatic: bv32 := 8
  const ModifierAbstract: bv32 := 16
  const ModifierFinal: bv32 := 32
  const ModifierReadonly: bv32 := 64
  const VisibilityMask: bv32 := 7

  /** `isPublic()` of class constants and properties: public, or no visibility written. */
  predicate IsPublic(flags: bv32) {
    flags & ModifierPublic != 0 || flags & VisibilityMask == 0
  }

  predicate IsStatic(flags: bv32) {
    flags & ModifierStatic != 0
  }

  predicate IsFinal(flags: bv32) {
    flags & ModifierFinal != 0
  }

  /** The name of a member access: an identifier, or an expression (`$obj->$name`). */
  datatype MemberName = Ident(id: string) | DynamicName(nameExpr: Expr)

  /** The name of a variable: `$x`, or a variable variable (`$$x`). */
  datatype VarName = Named(varId: string) | VarVar(varExpr: Expr)

  /** The class part of `X::...`: a name (`parent`, `self`, `Foo\Bar`) or an expression. */
  datatype ClassRef = ClassName(className: string) | ClassExpr(classExpr: Expr)

  /** A call argument; `foo(...)` holds a variadic placeholder, which has no value. */
  datatype Arg = Arg(value: Expr) | VariadicPlaceholder

  /** An item of an array literal; `Hole` is the empty slot of `[, $b]`. */
  datatype ArrayItem = Item(key: Option<Expr>, itemValue: Expr) | Hole

  datatype Expr =
    | Variable(varName: VarName)
    | StringLit(str: string)
    | ArrayLit(items: seq<ArrayItem>)
    | ConstFetch(constName: string)
    | ClassConstFetch(cls: ClassRef, member: MemberName)
    | PropertyFetch(obj: Expr, member: MemberName)
    | MethodCall(target: Expr, member: MemberName, args: seq<Arg>)
    | StaticCall(cls: ClassRef, member: MemberName, args: seq<Arg>)
    | Assign(lhs: Expr, rhs: Expr)
    | OtherExpr(children: seq<Expr>)

  /**
   * A statement of a method body: an expression statement, or any compound
   * statement (if, loop, return, ...) with its expressions and nested statements.
   */
  datatype Stmt = ExprStmt(expr: Expr) | Compound(heads: seq<Expr>, body: seq<Stmt>)

  /** A parameter: its variable (or an error node) and its modifier flags (promotion). */
  datatype Param = Param(paramVar: Expr, flags: bv32)

  /** A method; `stmts` is `None` for an abstract or interface method. */
  datatype ClassMethod = ClassMethod(name: string, params: seq<Param>, stmts: Option<seq<Stmt>>)

  /** A declared type: a built-in (`int`, `string`), a class name, `?T`, or a union etc. */
  datatype TypeNode = IdentType(typeId: string) | NameType(typeName: string) | NullableType(inner: TypeNode) | OtherType

  datatype ConstDecl = ConstDecl(constId: string, constValue: Expr)

  datatype ClassStmt =
    | ClassConst(constFlags: bv32, constType: Option<TypeNode>, consts: seq<ConstDecl>)
    | Property(propFlags: bv32, propType: Option<TypeNode>, props: seq<string>)
    | MethodDecl(decl: ClassMethod)
    | OtherClassStmt

  /** A class declaration; `name` is `None` for an anonymous class. */
  datatype Class = Class(name: Option<string>, flags: bv32, parent: Option<string>, stmts: seq<ClassStmt>)

  /** EspoCRM's `afterSave` and `beforeSave` are the hook methods that run around a save. */
  predicate IsSaveHook(name: string) {
    name == "afterSave" || name == "beforeSave"
  }

  /** `$args[i]->value ?? null`. */
  function ArgValue(args: seq<Arg>, i: nat): (r: Option<Expr>)
    ensures r.Some? <==> i < |args| && args[i].Arg?
    ensures r.Some? ==> r.value == args[i].value
  {
    if i < |args| && args[i].Arg? then Some(args[i].value) else None
  }

  /** `$name instanceof Identifier ? $name->toString() : null`. */
  function IdentOf(n: MemberName): Option<string> {
    if n.Ident? then Some(n.id) else None
  }

  /** The name of a plain variable: `$e instanceof Variable && is_string($e->name)`. */
  function VarNameOf(e: Expr): (r: Option<string>)
    ensures r.Some? <==> e.Variable? && e.varName.Named?
    ensures r.Some? ==> r.value == e.varName.varId
  {
    if e.Variable? && e.varName.Named? then Some(e.varName.varId) else None
  }

  // ---------------------------------------------------------------------------
  // Pre-order traversal: a node, then its sub-nodes in PHP-Parser's sub-node order.

  function NameChildren(n: MemberName): seq<Expr> {
    if n.DynamicName? then [n.nameExpr] else []
  }

  function ClassRefChildren(c: ClassRef): seq<Expr> {
    if c.ClassExpr? then [c.classExpr] else []
  }

  function ArgChildren(args: seq<Arg>): seq<Expr> {
    if args == [] then []
    else (if args[0].Arg? then [args[0].value] else []) + ArgChildren(args[1..])
  }

  function ItemChildren(items: seq<ArrayItem>): seq<Expr> {
    if items == [] then []
    else
      (match items[0]
       case Item(k, v) => (if k.Some? then [k.value] else []) + [v]
       case Hole => []) + ItemChildren(items[1..])
  }

  lemma {:induction false} ArgChildrenSmaller(args: seq<Arg>, c: Expr)
    requires c in ArgChildren(args)
    ensures exists i :: 0 <= i < |args| && args[i] == Arg(c)
  {
    if args[0].Arg? && c == args[0].value {
    } else {
      ArgChildrenSmaller(args[1..], c);
      var i :| 0 <= i < |args[1..]| && args[1..][i] == Arg(c);
      assert args[i + 1] == Arg(c);
    }
  }

  lemma {:induction false} ItemChildrenSmaller(items: seq<ArrayItem>, c: Expr)
    requires c in ItemChildren(items)
    ensures exists i :: 0 <= i < |items| && items[i].Item? && (c == items[i].itemValue || items[i].key == Some(c))
  {
    if items[0].Item? && (c == items[0].itemValue || items[0].key == Some(c)) {
    } else {
      ItemChildrenSmaller(items[1..], c);
      var i :| 0 <= i < |items[1..]| && items[1..][i].Item? && (c == items[1..][i].itemValue || items[1..][i].key == Some(c));
      assert items[i + 1] == items[1..][i];
    }
  }

  /** The direct sub-expressions of `e`, in PHP-Parser's sub-node order. */
  function Children(e: Expr): (r: seq<Expr>)
    ensures forall c :: c in r ==> c < e
  {
    match e
    case Variable(n) =>
      if n.VarVar? then [n.varExpr] else []
    case StringLit(_) => []
    case ArrayLit(items) =>
      var r := ItemChildren(items);
      assert forall c :: c in r ==> c < e by {
        forall c | c in r ensures c < e {
          ItemChildrenSmaller(items, c);
        }
      }
      r
    case ConstFetch(_) => []
    case ClassConstFetch(c, n) => ClassRefChildren(c) + NameChildren(n)
    case PropertyFetch(o, n) => [o] + NameChildren(n)
    case MethodCall(t, n, args) =>
      var r := [t] + NameChildren(n) + ArgChildren(args);
      assert forall c :: c in ArgChildren(args) ==> c < e by {
        forall c | c in ArgChildren(args) ensures c < e {
          ArgChildrenSmaller(args, c);
        }
      }
      r
    case StaticCall(c, n, args) =>
      var r := ClassRefChildren(c) + NameChildren(n) + ArgChildren(args);
      assert forall x :: x in ArgChildren(args) ==> x < e by {
        forall x | x in ArgChildren(args) ensures x < e {
          ArgChildrenSmaller(args, x);
        }
      }
      r
    case Assign(l, r) => [l, r]
    case OtherExpr(cs) => cs
  }

  /** Every node of the tree rooted at `e`, in pre-order: `e` first. */
  function Nodes(e: Expr): (r: seq<Expr>)
    ensures |r| >= 1 && r[0] == e
    decreases e, |Children(e)| + 1
  {
    [e] + NodesOf(Children(e), e)
  }

  function NodesOf(cs: seq<Expr>, ghost parent: Expr): seq<Expr>
    requires forall c :: c in cs ==> c < parent
    decreases parent, |cs|
  {
    if cs == [] then []
    else
      assert cs[0] in cs && forall c :: c in cs[1..] ==> c in cs;
      Nodes(cs[0]) + NodesOf(cs[1..], parent)
  }

  /** The nodes of a list of expressions, each tree in turn. */
  function ExprListNodes(es: seq<Expr>): seq<Expr>
  {
    if es == [] then [] else Nodes(es[0]) + ExprListNodes(es[1..])
  }

  function StmtNodes(s: Stmt): seq<Expr>
    decreases s, (if s.Compound? then |s.body| else 0) + 1
  {
    match s
    case ExprStmt(e) => Nodes(e)
    case Compound(heads, body) => ExprListNodes(heads) + StmtListNodes(body, s)
  }

  function StmtListNodes(ss: seq<Stmt>, ghost parent: Stmt): seq<Expr>
    requires forall x :: x in ss ==> x < parent
    decreases parent, |ss|
  {
    if ss == [] then []
    else
      assert ss[0] in ss && forall x :: x in ss[1..] ==> x in ss;
      StmtNodes(ss[0]) + StmtListNodes(ss[1..], parent)
  }

  /** Every expression node of a method body, in the order `NodeFinder` visits them. */
  function BodyNodes(ss: seq<Stmt>): seq<Expr>
  {
    StmtNodes(Compound([], ss))
  }

  /** The nodes of the i-th child list entry are among the nodes of the list. */
  lemma {:induction false} NodesOfIncludes(cs: seq<Expr>, parent: Expr, i: nat)
    requires forall c :: c in cs ==> c < parent
    requires i < |cs|
    ensures forall n :: n in Nodes(cs[i]) ==> n in NodesOf(cs, parent)
    decreases i
  {
    assert forall c :: c in cs[1..] ==> c in cs;
    if i > 0 {
      NodesOfIncludes(cs[1..], parent, i - 1);
    }
  }

  /** A node found in a child list was found in the tree of one of the children. */
  lemma {:induction false} NodesOfMember(cs: seq<Expr>, parent: Expr, n: Expr)
    requires forall c :: c in cs ==> c < parent
    requires n in NodesOf(cs, parent)
    ensures exists i :: 0 <= i < |cs| && n in Nodes(cs[i])
    decreases |cs|
  {
    assert forall c :: c in cs[1..] ==> c in cs;
    if n !in Nodes(cs[0]) {
      NodesOfMember(cs[1..], parent, n);
      var i :| 0 <= i < |cs[1..]| && n in Nodes(cs[1..][i]);
      assert cs[1..][i] == cs[i + 1];
    }
  }

  /** The search reaches every depth: a node below a visited node is visited too. */
  lemma {:induction false} SubtreeNodes(e: Expr, d: Expr)
    requires d in Nodes(e)
    ensures forall n :: n in Nodes(d) ==> n in Nodes(e)
    decreases e
  {
    if d != e {
      var cs := Children(e);
      assert Nodes(e) == [e] + NodesOf(cs, e);
      assert d in NodesOf(cs, e);
      NodesOfMember(cs, e, d);
      var i :| 0 <= i < |cs| && d in Nodes(cs[i]);
      var c := cs[i];
      assert c in cs;
      SubtreeNodes(c, d);
      NodesOfIncludes(cs, e, i);
    }
  }

  /** A direct sub-expression's tree is part of its parent's tree. */
  lemma {:induction false} ChildNodes(e: Expr, c: Expr)
    requires c in Children(e)
    ensures forall n :: n in Nodes(c) ==> n in Nodes(e)
  {
    var i :| 0 <= i < |Children(e)| && Children(e)[i] == c;
    NodesOfIncludes(Children(e), e, i);
  }

  /** An expression statement of a method body is searched, however deep it sits in the tree. */
  lemma {:induction false} BodyIncludesStmt(ss: seq<Stmt>, i: nat)
    requires i < |ss| && ss[i].ExprStmt?
    ensures forall n :: n in Nodes(ss[i].expr) ==> n in BodyNodes(ss)
  {
    var block := Compound([], ss);
    assert BodyNodes(ss) == ExprListNodes([]) + StmtListNodes(ss, block);
    assert StmtNodes(ss[i]) == Nodes(ss[i].expr);
    StmtListIncludes(ss, block, i);
  }

  lemma {:induction false} StmtListIncludes(ss: seq<Stmt>, parent: Stmt, i: nat)
    requires forall x :: x in ss ==> x < parent
    requires i < |ss|
    ensures forall n :: n in StmtNodes(ss[i]) ==> n in StmtListNodes(ss, parent)
    decreases i
  {
    assert forall x :: x in ss[1..] ==> x in ss;
    if i > 0 {
      StmtListIncludes(ss[1..], parent, i - 1);
    }
  }

  // ---------------------------------------------------------------------------
  // The node search itself.

  /** `NodeFinder::find`: the visited nodes that satisfy `p`, in visiting order. */
  function Find(nodes: seq<Expr>, p: Expr -> bool): (r: seq<Expr>)
    ensures |r| <= |nodes|
    ensures forall n :: n in r <==> n in nodes && p(n)
  {
    if nodes == [] then []
    else (if p(nodes[0]) then [nodes[0]] else []) + Find(nodes[1..], p)
  }

  /** Searching two stretches of nodes finds the first stretch's matches, then the second's. */
  lemma {:induction false} FindAppend(a: seq<Expr>, b: seq<Expr>, p: Expr -> bool)
    ensures Find(a + b, p) == Find(a, p) + Find(b, p)
    decreases |a|
  {
    if a != [] {
      assert (a + b)[0] == a[0] && (a + b)[1..] == a[1..] + b;
      FindAppend(a[1..], b, p);
      assert Find(a, p) == (if p(a[0]) then [a[0]] else []) + Find(a[1..], p);
      assert Find(a + b, p) == (if p(a[0]) then [a[0]] else []) + Find(a[1..] + b, p);
    } else {
      assert a + b == b;
    }
  }

  /** `NodeFinder::findFirst`: the first visited node that satisfies `p`. */
  function FindFirst(nodes: seq<Expr>, p: Expr -> bool): (r: Option<Expr>)
    ensures r.None? <==> forall n :: n in nodes ==> !p(n)
    ensures r.Some? ==> r.value in nodes && p(r.value)
  {
    if nodes == [] then None
    else if p(nodes[0]) then Some(nodes[0])
    else
      assert forall n :: n in nodes <==> n == nodes[0] || n in nodes[1..];
      FindFirst(nodes[1..], p)
  }

  /** A body of one expression statement is searched exactly through that expression's tree. */
  lemma {:induction false} SingleStatementBody(e: Expr)
    ensures BodyNodes([ExprStmt(e)]) == Nodes(e)
  {
    var ss := [ExprStmt(e)];
    var block := Compound([], ss);
    assert ss[1..] == [];
    assert StmtListNodes(ss, block) == StmtNodes(ss[0]) + StmtListNodes(ss[1..], block);
  }

  /** A node without sub-expressions is its whole tree. */
  lemma {:induction false} LeafNodes(e: Expr)
    requires Children(e) == []
    ensures Nodes(e) == [e]
  {
  }
}
