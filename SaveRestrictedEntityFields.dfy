/**
 * SaveRestrictedEntityFieldsRule: inside a backend method, a
 * `saveEntity($var)` call without options on an entity that was loaded with
 * a restricted `select(...)` is reported when the `afterSave`/`beforeSave`
 * hooks of that entity type read fields the selection left out.
 */
module SaveRestrictedEntityFields {
  import opened Wrappers
  import opened Strings
  import opened Ast
  import opened Layers

  /** The identity field, always loaded. */
  const IdField := "id"
  /** How many missing fields a message names. */
  const MaxListed := 5

  /** The files of each hook directory, each as the list of its parsed methods. */
  type HookDirs = map<string, seq<seq<ClassMethod>>>

  // ---------------------------------------------------------------------------
  // Method-call chains

  /** The method calls of a chain `$a->b()->c()`, outermost first. */
  function Chain(e: Expr): (r: seq<Expr>)
    ensures e.MethodCall? ==> |r| > 0 && r[0] == e
    ensures !e.MethodCall? ==> r == []
  {
    if e.MethodCall? then [e] + Chain(e.target) else []
  }

  /**
   * The chain is the successive targets: every entry is a call, each one after
   * the first is the target of the one before, and the last one's target is
   * not a call (the walk stops there).
   */
  lemma {:induction false} ChainLinks(e: Expr)
    ensures forall k :: 0 <= k < |Chain(e)| ==> Chain(e)[k].MethodCall?
    ensures forall k :: 0 <= k < |Chain(e)| - 1 ==> Chain(e)[k + 1] == Chain(e)[k].target
    ensures |Chain(e)| > 0 ==> !Chain(e)[|Chain(e)| - 1].target.MethodCall?
    decreases e
  {
    if e.MethodCall? {
      ChainLinks(e.target);
      var rest := Chain(e.target);
      assert Chain(e) == [e] + rest;
      assert forall k :: 1 <= k < |Chain(e)| ==> Chain(e)[k] == rest[k - 1];
      if rest != [] {
        assert Chain(e)[1] == e.target;
      }
    }
  }

  /** The value one array item adds to a selection: its value when that is a string literal. */
  function ItemString(item: ArrayItem): seq<string> {
    if item.Item? && item.itemValue.StringLit? then [item.itemValue.str] else []
  }

  /** The string-literal values of an array literal's items, in order; keys are ignored. */
  function StringItems(items: seq<ArrayItem>): (r: seq<string>)
    ensures |r| <= |items|
  {
    if items == [] then [] else StringItems(items[..|items| - 1]) + ItemString(items[|items| - 1])
  }

  /** Only string-literal item values are kept, and all of them. */
  lemma {:induction false} StringItemsMembers(items: seq<ArrayItem>, s: string)
    ensures s in StringItems(items) <==> exists i :: 0 <= i < |items| && items[i].Item? && items[i].itemValue == StringLit(s)
    decreases |items|
  {
    if items != [] {
      var init := items[..|items| - 1];
      StringItemsMembers(init, s);
      assert forall i :: 0 <= i < |init| ==> init[i] == items[i];
    }
  }

  /** The order of the items is kept: the selection of a concatenation is the concatenation. */
  lemma {:induction false} StringItemsAppend(a: seq<ArrayItem>, b: seq<ArrayItem>)
    ensures StringItems(a + b) == StringItems(a) + StringItems(b)
    decreases |b|
  {
    if b == [] {
      assert a + b == a;
    } else {
      var b' := b[..|b| - 1];
      assert (a + b)[..|a + b| - 1] == a + b';
      StringItemsAppend(a, b');
    }
  }

  /**
   * What one call of a chain selects: `select([...])` gives the string items
   * of the array, `select('f')` gives `['f']`; any other call, or a `select`
   * with another kind of argument or none, selects nothing.
   */
  function SelectOf(call: Expr): (r: Option<seq<string>>)
    ensures r.Some? ==> call.MethodCall? && call.member == Ident("select") && ArgValue(call.args, 0).Some?
  {
    if call.MethodCall? && call.member == Ident("select") then
      match ArgValue(call.args, 0)
      case Some(ArrayLit(items)) => Some(StringItems(items))
      case Some(StringLit(f)) => Some([f])
      case _ => None
    else None
  }

  /**
   * What a `select` call's first argument yields, for any call: an array
   * literal gives its string items, a string literal gives itself, and any
   * other argument gives nothing.
   */
  lemma {:induction false} SelectOfArgument(t: Expr, args: seq<Arg>, items: seq<ArrayItem>, f: string)
    ensures ArgValue(args, 0) == Some(ArrayLit(items)) ==> SelectOf(MethodCall(t, Ident("select"), args)) == Some(StringItems(items))
    ensures ArgValue(args, 0) == Some(StringLit(f)) ==> SelectOf(MethodCall(t, Ident("select"), args)) == Some([f])
    ensures SelectOf(MethodCall(t, Ident("select"), args)).Some? ==> ArgValue(args, 0).value.ArrayLit? || ArgValue(args, 0).value.StringLit?
  {
  }

  /** What each call of a chain selects, outermost first. */
  function Selects(calls: seq<Expr>): seq<Option<seq<string>>> {
    Map(calls, SelectOf)
  }

  /** The selection a chain makes: that of its innermost recognised `select`. */
  function ChainSelection(e: Expr): Option<seq<string>> {
    LastSome(Selects(Chain(e)))
  }

  /**
   * A lone `select` call: `select([])` selects nothing but is still a
   * selection, `select('f')` selects `f`, and a `select` without argument is
   * not a selection.
   */
  lemma {:induction false} SelectAlone(t: Expr, f: string, items: seq<ArrayItem>)
    requires !t.MethodCall?
    ensures ChainSelection(MethodCall(t, Ident("select"), [Arg(ArrayLit([]))])) == Some([])
    ensures ChainSelection(MethodCall(t, Ident("select"), [Arg(StringLit(f))])) == Some([f])
    ensures ChainSelection(MethodCall(t, Ident("select"), [Arg(ArrayLit(items))])) == Some(StringItems(items))
    ensures ChainSelection(MethodCall(t, Ident("select"), [])) == None
  {
    forall args: seq<Arg> ensures Selects(Chain(MethodCall(t, Ident("select"), args))) == [SelectOf(MethodCall(t, Ident("select"), args))] {
      assert Chain(MethodCall(t, Ident("select"), args)) == [MethodCall(t, Ident("select"), args)];
    }
    var none: seq<Option<seq<string>>> := [None];
    assert none[..0] == [];
    assert LastSome(none) == None;
  }

  /**
   * A chain (`calls` being `Chain(e)`) selects something exactly when one of
   * its calls is a recognised `select`.
   */
  lemma {:induction false} SelectsNone(calls: seq<Expr>)
    ensures LastSome(Selects(calls)).None? <==> forall i :: 0 <= i < |calls| ==> SelectOf(calls[i]).None?
  {
    var xs := Selects(calls);
    LastSomeNone(xs);
    assert forall i :: 0 <= i < |calls| ==> xs[i] == SelectOf(calls[i]);
  }

  /** With several recognised `select` calls in a chain, the innermost one decides. */
  lemma {:induction false} ChainSelectionInnermost(e: Expr)
    requires ChainSelection(e).Some?
    ensures exists i :: 0 <= i < |Chain(e)| && SelectOf(Chain(e)[i]) == ChainSelection(e)
                        && forall j :: i < j < |Chain(e)| ==> SelectOf(Chain(e)[j]).None?
  {
    var c := Chain(e);
    var xs := Selects(c);
    LastSomeLatest(xs);
    var i :| 0 <= i < |xs| && xs[i] == LastSome(xs) && forall j :: i < j < |xs| ==> xs[j].None?;
    assert SelectOf(c[i]) == xs[i];
    forall j | i < j < |c| ensures SelectOf(c[j]).None? {
      assert xs[j] == SelectOf(c[j]);
    }
  }

  /** The item loop of `extractSelectedFieldsFromChain`. */
  method ArrayFields(items: seq<ArrayItem>) returns (fields: seq<string>)
    ensures fields == StringItems(items)
  {
    fields := [];
    var k := 0;
    while k < |items|
      invariant 0 <= k <= |items|
      invariant fields == StringItems(items[..k])
    {
      var item := items[k];
      if item.Item? && item.itemValue.StringLit? {
        fields := fields + [item.itemValue.str];
      }
      assert items[..k + 1][..k] == items[..k];
      k := k + 1;
    }
    assert items[..k] == items;
  }

  /** The loop body of `extractSelectedFieldsFromChain`: what one call of the chain selects. */
  method CallSelection(curr: Expr) returns (found: Option<seq<string>>)
    requires curr.MethodCall?
    ensures found == SelectOf(curr)
  {
    found := None;
    if curr.member == Ident("select") && |curr.args| > 0 && curr.args[0].Arg? {
      var value := curr.args[0].value;
      if value.ArrayLit? {
        var fields := ArrayFields(value.items);
        found := Some(fields);
      } else if value.StringLit? {
        found := Some([value.str]);
      }
    }
  }

  /**
   * `extractSelectedFieldsFromChain`: walks the chain from the outermost call
   * inwards; every recognised `select` overwrites the result, so the innermost
   * one wins.
   */
  method ExtractSelectedFieldsFromChain(call: Expr) returns (selected: Option<seq<string>>)
    requires call.MethodCall?
    ensures selected == ChainSelection(call)
  {
    selected := None;
    var curr := call;
    ghost var visited: seq<Expr> := [];
    while curr.MethodCall?
      invariant visited + Chain(curr) == Chain(call)
      invariant selected == LastSome(Selects(visited))
      decreases curr
    {
      var found := CallSelection(curr);
      if found.Some? {
        selected := found;
      }
      ghost var next := visited + [curr];
      assert next + Chain(curr.target) == visited + Chain(curr) by {
        assert Chain(curr) == [curr] + Chain(curr.target);
      }
      MapSnoc(visited, curr, SelectOf);
      LastSomeSnoc(Selects(visited), SelectOf(curr));
      visited := next;
      curr := curr.target;
    }
    assert visited == Chain(call);
  }

  // ---------------------------------------------------------------------------
  // Entity type inference

  predicate IsWordChar(c: char) {
    'A' <= c <= 'Z' || 'a' <= c <= 'z' || '0' <= c <= '9' || c == '_'
  }

  const EntitiesSegment := "\\Entities\\"

  predicate EndsWith(s: string, suffix: string) {
    |suffix| <= |s| && s[|s| - |suffix|..] == suffix
  }

  /** `preg_match('/\\\\Entities\\\\([A-Za-z0-9_]+)$/', $cn, $m)` succeeds with `$m[1] == w`. */
  ghost predicate MatchesEntityPattern(cn: string, w: string) {
    |w| > 0 && (forall i :: 0 <= i < |w| ==> IsWordChar(w[i])) && EndsWith(cn, EntitiesSegment + w)
  }

  /** The length of the run of word characters that ends `s`. */
  function TrailingWordLength(s: string): (n: nat)
    ensures n <= |s|
    ensures forall i :: |s| - n <= i < |s| ==> IsWordChar(s[i])
    ensures n < |s| ==> !IsWordChar(s[|s| - n - 1])
  {
    if |s| > 0 && IsWordChar(s[|s| - 1]) then
      var n := TrailingWordLength(s[..|s| - 1]);
      assert forall i :: 0 <= i < |s| - 1 ==> s[..|s| - 1][i] == s[i];
      n + 1
    else 0
  }

  /** The entity type a class name designates: `Foo\Entities\Account` gives `Account`. */
  function EntityTypeOfClass(cn: string): (r: Option<string>)
    ensures r.Some? ==> MatchesEntityPattern(cn, r.value)
  {
    var n := TrailingWordLength(cn);
    var w := cn[|cn| - n..];
    if n > 0 && EndsWith(cn[..|cn| - n], EntitiesSegment) then
      assert cn == cn[..|cn| - n] + w;
      assert cn[|cn| - |EntitiesSegment + w|..] == (cn[..|cn| - n])[|cn| - n - |EntitiesSegment|..] + w;
      Some(w)
    else None
  }

  /** The class-name match is exactly the pattern: it finds every match, and the only one. */
  lemma {:induction false} EntityTypeOfClassComplete(cn: string, w: string)
    requires MatchesEntityPattern(cn, w)
    ensures EntityTypeOfClass(cn) == Some(w)
  {
    var n := TrailingWordLength(cn);
    var m := |w|;
    assert cn[|cn| - m..] == w by {
      assert cn[|cn| - m..] == cn[|cn| - |EntitiesSegment + w|..][|EntitiesSegment|..];
    }
    assert cn[|cn| - m - 1] == '\\' by {
      assert cn[|cn| - m - 1] == cn[|cn| - |EntitiesSegment + w|..][|EntitiesSegment| - 1];
    }
    assert n == m;
    assert cn[..|cn| - n][|cn| - n - |EntitiesSegment|..] == cn[|cn| - |EntitiesSegment + w|..][..|EntitiesSegment|];
  }

  /** What one call of a chain says about the entity type: `getRepository(X::class)` and the like. */
  function RepositoryTypeOf(call: Expr): (r: Option<string>)
    ensures r.Some? ==> call.MethodCall?
    ensures r.Some? ==> call.member == Ident("getRDBRepositoryByClass") || call.member == Ident("getRepository")
    ensures r.Some? ==> ArgValue(call.args, 0).Some? && ArgValue(call.args, 0).value.ClassConstFetch?
                        && ArgValue(call.args, 0).value.cls.ClassName?
                        && r == EntityTypeOfClass(ArgValue(call.args, 0).value.cls.className)
    ensures (call.MethodCall? && (call.member == Ident("getRDBRepositoryByClass") || call.member == Ident("getRepository"))
             && ArgValue(call.args, 0).Some? && ArgValue(call.args, 0).value.ClassConstFetch?
             && ArgValue(call.args, 0).value.cls.ClassName?)
              ==> r == EntityTypeOfClass(ArgValue(call.args, 0).value.cls.className)
  {
    if call.MethodCall? && (call.member == Ident("getRDBRepositoryByClass") || call.member == Ident("getRepository")) then
      match ArgValue(call.args, 0)
      case Some(ClassConstFetch(ClassName(cn), _)) => EntityTypeOfClass(cn)
      case _ => None
    else None
  }

  /** What each call of a chain says about the entity type, outermost first. */
  function RepositoryTypes(calls: seq<Expr>): seq<Option<string>> {
    Map(calls, RepositoryTypeOf)
  }

  /** The entity type a chain yields: that of its outermost repository lookup that names one. */
  function ChainEntityType(e: Expr): Option<string> {
    FirstSome(RepositoryTypes(Chain(e)))
  }

  /**
   * A chain (`calls` being `Chain(e)`) yields an entity type exactly when one
   * of its calls is a repository lookup naming one.
   */
  lemma {:induction false} RepositoryTypesNone(calls: seq<Expr>)
    ensures FirstSome(RepositoryTypes(calls)).None? <==> forall i :: 0 <= i < |calls| ==> RepositoryTypeOf(calls[i]).None?
  {
    var xs := RepositoryTypes(calls);
    FirstSomeNone(xs);
    assert forall i :: 0 <= i < |calls| ==> xs[i] == RepositoryTypeOf(calls[i]);
  }

  /** The chain's entity type comes from its outermost repository lookup that names one. */
  lemma {:induction false} ChainEntityTypeOutermost(e: Expr)
    requires ChainEntityType(e).Some?
    ensures exists i :: 0 <= i < |Chain(e)| && RepositoryTypeOf(Chain(e)[i]) == ChainEntityType(e)
                        && forall j :: 0 <= j < i ==> RepositoryTypeOf(Chain(e)[j]).None?
  {
    var c := Chain(e);
    var xs := RepositoryTypes(c);
    FirstSomeEarliest(xs);
    var i :| 0 <= i < |xs| && xs[i] == FirstSome(xs) && forall j :: 0 <= j < i ==> xs[j].None?;
    assert RepositoryTypeOf(c[i]) == xs[i];
    forall j | 0 <= j < i ensures RepositoryTypeOf(c[j]).None? {
      assert xs[j] == RepositoryTypeOf(c[j]);
    }
  }

  /** A chain's entity type is that of its outermost call, or else that of the rest of the chain. */
  lemma {:induction false} ChainEntityTypeStep(e: Expr)
    requires e.MethodCall?
    ensures ChainEntityType(e) == if RepositoryTypeOf(e).Some? then RepositoryTypeOf(e) else ChainEntityType(e.target)
  {
    MapCons(e, Chain(e.target), RepositoryTypeOf);
    assert Chain(e) == [e] + Chain(e.target);
    assert RepositoryTypes(Chain(e))[1..] == RepositoryTypes(Chain(e.target));
  }

  /** `inferEntityTypeFromChain`: walks the chain outside-in and returns the first hit. */
  method InferEntityTypeFromChain(call: Expr) returns (entityType: Option<string>)
    requires call.MethodCall?
    ensures entityType == ChainEntityType(call)
  {
    var curr := call;
    while curr.MethodCall?
      invariant ChainEntityType(curr) == ChainEntityType(call)
      decreases curr
    {
      var hit: Option<string> := None;
      if curr.member == Ident("getRDBRepositoryByClass") || curr.member == Ident("getRepository") {
        if |curr.args| > 0 && curr.args[0].Arg? {
          var val := curr.args[0].value;
          if val.ClassConstFetch? && val.cls.ClassName? {
            hit := EntityTypeOfClass(val.cls.className);
          }
        }
      }
      assert hit == RepositoryTypeOf(curr);
      ChainEntityTypeStep(curr);
      if hit.Some? {
        return hit;
      }
      curr := curr.target;
    }
    return None;
  }

  /**
   * `$em->getRepository(X::class)->where(...)`: the lookup's class constant
   * decides, and a class in an `Entities` namespace gives its short name.
   */
  lemma {:induction false} RepositoryLookupInfers(t: Expr, lookup: string, cn: string, k: MemberName, outer: string, args: seq<Arg>, w: string)
    requires !t.MethodCall?
    requires lookup == "getRepository" || lookup == "getRDBRepositoryByClass"
    requires outer != "getRepository" && outer != "getRDBRepositoryByClass"
    requires MatchesEntityPattern(cn, w)
    ensures ChainEntityType(MethodCall(MethodCall(t, Ident(lookup), [Arg(ClassConstFetch(ClassName(cn), k))]), Ident(outer), args)) == Some(w)
  {
    var inner := MethodCall(t, Ident(lookup), [Arg(ClassConstFetch(ClassName(cn), k))]);
    var e := MethodCall(inner, Ident(outer), args);
    EntityTypeOfClassComplete(cn, w);
    assert RepositoryTypeOf(inner) == Some(w);
    assert RepositoryTypeOf(e) == None;
    ChainEntityTypeStep(e);
    ChainEntityTypeStep(inner);
  }

  /** The entity type each of a variable's class names designates, in order. */
  function ClassEntityTypes(classNames: seq<string>): seq<Option<string>> {
    Map(classNames, EntityTypeOfClass)
  }

  /**
   * `inferEntityTypeFromVarType`: the entity type of the first of the
   * variable's static class names that lies in an `Entities` namespace.
   */
  method InferEntityTypeFromVarType(classNames: seq<string>) returns (entityType: Option<string>)
    ensures entityType == FirstSome(ClassEntityTypes(classNames))
    ensures entityType.Some? ==> exists i :: 0 <= i < |classNames| && MatchesEntityPattern(classNames[i], entityType.value)
  {
    ghost var hits := ClassEntityTypes(classNames);
    var i := 0;
    while i < |classNames|
      invariant 0 <= i <= |classNames|
      invariant FirstSome(hits[..i]) == None
    {
      var m := EntityTypeOfClass(classNames[i]);
      assert hits[..i + 1] == hits[..i] + [m];
      FirstSomeSnoc(hits[..i], m);
      if m.Some? {
        FirstSomePrefix(hits, i + 1);
        return m;
      }
      i := i + 1;
    }
    assert hits[..i] == hits;
    return None;
  }

  // ---------------------------------------------------------------------------
  // Fields the hooks of an entity type read

  /** The string literal passed as first argument of a method call, if any. */
  function FirstStringArg(n: Expr): Option<string> {
    if n.MethodCall? then
      match ArgValue(n.args, 0)
      case Some(StringLit(f)) => Some(f)
      case _ => None
    else None
  }

  /** `$param->get('f')`, `$param->getValue('f')` or `$param->has('f')`: a read of field `f`. */
  predicate IsFieldRead(n: Expr, param: string) {
    && n.MethodCall?
    && VarNameOf(n.target) == Some(param)
    && n.member in {Ident("get"), Ident("getValue"), Ident("has")}
    && FirstStringArg(n).Some?
  }

  /** The field names of a list of reads, in order. */
  function ReadNames(found: seq<Expr>): seq<string> {
    if found == [] then []
    else ReadNames(found[..|found| - 1]) + (match FirstStringArg(found[|found| - 1]) case Some(f) => [f] case None => [])
  }

  /** The first parameter's name of a save hook that has a body; the hook found the entity through it. */
  function HookEntityParam(m: ClassMethod): Option<string> {
    if IsSaveHook(m.name) && |m.params| > 0 && VarNameOf(m.params[0].paramVar).Some? && m.stmts.Some?
    then VarNameOf(m.params[0].paramVar)
    else None
  }

  /** The fields one hook method reads from its entity parameter, in visiting order. */
  function HookReads(m: ClassMethod): seq<string> {
    match HookEntityParam(m)
    case None => []
    case Some(p) => ReadNames(Find(BodyNodes(m.stmts.value), n => IsFieldRead(n, p)))
  }

  function MethodsReads(methods: seq<ClassMethod>): seq<string> {
    Flatten(methods, HookReads)
  }

  function FilesReads(files: seq<seq<ClassMethod>>): seq<string> {
    Flatten(files, MethodsReads)
  }

  /** The names of a list of reads are exactly the string first arguments among them. */
  lemma {:induction false} ReadNamesMembers(found: seq<Expr>, f: string)
    ensures f in ReadNames(found) <==> exists n :: n in found && FirstStringArg(n) == Some(f)
    decreases |found|
  {
    if found != [] {
      var init := found[..|found| - 1];
      ReadNamesMembers(init, f);
      assert found == init + [found[|found| - 1]];
    }
  }

  /**
   * A hook reads `f` exactly when it is a save hook with a body and a plain
   * first parameter `$p`, and its body, at any depth, calls `$p->get('f')`,
   * `$p->getValue('f')` or `$p->has('f')`.
   */
  lemma {:induction false} HookReadsSpec(m: ClassMethod, f: string)
    ensures f in HookReads(m) <==>
              && HookEntityParam(m).Some?
              && exists n :: n in BodyNodes(m.stmts.value) && IsFieldRead(n, HookEntityParam(m).value)
                             && FirstStringArg(n) == Some(f)
  {
    if HookEntityParam(m).Some? {
      var p := HookEntityParam(m).value;
      var found := Find(BodyNodes(m.stmts.value), n => IsFieldRead(n, p));
      ReadNamesMembers(found, f);
    }
  }

  lemma {:induction false} MethodsReadsMembers(methods: seq<ClassMethod>, f: string)
    ensures f in MethodsReads(methods) <==> exists m :: m in methods && f in HookReads(m)
    decreases |methods|
  {
    FlattenMembers(methods, HookReads, f);
  }

  lemma {:induction false} FilesReadsMembers(files: seq<seq<ClassMethod>>, f: string)
    ensures f in FilesReads(files) <==> exists ms :: ms in files && f in MethodsReads(ms)
    decreases |files|
  {
    FlattenMembers(files, MethodsReads, f);
  }

  predicate NoDuplicates(xs: seq<string>) {
    forall i, j :: 0 <= i < j < |xs| ==> xs[i] != xs[j]
  }

  /** `array_values(array_unique($xs))`: the first occurrence of each value, in order. */
  function Unique(xs: seq<string>): (r: seq<string>)
    ensures forall x :: x in r <==> x in xs
    ensures NoDuplicates(r)
  {
    if xs == [] then []
    else
      var u := Unique(xs[..|xs| - 1]);
      var x := xs[|xs| - 1];
      assert forall y :: y in xs <==> y in xs[..|xs| - 1] || y == x;
      if x in u then u else u + [x]
  }

  /** The index of the first occurrence of `x` in `xs`. */
  function FirstIndex(xs: seq<string>, x: string): (k: nat)
    requires x in xs
    ensures k < |xs| && xs[k] == x && x !in xs[..k]
  {
    if xs[0] == x then 0
    else
      var k := FirstIndex(xs[1..], x) + 1;
      assert xs[..k] == [xs[0]] + xs[1..][..k - 1];
      k
  }

  /** The first index is the only index holding `x` with no earlier `x`. */
  lemma {:induction false} FirstIndexUnique(xs: seq<string>, x: string, a: nat)
    requires a < |xs| && xs[a] == x
    requires forall i :: 0 <= i < a ==> xs[i] != x
    ensures FirstIndex(xs, x) == a
  {
    var k := FirstIndex(xs, x);
    forall i | 0 <= i < k ensures xs[i] != x {
      assert xs[..k][i] == xs[i];
    }
  }

  lemma {:induction false} FirstIndexPrefix(xs: seq<string>, x: string, y: string)
    requires y in xs
    ensures FirstIndex(xs + [x], y) == FirstIndex(xs, y)
  {
    var k := FirstIndex(xs, y);
    forall i | 0 <= i < k ensures (xs + [x])[i] != y {
      assert xs[..k][i] == xs[i];
    }
    FirstIndexUnique(xs + [x], y, k);
  }

  /** Unique keeps values in the order of their first occurrence. */
  lemma {:induction false} UniqueOrder(xs: seq<string>)
    ensures forall i, j :: 0 <= i < j < |Unique(xs)| ==> FirstIndex(xs, Unique(xs)[i]) < FirstIndex(xs, Unique(xs)[j])
    decreases |xs|
  {
    if xs != [] {
      var init := xs[..|xs| - 1];
      var x := xs[|xs| - 1];
      var u := Unique(init);
      UniqueOrder(init);
      assert xs == init + [x];
      forall y | y in init ensures FirstIndex(xs, y) == FirstIndex(init, y) {
        FirstIndexPrefix(init, x, y);
      }
      if x !in u {
        forall i | 0 <= i < |init| ensures xs[i] != x {
          assert xs[i] == init[i];
        }
        FirstIndexUnique(xs, x, |init|);
        forall i | 0 <= i < |u| ensures FirstIndex(xs, u[i]) < |init| {
          assert u[i] in init;
          FirstIndexPrefix(init, x, u[i]);
        }
      }
    }
  }

  /**
   * The hook directory of an entity type: the path up to the first
   * `/src/backend/`, then `/src/backend/Hooks/<EntityType>`.
   */
  function HooksDir(path: string, entityType: string): (r: Option<string>)
    ensures r.Some? <==> Contains(path, BackendLayer)
    ensures r.Some? ==> exists k: nat :: k <= |path| && OccursAt(path, BackendLayer, k)
                                    && (forall j: nat :: j < k ==> !OccursAt(path, BackendLayer, j))
                                    && r.value == path[..k] + HooksLayer + entityType
  {
    match IndexOf(path, BackendLayer)
    case None => None
    case Some(pos) => Some(path[..pos] + HooksLayer + entityType)
  }

  /**
   * The fields the save hooks of `entityType` read from their entity,
   * without repeats; none when the hook directory does not exist.
   */
  function RequiredFields(path: string, entityType: string, hookDirs: HookDirs): seq<string> {
    match HooksDir(path, entityType)
    case None => []
    case Some(dir) => if dir in hookDirs then Unique(FilesReads(hookDirs[dir])) else []
  }

  /** The body of the per-method step of `collectHookRequiredFields`. */
  method HookMethodReads(m: ClassMethod) returns (fields: seq<string>)
    ensures fields == HookReads(m)
  {
    fields := [];
    if IsSaveHook(m.name) && |m.params| > 0 && VarNameOf(m.params[0].paramVar).Some? && m.stmts.Some? {
      var paramName := VarNameOf(m.params[0].paramVar).value;
      var found := Find(BodyNodes(m.stmts.value), n => IsFieldRead(n, paramName));
      var k := 0;
      while k < |found|
        invariant 0 <= k <= |found|
        invariant fields == ReadNames(found[..k])
      {
        var r := found[k];
        if r.MethodCall? && |r.args| > 0 && r.args[0].Arg? && r.args[0].value.StringLit? {
          fields := fields + [r.args[0].value.str];
        }
        assert found[..k + 1][..k] == found[..k];
        k := k + 1;
      }
      assert found[..k] == found;
    }
  }

  /**
   * A field is required exactly when the hook directory exists and one of
   * its files has a hook method that reads it; each appears once.
   */
  lemma {:induction false} RequiredFieldsSpec(path: string, entityType: string, hookDirs: HookDirs, f: string)
    ensures NoDuplicates(RequiredFields(path, entityType, hookDirs))
    ensures f in RequiredFields(path, entityType, hookDirs) <==>
              && HooksDir(path, entityType).Some? && HooksDir(path, entityType).value in hookDirs
              && exists ms, m :: ms in hookDirs[HooksDir(path, entityType).value] && m in ms && f in HookReads(m)
  {
    var dir := HooksDir(path, entityType);
    if dir.Some? && dir.value in hookDirs {
      var files := hookDirs[dir.value];
      FilesReadsMembers(files, f);
      forall ms | ms in files {
        MethodsReadsMembers(ms, f);
      }
    }
  }

  /**
   * `collectHookRequiredFields`: every `afterSave`/`beforeSave` method of every
   * file in the entity type's hook directory, every read of its entity
   * parameter in visiting order, duplicates dropped.
   */
  method CollectHookRequiredFields(contextFilePath: string, entityType: string, hookDirs: HookDirs)
    returns (required: seq<string>)
    ensures required == RequiredFields(contextFilePath, entityType, hookDirs)
  {
    var backendPos := IndexOf(contextFilePath, BackendLayer);
    if backendPos.None? {
      return [];
    }
    var moduleRoot := contextFilePath[..backendPos.value];
    var hooksDir := moduleRoot + HooksLayer + entityType;
    assert HooksDir(contextFilePath, entityType) == Some(hooksDir);
    if hooksDir !in hookDirs {
      return [];
    }
    var files := hookDirs[hooksDir];
    var collected: seq<string> := [];
    var i := 0;
    while i < |files|
      invariant 0 <= i <= |files|
      invariant collected == FilesReads(files[..i])
    {
      var fields := FileReads(files[i]);
      collected := collected + fields;
      assert files[..i + 1][..i] == files[..i];
      i := i + 1;
    }
    assert files[..i] == files;
    required := Unique(collected);
  }

  /** The reads of every hook method of one file, in order. */
  method FileReads(methods: seq<ClassMethod>) returns (fields: seq<string>)
    ensures fields == MethodsReads(methods)
  {
    fields := [];
    var j := 0;
    while j < |methods|
      invariant 0 <= j <= |methods|
      invariant fields == MethodsReads(methods[..j])
    {
      var hookFields := HookMethodReads(methods[j]);
      fields := fields + hookFields;
      assert methods[..j + 1][..j] == methods[..j];
      j := j + 1;
    }
    assert methods[..j] == methods;
  }

  // ---------------------------------------------------------------------------
  // Missing fields and the message

  /** The required fields that are neither selected nor the identity field, in required order. */
  function Missing(required: seq<string>, selected: seq<string>): (r: seq<string>)
    ensures |r| <= |required|
  {
    if required == [] then []
    else
      var f := required[|required| - 1];
      Missing(required[..|required| - 1], selected) + (if f !in selected && f != IdField then [f] else [])
  }

  /** A field is missing exactly when it is required, not selected and not `id`. */
  lemma {:induction false} MissingMembers(required: seq<string>, selected: seq<string>, f: string)
    ensures f in Missing(required, selected) <==> f in required && f !in selected && f != IdField
    decreases |required|
  {
    if required != [] {
      var init := required[..|required| - 1];
      MissingMembers(init, selected, f);
      assert required == init + [required[|required| - 1]];
    }
  }

  /** Missing keeps the order of the required list: it distributes over concatenation. */
  lemma {:induction false} MissingAppend(a: seq<string>, b: seq<string>, selected: seq<string>)
    ensures Missing(a + b, selected) == Missing(a, selected) + Missing(b, selected)
    decreases |b|
  {
    if b == [] {
      assert a + b == a;
    } else {
      var b' := b[..|b| - 1];
      assert (a + b)[..|a + b| - 1] == a + b';
      MissingAppend(a, b', selected);
    }
  }

  /** The missing-field loop of `processNode`, over `selected ∪ {id}`. */
  method MissingFields(requiredFields: seq<string>, selectedFields: seq<string>) returns (missing: seq<string>)
    ensures missing == Missing(requiredFields, selectedFields)
  {
    var selectedSet := (set f | f in selectedFields) + {IdField};
    missing := [];
    var i := 0;
    while i < |requiredFields|
      invariant 0 <= i <= |requiredFields|
      invariant missing == Missing(requiredFields[..i], selectedFields)
    {
      var f := requiredFields[i];
      if f !in selectedSet {
        missing := missing + [f];
      }
      assert requiredFields[..i + 1][..i] == requiredFields[..i];
      i := i + 1;
    }
    assert requiredFields[..i] == requiredFields;
  }

  /** `array_slice($missing, 0, 5)`: the names a message lists. */
  function Listed(missing: seq<string>): (r: seq<string>)
    ensures |r| <= MaxListed
    ensures r <= missing
    ensures |missing| <= MaxListed ==> r == missing
  {
    if |missing| <= MaxListed then missing else missing[..MaxListed]
  }

  // The fixed text of the message around the entity type and the field list.
  // Each constant is the message's literal text; the longer two are written as
  // short phrases because the verifier checks a long literal character by
  // character only at great cost (`MidPlain`, `AdvicePlain` below).
  const MessageLead := "Saving partially-loaded "
  const MessageMid := " without skipHooks/silent" + " may break hooks;" + " missing fields: "
  const MessageAdvice := ". Add fields to select()" + " or pass SaveOptions" + " with skipHooks=true or silent=true."

  /** The horizontal ellipsis that closes the list when names were left out. */
  const EllipsisChar := '\U{2026}'

  /** `, …` when more names are missing than the message lists. */
  function Truncation(missing: seq<string>): string {
    if |missing| > MaxListed then [',', ' ', EllipsisChar] else ""
  }

  /** The message for a save of `entityType` that leaves out `missing` fields. */
  function SaveMessage(entityType: string, missing: seq<string>): string {
    MessageLead + entityType + MessageMid + Join(Listed(missing), ", ") + Truncation(missing) + MessageAdvice
  }

  /** The message names the entity type and each of the first five missing fields. */
  lemma {:induction false} SaveMessageNames(entityType: string, missing: seq<string>, i: nat)
    requires i < |missing| && i < MaxListed
    ensures Contains(SaveMessage(entityType, missing), entityType)
    ensures Contains(SaveMessage(entityType, missing), missing[i])
  {
    var listed := Listed(missing);
    assert listed[i] == missing[i];
    PartsNamed(MessageLead, entityType, MessageMid, listed, ", ", Truncation(missing), MessageAdvice, i);
  }

  /** Both the text between `lead` and `mid` and every joined part occur in a message of this shape. */
  lemma {:induction false} PartsNamed(lead: string, t: string, mid: string, parts: seq<string>, sep: string,
                   trunc: string, advice: string, i: nat)
    requires i < |parts|
    ensures Contains(lead + t + mid + Join(parts, sep) + trunc + advice, t)
    ensures Contains(lead + t + mid + Join(parts, sep) + trunc + advice, parts[i])
  {
    var joined := Join(parts, sep);
    ContainsSelf(t);
    ContainsPrepend(lead, t, t);
    ContainsAppend(lead + t, mid, t);
    ContainsAppend(lead + t + mid, joined, t);
    ContainsAppend(lead + t + mid + joined, trunc, t);
    ContainsAppend(lead + t + mid + joined + trunc, advice, t);
    JoinHasPart(parts, sep, i);
    var pre, post :| joined == pre + parts[i] + post;
    ContainsMiddle(pre, parts[i], post);
    ContainsPrepend(lead + t + mid, joined, parts[i]);
    ContainsAppend(lead + t + mid + joined, trunc, parts[i]);
    ContainsAppend(lead + t + mid + joined + trunc, advice, parts[i]);
  }

  /** Every part of a join appears in it whole. */
  lemma {:induction false} JoinHasPart(parts: seq<string>, sep: string, i: nat)
    requires i < |parts|
    ensures exists pre, post :: Join(parts, sep) == pre + parts[i] + post
    decreases |parts|
  {
    if |parts| == 1 {
      assert Join(parts, sep) == [] + parts[0] + [];
    } else if i == 0 {
      assert Join(parts, sep) == [] + parts[0] + (sep + Join(parts[1..], sep));
    } else {
      JoinHasPart(parts[1..], sep, i - 1);
      var pre, post :| Join(parts[1..], sep) == pre + parts[1..][i - 1] + post;
      assert Join(parts, sep) == (parts[0] + sep + pre) + parts[i] + post;
    }
  }

  /** A character in neither the separator nor any part is not in the join. */
  lemma {:induction false} JoinFree(parts: seq<string>, sep: string, c: char)
    requires c !in sep && forall p :: p in parts ==> c !in p
    ensures c !in Join(parts, sep)
    decreases |parts|
  {
    if |parts| > 1 {
      assert forall p :: p in parts[1..] ==> p in parts;
      JoinFree(parts[1..], sep, c);
      assert Join(parts, sep) == parts[0] + sep + Join(parts[1..], sep);
    }
  }

  /** The fixed parts of the message hold no ellipsis. */
  lemma {:induction false} FixedTextPlain()
    ensures EllipsisChar !in MessageLead && EllipsisChar !in MessageMid
    ensures EllipsisChar !in MessageAdvice && EllipsisChar !in ", "
  {
    LeadPlain();
    MidPlain();
    AdvicePlain();
  }

  lemma {:induction false} LeadPlain() ensures EllipsisChar !in MessageLead {}
  lemma {:induction false} MidPlain() ensures EllipsisChar !in MessageMid {}
  lemma {:induction false} AdvicePlain() ensures EllipsisChar !in MessageAdvice {}

  /**
   * When neither the entity type nor any field name contains an ellipsis,
   * the message holds one exactly when more than five fields are missing.
   */
  lemma {:induction false} EllipsisIffTruncated(entityType: string, missing: seq<string>)
    requires EllipsisChar !in entityType
    requires forall f :: f in missing ==> EllipsisChar !in f
    ensures EllipsisChar in SaveMessage(entityType, missing) <==> |missing| > MaxListed
  {
    var listed := Listed(missing);
    var head := MessageLead + entityType + MessageMid + Join(listed, ", ");
    assert forall p :: p in listed ==> p in missing;
    JoinFree(listed, ", ", EllipsisChar);
    FixedTextPlain();
    CharNotInConcat(MessageLead, entityType, MessageMid, Join(listed, ", "), EllipsisChar);
    assert SaveMessage(entityType, missing) == head + Truncation(missing) + MessageAdvice;
    assert EllipsisChar in Truncation(missing) <==> |missing| > MaxListed;
  }

  lemma {:induction false} CharNotInConcat(a: string, b: string, c: string, d: string, ch: char)
    requires ch !in a && ch !in b && ch !in c && ch !in d
    ensures ch !in a + b + c + d
  {
  }

  // ---------------------------------------------------------------------------
  // Variable tracking

  /** `<target> = <method call>`: the assignments the first finder of `processNode` collects. */
  predicate IsCallAssign(n: Expr) {
    n.Assign? && n.rhs.MethodCall?
  }

  /** Whether assignment `a` records `f` of its chain for variable `v`. */
  predicate Records<T>(a: Expr, f: Expr -> Option<T>, v: string) {
    IsCallAssign(a) && VarNameOf(a.lhs) == Some(v) && f(a.rhs).Some?
  }

  /**
   * The dictionary filled by the assignment loop of `processNode`: an
   * assignment whose chain yields a value overwrites the variable's entry,
   * one that yields nothing leaves it alone.
   */
  function Recorded<T>(assigns: seq<Expr>, f: Expr -> Option<T>): map<string, T> {
    if assigns == [] then map[]
    else RecordStep(Recorded(assigns[..|assigns| - 1], f), assigns[|assigns| - 1], f)
  }

  /** The effect of one assignment on the dictionary. */
  function RecordStep<T>(before: map<string, T>, a: Expr, f: Expr -> Option<T>): map<string, T> {
    if IsCallAssign(a) && VarNameOf(a.lhs).Some? && f(a.rhs).Some?
    then before[VarNameOf(a.lhs).value := f(a.rhs).value]
    else before
  }

  /** A variable has an entry exactly when some assignment records it. */
  lemma {:induction false} RecordedHas<T>(assigns: seq<Expr>, f: Expr -> Option<T>, v: string)
    ensures v in Recorded(assigns, f) <==> exists i :: 0 <= i < |assigns| && Records(assigns[i], f, v)
    decreases |assigns|
  {
    if assigns != [] {
      var init := assigns[..|assigns| - 1];
      var a := assigns[|assigns| - 1];
      RecordedHas(init, f, v);
      if v in Recorded(assigns, f) && !Records(a, f, v) {
        var i :| 0 <= i < |init| && Records(init[i], f, v);
        assert assigns[i] == init[i];
      }
      if exists i :: 0 <= i < |assigns| && Records(assigns[i], f, v) {
        var i :| 0 <= i < |assigns| && Records(assigns[i], f, v);
        if i < |init| {
          assert init[i] == assigns[i];
        }
      }
    }
  }

  /**
   * The entry of a variable comes from the last assignment that records it:
   * a later recording assignment overwrites an earlier one, and assignments
   * that record nothing leave it alone.
   */
  lemma {:induction false} RecordedLast<T>(assigns: seq<Expr>, f: Expr -> Option<T>, v: string, i: nat)
    requires i < |assigns| && Records(assigns[i], f, v)
    requires forall j :: i < j < |assigns| ==> !Records(assigns[j], f, v)
    ensures v in Recorded(assigns, f) && Recorded(assigns, f)[v] == f(assigns[i].rhs).value
    decreases |assigns|
  {
    if i < |assigns| - 1 {
      var init := assigns[..|assigns| - 1];
      assert init[i] == assigns[i];
      forall j | i < j < |init| ensures !Records(init[j], f, v) {
        assert init[j] == assigns[j];
      }
      RecordedLast(init, f, v, i);
    }
  }

  // ---------------------------------------------------------------------------
  // Save calls and errors

  /** The class names the scope gives for a variable's type; none when it is not an object. */
  type ScopeTypes = map<string, seq<string>>

  function ScopeClasses(scopeTypes: ScopeTypes, v: string): seq<string> {
    if v in scopeTypes then scopeTypes[v] else []
  }

  /** The entity type of a saved variable: from its declared type first, else from its assignment chain. */
  function ResolvedEntityType(v: string, scopeTypes: ScopeTypes, chainTypes: map<string, string>): (r: Option<string>)
    ensures FirstSome(ClassEntityTypes(ScopeClasses(scopeTypes, v))).Some? ==> r == FirstSome(ClassEntityTypes(ScopeClasses(scopeTypes, v)))
    ensures r.None? <==> FirstSome(ClassEntityTypes(ScopeClasses(scopeTypes, v))).None? && v !in chainTypes
    ensures FirstSome(ClassEntityTypes(ScopeClasses(scopeTypes, v))).None? && v in chainTypes ==> r == Some(chainTypes[v])
  {
    match FirstSome(ClassEntityTypes(ScopeClasses(scopeTypes, v)))
    case Some(t) => Some(t)
    case None => if v in chainTypes then Some(chainTypes[v]) else None
  }

  /** The variable a `saveEntity($var)` call without options saves, if the call is one. */
  function SavedVar(call: Expr): (r: Option<string>)
    ensures r.Some? ==> call.MethodCall? && call.member == Ident("saveEntity") && |call.args| == 1
    ensures r.Some? ==> ArgValue(call.args, 0) == Some(Variable(Named(r.value)))
    ensures (call.MethodCall? && call.member == Ident("saveEntity") && |call.args| == 1
             && ArgValue(call.args, 0).Some? && ArgValue(call.args, 0).value.Variable?
             && ArgValue(call.args, 0).value.varName.Named?)
              ==> r == Some(ArgValue(call.args, 0).value.varName.varId)
  {
    if call.MethodCall? && call.member == Ident("saveEntity") then
      match ArgValue(call.args, 0)
      case Some(Variable(Named(v))) => if |call.args| > 1 then None else Some(v)
      case _ => None
    else None
  }

  /** The error one method call yields, given the recorded selections and chain entity types. */
  function CallError(call: Expr, path: string, selections: map<string, seq<string>>,
                     chainTypes: map<string, string>, scopeTypes: ScopeTypes, hookDirs: HookDirs): Option<string>
  {
    match SavedVar(call)
    case None => None
    case Some(v) =>
      if v !in selections then None
      else match ResolvedEntityType(v, scopeTypes, chainTypes)
        case None => None
        case Some(t) =>
          var missing := Missing(RequiredFields(path, t, hookDirs), selections[v]);
          if missing == [] then None else Some(SaveMessage(t, missing))
  }

  /**
   * A call errs exactly when it is an option-less `saveEntity($v)`, `$v` has a
   * recorded selection, an entity type is known, and some field its hooks
   * read is neither selected nor `id`; the message then names that type and
   * the missing fields.
   */
  lemma {:induction false} CallErrorSpec(call: Expr, path: string, selections: map<string, seq<string>>,
                      chainTypes: map<string, string>, scopeTypes: ScopeTypes, hookDirs: HookDirs)
    ensures CallError(call, path, selections, chainTypes, scopeTypes, hookDirs).Some? <==>
              && call.MethodCall? && call.member == Ident("saveEntity") && |call.args| == 1
              && SavedVar(call).Some? && SavedVar(call).value in selections
              && ResolvedEntityType(SavedVar(call).value, scopeTypes, chainTypes).Some?
              && exists f :: f in RequiredFields(path, ResolvedEntityType(SavedVar(call).value, scopeTypes, chainTypes).value, hookDirs)
                             && f !in selections[SavedVar(call).value] && f != IdField
  {
    var v := SavedVar(call);
    if v.Some? && v.value in selections {
      var t := ResolvedEntityType(v.value, scopeTypes, chainTypes);
      if t.Some? {
        var req := RequiredFields(path, t.value, hookDirs);
        var missing := Missing(req, selections[v.value]);
        if missing != [] {
          MissingMembers(req, selections[v.value], missing[0]);
        } else {
          forall f | f in req && f !in selections[v.value] ensures f == IdField {
            MissingMembers(req, selections[v.value], f);
          }
        }
      }
    }
  }

  /** The check of one call with everything but the call fixed. */
  function CallCheck(path: string, selections: map<string, seq<string>>, chainTypes: map<string, string>,
                     scopeTypes: ScopeTypes, hookDirs: HookDirs): (check: Expr -> Option<string>)
    ensures forall call :: check(call) == CallError(call, path, selections, chainTypes, scopeTypes, hookDirs)
  {
    call => CallError(call, path, selections, chainTypes, scopeTypes, hookDirs)
  }

  /** The errors of the save loop: what `check` reports for each call, in visiting order. */
  function CallErrors(calls: seq<Expr>, check: Expr -> Option<string>): (r: seq<string>)
    ensures |r| <= |calls|
  {
    if calls == [] then []
    else CallErrors(calls[..|calls| - 1], check) + Reported(check(calls[|calls| - 1]))
  }

  /** The messages one call adds to the report. */
  function Reported(error: Option<string>): seq<string> {
    match error
    case Some(msg) => [msg]
    case None => []
  }

  /** The save loop reports calls in visiting order: the errors of a concatenation are concatenated. */
  lemma {:induction false} CallErrorsAppend(a: seq<Expr>, b: seq<Expr>, check: Expr -> Option<string>)
    ensures CallErrors(a + b, check) == CallErrors(a, check) + CallErrors(b, check)
    decreases |b|
  {
    if b == [] {
      assert a + b == a;
    } else {
      var b' := b[..|b| - 1];
      assert (a + b)[..|a + b| - 1] == a + b';
      CallErrorsAppend(a, b', check);
    }
  }

  /** Each reported message comes from a call of the list, and every message some call gives is reported. */
  lemma {:induction false} CallErrorsFrom(calls: seq<Expr>, check: Expr -> Option<string>, msg: string)
    ensures msg in CallErrors(calls, check) <==> exists c :: c in calls && check(c) == Some(msg)
    decreases |calls|
  {
    if calls != [] {
      var init := calls[..|calls| - 1];
      var last := calls[|calls| - 1];
      CallErrorsFrom(init, check, msg);
      assert calls == init + [last];
      assert CallErrors(calls, check) == CallErrors(init, check) + Reported(check(last));
      if msg in CallErrors(calls, check) {
        if msg in CallErrors(init, check) {
          var c :| c in init && check(c) == Some(msg);
          assert c in calls;
        } else {
          assert check(last) == Some(msg);
          assert last in calls;
        }
      }
      if exists c :: c in calls && check(c) == Some(msg) {
        var c :| c in calls && check(c) == Some(msg);
        if c != last {
          assert c in init;
        } else {
          assert msg in Reported(check(last));
        }
      }
    }
  }

  predicate IsMethodCall(n: Expr) {
    n.MethodCall?
  }

  /** The errors `processNode` reports for method `m` of the file at `path`. */
  function Errors(path: string, m: ClassMethod, scopeTypes: ScopeTypes, hookDirs: HookDirs): seq<string> {
    if !Contains(path, BackendLayer) || m.stmts.None? then []
    else
      var nodes := BodyNodes(m.stmts.value);
      var assigns := Find(nodes, IsCallAssign);
      var selections := Recorded(assigns, ChainSelection);
      var chainTypes := Recorded(assigns, ChainEntityType);
      CallErrors(Find(nodes, IsMethodCall), CallCheck(path, selections, chainTypes, scopeTypes, hookDirs))
  }

  /** The assignment loop of `processNode`: fills the selection and entity-type dictionaries. */
  method TrackAssignments(assignments: seq<Expr>)
    returns (varToSelectedFields: map<string, seq<string>>, varToEntityType: map<string, string>)
    ensures varToSelectedFields == Recorded(assignments, ChainSelection)
    ensures varToEntityType == Recorded(assignments, ChainEntityType)
  {
    varToSelectedFields := map[];
    varToEntityType := map[];
    var i := 0;
    while i < |assignments|
      invariant 0 <= i <= |assignments|
      invariant varToSelectedFields == Recorded(assignments[..i], ChainSelection)
      invariant varToEntityType == Recorded(assignments[..i], ChainEntityType)
    {
      ghost var upto := assignments[..i + 1];
      assert upto[..|upto| - 1] == assignments[..i] && upto[|upto| - 1] == assignments[i];
      varToSelectedFields, varToEntityType := TrackAssignment(assignments[i], varToSelectedFields, varToEntityType);
      i := i + 1;
    }
    assert assignments[..i] == assignments;
  }

  /** The body of the assignment loop for one assignment. */
  method TrackAssignment(assign: Expr, selected0: map<string, seq<string>>, types0: map<string, string>)
    returns (varToSelectedFields: map<string, seq<string>>, varToEntityType: map<string, string>)
    ensures varToSelectedFields == RecordStep(selected0, assign, ChainSelection)
    ensures varToEntityType == RecordStep(types0, assign, ChainEntityType)
  {
    varToSelectedFields, varToEntityType := selected0, types0;
    if assign.Assign? && assign.lhs.Variable? && assign.lhs.varName.Named? && assign.rhs.MethodCall? {
      var name := assign.lhs.varName.varId;
      assert VarNameOf(assign.lhs) == Some(name);
      var selected := ExtractSelectedFieldsFromChain(assign.rhs);
      if selected.Some? {
        varToSelectedFields := varToSelectedFields[name := selected.value];
      }
      var entityTypeFromChain := InferEntityTypeFromChain(assign.rhs);
      if entityTypeFromChain.Some? {
        varToEntityType := varToEntityType[name := entityTypeFromChain.value];
      }
    } else {
      assert !IsCallAssign(assign) || VarNameOf(assign.lhs).None?;
    }
  }

  /**
   * `processNode`: the assignment loop fills the two dictionaries, the save
   * loop checks each option-less `saveEntity($var)` against the fields the
   * entity type's hooks read.
   */
  method ProcessNode(filePath: string, node: ClassMethod, scopeTypes: ScopeTypes, hookDirs: HookDirs)
    returns (errors: seq<string>)
    ensures errors == Errors(filePath, node, scopeTypes, hookDirs)
    ensures !Contains(filePath, BackendLayer) || node.stmts.None? ==> errors == []
  {
    if IndexOf(filePath, BackendLayer).None? {
      return [];
    }
    if node.stmts.None? {
      return [];
    }
    var nodes := BodyNodes(node.stmts.value);
    var assignments := Find(nodes, IsCallAssign);
    var varToSelectedFields, varToEntityType := TrackAssignments(assignments);
    var saves := Find(nodes, IsMethodCall);
    errors := CheckSaves(saves, filePath, varToSelectedFields, varToEntityType, scopeTypes, hookDirs);
  }

  /** The save loop of `processNode`: every method call of the body, in visiting order. */
  method CheckSaves(saves: seq<Expr>, filePath: string, varToSelectedFields: map<string, seq<string>>,
                    varToEntityType: map<string, string>, scopeTypes: ScopeTypes, hookDirs: HookDirs)
    returns (errors: seq<string>)
    ensures errors == CallErrors(saves, CallCheck(filePath, varToSelectedFields, varToEntityType, scopeTypes, hookDirs))
  {
    ghost var check := CallCheck(filePath, varToSelectedFields, varToEntityType, scopeTypes, hookDirs);
    errors := [];
    var k := 0;
    while k < |saves|
      invariant 0 <= k <= |saves|
      invariant errors == CallErrors(saves[..k], check)
    {
      var call := saves[k];
      ghost var upto := saves[..k + 1];
      assert upto[..|upto| - 1] == saves[..k] && upto[|upto| - 1] == call;
      var err := CheckSave(call, filePath, varToSelectedFields, varToEntityType, scopeTypes, hookDirs);
      assert err == check(call);
      if err.Some? {
        errors := errors + [err.value];
      }
      k := k + 1;
    }
    assert saves[..k] == saves;
  }

  /** The body of the save loop of `processNode` for one method call. */
  method CheckSave(call: Expr, filePath: string, varToSelectedFields: map<string, seq<string>>,
                   varToEntityType: map<string, string>, scopeTypes: ScopeTypes, hookDirs: HookDirs)
    returns (error: Option<string>)
    ensures error == CallError(call, filePath, varToSelectedFields, varToEntityType, scopeTypes, hookDirs)
  {
    if !call.MethodCall? || call.member != Ident("saveEntity") {
      return None;
    }
    var entityArg := ArgValue(call.args, 0);
    if entityArg.None? || !entityArg.value.Variable? || !entityArg.value.varName.Named? {
      return None;
    }
    var name := entityArg.value.varName.varId;
    if |call.args| > 1 {
      return None;
    }
    if name !in varToSelectedFields {
      return None;
    }
    var selectedFields := varToSelectedFields[name];
    var entityType := InferEntityTypeFromVarType(ScopeClasses(scopeTypes, name));
    if entityType.None? {
      entityType := if name in varToEntityType then Some(varToEntityType[name]) else None;
    }
    var requiredFields := [];
    if entityType.Some? {
      requiredFields := CollectHookRequiredFields(filePath, entityType.value, hookDirs);
    }
    if requiredFields == [] {
      return None;
    }
    var missing := MissingFields(requiredFields, selectedFields);
    if missing == [] {
      return None;
    }
    return Some(SaveMessage(entityType.value, missing));
  }
}
