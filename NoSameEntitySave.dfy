/**
 * NoSameEntitySaveRule: inside an `afterSave` or `beforeSave` hook, saving
 * the hook's own entity again re-enters the save flow, unless the save is
 * given options that skip hooks or make it silent.
 */
module NoSameEntitySave {
  import opened Wrappers
  import opened Strings
  import opened Ast
  import opened Layers

  const AfterSaveMessage := "Do not save the same entity inside afterSave: this re-triggers hooks and can cause an infinite loop. If saving is required, pass SaveOptions with skipHooks=true or silent=true."
  const BeforeSaveMessage := "Avoid saving the same entity inside beforeSave: saving is already in progress and this re-enters the save flow. If saving is required, pass SaveOptions with skipHooks=true or silent=true."

  // ---------------------------------------------------------------------------
  // Option recognition

  /**
   * `isTruthyValue`: the constants `true`, `false` and `null` are recognised
   * in any letter case; everything else, numbers and strings included, is
   * taken as truthy.
   */
  function IsTruthyValue(value: Expr): (r: bool)
    ensures !r <==> value.ConstFetch? && (ToLower(value.constName) == "false" || ToLower(value.constName) == "null")
  {
    if value.ConstFetch? then
      var name := ToLower(value.constName);
      if name == "true" then true
      else if name == "false" then false
      else if name == "null" then false
      else true
    else true
  }

  /** Only the literal constants `false` and `null` are falsy; `0` and `''` count as truthy. */
  lemma {:induction false} TruthyExamples(n: string)
    ensures !IsTruthyValue(ConstFetch("FALSE")) && !IsTruthyValue(ConstFetch("Null"))
    ensures IsTruthyValue(ConstFetch("TRUE"))
    ensures IsTruthyValue(StringLit("")) && IsTruthyValue(StringLit("0"))
    ensures IsTruthyValue(Variable(Named(n)))
  {
    assert ToLower("FALSE") == "false";
    assert ToLower("Null") == "null";
    assert ToLower("TRUE") == "true";
  }

  /**
   * The key of an option item: a string key as written, or the constant name
   * of a `…SaveOption…::SKIP_…` class-constant key; no key otherwise.
   */
  function OptionKey(item: ArrayItem): (r: Option<string>)
    ensures r.Some? ==> item.Item? && item.key.Some?
    ensures r.Some? && item.key.value.ClassConstFetch? ==> StartsWith(r.value, "SKIP_")
    ensures r.Some? ==> item.key.value.StringLit? || item.key.value.ClassConstFetch?
    ensures (item.Item? && item.key.Some? && item.key.value.StringLit?) ==> r == Some(item.key.value.str)
    ensures (item.Item? && item.key.Some? && item.key.value.ClassConstFetch?)
              ==> (r.Some? <==> && item.key.value.cls.ClassName? && item.key.value.member.Ident?
                                && Contains(item.key.value.cls.className, "SaveOption")
                                && StartsWith(item.key.value.member.id, "SKIP_"))
    ensures r.Some? && item.key.value.ClassConstFetch? ==> r.value == item.key.value.member.id
  {
    if item.Item? && item.key.Some? then
      match item.key.value
      case StringLit(k) => Some(k)
      case ClassConstFetch(ClassName(cn), Ident(c)) =>
        if Contains(cn, "SaveOption") && StartsWith(c, "SKIP_") then Some(c) else None
      case _ => None
    else None
  }

  /** A key that asks for hooks to be skipped or the save to be silent. */
  predicate SuppressingKey(k: string) {
    StartsWith(k, "skip") || StartsWith(k, "SKIP_") || k == "silent" || k == "SILENT"
  }

  /**
   * One item of the options array that turns hooks off. The keys that count
   * are `skip…`/`SKIP_…`/`silent`/`SILENT` string keys and `SaveOption::SKIP_…`
   * constants, but not `SaveOption::SILENT`, and only with a truthy value.
   */
  predicate ItemSuppresses(item: ArrayItem) {
    OptionKey(item).Some? && SuppressingKey(OptionKey(item).value) && IsTruthyValue(item.itemValue)
  }

  /** Whether an options array literal turns hooks off. */
  predicate SkipOptionPresent(items: seq<ArrayItem>) {
    exists i :: 0 <= i < |items| && ItemSuppresses(items[i])
  }

  /** `hasSkipOption`: the first item that turns hooks off ends the scan. */
  method HasSkipOption(items: seq<ArrayItem>) returns (found: bool)
    ensures found == SkipOptionPresent(items)
  {
    for i := 0 to |items|
      invariant forall j :: 0 <= j < i ==> !ItemSuppresses(items[j])
    {
      var item := items[i];
      if !item.Item? || item.key.None? {
        continue;
      }
      var key: Option<string> := None;
      var value := item.itemValue;
      var k := item.key.value;
      if k.StringLit? {
        key := Some(k.str);
      } else if k.ClassConstFetch? {
        if k.cls.ClassName? && k.member.Ident? {
          var className := k.cls.className;
          var constName := k.member.id;
          if Contains(className, "SaveOption") && StartsWith(constName, "SKIP_") {
            key := Some(constName);
          }
        }
      }
      assert key == OptionKey(item);
      if key.Some? && StartsWith(key.value, "skip") && IsTruthyValue(value) {
        return true;
      }
      if key.Some? && StartsWith(key.value, "SKIP_") && IsTruthyValue(value) {
        return true;
      }
      if key.Some? && key.value == "silent" && IsTruthyValue(value) {
        return true;
      }
      if key.Some? && key.value == "SILENT" && IsTruthyValue(value) {
        return true;
      }
    }
    return false;
  }

  /** A `SKIP_` constant of a class whose name does not mention `SaveOption` is not an option key. */
  lemma {:induction false} OtherClassKeyIgnored(cn: string, c: string, v: Expr)
    requires !Contains(cn, "SaveOption")
    ensures OptionKey(Item(Some(ClassConstFetch(ClassName(cn), Ident(c))), v)) == None
    ensures !ItemSuppresses(Item(Some(ClassConstFetch(ClassName(cn), Ident(c))), v))
  {
  }

  lemma {:induction false} OptionExamples(cn: string, v: Expr)
    requires Contains(cn, "SaveOption")
    ensures ItemSuppresses(Item(Some(StringLit("skipHooks")), ConstFetch("true")))
    ensures ItemSuppresses(Item(Some(StringLit("silent")), StringLit("")))
    ensures ItemSuppresses(Item(Some(ClassConstFetch(ClassName(cn), Ident("SKIP_HOOKS"))), ConstFetch("true")))
    ensures !ItemSuppresses(Item(Some(ClassConstFetch(ClassName(cn), Ident("SILENT"))), ConstFetch("true")))
    ensures !ItemSuppresses(Item(Some(StringLit("skipHooks")), ConstFetch("false")))
    ensures !ItemSuppresses(Item(Some(StringLit("Silent")), ConstFetch("true")))
    ensures !ItemSuppresses(Item(None, v))
  {
    assert ToLower("true") == "true";
    assert ToLower("false") == "false";
    assert !StartsWith("SILENT", "SKIP_") by { assert "SILENT"[1] != "SKIP_"[1]; }
    assert !StartsWith("Silent", "skip") && !StartsWith("Silent", "SKIP_") by {
      assert "Silent"[0] != "skip"[0];
      assert "Silent"[1] != "SKIP_"[1];
    }
  }

  /** Items without a key never change the decision, wherever they stand. */
  lemma {:induction false} KeylessIgnored(a: seq<ArrayItem>, v: Expr, b: seq<ArrayItem>)
    ensures SkipOptionPresent(a + [Item(None, v)] + b) == SkipOptionPresent(a + b)
  {
    var with := a + [Item(None, v)] + b;
    var without := a + b;
    if SkipOptionPresent(with) {
      var i :| 0 <= i < |with| && ItemSuppresses(with[i]);
      if i < |a| {
        assert without[i] == with[i];
      } else {
        assert without[i - 1] == with[i];
      }
    }
    if SkipOptionPresent(without) {
      var i :| 0 <= i < |without| && ItemSuppresses(without[i]);
      if i < |a| {
        assert with[i] == without[i];
      } else {
        assert with[i + 1] == without[i];
      }
    }
  }

  // ---------------------------------------------------------------------------
  // Violations

  /** The hook's entity parameter: the name of its first parameter when that is a plain variable. */
  function EntityParam(m: ClassMethod): Option<string> {
    if |m.params| > 0 then VarNameOf(m.params[0].paramVar) else None
  }

  /**
   * The finder predicate of `processNode`: a `save`/`saveEntity` call on the
   * hook's entity variable, without an options array literal that turns
   * hooks off; any second argument other than an array literal counts as
   * no options.
   */
  predicate IsViolation(n: Expr, param: string) {
    && n.MethodCall?
    && (n.member == Ident("saveEntity") || n.member == Ident("save"))
    && ArgValue(n.args, 0) == Some(Variable(Named(param)))
    && match ArgValue(n.args, 1)
       case Some(ArrayLit(items)) => !SkipOptionPresent(items)
       case _ => true
  }

  /** A save of the entity with no second argument, or one that is not an array literal, is a violation. */
  lemma {:induction false} NonArrayOptionsViolate(t: Expr, param: string, second: seq<Arg>)
    requires |second| <= 1
    requires |second| == 1 && second[0].Arg? ==> !second[0].value.ArrayLit?
    ensures IsViolation(MethodCall(t, Ident("save"), [Arg(Variable(Named(param)))] + second), param)
    ensures IsViolation(MethodCall(t, Ident("saveEntity"), [Arg(Variable(Named(param)))] + second), param)
  {
  }

  function HookMessage(methodName: string): string {
    if methodName == "afterSave" then AfterSaveMessage else BeforeSaveMessage
  }

  /**
   * `processNode`: in a hook file, an `afterSave`/`beforeSave` method whose
   * body saves its own entity without turning hooks off gets one error,
   * however many such saves it makes.
   */
  function Errors(path: string, m: ClassMethod): (r: seq<string>)
    ensures |r| <= 1
    ensures r != [] <==>
              && Contains(path, HooksLayer) && IsSaveHook(m.name) && EntityParam(m).Some? && m.stmts.Some?
              && exists n :: n in BodyNodes(m.stmts.value) && IsViolation(n, EntityParam(m).value)
    ensures r != [] ==> r == [if m.name == "afterSave" then AfterSaveMessage else BeforeSaveMessage]
  {
    if !Contains(path, HooksLayer) then []
    else if !IsSaveHook(m.name) then []
    else match EntityParam(m)
      case None => []
      case Some(p) =>
        if m.stmts.None? then []
        else
          var violations := Find(BodyNodes(m.stmts.value), n => IsViolation(n, p));
          if violations == [] then []
          else
            assert violations[0] in violations;
            [HookMessage(m.name)]
  }

  /** The entity may be saved in a hook when hooks are skipped: `skipHooks => true` clears the call. */
  lemma {:induction false} SkipHooksClears(t: Expr, param: string)
    ensures !IsViolation(MethodCall(t, Ident("save"), [Arg(Variable(Named(param))),
              Arg(ArrayLit([Item(Some(StringLit("skipHooks")), ConstFetch("true"))]))]), param)
  {
    var item := Item(Some(StringLit("skipHooks")), ConstFetch("true"));
    assert ToLower("true") == "true";
    assert ItemSuppresses([item][0]);
  }
}
