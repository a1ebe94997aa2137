/**
 * RequireOrderPropertyRule: every named hook class must declare
 * `public static int $order`, which fixes the order EspoCRM runs hooks in.
 */
module RequireOrderProperty {
  import opened Wrappers
  import opened Strings
  import opened Ast
  import opened Layers

  const Message := "Hook classes must define public static int $order."

  /**
   * A property statement that declares the order: its first name is
   * `order`, it is public and static, and its type is exactly `int`.
   */
  predicate DeclaresOrder(s: ClassStmt) {
    && s.Property?
    && |s.props| > 0 && s.props[0] == "order"
    && IsPublic(s.propFlags) && IsStatic(s.propFlags)
    && s.propType == Some(IdentType("int"))
  }

  /**
   * `processNode`: a named class in a hook file gets one error unless some
   * property statement declares the order. The loop stops at the first
   * statement that does.
   */
  method ProcessNode(filePath: string, node: Class) returns (errors: seq<string>)
    ensures |errors| <= 1
    ensures errors != [] <==>
              && Contains(filePath, HooksLayer) && node.name.Some?
              && forall i :: 0 <= i < |node.stmts| ==> !DeclaresOrder(node.stmts[i])
    ensures errors != [] ==> errors == [Message]
  {
    if IndexOf(filePath, HooksLayer).None? {
      return [];
    }
    if node.name.None? {
      return [];
    }
    var hasOrder := false;
    var i := 0;
    while i < |node.stmts|
      invariant 0 <= i <= |node.stmts|
      invariant !hasOrder
      invariant forall j :: 0 <= j < i ==> !DeclaresOrder(node.stmts[j])
    {
      var property := node.stmts[i];
      if !property.Property? {
        i := i + 1;
        continue;
      }
      if |property.props| == 0 {
        i := i + 1;
        continue;
      }
      if property.props[0] != "order" {
        i := i + 1;
        continue;
      }
      if !IsPublic(property.propFlags) || !IsStatic(property.propFlags) {
        i := i + 1;
        continue;
      }
      var t := property.propType;
      if t.None? || !t.value.IdentType? || t.value.typeId != "int" {
        i := i + 1;
        continue;
      }
      assert DeclaresOrder(node.stmts[i]);
      hasOrder := true;
      break;
    }
    if hasOrder {
      return [];
    }
    return [Message];
  }

  /**
   * In a grouped declaration only the first name counts, and `?int` or no
   * type at all does not satisfy the rule.
   */
  lemma {:induction false} NearMisses(flags: bv32, other: string)
    requires IsPublic(flags) && IsStatic(flags) && other != "order"
    ensures DeclaresOrder(Property(flags, Some(IdentType("int")), ["order"]))
    ensures DeclaresOrder(Property(flags, Some(IdentType("int")), ["order", other]))
    ensures !DeclaresOrder(Property(flags, Some(IdentType("int")), [other, "order"]))
    ensures !DeclaresOrder(Property(flags, Some(NullableType(IdentType("int"))), ["order"]))
    ensures !DeclaresOrder(Property(flags, None, ["order"]))
    ensures !DeclaresOrder(Property(flags, Some(NameType("int")), ["order"]))
  {
  }

  /** `var $order` counts as public; a private or non-static `$order` does not count. */
  lemma {:induction false} Visibility()
    ensures DeclaresOrder(Property(ModifierStatic, Some(IdentType("int")), ["order"]))
    ensures !DeclaresOrder(Property(ModifierPrivate | ModifierStatic, Some(IdentType("int")), ["order"]))
    ensures !DeclaresOrder(Property(ModifierPublic, Some(IdentType("int")), ["order"]))
  {
  }
}
