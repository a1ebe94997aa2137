/**
 * HasIdentifierBuilder: every rule reports its errors under the identifier
 * `espocrm.<domain>.<rule>` derived from its own class name, where the
 * domain is the namespace segment right after `Rules`.
 */
module IdentifierBuilder {
  import opened Wrappers
  import opened Strings

  const Separator := '\\'
  const RulesSegment := "Rules"
  const DefaultDomain := "core"
  const Prefix := "espocrm."

  /** `array_search('Rules', $parts, true)`: the first index holding `x`. */
  function IndexOfPart(parts: seq<string>, x: string): (r: Option<nat>)
    ensures r.Some? ==> r.value < |parts| && parts[r.value] == x
                        && forall j :: 0 <= j < r.value ==> parts[j] != x
    ensures r.None? <==> forall j :: 0 <= j < |parts| ==> parts[j] != x
  {
    if parts == [] then None
    else if parts[0] == x then Some(0)
    else match IndexOfPart(parts[1..], x)
      case None => None
      case Some(k) => Some(k + 1)
  }

  /** PHP's truthiness of a string: only `""` and `"0"` are falsy. */
  predicate Truthy(s: string) {
    s != "" && s != "0"
  }

  /** The last namespace segment of a class name. */
  function LastSegment(fqn: string): (r: string)
    ensures Separator !in r
  {
    var parts := Split(fqn, Separator);
    parts[|parts| - 1]
  }

  /** `end($parts) ?: $fqn`: the last segment, or the whole name when that segment is falsy. */
  function ClassPart(fqn: string): string {
    if Truthy(LastSegment(fqn)) then LastSegment(fqn) else fqn
  }

  /**
   * The domain chosen from the segments of a class name: the lower-cased
   * segment after the first `Rules`, or `core` when there is no `Rules`
   * segment or it is the last one.
   */
  function DomainOf(parts: seq<string>): (r: string)
    ensures forall k :: 0 <= k < |r| ==> !IsAsciiUpper(r[k])
    ensures (forall j :: 0 <= j < |parts| ==> parts[j] != RulesSegment) ==> r == DefaultDomain
    ensures forall i :: 0 <= i < |parts| && parts[i] == RulesSegment && (forall j :: 0 <= j < i ==> parts[j] != RulesSegment) ==>
              r == if i + 1 < |parts| then ToLower(parts[i + 1]) else DefaultDomain
  {
    match IndexOfPart(parts, RulesSegment)
    case Some(i) => if i + 1 < |parts| then ToLower(parts[i + 1]) else DefaultDomain
    case None => DefaultDomain
  }

  /** `buildIdentifier` for the class named `fqn`. */
  function BuildIdentifier(fqn: string): (r: string)
    ensures StartsWith(r, Prefix)
  {
    var parts := Split(fqn, Separator);
    var className := ClassPart(fqn);
    Prefix + DomainOf(parts) + "." + LcFirst(className)
  }

  /**
   * For a class named by the separator-free segments `parts`, the domain is
   * taken from those segments, and the name part is the last segment unless
   * that one is falsy, in which case it is the whole name.
   */
  lemma {:induction false} IdentifierOfSegments(parts: seq<string>)
    requires |parts| >= 1
    requires forall i :: 0 <= i < |parts| ==> Separator !in parts[i]
    ensures Truthy(parts[|parts| - 1]) ==>
              BuildIdentifier(Join(parts, [Separator])) == Prefix + DomainOf(parts) + "." + LcFirst(parts[|parts| - 1])
    ensures !Truthy(parts[|parts| - 1]) ==>
              BuildIdentifier(Join(parts, [Separator])) == Prefix + DomainOf(parts) + "." + LcFirst(Join(parts, [Separator]))
  {
    SplitJoin(parts, Separator);
    IdentifierOfSplit(Join(parts, [Separator]), parts);
  }

  lemma {:induction false} IdentifierOfSplit(fqn: string, parts: seq<string>)
    requires Split(fqn, Separator) == parts
    ensures Truthy(parts[|parts| - 1]) ==> BuildIdentifier(fqn) == Prefix + DomainOf(parts) + "." + LcFirst(parts[|parts| - 1])
    ensures !Truthy(parts[|parts| - 1]) ==> BuildIdentifier(fqn) == Prefix + DomainOf(parts) + "." + LcFirst(fqn)
  {
    assert LastSegment(fqn) == parts[|parts| - 1];
  }

  /**
   * This package's own rules live under `...\Rules\Hooks\` (so
   * `AlexSvorada\EspoCRM\PHPStan\Rules\Hooks\NoSameEntitySaveRule`): such a
   * rule class is reported as `espocrm.hooks.` followed by its short name
   * with the first letter lower-cased.
   */
  lemma {:induction false} HookRuleIdentifier(parts: seq<string>, i: nat)
    requires forall k :: 0 <= k < |parts| ==> Separator !in parts[k]
    requires i + 1 < |parts| && parts[i] == RulesSegment && parts[i + 1] == "Hooks"
    requires forall j :: 0 <= j < i ==> parts[j] != RulesSegment
    requires Truthy(parts[|parts| - 1])
    ensures BuildIdentifier(Join(parts, [Separator])) == Prefix + "hooks" + "." + LcFirst(parts[|parts| - 1])
  {
    IdentifierOfSegments(parts);
    LowerHooks();
    assert DomainOf(parts) == "hooks";
  }

  lemma {:induction false} LowerHooks()
    ensures ToLower("Hooks") == "hooks"
  {
  }

  /**
   * A class outside any `Rules` namespace (so `App\Check`) falls in the
   * `core` domain: it is reported as `espocrm.core.` followed by its short
   * name with the first letter lower-cased.
   */
  lemma {:induction false} CoreDomainIdentifier(parts: seq<string>)
    requires |parts| >= 1
    requires forall k :: 0 <= k < |parts| ==> Separator !in parts[k]
    requires forall j :: 0 <= j < |parts| ==> parts[j] != RulesSegment
    requires Truthy(parts[|parts| - 1])
    ensures BuildIdentifier(Join(parts, [Separator])) == Prefix + DefaultDomain + "." + LcFirst(parts[|parts| - 1])
  {
    IdentifierOfSegments(parts);
  }
}
