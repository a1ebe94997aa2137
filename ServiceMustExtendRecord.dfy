/**
 * ServiceMustExtendRecordRule: a named service class must extend
 * `Espo\Services\Record` directly; other code belongs under `Tools/`.
 */
module ServiceMustExtendRecord {
  import opened Wrappers
  import opened Strings
  import opened Ast
  import opened Layers

  const RecordClass := "Espo\\Services\\Record"
  const Message := "Services under src/backend/Services/ must extend Espo\\Services\\Record. Place non-entity utilities under src/backend/Tools/."

  /** The name in the `extends` clause, or the empty string when there is none. */
  function ExtendsName(c: Class): (r: string)
    ensures c.parent.None? ==> r == ""
    ensures c.parent.Some? ==> r == c.parent.value
  {
    c.parent.GetOr("")
  }

  /**
   * `processNode`: a named class in a service file gets one error unless its
   * direct parent is named exactly `Espo\Services\Record`.
   */
  function Errors(path: string, c: Class): (r: seq<string>)
    ensures |r| <= 1
    ensures r != [] <==> Contains(path, ServicesLayer) && c.name.Some? && c.parent != Some(RecordClass)
    ensures r != [] ==> r == [Message]
  {
    if !Contains(path, ServicesLayer) then []
    else if c.name.None? then []
    else if ExtendsName(c) == RecordClass then []
    else [Message]
  }

  /**
   * Only the direct parent's name is compared: two classes with the same
   * name presence and the same `extends` get the same errors, whatever
   * else they declare, and a class with no `extends` always gets the error.
   */
  lemma {:induction false} OnlyDirectParent(path: string, c: Class, d: Class)
    requires c.name.Some? == d.name.Some? && c.parent == d.parent
    ensures Errors(path, c) == Errors(path, d)
    ensures Contains(path, ServicesLayer) && c.name.Some? && c.parent.None? ==> Errors(path, c) == [Message]
  {
  }
}
