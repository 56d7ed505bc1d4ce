/**
 * The part of the .NET reflection facility the attribute helper talks to,
 * seen only through the questions the helper asks of it: type handles with
 * their (possibly null) full names, members with their declaring type and
 * name, attribute instances, and one introspection oracle.
 */
module Reflection {

  /** A value that may be absent (a null reference, a missing first element). */
  datatype Option<+T> = None | Some(value: T)

  /** A System.Type. `id` is its identity: two distinct types may report the
      same full name (they may live in different assemblies). `fullName` is
      Type.FullName, which the runtime reports as null for some types. */
  datatype TypeHandle = TypeHandle(id: nat, fullName: Option<string>)

  /** A MemberInfo (property, method or field). `id` is its identity, so two
      overloads of one method are distinct members; `declaringType` is null
      for module-level members. */
  datatype Member = Member(id: nat, declaringType: Option<TypeHandle>, name: string)

  /** Anything attributes can be written on and queried from. */
  datatype Entity = OfMember(member: Member) | OfType(t: TypeHandle)

  /** An attribute instance: its concrete attribute type and its payload. */
  datatype Attr = Attr(attrType: TypeHandle, payload: seq<string>)

  /** The introspection capability.
      `defines(e, k)` is `e.IsDefined(k)`: the extension method searches
      inherited attributes as well.
      `declared(e, k)` is `e.GetCustomAttributes(k, false)`: the attributes of
      kind `k` written on `e` itself, in the order the runtime reports them. */
  datatype Oracle = Oracle(defines: (Entity, TypeHandle) -> bool,
                           declared: (Entity, TypeHandle) -> seq<Attr>)

  /** Whatever is written on an entity itself is also found by the inherited
      search. The runtime's reflection behaves this way; the converse fails
      for an attribute that is only inherited. */
  ghost predicate Coherent(o: Oracle) {
    forall e, k :: o.declared(e, k) != [] ==> o.defines(e, k)
  }

  /** A name as C# string interpolation renders it: null becomes "". */
  function Text(name: Option<string>): string {
    match name
    case None => ""
    case Some(s) => s
  }

  /** What one cache miss computes for entity `e` and attribute kind `k`:
      the entity's own attributes when IsDefined holds, else the empty array. */
  function Introspect(o: Oracle, e: Entity, k: TypeHandle): seq<Attr> {
    if o.defines(e, k) then o.declared(e, k) else []
  }

  /** A miss yields nothing when the kind is absent, and under a coherent
      oracle it yields exactly the entity's own (non-inherited) attributes. */
  lemma IntrospectOwn(o: Oracle, e: Entity, k: TypeHandle)
    ensures !o.defines(e, k) ==> Introspect(o, e, k) == []
    ensures Coherent(o) ==> Introspect(o, e, k) == o.declared(e, k)
  {
  }
}
