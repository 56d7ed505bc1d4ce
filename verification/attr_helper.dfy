/**
 * The static AttrHelper class: a ladder of rungs, each testing the kind of
 * reflection handle it was given, building a cache key for it and resolving
 * that key through the shared cache; the public GetAttrs and GetAttr entries.
 *
 * The process-wide cache is threaded through explicitly: every call takes
 * the cache before it and returns the cache after it.
 */
module AttrHelper {
  import opened Reflection
  import opened AttrCache

  /** The object handed to GetAttrs: null, a reflection handle to a property,
      method or field, or any other object. `handleType` is what GetType()
      returns for it (for a handle, the runtime's handle class, such as
      RtFieldInfo for an ordinary field; for a Type object, RuntimeType). */
  datatype Subject =
    | Null
    | Property(member: Member, handleType: TypeHandle)
    | Method(member: Member, handleType: TypeHandle)
    | Field(member: Member, handleType: TypeHandle)
    | Instance(handleType: TypeHandle)

  datatype Exception = NullReferenceException

  /** A call either returns a value or throws. */
  datatype Outcome<+T> = Ok(value: T) | Thrown(exception: Exception)

  /** The key a rung looks up and the entity it introspects on a miss. */
  datatype Target = Target(key: string, entity: Entity)

  /** The rungs of the ladder, in the order they hand over to each other. */
  datatype Rung = FieldRung | PropertyRung | MethodRung | ClassRung

  function Rank(r: Rung): nat {
    match r
    case FieldRung => 0
    case PropertyRung => 1
    case MethodRung => 2
    case ClassRung => 3
  }

  /** The rung written for a subject's kind of handle. */
  function OwnRung(s: Subject): Rung {
    match s
    case Field(_, _) => FieldRung
    case Property(_, _) => PropertyRung
    case Method(_, _) => MethodRung
    case _ => ClassRung
  }

  /** typeof(T).FullName, the attribute-kind part of every key. */
  function KindText(kind: TypeHandle): string {
    Text(kind.fullName)
  }

  /** Key and entity of a member rung; reading DeclaringType.FullName throws
      when the member has no declaring type. */
  function MemberTarget(clzT: string, m: Member): Outcome<Target> {
    match m.declaringType
    case None => Thrown(NullReferenceException)
    case Some(d) => Ok(Target(MemberKey(clzT, Text(d.fullName), m.name), OfMember(m)))
  }

  /** Key and entity of the class rung: the subject's runtime type. */
  function TypeTarget(clzT: string, h: TypeHandle): Target {
    Target(TypeKey(clzT, Text(h.fullName)), OfType(h))
  }

  /** Reference definition of the ladder entered at `entry`: a member handle
      is resolved as a member exactly when its own rung comes at or after
      the entry rung; every other non-null subject is resolved on its
      runtime type; a null subject throws at obj.GetType(). */
  function TargetFrom(entry: Rung, clzT: string, s: Subject): Outcome<Target> {
    if s.Null? then Thrown(NullReferenceException)
    else if !s.Instance? && Rank(entry) <= Rank(OwnRung(s)) then MemberTarget(clzT, s.member)
    else Ok(TypeTarget(clzT, s.handleType))
  }

  /** Resolves a target through the cache; an exception leaves no answer. */
  function Perform(t: Outcome<Target>, c: Cache, o: Oracle, kind: TypeHandle): Outcome<Answer> {
    match t
    case Thrown(e) => Thrown(e)
    case Ok(t) => Ok(Resolve(c, t.key, o, t.entity, kind))
  }

  /** GetClassAttrs: the terminal rung, keyed on the subject's runtime type. */
  function GetClassAttrs(c: Cache, o: Oracle, s: Subject, kind: TypeHandle, clzT: string): (r: Outcome<Answer>)
    ensures r.Thrown? <==> s.Null?
    ensures r == Perform(TargetFrom(ClassRung, clzT, s), c, o, kind)
  {
    if s.Null? then Thrown(NullReferenceException)
    else
      var t := TypeTarget(clzT, s.handleType);
      Ok(Resolve(c, t.key, o, t.entity, kind))
  }

  /** GetMethodAttrs: a method handle is resolved as a member, anything else
      is passed down to the class rung. */
  function GetMethodAttrs(c: Cache, o: Oracle, s: Subject, kind: TypeHandle, clzT: string): (r: Outcome<Answer>)
    ensures r == Perform(TargetFrom(MethodRung, clzT, s), c, o, kind)
  {
    if s.Method? then Perform(MemberTarget(clzT, s.member), c, o, kind)
    else
      assert TargetFrom(MethodRung, clzT, s) == TargetFrom(ClassRung, clzT, s);
      GetClassAttrs(c, o, s, kind, clzT)
  }

  /** GetPropertyAttrs: a property handle is resolved as a member, anything
      else is passed down to the method rung. */
  function GetPropertyAttrs(c: Cache, o: Oracle, s: Subject, kind: TypeHandle, clzT: string): (r: Outcome<Answer>)
    ensures r == Perform(TargetFrom(PropertyRung, clzT, s), c, o, kind)
  {
    if s.Property? then Perform(MemberTarget(clzT, s.member), c, o, kind)
    else
      assert TargetFrom(PropertyRung, clzT, s) == TargetFrom(MethodRung, clzT, s);
      GetMethodAttrs(c, o, s, kind, clzT)
  }

  /** GetFieldAttrs: a field handle is resolved as a member, anything else
      is passed down to the property rung. No public entry reaches it. */
  function GetFieldAttrs(c: Cache, o: Oracle, s: Subject, kind: TypeHandle, clzT: string): (r: Outcome<Answer>)
    ensures r == Perform(TargetFrom(FieldRung, clzT, s), c, o, kind)
  {
    if s.Field? then Perform(MemberTarget(clzT, s.member), c, o, kind)
    else
      assert TargetFrom(FieldRung, clzT, s) == TargetFrom(PropertyRung, clzT, s);
      GetPropertyAttrs(c, o, s, kind, clzT)
  }

  /** The public GetAttrs<T>(obj): the kind's full name, then the ladder
      entered at the property rung (property, method, then runtime type). */
  function GetAttrs(c: Cache, o: Oracle, kind: TypeHandle, s: Subject): (r: Outcome<Answer>)
    ensures r.Thrown? <==> s.Null? || ((s.Property? || s.Method?) && s.member.declaringType.None?)
    ensures r.Ok? ==> InsertOnly(c, r.value.cache)
    ensures (s.Field? || s.Instance?) ==>
              r == Ok(Resolve(c, TypeKey(KindText(kind), Text(s.handleType.fullName)), o, OfType(s.handleType), kind))
    ensures r == Perform(TargetFrom(PropertyRung, KindText(kind), s), c, o, kind)
  {
    GetPropertyAttrs(c, o, s, kind, KindText(kind))
  }

  /** The ladder entered at the field rung, as GetFieldAttrs was written to be. */
  function GetAttrsFieldFirst(c: Cache, o: Oracle, kind: TypeHandle, s: Subject): (r: Outcome<Answer>)
    ensures r.Thrown? <==> s.Null? || (!s.Instance? && s.member.declaringType.None?)
    ensures r.Ok? ==> InsertOnly(c, r.value.cache)
    ensures r == Perform(TargetFrom(FieldRung, KindText(kind), s), c, o, kind)
  {
    GetFieldAttrs(c, o, s, kind, KindText(kind))
  }

  /** A public lookup entered at `entry`. */
  function Lookup(entry: Rung, c: Cache, o: Oracle, kind: TypeHandle, s: Subject): Outcome<Answer> {
    match entry
    case FieldRung => GetFieldAttrs(c, o, s, kind, KindText(kind))
    case PropertyRung => GetPropertyAttrs(c, o, s, kind, KindText(kind))
    case MethodRung => GetMethodAttrs(c, o, s, kind, KindText(kind))
    case ClassRung => GetClassAttrs(c, o, s, kind, KindText(kind))
  }

  /** LINQ FirstOrDefault on an attribute array. */
  function FirstOrDefault(xs: seq<Attr>): Option<Attr> {
    if xs == [] then None else Some(xs[0])
  }

  /** What GetAttr returns: the attribute or null, and the cache after the call. */
  datatype Single = Single(attr: Option<Attr>, cache: Cache)

  /** The public GetAttr<T>(obj): the first element of GetAttrs, or null
      when that array is empty. */
  function GetAttr(c: Cache, o: Oracle, kind: TypeHandle, s: Subject): (r: Outcome<Single>)
    ensures r.Thrown? <==> GetAttrs(c, o, kind, s).Thrown?
    ensures r.Ok? ==> r.value.cache == GetAttrs(c, o, kind, s).value.cache
    ensures r.Ok? ==> (r.value.attr.None? <==> GetAttrs(c, o, kind, s).value.attrs == [])
    ensures r.Ok? && r.value.attr.Some? ==> r.value.attr.value == GetAttrs(c, o, kind, s).value.attrs[0]
  {
    match GetAttrs(c, o, kind, s)
    case Thrown(e) => Thrown(e)
    case Ok(a) => Ok(Single(FirstOrDefault(a.attrs), a.cache))
  }

  /** Every rung agrees with the reference ladder entered at that rung. */
  lemma LookupAgrees(entry: Rung, c: Cache, o: Oracle, kind: TypeHandle, s: Subject)
    ensures Lookup(entry, c, o, kind, s) == Perform(TargetFrom(entry, KindText(kind), s), c, o, kind)
  {
  }

  /** Idempotence: a second call with the same kind and subject returns the
      same array, leaves the cache unchanged and consults no oracle, whatever
      that oracle would answer. */
  lemma Idempotent(entry: Rung, c: Cache, o: Oracle, o': Oracle, kind: TypeHandle, s: Subject)
    requires Lookup(entry, c, o, kind, s).Ok?
    ensures var a := Lookup(entry, c, o, kind, s).value;
            Lookup(entry, a.cache, o', kind, s) == Ok(Answer(a.attrs, a.cache, false))
  {
    LookupAgrees(entry, c, o, kind, s);
    LookupAgrees(entry, Lookup(entry, c, o, kind, s).value.cache, o', kind, s);
  }

  /** Two subjects that map to one key share one entry: whichever is resolved
      first fixes the answer for the other. */
  lemma SharedKey(entry: Rung, c: Cache, o: Oracle, o': Oracle, kind: TypeHandle, s1: Subject, s2: Subject)
    requires TargetFrom(entry, KindText(kind), s1).Ok?
    requires TargetFrom(entry, KindText(kind), s2).Ok?
    requires TargetFrom(entry, KindText(kind), s1).value.key == TargetFrom(entry, KindText(kind), s2).value.key
    ensures Lookup(entry, c, o, kind, s1).Ok?
    ensures var a := Lookup(entry, c, o, kind, s1).value;
            Lookup(entry, a.cache, o', kind, s2) == Ok(Answer(a.attrs, a.cache, false))
  {
    LookupAgrees(entry, c, o, kind, s1);
    LookupAgrees(entry, Lookup(entry, c, o, kind, s1).value.cache, o', kind, s2);
  }

  /** Subjects with different keys do not interfere: resolving one first
      changes neither the answer nor whether the oracle is consulted for
      the other. */
  lemma DistinctKeysIndependent(entry: Rung, c: Cache, o: Oracle, kind: TypeHandle, s1: Subject, s2: Subject)
    requires TargetFrom(entry, KindText(kind), s1).Ok?
    requires TargetFrom(entry, KindText(kind), s2).Ok?
    requires TargetFrom(entry, KindText(kind), s1).value.key != TargetFrom(entry, KindText(kind), s2).value.key
    ensures Lookup(entry, c, o, kind, s1).Ok?
    ensures var a := Lookup(entry, c, o, kind, s1).value;
            var b := Lookup(entry, a.cache, o, kind, s2).value;
            var b0 := Lookup(entry, c, o, kind, s2).value;
            b.attrs == b0.attrs && b.consulted == b0.consulted
  {
    LookupAgrees(entry, c, o, kind, s1);
    LookupAgrees(entry, c, o, kind, s2);
    LookupAgrees(entry, Lookup(entry, c, o, kind, s1).value.cache, o, kind, s2);
  }

  /** Overloads of one method (same declaring type, same name) share a key:
      after one is resolved, another returns its array, even when the other
      overload carries different attributes. */
  lemma OverloadsShareKey(c: Cache, o: Oracle, kind: TypeHandle, m1: Member, m2: Member, h1: TypeHandle, h2: TypeHandle)
    requires m1.declaringType.Some? && m2.declaringType.Some?
    requires Text(m1.declaringType.value.fullName) == Text(m2.declaringType.value.fullName)
    requires m1.name == m2.name
    ensures GetAttrs(c, o, kind, Method(m1, h1)).Ok?
    ensures var a := GetAttrs(c, o, kind, Method(m1, h1)).value;
            GetAttrs(a.cache, o, kind, Method(m2, h2)) == Ok(Answer(a.attrs, a.cache, false))
  {
    SharedKey(PropertyRung, c, o, o, kind, Method(m1, h1), Method(m2, h2));
  }

  /** All objects whose runtime types share a full name share a key. */
  lemma InstancesShareKey(c: Cache, o: Oracle, kind: TypeHandle, h1: TypeHandle, h2: TypeHandle)
    requires Text(h1.fullName) == Text(h2.fullName)
    ensures GetAttrs(c, o, kind, Instance(h1)).Ok?
    ensures var a := GetAttrs(c, o, kind, Instance(h1)).value;
            GetAttrs(a.cache, o, kind, Instance(h2)) == Ok(Answer(a.attrs, a.cache, false))
  {
    SharedKey(PropertyRung, c, o, o, kind, Instance(h1), Instance(h2));
  }

  /** Methods that differ in declaring type or name resolve independently:
      resolving one first changes neither the other's array nor whether the
      other consults the oracle. Methods of one name need no condition on
      the characters of any name; methods of two names need those two names
      space-free. */
  lemma DistinctMethodsIndependent(c: Cache, o: Oracle, kind: TypeHandle, m1: Member, m2: Member, h1: TypeHandle, h2: TypeHandle)
    requires m1.declaringType.Some? && m2.declaringType.Some?
    requires m1.name == m2.name || (SpaceFree(m1.name) && SpaceFree(m2.name))
    requires Text(m1.declaringType.value.fullName) != Text(m2.declaringType.value.fullName) || m1.name != m2.name
    ensures GetAttrs(c, o, kind, Method(m1, h1)).Ok?
    ensures var a := GetAttrs(c, o, kind, Method(m1, h1)).value;
            var b := GetAttrs(a.cache, o, kind, Method(m2, h2)).value;
            var b0 := GetAttrs(c, o, kind, Method(m2, h2)).value;
            b.attrs == b0.attrs && b.consulted == b0.consulted
  {
    var k := KindText(kind);
    var d1, d2 := Text(m1.declaringType.value.fullName), Text(m2.declaringType.value.fullName);
    if m1.name == m2.name {
      SameNameKeyInjective(k, d1, d2, m1.name);
    } else {
      MemberKeySameKindInjective(k, d1, m1.name, d2, m2.name);
    }
    DistinctKeysIndependent(PropertyRung, c, o, kind, Method(m1, h1), Method(m2, h2));
  }

  /** As written, a field handle is keyed on its handle class alone: every
      field, whatever its declaring type and name, shares the entry of the
      first field resolved with that handle class. */
  lemma FieldsShareHandleKey(c: Cache, o: Oracle, kind: TypeHandle, m1: Member, m2: Member, h: TypeHandle)
    ensures GetAttrs(c, o, kind, Field(m1, h)).Ok?
    ensures var a := GetAttrs(c, o, kind, Field(m1, h)).value;
            GetAttrs(a.cache, o, kind, Field(m2, h)) == Ok(Answer(a.attrs, a.cache, false))
  {
    SharedKey(PropertyRung, c, o, o, kind, Field(m1, h), Field(m2, h));
  }

  /** Entered at the field rung, a field handle is resolved on the field
      itself: a miss yields the field's own attributes. */
  lemma FieldFirstResolvesField(c: Cache, o: Oracle, kind: TypeHandle, m: Member, h: TypeHandle)
    requires m.declaringType.Some?
    ensures var key := MemberKey(KindText(kind), Text(m.declaringType.value.fullName), m.name);
            var r := GetAttrsFieldFirst(c, o, kind, Field(m, h));
            && r.Ok?
            && (key in c ==> r.value.attrs == c[key])
            && (key !in c && Coherent(o) ==> r.value.attrs == o.declared(OfMember(m), kind))
            && r.value.cache[key] == r.value.attrs
  {
  }

  /** Entering at the field rung changes the answer for field handles only. */
  lemma FieldFirstChangesOnlyFields(c: Cache, o: Oracle, kind: TypeHandle, s: Subject)
    requires !s.Field?
    ensures GetAttrsFieldFirst(c, o, kind, s) == GetAttrs(c, o, kind, s)
  {
  }
}
