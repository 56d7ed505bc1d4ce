/**
 * Concrete scenarios: a marker attribute on a method, read back through
 * GetAttr, and a marker attribute on a field, which the public entry does
 * not see.
 */
module Scenarios {
  import opened Reflection
  import opened AttrCache
  import opened AttrHelper

  const Marker := TypeHandle(1, Some("Demo.MarkerAttribute"))
  const Foo := TypeHandle(2, Some("Demo.Foo"))
  const RuntimeMethodInfo := TypeHandle(3, Some("System.Reflection.RuntimeMethodInfo"))
  const RtFieldInfo := TypeHandle(4, Some("System.Reflection.RtFieldInfo"))

  /** Method Foo.Bar and field Foo.Count, each carrying [Marker("x")]. */
  const Bar := Member(5, Some(Foo), "Bar")
  const Count := Member(6, Some(Foo), "Count")
  const MarkerX := Attr(Marker, ["x"])

  /** Reflection over this small world: only Foo.Bar and Foo.Count carry a
      Marker, written on themselves. */
  function World(): Oracle {
    Oracle((e: Entity, k: TypeHandle) => k == Marker && (e == OfMember(Bar) || e == OfMember(Count)),
           (e: Entity, k: TypeHandle) => if k == Marker && (e == OfMember(Bar) || e == OfMember(Count)) then [MarkerX] else [])
  }

  /** GetAttr<Marker> on the handle of Foo.Bar, from an empty cache, yields
      the marker with payload "x" and caches it under "kind type member". */
  lemma MarkerOnMethod()
    ensures GetAttr(map[], World(), Marker, Method(Bar, RuntimeMethodInfo))
            == Ok(Single(Some(MarkerX), map["Demo.MarkerAttribute Demo.Foo Bar" := [MarkerX]]))
  {
    assert MemberKey("Demo.MarkerAttribute", "Demo.Foo", "Bar") == "Demo.MarkerAttribute Demo.Foo Bar";
  }

  /** As written, GetAttrs<Marker> on the handle of field Foo.Count misses
      the field's marker: it introspects the handle class RtFieldInfo and
      caches an empty array under that class's key. */
  lemma FieldMarkerMissed()
    ensures GetAttrs(map[], World(), Marker, Field(Count, RtFieldInfo))
            == Ok(Answer([], map[TypeKey("Demo.MarkerAttribute", "System.Reflection.RtFieldInfo") := []], true))
  {
    var key := TypeKey("Demo.MarkerAttribute", "System.Reflection.RtFieldInfo");
    assert !World().defines(OfType(RtFieldInfo), Marker);
    var r := Resolve(map[], key, World(), OfType(RtFieldInfo), Marker);
    assert r == Answer([], map[key := []], true);
    assert GetAttrs(map[], World(), Marker, Field(Count, RtFieldInfo)) == Ok(r);
  }

  /** Entered at the field rung, the same call finds the field's marker. */
  lemma FieldMarkerFoundFieldFirst()
    ensures GetAttrsFieldFirst(map[], World(), Marker, Field(Count, RtFieldInfo))
            == Ok(Answer([MarkerX], map["Demo.MarkerAttribute Demo.Foo Count" := [MarkerX]], true))
  {
    assert World().defines(OfMember(Count), Marker);
    assert World().declared(OfMember(Count), Marker) == [MarkerX];
    assert MemberKey("Demo.MarkerAttribute", "Demo.Foo", "Count") == "Demo.MarkerAttribute Demo.Foo Count";
  }
}
