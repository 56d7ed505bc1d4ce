/**
 * The process-wide attribute cache: a map from a synthetic string key to the
 * attribute array stored under it, the key-construction rule, and the
 * hit-or-miss step every rung of the lookup ladder performs.
 */
module AttrCache {
  import opened Reflection

  /** The static Hashtable: cache key to attribute array. */
  type Cache = map<string, seq<Attr>>

  /** `c'` keeps every entry of `c`, with the same value. */
  ghost predicate Extends(c: Cache, c': Cache) {
    forall key :: key in c ==> key in c' && c'[key] == c[key]
  }

  /** The only change a call may make: every entry of `c` kept with its
      value, and at most one new key. */
  ghost predicate InsertOnly(c: Cache, c': Cache) {
    Extends(c, c') && |c'.Keys - c.Keys| <= 1
  }

  /** Hashtable.Add, which throws on a key already present: callers must
      show the key absent. The cache is never updated or shrunk otherwise. */
  function Add(c: Cache, key: string, v: seq<Attr>): (c': Cache)
    requires key !in c
    ensures c'.Keys == c.Keys + {key}
    ensures key in c' && c'[key] == v
    ensures Extends(c, c')
  {
    c[key := v]
  }

  /** What one rung returns: the attribute array, the cache after the call,
      and whether the introspection oracle was consulted. */
  datatype Answer = Answer(attrs: seq<Attr>, cache: Cache, consulted: bool)

  /** The step shared by every rung: ContainsKey on `key`; on a hit the
      stored array, on a miss an introspection of `e` whose result is added
      under `key`. */
  function Resolve(c: Cache, key: string, o: Oracle, e: Entity, k: TypeHandle): (r: Answer)
    ensures r.cache.Keys == c.Keys + {key}
    ensures InsertOnly(c, r.cache)
    ensures key in r.cache && r.cache[key] == r.attrs
    ensures key in c ==> r.attrs == c[key] && r.cache == c && !r.consulted
    ensures key !in c ==> r.consulted && r.attrs == Introspect(o, e, k)
    ensures key !in c && !o.defines(e, k) ==> r.attrs == []
    ensures key !in c && Coherent(o) ==> r.attrs == o.declared(e, k)
  {
    if key in c then
      Answer(c[key], c, false)
    else
      IntrospectOwn(o, e, k);
      var v := Introspect(o, e, k);
      var c' := Add(c, key, v);
      assert c'.Keys - c.Keys == {key};
      Answer(v, c', true)
  }

  /** On a hit the stored array is returned whatever the oracle would say:
      the oracle is not consulted. */
  lemma HitIgnoresOracle(c: Cache, key: string, o1: Oracle, o2: Oracle, e: Entity, k: TypeHandle)
    requires key in c
    ensures Resolve(c, key, o1, e, k) == Resolve(c, key, o2, e, k) == Answer(c[key], c, false)
  {
  }

  /** Key of a property or method rung: attribute kind, declaring type and
      member name, separated by single spaces. */
  function MemberKey(kind: string, declaring: string, name: string): string {
    kind + " " + declaring + " " + name
  }

  /** Key of the instance rung: attribute kind and runtime type name. */
  function TypeKey(kind: string, runtimeType: string): string {
    kind + " " + runtimeType
  }

  predicate SpaceFree(s: string) {
    forall i :: 0 <= i < |s| ==> s[i] != ' '
  }

  /** Splits a string at every space, keeping empty pieces: the inverse of
      joining space-free pieces with single spaces. */
  function Split(s: string): (parts: seq<string>)
    ensures |parts| >= 1
  {
    if s == [] then [""]
    else
      var rest := Split(s[1..]);
      if s[0] == ' ' then [""] + rest else [[s[0]] + rest[0]] + rest[1..]
  }

  lemma {:induction false} SplitSpaceFree(s: string)
    requires SpaceFree(s)
    ensures Split(s) == [s]
  {
    if s != [] {
      SplitSpaceFree(s[1..]);
      assert [s[0]] + s[1..] == s;
    }
  }

  lemma {:induction false} SplitJoin(a: string, b: string)
    requires SpaceFree(a)
    ensures Split(a + " " + b) == [a] + Split(b)
  {
    var s := a + " " + b;
    if a == [] {
      assert s[0] == ' ' && s[1..] == b;
    } else {
      assert s[0] == a[0] && s[1..] == a[1..] + " " + b;
      SplitJoin(a[1..], b);
      assert [a[0]] + a[1..] == a;
    }
  }

  /** A member key splits back into its three parts when none contains a space. */
  lemma MemberKeyRoundTrip(kind: string, declaring: string, name: string)
    requires SpaceFree(kind) && SpaceFree(declaring) && SpaceFree(name)
    ensures Split(MemberKey(kind, declaring, name)) == [kind, declaring, name]
  {
    assert MemberKey(kind, declaring, name) == kind + " " + (declaring + " " + name);
    SplitJoin(kind, declaring + " " + name);
    SplitJoin(declaring, name);
    SplitSpaceFree(name);
  }

  /** A type key splits back into its two parts when neither contains a space. */
  lemma TypeKeyRoundTrip(kind: string, runtimeType: string)
    requires SpaceFree(kind) && SpaceFree(runtimeType)
    ensures Split(TypeKey(kind, runtimeType)) == [kind, runtimeType]
  {
    SplitJoin(kind, runtimeType);
    SplitSpaceFree(runtimeType);
  }

  /** With space-free names, member keys tell apart attribute kinds,
      declaring types and member names. */
  lemma MemberKeyInjective(kind: string, declaring: string, name: string,
                           kind': string, declaring': string, name': string)
    requires SpaceFree(kind) && SpaceFree(declaring) && SpaceFree(name)
    requires SpaceFree(kind') && SpaceFree(declaring') && SpaceFree(name')
    ensures MemberKey(kind, declaring, name) == MemberKey(kind', declaring', name')
            <==> kind == kind' && declaring == declaring' && name == name'
  {
    MemberKeyRoundTrip(kind, declaring, name);
    MemberKeyRoundTrip(kind', declaring', name');
  }

  /** The characters after a join at a space are those of a space-free
      piece: none of them is a space. */
  lemma SpaceFreeTail(a: string, b: string)
    requires SpaceFree(b)
    ensures var x := a + " " + b;
            x[|a|] == ' ' && forall j :: |a| < j < |x| ==> x[j] != ' '
  {
    var x := a + " " + b;
    forall j | |a| < j < |x|
      ensures x[j] != ' '
    {
      assert x[j] == b[j - |a| - 1];
    }
  }

  /** Joining at a space is unambiguous when the pieces after the space
      contain none: the last space of the string is the one joined at. */
  lemma LastSpaceSplit(a: string, b: string, a': string, b': string)
    requires SpaceFree(b) && SpaceFree(b')
    requires a + " " + b == a' + " " + b'
    ensures a == a' && b == b'
  {
    var x := a + " " + b;
    SpaceFreeTail(a, b);
    SpaceFreeTail(a', b');
    assert |a| <= |a'|;
    assert |a'| <= |a|;
    assert a == x[..|a|] == a';
    assert b == x[|a| + 1..] == b';
  }

  /** For one attribute kind, member keys tell apart declaring types and
      member names as soon as the member names are space-free; the kind
      and declaring type names may contain spaces. */
  lemma MemberKeySameKindInjective(kind: string, declaring: string, name: string,
                                   declaring': string, name': string)
    requires SpaceFree(name) && SpaceFree(name')
    ensures MemberKey(kind, declaring, name) == MemberKey(kind, declaring', name')
            <==> declaring == declaring' && name == name'
  {
    if MemberKey(kind, declaring, name) == MemberKey(kind, declaring', name') {
      var p := kind + " ";
      assert MemberKey(kind, declaring, name) == p + (declaring + " " + name);
      assert MemberKey(kind, declaring', name') == p + (declaring' + " " + name');
      assert declaring + " " + name == MemberKey(kind, declaring, name)[|p|..];
      LastSpaceSplit(declaring, name, declaring', name');
    }
  }

  /** For one attribute kind and one member name, member keys tell apart
      declaring types, whatever characters the names contain. */
  lemma SameNameKeyInjective(kind: string, declaring: string, declaring': string, name: string)
    ensures MemberKey(kind, declaring, name) == MemberKey(kind, declaring', name)
            <==> declaring == declaring'
  {
    if MemberKey(kind, declaring, name) == MemberKey(kind, declaring', name) {
      var x := MemberKey(kind, declaring, name);
      assert x == (kind + " ") + declaring + (" " + name);
      assert MemberKey(kind, declaring', name) == (kind + " ") + declaring' + (" " + name);
      assert declaring == x[|kind| + 1..|kind| + 1 + |declaring|];
    }
  }

  /** With space-free names, type keys tell apart kinds and runtime types. */
  lemma TypeKeyInjective(kind: string, runtimeType: string, kind': string, runtimeType': string)
    requires SpaceFree(kind) && SpaceFree(runtimeType)
    requires SpaceFree(kind') && SpaceFree(runtimeType')
    ensures TypeKey(kind, runtimeType) == TypeKey(kind', runtimeType')
            <==> kind == kind' && runtimeType == runtimeType'
  {
    TypeKeyRoundTrip(kind, runtimeType);
    TypeKeyRoundTrip(kind', runtimeType');
  }

  /** With space-free names, a member entry and an instance entry never
      share a key. */
  lemma MemberKeyNotTypeKey(kind: string, declaring: string, name: string,
                            kind': string, runtimeType: string)
    requires SpaceFree(kind) && SpaceFree(declaring) && SpaceFree(name)
    requires SpaceFree(kind') && SpaceFree(runtimeType)
    ensures MemberKey(kind, declaring, name) != TypeKey(kind', runtimeType)
  {
    MemberKeyRoundTrip(kind, declaring, name);
    TypeKeyRoundTrip(kind', runtimeType);
  }
}
