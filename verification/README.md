# Mo.AttrHelper in Dafny

Mo.AttrHelper is one static C# class. It looks up .NET custom attributes of a
requested kind on an object and memoises the answer in a process-wide
`Hashtable`. This project models that class as pure functions over an
immutable cache, `map<string, seq<Attr>>`. Each call takes the cache before
it and returns the cache after it.

- `Reflection` (reflection.dfy) covers what the class asks of .NET
  reflection: type handles with nullable full names, and members with a
  nullable declaring type. The two reflection calls are fields of an `Oracle`
  value passed in by the caller. `defines` stands for `IsDefined(T)`, which
  searches inherited attributes too. `declared` stands for
  `GetCustomAttributes(T, false)`, which returns only the entity's own attributes.
- `AttrCache` (attr_cache.dfy) holds the cache, `Hashtable.Add`, the
  hit-or-miss step every rung shares (`Resolve`), and the two key shapes.
  It also has a `Split` inverse that shows when keys are unambiguous.
- `AttrHelper` (attr_helper.dfy) holds the four private rungs, the public
  `GetAttrs` and `GetAttr`, and the properties of single and paired calls.
  `TargetFrom` is a flat reference definition of the ladder: which key a
  call looks up and which entity it introspects on a miss.
- `Replay` (replay.dfy) covers a sequence of calls against one cache. The
  first resolution of each key is final for the rest of the run. The
  oracle is consulted once per new key.
- `Scenarios` (scenarios.dfy) gives concrete worked cases. One is a marker on
  a method, read back through `GetAttr`. The other is a marker on a field,
  which the public entry does not see.

The ladder modelled is the one the code runs. `GetAttrs` enters at
`GetPropertyAttrs`, so the order is property, then method, then the
object's runtime type. `GetFieldAttrs` exists but nothing calls it. A
`FieldInfo` therefore reaches the last rung. There it is keyed and
introspected on its handle class (`RtFieldInfo`), not on the field. The
code itself shows a different intent: `GetFieldAttrs` is private and
unreferenced, yet its else-branch (AttrHelper.cs:73) hands off to
`GetPropertyAttrs`, so it was written as the head of the chain. The model
follows the code as it runs and records the difference under Findings.

Exceptions are modelled as values (`Outcome.Thrown`), not as preconditions:

- A null object throws `NullReferenceException` at `obj.GetType()` in the
  last rung.
- A property or method without a declaring type throws the same exception
  when its key is built.

In both cases the cache is left unchanged. A null `Type.FullName` is
rendered as the empty string, as C# string interpolation does.

## Model

| member | source | states |
|---|---|---|
| `Reflection.IntrospectOwn` | Mo.AttrHelper/AttrHelper.cs:168-174 | A miss yields the empty array when IsDefined is false. When every attribute the entity itself carries is also found by IsDefined, a miss yields exactly the entity's own non-inherited attributes. |
| `AttrCache.Add` | Mo.AttrHelper/AttrHelper.cs:103 | `Hashtable.Add` may only be called with a key that is absent. It adds exactly that key and keeps every old entry. |
| `AttrCache.Resolve` | Mo.AttrHelper/AttrHelper.cs:91-106 | The shared rung step. A hit returns the stored array unchanged, leaves the cache unchanged and does not consult the oracle. A miss consults the oracle and stores the result under the key: an empty array when the kind is not defined, else the entity's own attributes. Afterwards the key maps to the returned array. Old entries are kept and at most one key is new. |
| `AttrCache.HitIgnoresOracle` | Mo.AttrHelper/AttrHelper.cs:92-95 | On a hit, any two oracles give the same answer, so introspection plays no part. |
| `AttrCache.MemberKeyRoundTrip` | Mo.AttrHelper/AttrHelper.cs:90 | A key of the form "kind declaringType member" splits back into its three parts when none of them contains a space. |
| `AttrCache.TypeKeyRoundTrip` | Mo.AttrHelper/AttrHelper.cs:162 | A key of the form "kind runtimeType" splits back into its two parts when neither contains a space. |
| `AttrCache.MemberKeyInjective` | Mo.AttrHelper/AttrHelper.cs:128 | For space-free names, two member keys are equal exactly when kind, declaring type name and member name are all equal. |
| `AttrCache.MemberKeySameKindInjective` | Mo.AttrHelper/AttrHelper.cs:128 | For one attribute kind, two member keys are equal exactly when declaring type name and member name are equal, provided only the two member names are space-free. Kind and declaring type names, such as closed generic full names, may contain spaces. |
| `AttrCache.SameNameKeyInjective` | Mo.AttrHelper/AttrHelper.cs:128 | For one attribute kind and one member name, two member keys are equal exactly when the declaring type names are equal, whatever characters any name contains. |
| `AttrCache.TypeKeyInjective` | Mo.AttrHelper/AttrHelper.cs:162 | For space-free names, two type keys are equal exactly when kind and runtime type name are equal. |
| `AttrCache.MemberKeyNotTypeKey` | Mo.AttrHelper/AttrHelper.cs:128-162 | For space-free names, a member entry never shares its key with an instance entry. |
| `AttrHelper.GetClassAttrs` | Mo.AttrHelper/AttrHelper.cs:160-179 | The last rung throws exactly when the object is null. Otherwise it resolves the object's runtime type under "kind runtimeTypeName". |
| `AttrHelper.GetMethodAttrs` | Mo.AttrHelper/AttrHelper.cs:122-151 | Entered here, a method handle is resolved on the method under "kind declaringType name". Every other handle is resolved as by the last rung. |
| `AttrHelper.GetPropertyAttrs` | Mo.AttrHelper/AttrHelper.cs:84-113 | Entered here, property and method handles are resolved as members. Every other object, fields included, is resolved on its runtime type. |
| `AttrHelper.GetFieldAttrs` | Mo.AttrHelper/AttrHelper.cs:46-75 | Entered here, field, property and method handles are resolved as members. Only other objects are resolved on their runtime type. |
| `AttrHelper.GetAttrs` | Mo.AttrHelper/AttrHelper.cs:20-26 | The public entry uses the kind's full name and enters at the property rung. It throws exactly for a null object, or for a property or method without a declaring type. A field or plain object is resolved on its runtime type. The cache changes insert-only. |
| `AttrHelper.GetAttrsFieldFirst` | Mo.AttrHelper/AttrHelper.cs:46-75 | The ladder entered at GetFieldAttrs. It throws exactly for a null object, or for a member handle without a declaring type. The cache changes insert-only. |
| `AttrHelper.GetAttr` | Mo.AttrHelper/AttrHelper.cs:34-37 | Throws exactly when GetAttrs throws. Otherwise it returns GetAttrs' first element, or null when that array is empty, and leaves the same cache. |
| `AttrHelper.LookupAgrees` | Mo.AttrHelper/AttrHelper.cs:86-179 | Entered at any rung, the chain of if/else hand-offs resolves the key and entity given by the reference ladder. |
| `AttrHelper.Idempotent` | Mo.AttrHelper/AttrHelper.cs:92-106 | A repeated call with the same kind and object returns the same array. It leaves the cache unchanged and consults no oracle, whatever that oracle would answer. |
| `AttrHelper.SharedKey` | Mo.AttrHelper/AttrHelper.cs:128-167 | Two objects that map to one key share one entry. Whichever is resolved first fixes the answer for the other. |
| `AttrHelper.DistinctKeysIndependent` | Mo.AttrHelper/AttrHelper.cs:130-144 | If two objects map to different keys, resolving one first does not change the other's answer or whether the other consults the oracle. |
| `AttrHelper.OverloadsShareKey` | Mo.AttrHelper/AttrHelper.cs:128 | Overloads with the same declaring type name and method name share one key. The overload resolved first fixes the array for all of them. |
| `AttrHelper.InstancesShareKey` | Mo.AttrHelper/AttrHelper.cs:162 | All objects whose runtime types have the same full name share one key. |
| `AttrHelper.DistinctMethodsIndependent` | Mo.AttrHelper/AttrHelper.cs:128 | Methods that differ in declaring type or name resolve independently: resolving one first changes neither the other's array nor whether the other consults the oracle. Same-named methods on different declaring types need no condition on names; methods with two different names need those two names space-free. |
| `AttrHelper.FieldsShareHandleKey` | Mo.AttrHelper/AttrHelper.cs:25 | As written, every field shares the entry of its handle class, whatever its declaring type and name. |
| `AttrHelper.FieldFirstResolvesField` | Mo.AttrHelper/AttrHelper.cs:48-68 | Entered at the field rung, a field is resolved under "kind declaringType name". A miss yields the field's own attributes. |
| `AttrHelper.FieldFirstChangesOnlyFields` | Mo.AttrHelper/AttrHelper.cs:70-74 | Entering at the field rung changes the outcome for field handles only. |
| `Replay.CacheAfter` | Mo.AttrHelper/AttrHelper.cs:92-104 | One call adds at most its own key to the cache and keeps every old entry. |
| `Replay.ResultOf` | Mo.AttrHelper/AttrHelper.cs:92-106 | One call throws exactly when it has no key. Otherwise it returns the array the cache holds afterwards under its key. That array is the old entry on a hit, or the introspected array on a miss. |
| `Replay.ConsultsOn` | Mo.AttrHelper/AttrHelper.cs:96-104 | One call consults the oracle exactly when its key is new. |
| `Replay.Calls` | Mo.AttrHelper/AttrHelper.cs:12 | A run over one process-wide cache has one outcome per call and keeps every entry of the starting cache. |
| `Replay.RunAddsItsKeys` | Mo.AttrHelper/AttrHelper.cs:12 | After a run, the cache holds exactly the starting keys plus the keys of the calls that did not throw. |
| `Replay.LookupIsCall` | Mo.AttrHelper/AttrHelper.cs:20-26 | One public call is its classified call: same outcome, cache and consultation. |
| `Replay.CallsOfAgree` | Mo.AttrHelper/AttrHelper.cs:20-26 | Calling the public entry repeatedly on objects gives the same run as the classified calls. |
| `Replay.ConsultsOncePerNewKey` | Mo.AttrHelper/AttrHelper.cs:96-104 | Over a run, the oracle is consulted exactly once per key that the run adds to the cache. |
| `Replay.CallsFollowFirstResolution` | Mo.AttrHelper/AttrHelper.cs:92-106 | Every call in a run returns the starting cache's entry for its key. If there is none, it returns what introspecting the first call with that key produced. |
| `Replay.SameKeySameAnswer` | Mo.AttrHelper/AttrHelper.cs:92-106 | Two calls in one run that resolve the same key return equal arrays. |
| `Scenarios.MarkerOnMethod` | Mo.AttrHelper/AttrHelper.cs:34-37 | Example: `GetAttr<Marker>` on method `Foo.Bar`, which carries `[Marker("x")]`, returns that marker. The result is cached under "Demo.MarkerAttribute Demo.Foo Bar". |
| `Scenarios.FieldMarkerMissed` | Mo.AttrHelper/AttrHelper.cs:25 | Example: `GetAttrs<Marker>` on field `Foo.Count`, which carries `[Marker("x")]`, returns an empty array. The empty array is cached under the `RtFieldInfo` key. |
| `Scenarios.FieldMarkerFoundFieldFirst` | Mo.AttrHelper/AttrHelper.cs:46-68 | Example: entered at the field rung, the same call returns the field's marker. |

## Findings

| source | as written | input that shows it | evidently intended | confidence | as-written member | corrected member |
|---|---|---|---|---|---|---|
| Mo.AttrHelper/AttrHelper.cs:25 | `GetAttrs` enters the ladder at `GetPropertyAttrs`. `GetFieldAttrs` is never called, so a `FieldInfo` is keyed and introspected on its handle class. | `GetAttrs<Marker>(typeof(Foo).GetField("Count"))` where `Foo.Count` carries `[Marker("x")]`. It returns an empty array and caches it under "Demo.MarkerAttribute System.Reflection.RtFieldInfo". Every later `Marker` query on a field with the same handle class gets that same entry. | Enter at `GetFieldAttrs`, which falls through to the property rung. Then a field yields its own attributes under "kind declaringType fieldName". | medium; not executed | `Scenarios.FieldMarkerMissed` | `AttrHelper.FieldFirstResolvesField` |

The corrected ladder is `AttrHelper.GetAttrsFieldFirst`. The properties of
single calls (`Idempotent`, `SharedKey`, `DistinctKeysIndependent`) and the
whole `Replay` theory are stated for any entry rung. So they hold for the
ladder as written and for the corrected one alike.

## Left out

- Reflection itself is not modelled: `IsDefined`, `GetCustomAttributes`, `GetType()`, `DeclaringType` and `FullName`. They are data and oracle functions supplied by the caller, and their results are taken as given.
- Concurrency is out of scope. This covers the thread-safety comment on the `Hashtable`, and the race in which two threads miss on the same key and the second `Add` throws a duplicate-key exception. The model is sequential, and `AttrCache.Add` proves that `Add` never meets a present key in sequential use.
- The `(T[])` casts and the `where T : Attribute` constraint are left out. A cast would fail only if two attribute kinds in different assemblies shared a full name and so shared a key. Attributes are untyped values here.
- Array identity is left out. The C# code returns the very array object stored in the cache. The model returns an equal sequence.
- The `MemoryCache` expiry in the comment at line 11 is not implemented in the code, so it is not modelled either.
- Exceptions thrown inside reflection are left out, for example from an attribute constructor or a type that fails to load. Only the `NullReferenceException` paths of the class itself are modelled.
- `AttrCache.MemberKeyInjective`: proved only for names without spaces. Full names of closed generic types contain spaces (for example ", Version=..., Culture=..."), and for such names the key format alone does not rule out two entities sharing a key.
- `AttrCache.TypeKeyInjective`: proved only for names without spaces, for the same reason.
- `AttrCache.MemberKeyNotTypeKey`: proved only for names without spaces, for the same reason.
- `AttrHelper.DistinctMethodsIndependent`: when the two method names differ, proved only for method names without spaces. C# identifiers contain none, but metadata allows them, and then `MemberKey(k, "X", "a b") == MemberKey(k, "X a", "b")` is a real collision.
