/**
 * A sequence of lookups against one process-wide cache, as a program
 * calling GetAttrs repeatedly sees it. The cache makes the first resolution
 * of each key final: every later call with that key gets the same array,
 * and the introspection oracle is consulted once per new key.
 *
 * The theory is stated over calls already classified by the ladder (the key
 * and entity they resolve, or the exception they throw first); CallsOfAgree
 * connects it to successive Lookup calls on subjects.
 */
module Replay {
  import opened Reflection
  import opened AttrCache
  import opened AttrHelper

  /** One call as a program makes it: attribute kind and object passed in. */
  datatype Query = Query(kind: TypeHandle, subject: Subject)

  /** One call as the ladder classifies it. */
  datatype Call = Call(kind: TypeHandle, target: Outcome<Target>)

  /** What a sequence of calls returns: one outcome per call, the cache
      afterwards, and how many calls consulted the oracle. */
  datatype Run = Run(results: seq<Outcome<seq<Attr>>>, cache: Cache, consults: nat)

  function Classify(entry: Rung, q: Query): Call {
    Call(q.kind, TargetFrom(entry, KindText(q.kind), q.subject))
  }

  function ClassifyAll(entry: Rung, qs: seq<Query>): (cs: seq<Call>)
    ensures |cs| == |qs|
    ensures forall i :: 0 <= i < |qs| ==> cs[i] == Classify(entry, qs[i])
  {
    seq(|qs|, i requires 0 <= i < |qs| => Classify(entry, qs[i]))
  }

  /** The key a call resolves, or None when it throws first. */
  function KeyOf(call: Call): Option<string> {
    match call.target
    case Ok(t) => Some(t.key)
    case Thrown(_) => None
  }

  function KeysOf(cs: seq<Call>): set<string> {
    if cs == [] then {}
    else (if KeyOf(cs[0]).Some? then {KeyOf(cs[0]).value} else {}) + KeysOf(cs[1..])
  }

  lemma {:induction false} KeyInKeysOf(cs: seq<Call>, i: nat)
    requires i < |cs| && KeyOf(cs[i]).Some?
    ensures KeyOf(cs[i]).value in KeysOf(cs)
  {
    if i > 0 {
      assert cs[1..][i - 1] == cs[i];
      KeyInKeysOf(cs[1..], i - 1);
    }
  }

  /** The cache after call `call` made against cache `c`. */
  function CacheAfter(c: Cache, o: Oracle, call: Call): (c': Cache)
    ensures c'.Keys == c.Keys + (if KeyOf(call).Some? then {KeyOf(call).value} else {})
    ensures Extends(c, c')
  {
    match Perform(call.target, c, o, call.kind)
    case Thrown(_) => c
    case Ok(a) => a.cache
  }

  /** What call `call` made against cache `c` returns. */
  function ResultOf(c: Cache, o: Oracle, call: Call): (r: Outcome<seq<Attr>>)
    ensures r.Thrown? <==> KeyOf(call).None?
    ensures r.Ok? ==> r.value == CacheAfter(c, o, call)[KeyOf(call).value]
    ensures r.Ok? && KeyOf(call).value in c ==> r.value == c[KeyOf(call).value]
    ensures r.Ok? && KeyOf(call).value !in c ==> r.value == Introspect(o, call.target.value.entity, call.kind)
  {
    match Perform(call.target, c, o, call.kind)
    case Thrown(e) => Thrown(e)
    case Ok(a) => Ok(a.attrs)
  }

  /** Whether call `call` made against cache `c` consults the oracle. */
  function ConsultsOn(c: Cache, o: Oracle, call: Call): (b: bool)
    ensures b <==> KeyOf(call).Some? && KeyOf(call).value !in c
  {
    match Perform(call.target, c, o, call.kind)
    case Thrown(_) => false
    case Ok(a) => a.consulted
  }

  /** The calls `cs`, in order, starting from cache `c`. */
  function Calls(c: Cache, o: Oracle, cs: seq<Call>): (r: Run)
    ensures |r.results| == |cs|
    ensures Extends(c, r.cache)
    decreases |cs|
  {
    if cs == [] then Run([], c, 0)
    else
      var rest := Calls(CacheAfter(c, o, cs[0]), o, cs[1..]);
      Run([ResultOf(c, o, cs[0])] + rest.results, rest.cache,
          rest.consults + if ConsultsOn(c, o, cs[0]) then 1 else 0)
  }

  /** The cache after a run is the cache after its tail, run from the cache
      the first call leaves. */
  lemma CallsCacheShift(c: Cache, o: Oracle, cs: seq<Call>)
    requires cs != []
    ensures Calls(c, o, cs).cache == Calls(CacheAfter(c, o, cs[0]), o, cs[1..]).cache
  {
  }

  /** The keys of a run are the first call's key and the keys of its tail. */
  lemma KeysOfShift(cs: seq<Call>)
    requires cs != []
    ensures KeysOf(cs) == (if KeyOf(cs[0]).Some? then {KeyOf(cs[0]).value} else {}) + KeysOf(cs[1..])
  {
  }

  /** A run adds to the cache exactly the keys its calls resolve. */
  lemma {:induction false} RunAddsItsKeys(c: Cache, o: Oracle, cs: seq<Call>)
    ensures Calls(c, o, cs).cache.Keys == c.Keys + KeysOf(cs)
    decreases |cs|
  {
    if cs != [] {
      var c1 := CacheAfter(c, o, cs[0]);
      RunAddsItsKeys(c1, o, cs[1..]);
      CallsCacheShift(c, o, cs);
      KeysOfShift(cs);
    }
  }

  /** The same calls made on subjects, one Lookup after another. */
  function CallsOf(entry: Rung, c: Cache, o: Oracle, qs: seq<Query>): (r: Run)
    decreases |qs|
  {
    if qs == [] then Run([], c, 0)
    else
      var a := Lookup(entry, c, o, qs[0].kind, qs[0].subject);
      var rest := CallsOf(entry, if a.Ok? then a.value.cache else c, o, qs[1..]);
      Run([if a.Ok? then Ok(a.value.attrs) else Thrown(a.exception)] + rest.results, rest.cache,
          rest.consults + if a.Ok? && a.value.consulted then 1 else 0)
  }

  /** One Lookup is one classified call: same outcome, cache and consultation. */
  lemma LookupIsCall(entry: Rung, c: Cache, o: Oracle, q: Query)
    ensures var a := Lookup(entry, c, o, q.kind, q.subject);
            var call := Classify(entry, q);
            && (if a.Ok? then a.value.cache else c) == CacheAfter(c, o, call)
            && (if a.Ok? then Ok(a.value.attrs) else Thrown(a.exception)) == ResultOf(c, o, call)
            && (a.Ok? && a.value.consulted) == ConsultsOn(c, o, call)
  {
    LookupAgrees(entry, c, o, q.kind, q.subject);
  }

  /** Successive Lookup calls are the classified calls run through the cache. */
  lemma {:induction false} CallsOfAgree(entry: Rung, c: Cache, o: Oracle, qs: seq<Query>)
    ensures CallsOf(entry, c, o, qs) == Calls(c, o, ClassifyAll(entry, qs))
    decreases |qs|
  {
    if qs != [] {
      var cs := ClassifyAll(entry, qs);
      LookupIsCall(entry, c, o, qs[0]);
      assert cs[1..] == ClassifyAll(entry, qs[1..]);
      CallsOfAgree(entry, CacheAfter(c, o, cs[0]), o, qs[1..]);
    }
  }

  /** Counting new keys one call at a time. */
  lemma NewKeysStep(rest: set<string>, before: set<string>, key: string)
    ensures key !in before ==>
              |({key} + rest) - before| == |rest - (before + {key})| + 1
    ensures key in before ==>
              ({key} + rest) - before == rest - (before + {key})
  {
    if key !in before {
      assert ({key} + rest) - before == (rest - (before + {key})) + {key};
    }
  }

  /** The oracle is consulted exactly once per key the run adds to the cache. */
  lemma {:induction false} ConsultsOncePerNewKey(c: Cache, o: Oracle, cs: seq<Call>)
    ensures Calls(c, o, cs).consults == |KeysOf(cs) - c.Keys|
    decreases |cs|
  {
    if cs != [] {
      var c1 := CacheAfter(c, o, cs[0]);
      ConsultsOncePerNewKey(c1, o, cs[1..]);
      var n := if ConsultsOn(c, o, cs[0]) then 1 else 0;
      assert Calls(c, o, cs).consults == Calls(c1, o, cs[1..]).consults + n;
      match KeyOf(cs[0])
      case None =>
        assert KeysOf(cs) == KeysOf(cs[1..]);
      case Some(k) =>
        assert KeysOf(cs) == {k} + KeysOf(cs[1..]);
        NewKeysStep(KeysOf(cs[1..]), c.Keys, k);
    }
  }

  /** The position of the first call in `cs` that resolves `key`. */
  function FirstWithKey(cs: seq<Call>, key: string): (j: nat)
    requires key in KeysOf(cs)
    ensures j < |cs| && KeyOf(cs[j]) == Some(key)
    ensures forall i :: 0 <= i < j ==> KeyOf(cs[i]) != Some(key)
  {
    if KeyOf(cs[0]) == Some(key) then 0
    else
      var j := FirstWithKey(cs[1..], key);
      assert forall i :: 1 <= i < j + 1 ==> cs[i] == cs[1..][i - 1];
      j + 1
  }

  /** Reference definition of the answer call `i` must get: the entry the
      initial cache already holds for its key, or else what introspecting
      the first call with that key produced. */
  function FirstResolution(c: Cache, o: Oracle, cs: seq<Call>, i: nat): Outcome<seq<Attr>>
    requires i < |cs|
  {
    match cs[i].target
    case Thrown(e) => Thrown(e)
    case Ok(t) =>
      if t.key in c then Ok(c[t.key])
      else
        KeyInKeysOf(cs, i);
        var j := FirstWithKey(cs, t.key);
        Ok(Introspect(o, cs[j].target.value.entity, cs[j].kind))
  }

  /** Call `i > 0` of a run is call `i - 1` of the run after the first call. */
  lemma CallsShift(c: Cache, o: Oracle, cs: seq<Call>, i: nat)
    requires 0 < i < |cs|
    ensures Calls(c, o, cs).results[i] == Calls(CacheAfter(c, o, cs[0]), o, cs[1..]).results[i - 1]
  {
  }

  /** The reference answer shifts the same way. */
  lemma FirstResolutionShift(c: Cache, o: Oracle, cs: seq<Call>, i: nat)
    requires 0 < i < |cs|
    ensures FirstResolution(c, o, cs, i) == FirstResolution(CacheAfter(c, o, cs[0]), o, cs[1..], i - 1)
  {
    var c1 := CacheAfter(c, o, cs[0]);
    var rest := cs[1..];
    assert rest[i - 1] == cs[i];
    var k := KeyOf(cs[i]);
    if k.Some? && k.value !in c {
      if KeyOf(cs[0]) == k {
        assert FirstWithKey(cs, k.value) == 0;
      } else {
        assert k.value !in c1;
        KeyInKeysOf(rest, i - 1);
        var j := FirstWithKey(rest, k.value);
        assert FirstWithKey(cs, k.value) == j + 1;
        assert cs[j + 1] == rest[j];
      }
    }
  }

  /** Memoisation over a whole run: every call returns what the first
      resolution of its key fixed. */
  lemma {:induction false} CallsFollowFirstResolution(c: Cache, o: Oracle, cs: seq<Call>, i: nat)
    requires i < |cs|
    ensures Calls(c, o, cs).results[i] == FirstResolution(c, o, cs, i)
    decreases i
  {
    if i > 0 {
      CallsShift(c, o, cs, i);
      FirstResolutionShift(c, o, cs, i);
      CallsFollowFirstResolution(CacheAfter(c, o, cs[0]), o, cs[1..], i - 1);
    } else if KeyOf(cs[0]).Some? && KeyOf(cs[0]).value !in c {
      assert FirstWithKey(cs, KeyOf(cs[0]).value) == 0;
    }
  }

  /** Two calls in one run that resolve the same key get equal arrays. */
  lemma SameKeySameAnswer(c: Cache, o: Oracle, cs: seq<Call>, i: nat, j: nat)
    requires i < |cs| && j < |cs|
    requires KeyOf(cs[i]).Some? && KeyOf(cs[i]) == KeyOf(cs[j])
    ensures Calls(c, o, cs).results[i] == Calls(c, o, cs).results[j]
    ensures Calls(c, o, cs).results[i].Ok?
  {
    CallsFollowFirstResolution(c, o, cs, i);
    CallsFollowFirstResolution(c, o, cs, j);
  }
}
