/**
 * Grouping of call-interception requests for the generated Groovy call
 * interceptors: requests that ask for Groovy interception are grouped, those
 * for constructors by the type that owns the constructor and all others by
 * the JVM method name they intercept, each group set in an insertion-ordered
 * map so that groups come out in the order their key first occurs.
 *
 * The function that gives the intercepted JVM method name of a callable is
 * not part of this model; it is a parameter.
 */
module InterceptorGrouping {

  /** The name of a JVM type, as an internal name such as `java/io/File`. */
  datatype TypeName = TypeName(internalName: string)

  /** What kind of callable is intercepted; only constructors are told apart from the rest. */
  datatype CallableKind = AfterConstructor | OtherKind(name: string)

  /** The intercepted callable: its kind, the type that owns it and its name. */
  datatype Callable = Callable(kind: CallableKind, owner: TypeName, callableName: string)

  /** A request to intercept a callable; `interceptGroovyCalls` is the presence of that request extra. */
  datatype Request = Request(interceptGroovyCalls: bool, callable: Callable)

  /** One interceptor spec: a key and the requests collected under it. */
  datatype Group<K> = Group(key: K, requests: seq<Request>)

  /** The result: the named-callable specs, then the constructor specs, each in map order. */
  datatype CallInterceptorSpecs = CallInterceptorSpecs(named: seq<Group<string>>, constructors: seq<Group<TypeName>>)

  // ---------------------------------------------------------------------------
  // Groups as a sequence in insertion order

  function Keys<K>(gs: seq<Group<K>>): (r: seq<K>)
    ensures |r| == |gs| && forall i :: 0 <= i < |gs| ==> r[i] == gs[i].key
  {
    if gs == [] then [] else [gs[0].key] + Keys(gs[1..])
  }

  /** The requests under key `k`: those of the first group with that key, none without one. */
  function Lookup<K(==)>(gs: seq<Group<K>>, k: K): seq<Request> {
    if gs == [] then []
    else if gs[0].key == k then gs[0].requests
    else Lookup(gs[1..], k)
  }

  predicate Distinct<K(==)>(ks: seq<K>) {
    forall i, j :: 0 <= i < j < |ks| ==> ks[i] != ks[j]
  }

  /** Adding a request under key `k`: it joins the group with that key, or opens a new group at the end. */
  function AddToGroup<K(==,!new)>(gs: seq<Group<K>>, k: K, r: Request): (res: seq<Group<K>>)
    ensures Keys(res) == if k in Keys(gs) then Keys(gs) else Keys(gs) + [k]
    ensures forall k' :: Lookup(res, k') == if k' == k then Lookup(gs, k) + [r] else Lookup(gs, k')
  {
    if gs == [] then [Group(k, [r])]
    else if gs[0].key == k then [Group(k, gs[0].requests + [r])] + gs[1..]
    else
      var rest := AddToGroup(gs[1..], k, r);
      assert ([gs[0]] + rest)[1..] == rest;
      [gs[0]] + rest
  }

  // ---------------------------------------------------------------------------
  // The specification: group a sequence of requests by a key

  /** The keys of the requests, in input order. */
  function KeysOf<K>(rs: seq<Request>, key: Request -> K): (r: seq<K>)
    ensures |r| == |rs| && forall i :: 0 <= i < |rs| ==> r[i] == key(rs[i])
  {
    if rs == [] then [] else KeysOf(rs[..|rs| - 1], key) + [key(rs[|rs| - 1])]
  }

  /** Each key once, at the place it first occurs. */
  function FirstOccurrences<K(==)>(ks: seq<K>): (r: seq<K>)
    decreases |ks|
  {
    if ks == [] then []
    else
      var init := FirstOccurrences(ks[..|ks| - 1]);
      if ks[|ks| - 1] in init then init else init + [ks[|ks| - 1]]
  }

  /** The requests with key `k`, in input order. */
  function WithKey<K(==)>(rs: seq<Request>, key: Request -> K, k: K): seq<Request>
    decreases |rs|
  {
    if rs == [] then []
    else
      var init := WithKey(rs[..|rs| - 1], key, k);
      if key(rs[|rs| - 1]) == k then init + [rs[|rs| - 1]] else init
  }

  /** Grouping into an insertion-ordered map, one request after the other. */
  function Grouped<K(==,!new)>(rs: seq<Request>, key: Request -> K): seq<Group<K>>
    decreases |rs|
  {
    if rs == [] then []
    else AddToGroup(Grouped(rs[..|rs| - 1], key), key(rs[|rs| - 1]), rs[|rs| - 1])
  }

  /** The requests `p` keeps, in input order. */
  function Filter(rs: seq<Request>, p: Request -> bool): (r: seq<Request>)
    ensures forall x :: x in r <==> x in rs && p(x)
    decreases |rs|
  {
    if rs == [] then []
    else
      var init := Filter(rs[..|rs| - 1], p);
      assert rs == rs[..|rs| - 1] + [rs[|rs| - 1]];
      if p(rs[|rs| - 1]) then init + [rs[|rs| - 1]] else init
  }

  predicate IsConstructorRequest(r: Request) {
    r.interceptGroovyCalls && r.callable.kind == AfterConstructor
  }

  predicate IsNamedRequest(r: Request) {
    r.interceptGroovyCalls && r.callable.kind != AfterConstructor
  }

  /** The key of a constructor request: the owner of the constructor. */
  function OwnerKey(r: Request): TypeName {
    r.callable.owner
  }

  /** The key of any other request: the intercepted JVM method name of its callable. */
  function NameKey(nameKey: Callable -> string): Request -> string {
    (r: Request) => nameKey(r.callable)
  }

  /** What `groupRequests` returns, stated on whole sequences. */
  function GroupedRequests(requests: seq<Request>, nameKey: Callable -> string): CallInterceptorSpecs {
    CallInterceptorSpecs(
      Grouped(Filter(requests, IsNamedRequest), NameKey(nameKey)),
      Grouped(Filter(requests, IsConstructorRequest), OwnerKey))
  }

  // ---------------------------------------------------------------------------
  // What the grouping guarantees

  lemma {:induction false} FirstOccurrencesMembers<K>(ks: seq<K>)
    ensures forall k :: k in FirstOccurrences(ks) <==> k in ks
    ensures Distinct(FirstOccurrences(ks))
    decreases |ks|
  {
    if ks != [] {
      FirstOccurrencesMembers(ks[..|ks| - 1]);
      assert ks == ks[..|ks| - 1] + [ks[|ks| - 1]];
    }
  }

  /** Groups come in the order their key first occurs among the requests. */
  lemma {:induction false} GroupedKeyOrder<K(!new)>(rs: seq<Request>, key: Request -> K)
    ensures Keys(Grouped(rs, key)) == FirstOccurrences(KeysOf(rs, key))
    decreases |rs|
  {
    if rs != [] {
      GroupedKeyOrder(rs[..|rs| - 1], key);
      assert KeysOf(rs, key)[..|rs| - 1] == KeysOf(rs[..|rs| - 1], key);
    }
  }

  /** The group of each key holds exactly the requests with that key, in input order. */
  lemma {:induction false} GroupedContents<K(!new)>(rs: seq<Request>, key: Request -> K, k: K)
    ensures Lookup(Grouped(rs, key), k) == WithKey(rs, key, k)
    decreases |rs|
  {
    if rs != [] {
      GroupedContents(rs[..|rs| - 1], key, k);
      GroupedContents(rs[..|rs| - 1], key, key(rs[|rs| - 1]));
    }
  }

  lemma {:induction false} WithKeyMembers<K>(rs: seq<Request>, key: Request -> K, k: K)
    ensures forall r :: r in WithKey(rs, key, k) <==> r in rs && key(r) == k
    decreases |rs|
  {
    if rs != [] {
      WithKeyMembers(rs[..|rs| - 1], key, k);
      assert rs == rs[..|rs| - 1] + [rs[|rs| - 1]];
    }
  }

  /** No two groups share a key. */
  lemma GroupKeysAreDistinct<K(!new)>(rs: seq<Request>, key: Request -> K)
    ensures Distinct(Keys(Grouped(rs, key)))
  {
    GroupedKeyOrder(rs, key);
    FirstOccurrencesMembers(KeysOf(rs, key));
  }

  /** Every group is non-empty and holds only requests of the input with its key. */
  lemma GroupsHoldTheirKey<K(!new)>(rs: seq<Request>, key: Request -> K, g: Group<K>)
    requires g in Grouped(rs, key)
    ensures g.requests != []
    ensures forall r :: r in g.requests ==> r in rs && key(r) == g.key
  {
    var gs := Grouped(rs, key);
    var i :| 0 <= i < |gs| && gs[i] == g;
    GroupKeysAreDistinct(rs, key);
    LookupOfDistinct(gs, i);
    GroupedContents(rs, key, g.key);
    WithKeyMembers(rs, key, g.key);
    GroupedKeyOrder(rs, key);
    FirstOccurrencesMembers(KeysOf(rs, key));
    assert Keys(gs)[i] == g.key;
    assert g.key in Keys(gs);
    assert g.key in KeysOf(rs, key);
    var j :| 0 <= j < |rs| && KeysOf(rs, key)[j] == g.key;
    assert rs[j] in WithKey(rs, key, g.key);
  }

  /** Every request lands in the group of its key. */
  lemma EveryRequestIsGrouped<K(!new)>(rs: seq<Request>, key: Request -> K, r: Request)
    requires r in rs
    ensures exists g :: g in Grouped(rs, key) && g.key == key(r) && r in g.requests
  {
    var gs := Grouped(rs, key);
    var j :| 0 <= j < |rs| && rs[j] == r;
    assert KeysOf(rs, key)[j] == key(r);
    assert key(r) in KeysOf(rs, key);
    GroupedKeyOrder(rs, key);
    FirstOccurrencesMembers(KeysOf(rs, key));
    assert key(r) in Keys(gs);
    var i :| 0 <= i < |gs| && Keys(gs)[i] == key(r);
    GroupKeysAreDistinct(rs, key);
    LookupOfDistinct(gs, i);
    GroupedContents(rs, key, key(r));
    WithKeyMembers(rs, key, key(r));
    assert gs[i] in gs;
  }

  /** With distinct keys, looking up a group's key finds that group. */
  lemma {:induction false} LookupOfDistinct<K>(gs: seq<Group<K>>, i: int)
    requires Distinct(Keys(gs)) && 0 <= i < |gs|
    ensures Lookup(gs, gs[i].key) == gs[i].requests
    decreases |gs|
  {
    if i > 0 {
      assert Keys(gs)[0] != Keys(gs)[i];
      assert Distinct(Keys(gs[1..])) by {
        assert forall a :: 0 <= a < |gs| - 1 ==> Keys(gs[1..])[a] == Keys(gs)[a + 1];
      }
      LookupOfDistinct(gs[1..], i - 1);
    }
  }

  /** Only requests of the input that ask for Groovy interception appear, constructors among the constructor specs and the rest among the named ones. */
  lemma OnlyGroovyRequestsAreGrouped(requests: seq<Request>, nameKey: Callable -> string)
    ensures forall g :: g in GroupedRequests(requests, nameKey).named ==>
      forall r :: r in g.requests ==> r in requests && IsNamedRequest(r) && nameKey(r.callable) == g.key
    ensures forall g :: g in GroupedRequests(requests, nameKey).constructors ==>
      forall r :: r in g.requests ==> r in requests && IsConstructorRequest(r) && r.callable.owner == g.key
  {
    var specs := GroupedRequests(requests, nameKey);
    forall g | g in specs.named
      ensures forall r :: r in g.requests ==> r in requests && IsNamedRequest(r) && nameKey(r.callable) == g.key
    {
      GroupsHoldTheirKey(Filter(requests, IsNamedRequest), NameKey(nameKey), g);
    }
    forall g | g in specs.constructors
      ensures forall r :: r in g.requests ==> r in requests && IsConstructorRequest(r) && r.callable.owner == g.key
    {
      GroupsHoldTheirKey(Filter(requests, IsConstructorRequest), OwnerKey, g);
    }
  }

  /**
   * A request that asks for Groovy interception lands in exactly one spec: a
   * constructor in the constructor spec of its owner, any other callable in
   * the named spec of its intercepted JVM method name.
   */
  lemma KeptRequestLandsInOneGroup(requests: seq<Request>, nameKey: Callable -> string, r: Request)
    requires r in requests && r.interceptGroovyCalls
    ensures var specs := GroupedRequests(requests, nameKey);
      r.callable.kind == AfterConstructor ==>
        && (exists g :: g in specs.constructors && g.key == r.callable.owner && r in g.requests)
        && (forall g :: g in specs.constructors && r in g.requests ==> g.key == r.callable.owner)
        && (forall g :: g in specs.named ==> r !in g.requests)
    ensures var specs := GroupedRequests(requests, nameKey);
      r.callable.kind != AfterConstructor ==>
        && (exists g :: g in specs.named && g.key == nameKey(r.callable) && r in g.requests)
        && (forall g :: g in specs.named && r in g.requests ==> g.key == nameKey(r.callable))
        && (forall g :: g in specs.constructors ==> r !in g.requests)
  {
    OnlyGroovyRequestsAreGrouped(requests, nameKey);
    if r.callable.kind == AfterConstructor {
      EveryRequestIsGrouped(Filter(requests, IsConstructorRequest), OwnerKey, r);
    } else {
      EveryRequestIsGrouped(Filter(requests, IsNamedRequest), NameKey(nameKey), r);
    }
  }

  /** Within the result, no two named specs and no two constructor specs share a key. */
  lemma SpecKeysAreDistinct(requests: seq<Request>, nameKey: Callable -> string)
    ensures Distinct(Keys(GroupedRequests(requests, nameKey).named))
    ensures Distinct(Keys(GroupedRequests(requests, nameKey).constructors))
  {
    GroupKeysAreDistinct(Filter(requests, IsNamedRequest), NameKey(nameKey));
    GroupKeysAreDistinct(Filter(requests, IsConstructorRequest), OwnerKey);
  }

  // ---------------------------------------------------------------------------
  // The insertion-ordered map

  /** The groups of a map, in the order of its keys. */
  function ValuesOf<K>(keys: seq<K>, entries: map<K, seq<Request>>): (r: seq<Group<K>>)
    requires forall k :: k in keys ==> k in entries
    ensures Keys(r) == keys
  {
    if keys == [] then [] else [Group(keys[0], entries[keys[0]])] + ValuesOf(keys[1..], entries)
  }

  /** Updating a key that is not listed changes no group. */
  lemma {:induction false} ValuesOfIgnoresOthers<K>(keys: seq<K>, entries: map<K, seq<Request>>, k: K, v: seq<Request>)
    requires forall k' :: k' in keys ==> k' in entries
    requires k !in keys
    ensures ValuesOf(keys, entries[k := v]) == ValuesOf(keys, entries)
  {
    if keys != [] {
      ValuesOfIgnoresOthers(keys[1..], entries, k, v);
    }
  }

  /** Appending to the entry of a listed key is adding to its group. */
  lemma {:induction false} ValuesOfAppend<K(!new)>(keys: seq<K>, entries: map<K, seq<Request>>, k: K, r: Request)
    requires forall k' :: k' in keys ==> k' in entries
    requires Distinct(keys) && k in keys
    ensures ValuesOf(keys, entries[k := entries[k] + [r]]) == AddToGroup(ValuesOf(keys, entries), k, r)
  {
    if keys[0] == k {
      assert k !in keys[1..];
      ValuesOfIgnoresOthers(keys[1..], entries, k, entries[k] + [r]);
    } else {
      ValuesOfAppend(keys[1..], entries, k, r);
    }
  }

  /** Entering a new key is opening a group for it at the end. */
  lemma {:induction false} ValuesOfNewKey<K(!new)>(keys: seq<K>, entries: map<K, seq<Request>>, k: K, r: Request)
    requires forall k' :: k' in keys ==> k' in entries
    requires k !in keys
    ensures ValuesOf(keys + [k], entries[k := [r]]) == AddToGroup(ValuesOf(keys, entries), k, r)
  {
    if keys == [] {
      assert ([] + [k])[1..] == [];
    } else {
      assert (keys + [k])[1..] == keys[1..] + [k];
      ValuesOfNewKey(keys[1..], entries, k, r);
    }
  }

  /** A `LinkedHashMap` from keys to the requests collected under them. */
  class LinkedGroups<K(==,!new)> {
    var keys: seq<K>
    var entries: map<K, seq<Request>>

    ghost predicate Valid()
      reads this
    {
      Distinct(keys) && forall k :: k in entries <==> k in keys
    }

    /** The groups of the linked map, in the order their keys were first inserted. */
    function Values(): (r: seq<Group<K>>)
      reads this
      requires Valid()
      ensures Keys(r) == keys
    {
      ValuesOf(keys, entries)
    }

    constructor ()
      ensures Valid() && Values() == []
    {
      keys := [];
      entries := map[];
    }

    /** Adds `r` to the group of `k`, creating that group at the end when the key is new. */
    method Add(k: K, r: Request)
      requires Valid()
      modifies this
      ensures Valid()
      ensures Values() == AddToGroup(old(Values()), k, r)
    {
      if k in entries {
        ValuesOfAppend(keys, entries, k, r);
        entries := entries[k := entries[k] + [r]];
      } else {
        ValuesOfNewKey(keys, entries, k, r);
        keys := keys + [k];
        entries := entries[k := [r]];
      }
    }
  }

  /** One more request: it joins its group when the filter keeps it, and changes nothing otherwise. */
  lemma GroupedStep<K(!new)>(rs: seq<Request>, i: nat, p: Request -> bool, key: Request -> K)
    requires i < |rs|
    ensures Grouped(Filter(rs[..i + 1], p), key)
         == if p(rs[i]) then AddToGroup(Grouped(Filter(rs[..i], p), key), key(rs[i]), rs[i])
            else Grouped(Filter(rs[..i], p), key)
  {
    assert rs[..i + 1][..i] == rs[..i];
    var init := Filter(rs[..i], p);
    if p(rs[i]) {
      assert (init + [rs[i]])[..|init|] == init;
    }
  }

  /** `groupRequests`: one pass over the requests, filling the two maps. */
  method GroupRequests(requests: seq<Request>, nameKey: Callable -> string) returns (specs: CallInterceptorSpecs)
    ensures specs == GroupedRequests(requests, nameKey)
  {
    var namedRequests := new LinkedGroups<string>();
    var constructorRequests := new LinkedGroups<TypeName>();
    for i := 0 to |requests|
      invariant namedRequests.Valid() && constructorRequests.Valid()
      invariant namedRequests.Values() == Grouped(Filter(requests[..i], IsNamedRequest), NameKey(nameKey))
      invariant constructorRequests.Values() == Grouped(Filter(requests[..i], IsConstructorRequest), OwnerKey)
    {
      var request := requests[i];
      GroupedStep(requests, i, IsNamedRequest, NameKey(nameKey));
      GroupedStep(requests, i, IsConstructorRequest, OwnerKey);
      if request.interceptGroovyCalls {
        var callable := request.callable;
        if callable.kind == AfterConstructor {
          constructorRequests.Add(callable.owner, request);
        } else {
          namedRequests.Add(nameKey(callable), request);
        }
      }
    }
    assert requests[..|requests|] == requests;
    specs := CallInterceptorSpecs(namedRequests.Values(), constructorRequests.Values());
  }
}
