/**
 * The collector of validation problems for one unit of work: it records the
 * types that were validated and the problems found in them. A problem that
 * only concerns cacheability is dropped when the type was validated as not
 * cacheable. The validated types are reported sorted by class name.
 *
 * Message formatting and the documentation registry are not part of this model.
 */
module WorkValidation {
  import opened Wrappers

  /** A Java class, identified by its fully qualified name. */
  datatype JavaClass = JavaClass(name: string)

  /** What a problem carries besides its message: whether it only concerns cacheability. */
  datatype Payload = Payload(cacheabilityProblemOnly: bool)

  /** A validation problem: its description and an optional payload. */
  datatype Problem = Problem(description: string, payload: Option<Payload>)

  // ---------------------------------------------------------------------------
  // Which problems are recorded

  /** A problem without a payload is not a cacheability-only problem; one with a payload says so itself. */
  predicate IsCacheabilityProblemOnly(p: Problem) {
    p.payload.Some? && p.payload.value.cacheabilityProblemOnly
  }

  /** A problem is dropped only when it concerns cacheability alone and the type is not cacheable. */
  predicate ShouldRecord(cacheable: bool, p: Problem) {
    !(IsCacheabilityProblemOnly(p) && !cacheable)
  }

  /** A problem without a payload is always recorded, and a cacheable context records every problem. */
  lemma RecordedWithoutPayloadOrWhenCacheable(cacheable: bool, p: Problem)
    ensures p.payload.None? ==> ShouldRecord(cacheable, p)
    ensures cacheable ==> ShouldRecord(cacheable, p)
    ensures !ShouldRecord(cacheable, p) <==> !cacheable && p.payload == Some(Payload(true))
  {
  }

  // ---------------------------------------------------------------------------
  // Ordering class names

  /** Lexicographic order on names, character by character, a prefix first. */
  predicate NameLeq(a: string, b: string) {
    a == [] || (b != [] && (a[0] < b[0] || (a[0] == b[0] && NameLeq(a[1..], b[1..]))))
  }

  lemma {:induction false} NameLeqReflexive(a: string)
    ensures NameLeq(a, a)
  {
    if a != [] {
      NameLeqReflexive(a[1..]);
    }
  }

  lemma {:induction false} NameLeqAntisymmetric(a: string, b: string)
    requires NameLeq(a, b) && NameLeq(b, a)
    ensures a == b
  {
    if a != [] && b != [] {
      NameLeqAntisymmetric(a[1..], b[1..]);
      assert a == [a[0]] + a[1..] && b == [b[0]] + b[1..];
    }
  }

  lemma {:induction false} NameLeqTransitive(a: string, b: string, c: string)
    requires NameLeq(a, b) && NameLeq(b, c)
    ensures NameLeq(a, c)
  {
    if a != [] && b != [] && c != [] && a[0] == b[0] == c[0] {
      NameLeqTransitive(a[1..], b[1..], c[1..]);
    }
  }

  lemma {:induction false} NameLeqTotal(a: string, b: string)
    ensures NameLeq(a, b) || NameLeq(b, a)
  {
    if a != [] && b != [] && a[0] == b[0] {
      NameLeqTotal(a[1..], b[1..]);
    }
  }

  /** Sorted by class name, strictly: no class name twice. */
  predicate SortedByName(s: seq<JavaClass>) {
    forall i, j :: 0 <= i < j < |s| ==> NameLeq(s[i].name, s[j].name) && s[i].name != s[j].name
  }

  /** A class whose name comes first among the classes of `s`. */
  predicate IsFirstByName(m: JavaClass, s: set<JavaClass>) {
    m in s && forall x :: x in s ==> NameLeq(m.name, x.name)
  }

  /** Every non-empty set of classes has exactly one class whose name comes first. */
  lemma {:induction false} FirstByNameExists(s: set<JavaClass>)
    requires s != {}
    ensures exists m :: IsFirstByName(m, s)
    decreases |s|
  {
    var y :| y in s;
    if s == {y} {
      NameLeqReflexive(y.name);
      assert IsFirstByName(y, s);
    } else {
      FirstByNameExists(s - {y});
      var m :| IsFirstByName(m, s - {y});
      NameLeqTotal(m.name, y.name);
      if NameLeq(m.name, y.name) {
        assert IsFirstByName(m, s);
      } else {
        NameLeqReflexive(y.name);
        forall x | x in s ensures NameLeq(y.name, x.name) {
          if x != y {
            NameLeqTransitive(y.name, m.name, x.name);
          }
        }
        assert IsFirstByName(y, s);
      }
    }
  }

  lemma FirstByNameIsUnique(s: set<JavaClass>, m: JavaClass, m': JavaClass)
    requires IsFirstByName(m, s) && IsFirstByName(m', s)
    ensures m == m'
  {
    NameLeqAntisymmetric(m.name, m'.name);
  }

  /** The validated types, each once, in ascending order of class name. */
  function SortByName(s: set<JavaClass>): (r: seq<JavaClass>)
    ensures |r| == |s|
    ensures forall x :: x in r <==> x in s
    ensures SortedByName(r)
    decreases |s|
  {
    if s == {} then []
    else
      FirstByNameExists(s);
      forall m, m' | IsFirstByName(m, s) && IsFirstByName(m', s) ensures m == m' {
        FirstByNameIsUnique(s, m, m');
      }
      var m :| IsFirstByName(m, s);
      var rest := SortByName(s - {m});
      assert forall x :: x in rest ==> NameLeq(m.name, x.name) && m.name != x.name;
      [m] + rest
  }

  // ---------------------------------------------------------------------------
  // The collector, as a value

  /** The collector's state: the validated types and the problems recorded so far, in order. */
  datatype Collected = Collected(types: set<JavaClass>, problems: seq<Problem>)

  /** `forType(type, cacheable)`: the type is recorded whether or not a problem follows. */
  function AfterForType(c: Collected, t: JavaClass): (r: Collected)
    ensures t in r.types && r.problems == c.problems
    ensures forall x :: x in r.types <==> x in c.types || x == t
  {
    Collected(c.types + {t}, c.problems)
  }

  /** `recordProblem(problem)` through a context for a type validated as `cacheable` or not. */
  function AfterRecordProblem(c: Collected, cacheable: bool, p: Problem): (r: Collected)
    ensures r.types == c.types
    ensures ShouldRecord(cacheable, p) ==> r.problems == c.problems + [p]
    ensures !ShouldRecord(cacheable, p) ==> r == c
  {
    if IsCacheabilityProblemOnly(p) && !cacheable then c
    else Collected(c.types, c.problems + [p])
  }

  /** What a caller can do with the collector. */
  datatype Event =
    | ForType(t: JavaClass, cacheable: bool)
    | Record(cacheable: bool, p: Problem)

  function Step(c: Collected, e: Event): Collected {
    match e
    case ForType(t, _) => AfterForType(c, t)
    case Record(cacheable, p) => AfterRecordProblem(c, cacheable, p)
  }

  /** The collector after a run of events, from a fresh one. */
  function Run(events: seq<Event>): Collected
    decreases |events|
  {
    if events == [] then Collected({}, [])
    else Step(Run(events[..|events| - 1]), events[|events| - 1])
  }

  /** Problems are only ever appended: a run's problems begin with those of any prefix. */
  lemma {:induction false} ProblemsOnlyGrow(events: seq<Event>, more: seq<Event>)
    ensures Run(events).problems <= Run(events + more).problems
    ensures Run(events).types <= Run(events + more).types
    decreases |more|
  {
    if more == [] {
      assert events + more == events;
    } else {
      var init := more[..|more| - 1];
      ProblemsOnlyGrow(events, init);
      assert (events + more)[..|events + more| - 1] == events + init;
    }
  }

  /** A type is validated exactly when some `forType` call named it. */
  lemma {:induction false} ValidatedTypesAreTheNamedOnes(events: seq<Event>, t: JavaClass)
    ensures t in Run(events).types <==> exists i :: 0 <= i < |events| && events[i].ForType? && events[i].t == t
    decreases |events|
  {
    if events != [] {
      var init := events[..|events| - 1];
      ValidatedTypesAreTheNamedOnes(init, t);
      assert forall i :: 0 <= i < |init| ==> init[i] == events[i];
    }
  }

  /** The problems kept from a run of events: the recorded ones that pass the filter, in order. */
  function KeptProblems(events: seq<Event>): (r: seq<Problem>)
    ensures |r| <= |events|
    decreases |events|
  {
    if events == [] then []
    else
      var rest := KeptProblems(events[1..]);
      match events[0]
      case Record(cacheable, p) => if ShouldRecord(cacheable, p) then [p] + rest else rest
      case ForType(_, _) => rest
  }

  lemma {:induction false} KeptProblemsAppend(a: seq<Event>, b: seq<Event>)
    ensures KeptProblems(a + b) == KeptProblems(a) + KeptProblems(b)
    decreases |a|
  {
    if a == [] {
      assert a + b == b;
    } else {
      assert (a + b)[1..] == a[1..] + b;
      KeptProblemsAppend(a[1..], b);
    }
  }

  /** `getProblems`: the problems that pass the filter, in the order they were recorded. */
  lemma {:induction false} ProblemsAreTheKeptOnes(events: seq<Event>)
    ensures Run(events).problems == KeptProblems(events)
    decreases |events|
  {
    if events != [] {
      var init := events[..|events| - 1];
      ProblemsAreTheKeptOnes(init);
      KeptProblemsAppend(init, [events[|events| - 1]]);
      assert init + [events[|events| - 1]] == events;
    }
  }

  // ---------------------------------------------------------------------------
  // The collector, as an object

  class DefaultWorkValidationContext {
    var types: set<JavaClass>
    var problems: seq<Problem>

    function Model(): Collected
      reads this
    {
      Collected(types, problems)
    }

    constructor ()
      ensures Model() == Run([])
    {
      types := {};
      problems := [];
    }

    /** `forType`: record the type and hand out a context that records into this collector. */
    method ForType(t: JavaClass, cacheable: bool) returns (context: TypeValidationContext)
      modifies this
      ensures Model() == AfterForType(old(Model()), t)
      ensures fresh(context) && context.owner == this && context.cacheable == cacheable
    {
      types := types + {t};
      context := new TypeValidationContext(this, cacheable);
    }

    /** `getProblems`: the recorded problems, in recording order. */
    method GetProblems() returns (r: seq<Problem>)
      ensures r == Model().problems
    {
      r := problems;
    }

    /** `getValidatedTypes`: the validated types, sorted by class name. */
    function ValidatedTypes(): (r: seq<JavaClass>)
      reads this
      ensures SortedByName(r) && |r| == |types|
      ensures forall x :: x in r <==> x in types
    {
      SortByName(types)
    }
  }

  /** The context `forType` returns: it records the problems found in one type. */
  class TypeValidationContext {
    const owner: DefaultWorkValidationContext
    const cacheable: bool

    constructor (owner: DefaultWorkValidationContext, cacheable: bool)
      ensures this.owner == owner && this.cacheable == cacheable
    {
      this.owner := owner;
      this.cacheable := cacheable;
    }

    /** `recordProblem`: drop a cacheability-only problem of a non-cacheable type, append any other. */
    method RecordProblem(problem: Problem)
      modifies owner
      ensures owner.Model() == AfterRecordProblem(old(owner.Model()), cacheable, problem)
    {
      var cacheableProblemOnly := match problem.payload
        case Some(payload) => payload.cacheabilityProblemOnly
        case None => false;
      if cacheableProblemOnly && !cacheable {
        return;
      }
      owner.problems := owner.problems + [problem];
    }
  }
}
