/**
 * The per-node dependency tracker of the execution plan.
 *
 * A node's tracker records its direct predecessors in a sorted set, the subset
 * of them it is still waiting for, whether a predecessor was seen to fail, and
 * whether the waiting set is already reconciled with the predecessors' outcomes
 * ("pruned"). From that it derives the three-valued readiness state.
 *
 * The state is given twice: as the value `Tracker` with one function per
 * operation (the specification, about which the lemmas speak), and as the
 * class `NodeDependencySet`, whose methods update their fields in place and are
 * proved to agree with those functions.
 *
 * A predecessor's outcome (`isComplete`, `isSuccessful`) lives in the node and
 * changes over time; it is passed to each operation as the function that holds
 * at the moment of the call.
 */
module NodeDependencies {
  import opened Wrappers

  /** A node of the plan. Its id is its identity and its ordering key. */
  datatype Node = Node(id: int)

  /** The comparator of the sorted node set: a strict total order on nodes. */
  predicate Before(a: Node, b: Node) {
    a.id < b.id
  }

  /** The readiness of a node, as derived from its dependencies. */
  datatype DependenciesState = NotComplete | CompleteAndSuccessful | CompleteAndNotSuccessful

  predicate Sorted(s: seq<Node>) {
    forall i, j :: 0 <= i < j < |s| ==> Before(s[i], s[j])
  }

  function Elements(s: seq<Node>): set<Node> {
    set n | n in s
  }

  /** Adding to the sorted node set: the result is sorted and holds exactly one more element. */
  function Insert(s: seq<Node>, n: Node): (r: seq<Node>)
    requires Sorted(s)
    ensures Sorted(r)
    ensures Elements(r) == Elements(s) + {n}
  {
    if s == [] then [n]
    else if s[0] == n then s
    else if Before(n, s[0]) then
      assert Elements([n] + s) == {n} + Elements(s);
      [n] + s
    else
      var rest := Insert(s[1..], n);
      assert Elements(s) == {s[0]} + Elements(s[1..]);
      assert Elements([s[0]] + rest) == {s[0]} + Elements(rest);
      assert forall x :: x in Elements(rest) ==> Before(s[0], x);
      [s[0]] + rest
  }

  /**
   * The fields of a tracker. An absent sorted set is the empty sequence (the two
   * cannot be told apart from outside); `waitingFor` is `None` where the field is null.
   */
  datatype Tracker = Tracker(
    ordered: seq<Node>,
    waitingFor: Option<set<Node>>,
    hasFailures: bool,
    pruned: bool)

  /** What every reachable tracker satisfies. */
  ghost predicate Consistent(t: Tracker) {
    && Sorted(t.ordered)
    && (t.waitingFor.Some? ==> t.waitingFor.value <= Elements(t.ordered))
    && (t.waitingFor.None? ==> t.hasFailures || t.ordered == [])
  }

  /** The nodes still waited for; an absent set waits for nothing. */
  function WaitingSet(t: Tracker): set<Node> {
    if t.waitingFor.Some? then t.waitingFor.value else {}
  }

  /** `n` is a predecessor the tracker still waits for. */
  predicate Tracked(t: Tracker, n: Node) {
    t.waitingFor.Some? && n in t.waitingFor.value
  }

  /** The members of `w` that have reached a terminal outcome. */
  function Resolved(w: set<Node>, isComplete: Node -> bool): set<Node> {
    set n | n in w && isComplete(n)
  }

  /** Some member of `w` has reached a terminal, unsuccessful outcome. */
  predicate AnyFailed(w: set<Node>, isComplete: Node -> bool, isSuccessful: Node -> bool) {
    exists n :: n in w && isComplete(n) && !isSuccessful(n)
  }

  /** A tracker on which `addDependency` was never called. */
  function Fresh(): (t: Tracker)
    ensures Consistent(t)
    ensures t.ordered == []
    ensures forall isComplete, isSuccessful ::
      Classify(Prune(t, isComplete, isSuccessful)) == CompleteAndSuccessful
  {
    Tracker([], None, false, false)
  }

  /** `addDependency`: record a predecessor in both sets and invalidate the pruning. */
  function AfterAddDependency(t: Tracker, n: Node): (r: Tracker)
    requires Sorted(t.ordered)
    ensures Sorted(r.ordered) && Elements(r.ordered) == Elements(t.ordered) + {n}
    ensures r.waitingFor == Some(WaitingSet(t) + {n})
    ensures r.hasFailures == t.hasFailures && !r.pruned
  {
    Tracker(Insert(t.ordered, n), Some(WaitingSet(t) + {n}), t.hasFailures, false)
  }

  /**
   * `onNodeComplete`: a predecessor reached a terminal outcome. A notice about
   * a node not waited for changes nothing; a failed one pins the tracker to failure.
   */
  function AfterNodeComplete(t: Tracker, n: Node, isSuccessful: Node -> bool): (r: Tracker)
    ensures !Tracked(t, n) ==> r == t
    ensures Tracked(t, n) && !isSuccessful(n) ==>
      r == t.(waitingFor := None, hasFailures := true)
    ensures Tracked(t, n) && isSuccessful(n) ==>
      r == t.(waitingFor := Some(t.waitingFor.value - {n}))
  {
    match t.waitingFor
    case None => t
    case Some(w) =>
      if n !in w then t
      else if !isSuccessful(n) then t.(waitingFor := None, hasFailures := true)
      else t.(waitingFor := Some(w - {n}))
  }

  /**
   * The reconciliation scan of `getState`: unless already pruned, drop every
   * waited-for node that is complete, and on meeting a failed one pin the
   * tracker to failure. Which completed nodes the scan removed before it
   * met the failure does not matter, since the waiting set is then dropped.
   */
  function Prune(t: Tracker, isComplete: Node -> bool, isSuccessful: Node -> bool): (r: Tracker)
    ensures r.ordered == t.ordered && r.pruned
    ensures t.pruned ==> r == t
  {
    if t.pruned || t.waitingFor.None? then t.(pruned := true)
    else if AnyFailed(t.waitingFor.value, isComplete, isSuccessful) then
      t.(waitingFor := None, hasFailures := true, pruned := true)
    else
      t.(waitingFor := Some(t.waitingFor.value - Resolved(t.waitingFor.value, isComplete)), pruned := true)
  }

  /** The value `getState` returns once the tracker is reconciled. */
  function Classify(t: Tracker): (r: DependenciesState)
    ensures r == CompleteAndNotSuccessful <==> t.hasFailures
    ensures r == NotComplete <==> !t.hasFailures && t.waitingFor.Some? && t.waitingFor.value != {}
  {
    if t.hasFailures then CompleteAndNotSuccessful
    else if t.waitingFor.None? || t.waitingFor.value == {} then CompleteAndSuccessful
    else NotComplete
  }

  /** One call on a tracker. */
  datatype Event =
    | Added(node: Node)
    | Completed(node: Node, isSuccessful: Node -> bool)
    | Queried(isComplete: Node -> bool, isSuccessful: Node -> bool)

  function Step(t: Tracker, e: Event): (r: Tracker)
    requires Sorted(t.ordered)
    ensures Sorted(r.ordered)
    ensures Elements(t.ordered) <= Elements(r.ordered)
    ensures !e.Added? ==> r.ordered == t.ordered
  {
    match e
    case Added(n) => AfterAddDependency(t, n)
    case Completed(n, isSuccessful) => AfterNodeComplete(t, n, isSuccessful)
    case Queried(isComplete, isSuccessful) => Prune(t, isComplete, isSuccessful)
  }

  /** The tracker after a sequence of calls. */
  function Run(t: Tracker, es: seq<Event>): Tracker
    requires Sorted(t.ordered)
    decreases |es|
  {
    if es == [] then t else Run(Step(t, es[0]), es[1..])
  }

  predicate NoAdds(es: seq<Event>) {
    forall i :: 0 <= i < |es| ==> !es[i].Added?
  }

  lemma StepKeepsConsistent(t: Tracker, e: Event)
    requires Consistent(t)
    ensures Consistent(Step(t, e))
  {
  }

  /** Every sequence of calls keeps the tracker consistent. */
  lemma {:induction false} RunKeepsConsistent(t: Tracker, es: seq<Event>)
    requires Consistent(t)
    ensures Consistent(Run(t, es))
    decreases |es|
  {
    if es != [] {
      StepKeepsConsistent(t, es[0]);
      RunKeepsConsistent(Step(t, es[0]), es[1..]);
    }
  }

  /**
   * Failure is sticky: once a failure is recorded no call clears it, not even a
   * later `addDependency`, and `getState` answers "complete and not successful".
   */
  lemma {:induction false} FailureIsSticky(t: Tracker, es: seq<Event>)
    requires Sorted(t.ordered) && t.hasFailures
    ensures Run(t, es).hasFailures
    ensures forall isComplete, isSuccessful ::
      Classify(Prune(Run(t, es), isComplete, isSuccessful)) == CompleteAndNotSuccessful
    decreases |es|
  {
    if es != [] {
      FailureIsSticky(Step(t, es[0]), es[1..]);
    }
  }

  /** The sorted dependency set never loses a node. */
  lemma {:induction false} DependenciesOnlyGrow(t: Tracker, es: seq<Event>)
    requires Sorted(t.ordered)
    ensures Elements(t.ordered) <= Elements(Run(t, es).ordered)
    ensures NoAdds(es) ==> Run(t, es).ordered == t.ordered
    decreases |es|
  {
    if es != [] {
      DependenciesOnlyGrow(Step(t, es[0]), es[1..]);
    }
  }

  /**
   * Once the tracker is in a terminal state, completion notices and state
   * queries leave it in that state; only `addDependency` can leave it.
   */
  lemma {:induction false} TerminalStateIsStable(t: Tracker, es: seq<Event>)
    requires Sorted(t.ordered) && Classify(t) != NotComplete && NoAdds(es)
    ensures Classify(Run(t, es)) == Classify(t)
    decreases |es|
  {
    if es != [] {
      var t' := Step(t, es[0]);
      assert Classify(t') == Classify(t) by {
        match es[0]
        case Completed(n, isSuccessful) =>
        case Queried(isComplete, isSuccessful) =>
          if !t.pruned && t.waitingFor.Some? && !t.hasFailures {
            assert t.waitingFor.value == {};
            assert !AnyFailed(t.waitingFor.value, isComplete, isSuccessful);
            assert t.waitingFor.value - Resolved(t.waitingFor.value, isComplete) == {};
          }
      }
      assert NoAdds(es[1..]) by {
        forall i | 0 <= i < |es[1..]| ensures !es[1..][i].Added? {
          assert es[1..][i] == es[i + 1];
        }
      }
      TerminalStateIsStable(t', es[1..]);
    }
  }

  /**
   * A rescan decides the state from the outcomes of the waited-for nodes
   * alone: failed if one of them failed, successful if all of them succeeded,
   * and not complete otherwise.
   */
  lemma RescanDecidesState(t: Tracker, isComplete: Node -> bool, isSuccessful: Node -> bool)
    requires !t.pruned && !t.hasFailures && t.waitingFor.Some?
    ensures var w, s := t.waitingFor.value, Classify(Prune(t, isComplete, isSuccessful));
      && (s == CompleteAndNotSuccessful <==> AnyFailed(w, isComplete, isSuccessful))
      && (s == CompleteAndSuccessful <==> forall n :: n in w ==> isComplete(n) && isSuccessful(n))
      && (s == NotComplete <==>
            !AnyFailed(w, isComplete, isSuccessful) && exists n :: n in w && !isComplete(n))
  {
    var w := t.waitingFor.value;
    if !AnyFailed(w, isComplete, isSuccessful) {
      var left := w - Resolved(w, isComplete);
      if forall n :: n in w ==> isComplete(n) {
        assert left == {};
      } else {
        var n :| n in w && !isComplete(n);
        assert n in left;
      }
    }
  }

  /** Without an intervening `addDependency`, a second `getState` does no rescan. */
  lemma SecondQueryDoesNotRescan(t: Tracker, c1: Node -> bool, s1: Node -> bool, c2: Node -> bool, s2: Node -> bool)
    ensures Prune(Prune(t, c1, s1), c2, s2) == Prune(t, c1, s1)
  {
  }

  /**
   * Completion notices for two different predecessors give the same tracker
   * in either order, so no interleaving loses one of them.
   */
  lemma CompletionsCommute(t: Tracker, a: Node, b: Node, isSuccessful: Node -> bool)
    requires a != b
    ensures AfterNodeComplete(AfterNodeComplete(t, a, isSuccessful), b, isSuccessful)
         == AfterNodeComplete(AfterNodeComplete(t, b, isSuccessful), a, isSuccessful)
  {
    if Tracked(t, a) && Tracked(t, b) && isSuccessful(a) && isSuccessful(b) {
      assert t.waitingFor.value - {a} - {b} == t.waitingFor.value - {b} - {a};
    }
  }

  /** The tracker a node owns, updated in place. */
  class NodeDependencySet {
    var orderedDependencies: seq<Node>
    var waitingFor: Option<set<Node>>
    var hasFailures: bool
    var pruned: bool

    /** The fields, as a value. */
    function Model(): Tracker
      reads this
    {
      Tracker(orderedDependencies, waitingFor, hasFailures, pruned)
    }

    ghost predicate Valid()
      reads this
    {
      Consistent(Model())
    }

    constructor ()
      ensures Valid() && Model() == Fresh()
    {
      orderedDependencies := [];
      waitingFor := None;
      hasFailures := false;
      pruned := false;
    }

    /** `getOrderedNodes`: the predecessors, sorted and without duplicates. */
    method GetOrderedNodes() returns (nodes: seq<Node>)
      requires Valid()
      ensures Sorted(nodes) && nodes == Model().ordered
    {
      nodes := orderedDependencies;
    }

    method AddDependency(n: Node)
      requires Valid()
      modifies this
      ensures Valid()
      ensures Model() == AfterAddDependency(old(Model()), n)
    {
      orderedDependencies := Insert(orderedDependencies, n);
      if waitingFor.None? {
        waitingFor := Some({});
      }
      pruned := false;
      waitingFor := Some(waitingFor.value + {n});
    }

    method OnNodeComplete(n: Node, isSuccessful: Node -> bool)
      requires Valid()
      modifies this
      ensures Valid()
      ensures Model() == AfterNodeComplete(old(Model()), n, isSuccessful)
    {
      if waitingFor.Some? {
        if n in waitingFor.value {
          waitingFor := Some(waitingFor.value - {n});
          if !isSuccessful(n) {
            hasFailures := true;
            waitingFor := None;
          }
        }
      }
    }

    /**
     * `getState`: the reconciliation scan walks the waiting set in an
     * unspecified order, removing complete nodes, and stops at the first failed one.
     */
    method GetState(isComplete: Node -> bool, isSuccessful: Node -> bool) returns (state: DependenciesState)
      requires Valid()
      modifies this
      ensures Valid()
      ensures Model() == Prune(old(Model()), isComplete, isSuccessful)
      ensures state == Classify(Model())
    {
      if !pruned {
        if waitingFor.Some? {
          ghost var w := waitingFor.value;
          ghost var visited: set<Node> := {};
          var unvisited := waitingFor.value;
          assert Resolved(visited, isComplete) == {};
          while unvisited != {}
            invariant visited + unvisited == w && visited !! unvisited
            invariant waitingFor == Some(w - Resolved(visited, isComplete))
            invariant !AnyFailed(visited, isComplete, isSuccessful)
            invariant hasFailures == old(hasFailures) && !pruned
            invariant orderedDependencies == old(orderedDependencies)
            decreases unvisited
          {
            var node :| node in unvisited;
            unvisited := unvisited - {node};
            assert Resolved(visited + {node}, isComplete)
                == Resolved(visited, isComplete) + (if isComplete(node) then {node} else {});
            visited := visited + {node};
            if isComplete(node) {
              assert w - Resolved(visited, isComplete) == waitingFor.value - {node};
              waitingFor := Some(waitingFor.value - {node});
              if !isSuccessful(node) {
                assert AnyFailed(w, isComplete, isSuccessful);
                hasFailures := true;
                waitingFor := None;
                break;
              }
            } else {
              assert Resolved(visited, isComplete) == Resolved(visited - {node}, isComplete);
            }
          }
        }
        pruned := true;
      }
      if hasFailures {
        state := CompleteAndNotSuccessful;
      } else if waitingFor.None? || waitingFor.value == {} {
        state := CompleteAndSuccessful;
      } else {
        state := NotComplete;
      }
    }
  }
}
