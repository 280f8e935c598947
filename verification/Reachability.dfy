/** Reachability in a directed graph given by a successor function. */
module Reachability {

  /** `path` starts in `roots` and follows edges. */
  ghost predicate Path<T>(next: T -> set<T>, roots: set<T>, path: seq<T>) {
    && 0 < |path|
    && path[0] in roots
    && forall i :: 0 <= i < |path| - 1 ==> path[i + 1] in next(path[i])
  }

  ghost predicate Reaches<T(!new)>(next: T -> set<T>, roots: set<T>, node: T) {
    exists path: seq<T> :: Path(next, roots, path) && path[|path| - 1] == node
  }

  ghost predicate Closed<T(!new)>(next: T -> set<T>, nodes: set<T>) {
    forall node :: node in nodes ==> next(node) <= nodes
  }

  lemma RootsReached<T(!new)>(next: T -> set<T>, roots: set<T>)
    ensures forall node :: node in roots ==> Reaches(next, roots, node)
  {
    forall node | node in roots
      ensures Reaches(next, roots, node)
    {
      assert Path(next, roots, [node]);
    }
  }

  /** Everything one edge beyond a reached node is reached. */
  lemma StepReached<T(!new)>(next: T -> set<T>, roots: set<T>, node: T)
    requires Reaches(next, roots, node)
    ensures forall succ :: succ in next(node) ==> Reaches(next, roots, succ)
  {
    var path: seq<T> :| Path(next, roots, path) && path[|path| - 1] == node;
    forall succ | succ in next(node)
      ensures Reaches(next, roots, succ)
    {
      var longer := path + [succ];
      assert Path(next, roots, longer);
      assert longer[|longer| - 1] == succ;
    }
  }

  /** A closed set that holds the roots holds every reachable node. */
  lemma {:induction false} ClosedHoldsPath<T(!new)>(next: T -> set<T>, roots: set<T>, nodes: set<T>, path: seq<T>)
    requires Closed(next, nodes) && roots <= nodes && Path(next, roots, path)
    ensures path[|path| - 1] in nodes
    decreases |path|
  {
    if |path| > 1 {
      var shorter := path[..|path| - 1];
      ClosedHoldsPath(next, roots, nodes, shorter);
      assert path[|path| - 1] in next(shorter[|shorter| - 1]);
    }
  }

  lemma ClosedHoldsReached<T(!new)>(next: T -> set<T>, roots: set<T>, nodes: set<T>)
    requires Closed(next, nodes) && roots <= nodes
    ensures forall node :: Reaches(next, roots, node) ==> node in nodes
  {
    forall node | Reaches(next, roots, node)
      ensures node in nodes
    {
      var path: seq<T> :| Path(next, roots, path) && path[|path| - 1] == node;
      ClosedHoldsPath(next, roots, nodes, path);
    }
  }

  /** Reachability only grows with the roots, and splits over their union. */
  lemma ReachedFromUnion<T(!new)>(next: T -> set<T>, left: set<T>, right: set<T>, node: T)
    ensures Reaches(next, left + right, node) <==> Reaches(next, left, node) || Reaches(next, right, node)
  {
    if Reaches(next, left + right, node) {
      var path: seq<T> :| Path(next, left + right, path) && path[|path| - 1] == node;
      assert Path(next, left, path) || Path(next, right, path);
    }
    if Reaches(next, left, node) {
      var path: seq<T> :| Path(next, left, path) && path[|path| - 1] == node;
      assert Path(next, left + right, path);
    }
    if Reaches(next, right, node) {
      var path: seq<T> :| Path(next, right, path) && path[|path| - 1] == node;
      assert Path(next, left + right, path);
    }
  }

  /** The state of a worklist search from `roots` on top of a set `known` of
      nodes explored before: `found` so far, `pending` still to be popped. */
  ghost predicate Searching<T(!new)>(next: T -> set<T>, roots: set<T>, known: set<T>, found: set<T>, pending: seq<T>) {
    && known <= found
    && (forall node :: node in roots ==> node in found || node in pending)
    && (forall node, succ :: node in found && succ in next(node) ==> succ in found || succ in pending)
    && (forall node :: node in found || node in pending ==> node in known || Reaches(next, roots, node))
  }

  lemma SearchStart<T(!new)>(next: T -> set<T>, roots: set<T>, known: set<T>, pending: seq<T>)
    requires Closed(next, known)
    requires forall node :: node in pending <==> node in roots
    ensures Searching(next, roots, known, known, pending)
  {
    RootsReached(next, roots);
  }

  /** A popped node that was found before is dropped. */
  lemma SearchSkip<T(!new)>(next: T -> set<T>, roots: set<T>, known: set<T>, found: set<T>, pending: seq<T>)
    requires Searching(next, roots, known, found, pending)
    requires pending != [] && pending[|pending| - 1] in found
    ensures Searching(next, roots, known, found, pending[..|pending| - 1])
  {
    var rest := pending[..|pending| - 1];
    assert forall node :: node in pending ==> node in rest || node == pending[|pending| - 1];
  }

  /** A new node is marked and its successors are pushed, in any order. */
  lemma SearchExpand<T(!new)>(next: T -> set<T>, roots: set<T>, known: set<T>, found: set<T>, pending: seq<T>,
                              pushed: seq<T>)
    requires Searching(next, roots, known, found, pending)
    requires pending != [] && pending[|pending| - 1] !in found
    requires forall node :: node in pushed <==> node in next(pending[|pending| - 1])
    ensures Searching(next, roots, known, found + {pending[|pending| - 1]}, pending[..|pending| - 1] + pushed)
  {
    var rest, node := pending[..|pending| - 1], pending[|pending| - 1];
    assert forall other :: other in pending <==> other in rest || other == node;
    StepReached(next, roots, node);
  }

  lemma SearchDone<T(!new)>(next: T -> set<T>, roots: set<T>, known: set<T>, found: set<T>)
    requires Searching(next, roots, known, found, [])
    ensures Closed(next, found)
    ensures forall node :: node in found <==> node in known || Reaches(next, roots, node)
  {
    ClosedHoldsReached(next, roots, found);
  }
}
