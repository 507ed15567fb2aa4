/** Subcase traversal of the test runner: a test body is re-run until every leaf of its tree of
    nested subcases has been executed. */
module Subcases {

  type Path = seq<int>

  /** A subcase with its signature and the subcases its body opens, in program order. */
  datatype Tree = Node(sig: int, kids: seq<Tree>)

  ghost predicate DistinctSiblings(f: seq<Tree>) {
    && (forall i, j | 0 <= i < j < |f| :: f[i].sig != f[j].sig)
    && (forall i {:trigger DistinctSiblings(f[i].kids)} | 0 <= i < |f| :: DistinctSiblings(f[i].kids))
  }

  // ---------------------------------------------------------------- leaf paths and their order

  function Prefixed(x: int, ps: seq<Path>): (r: seq<Path>)
    ensures |r| == |ps| && forall i | 0 <= i < |r| :: r[i] == [x] + ps[i]
  {
    seq(|ps|, i requires 0 <= i < |ps| => [x] + ps[i])
  }

  /** All root-to-leaf paths of a body, left to right; a body without subcases has the empty path. */
  function LeafPaths(f: seq<Tree>): (r: seq<Path>)
    ensures r != []
    decreases f, 1
  {
    if f == [] then [[]] else SomeLeafPaths(f)
  }

  function SomeLeafPaths(f: seq<Tree>): (r: seq<Path>)
    requires f != []
    ensures r != []
    decreases f, 0
  {
    Prefixed(f[0].sig, LeafPaths(f[0].kids)) + (if |f| == 1 then [] else SomeLeafPaths(f[1..]))
  }

  /** Position of the first sibling with signature `x`, or `|f|`. */
  function IndexOf(f: seq<Tree>, x: int): (i: nat)
    ensures i <= |f| && (i < |f| ==> f[i].sig == x)
    ensures forall j | 0 <= j < i :: f[j].sig != x
  {
    if f == [] || f[0].sig == x then 0 else 1 + IndexOf(f[1..], x)
  }

  /** `p` names a subcase (or, when empty, the body itself). */
  ghost predicate IsPath(f: seq<Tree>, p: Path)
    decreases p
  {
    p != [] ==> var i := IndexOf(f, p[0]); i < |f| && IsPath(f[i].kids, p[1..])
  }

  /** The leaf reached by following `p` and then always the first subcase. */
  function Extend(f: seq<Tree>, p: Path): (r: Path)
    requires IsPath(f, p)
    ensures p <= r
    decreases f
  {
    if f == [] then []
    else if p == [] then [f[0].sig] + Extend(f[0].kids, [])
    else
      var i := IndexOf(f, p[0]);
      assert p == [p[0]] + p[1..];
      [p[0]] + Extend(f[i].kids, p[1..])
  }

  ghost predicate IsLeaf(f: seq<Tree>, p: Path)
    decreases p
  {
    if p == [] then f == []
    else var i := IndexOf(f, p[0]); i < |f| && IsLeaf(f[i].kids, p[1..])
  }

  /** The subcase to aim for after leaf `p`: the first later sibling on the deepest level. */
  function Successor(f: seq<Tree>, p: Path): (r: Path)
    requires IsLeaf(f, p)
    ensures IsPath(f, []) && |r| <= |p|
    decreases p
  {
    if p == [] then []
    else
      var i := IndexOf(f, p[0]);
      var deeper := Successor(f[i].kids, p[1..]);
      if deeper != [] then [p[0]] + deeper
      else if i + 1 < |f| then [f[i + 1].sig]
      else []
  }

  /** `q` branches off to the right of `p`. */
  ghost predicate RightOf(f: seq<Tree>, p: Path, q: Path)
    decreases p
  {
    p != [] && q != [] &&
    var i, j := IndexOf(f, p[0]), IndexOf(f, q[0]);
    i < |f| && j < |f| && (i < j || (i == j && RightOf(f[i].kids, p[1..], q[1..])))
  }

  lemma {:induction false} NotRightOfItself(f: seq<Tree>, p: Path)
    ensures !RightOf(f, p, p)
    decreases p
  {
    if p != [] && IndexOf(f, p[0]) < |f| {
      NotRightOfItself(f[IndexOf(f, p[0])].kids, p[1..]);
    }
  }

  /** Leaf `p2` is the one that a run aiming at the successor of leaf `p1` reaches. */
  ghost predicate FollowedBy(f: seq<Tree>, p1: Path, p2: Path) {
    && IsLeaf(f, p1) && IsLeaf(f, p2)
    && Successor(f, p1) != [] && IsPath(f, Successor(f, p1))
    && Extend(f, Successor(f, p1)) == p2
    && forall q :: RightOf(f, p2, q) ==> RightOf(f, p1, q)
  }

  ghost predicate StepAt(f: seq<Tree>, ps: seq<Path>, k: int) {
    0 <= k < |ps| - 1 ==> FollowedBy(f, ps[k], ps[k + 1])
  }

  /** `ps` is what the re-run loop visits: it starts leftmost, each leaf leads to the next one, and
      nothing is left after the last. */
  ghost predicate Tour(f: seq<Tree>, ps: seq<Path>) {
    && ps != [] && ps[0] == Extend(f, [])
    && (forall k | 0 <= k < |ps| :: IsLeaf(f, ps[k]))
    && (forall k :: StepAt(f, ps, k))
    && Successor(f, ps[|ps| - 1]) == []
  }

  /** Steps inside the first subcase are steps of the whole body. */
  lemma LiftKids(f: seq<Tree>, p1: Path, p2: Path)
    requires f != [] && FollowedBy(f[0].kids, p1, p2)
    ensures FollowedBy(f, [f[0].sig] + p1, [f[0].sig] + p2)
  {
    var x := f[0].sig;
    assert ([x] + p1)[1..] == p1 && ([x] + p2)[1..] == p2;
    var d := Successor(f[0].kids, p1);
    assert Successor(f, [x] + p1) == [x] + d && ([x] + d)[1..] == d;
    forall q | RightOf(f, [x] + p2, q) ensures RightOf(f, [x] + p1, q) {
      if IndexOf(f, q[0]) == 0 {
        assert RightOf(f[0].kids, p2, q[1..]);
      }
    }
  }

  lemma ShiftIndex(f: seq<Tree>, x: int)
    requires f != [] && f[0].sig != x
    ensures IndexOf(f, x) == 1 + IndexOf(f[1..], x)
    ensures IndexOf(f, x) < |f| ==> f[IndexOf(f, x)] == f[1..][IndexOf(f[1..], x)]
  {
  }

  /** Steps among the later siblings are steps of the whole body. */
  lemma LiftSiblings(f: seq<Tree>, p1: Path, p2: Path)
    requires |f| > 1 && DistinctSiblings(f) && FollowedBy(f[1..], p1, p2)
    ensures FollowedBy(f, p1, p2)
  {
    var g := f[1..];
    ShiftLeaf(f, p1);
    ShiftLeaf(f, p2);
    var r := Successor(g, p1);
    SuccessorIsPath(g, p1);
    ShiftIndex(f, r[0]);
    forall q | RightOf(f, p2, q) ensures RightOf(f, p1, q) {
      ShiftIndex(f, p1[0]);
      ShiftIndex(f, p2[0]);
      if q[0] != f[0].sig {
        ShiftIndex(f, q[0]);
        assert RightOf(g, p2, q);
        assert RightOf(g, p1, q);
      }
    }
  }

  lemma ShiftLeaf(f: seq<Tree>, p: Path)
    requires |f| > 1 && DistinctSiblings(f) && IsLeaf(f[1..], p)
    ensures p != [] && p[0] != f[0].sig && IsLeaf(f, p) && Successor(f, p) == Successor(f[1..], p)
  {
    var i := IndexOf(f[1..], p[0]);
    assert f[1..][i] == f[i + 1];
    ShiftIndex(f, p[0]);
  }

  lemma {:induction false} SuccessorIsPath(f: seq<Tree>, p: Path)
    requires IsLeaf(f, p) && DistinctSiblings(f)
    ensures IsPath(f, Successor(f, p))
    ensures Successor(f, p) != [] ==> p != [] && IndexOf(f, p[0]) <= IndexOf(f, Successor(f, p)[0]) < |f|
    decreases p
  {
    if p != [] {
      var i := IndexOf(f, p[0]);
      SuccessorIsPath(f[i].kids, p[1..]);
      var deeper := Successor(f[i].kids, p[1..]);
      if deeper != [] {
        assert ([p[0]] + deeper)[1..] == deeper;
      } else if i + 1 < |f| {
        IndexOfSig(f, i + 1);
      }
    }
  }

  lemma IndexOfSig(f: seq<Tree>, i: nat)
    requires DistinctSiblings(f) && i < |f|
    ensures IndexOf(f, f[i].sig) == i
  {
  }

  /** The tour of the first subcase's body, seen from the whole body. */
  lemma KidSteps(f: seq<Tree>, inner: seq<Path>)
    requires f != [] && Tour(f[0].kids, inner)
    ensures var a := Prefixed(f[0].sig, inner);
            && a[0] == Extend(f, [])
            && (forall k | 0 <= k < |a| :: IsLeaf(f, a[k]))
            && (forall k :: StepAt(f, a, k))
  {
    var a := Prefixed(f[0].sig, inner);
    forall k | 0 <= k < |a| ensures IsLeaf(f, a[k]) {
      assert a[k][1..] == inner[k];
    }
    forall k ensures StepAt(f, a, k) {
      if 0 <= k < |a| - 1 {
        assert StepAt(f[0].kids, inner, k);
        LiftKids(f, inner[k], inner[k + 1]);
      }
    }
  }

  /** A tour of the first subcase followed by a tour of its later siblings. */
  lemma ConsTour(f: seq<Tree>, inner: seq<Path>, b: seq<Path>)
    requires |f| > 1 && DistinctSiblings(f) && Tour(f[0].kids, inner) && Tour(f[1..], b)
    ensures Tour(f, Prefixed(f[0].sig, inner) + b)
  {
    var a := Prefixed(f[0].sig, inner);
    KidSteps(f, inner);
    SiblingLeaves(f, b);
    SiblingSteps(f, b);
    assert a[|a| - 1][1..] == inner[|inner| - 1];
    Junction(f, a[|a| - 1]);
    JoinTours(f, a, b);
  }

  lemma OnlyTour(f: seq<Tree>, inner: seq<Path>)
    requires |f| == 1 && Tour(f[0].kids, inner)
    ensures Tour(f, Prefixed(f[0].sig, inner))
  {
    var a := Prefixed(f[0].sig, inner);
    KidSteps(f, inner);
    assert a[|a| - 1][1..] == inner[|inner| - 1];
  }

  /** The left-to-right list of leaf paths is exactly the tour of the re-run loop. */
  lemma {:induction false} LeafPathsTour(f: seq<Tree>)
    requires DistinctSiblings(f)
    ensures Tour(f, LeafPaths(f))
  {
    if f != [] {
      LeafPathsTour(f[0].kids);
      if |f| == 1 {
        OnlyTour(f, LeafPaths(f[0].kids));
        assert LeafPaths(f) == Prefixed(f[0].sig, LeafPaths(f[0].kids));
      } else {
        LeafPathsTour(f[1..]);
        ConsTour(f, LeafPaths(f[0].kids), LeafPaths(f[1..]));
      }
    }
  }

  /** From the last leaf of the first subcase to the first leaf of its next sibling. */
  lemma Junction(f: seq<Tree>, last: Path)
    requires |f| > 1 && DistinctSiblings(f)
    requires IsLeaf(f, last) && last != [] && last[0] == f[0].sig
    requires IsLeaf(f[0].kids, last[1..]) && Successor(f[0].kids, last[1..]) == []
    requires IsLeaf(f, Extend(f[1..], []))
    ensures FollowedBy(f, last, Extend(f[1..], []))
  {
    var x := f[1].sig;
    IndexOfSig(f, 0);
    IndexOfSig(f, 1);
    assert Successor(f, last) == [x];
    assert [x][1..] == [];
    assert f[1..][0] == f[1];
    assert Extend(f, [x]) == [x] + Extend(f[1].kids, []) == Extend(f[1..], []);
    forall q | RightOf(f, [x] + Extend(f[1].kids, []), q) ensures RightOf(f, last, q) {
    }
  }

  /** Every step of the later siblings' tour is a step of the whole body. */
  lemma SiblingSteps(f: seq<Tree>, b: seq<Path>)
    requires |f| > 1 && DistinctSiblings(f) && Tour(f[1..], b)
    ensures forall k :: StepAt(f, b, k)
  {
    forall k ensures StepAt(f, b, k) {
      if 0 <= k < |b| - 1 {
        assert StepAt(f[1..], b, k);
        LiftSiblings(f, b[k], b[k + 1]);
      }
    }
  }

  lemma SiblingLeaves(f: seq<Tree>, b: seq<Path>)
    requires |f| > 1 && DistinctSiblings(f) && Tour(f[1..], b)
    ensures forall k | 0 <= k < |b| :: IsLeaf(f, b[k])
    ensures Successor(f, b[|b| - 1]) == []
  {
    forall k | 0 <= k < |b| ensures IsLeaf(f, b[k]) {
      ShiftLeaf(f, b[k]);
    }
    ShiftLeaf(f, b[|b| - 1]);
  }

  lemma JoinedStep(f: seq<Tree>, a: seq<Path>, b: seq<Path>, k: int)
    requires a != [] && b != [] && StepAt(f, a, k) && StepAt(f, b, k - |a|) && FollowedBy(f, a[|a| - 1], b[0])
    ensures StepAt(f, a + b, k)
  {
    hide FollowedBy;
  }

  lemma JoinTours(f: seq<Tree>, a: seq<Path>, b: seq<Path>)
    requires a != [] && b != [] && a[0] == Extend(f, [])
    requires forall k | 0 <= k < |a| :: IsLeaf(f, a[k])
    requires forall k | 0 <= k < |b| :: IsLeaf(f, b[k])
    requires forall k :: StepAt(f, a, k)
    requires forall k :: StepAt(f, b, k)
    requires FollowedBy(f, a[|a| - 1], b[0]) && Successor(f, b[|b| - 1]) == []
    ensures Tour(f, a + b)
  {
    hide StepAt, FollowedBy, Successor;
    var ps := a + b;
    forall k ensures StepAt(f, ps, k) {
      assert StepAt(f, a, k) && StepAt(f, b, k - |a|);
      JoinedStep(f, a, b, k);
    }
  }

  /** The list of leaf paths names every leaf, and each only once. */
  lemma {:induction false} LeafPathsExact(f: seq<Tree>)
    requires DistinctSiblings(f)
    ensures forall p :: p in LeafPaths(f) <==> IsLeaf(f, p)
    ensures forall i, j | 0 <= i < j < |LeafPaths(f)| :: LeafPaths(f)[i] != LeafPaths(f)[j]
  {
    LeafPathsTour(f);
    forall p | IsLeaf(f, p) ensures p in LeafPaths(f) {
      EveryLeafListed(f, p);
    }
    LeafPathsDistinct(f);
  }

  lemma {:induction false} EveryLeafListed(f: seq<Tree>, p: Path)
    requires DistinctSiblings(f) && IsLeaf(f, p)
    ensures p in LeafPaths(f)
  {
    if f != [] {
      var inner := LeafPaths(f[0].kids);
      if p[0] == f[0].sig {
        EveryLeafListed(f[0].kids, p[1..]);
        var i :| 0 <= i < |inner| && inner[i] == p[1..];
        var a := Prefixed(f[0].sig, inner);
        assert a[i] == [p[0]] + p[1..] == p;
        assert a <= LeafPaths(f);
      } else {
        ShiftIndex(f, p[0]);
        EveryLeafListed(f[1..], p);
        assert LeafPaths(f) == Prefixed(f[0].sig, inner) + LeafPaths(f[1..]);
      }
    }
  }

  lemma {:induction false} LeafPathsDistinct(f: seq<Tree>)
    requires DistinctSiblings(f)
    ensures forall i, j | 0 <= i < j < |LeafPaths(f)| :: LeafPaths(f)[i] != LeafPaths(f)[j]
  {
    if f != [] {
      var inner := LeafPaths(f[0].kids);
      var a := Prefixed(f[0].sig, inner);
      LeafPathsDistinct(f[0].kids);
      assert forall i, j | 0 <= i < j < |a| :: a[i][1..] == inner[i] != inner[j] == a[j][1..];
      if |f| == 1 {
        assert LeafPaths(f) == a;
      } else {
        var b := LeafPaths(f[1..]);
        LeafPathsDistinct(f[1..]);
        LeafPathsTour(f[1..]);
        forall k | 0 <= k < |b| ensures b[k] != [] && b[k][0] != f[0].sig {
          ShiftLeaf(f, b[k]);
        }
        assert LeafPaths(f) == a + b;
      }
    }
  }

  // ---------------------------------------------------------------- the runner

  /** Where a run that has already entered `stack` is heading inside body `f`. */
  ghost predicate Aims(f: seq<Tree>, stack: Path, next: Path) {
    |stack| < |next| ==> stack == next[..|stack|] && IsPath(f, next[|stack|..])
  }

  ghost function Target(f: seq<Tree>, stack: Path, next: Path): (p: Path)
    requires Aims(f, stack, next)
  {
    Extend(f, if |stack| < |next| then next[|stack|..] else [])
  }

  ghost predicate NothingRight(f: seq<Tree>, stack: Path, target: Path, done: set<Path>) {
    forall q :: RightOf(f, target, q) ==> stack + q !in done
  }

  /** Following a path and then the first subcases ends in a leaf. */
  lemma {:induction false} ExtendIsLeaf(f: seq<Tree>, p: Path)
    requires IsPath(f, p)
    ensures IsLeaf(f, Extend(f, p))
    decreases f
  {
    if f != [] {
      var i := if p == [] then 0 else IndexOf(f, p[0]);
      var rest := if p == [] then [] else p[1..];
      ExtendIsLeaf(f[i].kids, rest);
      assert Extend(f, p)[1..] == Extend(f[i].kids, rest);
    }
  }

  /** A run about to execute body `f` will end in leaf `target`, and no subcase to the right of that
      leaf has been traversed. */
  ghost predicate Ready(f: seq<Tree>, stack: Path, next: Path, done: set<Path>, target: Path) {
    && DistinctSiblings(f)
    && Aims(f, stack, next) && target == Target(f, stack, next)
    && NothingRight(f, stack, target, done)
  }

  /** The targeted subcase is the one a run enters, and inside it the run is ready again. */
  lemma EnterTarget(f: seq<Tree>, stack: Path, next: Path, done: set<Path>, target: Path) returns (t: nat)
    requires f != [] && Ready(f, stack, next, done, target)
    ensures t < |f| && target != [] && target[0] == f[t].sig
    ensures Ready(f[t].kids, stack + [f[t].sig], next, done, target[1..])
    ensures IsLeaf(f, target) && IsLeaf(f[t].kids, target[1..])
    ensures var deeper := Successor(f[t].kids, target[1..]);
            Successor(f, target) == if deeper != [] then [f[t].sig] + deeper
                                    else if t + 1 < |f| then [f[t + 1].sig] else []
    ensures forall i | 0 <= i < |f| && i <= t :: i == t <==> |next| <= |stack| || next[|stack|] == f[i].sig
  {
    t := TargetIndex(f, stack, next, target);
    ExtendIsLeaf(f, if |stack| < |next| then next[|stack|..] else []);
    IndexOfSig(f, t);
    EnterNothingRight(f, stack, done, target, t);
  }

  lemma TargetIndex(f: seq<Tree>, stack: Path, next: Path, target: Path) returns (t: nat)
    requires f != [] && Aims(f, stack, next) && target == Target(f, stack, next)
    ensures t < |f| && target != [] && target[0] == f[t].sig
    ensures Aims(f[t].kids, stack + [f[t].sig], next)
    ensures target[1..] == Target(f[t].kids, stack + [f[t].sig], next)
    ensures forall i | 0 <= i < |f| && i <= t :: i == t <==> |next| <= |stack| || next[|stack|] == f[i].sig
  {
    if |stack| < |next| {
      t := IndexOf(f, next[|stack|]);
      assert next[..|stack| + 1] == stack + [f[t].sig];
      assert next[|stack|..][1..] == next[|stack| + 1..];
    } else {
      t := 0;
    }
  }

  lemma EnterNothingRight(f: seq<Tree>, stack: Path, done: set<Path>, target: Path, t: nat)
    requires t < |f| && target != [] && target[0] == f[t].sig && IndexOf(f, f[t].sig) == t
    requires NothingRight(f, stack, target, done)
    ensures NothingRight(f[t].kids, stack + [f[t].sig], target[1..], done)
  {
    var x := f[t].sig;
    forall q | RightOf(f[t].kids, target[1..], q) ensures stack + [x] + q !in done {
      assert ([x] + q)[1..] == q;
      assert RightOf(f, target, [x] + q);
      assert stack + ([x] + q) == stack + [x] + q;
    }
  }

  /** The part of the runner's state that subcases share. Signature stacks stand for their hashes. */
  datatype Snapshot = Snapshot(reachedLeaf: bool, stack: Path, next: Path, done: set<Path>, depth: nat)

  /** Before a leaf has been reached: does this run go down into the subcase? */
  predicate GoesDown(s: Snapshot, sig: int) {
    |s.next| <= |s.stack| || s.next[|s.stack|] == sig
  }

  /** After the leaf: the aim for the next run once subcase `sig` has been passed by. */
  function PassedBy(s: Snapshot, sig: int): Snapshot
    requires s.depth <= |s.stack|
  {
    if |s.next| <= s.depth && s.stack[..s.depth] + [sig] !in s.done
    then s.(next := s.stack[..s.depth] + [sig]) else s
  }

  /** The state after a body entered in state `s` has run to leaf `path`, with `r` the next aim. */
  ghost function Finished(s: Snapshot, path: Path, r: Path): Snapshot {
    Snapshot(true, s.stack + path, if r == [] then [] else s.stack + r, s.done + {s.stack + path}, s.depth)
  }

  /** The aim after the first `i` subcases of a body whose subcase `t` was entered. */
  ghost function AimAfter(f: seq<Tree>, t: nat, deeper: Path, i: nat): Path
    requires t < i <= |f|
  {
    if deeper != [] then [f[t].sig] + deeper
    else if t + 1 < i then [f[t + 1].sig]
    else []
  }

  /** Subcase `t` of body `f` is the one that a run in state `s` enters; its later siblings have
      other signatures and have not been traversed. */
  ghost predicate Entry(f: seq<Tree>, s: Snapshot, t: nat) {
    && t < |f| && s.depth == |s.stack| && !s.reachedLeaf
    && (forall i | 0 <= i <= t :: i == t <==> GoesDown(s, f[i].sig))
    && (forall i | t < i < |f| :: f[i].sig != f[t].sig && s.stack + [f[i].sig] !in s.done)
  }

  /** Passing a later sibling of the entered subcase advances the aim as intended. */
  lemma PassSibling(f: seq<Tree>, s: Snapshot, target: Path, t: nat, deeper: Path, i: nat)
    requires Entry(f, s, t) && t < i < |f| && target != [] && target[0] == f[t].sig
    ensures var u := Finished(s, target, AimAfter(f, t, deeper, i));
            && u.depth < |u.stack| && u.stack[u.depth] == f[t].sig != f[i].sig
            && PassedBy(u, f[i].sig) == Finished(s, target, AimAfter(f, t, deeper, i + 1))
  {
    var u := Finished(s, target, AimAfter(f, t, deeper, i));
    assert u.stack[..u.depth] == s.stack;
    assert (s.stack + [f[i].sig])[|s.stack|] != u.stack[|s.stack|];
  }

  lemma ReadyEntry(f: seq<Tree>, s: Snapshot, target: Path, t: nat)
    requires Ready(f, s.stack, s.next, s.done, target) && s.depth == |s.stack| && !s.reachedLeaf
    requires t < |f| && target != [] && target[0] == f[t].sig
    requires forall i | 0 <= i <= t :: i == t <==> GoesDown(s, f[i].sig)
    ensures Entry(f, s, t)
  {
    forall i | t < i < |f| ensures f[i].sig != f[t].sig && s.stack + [f[i].sig] !in s.done {
      IndexOfSig(f, t);
      IndexOfSig(f, i);
      assert RightOf(f, target, [f[i].sig]);
    }
  }

  function Entered(s: Snapshot, sig: int): Snapshot {
    s.(stack := s.stack + [sig], depth := s.depth + 1)
  }

  function Closed(s: Snapshot): Snapshot
    requires s.depth > 0
  {
    var next := if s.reachedLeaf then s.next else [];
    Snapshot(true, s.stack, next, s.done + (if next == [] then {s.stack} else {}), s.depth - 1)
  }

  /** Closing a subcase turns the end of its body into the end of the whole statement. */
  lemma CloseEntered(s: Snapshot, sig: int, inner: Path, r: Path)
    ensures Closed(Finished(Entered(s, sig), inner, r))
            == Finished(s, [sig] + inner, if r == [] then [] else [sig] + r)
    ensures !s.reachedLeaf ==> Closed(Entered(s, sig)) == Finished(s, [sig], [])
  {
    assert s.stack + [sig] + inner == s.stack + ([sig] + inner);
    assert s.stack + [sig] + r == s.stack + ([sig] + r);
  }

  class TestContext {
    var reachedLeaf: bool
    var subcaseStack: Path
    var nextSubcaseStack: Path
    var fullyTraversed: set<Path>
    var currentSubcaseDepth: nat

    ghost function Now(): Snapshot
      reads this
    {
      Snapshot(reachedLeaf, subcaseStack, nextSubcaseStack, fullyTraversed, currentSubcaseDepth)
    }

    constructor ()
      ensures Now() == Snapshot(false, [], [], {}, 0)
    {
      reachedLeaf, subcaseStack, nextSubcaseStack, fullyTraversed, currentSubcaseDepth := false, [], [], {}, 0;
    }

    /** Reaching the definition of a subcase: is its body executed in this run? */
    method OpenSubcase(sig: int) returns (entered: bool)
      requires currentSubcaseDepth <= |subcaseStack|
      requires reachedLeaf ==> currentSubcaseDepth < |subcaseStack|
      modifies this
      ensures entered == old(if reachedLeaf then subcaseStack[currentSubcaseDepth] == sig else GoesDown(Now(), sig))
      ensures var s := old(Now());
              Now() == if s.reachedLeaf then (if entered then s.(depth := s.depth + 1) else PassedBy(s, sig))
                       else if entered then Entered(s, sig)
                       else s
    {
      entered := false;
      if !reachedLeaf {
        if |nextSubcaseStack| <= |subcaseStack| || nextSubcaseStack[|subcaseStack|] == sig {
          subcaseStack := subcaseStack + [sig];
          currentSubcaseDepth := currentSubcaseDepth + 1;
          entered := true;
        }
      } else if subcaseStack[currentSubcaseDepth] == sig {
        currentSubcaseDepth := currentSubcaseDepth + 1;
        entered := true;
      } else if |nextSubcaseStack| <= currentSubcaseDepth
             && subcaseStack[..currentSubcaseDepth] + [sig] !in fullyTraversed {
        nextSubcaseStack := subcaseStack[..currentSubcaseDepth] + [sig];
      }
    }

    /** Leaving the body of an entered subcase. */
    method CloseSubcase()
      requires currentSubcaseDepth > 0
      modifies this
      ensures Now() == Closed(old(Now()))
    {
      currentSubcaseDepth := currentSubcaseDepth - 1;
      if !reachedLeaf {
        fullyTraversed := fullyTraversed + {subcaseStack};
        nextSubcaseStack := [];
        reachedLeaf := true;
      } else if nextSubcaseStack == [] {
        fullyTraversed := fullyTraversed + {subcaseStack};
      }
    }

    /** One subcase statement of a body: its guard, its body if entered, and its end. */
    method RunSubcase(c: Tree, ghost inner: Path) returns (entered: Path)
      requires currentSubcaseDepth <= |subcaseStack|
      requires reachedLeaf ==> currentSubcaseDepth < |subcaseStack| && subcaseStack[currentSubcaseDepth] != c.sig
      requires !reachedLeaf ==> currentSubcaseDepth == |subcaseStack|
      requires !reachedLeaf && GoesDown(Now(), c.sig)
               ==> Ready(c.kids, subcaseStack + [c.sig], nextSubcaseStack, fullyTraversed, inner)
      modifies this
      ensures old(reachedLeaf) ==> Now() == PassedBy(old(Now()), c.sig) && entered == []
      ensures old(!reachedLeaf && !GoesDown(Now(), c.sig)) ==> Now() == old(Now()) && entered == []
      ensures old(!reachedLeaf && GoesDown(Now(), c.sig)) ==>
                && entered == [c.sig] + inner && IsLeaf(c.kids, inner)
                && var r := Successor(c.kids, inner);
                   Now() == Finished(old(Now()), [c.sig] + inner, if r == [] then [] else [c.sig] + r)
      decreases c
    {
      entered := [];
      ghost var s := Now();
      var open := OpenSubcase(c.sig);
      if open {
        var rest := RunBody(c.kids, inner);
        CloseEntered(s, c.sig, inner, Successor(c.kids, inner));
        if c.kids == [] {
          assert inner == [] && [c.sig] + inner == [c.sig] && Successor(c.kids, inner) == [];
        }
        CloseSubcase();
        entered := [c.sig] + rest;
      }
    }

    /** One execution of a body from its start: it enters the targeted leaf path and no other
        subcase, and leaves behind the aim of the next run. */
    method RunBody(f: seq<Tree>, ghost target: Path) returns (entered: Path)
      requires !reachedLeaf && currentSubcaseDepth == |subcaseStack|
      requires Ready(f, subcaseStack, nextSubcaseStack, fullyTraversed, target)
      modifies this
      ensures entered == target && IsLeaf(f, target)
      ensures f == [] ==> Now() == old(Now()) && target == []
      ensures f != [] ==> Now() == Finished(old(Now()), target, Successor(f, target))
      decreases f, 1
    {
      entered := [];
      if f != [] {
        ghost var s := Now();
        ghost var t := EnterTarget(f, s.stack, s.next, s.done, target);
        ReadyEntry(f, s, target, t);
        assert target == [f[t].sig] + target[1..];
        entered := RunStatements(f, t, target[1..]);
      }
    }

    /** The statements of a body, one after the other. */
    method RunStatements(f: seq<Tree>, ghost t: nat, ghost inner: Path) returns (entered: Path)
      requires Entry(f, Now(), t)
      requires Ready(f[t].kids, subcaseStack + [f[t].sig], nextSubcaseStack, fullyTraversed, inner)
      requires IsLeaf(f[t].kids, inner)
      modifies this
      ensures entered == [f[t].sig] + inner
      ensures Now() == Finished(old(Now()), entered, AimAfter(f, t, Successor(f[t].kids, inner), |f|))
      decreases f, 0
    {
      ghost var s, target, deeper := Now(), [f[t].sig] + inner, Successor(f[t].kids, inner);
      entered := [];
      var i := 0;
      while i < |f|
        invariant 0 <= i <= |f|
        invariant i <= t ==> Now() == s && entered == []
        invariant t < i ==> Now() == Finished(s, target, AimAfter(f, t, deeper, i)) && entered == target
      {
        if t < i {
          PassSibling(f, s, target, t, deeper, i);
        }
        var inside := RunSubcase(f[i], inner);
        entered := entered + inside;
        i := i + 1;
      }
    }

    /** The re-run loop for one test case: every leaf path is executed once, left to right. */
    method RunTest(f: seq<Tree>) returns (runs: seq<Path>)
      requires DistinctSiblings(f) && nextSubcaseStack == []
      modifies this
      ensures runs == LeafPaths(f)
      ensures nextSubcaseStack == []
    {
      ghost var leaves := LeafPaths(f);
      LeafPathsTour(f);
      BeforeFirstRun(f, leaves);
      runs := [];
      fullyTraversed := {};
      var runTest := true;
      while runTest
        invariant |runs| <= |leaves| && runs == leaves[..|runs|]
        invariant runTest ==> |runs| < |leaves|
                              && Ready(f, [], nextSubcaseStack, fullyTraversed, leaves[|runs|])
        invariant !runTest ==> runs == leaves && nextSubcaseStack == []
        decreases runTest, |leaves| - |runs|
      {
        reachedLeaf := false;
        subcaseStack := [];
        currentSubcaseDepth := 0;
        ghost var s, k := Now(), |runs|;
        var path := RunBody(f, leaves[k]);
        runs := runs + [path];
        AfterRun(f, leaves, k, s);
        if nextSubcaseStack == [] {
          runTest := false;
        }
      }
    }
  }

  lemma BeforeFirstRun(f: seq<Tree>, leaves: seq<Path>)
    requires DistinctSiblings(f) && Tour(f, leaves)
    ensures Ready(f, [], [], {}, leaves[0])
  {
  }

  /** The visited leaf is not to the right of the next one, and what is to the right of the next one
      was to the right of it. */
  lemma NothingRightOfNext(f: seq<Tree>, p1: Path, p2: Path, done: set<Path>)
    requires FollowedBy(f, p1, p2) && NothingRight(f, [], p1, done)
    ensures NothingRight(f, [], p2, done + {p1})
  {
    NotRightOfItself(f, p1);
    forall q | RightOf(f, p2, q) ensures [] + q !in done + {p1} {
      assert [] + q == q;
    }
  }

  /** A body without subcases is run once. */
  lemma AfterOnlyRun(f: seq<Tree>, leaves: seq<Path>, k: nat, next: Path)
    requires f == [] && Tour(f, leaves) && k < |leaves| && Aims(f, [], next)
    ensures k + 1 == |leaves| && next == []
  {
    assert StepAt(f, leaves, k);
  }

  lemma ReadyNext(f: seq<Tree>, p1: Path, p2: Path, done: set<Path>)
    requires DistinctSiblings(f) && FollowedBy(f, p1, p2) && NothingRight(f, [], p1, done)
    ensures Successor(f, p1) != [] && Ready(f, [], Successor(f, p1), done + {p1}, p2)
  {
    hide DistinctSiblings;
    var r := Successor(f, p1);
    assert r[0..] == r && r[..0] == [];
    NothingRightOfNext(f, p1, p2, done);
  }

  /** After the run for leaf `k`, the recorded aim makes the runner ready for leaf `k + 1`. */
  lemma AfterRun(f: seq<Tree>, leaves: seq<Path>, k: nat, s: Snapshot)
    requires DistinctSiblings(f) && Tour(f, leaves) && k < |leaves| && s.stack == []
    requires Ready(f, [], s.next, s.done, leaves[k])
    ensures leaves[..k + 1] == leaves[..k] + [leaves[k]]
    ensures f == [] ==> k + 1 == |leaves| && s.next == []
    ensures var u := Finished(s, leaves[k], Successor(f, leaves[k]));
            && (u.next == [] <==> k + 1 == |leaves|)
            && (k + 1 < |leaves| ==> Ready(f, [], u.next, u.done, leaves[k + 1]))
  {
    hide DistinctSiblings, Aims, NothingRight, FollowedBy, Successor, Target;
    if f == [] {
      AfterOnlyRun(f, leaves, k, s.next);
    }
    var p := leaves[k];
    var r := Successor(f, p);
    assert [] + r == r && [] + p == p;
    if k + 1 < |leaves| {
      assert StepAt(f, leaves, k);
      ReadyNext(f, p, leaves[k + 1], s.done);
    }
  }
}
