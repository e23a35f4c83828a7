/** The per-method radix route tree (tree.go): parameters, the method table,
    and node insertion with prefix splitting and priority reordering. */
module Tree {
  import opened Lang
  import opened Jin

  // ---------------------------------------------------------------------
  // Params
  // ---------------------------------------------------------------------

  datatype Param = Param(key: string, value: string)

  /** Matched parameters, in path order. */
  type Params = seq<Param>

  /** The value of the first entry keyed `name`, if there is one. */
  function FirstValue(ps: Params, name: string): Option<string>
  {
    if ps == [] then None
    else if ps[0].key == name then Some(ps[0].value)
    else FirstValue(ps[1..], name)
  }

  /** `FirstValue` finds a value exactly when some entry has the key, and the
      value it finds belongs to the first such entry. */
  lemma {:induction false} FirstValueSpec(ps: Params, name: string)
    ensures FirstValue(ps, name).None? <==> forall k :: 0 <= k < |ps| ==> ps[k].key != name
    ensures FirstValue(ps, name).Some? ==>
      exists k :: 0 <= k < |ps| && ps[k].key == name && ps[k].value == FirstValue(ps, name).value
                  && forall j :: 0 <= j < k ==> ps[j].key != name
  {
    if ps != [] && ps[0].key != name {
      FirstValueSpec(ps[1..], name);
      if FirstValue(ps, name).Some? {
        var k :| 0 <= k < |ps| - 1 && ps[1..][k].key == name
                 && ps[1..][k].value == FirstValue(ps, name).value
                 && forall j :: 0 <= j < k ==> ps[1..][j].key != name;
        assert ps[k + 1].key == name;
        assert forall j :: 0 <= j < k + 1 ==> ps[j].key != name by {
          forall j | 0 <= j < k + 1 ensures ps[j].key != name {
            if j > 0 { assert ps[j] == ps[1..][j - 1]; }
          }
        }
      } else {
        forall k | 0 <= k < |ps| ensures ps[k].key != name {
          if k > 0 { assert ps[k] == ps[1..][k - 1]; }
        }
      }
    }
  }

  /** `Params.Get`: scan in order, return the first matching value. */
  method Get(ps: Params, name: string) returns (value: string, ok: bool)
    ensures ok <==> FirstValue(ps, name).Some?
    ensures value == if ok then FirstValue(ps, name).value else ""
  {
    var k := 0;
    while k < |ps|
      invariant 0 <= k <= |ps|
      invariant FirstValue(ps[k..], name) == FirstValue(ps, name)
    {
      if ps[k].key == name {
        return ps[k].value, true;
      }
      assert ps[k..][1..] == ps[k + 1..];
      k := k + 1;
    }
    return "", false;
  }

  /** `Params.ByName` looks up the literal key "name": its argument is never consulted. */
  method ByName(ps: Params, name: string) returns (va: string)
    ensures va == if FirstValue(ps, "name").Some? then FirstValue(ps, "name").value else ""
  {
    var found;
    va, found := Get(ps, "name");
  }

  // ---------------------------------------------------------------------
  // methodTrees
  // ---------------------------------------------------------------------

  datatype MethodTree = MethodTree(httpMethod: string, root: Node?)

  type MethodTrees = seq<MethodTree>

  /** The root of the first tree registered for `m`, or nil. */
  function TreeFor(trees: MethodTrees, m: string): Node?
  {
    if trees == [] then null
    else if trees[0].httpMethod == m then trees[0].root
    else TreeFor(trees[1..], m)
  }

  /** `TreeFor` answers with the root of the first tree whose method is `m`,
      and with nil when no tree has that method. */
  lemma {:induction false} TreeForSpec(trees: MethodTrees, m: string)
    ensures (forall k :: 0 <= k < |trees| ==> trees[k].httpMethod != m) ==> TreeFor(trees, m) == null
    ensures forall k :: 0 <= k < |trees| && trees[k].httpMethod == m
                        && (forall j :: 0 <= j < k ==> trees[j].httpMethod != m)
                        ==> TreeFor(trees, m) == trees[k].root
  {
    if trees != [] {
      TreeForSpec(trees[1..], m);
      if trees[0].httpMethod != m {
        forall k | 0 <= k < |trees| && trees[k].httpMethod == m
                   && (forall j :: 0 <= j < k ==> trees[j].httpMethod != m)
          ensures TreeFor(trees, m) == trees[k].root
        {
          assert k > 0;
          assert trees[k] == trees[1..][k - 1];
          forall j | 0 <= j < k - 1 ensures trees[1..][j].httpMethod != m {
            assert trees[1..][j] == trees[j + 1];
          }
        }
        if forall k :: 0 <= k < |trees| ==> trees[k].httpMethod != m {
          forall k | 0 <= k < |trees[1..]| ensures trees[1..][k].httpMethod != m {
            assert trees[1..][k] == trees[k + 1];
          }
        }
      }
    }
  }

  /** `methodTrees.get`. */
  method GetTree(trees: MethodTrees, m: string) returns (root: Node?)
    ensures root == TreeFor(trees, m)
  {
    var k := 0;
    while k < |trees|
      invariant 0 <= k <= |trees|
      invariant TreeFor(trees[k..], m) == TreeFor(trees, m)
    {
      if trees[k].httpMethod == m {
        return trees[k].root;
      }
      assert trees[k..][1..] == trees[k + 1..];
      k := k + 1;
    }
    return null;
  }

  // ---------------------------------------------------------------------
  // Small helpers: min, countParams, the common-prefix scan
  // ---------------------------------------------------------------------

  function Min(a: int, b: int): (r: int)
    ensures r <= a && r <= b
    ensures r == a || r == b
  {
    if a <= b then a else b
  }

  /** 1 for a byte that opens a wildcard (`:` or `*`), 0 otherwise. */
  function Mark(c: char): nat {
    if c == ':' || c == '*' then 1 else 0
  }

  /** The number of `:` and `*` bytes in `p`. */
  function ParamMarks(p: string): nat
  {
    if p == [] then 0 else ParamMarks(p[..|p| - 1]) + Mark(p[|p| - 1])
  }

  /** Counting is additive over concatenation. */
  lemma {:induction false} ParamMarksAppend(a: string, b: string)
    ensures ParamMarks(a + b) == ParamMarks(a) + ParamMarks(b)
    decreases |b|
  {
    if b != [] {
      assert (a + b)[..|a + b| - 1] == a + b[..|b| - 1];
      ParamMarksAppend(a, b[..|b| - 1]);
    } else {
      assert a + b == a;
    }
  }

  /** There are never more marks than bytes, and only wildcard bytes count. */
  lemma {:induction false} ParamMarksBound(p: string)
    ensures ParamMarks(p) <= |p|
    ensures ParamMarks(p) == 0 <==> forall k :: 0 <= k < |p| ==> p[k] != ':' && p[k] != '*'
  {
    if p != [] {
      ParamMarksBound(p[..|p| - 1]);
      assert forall k :: 0 <= k < |p| - 1 ==> p[..|p| - 1][k] == p[k];
    }
  }

  /** `countParams`: the wildcard count, saturated at the `uint8` maximum 255. */
  method CountParams(path: string) returns (r: nat)
    ensures r < 256
    ensures r == Min(ParamMarks(path), 255)
  {
    var n := 0;
    var i := 0;
    while i < |path|
      invariant 0 <= i <= |path|
      invariant n == ParamMarks(path[..i])
    {
      assert path[..i + 1][..i] == path[..i];
      if path[i] == ':' || path[i] == '*' {
        n := n + 1;
      }
      i := i + 1;
    }
    assert path[..|path|] == path;
    if n > 255 {
      return 255;
    }
    return n;
  }

  /** The prefix scan at the top of each walk step (tree.go:115-119): the length
      of the longest common prefix of `a` and `b`. */
  method CommonPrefixLength(a: string, b: string) returns (i: nat)
    ensures i <= |a| && i <= |b|
    ensures a[..i] == b[..i]
    ensures i < |a| && i < |b| ==> a[i] != b[i]
  {
    i := 0;
    var max := Min(|a|, |b|);
    while i < max && a[i] == b[i]
      invariant 0 <= i <= max
      invariant a[..i] == b[..i]
    {
      i := i + 1;
    }
  }

  /** `t` occurs in `s` starting at position `p`. */
  ghost predicate OccursAt(s: string, t: string, p: nat) {
    p + |t| <= |s| && s[p..p + |t|] == t
  }

  /** `strings.Index(s, t)`: the first position where `t` occurs in `s`, or -1. */
  function IndexOf(s: string, t: string, from: nat := 0): (r: int)
    requires from <= |s|
    ensures -1 <= r
    ensures r >= 0 ==> from <= r && OccursAt(s, t, r)
    ensures forall p :: from <= p && OccursAt(s, t, p) ==> 0 <= r <= p
    decreases |s| - from
  {
    if from + |t| > |s| then -1
    else if s[from..from + |t|] == t then from
    else if from == |s| then -1
    else IndexOf(s, t, from + 1)
  }

  /** `strings.IndexByte`: the first position of `c` in `s`, or -1 when there is none. */
  function IndexByte(s: string, c: char): (r: int)
    ensures r == -1 <==> c !in s
    ensures r >= 0 ==> r < |s| && s[r] == c && forall p :: 0 <= p < r ==> s[p] != c
  {
    var r := IndexOf(s, [c]);
    forall p | 0 <= p < |s| && s[p] == c ensures OccursAt(s, [c], p) {
      assert s[p..p + 1] == [c];
    }
    if r >= 0 then
      assert s[r..r + 1][0] == s[r];
      r
    else
      r
  }

  /** `strings.SplitN(path, "/", 2)[0]`: everything before the first slash. */
  function FirstSegment(path: string): (r: string)
    ensures |r| <= |path| && r == path[..|r|]
    ensures forall k :: 0 <= k < |r| ==> r[k] != '/'
    ensures |r| < |path| ==> path[|r|] == '/'
  {
    if path == [] || path[0] == '/' then []
    else [path[0]] + FirstSegment(path[1..])
  }

  // ---------------------------------------------------------------------
  // Child reordering, as sequence operations
  // ---------------------------------------------------------------------

  /** `s` with the element at `from` moved left to `to`; the elements from `to`
      up to `from - 1` each shift one place right. */
  function Rotate<T>(s: seq<T>, from: nat, to: nat): (r: seq<T>)
    requires to <= from < |s|
    ensures |r| == |s|
  {
    if from == to then s
    else
      seq(|s|, k requires 0 <= k < |s| =>
        if k < to then s[k] else if k == to then s[from] else if k <= from then s[k - 1] else s[k])
  }

  /** Where each element of a rotation comes from. */
  lemma RotateAt<T>(s: seq<T>, from: nat, to: nat, k: nat)
    requires to <= from < |s| && k < |s|
    ensures Rotate(s, from, to)[k] ==
      if k < to then s[k] else if k == to then s[from] else if k <= from then s[k - 1] else s[k]
  {
  }

  /** The rotation is the slice splice of tree.go:94-96, and so a permutation. */
  lemma {:induction false} RotateSplice<T>(s: seq<T>, from: nat, to: nat)
    requires to <= from < |s|
    ensures Rotate(s, from, to) == s[..to] + s[from..from + 1] + s[to..from] + s[from + 1..]
    ensures multiset(Rotate(s, from, to)) == multiset(s)
  {
    var r := s[..to] + s[from..from + 1] + s[to..from] + s[from + 1..];
    assert |r| == |s|;
    forall k | 0 <= k < |s| ensures Rotate(s, from, to)[k] == r[k] {
      if k < to {
        assert r[k] == s[..to][k];
      } else if k == to {
        assert r[k] == s[from..from + 1][0];
      } else if k <= from {
        assert r[k] == (s[..to] + s[from..from + 1] + s[to..from])[k];
        assert r[k] == s[to..from][k - to - 1];
      } else {
        assert r[k] == s[from + 1..][k - from - 1];
      }
    }
    SpliceSame(s, from, to);
  }

  /** Moving the slice `s[from..from + 1]` left keeps the elements. */
  lemma SpliceSame<T>(s: seq<T>, from: nat, to: nat)
    requires to <= from < |s|
    ensures multiset(s[..to] + s[from..from + 1] + s[to..from] + s[from + 1..]) == multiset(s)
  {
    assert s == s[..to] + s[to..from] + s[from..from + 1] + s[from + 1..];
  }

  /** One adjacent swap turns the rotation to `to` into the rotation to `to - 1`. */
  lemma RotateStep<T>(s: seq<T>, from: nat, to: nat)
    requires 0 < to <= from < |s|
    ensures Rotate(s, from, to)[to - 1 := Rotate(s, from, to)[to]][to := Rotate(s, from, to)[to - 1]]
            == Rotate(s, from, to - 1)
  {
    var a := Rotate(s, from, to);
    var b := a[to - 1 := a[to]][to := a[to - 1]];
    forall k | 0 <= k < |s| ensures b[k] == Rotate(s, from, to - 1)[k] {
      RotateAt(s, from, to, k);
      RotateAt(s, from, to - 1, k);
      RotateAt(s, from, to, to - 1);
      RotateAt(s, from, to, to);
    }
  }

  lemma RotateSelf<T>(s: seq<T>, from: nat)
    requires from < |s|
    ensures Rotate(s, from, from) == s
  {
    assert s[..from] + [s[from]] + s[from + 1..] == s;
  }

  ghost predicate Distinct<T>(s: seq<T>) {
    forall j, k :: 0 <= j < k < |s| ==> s[j] != s[k]
  }

  /** A rotation of a duplicate-free sequence is duplicate-free. */
  lemma RotateDistinct<T>(s: seq<T>, from: nat, to: nat)
    requires to <= from < |s| && Distinct(s)
    ensures Distinct(Rotate(s, from, to))
  {
    var r := Rotate(s, from, to);
    forall j, k | 0 <= j < k < |r| ensures r[j] != r[k] {
      RotateAt(s, from, to, j);
      RotateAt(s, from, to, k);
    }
  }

  /** `ps` with the entry at `pos` raised by one. */
  function Bumped(ps: seq<nat>, pos: nat): (r: seq<nat>)
    requires pos < |ps|
    ensures |r| == |ps| && r[pos] == ps[pos] + 1
    ensures forall k :: 0 <= k < |ps| && k != pos ==> r[k] == ps[k]
  {
    ps[pos := ps[pos] + 1]
  }

  /** Where a child of priority `p` standing at `pos` comes to rest: it passes
      every directly preceding sibling whose priority is strictly below `p`. */
  function BubbleTarget(ps: seq<nat>, pos: nat, p: nat): (r: nat)
    requires pos < |ps|
    ensures r <= pos
    ensures forall k :: r <= k < pos ==> ps[k] < p
    ensures r > 0 ==> ps[r - 1] >= p
  {
    if pos == 0 || ps[pos - 1] >= p then pos else BubbleTarget(ps, pos - 1, p)
  }

  /** Children listed from the highest priority down. */
  ghost predicate NonIncreasing(ps: seq<nat>) {
    forall j, k :: 0 <= j < k < |ps| ==> ps[j] >= ps[k]
  }

  /** Bumping one priority and bubbling it left keeps a priority-ordered list ordered. */
  lemma BumpKeepsOrder(ps: seq<nat>, pos: nat)
    requires pos < |ps| && NonIncreasing(ps)
    ensures NonIncreasing(Rotate(Bumped(ps, pos), pos, BubbleTarget(Bumped(ps, pos), pos, ps[pos] + 1)))
  {
    var q := Rotate(Bumped(ps, pos), pos, BubbleTarget(Bumped(ps, pos), pos, ps[pos] + 1));
    forall j, k | 0 <= j < k < |q| ensures q[j] >= q[k] {
      BumpedPair(ps, pos, j, k);
    }
  }

  lemma BumpedPair(ps: seq<nat>, pos: nat, j: nat, k: nat)
    requires pos < |ps| && NonIncreasing(ps) && j < k < |ps|
    ensures var q := Rotate(Bumped(ps, pos), pos, BubbleTarget(Bumped(ps, pos), pos, ps[pos] + 1));
            q[j] >= q[k]
  {
    var b := Bumped(ps, pos);
    var t := BubbleTarget(b, pos, ps[pos] + 1);
    BubbleTargetPrefix(b, ps, pos, ps[pos] + 1);
    BumpPair(ps, pos, t, j, k);
    BumpedAt(ps, pos, t, j);
    BumpedAt(ps, pos, t, k);
  }

  /** The bubbling target looks only at the entries left of the start. */
  lemma {:induction false} BubbleTargetPrefix(xs: seq<nat>, ys: seq<nat>, pos: nat, p: nat)
    requires pos < |xs| && pos < |ys| && xs[..pos] == ys[..pos]
    ensures BubbleTarget(xs, pos, p) == BubbleTarget(ys, pos, p)
  {
    if pos > 0 {
      assert xs[pos - 1] == xs[..pos][pos - 1] == ys[..pos][pos - 1] == ys[pos - 1];
      assert xs[..pos - 1] == xs[..pos][..pos - 1];
      assert ys[..pos - 1] == ys[..pos][..pos - 1];
      BubbleTargetPrefix(xs, ys, pos - 1, p);
    }
  }

  /** An entry of the bumped list after the rotation, by where it came from. */
  lemma BumpedAt(ps: seq<nat>, pos: nat, t: nat, x: nat)
    requires t <= pos < |ps| && x < |ps|
    ensures Rotate(Bumped(ps, pos), pos, t)[x] ==
      if x < t then ps[x] else if x == t then ps[pos] + 1 else if x <= pos then ps[x - 1] else ps[x]
  {
    RotateAt(Bumped(ps, pos), pos, t, x);
  }

  /** One pair of entries of the bubbled list, compared by where each came from. */
  lemma BumpPair(ps: seq<nat>, pos: nat, t: nat, j: nat, k: nat)
    requires pos < |ps| && NonIncreasing(ps) && t <= pos && j < k < |ps|
    requires forall i :: t <= i < pos ==> ps[i] < ps[pos] + 1
    requires t > 0 ==> ps[t - 1] >= ps[pos] + 1
    ensures (if j < t then ps[j] else if j == t then ps[pos] + 1 else if j <= pos then ps[j - 1] else ps[j])
         >= (if k < t then ps[k] else if k == t then ps[pos] + 1 else if k <= pos then ps[k - 1] else ps[k])
  {
    if j == t {
      if k <= pos { assert ps[k - 1] < ps[pos] + 1; } else { assert ps[pos] >= ps[k]; }
    } else if k == t {
      assert ps[j] >= ps[t - 1];
    } else {
      var oj := if j < t then j else if j <= pos then j - 1 else j;
      var ok := if k < t then k else if k <= pos then k - 1 else k;
      assert oj < ok;
      assert ps[oj] >= ps[ok];
    }
  }

  // ---------------------------------------------------------------------
  // Nodes
  // ---------------------------------------------------------------------

  datatype NodeType = StaticKind | RootKind | ParamKind | CatchAllKind

  /** The priorities of a list of children, in order. */
  function Prios(cs: seq<Node>): (r: seq<nat>)
    reads cs
    ensures |r| == |cs|
    ensures forall k :: 0 <= k < |cs| ==> r[k] == cs[k].priority
  {
    seq(|cs|, k requires 0 <= k < |cs| reads cs => cs[k].priority)
  }

  /** `indices` and `children` in lock-step: byte k is the first byte of child k's path. */
  ghost predicate LockStep(indices: string, children: seq<Node>)
    reads children`path
  {
    |indices| == |children| &&
    forall k :: 0 <= k < |children| ==> |children[k].path| > 0 && children[k].path[0] == indices[k]
  }

  /** The shape every node of a tree keeps: its children lie in the tree, none
      twice, each strictly deeper (a ghost depth, so the tree has no cycles). */
  ghost predicate TreeShape(A: set<Node>)
    reads A`children
  {
    (forall m :: m in A ==> Distinct(m.children)) &&
    (forall m, c :: m in A && c in m.children ==> c in A && m.depth < c.depth)
  }

  /** The nodes of `A` lying deeper than `d`. */
  ghost function Deeper(A: set<Node>, d: real): set<Node>
  {
    set m | m in A && m.depth > d
  }

  /** How far a walk standing on `n` may still go down without consuming any of
      the route: twice the number of nodes below it, plus one on a parameter
      node, which may hand the walk on to its single child. */
  ghost function Height(A: set<Node>, n: Node): nat
    reads n`nType
  {
    2 * |Deeper(A, n.depth)| + (if n.nType == ParamKind then 1 else 0)
  }

  /** The path spelled by a walk from the root: its nodes' fragments, concatenated. */
  ghost function SpelledPath(ns: seq<Node>): string
    reads ns`path
  {
    if ns == [] then "" else SpelledPath(ns[..|ns| - 1]) + ns[|ns| - 1].path
  }

  /** A walk goes strictly down the tree. */
  ghost predicate Descending(ns: seq<Node>)
  {
    forall j, k :: 0 <= j < k < |ns| ==> ns[j].depth < ns[k].depth
  }

  /** Each node of `done` has the next one, or `n` after the last, among its children. */
  ghost predicate Linked(done: seq<Node>, n: Node)
    reads done`children
  {
    (forall k :: 0 <= k < |done| - 1 ==> done[k + 1] in done[k].children) &&
    (|done| > 0 ==> n in done[|done| - 1].children)
  }

  lemma LinkedStep(done: seq<Node>, n: Node, next: Node)
    requires Linked(done, n) && next in n.children
    ensures Linked(done + [n], next)
  {
    var w := done + [n];
    forall k | 0 <= k < |w| - 1 ensures w[k + 1] in w[k].children {
      assert w[k] == done[k];
    }
  }

  class Node {
    var path: string
    var indices: string
    var children: seq<Node>
    var handlers: Option<HandlerChain>
    var priority: nat
    var nType: NodeType
    var maxParams: nat
    var wildChild: bool
    var fullPath: string
    /** Distance from the top of the tree, up to gaps; only the proofs use it. */
    ghost const depth: real

    /** `&node{maxParams: numParams, fullPath: fullPath}` (tree.go:195-198). */
    constructor (maxParams: nat, fullPath: string, ghost depth: real)
      ensures this.maxParams == maxParams && this.fullPath == fullPath && this.depth == depth
      ensures path == "" && indices == "" && children == [] && handlers == None
      ensures priority == 0 && nType == StaticKind && !wildChild
    {
      path, indices, children, handlers := "", "", [], None;
      priority, nType, this.maxParams, wildChild := 0, StaticKind, maxParams, false;
      this.fullPath := fullPath;
      this.depth := depth;
    }

    /** The node split off below the common prefix (tree.go:122-130). */
    constructor Split(path: string, wildChild: bool, indices: string, children: seq<Node>,
                      handlers: Option<HandlerChain>, priority: nat, fullPath: string, ghost depth: real)
      ensures this.path == path && this.wildChild == wildChild && this.indices == indices
      ensures this.children == children && this.handlers == handlers && this.priority == priority
      ensures this.fullPath == fullPath && this.depth == depth
      ensures nType == StaticKind && maxParams == 0
    {
      this.path, this.wildChild, this.indices, this.children := path, wildChild, indices, children;
      this.handlers, this.priority, this.fullPath := handlers, priority, fullPath;
      nType, maxParams := StaticKind, 0;
      this.depth := depth;
    }

    /** A childless node holding `path` and `handlers`. */
    constructor Leaf(path: string, nType: NodeType, handlers: Option<HandlerChain>, maxParams: nat,
                     fullPath: string, ghost depth: real)
      ensures this.path == path && this.nType == nType && this.handlers == handlers
      ensures this.maxParams == maxParams && this.fullPath == fullPath && this.depth == depth
      ensures indices == "" && children == [] && priority == 0 && !wildChild
    {
      this.path, this.nType, this.handlers, this.maxParams := path, nType, handlers, maxParams;
      this.fullPath, this.depth := fullPath, depth;
      indices, children, priority, wildChild := "", [], 0, false;
    }

    /** `incrementChildPrio`: bump child `pos` and move it left past every
        directly preceding sibling of strictly lower priority, moving its index
        byte along with it. Returns the child's new position. */
    method IncrementChildPrio(pos: nat) returns (newPos: nat)
      requires pos < |children| && pos < |indices|
      requires Distinct(children)
      modifies this`children, this`indices, {children[pos]}`priority
      ensures newPos <= pos
      ensures children == Rotate(old(children), pos, newPos)
      ensures indices == Rotate(old(indices), pos, newPos)
      ensures Prios(children) == Rotate(Bumped(old(Prios(children)), pos), pos, newPos)
      ensures newPos == BubbleTarget(Bumped(old(Prios(children)), pos), pos, old(children[pos].priority) + 1)
    {
      ghost var c0, ps0 := children, Prios(children);
      BumpChild(pos);
      var prio := children[pos].priority;
      newPos := BubbleLeft(pos, prio, Bumped(ps0, pos));
      MoveIndex(pos, newPos);
      RotatePrios(c0, Bumped(ps0, pos), pos, newPos);
    }

    /** tree.go:84: the child's priority goes up by one, nothing else changes. */
    method BumpChild(pos: nat)
      requires pos < |children| && Distinct(children)
      modifies {children[pos]}`priority
      ensures Prios(children) == Bumped(old(Prios(children)), pos)
      ensures old(LockStep(indices, children)) ==> LockStep(indices, children)
    {
      ghost var ps0 := Prios(children);
      children[pos].priority := children[pos].priority + 1;
      assert forall k :: 0 <= k < |children| ==> children[k].priority == Bumped(ps0, pos)[k];
    }

    /** tree.go:94-96: when the child moved, its index byte is spliced in at `newPos`. */
    method MoveIndex(pos: nat, newPos: nat)
      requires newPos <= pos < |indices|
      modifies this`indices
      ensures indices == Rotate(old(indices), pos, newPos)
    {
      if newPos != pos {
        RotateSplice(indices, pos, newPos);
        indices := indices[..newPos] + indices[pos..pos + 1] + indices[newPos..pos] + indices[pos + 1..];
      } else {
        RotateSelf(indices, pos);
      }
    }

    /** The split of tree.go:121-144, at a common prefix `i` that ends inside this
        node's fragment: the tail of the fragment moves, with everything hanging
        off this node, into a fresh static child, and this node keeps the head. */
    method SplitAt(i: nat, fullPathPrefix: string, ghost A: set<Node>) returns (child: Node)
      requires this in A && TreeShape(A) && i < |path| && priority >= 1
      modifies this`path, this`indices, this`children, this`handlers, this`wildChild, this`fullPath
      ensures fresh(child) && TreeShape(A + {child})
      ensures old(path) == path + child.path && path == old(path[..i])
      ensures child.nType == StaticKind && child.wildChild == old(wildChild) && child.indices == old(indices)
      ensures child.children == old(children) && child.handlers == old(handlers)
      ensures child.priority == old(priority) - 1 && child.fullPath == old(fullPath)
      ensures forall k :: 0 <= k < |child.children| ==> child.children[k].maxParams <= child.maxParams
      ensures child.maxParams == 0 ||
              exists k :: 0 <= k < |child.children| && child.children[k].maxParams == child.maxParams
      ensures children == [child] && indices == [old(path[i])] && handlers == None && !wildChild
      ensures fullPath == fullPathPrefix
      ensures depth < child.depth && Deeper(A + {child}, child.depth) <= Deeper(A, depth)
    {
      child := SplitTail(i);
      ghost var p0 := path;
      KeepHead(i, child, fullPathPrefix);
      assert p0 == path + child.path;
    }

    /** tree.go:122-136: the fresh child that takes over this node's fragment from `i` on. */
    method SplitTail(i: nat) returns (child: Node)
      requires i < |path| && priority >= 1
      requires forall c :: c in children ==> depth < c.depth
      ensures fresh(child) && child.path == path[i..]
      ensures child.nType == StaticKind && child.wildChild == wildChild && child.indices == indices
      ensures child.children == children && child.handlers == handlers
      ensures child.priority == priority - 1 && child.fullPath == fullPath
      ensures forall k :: 0 <= k < |child.children| ==> child.children[k].maxParams <= child.maxParams
      ensures child.maxParams == 0 ||
              exists k :: 0 <= k < |child.children| && child.children[k].maxParams == child.maxParams
      ensures depth < child.depth && forall c :: c in children ==> child.depth < c.depth
    {
      ghost var d := Gap(children, depth);
      child := new Node.Split(path[i..], wildChild, indices, children, handlers, priority - 1, fullPath, d);
      child.maxParams := MaxChildParams(child.children);
    }

    /** tree.go:137-143: this node keeps the head of its fragment and the child as its only child. */
    method KeepHead(i: nat, child: Node, fullPathPrefix: string)
      requires i < |path|
      modifies this`path, this`indices, this`children, this`handlers, this`wildChild, this`fullPath
      ensures path == old(path[..i]) && children == [child] && indices == [old(path[i])]
      ensures handlers == None && !wildChild && fullPath == fullPathPrefix
    {
      children := [child];
      indices := [path[i]];
      path := path[..i];
      handlers := None;
      wildChild := false;
      fullPath := fullPathPrefix;
    }

    /** tree.go:193-202: a static child for byte `c` is appended, but `indices` is
        overwritten with `c` alone rather than extended, and the bump goes to
        whichever child is first, which is the new one only when there was none before. */
    method AppendStaticChild(c: char, numParams: nat, fullPath: string, ghost A: set<Node>) returns (child: Node)
      requires this in A && TreeShape(A)
      modifies this`indices, this`children, children`priority
      ensures fresh(child) && TreeShape(A + {child})
      ensures indices == [c]
      ensures children == old(children) + [child]
      ensures Prios(children) == Bumped(old(Prios(children)) + [0], 0)
      ensures child.depth == depth + 1.0 && child.maxParams == numParams && child.fullPath == fullPath
      ensures child.path == "" && child.children == [] && child.handlers == None && child.nType == StaticKind
    {
      ghost var ps0 := Prios(children);
      child := AttachStaticChild(c, numParams, fullPath, A);
      assert Prios(children) == ps0 + [0];
      IncrementLastIndexed(A + {child});
    }

    /** tree.go:194-199: `indices` becomes the one byte `c`; a fresh child joins the children. */
    method AttachStaticChild(c: char, numParams: nat, fullPath: string, ghost A: set<Node>) returns (child: Node)
      requires this in A && TreeShape(A)
      modifies this`indices, this`children
      ensures fresh(child) && TreeShape(A + {child})
      ensures indices == [c] && children == old(children) + [child]
      ensures child.depth == depth + 1.0 && child.maxParams == numParams && child.fullPath == fullPath
      ensures child.path == "" && child.children == [] && child.handlers == None && child.nType == StaticKind
      ensures child.priority == 0
    {
      indices := [c];
      child := new Node(numParams, fullPath, depth + 1.0);
      AddChild(child, A);
    }

    /** `n.incrementChildPrio(len(n.indices) - 1)` with a one-byte `indices`
        (tree.go:200): the first child gains one priority point and stays put. */
    method IncrementLastIndexed(ghost A: set<Node>)
      requires |indices| == 1 && |children| >= 1 && Distinct(children) && TreeShape(A)
      modifies this`children, this`indices, {children[0]}`priority
      ensures children == old(children) && indices == old(indices)
      ensures Prios(children) == Bumped(old(Prios(children)), 0)
      ensures TreeShape(A)
    {
      var moved := IncrementChildPrio(|indices| - 1);
    }

    /** `append(n.children, child)` (tree.go:199). */
    method AddChild(child: Node, ghost A: set<Node>)
      requires this in A && TreeShape(A) && child !in A && child.children == [] && depth < child.depth
      modifies this`children
      ensures children == old(children) + [child]
      ensures TreeShape(A + {child})
    {
      children := children + [child];
      forall m, k | m in A + {child} && k in m.children ensures k in A + {child} && m.depth < k.depth {
        if m == this && k != child {
          assert k in old(children);
        }
      }
    }

    /** The missing `insertChild` (tree.go:219), stood in for by the least that
        `addRoute` needs of it: a suffix that opens with a wildcard hangs below this
        node as one wildcard child holding the whole suffix, refused when static
        children are already there; any other suffix turns this node into a static
        leaf holding it. The handlers and the full path go to that leaf. */
    method InsertChild(numParams: nat, suffix: string, fullPath: string, handlers: Option<HandlerChain>,
                       ghost A: set<Node>) returns (r: Outcome<()>, leaf: Node)
      requires this in A && TreeShape(A)
      modifies this`path, this`handlers, this`fullPath, this`children, this`wildChild
      ensures TreeShape(A + {leaf})
      ensures r.Panic? <==> |suffix| > 0 && Mark(suffix[0]) == 1 && old(|children|) > 0
      ensures r.Panic? ==> r.message == WildcardChildrenMessage(suffix, fullPath) && leaf == this
      ensures r.Panic? ==> path == old(path)
      ensures leaf != this || r.Panic? ==> this.handlers == old(this.handlers) && this.fullPath == old(this.fullPath)
      ensures r.Ok? ==> leaf.path == suffix && leaf.handlers == handlers && leaf.fullPath == fullPath
      ensures r.Ok? && leaf == this <==> |suffix| == 0 || Mark(suffix[0]) == 0
      ensures leaf == this ==> children == old(children) && wildChild == old(wildChild)
      ensures r.Ok? && leaf != this ==> fresh(leaf) && children == [leaf] && wildChild && path == old(path)
      ensures r.Ok? && leaf != this ==> leaf.depth == depth + 1.0 && leaf.children == [] && leaf.maxParams == numParams
      ensures r.Ok? && leaf != this ==>
        |suffix| > 0 && leaf.nType == (if suffix[0] == ':' then ParamKind else CatchAllKind)
    {
      if |suffix| > 0 && (suffix[0] == ':' || suffix[0] == '*') {
        if |children| > 0 {
          return Panic(WildcardChildrenMessage(suffix, fullPath)), this;
        }
        var kind := if suffix[0] == ':' then ParamKind else CatchAllKind;
        leaf := new Node.Leaf(suffix, kind, handlers, numParams, fullPath, depth + 1.0);
        AddChild(leaf, A);
        wildChild := true;
      } else {
        path := suffix;
        this.handlers := handlers;
        this.fullPath := fullPath;
        leaf := this;
      }
      r := Ok(());
    }

    /** `addRoute` (tree.go:102-217): register `handlers` under `route`. The walk
        goes down from this root, splitting a node where the route leaves its
        fragment, and ends by attaching the handlers, by hanging the rest of the
        route below the node reached, or by one of the source's panics.
        `grown` is the tree's node set afterwards, `walked` the nodes visited from
        the root, `bounds` the parameter count each of them was checked against,
        `tail` the part of the route left over at the last node, and `exit` says
        which way the walk ended. */
    method AddRoute(route: string, handlers: Option<HandlerChain>, ghost arena: set<Node>)
      returns (r: Outcome<()>, ghost grown: set<Node>, ghost walked: seq<Node>, ghost bounds: seq<nat>,
               ghost tail: string, ghost exit: Exit)
      requires this in arena && TreeShape(arena)
      modifies arena
      ensures TreeShape(grown) && arena <= grown && fresh(grown - arena)
      ensures Registered(route, handlers, r, exit, tail, grown, walked, bounds) && walked[0] == this
      ensures forall m :: m in arena && m !in walked ==>
        m.path == old(m.path) && m.handlers == old(m.handlers) && m.children == old(m.children)
    {
      BumpPriority();
      var numParams := CountParams(route);
      if |path| > 0 || |children| > 0 {
        r, grown, walked, bounds, tail, exit := Walk(route, numParams, handlers, arena);
      } else {
        r, grown, walked, bounds, tail, exit := Plant(route, numParams, handlers, arena);
      }
    }

    /** The `walk` loop of tree.go:111-213, from this root of a non-empty tree:
        each pass goes one node down or ends the walk. */
    method Walk(route: string, params: nat, handlers: Option<HandlerChain>, ghost arena: set<Node>)
      returns (r: Outcome<()>, ghost grown: set<Node>, ghost walked: seq<Node>, ghost bounds: seq<nat>,
               ghost tail: string, ghost exit: Exit)
      requires this in arena && TreeShape(arena) && priority >= 1 && params == Min(ParamMarks(route), 255)
      modifies arena
      ensures TreeShape(grown) && arena <= grown && fresh(grown - arena)
      ensures Registered(route, handlers, r, exit, tail, grown, walked, bounds) && walked[0] == this
      ensures forall m :: m in arena && m !in walked ==>
        m.path == old(m.path) && m.handlers == old(m.handlers) && m.children == old(m.children)
    {
      var n, rest := this, route;
      var parentFullPathIndex: nat, numParams: nat := 0, params;
      ghost var done: seq<Node>, frags: seq<string> := [], [];
      grown, bounds := arena, [numParams];
      while true
        invariant parentFullPathIndex <= |route| && arena <= grown && fresh(grown - arena)
        invariant rest == route[parentFullPathIndex..]
        invariant Walking(route, grown, done, frags, bounds, n, parentFullPathIndex, numParams)
        invariant (done + [n])[0] == this
        invariant forall m :: m in arena && m !in done + [n] ==> m.path == old(m.path)
        invariant forall m :: m in arena && m !in done + [n] ==> m.handlers == old(m.handlers)
        invariant forall m :: m in arena && m !in done + [n] ==> m.children == old(m.children)
        decreases |rest|, Height(grown, n)
      {
        var mv, i, np, g, d, f, b := n.Visit(route, rest, parentFullPathIndex, numParams, handlers, grown,
                                             done, frags, bounds, Height(grown, n));
        if mv.Descend? {
          SlicesJoin(route, parentFullPathIndex, i);
          assert (d + [mv.next])[0] == d[0];
          done, frags, bounds := d, f, b;
          grown, numParams := g, np;
          parentFullPathIndex, rest, n := parentFullPathIndex + i, rest[i..], mv.next;
        } else {
          r, exit, tail, grown := mv.r, mv.exit, rest[i..], g;
          walked, bounds := d, b;
          return;
        }
      }
    }

    /** tree.go:214-216, the route registered in an empty tree: the root takes
        the whole route, or hangs it below as a wildcard child, and becomes the
        root kind; the walk is the root and that child. */
    method Plant(route: string, numParams: nat, handlers: Option<HandlerChain>, ghost arena: set<Node>)
      returns (r: Outcome<()>, ghost grown: set<Node>, ghost walked: seq<Node>, ghost bounds: seq<nat>,
               ghost tail: string, ghost exit: Exit)
      requires this in arena && TreeShape(arena) && |path| == 0
      modifies this`path, this`handlers, this`fullPath, this`children, this`wildChild, this`nType
      ensures TreeShape(grown) && arena <= grown && fresh(grown - arena)
      ensures Registered(route, handlers, r, exit, tail, grown, walked, bounds) && walked[0] == this
      ensures r.Ok? ==> nType == RootKind
      ensures r.Panic? ==> nType == old(nType)
    {
      var leaf;
      r, leaf := InsertChild(numParams, route, route, handlers, arena);
      grown, bounds, tail := arena + {leaf}, [], route;
      assert TreeShape(grown) && fresh(grown - arena);
      walked := if leaf == this then [this] else [this, leaf];
      if r.Ok? {
        nType := RootKind;
        exit := Inserted;
      } else {
        exit := Refused;
      }
      Planted(route, handlers, r, exit, grown, walked, this, leaf);
    }

    /** One pass of the walk at this node, keeping the walk's bookkeeping: the
        nodes `done` left behind spell `frags`, each checked against its entry of
        `bounds`. Going down, the walk stands one node deeper with the same
        bookkeeping one entry longer; stopping, it has registered the route or
        panicked as `Registered` describes. */
    method Visit(route: string, rest: string, pfi: nat, numParams: nat, handlers: Option<HandlerChain>,
                 ghost A: set<Node>, ghost done: seq<Node>, ghost frags: seq<string>, ghost bounds: seq<nat>,
                 ghost height: nat)
      returns (mv: Move, i: nat, np: nat, ghost B: set<Node>,
               ghost done': seq<Node>, ghost frags': seq<string>, ghost bounds': seq<nat>)
      requires Walking(route, A, done, frags, bounds, this, pfi, numParams) && rest == route[pfi..]
      requires height == Height(A, this)
      modifies A
      ensures TreeShape(B) && A <= B && fresh(B - A) && i <= |rest|
      ensures |done'| > 0 && done'[0] == (done + [this])[0]
      ensures mv.Descend? ==> i > 0 || Height(B, mv.next) < height
      ensures mv.Descend? ==> done' == done + [this] && frags' == frags + [path] && bounds' == bounds + [numParams]
      ensures mv.Descend? ==> Walking(route, B, done', frags', bounds', mv.next, pfi + i, np)
      ensures mv.Stop? ==> done' == done + [this] + mv.hung
      ensures mv.Stop? ==> Registered(route, handlers, mv.r, mv.exit, rest[i..], B, done', bounds')
      ensures forall m :: m in A && m != this ==>
        m.path == old(m.path) && m.handlers == old(m.handlers) && m.children == old(m.children)
    {
      Unvisited(done, this, A);
      mv, i, np, B := Pass(rest, route, pfi, numParams, handlers, A);
      assert Kept(done, frags, bounds) && Linked(done, this);
      SlicesJoin(route, pfi, i);
      if mv.Descend? {
        done', frags', bounds' := done + [this], frags + [path], bounds + [numParams];
        WalkOn(route, B, done, frags, bounds, this, mv.next, pfi, i, numParams, np);
      } else {
        done', frags', bounds' := done + [this] + mv.hung, frags, bounds + (if mv.hung == [] then [] else [numParams]);
        WalkEnds(route, handlers, mv, B, done, frags, bounds, this, pfi, i, numParams);
        assert done'[0] == (done + [this])[0];
      }
    }

    /** One pass of the `walk` loop (tree.go:111-213) at this node: `maxParams` is
        raised, the node is split where `rest` (the route from `pfi` on) leaves
        its fragment, and then the route either ends here or `Branch` carries on
        with what is left. `i` is the length of the fragment matched, `np` the
        parameter count the walk goes on with. */
    method Step(rest: string, fullPath: string, pfi: nat, numParams: nat, handlers: Option<HandlerChain>,
                ghost A: set<Node>) returns (mv: Move, i: nat, np: nat, ghost B: set<Node>, ghost child: Node)
      requires this in A && TreeShape(A) && priority >= 1 && numParams < 256
      requires pfi <= |fullPath| && rest == fullPath[pfi..]
      modifies this`path, this`indices, this`children, this`handlers, this`wildChild, this`fullPath
      modifies this`maxParams, children`priority, children`maxParams
      ensures TreeShape(B) && A <= B && fresh(B - A)
      ensures i == |path| && i <= |rest| && rest[..i] == path && np < 256
      ensures maxParams == Max(old(maxParams), numParams)
      ensures mv.Descend? ==> i < |rest| && mv.next in B && depth < mv.next.depth && mv.next.priority >= 1
      ensures mv.Descend? ==> np == numParams || (np == Dec8(numParams) && mv.next.maxParams >= numParams)
      ensures mv.Stop? ==> |mv.hung| <= 1 && (mv.r.Ok? <==> mv.exit == Attached || mv.exit == Inserted)
      ensures mv.Stop? && mv.hung != [] ==>
        mv.hung[0] in B && depth < mv.hung[0].depth && mv.hung[0].maxParams >= numParams
      ensures mv.Stop? && (mv.exit == Attached || mv.exit == Duplicate) ==> i == |rest| && mv.hung == []
      ensures mv.Stop? && mv.exit == Attached ==> this.handlers == handlers
      ensures mv.Stop? && mv.exit == Duplicate ==> mv.r == Panic(DuplicateMessage(fullPath)) && this.handlers.Some?
      ensures mv.Stop? ==> StopFacts(mv, rest[i..], fullPath, handlers)
      ensures child != this <==> i < |old(path)|
      ensures child == this ==> path == old(path)
      ensures child != this ==>
        fresh(child) && old(path) == path + child.path && child.handlers == old(this.handlers) &&
        child.children == old(children)
      ensures i == |rest| ==> mv.Stop? && (mv.exit == Attached || mv.exit == Duplicate)
      ensures i == |rest| ==> (mv.exit == Duplicate <==> child == this && old(this.handlers).Some?)
      ensures mv.Descend? ==> mv.next in children
      ensures mv.Stop? && mv.hung != [] ==> mv.hung[0] in children
      ensures i < |rest| && child == this && old(wildChild) ==>
        children == old(children) && (mv.Descend? <==> |children| > 0 && ContinuesWith(rest[i..], children[0].path))
      ensures i < |rest| && child == this && !old(wildChild) ==> Chosen(mv, nType, rest[i], old(indices), old(children))
      ensures i < |rest| && child == this ==>
        Spared(mv, rest[i], old(wildChild), wildChild, this.handlers, old(this.handlers),
               this.fullPath, old(this.fullPath), children, old(children),
               indices, old(indices))
      ensures i < |rest| && child != this ==>
        Spared(mv, rest[i], false, wildChild, this.handlers, None, this.fullPath, fullPath[..pfi + i],
               children, [child], indices, [old(path)[i]])
      ensures i < |rest| && child != this ==> Chosen(mv, nType, rest[i], [old(path)[i]], [child])
      ensures mv.Descend? && child == this ==> B == A
      ensures mv.Descend? && child != this ==>
        mv.next == child && nType == ParamKind && B == A + {child} && child.nType == StaticKind &&
        Deeper(B, child.depth) <= Deeper(A, depth)
    {
      i, B, child := Enter(rest, fullPath, pfi, numParams, A);
      mv, np, B := Resume(i, rest, fullPath, numParams, handlers, B);
    }

    /** `Step` as the walk's bookkeeping sees it: where the pass went and how it stopped. */
    method Pass(rest: string, fullPath: string, pfi: nat, numParams: nat, handlers: Option<HandlerChain>,
                ghost A: set<Node>) returns (mv: Move, i: nat, np: nat, ghost B: set<Node>)
      requires this in A && TreeShape(A) && priority >= 1 && numParams < 256
      requires pfi <= |fullPath| && rest == fullPath[pfi..]
      modifies this`path, this`indices, this`children, this`handlers, this`wildChild, this`fullPath
      modifies this`maxParams, children`priority, children`maxParams
      ensures TreeShape(B) && A <= B && fresh(B - A)
      ensures i == |path| && i <= |rest| && rest[..i] == path && np < 256
      ensures maxParams == Max(old(maxParams), numParams)
      ensures mv.Descend? ==> i < |rest| && mv.next in B && depth < mv.next.depth && mv.next.priority >= 1
      ensures mv.Descend? ==> mv.next in children
      ensures mv.Descend? ==> np == numParams || (np == Dec8(numParams) && mv.next.maxParams >= numParams)
      ensures mv.Descend? && i == 0 ==> Height(B, mv.next) < Height(A, this)
      ensures mv.Stop? ==> |mv.hung| <= 1 && (mv.r.Ok? <==> mv.exit == Attached || mv.exit == Inserted)
      ensures mv.Stop? && mv.hung != [] ==>
        mv.hung[0] in B && depth < mv.hung[0].depth && mv.hung[0].maxParams >= numParams
      ensures mv.Stop? && mv.hung != [] ==> mv.hung[0] in children
      ensures mv.Stop? && (mv.exit == Attached || mv.exit == Duplicate) ==> i == |rest| && mv.hung == []
      ensures mv.Stop? && mv.exit == Attached ==> this.handlers == handlers
      ensures mv.Stop? && mv.exit == Duplicate ==> mv.r == Panic(DuplicateMessage(fullPath)) && this.handlers.Some?
      ensures mv.Stop? ==> StopFacts(mv, rest[i..], fullPath, handlers)
      ensures forall m :: m in A && m != this ==>
        m.path == old(m.path) && m.handlers == old(m.handlers) && m.children == old(m.children)
    {
      ghost var split;
      mv, i, np, B, split := Step(rest, fullPath, pfi, numParams, handlers, A);
      if mv.Descend? && i == 0 {
        HeightDrops(A, B, this, split, mv.next);
      }
    }

    /** The top of a pass (tree.go:112-144): `maxParams` is raised, `i` is the
        length of the common prefix of `rest` and the fragment, and the node is
        split there when that prefix ends inside the fragment, `child` then
        being the fresh node below that takes the fragment's tail (and `this`
        otherwise). */
    method Enter(rest: string, fullPath: string, pfi: nat, numParams: nat, ghost A: set<Node>)
      returns (i: nat, ghost B: set<Node>, ghost child: Node)
      requires this in A && TreeShape(A) && priority >= 1
      requires pfi <= |fullPath| && rest == fullPath[pfi..]
      modifies this`path, this`indices, this`children, this`handlers, this`wildChild, this`fullPath, this`maxParams
      ensures TreeShape(B) && A <= B && fresh(B - A)
      ensures i == |path| && i <= |rest| && rest[..i] == path
      ensures maxParams == Max(old(maxParams), numParams)
      ensures child == this ==>
        B == A && children == old(children) && indices == old(indices) && wildChild == old(wildChild)
      ensures child != this ==>
        fresh(child) && B == A + {child} && children == [child] && !wildChild && child.nType == StaticKind &&
        depth < child.depth && Deeper(B, child.depth) <= Deeper(A, depth)
      ensures child != this <==> i < |old(path)|
      ensures child == this ==> path == old(path) && handlers == old(handlers) && this.fullPath == old(this.fullPath)
      ensures child != this ==> this.fullPath == fullPath[..pfi + i]
      ensures child != this ==> old(path) == path + child.path && indices == [old(path)[i]] && handlers == None
      ensures child != this ==>
        child.children == old(children) && child.indices == old(indices) && child.wildChild == old(wildChild) &&
        child.handlers == old(handlers)
      ensures child != this && i < |rest| ==> rest[i] != old(path)[i]
    {
      RaiseMaxParams(numParams);
      i := CommonPrefixLength(rest, path);
      B, child := A, this;
      if i < |path| {
        child := SplitAt(i, fullPath[..pfi + i], A);
        B := A + {child};
      }
    }

    /** The rest of a pass, past this node's fragment of length `i`: the route
        either ends here, on a node with handlers already (a panic) or without
        (they are attached), or `Branch` carries on with what is left. */
    method Resume(i: nat, rest: string, fullPath: string, numParams: nat, handlers: Option<HandlerChain>,
                  ghost A: set<Node>) returns (mv: Move, np: nat, ghost B: set<Node>)
      requires this in A && TreeShape(A) && numParams < 256 && i <= |rest|
      requires |rest| <= |fullPath| && fullPath[|fullPath| - |rest|..] == rest
      modifies this`path, this`indices, this`children, this`handlers, this`wildChild, this`fullPath
      modifies children`priority, children`maxParams
      ensures TreeShape(B) && A <= B && fresh(B - A) && path == old(path) && np < 256
      ensures maxParams == old(maxParams)
      ensures mv.Descend? ==> i < |rest| && B == A && mv.next in A && depth < mv.next.depth && mv.next.priority >= 1
      ensures mv.Descend? ==> np == numParams || (np == Dec8(numParams) && mv.next.maxParams >= numParams)
      ensures mv.Descend? && !old(wildChild) && (forall k :: 0 <= k < |old(indices)| ==> old(indices)[k] != rest[i]) ==>
        nType == ParamKind && old(children) == [mv.next]
      ensures mv.Stop? ==> |mv.hung| <= 1 && (mv.r.Ok? <==> mv.exit == Attached || mv.exit == Inserted)
      ensures mv.Stop? && mv.hung != [] ==>
        mv.hung[0] in B && depth < mv.hung[0].depth && mv.hung[0].maxParams >= numParams
      ensures mv.Stop? && (mv.exit == Attached || mv.exit == Duplicate) ==> i == |rest| && mv.hung == []
      ensures mv.Stop? && mv.exit == Attached ==> this.handlers == handlers
      ensures mv.Stop? && mv.exit == Duplicate ==> mv.r == Panic(DuplicateMessage(fullPath)) && this.handlers.Some?
      ensures mv.Stop? ==> StopFacts(mv, rest[i..], fullPath, handlers)
      ensures mv.Descend? ==> mv.next in children
      ensures mv.Stop? && mv.hung != [] ==> mv.hung[0] in children
      ensures i == |rest| ==> mv.Stop? && (mv.exit == Attached || mv.exit == Duplicate)
      ensures i == |rest| ==> (mv.exit == Duplicate <==> old(this.handlers).Some?)
      ensures mv.Stop? && mv.exit == Duplicate ==> this.handlers == old(this.handlers)
      ensures i < |rest| && old(wildChild) ==>
        children == old(children) && (mv.Descend? <==> |children| > 0 && ContinuesWith(rest[i..], children[0].path))
      ensures i < |rest| && !old(wildChild) ==> Chosen(mv, nType, rest[i], old(indices), old(children))
      ensures i < |rest| ==>
        Spared(mv, rest[i], old(wildChild), wildChild, this.handlers, old(this.handlers),
               this.fullPath, old(this.fullPath), children, old(children),
               indices, old(indices))
    {
      B, np := A, numParams;
      if i < |rest| {
        assert this !in children;
        mv, np, B := Branch(rest[i..], fullPath, numParams, handlers, A);
      } else if this.handlers.Some? {
        mv := Stop(Panic(DuplicateMessage(fullPath)), Duplicate, []);
      } else {
        this.handlers := handlers;
        mv := Stop(Ok(()), Attached, []);
      }
    }

    /** tree.go:146-203, the route going on past this node's fragment with `rest`:
        through the wildcard child, through the single child of a parameter node
        when `rest` opens a new segment, through the child whose index byte
        matches, or else by hanging `rest` below this node. */
    method Branch(rest: string, fullPath: string, numParams: nat, handlers: Option<HandlerChain>,
                  ghost A: set<Node>) returns (mv: Move, np: nat, ghost B: set<Node>)
      requires this in A && TreeShape(A) && |rest| > 0 && numParams < 256
      requires |rest| <= |fullPath| && fullPath[|fullPath| - |rest|..] == rest
      modifies this`path, this`indices, this`children, this`handlers, this`wildChild, this`fullPath
      modifies children`priority, children`maxParams
      ensures TreeShape(B) && A <= B && fresh(B - A) && path == old(path) && np < 256
      ensures mv.Descend? ==> B == A && mv.next in A && depth < mv.next.depth && mv.next.priority >= 1
      ensures mv.Descend? ==> mv.next.nType == old(mv.next.nType)
      ensures mv.Descend? ==> np == numParams || (np == Dec8(numParams) && mv.next.maxParams >= numParams)
      ensures mv.Descend? && !old(wildChild) && (forall k :: 0 <= k < |old(indices)| ==> old(indices)[k] != rest[0]) ==>
        nType == ParamKind && old(children) == [mv.next]
      ensures mv.Stop? ==> |mv.hung| <= 1 && (mv.r.Ok? <==> mv.exit == Inserted)
      ensures mv.Stop? ==> mv.exit != Attached && mv.exit != Duplicate
      ensures mv.Stop? && mv.hung != [] ==>
        mv.hung[0] in B && depth < mv.hung[0].depth && mv.hung[0].maxParams >= numParams
      ensures mv.Stop? ==> StopFacts(mv, rest, fullPath, handlers)
      ensures mv.Descend? ==> mv.next in children
      ensures mv.Stop? && mv.hung != [] ==> mv.hung[0] in children
      ensures old(wildChild) ==>
        children == old(children) && (mv.Descend? <==> |children| > 0 && ContinuesWith(rest, children[0].path))
      ensures !old(wildChild) ==> Chosen(mv, nType, rest[0], old(indices), old(children))
      ensures Spared(mv, rest[0], old(wildChild), wildChild, this.handlers, old(this.handlers),
                     this.fullPath, old(this.fullPath), children, old(children),
                     indices, old(indices))
    {
      B, np := A, numParams;
      if wildChild {
        mv, np := ThroughWildChild(rest, fullPath, numParams, A);
        return;
      }
      mv, np, B := ThroughChildren(rest, fullPath, numParams, handlers, A);
    }

    /** tree.go:176-203, the route going on past a node without a wildcard
        child: as `Chosen` says, through its single child when it is a
        parameter node and `rest` opens a new segment, else through the child
        whose index byte is the first of `rest`, else by hanging `rest` below it. */
    method ThroughChildren(rest: string, fullPath: string, numParams: nat, handlers: Option<HandlerChain>,
                           ghost A: set<Node>) returns (mv: Move, np: nat, ghost B: set<Node>)
      requires this in A && TreeShape(A) && |rest| > 0 && numParams < 256 && !wildChild
      modifies this`path, this`indices, this`children, this`handlers, this`wildChild, this`fullPath
      modifies children`priority
      ensures TreeShape(B) && A <= B && fresh(B - A) && path == old(path) && np == numParams
      ensures mv.Descend? ==> B == A && mv.next in A && depth < mv.next.depth && mv.next.priority >= 1
      ensures mv.Descend? ==> mv.next.nType == old(mv.next.nType) && mv.next.maxParams == old(mv.next.maxParams)
      ensures mv.Stop? ==> |mv.hung| <= 1 && (mv.r.Ok? <==> mv.exit == Inserted)
      ensures mv.Stop? && mv.hung != [] ==>
        mv.hung[0] in B && depth < mv.hung[0].depth && mv.hung[0].maxParams >= numParams
      ensures mv.Stop? ==> StopFacts(mv, rest, fullPath, handlers)
      ensures mv.Descend? ==> mv.next in children
      ensures mv.Stop? && mv.hung != [] ==> mv.hung[0] in children
      ensures Chosen(mv, nType, rest[0], old(indices), old(children))
      ensures Branched(mv, rest[0], children, indices, old(children), old(indices))
      ensures this.handlers == old(this.handlers) && this.fullPath == old(this.fullPath)
      ensures wildChild <==> mv.Stop? && mv.exit == Inserted && Mark(rest[0]) == 1
    {
      B, np := A, numParams;
      var first := rest[0];
      if nType == ParamKind && first == '/' && |children| == 1 {
        var c := FirstChildBumped(A);
        return Descend(c), np, A;
      }
      mv, B := ByIndex(rest, fullPath, numParams, handlers, A);
    }

    /** tree.go:184-203, the route going on past a node without a wildcard
        child when the parameter case does not apply: as `Indexed` says,
        through the child whose index byte is the first of `rest`, else by
        hanging `rest` below the node. */
    method ByIndex(rest: string, fullPath: string, numParams: nat, handlers: Option<HandlerChain>,
                   ghost A: set<Node>) returns (mv: Move, ghost B: set<Node>)
      requires this in A && TreeShape(A) && |rest| > 0 && !wildChild
      modifies this`path, this`indices, this`children, this`handlers, this`wildChild, this`fullPath
      modifies children`priority
      ensures TreeShape(B) && A <= B && fresh(B - A) && path == old(path)
      ensures mv.Descend? ==> B == A && mv.next in A && depth < mv.next.depth && mv.next.priority >= 1
      ensures mv.Descend? ==> mv.next.nType == old(mv.next.nType) && mv.next.maxParams == old(mv.next.maxParams)
      ensures mv.Stop? ==> |mv.hung| <= 1 && (mv.r.Ok? <==> mv.exit == Inserted)
      ensures mv.Stop? && mv.hung != [] ==>
        mv.hung[0] in B && depth < mv.hung[0].depth && mv.hung[0].maxParams >= numParams
      ensures mv.Stop? ==> StopFacts(mv, rest, fullPath, handlers)
      ensures mv.Descend? ==> mv.next in children
      ensures mv.Stop? && mv.hung != [] ==> mv.hung[0] in children
      ensures Indexed(mv, rest[0], old(indices), old(children))
      ensures Branched(mv, rest[0], children, indices, old(children), old(indices))
      ensures this.handlers == old(this.handlers) && this.fullPath == old(this.fullPath)
      ensures wildChild <==> mv.Stop? && mv.exit == Inserted && Mark(rest[0]) == 1
    {
      B := A;
      var k := FindIndex(indices, rest[0]);
      if k >= 0 {
        ghost var at;
        mv, at := ThroughIndex(k, A);
        return;
      }
      mv, B := Hang(rest, fullPath, numParams, handlers, A);
    }

    /** tree.go:184-189, the index byte at `k` having matched: the walk goes on
        to child `k`, bumped and moved up by `incrementChildPrio`, and Go's
        index check panics when there is no such child. */
    method ThroughIndex(k: nat, ghost A: set<Node>) returns (mv: Move, ghost at: nat)
      requires this in A && TreeShape(A) && k < |indices|
      modifies this`children, this`indices, (if k < |children| then {children[k]} else {})`priority
      ensures TreeShape(A)
      ensures mv.Descend? <==> k < old(|children|)
      ensures mv.Descend? ==> mv.next == old(children[k]) && mv.next in children && mv.next in A
      ensures mv.Descend? ==> depth < mv.next.depth && mv.next.priority == old(mv.next.priority) + 1
      ensures mv.Descend? ==>
        at <= k && at == BubbleTarget(Bumped(old(Prios(children)), k), k, old(children[k].priority) + 1)
      ensures mv.Descend? ==>
        children == Rotate(old(children), k, at) && indices == Rotate(old(indices), k, at) && mv.next == children[at]
      ensures mv.Descend? ==> Reordered(children, indices, old(children), old(indices))
      ensures mv.Stop? ==> mv.r == Panic(IndexOutOfRange) && mv.exit == OutOfRange && mv.hung == []
      ensures mv.Stop? ==> children == old(children) && indices == old(indices)
    {
      if k >= |children| {
        return Stop(Panic(IndexOutOfRange), OutOfRange, []), 0;
      }
      var c;
      c, at := IndexedChildBumped(k, A);
      mv := Descend(c);
    }

    /** tree.go:147-166, the route going on through the wildcard child: it must
        spell the start of `rest` and be followed by a '/', else the wildcard
        conflicts (or, when it is all of `rest`, the match runs off the end). */
    method ThroughWildChild(rest: string, fullPath: string, numParams: nat, ghost A: set<Node>)
      returns (mv: Move, np: nat)
      requires this in A && TreeShape(A) && |rest| > 0 && numParams < 256 && wildChild
      requires |rest| <= |fullPath| && fullPath[|fullPath| - |rest|..] == rest
      modifies children`priority, children`maxParams
      ensures TreeShape(A) && path == old(path) && np < 256
      ensures mv.Descend? ==> mv.next in A && depth < mv.next.depth && mv.next.priority >= 1
      ensures mv.Descend? ==> mv.next.nType == old(mv.next.nType)
      ensures mv.Descend? ==> np == numParams || (np == Dec8(numParams) && mv.next.maxParams >= numParams)
      ensures mv.Stop? ==> |mv.hung| <= 1 && (mv.r.Ok? <==> mv.exit == Inserted)
      ensures mv.Stop? ==> mv.exit == OutOfRange || mv.exit == Conflict
      ensures mv.Stop? && mv.hung != [] ==>
        mv.hung[0] in A && depth < mv.hung[0].depth && mv.hung[0].maxParams >= numParams
      ensures mv.Stop? ==> StopFacts(mv, rest, fullPath, None)
      ensures mv.Descend? <==> |children| > 0 && ContinuesWith(rest, children[0].path)
      ensures mv.Stop? ==> (mv.exit == OutOfRange <==> |children| == 0 || rest == children[0].path)
      ensures mv.Stop? ==> |mv.hung| == (if |children| > 0 then 1 else 0)
      ensures |children| > 0 ==> (if mv.Descend? then mv.next else mv.hung[0]) == children[0]
      ensures |children| > 0 ==> np == Dec8(numParams) && children[0].priority == old(children[0].priority) + 1
    {
      np := numParams;
      if |children| == 0 {
        return Stop(Panic(IndexOutOfRange), OutOfRange, []), np;
      }
      var c := WildChildEntered(numParams, A);
      np := Dec8(numParams);
      if |rest| >= |c.path| && c.path == rest[..|c.path|] {
        if |c.path| == |rest| {
          return Stop(Panic(IndexOutOfRange), OutOfRange, [c]), np;
        }
        if rest[|c.path|] == '/' {
          return Descend(c), np;
        }
      }
      mv := Stop(Panic(ConflictMessage(rest, fullPath, c.path, c.nType == CatchAllKind)), Conflict, [c]);
    }

    /** tree.go:193-203: a static child for the first byte of `rest` is added when
        that byte is not a wildcard, and `insertChild` places `rest` there, or
        below this node when it opens with a wildcard. */
    method Hang(rest: string, fullPath: string, numParams: nat, handlers: Option<HandlerChain>,
                ghost A: set<Node>) returns (mv: Move, ghost B: set<Node>)
      requires this in A && TreeShape(A) && |rest| > 0
      modifies this`path, this`indices, this`children, this`handlers, this`wildChild, this`fullPath
      modifies children`priority
      ensures TreeShape(B) && A <= B && fresh(B - A) && path == old(path)
      ensures mv.Stop? && |mv.hung| <= 1 && (mv.r.Ok? <==> mv.exit == Inserted)
      ensures mv.exit == Inserted || mv.exit == Refused
      ensures mv.hung != [] ==> mv.hung[0] in B && depth < mv.hung[0].depth && mv.hung[0].maxParams >= numParams
      ensures mv.hung != [] ==> mv.hung[0] in children && fresh(mv.hung[0])
      ensures Mark(rest[0]) == 0 ==> mv.exit == Inserted
      ensures Mark(rest[0]) == 1 ==> (mv.exit == Inserted <==> old(|children|) == 0)
      ensures Branched(mv, rest[0], children, indices, old(children), old(indices))
      ensures this.handlers == old(this.handlers) && this.fullPath == old(this.fullPath)
      ensures wildChild == (old(wildChild) || (mv.exit == Inserted && Mark(rest[0]) == 1))
      ensures StopFacts(mv, rest, fullPath, handlers)
    {
      if rest[0] != ':' && rest[0] != '*' {
        mv, B := HangStatic(rest, fullPath, numParams, handlers, A);
      } else {
        mv, B := HangWild(rest, fullPath, numParams, handlers, A);
      }
    }

    /** `Hang` for a `rest` opening with a static byte: a static child is
        appended for it, and `insertChild` places `rest` there. */
    method HangStatic(rest: string, fullPath: string, numParams: nat, handlers: Option<HandlerChain>,
                      ghost A: set<Node>) returns (mv: Move, ghost B: set<Node>)
      requires this in A && TreeShape(A) && |rest| > 0 && rest[0] != ':' && rest[0] != '*'
      modifies this`indices, this`children, children`priority
      ensures TreeShape(B) && A <= B && fresh(B - A)
      ensures mv.Stop? && mv.r.Ok? && mv.exit == Inserted && |mv.hung| == 1
      ensures indices == [rest[0]] && children == old(children) + mv.hung
      ensures fresh(mv.hung[0])
      ensures mv.hung[0] in B && depth < mv.hung[0].depth && mv.hung[0].maxParams >= numParams
      ensures StopFacts(mv, rest, fullPath, handlers)
    {
      var s := AppendStaticChild(rest[0], numParams, fullPath, A);
      var r, leaf := s.InsertChild(numParams, rest, fullPath, handlers, A + {s});
      assert r.Ok? && leaf == s;
      B := A + {s} + {leaf};
      mv := Stop(r, Inserted, [leaf]);
    }

    /** `Hang` for a `rest` opening with a wildcard: `insertChild` places it
        below this node. */
    method HangWild(rest: string, fullPath: string, numParams: nat, handlers: Option<HandlerChain>,
                    ghost A: set<Node>) returns (mv: Move, ghost B: set<Node>)
      requires this in A && TreeShape(A) && |rest| > 0 && (rest[0] == ':' || rest[0] == '*')
      modifies this`path, this`handlers, this`fullPath, this`children, this`wildChild
      ensures TreeShape(B) && A <= B && fresh(B - A) && path == old(path)
      ensures this.handlers == old(this.handlers) && this.fullPath == old(this.fullPath)
      ensures mv.Stop? && |mv.hung| <= 1 && (mv.r.Ok? <==> mv.exit == Inserted)
      ensures mv.exit == Inserted || mv.exit == Refused
      ensures mv.exit == Inserted <==> old(|children|) == 0
      ensures mv.exit == Refused ==> wildChild == old(wildChild)
      ensures mv.exit == Inserted ==> |mv.hung| == 1 && children == mv.hung && wildChild && fresh(mv.hung[0])
      ensures mv.exit == Refused ==> children == old(children)
      ensures mv.hung != [] ==> mv.hung[0] in B && depth < mv.hung[0].depth && mv.hung[0].maxParams >= numParams
      ensures StopFacts(mv, rest, fullPath, handlers)
    {
      var r, leaf := InsertChild(numParams, rest, fullPath, handlers, A);
      B := A + {leaf};
      mv := if r.Ok? then Stop(r, Inserted, [leaf]) else Stop(r, Refused, []);
    }

    /** `n.priority++` at the root (tree.go:104). */
    method BumpPriority()
      modifies this`priority
      ensures priority == old(priority) + 1
    {
      priority := priority + 1;
    }

    /** tree.go:112-114: `maxParams` is raised to at least `numParams`. */
    method RaiseMaxParams(numParams: nat)
      modifies this`maxParams
      ensures maxParams == Max(old(maxParams), numParams)
    {
      if numParams > maxParams {
        maxParams := numParams;
      }
    }

    /** tree.go:151-156: step to the wildcard child, bumping its priority and
        raising its `maxParams` to at least `numParams`. */
    method WildChildEntered(numParams: nat, ghost A: set<Node>) returns (c: Node)
      requires this in A && TreeShape(A) && |children| > 0
      modifies {children[0]}`priority, {children[0]}`maxParams
      ensures c == children[0] && c.priority == old(c.priority) + 1
      ensures c.maxParams == Max(old(c.maxParams), numParams)
    {
      c := children[0];
      c.priority := c.priority + 1;
      c.RaiseMaxParams(numParams);
    }

    /** `n = n.children[0]; n.priority++` (tree.go:179-180). */
    method FirstChildBumped(ghost A: set<Node>) returns (c: Node)
      requires this in A && TreeShape(A) && |children| > 0
      modifies {children[0]}`priority
      ensures c == children[0] && c.priority == old(c.priority) + 1
    {
      c := children[0];
      c.priority := c.priority + 1;
    }

    /** `incrementChildPrio` seen from the walk: the children are reordered,
        none lost or repeated, and the bumped child is found at the new position. */
    method Reprioritize(pos: nat) returns (newPos: nat)
      requires pos < |children| && pos < |indices| && Distinct(children)
      modifies this`children, this`indices, {children[pos]}`priority
      ensures newPos <= pos
      ensures children == Rotate(old(children), pos, newPos) && indices == Rotate(old(indices), pos, newPos)
      ensures newPos == BubbleTarget(Bumped(old(Prios(children)), pos), pos, old(children[pos].priority) + 1)
      ensures children[newPos] == old(children[pos])
      ensures children[newPos].priority == old(children[pos].priority) + 1
      ensures Distinct(children) && multiset(children) == multiset(old(children))
    {
      ghost var c0, ps := children, Prios(children);
      newPos := IncrementChildPrio(pos);
      RotateAt(c0, pos, newPos, newPos);
      RotateAt(Bumped(ps, pos), pos, newPos, newPos);
      RotateDistinct(c0, pos, newPos);
      RotateSplice(c0, pos, newPos);
    }

    /** `i = n.incrementChildPrio(i); n = n.children[i]` (tree.go:187-188). */
    method IndexedChildBumped(k: nat, ghost A: set<Node>) returns (c: Node, newPos: nat)
      requires this in A && TreeShape(A) && k < |indices| && k < |children|
      modifies this`children, this`indices, {children[k]}`priority
      ensures TreeShape(A) && c == old(children[k]) && c.priority == old(children[k].priority) + 1
      ensures newPos <= k
      ensures children == Rotate(old(children), k, newPos) && indices == Rotate(old(indices), k, newPos)
      ensures newPos == BubbleTarget(Bumped(old(Prios(children)), k), k, old(children[k].priority) + 1)
      ensures c == children[newPos]
    {
      ghost var before := children;
      newPos := Reprioritize(k);
      c := children[newPos];
      forall m, x | m in A && x in m.children ensures x in A && m.depth < x.depth {
        if m == this {
          assert x in multiset(before);
        } else {
          assert m.children == old(m.children);
        }
      }
    }

    /** The swap loop of tree.go:87-91: carry child `pos`, of priority `prio`,
        left while its left neighbour has a lower priority. */
    method BubbleLeft(pos: nat, prio: nat, ghost ps: seq<nat>) returns (newPos: nat)
      requires pos < |children| && ps == Prios(children)
      modifies this`children
      ensures newPos <= pos
      ensures children == Rotate(old(children), pos, newPos)
      ensures newPos == BubbleTarget(ps, pos, prio)
    {
      var c0 := children;
      newPos := pos;
      RotateSelf(c0, pos);
      while newPos > 0 && children[newPos - 1].priority < prio
        invariant newPos <= pos
        invariant children == Rotate(c0, pos, newPos)
        invariant BubbleTarget(ps, pos, prio) == BubbleTarget(ps, newPos, prio)
      {
        RotateAt(c0, pos, newPos, newPos - 1);
        RotateStep(c0, pos, newPos);
        children := children[newPos - 1 := children[newPos]][newPos := children[newPos - 1]];
        newPos := newPos - 1;
      }
    }
  }

  /** The scan of tree.go:132-136 over the split-off child's children: the largest
      `maxParams` among them, 0 when there are none. */
  method MaxChildParams(cs: seq<Node>) returns (m: nat)
    ensures forall k :: 0 <= k < |cs| ==> cs[k].maxParams <= m
    ensures m == 0 || exists k :: 0 <= k < |cs| && cs[k].maxParams == m
  {
    m := 0;
    var k := 0;
    while k < |cs|
      invariant 0 <= k <= |cs|
      invariant forall j :: 0 <= j < k ==> cs[j].maxParams <= m
      invariant m == 0 || exists j :: 0 <= j < k && cs[j].maxParams == m
    {
      if cs[k].maxParams > m {
        m := cs[k].maxParams;
      }
      k := k + 1;
    }
  }

  /** A depth strictly between `lo` and the depths of all of `cs`, which all lie above `lo`. */
  ghost function Gap(cs: seq<Node>, lo: real): (r: real)
    requires forall k :: 0 <= k < |cs| ==> lo < cs[k].depth
    ensures lo < r && forall k :: 0 <= k < |cs| ==> r < cs[k].depth
  {
    if cs == [] then lo + 1.0
    else
      var r0 := Gap(cs[..|cs| - 1], lo);
      if r0 < cs[|cs| - 1].depth then r0 else (lo + cs[|cs| - 1].depth) / 2.0
  }

  /** Where a walk from the root stands: at `n`, having left behind the nodes
      `done`, whose fragments `frags` spell the route up to `pfi`, each node
      having had its `maxParams` raised to its entry of `bounds`; the last entry
      is `n`'s, and `numParams` is that entry or one less (tree.go:157). */
  ghost predicate Walking(route: string, A: set<Node>, done: seq<Node>, frags: seq<string>, bounds: seq<nat>,
                          n: Node, pfi: nat, numParams: nat)
    reads A
  {
    TreeShape(A) && n in A && (forall k :: 0 <= k < |done| ==> done[k] in A) && Descending(done + [n]) &&
    Linked(done, n) &&
    Ledger(route, |done|, frags, bounds, pfi, numParams) && Kept(done, frags, bounds) &&
    n.priority >= 1 && (numParams == bounds[|done|] || n.maxParams >= bounds[|done|])
  }

  ghost predicate Ledger(route: string, len: nat, frags: seq<string>, bounds: seq<nat>, pfi: nat, numParams: nat) {
    pfi <= |route| && |frags| == len && Concat(frags) == route[..pfi] &&
    |bounds| == len + 1 && bounds[0] == Min(ParamMarks(route), 255) && StepsDown(bounds) &&
    numParams < 256 && (numParams == bounds[len] || numParams == Dec8(bounds[len]))
  }

  ghost predicate Kept(done: seq<Node>, frags: seq<string>, bounds: seq<nat>)
    requires |frags| == |done| && |bounds| == |done| + 1
    reads done`path, done`maxParams
  {
    forall k :: 0 <= k < |done| ==> done[k].path == frags[k] && done[k].maxParams >= bounds[k]
  }

  /** How `addRoute` left the tree `grown` for `route`: the walk `walked` went
      strictly down through it; the handlers sit at the end of a walk spelling the
      route exactly when the outcome is not a panic; a route already holding
      handlers, a wildcard conflict (the walk's fragments then spell the route
      but for `tail`), an out-of-range index and a refused wildcard each panic
      with their own message; and every node walked had its `maxParams` raised to
      the parameter count it was checked against, counts that start at the
      route's parameter count and go down by at most one a step. */
  ghost predicate Registered(route: string, handlers: Option<HandlerChain>, r: Outcome<()>, exit: Exit, tail: string,
                             grown: set<Node>, walked: seq<Node>, bounds: seq<nat>)
    reads walked
  {
    Trodden(grown, walked, bounds) && (|bounds| > 0 ==> bounds[0] == Min(ParamMarks(route), 255)) &&
    Ended(route, handlers, r, exit, tail, walked)
  }

  /** `walked` goes strictly down through `A`, each node a child of the one
      before, and its first nodes had their `maxParams` raised to the counts
      `bounds`, which step down as a walk's do. */
  ghost predicate Trodden(A: set<Node>, walked: seq<Node>, bounds: seq<nat>)
    reads walked`maxParams, walked`children
  {
    |walked| > 0 && Descending(walked) && (forall k :: 0 <= k < |walked| ==> walked[k] in A) &&
    Linked(walked[..|walked| - 1], walked[|walked| - 1]) &&
    |bounds| <= |walked| && (forall k :: 0 <= k < |bounds| ==> walked[k].maxParams >= bounds[k]) && StepsDown(bounds)
  }

  /** How a walk for `route` ended, at its last node, with `tail` left over,
      as `Finished` says of that node and of what the nodes above it spell. */
  ghost predicate Ended(route: string, handlers: Option<HandlerChain>, r: Outcome<()>, exit: Exit, tail: string,
                        walked: seq<Node>)
    reads walked`path, walked`handlers, walked`nType
  {
    |walked| > 0 &&
    Finished(route, handlers, r, exit, tail, SpelledPath(walked[..|walked| - 1]), walked[|walked| - 1])
  }

  /** A walk ending at `last` below nodes spelling `above`: the outcome is the
      one its exit calls for; the handlers sit at `last` and `above` followed by
      its fragment spells the route when it succeeded; a duplicate found
      handlers there already; a wildcard conflict found at `last` a wildcard
      child that `tail` does not continue, `above` spelling the route but for
      `tail`. */
  ghost predicate Finished(route: string, handlers: Option<HandlerChain>, r: Outcome<()>, exit: Exit, tail: string,
                           above: string, last: Node)
    reads last`path, last`handlers, last`nType
  {
    (exit == Conflict ==> |tail| <= |route| && route[|route| - |tail|..] == tail) &&
    (r.Ok? <==> exit == Attached || exit == Inserted) &&
    (r.Panic? ==> r.message == ExitMessage(exit, route, tail, last.path, last.nType == CatchAllKind)) &&
    (exit == Attached || exit == Inserted || exit == Duplicate ==> above + last.path == route) &&
    (exit == Attached || exit == Inserted ==> last.handlers == handlers) &&
    (exit == Duplicate ==> last.handlers.Some?) &&
    (exit == Conflict ==> above + tail == route && !ContinuesWith(tail, last.path))
  }

  /** The panic message of `addRoute` for each way its walk can fail; `wild`
      and `catchAll` describe the wildcard child of a conflict. */
  function ExitMessage(exit: Exit, route: string, tail: string, wild: string, catchAll: bool): string
    requires exit != Attached && exit != Inserted
    requires exit == Conflict ==> |tail| <= |route| && route[|route| - |tail|..] == tail
  {
    match exit
    case Duplicate => DuplicateMessage(route)
    case Conflict => ConflictMessage(tail, route, wild, catchAll)
    case OutOfRange => IndexOutOfRange
    case Refused => WildcardChildrenMessage(tail, route)
  }

  /** Which way a pass goes on past a node without a wildcard child, by the
      node's kind, the first byte of what is left of the route and the node's
      `indices` and `children` before the pass (tree.go:176-203): to the single
      child of a parameter node when a new segment opens; else to the child
      whose index byte matches, a panic when `indices` names a child that is
      not there; else the route is hung below the node. */
  ghost predicate Chosen(mv: Move, kind: NodeType, first: char, indices: string, children: seq<Node>) {
    if kind == ParamKind && first == '/' && |children| == 1 then mv.Descend? && mv.next == children[0]
    else Indexed(mv, first, indices, children)
  }

  /** `Chosen` past the parameter case (tree.go:184-203): the child whose index
      byte is `first`, a panic when `indices` names a child that is not there,
      else the route hung below the node. */
  ghost predicate Indexed(mv: Move, first: char, indices: string, children: seq<Node>) {
    var k := IndexByte(indices, first);
    if k == -1 then mv.Stop? && (mv.exit == Inserted || mv.exit == Refused)
    else if k < |children| then mv.Descend? && mv.next == children[k]
    else mv.Stop? && mv.exit == OutOfRange
  }

  /** `children` and `indices` are `c0` and `i0` as they were, or with the
      same entry moved left in both (the reordering of tree.go:87-96). */
  ghost predicate Reordered(children: seq<Node>, indices: string, c0: seq<Node>, i0: string) {
    (children == c0 && indices == i0) ||
    exists from: nat, to: nat :: to <= from < |c0| && from < |i0| &&
      children == Rotate(c0, from, to) && indices == Rotate(i0, from, to)
  }

  /** What a pass going on past a node leaves of it, the wildcard flag, handlers,
      full path, children and `indices` being `wild`, `h0`, `fp0`, `c0` and
      `i0` before it and `wild'`, `h`, `fp`, `children` and `indices` after:
      the handlers and the full path are kept; the wildcard flag is kept
      unless a wildcard child was just hung; below a wildcard child the
      children and `indices` are kept, otherwise they end as `Branched` says. */
  ghost predicate Spared(mv: Move, first: char, wild: bool, wild': bool, h: Option<HandlerChain>,
                         h0: Option<HandlerChain>, fp: string, fp0: string,
                         children: seq<Node>, c0: seq<Node>, indices: string, i0: string) {
    h == h0 && fp == fp0 &&
    wild' == (wild || (mv.Stop? && mv.exit == Inserted && Mark(first) == 1)) &&
    (wild ==> children == c0 && indices == i0) &&
    (!wild ==> Branched(mv, first, children, indices, c0, i0))
  }

  /** What a pass going on past a node without a wildcard child leaves of the
      node's `children` and `indices`, `c0` and `i0` before it
      (tree.go:176-203): going down, they are only reordered; stopping, the
      child hung (if any) is appended, and a static one makes `indices` its
      first byte alone. */
  ghost predicate Branched(mv: Move, first: char, children: seq<Node>, indices: string, c0: seq<Node>, i0: string) {
    (mv.Descend? ==> Reordered(children, indices, c0, i0)) &&
    (mv.Stop? ==>
       children == c0 + mv.hung &&
       indices == (if mv.exit == Inserted && Mark(first) == 0 then [first] else i0))
  }

  datatype Exit = Attached | Inserted | Duplicate | Conflict | OutOfRange | Refused

  /** What one pass of the walk decided: go on from `next`, or stop with the
      outcome `r`, having left the nodes in `hung` (at most one) below the node
      the pass started at. */
  datatype Move = Descend(next: Node) | Stop(r: Outcome<()>, exit: Exit, hung: seq<Node>)

  /** What a stopping pass promises about its outcome, `rest` being the route
      left over past the node's fragment. */
  ghost predicate StopFacts(mv: Move, rest: string, fullPath: string, handlers: Option<HandlerChain>)
    requires mv.Stop?
    reads mv.hung`path, mv.hung`handlers, mv.hung`nType
  {
    (mv.exit == Inserted ==> |mv.hung| == 1 && mv.hung[0].path == rest && mv.hung[0].handlers == handlers) &&
    (mv.exit == Refused ==> mv.r == Panic(WildcardChildrenMessage(rest, fullPath)) && mv.hung == []) &&
    (mv.exit == OutOfRange ==> mv.r == Panic(IndexOutOfRange)) &&
    (mv.exit == Conflict ==>
       |mv.hung| == 1 && !ContinuesWith(rest, mv.hung[0].path) &&
       |rest| <= |fullPath| && fullPath[|fullPath| - |rest|..] == rest &&
       mv.r == Panic(ConflictMessage(rest, fullPath, mv.hung[0].path, mv.hung[0].nType == CatchAllKind)))
  }

  /** The fragments `fs`, concatenated. */
  ghost function Concat(fs: seq<string>): string {
    if fs == [] then "" else Concat(fs[..|fs| - 1]) + fs[|fs| - 1]
  }

  lemma ConcatStep(fs: seq<string>, f: string)
    ensures Concat(fs + [f]) == Concat(fs) + f
  {
    assert (fs + [f])[..|fs|] == fs;
  }

  /** A pass that goes down from `n` to `next` leaves the walk in good order one node further on. */
  lemma WalkOn(route: string, A: set<Node>, done: seq<Node>, frags: seq<string>, bounds: seq<nat>,
               n: Node, next: Node, pfi: nat, i: nat, numParams: nat, np: nat)
    requires TreeShape(A) && n in A && next in A && n.depth < next.depth && next.priority >= 1
    requires (forall k :: 0 <= k < |done| ==> done[k] in A) && Descending(done + [n])
    requires Linked(done, n) && next in n.children
    requires pfi + i <= |route| && i == |n.path| && route[pfi..][..i] == n.path
    requires Ledger(route, |done|, frags, bounds, pfi, numParams) && Kept(done, frags, bounds)
    requires n.maxParams >= bounds[|done|] && np < 256
    requires np == numParams || (np == Dec8(numParams) && next.maxParams >= numParams)
    ensures Walking(route, A, done + [n], frags + [n.path], bounds + [numParams], next, pfi + i, np)
  {
    ConcatStep(frags, n.path);
    SlicesJoin(route, pfi, i);
    StepsDownStep(bounds, numParams);
    DescendingStep(done + [n], next);
    LinkedStep(done, n, next);
  }

  /** A pass that stops at `n` has registered the route, or panicked, as `Registered` says. */
  lemma WalkEnds(route: string, handlers: Option<HandlerChain>, mv: Move, A: set<Node>,
                 done: seq<Node>, frags: seq<string>, bounds: seq<nat>, n: Node, pfi: nat, i: nat, numParams: nat)
    requires mv.Stop? && n in A && (forall k :: 0 <= k < |done| ==> done[k] in A) && Descending(done + [n])
    requires Linked(done, n) && (mv.hung != [] ==> mv.hung[0] in n.children)
    requires pfi + i <= |route| && i == |n.path| && route[pfi..][..i] == n.path
    requires Ledger(route, |done|, frags, bounds, pfi, numParams) && Kept(done, frags, bounds)
    requires n.maxParams >= bounds[|done|]
    requires |mv.hung| <= 1 && (mv.r.Ok? <==> mv.exit == Attached || mv.exit == Inserted)
    requires mv.hung != [] ==> mv.hung[0] in A && n.depth < mv.hung[0].depth && mv.hung[0].maxParams >= numParams
    requires mv.exit == Attached || mv.exit == Duplicate ==> pfi + i == |route| && mv.hung == []
    requires mv.exit == Attached ==> n.handlers == handlers
    requires mv.exit == Duplicate ==> mv.r == Panic(DuplicateMessage(route)) && n.handlers.Some?
    requires StopFacts(mv, route[pfi..][i..], route, handlers)
    ensures Registered(route, handlers, mv.r, mv.exit, route[pfi..][i..], A, done + [n] + mv.hung,
                       bounds + (if mv.hung == [] then [] else [numParams]))
  {
    ConcatStep(frags, n.path);
    SlicesJoin(route, pfi, i);
    SpelledIsConcat(done + [n], frags + [n.path]);
    TroddenHere(A, done, n, bounds);
    TroddenOn(A, done + [n], bounds, mv.hung, numParams);
    EndsAt(route, handlers, mv, route[pfi..][i..], done + [n]);
  }

  /** The nodes left behind and the node a pass stopped at form a trodden walk. */
  lemma TroddenHere(A: set<Node>, done: seq<Node>, n: Node, bounds: seq<nat>)
    requires n in A && (forall k :: 0 <= k < |done| ==> done[k] in A) && Descending(done + [n]) && Linked(done, n)
    requires |bounds| == |done| + 1 && StepsDown(bounds) && n.maxParams >= bounds[|done|]
    requires forall k :: 0 <= k < |done| ==> done[k].maxParams >= bounds[k]
    ensures Trodden(A, done + [n], bounds)
  {
    var w := done + [n];
    assert w[..|w| - 1] == done;
    forall k | 0 <= k < |w| ensures w[k] in A && w[k].maxParams >= bounds[k] {
      if k < |done| {
        assert w[k] == done[k];
      }
    }
  }

  /** A node hung below the end of a trodden walk, checked against the walk's
      count or one less, extends it. */
  lemma TroddenOn(A: set<Node>, seen: seq<Node>, bounds: seq<nat>, hung: seq<Node>, numParams: nat)
    requires Trodden(A, seen, bounds) && |bounds| == |seen| && |hung| <= 1 && numParams < 256
    requires numParams == bounds[|seen| - 1] || numParams == Dec8(bounds[|seen| - 1])
    requires hung != [] ==> hung[0] in A && seen[|seen| - 1].depth < hung[0].depth && hung[0].maxParams >= numParams
    requires hung != [] ==> hung[0] in seen[|seen| - 1].children
    ensures Trodden(A, seen + hung, bounds + (if hung == [] then [] else [numParams]))
  {
    if hung == [] {
      assert seen + hung == seen && bounds + [] == bounds;
    } else {
      var w, bs := seen + hung, bounds + [numParams];
      DescendingStep(seen, hung[0]);
      StepsDownStep(bounds, numParams);
      assert w == seen + [hung[0]];
      assert seen == seen[..|seen| - 1] + [seen[|seen| - 1]];
      LinkedStep(seen[..|seen| - 1], seen[|seen| - 1], hung[0]);
      assert w[..|w| - 1] == seen;
      forall k | 0 <= k < |w| ensures w[k] in A && w[k].maxParams >= bs[k] {
        if k < |seen| {
          assert w[k] == seen[k] && bs[k] == bounds[k];
        }
      }
    }
  }

  /** A pass stopping at the end of `seen`, which spells the route but for
      `tail`, ends the walk as `Ended` says. */
  lemma EndsAt(route: string, handlers: Option<HandlerChain>, mv: Move, tail: string, seen: seq<Node>)
    requires mv.Stop? && |seen| > 0 && SpelledPath(seen) + tail == route
    requires |mv.hung| <= 1 && (mv.r.Ok? <==> mv.exit == Attached || mv.exit == Inserted)
    requires mv.exit == Attached || mv.exit == Duplicate ==> tail == [] && mv.hung == []
    requires mv.exit == Attached ==> seen[|seen| - 1].handlers == handlers
    requires mv.exit == Duplicate ==> mv.r == Panic(DuplicateMessage(route)) && seen[|seen| - 1].handlers.Some?
    requires StopFacts(mv, tail, route, handlers)
    ensures Ended(route, handlers, mv.r, mv.exit, tail, seen + mv.hung)
  {
    if mv.hung == [] {
      EndsAtLast(route, handlers, mv, tail, seen);
    } else {
      EndsBelow(route, handlers, mv, tail, seen);
    }
  }

  /** `EndsAt` when the pass hung nothing: the walk ends at the node it stopped at. */
  lemma EndsAtLast(route: string, handlers: Option<HandlerChain>, mv: Move, tail: string, seen: seq<Node>)
    requires mv.Stop? && mv.hung == [] && |seen| > 0 && SpelledPath(seen) + tail == route
    requires |mv.hung| <= 1 && (mv.r.Ok? <==> mv.exit == Attached || mv.exit == Inserted)
    requires mv.exit == Attached || mv.exit == Duplicate ==> tail == [] && mv.hung == []
    requires mv.exit == Attached ==> seen[|seen| - 1].handlers == handlers
    requires mv.exit == Duplicate ==> mv.r == Panic(DuplicateMessage(route)) && seen[|seen| - 1].handlers.Some?
    requires StopFacts(mv, tail, route, handlers)
    ensures Ended(route, handlers, mv.r, mv.exit, tail, seen + mv.hung)
  {
    var above, last := SpelledPath(seen[..|seen| - 1]), seen[|seen| - 1];
    assert SpelledPath(seen) == above + last.path;
    FinishesAt(route, handlers, mv, tail, above, last);
    EndedOf(route, handlers, mv.r, mv.exit, tail, seen, [], above, last);
  }

  /** `EndsAt` when the pass hung one node below the walk: the walk ends there. */
  lemma EndsBelow(route: string, handlers: Option<HandlerChain>, mv: Move, tail: string, seen: seq<Node>)
    requires mv.Stop? && |mv.hung| == 1 && |seen| > 0 && SpelledPath(seen) + tail == route
    requires mv.r.Ok? <==> mv.exit == Attached || mv.exit == Inserted
    requires mv.exit != Attached && mv.exit != Duplicate
    requires StopFacts(mv, tail, route, handlers)
    ensures Ended(route, handlers, mv.r, mv.exit, tail, seen + mv.hung)
  {
    assert mv.hung == [mv.hung[0]];
    FinishesAt(route, handlers, mv, tail, SpelledPath(seen), mv.hung[0]);
    EndedOf(route, handlers, mv.r, mv.exit, tail, seen, mv.hung, SpelledPath(seen), mv.hung[0]);
  }

  /** `Ended` for the walk `seen` followed by the nodes `hung` (at most one),
      from `Finished` for its last node and what the nodes above it spell. */
  lemma EndedOf(route: string, handlers: Option<HandlerChain>, r: Outcome<()>, exit: Exit, tail: string,
                seen: seq<Node>, hung: seq<Node>, above: string, last: Node)
    requires |seen| > 0 && |hung| <= 1
    requires hung == [] ==> above == SpelledPath(seen[..|seen| - 1]) && last == seen[|seen| - 1]
    requires hung != [] ==> above == SpelledPath(seen) && last == hung[0]
    requires Finished(route, handlers, r, exit, tail, above, last)
    ensures Ended(route, handlers, r, exit, tail, seen + hung)
  {
    var walked := seen + hung;
    if hung == [] {
      assert walked == seen;
    } else {
      assert walked[..|walked| - 1] == seen;
    }
    assert SpelledPath(walked[..|walked| - 1]) == above && walked[|walked| - 1] == last;
  }

  /** The same, given what the nodes above the walk's last node spell: the
      node the pass stopped at when it hung nothing, else the node it hung. */
  lemma FinishesAt(route: string, handlers: Option<HandlerChain>, mv: Move, tail: string, above: string, last: Node)
    requires mv.Stop? && |mv.hung| <= 1 && (mv.r.Ok? <==> mv.exit == Attached || mv.exit == Inserted)
    requires mv.hung == [] ==> above + last.path + tail == route
    requires mv.hung != [] ==> mv.hung == [last] && above + tail == route
    requires mv.exit == Attached || mv.exit == Duplicate ==> tail == [] && mv.hung == []
    requires mv.exit == Attached ==> last.handlers == handlers
    requires mv.exit == Duplicate ==> mv.r == Panic(DuplicateMessage(route)) && last.handlers.Some?
    requires StopFacts(mv, tail, route, handlers)
    ensures Finished(route, handlers, mv.r, mv.exit, tail, above, last)
  {
    if mv.exit == Attached || mv.exit == Duplicate {
      assert above + last.path + tail == above + last.path;
    }
  }

  /** A walk spells the concatenation of fragments recorded for its nodes. */
  lemma {:induction false} SpelledIsConcat(ns: seq<Node>, fs: seq<string>)
    requires |ns| == |fs| && forall k :: 0 <= k < |ns| ==> ns[k].path == fs[k]
    ensures SpelledPath(ns) == Concat(fs)
    decreases |ns|
  {
    if ns != [] {
      SpelledIsConcat(ns[..|ns| - 1], fs[..|fs| - 1]);
    }
  }

  /** Each parameter count a walk checks fits a `uint8` and is the previous
      one, or one less with the `uint8` wrap of tree.go:157. */
  ghost predicate StepsDown(bounds: seq<nat>)
    decreases |bounds|
  {
    |bounds| > 0 ==>
      bounds[|bounds| - 1] < 256 &&
      (|bounds| > 1 ==>
         var b, a := bounds[|bounds| - 1], bounds[|bounds| - 2];
         a < 256 && (b == a || b == Dec8(a)) && StepsDown(bounds[..|bounds| - 1]))
  }

  lemma StepsDownStep(bounds: seq<nat>, b: nat)
    requires StepsDown(bounds) && |bounds| > 0 && b < 256
    requires b == bounds[|bounds| - 1] || b == Dec8(bounds[|bounds| - 1])
    ensures StepsDown(bounds + [b])
  {
    assert (bounds + [b])[..|bounds|] == bounds;
  }

  lemma DescendingStep(ns: seq<Node>, m: Node)
    requires Descending(ns) && |ns| > 0 && ns[|ns| - 1].depth < m.depth
    ensures Descending(ns + [m])
  {
  }

  /** The route read so far, then the next `i` bytes of the rest, is the route read further. */
  lemma SlicesJoin(s: string, p: nat, i: nat)
    requires p + i <= |s|
    ensures s[..p] + s[p..][..i] == s[..p + i]
    ensures s[..p + i] + s[p..][i..] == s
    ensures s[p..][i..] == s[p + i..]
  {
  }

  /** The nodes a walk has left behind are neither the node it stands on nor its children. */
  lemma Unvisited(ns: seq<Node>, n: Node, A: set<Node>)
    requires TreeShape(A) && n in A && Descending(ns + [n])
    ensures forall k :: 0 <= k < |ns| ==> ns[k] != n && ns[k] !in n.children
  {
    forall k | 0 <= k < |ns| ensures ns[k] != n && ns[k] !in n.children {
      assert (ns + [n])[k] == ns[k] && (ns + [n])[|ns|] == n;
    }
  }

  /** A pass that went down without consuming any of the route leaves the walk
      less far to go: it stepped to a deeper node of an unchanged tree, or it
      split a parameter node and stepped to the static node split off. */
  lemma HeightDrops(A: set<Node>, B: set<Node>, n: Node, child: Node, next: Node)
    requires n in A
    requires child == n ==> B == A && next in A && n.depth < next.depth
    requires child != n ==>
      next == child && n.nType == ParamKind && child.nType == StaticKind && Deeper(B, child.depth) <= Deeper(A, n.depth)
    ensures Height(B, next) < Height(A, n)
  {
    if child != n {
      SubsetCard(Deeper(B, child.depth), Deeper(A, n.depth));
    } else {
      DeeperChild(A, n.depth, next);
    }
  }

  /** Stepping down to a child leaves fewer nodes below. */
  lemma DeeperChild(A: set<Node>, d: real, c: Node)
    requires c in A && d < c.depth
    ensures |Deeper(A, c.depth)| < |Deeper(A, d)|
  {
    var below, all := Deeper(A, c.depth), Deeper(A, d);
    assert c in all - below;
    assert all == below + (all - below);
  }

  lemma SubsetCard<T>(X: set<T>, Y: set<T>)
    requires X <= Y
    ensures |X| <= |Y|
  {
    assert Y == X + (Y - X);
  }

  /** The message of Go's runtime panic for an index or slice bound outside its sequence. */
  const IndexOutOfRange: string := "runtime error: index out of range"

  /** The panic for a route registered twice (tree.go:207). */
  function DuplicateMessage(fullPath: string): string {
    "handlers are already registered for path '" + fullPath + "'"
  }

  /** `rest` goes on past the wildcard fragment `wild` with a slash, which is
      what lets the walk continue below a wildcard child (tree.go:159-160). */
  ghost predicate ContinuesWith(rest: string, wild: string) {
    |rest| > |wild| && rest[..|wild|] == wild && rest[|wild|] == '/'
  }

  /** The panic for a path that disagrees with an existing wildcard (tree.go:165-174). */
  function ConflictMessage(rest: string, fullPath: string, wild: string, catchAll: bool): (msg: string)
    requires |rest| <= |fullPath| && fullPath[|fullPath| - |rest|..] == rest
  {
    var seg := if catchAll then rest else FirstSegment(rest);
    var at := IndexOf(fullPath, seg);
    assert fullPath[|fullPath| - |rest|..][..|seg|] == seg;
    assert OccursAt(fullPath, seg, |fullPath| - |rest|);
    "'" + seg + "' in new path '" + fullPath + "' conflicts with existing wildcard '" + wild +
    "' in existing prefix '" + fullPath[..at] + wild + "'"
  }

  /** The index scan of tree.go:184-191: the first position of `c` in `indices`, or -1. */
  method FindIndex(indices: string, c: char) returns (k: int)
    ensures k == IndexByte(indices, c)
  {
    k := 0;
    while k < |indices|
      invariant 0 <= k <= |indices|
      invariant forall j :: 0 <= j < k ==> indices[j] != c
    {
      if indices[k] == c {
        return;
      }
      k := k + 1;
    }
    k := -1;
  }

  /** A walk's spelled path grows by the fragment of the node it steps to. */
  lemma SpelledPathStep(ns: seq<Node>, m: Node)
    ensures SpelledPath(ns + [m]) == SpelledPath(ns) + m.path
  {
    assert (ns + [m])[..|ns|] == ns;
  }

  /** The walk of a route registered in an empty tree (the root, and the
      wildcard child `insertChild` may have hung below it) is `Registered`. */
  lemma Planted(route: string, handlers: Option<HandlerChain>, r: Outcome<()>, exit: Exit, grown: set<Node>,
                walked: seq<Node>, root: Node, leaf: Node)
    requires root in grown && leaf in grown
    requires walked == if leaf == root then [root] else [root, leaf]
    requires leaf != root ==> root.depth < leaf.depth && root.path == "" && leaf in root.children
    requires r.Ok? ==> exit == Inserted && leaf.path == route && leaf.handlers == handlers
    requires r.Panic? ==> exit == Refused && leaf == root && r.message == WildcardChildrenMessage(route, route)
    ensures Registered(route, handlers, r, exit, route, grown, walked, []) && walked[0] == root
  {
    if leaf == root {
      PlantedAtRoot(route, handlers, r, exit, grown, root);
    } else {
      PlantedBelow(route, handlers, r, exit, grown, root, leaf);
    }
  }

  /** `Planted` when the route's node is the root itself. */
  lemma PlantedAtRoot(route: string, handlers: Option<HandlerChain>, r: Outcome<()>, exit: Exit, grown: set<Node>,
                      root: Node)
    requires root in grown
    requires r.Ok? ==> exit == Inserted && root.path == route && root.handlers == handlers
    requires r.Panic? ==> exit == Refused && r.message == WildcardChildrenMessage(route, route)
    ensures Registered(route, handlers, r, exit, route, grown, [root], [])
  {
    assert [root][..0] == [];
  }

  /** `Planted` when the route's node is a wildcard child hung below an empty root. */
  lemma PlantedBelow(route: string, handlers: Option<HandlerChain>, r: Outcome<()>, exit: Exit, grown: set<Node>,
                     root: Node, leaf: Node)
    requires root in grown && leaf in grown && root.depth < leaf.depth && root.path == "" && leaf in root.children
    requires r.Ok? && exit == Inserted && leaf.path == route && leaf.handlers == handlers
    ensures Registered(route, handlers, r, exit, route, grown, [root, leaf], [])
  {
    SpelledPathStep([], root);
    assert [root, leaf][..1] == [] + [root];
  }

  /** The panic of the `insertChild` stand-in. */
  function WildcardChildrenMessage(suffix: string, fullPath: string): string {
    "wildcard route '" + suffix + "' conflicts with existing children in path '" + fullPath + "'"
  }

  /** What one reordering step establishes about the rotated children and indices. */
  lemma ReorderFacts(c0: seq<Node>, i0: string, ps0: seq<nat>, pos: nat, newPos: nat)
    requires newPos <= pos < |c0| && pos < |i0| && |ps0| == |c0| && Distinct(c0)
    requires Prios(c0) == Bumped(ps0, pos)
    requires newPos == BubbleTarget(Bumped(ps0, pos), pos, ps0[pos] + 1)
    ensures Rotate(c0, pos, newPos)[newPos] == c0[pos]
    ensures Prios(Rotate(c0, pos, newPos)) == Rotate(Bumped(ps0, pos), pos, newPos)
    ensures NonIncreasing(ps0) ==> NonIncreasing(Prios(Rotate(c0, pos, newPos)))
    ensures Distinct(Rotate(c0, pos, newPos)) && multiset(Rotate(c0, pos, newPos)) == multiset(c0)
    ensures LockStep(i0, c0) ==> LockStep(Rotate(i0, pos, newPos), Rotate(c0, pos, newPos))
  {
    RotateAt(c0, pos, newPos, newPos);
    RotateSplice(c0, pos, newPos);
    RotateDistinct(c0, pos, newPos);
    RotatePrios(c0, Bumped(ps0, pos), pos, newPos);
    if NonIncreasing(ps0) { BumpKeepsOrder(ps0, pos); }
    if LockStep(i0, c0) { RotateLockStep(i0, c0, pos, newPos); }
  }

  /** Rotating the children rotates their priorities. */
  lemma RotatePrios(cs: seq<Node>, ps: seq<nat>, from: nat, to: nat)
    requires to <= from < |cs| && |ps| == |cs|
    requires forall k :: 0 <= k < |cs| ==> cs[k].priority == ps[k]
    ensures Prios(Rotate(cs, from, to)) == Rotate(ps, from, to)
  {
    forall k | 0 <= k < |cs| ensures Prios(Rotate(cs, from, to))[k] == Rotate(ps, from, to)[k] {
      RotateAt(cs, from, to, k);
      RotateAt(ps, from, to, k);
    }
  }

  /** Rotating both sequences by the same move keeps them in lock-step. */
  lemma RotateLockStep(indices: string, cs: seq<Node>, from: nat, to: nat)
    requires to <= from < |cs| && LockStep(indices, cs)
    ensures LockStep(Rotate(indices, from, to), Rotate(cs, from, to))
  {
    forall k | 0 <= k < |cs|
      ensures |Rotate(cs, from, to)[k].path| > 0 && Rotate(cs, from, to)[k].path[0] == Rotate(indices, from, to)[k]
    {
      RotateAt(cs, from, to, k);
      RotateAt(indices, from, to, k);
    }
  }
}
