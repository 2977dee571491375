/**
 * The trie router. Every trie node lives in an arena (`Router.nodes`) and
 * is named by its index there; the root is index 0. A node has static
 * children keyed by path segment, at most one `:param` child, the
 * middlewares attached to its path, and the routes bound at it, one per
 * HTTP method, in insertion order (a JavaScript `Map` keeps that order).
 *
 * Every edge leads from a node to a node with a larger index, so the arena
 * never holds a cycle; this is what bounds the recursive merge.
 */
module Routing {
  import opened Wrappers
  import opened Text
  import opened Errors
  import opened Steps

  datatype Verb = GET | POST | PUT | DELETE | PATCH

  function VerbName(v: Verb): string {
    match v
    case GET => "GET"
    case POST => "POST"
    case PUT => "PUT"
    case DELETE => "DELETE"
    case PATCH => "PATCH"
  }

  /** What `registerRoute` binds to a method: all but the last argument,
      then the last argument. */
  datatype RouteEntry = RouteEntry(middlewares: seq<Callable>, handler: Callable)

  /** An index into the arena. */
  type Handle = nat

  datatype Node = Node(
    children: seq<(string, Handle)>,
    paramChild: Option<Handle>,
    paramName: Option<string>,
    middlewares: seq<Callable>,
    routes: seq<(string, RouteEntry)>)

  /** `new TrieNode(...)`. */
  const EmptyNode := Node([], None, None, [], [])

  // ---------------------------------------------------------------------
  // Insertion-ordered maps (`Map.has`, `Map.get`, `Map.set`, `Map.keys`)

  /** `[...m.keys()]`. */
  function Keys<V>(m: seq<(string, V)>): (r: seq<string>)
    ensures |r| == |m|
    ensures forall i {:trigger r[i]} :: 0 <= i < |m| ==> r[i] == m[i].0
  {
    if |m| == 0 then [] else [m[0].0] + Keys(m[1..])
  }

  /** `m.get(k)`: the value stored under `k`, if `k` is a key. */
  function Lookup<V>(m: seq<(string, V)>, k: string): (r: Option<V>)
    ensures r.Some? <==> k in Keys(m)
    ensures r.Some? ==> (k, r.value) in m
  {
    if |m| == 0 then None
    else if m[0].0 == k then Some(m[0].1)
    else Lookup(m[1..], k)
  }

  /** `m.set(k, v)`: an existing key keeps its position, a new key goes
      last. */
  function Store<V>(m: seq<(string, V)>, k: string, v: V): (r: seq<(string, V)>)
    ensures Lookup(r, k) == Some(v)
    ensures forall k' :: k' != k ==> Lookup(r, k') == Lookup(m, k')
  {
    if |m| == 0 then [(k, v)]
    else if m[0].0 == k then
      var r := [(k, v)] + m[1..];
      assert r[1..] == m[1..];
      r
    else
      var rest := Store(m[1..], k, v);
      var r := [m[0]] + rest;
      assert r[1..] == rest;
      r
  }

  /** Setting a key that is not there appends it at the end. */
  lemma {:induction false} StoreAppends<V>(m: seq<(string, V)>, k: string, v: V)
    requires Lookup(m, k).None?
    ensures Store(m, k, v) == m + [(k, v)]
  {
    if |m| > 0 {
      assert m[0].0 != k;
      StoreAppends(m[1..], k, v);
      assert Store(m, k, v) == [m[0]] + (m[1..] + [(k, v)]);
      assert m == [m[0]] + m[1..];
    }
  }

  /** Every key occurs once. */
  predicate UniqueKeys<V>(m: seq<(string, V)>) {
    forall i, j {:trigger Apart(m, i, j)} :: 0 <= i < j < |m| ==> Apart(m, i, j)
  }

  /** Entries `i` and `j` of `m` carry different keys. */
  predicate Apart<V>(m: seq<(string, V)>, i: int, j: int) {
    0 <= i < |m| && 0 <= j < |m| && m[i].0 != m[j].0
  }

  /** The entries after the first of a map form a map. */
  lemma UniqueTail<V>(m: seq<(string, V)>)
    requires UniqueKeys(m) && |m| > 0
    ensures UniqueKeys(m[1..])
  {
    forall i, j | 0 <= i < j < |m[1..]|
      ensures Apart(m[1..], i, j)
    {
      assert Apart(m, i + 1, j + 1);
    }
  }

  // ---------------------------------------------------------------------
  // The arena

  /** Every edge out of node `h` leads to a later node of an arena of size
      `n`. */
  predicate EdgesForward(node: Node, h: Handle, n: nat) {
    (forall i :: 0 <= i < |node.children| ==> h < node.children[i].1 < n)
    && (node.paramChild.Some? ==> h < node.paramChild.value < n)
  }

  /** The arena invariant: there is a root, edges lead forward, and the
      children and routes of a node are maps. */
  predicate WellFormed(nodes: seq<Node>) {
    |nodes| >= 1
    && (forall h :: 0 <= h < |nodes| ==> EdgesForward(nodes[h], h, |nodes|))
    && (forall h :: 0 <= h < |nodes| ==> UniqueKeys(nodes[h].children) && UniqueKeys(nodes[h].routes))
  }

  /** `b` is `a` with more nodes and more edges: every node of `a` keeps its
      edges, its parameter name, its middlewares and its routes. */
  ghost predicate Extends(a: seq<Node>, b: seq<Node>) {
    |a| <= |b|
    && forall h :: 0 <= h < |a| ==>
         b[h].paramName == a[h].paramName
         && b[h].middlewares == a[h].middlewares
         && b[h].routes == a[h].routes
         && (a[h].paramChild.Some? ==> b[h].paramChild == a[h].paramChild)
         && (forall seg :: Lookup(a[h].children, seg).Some? ==>
               Lookup(b[h].children, seg) == Lookup(a[h].children, seg))
  }

  lemma ExtendsReflexive(a: seq<Node>)
    ensures Extends(a, a)
  {
  }

  lemma ExtendsTransitive(a: seq<Node>, b: seq<Node>, c: seq<Node>)
    requires Extends(a, b) && Extends(b, c)
    ensures Extends(a, c)
  {
  }

  /** `path.split("/").filter(Boolean)`. */
  function Segments(path: string): (r: seq<string>)
    ensures forall i :: 0 <= i < |r| ==> r[i] != ""
  {
    NonEmpty(Split(path, "/"))
  }

  /** A slash splits a path into the segments before it and those after it,
      so leading, trailing and repeated slashes change nothing. */
  lemma SegmentsAround(a: string, b: string)
    ensures Segments(a + "/" + b) == Segments(a) + Segments(b)
    ensures Segments("/" + b) == Segments(b)
    ensures Segments(a + "/") == Segments(a)
  {
    SplitAround(a, b, "/");
    NonEmptyAppend(Split(a, "/"), Split(b, "/"));
    SplitAround("", b, "/");
    NonEmptyAppend(Split("", "/"), Split(b, "/"));
    assert "" + "/" + b == "/" + b;
    SplitAround(a, "", "/");
    NonEmptyAppend(Split(a, "/"), Split("", "/"));
    assert a + "/" + "" == a + "/";
    assert Segments("") == [];
  }

  /** Joining segments with slashes gives a path with exactly those
      segments. */
  lemma {:induction false} SegmentsOfJoin(segs: seq<string>)
    requires forall i :: 0 <= i < |segs| ==> segs[i] != "" && !Contains(segs[i], "/")
    ensures Segments(Join(segs, "/")) == segs
  {
    if |segs| == 0 {
      assert Segments("") == [];
    } else if |segs| == 1 {
      assert Split(segs[0], "/") == [segs[0]];
      assert [segs[0]][1..] == [];
      assert NonEmpty([segs[0]]) == [segs[0]] + NonEmpty([]);
    } else {
      assert segs == [segs[0]] + segs[1..];
      JoinCons(segs[0], segs[1..], "/");
      SegmentsAround(segs[0], Join(segs[1..], "/"));
      SegmentsOfJoin(segs[1..]);
      assert Split(segs[0], "/") == [segs[0]];
      assert [segs[0]][1..] == [];
      assert NonEmpty([segs[0]]) == [segs[0]] + NonEmpty([]);
    }
  }

  /** The path "/" has no segments, so it names the root itself and
      creates nothing. */
  lemma SlashIsRoot(nodes: seq<Node>)
    requires WellFormed(nodes)
    ensures Segments("/") == []
    ensures Grow(nodes, 0, Segments("/")) == (nodes, 0)
  {
    SegmentsAround("", "");
    assert "" + "/" + "" == "/";
    assert Segments("") == [];
  }

  /** A `:name` segment. */
  predicate IsParam(seg: string) {
    StartsWith(seg, ":")
  }

  // ---------------------------------------------------------------------
  // createRoute

  /** `node` has the middlewares, routes and parameter name of `before`, and
      every edge of `before` is still in place. */
  ghost predicate KeepsNode(before: Node, node: Node) {
    node.paramName == before.paramName
    && node.middlewares == before.middlewares
    && node.routes == before.routes
    && (before.paramChild.Some? ==> node.paramChild == before.paramChild)
    && (forall seg :: Lookup(before.children, seg).Some? ==>
          Lookup(node.children, seg) == Lookup(before.children, seg))
  }

  /** Replacing node `cur` by a node that keeps it, and appending a node
      with no edges, keeps the arena valid and extends it. */
  lemma AppendLeaf(nodes: seq<Node>, cur: Handle, node: Node, leaf: Node)
    requires WellFormed(nodes) && cur < |nodes|
    requires KeepsNode(nodes[cur], node)
    requires EdgesForward(node, cur, |nodes| + 1)
    requires UniqueKeys(node.children) && UniqueKeys(node.routes)
    requires leaf.children == [] && leaf.paramChild.None? && leaf.routes == []
    ensures WellFormed(nodes[cur := node] + [leaf])
    ensures Extends(nodes, nodes[cur := node] + [leaf])
  {
    var r := nodes[cur := node] + [leaf];
    forall h | 0 <= h < |r|
      ensures EdgesForward(r[h], h, |r|)
    {
      if h < |nodes| && h != cur {
        assert r[h] == nodes[h];
        assert EdgesForward(nodes[h], h, |nodes|);
      }
    }
  }

  /** Setting a missing key appends it and keeps the keys unique. */
  lemma StoreNew<V>(m: seq<(string, V)>, k: string, v: V)
    requires UniqueKeys(m) && Lookup(m, k).None?
    ensures Store(m, k, v) == m + [(k, v)]
    ensures UniqueKeys(Store(m, k, v))
  {
    StoreAppends(m, k, v);
    LookupMisses(m, k);
    var r := m + [(k, v)];
    forall i, j | 0 <= i < j < |r|
      ensures Apart(r, i, j)
    {
      if j < |m| {
        assert Apart(m, i, j);
      }
    }
  }

  /** A key that is not found is carried by no entry. */
  lemma {:induction false} LookupMisses<V>(m: seq<(string, V)>, k: string)
    requires Lookup(m, k).None?
    ensures forall i :: 0 <= i < |m| ==> m[i].0 != k
  {
    if |m| > 0 {
      LookupMisses(m[1..], k);
      assert forall i :: 1 <= i < |m| ==> m[i] == m[1..][i - 1];
    }
  }

  /** One more node without edges keeps the arena well formed. */
  lemma AppendEmpty(nodes: seq<Node>)
    requires WellFormed(nodes)
    ensures WellFormed(nodes + [EmptyNode]) && Extends(nodes, nodes + [EmptyNode])
  {
    var r := nodes + [EmptyNode];
    forall h | 0 <= h < |r|
      ensures EdgesForward(r[h], h, |r|)
      ensures UniqueKeys(r[h].children) && UniqueKeys(r[h].routes)
    {
      if h < |nodes| {
        assert r[h] == nodes[h];
        KeptNode(nodes, h, |r|);
      }
    }
    AppendExtends(nodes, [EmptyNode]);
  }

  /** Linking a new static edge at `cur` of an extension still extends
      the arena. */
  lemma LinkExtends(nodes: seq<Node>, grown: seq<Node>, r: seq<Node>, cur: Handle, seg: string)
    requires Extends(nodes, grown) && cur < |nodes| && |grown| == |r|
    requires Lookup(grown[cur].children, seg).None?
    requires forall g :: 0 <= g < |grown| && g != cur ==> r[g] == grown[g]
    requires r[cur] == grown[cur].(children := r[cur].children)
    requires forall k :: k != seg ==> Lookup(r[cur].children, k) == Lookup(grown[cur].children, k)
    ensures Extends(nodes, r)
  {
  }

  /** `currNode.paramChild = node` for a new node named after `seg`. */
  function AddParamChild(nodes: seq<Node>, cur: Handle, seg: string): (r: seq<Node>)
    requires WellFormed(nodes) && cur < |nodes| && IsParam(seg)
    requires nodes[cur].paramChild.None?
    ensures WellFormed(r) && Extends(nodes, r) && |r| == |nodes| + 1
    ensures r[cur].paramChild == Some(|nodes|)
    ensures r[|nodes|] == EmptyNode.(paramName := Some(seg[1..]))
  {
    var node := nodes[cur];
    var child := EmptyNode.(paramName := Some(seg[1..]));
    AppendLeaf(nodes, cur, node.(paramChild := Some(|nodes|)), child);
    nodes[cur := node.(paramChild := Some(|nodes|))] + [child]
  }

  /** `currNode.children.set(seg, new TrieNode(seg))`. */
  function AddStaticChild(nodes: seq<Node>, cur: Handle, seg: string): (r: seq<Node>)
    requires WellFormed(nodes) && cur < |nodes|
    requires Lookup(nodes[cur].children, seg).None?
    ensures WellFormed(r) && Extends(nodes, r) && |r| == |nodes| + 1
    ensures Lookup(r[cur].children, seg) == Some(|nodes|)
    ensures r[|nodes|] == EmptyNode
  {
    var grown := nodes + [EmptyNode];
    AppendEmpty(nodes);
    var r := LinkChild(grown, cur, seg, |nodes|);
    LinkExtends(nodes, grown, r, cur, seg);
    r
  }

  /** One iteration of `createRoute`: from node `cur`, follow `seg`,
      creating the node if it is missing. A `:name` segment goes to the
      parameter child; a later `:other` at the same place reuses it, so the
      first name is kept. */
  function Descend(nodes: seq<Node>, cur: Handle, seg: string): (r: (seq<Node>, Handle))
    requires WellFormed(nodes) && cur < |nodes|
    ensures WellFormed(r.0) && r.1 < |r.0| && Extends(nodes, r.0)
    ensures IsParam(seg) ==> r.0[cur].paramChild == Some(r.1)
    ensures !IsParam(seg) ==> Lookup(r.0[cur].children, seg) == Some(r.1)
    ensures r.1 < |nodes| ==> r.0 == nodes
    ensures r.1 >= |nodes| ==> r.1 == |nodes| && |r.0| == |nodes| + 1
  {
    if IsParam(seg) then
      match nodes[cur].paramChild
      case Some(c) =>
        ExtendsReflexive(nodes);
        (nodes, c)
      case None => (AddParamChild(nodes, cur, seg), |nodes|)
    else
      match Lookup(nodes[cur].children, seg)
      case Some(c) =>
        ExtendsReflexive(nodes);
        (nodes, c)
      case None => (AddStaticChild(nodes, cur, seg), |nodes|)
  }

  /** What `createRoute(path, root)` does, segment by segment: the grown
      arena and the node reached. */
  function Grow(nodes: seq<Node>, cur: Handle, segs: seq<string>): (r: (seq<Node>, Handle))
    requires WellFormed(nodes) && cur < |nodes|
    ensures WellFormed(r.0) && r.1 < |r.0| && Extends(nodes, r.0)
    decreases |segs|
  {
    if |segs| == 0 then (nodes, cur)
    else
      var (n1, next) := Descend(nodes, cur, segs[0]);
      var r := Grow(n1, next, segs[1..]);
      ExtendsTransitive(nodes, n1, r.0);
      r
  }

  /** One more iteration of `createRoute`. */
  lemma GrowStep(nodes: seq<Node>, cur: Handle, segs: seq<string>, i: nat)
    requires WellFormed(nodes) && cur < |nodes| && i < |segs|
    ensures Grow(nodes, cur, segs[i..])
            == Grow(Descend(nodes, cur, segs[i]).0, Descend(nodes, cur, segs[i]).1, segs[i + 1..])
  {
    assert segs[i..][1..] == segs[i + 1..];
  }

  /** `createRoute` twice on the same path: the second call creates nothing
      and reaches the same node. */
  lemma {:induction false} GrowIdempotent(nodes: seq<Node>, cur: Handle, segs: seq<string>)
    requires WellFormed(nodes) && cur < |nodes|
    ensures Grow(Grow(nodes, cur, segs).0, cur, segs) == Grow(nodes, cur, segs)
    decreases |segs|
  {
    if |segs| > 0 {
      var (n1, next) := Descend(nodes, cur, segs[0]);
      var (grown, h) := Grow(n1, next, segs[1..]);
      assert Extends(n1, grown);
      assert Descend(grown, cur, segs[0]) == (grown, next);
      GrowIdempotent(n1, next, segs[1..]);
    }
  }

  /** A later `:other` segment at a position that already has a parameter
      child reuses that child, which keeps the name it was created with. */
  lemma ParamChildReused(nodes: seq<Node>, cur: Handle, first: string, later: string)
    requires WellFormed(nodes) && cur < |nodes|
    requires IsParam(first) && IsParam(later)
    ensures var (n1, c) := Descend(nodes, cur, first);
            Descend(n1, cur, later) == (n1, c)
            && n1[c].paramName == (if nodes[cur].paramChild.None? then Some(first[1..])
                                   else nodes[nodes[cur].paramChild.value].paramName)
  {
  }

  // ---------------------------------------------------------------------
  // registerRoute

  /** `routeNode.routes.set(name, entry)` for a method not bound yet. */
  function BindRoute(nodes: seq<Node>, h: Handle, name: string, entry: RouteEntry): (r: seq<Node>)
    requires WellFormed(nodes) && h < |nodes| && Lookup(nodes[h].routes, name).None?
    ensures WellFormed(r) && |r| == |nodes|
    ensures r[h] == nodes[h].(routes := nodes[h].routes + [(name, entry)])
    ensures Lookup(r[h].routes, name) == Some(entry)
    ensures forall m :: m != name ==> Lookup(r[h].routes, m) == Lookup(nodes[h].routes, m)
    ensures forall g :: 0 <= g < |nodes| && g != h ==> r[g] == nodes[g]
  {
    StoreNew(nodes[h].routes, name, entry);
    var node := nodes[h].(routes := Store(nodes[h].routes, name, entry));
    assert EdgesForward(nodes[h], h, |nodes|);
    ReplaceNode(nodes, h, node);
    nodes[h := node]
  }

  /** The checks `registerRoute` makes once node `h` for the path exists:
      the last argument must be a function and the method must not be
      bound at `h`; then the method is bound to all but the last argument
      as middlewares and the last as handler. */
  function RegisterAt(nodes: seq<Node>, h: Handle, path: string, verb: Verb, args: seq<Callable>): (r: (seq<Node>, Option<Exception>))
    requires WellFormed(nodes) && h < |nodes| && |args| > 0
    ensures WellFormed(r.0) && |r.0| == |nodes|
    ensures !args[|args| - 1].Fn? ==> r == (nodes, Some(InvalidHandler(path)))
    ensures args[|args| - 1].Fn? && Lookup(nodes[h].routes, VerbName(verb)).Some? ==>
              r == (nodes, Some(RouteExists(VerbName(verb), path)))
    ensures r.1.None? <==> args[|args| - 1].Fn? && Lookup(nodes[h].routes, VerbName(verb)).None?
    ensures r.0[h] == nodes[h].(routes := r.0[h].routes)
    ensures r.1.None? ==>
              Lookup(r.0[h].routes, VerbName(verb)) == Some(RouteEntry(args[..|args| - 1], args[|args| - 1]))
              && (forall m :: m != VerbName(verb) ==> Lookup(r.0[h].routes, m) == Lookup(nodes[h].routes, m))
              && (forall g :: 0 <= g < |nodes| && g != h ==> r.0[g] == nodes[g])
  {
    var handler := args[|args| - 1];
    var middlewares := args[..|args| - 1];
    if !handler.Fn? then (nodes, Some(InvalidHandler(path)))
    else if Lookup(nodes[h].routes, VerbName(verb)).Some? then (nodes, Some(RouteExists(VerbName(verb), path)))
    else (BindRoute(nodes, h, VerbName(verb), RouteEntry(middlewares, handler)), None)
  }

  /** What `registerRoute(path, method, ...args)` does: the arena after the
      call and the exception thrown, if any. With no arguments it throws
      before touching the trie; otherwise the node for the path is created
      before the checks, so a call that throws can still grow the trie. */
  function Register(nodes: seq<Node>, path: string, verb: Verb, args: seq<Callable>): (r: (seq<Node>, Option<Exception>))
    requires WellFormed(nodes)
    ensures WellFormed(r.0)
    ensures |args| == 0 ==> r == (nodes, Some(MissingHandler(VerbName(verb), path)))
    ensures |args| > 0 ==> r == RegisterAt(Grow(nodes, 0, Segments(path)).0, Grow(nodes, 0, Segments(path)).1, path, verb, args)
  {
    if |args| == 0 then (nodes, Some(MissingHandler(VerbName(verb), path)))
    else
      var (grown, h) := Grow(nodes, 0, Segments(path));
      RegisterAt(grown, h, path, verb, args)
  }

  /** `node.middlewares.push(...mws)` on node `h`. */
  function AddMiddlewares(nodes: seq<Node>, h: Handle, mws: seq<Callable>): (r: seq<Node>)
    requires WellFormed(nodes) && h < |nodes|
    ensures WellFormed(r) && |r| == |nodes|
    ensures r[h] == nodes[h].(middlewares := nodes[h].middlewares + mws)
    ensures forall g :: 0 <= g < |nodes| && g != h ==> r[g] == nodes[g]
  {
    assert EdgesForward(nodes[h], h, |nodes|);
    ReplaceNode(nodes, h, nodes[h].(middlewares := nodes[h].middlewares + mws));
    nodes[h := nodes[h].(middlewares := nodes[h].middlewares + mws)]
  }

  // ---------------------------------------------------------------------
  // mountRouter / mergeNodes

  /** The children list with every handle moved up by `off`. */
  function ShiftChildren(cs: seq<(string, Handle)>, off: nat): (r: seq<(string, Handle)>)
    ensures |r| == |cs|
    ensures forall i {:trigger r[i]} :: 0 <= i < |cs| ==> r[i] == (cs[i].0, cs[i].1 + off)
  {
    if |cs| == 0 then [] else [(cs[0].0, cs[0].1 + off)] + ShiftChildren(cs[1..], off)
  }

  /** A node of the mounted router as it reads once that router's arena
      sits at offset `off`. */
  function ShiftNode(n: Node, off: nat): Node {
    n.(children := ShiftChildren(n.children, off),
       paramChild := if n.paramChild.Some? then Some(n.paramChild.value + off) else None)
  }

  /** Every node of an arena moved to offset `off`. */
  function ShiftArena(src: seq<Node>, off: nat): (r: seq<Node>)
    ensures |r| == |src|
    ensures forall h {:trigger r[h]} :: 0 <= h < |src| ==> r[h] == ShiftNode(src[h], off)
  {
    if |src| == 0 then [] else [ShiftNode(src[0], off)] + ShiftArena(src[1..], off)
  }

  /** Node `h` of the mounted arena `src` sits, moved, at `off + h` of
      `r`. */
  ghost predicate CopiedAt(r: seq<Node>, off: nat, src: seq<Node>, h: int) {
    0 <= h < |src| && off + h < |r| && r[off + h] == ShiftNode(src[h], off)
  }

  /** `r` holds a copy of the whole mounted arena at offset `off`. */
  ghost predicate Copied(r: seq<Node>, off: nat, src: seq<Node>) {
    off + |src| <= |r| && forall h {:trigger CopiedAt(r, off, src, h)} :: 0 <= h < |src| ==> CopiedAt(r, off, src, h)
  }

  /** `nodes` followed by a copy of the mounted arena `src`; handle `h` of
      `src` is handle `|nodes| + h` of the result. JavaScript attaches a
      subtree of the mounted router by reference; here it is attached by
      linking to its copy, and the copies that are never linked are never
      reached. */
  function AppendCopy(nodes: seq<Node>, src: seq<Node>): (r: seq<Node>)
    requires WellFormed(nodes) && WellFormed(src)
    ensures WellFormed(r) && Extends(nodes, r) && |r| == |nodes| + |src|
    ensures r[..|nodes|] == nodes
    ensures Copied(r, |nodes|, src)
  {
    var off := |nodes|;
    var copy := ShiftArena(src, off);
    var r := nodes + copy;
    forall h | 0 <= h < |r|
      ensures EdgesForward(r[h], h, |r|)
      ensures UniqueKeys(r[h].children) && UniqueKeys(r[h].routes)
    {
      if h >= off {
        assert r[h] == ShiftNode(src[h - off], off);
        ShiftedNode(src, h - off, off);
      } else {
        assert r[h] == nodes[h];
        KeptNode(nodes, h, |r|);
      }
    }
    AppendExtends(nodes, copy);
    forall h | 0 <= h < |src|
      ensures CopiedAt(r, off, src, h)
    {
      assert r[off + h] == copy[h];
    }
    r
  }

  /** Appending nodes extends an arena. */
  lemma AppendExtends(nodes: seq<Node>, more: seq<Node>)
    ensures Extends(nodes, nodes + more)
  {
    assert forall h :: 0 <= h < |nodes| ==> (nodes + more)[h] == nodes[h];
  }

  /** A node of a well-formed arena keeps its properties in a larger one. */
  lemma KeptNode(nodes: seq<Node>, h: Handle, size: nat)
    requires WellFormed(nodes) && h < |nodes| <= size
    ensures EdgesForward(nodes[h], h, size)
    ensures UniqueKeys(nodes[h].children) && UniqueKeys(nodes[h].routes)
  {
    assert EdgesForward(nodes[h], h, |nodes|);
  }

  /** A node of a well-formed arena, moved to offset `off`, has its edges
      leading forward in the moved arena and keeps its keys unique. */
  lemma ShiftedNode(src: seq<Node>, h: Handle, off: nat)
    requires WellFormed(src) && h < |src|
    ensures EdgesForward(ShiftNode(src[h], off), h + off, off + |src|)
    ensures UniqueKeys(ShiftNode(src[h], off).children) && UniqueKeys(ShiftNode(src[h], off).routes)
  {
    assert EdgesForward(src[h], h, |src|);
    var moved := ShiftChildren(src[h].children, off);
    forall i, j | 0 <= i < j < |moved|
      ensures Apart(moved, i, j)
    {
      assert Apart(src[h].children, i, j);
    }
  }

  /** Replacing one node by a node whose edges lead forward and whose
      children and routes are maps keeps the arena well formed. */
  lemma ReplaceNode(nodes: seq<Node>, t: Handle, node: Node)
    requires WellFormed(nodes) && t < |nodes|
    requires EdgesForward(node, t, |nodes|)
    requires UniqueKeys(node.children) && UniqueKeys(node.routes)
    ensures WellFormed(nodes[t := node])
  {
    var r := nodes[t := node];
    forall g | 0 <= g < |r|
      ensures EdgesForward(r[g], g, |r|)
    {
      if g != t {
        assert EdgesForward(nodes[g], g, |nodes|);
      }
    }
  }

  /** `target.children.set(seg, h)` for a key `seg` that is not there. */
  function LinkChild(nodes: seq<Node>, t: Handle, seg: string, h: Handle): (r: seq<Node>)
    requires WellFormed(nodes) && t < h < |nodes|
    requires Lookup(nodes[t].children, seg).None?
    ensures WellFormed(r) && |r| == |nodes|
    ensures forall g :: 0 <= g < |nodes| && g != t ==> r[g] == nodes[g]
    ensures r[t] == nodes[t].(children := nodes[t].children + [(seg, h)])
    ensures Lookup(r[t].children, seg) == Some(h)
    ensures forall k :: k != seg ==> Lookup(r[t].children, k) == Lookup(nodes[t].children, k)
  {
    var node := nodes[t].(children := Store(nodes[t].children, seg, h));
    assert EdgesForward(nodes[t], t, |nodes|);
    StoreNew(nodes[t].children, seg, h);
    EdgeAppended(nodes[t], t, |nodes|, seg, h);
    ReplaceNode(nodes, t, node);
    nodes[t := node]
  }

  /** A node with one more static edge, to a later node, still has its
      edges leading forward. */
  lemma EdgeAppended(n: Node, t: Handle, size: nat, seg: string, h: Handle)
    requires EdgesForward(n, t, size) && t < h < size
    ensures EdgesForward(n.(children := n.children + [(seg, h)]), t, size)
  {
    var c := n.children + [(seg, h)];
    assert forall i :: 0 <= i < |n.children| ==> c[i] == n.children[i];
  }

  /** `target.children.set(seg, childNode)` for a child `c` of the mounted
      arena: the copy of `src` is appended and `seg` links to the copy of
      `c`. */
  function AttachChild(nodes: seq<Node>, t: Handle, seg: string, src: seq<Node>, c: Handle): (r: seq<Node>)
    requires WellFormed(nodes) && t < |nodes| && WellFormed(src) && c < |src|
    requires Lookup(nodes[t].children, seg).None?
    ensures WellFormed(r) && |r| == |nodes| + |src|
    ensures forall h :: 0 <= h < |nodes| && h != t ==> r[h] == nodes[h]
    ensures r[t] == nodes[t].(children := nodes[t].children + [(seg, |nodes| + c)])
  {
    var n1 := AppendCopy(nodes, src);
    assert n1[t] == nodes[t];
    LinkChild(n1, t, seg, |nodes| + c)
  }

  /** After `AttachChild`, `seg` leads to the copy of `c`, and the copy of
      the mounted arena sits at offset `|nodes|`. */
  lemma AttachChildCopies(nodes: seq<Node>, t: Handle, seg: string, src: seq<Node>, c: Handle) returns (r: seq<Node>)
    requires WellFormed(nodes) && t < |nodes| && WellFormed(src) && c < |src|
    requires Lookup(nodes[t].children, seg).None?
    ensures r == AttachChild(nodes, t, seg, src, c)
    ensures Lookup(r[t].children, seg) == Some(|nodes| + c)
    ensures Copied(r, |nodes|, src)
  {
    r := AttachChild(nodes, t, seg, src, c);
    var n1 := AppendCopy(nodes, src);
    assert n1[t] == nodes[t];
    forall h | 0 <= h < |src|
      ensures CopiedAt(r, |nodes|, src, h)
    {
      assert CopiedAt(n1, |nodes|, src, h);
    }
  }

  /** `target.paramChild = source.paramChild` for the parameter child `c`
      of the mounted arena, which brings its own name. */
  function AttachParam(nodes: seq<Node>, t: Handle, src: seq<Node>, c: Handle): (r: seq<Node>)
    requires WellFormed(nodes) && t < |nodes| && WellFormed(src) && c < |src|
    requires nodes[t].paramChild.None?
    ensures WellFormed(r) && |r| == |nodes| + |src|
    ensures forall h :: 0 <= h < |nodes| && h != t ==> r[h] == nodes[h]
    ensures r[t] == nodes[t].(paramChild := Some(|nodes| + c))
    ensures r[|nodes| + c] == ShiftNode(src[c], |nodes|)
  {
    var n1 := AppendCopy(nodes, src);
    assert n1[t] == nodes[t];
    assert CopiedAt(n1, |nodes|, src, c);
    var node := n1[t].(paramChild := Some(|nodes| + c));
    assert EdgesForward(n1[t], t, |n1|);
    ReplaceNode(n1, t, node);
    n1[t := node]
  }

  /** The position of the first route of `source` whose method `target`
      already has, or `|source|` when there is none. */
  function FirstConflict(target: seq<(string, RouteEntry)>, source: seq<(string, RouteEntry)>): (j: nat)
    ensures j <= |source|
    ensures forall i :: 0 <= i < j ==> Lookup(target, source[i].0).None?
    ensures j < |source| ==> Lookup(target, source[j].0).Some?
  {
    if |source| == 0 then 0
    else if Lookup(target, source[0].0).Some? then 0
    else 1 + FirstConflict(target, source[1..])
  }

  /** The routes loop of `mergeNodes`: the routes of the source are added
      in order up to the first method the target already has, which stops
      the loop with a conflict; the routes before it stay added. Without a
      conflict the result is the target's routes followed by the source's. */
  function MergeRoutes(target: seq<(string, RouteEntry)>, source: seq<(string, RouteEntry)>): (r: (seq<(string, RouteEntry)>, Option<Exception>))
    requires UniqueKeys(target) && UniqueKeys(source)
    ensures UniqueKeys(r.0)
    ensures r.0 == target + source[..FirstConflict(target, source)]
    ensures r.1.None? <==> FirstConflict(target, source) == |source|
    ensures r.1.Some? ==> r.1 == Some(RouteConflict(source[FirstConflict(target, source)].0))
    decreases |source|
  {
    if |source| == 0 then (target, None)
    else
      var m := source[0].0;
      if Lookup(target, m).Some? then (target, Some(RouteConflict(m)))
      else
        StoreNew(target, m, source[0].1);
        UniqueTail(source);
        var rest := MergeRoutes(Store(target, m, source[0].1), source[1..]);
        RoutesStep(target, source, rest);
        rest
  }

  /** The first turn of the routes loop: a bound method stops it with a
      conflict, a new one is added and the loop goes on with the rest. */
  lemma MergeRoutesFirst(target: seq<(string, RouteEntry)>, source: seq<(string, RouteEntry)>)
    requires UniqueKeys(target) && UniqueKeys(source) && |source| > 0
    ensures Lookup(target, source[0].0).Some? ==> MergeRoutes(target, source) == (target, Some(RouteConflict(source[0].0)))
    ensures Lookup(target, source[0].0).None? ==>
              UniqueKeys(Store(target, source[0].0, source[0].1)) && UniqueKeys(source[1..])
              && MergeRoutes(target, source) == MergeRoutes(Store(target, source[0].0, source[0].1), source[1..])
  {
    if Lookup(target, source[0].0).None? {
      StoreNew(target, source[0].0, source[0].1);
      UniqueTail(source);
    }
  }

  /** The routes loop after its first turn, stated for the whole loop. */
  lemma RoutesStep(target: seq<(string, RouteEntry)>, source: seq<(string, RouteEntry)>,
                   rest: (seq<(string, RouteEntry)>, Option<Exception>))
    requires UniqueKeys(source) && |source| > 0 && Lookup(target, source[0].0).None?
    requires var grown := Store(target, source[0].0, source[0].1);
             var j := FirstConflict(grown, source[1..]);
             rest.0 == grown + source[1..][..j]
             && (rest.1.None? <==> j == |source[1..]|)
             && (rest.1.Some? ==> rest.1 == Some(RouteConflict(source[1..][j].0)))
    ensures rest.0 == target + source[..FirstConflict(target, source)]
    ensures rest.1.None? <==> FirstConflict(target, source) == |source|
    ensures rest.1.Some? ==> rest.1 == Some(RouteConflict(source[FirstConflict(target, source)].0))
  {
    var grown := Store(target, source[0].0, source[0].1);
    StoreAppends(target, source[0].0, source[0].1);
    assert grown == target + [source[0]];
    var j := FirstConflict(grown, source[1..]);
    var whole := FirstConflict(target, source);
    ConflictStep(target, source);
    assert j + 1 == whole;
    assert rest.0 == target + source[..whole];
    if rest.1.Some? {
      assert source[1..][j] == source[whole];
    }
  }

  /** Adding the first source route moves the first conflict by one. */
  lemma ConflictStep(target: seq<(string, RouteEntry)>, source: seq<(string, RouteEntry)>)
    requires UniqueKeys(source) && |source| > 0 && Lookup(target, source[0].0).None?
    ensures FirstConflict(target + [source[0]], source[1..]) + 1 == FirstConflict(target, source)
    ensures (target + [source[0]]) + source[1..][..FirstConflict(target, source) - 1]
            == target + source[..FirstConflict(target, source)]
  {
    NoneAfterFirst(target, source);
    SameConflict(target + [source[0]], target, source[1..]);
    SplitFirst(target, source, FirstConflict(target, source) - 1);
  }

  lemma SplitFirst(target: seq<(string, RouteEntry)>, source: seq<(string, RouteEntry)>, j: nat)
    requires j < |source|
    ensures (target + [source[0]]) + source[1..][..j] == target + source[..j + 1]
  {
    assert source[..j + 1] == [source[0]] + source[1..][..j];
  }

  /** The first conflict depends only on which source methods are bound. */
  lemma {:induction false} SameConflict(a: seq<(string, RouteEntry)>, b: seq<(string, RouteEntry)>, source: seq<(string, RouteEntry)>)
    requires forall i :: 0 <= i < |source| ==> Lookup(a, source[i].0) == Lookup(b, source[i].0)
    ensures FirstConflict(a, source) == FirstConflict(b, source)
  {
    if |source| > 0 {
      SameConflict(a, b, source[1..]);
    }
  }

  /** After the first source route is added, a later source method is bound
      in the grown target exactly when it was bound in the target. */
  lemma NoneAfterFirst(target: seq<(string, RouteEntry)>, source: seq<(string, RouteEntry)>)
    requires UniqueKeys(source) && |source| > 0 && Lookup(target, source[0].0).None?
    ensures forall i :: 0 <= i < |source[1..]| ==>
              Lookup(target + [source[0]], source[1..][i].0) == Lookup(target, source[1..][i].0)
  {
    forall i | 0 <= i < |source[1..]|
      ensures Lookup(target + [source[0]], source[1..][i].0) == Lookup(target, source[1..][i].0)
    {
      assert Apart(source, 0, i + 1);
      LookupAppend(target, source[0], source[i + 1].0);
    }
  }

  lemma {:induction false} LookupAppend<V>(m: seq<(string, V)>, entry: (string, V), k: string)
    requires k != entry.0
    ensures Lookup(m + [entry], k) == Lookup(m, k)
  {
    if |m| > 0 {
      assert (m + [entry])[1..] == m[1..] + [entry];
      LookupAppend(m[1..], entry, k);
    }
  }

  /** Every static edge of `a` is an edge of `b`. */
  ghost predicate KeepsChildren(a: Node, b: Node) {
    forall seg :: Lookup(a.children, seg).Some? ==> Lookup(b.children, seg) == Lookup(a.children, seg)
  }

  lemma KeepsChildrenTransitive(a: Node, b: Node, c: Node)
    requires KeepsChildren(a, b) && KeepsChildren(b, c)
    ensures KeepsChildren(a, c)
  {
  }

  /** A static child of a node comes after it. */
  lemma ChildAfter(nodes: seq<Node>, t: Handle, seg: string)
    requires WellFormed(nodes) && t < |nodes| && Lookup(nodes[t].children, seg).Some?
    ensures t < Lookup(nodes[t].children, seg).value < |nodes|
  {
    assert EdgesForward(nodes[t], t, |nodes|);
    var i :| 0 <= i < |nodes[t].children| && nodes[t].children[i] == (seg, Lookup(nodes[t].children, seg).value);
  }

  /** `mergeNodes(target, source)` for target node `t` of this arena and
      source node `s` of the mounted arena `src`: the arena afterwards and
      the exception thrown, if any. Middlewares are appended first, then
      the routes are merged; the merge is not atomic, so when a method
      conflicts the middlewares and the routes before it stay merged. */
  function MergeInto(nodes: seq<Node>, t: Handle, src: seq<Node>, s: Handle): (r: (seq<Node>, Option<Exception>))
    requires WellFormed(nodes) && t < |nodes| && WellFormed(src) && s < |src|
    ensures WellFormed(r.0) && |r.0| >= |nodes|
    ensures forall h :: 0 <= h < t ==> r.0[h] == nodes[h]
    ensures r.0[t].middlewares == nodes[t].middlewares + src[s].middlewares
    ensures r.0[t].routes == MergeRoutes(nodes[t].routes, src[s].routes).0
    ensures r.0[t].paramName == nodes[t].paramName
    ensures MergeRoutes(nodes[t].routes, src[s].routes).1.Some? ==>
              r.1 == MergeRoutes(nodes[t].routes, src[s].routes).1
    ensures KeepsChildren(nodes[t], r.0[t])
    ensures nodes[t].paramChild.Some? ==> r.0[t].paramChild == nodes[t].paramChild
    ensures r.1.None? ==>
              (forall i :: 0 <= i < |src[s].children| ==> Lookup(r.0[t].children, src[s].children[i].0).Some?)
              && (src[s].paramChild.Some? ==> r.0[t].paramChild.Some?)
    decreases |src| - s, 2, 0, 0
  {
    var n1 := nodes[t := nodes[t].(middlewares := nodes[t].middlewares + src[s].middlewares)];
    assert EdgesForward(nodes[t], t, |nodes|);
    ReplaceNode(nodes, t, n1[t]);
    var (routes, err) := MergeRoutes(n1[t].routes, src[s].routes);
    var n2 := n1[t := n1[t].(routes := routes)];
    ReplaceNode(n1, t, n2[t]);
    if err.Some? then (n2, err)
    else
      var (n3, err2) := MergeChildren(n2, t, src, s, 0);
      if err2.Some? then (n3, err2)
      else MergeParam(n3, t, src, s)
  }

  /** The children loop of `mergeNodes` from position `k` of the source's
      children; an exception stops the loop. Only the children of `t`
      change at `t`, and the children it had keep their nodes. */
  function MergeChildren(nodes: seq<Node>, t: Handle, src: seq<Node>, s: Handle, k: nat): (r: (seq<Node>, Option<Exception>))
    requires WellFormed(nodes) && t < |nodes| && WellFormed(src) && s < |src| && k <= |src[s].children|
    ensures WellFormed(r.0) && |r.0| >= |nodes|
    ensures forall h :: 0 <= h < t ==> r.0[h] == nodes[h]
    ensures r.0[t] == nodes[t].(children := r.0[t].children)
    ensures KeepsChildren(nodes[t], r.0[t])
    ensures r.1.None? ==>
              forall i :: k <= i < |src[s].children| ==> Lookup(r.0[t].children, src[s].children[i].0).Some?
    decreases |src| - s, 1, |src[s].children| - k, 1
  {
    if k == |src[s].children| then (nodes, None)
    else
      var (n1, e) := MergeChild(nodes, t, src, s, k);
      if e.Some? then (n1, e)
      else
        var r := MergeChildren(n1, t, src, s, k + 1);
        KeepsChildrenTransitive(nodes[t], n1[t], r.0[t]);
        SamePrefix(nodes, n1, r.0, t);
        if r.1.None? then
          Covers(n1[t], r.0[t], src[s].children, k);
          r
        else r
  }

  /** Two merge steps that change no node before `t` and only the children
      at `t` compose into one. */
  lemma SamePrefix(nodes: seq<Node>, n1: seq<Node>, r: seq<Node>, t: Handle)
    requires t < |nodes| <= |n1| <= |r|
    requires forall h :: 0 <= h < t ==> n1[h] == nodes[h]
    requires forall h :: 0 <= h < t ==> r[h] == n1[h]
    requires n1[t] == nodes[t].(children := n1[t].children)
    requires r[t] == n1[t].(children := r[t].children)
    ensures forall h :: 0 <= h < t ==> r[h] == nodes[h]
    ensures r[t] == nodes[t].(children := r[t].children)
  {
  }

  /** A segment present before later steps that keep every edge is still
      present after them. */
  lemma Covers(a: Node, b: Node, segs: seq<(string, Handle)>, k: nat)
    requires k < |segs|
    requires Lookup(a.children, segs[k].0).Some?
    requires KeepsChildren(a, b)
    requires forall i :: k + 1 <= i < |segs| ==> Lookup(b.children, segs[i].0).Some?
    ensures forall i :: k <= i < |segs| ==> Lookup(b.children, segs[i].0).Some?
  {
  }

  /** One turn of the children loop: a segment the target lacks gets a copy
      of the source's subtree, one it has is merged recursively. */
  function MergeChild(nodes: seq<Node>, t: Handle, src: seq<Node>, s: Handle, k: nat): (r: (seq<Node>, Option<Exception>))
    requires WellFormed(nodes) && t < |nodes| && WellFormed(src) && s < |src| && k < |src[s].children|
    ensures WellFormed(r.0) && |r.0| >= |nodes|
    ensures forall h :: 0 <= h < t ==> r.0[h] == nodes[h]
    ensures r.0[t] == nodes[t].(children := r.0[t].children)
    ensures KeepsChildren(nodes[t], r.0[t])
    ensures r.1.None? ==> Lookup(r.0[t].children, src[s].children[k].0).Some?
    decreases |src| - s, 1, |src[s].children| - k, 0
  {
    var (seg, c) := src[s].children[k];
    assert EdgesForward(src[s], s, |src|);
    match Lookup(nodes[t].children, seg)
    case None => (AttachChild(nodes, t, seg, src, c), None)
    case Some(tc) =>
      ChildAfter(nodes, t, seg);
      MergeInto(nodes, tc, src, c)
  }

  /** One turn of the children loop, and the loop after it. */
  lemma MergeChildrenStep(nodes: seq<Node>, t: Handle, src: seq<Node>, s: Handle, k: nat)
    requires WellFormed(nodes) && t < |nodes| && WellFormed(src) && s < |src| && k < |src[s].children|
    ensures MergeChild(nodes, t, src, s, k).1.Some? ==>
              MergeChildren(nodes, t, src, s, k) == MergeChild(nodes, t, src, s, k)
    ensures MergeChild(nodes, t, src, s, k).1.None? ==>
              MergeChildren(nodes, t, src, s, k) == MergeChildren(MergeChild(nodes, t, src, s, k).0, t, src, s, k + 1)
  {
  }

  /** The parameter step of `mergeNodes`: the source's parameter child is
      attached when the target has none and merged into the target's
      otherwise, so the target's parameter name is the one kept. */
  function MergeParam(nodes: seq<Node>, t: Handle, src: seq<Node>, s: Handle): (r: (seq<Node>, Option<Exception>))
    requires WellFormed(nodes) && t < |nodes| && WellFormed(src) && s < |src|
    ensures WellFormed(r.0) && |r.0| >= |nodes|
    ensures forall h :: 0 <= h < t ==> r.0[h] == nodes[h]
    ensures r.0[t] == nodes[t].(paramChild := r.0[t].paramChild)
    ensures nodes[t].paramChild.Some? ==> r.0[t].paramChild == nodes[t].paramChild
    ensures r.1.None? && src[s].paramChild.Some? ==> r.0[t].paramChild.Some?
    decreases |src| - s, 1, 0, 0
  {
    assert EdgesForward(src[s], s, |src|);
    match src[s].paramChild
    case None => (nodes, None)
    case Some(c) =>
      match nodes[t].paramChild
      case None => (AttachParam(nodes, t, src, c), None)
      case Some(tc) =>
        assert EdgesForward(nodes[t], t, |nodes|);
        MergeInto(nodes, tc, src, c)
  }

  /** What `mountRouter(basePath, router)` does, for a router whose arena
      is `src`: the node for the base path is created, then the mounted
      root is merged into it. */
  function Mount(nodes: seq<Node>, basePath: string, src: seq<Node>): (r: (seq<Node>, Option<Exception>))
    requires WellFormed(nodes) && WellFormed(src)
    ensures WellFormed(r.0)
  {
    var (grown, base) := Grow(nodes, 0, Segments(basePath));
    MergeInto(grown, base, src, 0)
  }

  /** Mounting appends the mounted root's middlewares to the base node on
      every outcome; the base node's first method that the mounted root also
      binds makes the mount throw; a mount that succeeds leaves the base
      node with its routes followed by all of the mounted root's. */
  lemma MountAtBase(nodes: seq<Node>, basePath: string, src: seq<Node>)
    requires WellFormed(nodes) && WellFormed(src)
    ensures var g := Grow(nodes, 0, Segments(basePath));
            var r := Mount(nodes, basePath, src);
            r.0[g.1].middlewares == g.0[g.1].middlewares + src[0].middlewares
            && (FirstConflict(g.0[g.1].routes, src[0].routes) < |src[0].routes| ==>
                  r.1 == Some(RouteConflict(src[0].routes[FirstConflict(g.0[g.1].routes, src[0].routes)].0)))
            && (r.1.None? ==> r.0[g.1].routes == g.0[g.1].routes + src[0].routes)
  {
    var g := Grow(nodes, 0, Segments(basePath));
    var m := MergeRoutes(g.0[g.1].routes, src[0].routes);
    assert src[0].routes[..|src[0].routes|] == src[0].routes;
  }

  // ---------------------------------------------------------------------
  // getPathMiddlewareAndHandlers

  /** The `ExecutionResult` of matching a request: `FOUND` with the stack to
      run and the path parameters, `NOT_FOUND`, or `METHOD_NOT_ALLOWED` with
      the methods bound at the path. */
  datatype Resolution =
    | Found(stack: seq<Callable>, params: map<string, string>)
    | NotFound(stack: seq<Callable>)
    | MethodNotAllowed(stack: seq<Callable>, allow: seq<string>)

  /** Where the segment loop stops: at a node, with the middlewares collected
      on the way and the parameters bound, or at a segment nothing matches. */
  datatype Walked =
    | Reached(node: Handle, stack: seq<Callable>, params: map<string, string>)
    | Missed(stack: seq<Callable>)

  /** The segment loop of `getPathMiddlewareAndHandlers` from node `cur`: a
      static child wins over the parameter child, whose name binds the
      segment; each node entered adds its middlewares to the stack. */
  function Walk(nodes: seq<Node>, cur: Handle, segs: seq<string>, stack: seq<Callable>, params: map<string, string>): (r: Walked)
    requires WellFormed(nodes) && cur < |nodes|
    ensures r.Reached? ==> r.node < |nodes|
    ensures stack <= r.stack
    decreases |segs|
  {
    if |segs| == 0 then Reached(cur, stack, params)
    else
      match Lookup(nodes[cur].children, segs[0])
      case Some(next) =>
        ChildAfter(nodes, cur, segs[0]);
        Walk(nodes, next, segs[1..], stack + nodes[next].middlewares, params)
      case None =>
        assert EdgesForward(nodes[cur], cur, |nodes|);
        match nodes[cur].paramChild
        case Some(p) =>
          Walk(nodes, p, segs[1..], stack + nodes[p].middlewares, params[nodes[p].paramName.GetOr("undefined") := segs[0]])
        case None => Missed(stack)
  }

  /** One turn of the segment loop. */
  lemma WalkStep(nodes: seq<Node>, cur: Handle, segs: seq<string>, i: nat, stack: seq<Callable>, params: map<string, string>)
    returns (next: Option<Handle>)
    requires WellFormed(nodes) && cur < |nodes| && i < |segs|
    ensures next == Lookup(nodes[cur].children, segs[i])
    ensures next.Some? ==>
              cur < next.value < |nodes|
              && Walk(nodes, cur, segs[i..], stack, params)
                 == Walk(nodes, next.value, segs[i + 1..], stack + nodes[next.value].middlewares, params)
    ensures next.None? && nodes[cur].paramChild.Some? ==>
              cur < nodes[cur].paramChild.value < |nodes|
              && Walk(nodes, cur, segs[i..], stack, params)
                 == (var p := nodes[cur].paramChild.value;
                     Walk(nodes, p, segs[i + 1..], stack + nodes[p].middlewares,
                          params[nodes[p].paramName.GetOr("undefined") := segs[i]]))
    ensures next.None? && nodes[cur].paramChild.None? ==>
              Walk(nodes, cur, segs[i..], stack, params) == Missed(stack)
  {
    next := Lookup(nodes[cur].children, segs[i]);
    assert segs[i..][0] == segs[i] && segs[i..][1..] == segs[i + 1..];
    assert EdgesForward(nodes[cur], cur, |nodes|);
    if next.Some? {
      ChildAfter(nodes, cur, segs[i]);
    }
  }

  /** `getPathMiddlewareAndHandlers` for the segments of the path and the
      upper-cased method: the root's middlewares always come first; a path
      with routes but none for the method is refused with the methods it
      has; a path without routes is not found. */
  function Resolve(nodes: seq<Node>, segs: seq<string>, verb: string): (r: Resolution)
    requires WellFormed(nodes)
    ensures nodes[0].middlewares <= r.stack
    ensures r.MethodNotAllowed? ==> |r.allow| > 0 && verb !in r.allow
    ensures r.Found? ==> |r.stack| > 0
  {
    match Walk(nodes, 0, segs, nodes[0].middlewares, map[])
    case Missed(stack) => NotFound(stack)
    case Reached(h, stack, params) =>
      var routes := nodes[h].routes;
      if |routes| > 0 && Lookup(routes, verb).None? then MethodNotAllowed(stack, Keys(routes))
      else
        match Lookup(routes, verb)
        case None => NotFound(stack)
        case Some(route) => Found(stack + route.middlewares + [route.handler], params)
  }

  /** Every edge of `a` is an edge of `b`. */
  ghost predicate KeepsEdges(a: seq<Node>, b: seq<Node>) {
    |a| <= |b|
    && forall h :: 0 <= h < |a| ==>
         KeepsChildren(a[h], b[h]) && (a[h].paramChild.Some? ==> b[h].paramChild == a[h].paramChild)
  }

  lemma ExtendsKeepsEdges(a: seq<Node>, b: seq<Node>)
    requires Extends(a, b)
    ensures KeepsEdges(a, b)
  {
  }

  lemma KeepsEdgesTransitive(a: seq<Node>, b: seq<Node>, c: seq<Node>)
    requires KeepsEdges(a, b) && KeepsEdges(b, c)
    ensures KeepsEdges(a, c)
  {
  }

  /** The edge `createRoute` follows for a segment of a route pattern: the
      parameter child for a `:name` segment, the static child otherwise. */
  function Edge(node: Node, seg: string): Option<Handle> {
    if IsParam(seg) then node.paramChild else Lookup(node.children, seg)
  }

  /** An extension keeps every edge a node already has. */
  lemma ExtendsEdge(a: seq<Node>, b: seq<Node>, h: Handle, seg: string)
    requires Extends(a, b) && h < |a| && Edge(a[h], seg).Some?
    ensures Edge(b[h], seg) == Edge(a[h], seg)
  {
  }

  /** From `cur`, the segments of a pattern follow edges of `arena` and end
      at `target`. */
  ghost predicate PatternChain(arena: seq<Node>, cur: Handle, pattern: seq<string>, target: Handle)
    decreases |pattern|
  {
    cur < |arena|
    && if |pattern| == 0 then cur == target
       else Edge(arena[cur], pattern[0]).Some?
            && PatternChain(arena, Edge(arena[cur], pattern[0]).value, pattern[1..], target)
  }

  /** A request's segments fit a pattern: as many of them, and equal at
      every static position; a `:name` position takes any segment. */
  predicate Fits(pattern: seq<string>, request: seq<string>) {
    |request| == |pattern|
    && forall i :: 0 <= i < |pattern| && !IsParam(pattern[i]) ==> request[i] == pattern[i]
  }

  /** Along the pattern's edges from `cur`, no node on which a `:name`
      position starts has a static child named by the request's segment
      there; such a child would be taken instead of the parameter child. */
  ghost predicate Unshadowed(arena: seq<Node>, cur: Handle, pattern: seq<string>, request: seq<string>)
    decreases |pattern|
  {
    cur >= |arena| || |pattern| == 0 || |request| == 0
    || ((IsParam(pattern[0]) ==> Lookup(arena[cur].children, request[0]).None?)
        && match Edge(arena[cur], pattern[0])
           case None => true
           case Some(n) => Unshadowed(arena, n, pattern[1..], request[1..]))
  }

  /** The middlewares of the nodes the pattern's edges enter from `cur`,
      nearest first. */
  function ChainMiddlewares(arena: seq<Node>, cur: Handle, pattern: seq<string>): seq<Callable>
    decreases |pattern|
  {
    if cur >= |arena| || |pattern| == 0 then []
    else
      match Edge(arena[cur], pattern[0])
      case None => []
      case Some(n) => if n < |arena| then arena[n].middlewares + ChainMiddlewares(arena, n, pattern[1..]) else []
  }

  /** Entering `node` for a pattern segment: a `:name` segment binds the
      node's parameter name (`"undefined"` when it has none) to the
      request's segment; a static segment binds nothing. */
  function Bind(node: Node, seg: string, value: string, params: map<string, string>): map<string, string> {
    if IsParam(seg) then params[node.paramName.GetOr("undefined") := value] else params
  }

  /** `params` with the request's segment at each `:name` position of the
      pattern bound, in order, to the name of the parameter node the
      pattern's edge enters there. */
  function ChainParams(arena: seq<Node>, cur: Handle, pattern: seq<string>, request: seq<string>,
                       params: map<string, string>): map<string, string>
    decreases |pattern|
  {
    if cur >= |arena| || |pattern| == 0 || |request| == 0 then params
    else
      match Edge(arena[cur], pattern[0])
      case None => params
      case Some(n) =>
        if n < |arena| then
          ChainParams(arena, n, pattern[1..], request[1..], Bind(arena[n], pattern[0], request[0], params))
        else params
  }

  /** `createRoute` leaves a chain of edges from `cur`, along the pattern,
      to the node it returns. */
  lemma {:induction false} GrowChain(nodes: seq<Node>, cur: Handle, segs: seq<string>)
    requires WellFormed(nodes) && cur < |nodes|
    ensures PatternChain(Grow(nodes, cur, segs).0, cur, segs, Grow(nodes, cur, segs).1)
    decreases |segs|
  {
    if |segs| > 0 {
      var (n1, next) := Descend(nodes, cur, segs[0]);
      FirstEdgeGrown(nodes, cur, segs);
      GrowChain(n1, next, segs[1..]);
    }
  }

  /** The edge `createRoute` follows or makes for the first segment is in
      the arena it finally returns. */
  lemma FirstEdgeGrown(nodes: seq<Node>, cur: Handle, segs: seq<string>)
    requires WellFormed(nodes) && cur < |nodes| && |segs| > 0
    ensures Grow(nodes, cur, segs)
            == Grow(Descend(nodes, cur, segs[0]).0, Descend(nodes, cur, segs[0]).1, segs[1..])
    ensures Edge(Grow(nodes, cur, segs).0[cur], segs[0]) == Some(Descend(nodes, cur, segs[0]).1)
  {
    var (n1, next) := Descend(nodes, cur, segs[0]);
    GrowStep(nodes, cur, segs, 0);
    assert segs[0..] == segs;
    ExtendsEdge(n1, Grow(n1, next, segs[1..]).0, cur, segs[0]);
  }

  /** A chain of edges survives in any arena that keeps the edges. */
  lemma {:induction false} ChainKept(a: seq<Node>, c: seq<Node>, cur: Handle, segs: seq<string>, target: Handle)
    requires PatternChain(a, cur, segs, target) && KeepsEdges(a, c)
    ensures PatternChain(c, cur, segs, target)
    decreases |segs|
  {
    if |segs| > 0 {
      assert KeepsChildren(a[cur], c[cur]);
      ChainKept(a, c, Edge(a[cur], segs[0]).value, segs[1..], target);
    }
  }

  /** A request that fits a pattern, and whose segments at `:name`
      positions name no static child on the way, is walked along the
      pattern's edges: the segment loop reaches the chain's end, its stack
      is the given stack followed by the middlewares of the nodes entered,
      nearest the root first, and each `:name` position binds its node's
      parameter name to the request's segment. */
  lemma {:induction false} WalkFollows(arena: seq<Node>, cur: Handle, pattern: seq<string>, target: Handle,
                                       request: seq<string>, stack: seq<Callable>, params: map<string, string>)
    requires WellFormed(arena) && PatternChain(arena, cur, pattern, target)
    requires Fits(pattern, request) && Unshadowed(arena, cur, pattern, request)
    ensures Walk(arena, cur, request, stack, params)
            == Reached(target, stack + ChainMiddlewares(arena, cur, pattern), ChainParams(arena, cur, pattern, request, params))
    decreases |pattern|
  {
    if |pattern| > 0 {
      var n := Edge(arena[cur], pattern[0]).value;
      var bound := Bind(arena[n], pattern[0], request[0], params);
      EdgeStep(arena, cur, pattern, request, stack, params);
      FitsRest(pattern, request);
      WalkFollows(arena, n, pattern[1..], target, request[1..], stack + arena[n].middlewares, bound);
      assert stack + arena[n].middlewares + ChainMiddlewares(arena, n, pattern[1..])
             == stack + (arena[n].middlewares + ChainMiddlewares(arena, n, pattern[1..]));
    }
  }

  /** One segment of a fitting, unshadowed request is walked along the
      pattern's edge. */
  lemma EdgeStep(arena: seq<Node>, cur: Handle, pattern: seq<string>, request: seq<string>,
                 stack: seq<Callable>, params: map<string, string>)
    requires WellFormed(arena) && cur < |arena| && |pattern| > 0 && Fits(pattern, request)
    requires Edge(arena[cur], pattern[0]).Some?
    requires IsParam(pattern[0]) ==> Lookup(arena[cur].children, request[0]).None?
    ensures var n := Edge(arena[cur], pattern[0]).value;
            n < |arena|
            && Walk(arena, cur, request, stack, params)
               == Walk(arena, n, request[1..], stack + arena[n].middlewares, Bind(arena[n], pattern[0], request[0], params))
  {
    var _ := WalkStep(arena, cur, request, 0, stack, params);
    assert request[0..] == request;
    if !IsParam(pattern[0]) {
      assert request[0] == pattern[0];
    }
  }

  /** What is left of a fitting request fits what is left of the pattern. */
  lemma FitsRest(pattern: seq<string>, request: seq<string>)
    requires Fits(pattern, request) && |pattern| > 0
    ensures Fits(pattern[1..], request[1..])
  {
    assert forall i :: 0 <= i < |pattern| - 1 ==> pattern[1..][i] == pattern[i + 1] && request[1..][i] == request[i + 1];
  }

  /** A pattern without parameters is never shadowed. */
  lemma {:induction false} StaticUnshadowed(arena: seq<Node>, cur: Handle, pattern: seq<string>, request: seq<string>)
    requires forall i :: 0 <= i < |pattern| ==> !IsParam(pattern[i])
    ensures Unshadowed(arena, cur, pattern, request)
    decreases |pattern|
  {
    if cur < |arena| && |pattern| > 0 && |request| > 0 && Edge(arena[cur], pattern[0]).Some? {
      assert forall i :: 0 <= i < |pattern| - 1 ==> pattern[1..][i] == pattern[i + 1];
      StaticUnshadowed(arena, Edge(arena[cur], pattern[0]).value, pattern[1..], request[1..]);
    }
  }

  /** A pattern without parameters binds nothing. */
  lemma {:induction false} StaticBindsNothing(arena: seq<Node>, cur: Handle, pattern: seq<string>, request: seq<string>,
                                              params: map<string, string>)
    requires forall i :: 0 <= i < |pattern| ==> !IsParam(pattern[i])
    ensures ChainParams(arena, cur, pattern, request, params) == params
    decreases |pattern|
  {
    if cur < |arena| && |pattern| > 0 && |request| > 0 && Edge(arena[cur], pattern[0]).Some? {
      assert forall i :: 0 <= i < |pattern| - 1 ==> pattern[1..][i] == pattern[i + 1];
      StaticBindsNothing(arena, Edge(arena[cur], pattern[0]).value, pattern[1..], request[1..], params);
    }
  }

  /** A static child wins over the parameter child: where a node has both,
      a segment naming the static child is walked into it and binds
      nothing. */
  lemma StaticWins(nodes: seq<Node>, cur: Handle, seg: string, rest: seq<string>,
                   stack: seq<Callable>, params: map<string, string>)
    requires WellFormed(nodes) && cur < |nodes|
    requires Lookup(nodes[cur].children, seg).Some? && nodes[cur].paramChild.Some?
    ensures cur < Lookup(nodes[cur].children, seg).value < |nodes|
    ensures var c := Lookup(nodes[cur].children, seg).value;
            Walk(nodes, cur, [seg] + rest, stack, params) == Walk(nodes, c, rest, stack + nodes[c].middlewares, params)
  {
    var segs := [seg] + rest;
    assert segs[0] == seg && segs[1..] == rest;
    ChildAfter(nodes, cur, seg);
  }

  /** Walking a request that fits a pattern, through any arena that keeps
      the edges `createRoute` made for the pattern, follows them to the node
      `createRoute` returned. */
  lemma WalkGrown(nodes: seq<Node>, cur: Handle, pattern: seq<string>, request: seq<string>, final: seq<Node>,
                  stack: seq<Callable>, params: map<string, string>)
    requires WellFormed(nodes) && cur < |nodes| && WellFormed(final)
    requires KeepsEdges(Grow(nodes, cur, pattern).0, final)
    requires Fits(pattern, request) && Unshadowed(final, cur, pattern, request)
    ensures Walk(final, cur, request, stack, params)
            == Reached(Grow(nodes, cur, pattern).1, stack + ChainMiddlewares(final, cur, pattern),
                       ChainParams(final, cur, pattern, request, params))
  {
    var (grown, target) := Grow(nodes, cur, pattern);
    GrowChain(nodes, cur, pattern);
    ChainKept(grown, final, cur, pattern, target);
    WalkFollows(final, cur, pattern, target, request, stack, params);
  }

  /** Binding a route changes no edge. */
  lemma RegisterAtKeepsEdges(nodes: seq<Node>, h: Handle, path: string, verb: Verb, args: seq<Callable>)
    requires WellFormed(nodes) && h < |nodes| && |args| > 0
    ensures KeepsEdges(nodes, RegisterAt(nodes, h, path, verb, args).0)
  {
    var r := RegisterAt(nodes, h, path, verb, args).0;
    forall g | 0 <= g < |nodes|
      ensures KeepsChildren(nodes[g], r[g])
    {
      if g == h {
        assert r[g].children == nodes[g].children;
      }
    }
  }

  /** When the walk reaches a node where `verb` is bound to `e`, the request
      is found with the route's middlewares and handler after the walk's
      stack; with any other method it is found or refused listing `verb`. */
  lemma ResolveBound(nodes: seq<Node>, segs: seq<string>, verb: string, e: RouteEntry, other: string)
    requires WellFormed(nodes)
    requires Walk(nodes, 0, segs, nodes[0].middlewares, map[]).Reached?
    requires Lookup(nodes[Walk(nodes, 0, segs, nodes[0].middlewares, map[]).node].routes, verb) == Some(e)
    ensures Resolve(nodes, segs, verb).Found?
    ensures Resolve(nodes, segs, verb).stack == Walk(nodes, 0, segs, nodes[0].middlewares, map[]).stack + e.middlewares + [e.handler]
    ensures Resolve(nodes, segs, other).Found?
            || (Resolve(nodes, segs, other).MethodNotAllowed? && verb in Resolve(nodes, segs, other).allow)
  {
  }

  /** After a registration that succeeds, a request that fits the path's
      pattern and is not shadowed by a static child is walked along the
      edges `createRoute` made to the registered node, which holds the new
      route. */
  lemma RegisteredReached(nodes: seq<Node>, path: string, verb: Verb, args: seq<Callable>, request: seq<string>)
    requires WellFormed(nodes) && Register(nodes, path, verb, args).1.None?
    requires Fits(Segments(path), request) && Unshadowed(Register(nodes, path, verb, args).0, 0, Segments(path), request)
    ensures var final := Register(nodes, path, verb, args).0;
            var w := Walk(final, 0, request, final[0].middlewares, map[]);
            w == Reached(Grow(nodes, 0, Segments(path)).1,
                         final[0].middlewares + ChainMiddlewares(final, 0, Segments(path)),
                         ChainParams(final, 0, Segments(path), request, map[]))
            && Lookup(final[w.node].routes, VerbName(verb)) == Some(RouteEntry(args[..|args| - 1], args[|args| - 1]))
  {
    var g := Grow(nodes, 0, Segments(path));
    var final := Register(nodes, path, verb, args).0;
    assert final == RegisterAt(g.0, g.1, path, verb, args).0;
    RegisterAtKeepsEdges(g.0, g.1, path, verb, args);
    WalkGrown(nodes, 0, Segments(path), request, final, final[0].middlewares, map[]);
  }

  /** `/users/:id` answered for `/users/42`: after a registration that
      succeeds, a request that fits the path's pattern and is not shadowed
      by a static child is found, with the root's middlewares, those of the
      nodes on the way, and the registration's arguments as its stack, and
      each `:name` position's segment bound to the name of the parameter
      node there. */
  lemma RegisteredMatches(nodes: seq<Node>, path: string, verb: Verb, args: seq<Callable>, request: seq<string>)
    requires WellFormed(nodes) && Register(nodes, path, verb, args).1.None?
    requires Fits(Segments(path), request) && Unshadowed(Register(nodes, path, verb, args).0, 0, Segments(path), request)
    ensures var final := Register(nodes, path, verb, args).0;
            Resolve(final, request, VerbName(verb))
            == Found(final[0].middlewares + ChainMiddlewares(final, 0, Segments(path)) + args,
                     ChainParams(final, 0, Segments(path), request, map[]))
  {
    var final := Register(nodes, path, verb, args).0;
    RegisteredReached(nodes, path, verb, args, request);
    FoundWith(final, request, VerbName(verb), args);
  }

  /** A walk that reaches a node binding `verb` to the entry built from
      `args` resolves to the walk's stack followed by `args`, with the
      walk's parameters. */
  lemma FoundWith(nodes: seq<Node>, segs: seq<string>, verb: string, args: seq<Callable>)
    requires WellFormed(nodes) && |args| > 0
    requires Walk(nodes, 0, segs, nodes[0].middlewares, map[]).Reached?
    requires Lookup(nodes[Walk(nodes, 0, segs, nodes[0].middlewares, map[]).node].routes, verb)
             == Some(RouteEntry(args[..|args| - 1], args[|args| - 1]))
    ensures var w := Walk(nodes, 0, segs, nodes[0].middlewares, map[]);
            Resolve(nodes, segs, verb) == Found(w.stack + args, w.params)
  {
    var e := RouteEntry(args[..|args| - 1], args[|args| - 1]);
    var w := Walk(nodes, 0, segs, nodes[0].middlewares, map[]);
    assert Resolve(nodes, segs, verb) == Found(w.stack + e.middlewares + [e.handler], w.params);
    assert args[..|args| - 1] + [args[|args| - 1]] == args;
    assert w.stack + e.middlewares + [e.handler] == w.stack + args;
  }

  /** A route registered on a path without parameters is found by a request
      for that path and method, binds no parameter, and its middlewares and
      handler run last; a request for the same path with another method
      finds that method's route or is refused with the registered method
      among those allowed. */
  lemma RegisteredResolves(nodes: seq<Node>, path: string, verb: Verb, args: seq<Callable>, other: string)
    requires WellFormed(nodes) && Register(nodes, path, verb, args).1.None?
    requires forall i :: 0 <= i < |Segments(path)| ==> !IsParam(Segments(path)[i])
    ensures Resolve(Register(nodes, path, verb, args).0, Segments(path), VerbName(verb)).Found?
    ensures Resolve(Register(nodes, path, verb, args).0, Segments(path), VerbName(verb)).params == map[]
    ensures var s := Resolve(Register(nodes, path, verb, args).0, Segments(path), VerbName(verb)).stack;
            |args| <= |s| && s[|s| - |args|..] == args
    ensures var r := Resolve(Register(nodes, path, verb, args).0, Segments(path), other);
            r.Found? || (r.MethodNotAllowed? && VerbName(verb) in r.allow)
  {
    StaticRegistered(nodes, path, verb, args);
    RegisteredFound(nodes, path, verb, args);
    RegisteredOther(nodes, path, verb, args, other);
  }

  /** The path of a registration without parameters fits itself and is
      never shadowed. */
  lemma StaticRegistered(nodes: seq<Node>, path: string, verb: Verb, args: seq<Callable>)
    requires WellFormed(nodes) && Register(nodes, path, verb, args).1.None?
    requires forall i :: 0 <= i < |Segments(path)| ==> !IsParam(Segments(path)[i])
    ensures Fits(Segments(path), Segments(path))
    ensures Unshadowed(Register(nodes, path, verb, args).0, 0, Segments(path), Segments(path))
    ensures ChainParams(Register(nodes, path, verb, args).0, 0, Segments(path), Segments(path), map[]) == map[]
  {
    var final := Register(nodes, path, verb, args).0;
    StaticUnshadowed(final, 0, Segments(path), Segments(path));
    StaticBindsNothing(final, 0, Segments(path), Segments(path), map[]);
  }

  lemma RegisteredFound(nodes: seq<Node>, path: string, verb: Verb, args: seq<Callable>)
    requires WellFormed(nodes) && Register(nodes, path, verb, args).1.None?
    requires Fits(Segments(path), Segments(path))
    requires Unshadowed(Register(nodes, path, verb, args).0, 0, Segments(path), Segments(path))
    requires ChainParams(Register(nodes, path, verb, args).0, 0, Segments(path), Segments(path), map[]) == map[]
    ensures var r := Resolve(Register(nodes, path, verb, args).0, Segments(path), VerbName(verb));
            r.Found? && r.params == map[] && |args| <= |r.stack| && r.stack[|r.stack| - |args|..] == args
  {
    var final := Register(nodes, path, verb, args).0;
    RegisteredMatches(nodes, path, verb, args, Segments(path));
    EndsWith(final[0].middlewares + ChainMiddlewares(final, 0, Segments(path)), args);
  }

  lemma RegisteredOther(nodes: seq<Node>, path: string, verb: Verb, args: seq<Callable>, other: string)
    requires WellFormed(nodes) && Register(nodes, path, verb, args).1.None?
    requires Fits(Segments(path), Segments(path))
    requires Unshadowed(Register(nodes, path, verb, args).0, 0, Segments(path), Segments(path))
    ensures var r := Resolve(Register(nodes, path, verb, args).0, Segments(path), other);
            r.Found? || (r.MethodNotAllowed? && VerbName(verb) in r.allow)
  {
    var final := Register(nodes, path, verb, args).0;
    RegisteredReached(nodes, path, verb, args, Segments(path));
    ResolveBound(final, Segments(path), VerbName(verb), RouteEntry(args[..|args| - 1], args[|args| - 1]), other);
  }

  /** A stack followed by the arguments ends with them. */
  lemma EndsWith(stack: seq<Callable>, args: seq<Callable>)
    ensures var s := stack + args;
            |args| <= |s| && s[|s| - |args|..] == args
  {
  }

  /** A node `createRoute` has just made: no edge, no middleware, no
      route. */
  predicate Leaf(n: Node) {
    n.children == [] && n.paramChild.None? && n.middlewares == [] && n.routes == []
  }

  /** From `cur`, the pattern's edges lead through nodes without
      middlewares; a node a `:name` edge leaves has no static child, and
      the node it enters is named after the segment. */
  ghost predicate Fresh(arena: seq<Node>, cur: Handle, pattern: seq<string>)
    decreases |pattern|
  {
    cur < |arena| && arena[cur].middlewares == []
    && (|pattern| > 0 ==>
          Edge(arena[cur], pattern[0]).Some? && Edge(arena[cur], pattern[0]).value < |arena|
          && (IsParam(pattern[0]) ==>
                arena[cur].children == [] && arena[Edge(arena[cur], pattern[0]).value].paramName == Some(pattern[0][1..]))
          && Fresh(arena, Edge(arena[cur], pattern[0]).value, pattern[1..]))
  }

  /** `params` with the request's segment at each `:name` position bound,
      in order, to the segment's name without its colon; a later position
      with the same name overwrites an earlier one. */
  function Bindings(pattern: seq<string>, request: seq<string>, params: map<string, string>): map<string, string>
    decreases |pattern|
  {
    if |pattern| == 0 || |request| == 0 then params
    else Bindings(pattern[1..], request[1..], if IsParam(pattern[0]) then params[pattern[0][1..] := request[0]] else params)
  }

  /** No `:name` position of the pattern carries `key`. */
  ghost predicate Unnamed(pattern: seq<string>, key: string) {
    forall j :: 0 <= j < |pattern| && IsParam(pattern[j]) ==> pattern[j][1..] != key
  }

  /** A name no position of the pattern carries keeps its value. */
  lemma {:induction false} BindingsKeep(pattern: seq<string>, request: seq<string>, params: map<string, string>, key: string)
    requires Unnamed(pattern, key)
    ensures key in Bindings(pattern, request, params) <==> key in params
    ensures key in params ==> Bindings(pattern, request, params)[key] == params[key]
    decreases |pattern|
  {
    if |pattern| > 0 && |request| > 0 {
      assert forall j :: 0 <= j < |pattern| - 1 ==> pattern[1..][j] == pattern[j + 1];
      assert IsParam(pattern[0]) ==> pattern[0][1..] != key;
      var p := if IsParam(pattern[0]) then params[pattern[0][1..] := request[0]] else params;
      BindingsKeep(pattern[1..], request[1..], p, key);
    }
  }

  /** The `:name` at position `i`, when no later position reuses the name,
      is bound to the request's segment at `i`. */
  lemma {:induction false} BindingsAt(pattern: seq<string>, request: seq<string>, params: map<string, string>, i: nat)
    requires |request| == |pattern| && i < |pattern| && IsParam(pattern[i])
    requires Unnamed(pattern[i + 1..], pattern[i][1..])
    ensures pattern[i][1..] in Bindings(pattern, request, params)
    ensures Bindings(pattern, request, params)[pattern[i][1..]] == request[i]
    decreases |pattern|
  {
    var p := if IsParam(pattern[0]) then params[pattern[0][1..] := request[0]] else params;
    if i == 0 {
      assert pattern[1..] == pattern[i + 1..];
      BindingsKeep(pattern[1..], request[1..], p, pattern[0][1..]);
    } else {
      assert pattern[1..][i - 1] == pattern[i] && request[1..][i - 1] == request[i];
      assert pattern[1..][i - 1 + 1..] == pattern[i + 1..];
      BindingsAt(pattern[1..], request[1..], p, i - 1);
    }
  }

  /** One step of `createRoute` from the last node of the arena, a leaf:
      the new node is appended as a leaf, and only `cur` changes, by the
      one edge. */
  lemma DescendFresh(nodes: seq<Node>, cur: Handle, seg: string)
    requires WellFormed(nodes) && cur == |nodes| - 1 && Leaf(nodes[cur])
    ensures var (n1, next) := Descend(nodes, cur, seg);
            next == |nodes| && |n1| == |nodes| + 1 && Leaf(n1[next])
            && (forall h :: 0 <= h < cur ==> n1[h] == nodes[h])
            && n1[cur].middlewares == [] && Edge(n1[cur], seg) == Some(next)
            && (IsParam(seg) ==> n1[cur].children == [] && n1[next].paramName == Some(seg[1..]))
  {
  }

  /** `createRoute` from the last node of the arena, a leaf, makes a fresh
      chain for the pattern, ending at a node without routes, and keeps the
      nodes before `cur`. */
  lemma {:induction false} GrowFresh(nodes: seq<Node>, cur: Handle, pattern: seq<string>)
    requires WellFormed(nodes) && cur == |nodes| - 1 && Leaf(nodes[cur])
    ensures var (g, target) := Grow(nodes, cur, pattern);
            Fresh(g, cur, pattern) && g[target].routes == [] && (forall h :: 0 <= h < cur ==> g[h] == nodes[h])
    decreases |pattern|
  {
    if |pattern| > 0 {
      var (n1, next) := Descend(nodes, cur, pattern[0]);
      DescendFresh(nodes, cur, pattern[0]);
      FirstEdgeGrown(nodes, cur, pattern);
      GrowFresh(n1, next, pattern[1..]);
      var g := Grow(n1, next, pattern[1..]).0;
      assert g[cur] == n1[cur];
      assert Extends(n1, g);
      assert g[next].paramName == n1[next].paramName;
    }
  }

  /** Arenas that differ only in routes have the same fresh chains. */
  lemma {:induction false} FreshRoutesOnly(a: seq<Node>, b: seq<Node>, cur: Handle, pattern: seq<string>)
    requires |a| == |b| && forall h :: 0 <= h < |a| ==> b[h] == a[h].(routes := b[h].routes)
    requires Fresh(a, cur, pattern)
    ensures Fresh(b, cur, pattern)
    decreases |pattern|
  {
    if |pattern| > 0 {
      assert b[cur] == a[cur].(routes := b[cur].routes);
      var n := Edge(a[cur], pattern[0]).value;
      assert b[n] == a[n].(routes := b[n].routes);
      FreshRoutesOnly(a, b, n, pattern[1..]);
    }
  }

  /** Along a fresh chain nothing is shadowed, no middleware is collected,
      and every `:name` is bound under its own name. */
  lemma {:induction false} FreshWalk(arena: seq<Node>, cur: Handle, pattern: seq<string>, request: seq<string>,
                                     params: map<string, string>)
    requires Fresh(arena, cur, pattern) && |request| == |pattern|
    ensures Unshadowed(arena, cur, pattern, request)
    ensures ChainMiddlewares(arena, cur, pattern) == []
    ensures ChainParams(arena, cur, pattern, request, params) == Bindings(pattern, request, params)
    decreases |pattern|
  {
    if |pattern| > 0 {
      var n := Edge(arena[cur], pattern[0]).value;
      FreshWalk(arena, n, pattern[1..], request[1..], Bind(arena[n], pattern[0], request[0], params));
    }
  }

  /** Registering a route with a handler on a new router succeeds and
      leaves a fresh chain for the path. */
  lemma FreshRegistered(path: string, verb: Verb, args: seq<Callable>)
    requires |args| > 0 && args[|args| - 1].Fn?
    ensures WellFormed([EmptyNode]) && Register([EmptyNode], path, verb, args).1.None?
    ensures Fresh(Register([EmptyNode], path, verb, args).0, 0, Segments(path))
  {
    var nodes := [EmptyNode];
    assert EdgesForward(nodes[0], 0, 1);
    var segs := Segments(path);
    var g := Grow(nodes, 0, segs).0;
    var target := Grow(nodes, 0, segs).1;
    GrowFresh(nodes, 0, segs);
    var r := RegisterAt(g, target, path, verb, args);
    assert r.1.None?;
    forall h | 0 <= h < |g|
      ensures r.0[h] == g[h].(routes := r.0[h].routes)
    {
      if h != target {
        assert r.0[h] == g[h];
      }
    }
    FreshRoutesOnly(g, r.0, 0, segs);
  }

  /** `/users/:id` on a new router, answered for `/users/42`: registering a
      route succeeds, and a request that fits the path finds exactly the
      registration's middlewares and handler, with each `:name` bound to
      the request's segment at its position. */
  lemma NewRouterParams(path: string, verb: Verb, args: seq<Callable>, request: seq<string>)
    requires |args| > 0 && args[|args| - 1].Fn? && Fits(Segments(path), request)
    ensures WellFormed([EmptyNode]) && Register([EmptyNode], path, verb, args).1.None?
    ensures Resolve(Register([EmptyNode], path, verb, args).0, request, VerbName(verb))
            == Found(args, Bindings(Segments(path), request, map[]))
  {
    FreshRegistered(path, verb, args);
    var final := Register([EmptyNode], path, verb, args).0;
    FreshWalk(final, 0, Segments(path), request, map[]);
    RegisteredMatches([EmptyNode], path, verb, args, request);
    assert final[0].middlewares + ChainMiddlewares(final, 0, Segments(path)) + args == args;
  }

  // ---------------------------------------------------------------------
  // Routes of a mounted router under the base path

  /** Every method `a` binds, `b` binds. */
  ghost predicate KeepsRoutes(a: Node, b: Node) {
    forall m :: Lookup(a.routes, m).Some? ==> Lookup(b.routes, m).Some?
  }

  /** `b` is node `a` after merge steps: its edges and its methods are
      kept. */
  ghost predicate Kept(a: Node, b: Node) {
    KeepsChildren(a, b) && (a.paramChild.Some? ==> b.paramChild == a.paramChild) && KeepsRoutes(a, b)
  }

  /** `b` is arena `a` after merge steps: no node is lost and every node
      is kept. */
  ghost predicate Grows(a: seq<Node>, b: seq<Node>) {
    |a| <= |b| && forall h {:trigger Kept(a[h], b[h])} :: 0 <= h < |a| ==> Kept(a[h], b[h])
  }

  lemma GrowsTransitive(a: seq<Node>, b: seq<Node>, c: seq<Node>)
    requires Grows(a, b) && Grows(b, c)
    ensures Grows(a, c)
  {
    forall h | 0 <= h < |a|
      ensures Kept(a[h], c[h])
    {
      assert Kept(a[h], b[h]) && Kept(b[h], c[h]);
    }
  }

  lemma GrowsKeepsEdges(a: seq<Node>, b: seq<Node>)
    requires Grows(a, b)
    ensures KeepsEdges(a, b)
  {
    forall h | 0 <= h < |a|
      ensures KeepsChildren(a[h], b[h]) && (a[h].paramChild.Some? ==> b[h].paramChild == a[h].paramChild)
    {
      assert Kept(a[h], b[h]);
    }
  }

  /** Arenas that are equal except at `t`, where the node is kept. */
  lemma GrowsAt(a: seq<Node>, b: seq<Node>, t: Handle)
    requires t < |a| <= |b| && Kept(a[t], b[t])
    requires forall h :: 0 <= h < |a| && h != t ==> b[h] == a[h]
    ensures Grows(a, b)
  {
    forall h | 0 <= h < |a|
      ensures Kept(a[h], b[h])
    {
      if h != t {
        assert b[h] == a[h];
      }
    }
  }

  /** The key at position `i` of a map finds its own value. */
  lemma {:induction false} LookupAt<V>(m: seq<(string, V)>, i: nat)
    requires UniqueKeys(m) && i < |m|
    ensures Lookup(m, m[i].0) == Some(m[i].1)
  {
    if i > 0 {
      assert m[1..][i - 1] == m[i];
      assert Apart(m, 0, i);
      UniqueTail(m);
      LookupAt(m[1..], i - 1);
    }
  }

  /** The methods of the target and of the source are all bound once the
      source's are appended. */
  lemma RoutesJoined(x: seq<(string, RouteEntry)>, y: seq<(string, RouteEntry)>)
    ensures forall m :: Lookup(x, m).Some? ==> Lookup(x + y, m).Some?
    ensures forall m :: Lookup(y, m).Some? ==> Lookup(x + y, m).Some?
  {
    forall m | Lookup(x, m).Some?
      ensures Lookup(x + y, m).Some?
    {
      var i :| 0 <= i < |x| && x[i] == (m, Lookup(x, m).value);
      assert Keys(x + y)[i] == m;
    }
    forall m | Lookup(y, m).Some?
      ensures Lookup(x + y, m).Some?
    {
      var i :| 0 <= i < |y| && y[i] == (m, Lookup(y, m).value);
      assert Keys(x + y)[|x| + i] == m;
    }
  }

  /** Node `t` of `arena` covers node `s` of the mounted arena `src`: it
      binds every method `s` binds, and every static child of `s` has a
      static child of `t` under the same segment covering it. */
  ghost predicate Covered(arena: seq<Node>, t: int, src: seq<Node>, s: int)
    decreases |src| - s, 1
  {
    0 <= t < |arena| && 0 <= s < |src| && KeepsRoutes(src[s], arena[t])
    && forall i {:trigger ChildCovered(arena, t, src, s, i)} :: 0 <= i < |src[s].children| ==> ChildCovered(arena, t, src, s, i)
  }

  /** The `i`th static child of `s` is covered by the child of `t` under
      the same segment. */
  ghost predicate ChildCovered(arena: seq<Node>, t: int, src: seq<Node>, s: int, i: int)
    decreases |src| - s, 0
  {
    0 <= t < |arena| && 0 <= s < |src| && 0 <= i < |src[s].children|
    && s < src[s].children[i].1 < |src|
    && Lookup(arena[t].children, src[s].children[i].0).Some?
    && Covered(arena, Lookup(arena[t].children, src[s].children[i].0).value, src, src[s].children[i].1)
  }

  /** Covering survives later merge steps. */
  lemma {:induction false} CoveredGrows(a: seq<Node>, b: seq<Node>, t: Handle, src: seq<Node>, s: Handle)
    requires Grows(a, b) && Covered(a, t, src, s)
    ensures Covered(b, t, src, s)
    decreases |src| - s
  {
    assert Kept(a[t], b[t]);
    forall i | 0 <= i < |src[s].children|
      ensures ChildCovered(b, t, src, s, i)
    {
      assert ChildCovered(a, t, src, s, i);
      var y := Lookup(a[t].children, src[s].children[i].0).value;
      CoveredGrows(a, b, y, src, src[s].children[i].1);
    }
  }

  lemma ChildCoveredGrows(a: seq<Node>, b: seq<Node>, t: Handle, src: seq<Node>, s: Handle, i: nat)
    requires Grows(a, b) && ChildCovered(a, t, src, s, i)
    ensures ChildCovered(b, t, src, s, i)
  {
    var y := Lookup(a[t].children, src[s].children[i].0).value;
    assert Kept(a[t], b[t]);
    CoveredGrows(a, b, y, src, src[s].children[i].1);
  }

  /** The copy of the mounted arena covers it, node for node. */
  lemma {:induction false} CopyCovered(r: seq<Node>, off: nat, src: seq<Node>, c: Handle)
    requires WellFormed(src) && c < |src|
    requires Copied(r, off, src)
    ensures Covered(r, off + c, src, c)
    decreases |src| - c, 1
  {
    var copy: Handle := off + c;
    assert CopiedAt(r, off, src, c);
    assert r[copy].routes == src[c].routes;
    assert KeepsRoutes(src[c], r[copy]);
    forall i | 0 <= i < |src[c].children|
      ensures ChildCovered(r, copy, src, c, i)
    {
      ChildCopyCovered(r, off, src, c, i);
    }
    assert Covered(r, copy, src, c);
  }

  lemma {:induction false} ChildCopyCovered(r: seq<Node>, off: nat, src: seq<Node>, c: Handle, i: nat)
    requires WellFormed(src) && c < |src| && i < |src[c].children|
    requires Copied(r, off, src)
    ensures ChildCovered(r, off + c, src, c, i)
    decreases |src| - c, 0
  {
    assert EdgesForward(src[c], c, |src|);
    var d := src[c].children[i].1;
    var copy: Handle := off + c;
    assert CopiedAt(r, off, src, c);
    ShiftLookup(src, c, off, i);
    CopyCovered(r, off, src, d);
    ChildCoveredIntro(r, copy, src, c, i, off + d);
  }

  /** In the moved copy of a node, each segment still leads to the moved
      copy of its child. */
  lemma ShiftLookup(src: seq<Node>, c: Handle, off: nat, i: nat)
    requires WellFormed(src) && c < |src| && i < |src[c].children|
    ensures Lookup(ShiftNode(src[c], off).children, src[c].children[i].0) == Some(src[c].children[i].1 + off)
  {
    ShiftedNode(src, c, off);
    LookupAt(ShiftNode(src[c], off).children, i);
  }

  /** A successful `mergeNodes(target, source)` leaves the target covering
      the source; every outcome only grows the arena. */
  lemma {:induction false} MergeIntoCovers(nodes: seq<Node>, t: Handle, src: seq<Node>, s: Handle)
    requires WellFormed(nodes) && t < |nodes| && WellFormed(src) && s < |src|
    ensures Grows(nodes, MergeInto(nodes, t, src, s).0)
    ensures MergeInto(nodes, t, src, s).1.None? ==> Covered(MergeInto(nodes, t, src, s).0, t, src, s)
    decreases |src| - s, 2, 0, 0
  {
    var n1 := nodes[t := nodes[t].(middlewares := nodes[t].middlewares + src[s].middlewares)];
    assert EdgesForward(nodes[t], t, |nodes|);
    ReplaceNode(nodes, t, n1[t]);
    var mr := MergeRoutes(n1[t].routes, src[s].routes);
    var n2 := n1[t := n1[t].(routes := mr.0)];
    ReplaceNode(n1, t, n2[t]);
    RoutesJoined(nodes[t].routes, src[s].routes[..FirstConflict(nodes[t].routes, src[s].routes)]);
    assert Kept(nodes[t], n2[t]);
    GrowsAt(nodes, n2, t);
    if mr.1.None? {
      var m3 := MergeChildrenCovers(n2, t, src, s, 0);
      GrowsTransitive(nodes, n2, m3.0);
      if m3.1.None? {
        var m4 := MergeParam(m3.0, t, src, s);
        MergeParamGrows(m3.0, t, src, s);
        GrowsTransitive(nodes, m3.0, m4.0);
        assert MergeInto(nodes, t, src, s) == m4;
        if m4.1.None? {
          assert src[s].routes[..|src[s].routes|] == src[s].routes;
          GrowsTransitive(n2, m3.0, m4.0);
          assert Kept(n2[t], m4.0[t]);
          forall i | 0 <= i < |src[s].children|
            ensures ChildCovered(m4.0, t, src, s, i)
          {
            ChildCoveredGrows(m3.0, m4.0, t, src, s, i);
          }
        }
      }
    }
  }

  /** The children loop grows the arena and, when it succeeds, leaves
      every child from position `k` on covered. */
  lemma {:induction false} MergeChildrenCovers(nodes: seq<Node>, t: Handle, src: seq<Node>, s: Handle, k: nat)
      returns (r: (seq<Node>, Option<Exception>))
    requires WellFormed(nodes) && t < |nodes| && WellFormed(src) && s < |src| && k <= |src[s].children|
    ensures r == MergeChildren(nodes, t, src, s, k)
    ensures Grows(nodes, r.0)
    ensures r.1.None? ==> forall i :: k <= i < |src[s].children| ==> ChildCovered(r.0, t, src, s, i)
    decreases |src| - s, 1, |src[s].children| - k, 2
  {
    if k < |src[s].children| {
      r := ChildrenTurnCovers(nodes, t, src, s, k);
    } else {
      r := (nodes, None);
      assert MergeChildren(nodes, t, src, s, k) == r;
    }
  }

  /** A turn of the children loop followed by the rest of the loop. */
  lemma {:induction false} ChildrenTurnCovers(nodes: seq<Node>, t: Handle, src: seq<Node>, s: Handle, k: nat)
      returns (r: (seq<Node>, Option<Exception>))
    requires WellFormed(nodes) && t < |nodes| && WellFormed(src) && s < |src| && k < |src[s].children|
    ensures r == MergeChildren(nodes, t, src, s, k)
    ensures Grows(nodes, r.0)
    ensures r.1.None? ==> forall i :: k <= i < |src[s].children| ==> ChildCovered(r.0, t, src, s, i)
    decreases |src| - s, 1, |src[s].children| - k, 1
  {
    var m1 := MergeChildCovers(nodes, t, src, s, k);
    MergeChildrenStep(nodes, t, src, s, k);
    if m1.1.None? {
      r := MergeChildrenCovers(m1.0, t, src, s, k + 1);
      ChildrenCoveredFrom(nodes, m1.0, r, t, src, s, k);
    } else {
      r := m1;
    }
  }

  /** The child a turn covered stays covered through the rest of the
      loop, which covers the children after it. */
  lemma ChildrenCoveredFrom(a: seq<Node>, b: seq<Node>, r: (seq<Node>, Option<Exception>), t: Handle, src: seq<Node>, s: Handle, k: nat)
    requires s < |src| && Grows(a, b) && ChildCovered(b, t, src, s, k) && Grows(b, r.0)
    requires r.1.None? ==> forall i :: k + 1 <= i < |src[s].children| ==> ChildCovered(r.0, t, src, s, i)
    ensures Grows(a, r.0)
    ensures r.1.None? ==> forall i :: k <= i < |src[s].children| ==> ChildCovered(r.0, t, src, s, i)
  {
    GrowsTransitive(a, b, r.0);
    ChildCoveredGrows(b, r.0, t, src, s, k);
  }

  /** One turn of the children loop grows the arena and, when it
      succeeds, covers the child it handled. */
  lemma {:induction false} MergeChildCovers(nodes: seq<Node>, t: Handle, src: seq<Node>, s: Handle, k: nat)
      returns (m: (seq<Node>, Option<Exception>))
    requires WellFormed(nodes) && t < |nodes| && WellFormed(src) && s < |src| && k < |src[s].children|
    ensures m == MergeChild(nodes, t, src, s, k)
    ensures Grows(nodes, m.0)
    ensures m.1.None? ==> ChildCovered(m.0, t, src, s, k)
    decreases |src| - s, 1, |src[s].children| - k, 0
  {
    m := MergeChild(nodes, t, src, s, k);
    var seg := src[s].children[k].0;
    var c := src[s].children[k].1;
    assert EdgesForward(src[s], s, |src|);
    if Lookup(nodes[t].children, seg).None? {
      var r := AttachChildCopies(nodes, t, seg, src, c);
      AttachGrows(nodes, t, seg, src, c);
      AttachedAt(r, |nodes|, t, src, s, k);
      assert m == (r, None);
    } else {
      var tc := Lookup(nodes[t].children, seg).value;
      ChildAfter(nodes, t, seg);
      MergedChildCovered(nodes, t, src, s, k);
      assert m == MergeInto(nodes, tc, src, c);
    }
  }

  /** The turn that attaches a copy of a child the target lacks. */
  /** The turn that merges a child into the target's child under the same
      segment. */
  lemma {:induction false} MergedChildCovered(nodes: seq<Node>, t: Handle, src: seq<Node>, s: Handle, k: nat)
    requires WellFormed(nodes) && t < |nodes| && WellFormed(src) && s < |src| && k < |src[s].children|
    requires Lookup(nodes[t].children, src[s].children[k].0).Some?
    ensures s < src[s].children[k].1 < |src|
    ensures t < Lookup(nodes[t].children, src[s].children[k].0).value < |nodes|
    ensures var m := MergeInto(nodes, Lookup(nodes[t].children, src[s].children[k].0).value, src, src[s].children[k].1);
            Grows(nodes, m.0) && (m.1.None? ==> ChildCovered(m.0, t, src, s, k))
    decreases |src| - s, 0, 0, 0
  {
    var seg := src[s].children[k].0;
    var c := src[s].children[k].1;
    assert EdgesForward(src[s], s, |src|);
    var tc := Lookup(nodes[t].children, seg).value;
    ChildAfter(nodes, t, seg);
    var m := MergeInto(nodes, tc, src, c);
    MergeIntoCovers(nodes, tc, src, c);
    assert Kept(nodes[t], m.0[t]);
    if m.1.None? {
      assert Lookup(m.0[t].children, seg) == Some(tc);
      ChildCoveredIntro(m.0, t, src, s, k, tc);
    }
  }

  /** A child of `s` is covered once the segment leads from `t` to a node
      covering it. */
  lemma ChildCoveredIntro(arena: seq<Node>, t: Handle, src: seq<Node>, s: Handle, i: nat, h: Handle)
    requires t < |arena| && s < |src| && i < |src[s].children| && s < src[s].children[i].1 < |src|
    requires Lookup(arena[t].children, src[s].children[i].0) == Some(h)
    requires Covered(arena, h, src, src[s].children[i].1)
    ensures ChildCovered(arena, t, src, s, i)
  {
  }

  /** Attaching a copy of a subtree of the mounted arena under a new
      segment grows the arena. */
  lemma AttachGrows(nodes: seq<Node>, t: Handle, seg: string, src: seq<Node>, c: Handle)
    requires WellFormed(nodes) && t < |nodes| && WellFormed(src) && c < |src|
    requires Lookup(nodes[t].children, seg).None?
    ensures Grows(nodes, AttachChild(nodes, t, seg, src, c))
  {
    var r := AttachChild(nodes, t, seg, src, c);
    AppendKeepsChildren(nodes[t], seg, |nodes| + c);
    assert Kept(nodes[t], r[t]);
    GrowsAt(nodes, r, t);
  }

  /** An arena holding a copy of the mounted arena at offset `off`, in
      which the segment of the `k`th child of `s` leads from `t` to the
      copy of that child, covers that child. */
  lemma AttachedAt(r: seq<Node>, off: nat, t: Handle, src: seq<Node>, s: Handle, k: nat)
    requires WellFormed(src) && s < |src| && k < |src[s].children| && t < |r|
    requires Lookup(r[t].children, src[s].children[k].0) == Some(off + src[s].children[k].1)
    requires Copied(r, off, src)
    ensures s < src[s].children[k].1 < |src|
    ensures Covered(r, off + src[s].children[k].1, src, src[s].children[k].1)
    ensures ChildCovered(r, t, src, s, k)
  {
    var c := src[s].children[k].1;
    assert EdgesForward(src[s], s, |src|);
    CopyCovered(r, off, src, c);
    ChildCoveredIntro(r, t, src, s, k, off + c);
  }

  /** A segment the node does not have, appended, keeps its other edges. */
  lemma AppendKeepsChildren(n: Node, seg: string, h: Handle)
    requires Lookup(n.children, seg).None?
    ensures KeepsChildren(n, n.(children := n.children + [(seg, h)]))
  {
    forall k | Lookup(n.children, k).Some?
      ensures Lookup(n.children + [(seg, h)], k) == Lookup(n.children, k)
    {
      LookupAppend(n.children, (seg, h), k);
    }
  }

  /** The parameter step grows the arena. */
  lemma {:induction false} MergeParamGrows(nodes: seq<Node>, t: Handle, src: seq<Node>, s: Handle)
    requires WellFormed(nodes) && t < |nodes| && WellFormed(src) && s < |src|
    ensures Grows(nodes, MergeParam(nodes, t, src, s).0)
    decreases |src| - s, 1, 0, 0
  {
    assert EdgesForward(src[s], s, |src|);
    if src[s].paramChild.Some? {
      var c := src[s].paramChild.value;
      if nodes[t].paramChild.Some? {
        assert EdgesForward(nodes[t], t, |nodes|);
        MergeIntoCovers(nodes, nodes[t].paramChild.value, src, c);
      } else {
        var r := AttachParam(nodes, t, src, c);
        assert Kept(nodes[t], r[t]);
        GrowsAt(nodes, r, t);
      }
    }
  }

  /** From `s`, the segments follow static children of the mounted arena
      to node `x`. */
  ghost predicate StaticPath(src: seq<Node>, s: Handle, segs: seq<string>, x: Handle)
    decreases |segs|
  {
    s < |src|
    && if |segs| == 0 then x == s
       else Lookup(src[s].children, segs[0]).Some?
            && StaticPath(src, Lookup(src[s].children, segs[0]).value, segs[1..], x)
  }

  /** Walking a static path of the mounted arena from a covering node
      reaches a node covering the path's end. */
  lemma {:induction false} CoveredWalk(arena: seq<Node>, t: Handle, src: seq<Node>, s: Handle, segs: seq<string>, x: Handle,
                                       stack: seq<Callable>, params: map<string, string>)
    requires WellFormed(arena) && Covered(arena, t, src, s) && StaticPath(src, s, segs, x)
    ensures Walk(arena, t, segs, stack, params).Reached?
    ensures Covered(arena, Walk(arena, t, segs, stack, params).node, src, x)
    decreases |segs|
  {
    if |segs| > 0 {
      var c := Lookup(src[s].children, segs[0]).value;
      var i :| 0 <= i < |src[s].children| && src[s].children[i] == (segs[0], c);
      assert ChildCovered(arena, t, src, s, i);
      var y := Lookup(arena[t].children, segs[0]).value;
      var _ := WalkStep(arena, t, segs, 0, stack, params);
      assert segs[0..] == segs;
      CoveredWalk(arena, y, src, c, segs[1..], x, stack + arena[y].middlewares, params);
    }
  }

  /** Walking a request in two parts: the second part starts where the
      first one ended. */
  lemma {:induction false} WalkAppend(nodes: seq<Node>, cur: Handle, p: seq<string>, q: seq<string>,
                                      stack: seq<Callable>, params: map<string, string>)
    requires WellFormed(nodes) && cur < |nodes|
    requires Walk(nodes, cur, p, stack, params).Reached?
    ensures var w := Walk(nodes, cur, p, stack, params);
            Walk(nodes, cur, p + q, stack, params) == Walk(nodes, w.node, q, w.stack, w.params)
    decreases |p|
  {
    if |p| == 0 {
      assert p + q == q;
    } else {
      var _ := WalkStep(nodes, cur, p, 0, stack, params);
      var _ := WalkStep(nodes, cur, p + q, 0, stack, params);
      assert p[0..] == p && (p + q)[0..] == p + q;
      assert (p + q)[0] == p[0] && (p + q)[1..] == p[1..] + q;
      if Lookup(nodes[cur].children, p[0]).Some? {
        var next := Lookup(nodes[cur].children, p[0]).value;
        WalkAppend(nodes, next, p[1..], q, stack + nodes[next].middlewares, params);
      } else {
        var n := nodes[cur].paramChild.value;
        WalkAppend(nodes, n, p[1..], q, stack + nodes[n].middlewares, params[nodes[n].paramName.GetOr("undefined") := p[0]]);
      }
    }
  }

  /** `app.mountRouter("/api", router)`: after a mount that succeeds, a
      request for the base path followed by a path that reaches, through
      static children of the mounted router, a node binding a method is
      found for that method in the parent. */
  lemma MountResolves(nodes: seq<Node>, basePath: string, src: seq<Node>, prefix: seq<string>,
                      segs: seq<string>, x: Handle, verb: string)
    requires WellFormed(nodes) && WellFormed(src) && Mount(nodes, basePath, src).1.None?
    requires Fits(Segments(basePath), prefix) && Unshadowed(Mount(nodes, basePath, src).0, 0, Segments(basePath), prefix)
    requires StaticPath(src, 0, segs, x) && x < |src| && Lookup(src[x].routes, verb).Some?
    ensures Resolve(Mount(nodes, basePath, src).0, prefix + segs, verb).Found?
  {
    var g := Grow(nodes, 0, Segments(basePath));
    var final := Mount(nodes, basePath, src).0;
    assert Mount(nodes, basePath, src) == MergeInto(g.0, g.1, src, 0);
    MergeIntoCovers(g.0, g.1, src, 0);
    GrowsKeepsEdges(g.0, final);
    WalkGrown(nodes, 0, Segments(basePath), prefix, final, final[0].middlewares, map[]);
    var w := Walk(final, 0, prefix, final[0].middlewares, map[]);
    WalkAppend(final, 0, prefix, segs, final[0].middlewares, map[]);
    CoveredWalk(final, g.1, src, 0, segs, x, w.stack, w.params);
    var y := Walk(final, 0, prefix + segs, final[0].middlewares, map[]).node;
    ResolveBound(final, prefix + segs, verb, Lookup(final[y].routes, verb).value, verb);
  }

  // ---------------------------------------------------------------------
  // The router object

  class Router {
    /** The arena; `nodes[0]` is `RootRoutingNode`. */
    var nodes: seq<Node>

    ghost predicate Valid()
      reads this
    {
      WellFormed(nodes)
    }

    /** A router with an empty root node. */
    constructor ()
      ensures Valid()
      ensures nodes == [EmptyNode]
    {
      nodes := [EmptyNode];
    }

    /** `createRoute(path, RootRoutingNode)`: walks the segments of `path`
        from the root, adding each missing node, and returns the last. */
    method CreateRoute(path: string) returns (h: Handle)
      requires Valid()
      modifies this
      ensures Valid() && h < |nodes|
      ensures (nodes, h) == Grow(old(nodes), 0, Segments(path))
    {
      var segs := Segments(path);
      var cur: Handle := 0;
      var i := 0;
      while i < |segs|
        invariant 0 <= i <= |segs|
        invariant WellFormed(nodes) && cur < |nodes|
        invariant Grow(old(nodes), 0, segs) == Grow(nodes, cur, segs[i..])
      {
        GrowStep(nodes, cur, segs, i);
        cur := Follow(cur, segs[i]);
        i := i + 1;
      }
      h := cur;
    }

    /** The body of the loop in `createRoute`: from node `cur`, go to the
        parameter child or the static child for `seg`, creating it first
        when it is missing. */
    method Follow(cur: Handle, seg: string) returns (next: Handle)
      requires Valid() && cur < |nodes|
      modifies this
      ensures Valid()
      ensures (nodes, next) == Descend(old(nodes), cur, seg)
    {
      if StartsWith(seg, ":") {
        if nodes[cur].paramChild.None? {
          nodes := AddParamChild(nodes, cur, seg);
        }
        next := nodes[cur].paramChild.value;
      } else {
        if Lookup(nodes[cur].children, seg).None? {
          nodes := AddStaticChild(nodes, cur, seg);
        }
        next := Lookup(nodes[cur].children, seg).value;
      }
    }

    /** `registerRoute(path, method, ...args)`; `thrown` is the exception
        raised, if any. */
    method RegisterRoute(path: string, verb: Verb, args: seq<Callable>) returns (thrown: Option<Exception>)
      requires Valid()
      modifies this
      ensures Valid()
      ensures (nodes, thrown) == Register(old(nodes), path, verb, args)
    {
      if |args| == 0 {
        return Some(MissingHandler(VerbName(verb), path));
      }
      var h := CreateRoute(path);
      var handler := args[|args| - 1];
      var middlewares := args[..|args| - 1];
      if !handler.Fn? {
        return Some(InvalidHandler(path));
      }
      if Lookup(nodes[h].routes, VerbName(verb)).Some? {
        return Some(RouteExists(VerbName(verb), path));
      }
      nodes := BindRoute(nodes, h, VerbName(verb), RouteEntry(middlewares, handler));
      thrown := None;
    }

    method Get(path: string, args: seq<Callable>) returns (thrown: Option<Exception>)
      requires Valid()
      modifies this
      ensures Valid()
      ensures (nodes, thrown) == Register(old(nodes), path, GET, args)
    {
      thrown := RegisterRoute(path, GET, args);
    }

    method Post(path: string, args: seq<Callable>) returns (thrown: Option<Exception>)
      requires Valid()
      modifies this
      ensures Valid()
      ensures (nodes, thrown) == Register(old(nodes), path, POST, args)
    {
      thrown := RegisterRoute(path, POST, args);
    }

    method Put(path: string, args: seq<Callable>) returns (thrown: Option<Exception>)
      requires Valid()
      modifies this
      ensures Valid()
      ensures (nodes, thrown) == Register(old(nodes), path, PUT, args)
    {
      thrown := RegisterRoute(path, PUT, args);
    }

    method Delete(path: string, args: seq<Callable>) returns (thrown: Option<Exception>)
      requires Valid()
      modifies this
      ensures Valid()
      ensures (nodes, thrown) == Register(old(nodes), path, DELETE, args)
    {
      thrown := RegisterRoute(path, DELETE, args);
    }

    method Patch(path: string, args: seq<Callable>) returns (thrown: Option<Exception>)
      requires Valid()
      modifies this
      ensures Valid()
      ensures (nodes, thrown) == Register(old(nodes), path, PATCH, args)
    {
      thrown := RegisterRoute(path, PATCH, args);
    }

    /** `getPathMiddlewareAndHandlers(req)` for a request with this path and
        method; the method is upper-cased before the lookup. */
    method GetPathMiddlewareAndHandlers(path: string, verbText: string) returns (r: Resolution)
      requires Valid()
      ensures r == Resolve(nodes, Segments(path), Upper(verbText))
    {
      var segs := Segments(path);
      var verb := Upper(verbText);
      var params: map<string, string> := map[];
      var stack := nodes[0].middlewares;
      var cur: Handle := 0;
      var i := 0;
      while i < |segs|
        invariant i <= |segs| && cur < |nodes|
        invariant Walk(nodes, 0, segs, nodes[0].middlewares, map[]) == Walk(nodes, cur, segs[i..], stack, params)
      {
        var seg := segs[i];
        var _ := WalkStep(nodes, cur, segs, i, stack, params);
        if Lookup(nodes[cur].children, seg).Some? {
          cur := Lookup(nodes[cur].children, seg).value;
        } else if nodes[cur].paramChild.Some? {
          var p := nodes[cur].paramChild.value;
          params := params[nodes[p].paramName.GetOr("undefined") := seg];
          cur := p;
        } else {
          return NotFound(stack);
        }
        stack := stack + nodes[cur].middlewares;
        i := i + 1;
      }
      assert segs[i..] == [];
      var routes := nodes[cur].routes;
      if |routes| > 0 && Lookup(routes, verb).None? {
        return MethodNotAllowed(stack, Keys(routes));
      }
      var route := Lookup(routes, verb);
      if route.None? {
        return NotFound(stack);
      }
      stack := stack + route.value.middlewares;
      stack := stack + [route.value.handler];
      r := Found(stack, params);
    }

    /** `mountRouter(basePath, router)`: the mounted router's trie is merged
        into the node for `basePath`. */
    method MountRouter(basePath: string, other: Router) returns (thrown: Option<Exception>)
      requires Valid() && other.Valid() && other != this
      modifies this
      ensures Valid()
      ensures (nodes, thrown) == Mount(old(nodes), basePath, old(other.nodes))
    {
      var base := CreateRoute(basePath);
      thrown := MergeNodes(base, other.nodes, 0);
    }

    /** `mergeNodes(target, source)`, for the target node `t` and the node
        `s` of the mounted arena `src`. */
    method MergeNodes(t: Handle, src: seq<Node>, s: Handle) returns (thrown: Option<Exception>)
      requires Valid() && t < |nodes| && WellFormed(src) && s < |src|
      modifies this
      ensures Valid()
      ensures (nodes, thrown) == MergeInto(old(nodes), t, src, s)
      decreases |src| - s, 2, 0
    {
      assert EdgesForward(nodes[t], t, |nodes|);
      ReplaceNode(nodes, t, nodes[t].(middlewares := nodes[t].middlewares + src[s].middlewares));
      nodes := nodes[t := nodes[t].(middlewares := nodes[t].middlewares + src[s].middlewares)];
      thrown := MergeRouteTable(t, src[s].routes);
      if thrown.Some? {
        return;
      }
      thrown := MergeChildNodes(t, src, s);
      if thrown.Some? {
        return;
      }
      thrown := MergeParamNode(t, src, s);
    }

    /** The routes loop of `mergeNodes`: each source method is bound at `t`
        in turn, and the first one already bound there throws. */
    method MergeRouteTable(t: Handle, source: seq<(string, RouteEntry)>) returns (thrown: Option<Exception>)
      requires Valid() && t < |nodes| && UniqueKeys(source)
      modifies this
      ensures Valid()
      ensures nodes == old(nodes)[t := old(nodes)[t].(routes := MergeRoutes(old(nodes)[t].routes, source).0)]
      ensures thrown == MergeRoutes(old(nodes)[t].routes, source).1
    {
      var routes := nodes[t].routes;
      ghost var before := routes;
      thrown := None;
      var j := 0;
      while j < |source|
        invariant j <= |source| && UniqueKeys(routes) && UniqueKeys(source[j..])
        invariant nodes == old(nodes) && UniqueKeys(before)
        invariant MergeRoutes(before, source) == MergeRoutes(routes, source[j..])
      {
        var (m, route) := source[j];
        assert source[j..][0] == (m, route);
        MergeRoutesFirst(routes, source[j..]);
        if Lookup(routes, m).Some? {
          thrown := Some(RouteConflict(m));
          break;
        }
        assert source[j..][1..] == source[j + 1..];
        routes := Store(routes, m, route);
        j := j + 1;
      }
      assert EdgesForward(nodes[t], t, |nodes|);
      ReplaceNode(nodes, t, nodes[t].(routes := routes));
      nodes := nodes[t := nodes[t].(routes := routes)];
    }

    /** The children loop of `mergeNodes`. */
    method MergeChildNodes(t: Handle, src: seq<Node>, s: Handle) returns (thrown: Option<Exception>)
      requires Valid() && t < |nodes| && WellFormed(src) && s < |src|
      modifies this
      ensures Valid()
      ensures (nodes, thrown) == MergeChildren(old(nodes), t, src, s, 0)
      decreases |src| - s, 1, 1
    {
      var k := 0;
      while k < |src[s].children|
        invariant k <= |src[s].children|
        invariant Valid() && t < |nodes|
        invariant MergeChildren(old(nodes), t, src, s, 0) == MergeChildren(nodes, t, src, s, k)
      {
        MergeChildrenStep(nodes, t, src, s, k);
        thrown := MergeChildNode(t, src, s, k);
        if thrown.Some? {
          return;
        }
        k := k + 1;
      }
      thrown := None;
    }

    /** One turn of the children loop of `mergeNodes`: a missing segment is
        linked to (a copy of) the source child, an existing one is merged. */
    method MergeChildNode(t: Handle, src: seq<Node>, s: Handle, k: nat) returns (thrown: Option<Exception>)
      requires Valid() && t < |nodes| && WellFormed(src) && s < |src| && k < |src[s].children|
      modifies this
      ensures Valid()
      ensures (nodes, thrown) == MergeChild(old(nodes), t, src, s, k)
      decreases |src| - s, 1, 0
    {
      var (seg, c) := src[s].children[k];
      assert EdgesForward(src[s], s, |src|);
      if Lookup(nodes[t].children, seg).None? {
        nodes := AttachChild(nodes, t, seg, src, c);
        thrown := None;
      } else {
        ChildAfter(nodes, t, seg);
        thrown := MergeNodes(Lookup(nodes[t].children, seg).value, src, c);
      }
    }

    /** The parameter step of `mergeNodes`. */
    method MergeParamNode(t: Handle, src: seq<Node>, s: Handle) returns (thrown: Option<Exception>)
      requires Valid() && t < |nodes| && WellFormed(src) && s < |src|
      modifies this
      ensures Valid()
      ensures (nodes, thrown) == MergeParam(old(nodes), t, src, s)
      decreases |src| - s, 1, 0
    {
      thrown := None;
      assert EdgesForward(src[s], s, |src|);
      if src[s].paramChild.Some? {
        if nodes[t].paramChild.None? {
          nodes := AttachParam(nodes, t, src, src[s].paramChild.value);
        } else {
          assert EdgesForward(nodes[t], t, |nodes|);
          thrown := MergeNodes(nodes[t].paramChild.value, src, src[s].paramChild.value);
        }
      }
    }
  }
}
