/**
 * The ZooKeeper tree, the two ways the code creates missing parents in it, and the operations
 * that rely on them. Other clients may add nodes at any time; any request may fail, and a write
 * that failed may have taken effect all the same.
 */
module NodeTree {
  import opened Common
  import opened ZkPaths
  import opened PoolDeadlock
  import opened NestedCalls

  datatype Outcome = Done | Failed | Blocked

  /** `created` are the nodes this client created; `orphans` counts its attempts to create one without a parent. */
  datatype Tree = Tree(nodes: map<Path, string>, created: set<Path>, orphans: nat)

  ghost predicate Closed(nodes: set<Path>) {
    forall p | p in nodes && |p| > 1 :: p[..|p| - 1] in nodes
  }

  ghost predicate Sane(t: Tree) {
    Closed(t.nodes.Keys) && t.created <= t.nodes.Keys
  }

  function ProperAncestors(p: Path): set<Path> {
    set k | 1 <= k < |p| :: p[..k]
  }

  ghost predicate HasAncestors(nodes: set<Path>, p: Path) {
    forall k | 1 <= k < |p| :: p[..k] in nodes
  }

  predicate HasParent(nodes: set<Path>, p: Path) {
    |p| <= 1 || p[..|p| - 1] in nodes
  }

  /** How many ancestors, going up from p, are missing before one is found or the root is reached. */
  function Missing(nodes: set<Path>, p: Path): nat {
    if |p| <= 1 || p[..|p| - 1] in nodes then 0 else 1 + Missing(nodes, p[..|p| - 1])
  }

  lemma {:induction false} MissingShrinks(a: set<Path>, b: set<Path>, p: Path)
    requires a <= b
    ensures Missing(b, p) <= Missing(a, p)
  {
    if |p| > 1 && p[..|p| - 1] !in b {
      MissingShrinks(a, b, p[..|p| - 1]);
    }
  }

  lemma {:induction false} NothingInPlace(nodes: set<Path>, p: Path)
    requires p != [] && forall k | 1 <= k < |p| :: p[..k] !in nodes
    ensures Missing(nodes, p) == |p| - 1
  {
    if |p| > 1 {
      var parent := p[..|p| - 1];
      assert forall k | 1 <= k < |parent| :: parent[..k] == p[..k];
      NothingInPlace(nodes, parent);
    }
  }

  /** In a tree, a node brings all its ancestors with it. */
  lemma {:induction false} NodeHasAncestors(nodes: set<Path>, p: Path)
    requires Closed(nodes) && p in nodes
    ensures HasAncestors(nodes, p)
  {
    if |p| > 1 {
      var parent := p[..|p| - 1];
      NodeHasAncestors(nodes, parent);
      assert forall k | 1 <= k < |parent| :: parent[..k] == p[..k];
    }
  }

  lemma ParentGivesAncestors(nodes: set<Path>, p: Path)
    requires |p| > 1 && p[..|p| - 1] in nodes && HasAncestors(nodes, p[..|p| - 1])
    ensures HasAncestors(nodes, p)
  {
    var parent := p[..|p| - 1];
    assert forall k | 1 <= k < |parent| :: parent[..k] == p[..k];
  }

  lemma AncestorsGiveParent(nodes: set<Path>, p: Path)
    requires HasAncestors(nodes, p)
    ensures HasParent(nodes, p)
  {
    if |p| > 1 {
      assert p[..|p| - 1] in nodes;
    }
  }

  lemma AncestorsOfParent(p: Path)
    requires |p| > 1
    ensures ProperAncestors(p) == ProperAncestors(p[..|p| - 1]) + {p[..|p| - 1]}
  {
    var parent := p[..|p| - 1];
    assert forall k | 1 <= k < |parent| :: parent[..k] == p[..k];
    forall a | a in ProperAncestors(p)
      ensures a in ProperAncestors(parent) + {parent}
    {
      var k :| 1 <= k < |p| && a == p[..k];
      assert k < |parent| ==> a == parent[..k];
    }
    forall a | a in ProperAncestors(parent)
      ensures a in ProperAncestors(p)
    {
      var k :| 1 <= k < |parent| && a == parent[..k];
      assert a == p[..k];
    }
  }

  lemma SiblingAncestors(p: Path, q: Path)
    requires p != [] && |p| == |q| && p[..|p| - 1] == q[..|p| - 1]
    ensures ProperAncestors(p) == ProperAncestors(q)
    ensures forall nodes: set<Path> :: HasAncestors(nodes, p) == HasAncestors(nodes, q)
  {
    var n := |p| - 1;
    forall k | 1 <= k < |p|
      ensures p[..k] == q[..k]
    {
      assert p[..k] == p[..n][..k] && q[..k] == q[..n][..k];
    }
  }

  // ---------------------------------------------------------------- growing trees

  ghost predicate Keeps(a: map<Path, string>, b: map<Path, string>) {
    forall p | p in a :: p in b && b[p] == a[p]
  }

  /** A node with the value it holds. */
  type Entry = (Path, string)

  /** The nodes above p, all empty. */
  function Parents(p: Path): set<Entry> {
    set q | q in ProperAncestors(p) :: (q, "")
  }

  /** What this client created was missing, and is allowed with the value it holds. */
  ghost predicate CreatedWithin(a: Tree, b: Tree, allowed: set<Entry>) {
    forall q | q in b.created - a.created :: q !in a.nodes && q in b.nodes && (q, b.nodes[q]) in allowed
  }

  /** Nodes were only added, and by this client only allowed ones that were missing, under their parents. */
  ghost predicate Grown(a: Tree, b: Tree, allowed: set<Entry>, quiet: bool) {
    && Sane(b) && Keeps(a.nodes, b.nodes) && b.orphans == a.orphans
    && a.created <= b.created && CreatedWithin(a, b, allowed)
    && (quiet ==> b.nodes.Keys == a.nodes.Keys + (b.created - a.created))
  }

  lemma GrownOn(a: Tree, b: Tree, c: Tree, allowed: set<Entry>, quiet: bool)
    requires Grown(a, b, allowed, quiet) && Grown(b, c, allowed, quiet)
    ensures Grown(a, c, allowed, quiet)
  {
    assert c.created - a.created == (b.created - a.created) + (c.created - b.created);
  }

  lemma GrownWider(a: Tree, b: Tree, allowed: set<Entry>, wider: set<Entry>, quiet: bool)
    requires Grown(a, b, allowed, quiet) && allowed <= wider
    ensures Grown(a, b, wider, quiet)
  {
  }

  lemma KeysGrow(a: Tree, b: Tree, allowed: set<Entry>, quiet: bool)
    requires Grown(a, b, allowed, quiet)
    ensures a.nodes.Keys <= b.nodes.Keys
  {
  }

  lemma AncestorsStay(a: set<Path>, b: set<Path>, p: Path)
    requires a <= b && HasAncestors(a, p)
    ensures HasAncestors(b, p)
  {
  }

  /** If only missing ancestors were added and none is missing any more, all of them were. */
  lemma QuietTree(a: Tree, b: Tree, p: Path)
    requires Grown(a, b, Parents(p), true) && HasAncestors(b.nodes.Keys, p)
    ensures b.nodes.Keys == a.nodes.Keys + ProperAncestors(p)
  {
    forall q | q in ProperAncestors(p)
      ensures q in b.nodes.Keys
    {
      var k :| 1 <= k < |p| && q == p[..k];
    }
  }

  // ---------------------------------------------------------------- frames

  /**
   * How a frame ends that finds so many ancestors missing and so many clients in the pool: `depth`
   * is the number of frames below it.
   */
  ghost predicate Frame(r: Outcome, depth: nat, missing: nat, clients: int, quiet: bool) {
    && depth <= missing && (r == Blocked ==> clients <= missing)
    && (quiet ==> (r == Blocked <==> clients <= missing) && (r != Blocked ==> r == Done && depth == missing))
  }

  /** The frame above one that saw its parent missing. */
  lemma FrameAbove(a: Tree, seen: Tree, p: Path, r: Outcome, depth: nat, clients: nat, quiet: bool)
    requires Grown(a, seen, {}, quiet) && |p| > 1 && p[..|p| - 1] !in seen.nodes
    requires Frame(r, depth, Missing(seen.nodes.Keys, p[..|p| - 1]), clients, quiet)
    ensures Frame(r, depth + 1, Missing(a.nodes.Keys, p), clients + 1, quiet)
  {
    KeysGrow(a, seen, {}, quiet);
    MissingShrinks(a.nodes.Keys, seen.nodes.Keys, p);
    if quiet {
      assert a.nodes.Keys == seen.nodes.Keys;
    }
  }

  /** The frame that finds its parent. */
  lemma TopFrame(a: Tree, seen: Tree, p: Path, clients: nat, quiet: bool)
    requires Grown(a, seen, {}, quiet) && |p| > 1 && p[..|p| - 1] in seen.nodes
    ensures Frame(Done, 0, Missing(a.nodes.Keys, p), clients + 1, quiet) && HasAncestors(seen.nodes.Keys, p)
  {
    NodeHasAncestors(seen.nodes.Keys, p[..|p| - 1]);
    ParentGivesAncestors(seen.nodes.Keys, p);
    if quiet {
      assert a.nodes.Keys == seen.nodes.Keys;
    }
  }

  // ---------------------------------------------------------------- traces

  function EnsureParentNodesCall(missing: nat): Call {
    NestedCalls.EnsureParentNodes(missing)
  }

  /** What happens between a frame's take and give. */
  function InnerOps(depth: nat): Task {
    if depth == 0 then [] else Ops(EnsureParentNodesCall(depth - 1))
  }

  lemma CallOfInner(depth: nat)
    ensures Ops(EnsureParentNodesCall(depth)) == [Take] + InnerOps(depth) + [Give]
  {
    if depth > 0 {
      var c := EnsureParentNodesCall(depth - 1);
      assert [c][1..] == [];
      assert OpsOfAll([c]) == Ops(c) + [];
    }
  }

  lemma FrameTrace(before: Task, inner: Task)
    ensures before + [Take] + inner + [Give] == before + ([Take] + inner + [Give])
  {
    Regroup(before, [Take], inner);
    Regroup(before, [Take] + inner, [Give]);
  }

  lemma RegisterTrace(before: Task, depth: nat)
    ensures before + [Take] + Ops(EnsureParentNodesCall(depth)) + [Give] == before + Ops(ZkRegister(depth))
  {
    var c := EnsureParentNodesCall(depth);
    assert [c][1..] == [];
    assert OpsOfAll([c]) == Ops(c) + [];
    FrameTrace(before, Ops(c));
  }

  function RegisterCalls(depths: seq<nat>): seq<Call> {
    ZkCheck(depths).nested
  }

  lemma {:induction false} OpsOfMore(cs: seq<Call>, ds: seq<Call>)
    ensures OpsOfAll(cs + ds) == OpsOfAll(cs) + OpsOfAll(ds)
    decreases |cs|
  {
    if cs == [] {
      assert cs + ds == ds;
      assert OpsOfAll(cs) + OpsOfAll(ds) == OpsOfAll(ds);
    } else {
      assert (cs + ds)[1..] == cs[1..] + ds;
      OpsOfMore(cs[1..], ds);
      assert Ops(cs[0]) + (OpsOfAll(cs[1..]) + OpsOfAll(ds)) == (Ops(cs[0]) + OpsOfAll(cs[1..])) + OpsOfAll(ds);
    }
  }

  lemma Regroup(a: Task, b: Task, c: Task)
    ensures a + b + c == a + (b + c)
  {
  }

  lemma RegisterCallsMore(before: Task, ds: seq<nat>, es: seq<nat>)
    ensures before + OpsOfAll(RegisterCalls(ds)) + OpsOfAll(RegisterCalls(es)) == before + OpsOfAll(RegisterCalls(ds + es))
  {
    assert RegisterCalls(ds + es) == RegisterCalls(ds) + RegisterCalls(es);
    OpsOfMore(RegisterCalls(ds), RegisterCalls(es));
    Regroup(before, OpsOfAll(RegisterCalls(ds)), OpsOfAll(RegisterCalls(es)));
  }

  lemma OneRegisterCall(before: Task, depth: nat)
    ensures before + Ops(ZkRegister(depth)) == before + OpsOfAll(RegisterCalls([depth]))
  {
    assert RegisterCalls([depth])[1..] == [];
    assert OpsOfAll(RegisterCalls([depth])) == Ops(ZkRegister(depth)) + [];
  }

  lemma NoRegisterCall(before: Task)
    ensures before + OpsOfAll(RegisterCalls([])) == before
  {
  }

  // ---------------------------------------------------------------- services

  /** The nodes of the services, with what they are to hold, and the empty ones above them. */
  function Above(services: map<Path, string>): set<Entry> {
    (set p, q | p in services.Keys && q in ProperAncestors(p) :: (q, "")) + (set p | p in services.Keys :: (p, services[p]))
  }

  lemma AboveHasAll(services: map<Path, string>, p: Path)
    requires p in services
    ensures Parents(p) + {(p, services[p])} <= Above(services)
  {
  }

  /** No service's node is above that of another. */
  ghost predicate Apart(services: map<Path, string>) {
    forall p, q | p in services && q in services :: p !in ProperAncestors(q)
  }

  /** Every service's node that this client created holds the service's record. */
  ghost predicate Restored(services: map<Path, string>, a: Tree, b: Tree) {
    forall p | p in services && p in b.created - a.created :: p in b.nodes && b.nodes[p] == services[p]
  }

  lemma CreatedAreRestored(services: map<Path, string>, a: Tree, b: Tree, quiet: bool)
    requires Apart(services) && Grown(a, b, Above(services), quiet)
    ensures Restored(services, a, b)
  {
    forall p | p in services && p in b.created - a.created
      ensures b.nodes[p] == services[p]
    {
      assert (p, b.nodes[p]) in Above(services);
    }
  }

  /** Undisturbed, every service that was missing holds its record once all are there. */
  lemma MissingAreRestored(services: map<Path, string>, a: Tree, b: Tree, p: Path)
    requires Apart(services) && Grown(a, b, Above(services), true) && AllThere(services, b)
    requires p in services && p !in a.nodes
    ensures p in b.nodes && b.nodes[p] == services[p]
  {
    CreatedAreRestored(services, a, b, true);
    assert p in a.nodes.Keys + (b.created - a.created);
  }

  ghost predicate AllThere(services: map<Path, string>, t: Tree) {
    forall p | p in services :: p in t.nodes
  }

  /** Clients enough for a check to register whatever is missing. */
  ghost predicate Enough(services: map<Path, string>, t: Tree, clients: nat) {
    clients >= 1 && forall p | p in services && p !in t.nodes :: clients >= Missing(t.nodes.Keys, p) + 3
  }

  lemma EnoughLasts(services: map<Path, string>, a: Tree, b: Tree, allowed: set<Entry>, quiet: bool, clients: nat)
    requires Enough(services, a, clients) && Grown(a, b, allowed, quiet)
    ensures Enough(services, b, clients)
  {
    KeysGrow(a, b, allowed, quiet);
    forall p | p in services && p !in b.nodes
      ensures clients >= Missing(b.nodes.Keys, p) + 3
    {
      MissingShrinks(a.nodes.Keys, b.nodes.Keys, p);
    }
  }

  /** The nodes directly below p, with their values. */
  function ChildrenOf(t: Tree, p: Path): map<Path, string> {
    map q | q in t.nodes && |q| == |p| + 1 && q[..|p|] == p :: t.nodes[q]
  }

  /** One component below p. */
  ghost predicate IsChild(q: Path, p: Path) {
    exists c: string :: q == p + [c]
  }

  /** That is all the nodes one component below p, and no others. */
  lemma ChildrenAreBelow(t: Tree, p: Path, q: Path)
    ensures q in ChildrenOf(t, p) <==> q in t.nodes && IsChild(q, p)
    ensures q in ChildrenOf(t, p) ==> ChildrenOf(t, p)[q] == t.nodes[q]
  {
    if q in ChildrenOf(t, p) {
      assert q == p + [q[|p|]];
    }
  }

  /** The answer has only nodes one component below p, with their values. */
  ghost predicate OnlyChildren(t: Tree, p: Path, answer: map<Path, string>) {
    forall q | q in answer :: IsChild(q, p) && q in t.nodes && answer[q] == t.nodes[q]
  }

  ghost predicate AllChildren(t: Tree, p: Path, answer: map<Path, string>) {
    forall q | q in t.nodes && IsChild(q, p) :: q in answer
  }

  lemma ChildrenAnswer(t: Tree, p: Path, read: map<Path, string>)
    requires Keeps(read, ChildrenOf(t, p))
    ensures OnlyChildren(t, p, read) && AllChildren(t, p, ChildrenOf(t, p))
  {
    forall q
      ensures q in ChildrenOf(t, p) <==> q in t.nodes && IsChild(q, p)
    {
      ChildrenAreBelow(t, p, q);
    }
  }

  /** Undisturbed, a registration of q adds nothing but q and what is above it. */
  lemma NewIsAbove(a: Tree, b: Tree, q: Path, value: string, added: Path)
    requires Grown(a, b, Parents(q) + {(q, value)}, true) && added in b.nodes && added !in a.nodes
    ensures added == q || added in ProperAncestors(q)
  {
    assert added in a.nodes.Keys + (b.created - a.created);
  }

  /** A new registration is found among the children of the service's node, which has no other new child. */
  lemma RegisteredIsFound(a: Tree, b: Tree, p: Path, value: string)
    requires Grown(a, b, Parents(p) + {(p, value)}, true) && |p| > 1
    requires p !in a.nodes && p in b.nodes
    ensures ChildrenOf(b, p[..|p| - 1]) == ChildrenOf(a, p[..|p| - 1])[p := value]
  {
    var was, now := ChildrenOf(a, p[..|p| - 1]), ChildrenOf(b, p[..|p| - 1]);
    forall q | q in now && q != p
      ensures q in was && now[q] == was[q]
    {
      if q !in a.nodes {
        NewIsAbove(a, b, p, value, q);
      }
    }
    assert p in a.nodes.Keys + (b.created - a.created);
    assert p !in ProperAncestors(p);
    assert now.Keys == was.Keys + {p};
  }

  /** The answer for a node that is not above the registered one stays as it was. */
  lemma OthersAnswerAsBefore(a: Tree, b: Tree, q: Path, value: string, p: Path)
    requires Grown(a, b, Parents(q) + {(q, value)}, true) && !(p < q)
    ensures ChildrenOf(b, p) == ChildrenOf(a, p)
  {
    forall c | c in ChildrenOf(b, p)
      ensures c in ChildrenOf(a, p)
    {
      if c !in a.nodes {
        NewIsAbove(a, b, q, value, c);
        PrefixOfAncestor(p, c, q);
      }
    }
  }

  lemma PrefixOfAncestor(p: Path, c: Path, q: Path)
    requires p < c && (c == q || c in ProperAncestors(q))
    ensures p < q
  {
  }

  /** What a check leaves in the nodes of services that do not lie above one another. */
  lemma CheckedAreRestored(services: map<Path, string>, a: Tree, b: Tree, quiet: bool, r: Outcome)
    requires Apart(services) && Grown(a, b, Above(services), quiet) && (r == Done ==> AllThere(services, b))
    ensures Restored(services, a, b)
    ensures quiet && r == Done ==> forall p | p in services && p !in a.nodes :: p in b.nodes && b.nodes[p] == services[p]
  {
    CreatedAreRestored(services, a, b, quiet);
    if quiet && r == Done {
      forall p | p in services && p !in a.nodes
        ensures p in b.nodes && b.nodes[p] == services[p]
      {
        MissingAreRestored(services, a, b, p);
      }
    }
  }

  // ---------------------------------------------------------------- writing a configuration

  /** What this client created was missing: the node itself, and empty nodes above it. */
  ghost predicate CreatedFor(a: Tree, b: Tree, p: Path) {
    forall q | q in b.created - a.created :: q !in a.nodes && q in b.nodes && (q == p || (q, b.nodes[q]) in Parents(p))
  }

  /** As `Grown`, but that the node's own value may have changed to the one given. */
  ghost predicate Written(a: Tree, b: Tree, p: Path, value: string, quiet: bool) {
    && Sane(b) && b.orphans == a.orphans && a.nodes.Keys <= b.nodes.Keys
    && (forall q | q in a.nodes && q != p :: b.nodes[q] == a.nodes[q])
    && (p in a.nodes ==> b.nodes[p] == a.nodes[p] || b.nodes[p] == value)
    && a.created <= b.created
    && CreatedFor(a, b, p)
    && (quiet ==> b.nodes.Keys == a.nodes.Keys + (b.created - a.created))
  }

  lemma GrownIsWritten(a: Tree, b: Tree, p: Path, value: string, allowed: set<Entry>, quiet: bool)
    requires Grown(a, b, allowed, quiet) && allowed <= Parents(p) + {(p, value)}
    ensures Written(a, b, p, value, quiet)
  {
  }

  lemma WrittenOn(a: Tree, b: Tree, c: Tree, p: Path, value: string, quiet: bool)
    requires Written(a, b, p, value, quiet) && Written(b, c, p, value, quiet)
    ensures Written(a, c, p, value, quiet)
  {
    assert c.created - a.created == (b.created - a.created) + (c.created - b.created);
  }

  // ---------------------------------------------------------------- the client

  class ZooKeeper {
    var tree: Tree
    /** Clients left in the pool. */
    var available: nat
    /** No other client adds nodes, and no request fails. */
    const quiet: bool

    ghost var trace: Task

    constructor (nodes: map<Path, string>, available: nat, quiet: bool)
      requires Closed(nodes.Keys)
      ensures tree == Tree(nodes, {}, 0) && Sane(tree) && this.available == available && this.quiet == quiet && trace == []
    {
      this.tree, this.available, this.quiet := Tree(nodes, {}, 0), available, quiet;
      trace := [];
    }

    /** Other clients add whatever nodes they like, under parents that exist. */
    method OthersAdd()
      requires Sane(tree)
      modifies this`tree
      ensures Grown(old(tree), tree, {}, quiet) && tree.created == old(tree).created
    {
      var more: map<Path, string> := *;
      var grown := more + tree.nodes;
      if !quiet && IsClosed(grown.Keys) {
        tree := tree.(nodes := grown);
      }
    }

    predicate IsClosed(s: set<Path>)
      ensures IsClosed(s) ==> Closed(s)
    {
      forall p | p in s :: |p| > 1 ==> p[..|p| - 1] in s
    }

    method Fails() returns (f: bool)
      ensures quiet ==> !f
    {
      f := *;
      f := f && !quiet;
    }

    method Exists(p: Path) returns (r: Result<bool>)
      requires Sane(tree)
      modifies this`tree
      ensures Grown(old(tree), tree, {}, quiet) && tree.created == old(tree).created
      ensures (r.Ok? ==> (r.value <==> p in tree.nodes)) && (quiet ==> r.Ok?)
    {
      OthersAdd();
      var f := Fails();
      r := if f then Err else Ok(p in tree.nodes);
    }

    /** One attempt: the node is made, or was there already; the reply may be lost. */
    method Create(p: Path, value: string) returns (made: bool, existed: bool)
      requires Sane(tree) && p != []
      modifies this`tree
      ensures HasParent(old(tree).nodes.Keys, p) ==> Grown(old(tree), tree, {(p, value)}, quiet)
      ensures p in tree.created - old(tree).created ==> p in tree.nodes && tree.nodes[p] == value
      ensures (made || existed ==> p in tree.nodes) && (existed ==> !made)
      ensures quiet && existed ==> p in old(tree).nodes
      ensures made ==> p in tree.nodes && tree.nodes[p] == value
      ensures quiet && HasParent(old(tree).nodes.Keys, p) ==> made || existed
      ensures p !in tree.nodes ==> !made && !existed
      ensures quiet && p !in tree.nodes ==> tree == old(tree).(orphans := old(tree).orphans + 1)
    {
      OthersAdd();
      made, existed := false, false;
      var refused := Fails();
      if refused {
        return;
      }
      var lost := Fails();
      if p in tree.nodes {
        existed := !lost;
      } else if |p| > 1 && p[..|p| - 1] !in tree.nodes {
        tree := tree.(orphans := tree.orphans + 1);
      } else {
        made := !lost;
        tree := tree.(nodes := tree.nodes[p := value], created := tree.created + {p});
      }
    }

    /** Tries to create the node as often as the retries allow; that it exists will do. */
    method CreateRetrying(p: Path, value: string) returns (done: bool)
      requires Sane(tree) && p != [] && HasParent(tree.nodes.Keys, p)
      modifies this`tree
      ensures Grown(old(tree), tree, {(p, value)}, quiet)
      ensures p in tree.created - old(tree).created ==> p in tree.nodes && tree.nodes[p] == value
      ensures (done ==> p in tree.nodes) && (quiet ==> done)
    {
      var retries: nat := *;
      var made, existed := Create(p, value);
      done := made || existed;
      while !done && retries > 0
        invariant Grown(old(tree), tree, {(p, value)}, quiet)
        invariant p in tree.created - old(tree).created ==> p in tree.nodes && tree.nodes[p] == value
        invariant (done ==> p in tree.nodes) && (quiet ==> done)
        decreases retries
      {
        done := TryAgain(p, value, old(tree));
        retries := retries - 1;
      }
    }

    method TryAgain(p: Path, value: string, ghost start: Tree) returns (done: bool)
      requires p != [] && HasParent(start.nodes.Keys, p) && Grown(start, tree, {(p, value)}, quiet)
      requires p in tree.created - start.created ==> p in tree.nodes && tree.nodes[p] == value
      modifies this`tree
      ensures Grown(start, tree, {(p, value)}, quiet)
      ensures p in tree.created - start.created ==> p in tree.nodes && tree.nodes[p] == value
      ensures (done ==> p in tree.nodes) && (quiet ==> done)
    {
      ghost var before := tree;
      KeysGrow(start, before, {(p, value)}, quiet);
      var made, existed := Create(p, value);
      GrownOn(start, before, tree, {(p, value)}, quiet);
      done := made || existed;
    }

    method Get()
      requires available > 0
      modifies this`available, this`trace
      ensures available == old(available) - 1 && trace == old(trace) + [Take]
    {
      available, trace := available - 1, trace + [Take];
    }

    method Put()
      modifies this`available, this`trace
      ensures available == old(available) + 1 && trace == old(trace) + [Give]
    {
      available, trace := available + 1, trace + [Give];
    }

    /**
     * Each frame holds a client while the next one runs. `depth` is the number of frames below
     * this one; without interference it is the number of missing ancestors.
     */
    method EnsureParentNodes(p: Path) returns (r: Outcome, ghost depth: nat)
      requires Sane(tree) && p != []
      modifies this
      ensures Grown(old(tree), tree, Parents(p), quiet)
      ensures r == Done ==> HasAncestors(tree.nodes.Keys, p)
      ensures quiet && r == Done ==> tree.nodes.Keys == old(tree).nodes.Keys + ProperAncestors(p)
      ensures Frame(r, depth, Missing(old(tree).nodes.Keys, p), old(available), quiet)
      ensures r != Blocked ==> available == old(available) && trace == old(trace) + Ops(EnsureParentNodesCall(depth))
      decreases |p|, 3
    {
      if available == 0 {
        return Blocked, 0;
      }
      Get();
      r, depth := EnsureHolding(p);
      FrameTrace(old(trace), InnerOps(depth));
      CallOfInner(depth);
      if r != Blocked {
        Put();
      }
      if quiet && r == Done {
        QuietTree(old(tree), tree, p);
      }
    }

    /** What a frame does while it holds its client. */
    method EnsureHolding(p: Path) returns (r: Outcome, ghost depth: nat)
      requires Sane(tree) && p != []
      modifies this
      ensures Grown(old(tree), tree, Parents(p), quiet)
      ensures r == Done ==> HasAncestors(tree.nodes.Keys, p)
      ensures Frame(r, depth, Missing(old(tree).nodes.Keys, p), old(available) + 1, quiet)
      ensures r != Blocked ==> available == old(available) && trace == old(trace) + InnerOps(depth)
      decreases |p|, 2
    {
      if |p| == 1 {
        return Done, 0;
      }
      var found := Exists(p[..|p| - 1]);
      GrownWider(old(tree), tree, {}, Parents(p), quiet);
      if found.Err? {
        return Failed, 0;
      }
      if found.value {
        TopFrame(old(tree), tree, p, available, quiet);
        return Done, 0;
      }
      ghost var seen := tree;
      r, depth := EnsureMissingParent(p);
      GrownOn(old(tree), seen, tree, Parents(p), quiet);
      FrameAbove(old(tree), seen, p, r, depth, old(available), quiet);
      depth := depth + 1;
    }

    /** The rest of a frame, once the parent was seen to be missing: the frames above, then the parent. */
    method EnsureMissingParent(p: Path) returns (r: Outcome, ghost depth: nat)
      requires Sane(tree) && |p| > 1
      modifies this
      ensures Grown(old(tree), tree, Parents(p), quiet)
      ensures r == Done ==> HasAncestors(tree.nodes.Keys, p)
      ensures Frame(r, depth, Missing(old(tree).nodes.Keys, p[..|p| - 1]), old(available), quiet)
      ensures r != Blocked ==> available == old(available) && trace == old(trace) + Ops(EnsureParentNodesCall(depth))
      decreases |p|, 1
    {
      var parent := p[..|p| - 1];
      AncestorsOfParent(p);
      r, depth := EnsureParentNodes(parent);
      GrownWider(old(tree), tree, Parents(parent), Parents(p), quiet);
      if r == Done {
        ghost var ensured := tree;
        var done := CreateParent(p);
        GrownOn(old(tree), ensured, tree, Parents(p), quiet);
        r := if done then Done else Failed;
      }
    }

    /** Creates the parent, whose own ancestors are there. */
    method CreateParent(p: Path) returns (done: bool)
      requires Sane(tree) && |p| > 1 && HasAncestors(tree.nodes.Keys, p[..|p| - 1])
      modifies this`tree
      ensures Grown(old(tree), tree, Parents(p), quiet)
      ensures (done ==> HasAncestors(tree.nodes.Keys, p)) && (quiet ==> done)
    {
      var parent := p[..|p| - 1];
      AncestorsGiveParent(tree.nodes.Keys, parent);
      done := CreateRetrying(parent, "");
      AncestorsOfParent(p);
      GrownWider(old(tree), tree, {(parent, "")}, Parents(p), quiet);
      KeysGrow(old(tree), tree, {(parent, "")}, quiet);
      if done {
        AncestorsStay(old(tree).nodes.Keys, tree.nodes.Keys, parent);
        ParentGivesAncestors(tree.nodes.Keys, p);
      }
    }

    /** The provider's loop from the top: creates each missing ancestor on the way down. */
    method EnsurePath(p: Path) returns (r: Outcome)
      requires Sane(tree) && p != []
      modifies this`tree
      ensures Grown(old(tree), tree, Parents(p), quiet)
      ensures r == Done ==> HasAncestors(tree.nodes.Keys, p)
      ensures quiet && r == Done ==> tree.nodes.Keys == old(tree).nodes.Keys + ProperAncestors(p)
      ensures r != Blocked && (quiet ==> r == Done)
    {
      var i := 1;
      while i < |p|
        invariant 1 <= i <= |p| && Grown(old(tree), tree, Parents(p), quiet)
        invariant HasAncestors(tree.nodes.Keys, p[..i])
      {
        ghost var before := tree;
        var ok := EnsureNode(p, i);
        GrownOn(old(tree), before, tree, Parents(p), quiet);
        if !ok {
          return Failed;
        }
        i := i + 1;
      }
      assert p[..i] == p;
      if quiet {
        QuietTree(old(tree), tree, p);
      }
      return Done;
    }

    /** One turn of the loop: checks the k-th ancestor, and tries once to create it if it is missing. */
    method EnsureNode(p: Path, k: nat) returns (ok: bool)
      requires Sane(tree) && 1 <= k < |p| && HasAncestors(tree.nodes.Keys, p[..k])
      modifies this`tree
      ensures Grown(old(tree), tree, Parents(p), quiet)
      ensures (ok ==> HasAncestors(tree.nodes.Keys, p[..k + 1])) && (quiet ==> ok)
    {
      var current := p[..k];
      var found := Exists(current);
      GrownWider(old(tree), tree, {}, Parents(p), quiet);
      KeysGrow(old(tree), tree, Parents(p), quiet);
      AncestorsStay(old(tree).nodes.Keys, tree.nodes.Keys, current);
      ok := found.Ok? && found.value;
      if found.Ok? && !found.value {
        ghost var seen := tree;
        AncestorsGiveParent(seen.nodes.Keys, current);
        var made, existed := Create(current, "");
        assert current in ProperAncestors(p);
        GrownWider(seen, tree, {(current, "")}, Parents(p), quiet);
        GrownOn(old(tree), seen, tree, Parents(p), quiet);
        KeysGrow(seen, tree, Parents(p), quiet);
        AncestorsStay(seen.nodes.Keys, tree.nodes.Keys, current);
        ok := made || existed;
      }
      if ok {
        assert p[..k + 1][..k] == current;
        ParentGivesAncestors(tree.nodes.Keys, p[..k + 1]);
      }
    }

    /** Holds a client for the parents, then creates the service's own node. */
    method Register(p: Path, value: string) returns (r: Outcome, ghost depth: nat)
      requires Sane(tree) && p != []
      modifies this
      ensures Grown(old(tree), tree, Parents(p) + {(p, value)}, quiet)
      ensures r == Done ==> p in tree.nodes && HasAncestors(tree.nodes.Keys, p)
      ensures quiet && r == Done ==> tree.nodes.Keys == old(tree).nodes.Keys + ProperAncestors(p) + {p}
      ensures p in tree.created - old(tree).created ==> p in tree.nodes && tree.nodes[p] == value
      ensures Frame(r, depth, Missing(old(tree).nodes.Keys, p), old(available) - 1, quiet)
      ensures r != Blocked ==> available == old(available) && trace == old(trace) + Ops(ZkRegister(depth))
    {
      depth := 0;
      if available == 0 {
        return Blocked, depth;
      }
      Get();
      r, depth := EnsureParentNodes(p);
      RegisterTrace(old(trace), depth);
      GrownWider(old(tree), tree, Parents(p), Parents(p) + {(p, value)}, quiet);
      if r == Blocked {
        return;
      }
      if r == Done {
        var done := CreateOwn(p, value, old(tree));
        r := if done then Done else Failed;
      }
      Put();
    }

    /** The service's own node, once its parents are there. */
    method CreateOwn(p: Path, value: string, ghost start: Tree) returns (done: bool)
      requires p != [] && Grown(start, tree, Parents(p), quiet) && HasAncestors(tree.nodes.Keys, p)
      modifies this`tree
      ensures Grown(start, tree, Parents(p) + {(p, value)}, quiet)
      ensures p in tree.created - start.created ==> p in tree.nodes && tree.nodes[p] == value
      ensures done ==> p in tree.nodes && HasAncestors(tree.nodes.Keys, p)
      ensures quiet ==> done && tree.nodes.Keys == old(tree).nodes.Keys + {p}
    {
      ghost var before := tree;
      AncestorsGiveParent(before.nodes.Keys, p);
      done := CreateRetrying(p, value);
      assert p !in ProperAncestors(p);
      assert p !in before.created - start.created;
      KeysGrow(before, tree, {(p, value)}, quiet);
      AncestorsStay(before.nodes.Keys, tree.nodes.Keys, p);
      GrownWider(start, before, Parents(p), Parents(p) + {(p, value)}, quiet);
      GrownWider(before, tree, {(p, value)}, Parents(p) + {(p, value)}, quiet);
      GrownOn(start, before, tree, Parents(p) + {(p, value)}, quiet);
    }

    /** One remembered service: looks for its node and registers it if need be, once. */
    method CheckOnce(p: Path, value: string, services: map<Path, string>) returns (r: Outcome, ghost depths: seq<nat>)
      requires Sane(tree) && p != [] && p in services && value == services[p]
      modifies this
      ensures Grown(old(tree), tree, Above(services), quiet)
      ensures r == Done ==> p in tree.nodes
      ensures p in old(tree).nodes ==> tree.created == old(tree).created && r != Blocked
      ensures r != Blocked ==> available == old(available) && trace == old(trace) + OpsOfAll(RegisterCalls(depths))
      ensures quiet && (p !in old(tree).nodes ==> old(available) >= Missing(old(tree).nodes.Keys, p) + 2) ==> r == Done
    {
      AboveHasAll(services, p);
      depths := [];
      NoRegisterCall(trace);
      var found := Exists(p);
      GrownWider(old(tree), tree, {}, Above(services), quiet);
      KeysGrow(old(tree), tree, {}, quiet);
      if found.Err? {
        return Failed, depths;
      }
      if found.value {
        return Done, depths;
      }
      ghost var seen, depth := tree, 0;
      MissingShrinks(old(tree).nodes.Keys, seen.nodes.Keys, p);
      r, depth := Register(p, value);
      OneRegisterCall(old(trace), depth);
      depths := [depth];
      GrownWider(seen, tree, Parents(p) + {(p, value)}, Above(services), quiet);
      GrownOn(old(tree), seen, tree, Above(services), quiet);
    }

    /** The same, as often as the retries allow. */
    method EnsureRegistered(p: Path, value: string, services: map<Path, string>) returns (r: Outcome, ghost depths: seq<nat>)
      requires Sane(tree) && p != [] && p in services && value == services[p]
      modifies this
      ensures Grown(old(tree), tree, Above(services), quiet)
      ensures r == Done ==> p in tree.nodes
      ensures p in old(tree).nodes ==> tree.created == old(tree).created && r != Blocked
      ensures r != Blocked ==> available == old(available) && trace == old(trace) + OpsOfAll(RegisterCalls(depths))
      ensures quiet && (p !in old(tree).nodes ==> old(available) >= Missing(old(tree).nodes.Keys, p) + 2) ==> r == Done
    {
      var retries: nat := *;
      r, depths := CheckOnce(p, value, services);
      while r == Failed && retries > 0
        invariant Grown(old(tree), tree, Above(services), quiet)
        invariant r == Done ==> p in tree.nodes
        invariant p in old(tree).nodes ==> tree.created == old(tree).created && r != Blocked
        invariant r != Blocked ==> available == old(available) && trace == old(trace) + OpsOfAll(RegisterCalls(depths))
        invariant quiet && (p !in old(tree).nodes ==> old(available) >= Missing(old(tree).nodes.Keys, p) + 2) ==> r == Done
        decreases retries
      {
        ghost var before, so := tree, depths;
        KeysGrow(old(tree), before, Above(services), quiet);
        ghost var more;
        r, more := CheckOnce(p, value, services);
        GrownOn(old(tree), before, tree, Above(services), quiet);
        RegisterCallsMore(old(trace), so, more);
        depths := so + more;
        retries := retries - 1;
      }
    }

    /**
     * Registers again, in any order, every remembered service whose node is gone, holding a
     * client of its own; no node disappears meanwhile.
     */
    method CheckAndReRegister(services: map<Path, string>) returns (r: Outcome, ghost depths: seq<nat>)
      requires Sane(tree) && forall p | p in services :: p != []
      modifies this
      ensures Grown(old(tree), tree, Above(services), quiet)
      ensures r == Done ==> AllThere(services, tree)
      ensures Apart(services) ==> Restored(services, old(tree), tree)
      ensures Apart(services) && quiet && r == Done ==>
                forall p | p in services && p !in old(tree).nodes :: tree.nodes[p] == services[p]
      ensures AllThere(services, old(tree)) ==> tree.created == old(tree).created
      ensures r != Blocked ==> available == old(available) && trace == old(trace) + Ops(ZkCheck(depths))
      ensures quiet && Enough(services, old(tree), old(available)) ==> r == Done
    {
      depths := [];
      if available == 0 {
        return Blocked, depths;
      }
      Get();
      NoRegisterCall(trace);
      r, depths := CheckAll(services);
      FrameTrace(old(trace), OpsOfAll(RegisterCalls(depths)));
      if Apart(services) {
        CheckedAreRestored(services, old(tree), tree, quiet, r);
      }
      if r != Blocked {
        Put();
      }
    }

    method CheckAll(services: map<Path, string>) returns (r: Outcome, ghost depths: seq<nat>)
      requires Sane(tree) && forall p | p in services :: p != []
      modifies this
      ensures Grown(old(tree), tree, Above(services), quiet)
      ensures r == Done ==> AllThere(services, tree)
      ensures AllThere(services, old(tree)) ==> tree.created == old(tree).created
      ensures r != Blocked ==> available == old(available) && trace == old(trace) + OpsOfAll(RegisterCalls(depths))
      ensures quiet && Enough(services, old(tree), old(available) + 1) ==> r == Done
    {
      var rest := services.Keys;
      depths := [];
      NoRegisterCall(trace);
      while rest != {}
        invariant rest <= services.Keys && Grown(old(tree), tree, Above(services), quiet)
        invariant forall p | p in services.Keys - rest :: p in tree.nodes
        invariant AllThere(services, old(tree)) ==> tree.created == old(tree).created
        invariant available == old(available) && trace == old(trace) + OpsOfAll(RegisterCalls(depths))
        decreases rest
      {
        var p :| p in rest;
        ghost var before, so := tree, depths;
        KeysGrow(old(tree), before, Above(services), quiet);
        if quiet && Enough(services, old(tree), available + 1) {
          EnoughLasts(services, old(tree), before, Above(services), quiet, available + 1);
        }
        ghost var more;
        r, more := EnsureRegistered(p, services[p], services);
        GrownOn(old(tree), before, tree, Above(services), quiet);
        RegisterCallsMore(old(trace), so, more);
        KeysGrow(before, tree, Above(services), quiet);
        depths := so + more;
        if r != Done {
          return;
        }
        rest := rest - {p};
      }
      r := Done;
    }

    /** Reads the children of a service's node one by one; those that cannot be read are left out. */
    method GetInstances(p: Path) returns (r: Result<map<Path, string>>)
      requires Sane(tree)
      modifies this`tree
      ensures Grown(old(tree), tree, {}, quiet)
      ensures r.Ok? ==> OnlyChildren(tree, p, r.value)
      ensures quiet ==> r == Ok(ChildrenOf(old(tree), p)) && OnlyChildren(old(tree), p, r.value) && AllChildren(old(tree), p, r.value)
    {
      OthersAdd();
      var f := Fails();
      if f {
        return Err;
      }
      ghost var seen := tree;
      var children := ChildrenOf(tree, p);
      var rest, read: map<Path, string> := children.Keys, map[];
      while rest != {}
        invariant tree == seen && rest <= children.Keys && read.Keys <= children.Keys - rest
        invariant forall q | q in read :: read[q] == children[q]
        invariant quiet ==> read.Keys == children.Keys - rest
        decreases rest
      {
        var q :| q in rest;
        rest := rest - {q};
        var unread := Fails();
        if !unread {
          read := read[q := children[q]];
        }
      }
      ChildrenAnswer(tree, p, read);
      assert quiet ==> read == children && seen.nodes == old(tree).nodes;
      r := Ok(read);
    }

    /**
     * Ensures the parents of the lock node, and then creates or sets the key's own node: its
     * parent is there, because the lock is its sibling.
     */
    method PutConfig(p: Path, value: string) returns (r: Outcome)
      requires Sane(tree) && p != []
      modifies this`tree
      ensures Written(old(tree), tree, p, value, quiet)
      ensures r == Done ==> p in tree.nodes && tree.nodes[p] == value
      ensures r != Blocked && (quiet ==> r == Done && tree.nodes.Keys == old(tree).nodes.Keys + ProperAncestors(p) + {p})
    {
      var lock := p[..|p| - 1] + [p[|p| - 1] + "_lock"];
      SiblingAncestors(p, lock);
      r := EnsurePath(lock);
      GrownIsWritten(old(tree), tree, p, value, Parents(p), quiet);
      if r != Done {
        return;
      }
      var locked := Fails();
      if locked {
        return Failed;
      }
      var retries: nat := *;
      r := WriteOnce(p, value, old(tree));
      while r == Failed && retries > 0
        invariant Written(old(tree), tree, p, value, quiet) && HasAncestors(tree.nodes.Keys, p)
        invariant r == Done ==> p in tree.nodes && tree.nodes[p] == value
        invariant r != Blocked && (quiet ==> r == Done && tree.nodes.Keys == old(tree).nodes.Keys + ProperAncestors(p) + {p})
        decreases retries
      {
        r := WriteOnce(p, value, old(tree));
        retries := retries - 1;
      }
    }

    /** One attempt to write under the lock; it may take effect although it fails. */
    method WriteOnce(p: Path, value: string, ghost start: Tree) returns (r: Outcome)
      requires p != [] && Written(start, tree, p, value, quiet) && HasAncestors(tree.nodes.Keys, p)
      modifies this`tree
      ensures Written(start, tree, p, value, quiet) && HasAncestors(tree.nodes.Keys, p)
      ensures r == Done ==> p in tree.nodes && tree.nodes[p] == value
      ensures r != Blocked && (quiet ==> r == Done && tree.nodes.Keys == old(tree).nodes.Keys + {p})
    {
      ghost var before := tree;
      var found := Exists(p);
      GrownIsWritten(before, tree, p, value, {}, quiet);
      KeysGrow(before, tree, {}, quiet);
      AncestorsStay(before.nodes.Keys, tree.nodes.Keys, p);
      AncestorsGiveParent(tree.nodes.Keys, p);
      WrittenOn(start, before, tree, p, value, quiet);
      if found.Err? {
        return Failed;
      }
      ghost var seen := tree;
      r := SetOrCreate(p, value, found.value);
      WrittenOn(start, seen, tree, p, value, quiet);
      AncestorsStay(seen.nodes.Keys, tree.nodes.Keys, p);
    }

    method SetOrCreate(p: Path, value: string, found: bool) returns (r: Outcome)
      requires Sane(tree) && p != [] && HasParent(tree.nodes.Keys, p) && (found <==> p in tree.nodes)
      modifies this`tree
      ensures Written(old(tree), tree, p, value, quiet) && (quiet ==> tree.nodes.Keys == old(tree).nodes.Keys + {p})
      ensures r == Done ==> p in tree.nodes && tree.nodes[p] == value
      ensures r != Blocked && (quiet ==> r == Done)
    {
      if found {
        r := Set(p, value);
      } else {
        var made, existed := Create(p, value);
        GrownIsWritten(old(tree), tree, p, value, {(p, value)}, quiet);
        r := if made then Done else Failed;
      }
    }

    method Set(p: Path, value: string) returns (r: Outcome)
      requires Sane(tree) && p in tree.nodes
      modifies this`tree
      ensures Written(old(tree), tree, p, value, quiet) && tree.nodes.Keys == old(tree).nodes.Keys
      ensures r == Done ==> tree.nodes[p] == value
      ensures r != Blocked && (quiet ==> r == Done)
    {
      var refused := Fails();
      if refused {
        return Failed;
      }
      tree := tree.(nodes := tree.nodes[p := value]);
      var lost := Fails();
      r := if lost then Failed else Done;
    }
  }
}
