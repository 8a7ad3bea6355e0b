/**
 * The CoAP server the mapper runs when the system under test is a CoAP client
 * (`EdhocServer`): the EDHOC and application resources are placed in a
 * resource tree built from their '/'-separated paths, and every request they
 * receive is handed to the mapper through the one-slot exchange queues
 * (`CoapExchanger`).
 *
 * The resource tree is a map from a resource's path (its names from the server
 * root down) to its kind. Adding a child under a name a sibling already has
 * replaces that sibling together with everything below it, as Californium's
 * `CoapResource.add` does.
 */
module CoapServerTree {
  import opened Types
  import opened Strings
  import Exchange

  datatype ResourceKind = Inner | EdhocLeaf | AppLeaf

  type Path = seq<string>

  predicate IsPrefix(p: Path, q: Path)
  {
    |p| <= |q| && q[..|p|] == p
  }

  /** `tree` with the resource at `path` (and everything below it) replaced by a fresh one of `kind`. */
  function Attach(tree: map<Path, ResourceKind>, path: Path, kind: ResourceKind): (r: map<Path, ResourceKind>)
    ensures path in r && r[path] == kind
  {
    (map q | q in tree && !IsPrefix(path, q) :: tree[q])[path := kind]
  }

  /** A path is served after the attachment iff it is the attached one or it was served and lies outside the replaced subtree. */
  lemma AttachAt(tree: map<Path, ResourceKind>, path: Path, kind: ResourceKind, q: Path)
    ensures q in Attach(tree, path, kind) <==> q == path || (q in tree && !IsPrefix(path, q))
    ensures q in Attach(tree, path, kind) && q != path ==> Attach(tree, path, kind)[q] == tree[q]
  {
  }

  /** The path of the resource a resource was added to. */
  function Parent(q: Path): Path
  {
    if |q| == 0 then [] else q[..|q| - 1]
  }

  /** Every resource hangs below the server root: each proper ancestor of a resource is a resource too. */
  ghost predicate Rooted(tree: map<Path, ResourceKind>)
  {
    && [] !in tree
    && forall q {:trigger Parent(q)} :: q in tree && |q| > 1 ==> Parent(q) in tree
  }

  /** Attaching below the root or below an existing resource keeps the tree rooted. */
  lemma AttachRooted(tree: map<Path, ResourceKind>, path: Path, kind: ResourceKind)
    requires Rooted(tree)
    requires |path| == 1 || (|path| > 1 && Parent(path) in tree)
    ensures Rooted(Attach(tree, path, kind))
  {
    var r := Attach(tree, path, kind);
    AttachAt(tree, path, kind, []);
    forall q | q in r && |q| > 1
      ensures Parent(q) in r
    {
      var parent := Parent(q);
      AttachAt(tree, path, kind, q);
      AttachAt(tree, path, kind, parent);
      if q != path {
        assert !IsPrefix(path, parent) by {
          if |path| <= |parent| {
            assert parent[..|path|] == q[..|path|];
          }
        }
      }
    }
  }

  // ---------------------------------------------------------------------
  // The path of a resource
  // ---------------------------------------------------------------------

  /** The names of a resource path, as `resource.split("/")` gives them. */
  function Components(resource: string): (r: seq<string>)
    ensures forall i :: 0 <= i < |r| ==> '/' !in r[i]
  {
    var r := JavaSplit(resource, '/');
    assert forall i :: 0 <= i < |r| ==> '/' !in r[i] by {
      if '/' in resource {
        SplitAtPieces(resource, '/');
        var all := SplitAt(resource, '/');
        forall i | 0 <= i < |r| ensures '/' !in r[i] {
          assert r[i] == all[i];
          assert forall j :: 0 <= j < |all[i]| ==> all[i][j] != '/';
        }
      }
    }
    r
  }

  /**
   * `extractLeafResourceString`: the last name of the path; a path whose
   * split is empty (only slashes) makes Java index out of bounds.
   */
  function LeafResourceName(resource: string): (r: Result<string, Exception>)
    ensures r.Ok? <==> |Components(resource)| > 0
    ensures r.Ok? ==> '/' !in r.value && r.value == Components(resource)[|Components(resource)| - 1]
    ensures r.Err? ==> r.error == IndexOutOfBounds
  {
    var parts := Components(resource);
    if |parts| == 0 then Err(IndexOutOfBounds) else Ok(parts[|parts| - 1])
  }

  /**
   * A path written from names without slashes, the last one non-empty, is
   * split back into those names, and its leaf is the last of them.
   */
  lemma LeafOfJoin(names: seq<string>)
    requires |names| > 0 && names[|names| - 1] != []
    requires forall i :: 0 <= i < |names| ==> '/' !in names[i]
    ensures Components(JoinWith(names, '/')) == names
    ensures LeafResourceName(JoinWith(names, '/')) == Ok(names[|names| - 1])
  {
    JavaSplitJoin(names, '/');
  }


  // ---------------------------------------------------------------------
  // The inner resources, as written and as intended
  // ---------------------------------------------------------------------

  /** `rootResource.add(innerResources)`: every name becomes a child of `parent`, in order. */
  function AttachAll(tree: map<Path, ResourceKind>, parent: Path, names: seq<string>): map<Path, ResourceKind>
    decreases |names|
  {
    if |names| == 0 then tree else AttachAll(Attach(tree, parent + [names[0]], Inner), parent, names[1..])
  }

  /**
   * The tree `createInnerResourceTree` leaves: the root resource, and every
   * inner name as a direct child of the root.
   */
  function InnerTreeAsWritten(tree: map<Path, ResourceKind>, parts: seq<string>): map<Path, ResourceKind>
  {
    if |parts| <= 1 then tree
    else AttachAll(Attach(tree, [parts[0]], Inner), [parts[0]], parts[1..|parts| - 1])
  }

  /** The resource `createInnerResourceTree` returns as the leaf's parent. */
  function InnerLastAsWritten(parts: seq<string>): Option<Path>
  {
    if |parts| <= 1 then None
    else if |parts| == 2 then Some([parts[0]])
    else Some([parts[0], parts[|parts| - 2]])
  }

  /** The intended tree: a chain in which each name is the child of the one before it. */
  function InnerChain(tree: map<Path, ResourceKind>, parts: seq<string>, n: nat): map<Path, ResourceKind>
    requires n <= |parts|
  {
    if n == 0 then tree else Attach(InnerChain(tree, parts, n - 1), parts[..n], Inner)
  }

  function InnerLast(parts: seq<string>): Option<Path>
  {
    if |parts| <= 1 then None else Some(parts[..|parts| - 1])
  }

  /** Where the leaf resource ends up below the returned parent. */
  function LeafPath(last: Option<Path>, leaf: string): Path
  {
    (if last.None? then [] else last.value) + [leaf]
  }

  /**
   * The intended tree serves every proper prefix of the path as an inner
   * resource, so the leaf is served at the path it was configured with.
   */
  lemma {:induction false} InnerChainServes(tree: map<Path, ResourceKind>, parts: seq<string>, n: nat)
    requires n <= |parts|
    ensures forall m :: 1 <= m <= n ==> parts[..m] in InnerChain(tree, parts, n) && InnerChain(tree, parts, n)[parts[..m]] == Inner
    decreases n
  {
    if n > 0 {
      InnerChainServes(tree, parts, n - 1);
      var before := InnerChain(tree, parts, n - 1);
      forall m | 1 <= m < n
        ensures parts[..m] in InnerChain(tree, parts, n) && InnerChain(tree, parts, n)[parts[..m]] == Inner
      {
        assert !IsPrefix(parts[..n], parts[..m]);
        assert parts[..m] in before;
      }
    }
  }

  /** Building a chain keeps every resource outside the chain's root. */
  lemma {:induction false} InnerChainKeeps(tree: map<Path, ResourceKind>, parts: seq<string>, n: nat, q: Path)
    requires 1 <= n <= |parts| || n == 0
    requires q in tree && |q| > 0
    requires n > 0 ==> parts[0] != q[0]
    ensures q in InnerChain(tree, parts, n) && InnerChain(tree, parts, n)[q] == tree[q]
    decreases n
  {
    if n > 0 {
      InnerChainKeeps(tree, parts, n - 1, q);
      assert !IsPrefix(parts[..n], q) by { assert parts[..n][0] == parts[0]; }
    }
  }

  lemma IntendedLeafPath(resource: string)
    requires |Components(resource)| > 0
    ensures LeafPath(InnerLast(Components(resource)), LeafResourceName(resource).value) == Components(resource)
  {
    var parts := Components(resource);
    if |parts| > 1 {
      assert parts[..|parts| - 1] + [parts[|parts| - 1]] == parts;
    }
  }

  /**
   * With four or more names the written code serves the leaf two levels below
   * the root, skipping every inner name but the last: `a/b/c/d` is served at
   * `a/c/d` and nothing is served at `a/b/c/d`.
   */
  lemma ComponentsExample()
    ensures Components("a/b/c/d") == ["a", "b", "c", "d"]
  {
    assert "a/b/c/d" == JoinWith(["a", "b", "c", "d"], '/');
    LeafOfJoin(["a", "b", "c", "d"]);
  }

  lemma AsWrittenMisplacesLeaf()
    ensures LeafPath(InnerLastAsWritten(["a", "b", "c", "d"]), "d") == ["a", "c", "d"]
    ensures ["a", "b", "c"] !in InnerTreeAsWritten(map[], ["a", "b", "c", "d"])
  {
    var t0 := Attach(map[], ["a"], Inner);
    var t1 := Attach(t0, ["a", "b"], Inner);
    var t2 := Attach(t1, ["a", "c"], Inner);
    var bc: seq<string> := ["b", "c"];
    assert ["a", "b", "c", "d"][1..3] == bc;
    assert bc[0] == "b" && bc[1..] == ["c"];
    assert ["a"] + ["b"] == ["a", "b"];
    assert AttachAll(t0, ["a"], bc) == AttachAll(t1, ["a"], ["c"]);
    assert ["c"][1..] == [];
    assert ["a"] + ["c"] == ["a", "c"];
    assert AttachAll(t1, ["a"], ["c"]) == t2;
    AttachAt(map[], ["a"], Inner, ["a", "b", "c"]);
    AttachAt(t0, ["a", "b"], Inner, ["a", "b", "c"]);
    AttachAt(t1, ["a", "c"], Inner, ["a", "b", "c"]);
    assert IsPrefix(["a", "b"], ["a", "b", "c"]) by { assert ["a", "b", "c"][..2] == ["a", "b"]; }
  }

  // ---------------------------------------------------------------------
  // The exchange hand-off
  // ---------------------------------------------------------------------

  /** `CoapExchangeInfo`: the received exchange (by identity) and what it carries. */
  datatype ExchangeInfo = ExchangeInfo(exchange: Option<nat>, hasEdhocMessage: bool, hasApplicationData: bool)

  const FRESH_INFO: ExchangeInfo := ExchangeInfo(None, false, false)

  /** The entry a request fills in: the pending draft, or a fresh entry when there is none. */
  function Filled(draftQueue: seq<ExchangeInfo>, exchange: nat, edhoc: bool): (r: ExchangeInfo)
    ensures r.exchange == Some(exchange)
    ensures edhoc ==> r.hasEdhocMessage
    ensures !edhoc ==> r.hasApplicationData
    ensures draftQueue != [] && edhoc ==> r.hasApplicationData == draftQueue[0].hasApplicationData
    ensures draftQueue != [] && !edhoc ==> r.hasEdhocMessage == draftQueue[0].hasEdhocMessage
    ensures draftQueue == [] && edhoc ==> !r.hasApplicationData
    ensures draftQueue == [] && !edhoc ==> !r.hasEdhocMessage
  {
    var info := if draftQueue == [] then FRESH_INFO else draftQueue[0];
    if edhoc then info.(exchange := Some(exchange), hasEdhocMessage := true)
    else info.(exchange := Some(exchange), hasApplicationData := true)
  }

  /**
   * The body shared by the EDHOC POST and application GET handlers: the
   * draft entry is taken (or a fresh one made), filled in, and offered to the
   * received queue; when that queue is full the entry is dropped. The
   * exchanger is `Exchange.CoapExchanger`, both of whose queues hold one
   * entry in this version (`Exchange.NewLegacyExchanger`).
   */
  method HandOff(exchanger: Exchange.CoapExchanger<ExchangeInfo>, exchange: nat, edhoc: bool) returns (offered: bool)
    requires exchanger.Valid()
    modifies exchanger
    ensures exchanger.Valid()
    ensures exchanger.draftQueue == if old(exchanger.draftQueue) == [] then [] else old(exchanger.draftQueue)[1..]
    ensures offered <==> |old(exchanger.receivedQueue)| < exchanger.capacity
    ensures exchanger.receivedQueue ==
              if offered then old(exchanger.receivedQueue) + [Filled(old(exchanger.draftQueue), exchange, edhoc)]
              else old(exchanger.receivedQueue)
  {
    var info := Filled(exchanger.draftQueue, exchange, edhoc);
    var _ := exchanger.PollDraft();
    offered := exchanger.OfferReceived(info);
  }

  // ---------------------------------------------------------------------
  // The server
  // ---------------------------------------------------------------------

  class EdhocServer {
    var tree: map<Path, ResourceKind>
    const exchanger: Exchange.CoapExchanger?<ExchangeInfo>

    constructor Empty(exchanger: Exchange.CoapExchanger?<ExchangeInfo>)
      ensures tree == map[] && this.exchanger == exchanger
    {
      tree := map[];
      this.exchanger := exchanger;
    }

    /**
     * `createInnerResourceTree` as written: the root resource is added to the
     * server and then every inner name is added as a child of the root.
     */
    method CreateInnerResourceTreeAsWritten(resource: string) returns (last: Option<Path>)
      requires Rooted(tree)
      modifies this
      ensures Rooted(tree)
      ensures tree == InnerTreeAsWritten(old(tree), Components(resource))
      ensures last == InnerLastAsWritten(Components(resource))
      ensures last.Some? ==> last.value in tree
    {
      var parts := Components(resource);
      if |parts| <= 1 {
        return None;
      }
      var root: Path := [parts[0]];
      AttachRooted(tree, root, Inner);
      tree := Attach(tree, root, Inner);
      var inner := parts[1..|parts| - 1];
      ghost var start := tree;
      var i := 0;
      while i < |inner|
        invariant 0 <= i <= |inner|
        invariant Rooted(tree) && root in tree
        invariant i > 0 ==> root + [inner[i - 1]] in tree
        invariant AttachAll(start, root, inner) == AttachAll(tree, root, inner[i..])
      {
        var child := root + [inner[i]];
        assert Parent(child) == root;
        AttachRooted(tree, child, Inner);
        AttachAt(tree, child, Inner, root);
        assert inner[i..][0] == inner[i] && inner[i..][1..] == inner[i + 1..];
        tree := Attach(tree, child, Inner);
        i := i + 1;
      }
      assert inner[i..] == [];
      if |parts| == 2 {
        last := Some(root);
      } else {
        last := Some(root + [inner[|inner| - 1]]);
        assert root + [inner[|inner| - 1]] == [parts[0], parts[|parts| - 2]];
      }
    }

    /**
     * The intended `createInnerResourceTree`: each inner name is added as a
     * child of the one before it, so the returned parent is the whole path
     * but its last name.
     */
    method CreateInnerResourceTree(resource: string) returns (last: Option<Path>)
      requires Rooted(tree)
      modifies this
      ensures Rooted(tree)
      ensures tree == InnerChain(old(tree), Components(resource), if |Components(resource)| <= 1 then 0 else |Components(resource)| - 1)
      ensures last == InnerLast(Components(resource))
      ensures last.Some? ==> last.value in tree
    {
      var parts := Components(resource);
      if |parts| <= 1 {
        return None;
      }
      ghost var start := tree;
      var n := 1;
      while n < |parts|
        invariant 1 <= n <= |parts|
        invariant Rooted(tree)
        invariant tree == InnerChain(start, parts, n - 1)
        invariant n > 1 ==> parts[..n - 1] in tree
      {
        var path := parts[..n];
        assert Rooted(Attach(tree, path, Inner)) by {
          assert n > 1 ==> Parent(path) == parts[..n - 1];
          AttachRooted(tree, path, Inner);
        }
        tree := Attach(tree, path, Inner);
        n := n + 1;
      }
      last := Some(parts[..|parts| - 1]);
    }

    /** `addLeafResource`: the leaf goes below the returned parent, or directly below the server root. */
    method AddLeafResource(last: Option<Path>, leaf: string, kind: ResourceKind)
      requires Rooted(tree)
      requires last.Some? ==> last.value in tree
      modifies this
      ensures Rooted(tree)
      ensures tree == Attach(old(tree), LeafPath(last, leaf), kind)
    {
      var path := LeafPath(last, leaf);
      if last.Some? {
        assert Parent(path) == last.value;
        assert |path| > 1 by { assert last.value != []; }
      }
      AttachRooted(tree, path, kind);
      tree := Attach(tree, path, kind);
    }

    /** The EDHOC resource's POST handler. */
    method HandlePost(exchange: nat) returns (response: Option<string>)
      requires exchanger != null ==> exchanger.Valid()
      modifies exchanger
      ensures exchanger == null ==> response == Some("EDHOC POST response")
      ensures exchanger != null ==> response.None? && exchanger.Valid()
      ensures exchanger != null ==>
                exchanger.receivedQueue ==
                  if |old(exchanger.receivedQueue)| < exchanger.capacity
                  then old(exchanger.receivedQueue) + [Filled(old(exchanger.draftQueue), exchange, true)]
                  else old(exchanger.receivedQueue)
    {
      if exchanger == null {
        response := Some("EDHOC POST response");
      } else {
        var _ := HandOff(exchanger, exchange, true);
        response := None;
      }
    }

    /** The application resource's GET handler. */
    method HandleAppGet(exchange: nat) returns (response: Option<string>)
      requires exchanger != null ==> exchanger.Valid()
      modifies exchanger
      ensures exchanger == null ==> response == Some("Application GET response")
      ensures exchanger != null ==> response.None? && exchanger.Valid()
      ensures exchanger != null ==>
                exchanger.receivedQueue ==
                  if |old(exchanger.receivedQueue)| < exchanger.capacity
                  then old(exchanger.receivedQueue) + [Filled(old(exchanger.draftQueue), exchange, false)]
                  else old(exchanger.receivedQueue)
    {
      if exchanger == null {
        response := Some("Application GET response");
      } else {
        var _ := HandOff(exchanger, exchange, false);
        response := None;
      }
    }
  }

  /** The number of inner resources the intended builder adds for a path. */
  function ChainLength(parts: seq<string>): (n: nat)
    ensures n <= |parts|
  {
    if |parts| <= 1 then 0 else |parts| - 1
  }

  /** The tree after the EDHOC resource and then the application resource are placed, each with the intended builder. */
  function ServedTree(e: seq<string>, a: seq<string>): map<Path, ResourceKind>
  {
    var withEdhoc := Attach(InnerChain(map[], e, ChainLength(e)), e, EdhocLeaf);
    Attach(InnerChain(withEdhoc, a, ChainLength(a)), a, AppLeaf)
  }

  /** Two paths with different root names are both served, each as its own kind of leaf. */
  lemma ServedTreeHasBoth(e: seq<string>, a: seq<string>)
    requires |e| > 0 && |a| > 0 && e[0] != a[0]
    ensures e in ServedTree(e, a) && ServedTree(e, a)[e] == EdhocLeaf
    ensures a in ServedTree(e, a) && ServedTree(e, a)[a] == AppLeaf
  {
    var withEdhoc := Attach(InnerChain(map[], e, ChainLength(e)), e, EdhocLeaf);
    InnerChainKeeps(withEdhoc, a, ChainLength(a), e);
    assert !IsPrefix(a, e) by { assert a[..1] == [a[0]] && e[..1] == [e[0]]; }
    AttachAt(InnerChain(withEdhoc, a, ChainLength(a)), a, AppLeaf, e);
  }

  /**
   * The server's construction with the intended tree builder. A path made
   * only of slashes has no leaf name and raises; two paths from different
   * root names are both served where they were configured (a second root of
   * the same name would replace the first, with everything below it).
   */
  method NewEdhocServer(edhocResource: string, appResource: string, exchanger: Exchange.CoapExchanger?<ExchangeInfo>)
    returns (r: Result<EdhocServer, Exception>)
    ensures r.Err? <==> |Components(edhocResource)| == 0 || |Components(appResource)| == 0
    ensures r.Err? ==> r.error == IndexOutOfBounds
    ensures r.Ok? ==> r.value.tree == ServedTree(Components(edhocResource), Components(appResource))
    ensures r.Ok? && Components(edhocResource)[0] != Components(appResource)[0] ==>
              && Components(edhocResource) in r.value.tree && r.value.tree[Components(edhocResource)] == EdhocLeaf
              && Components(appResource) in r.value.tree && r.value.tree[Components(appResource)] == AppLeaf
  {
    var e := Components(edhocResource);
    var a := Components(appResource);
    var s := new EdhocServer.Empty(exchanger);
    var lastE := s.CreateInnerResourceTree(edhocResource);
    var leafE := LeafResourceName(edhocResource);
    if leafE.Err? {
      return Err(leafE.error);
    }
    assert LeafPath(lastE, leafE.value) == e by { IntendedLeafPath(edhocResource); }
    s.AddLeafResource(lastE, leafE.value, EdhocLeaf);
    var lastA := s.CreateInnerResourceTree(appResource);
    var leafA := LeafResourceName(appResource);
    if leafA.Err? {
      return Err(leafA.error);
    }
    assert LeafPath(lastA, leafA.value) == a by { IntendedLeafPath(appResource); }
    s.AddLeafResource(lastA, leafA.value, AppLeaf);
    r := Ok(s);
    if e[0] != a[0] {
      ServedTreeHasBoth(e, a);
    }
  }
}
