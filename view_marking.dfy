/**
 * What the marking operations of the view runtime guarantee: which nodes
 * `markAncestorsForTraversal` writes, that it only ever sets markers, that it
 * never touches the view it was called on, that the marking entry points keep
 * the propagation invariant, and their idempotence.
 */
module ViewMarking {
  import opened Wrappers
  import opened ViewModel

  /** Marking a node at distance `dx` from the root does not change the chain read from a node nearer the root. */
  lemma {:induction false} ChainIgnoresDeeperMark(h: Heap, x: Node, dx: nat, n: Option<Node>, depth: nat)
    requires RootAt(h, Some(x), dx) && RootAt(h, n, depth) && depth < dx
    ensures RootAt(SetMarker(h, x), n, depth)
    ensures TraversalChain(SetMarker(h, x), n, depth) == TraversalChain(h, n, depth)
    decreases depth
  {
    var h' := SetMarker(h, x);
    assert SameShape(h, h');
    RootAtSameShape(h, h', n, depth);
    if n.Some? {
      var y := n.value;
      DepthSeparates(h, x, dx, y, depth);
      assert HasMarker(h', y) == HasMarker(h, y);
      if !HasMarker(h, y) && !IsDetachedView(h, y) {
        ChainIgnoresDeeperMark(h, x, dx, ParentOf(h, y), depth - 1);
      }
    }
  }

  /** A node farther from the root than `n` is not on the chain walked from `n`. */
  lemma {:induction false} DeeperNodeNotInChain(h: Heap, x: Node, dx: nat, n: Option<Node>, depth: nat)
    requires RootAt(h, Some(x), dx) && RootAt(h, n, depth) && depth < dx
    ensures x !in TraversalChain(h, n, depth)
    decreases depth
  {
    if n.Some? {
      DepthSeparates(h, x, dx, n.value, depth);
      if !HasMarker(h, n.value) && !IsDetachedView(h, n.value) {
        DeeperNodeNotInChain(h, x, dx, ParentOf(h, n.value), depth - 1);
      }
    }
  }

  /**
   * `markAncestorsForTraversal` sets the marker on exactly the nodes of the chain
   * from the start view's parent up to the first stop point, and changes nothing else.
   */
  lemma {:induction false} MarkAncestorsMarksChain(h: Heap, n: Option<Node>, depth: nat)
    requires RootAt(h, n, depth)
    ensures AfterMarkAncestors(h, n, depth) == WithMarkers(h, NodeSet(TraversalChain(h, n, depth)))
    decreases depth
  {
    var chain := NodeSet(TraversalChain(h, n, depth));
    match n
    case None =>
      assert chain == {};
      WithNoMarkers(h);
    case Some(x) =>
      if HasMarker(h, x) {
        assert chain == {};
        WithNoMarkers(h);
      } else if IsDetachedView(h, x) {
        assert chain == {x} + {};
        WithNoMarkers(SetMarker(h, x));
        WithOneMoreMarker(h, x, {});
      } else {
        var h' := SetMarker(h, x);
        var p := ParentOf(h, x);
        assert SameShape(h, h');
        RootAtSameShape(h, h', p, depth - 1);
        MarkAncestorsMarksChain(h', p, depth - 1);
        ChainIgnoresDeeperMark(h, x, depth, p, depth - 1);
        var rest := NodeSet(TraversalChain(h, p, depth - 1));
        assert chain == {x} + rest;
        WithOneMoreMarker(h, x, rest);
      }
  }

  /** `markAncestorsForTraversal` only ever sets markers: no other field changes and no flag is cleared. */
  lemma MarkAncestorsOnlySetsMarkers(h: Heap, n: Option<Node>, depth: nat)
    requires RootAt(h, n, depth)
    ensures OnlyMarkersSet(h, AfterMarkAncestors(h, n, depth))
    ensures SameShape(h, AfterMarkAncestors(h, n, depth))
  {
    MarkAncestorsMarksChain(h, n, depth);
  }

  /** Every node of the chain ends with the marker; every node off the chain is unchanged. */
  lemma MarkAncestorsChainEffect(h: Heap, n: Option<Node>, depth: nat)
    requires RootAt(h, n, depth)
    ensures var r := AfterMarkAncestors(h, n, depth);
      && r.views.Keys == h.views.Keys && r.containers.Keys == h.containers.Keys
      && (forall i :: 0 <= i < |TraversalChain(h, n, depth)| ==>
            Has(r, TraversalChain(h, n, depth)[i]) && HasMarker(r, TraversalChain(h, n, depth)[i]))
      && (forall v :: v in h.views && ViewNode(v) !in TraversalChain(h, n, depth) ==> r.views[v] == h.views[v])
      && (forall c :: c in h.containers && ContainerNode(c) !in TraversalChain(h, n, depth) ==>
            r.containers[c] == h.containers[c])
  {
    var chain := TraversalChain(h, n, depth);
    MarkAncestorsMarksChain(h, n, depth);
    WithMarkersEffect(h, NodeSet(chain));
  }

  /** The whole PARENT path from `n` up to the root, whatever the markers. */
  ghost function Ancestors(h: Heap, n: Option<Node>, depth: nat): (path: seq<Node>)
    requires RootAt(h, n, depth)
    ensures |path| == depth
    ensures forall j :: 0 <= j < |path| ==> Has(h, path[j])
    decreases depth
  {
    match n
    case None => []
    case Some(x) => [x] + Ancestors(h, ParentOf(h, x), depth - 1)
  }

  /** The `j`-th node of the path is `depth - j` links from the root. */
  lemma {:induction false} AncestorDepth(h: Heap, n: Option<Node>, depth: nat, j: nat)
    requires RootAt(h, n, depth) && j < depth
    ensures RootAt(h, Some(Ancestors(h, n, depth)[j]), depth - j)
    decreases depth
  {
    if j > 0 {
      AncestorDepth(h, ParentOf(h, n.value), depth - 1, j - 1);
    }
  }

  /** The chain is the start of the path to the root. */
  lemma {:induction false} ChainIsPathPrefix(h: Heap, n: Option<Node>, depth: nat)
    requires RootAt(h, n, depth)
    ensures |TraversalChain(h, n, depth)| <= |Ancestors(h, n, depth)|
    ensures forall k :: 0 <= k < |TraversalChain(h, n, depth)| ==>
              TraversalChain(h, n, depth)[k] == Ancestors(h, n, depth)[k]
    decreases depth
  {
    if n.Some? && !HasMarker(h, n.value) && !IsDetachedView(h, n.value) {
      ChainIsPathPrefix(h, ParentOf(h, n.value), depth - 1);
    }
  }

  /** A marked ancestor is not reached by the chain: the chain stops below it. */
  lemma ChainStopsBelowMarked(h: Heap, n: Option<Node>, depth: nat, i: nat)
    requires RootAt(h, n, depth) && i < depth
    requires HasMarker(h, Ancestors(h, n, depth)[i])
    ensures |TraversalChain(h, n, depth)| <= i
  {
    var anc := Ancestors(h, n, depth);
    var chain := TraversalChain(h, n, depth);
    ChainIsPathPrefix(h, n, depth);
  }

  /** The path to the root visits each node once. */
  lemma PathNodesDistinct(h: Heap, n: Option<Node>, depth: nat, k: nat, j: nat)
    requires RootAt(h, n, depth) && k < j < depth
    ensures Ancestors(h, n, depth)[k] != Ancestors(h, n, depth)[j]
  {
    var anc := Ancestors(h, n, depth);
    AncestorDepth(h, n, depth, k);
    AncestorDepth(h, n, depth, j);
    DepthSeparates(h, anc[k], depth - k, anc[j], depth - j);
  }

  /** Nodes of the path at or above position `|chain|` are not on the chain. */
  lemma PathAboveChainIsOffChain(h: Heap, n: Option<Node>, depth: nat, j: nat)
    requires RootAt(h, n, depth) && |TraversalChain(h, n, depth)| <= j < depth
    ensures Ancestors(h, n, depth)[j] !in TraversalChain(h, n, depth)
  {
    var chain := TraversalChain(h, n, depth);
    ChainIsPathPrefix(h, n, depth);
    forall k | 0 <= k < |chain|
      ensures chain[k] != Ancestors(h, n, depth)[j]
    {
      PathNodesDistinct(h, n, depth, k, j);
    }
  }

  /**
   * Early exit: when the `i`-th ancestor already has the marker, that ancestor and every
   * node above it are left exactly as they were.
   */
  lemma NothingWrittenAboveMarkedAncestor(h: Heap, n: Option<Node>, depth: nat, i: nat)
    requires RootAt(h, n, depth) && i < depth
    requires HasMarker(h, Ancestors(h, n, depth)[i])
    ensures var anc := Ancestors(h, n, depth);
            var r := AfterMarkAncestors(h, n, depth);
      forall j :: i <= j < depth ==>
        match anc[j]
        case ViewNode(v) => v in r.views && r.views[v] == h.views[v]
        case ContainerNode(c) => c in r.containers && r.containers[c] == h.containers[c]
  {
    var anc := Ancestors(h, n, depth);
    ChainStopsBelowMarked(h, n, depth, i);
    MarkAncestorsChainEffect(h, n, depth);
    forall j | i <= j < depth
      ensures anc[j] !in TraversalChain(h, n, depth) && Has(h, anc[j])
    {
      PathAboveChainIsOffChain(h, n, depth, j);
    }
  }

  /**
   * Going from `h` to `r` removes no view and changes no view's creation mode,
   * attachment to change detection or attachment to a container.
   */
  ghost predicate KeepsViewStatus(h: Heap, r: Heap) {
    forall v :: v in h.views ==>
      && v in r.views
      && IsCreationMode(r.views[v]) == IsCreationMode(h.views[v])
      && ViewAttachedToChangeDetector(r.views[v]) == ViewAttachedToChangeDetector(h.views[v])
      && ViewAttachedToContainer(r.views[v]) == ViewAttachedToContainer(h.views[v])
  }

  /** The upward walk keeps every view's status. */
  lemma MarkAncestorsKeepsViewStatus(h: Heap, n: Option<Node>, depth: nat)
    requires RootAt(h, n, depth)
    ensures KeepsViewStatus(h, AfterMarkAncestors(h, n, depth))
  {
    MarkAncestorsOnlySetsMarkers(h, n, depth);
  }

  /** So do `markViewForRefresh` and `updateAncestorTraversalFlagsOnAttach`. */
  lemma EntryPointsKeepViewStatus(h: Heap, v: Id, depth: nat)
    requires RootAt(h, Some(ViewNode(v)), depth)
    ensures KeepsViewStatus(h, AfterMarkViewForRefresh(h, v, depth))
    ensures KeepsViewStatus(h, AfterAttach(h, v, depth))
  {
    MarkAncestorsKeepsViewStatus(h, h.views[v].parent, depth - 1);
    if !h.views[v].flags.refreshView && ViewAttachedToChangeDetector(h.views[v]) {
      var h1 := SetRefresh(h, v);
      assert SameShape(h, h1);
      RootAtSameShape(h, h1, h.views[v].parent, depth - 1);
      MarkAncestorsKeepsViewStatus(h1, h.views[v].parent, depth - 1);
    }
  }

  /** So does `markViewDirtyFromSignal`. */
  lemma SignalKeepsViewStatus(h: Heap, v: Id, depth: nat)
    requires ComponentViewRootAt(h, v, depth)
    ensures KeepsViewStatus(h, AfterMarkDirtyFromSignal(h, v, depth))
  {
    var cv := h.views[v].declarationComponentView;
    if ViewAttachedToChangeDetector(h.views[cv]) {
      var h1 := SetRefresh(h, cv);
      assert SameShape(h, h1);
      RootAtSameShape(h, h1, h.views[cv].parent, depth - 1);
      MarkAncestorsKeepsViewStatus(h1, h.views[cv].parent, depth - 1);
    }
  }

  /** `markAncestorsForTraversal(lView)` never modifies `lView` itself. */
  lemma MarkAncestorsSkipsStartView(h: Heap, v: Id, depth: nat)
    requires RootAt(h, Some(ViewNode(v)), depth)
    ensures v in AfterMarkAncestors(h, h.views[v].parent, depth - 1).views
    ensures AfterMarkAncestors(h, h.views[v].parent, depth - 1).views[v] == h.views[v]
  {
    MarkAncestorsMarksChain(h, h.views[v].parent, depth - 1);
    DeeperNodeNotInChain(h, ViewNode(v), depth, h.views[v].parent, depth - 1);
  }

  // ---------------------------------------------------------------------------
  // The propagation invariant
  // ---------------------------------------------------------------------------

  /** The view needs refreshing itself or below; a container has a descendant that does. */
  ghost predicate NeedsTraversal(h: Heap, x: Node)
    requires Has(h, x)
  {
    match x
    case ViewNode(v) => h.views[v].flags.refreshView || h.views[v].flags.hasChildViewsToRefresh
    case ContainerNode(c) => h.containers[c].hasChildViewsToRefresh
  }

  /** A node that needs traversal and is not a detached view has a marked parent (if any). */
  ghost predicate Covered(h: Heap, x: Node)
    requires Has(h, x)
  {
    NeedsTraversal(h, x) && !IsDetachedView(h, x) && ParentOf(h, x).Some? ==>
      Has(h, ParentOf(h, x).value) && HasMarker(h, ParentOf(h, x).value)
  }

  /**
   * Change detection reaches every node that needs it: following markers up from any
   * attached node that needs traversal leads to the root, or stops at a detached view.
   */
  ghost predicate Propagated(h: Heap) {
    forall x :: Has(h, x) ==> Covered(h, x)
  }

  /** Consecutive nodes of the path to the root are linked by PARENT. */
  lemma {:induction false} AncestorStep(h: Heap, n: Option<Node>, depth: nat, k: nat)
    requires RootAt(h, n, depth) && k + 1 < depth
    ensures ParentOf(h, Ancestors(h, n, depth)[k]) == Some(Ancestors(h, n, depth)[k + 1])
    decreases depth
  {
    if k > 0 {
      AncestorStep(h, ParentOf(h, n.value), depth - 1, k - 1);
    }
  }

  /**
   * The global reading of `Propagated`: above a node that needs traversal, every
   * ancestor up to the root carries the marker, until the path passes a detached view.
   */
  lemma {:induction false} PropagatedMarksPathToRoot(h: Heap, n: Option<Node>, depth: nat, j: nat)
    requires RootAt(h, n, depth) && Propagated(h) && 0 < j < depth
    requires NeedsTraversal(h, Ancestors(h, n, depth)[0])
    requires forall k :: 0 <= k < j ==> !IsDetachedView(h, Ancestors(h, n, depth)[k])
    ensures HasMarker(h, Ancestors(h, n, depth)[j])
    decreases j
  {
    var anc := Ancestors(h, n, depth);
    if j > 1 {
      PropagatedMarksPathToRoot(h, n, depth, j - 1);
    }
    AncestorStep(h, n, depth, j - 1);
    assert Covered(h, anc[j - 1]);
  }

  /** Setting one marker keeps every other node covered. */
  lemma SetMarkerKeepsCovered(h: Heap, y: Node, x: Node)
    requires Has(h, y) && Has(h, x) && x != y && Covered(h, x)
    ensures Has(SetMarker(h, y), x) && Covered(SetMarker(h, y), x)
  {
    var h' := SetMarker(h, y);
    assert NeedsTraversal(h', x) == NeedsTraversal(h, x);
    assert ParentOf(h', x) == ParentOf(h, x);
    if ParentOf(h, x).Some? && Has(h, ParentOf(h, x).value) && HasMarker(h, ParentOf(h, x).value) {
      assert HasMarker(h', ParentOf(h, x).value);
    }
  }

  /**
   * If every node other than `s` is covered, walking up from `s`'s parent makes the
   * whole tree covered: `markAncestorsForTraversal` repairs the invariant at `s`.
   */
  lemma {:induction false} MarkAncestorsRestoresPropagation(h: Heap, s: Node, depth: nat)
    requires RootAt(h, Some(s), depth)
    requires forall x :: Has(h, x) && x != s ==> Covered(h, x)
    ensures Propagated(AfterMarkAncestors(h, ParentOf(h, s), depth - 1))
    decreases depth
  {
    var p := ParentOf(h, s);
    if p.Some? && !HasMarker(h, p.value) {
      var y := p.value;
      var h' := SetMarker(h, y);
      assert SameShape(h, h');
      DepthSeparates(h, s, depth, y, depth - 1);
      forall x | Has(h', x) && x != y
        ensures Covered(h', x)
      {
        if x == s {
          assert ParentOf(h', s) == Some(y);
          assert HasMarker(h', y);
        } else {
          SetMarkerKeepsCovered(h, y, x);
        }
      }
      if !IsDetachedView(h, y) {
        RootAtSameShape(h, h', Some(y), depth - 1);
        assert ParentOf(h', y) == ParentOf(h, y);
        MarkAncestorsRestoresPropagation(h', y, depth - 1);
      } else {
        assert Covered(h', y);
      }
    }
  }

  /** Setting RefreshView on `v` leaves every other node covered. */
  lemma SetRefreshKeepsOthersCovered(h: Heap, v: Id)
    requires v in h.views && Propagated(h)
    ensures forall x :: Has(SetRefresh(h, v), x) && x != ViewNode(v) ==> Covered(SetRefresh(h, v), x)
  {
    var h1 := SetRefresh(h, v);
    forall x | Has(h1, x) && x != ViewNode(v)
      ensures Covered(h1, x)
    {
      assert Covered(h, x);
      assert NeedsTraversal(h1, x) == NeedsTraversal(h, x);
      assert ParentOf(h1, x) == ParentOf(h, x);
      if ParentOf(h, x).Some? && NeedsTraversal(h, x) && !IsDetachedView(h, x) {
        assert HasMarker(h1, ParentOf(h, x).value) == HasMarker(h, ParentOf(h, x).value);
      }
    }
  }

  /** `markViewForRefresh` keeps the propagation invariant. */
  lemma MarkViewForRefreshPropagates(h: Heap, v: Id, depth: nat)
    requires RootAt(h, Some(ViewNode(v)), depth) && Propagated(h)
    ensures Propagated(AfterMarkViewForRefresh(h, v, depth))
  {
    if !h.views[v].flags.refreshView {
      var h1 := SetRefresh(h, v);
      assert SameShape(h, h1);
      SetRefreshKeepsOthersCovered(h, v);
      if ViewAttachedToChangeDetector(h.views[v]) {
        RootAtSameShape(h, h1, Some(ViewNode(v)), depth);
        MarkAncestorsRestoresPropagation(h1, ViewNode(v), depth);
      } else {
        assert Covered(h1, ViewNode(v));
      }
    }
  }

  /**
   * Attach-time catch-up: if the invariant held everywhere except at a view that has
   * just been attached, `updateAncestorTraversalFlagsOnAttach` restores it.
   */
  lemma AttachRestoresPropagation(h: Heap, v: Id, depth: nat)
    requires RootAt(h, Some(ViewNode(v)), depth)
    requires forall x :: Has(h, x) && x != ViewNode(v) ==> Covered(h, x)
    ensures Propagated(AfterAttach(h, v, depth))
  {
    if h.views[v].flags.refreshView || h.views[v].flags.hasChildViewsToRefresh {
      MarkAncestorsRestoresPropagation(h, ViewNode(v), depth);
    } else {
      assert Covered(h, ViewNode(v));
    }
  }

  /**
   * A caller that attaches a view in a propagated tree and then calls
   * `updateAncestorTraversalFlagsOnAttach` gets a propagated tree back.
   */
  lemma AttachFromPropagated(h: Heap, v: Id, depth: nat)
    requires RootAt(h, Some(ViewNode(v)), depth) && Propagated(h)
    ensures RootAt(SetAttached(h, v), Some(ViewNode(v)), depth)
    ensures Propagated(AfterAttach(SetAttached(h, v), v, depth))
  {
    var a := SetAttached(h, v);
    RootAtSetAttached(h, v, Some(ViewNode(v)), depth);
    forall x | Has(a, x) && x != ViewNode(v)
      ensures Covered(a, x)
    {
      assert Has(h, x) && Covered(h, x);
    }
    AttachRestoresPropagation(a, v, depth);
  }

  /** `markViewDirtyFromSignal` keeps the propagation invariant. */
  lemma MarkDirtyFromSignalPropagates(h: Heap, v: Id, depth: nat)
    requires ComponentViewRootAt(h, v, depth) && Propagated(h)
    ensures Propagated(AfterMarkDirtyFromSignal(h, v, depth))
  {
    var cv := h.views[v].declarationComponentView;
    var h1 := SetRefresh(h, cv);
    assert SameShape(h, h1);
    SetRefreshKeepsOthersCovered(h, cv);
    if ViewAttachedToChangeDetector(h.views[cv]) {
      RootAtSameShape(h, h1, Some(ViewNode(cv)), depth);
      MarkAncestorsRestoresPropagation(h1, ViewNode(cv), depth);
    } else {
      assert Covered(h1, ViewNode(cv));
    }
  }

  // ---------------------------------------------------------------------------
  // Effects of the entry points
  // ---------------------------------------------------------------------------

  /**
   * `markViewForRefresh`: a no-op when RefreshView is set; otherwise RefreshView is set
   * on the view and, only when it is attached, the markers of the traversal chain above it.
   */
  lemma MarkViewForRefreshEffect(h: Heap, v: Id, depth: nat)
    requires RootAt(h, Some(ViewNode(v)), depth)
    ensures h.views[v].flags.refreshView ==> AfterMarkViewForRefresh(h, v, depth) == h
    ensures !h.views[v].flags.refreshView && !ViewAttachedToChangeDetector(h.views[v]) ==>
              AfterMarkViewForRefresh(h, v, depth) == SetRefresh(h, v)
    ensures !h.views[v].flags.refreshView && ViewAttachedToChangeDetector(h.views[v]) ==>
              AfterMarkViewForRefresh(h, v, depth)
              == WithMarkers(SetRefresh(h, v), NodeSet(TraversalChain(h, h.views[v].parent, depth - 1)))
  {
    if !h.views[v].flags.refreshView && ViewAttachedToChangeDetector(h.views[v]) {
      var h1 := SetRefresh(h, v);
      var p := h.views[v].parent;
      assert SameShape(h, h1);
      RootAtSameShape(h, h1, p, depth - 1);
      MarkAncestorsMarksChain(h1, p, depth - 1);
      TraversalChainIgnoresRefresh(h, v, p, depth - 1);
    }
  }

  /** RefreshView is not read by the chain, so setting it does not change the chain. */
  lemma {:induction false} TraversalChainIgnoresRefresh(h: Heap, v: Id, n: Option<Node>, depth: nat)
    requires v in h.views && RootAt(h, n, depth)
    ensures RootAt(SetRefresh(h, v), n, depth)
    ensures TraversalChain(SetRefresh(h, v), n, depth) == TraversalChain(h, n, depth)
    decreases depth
  {
    var h1 := SetRefresh(h, v);
    assert SameShape(h, h1);
    RootAtSameShape(h, h1, n, depth);
    if n.Some? {
      assert HasMarker(h1, n.value) == HasMarker(h, n.value);
      if !HasMarker(h, n.value) && !IsDetachedView(h, n.value) {
        TraversalChainIgnoresRefresh(h, v, ParentOf(h, n.value), depth - 1);
      }
    }
  }

  /** Calling `markViewForRefresh` twice leaves the tree as calling it once. */
  lemma MarkViewForRefreshIdempotent(h: Heap, v: Id, depth: nat)
    requires RootAt(h, Some(ViewNode(v)), depth)
    ensures RootAt(AfterMarkViewForRefresh(h, v, depth), Some(ViewNode(v)), depth)
    ensures AfterMarkViewForRefresh(AfterMarkViewForRefresh(h, v, depth), v, depth)
            == AfterMarkViewForRefresh(h, v, depth)
  {
    var r := AfterMarkViewForRefresh(h, v, depth);
    if !h.views[v].flags.refreshView {
      var h1 := SetRefresh(h, v);
      assert SameShape(h, h1);
      if ViewAttachedToChangeDetector(h.views[v]) {
        RootAtSameShape(h, h1, Some(ViewNode(v)), depth);
        MarkAncestorsOnlySetsMarkers(h1, h.views[v].parent, depth - 1);
        assert r.views[v].flags.refreshView;
        RootAtSameShape(h1, r, Some(ViewNode(v)), depth);
      } else {
        RootAtSameShape(h, h1, Some(ViewNode(v)), depth);
      }
    }
  }

  /**
   * `markViewDirtyFromSignal` sets RefreshView on the declaration component view and on
   * no other view, and changes nothing beyond it when that view is detached. When it is
   * attached, the chain above it gains markers even if RefreshView was already set.
   */
  lemma MarkDirtyFromSignalTargetsComponentView(h: Heap, v: Id, depth: nat)
    requires ComponentViewRootAt(h, v, depth)
    ensures var cv := h.views[v].declarationComponentView;
            var r := AfterMarkDirtyFromSignal(h, v, depth);
      && r.views.Keys == h.views.Keys
      && r.views[cv].flags.refreshView
      && (forall w :: w in h.views && w != cv ==> r.views[w].flags.refreshView == h.views[w].flags.refreshView)
      && (!ViewAttachedToChangeDetector(h.views[cv]) ==>
            r.containers == h.containers && forall w :: w in h.views && w != cv ==> r.views[w] == h.views[w])
    ensures var cv := h.views[v].declarationComponentView;
      !ViewAttachedToChangeDetector(h.views[cv]) ==> AfterMarkDirtyFromSignal(h, v, depth) == SetRefresh(h, cv)
    ensures var cv := h.views[v].declarationComponentView;
      ViewAttachedToChangeDetector(h.views[cv]) ==>
        AfterMarkDirtyFromSignal(h, v, depth)
        == WithMarkers(SetRefresh(h, cv), NodeSet(TraversalChain(h, h.views[cv].parent, depth - 1)))
  {
    var cv := h.views[v].declarationComponentView;
    var h1 := SetRefresh(h, cv);
    assert SameShape(h, h1);
    if ViewAttachedToChangeDetector(h.views[cv]) {
      var p := h.views[cv].parent;
      RootAtSameShape(h, h1, p, depth - 1);
      MarkAncestorsOnlySetsMarkers(h1, p, depth - 1);
      MarkAncestorsMarksChain(h1, p, depth - 1);
      TraversalChainIgnoresRefresh(h, cv, p, depth - 1);
    }
  }

  /** When the component view is not yet marked, the signal entry point is `markViewForRefresh` on it. */
  lemma MarkDirtyFromSignalIsRefreshOfComponentView(h: Heap, v: Id, depth: nat)
    requires ComponentViewRootAt(h, v, depth)
    requires !h.views[h.views[v].declarationComponentView].flags.refreshView
    ensures AfterMarkDirtyFromSignal(h, v, depth)
            == AfterMarkViewForRefresh(h, h.views[v].declarationComponentView, depth)
  {
  }

  /** `updateAncestorTraversalFlagsOnAttach` is a no-op unless the view needs traversal; else it is `markAncestorsForTraversal`. */
  lemma AttachEffect(h: Heap, v: Id, depth: nat)
    requires RootAt(h, Some(ViewNode(v)), depth)
    ensures !NeedsTraversal(h, ViewNode(v)) ==> AfterAttach(h, v, depth) == h
    ensures NeedsTraversal(h, ViewNode(v)) ==>
              AfterAttach(h, v, depth) == WithMarkers(h, NodeSet(TraversalChain(h, h.views[v].parent, depth - 1)))
  {
    MarkAncestorsMarksChain(h, h.views[v].parent, depth - 1);
  }

  // ---------------------------------------------------------------------------
  // Idempotence and attach-time catch-up
  // ---------------------------------------------------------------------------

  /** A second `markAncestorsForTraversal` from the same node changes nothing: its first node is now marked. */
  lemma MarkAncestorsIdempotent(h: Heap, n: Option<Node>, depth: nat)
    requires RootAt(h, n, depth)
    ensures RootAt(AfterMarkAncestors(h, n, depth), n, depth)
    ensures AfterMarkAncestors(AfterMarkAncestors(h, n, depth), n, depth) == AfterMarkAncestors(h, n, depth)
  {
    var r := AfterMarkAncestors(h, n, depth);
    MarkAncestorsOnlySetsMarkers(h, n, depth);
    RootAtSameShape(h, r, n, depth);
    if n.Some? && !HasMarker(h, n.value) {
      MarkAncestorsChainEffect(h, n, depth);
      assert TraversalChain(h, n, depth)[0] == n.value;
      assert HasMarker(r, n.value);
    }
  }

  /** Calling `markViewDirtyFromSignal` twice leaves the tree as calling it once. */
  lemma MarkDirtyFromSignalIdempotent(h: Heap, v: Id, depth: nat)
    requires ComponentViewRootAt(h, v, depth)
    ensures ComponentViewRootAt(AfterMarkDirtyFromSignal(h, v, depth), v, depth)
    ensures AfterMarkDirtyFromSignal(AfterMarkDirtyFromSignal(h, v, depth), v, depth)
            == AfterMarkDirtyFromSignal(h, v, depth)
  {
    var cv := h.views[v].declarationComponentView;
    var h1 := SetRefresh(h, cv);
    var r := AfterMarkDirtyFromSignal(h, v, depth);
    assert SameShape(h, h1);
    RootAtSameShape(h, h1, Some(ViewNode(cv)), depth);
    if ViewAttachedToChangeDetector(h.views[cv]) {
      var p := h.views[cv].parent;
      MarkAncestorsOnlySetsMarkers(h1, p, depth - 1);
      MarkAncestorsSkipsStartView(h1, cv, depth);
      RootAtSameShape(h1, r, Some(ViewNode(cv)), depth);
      assert r.views[v].declarationComponentView == cv;
      assert r.views[cv] == h1.views[cv];
      assert SetRefresh(r, cv).views == r.views;
      assert SetRefresh(r, cv) == r;
      MarkAncestorsIdempotent(h1, p, depth - 1);
    } else {
      assert r.views[v].declarationComponentView == cv;
      assert SetRefresh(r, cv) == r;
    }
  }

  /**
   * Attach-time catch-up: a detached view marked for refresh while detached (which only
   * sets RefreshView), then attached and passed to `updateAncestorTraversalFlagsOnAttach`,
   * ends in the same tree as a view attached first and marked afterwards.
   */
  lemma AttachCatchesUpOnRefresh(h: Heap, v: Id, depth: nat)
    requires RootAt(h, Some(ViewNode(v)), depth)
    requires !ViewAttachedToChangeDetector(h.views[v]) && !h.views[v].flags.refreshView
    ensures RootAt(SetAttached(AfterMarkViewForRefresh(h, v, depth), v), Some(ViewNode(v)), depth)
    ensures RootAt(SetAttached(h, v), Some(ViewNode(v)), depth)
    ensures AfterAttach(SetAttached(AfterMarkViewForRefresh(h, v, depth), v), v, depth)
            == AfterMarkViewForRefresh(SetAttached(h, v), v, depth)
  {
    var h1 := SetRefresh(h, v);
    assert SameShape(h, h1);
    RootAtSameShape(h, h1, Some(ViewNode(v)), depth);
    RootAtSetAttached(h1, v, Some(ViewNode(v)), depth);
    RootAtSetAttached(h, v, Some(ViewNode(v)), depth);
    var a := SetAttached(h, v);
    assert SetRefresh(a, v) == SetAttached(h1, v);
  }

  /**
   * Without `updateAncestorTraversalFlagsOnAttach` the catch-up is lost: once RefreshView
   * was set while detached, `markViewForRefresh` after attaching is a no-op, while the
   * attach-time walk marks the unmarked parent.
   */
  lemma AttachNeededWhenAlreadyRefreshed(h: Heap, v: Id, depth: nat)
    requires RootAt(h, Some(ViewNode(v)), depth)
    requires !ViewAttachedToChangeDetector(h.views[v]) && h.views[v].flags.refreshView
    ensures RootAt(SetAttached(h, v), Some(ViewNode(v)), depth)
    ensures AfterMarkViewForRefresh(SetAttached(h, v), v, depth) == SetAttached(h, v)
    ensures var p := h.views[v].parent;
      p.Some? && Has(h, p.value) && !HasMarker(h, p.value) ==>
        && Has(AfterAttach(SetAttached(h, v), v, depth), p.value)
        && HasMarker(AfterAttach(SetAttached(h, v), v, depth), p.value)
        && !HasMarker(SetAttached(h, v), p.value)
  {
    RootAtSetAttached(h, v, Some(ViewNode(v)), depth);
    var a := SetAttached(h, v);
    var p := h.views[v].parent;
    if p.Some? && !HasMarker(h, p.value) {
      DepthSeparates(h, ViewNode(v), depth, p.value, depth - 1);
      assert HasMarker(a, p.value) == HasMarker(h, p.value);
      MarkAncestorsChainEffect(a, p, depth - 1);
      assert TraversalChain(a, p, depth - 1)[0] == p.value;
    }
  }
}
