/**
 * The runtime view tree: views (`LView`) and containers (`LContainer`) kept in an
 * arena keyed by id, the slot values a view stores, and the specification of the
 * "needs refresh" marking that the runtime performs on that tree.
 *
 * The source discriminates what a slot holds by its shape (an array or not, then
 * the type of its TYPE entry); here a slot is an explicit tagged value.
 */
module ViewModel {
  import opened Wrappers

  type Id = nat

  /** Identity of a destroy callback; the source compares callbacks by reference. */
  type Callback = nat

  /** First index of a view's data array that holds template slots rather than header entries. */
  const HEADER_OFFSET: nat := 25

  /** What one position of a view's data array (or a HOST entry) holds. */
  datatype Slot =
    | RNode(node: nat)          // a render-target handle
    | NullNode                  // `null` (an empty slot, or the HOST of a root view)
    | View(view: Id)            // an `LView`
    | Container(container: Id)  // an `LContainer`

  /** A structural parent: views have a view or container parent, containers a view. */
  datatype Node = ViewNode(id: Id) | ContainerNode(id: Id)

  /** The `LViewFlags` bits the core reads or writes, as named booleans. */
  datatype LViewFlags = LViewFlags(
    creationMode: bool,
    attached: bool,
    refreshView: bool,
    hasChildViewsToRefresh: bool,
    destroyed: bool)

  datatype LView = LView(
    host: Slot,                             // HOST
    flags: LViewFlags,                      // FLAGS
    parent: Option<Node>,                   // PARENT
    declarationView: Option<Id>,            // DECLARATION_VIEW
    declarationComponentView: Id,           // DECLARATION_COMPONENT_VIEW
    preOrderHookFlags: nat,                 // PREORDER_HOOK_FLAGS
    onDestroyHooks: Option<seq<Callback>>,  // ON_DESTROY_HOOKS
    data: seq<Slot>)                        // the whole array; slots start at HEADER_OFFSET

  datatype LContainer = LContainer(
    host: Slot,                    // HOST
    hasChildViewsToRefresh: bool,  // HAS_CHILD_VIEWS_TO_REFRESH
    parent: Id)                    // PARENT, always a view

  datatype Heap = Heap(views: map<Id, LView>, containers: map<Id, LContainer>)

  // ---------------------------------------------------------------------------
  // Flag predicates (`isCreationMode`, `viewAttachedToChangeDetector`,
  // `viewAttachedToContainer`) and `getConstant`
  // ---------------------------------------------------------------------------

  predicate IsCreationMode(view: LView) { view.flags.creationMode }

  predicate ViewAttachedToChangeDetector(view: LView) { view.flags.attached }

  predicate ViewAttachedToContainer(view: LView) {
    view.parent.Some? && view.parent.value.ContainerNode?
  }

  /** A constant of a template's constant table; an absent index yields null. */
  function GetConstant<T>(consts: Option<seq<T>>, index: Option<int>): (r: Option<T>)
    requires index.Some? ==> consts.Some? && 0 <= index.value < |consts.value|
    ensures r.None? <==> index.None?
    ensures index.Some? ==> r.value == consts.value[index.value]
  {
    match index
    case None => None
    case Some(i) => Some(consts.value[i])
  }

  // ---------------------------------------------------------------------------
  // HOST links: unwrapping a slot
  // ---------------------------------------------------------------------------

  /** The slot is a view or container present in the heap (an array in the source). */
  predicate Wraps(h: Heap, s: Slot) {
    match s
    case View(v) => v in h.views
    case Container(c) => c in h.containers
    case _ => false
  }

  predicate IsWrapper(s: Slot) { s.View? || s.Container? }

  /** `value[HOST]` of a view or container. */
  function HostOf(h: Heap, s: Slot): Slot
    requires Wraps(h, s)
  {
    match s
    case View(v) => h.views[v].host
    case Container(c) => h.containers[c].host
  }

  /** Following HOST links from `s` ends in a non-wrapper within `depth` steps. */
  ghost predicate HostAt(h: Heap, s: Slot, depth: nat)
    decreases depth
  {
    if IsWrapper(s) then depth > 0 && Wraps(h, s) && HostAt(h, HostOf(h, s), depth - 1)
    else true
  }

  /** The slots met while following HOST links from `s`, ending at the first non-wrapper. */
  ghost function HostChain(h: Heap, s: Slot, depth: nat): (chain: seq<Slot>)
    requires HostAt(h, s, depth)
    ensures |chain| > 0 && chain[0] == s
    ensures !IsWrapper(chain[|chain| - 1])
    ensures forall i :: 0 <= i < |chain| - 1 ==> Wraps(h, chain[i])
    ensures forall i :: 0 <= i < |chain| - 1 ==> chain[i + 1] == HostOf(h, chain[i])
    decreases depth
  {
    if IsWrapper(s) then [s] + HostChain(h, HostOf(h, s), depth - 1) else [s]
  }

  /** Index of the first view in `chain`, or -1 when it holds none. */
  function FirstViewIndex(chain: seq<Slot>): (i: int)
    ensures -1 <= i < |chain|
    ensures i >= 0 ==> chain[i].View?
    ensures forall j :: 0 <= j < |chain| && (i == -1 || j < i) ==> !chain[j].View?
  {
    if chain == [] then -1
    else if chain[0].View? then 0
    else
      var k := FirstViewIndex(chain[1..]);
      if k == -1 then -1 else k + 1
  }

  function FirstView(chain: seq<Slot>): Option<Id> {
    var i := FirstViewIndex(chain);
    if i == -1 then None else Some(chain[i].view)
  }

  /** The slot of `getComponentLViewByIndex`: a component view, or a container hosted by one. */
  predicate ComponentHostSlot(h: Heap, s: Slot) {
    s.View? || (s.Container? && s.container in h.containers && h.containers[s.container].host.View?)
  }

  function GetComponentLViewByIndex(h: Heap, nodeIndex: nat, hostView: Id): Id
    requires hostView in h.views && nodeIndex < |h.views[hostView].data|
    requires ComponentHostSlot(h, h.views[hostView].data[nodeIndex])
  {
    match h.views[hostView].data[nodeIndex]
    case View(v) => v
    case Container(c) => h.containers[c].host.view
  }

  /** `getComponentLViewByIndex` finds the same view as `unwrapLView` on that slot. */
  lemma ComponentLViewIsUnwrappedView(h: Heap, nodeIndex: nat, hostView: Id, depth: nat)
    requires hostView in h.views && nodeIndex < |h.views[hostView].data|
    requires ComponentHostSlot(h, h.views[hostView].data[nodeIndex])
    requires HostAt(h, h.views[hostView].data[nodeIndex], depth)
    ensures FirstView(HostChain(h, h.views[hostView].data[nodeIndex], depth))
            == Some(GetComponentLViewByIndex(h, nodeIndex, hostView))
  {
    var s := h.views[hostView].data[nodeIndex];
    var chain := HostChain(h, s, depth);
    if s.Container? {
      assert chain[1] == h.containers[s.container].host;
      assert FirstViewIndex(chain) == 1;
    }
  }

  // ---------------------------------------------------------------------------
  // DECLARATION_VIEW links: `walkUpViews`
  // ---------------------------------------------------------------------------

  /** The view has at least `level` declaration ancestors. */
  ghost predicate HasDeclarationAncestors(h: Heap, v: Id, level: int)
    decreases level
  {
    v in h.views &&
    (level > 0 ==> h.views[v].declarationView.Some? &&
                   HasDeclarationAncestors(h, h.views[v].declarationView.value, level - 1))
  }

  /** The view reached by following `level` DECLARATION_VIEW links (none when `level <= 0`). */
  ghost function DeclarationAncestor(h: Heap, v: Id, level: int): Id
    requires HasDeclarationAncestors(h, v, level)
    decreases level
  {
    if level <= 0 then v else DeclarationAncestor(h, h.views[v].declarationView.value, level - 1)
  }

  /** Walking up `a` levels and then `b` more is walking up `a + b` levels. */
  lemma {:induction false} WalkUpViewsComposes(h: Heap, v: Id, a: nat, b: nat)
    requires HasDeclarationAncestors(h, v, a + b)
    ensures HasDeclarationAncestors(h, v, a)
    ensures HasDeclarationAncestors(h, DeclarationAncestor(h, v, a), b)
    ensures DeclarationAncestor(h, DeclarationAncestor(h, v, a), b) == DeclarationAncestor(h, v, a + b)
    decreases a
  {
    if a > 0 {
      WalkUpViewsComposes(h, h.views[v].declarationView.value, a - 1, b);
    }
  }

  // ---------------------------------------------------------------------------
  // PARENT links and the HAS_CHILD_VIEWS_TO_REFRESH marker
  // ---------------------------------------------------------------------------

  predicate Has(h: Heap, n: Node) {
    match n
    case ViewNode(v) => v in h.views
    case ContainerNode(c) => c in h.containers
  }

  function ParentOf(h: Heap, n: Node): Option<Node>
    requires Has(h, n)
  {
    match n
    case ViewNode(v) => h.views[v].parent
    case ContainerNode(c) => Some(ViewNode(h.containers[c].parent))
  }

  /** `HAS_CHILD_VIEWS_TO_REFRESH` of a container, or the `HasChildViewsToRefresh` flag of a view. */
  predicate HasMarker(h: Heap, n: Node)
    requires Has(h, n)
  {
    match n
    case ViewNode(v) => h.views[v].flags.hasChildViewsToRefresh
    case ContainerNode(c) => h.containers[c].hasChildViewsToRefresh
  }

  /** A view that is not attached to change detection; containers are never detached. */
  predicate IsDetachedView(h: Heap, n: Node)
    requires Has(h, n)
  {
    n.ViewNode? && !h.views[n.id].flags.attached
  }

  /** `n` is exactly `depth` PARENT links from a root (so the chain above it is acyclic). */
  ghost predicate RootAt(h: Heap, n: Option<Node>, depth: nat)
    decreases depth
  {
    match n
    case None => depth == 0
    case Some(x) => depth > 0 && Has(h, x) && RootAt(h, ParentOf(h, x), depth - 1)
  }

  /** Same views and containers with the same parents and attachment. */
  ghost predicate SameShape(h: Heap, h': Heap) {
    && h'.views.Keys == h.views.Keys
    && h'.containers.Keys == h.containers.Keys
    && (forall v :: v in h.views ==>
          h'.views[v].parent == h.views[v].parent &&
          h'.views[v].flags.attached == h.views[v].flags.attached)
    && (forall c :: c in h.containers ==> h'.containers[c].parent == h.containers[c].parent)
  }

  lemma RootAtSameShape(h: Heap, h': Heap, n: Option<Node>, depth: nat)
    requires SameShape(h, h') && RootAt(h, n, depth)
    ensures RootAt(h', n, depth)
    decreases depth
  {
    if n.Some? {
      RootAtSameShape(h, h', ParentOf(h, n.value), depth - 1);
    }
  }

  lemma {:induction false} DepthUnique(h: Heap, n: Option<Node>, d1: nat, d2: nat)
    requires RootAt(h, n, d1) && RootAt(h, n, d2)
    ensures d1 == d2
    decreases d1
  {
    if n.Some? {
      DepthUnique(h, ParentOf(h, n.value), d1 - 1, d2 - 1);
    }
  }

  /** Nodes at different distances from the root are different nodes. */
  lemma DepthSeparates(h: Heap, x: Node, dx: nat, y: Node, dy: nat)
    requires RootAt(h, Some(x), dx) && RootAt(h, Some(y), dy)
    ensures x == y ==> dx == dy
  {
    if x == y {
      DepthUnique(h, Some(x), dx, dy);
    }
  }

  function MarkView(view: LView): LView {
    view.(flags := view.flags.(hasChildViewsToRefresh := true))
  }

  function MarkContainer(c: LContainer): LContainer {
    c.(hasChildViewsToRefresh := true)
  }

  /** The heap after the single write `markAncestorsForTraversal` makes on `n`. */
  function SetMarker(h: Heap, n: Node): (r: Heap)
    requires Has(h, n)
  {
    match n
    case ViewNode(v) => h.(views := h.views[v := MarkView(h.views[v])])
    case ContainerNode(c) => h.(containers := h.containers[c := MarkContainer(h.containers[c])])
  }

  /** The heap after `lView[FLAGS] |= RefreshView`. */
  function SetRefresh(h: Heap, v: Id): (r: Heap)
    requires v in h.views
  {
    h.(views := h.views[v := h.views[v].(flags := h.views[v].flags.(refreshView := true))])
  }

  /**
   * The heap after the caller of `updateAncestorTraversalFlagsOnAttach` has set the
   * view's Attached flag (the write itself lives outside this file).
   */
  ghost function SetAttached(h: Heap, v: Id): (r: Heap)
    requires v in h.views
  {
    h.(views := h.views[v := h.views[v].(flags := h.views[v].flags.(attached := true))])
  }

  /** Attaching a view changes no PARENT link, so every distance to the root is kept. */
  lemma {:induction false} RootAtSetAttached(h: Heap, v: Id, n: Option<Node>, depth: nat)
    requires v in h.views && RootAt(h, n, depth)
    ensures RootAt(SetAttached(h, v), n, depth)
    decreases depth
  {
    if n.Some? {
      RootAtSetAttached(h, v, ParentOf(h, n.value), depth - 1);
    }
  }

  /** The heap with the marker set on exactly the nodes of `s` and nothing else changed. */
  function WithMarkers(h: Heap, s: set<Node>): Heap {
    Heap(map v | v in h.views :: if ViewNode(v) in s then MarkView(h.views[v]) else h.views[v],
         map c | c in h.containers :: if ContainerNode(c) in s then MarkContainer(h.containers[c]) else h.containers[c])
  }

  /** `WithMarkers` marks the nodes of `s` and leaves every other node as it was. */
  lemma WithMarkersEffect(h: Heap, s: set<Node>)
    ensures var r := WithMarkers(h, s);
      && r.views.Keys == h.views.Keys && r.containers.Keys == h.containers.Keys
      && (forall x :: x in s && Has(h, x) ==> Has(r, x) && HasMarker(r, x))
      && (forall v :: v in h.views && ViewNode(v) !in s ==> r.views[v] == h.views[v])
      && (forall c :: c in h.containers && ContainerNode(c) !in s ==> r.containers[c] == h.containers[c])
  {
  }

  /** The nodes of a chain, as a set. */
  function NodeSet(chain: seq<Node>): (r: set<Node>)
    ensures forall x :: x in r <==> x in chain
  {
    set i | 0 <= i < |chain| :: chain[i]
  }

  lemma WithNoMarkers(h: Heap)
    ensures WithMarkers(h, {}) == h
  {
    var r := WithMarkers(h, {});
    assert r.views == h.views;
    assert r.containers == h.containers;
  }

  lemma WithOneMoreMarker(h: Heap, x: Node, rest: set<Node>)
    requires Has(h, x)
    ensures WithMarkers(SetMarker(h, x), rest) == WithMarkers(h, {x} + rest)
  {
    var a := WithMarkers(SetMarker(h, x), rest);
    var b := WithMarkers(h, {x} + rest);
    assert a.views == b.views;
    assert a.containers == b.containers;
  }

  /** Every view and container of `h` is, in `r`, either unchanged or has gained the marker. */
  ghost predicate OnlyMarkersSet(h: Heap, r: Heap) {
    && r.views.Keys == h.views.Keys
    && r.containers.Keys == h.containers.Keys
    && (forall v :: v in h.views ==> r.views[v] == h.views[v] || r.views[v] == MarkView(h.views[v]))
    && (forall c :: c in h.containers ==>
          r.containers[c] == h.containers[c] || r.containers[c] == MarkContainer(h.containers[c]))
  }

  // ---------------------------------------------------------------------------
  // The marking operations, as functions from the heap before to the heap after
  // ---------------------------------------------------------------------------

  /**
   * The heap after `markAncestorsForTraversal` walks up from the node `n` (the PARENT
   * of the view it was called on): stop at the first node that already carries the
   * marker, otherwise set it, and stop after a detached view.
   */
  ghost function AfterMarkAncestors(h: Heap, n: Option<Node>, depth: nat): (r: Heap)
    requires RootAt(h, n, depth)
    decreases depth
  {
    match n
    case None => h
    case Some(x) =>
      if HasMarker(h, x) then h
      else if IsDetachedView(h, x) then SetMarker(h, x)
      else
        assert SameShape(h, SetMarker(h, x));
        RootAtSameShape(h, SetMarker(h, x), ParentOf(h, x), depth - 1);
        AfterMarkAncestors(SetMarker(h, x), ParentOf(h, x), depth - 1)
  }

  /**
   * The nodes `markAncestorsForTraversal` writes, read off the heap before the call:
   * the PARENT path from `n` up to the first stop point.
   */
  ghost function TraversalChain(h: Heap, n: Option<Node>, depth: nat): (chain: seq<Node>)
    requires RootAt(h, n, depth)
    ensures chain == [] ==> n.None? || HasMarker(h, n.value)
    ensures chain != [] ==> n == Some(chain[0])
    ensures forall i :: 0 <= i < |chain| ==> Has(h, chain[i]) && !HasMarker(h, chain[i])
    ensures forall i :: 0 <= i < |chain| - 1 ==>
              !IsDetachedView(h, chain[i]) && ParentOf(h, chain[i]) == Some(chain[i + 1])
    ensures chain != [] ==>
              var last := chain[|chain| - 1];
              || IsDetachedView(h, last)
              || ParentOf(h, last).None?
              || (Has(h, ParentOf(h, last).value) && HasMarker(h, ParentOf(h, last).value))
    decreases depth
  {
    match n
    case None => []
    case Some(x) =>
      if HasMarker(h, x) then []
      else if IsDetachedView(h, x) then [x]
      else [x] + TraversalChain(h, ParentOf(h, x), depth - 1)
  }

  /** `markViewForRefresh`: a no-op if already marked; else set RefreshView and, if attached, propagate. */
  ghost function AfterMarkViewForRefresh(h: Heap, v: Id, depth: nat): Heap
    requires RootAt(h, Some(ViewNode(v)), depth)
  {
    if h.views[v].flags.refreshView then h
    else if ViewAttachedToChangeDetector(h.views[v]) then
      assert SameShape(h, SetRefresh(h, v));
      RootAtSameShape(h, SetRefresh(h, v), h.views[v].parent, depth - 1);
      AfterMarkAncestors(SetRefresh(h, v), h.views[v].parent, depth - 1)
    else SetRefresh(h, v)
  }

  /** `updateAncestorTraversalFlagsOnAttach`: propagate only if the view needs traversal. */
  ghost function AfterAttach(h: Heap, v: Id, depth: nat): Heap
    requires RootAt(h, Some(ViewNode(v)), depth)
  {
    if h.views[v].flags.refreshView || h.views[v].flags.hasChildViewsToRefresh
    then AfterMarkAncestors(h, h.views[v].parent, depth - 1)
    else h
  }

  /** The `DECLARATION_COMPONENT_VIEW` of `v` is `depth` PARENT links from a root. */
  ghost predicate ComponentViewRootAt(h: Heap, v: Id, depth: nat) {
    v in h.views && RootAt(h, Some(ViewNode(h.views[v].declarationComponentView)), depth)
  }

  /** `markViewDirtyFromSignal`: set RefreshView on the component view (no early return), then propagate if attached. */
  ghost function AfterMarkDirtyFromSignal(h: Heap, v: Id, depth: nat): Heap
    requires ComponentViewRootAt(h, v, depth)
  {
    var cv := h.views[v].declarationComponentView;
    if ViewAttachedToChangeDetector(h.views[cv]) then
      assert SameShape(h, SetRefresh(h, cv));
      RootAtSameShape(h, SetRefresh(h, cv), h.views[cv].parent, depth - 1);
      AfterMarkAncestors(SetRefresh(h, cv), h.views[cv].parent, depth - 1)
    else SetRefresh(h, cv)
  }
}
