/**
 * The runtime's view utilities as operations on a mutable arena of views and
 * containers. Each method performs the source's loop or in-place update and is
 * proved against the corresponding function of `ViewModel` or `DestroyHooks`.
 */
module ViewUtils {
  import opened Wrappers
  import opened ViewModel
  import opened DestroyHooks

  datatype RuntimeError = ViewAlreadyDestroyed

  class ViewHeap {
    var views: map<Id, LView>
    var containers: map<Id, LContainer>

    function State(): Heap
      reads this
    {
      Heap(views, containers)
    }

    /** `unwrapRNode`: follow HOST links until the value is not a view or container. */
    method UnwrapRNode(value: Slot, ghost depth: nat) returns (r: Slot)
      requires HostAt(State(), value, depth)
      ensures !IsWrapper(r)
      ensures !IsWrapper(value) ==> r == value
      ensures r == HostChain(State(), value, depth)[|HostChain(State(), value, depth)| - 1]
    {
      var chain := HostChain(State(), value, depth);
      r := value;
      ghost var k := depth;
      while IsWrapper(r)
        invariant HostAt(State(), r, k)
        invariant var c := HostChain(State(), r, k); c[|c| - 1] == chain[|chain| - 1]
        decreases k
      {
        r := match r
          case View(v) => views[v].host
          case Container(c) => containers[c].host;
        k := k - 1;
      }
    }

    /** `unwrapLView`: the first view met while following HOST links, or null. */
    method UnwrapLView(value: Slot, ghost depth: nat) returns (r: Option<Id>)
      requires HostAt(State(), value, depth)
      ensures value.View? ==> r == Some(value.view)
      ensures r == FirstView(HostChain(State(), value, depth))
    {
      var current := value;
      ghost var k := depth;
      while IsWrapper(current)
        invariant HostAt(State(), current, k)
        invariant FirstView(HostChain(State(), current, k)) == FirstView(HostChain(State(), value, depth))
        decreases k
      {
        if current.View? {
          assert FirstViewIndex(HostChain(State(), current, k)) == 0;
          return Some(current.view);
        }
        ghost var c := HostChain(State(), current, k);
        assert c == [current] + c[1..];
        current := containers[current.container].host;
        k := k - 1;
      }
      return None;
    }

    /** `getNativeByIndex`: the render node of a template slot. */
    method GetNativeByIndex(index: nat, lView: Id, ghost depth: nat) returns (r: Slot)
      requires lView in views && HEADER_OFFSET <= index < |views[lView].data|
      requires HostAt(State(), views[lView].data[index], depth)
      ensures !IsWrapper(r)
      ensures var c := HostChain(State(), views[lView].data[index], depth); r == c[|c| - 1]
    {
      r := UnwrapRNode(views[lView].data[index], depth);
    }

    /** `getNativeByTNode`, with the TNode given by its `index`. */
    method GetNativeByTNode(tNodeIndex: nat, lView: Id, ghost depth: nat) returns (r: Slot)
      requires lView in views && tNodeIndex < |views[lView].data|
      requires HostAt(State(), views[lView].data[tNodeIndex], depth)
      ensures !IsWrapper(r)
      ensures var c := HostChain(State(), views[lView].data[tNodeIndex], depth); r == c[|c| - 1]
    {
      r := UnwrapRNode(views[lView].data[tNodeIndex], depth);
    }

    /** `getNativeByTNodeOrNull`: a null TNode has index -1 and yields null. */
    method GetNativeByTNodeOrNull(tNodeIndex: Option<int>, lView: Id, ghost depth: nat) returns (r: Slot)
      requires lView in views
      requires var index := tNodeIndex.GetOr(-1);
        index != -1 ==> 0 <= index < |views[lView].data| && HostAt(State(), views[lView].data[index], depth)
      ensures !IsWrapper(r)
      ensures tNodeIndex.GetOr(-1) == -1 ==> r == NullNode
      ensures tNodeIndex.GetOr(-1) != -1 ==>
                var c := HostChain(State(), views[lView].data[tNodeIndex.value], depth); r == c[|c| - 1]
    {
      var index := if tNodeIndex.None? then -1 else tNodeIndex.value;
      if index != -1 {
        r := UnwrapRNode(views[lView].data[index], depth);
        return;
      }
      return NullNode;
    }

    /** `walkUpViews`: follow DECLARATION_VIEW `nestingLevel` times. */
    method WalkUpViews(nestingLevel: int, currentView: Id) returns (r: Id)
      requires HasDeclarationAncestors(State(), currentView, nestingLevel)
      ensures r == DeclarationAncestor(State(), currentView, nestingLevel)
    {
      var level := nestingLevel;
      r := currentView;
      while level > 0
        invariant HasDeclarationAncestors(State(), r, level)
        invariant DeclarationAncestor(State(), r, level) == DeclarationAncestor(State(), currentView, nestingLevel)
      {
        r := views[r].declarationView.value;
        level := level - 1;
      }
    }

    /** `resetPreOrderHookFlags`. */
    method ResetPreOrderHookFlags(lView: Id)
      requires lView in views
      modifies this
      ensures views == old(views)[lView := old(views[lView]).(preOrderHookFlags := 0)]
      ensures containers == old(containers)
    {
      views := views[lView := views[lView].(preOrderHookFlags := 0)];
    }

    /** `markAncestorsForTraversal`. */
    method MarkAncestorsForTraversal(lView: Id, ghost depth: nat)
      requires RootAt(State(), Some(ViewNode(lView)), depth)
      modifies this
      ensures State() == AfterMarkAncestors(old(State()), old(views[lView].parent), depth - 1)
    {
      var parent := views[lView].parent;
      ghost var k: nat := depth - 1;
      while parent.Some?
        invariant RootAt(State(), parent, k)
        invariant AfterMarkAncestors(State(), parent, k)
                  == AfterMarkAncestors(old(State()), old(views[lView].parent), depth - 1)
        decreases k
      {
        ghost var before := State();
        var node := parent.value;
        if (node.ContainerNode? && containers[node.id].hasChildViewsToRefresh) ||
           (node.ViewNode? && views[node.id].flags.hasChildViewsToRefresh) {
          break;
        }
        if node.ContainerNode? {
          containers := containers[node.id := MarkContainer(containers[node.id])];
          parent := Some(ViewNode(containers[node.id].parent));
        } else {
          views := views[node.id := MarkView(views[node.id])];
          if !views[node.id].flags.attached {
            assert State() == SetMarker(before, node);
            break;
          }
          parent := views[node.id].parent;
        }
        assert State() == SetMarker(before, node);
        assert SameShape(before, State());
        RootAtSameShape(before, State(), parent, k - 1);
        k := k - 1;
      }
    }

    /** `markViewForRefresh`. */
    method MarkViewForRefresh(lView: Id, ghost depth: nat)
      requires RootAt(State(), Some(ViewNode(lView)), depth)
      modifies this
      ensures State() == AfterMarkViewForRefresh(old(State()), lView, depth)
    {
      if views[lView].flags.refreshView {
        return;
      }
      ghost var before := State();
      views := views[lView := views[lView].(flags := views[lView].flags.(refreshView := true))];
      assert State() == SetRefresh(before, lView);
      assert SameShape(before, State());
      RootAtSameShape(before, State(), Some(ViewNode(lView)), depth);
      if ViewAttachedToChangeDetector(views[lView]) {
        MarkAncestorsForTraversal(lView, depth);
      }
    }

    /** `updateAncestorTraversalFlagsOnAttach`. */
    method UpdateAncestorTraversalFlagsOnAttach(lView: Id, ghost depth: nat)
      requires RootAt(State(), Some(ViewNode(lView)), depth)
      modifies this
      ensures State() == AfterAttach(old(State()), lView, depth)
    {
      if views[lView].flags.refreshView || views[lView].flags.hasChildViewsToRefresh {
        MarkAncestorsForTraversal(lView, depth);
      }
    }

    /** `markViewDirtyFromSignal`. */
    method MarkViewDirtyFromSignal(lView: Id, ghost depth: nat)
      requires ComponentViewRootAt(State(), lView, depth)
      modifies this
      ensures State() == AfterMarkDirtyFromSignal(old(State()), lView, depth)
    {
      var cv := views[lView].declarationComponentView;
      ghost var before := State();
      views := views[cv := views[cv].(flags := views[cv].flags.(refreshView := true))];
      assert State() == SetRefresh(before, cv);
      assert SameShape(before, State());
      RootAtSameShape(before, State(), Some(ViewNode(cv)), depth);
      if ViewAttachedToChangeDetector(views[cv]) {
        MarkAncestorsForTraversal(cv, depth);
      }
    }

    /** `storeLViewOnDestroy`: refuse a destroyed view, else append the callback. */
    method StoreLViewOnDestroy(lView: Id, onDestroyCallback: Callback) returns (r: Outcome<RuntimeError>)
      requires lView in views
      modifies this
      ensures old(views[lView].flags.destroyed) ==>
                r == Fail(ViewAlreadyDestroyed) && views == old(views) && containers == old(containers)
      ensures !old(views[lView].flags.destroyed) ==>
                && r == Pass
                && views == old(views)[lView := old(views[lView]).(
                     onDestroyHooks := Some(Stored(old(views[lView].onDestroyHooks), onDestroyCallback)))]
                && containers == old(containers)
    {
      if views[lView].flags.destroyed {
        return Fail(ViewAlreadyDestroyed);
      }
      if views[lView].onDestroyHooks.None? {
        views := views[lView := views[lView].(onDestroyHooks := Some([]))];
      }
      views := views[lView := views[lView].(
        onDestroyHooks := Some(views[lView].onDestroyHooks.value + [onDestroyCallback]))];
      return Pass;
    }

    /** `removeLViewOnDestroy`: remove the first occurrence of the callback, if there is one. */
    method RemoveLViewOnDestroy(lView: Id, onDestroyCallback: Callback)
      requires lView in views
      modifies this
      ensures containers == old(containers)
      ensures old(views[lView].onDestroyHooks).None? ==> views == old(views)
      ensures old(views[lView].onDestroyHooks).Some? ==>
                views == old(views)[lView := old(views[lView]).(
                  onDestroyHooks := Some(RemoveFirst(old(views[lView].onDestroyHooks.value), onDestroyCallback)))]
    {
      if views[lView].onDestroyHooks.None? {
        return;
      }
      var hooks := views[lView].onDestroyHooks.value;
      var destroyCBIdx := IndexOf(hooks, onDestroyCallback);
      if destroyCBIdx != -1 {
        SpliceAtIndexOfRemovesFirst(hooks, onDestroyCallback);
        views := views[lView := views[lView].(onDestroyHooks := Some(Splice(hooks, destroyCBIdx)))];
      } else {
        RemoveAbsentIsNoOp(hooks, onDestroyCallback);
        assert views[lView] == views[lView].(onDestroyHooks := Some(RemoveFirst(hooks, onDestroyCallback)));
      }
    }
  }
}
