/**
 * The per-view list of destroy callbacks (`ON_DESTROY_HOOKS`): what registering
 * and unregistering a callback does to the list.
 */
module DestroyHooks {
  import opened Wrappers
  import opened ViewModel

  /** `Array.prototype.indexOf`: the first position of `cb`, or -1. */
  function IndexOf(hooks: seq<Callback>, cb: Callback): (i: int)
    ensures -1 <= i < |hooks|
    ensures i == -1 <==> cb !in hooks
    ensures i >= 0 ==> hooks[i] == cb && cb !in hooks[..i]
  {
    if hooks == [] then -1
    else if hooks[0] == cb then 0
    else
      var k := IndexOf(hooks[1..], cb);
      assert k >= 0 ==> hooks[..k + 1] == [hooks[0]] + hooks[1..][..k];
      if k == -1 then -1 else k + 1
  }

  /** `splice(i, 1)`: the list without its element at `i`. */
  function Splice(hooks: seq<Callback>, i: nat): seq<Callback>
    requires i < |hooks|
  {
    hooks[..i] + hooks[i + 1..]
  }

  /** `splice(i, 1)` keeps the elements before `i` and moves each later one down by one. */
  lemma SpliceShiftsDown(hooks: seq<Callback>, i: nat)
    requires i < |hooks|
    ensures |Splice(hooks, i)| == |hooks| - 1
    ensures forall j :: 0 <= j < i ==> Splice(hooks, i)[j] == hooks[j]
    ensures forall j :: i <= j < |hooks| - 1 ==> Splice(hooks, i)[j] == hooks[j + 1]
  {
  }

  /** Reference definition: the list with the first occurrence of `cb` taken out. */
  function RemoveFirst(hooks: seq<Callback>, cb: Callback): seq<Callback> {
    if hooks == [] then []
    else if hooks[0] == cb then hooks[1..]
    else [hooks[0]] + RemoveFirst(hooks[1..], cb)
  }

  /** The list after `storeLViewOnDestroy`: created if null, `cb` appended. */
  function Stored(hooks: Option<seq<Callback>>, cb: Callback): seq<Callback> {
    hooks.GetOr([]) + [cb]
  }

  /** `indexOf` followed by `splice` removes exactly the first occurrence. */
  lemma {:induction false} SpliceAtIndexOfRemovesFirst(hooks: seq<Callback>, cb: Callback)
    requires cb in hooks
    ensures Splice(hooks, IndexOf(hooks, cb)) == RemoveFirst(hooks, cb)
  {
    var tail := hooks[1..];
    if hooks[0] == cb {
      assert Splice(hooks, 0) == tail;
    } else {
      var k := IndexOf(tail, cb);
      assert IndexOf(hooks, cb) == k + 1;
      SpliceAtIndexOfRemovesFirst(tail, cb);
      assert hooks[..k + 1] == [hooks[0]] + tail[..k];
      assert hooks[k + 2..] == tail[k + 1..];
      assert Splice(hooks, k + 1) == [hooks[0]] + Splice(tail, k);
    }
  }

  /** Removing an absent callback changes nothing. */
  lemma {:induction false} RemoveAbsentIsNoOp(hooks: seq<Callback>, cb: Callback)
    requires cb !in hooks
    ensures RemoveFirst(hooks, cb) == hooks
  {
    if hooks != [] {
      RemoveAbsentIsNoOp(hooks[1..], cb);
    }
  }

  /** Removing a present callback drops one copy of it and keeps every other hook. */
  lemma {:induction false} RemovePresentDropsOne(hooks: seq<Callback>, cb: Callback)
    requires cb in hooks
    ensures |RemoveFirst(hooks, cb)| == |hooks| - 1
    ensures multiset(RemoveFirst(hooks, cb)) == multiset(hooks) - multiset{cb}
  {
    if hooks[0] != cb {
      RemovePresentDropsOne(hooks[1..], cb);
      assert hooks == [hooks[0]] + hooks[1..];
    } else {
      assert hooks == [cb] + hooks[1..];
    }
  }

  /** Registering a fresh callback and then unregistering it gives back the earlier hooks. */
  lemma StoreThenRemove(hooks: Option<seq<Callback>>, cb: Callback)
    requires cb !in hooks.GetOr([])
    ensures RemoveFirst(Stored(hooks, cb), cb) == hooks.GetOr([])
  {
    StoreThenRemoveAt(hooks.GetOr([]), cb);
  }

  lemma {:induction false} StoreThenRemoveAt(hooks: seq<Callback>, cb: Callback)
    requires cb !in hooks
    ensures RemoveFirst(hooks + [cb], cb) == hooks
  {
    if hooks != [] {
      assert (hooks + [cb])[1..] == hooks[1..] + [cb];
      StoreThenRemoveAt(hooks[1..], cb);
    }
  }

  /** Registering two callbacks on a view without hooks and unregistering the first leaves the second. */
  lemma RegisterTwoRemoveFirst(a: Callback, b: Callback)
    requires a != b
    ensures RemoveFirst(Stored(Some(Stored(None, a)), b), a) == [b]
  {
  }
}
