/**
 * Which pallets can be delivered. Boxes form a forest by parent links; a pallet is a box
 * without a parent. A box whose delivery id is missing cannot be delivered, and neither can
 * any box or pallet that contains it. The flags are cleared in place by walking up from
 * every undeliverable box.
 */
module Pallets {

  // ---------------------------------------------------------------------------
  // The forest

  /** Parent links form a forest: each parent is -1 (the box is a pallet) or the index of a
      box of strictly smaller rank, so every ancestor chain ends at a pallet. */
  ghost predicate IsForest(parents: seq<int>, rank: seq<nat>)
  {
    && |rank| == |parents|
    && forall i :: 0 <= i < |parents| ==> parents[i] == -1 || (0 <= parents[i] < |parents| && rank[parents[i]] < rank[i])
  }

  /** `a` is a proper ancestor of `d`: it is reached from `d` by following parent links. */
  ghost predicate IsAncestor(parents: seq<int>, rank: seq<nat>, a: int, d: int)
    requires IsForest(parents, rank) && 0 <= d < |parents|
    decreases rank[d]
  {
    parents[d] != -1 && (parents[d] == a || IsAncestor(parents, rank, a, parents[d]))
  }

  lemma {:induction false} AncestorTransitive(parents: seq<int>, rank: seq<nat>, a: int, m: int, d: int)
    requires IsForest(parents, rank) && 0 <= m < |parents| && 0 <= d < |parents|
    requires IsAncestor(parents, rank, a, m) && IsAncestor(parents, rank, m, d)
    ensures IsAncestor(parents, rank, a, d)
    decreases rank[d]
  {
    if parents[d] != m {
      AncestorTransitive(parents, rank, a, m, parents[d]);
    }
  }

  /** A box can be delivered when its own flag and the flag of every box inside it are set. */
  ghost predicate Deliverable(parents: seq<int>, rank: seq<nat>, init: seq<bool>, j: int)
    requires IsForest(parents, rank) && |init| == |parents| && 0 <= j < |parents|
  {
    init[j] && forall d :: 0 <= d < |parents| && IsAncestor(parents, rank, j, d) ==> init[d]
  }

  /** An ancestor of an undeliverable box is undeliverable. */
  lemma NotDeliverableUpwards(parents: seq<int>, rank: seq<nat>, init: seq<bool>, j: int, k: int)
    requires IsForest(parents, rank) && |init| == |parents| && 0 <= k < |parents|
    requires IsAncestor(parents, rank, j, k) && !Deliverable(parents, rank, init, k)
    ensures 0 <= j < |parents| && !Deliverable(parents, rank, init, j)
  {
    AncestorInRange(parents, rank, j, k);
    if init[k] {
      var d :| 0 <= d < |parents| && IsAncestor(parents, rank, k, d) && !init[d];
      AncestorTransitive(parents, rank, j, k, d);
    }
  }

  lemma {:induction false} AncestorInRange(parents: seq<int>, rank: seq<nat>, a: int, d: int)
    requires IsForest(parents, rank) && 0 <= d < |parents|
    requires IsAncestor(parents, rank, a, d)
    ensures 0 <= a < |parents|
    decreases rank[d]
  {
    if parents[d] != a {
      AncestorInRange(parents, rank, a, parents[d]);
    }
  }

  /** The flags after the whole propagation: exactly the deliverable boxes. */
  ghost function Expected(parents: seq<int>, rank: seq<nat>, init: seq<bool>): (r: seq<bool>)
    requires IsForest(parents, rank) && |init| == |parents|
  {
    seq(|init|, j requires 0 <= j < |init| => Deliverable(parents, rank, init, j))
  }

  // ---------------------------------------------------------------------------
  // One walk up the ancestor chain

  /** The flags after the walk from box `b`: move to the parent; stop if its flag is already
      clear, otherwise clear it and go on; clear the pallet at the top. */
  ghost function ClearUp(parents: seq<int>, rank: seq<nat>, flags: seq<bool>, b: int): (r: seq<bool>)
    requires IsForest(parents, rank) && |flags| == |parents| && 0 <= b < |parents|
    ensures |r| == |flags|
    ensures forall j :: 0 <= j < |r| && r[j] ==> flags[j]
    ensures forall j :: 0 <= j < |r| && flags[j] && !r[j] ==> j == b || IsAncestor(parents, rank, j, b)
    ensures parents[b] != -1 ==> !r[parents[b]]
    ensures parents[b] == -1 ==> !r[b]
    ensures forall j :: 0 <= j < |r| && flags[j] && !r[j] && parents[j] != -1 ==> !r[parents[j]]
    decreases rank[b]
  {
    if parents[b] == -1 then flags[b := false]
    else
      var p := parents[b];
      if !flags[p] then flags
      else ClearUp(parents, rank, flags[p := false], p)
  }

  /** An ancestor has a strictly smaller rank, so no box is its own ancestor. */
  lemma {:induction false} AncestorRank(parents: seq<int>, rank: seq<nat>, a: int, d: int)
    requires IsForest(parents, rank) && 0 <= d < |parents|
    requires IsAncestor(parents, rank, a, d)
    ensures 0 <= a < |parents| && rank[a] < rank[d]
    decreases rank[d]
  {
    if parents[d] != a {
      AncestorRank(parents, rank, a, parents[d]);
    }
  }

  /** The walk stops at the first ancestor already cleared: that ancestor and every box above
      it keep their flags. */
  lemma {:induction false} ClearUpStops(parents: seq<int>, rank: seq<nat>, flags: seq<bool>, b: int)
    requires IsForest(parents, rank) && |flags| == |parents| && 0 <= b < |parents|
    ensures forall j, k ::
      (0 <= j < |flags| && !flags[j] && IsAncestor(parents, rank, j, b) && 0 <= k < |flags| && IsAncestor(parents, rank, k, j))
      ==> ClearUp(parents, rank, flags, b)[k] == flags[k]
    decreases rank[b]
  {
    if parents[b] != -1 {
      var p := parents[b];
      if flags[p] {
        var next := flags[p := false];
        ClearUpStops(parents, rank, next, p);
        forall j, k | 0 <= j < |flags| && !flags[j] && IsAncestor(parents, rank, j, b)
          && 0 <= k < |flags| && IsAncestor(parents, rank, k, j)
          ensures ClearUp(parents, rank, flags, b)[k] == flags[k]
        {
          assert j != p;
          assert IsAncestor(parents, rank, j, p);
          AncestorRank(parents, rank, k, j);
          AncestorRank(parents, rank, j, p);
          assert k != p;
        }
      }
    }
  }

  // ---------------------------------------------------------------------------
  // The propagation loop

  /** Flags are only ever cleared. */
  ghost predicate Below(init: seq<bool>, flags: seq<bool>)
  {
    |flags| == |init| && forall j :: 0 <= j < |flags| && flags[j] ==> init[j]
  }

  /** Every cleared box below the first `k` positions, or set at the start, has a cleared parent. */
  ghost predicate ClosedUpTo(parents: seq<int>, init: seq<bool>, flags: seq<bool>, k: int)
    requires |init| == |flags| == |parents|
  {
    forall j :: 0 <= j < |flags| && parents[j] != -1 && !flags[j] && (j < k || init[j]) ==>
      0 <= parents[j] < |flags| && !flags[parents[j]]
  }

  /** Only undeliverable boxes are cleared. */
  ghost predicate Sound(parents: seq<int>, rank: seq<nat>, init: seq<bool>, flags: seq<bool>)
    requires IsForest(parents, rank) && |init| == |flags| == |parents|
  {
    forall j :: 0 <= j < |flags| && !flags[j] ==> !Deliverable(parents, rank, init, j)
  }

  /** One walk from an undeliverable box keeps the loop's invariants. */
  lemma WalkPreserves(parents: seq<int>, rank: seq<nat>, init: seq<bool>, flags: seq<bool>, k: int)
    requires IsForest(parents, rank) && |init| == |flags| == |parents| && 0 <= k < |parents|
    requires parents[k] != -1 && !flags[k]
    requires Below(init, flags) && ClosedUpTo(parents, init, flags, k) && Sound(parents, rank, init, flags)
    ensures var r := ClearUp(parents, rank, flags, k);
      Below(init, r) && ClosedUpTo(parents, init, r, k + 1) && Sound(parents, rank, init, r)
  {
    var r := ClearUp(parents, rank, flags, k);
    forall j | 0 <= j < |r| && !r[j] ensures !Deliverable(parents, rank, init, j) {
      if flags[j] {
        NotDeliverableUpwards(parents, rank, init, j, k);
      }
    }
  }

  /** A box set at the start and left unvisited stays set, and closes the invariant at `k + 1`. */
  lemma SkipPreserves(parents: seq<int>, rank: seq<nat>, init: seq<bool>, flags: seq<bool>, k: int)
    requires IsForest(parents, rank) && |init| == |flags| == |parents| && 0 <= k < |parents|
    requires parents[k] == -1 || flags[k]
    requires ClosedUpTo(parents, init, flags, k)
    ensures ClosedUpTo(parents, init, flags, k + 1)
  {
  }

  /** When every cleared box has a cleared parent, every ancestor of a cleared box is cleared. */
  lemma {:induction false} ClearedUpwards(parents: seq<int>, rank: seq<nat>, init: seq<bool>, flags: seq<bool>, a: int, d: int)
    requires IsForest(parents, rank) && |init| == |flags| == |parents| && 0 <= d < |parents|
    requires ClosedUpTo(parents, init, flags, |parents|)
    requires !flags[d] && IsAncestor(parents, rank, a, d)
    ensures 0 <= a < |parents| && !flags[a]
    decreases rank[d]
  {
    if parents[d] != a {
      ClearedUpwards(parents, rank, init, flags, a, parents[d]);
    }
  }

  /** At the end of the loop the flags are exactly the deliverable boxes. */
  lemma LoopResult(parents: seq<int>, rank: seq<nat>, init: seq<bool>, flags: seq<bool>)
    requires IsForest(parents, rank) && |init| == |flags| == |parents|
    requires Below(init, flags) && ClosedUpTo(parents, init, flags, |parents|) && Sound(parents, rank, init, flags)
    ensures flags == Expected(parents, rank, init)
  {
    var e := Expected(parents, rank, init);
    forall j | 0 <= j < |flags| ensures flags[j] == e[j] {
      if flags[j] && !Deliverable(parents, rank, init, j) {
        var d :| 0 <= d < |parents| && IsAncestor(parents, rank, j, d) && !init[d];
        ClearedUpwards(parents, rank, init, flags, j, d);
      }
    }
  }

  // ---------------------------------------------------------------------------
  // The boxes

  /** The flags a fresh set of boxes starts with: a box is deliverable unless its delivery id
      is missing. */
  function InitialFlags(deliveryIds: seq<int>, missing: set<int>): (r: seq<bool>)
    ensures |r| == |deliveryIds|
    ensures forall i :: 0 <= i < |r| ==> (r[i] <==> deliveryIds[i] !in missing)
  {
    seq(|deliveryIds|, i requires 0 <= i < |deliveryIds| => deliveryIds[i] !in missing)
  }

  class Boxes {
    const deliveryIds: seq<int>
    /** Zero-based parent index of each box, -1 for a pallet. */
    const parentIds: seq<int>
    const missingDeliveryIds: set<int>
    /** Per box: can it still be delivered. */
    const possibleToDeliver: array<bool>
    /** A witness that the parent links are acyclic. */
    ghost const rank: seq<nat>

    ghost predicate Valid()
    {
      && IsForest(parentIds, rank)
      && |deliveryIds| == |parentIds| == possibleToDeliver.Length
    }

    constructor (deliveryIds: seq<int>, parentIds: seq<int>, missingDeliveryIds: seq<int>, ghost rank: seq<nat>)
      requires IsForest(parentIds, rank) && |deliveryIds| == |parentIds|
      ensures Valid()
      ensures this.deliveryIds == deliveryIds && this.parentIds == parentIds && this.rank == rank
      ensures this.missingDeliveryIds == set x | x in missingDeliveryIds
      ensures fresh(possibleToDeliver)
      ensures possibleToDeliver[..] == InitialFlags(deliveryIds, this.missingDeliveryIds)
    {
      var missing := set x | x in missingDeliveryIds;
      this.deliveryIds := deliveryIds;
      this.parentIds := parentIds;
      this.missingDeliveryIds := missing;
      this.rank := rank;
      possibleToDeliver := new bool[|deliveryIds|](i requires 0 <= i < |deliveryIds| => deliveryIds[i] !in missing);
    }

    /** A box is a pallet exactly when no box contains it: a pallet has no ancestor, and the
        parent of any other box is one. */
    function IsPallet(boxId: int): (r: bool)
      requires 0 <= boxId < |parentIds|
      ensures Valid() && r ==> forall a :: !IsAncestor(parentIds, rank, a, boxId)
      ensures Valid() && !r ==> IsAncestor(parentIds, rank, parentIds[boxId], boxId)
    {
      parentIds[boxId] == -1
    }

    predicate IsPossibleToDeliver(boxId: int)
      requires 0 <= boxId < possibleToDeliver.Length
      reads possibleToDeliver
    {
      possibleToDeliver[boxId]
    }

    /** Walks up from `boxId`, clearing flags until it meets one already clear or has cleared
        the pallet at the top. */
    method SetParentsFalse(boxId: int)
      requires Valid() && 0 <= boxId < |parentIds|
      modifies possibleToDeliver
      ensures possibleToDeliver[..] == ClearUp(parentIds, rank, old(possibleToDeliver[..]), boxId)
    {
      var b := boxId;
      while !IsPallet(b)
        invariant 0 <= b < |parentIds|
        invariant ClearUp(parentIds, rank, possibleToDeliver[..], b) == ClearUp(parentIds, rank, old(possibleToDeliver[..]), boxId)
        decreases rank[b]
      {
        b := parentIds[b];
        if !IsPossibleToDeliver(b) {
          return;
        }
        possibleToDeliver[b] := false;
      }
      possibleToDeliver[b] := false;
    }

    /** Clears every box that contains an undeliverable box. */
    method CalculatePossibleToDeliverBoxIds()
      requires Valid()
      modifies possibleToDeliver
      ensures possibleToDeliver[..] == Expected(parentIds, rank, old(possibleToDeliver[..]))
    {
      ghost var init := possibleToDeliver[..];
      for boxId := 0 to |deliveryIds|
        invariant Below(init, possibleToDeliver[..])
        invariant ClosedUpTo(parentIds, init, possibleToDeliver[..], boxId)
        invariant Sound(parentIds, rank, init, possibleToDeliver[..])
      {
        if !IsPallet(boxId) && !IsPossibleToDeliver(boxId) {
          WalkPreserves(parentIds, rank, init, possibleToDeliver[..], boxId);
          SetParentsFalse(boxId);
        } else {
          SkipPreserves(parentIds, rank, init, possibleToDeliver[..], boxId);
        }
      }
      LoopResult(parentIds, rank, init, possibleToDeliver[..]);
    }

    /** The 1-based numbers of the pallets whose flag is set, in increasing order. */
    method GetPossibleToDeliverPalletIds() returns (palletIds: seq<int>)
      requires Valid()
      ensures forall x :: x in palletIds <==> 1 <= x <= |parentIds| && IsPallet(x - 1) && possibleToDeliver[x - 1]
      ensures forall i, j :: 0 <= i < j < |palletIds| ==> palletIds[i] < palletIds[j]
    {
      palletIds := [];
      for boxId := 0 to |parentIds|
        invariant forall x :: x in palletIds <==> 1 <= x <= boxId && IsPallet(x - 1) && possibleToDeliver[x - 1]
        invariant forall i, j :: 0 <= i < j < |palletIds| ==> palletIds[i] < palletIds[j]
        invariant forall i :: 0 <= i < |palletIds| ==> palletIds[i] <= boxId
      {
        if IsPossibleToDeliver(boxId) && IsPallet(boxId) {
          palletIds := palletIds + [boxId + 1];
        }
      }
    }

    /** The deliverable pallets: those whose own delivery id and the ids of all boxes inside
        them are present. */
    method CalculatePossibleToDeliverPalletIds() returns (palletIds: seq<int>)
      requires Valid()
      modifies possibleToDeliver
      ensures possibleToDeliver[..] == Expected(parentIds, rank, old(possibleToDeliver[..]))
      ensures forall x :: x in palletIds <==>
        1 <= x <= |parentIds| && IsPallet(x - 1) && Deliverable(parentIds, rank, old(possibleToDeliver[..]), x - 1)
      ensures forall i, j :: 0 <= i < j < |palletIds| ==> palletIds[i] < palletIds[j]
    {
      CalculatePossibleToDeliverBoxIds();
      palletIds := GetPossibleToDeliverPalletIds();
    }
  }
}
