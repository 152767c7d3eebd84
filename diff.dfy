/** `diff` of src/diff/diff.py: the leaf maps of the two trees, subtracted and intersected into edit
    records. */
module Diff {
  import opened Types
  import opened JsonPath
  import opened WalkerLaws

  /** The map of the new tree: `path_value_map(new, include_root=True, leaves_only=True,
      include_containers=False)`. It maps the path of every leaf of the tree to that leaf, and has no
      other entry. */
  function NewLeaves(newDoc: Doc): (m: map<string, Doc>)
    ensures forall p :: p in m ==> exists ts :: p == PathOf(ts) && LeafAt(newDoc, ts) == Some(m[p])
    ensures forall ts :: LeafAt(newDoc, ts).Some? ==>
              PathOf(ts) in m && m[PathOf(ts)] == LeafAt(newDoc, ts).value
  {
    LeafMapExactly(WalkOptions(true, true, false, None), newDoc);
    PathValueMap(WalkOptions(true, true, false, None), newDoc, false)
  }

  /** The map of the old tree, walked with `leaves_only=False`: the same leaf map. */
  function OldLeaves(oldDoc: Doc): (m: map<string, Doc>)
    ensures forall p :: p in m ==> exists ts :: p == PathOf(ts) && LeafAt(oldDoc, ts) == Some(m[p])
    ensures forall ts :: LeafAt(oldDoc, ts).Some? ==>
              PathOf(ts) in m && m[PathOf(ts)] == LeafAt(oldDoc, ts).value
  {
    LeafMapExactly(WalkOptions(true, false, false, None), oldDoc);
    PathValueMap(WalkOptions(true, false, false, None), oldDoc, false)
  }

  /** The two walks differ only in `leaves_only`, which does not matter without containers: both
      maps are the leaf map of the tree. */
  lemma NewAndOldLeavesAgree(d: Doc)
    ensures NewLeaves(d) == OldLeaves(d)
  {
    IterIgnoresLeavesOnly(WalkOptions(true, true, false, None), d);
  }

  /** The records the differ owes for two leaf maps: a deletion for each path only the old map has,
      an addition for each path only the new map has, a modification for each shared path whose
      values differ. The unused value of a deletion or an addition is None. */
  predicate InDiff(newMap: map<string, Doc>, oldMap: map<string, Doc>, d: Delta) {
    match d.op
    case Deleted => d.path in oldMap && d.path !in newMap && d.newValue == Null && d.oldValue == oldMap[d.path]
    case Added => d.path in newMap && d.path !in oldMap && d.newValue == newMap[d.path] && d.oldValue == Null
    case Modified =>
      d.path in newMap && d.path in oldMap && newMap[d.path] != oldMap[d.path]
      && d.newValue == newMap[d.path] && d.oldValue == oldMap[d.path]
  }

  /** The position of a kind's loop in `diff`: deletions first, then additions, then modifications. */
  function Rank(op: Op): nat {
    match op
    case Deleted => 0
    case Added => 1
    case Modified => 2
  }

  predicate DistinctPaths(ops: seq<Delta>) {
    forall i, j :: 0 <= i < j < |ops| ==> ops[i].path != ops[j].path
  }

  predicate GroupedByKind(ops: seq<Delta>) {
    forall i, j :: 0 <= i < j < |ops| ==> Rank(ops[i].op) <= Rank(ops[j].op)
  }

  /** `ops` is what `diff` may return for these maps: exactly the owed records, one per path, the
      deletions before the additions before the modifications (the order inside a group follows
      Python's set iteration and is left open). */
  ghost predicate ListsDiff(newMap: map<string, Doc>, oldMap: map<string, Doc>, ops: seq<Delta>) {
    (forall d :: d in ops <==> InDiff(newMap, oldMap, d)) && DistinctPaths(ops) && GroupedByKind(ops)
  }

  /** Appending a record whose path is new and whose kind ranks last keeps the list grouped and its
      paths distinct. */
  lemma AppendRecord(ops: seq<Delta>, x: Delta)
    requires DistinctPaths(ops) && GroupedByKind(ops)
    requires forall i :: 0 <= i < |ops| ==> ops[i].path != x.path && Rank(ops[i].op) <= Rank(x.op)
    ensures DistinctPaths(ops + [x]) && GroupedByKind(ops + [x])
    ensures forall d :: d in ops + [x] <==> d in ops || d == x
  {
  }

  /** The first loop of `diff`: a deletion for each path of `old_path_map.keys() - new_path_map.keys()`. */
  method ListDeleted(newMap: map<string, Doc>, oldMap: map<string, Doc>) returns (ops: seq<Delta>)
    ensures forall d :: d in ops <==> InDiff(newMap, oldMap, d) && d.op == Deleted
    ensures DistinctPaths(ops) && GroupedByKind(ops)
  {
    ops := [];
    var rest := oldMap.Keys - newMap.Keys;
    while rest != {}
      invariant rest <= oldMap.Keys - newMap.Keys
      invariant forall d :: d in ops <==> InDiff(newMap, oldMap, d) && d.op == Deleted && d.path !in rest
      invariant DistinctPaths(ops) && GroupedByKind(ops)
      decreases rest
    {
      var item :| item in rest;
      forall i | 0 <= i < |ops|
        ensures ops[i].path != item && Rank(ops[i].op) <= Rank(Deleted)
      {
        assert ops[i] in ops;
      }
      AppendRecord(ops, Delta(Deleted, item, Null, oldMap[item]));
      ops := ops + [Delta(Deleted, item, Null, oldMap[item])];
      rest := rest - {item};
    }
  }

  /** The second loop: an addition for each path of `new_path_map.keys() - old_path_map.keys()`,
      after the deletions. */
  method AppendAdded(newMap: map<string, Doc>, oldMap: map<string, Doc>, deleted: seq<Delta>)
    returns (ops: seq<Delta>)
    requires forall d :: d in deleted <==> InDiff(newMap, oldMap, d) && d.op == Deleted
    requires DistinctPaths(deleted) && GroupedByKind(deleted)
    ensures forall d :: d in ops <==> InDiff(newMap, oldMap, d) && d.op != Modified
    ensures DistinctPaths(ops) && GroupedByKind(ops)
  {
    ops := deleted;
    var rest := newMap.Keys - oldMap.Keys;
    while rest != {}
      invariant rest <= newMap.Keys - oldMap.Keys
      invariant forall d :: d in ops <==>
                  InDiff(newMap, oldMap, d) && (d.op == Deleted || (d.op == Added && d.path !in rest))
      invariant DistinctPaths(ops) && GroupedByKind(ops)
      decreases rest
    {
      var item :| item in rest;
      forall i | 0 <= i < |ops|
        ensures ops[i].path != item && Rank(ops[i].op) <= Rank(Added)
      {
        assert ops[i] in ops;
      }
      AppendRecord(ops, Delta(Added, item, newMap[item], Null));
      ops := ops + [Delta(Added, item, newMap[item], Null)];
      rest := rest - {item};
    }
  }

  /** The third loop: a modification for each path of `new_path_map.keys() & old_path_map.keys()`
      whose two values differ, after the deletions and additions. */
  method AppendModified(newMap: map<string, Doc>, oldMap: map<string, Doc>, earlier: seq<Delta>)
    returns (ops: seq<Delta>)
    requires forall d :: d in earlier <==> InDiff(newMap, oldMap, d) && d.op != Modified
    requires DistinctPaths(earlier) && GroupedByKind(earlier)
    ensures ListsDiff(newMap, oldMap, ops)
  {
    ops := earlier;
    var rest := newMap.Keys * oldMap.Keys;
    while rest != {}
      invariant rest <= newMap.Keys * oldMap.Keys
      invariant forall d :: d in ops <==> InDiff(newMap, oldMap, d) && !(d.op == Modified && d.path in rest)
      invariant DistinctPaths(ops) && GroupedByKind(ops)
      decreases rest
    {
      var item :| item in rest;
      var x := Delta(Modified, item, newMap[item], oldMap[item]);
      ghost var before := ops;
      if oldMap[item] != newMap[item] {
        forall i | 0 <= i < |ops|
          ensures ops[i].path != item && Rank(ops[i].op) <= Rank(Modified)
        {
          assert ops[i] in ops;
        }
        AppendRecord(ops, x);
        ops := ops + [x];
      }
      rest := rest - {item};
      forall d
        ensures d in ops <==> InDiff(newMap, oldMap, d) && !(d.op == Modified && d.path in rest)
      {
        if d.op == Modified && d.path == item {
          assert d !in before;
          assert InDiff(newMap, oldMap, d) <==> d == x && oldMap[item] != newMap[item];
        } else {
          assert d in ops <==> d in before;
        }
      }
    }
  }

  /** No record is listed exactly when the two leaf maps are equal. */
  lemma EmptyExactlyWhenLeavesAgree(newMap: map<string, Doc>, oldMap: map<string, Doc>, ops: seq<Delta>)
    requires ListsDiff(newMap, oldMap, ops)
    ensures ops == [] <==> newMap == oldMap
  {
    if ops == [] {
      forall p | p in oldMap
        ensures p in newMap && newMap[p] == oldMap[p]
      {
        assert !InDiff(newMap, oldMap, Delta(Deleted, p, Null, oldMap[p]));
        assert !InDiff(newMap, oldMap, Delta(Modified, p, newMap[p], oldMap[p]));
      }
      forall p | p in newMap
        ensures p in oldMap
      {
        assert !InDiff(newMap, oldMap, Delta(Added, p, newMap[p], Null));
      }
    } else {
      assert InDiff(newMap, oldMap, ops[0]);
    }
  }

  /** `diff(new, old)`: the two leaf maps, then the three loops. The same tree on both sides gives no
      record. */
  method ComputeDiff(newDoc: Doc, oldDoc: Doc) returns (ops: seq<Delta>)
    ensures ListsDiff(NewLeaves(newDoc), OldLeaves(oldDoc), ops)
    ensures newDoc == oldDoc ==> ops == []
  {
    var newMap, oldMap := NewLeaves(newDoc), OldLeaves(oldDoc);
    ops := ListDeleted(newMap, oldMap);
    ops := AppendAdded(newMap, oldMap, ops);
    ops := AppendModified(newMap, oldMap, ops);
    if newDoc == oldDoc {
      NewAndOldLeavesAgree(newDoc);
      EmptyExactlyWhenLeavesAgree(newMap, oldMap, ops);
    }
  }
}
