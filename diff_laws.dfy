/** What the records of `diff` (src/diff/diff.py) mean for the two trees, and the scenarios of
    tests/test_diff.py worked out on the model. */
module DiffLaws {
  import opened Types
  import opened Tokenizer
  import opened JsonPath
  import opened PathLaws
  import opened WalkerLaws
  import opened Patch
  import opened Diff

  /* ------------------------------------------------ every record is about a leaf */

  /** A record's old value is the leaf found at its path in the old tree, its new value the leaf
      found there in the new tree; a dict or a list is never a record's value. */
  lemma RecordsAddressLeaves(newDoc: Doc, oldDoc: Doc, d: Delta)
    requires InDiff(NewLeaves(newDoc), OldLeaves(oldDoc), d)
    ensures d.op != Added ==> Get(oldDoc, d.path) == Ok(d.oldValue) && !d.oldValue.IsContainer()
    ensures d.op != Deleted ==> Get(newDoc, d.path) == Ok(d.newValue) && !d.newValue.IsContainer()
    ensures d.op == Added ==> d.oldValue == Null
    ensures d.op == Deleted ==> d.newValue == Null
    ensures d.op == Modified ==> d.newValue != d.oldValue
  {
    var newOpts, oldOpts := WalkOptions(true, true, false, None), WalkOptions(true, false, false, None);
    PathValueMapAddresses(newOpts, newDoc, false);
    PathValueMapAddresses(oldOpts, oldDoc, false);
    PathValueMapFromPairs(newOpts, newDoc, false);
    PathValueMapFromPairs(oldOpts, oldDoc, false);
    IterReportsNoContainers(newOpts, newDoc);
    IterReportsNoContainers(oldOpts, oldDoc);
  }

  lemma GetRoot(doc: Doc)
    ensures Get(doc, "$") == Ok(doc)
  {
    assert Tokenize("$") == Ok([]);
  }

  /** Between two dicts or lists the root `$` is never a record: it is a container on both sides. */
  lemma RootIsNeverARecord(newDoc: Doc, oldDoc: Doc, d: Delta)
    requires newDoc.IsContainer() && oldDoc.IsContainer()
    requires InDiff(NewLeaves(newDoc), OldLeaves(oldDoc), d)
    ensures d.path != "$"
  {
    RecordsAddressLeaves(newDoc, oldDoc, d);
    GetRoot(newDoc);
    GetRoot(oldDoc);
  }

  /** Two trees have the same leaves at the same token paths (dicts and lists themselves do not
      count). */
  ghost predicate SameLeaves(a: Doc, b: Doc) {
    forall ts :: LeafAt(a, ts) == LeafAt(b, ts)
  }

  /** A leaf of one tree is a leaf of the other at the same tokens when their leaf maps agree. */
  lemma LeafCarriesOver(a: Doc, b: Doc, ts: seq<Token>)
    requires NewLeaves(a) == NewLeaves(b) && LeafAt(a, ts).Some?
    ensures LeafAt(b, ts) == LeafAt(a, ts)
  {
    var p := PathOf(ts);
    var m := NewLeaves(b);
    assert p in m && m[p] == LeafAt(a, ts).value;
    var ts' :| p == PathOf(ts') && LeafAt(b, ts') == Some(m[p]);
    PathOfInjective(ts, ts');
  }

  /** The leaf maps of two trees are equal exactly when the trees have the same leaves. */
  lemma LeafMapsAgreeExactly(a: Doc, b: Doc)
    ensures NewLeaves(a) == NewLeaves(b) <==> SameLeaves(a, b)
  {
    if NewLeaves(a) == NewLeaves(b) {
      forall ts
        ensures LeafAt(a, ts) == LeafAt(b, ts)
      {
        if LeafAt(a, ts).Some? {
          LeafCarriesOver(a, b, ts);
        } else if LeafAt(b, ts).Some? {
          LeafCarriesOver(b, a, ts);
        }
      }
    }
    if SameLeaves(a, b) {
      LeafMapIncluded(a, b);
      LeafMapIncluded(b, a);
    }
  }

  /** With the same leaves, every entry of one leaf map is an entry of the other. */
  lemma LeafMapIncluded(a: Doc, b: Doc)
    requires SameLeaves(a, b) || SameLeaves(b, a)
    ensures forall p :: p in NewLeaves(a) ==> p in NewLeaves(b) && NewLeaves(b)[p] == NewLeaves(a)[p]
  {
    var ma, mb := NewLeaves(a), NewLeaves(b);
    forall p | p in ma
      ensures p in mb && mb[p] == ma[p]
    {
      var ts :| p == PathOf(ts) && LeafAt(a, ts) == Some(ma[p]);
      assert LeafAt(b, ts) == LeafAt(a, ts);
    }
  }

  /** The list `diff` returns is empty exactly when the two trees have the same leaves at the same
      paths. */
  lemma NoRecordsExactlyForSameLeaves(newDoc: Doc, oldDoc: Doc, ops: seq<Delta>)
    requires ListsDiff(NewLeaves(newDoc), OldLeaves(oldDoc), ops)
    ensures ops == [] <==> NewLeaves(newDoc) == NewLeaves(oldDoc)
    ensures ops == [] <==> SameLeaves(newDoc, oldDoc)
  {
    NewAndOldLeavesAgree(oldDoc);
    EmptyExactlyWhenLeavesAgree(NewLeaves(newDoc), OldLeaves(oldDoc), ops);
    LeafMapsAgreeExactly(newDoc, oldDoc);
  }

  /* ------------------------------------------------ the scenarios of the tests */

  /** When one record is owed, the listed diff is that record alone. */
  lemma OnlyRecord(newMap: map<string, Doc>, oldMap: map<string, Doc>, ops: seq<Delta>, x: Delta)
    requires ListsDiff(newMap, oldMap, ops)
    requires forall d :: InDiff(newMap, oldMap, d) <==> d == x
    ensures ops == [x]
  {
    assert x in ops;
    assert forall i :: 0 <= i < |ops| ==> ops[i] in ops;
    FirstTwoDiffer(ops);
  }

  /** The first two records of a list with distinct paths have different paths. */
  lemma FirstTwoDiffer(ops: seq<Delta>)
    requires DistinctPaths(ops)
    ensures 1 < |ops| ==> ops[0].path != ops[1].path
  {
  }

  /** The leaf map of a one-entry dict whose key is written in dot form and whose value is a leaf. */
  lemma OneEntryLeaves(key: string, v: Doc, leavesOnly: bool)
    requires UsesDotForm(key) && !v.IsContainer()
    ensures PathValueMap(WalkOptions(true, leavesOnly, false, None), Obj(map[key := v]), false)
            == map["$." + key := v]
  {
    var o, doc := WalkOptions(true, leavesOnly, false, None), Obj(map[key := v]);
    var kids := Kids(doc);
    assert |kids| == 1 && (Key(key), v) in kids;
    assert kids == [(Key(key), v)];
    assert JoinPath("$", Key(key)) == "$." + key;
    assert kids[1..] == [];
    assert VisitKids(o, doc, kids, "$", 0) == [("$." + key, v)] + VisitKids(o, doc, kids[1..], "$", 0);
    assert Visit(o, doc, "$", 0) == [("$." + key, v)];
  }

  /** The leaf map of `{}` is empty. */
  lemma EmptyDictLeaves(leavesOnly: bool)
    ensures PathValueMap(WalkOptions(true, leavesOnly, false, None), Obj(map[]), false) == map[]
  {
    var doc := Obj(map[]);
    assert Kids(doc) == [];
  }

  /** Setting the one key of a dict through its dot-form path. */
  lemma SetOneKey(f: map<string, Doc>, key: string, v: Doc)
    requires UsesDotForm(key)
    ensures Set(Obj(f), "$." + key, v, true) == Ok(Obj(f[key := v]))
  {
    assert Tokenize("$") == Ok([]);
    JoinRoundTrip("$", Key(key));
    assert JoinPath("$", Key(key)) == "$." + key;
  }

  /** The records owed for one path whose leaf changed, appeared or disappeared. */
  lemma OneModification(p: string, a: Doc, b: Doc)
    requires a != b
    ensures forall d :: InDiff(map[p := a], map[p := b], d) <==> d == Delta(Modified, p, a, b)
  {
  }

  lemma OneAddition(p: string, a: Doc)
    ensures forall d :: InDiff(map[p := a], map[], d) <==> d == Delta(Added, p, a, Null)
  {
  }

  lemma OneDeletion(p: string, b: Doc)
    ensures forall d :: InDiff(map[], map[p := b], d) <==> d == Delta(Deleted, p, Null, b)
  {
  }

  /** Replaying a single record is applying it. */
  lemma PatchOne(base: Doc, x: Delta)
    ensures PatchSpec(base, [x]) == ApplyDelta(base, x)
  {
    assert [x][1..] == [];
  }

  /** Changing the leaf of a one-entry dict, as `{"name": "Amin"}` to `{"name": "Amin2"}`, is the
      single modification of `$.name`, and replaying it on the old tree gives the new one. */
  lemma ChangedLeafIsOneModification(key: string, a: Doc, b: Doc, ops: seq<Delta>)
    requires UsesDotForm(key) && !a.IsContainer() && !b.IsContainer() && a != b
    requires ListsDiff(NewLeaves(Obj(map[key := a])), OldLeaves(Obj(map[key := b])), ops)
    ensures ops == [Delta(Modified, "$." + key, a, b)]
    ensures PatchSpec(Obj(map[key := b]), ops) == Ok(Obj(map[key := a]))
  {
    var x := Delta(Modified, "$." + key, a, b);
    var newMap, oldMap := NewLeaves(Obj(map[key := a])), OldLeaves(Obj(map[key := b]));
    OneEntryLeaves(key, a, true);
    OneEntryLeaves(key, b, false);
    assert newMap == map["$." + key := a] && oldMap == map["$." + key := b];
    OneModification("$." + key, a, b);
    OnlyRecord(newMap, oldMap, ops, x);
    ReplayModification(key, a, b);
  }

  lemma ReplayModification(key: string, a: Doc, b: Doc)
    requires UsesDotForm(key)
    ensures PatchSpec(Obj(map[key := b]), [Delta(Modified, "$." + key, a, b)]) == Ok(Obj(map[key := a]))
  {
    PatchOne(Obj(map[key := b]), Delta(Modified, "$." + key, a, b));
    SetOneKey(map[key := b], key, a);
    assert map[key := b][key := a] == map[key := a];
  }

  /** A key added to `{}`, as `{}` to `{"age": 30}`, is the single addition of `$.age`, and replaying
      it gives the new tree. */
  lemma NewKeyIsOneAddition(key: string, a: Doc, ops: seq<Delta>)
    requires UsesDotForm(key) && !a.IsContainer()
    requires ListsDiff(NewLeaves(Obj(map[key := a])), OldLeaves(Obj(map[])), ops)
    ensures ops == [Delta(Added, "$." + key, a, Null)]
    ensures PatchSpec(Obj(map[]), ops) == Ok(Obj(map[key := a]))
  {
    var x := Delta(Added, "$." + key, a, Null);
    var newMap, oldMap := NewLeaves(Obj(map[key := a])), OldLeaves(Obj(map[]));
    OneEntryLeaves(key, a, true);
    EmptyDictLeaves(false);
    assert newMap == map["$." + key := a] && oldMap == map[];
    OneAddition("$." + key, a);
    OnlyRecord(newMap, oldMap, ops, x);
    ReplayAddition(key, a);
  }

  lemma ReplayAddition(key: string, a: Doc)
    requires UsesDotForm(key)
    ensures PatchSpec(Obj(map[]), [Delta(Added, "$." + key, a, Null)]) == Ok(Obj(map[key := a]))
  {
    PatchOne(Obj(map[]), Delta(Added, "$." + key, a, Null));
    SetOneKey(map[], key, a);
  }

  /** The only key dropped, as `{"name": "Amin"}` to `{}`, is the single deletion of `$.name`;
      replaying it removes the key and keeps the (now empty) root. */
  lemma DroppedKeyIsOneDeletion(key: string, b: Doc, ops: seq<Delta>)
    requires UsesDotForm(key) && !b.IsContainer()
    requires ListsDiff(NewLeaves(Obj(map[])), OldLeaves(Obj(map[key := b])), ops)
    ensures ops == [Delta(Deleted, "$." + key, Null, b)]
    ensures PatchSpec(Obj(map[key := b]), ops) == Ok(Obj(map[]))
  {
    var x := Delta(Deleted, "$." + key, Null, b);
    var newMap, oldMap := NewLeaves(Obj(map[])), OldLeaves(Obj(map[key := b]));
    EmptyDictLeaves(true);
    OneEntryLeaves(key, b, false);
    assert newMap == map[] && oldMap == map["$." + key := b];
    OneDeletion("$." + key, b);
    OnlyRecord(newMap, oldMap, ops, x);
    ReplayDeletion(key, b);
  }

  lemma ReplayDeletion(key: string, b: Doc)
    requires UsesDotForm(key)
    ensures PatchSpec(Obj(map[key := b]), [Delta(Deleted, "$." + key, Null, b)]) == Ok(Obj(map[]))
  {
    PatchOne(Obj(map[key := b]), Delta(Deleted, "$." + key, Null, b));
    PopOneKey(map[key := b], key);
    assert map[key := b] - {key} == map[];
  }

  /** Popping a key of a dict through its dot-form path, with pruning. */
  lemma PopOneKey(f: map<string, Doc>, key: string)
    requires UsesDotForm(key) && key in f
    ensures Pop(Obj(f), "$." + key, false, true, true) == Ok((Obj(f - {key}), f[key]))
  {
    assert Tokenize("$") == Ok([]);
    JoinRoundTrip("$", Key(key));
    assert JoinPath("$", Key(key)) == "$." + key;
  }

  /** There is no round trip in general: an empty dict is not a leaf, so `{"a": {}}` against `{}`
      gives no record and replaying it leaves `{}`. */
  lemma EmptyContainerIsInvisible(key: string, ops: seq<Delta>)
    requires ListsDiff(NewLeaves(Obj(map[key := Obj(map[])])), OldLeaves(Obj(map[])), ops)
    ensures ops == []
    ensures PatchSpec(Obj(map[]), ops) == Ok(Obj(map[])) && Obj(map[]) != Obj(map[key := Obj(map[])])
  {
    var newDoc := Obj(map[key := Obj(map[])]);
    EmptyChildLeaves(key);
    EmptyDictLeaves(false);
    EmptyExactlyWhenLeavesAgree(NewLeaves(newDoc), OldLeaves(Obj(map[])), ops);
    assert key in newDoc.fields;
  }

  /** A dict whose only value is an empty dict has no leaves. */
  lemma EmptyChildLeaves(key: string)
    ensures NewLeaves(Obj(map[key := Obj(map[])])) == map[]
  {
    var o, newDoc := WalkOptions(true, true, false, None), Obj(map[key := Obj(map[])]);
    var kids := Kids(newDoc);
    assert |kids| == 1 && (Key(key), Obj(map[])) in kids;
    assert kids == [(Key(key), Obj(map[]))];
    assert Kids(Obj(map[])) == [];
    assert kids[1..] == [];
    var p := JoinPath("$", Key(key));
    assert Visit(o, Obj(map[]), p, 1) == [];
    assert VisitKids(o, newDoc, kids, "$", 0) == Visit(o, Obj(map[]), p, 1) + VisitKids(o, newDoc, kids[1..], "$", 0);
    assert Visit(o, newDoc, "$", 0) == [];
  }

  /** Popping the only leaf under a one-key dict with pruning removes the emptied dict as well, and
      the root stays: `{"a": {"b": 1}}` popped at `$.a.b` is `{}`. */
  lemma PopPrunesNestedKey(k1: string, k2: string, v: Doc)
    requires UsesDotForm(k1) && UsesDotForm(k2)
    ensures Pop(Obj(map[k1 := Obj(map[k2 := v])]), "$." + k1 + "." + k2, false, true, true)
            == Ok((Obj(map[]), v))
  {
    assert Tokenize("$") == Ok([]);
    JoinRoundTrip("$", Key(k1));
    var base := JoinPath("$", Key(k1));
    assert base == "$." + k1;
    JoinRoundTrip(base, Key(k2));
    assert JoinPath(base, Key(k2)) == "$." + k1 + "." + k2;
    var tokens := [Key(k1), Key(k2)];
    assert [] + [Key(k1)] + [Key(k2)] == tokens;
    assert Tokenize("$." + k1 + "." + k2) == Ok(tokens);
    assert tokens[1..] == [Key(k2)];
    var doc, child := Obj(map[k1 := Obj(map[k2 := v])]), Obj(map[k2 := v]);
    assert Descend(doc, Key(k1)) == Ok(child);
    assert map[k2 := v] - {k2} == map[];
    assert PopAt(child, [Key(k2)], true, true) == Ok((Obj(map[]), v));
    assert map[k1 := child] - {k1} == map[];
    assert Reattach(doc, Key(k1), Obj(map[]), true, true) == Obj(map[]);
    assert PopAt(doc, tokens, true, true) == Ok((Obj(map[]), v));
  }
}
