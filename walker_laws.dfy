/** What the walker of src/diff/json_path.py promises: which nodes it reports, and that each reported
    path leads back, through the tokenizer and `get`, to the value reported with it. */
module WalkerLaws {
  import opened Types
  import opened Tokenizer
  import opened JsonPath
  import opened PathLaws
  import opened Patch
  import opened PatchLaws

  /* ------------------------------------------------ include_containers=False */

  /** Without `include_containers` no dict or list is reported, not even an empty one. */
  lemma {:induction false} VisitReportsNoContainers(o: WalkOptions, cur: Doc, path: string, depth: nat)
    requires !o.includeContainers
    ensures forall e :: e in Visit(o, cur, path, depth) ==> !e.1.IsContainer()
    decreases cur, 1
  {
    if !(o.maxDepth.Some? && depth > o.maxDepth.value) && cur.IsContainer() {
      VisitKidsReportNoContainers(o, cur, Kids(cur), Here(o, path), depth);
    }
  }

  lemma {:induction false} VisitKidsReportNoContainers(o: WalkOptions, parent: Doc, kids: seq<(Token, Doc)>,
                                                       base: string, depth: nat)
    requires !o.includeContainers
    requires forall j :: 0 <= j < |kids| ==> kids[j].1 < parent
    ensures forall e :: e in VisitKids(o, parent, kids, base, depth) ==> !e.1.IsContainer()
    decreases parent, 0, |kids|
  {
    if kids != [] {
      var v := kids[0].1;
      if v.IsContainer() {
        VisitReportsNoContainers(o, v, JoinPath(base, kids[0].0), depth + 1);
      }
      VisitKidsReportNoContainers(o, parent, kids[1..], base, depth);
    }
  }

  lemma IterReportsNoContainers(o: WalkOptions, obj: Doc)
    requires !o.includeContainers
    ensures forall e :: e in IterJsonPaths(o, obj) ==> !e.1.IsContainer()
  {
    VisitReportsNoContainers(o, obj, if o.includeRoot then "$" else "", 0);
  }

  /** Without `include_containers`, `leaves_only` makes no difference. */
  lemma {:induction false} VisitIgnoresLeavesOnly(o: WalkOptions, cur: Doc, path: string, depth: nat)
    requires !o.includeContainers
    ensures Visit(o.(leavesOnly := true), cur, path, depth) == Visit(o.(leavesOnly := false), cur, path, depth)
    decreases cur, 1
  {
    if !(o.maxDepth.Some? && depth > o.maxDepth.value) && cur.IsContainer() {
      VisitKidsIgnoreLeavesOnly(o, cur, Kids(cur), Here(o, path), depth);
    }
  }

  lemma {:induction false} VisitKidsIgnoreLeavesOnly(o: WalkOptions, parent: Doc, kids: seq<(Token, Doc)>,
                                                     base: string, depth: nat)
    requires !o.includeContainers
    requires forall j :: 0 <= j < |kids| ==> kids[j].1 < parent
    ensures VisitKids(o.(leavesOnly := true), parent, kids, base, depth)
            == VisitKids(o.(leavesOnly := false), parent, kids, base, depth)
    decreases parent, 0, |kids|
  {
    if kids != [] {
      var v := kids[0].1;
      if v.IsContainer() {
        VisitIgnoresLeavesOnly(o, v, JoinPath(base, kids[0].0), depth + 1);
      }
      VisitKidsIgnoreLeavesOnly(o, parent, kids[1..], base, depth);
    }
  }

  lemma IterIgnoresLeavesOnly(o: WalkOptions, obj: Doc)
    requires !o.includeContainers
    ensures IterJsonPaths(o.(leavesOnly := true), obj) == IterJsonPaths(o.(leavesOnly := false), obj)
  {
    VisitIgnoresLeavesOnly(o, obj, if o.includeRoot then "$" else "", 0);
  }

  /* ------------------------------------------------ a root that is not a container */

  /** A root that is neither a dict nor a list is reported once, under `$` with `include_root` and
      under the empty path without it; with both `include_containers` and not `leaves_only` the
      root is reported first as such, so `$` comes twice. A negative `max_depth` cuts even the root's
      own visit. */
  lemma ScalarRoot(o: WalkOptions, obj: Doc)
    requires !obj.IsContainer()
    ensures o.maxDepth.Some? && o.maxDepth.value < 0 ==>
              IterJsonPaths(o, obj) == (if o.includeRoot && o.includeContainers && !o.leavesOnly then [("$", obj)] else [])
    ensures (o.maxDepth.None? || o.maxDepth.value >= 0) && !(o.includeRoot && o.includeContainers && !o.leavesOnly) ==>
              IterJsonPaths(o, obj) == [(if o.includeRoot then "$" else "", obj)]
    ensures (o.maxDepth.None? || o.maxDepth.value >= 0) && o.includeRoot && o.includeContainers && !o.leavesOnly ==>
              IterJsonPaths(o, obj) == [("$", obj), ("$", obj)]
  {
  }

  /** A dict or list root, with `include_root`, `include_containers` and not `leaves_only`, is
      reported twice under `$`: once before the visit and once by the visit itself. */
  lemma ContainerRootTwice(o: WalkOptions, obj: Doc)
    requires obj.IsContainer() && o.includeRoot && o.includeContainers && !o.leavesOnly
    requires o.maxDepth.None? || o.maxDepth.value >= 0
    ensures |IterJsonPaths(o, obj)| >= 2
    ensures IterJsonPaths(o, obj)[0] == ("$", obj) && IterJsonPaths(o, obj)[1] == ("$", obj)
  {
  }

  /* ------------------------------------------------ reported paths lead to their values */

  /** The depth allowed by `max_depth`: a reported path below the root has at most `max_depth + 1`
      tokens (the children of the deepest visited containers). */
  predicate WithinDepth(o: WalkOptions, n: nat) {
    o.maxDepth.None? || n == 0 || n <= o.maxDepth.value + 1
  }

  /** The reported path tokenizes, leads from the root to the reported value, and is not deeper
      than `max_depth` allows. */
  predicate Addresses(o: WalkOptions, obj: Doc, e: (string, Doc)) {
    var t := Tokenize(e.0);
    t.Ok? && GetAt(obj, t.value) == Ok(e.1) && WithinDepth(o, |t.value|)
  }

  lemma {:induction false} VisitAddresses(o: WalkOptions, obj: Doc, cur: Doc, path: string, depth: nat)
    requires path != [] && Tokenize(path).Ok? && |Tokenize(path).value| == depth
    requires GetAt(obj, Tokenize(path).value) == Ok(cur)
    ensures forall e :: e in Visit(o, cur, path, depth) ==> Addresses(o, obj, e)
    decreases cur, 1
  {
    if !(o.maxDepth.Some? && depth > o.maxDepth.value) && cur.IsContainer() {
      assert Here(o, path) == path;
      VisitKidsAddress(o, obj, cur, Kids(cur), path, depth);
    }
  }

  lemma {:induction false} VisitKidsAddress(o: WalkOptions, obj: Doc, parent: Doc, kids: seq<(Token, Doc)>,
                                            base: string, depth: nat)
    requires forall j :: 0 <= j < |kids| ==> kids[j].1 < parent && parent.HasChild(kids[j].0, kids[j].1)
    requires base != [] && Tokenize(base).Ok? && |Tokenize(base).value| == depth
    requires GetAt(obj, Tokenize(base).value) == Ok(parent)
    requires o.maxDepth.Some? ==> depth <= o.maxDepth.value
    ensures forall e :: e in VisitKids(o, parent, kids, base, depth) ==> Addresses(o, obj, e)
    decreases parent, 0, |kids|
  {
    if kids != [] {
      var (token, v) := kids[0];
      var childPath := JoinPath(base, token);
      JoinRoundTrip(base, token);
      GetAtAppend(obj, Tokenize(base).value, token, v);
      assert Addresses(o, obj, (childPath, v));
      if v.IsContainer() {
        VisitAddresses(o, obj, v, childPath, depth + 1);
      }
      VisitKidsAddress(o, obj, parent, kids[1..], base, depth);
    }
  }

  /** With `include_root`, every reported pair `(p, v)` satisfies `get_by_json_path(obj, p) == v`,
      and `p` is no deeper than `max_depth + 1` tokens. */
  lemma IterAddresses(o: WalkOptions, obj: Doc)
    requires o.includeRoot
    ensures forall e :: e in IterJsonPaths(o, obj) ==> Addresses(o, obj, e)
  {
    assert Tokenize("$") == Ok([]);
    VisitAddresses(o, obj, obj, "$", 0);
  }

  /* ------------------------------------------------ the wrappers */

  /** Each entry of `path_value_map` comes from a reported pair (the last one with that path). */
  lemma PathValueMapFromPairs(o: WalkOptions, obj: Doc, excludeNone: bool)
    ensures forall p :: p in PathValueMap(o, obj, excludeNone) ==>
              (p, PathValueMap(o, obj, excludeNone)[p]) in IterJsonPaths(o, obj)
    ensures excludeNone ==> forall p :: p in PathValueMap(o, obj, excludeNone) ==>
              PathValueMap(o, obj, excludeNone)[p] != Null
  {
    var pairs := PathsWithValues(o, obj, excludeNone);
    var m := ToMap(pairs);
    forall p | p in m
      ensures (p, m[p]) in IterJsonPaths(o, obj)
      ensures excludeNone ==> m[p] != Null
    {
      var i :| 0 <= i < |pairs| && pairs[i] == (p, m[p]);
      assert pairs[i] in pairs;
    }
  }

  /** With `include_root`, each entry of `path_value_map` maps a path to the value it leads to. */
  lemma PathValueMapAddresses(o: WalkOptions, obj: Doc, excludeNone: bool)
    requires o.includeRoot
    ensures forall p :: p in PathValueMap(o, obj, excludeNone) ==>
              Get(obj, p) == Ok(PathValueMap(o, obj, excludeNone)[p])
  {
    PathValueMapFromPairs(o, obj, excludeNone);
    IterAddresses(o, obj);
  }

  /* ------------------------------------------------ every leaf is reported */

  /** `max_depth` lets a walk that visits a node at `depth` reach a value `n` tokens below it: the
      node itself is visited, and so is the container holding the value. */
  predicate Reached(o: WalkOptions, depth: nat, n: nat) {
    o.maxDepth.None? || (depth <= o.maxDepth.value && depth + n <= o.maxDepth.value + 1)
  }

  /** The value `tokens` lead to when it is a leaf (neither a dict nor a list), and None otherwise. */
  function LeafAt(d: Doc, tokens: seq<Token>): Option<Doc> {
    match GetAt(d, tokens)
    case Ok(v) => if v.IsContainer() then None else Some(v)
    case Err(_) => None
  }

  /** `e` is what the loop over the children reports for `kid`: the child itself when it is a leaf,
      or what the visit of it reports. */
  predicate ReportedFor(o: WalkOptions, kid: (Token, Doc), base: string, depth: nat, e: (string, Doc)) {
    var childPath := JoinPath(base, kid.0);
    if kid.1.IsContainer() then e in Visit(o, kid.1, childPath, depth + 1) else e == (childPath, kid.1)
  }

  /** Every child in `kids` is part of `parent`. */
  ghost predicate KidsBelow(parent: Doc, kids: seq<(Token, Doc)>) {
    forall j :: 0 <= j < |kids| ==> kids[j].1 < parent
  }

  /** What the loop over the children reports for child `i` is part of what it reports. */
  lemma {:induction false} VisitKidsContains(o: WalkOptions, parent: Doc, kids: seq<(Token, Doc)>,
                                             base: string, depth: nat, i: nat, e: (string, Doc))
    requires KidsBelow(parent, kids)
    requires i < |kids| && ReportedFor(o, kids[i], base, depth, e)
    ensures e in VisitKids(o, parent, kids, base, depth)
    decreases |kids|
  {
    if i > 0 {
      KidsTail(parent, kids, i);
      VisitKidsContains(o, parent, kids[1..], base, depth, i - 1, e);
      VisitKidsTail(o, parent, kids, base, depth, e);
    } else {
      VisitKidsHead(o, parent, kids, base, depth, e);
    }
  }

  lemma KidsTail(parent: Doc, kids: seq<(Token, Doc)>, i: nat)
    requires 0 < i < |kids| && KidsBelow(parent, kids)
    ensures KidsBelow(parent, kids[1..]) && kids[1..][i - 1] == kids[i]
  {
  }

  /** The loop over the children reports what it reports for the first child ... */
  lemma VisitKidsHead(o: WalkOptions, parent: Doc, kids: seq<(Token, Doc)>, base: string, depth: nat, e: (string, Doc))
    requires kids != [] && KidsBelow(parent, kids) && ReportedFor(o, kids[0], base, depth, e)
    ensures e in VisitKids(o, parent, kids, base, depth)
  {
  }

  /** ... and then what it reports for the others. */
  lemma VisitKidsTail(o: WalkOptions, parent: Doc, kids: seq<(Token, Doc)>, base: string, depth: nat, e: (string, Doc))
    requires kids != [] && KidsBelow(parent, kids) && KidsBelow(parent, kids[1..])
    requires e in VisitKids(o, parent, kids[1..], base, depth)
    ensures e in VisitKids(o, parent, kids, base, depth)
  {
  }

  /** A visit of a node whose path is the walker's path of `prefix` reports every leaf below the node
      that `max_depth` lets it reach, under the walker's path of the whole token list. */
  lemma {:induction false} VisitFindsLeaves(o: WalkOptions, cur: Doc, prefix: seq<Token>, ts: seq<Token>)
    requires LeafAt(cur, ts).Some? && Reached(o, |prefix|, |ts|)
    ensures (PathOf(prefix + ts), LeafAt(cur, ts).value) in Visit(o, cur, PathOf(prefix), |prefix|)
    decreases |ts|
  {
    var v := LeafAt(cur, ts).value;
    if ts == [] {
      assert prefix + ts == prefix;
    } else {
      var t, rest := ts[0], ts[1..];
      assert ts == [t] + rest;
      var child := if t.Key? then cur.fields[t.key] else cur.items[t.index];
      GetAtCons(cur, t, child, rest);
      assert LeafAt(child, rest) == Some(v);
      assert (prefix + [t]) + rest == prefix + ts;
      if rest != [] {
        VisitFindsLeaves(o, child, prefix + [t], rest);
      }
      VisitFindsChild(o, cur, prefix, t, child, (PathOf(prefix + ts), v));
    }
  }

  /** What the visit of child `child` (at token `t`) of a visited container reports, or the child
      itself when it is a leaf, is reported by the visit of the container. */
  lemma VisitFindsChild(o: WalkOptions, cur: Doc, prefix: seq<Token>, t: Token, child: Doc, e: (string, Doc))
    requires cur.HasChild(t, child)
    requires o.maxDepth.Some? ==> |prefix| <= o.maxDepth.value
    requires if child.IsContainer() then e in Visit(o, child, PathOf(prefix + [t]), |prefix| + 1)
             else e == (PathOf(prefix + [t]), child)
    ensures e in Visit(o, cur, PathOf(prefix), |prefix|)
  {
    var base := PathOf(prefix);
    PathOfSnoc(prefix, t);
    var kids := Kids(cur);
    assert (t, child) in kids;
    var i :| 0 <= i < |kids| && kids[i] == (t, child);
    assert ReportedFor(o, kids[i], base, |prefix|, e);
    VisitKidsContains(o, cur, kids, base, |prefix|, i, e);
    VisitHasKids(o, cur, base, |prefix|, e);
  }

  lemma PathOfSnoc(prefix: seq<Token>, t: Token)
    ensures PathOf(prefix + [t]) == JoinPath(PathOf(prefix), t)
  {
    assert (prefix + [t])[..|prefix|] == prefix;
  }

  /** A visit of a non-empty container within `max_depth` reports what the loop over its children
      reports. */
  lemma VisitHasKids(o: WalkOptions, cur: Doc, path: string, depth: nat, e: (string, Doc))
    requires path != [] && !(o.maxDepth.Some? && depth > o.maxDepth.value)
    requires cur.IsContainer() && !cur.IsEmptyContainer() && e in VisitKids(o, cur, Kids(cur), path, depth)
    ensures e in Visit(o, cur, path, depth)
  {
    assert Here(o, path) == path;
  }

  /** With `include_root`, every leaf `max_depth` lets the walk reach is reported, under the path
      `_join_path` builds for its tokens from `$`. */
  lemma IterFindsLeaves(o: WalkOptions, obj: Doc, ts: seq<Token>)
    requires o.includeRoot && LeafAt(obj, ts).Some? && Reached(o, 0, |ts|)
    ensures (PathOf(ts), LeafAt(obj, ts).value) in IterJsonPaths(o, obj)
  {
    VisitFindsLeaves(o, obj, [], ts);
    assert [] + ts == ts;
  }

  /* ------------------------------------------------ and nothing else is */

  /** `e` is what some token list leads to from `cur`, reported under the walker's path of `prefix`
      followed by that list. */
  ghost predicate FoundBelow(o: WalkOptions, cur: Doc, prefix: seq<Token>, e: (string, Doc)) {
    exists ts :: e.0 == PathOf(prefix + ts) && GetAt(cur, ts) == Ok(e.1) && Reached(o, |prefix|, |ts|)
  }

  /** What is found below a child is found below its parent, one token further up. */
  lemma FoundStep(o: WalkOptions, cur: Doc, prefix: seq<Token>, t: Token, v: Doc, e: (string, Doc))
    requires cur.HasChild(t, v) && FoundBelow(o, v, prefix + [t], e)
    requires o.maxDepth.Some? ==> |prefix| <= o.maxDepth.value
    ensures FoundBelow(o, cur, prefix, e)
  {
    var ts :| e.0 == PathOf(prefix + [t] + ts) && GetAt(v, ts) == Ok(e.1) && Reached(o, |prefix| + 1, |ts|);
    var ts' := [t] + ts;
    GetAtCons(cur, t, v, ts);
    TokensAssoc(prefix, [t], ts);
    FoundWitness(o, cur, prefix, ts', e);
  }

  lemma FoundWitness(o: WalkOptions, cur: Doc, prefix: seq<Token>, ts: seq<Token>, e: (string, Doc))
    requires e.0 == PathOf(prefix + ts) && GetAt(cur, ts) == Ok(e.1) && Reached(o, |prefix|, |ts|)
    ensures FoundBelow(o, cur, prefix, e)
  {
  }

  lemma TokensAssoc(a: seq<Token>, b: seq<Token>, c: seq<Token>)
    ensures a + (b + c) == a + b + c
  {
  }

  /** A child reported by the loop over the children is found one token below the parent. */
  lemma FoundChild(o: WalkOptions, cur: Doc, prefix: seq<Token>, t: Token, v: Doc)
    requires cur.HasChild(t, v)
    requires o.maxDepth.Some? ==> |prefix| <= o.maxDepth.value
    ensures FoundBelow(o, cur, prefix, (JoinPath(PathOf(prefix), t), v))
  {
    var ts: seq<Token> := [t];
    assert (prefix + ts)[..|prefix|] == prefix;
    GetAtCons(cur, t, v, []);
    assert ts == [t] + [];
    assert JoinPath(PathOf(prefix), t) == PathOf(prefix + ts) && GetAt(cur, ts) == Ok(v)
           && Reached(o, |prefix|, |ts|);
  }

  /** Every pair a visit reports is a value below the node, reached within `max_depth`, under the
      walker's path of its tokens. */
  lemma {:induction false} VisitReportsFound(o: WalkOptions, cur: Doc, prefix: seq<Token>)
    ensures forall e :: e in Visit(o, cur, PathOf(prefix), |prefix|) ==> FoundBelow(o, cur, prefix, e)
    decreases cur, 1
  {
    var path, depth := PathOf(prefix), |prefix|;
    if !(o.maxDepth.Some? && depth > o.maxDepth.value) {
      assert Here(o, path) == path;
      assert prefix + [] == prefix && GetAt(cur, []) == Ok(cur) && Reached(o, depth, 0);
      assert FoundBelow(o, cur, prefix, (path, cur));
      if cur.IsContainer() {
        VisitKidsReportFound(o, cur, prefix, Kids(cur));
      }
      forall e | e in Visit(o, cur, path, depth)
        ensures FoundBelow(o, cur, prefix, e)
      {
        VisitParts(o, cur, path, depth, e);
      }
    }
  }

  /** A visit at a non-empty path within `max_depth` reports the node itself under that path, or
      what the loop over its children reports. */
  lemma VisitParts(o: WalkOptions, cur: Doc, path: string, depth: nat, e: (string, Doc))
    requires path != [] && !(o.maxDepth.Some? && depth > o.maxDepth.value) && e in Visit(o, cur, path, depth)
    ensures e == (path, cur) || (cur.IsContainer() && e in VisitKids(o, cur, Kids(cur), path, depth))
  {
    assert Here(o, path) == path;
  }

  lemma {:induction false} VisitKidsReportFound(o: WalkOptions, parent: Doc, prefix: seq<Token>,
                                                kids: seq<(Token, Doc)>)
    requires forall j :: 0 <= j < |kids| ==> kids[j].1 < parent && parent.HasChild(kids[j].0, kids[j].1)
    requires o.maxDepth.Some? ==> |prefix| <= o.maxDepth.value
    ensures forall e :: e in VisitKids(o, parent, kids, PathOf(prefix), |prefix|) ==> FoundBelow(o, parent, prefix, e)
    decreases parent, 0, |kids|
  {
    if kids != [] {
      var (t, v) := kids[0];
      var childPath := JoinPath(PathOf(prefix), t);
      FoundChild(o, parent, prefix, t, v);
      if v.IsContainer() {
        assert PathOf(prefix + [t]) == childPath by {
          assert (prefix + [t])[..|prefix|] == prefix;
        }
        VisitReportsFound(o, v, prefix + [t]);
        forall e | e in Visit(o, v, childPath, |prefix| + 1)
          ensures FoundBelow(o, parent, prefix, e)
        {
          FoundStep(o, parent, prefix, t, v, e);
        }
      }
      VisitKidsReportFound(o, parent, prefix, kids[1..]);
    }
  }

  /** The walks of `diff` (`include_root`, no containers) report exactly the leaves `max_depth` lets
      them reach, each under the path `_join_path` builds for its tokens from `$`. */
  lemma LeafWalkExactly(o: WalkOptions, obj: Doc)
    requires o.includeRoot && !o.includeContainers
    ensures forall e :: e in IterJsonPaths(o, obj) ==>
              exists ts :: e.0 == PathOf(ts) && Reached(o, 0, |ts|) && LeafAt(obj, ts) == Some(e.1)
    ensures forall ts :: LeafAt(obj, ts).Some? && Reached(o, 0, |ts|) ==>
              (PathOf(ts), LeafAt(obj, ts).value) in IterJsonPaths(o, obj)
  {
    VisitReportsFound(o, obj, []);
    IterReportsNoContainers(o, obj);
    forall e | e in IterJsonPaths(o, obj)
      ensures exists ts :: e.0 == PathOf(ts) && Reached(o, 0, |ts|) && LeafAt(obj, ts) == Some(e.1)
    {
      var ts :| e.0 == PathOf([] + ts) && GetAt(obj, ts) == Ok(e.1) && Reached(o, 0, |ts|);
      assert [] + ts == ts;
    }
    forall ts | LeafAt(obj, ts).Some? && Reached(o, 0, |ts|)
      ensures (PathOf(ts), LeafAt(obj, ts).value) in IterJsonPaths(o, obj)
    {
      IterFindsLeaves(o, obj, ts);
    }
  }

  /** In such a walk two pairs with the same path are the same pair, so the dict `path_value_map`
      builds from it does not depend on the order of the walk. */
  lemma SamePathSameLeaf(o: WalkOptions, obj: Doc, e1: (string, Doc), e2: (string, Doc))
    requires o.includeRoot && !o.includeContainers
    requires e1 in IterJsonPaths(o, obj) && e2 in IterJsonPaths(o, obj) && e1.0 == e2.0
    ensures e1 == e2
  {
    LeafWalkExactly(o, obj);
    var ts1 :| e1.0 == PathOf(ts1) && Reached(o, 0, |ts1|) && LeafAt(obj, ts1) == Some(e1.1);
    var ts2 :| e2.0 == PathOf(ts2) && Reached(o, 0, |ts2|) && LeafAt(obj, ts2) == Some(e2.1);
    PathOfInjective(ts1, ts2);
  }

  /** So `path_value_map` of such a walk maps the path of every reachable leaf to that leaf, and has
      no other entry. */
  lemma LeafMapExactly(o: WalkOptions, obj: Doc)
    requires o.includeRoot && !o.includeContainers
    ensures forall p :: p in PathValueMap(o, obj, false) ==>
              exists ts :: p == PathOf(ts) && Reached(o, 0, |ts|) && LeafAt(obj, ts) == Some(PathValueMap(o, obj, false)[p])
    ensures forall ts :: LeafAt(obj, ts).Some? && Reached(o, 0, |ts|) ==>
              PathOf(ts) in PathValueMap(o, obj, false)
              && PathValueMap(o, obj, false)[PathOf(ts)] == LeafAt(obj, ts).value
  {
    var m := PathValueMap(o, obj, false);
    LeafWalkExactly(o, obj);
    PathValueMapFromPairs(o, obj, false);
    forall ts | LeafAt(obj, ts).Some? && Reached(o, 0, |ts|)
      ensures PathOf(ts) in m && m[PathOf(ts)] == LeafAt(obj, ts).value
    {
      var p := PathOf(ts);
      assert (p, LeafAt(obj, ts).value) in IterJsonPaths(o, obj);
      assert p in m;
      assert (p, m[p]) in IterJsonPaths(o, obj);
      var ts' :| p == PathOf(ts') && Reached(o, 0, |ts'|) && LeafAt(obj, ts') == Some(m[p]);
      PathOfInjective(ts, ts');
    }
  }
}
