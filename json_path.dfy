/** The path serializer and the tree walker of src/diff/json_path.py. */
module JsonPath {
  import opened Types
  import opened Digits
  import opened KeyOrder

  /** `s.replace(c, with)` for a one-character pattern: every occurrence of `c` becomes `with`. */
  function ReplaceChar(s: string, c: char, with: string): (r: string)
    ensures c !in s ==> r == s
  {
    if s == [] then []
    else (if s[0] == c then with else [s[0]]) + ReplaceChar(s[1..], c, with)
  }

  lemma {:induction false} ReplaceCharAppend(a: string, b: string, c: char, with: string)
    ensures ReplaceChar(a + b, c, with) == ReplaceChar(a, c, with) + ReplaceChar(b, c, with)
  {
    if a == [] {
      assert a + b == b;
    } else {
      var head := if a[0] == c then with else [a[0]];
      assert (a + b)[0] == a[0] && (a + b)[1..] == a[1..] + b;
      ReplaceCharAppend(a[1..], b, c, with);
      calc {
        ReplaceChar(a + b, c, with);
        head + ReplaceChar(a[1..] + b, c, with);
        head + (ReplaceChar(a[1..], c, with) + ReplaceChar(b, c, with));
        (head + ReplaceChar(a[1..], c, with)) + ReplaceChar(b, c, with);
        ReplaceChar(a, c, with) + ReplaceChar(b, c, with);
      }
    }
  }

  /** How one key character is written inside `["..."]`. */
  function EscapeChar(c: char): string {
    if c == '\\' then "\\\\" else if c == '"' then "\\\"" else [c]
  }

  /** The escaping described character by character: a reference for `EscapeKey`. */
  function EscapeEach(key: string): (r: string)
    ensures |r| >= |key|
  {
    if key == [] then [] else EscapeChar(key[0]) + EscapeEach(key[1..])
  }

  /** Escaping backslashes before quotes means no backslash added for a quote is doubled again: the two
      `replace` passes together escape each character of the key on its own. */
  lemma {:induction false} EscapeTwoPasses(key: string)
    ensures ReplaceChar(ReplaceChar(key, '\\', "\\\\"), '"', "\\\"") == EscapeEach(key)
  {
    if key != [] {
      var c, tail := key[0], key[1..];
      assert key == [c] + tail;
      ReplaceCharAppend([c], tail, '\\', "\\\\");
      var once := ReplaceChar([c], '\\', "\\\\");
      assert ReplaceChar(key, '\\', "\\\\") == once + ReplaceChar(tail, '\\', "\\\\");
      ReplaceCharAppend(once, ReplaceChar(tail, '\\', "\\\\"), '"', "\\\"");
      assert [c][1..] == [];
      if c == '\\' {
        assert once == "\\\\";
        assert ReplaceChar(once, '"', "\\\"") == "\\\\";
      } else if c == '"' {
        assert once == [c];
        assert ReplaceChar(once, '"', "\\\"") == "\\\"";
      } else {
        assert once == [c];
        assert ReplaceChar(once, '"', "\\\"") == [c];
      }
      EscapeTwoPasses(tail);
    }
  }

  /** `_escape_key_for_brackets`: backslashes are doubled first, then each `"` gets a backslash. */
  function EscapeKey(key: string): (r: string)
    ensures r == EscapeEach(key)
  {
    EscapeTwoPasses(key);
    ReplaceChar(ReplaceChar(key, '\\', "\\\\"), '"', "\\\"")
  }

  /** A key is written in dot form when it is non-empty and holds neither `.` nor `[`. */
  predicate UsesDotForm(key: string) {
    key != [] && '.' !in key && '[' !in key
  }

  /** `_join_path`: the path of the child reached from `base` by `token`. */
  function JoinPath(base: string, token: Token): (r: string)
    ensures base != [] ==> |r| > |base| && r[..|base|] == base
    ensures base != [] ==> r[|base|] == (if token.Key? && UsesDotForm(token.key) then '.' else '[')
  {
    match token
    case Index(i) => base + "[" + NatToString(i) + "]"
    case Key(key) =>
      if UsesDotForm(key) then
        if base == [] || base == "$" then (if base == "$" then base + "." else "") + key
        else base + "." + key
      else base + "[\"" + EscapeKey(key) + "\"]"
  }

  /** The path the walker writes for a token list when it starts from `$`: `_join_path` applied token
      by token. */
  function PathOf(tokens: seq<Token>): (r: string)
    ensures |r| > 0 && r[0] == '$'
    decreases |tokens|
  {
    if tokens == [] then "$" else JoinPath(PathOf(tokens[..|tokens| - 1]), tokens[|tokens| - 1])
  }

  /** The keyword arguments of `iter_json_paths` that shape its output. */
  datatype WalkOptions = WalkOptions(
    includeRoot: bool,
    leavesOnly: bool,
    includeContainers: bool,
    maxDepth: Option<int>)

  /** The entries of a dict as children, by ascending key. */
  function EntryKids(f: map<string, Doc>): (r: seq<(Token, Doc)>)
    ensures |r| == |f|
    ensures forall j :: 0 <= j < |r| ==> Obj(f).HasChild(r[j].0, r[j].1) && r[j].1 < Obj(f)
    ensures forall t, v :: Obj(f).HasChild(t, v) ==> (t, v) in r
  {
    var keys := SortedKeys(f.Keys);
    var r := seq(|keys|, j requires 0 <= j < |keys| => (Key(keys[j]), f[keys[j]]));
    assert |r| == |f| by { assert |keys| == |f.Keys|; }
    assert forall j :: 0 <= j < |r| ==> Obj(f).HasChild(r[j].0, r[j].1) && r[j].1 < Obj(f) by {
      forall j | 0 <= j < |r|
        ensures Obj(f).HasChild(r[j].0, r[j].1) && r[j].1 < Obj(f)
      {
        assert keys[j] in f.Keys;
        assert r[j] == (Key(keys[j]), f[keys[j]]);
      }
    }
    assert forall t, v :: Obj(f).HasChild(t, v) ==> (t, v) in r by {
      forall t, v | Obj(f).HasChild(t, v)
        ensures (t, v) in r
      {
        var j :| 0 <= j < |keys| && keys[j] == t.key;
        assert r[j] == (t, v);
      }
    }
    r
  }

  /** The children of a value in visiting order: a dict's entries by ascending key, a list's elements
      by index; anything else has none. Each child appears once. */
  function Kids(d: Doc): (r: seq<(Token, Doc)>)
    ensures forall j :: 0 <= j < |r| ==> d.HasChild(r[j].0, r[j].1) && r[j].1 < d
    ensures forall t, v :: d.HasChild(t, v) ==> (t, v) in r
    ensures d.Obj? ==> |r| == |d.fields|
    ensures d.Arr? ==> |r| == |d.items| && forall j :: 0 <= j < |r| ==> r[j].0 == Index(j)
    ensures !d.IsContainer() ==> r == []
  {
    match d
    case Obj(f) => EntryKids(f)
    case Arr(s) =>
      var r := seq(|s|, j requires 0 <= j < |s| => (Index(j), s[j]));
      assert forall t, v :: d.HasChild(t, v) ==> (t, v) in r by {
        forall t, v | d.HasChild(t, v)
          ensures (t, v) in r
        {
          assert r[t.index] == (t, v);
        }
      }
      r
    case _ => []
  }

  /** The path a container or the root is reported under: `path or ("$" if include_root else "")`. */
  function Here(o: WalkOptions, path: string): string {
    if path != [] then path else if o.includeRoot then "$" else ""
  }

  /** `rec` inside `iter_json_paths`: the pairs yielded for `cur`, found at `path` and `depth`. */
  function Visit(o: WalkOptions, cur: Doc, path: string, depth: nat): (r: seq<(string, Doc)>)
    ensures forall e :: e in r ==> e.1 == cur || e.1 < cur
    decreases cur, 1
  {
    if o.maxDepth.Some? && depth > o.maxDepth.value then []
    else if cur.IsContainer() then
      var here := Here(o, path);
      var head := if o.includeContainers && !o.leavesOnly then [(here, cur)] else [];
      if cur.IsEmptyContainer() && o.includeContainers && o.leavesOnly then head + [(here, cur)]
      else head + VisitKids(o, cur, Kids(cur), here, depth)
    else if path != [] || o.includeRoot then [(if path != [] then path else "$", cur)]
    else [("", cur)]
  }

  /** The loop of `rec` over the children of `parent`, whose path is `base`. A container child is
      reported before its own visit when containers are wanted; a leaf child is reported. */
  function VisitKids(o: WalkOptions, parent: Doc, kids: seq<(Token, Doc)>, base: string, depth: nat)
    : (r: seq<(string, Doc)>)
    requires forall j :: 0 <= j < |kids| ==> kids[j].1 < parent
    ensures forall e :: e in r ==> e.1 < parent
    decreases parent, 0, |kids|
  {
    if kids == [] then []
    else
      var (token, v) := kids[0];
      var childPath := JoinPath(base, token);
      var here :=
        if v.IsContainer() then
          (if o.includeContainers && !o.leavesOnly then [(childPath, v)] else [])
          + Visit(o, v, childPath, depth + 1)
        else [(childPath, v)];
      here + VisitKids(o, parent, kids[1..], base, depth)
  }

  /** `iter_json_paths` with `include_values=True`: the root itself first when asked for, then the
      visit of the whole tree from depth 0. */
  function IterJsonPaths(o: WalkOptions, obj: Doc): (r: seq<(string, Doc)>)
    ensures forall e :: e in r ==> e.1 == obj || e.1 < obj
  {
    (if o.includeRoot && o.includeContainers && !o.leavesOnly then [("$", obj)] else [])
    + Visit(o, obj, if o.includeRoot then "$" else "", 0)
  }

  /** `list_json_paths`: the paths alone, in the same order. */
  function ListJsonPaths(o: WalkOptions, obj: Doc): (r: seq<string>)
    ensures |r| == |IterJsonPaths(o, obj)|
    ensures forall i :: 0 <= i < |r| ==> r[i] == IterJsonPaths(o, obj)[i].0
  {
    var pairs := IterJsonPaths(o, obj);
    seq(|pairs|, i requires 0 <= i < |pairs| => pairs[i].0)
  }

  /** The pairs whose value is not None, in their order. */
  function DropNone(pairs: seq<(string, Doc)>): (r: seq<(string, Doc)>)
    ensures forall e :: e in r <==> e in pairs && e.1 != Null
    ensures |r| <= |pairs|
  {
    if pairs == [] then []
    else (if pairs[0].1 == Null then [] else [pairs[0]]) + DropNone(pairs[1..])
  }

  /** The comprehension keeps the order of the pairs: filtering a concatenation concatenates the
      filtered parts, so each kept pair stays where it was relative to the others. */
  lemma {:induction false} DropNoneAppend(a: seq<(string, Doc)>, b: seq<(string, Doc)>)
    ensures DropNone(a + b) == DropNone(a) + DropNone(b)
    decreases |a|
  {
    if a == [] {
      assert a + b == b;
    } else {
      assert (a + b)[0] == a[0] && (a + b)[1..] == a[1..] + b;
      DropNoneAppend(a[1..], b);
    }
  }

  /** A single pair is kept exactly when its value is not None. */
  lemma DropNoneOne(e: (string, Doc))
    ensures DropNone([e]) == if e.1 == Null then [] else [e]
  {
  }

  /** `paths_with_values`: the walk, less the pairs holding None when `exclude_none` is set. */
  function PathsWithValues(o: WalkOptions, obj: Doc, excludeNone: bool): (r: seq<(string, Doc)>)
    ensures forall e :: e in r <==> e in IterJsonPaths(o, obj) && (!excludeNone || e.1 != Null)
    ensures |r| <= |IterJsonPaths(o, obj)|
  {
    var pairs := IterJsonPaths(o, obj);
    if excludeNone then DropNone(pairs) else pairs
  }

  /** `pairs[i]` is the last pair with path `p`. */
  predicate LastWith(pairs: seq<(string, Doc)>, i: int, p: string) {
    0 <= i < |pairs| && pairs[i].0 == p && forall j :: i < j < |pairs| ==> pairs[j].0 != p
  }

  /** Adding the last pair keeps the keys of the dict equal to the paths of the pairs. */
  lemma ToMapKeysStep(front: seq<(string, Doc)>, last: (string, Doc), pairs: seq<(string, Doc)>,
                      prev: map<string, Doc>, m: map<string, Doc>)
    requires pairs == front + [last] && m == prev[last.0 := last.1]
    requires forall p :: p in prev <==> exists i :: 0 <= i < |front| && front[i].0 == p
    ensures forall p :: p in m <==> exists i :: 0 <= i < |pairs| && pairs[i].0 == p
  {
    forall p
      ensures p in m <==> exists i :: 0 <= i < |pairs| && pairs[i].0 == p
    {
      if p == last.0 {
        assert pairs[|front|].0 == p;
      } else if p in prev {
        var i :| 0 <= i < |front| && front[i].0 == p;
        assert pairs[i].0 == p;
      } else {
        forall i | 0 <= i < |pairs|
          ensures pairs[i].0 != p
        {
          if i < |front| { assert pairs[i] == front[i]; }
        }
      }
    }
  }

  /** Adding the last pair keeps every entry the value of the last pair with its path. */
  lemma ToMapLastStep(front: seq<(string, Doc)>, last: (string, Doc), pairs: seq<(string, Doc)>,
                      prev: map<string, Doc>, m: map<string, Doc>)
    requires pairs == front + [last] && m == prev[last.0 := last.1]
    requires forall p :: p in prev ==> exists i :: LastWith(front, i, p) && front[i].1 == prev[p]
    ensures forall p :: p in m ==> exists i :: LastWith(pairs, i, p) && pairs[i].1 == m[p]
  {
    forall p | p in m
      ensures exists i :: LastWith(pairs, i, p) && pairs[i].1 == m[p]
    {
      if p == last.0 {
        assert LastWith(pairs, |front|, p);
      } else {
        var i :| LastWith(front, i, p) && front[i].1 == prev[p];
        forall j | i < j < |pairs|
          ensures pairs[j].0 != p
        {
          if j < |front| { assert pairs[j] == front[j]; }
        }
        assert pairs[i] == front[i];
        assert LastWith(pairs, i, p);
      }
    }
  }

  /** A dict built from pairs in order: each path maps to the value of its last pair. */
  function ToMap(pairs: seq<(string, Doc)>): (m: map<string, Doc>)
    ensures forall p :: p in m <==> exists i :: 0 <= i < |pairs| && pairs[i].0 == p
    ensures forall p :: p in m ==> exists i :: LastWith(pairs, i, p) && pairs[i].1 == m[p]
  {
    if pairs == [] then map[]
    else
      var front, last := pairs[..|pairs| - 1], pairs[|pairs| - 1];
      assert pairs == front + [last];
      var prev := ToMap(front);
      var m := prev[last.0 := last.1];
      ToMapKeysStep(front, last, pairs, prev, m);
      ToMapLastStep(front, last, pairs, prev, m);
      m
  }

  /** `path_value_map`: its keys are exactly the reported paths (less those reported only with
      None under `exclude_none`). */
  function PathValueMap(o: WalkOptions, obj: Doc, excludeNone: bool): (m: map<string, Doc>)
    ensures forall p :: p in m <==> exists v :: (p, v) in IterJsonPaths(o, obj) && (!excludeNone || v != Null)
  {
    var pairs := PathsWithValues(o, obj, excludeNone);
    ToMapKeys(pairs);
    ToMap(pairs)
  }

  /** The keys of the dict built from a list of pairs are the paths that occur in it. */
  lemma ToMapKeys(pairs: seq<(string, Doc)>)
    ensures forall p :: p in ToMap(pairs) <==> exists v :: (p, v) in pairs
  {
    var m := ToMap(pairs);
    forall p
      ensures p in m <==> exists v :: (p, v) in pairs
    {
      if p in m {
        var i :| 0 <= i < |pairs| && pairs[i].0 == p;
        assert (p, pairs[i].1) == pairs[i];
      }
      if exists v :: (p, v) in pairs {
        var v :| (p, v) in pairs;
        var i :| 0 <= i < |pairs| && pairs[i] == (p, v);
      }
    }
  }
}
