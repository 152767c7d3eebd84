/** What `get`, `set`, `pop` and `patch` of src/diff/patch.py promise, proved about their
    specification functions (the methods are proved equal to those). */
module PatchLaws {
  import opened Types
  import opened Tokenizer
  import opened Patch

  /* ---------------------------------------------------------------- get */

  /** One more step below a value found by a path. */
  lemma {:induction false} GetAtAppend(d: Doc, tokens: seq<Token>, token: Token, child: Doc)
    requires GetAt(d, tokens).Ok? && GetAt(d, tokens).value.HasChild(token, child)
    ensures GetAt(d, tokens + [token]) == Ok(child)
    decreases |tokens|
  {
    if tokens == [] {
      assert [] + [token] == [token];
      assert [token][1..] == [];
    } else {
      assert (tokens + [token])[0] == tokens[0];
      assert (tokens + [token])[1..] == tokens[1..] + [token];
      match tokens[0]
      case Key(k) => GetAtAppend(d.fields[k], tokens[1..], token, child);
      case Index(i) => GetAtAppend(d.items[i], tokens[1..], token, child);
    }
  }

  /** One step down from a value to its child, then the rest of the way. */
  lemma GetAtCons(d: Doc, t: Token, child: Doc, rest: seq<Token>)
    requires d.HasChild(t, child)
    ensures GetAt(d, [t] + rest) == GetAt(child, rest)
  {
    var ts := [t] + rest;
    assert ts[0] == t && ts[1..] == rest;
    match t
    case Key(k) => assert d.fields[k] == child;
    case Index(i) => assert d.items[i] == child;
  }

  /* ---------------------------------------------------------------- set */

  /** A path with no tokens (`$`, say) cannot be set. */
  lemma SetOnRootFails(doc: Doc, path: string, value: Doc, create: bool)
    requires Tokenize(path) == Ok([])
    ensures Set(doc, path, value, create) == Err(JsonPathError(RootPath))
  {
  }

  /** After a successful set, the path leads to the value that was set. */
  lemma {:induction false} GetAfterSetAt(d: Doc, tokens: seq<Token>, value: Doc, create: bool)
    requires tokens != [] && SetAt(d, tokens, value, create).Ok?
    ensures GetAt(SetAt(d, tokens, value, create).value, tokens) == Ok(value)
    decreases |tokens|
  {
    if |tokens| > 1 {
      var d' := SetAt(d, tokens, value, create).value;
      match tokens[0]
      case Key(k) =>
        var missing := k !in d.fields || d.fields[k] == Null;
        var child := if missing then Placeholder(tokens[1]) else d.fields[k];
        GetAfterSetAt(child, tokens[1..], value, create);
      case Index(i) =>
        var items := Padded(d.items, i);
        var child := if items[i] == Null then Placeholder(tokens[1]) else items[i];
        GetAfterSetAt(child, tokens[1..], value, create);
    }
  }

  lemma GetAfterSet(doc: Doc, path: string, value: Doc, create: bool)
    requires Set(doc, path, value, create).Ok?
    ensures Get(Set(doc, path, value, create).value, path) == Ok(value)
  {
    GetAfterSetAt(doc, Tokenize(path).value, value, create);
  }

  /** Setting the same value at the same path twice is setting it once. */
  lemma {:induction false} SetAtIdempotent(d: Doc, tokens: seq<Token>, value: Doc, create: bool)
    requires tokens != [] && SetAt(d, tokens, value, create).Ok?
    ensures SetAt(SetAt(d, tokens, value, create).value, tokens, value, create)
            == SetAt(d, tokens, value, create)
    decreases |tokens|
  {
    var d' := SetAt(d, tokens, value, create).value;
    match tokens[0]
    case Key(k) =>
      if |tokens| == 1 {
        assert d'.fields[k := value] == d'.fields;
      } else {
        var child := if k !in d.fields || d.fields[k] == Null then Placeholder(tokens[1]) else d.fields[k];
        SetAtIdempotent(child, tokens[1..], value, create);
        KeyStepAgain(d, tokens, value, create);
      }
    case Index(i) =>
      if |tokens| == 1 {
        assert d'.items[i := value] == d'.items;
      } else {
        var items := Padded(d.items, i);
        var child := if items[i] == Null then Placeholder(tokens[1]) else items[i];
        SetAtIdempotent(child, tokens[1..], value, create);
        IndexStepAgain(d, tokens, value, create);
      }
  }

  /** A key step of `SetAt` repeated on its own result, given that the rest of the walk is. */
  lemma KeyStepAgain(d: Doc, tokens: seq<Token>, value: Doc, create: bool)
    requires |tokens| >= 2 && tokens[0].Key? && d.Obj? && SetAt(d, tokens, value, create).Ok?
    requires var k := tokens[0].key;
             var child := if k !in d.fields || d.fields[k] == Null then Placeholder(tokens[1]) else d.fields[k];
             SetAt(child, tokens[1..], value, create).Ok?
             && SetAt(SetAt(child, tokens[1..], value, create).value, tokens[1..], value, create)
                == SetAt(child, tokens[1..], value, create)
    ensures SetAt(SetAt(d, tokens, value, create).value, tokens, value, create)
            == SetAt(d, tokens, value, create)
  {
    var k := tokens[0].key;
    var d' := SetAt(d, tokens, value, create).value;
    var child := if k !in d.fields || d.fields[k] == Null then Placeholder(tokens[1]) else d.fields[k];
    var child' := SetAt(child, tokens[1..], value, create).value;
    assert d' == Obj(d.fields[k := child']);
    assert child' != Null by {
      assert tokens[1..][0] == tokens[1];
      SetStepHas(child, tokens[1..], value, create);
    }
    assert d'.fields[k := child'] == d'.fields;
  }

  /** An index step of `SetAt` repeated on its own result, given that the rest of the walk is. */
  lemma IndexStepAgain(d: Doc, tokens: seq<Token>, value: Doc, create: bool)
    requires |tokens| >= 2 && tokens[0].Index? && d.Arr? && SetAt(d, tokens, value, create).Ok?
    requires var i, items := tokens[0].index, Padded(d.items, tokens[0].index);
             var child := if items[i] == Null then Placeholder(tokens[1]) else items[i];
             SetAt(child, tokens[1..], value, create).Ok?
             && SetAt(SetAt(child, tokens[1..], value, create).value, tokens[1..], value, create)
                == SetAt(child, tokens[1..], value, create)
    ensures SetAt(SetAt(d, tokens, value, create).value, tokens, value, create)
            == SetAt(d, tokens, value, create)
  {
    var i, items := tokens[0].index, Padded(d.items, tokens[0].index);
    var d' := SetAt(d, tokens, value, create).value;
    var child := if items[i] == Null then Placeholder(tokens[1]) else items[i];
    var child' := SetAt(child, tokens[1..], value, create).value;
    SetAtIndexUnfold(d, tokens, value, create);
    assert d' == Arr(items[i := child']);
    assert child'.Has(tokens[1]) by {
      assert tokens[1..][0] == tokens[1];
      SetStepHas(child, tokens[1..], value, create);
    }
    assert Padded(d'.items, i) == d'.items;
    assert d'.items[i] == child' && child' != Null;
    SetAtIndexUnfold(d', tokens, value, create);
    assert d'.items[i := child'] == d'.items;
  }

  /** A successful set leaves a container of the right kind, holding the first token, at the top. */
  lemma SetStepHas(d: Doc, tokens: seq<Token>, value: Doc, create: bool)
    requires tokens != [] && SetAt(d, tokens, value, create).Ok?
    ensures SetAt(d, tokens, value, create).value.Has(tokens[0])
  {
  }

  lemma ApplyDeltaIdempotent(d: Doc, delta: Delta)
    requires delta.op != Deleted && ApplyDelta(d, delta).Ok?
    ensures ApplyDelta(ApplyDelta(d, delta).value, delta) == ApplyDelta(d, delta)
  {
    var tokens := Tokenize(delta.path).value;
    SetAtIdempotent(d, tokens, delta.newValue, true);
  }

  /** `tokens` and `other` part ways at position `j`: the same tokens before it, different tokens at it. */
  predicate PartAt(tokens: seq<Token>, other: seq<Token>, j: nat) {
    j < |tokens| && j < |other| && tokens[..j] == other[..j] && tokens[j] != other[j]
  }

  /** A set changes nothing at a path that parts ways with the path it sets. */
  lemma {:induction false} SetAtKeepsOtherPaths(d: Doc, tokens: seq<Token>, value: Doc, create: bool,
                                                 other: seq<Token>, j: nat)
    requires tokens != [] && SetAt(d, tokens, value, create).Ok?
    requires PartAt(tokens, other, j) && GetAt(d, other).Ok?
    ensures GetAt(SetAt(d, tokens, value, create).value, other) == GetAt(d, other)
    decreases |tokens|
  {
    if j > 0 {
      assert tokens[0] == other[0] by {
        assert tokens[..j][0] == other[..j][0];
      }
      assert PartAt(tokens[1..], other[1..], j - 1) by {
        assert tokens[1..][..j - 1] == tokens[..j][1..];
        assert other[1..][..j - 1] == other[..j][1..];
      }
      KeepsBelowStep(d, tokens, value, create, other);
      SetAtKeepsOtherPaths(Descend(d, tokens[0]).value, tokens[1..], value, create, other[1..], j - 1);
    } else {
      KeepsAtStep(d, tokens, value, create, other);
    }
  }

  /** Where the two paths still agree, the set and the lookup step into the same child. */
  lemma KeepsBelowStep(d: Doc, tokens: seq<Token>, value: Doc, create: bool, other: seq<Token>)
    requires |tokens| >= 2 && |other| >= 2 && tokens[0] == other[0]
    requires SetAt(d, tokens, value, create).Ok? && GetAt(d, other).Ok?
    ensures Descend(d, tokens[0]).Ok?
    ensures var c := Descend(d, tokens[0]).value;
            SetAt(c, tokens[1..], value, create).Ok? && GetAt(c, other[1..]) == GetAt(d, other)
            && GetAt(SetAt(d, tokens, value, create).value, other)
               == GetAt(SetAt(c, tokens[1..], value, create).value, other[1..])
  {
    assert other[1..] != [];
    match tokens[0]
    case Key(k) =>
      assert GetAt(d.fields[k], other[1..]).Ok?;
    case Index(i) =>
      var items := Padded(d.items, i);
      assert items[i] == d.items[i];
      assert GetAt(d.items[i], other[1..]).Ok?;
  }

  /** Where the two paths part ways, the set leaves the looked-up child in place. */
  lemma KeepsAtStep(d: Doc, tokens: seq<Token>, value: Doc, create: bool, other: seq<Token>)
    requires tokens != [] && other != [] && tokens[0] != other[0]
    requires SetAt(d, tokens, value, create).Ok? && GetAt(d, other).Ok?
    ensures GetAt(SetAt(d, tokens, value, create).value, other) == GetAt(d, other)
  {
    match tokens[0]
    case Key(k) =>
      assert other[0].Key? && other[0].key != k;
    case Index(i) =>
      if other[0].Index? {
        var items := Padded(d.items, i);
        assert other[0].index != i && items[other[0].index] == d.items[other[0].index];
      }
  }

  /** Without creation, a set needs the parent of its last token to be there already, of the right
      kind, and for an index the position to be in range. */
  lemma {:induction false} SetWithoutCreateNeedsParent(d: Doc, tokens: seq<Token>, value: Doc)
    requires tokens != [] && SetAt(d, tokens, value, false).Ok?
    ensures var parent := GetAt(d, tokens[..|tokens| - 1]);
            parent.Ok? && parent.value.IsContainer()
            && (tokens[|tokens| - 1].Key? ==> parent.value.Obj?)
            && (tokens[|tokens| - 1].Index? ==> parent.value.Has(tokens[|tokens| - 1]))
    decreases |tokens|
  {
    if |tokens| == 1 {
      assert tokens[..0] == [];
    } else {
      assert tokens[..|tokens| - 1][1..] == tokens[1..][..|tokens| - 2];
      assert tokens[..|tokens| - 1][0] == tokens[0];
      match tokens[0]
      case Key(k) => SetWithoutCreateNeedsParent(d.fields[k], tokens[1..], value);
      case Index(i) => SetWithoutCreateNeedsParent(d.items[i], tokens[1..], value);
    }
  }

  /** Conversely, a set succeeds when the parent of its last token is there and of the right kind:
      a dict for a key (assigning adds a missing key), and for an index a list in which the position
      exists, or any list when creating (it is padded). */
  lemma {:induction false} SetWithParentSucceeds(d: Doc, tokens: seq<Token>, value: Doc, create: bool)
    requires tokens != []
    requires var parent, last := GetAt(d, tokens[..|tokens| - 1]), tokens[|tokens| - 1];
             parent.Ok? && (last.Key? ==> parent.value.Obj?)
             && (last.Index? ==> parent.value.Arr? && (create || last.index < |parent.value.items|))
    ensures SetAt(d, tokens, value, create).Ok?
    decreases |tokens|
  {
    var n := |tokens|;
    if n == 1 {
      assert tokens[..0] == [];
    } else {
      CutAfterFirst(tokens);
      var rest := tokens[1..][..n - 2];
      assert d.Has(tokens[0]);
      var c := match tokens[0] case Key(k) => d.fields[k] case Index(i) => d.items[i];
      GetAtCons(d, tokens[0], c, rest);
      assert c.IsContainer() by {
        if rest != [] {
          assert c.Has(rest[0]);
        }
      }
      SetWithParentSucceeds(c, tokens[1..], value, create);
      if tokens[0].Index? {
        assert Padded(d.items, tokens[0].index) == d.items;
      }
    }
  }

  /** Without creation, a set succeeds exactly when the parent of its last token is there, of the
      last token's kind, and holds the position of an index. */
  lemma SetWithoutCreateExactly(d: Doc, tokens: seq<Token>, value: Doc)
    requires tokens != []
    ensures var parent, last := GetAt(d, tokens[..|tokens| - 1]), tokens[|tokens| - 1];
            SetAt(d, tokens, value, false).Ok?
            <==> parent.Ok? && (last.Key? ==> parent.value.Obj?) && (last.Index? ==> parent.value.Has(last))
  {
    var parent, last := GetAt(d, tokens[..|tokens| - 1]), tokens[|tokens| - 1];
    if SetAt(d, tokens, value, false).Ok? {
      SetWithoutCreateNeedsParent(d, tokens, value);
    } else if parent.Ok? && (last.Key? ==> parent.value.Obj?) && (last.Index? ==> parent.value.Has(last)) {
      SetWithParentSucceeds(d, tokens, value, false);
    }
  }

  /** The first `j` tokens lead through nodes that are all there and none of them None: a set
      without creation gets that far. */
  ghost predicate Reaches(d: Doc, tokens: seq<Token>, j: nat)
    requires j <= |tokens|
  {
    GetAt(d, tokens[..j]).Ok?
    && forall i :: 0 < i <= j ==> GetAt(d, tokens[..i]).Ok? && GetAt(d, tokens[..i]).value != Null
  }

  /** Without creation, a set fails at the first step it cannot take, at any depth, with the error
      of that step: TypeError for a container of the wrong kind, IndexError for an index past the end
      of a list, KeyError for a missing or None step before the last. */
  lemma {:induction false} SetWithoutCreateErrors(d: Doc, tokens: seq<Token>, value: Doc, j: nat)
    requires j < |tokens| && Reaches(d, tokens, j)
    ensures var c, t := GetAt(d, tokens[..j]).value, tokens[j];
            (!(if t.Key? then c.Obj? else c.Arr?) ==> SetAt(d, tokens, value, false) == Err(TypeError))
            && (t.Index? && c.Arr? && t.index >= |c.items| ==> SetAt(d, tokens, value, false) == Err(IndexError))
            && (j + 1 < |tokens| && t.Key? && c.Obj? && (t.key !in c.fields || c.fields[t.key] == Null)
                ==> SetAt(d, tokens, value, false) == Err(KeyError))
            && (j + 1 < |tokens| && t.Index? && c.Arr? && t.index < |c.items| && c.items[t.index] == Null
                ==> SetAt(d, tokens, value, false) == Err(KeyError))
    decreases j
  {
    if j == 0 {
      assert tokens[..0] == [];
    } else {
      var t0 := tokens[0];
      var child := GetAt(d, tokens[..1]).value;
      assert tokens[..1] == [t0] + [];
      assert d.Has(t0);
      var c0 := if t0.Key? then d.fields[t0.key] else d.items[t0.index];
      GetAtCons(d, t0, c0, []);
      assert c0 == child && child != Null;
      assert Reaches(child, tokens[1..], j - 1) by {
        forall i | 0 <= i <= j - 1
          ensures GetAt(child, tokens[1..][..i]) == GetAt(d, tokens[..i + 1])
        {
          assert tokens[..i + 1] == [t0] + tokens[1..][..i];
          GetAtCons(d, t0, child, tokens[1..][..i]);
        }
      }
      SetWithoutCreateErrors(child, tokens[1..], value, j - 1);
      assert tokens[1..][..j - 1] == tokens[..j][1..] && tokens[1..][j - 1] == tokens[j];
      assert GetAt(child, tokens[1..][..j - 1]) == GetAt(d, tokens[..j]);
      if t0.Index? {
        assert Padded(d.items, t0.index) == d.items;
      }
    }
  }

  /** With or without creation, a key step on a non-dict or an index step on a non-list is a
      TypeError at any depth the set reaches: creation only fills missing or None steps, it never
      replaces a value of the wrong kind. */
  lemma {:induction false} SetWrongKindErrors(d: Doc, tokens: seq<Token>, value: Doc, create: bool, j: nat)
    requires j < |tokens| && Reaches(d, tokens, j)
    ensures var c, t := GetAt(d, tokens[..j]).value, tokens[j];
            !(if t.Key? then c.Obj? else c.Arr?) ==> SetAt(d, tokens, value, create) == Err(TypeError)
    decreases j
  {
    if j == 0 {
      assert tokens[..0] == [];
    } else {
      var t0 := tokens[0];
      var child := GetAt(d, tokens[..1]).value;
      assert tokens[..1] == [t0] + [];
      assert d.Has(t0);
      var c0 := if t0.Key? then d.fields[t0.key] else d.items[t0.index];
      GetAtCons(d, t0, c0, []);
      assert c0 == child && child != Null;
      assert Reaches(child, tokens[1..], j - 1) by {
        forall i | 0 <= i <= j - 1
          ensures GetAt(child, tokens[1..][..i]) == GetAt(d, tokens[..i + 1])
        {
          assert tokens[..i + 1] == [t0] + tokens[1..][..i];
          GetAtCons(d, t0, child, tokens[1..][..i]);
        }
      }
      SetWrongKindErrors(child, tokens[1..], value, create, j - 1);
      assert tokens[1..][..j - 1] == tokens[..j][1..] && tokens[1..][j - 1] == tokens[j];
      assert GetAt(child, tokens[1..][..j - 1]) == GetAt(d, tokens[..j]);
      if t0.Index? {
        assert Padded(d.items, t0.index) == d.items;
      }
    }
  }

  /** With creation, the only way a set fails is a TypeError: missing and None steps are created
      and short lists padded, so no KeyError or IndexError is left. */
  lemma {:induction false} CreateOnlyTypeError(d: Doc, tokens: seq<Token>, value: Doc)
    requires tokens != []
    ensures SetAt(d, tokens, value, true).Err? ==> SetAt(d, tokens, value, true).error == TypeError
    decreases |tokens|
  {
    if |tokens| > 1 && (if tokens[0].Key? then d.Obj? else d.Arr?) {
      var child := match tokens[0]
        case Key(k) => if k !in d.fields || d.fields[k] == Null then Placeholder(tokens[1]) else d.fields[k]
        case Index(i) =>
          var items := Padded(d.items, i);
          if items[i] == Null then Placeholder(tokens[1]) else items[i];
      CreateOnlyTypeError(child, tokens[1..], value);
    }
  }

  /** With creation, a set into a fresh container of the kind the first token needs always
      succeeds: every missing step is created and every short list padded. */
  lemma {:induction false} SetCreatesPath(tokens: seq<Token>, value: Doc)
    requires tokens != []
    ensures SetAt(Placeholder(tokens[0]), tokens, value, true).Ok?
    decreases |tokens|
  {
    if |tokens| > 1 {
      assert tokens[1..][0] == tokens[1];
      SetCreatesPath(tokens[1..], value);
    }
  }

  /** An index past the end of a list pads it with None up to the index, when creating. */
  lemma SetPadsList(items: seq<Doc>, i: nat, value: Doc)
    requires i >= |items|
    ensures SetAt(Arr(items), [Index(i)], value, true) == Ok(Arr(items + Nulls(i - |items|) + [value]))
    ensures SetAt(Arr(items), [Index(i)], value, false) == Err(IndexError)
  {
    var padded := Padded(items, i);
    assert padded[i := value] == items + Nulls(i - |items|) + [value];
  }

  /* ---------------------------------------------------------------- pop */

  /** A path with no tokens cannot be popped. */
  lemma PopOnRootFails(doc: Doc, path: string, missingOk: bool, rfl: bool, prune: bool)
    requires Tokenize(path) == Ok([])
    ensures Pop(doc, path, missingOk, rfl, prune) == Err(JsonPathError(RootPath))
  {
  }

  /** Where the path leads nowhere, pop fails too. */
  lemma {:induction false} PopMissingFails(d: Doc, tokens: seq<Token>, rfl: bool, prune: bool)
    requires tokens != [] && GetAt(d, tokens).Err?
    ensures PopAt(d, tokens, rfl, prune).Err?
    decreases |tokens|
  {
    if |tokens| > 1 && Descend(d, tokens[0]).Ok? {
      PopMissingFails(Descend(d, tokens[0]).value, tokens[1..], rfl, prune);
    }
  }

  /** So with `missingOk` a path that leads nowhere leaves the document as it was and gives None;
      without it, the pop fails. */
  lemma PopMissing(doc: Doc, path: string, rfl: bool, prune: bool)
    requires Tokenize(path).Ok? && Tokenize(path).value != [] && Get(doc, path).Err?
    ensures Pop(doc, path, true, rfl, prune) == Ok((doc, Null))
    ensures Pop(doc, path, false, rfl, prune).Err?
  {
    PopMissingFails(doc, Tokenize(path).value, rfl, prune);
  }

  /** Where no pruning happens, a pop changes only the parent of the last token, as the removal at
      the leaf does: a dict loses the key; a list loses the element and later ones shift down, or
      with `rfl` off the element becomes None. */
  lemma {:induction false} PopChangesOnlyParent(d: Doc, tokens: seq<Token>, rfl: bool, prune: bool)
    requires tokens != [] && PopAt(d, tokens, rfl, prune).Ok?
    ensures var parent := GetAt(d, tokens[..|tokens| - 1]);
            parent.Ok? && RemoveLeaf(parent.value, tokens[|tokens| - 1], rfl).Ok?
    ensures var removed := RemoveLeaf(GetAt(d, tokens[..|tokens| - 1]).value, tokens[|tokens| - 1], rfl);
            !(prune && removed.value.0.IsEmptyContainer()) ==>
              GetAt(PopAt(d, tokens, rfl, prune).value.0, tokens[..|tokens| - 1]) == Ok(removed.value.0)
    decreases |tokens|
  {
    var n := |tokens|;
    PopLeavesNode(d, tokens, rfl, prune, n - 1);
    assert tokens[n - 1..] == [tokens[n - 1]];
  }

  /** An empty container has nothing below it. */
  lemma EmptyHasNoPath(d: Doc, tokens: seq<Token>)
    requires d.IsEmptyContainer() && tokens != []
    ensures GetAt(d, tokens).Err?
  {
  }

  /** A corollary of `PopPrunesUpward` at the last level, on a path of dict keys: with pruning, a
      parent left empty by the pop is gone, and its path no longer leads anywhere. */
  lemma {:induction false} PopPrunesEmptyParent(d: Doc, tokens: seq<Token>, rfl: bool)
    requires |tokens| >= 2 && forall j :: 0 <= j < |tokens| ==> tokens[j].Key?
    requires PopAt(d, tokens, rfl, true).Ok?
    requires var parent := GetAt(d, tokens[..|tokens| - 1]);
             parent.Ok? && RemoveLeaf(parent.value, tokens[|tokens| - 1], rfl).Ok?
             && RemoveLeaf(parent.value, tokens[|tokens| - 1], rfl).value.0.IsEmptyContainer()
    ensures GetAt(PopAt(d, tokens, rfl, true).value.0, tokens[..|tokens| - 1]).Err?
    decreases |tokens|
  {
    var n := |tokens|;
    PopAtDown(d, tokens, rfl, true);
    var k := tokens[0].key;
    var child := d.fields[k];
    var tail := tokens[1..];
    var popped := PopAt(child, tail, rfl, true).value;
    var d' := PopAt(d, tokens, rfl, true).value.0;
    CutAfterFirst(tokens);
    GetAtCons(d, Key(k), child, tail[..n - 2]);
    if popped.0.IsEmptyContainer() {
      assert d' == Obj(d.fields - {k});
    } else {
      assert d' == Obj(d.fields[k := popped.0]);
      GetAtCons(d', Key(k), popped.0, tail[..n - 2]);
      if n == 2 {
        assert false;
      } else {
        PopPrunesEmptyParent(child, tail, rfl);
      }
    }
  }

  /** A path without its last token, seen as its first token and the rest. */
  lemma CutAfterFirst(tokens: seq<Token>)
    requires |tokens| >= 2
    ensures tokens[..|tokens| - 1] == [tokens[0]] + tokens[1..][..|tokens| - 2]
    ensures tokens[1..][|tokens| - 2] == tokens[|tokens| - 1]
  {
  }

  /** Following a path in two parts. */
  lemma {:induction false} GetAtSplit(d: Doc, xs: seq<Token>, ys: seq<Token>)
    requires GetAt(d, xs).Ok?
    ensures GetAt(d, xs + ys) == GetAt(GetAt(d, xs).value, ys)
    decreases |xs|
  {
    if xs == [] {
      assert xs + ys == ys;
    } else {
      var t := xs[0];
      var c := if t.Key? then d.fields[t.key] else d.items[t.index];
      assert xs == [t] + xs[1..] && xs + ys == [t] + (xs[1..] + ys);
      GetAtCons(d, t, c, xs[1..]);
      GetAtSplit(c, xs[1..], ys);
      GetAtCons(d, t, c, xs[1..] + ys);
    }
  }

  /** A pop seen from the node at `tokens[..j]`: the node is there, and the rest of the pop
      succeeds from it and removes the same value. */
  lemma {:induction false} PopAtBelow(d: Doc, tokens: seq<Token>, rfl: bool, prune: bool, j: nat)
    requires j < |tokens| && PopAt(d, tokens, rfl, prune).Ok?
    ensures GetAt(d, tokens[..j]).Ok?
    ensures PopAt(GetAt(d, tokens[..j]).value, tokens[j..], rfl, prune).Ok?
    ensures PopAt(GetAt(d, tokens[..j]).value, tokens[j..], rfl, prune).value.1 == PopAt(d, tokens, rfl, prune).value.1
    decreases j
  {
    if j == 0 {
      assert tokens[..0] == [] && tokens[0..] == tokens;
    } else {
      var t, rest := tokens[0], tokens[1..];
      PopAtDown(d, tokens, rfl, prune);
      var c := Descend(d, t).value;
      PopAtBelow(c, rest, rfl, prune, j - 1);
      assert tokens[..j] == [t] + rest[..j - 1] && rest[j - 1..] == tokens[j..];
      GetAtCons(d, t, c, rest[..j - 1]);
    }
  }

  /** What the pop leaves of the node at `tokens[..j]` is in the new document at the same place,
      unless pruning removed it. */
  lemma {:induction false} PopLeavesNode(d: Doc, tokens: seq<Token>, rfl: bool, prune: bool, j: nat)
    requires j < |tokens| && PopAt(d, tokens, rfl, prune).Ok?
    ensures GetAt(d, tokens[..j]).Ok? && PopAt(GetAt(d, tokens[..j]).value, tokens[j..], rfl, prune).Ok?
    ensures var left := PopAt(GetAt(d, tokens[..j]).value, tokens[j..], rfl, prune).value.0;
            !(0 < j && prune && left.IsEmptyContainer()) ==>
              GetAt(PopAt(d, tokens, rfl, prune).value.0, tokens[..j]) == Ok(left)
    decreases j
  {
    PopAtBelow(d, tokens, rfl, prune, j);
    if j == 0 {
      assert tokens[..0] == [] && tokens[0..] == tokens;
    } else {
      var t, rest := tokens[0], tokens[1..];
      PopAtDown(d, tokens, rfl, prune);
      var c := Descend(d, t).value;
      var popped := PopAt(c, rest, rfl, prune).value;
      PopLeavesNode(c, rest, rfl, prune, j - 1);
      assert tokens[..j] == [t] + rest[..j - 1] && rest[j - 1..] == tokens[j..];
      GetAtCons(d, t, c, rest[..j - 1]);
      var left := PopAt(GetAt(d, tokens[..j]).value, tokens[j..], rfl, prune).value.0;
      if !(prune && left.IsEmptyContainer()) {
        if j > 1 {
          assert GetAt(popped.0, rest[..j - 1]).Ok?;
          if popped.0.IsEmptyContainer() {
            EmptyHasNoPath(popped.0, rest[..j - 1]);
          }
        } else {
          assert rest[..0] == [];
        }
        WrittenBack(d, t, popped.0, rfl, prune, rest[..j - 1]);
      }
    }
  }

  /** A child that is not pruned is written back, so paths through it lead where they led in it. */
  lemma WrittenBack(d: Doc, t: Token, child: Doc, rfl: bool, prune: bool, tail: seq<Token>)
    requires d.Has(t) && !(prune && child.IsEmptyContainer())
    ensures GetAt(Reattach(d, t, child, rfl, prune), [t] + tail) == GetAt(child, tail)
  {
    GetAtCons(Reattach(d, t, child, rfl, prune), t, child, tail);
  }

  /** One step of a pop: down into the child, the rest of the pop there, and the child written back. */
  lemma PopAtDown(d: Doc, tokens: seq<Token>, rfl: bool, prune: bool)
    requires |tokens| >= 2 && PopAt(d, tokens, rfl, prune).Ok?
    ensures Descend(d, tokens[0]).Ok? && PopAt(Descend(d, tokens[0]).value, tokens[1..], rfl, prune).Ok?
    ensures var popped := PopAt(Descend(d, tokens[0]).value, tokens[1..], rfl, prune).value;
            PopAt(d, tokens, rfl, prune).value == (Reattach(d, tokens[0], popped.0, rfl, prune), popped.1)
  {
  }

  /** The pop deletes the child at `rest[0]` from the node it starts at: the child is the popped
      leaf, or pruning finds it empty once the pop below it is done. */
  ghost predicate DeletesSlot(a: Doc, rest: seq<Token>, rfl: bool, prune: bool)
    requires rest != []
  {
    |rest| == 1
    || (prune && match Descend(a, rest[0])
                 case Ok(c) => PopAt(c, rest[1..], rfl, prune).Ok? && PopAt(c, rest[1..], rfl, prune).value.0.IsEmptyContainer()
                 case Err(_) => false)
  }

  /** Deleting one slot keeps every other child, one place lower in a list after a removed element. */
  lemma DeleteKeeps(a: Doc, t: Token, rfl: bool, u: Token, v: Doc)
    requires a.Has(t) && a.HasChild(u, v) && u != t
    ensures var left := DeleteInParent(a, t, rfl).value;
            if rfl && t.Index? && t.index < u.index then left.HasChild(Index(u.index - 1), v)
            else left.HasChild(u, v)
  {
    var left := DeleteInParent(a, t, rfl).value;
    match u
    case Key(k) =>
      assert k in left.fields.Keys;
    case Index(i) =>
      if rfl && t.index < i {
        assert left.items[i - 1] == a.items[i];
      } else if rfl {
        assert left.items[i] == a.items[i];
      }
  }

  /** The pop through `rest[0]` removes that slot from a list, so the later elements move down:
      `u` is one of them. */
  ghost predicate ShiftsDown(a: Doc, rest: seq<Token>, rfl: bool, prune: bool, u: Token)
    requires rest != []
  {
    rfl && rest[0].Index? && u.Index? && rest[0].index < u.index && DeletesSlot(a, rest, rfl, prune)
  }

  /** What a pop leaves of a node keeps every child the pop does not go through, one place lower in
      a list when the slot the pop goes through is removed before it. */
  lemma PopSlotKeeps(a: Doc, rest: seq<Token>, rfl: bool, prune: bool, u: Token, v: Doc)
    requires rest != [] && PopAt(a, rest, rfl, prune).Ok? && a.HasChild(u, v) && u != rest[0]
    ensures var left := PopAt(a, rest, rfl, prune).value.0;
            if ShiftsDown(a, rest, rfl, prune, u) then left.HasChild(Index(u.index - 1), v)
            else left.HasChild(u, v)
  {
    var t := rest[0];
    var left := PopAt(a, rest, rfl, prune).value.0;
    if |rest| == 1 {
      assert DeleteInParent(a, t, rfl) == Ok(left);
      DeleteKeeps(a, t, rfl, u, v);
    } else {
      var c := Descend(a, t).value;
      var below := PopAt(c, rest[1..], rfl, prune).value.0;
      assert left == Reattach(a, t, below, rfl, prune);
      if prune && below.IsEmptyContainer() {
        DeleteKeeps(a, t, rfl, u, v);
      }
    }
  }

  /** Following a path through a node found at `prefix` and its child at `t`. */
  lemma GetThrough(d: Doc, prefix: seq<Token>, node: Doc, t: Token, v: Doc, tail: seq<Token>)
    requires GetAt(d, prefix) == Ok(node) && node.HasChild(t, v)
    ensures GetAt(d, prefix + ([t] + tail)) == GetAt(v, tail)
  {
    GetAtSplit(d, prefix, [t] + tail);
    GetAtCons(node, t, v, tail);
  }

  /** A path cut at `j` around its token there. */
  lemma Splice(prefix: seq<Token>, other: seq<Token>, j: nat, t: Token)
    requires j < |other| && other[..j] == prefix
    ensures other == prefix + ([other[j]] + other[j + 1..])
    ensures other[j := t] == prefix + ([t] + other[j + 1..])
  {
  }

  /** A pop changes nothing at a path that parts ways with the popped path, except that the elements
      after a removed list element move one place down. */
  lemma PopKeepsOtherPaths(d: Doc, tokens: seq<Token>, rfl: bool, prune: bool, other: seq<Token>, j: nat)
    requires tokens != [] && PopAt(d, tokens, rfl, prune).Ok?
    requires PartAt(tokens, other, j) && GetAt(d, other).Ok?
    ensures var a := GetAt(d, tokens[..j]);
            var shifted := a.Ok? && ShiftsDown(a.value, tokens[j..], rfl, prune, other[j]);
            (!shifted ==> GetAt(PopAt(d, tokens, rfl, prune).value.0, other) == GetAt(d, other))
            && (shifted ==> GetAt(PopAt(d, tokens, rfl, prune).value.0, other[j := Index(other[j].index - 1)])
                            == GetAt(d, other))
  {
    var d' := PopAt(d, tokens, rfl, prune).value.0;
    PopLeavesNode(d, tokens, rfl, prune, j);
    var a := GetAt(d, tokens[..j]).value;
    var rest := tokens[j..];
    var u, tail := other[j], other[j + 1..];
    Splice(tokens[..j], other, j, u);
    GetAtSplit(d, tokens[..j], [u] + tail);
    var v := if u.Key? then a.fields[u.key] else a.items[u.index];
    GetThrough(d, tokens[..j], a, u, v, tail);
    PopSlotKeeps(a, rest, rfl, prune, u, v);
    var left := PopAt(a, rest, rfl, prune).value.0;
    var u' := if ShiftsDown(a, rest, rfl, prune, u) then Index(u.index - 1) else u;
    assert left.HasChild(u', v);
    GetThrough(d', tokens[..j], left, u', v, tail);
    Splice(tokens[..j], other, j, u');
  }

  /** Pruning, level by level: once the pop below a node is done, an empty result is deleted from
      the node's parent (by `DeleteInParent`: a key removed, a list element removed with the later
      ones moved down, or set to None), and a non-empty one is written back into it and stays in the
      new document, which ends the pruning. */
  lemma PopPrunesUpward(d: Doc, tokens: seq<Token>, rfl: bool, j: nat)
    requires 0 < j < |tokens| && PopAt(d, tokens, rfl, true).Ok?
    ensures GetAt(d, tokens[..j - 1]).Ok? && GetAt(d, tokens[..j]).Ok?
    ensures GetAt(d, tokens[..j - 1]).value.HasChild(tokens[j - 1], GetAt(d, tokens[..j]).value)
    ensures PopAt(GetAt(d, tokens[..j - 1]).value, tokens[j - 1..], rfl, true).Ok?
            && PopAt(GetAt(d, tokens[..j]).value, tokens[j..], rfl, true).Ok?
    ensures var parent, node := GetAt(d, tokens[..j - 1]).value, GetAt(d, tokens[..j]).value;
            var parentLeft := PopAt(parent, tokens[j - 1..], rfl, true).value.0;
            var nodeLeft := PopAt(node, tokens[j..], rfl, true).value.0;
            (nodeLeft.IsEmptyContainer() ==> DeleteInParent(parent, tokens[j - 1], rfl) == Ok(parentLeft))
            && (!nodeLeft.IsEmptyContainer() ==>
                  parentLeft == Put(parent, tokens[j - 1], nodeLeft)
                  && GetAt(PopAt(d, tokens, rfl, true).value.0, tokens[..j]) == Ok(nodeLeft))
  {
    PopAtBelow(d, tokens, rfl, true, j - 1);
    PopLeavesNode(d, tokens, rfl, true, j);
    var parent := GetAt(d, tokens[..j - 1]).value;
    var t := tokens[j - 1];
    CutBefore(tokens, j);
    PruneStep(parent, tokens[j - 1..], rfl);
    GetAtAppend(d, tokens[..j - 1], t, Descend(parent, t).value);
  }

  /** A path cut just before its `j`-th token. */
  lemma CutBefore(tokens: seq<Token>, j: nat)
    requires 0 < j <= |tokens|
    ensures tokens[..j] == tokens[..j - 1] + [tokens[j - 1]]
    ensures tokens[j - 1..][0] == tokens[j - 1] && tokens[j - 1..][1..] == tokens[j..]
  {
  }

  /** One level of pruning, seen from the parent: the child the pop goes through is deleted from
      the parent when the pop below leaves it empty, and written back otherwise. */
  lemma PruneStep(parent: Doc, rest: seq<Token>, rfl: bool)
    requires |rest| >= 2 && PopAt(parent, rest, rfl, true).Ok?
    ensures Descend(parent, rest[0]).Ok? && PopAt(Descend(parent, rest[0]).value, rest[1..], rfl, true).Ok?
    ensures var nodeLeft := PopAt(Descend(parent, rest[0]).value, rest[1..], rfl, true).value.0;
            var parentLeft := PopAt(parent, rest, rfl, true).value.0;
            (nodeLeft.IsEmptyContainer() ==> DeleteInParent(parent, rest[0], rfl) == Ok(parentLeft))
            && (!nodeLeft.IsEmptyContainer() ==> parentLeft == Put(parent, rest[0], nodeLeft))
  {
    PopAtDown(parent, rest, rfl, true);
  }

  /** The root is never pruned: a pop leaves a dict a dict and a list a list. */
  lemma PopKeepsRoot(d: Doc, tokens: seq<Token>, rfl: bool, prune: bool)
    requires tokens != [] && PopAt(d, tokens, rfl, prune).Ok?
    ensures d.Obj? ==> PopAt(d, tokens, rfl, prune).value.0.Obj?
    ensures d.Arr? ==> PopAt(d, tokens, rfl, prune).value.0.Arr?
  {
  }

  /* ---------------------------------------------------------------- patch */

  /** Records are replayed in list order: replaying two lists one after the other is replaying
      their concatenation. */
  lemma {:induction false} PatchInOrder(base: Doc, first: seq<Delta>, second: seq<Delta>)
    ensures PatchSpec(base, first + second)
            == match PatchSpec(base, first)
               case Ok(middle) => PatchSpec(middle, second)
               case Err(e) => Err(e)
    decreases |first|
  {
    if first == [] {
      assert first + second == second;
    } else {
      assert (first + second)[0] == first[0];
      assert (first + second)[1..] == first[1..] + second;
      if ApplyDelta(base, first[0]).Ok? {
        PatchInOrder(ApplyDelta(base, first[0]).value, first[1..], second);
      }
    }
  }

  /** A deletion record whose path leads nowhere stops the replay with an error. */
  lemma DeletingMissingPathFails(d: Doc, delta: Delta)
    requires delta.op == Deleted
    requires Tokenize(delta.path).Ok? && Tokenize(delta.path).value != [] && Get(d, delta.path).Err?
    ensures ApplyDelta(d, delta).Err?
  {
    PopMissing(d, delta.path, true, true);
  }
}
