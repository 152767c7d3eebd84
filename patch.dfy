/** Reading, writing and removing values by path, and replaying edit records: the second half of
    src/diff/patch.py.

    Each operation has a specification function over values and a method that walks the document
    as the source does: down a stack of (container, token) frames, then back up writing the changed
    child into its parent. A document is a value here, so "mutating in place and returning the
    document" becomes "returning the new document". */
module Patch {
  import opened Types
  import opened Tokenizer

  /* ---------------------------------------------------------------- get */

  /** The value `tokens` lead to from `d`: a key step needs a dict holding the key (KeyError
      otherwise), an index step needs a list (TypeError otherwise) long enough (IndexError). */
  function GetAt(d: Doc, tokens: seq<Token>): (r: Result<Doc>)
    ensures r.Ok? && tokens != [] ==> d.Has(tokens[0]) && r.value < d
    decreases |tokens|
  {
    if tokens == [] then Ok(d)
    else match tokens[0]
      case Key(k) =>
        if !d.Obj? || k !in d.fields then Err(KeyError) else GetAt(d.fields[k], tokens[1..])
      case Index(i) =>
        if !d.Arr? then Err(TypeError)
        else if i >= |d.items| then Err(IndexError)
        else GetAt(d.items[i], tokens[1..])
  }

  /** `get_by_json_path` as a value. */
  function Get(doc: Doc, path: string): Result<Doc> {
    var tokens :- Tokenize(path);
    GetAt(doc, tokens)
  }

  /** `get_by_json_path`. */
  method GetByJsonPath(doc: Doc, path: string) returns (r: Result<Doc>)
    ensures r == Get(doc, path)
  {
    var tokens :- TokenizeJsonPath(path);
    var current := doc;
    for idx := 0 to |tokens|
      invariant GetAt(doc, tokens) == GetAt(current, tokens[idx..])
    {
      assert tokens[idx..][1..] == tokens[idx + 1..];
      match tokens[idx]
      case Key(k) =>
        if !current.Obj? || k !in current.fields {
          return Err(KeyError);
        }
        current := current.fields[k];
      case Index(i) =>
        if !current.Arr? {
          return Err(TypeError);
        }
        if i >= |current.items| {
          return Err(IndexError);
        }
        current := current.items[i];
    }
    return Ok(current);
  }

  /* ---------------------------------------------------------------- frames */

  /** A container passed on the way down and the token taken out of it. */
  datatype Frame = Frame(container: Doc, token: Token)

  /** Every frame's container has a child at the frame's token. */
  predicate ValidFrames(frames: seq<Frame>) {
    forall j :: 0 <= j < |frames| ==> frames[j].container.Has(frames[j].token)
  }

  /** `container` with its child at `token` replaced by `child`. */
  function Put(container: Doc, token: Token, child: Doc): (r: Doc)
    ensures container.Has(token) ==> r.HasChild(token, child) && !r.IsEmptyContainer()
    ensures forall t, v :: t != token && container.HasChild(t, v) ==> r.HasChild(t, v)
  {
    match token
    case Key(k) => if container.Obj? then Obj(container.fields[k := child]) else container
    case Index(i) =>
      if container.Arr? && i < |container.items| then Arr(container.items[i := child]) else container
  }

  /** Writes `child` back up through `frames`, innermost frame last: the document the walk started
      from, with the changed child in place. */
  function Plug(frames: seq<Frame>, child: Doc): Doc
    decreases |frames|
  {
    if frames == [] then child
    else
      var f := frames[|frames| - 1];
      Plug(frames[..|frames| - 1], Put(f.container, f.token, child))
  }

  /** The outcome of finishing a walk below `frames`, written back up through them. */
  function Lift(frames: seq<Frame>, r: Result<Doc>): Result<Doc> {
    match r
    case Ok(child) => Ok(Plug(frames, child))
    case Err(e) => Err(e)
  }

  lemma PlugOne(f: Frame, child: Doc)
    ensures Plug([f], child) == Put(f.container, f.token, child)
  {
    assert [f][..0] == [];
  }

  lemma LiftOneMore(frames: seq<Frame>, f: Frame, r: Result<Doc>)
    ensures Lift(frames + [f], r) == Lift(frames, Lift([f], r))
  {
    if r.Ok? {
      PlugOne(f, r.value);
    }
    assert (frames + [f])[..|frames|] == frames;
    assert (frames + [f])[|frames|] == f;
  }

  /* ---------------------------------------------------------------- set */

  /** `n` copies of None. */
  function Nulls(n: nat): (r: seq<Doc>)
    ensures |r| == n && forall j :: 0 <= j < n ==> r[j] == Null
  {
    if n == 0 then [] else Nulls(n - 1) + [Null]
  }

  /** A list extended with None up to and including position `i`. */
  function Padded(items: seq<Doc>, i: nat): (r: seq<Doc>)
    ensures |r| == if i < |items| then |items| else i + 1
    ensures r[..|items|] == items
    ensures forall j :: |items| <= j < |r| ==> r[j] == Null
  {
    if i < |items| then items else items + Nulls(i - |items| + 1)
  }

  /** The container created for a missing or None step: a list when the next token is an index, a
      dict otherwise. */
  function Placeholder(next: Token): (r: Doc)
    ensures r.IsEmptyContainer() && (r.Arr? <==> next.Index?)
  {
    if next.Index? then Arr([]) else Obj(map[])
  }

  /** `set_by_json_path` below the root. A missing or None step is created when `create` holds and
      is an error otherwise; a short list is padded with None. */
  function SetAt(d: Doc, tokens: seq<Token>, value: Doc, create: bool): (r: Result<Doc>)
    requires tokens != []
    ensures !(if tokens[0].Key? then d.Obj? else d.Arr?) ==> r == Err(TypeError)
    ensures r.Ok? ==> r.value.Has(tokens[0]) && (r.value.Obj? <==> d.Obj?) && (r.value.Arr? <==> d.Arr?)
    decreases |tokens|
  {
    match tokens[0]
    case Key(k) =>
      if !d.Obj? then Err(TypeError)
      else if |tokens| == 1 then Ok(Obj(d.fields[k := value]))
      else
        var missing := k !in d.fields || d.fields[k] == Null;
        if missing && !create then Err(KeyError)
        else
          var child := if missing then Placeholder(tokens[1]) else d.fields[k];
          var child' :- SetAt(child, tokens[1..], value, create);
          Ok(Obj(d.fields[k := child']))
    case Index(i) =>
      if !d.Arr? then Err(TypeError)
      else if i >= |d.items| && !create then Err(IndexError)
      else
        var items := Padded(d.items, i);
        if |tokens| == 1 then Ok(Arr(items[i := value]))
        else if items[i] == Null && !create then Err(KeyError)
        else
          var child := if items[i] == Null then Placeholder(tokens[1]) else items[i];
          var child' :- SetAt(child, tokens[1..], value, create);
          Ok(Arr(items[i := child']))
  }

  /** A key step of `SetAt` seen as a frame: the dict (with the missing step created) and below it
      the rest of the walk. */
  lemma SetAtKeyStep(d: Doc, tokens: seq<Token>, value: Doc, create: bool, container: Doc)
    requires |tokens| >= 2 && tokens[0].Key? && d.Obj?
    requires var k := tokens[0].key;
             if k !in d.fields || d.fields[k] == Null
             then create && container == Obj(d.fields[k := Placeholder(tokens[1])])
             else container == d
    ensures container.Obj? && tokens[0].key in container.fields
    ensures SetAt(d, tokens, value, create)
            == Lift([Frame(container, tokens[0])], SetAt(container.fields[tokens[0].key], tokens[1..], value, create))
  {
    var k := tokens[0].key;
    var r := SetAt(container.fields[k], tokens[1..], value, create);
    if r.Ok? {
      PlugOne(Frame(container, tokens[0]), r.value);
      assert container.fields[k := r.value] == d.fields[k := r.value];
    }
  }

  /** An index step of `SetAt` seen as a frame: the padded list (with the None step created) and
      below it the rest of the walk. */
  lemma SetAtIndexStep(d: Doc, tokens: seq<Token>, value: Doc, create: bool, items: seq<Doc>)
    requires |tokens| >= 2 && tokens[0].Index? && d.Arr?
    requires tokens[0].index >= |d.items| ==> create
    requires var i, padded := tokens[0].index, Padded(d.items, tokens[0].index);
             if padded[i] == Null
             then create && items == padded[i := Placeholder(tokens[1])]
             else items == padded
    ensures tokens[0].index < |items|
    ensures SetAt(d, tokens, value, create)
            == Lift([Frame(Arr(items), tokens[0])], SetAt(items[tokens[0].index], tokens[1..], value, create))
  {
    var i := tokens[0].index;
    var padded := Padded(d.items, i);
    var child := if padded[i] == Null then Placeholder(tokens[1]) else padded[i];
    SetAtIndexUnfold(d, tokens, value, create);
    assert |items| == |padded| && items[i] == child;
    var r := SetAt(child, tokens[1..], value, create);
    if r.Ok? {
      PlugOne(Frame(Arr(items), tokens[0]), r.value);
      assert items[i := r.value] == padded[i := r.value];
    }
  }

  /** One index step of `SetAt` through a list that has or gets the slot. */
  lemma SetAtIndexUnfold(d: Doc, tokens: seq<Token>, value: Doc, create: bool)
    requires |tokens| >= 2 && tokens[0].Index? && d.Arr?
    requires tokens[0].index >= |d.items| ==> create
    requires Padded(d.items, tokens[0].index)[tokens[0].index] == Null ==> create
    ensures var i, padded := tokens[0].index, Padded(d.items, tokens[0].index);
            var child := if padded[i] == Null then Placeholder(tokens[1]) else padded[i];
            var r := SetAt(child, tokens[1..], value, create);
            SetAt(d, tokens, value, create) == if r.Ok? then Ok(Arr(padded[i := r.value])) else Err(r.error)
  {
  }

  /** `set_by_json_path` as a value: a path with no tokens is refused. */
  function Set(doc: Doc, path: string, value: Doc, create: bool): (r: Result<Doc>)
    ensures r.Ok? ==> Tokenize(path).Ok? && Tokenize(path).value != []
  {
    var tokens :- Tokenize(path);
    if tokens == [] then Err(JsonPathError(RootPath)) else SetAt(doc, tokens, value, create)
  }

  /** The walk of `set_by_json_path` over every token but the last: each key or index step checks
      the container's kind, creates a missing or None child (or pads a short list) when
      `createMissing` holds, and pushes the frame it leaves. */
  method WalkForSet(doc: Doc, tokens: seq<Token>, value: Doc, createMissing: bool)
    returns (r: Result<(seq<Frame>, Doc)>)
    requires tokens != []
    ensures r.Err? ==> SetAt(doc, tokens, value, createMissing) == Err(r.error)
    ensures r.Ok? ==> SetAt(doc, tokens, value, createMissing)
                      == Lift(r.value.0, SetAt(r.value.1, [tokens[|tokens| - 1]], value, createMissing))
  {
    var current := doc;
    var parents: seq<Frame> := [];
    var n := |tokens| - 1;
    for idx := 0 to n
      invariant SetAt(doc, tokens, value, createMissing)
                == Lift(parents, SetAt(current, tokens[idx..], value, createMissing))
    {
      var rest := tokens[idx..];
      assert rest[1..] == tokens[idx + 1..];
      var step :- SetStep(current, rest, value, createMissing);
      LiftOneMore(parents, step.0, SetAt(step.1, tokens[idx + 1..], value, createMissing));
      parents := parents + [step.0];
      current := step.1;
    }
    assert tokens[n..] == [tokens[n]];
    return Ok((parents, current));
  }

  /** One pass of the walk's loop body at `rest[0]`, with `rest[1]` still to come: the wrong kind of
      container is a TypeError; a missing or None child is created when `createMissing` holds (a
      short list padded first), and is a KeyError (an IndexError for a short list) otherwise. Gives
      the frame left behind and the child to walk into. */
  method SetStep(current: Doc, rest: seq<Token>, value: Doc, createMissing: bool)
    returns (r: Result<(Frame, Doc)>)
    requires |rest| >= 2
    ensures r.Err? ==> SetAt(current, rest, value, createMissing) == Err(r.error)
    ensures r.Ok? ==> SetAt(current, rest, value, createMissing)
                      == Lift([r.value.0], SetAt(r.value.1, rest[1..], value, createMissing))
  {
    var next := rest[1];
    match rest[0] {
      case Key(k) =>
        if !current.Obj? {
          return Err(TypeError);
        }
        var container := current;
        if k !in current.fields || current.fields[k] == Null {
          if !createMissing {
            return Err(KeyError);
          }
          container := Obj(current.fields[k := Placeholder(next)]);
        }
        SetAtKeyStep(current, rest, value, createMissing, container);
        return Ok((Frame(container, Key(k)), container.fields[k]));
      case Index(i) =>
        if !current.Arr? {
          return Err(TypeError);
        }
        var items := current.items;
        if i >= |items| {
          if !createMissing {
            return Err(IndexError);
          }
          items := Padded(items, i);
        }
        if items[i] == Null {
          if !createMissing {
            return Err(KeyError);
          }
          items := items[i := Placeholder(next)];
        }
        SetAtIndexStep(current, rest, value, createMissing, items);
        return Ok((Frame(Arr(items), Index(i)), items[i]));
    }
  }

  /** The last token of `SetAt`: the value is written into the dict, or into the list padded with
      None up to the index. */
  lemma SetAtLast(d: Doc, token: Token, value: Doc, create: bool)
    ensures SetAt(d, [token], value, create)
            == match token
               case Key(k) => if d.Obj? then Ok(Obj(d.fields[k := value])) else Err(TypeError)
               case Index(i) =>
                 if !d.Arr? then Err(TypeError)
                 else if i >= |d.items| && !create then Err(IndexError)
                 else Ok(Arr(Padded(d.items, i)[i := value]))
  {
  }

  /** The last step of `set_by_json_path`: the value goes into the dict under the key, or into the
      list at the index, padding a short list with None when `createMissing` holds. */
  method SetLeaf(current: Doc, token: Token, value: Doc, createMissing: bool) returns (r: Result<Doc>)
    ensures r == SetAt(current, [token], value, createMissing)
  {
    SetAtLast(current, token, value, createMissing);
    match token
    case Key(k) =>
      if !current.Obj? {
        return Err(TypeError);
      }
      return Ok(Obj(current.fields[k := value]));
    case Index(i) =>
      if !current.Arr? {
        return Err(TypeError);
      }
      var items := current.items;
      if i >= |items| {
        if !createMissing {
          return Err(IndexError);
        }
        items := Padded(items, i);
      }
      return Ok(Arr(items[i := value]));
  }

  /** `set_by_json_path`. The source handles the last token inside its loop; here the walk covers
      the tokens before it and the last one is handled after the walk. */
  method SetByJsonPath(doc: Doc, path: string, value: Doc, createMissing: bool) returns (r: Result<Doc>)
    ensures r == Set(doc, path, value, createMissing)
  {
    var tokens :- TokenizeJsonPath(path);
    if tokens == [] {
      return Err(JsonPathError(RootPath));
    }
    var walked :- WalkForSet(doc, tokens, value, createMissing);
    var leaf :- SetLeaf(walked.1, tokens[|tokens| - 1], value, createMissing);
    return Ok(Plug(walked.0, leaf));
  }

  /* ---------------------------------------------------------------- pop */

  /** `_delete_in_parent`: a dict loses the key if it has it, a list loses the element (or has it
      replaced by None) if the index is in range; the wrong kind of parent is a TypeError. */
  function DeleteInParent(parent: Doc, token: Token, removeFromList: bool): (r: Result<Doc>)
    ensures parent.Has(token) ==> r.Ok?
    ensures r.Ok? <==> (if token.Key? then parent.Obj? else parent.Arr?)
    ensures r.Err? ==> r.error == TypeError
    ensures r.Ok? && !parent.Has(token) ==> r.value == parent
    ensures r.Ok? && parent.Has(token) && token.Key? ==>
              r.value.Obj? && r.value.fields.Keys == parent.fields.Keys - {token.key}
              && forall k :: k in r.value.fields ==> r.value.fields[k] == parent.fields[k]
    ensures r.Ok? && parent.Has(token) && token.Index? && removeFromList ==>
              r.value.Arr? && |r.value.items| == |parent.items| - 1
              && (forall j :: 0 <= j < token.index ==> r.value.items[j] == parent.items[j])
              && (forall j :: token.index <= j < |r.value.items| ==> r.value.items[j] == parent.items[j + 1])
    ensures r.Ok? && parent.Has(token) && token.Index? && !removeFromList ==>
              r.value.Arr? && |r.value.items| == |parent.items| && r.value.items[token.index] == Null
              && forall j :: 0 <= j < |parent.items| && j != token.index ==> r.value.items[j] == parent.items[j]
  {
    match token
    case Key(k) =>
      if !parent.Obj? then Err(TypeError)
      else if k in parent.fields then Ok(Obj(parent.fields - {k}))
      else Ok(parent)
    case Index(i) =>
      if !parent.Arr? then Err(TypeError)
      else if i < |parent.items| then
        if removeFromList then Ok(Arr(parent.items[..i] + parent.items[i + 1..]))
        else Ok(Arr(parent.items[i := Null]))
      else Ok(parent)
  }

  /** One step of the walk to the parent of the popped value: a missing or None child, or the wrong
      kind of container, stops it (KeyError, or IndexError for a list step out of range). */
  function Descend(d: Doc, token: Token): (r: Result<Doc>)
    ensures r.Ok? ==> d.HasChild(token, r.value) && r.value != Null
  {
    match token
    case Key(k) =>
      if !d.Obj? || k !in d.fields || d.fields[k] == Null then Err(KeyError) else Ok(d.fields[k])
    case Index(i) =>
      if !d.Arr? || i >= |d.items| then Err(IndexError)
      else if d.items[i] == Null then Err(KeyError)
      else Ok(d.items[i])
  }

  /** Removal at the last token: the changed parent and the removed value. */
  function RemoveLeaf(d: Doc, token: Token, removeFromList: bool): (r: Result<(Doc, Doc)>)
    ensures r.Ok? <==> d.Has(token)
    ensures r.Err? ==> r.error == if !(if token.Key? then d.Obj? else d.Arr?) then TypeError
                                 else if token.Key? then KeyError else IndexError
    ensures r.Ok? ==> d.HasChild(token, r.value.1) && DeleteInParent(d, token, removeFromList) == Ok(r.value.0)
  {
    match token
    case Key(k) =>
      if !d.Obj? then Err(TypeError)
      else if k !in d.fields then Err(KeyError)
      else Ok((Obj(d.fields - {k}), d.fields[k]))
    case Index(i) =>
      if !d.Arr? then Err(TypeError)
      else if i >= |d.items| then Err(IndexError)
      else if removeFromList then Ok((Arr(d.items[..i] + d.items[i + 1..]), d.items[i]))
      else Ok((Arr(d.items[i := Null]), d.items[i]))
  }

  /** Writing a changed child back into its parent: with pruning, an empty child is deleted from
      the parent instead. */
  function Reattach(parent: Doc, token: Token, child: Doc, removeFromList: bool, prune: bool): (r: Doc)
    requires parent.Has(token)
    ensures (r.Obj? <==> parent.Obj?) && (r.Arr? <==> parent.Arr?)
    ensures !(prune && child.IsEmptyContainer()) ==>
              r.HasChild(token, child) && forall t, v :: t != token && parent.HasChild(t, v) ==> r.HasChild(t, v)
    ensures prune && child.IsEmptyContainer() && token.Key? ==> !r.Has(token) && |r.fields| == |parent.fields| - 1
    ensures prune && child.IsEmptyContainer() && token.Index? ==>
              |r.items| == if removeFromList then |parent.items| - 1 else |parent.items|
    ensures prune && child.IsEmptyContainer() && token.Index? && !removeFromList ==> r.items[token.index] == Null
  {
    if prune && child.IsEmptyContainer() then DeleteInParent(parent, token, removeFromList).value
    else Put(parent, token, child)
  }

  /** `pop_by_json_path` below the root, without `missing_ok`: the new document and the removed
      value. */
  function PopAt(d: Doc, tokens: seq<Token>, removeFromList: bool, prune: bool): (r: Result<(Doc, Doc)>)
    requires tokens != []
    ensures r.Ok? ==> d.Has(tokens[0]) && r.value.1 < d
    ensures r.Err? ==> r.error == TypeError || r.error == KeyError || r.error == IndexError
    decreases |tokens|
  {
    if |tokens| == 1 then RemoveLeaf(d, tokens[0], removeFromList)
    else
      var child :- Descend(d, tokens[0]);
      var popped :- PopAt(child, tokens[1..], removeFromList, prune);
      Ok((Reattach(d, tokens[0], popped.0, removeFromList, prune), popped.1))
  }

  /** The popped value is the value the path led to. */
  lemma {:induction false} PopReturnsValueAt(d: Doc, tokens: seq<Token>, rfl: bool, prune: bool)
    requires tokens != [] && PopAt(d, tokens, rfl, prune).Ok?
    ensures GetAt(d, tokens) == Ok(PopAt(d, tokens, rfl, prune).value.1)
    decreases |tokens|
  {
    if |tokens| == 1 {
      assert tokens[1..] == [];
    } else {
      PopReturnsValueAt(Descend(d, tokens[0]).value, tokens[1..], rfl, prune);
    }
  }

  /** Where the path leads to a value, the pop succeeds: each step before the last goes through a
      child that has the next token, so that child is a container and not None. */
  lemma {:induction false} PopPresentSucceeds(d: Doc, tokens: seq<Token>, rfl: bool, prune: bool)
    requires tokens != [] && GetAt(d, tokens).Ok?
    ensures PopAt(d, tokens, rfl, prune).Ok?
    decreases |tokens|
  {
    if |tokens| > 1 {
      var child := match tokens[0] case Key(k) => d.fields[k] case Index(i) => d.items[i];
      assert GetAt(child, tokens[1..]).Ok?;
      assert child.Has(tokens[1]);
      PopPresentSucceeds(child, tokens[1..], rfl, prune);
    }
  }

  /** `pop_by_json_path` as a value. A path with no tokens is refused; with `missingOk` every other
      failure gives back the document unchanged and None. */
  function Pop(doc: Doc, path: string, missingOk: bool, removeFromList: bool, prune: bool)
    : (r: Result<(Doc, Doc)>)
    ensures r.Ok? ==> Tokenize(path).Ok? && Tokenize(path).value != []
    ensures r.Err? && missingOk ==> Tokenize(path).Err? || Tokenize(path) == Ok([])
  {
    var tokens :- Tokenize(path);
    if tokens == [] then Err(JsonPathError(RootPath))
    else
      match PopAt(doc, tokens, removeFromList, prune)
      case Err(e) => if missingOk then Ok((doc, Null)) else Err(e)
      case Ok(popped) => Ok(popped)
  }

  /** Without `missingOk`, a pop succeeds exactly on a path that tokenizes to at least one token and
      that `get` can follow. */
  lemma PopSucceedsExactly(doc: Doc, path: string, rfl: bool, prune: bool)
    ensures Pop(doc, path, false, rfl, prune).Ok?
            <==> Tokenize(path).Ok? && Tokenize(path).value != [] && Get(doc, path).Ok?
  {
    if Tokenize(path).Ok? && Tokenize(path).value != [] {
      var tokens := Tokenize(path).value;
      if GetAt(doc, tokens).Ok? {
        PopPresentSucceeds(doc, tokens, rfl, prune);
      } else if PopAt(doc, tokens, rfl, prune).Ok? {
        PopReturnsValueAt(doc, tokens, rfl, prune);
      }
    }
  }

  /** Writes a changed child back up through `frames`, pruning as `Reattach` does. */
  function Up(frames: seq<Frame>, child: Doc, removeFromList: bool, prune: bool): Doc
    requires ValidFrames(frames)
    decreases |frames|
  {
    if frames == [] then child
    else
      var f := frames[|frames| - 1];
      Up(frames[..|frames| - 1], Reattach(f.container, f.token, child, removeFromList, prune),
         removeFromList, prune)
  }

  function UpPop(frames: seq<Frame>, r: Result<(Doc, Doc)>, removeFromList: bool, prune: bool)
    : Result<(Doc, Doc)>
    requires ValidFrames(frames)
  {
    match r
    case Ok(popped) => Ok((Up(frames, popped.0, removeFromList, prune), popped.1))
    case Err(e) => Err(e)
  }

  lemma UpPopOneMore(frames: seq<Frame>, f: Frame, r: Result<(Doc, Doc)>, rfl: bool, prune: bool)
    requires ValidFrames(frames + [f])
    ensures ValidFrames(frames) && ValidFrames([f])
    ensures UpPop(frames + [f], r, rfl, prune) == UpPop(frames, UpPop([f], r, rfl, prune), rfl, prune)
  {
    assert forall j :: 0 <= j < |frames| ==> (frames + [f])[j] == frames[j];
    assert (frames + [f])[|frames|] == f;
    assert (frames + [f])[..|frames|] == frames;
    assert [f][..0] == [];
    if r.Ok? {
      var c := r.value.0;
      assert Up([f], c, rfl, prune) == Reattach(f.container, f.token, c, rfl, prune);
      assert Up(frames + [f], c, rfl, prune)
             == Up(frames, Reattach(f.container, f.token, c, rfl, prune), rfl, prune);
    }
  }

  /** Without pruning, writing back is plain replacement. */
  lemma {:induction false} UpWithoutPrune(frames: seq<Frame>, child: Doc, rfl: bool)
    requires ValidFrames(frames)
    ensures Up(frames, child, rfl, false) == Plug(frames, child)
    decreases |frames|
  {
    if frames != [] {
      var f := frames[|frames| - 1];
      UpWithoutPrune(frames[..|frames| - 1], Put(f.container, f.token, child), rfl);
    }
  }

  /** Pruning stops at the first child that is not empty: above it, writing back is plain
      replacement, since a parent that received a child is not empty either. */
  lemma {:induction false} UpFromNonEmpty(frames: seq<Frame>, child: Doc, rfl: bool, prune: bool)
    requires ValidFrames(frames) && !child.IsEmptyContainer()
    ensures Up(frames, child, rfl, prune) == Plug(frames, child)
    decreases |frames|
  {
    if frames != [] {
      var f := frames[|frames| - 1];
      UpFromNonEmpty(frames[..|frames| - 1], Put(f.container, f.token, child), rfl, prune);
    }
  }

  /** One step of `PopAt` above the last token, seen as a frame. */
  lemma PopAtStep(d: Doc, tokens: seq<Token>, rfl: bool, prune: bool)
    requires |tokens| >= 2
    ensures Descend(d, tokens[0]).Err? ==> PopAt(d, tokens, rfl, prune) == Err(Descend(d, tokens[0]).error)
    ensures Descend(d, tokens[0]).Ok? ==>
              ValidFrames([Frame(d, tokens[0])])
              && PopAt(d, tokens, rfl, prune)
                 == UpPop([Frame(d, tokens[0])], PopAt(Descend(d, tokens[0]).value, tokens[1..], rfl, prune), rfl, prune)
  {
    if Descend(d, tokens[0]).Ok? {
      var f := Frame(d, tokens[0]);
      var r := PopAt(Descend(d, tokens[0]).value, tokens[1..], rfl, prune);
      assert [f][..0] == [];
      if r.Ok? {
        assert Up([f], r.value.0, rfl, prune) == Reattach(d, tokens[0], r.value.0, rfl, prune);
      }
    }
  }

  /** The walk of `pop_by_json_path` to the parent of the last token, keeping the `parents` stack:
      a missing or None child, or the wrong kind of container, stops it. */
  method WalkToParent(doc: Doc, tokens: seq<Token>, removeFromList: bool, prune: bool)
    returns (r: Result<(seq<Frame>, Doc)>)
    requires tokens != []
    ensures r.Err? ==> PopAt(doc, tokens, removeFromList, prune) == Err(r.error)
    ensures r.Ok? ==> ValidFrames(r.value.0)
    ensures r.Ok? ==> PopAt(doc, tokens, removeFromList, prune)
                      == UpPop(r.value.0, RemoveLeaf(r.value.1, tokens[|tokens| - 1], removeFromList),
                               removeFromList, prune)
  {
    var current := doc;
    var parents: seq<Frame> := [];
    var n := |tokens| - 1;
    for idx := 0 to n
      invariant ValidFrames(parents)
      invariant PopAt(doc, tokens, removeFromList, prune)
                == UpPop(parents, PopAt(current, tokens[idx..], removeFromList, prune), removeFromList, prune)
    {
      var rest := tokens[idx..];
      assert rest[0] == tokens[idx] && rest[1..] == tokens[idx + 1..];
      var frame := Frame(current, tokens[idx]);
      PopAtStep(current, rest, removeFromList, prune);
      match tokens[idx] {
        case Key(k) =>
          if !current.Obj? || k !in current.fields || current.fields[k] == Null {
            return Err(KeyError);
          }
          current := current.fields[k];
        case Index(i) =>
          if !current.Arr? || i >= |current.items| {
            return Err(IndexError);
          }
          if current.items[i] == Null {
            return Err(KeyError);
          }
          current := current.items[i];
      }
      UpPopOneMore(parents, frame, PopAt(current, tokens[idx + 1..], removeFromList, prune), removeFromList, prune);
      parents := parents + [frame];
    }
    assert tokens[n..] == [tokens[n]];
    return Ok((parents, current));
  }

  /** `pop_by_json_path`: walks to the parent of the last token, removes the leaf, then with `prune`
      deletes empty containers bottom-up until the first that is not empty. With `missingOk`, a
      failed walk or removal gives back the document unchanged and None. */
  method PopByJsonPath(doc: Doc, path: string, missingOk: bool, removeFromList: bool, prune: bool)
    returns (r: Result<(Doc, Doc)>)
    ensures r == Pop(doc, path, missingOk, removeFromList, prune)
  {
    var tokens :- TokenizeJsonPath(path);
    if tokens == [] {
      return Err(JsonPathError(RootPath));
    }
    var walked := WalkToParent(doc, tokens, removeFromList, prune);
    if walked.Err? {
      return if missingOk then Ok((doc, Null)) else Err(walked.error);
    }
    var parents, current := walked.value.0, walked.value.1;
    var n := |tokens| - 1;
    var removed: Doc;
    match tokens[n] {
      case Key(k) =>
        if !current.Obj? {
          return if missingOk then Ok((doc, Null)) else Err(TypeError);
        }
        if k !in current.fields {
          return if missingOk then Ok((doc, Null)) else Err(KeyError);
        }
        removed := current.fields[k];
        current := Obj(current.fields - {k});
      case Index(i) =>
        if !current.Arr? {
          return if missingOk then Ok((doc, Null)) else Err(TypeError);
        }
        if i >= |current.items| {
          return if missingOk then Ok((doc, Null)) else Err(IndexError);
        }
        removed := current.items[i];
        if removeFromList {
          current := Arr(current.items[..i] + current.items[i + 1..]);
        } else {
          current := Arr(current.items[i := Null]);
        }
    }
    var root: Doc;
    if prune {
      root := PruneEmpty(parents, current, removeFromList);
    } else {
      UpWithoutPrune(parents, current, removeFromList);
      root := Plug(parents, current);
    }
    return Ok((root, removed));
  }

  /** Going up from an empty child deletes it from the innermost frame's container. */
  lemma UpDeletesEmpty(frames: seq<Frame>, child: Doc, removeFromList: bool)
    requires ValidFrames(frames) && frames != [] && child.IsEmptyContainer()
    ensures ValidFrames(frames[..|frames| - 1])
    ensures var f := frames[|frames| - 1];
            Up(frames, child, removeFromList, true)
            == Up(frames[..|frames| - 1], DeleteInParent(f.container, f.token, removeFromList).value, removeFromList, true)
  {
  }

  /** The pruning loop of `pop_by_json_path`: going up the `parents` stack, an empty child is
      deleted from its parent, which becomes the child to look at; the first child that is not
      empty stops the loop. Gives the document with the remaining frames written back. */
  method PruneEmpty(parents: seq<Frame>, child: Doc, removeFromList: bool) returns (root: Doc)
    requires ValidFrames(parents)
    ensures root == Up(parents, child, removeFromList, true)
  {
    var current := child;
    var k := |parents|;
    assert parents[..k] == parents;
    while k > 0 && current.IsEmptyContainer()
      invariant 0 <= k <= |parents|
      invariant ValidFrames(parents[..k])
      invariant Up(parents, child, removeFromList, true) == Up(parents[..k], current, removeFromList, true)
    {
      var f := parents[k - 1];
      assert parents[..k][..k - 1] == parents[..k - 1];
      UpDeletesEmpty(parents[..k], current, removeFromList);
      current := DeleteInParent(f.container, f.token, removeFromList).value;
      k := k - 1;
    }
    if k > 0 {
      UpFromNonEmpty(parents[..k], current, removeFromList, true);
    }
    root := Plug(parents[..k], current);
  }

  /* ---------------------------------------------------------------- patch */

  /** One edit record replayed: a deletion pops with pruning and list removal and no tolerance for
      a missing path; any other kind sets the new value, creating what is missing. */
  function ApplyDelta(d: Doc, delta: Delta): (r: Result<Doc>)
    ensures r.Ok? ==> Tokenize(delta.path).Ok? && Tokenize(delta.path).value != []
    ensures r.Ok? && delta.op == Deleted ==> GetAt(d, Tokenize(delta.path).value).Ok?
    ensures delta.op == Deleted ==>
              (r.Ok? <==> Tokenize(delta.path).Ok? && Tokenize(delta.path).value != [] && Get(d, delta.path).Ok?)
  {
    if delta.op == Deleted then
      PopSucceedsExactly(d, delta.path, true, true);
      var popped :- Pop(d, delta.path, false, true, true);
      PopReturnsValueAt(d, Tokenize(delta.path).value, true, true);
      Ok(popped.0)
    else Set(d, delta.path, delta.newValue, true)
  }

  /** The records replayed in list order; the first failure stops the replay. */
  function PatchSpec(base: Doc, ops: seq<Delta>): (r: Result<Doc>)
    ensures r.Ok? ==> forall i :: 0 <= i < |ops| ==> Tokenize(ops[i].path).Ok? && Tokenize(ops[i].path).value != []
    decreases |ops|
  {
    if ops == [] then Ok(base)
    else
      var next :- ApplyDelta(base, ops[0]);
      PatchSpec(next, ops[1..])
  }

  /** `patch`: `output` starts as the base (the deep copy is implicit for values) and each record is
      applied to it in turn. */
  method Patch(base: Doc, operations: seq<Delta>) returns (r: Result<Doc>)
    ensures r == PatchSpec(base, operations)
  {
    var output := base;
    for i := 0 to |operations|
      invariant PatchSpec(base, operations) == PatchSpec(output, operations[i..])
    {
      assert operations[i..][1..] == operations[i + 1..];
      var op := operations[i];
      if op.op == Deleted {
        var popped :- PopByJsonPath(output, op.path, false, true, true);
        output := popped.0;
      } else {
        output :- SetByJsonPath(output, op.path, op.newValue, true);
      }
    }
    return Ok(output);
  }
}
