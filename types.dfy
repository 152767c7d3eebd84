/** The values the diff/patch core works on: documents, path tokens, errors and edit records. */
module Types {

  /** A JSON-like document. `Obj` is a Python dict with string keys (its insertion order does not
      take part in equality, so a map is used), `Arr` a Python list, and `Tuple` stands for every
      other composite value (a tuple, say), which the core only ever treats as an opaque leaf. */
  datatype Doc =
    | Null
    | Bool(b: bool)
    | Int(i: int)
    | Str(s: string)
    | Obj(fields: map<string, Doc>)
    | Arr(items: seq<Doc>)
    | Tuple(elems: seq<Doc>)
  {
    /** A dict or a list: the only values a path can step into. */
    predicate IsContainer() {
      Obj? || Arr?
    }

    /** `_is_empty_container`: an empty dict or an empty list. */
    predicate IsEmptyContainer() {
      (Obj? && |fields| == 0) || (Arr? && |items| == 0)
    }

    /** This value has a child at `token`. */
    predicate Has(token: Token) {
      match token
      case Key(k) => Obj? && k in fields
      case Index(i) => Arr? && i < |items|
    }

    /** Stepping from this value by `token` reaches `child`. */
    predicate HasChild(token: Token, child: Doc) {
      match token
      case Key(k) => Obj? && k in fields && fields[k] == child
      case Index(i) => Arr? && i < |items| && items[i] == child
    }
  }

  /** One parsed path segment: a dict key or a list index. */
  datatype Token = Key(key: string) | Index(index: nat)

  /** The reasons for which a path string is rejected (each raises JsonPathError). */
  datatype PathError =
    | EmptyPath
    | ExpectedKey
    | UnclosedBracket
    | UnclosedQuotedKey
    | TrailingBackslash
    | MissingBracketAfterKey
    | ExpectedIndex
    | MissingBracketAfterIndex
    | RootPath

  /** The exceptions the core raises, by class. */
  datatype Error =
    | JsonPathError(reason: PathError)
    | KeyError
    | TypeError
    | IndexError

  datatype Option<+T> = None | Some(value: T)

  /** A value or the exception that replaced it; usable with `:-`. */
  datatype Result<+T> = Ok(value: T) | Err(error: Error) {
    predicate IsFailure() {
      Err?
    }

    function PropagateFailure<U>(): Result<U>
      requires Err?
    {
      Err(error)
    }

    function Extract(): T
      requires Ok?
    {
      value
    }
  }

  /** The kind of an edit record. */
  datatype Op = Added | Deleted | Modified

  /** One edit record. A field the kind does not use holds `Null`, as the Python record holds None. */
  datatype Delta = Delta(op: Op, path: string, newValue: Doc, oldValue: Doc)
}
