/** The path tokenizer of src/diff/patch.py: turns a path string such as `$.a.b[2]["key.with.dots"]`
    into dict keys and list indices.

    The specification functions read the unread rest of the path (a suffix string); the methods walk an
    index `i` over the whole path exactly as the source does, and each is tied to its function by
    `path[i..]`. */
module Tokenizer {
  import opened Types
  import opened Digits

  predicate IsSeparator(c: char) {
    c == '.' || c == '['
  }

  predicate IsQuote(c: char) {
    c == '\'' || c == '"'
  }

  /** `rest` is what is left of `s` after at least one character was consumed. */
  predicate IsTailOf(rest: string, s: string) {
    |rest| < |s| && rest == s[|s| - |rest|..]
  }

  /** Length of the bare key at the head of `s`: everything up to the next `.` or `[`. */
  function SimpleKeyLen(s: string): (n: nat)
    ensures n <= |s|
    ensures forall i :: 0 <= i < n ==> !IsSeparator(s[i])
    ensures n == |s| || IsSeparator(s[n])
  {
    if s == [] || IsSeparator(s[0]) then 0 else 1 + SimpleKeyLen(s[1..])
  }

  /** Length of the run of digits at the head of `s`. */
  function DigitRunLen(s: string): (n: nat)
    ensures n <= |s|
    ensures AllDigits(s[..n])
    ensures n == |s| || !IsDigit(s[n])
  {
    if s == [] || !IsDigit(s[0]) then 0 else 1 + DigitRunLen(s[1..])
  }

  /** Decodes a quoted key whose opening quote has been read: a backslash and the character after it
      stand for that character, whatever it is; the key ends at the first unescaped `quote`.
      Gives the key and the input after the closing quote. */
  function QuotedKey(s: string, quote: char): (r: Result<(string, string)>)
    ensures r.Ok? ==> IsTailOf(r.value.1, s)
  {
    if s == [] then Err(JsonPathError(UnclosedQuotedKey))
    else if s[0] == '\\' then
      if |s| == 1 then Err(JsonPathError(TrailingBackslash))
      else WithKeyPrefix([s[1]], QuotedKey(s[2..], quote))
    else if s[0] == quote then Ok(([], s[1..]))
    else WithKeyPrefix([s[0]], QuotedKey(s[1..], quote))
  }

  function WithKeyPrefix(prefix: string, r: Result<(string, string)>): (r': Result<(string, string)>)
    ensures prefix == [] ==> r' == r
  {
    match r
    case Ok((key, rest)) => assert prefix == [] ==> prefix + key == key; Ok((prefix + key, rest))
    case Err(e) => Err(e)
  }

  lemma WithKeyPrefixTwice(p: string, q: string, r: Result<(string, string)>)
    ensures WithKeyPrefix(p, WithKeyPrefix(q, r)) == WithKeyPrefix(p + q, r)
  {
    if r.Ok? {
      assert p + (q + r.value.0) == (p + q) + r.value.0;
    }
  }

  /** Reads one bracket segment (`s` starts at its `[`): a quoted key or a run of digits, each closed by
      `]`. Gives the token and the input after the `]`. */
  function Bracket(s: string): (r: Result<(Token, string)>)
    requires s != [] && s[0] == '['
    ensures r.Ok? ==> IsTailOf(r.value.1, s)
  {
    if |s| == 1 then Err(JsonPathError(UnclosedBracket))
    else if IsQuote(s[1]) then QuotedBracket(s[2..], s[1])
    else IndexBracket(s[1..])
  }

  /** The rest of a bracket segment after its opening quote: the key, then `]`. */
  function QuotedBracket(s: string, quote: char): (r: Result<(Token, string)>)
    ensures r.Ok? ==> IsTailOf(r.value.1, s)
  {
    match QuotedKey(s, quote)
    case Err(e) => Err(e)
    case Ok((key, rest)) =>
      if rest == [] || rest[0] != ']' then Err(JsonPathError(MissingBracketAfterKey))
      else Ok((Key(key), rest[1..]))
  }

  /** The rest of a bracket segment after its `[` when no quote follows: digits, then `]`. */
  function IndexBracket(s: string): (r: Result<(Token, string)>)
    ensures r.Ok? ==> IsTailOf(r.value.1, s)
  {
    var n := DigitRunLen(s);
    if n == 0 then Err(JsonPathError(ExpectedIndex))
    else if n == |s| || s[n] != ']' then Err(JsonPathError(MissingBracketAfterIndex))
    else Ok((Index(DecimalValue(s[..n])), s[n + 1..]))
  }

  function PrependAll(tokens: seq<Token>, r: Result<seq<Token>>): (r': Result<seq<Token>>)
    ensures tokens == [] ==> r' == r
  {
    match r
    case Ok(more) => assert tokens == [] ==> tokens + more == more; Ok(tokens + more)
    case Err(e) => Err(e)
  }

  lemma PrependAllTwice(ts: seq<Token>, us: seq<Token>, r: Result<seq<Token>>)
    ensures PrependAll(ts, PrependAll(us, r)) == PrependAll(ts + us, r)
  {
    if r.Ok? {
      assert ts + (us + r.value) == (ts + us) + r.value;
    }
  }

  /** The tokens of the rest of a path once the root marker is gone: `.` separators are skipped, a `[`
      opens a bracket segment, anything else starts a bare key. */
  function Segments(s: string): (r: Result<seq<Token>>)
    decreases |s|
  {
    if s == [] then Ok([])
    else if s[0] == '.' then Segments(s[1..])
    else if s[0] == '[' then
      match Bracket(s)
      case Err(e) => Err(e)
      case Ok((token, rest)) => PrependAll([token], Segments(rest))
    else
      var n := SimpleKeyLen(s);
      if n == 0 then Err(JsonPathError(ExpectedKey))
      else PrependAll([Key(s[..n])], Segments(s[n..]))
  }

  lemma SegmentsAtBracket(s: string)
    requires s != [] && s[0] == '['
    ensures Bracket(s).Err? ==> Segments(s) == Err(Bracket(s).error)
    ensures Bracket(s).Ok? ==> Segments(s) == PrependAll([Bracket(s).value.0], Segments(Bracket(s).value.1))
  {
  }

  lemma SegmentsAtDot(path: string, i: nat)
    requires i < |path| && path[i] == '.'
    ensures Segments(path[i..]) == Segments(path[i + 1..])
  {
    assert path[i..][1..] == path[i + 1..];
  }

  lemma SegmentsAtKeyIn(path: string, i: nat)
    requires i < |path| && !IsSeparator(path[i])
    ensures var len := SimpleKeyLen(path[i..]);
            len > 0 && Segments(path[i..]) == PrependAll([Key(path[i..i + len])], Segments(path[i + len..]))
  {
    var s, len := path[i..], SimpleKeyLen(path[i..]);
    assert s[..len] == path[i..i + len] && s[len..] == path[i + len..];
  }

  /** How much of a path the root marker takes: a `$` at position 0 and one `.` right after it. */
  function RootPrefixLen(path: string): (n: nat)
    ensures n <= |path|
  {
    if path == [] || path[0] != '$' then 0
    else if |path| > 1 && path[1] == '.' then 2
    else 1
  }

  /** `_tokenize_json_path`: the empty string is rejected, the root marker is dropped, the rest is
      read segment by segment. */
  function Tokenize(path: string): (r: Result<seq<Token>>)
    ensures path == "" ==> r == Err(JsonPathError(EmptyPath))
    ensures path == "$" || path == "$." ==> r == Ok([])
  {
    if path == [] then Err(JsonPathError(EmptyPath))
    else Segments(path[RootPrefixLen(path)..])
  }

  /** `read_simple_key`: scans to the next separator; an empty key is an error. */
  method ReadSimpleKey(path: string, start: nat) returns (r: Result<(string, nat)>)
    requires start <= |path|
    ensures var n := SimpleKeyLen(path[start..]);
            r == if n == 0 then Err(JsonPathError(ExpectedKey)) else Ok((path[start..start + n], start + n))
  {
    var j := start;
    while j < |path| && !IsSeparator(path[j])
      invariant start <= j <= |path|
      invariant SimpleKeyLen(path[start..]) == (j - start) + SimpleKeyLen(path[j..])
    {
      assert path[j..][1..] == path[j + 1..];
      j := j + 1;
    }
    if j == start {
      return Err(JsonPathError(ExpectedKey));
    }
    return Ok((path[start..j], j));
  }

  /** The result of a quoted-key read, with the input after it given as a position in `path`. */
  predicate KeyAtPosition(r: Result<(string, nat)>, spec: Result<(string, string)>, path: string) {
    match spec
    case Err(e) => r == Err(e)
    case Ok((key, rest)) => r.Ok? && r.value.0 == key && r.value.1 <= |path| && path[r.value.1..] == rest
  }

  /** `QuotedKey` at position `j` of `path`, one character at a time. */
  lemma QuotedKeyAt(path: string, j: nat, quote: char)
    requires j < |path|
    ensures path[j] == '\\' && j + 1 == |path| ==>
              QuotedKey(path[j..], quote) == Err(JsonPathError(TrailingBackslash))
    ensures path[j] == '\\' && j + 1 < |path| ==>
              QuotedKey(path[j..], quote) == WithKeyPrefix([path[j + 1]], QuotedKey(path[j + 2..], quote))
    ensures path[j] != '\\' && path[j] == quote ==> QuotedKey(path[j..], quote) == Ok(([], path[j + 1..]))
    ensures path[j] != '\\' && path[j] != quote ==>
              QuotedKey(path[j..], quote) == WithKeyPrefix([path[j]], QuotedKey(path[j + 1..], quote))
  {
    assert path[j..][1..] == path[j + 1..];
    if j + 1 < |path| {
      assert path[j..][2..] == path[j + 2..];
    }
  }

  /** The quoted-key loop of `read_bracket_key_or_index`: `start` is just after the opening quote. */
  method ReadQuotedKey(path: string, start: nat, quote: char) returns (r: Result<(string, nat)>)
    requires start <= |path|
    ensures KeyAtPosition(r, QuotedKey(path[start..], quote), path)
  {
    var n := |path|;
    var j := start;
    var key: string := [];
    while j < n
      invariant start <= j <= n
      invariant QuotedKey(path[start..], quote) == WithKeyPrefix(key, QuotedKey(path[j..], quote))
    {
      var ch := path[j];
      QuotedKeyAt(path, j, quote);
      if ch == '\\' {
        j := j + 1;
        if j >= n {
          return Err(JsonPathError(TrailingBackslash));
        }
        // Whether or not it is the quote or a backslash, the escaped character is kept alone.
        WithKeyPrefixTwice(key, [path[j]], QuotedKey(path[j + 1..], quote));
        key := key + [path[j]];
        j := j + 1;
        continue;
      }
      if ch == quote {
        assert key + [] == key;
        return Ok((key, j + 1));
      }
      WithKeyPrefixTwice(key, [ch], QuotedKey(path[j + 1..], quote));
      key := key + [ch];
      j := j + 1;
    }
    return Err(JsonPathError(UnclosedQuotedKey));
  }

  /** The result of a bracket read, with the input after it given as a position in `path`. */
  predicate AtPosition(r: Result<(Token, nat)>, spec: Result<(Token, string)>, path: string) {
    match spec
    case Err(e) => r == Err(e)
    case Ok((token, rest)) => r.Ok? && r.value.0 == token && r.value.1 <= |path| && path[r.value.1..] == rest
  }

  /** `read_bracket_key_or_index`: `start` is at a `[`. */
  method ReadBracketKeyOrIndex(path: string, start: nat) returns (r: Result<(Token, nat)>)
    requires start < |path| && path[start] == '['
    ensures AtPosition(r, Bracket(path[start..]), path)
    ensures r.Ok? ==> start < r.value.1
  {
    var n := |path|;
    var j := start + 1;
    if j >= n {
      return Err(JsonPathError(UnclosedBracket));
    }
    assert path[start..][1..] == path[j..];
    if IsQuote(path[j]) {
      assert path[start..][2..] == path[j + 1..];
      var read :- ReadQuotedKey(path, j + 1, path[j]);
      if read.1 >= n || path[read.1] != ']' {
        return Err(JsonPathError(MissingBracketAfterKey));
      }
      assert path[read.1..][1..] == path[read.1 + 1..];
      return Ok((Key(read.0), read.1 + 1));
    }
    r := ReadIndex(path, j);
  }

  /** The numeric branch of `read_bracket_key_or_index`: `start` is just after the `[`. */
  method ReadIndex(path: string, start: nat) returns (r: Result<(Token, nat)>)
    requires start <= |path|
    ensures AtPosition(r, IndexBracket(path[start..]), path)
  {
    var n := |path|;
    var k := start;
    while k < n && IsDigit(path[k])
      invariant start <= k <= n
      invariant DigitRunLen(path[start..]) == (k - start) + DigitRunLen(path[k..])
    {
      assert path[k..][1..] == path[k + 1..];
      k := k + 1;
    }
    assert path[start..][..k - start] == path[start..k];
    if k == start {
      return Err(JsonPathError(ExpectedIndex));
    }
    if k >= n || path[k] != ']' {
      return Err(JsonPathError(MissingBracketAfterIndex));
    }
    assert path[start..][k - start + 1..] == path[k + 1..];
    return Ok((Index(DecimalValue(path[start..k])), k + 1));
  }

  lemma BracketStep(path: string, i: nat, read: Result<(Token, nat)>)
    requires i < |path| && path[i] == '['
    requires AtPosition(read, Bracket(path[i..]), path)
    ensures read.Err? ==> Segments(path[i..]) == Err(read.error)
    ensures read.Ok? ==> Segments(path[i..]) == PrependAll([read.value.0], Segments(path[read.value.1..]))
  {
    SegmentsAtBracket(path[i..]);
  }

  /** One turn of the loop of `_tokenize_json_path` at position `i`: a `.` is skipped, a `[` reads a
      bracket segment, anything else a bare key. Returns the tokens read and the next position. */
  method ReadSegment(path: string, i: nat) returns (r: Result<(seq<Token>, nat)>)
    requires i < |path|
    ensures r.Err? ==> Segments(path[i..]) == Err(r.error)
    ensures r.Ok? ==> i < r.value.1 <= |path|
                      && Segments(path[i..]) == PrependAll(r.value.0, Segments(path[r.value.1..]))
  {
    var ch := path[i];
    if ch == '.' {
      SegmentsAtDot(path, i);
      return Ok(([], i + 1));
    } else if ch == '[' {
      var read := ReadBracketKeyOrIndex(path, i);
      BracketStep(path, i, read);
      if read.Err? {
        return Err(read.error);
      }
      return Ok(([read.value.0], read.value.1));
    } else {
      var read := ReadSimpleKey(path, i);
      SegmentsAtKeyIn(path, i);
      return Ok(([Key(read.value.0)], read.value.1));
    }
  }

  /** `_tokenize_json_path`, step by step as the source does it. */
  method TokenizeJsonPath(path: string) returns (r: Result<seq<Token>>)
    ensures r == Tokenize(path)
  {
    if path == [] {
      return Err(JsonPathError(EmptyPath));
    }
    var n := |path|;
    var i := 0;
    var tokens: seq<Token> := [];
    if i < n && path[i] == '$' {
      i := i + 1;
      if i < n && path[i] == '.' {
        i := i + 1;
      }
    }
    assert i == RootPrefixLen(path);
    ghost var whole := Tokenize(path);
    while i < n
      invariant i <= n
      invariant whole == PrependAll(tokens, Segments(path[i..]))
      decreases n - i
    {
      var step := ReadSegment(path, i);
      if step.Err? {
        return Err(step.error);
      }
      PrependAllTwice(tokens, step.value.0, Segments(path[step.value.1..]));
      tokens := tokens + step.value.0;
      i := step.value.1;
    }
    assert tokens + [] == tokens;
    return Ok(tokens);
  }
}

/** What the tokenizer accepts and rejects, stated over whole inputs. */
module TokenizerLaws {
  import opened Types
  import opened Digits
  import opened Tokenizer

  function Dots(k: nat): (s: string)
    ensures |s| == k && forall i :: 0 <= i < k ==> s[i] == '.'
  {
    seq(k, _ => '.')
  }

  /** Redundant `.` separators are skipped, not rejected. */
  lemma {:induction false} SegmentsSkipDots(k: nat, s: string)
    ensures Segments(Dots(k) + s) == Segments(s)
  {
    if k == 0 {
      assert Dots(k) + s == s;
    } else {
      assert (Dots(k) + s)[0] == '.' && (Dots(k) + s)[1..] == Dots(k - 1) + s;
      SegmentsSkipDots(k - 1, s);
    }
  }

  /** After a leading `$`, any number of dots is dropped: `$` and `$.` give no tokens, and `$..a` is `a`. */
  lemma TokenizeAfterRoot(k: nat, s: string)
    ensures Tokenize("$" + Dots(k) + s) == Segments(s)
  {
    var p := "$" + Dots(k) + s;
    if k == 0 {
      assert p == "$" + s && p[1..] == s;
      if s != [] && s[0] == '.' {
        assert p[2..] == s[1..];
      }
    } else {
      assert p[2..] == Dots(k - 1) + s;
      SegmentsSkipDots(k - 1, s);
    }
  }

  /** A bare key runs to the next separator; a `$` inside it (anywhere after position 0 of the path)
      is an ordinary character. */
  lemma BareKeySegment(key: string, rest: string)
    requires key != [] && forall i :: 0 <= i < |key| ==> !IsSeparator(key[i])
    requires rest == [] || IsSeparator(rest[0])
    ensures Segments(key + rest) == PrependAll([Key(key)], Segments(rest))
  {
    var s := key + rest;
    assert s[0] == key[0];
    SimpleKeyLenOf(key, rest);
    assert s[..|key|] == key && s[|key|..] == rest;
  }

  lemma {:induction false} SimpleKeyLenOf(key: string, rest: string)
    requires forall i :: 0 <= i < |key| ==> !IsSeparator(key[i])
    requires rest == [] || IsSeparator(rest[0])
    ensures SimpleKeyLen(key + rest) == |key|
  {
    if key == [] {
      assert key + rest == rest;
    } else {
      assert (key + rest)[1..] == key[1..] + rest;
      SimpleKeyLenOf(key[1..], rest);
    }
  }

  lemma {:induction false} DigitRunLenOf(digits: string, rest: string)
    requires AllDigits(digits)
    requires rest == [] || !IsDigit(rest[0])
    ensures DigitRunLen(digits + rest) == |digits|
  {
    if digits == [] {
      assert digits + rest == rest;
    } else {
      assert (digits + rest)[1..] == digits[1..] + rest;
      DigitRunLenOf(digits[1..], rest);
    }
  }

  /** `$` is stripped only at position 0. */
  lemma DollarOnlyAtStart()
    ensures Tokenize("$$") == Ok([Key("$")])
    ensures Tokenize("a.$b") == Ok([Key("a"), Key("$b")])
  {
    var p := "$$";
    assert p[0] == '$' && p[1] == '$' && |p| == 2;
    assert RootPrefixLen(p) == 1;
    assert p[1..] == "$" + [];
    BareKeySegment("$", []);
    assert [Key("$")] + [] == [Key("$")];
    assert Tokenize(p) == Segments("$" + []);
    var q := "a.$b";
    assert q[0] == 'a' && RootPrefixLen(q) == 0 && q[0..] == q;
    assert q == "a" + ".$b";
    BareKeySegment("a", ".$b");
    assert ".$b"[0] == '.' && ".$b"[1..] == "$b" + [];
    BareKeySegment("$b", []);
    assert [Key("$b")] + [] == [Key("$b")];
    assert [Key("a")] + [Key("$b")] == [Key("a"), Key("$b")];
  }

  /** `[digits]` is the index whose decimal value the digits spell. */
  lemma IndexSegment(digits: string, rest: string)
    requires digits != [] && AllDigits(digits)
    ensures Segments("[" + digits + "]" + rest) == PrependAll([Index(DecimalValue(digits))], Segments(rest))
  {
    var s := "[" + digits + "]" + rest;
    var t := s[1..];
    assert t == digits + ("]" + rest);
    assert s[0] == '[' && s[1] == digits[0] && !IsQuote(s[1]);
    DigitRunLenOf(digits, "]" + rest);
    assert t[..|digits|] == digits && t[|digits|] == ']' && t[|digits| + 1..] == rest;
    assert IndexBracket(t) == Ok((Index(DecimalValue(digits)), rest));
    assert Bracket(s) == Ok((Index(DecimalValue(digits)), rest));
    SegmentsAtBracket(s);
  }

  /** `[` at the end of the input is unclosed. */
  lemma BracketAtEnd()
    ensures Segments("[") == Err(JsonPathError(UnclosedBracket))
  {
  }

  /** `[` followed by neither a quote nor a digit is not an index. */
  lemma BracketNeitherQuoteNorDigit(c: char, rest: string)
    requires !IsQuote(c) && !IsDigit(c)
    ensures Segments("[" + [c] + rest) == Err(JsonPathError(ExpectedIndex))
  {
    var s := "[" + [c] + rest;
    assert s[1..][0] == c;
  }

  /** Digits must be closed by `]`, whether the input ends or another character follows. */
  lemma DigitsNotClosed(digits: string, rest: string)
    requires digits != [] && AllDigits(digits)
    requires rest == [] || (rest[0] != ']' && !IsDigit(rest[0]))
    ensures Segments("[" + digits + rest) == Err(JsonPathError(MissingBracketAfterIndex))
  {
    var s := "[" + digits + rest;
    var t := s[1..];
    assert t == digits + rest;
    DigitRunLenOf(digits, rest);
  }

  /** `encoded` is a quoted-key body that spells `key` when the key is closed by `quote`: every
      character is either escaped by a backslash or is neither a backslash nor the quote. */
  ghost predicate Encodes(encoded: string, key: string, quote: char)
    decreases |encoded|
  {
    if encoded == [] then key == []
    else if encoded[0] == '\\' then
      |encoded| >= 2 && key != [] && key[0] == encoded[1] && Encodes(encoded[2..], key[1..], quote)
    else
      encoded[0] != quote && key != [] && key[0] == encoded[0] && Encodes(encoded[1..], key[1..], quote)
  }

  /** A quoted key body decodes to the key it encodes and stops just after the closing quote. */
  lemma {:induction false} QuotedKeyDecodes(encoded: string, key: string, quote: char, rest: string)
    requires IsQuote(quote) && Encodes(encoded, key, quote)
    ensures QuotedKey(encoded + [quote] + rest, quote) == Ok((key, rest))
    decreases |encoded|
  {
    var s := encoded + [quote] + rest;
    if encoded == [] {
      assert s[1..] == rest;
    } else if encoded[0] == '\\' {
      assert s[2..] == encoded[2..] + [quote] + rest;
      QuotedKeyDecodes(encoded[2..], key[1..], quote, rest);
      assert [key[0]] + key[1..] == key;
    } else {
      assert s[1..] == encoded[1..] + [quote] + rest;
      QuotedKeyDecodes(encoded[1..], key[1..], quote, rest);
      assert [key[0]] + key[1..] == key;
    }
  }

  /** Backslash-prefixing every character, whatever it is, is an encoding: inside a quoted key a
      backslash and any character `c` decode to `c` alone. */
  function EscapeEvery(key: string): (e: string)
    ensures |e| == 2 * |key|
  {
    if key == [] then [] else ['\\', key[0]] + EscapeEvery(key[1..])
  }

  lemma {:induction false} EscapeEveryEncodes(key: string, quote: char)
    ensures Encodes(EscapeEvery(key), key, quote)
  {
    if key != [] {
      var e := EscapeEvery(key);
      assert e[2..] == EscapeEvery(key[1..]);
      EscapeEveryEncodes(key[1..], quote);
    }
  }

  /** So `\n` inside a quoted key is the letter `n`: the backslash of an unknown escape is dropped. */
  lemma UnknownEscapeDropsBackslash()
    ensures Tokenize("$[\"\\n\"]") == Ok([Key("n")])
  {
    var p := "$[\"\\n\"]";
    assert p[0] == '$' && p[1] == '[';
    assert RootPrefixLen(p) == 1;
    var s := p[1..];
    assert s[0] == '[' && s[1] == '"' && |s| > 1;
    EscapeEveryEncodes("n", '"');
    assert EscapeEvery("n") == "\\n";
    assert s[2..] == "\\n" + ['"'] + "]";
    QuotedKeyDecodes("\\n", "n", '"', "]");
    assert QuotedBracket(s[2..], '"') == Ok((Key("n"), []));
    assert Bracket(s) == Ok((Key("n"), []));
    assert Segments(s) == PrependAll([Key("n")], Segments([]));
    assert [Key("n")] + [] == [Key("n")];
    assert Tokenize(p) == Segments(s);
  }

  /** A quoted key whose body holds neither its quote nor a backslash. */
  predicate Plain(body: string, quote: char) {
    forall i :: 0 <= i < |body| ==> body[i] != quote && body[i] != '\\'
  }

  /** A quoted key body, escaped or not, with no closing quote after it is unclosed; followed by a
      lone backslash it ends in the trailing-backslash error. */
  lemma {:induction false} OpenQuotedKeyErrors(body: string, key: string, quote: char)
    requires Encodes(body, key, quote)
    ensures QuotedKey(body, quote) == Err(JsonPathError(UnclosedQuotedKey))
    ensures QuotedKey(body + ['\\'], quote) == Err(JsonPathError(TrailingBackslash))
    decreases |body|
  {
    if body != [] {
      if body[0] == '\\' {
        assert (body + ['\\'])[2..] == body[2..] + ['\\'];
        OpenQuotedKeyErrors(body[2..], key[1..], quote);
      } else {
        assert (body + ['\\'])[1..] == body[1..] + ['\\'];
        OpenQuotedKeyErrors(body[1..], key[1..], quote);
      }
    }
  }

  /** A quoted key that is never closed, one that ends in a lone backslash, and one whose closing quote
      is not followed by `]` are all rejected, whatever escapes the body holds. */
  lemma QuotedKeyErrors(quote: char, body: string, key: string, c: char, rest: string)
    requires IsQuote(quote) && Encodes(body, key, quote) && c != ']'
    ensures Segments("[" + [quote] + body) == Err(JsonPathError(UnclosedQuotedKey))
    ensures Segments("[" + [quote] + body + ['\\']) == Err(JsonPathError(TrailingBackslash))
    ensures Segments("[" + [quote] + body + [quote]) == Err(JsonPathError(MissingBracketAfterKey))
    ensures Segments("[" + [quote] + body + [quote] + [c] + rest) == Err(JsonPathError(MissingBracketAfterKey))
  {
    UnclosedQuotedKeyErrors(quote, body, key);
    ClosedWithoutBracketErrors(quote, body, key, c, rest);
  }

  lemma UnclosedQuotedKeyErrors(quote: char, body: string, key: string)
    requires IsQuote(quote) && Encodes(body, key, quote)
    ensures Segments("[" + [quote] + body) == Err(JsonPathError(UnclosedQuotedKey))
    ensures Segments("[" + [quote] + body + ['\\']) == Err(JsonPathError(TrailingBackslash))
  {
    OpenQuotedKeyErrors(body, key, quote);
    assert ("[" + [quote] + body)[2..] == body;
    assert ("[" + [quote] + body + ['\\'])[2..] == body + ['\\'];
  }

  lemma ClosedWithoutBracketErrors(quote: char, body: string, key: string, c: char, rest: string)
    requires IsQuote(quote) && Encodes(body, key, quote) && c != ']'
    ensures Segments("[" + [quote] + body + [quote]) == Err(JsonPathError(MissingBracketAfterKey))
    ensures Segments("[" + [quote] + body + [quote] + [c] + rest) == Err(JsonPathError(MissingBracketAfterKey))
  {
    var closed := "[" + [quote] + body + [quote];
    ClosedWithout(quote, body, key, []);
    assert closed + [] == closed;
    ClosedWithout(quote, body, key, [c] + rest);
    assert closed + [c] + rest == closed + ([c] + rest);
  }

  /** A quoted key closed by its quote and followed by anything but `]`. */
  lemma ClosedWithout(quote: char, body: string, key: string, tail: string)
    requires IsQuote(quote) && Encodes(body, key, quote) && (tail == [] || tail[0] != ']')
    ensures Segments("[" + [quote] + body + [quote] + tail) == Err(JsonPathError(MissingBracketAfterKey))
  {
    var inner := body + [quote] + tail;
    var s := "[" + [quote] + body + [quote] + tail;
    assert s == "[" + [quote] + inner;
    assert |s| > 1 && s[0] == '[' && s[1] == quote && s[2..] == inner;
    QuotedKeyDecodes(body, key, quote, tail);
    assert QuotedBracket(inner, quote) == Err(JsonPathError(MissingBracketAfterKey));
    assert Bracket(s) == Err(JsonPathError(MissingBracketAfterKey));
    SegmentsAtBracket(s);
  }

  lemma {:induction false} PlainEncodes(body: string, quote: char)
    requires Plain(body, quote)
    ensures Encodes(body, body, quote)
    decreases |body|
  {
    if body != [] {
      PlainEncodes(body[1..], quote);
    }
  }
}
