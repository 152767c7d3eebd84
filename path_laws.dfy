/** How the serializer `_join_path` and the tokenizer `_tokenize_json_path` fit together: tokenizing a
    joined path gives the base's tokens followed by the new token, whenever the base is not empty. */
module PathLaws {
  import opened Types
  import opened Digits
  import opened Tokenizer
  import opened TokenizerLaws
  import opened JsonPath

  /** The bracket-and-quote form of a key, as `_join_path` writes it. */
  function QuotedForm(key: string): string {
    "[\"" + EscapeKey(key) + "\"]"
  }

  /** What `_join_path` appends to a non-empty base. */
  function Suffix(token: Token): (s: string)
    ensures s != [] && IsSeparator(s[0])
  {
    match token
    case Index(i) => "[" + NatToString(i) + "]"
    case Key(key) => if UsesDotForm(key) then "." + key else QuotedForm(key)
  }

  lemma JoinAppendsSuffix(base: string, token: Token)
    requires base != []
    ensures JoinPath(base, token) == base + Suffix(token)
  {
    match token
    case Index(i) =>
      assert base + "[" + NatToString(i) + "]" == base + ("[" + NatToString(i) + "]");
    case Key(key) =>
      if UsesDotForm(key) {
        assert base + "." + key == base + ("." + key);
      } else {
        assert base + "[\"" + EscapeKey(key) + "\"]" == base + QuotedForm(key);
      }
  }

  /** The escaped key decodes back to the key inside double quotes. */
  lemma {:induction false} EscapeEachEncodes(key: string)
    ensures Encodes(EscapeEach(key), key, '"')
  {
    if key != [] {
      var c, e := key[0], EscapeEach(key);
      assert e == EscapeChar(c) + EscapeEach(key[1..]);
      EscapeEachEncodes(key[1..]);
      if c == '\\' || c == '"' {
        assert e[0] == '\\' && e[1] == c && e[2..] == EscapeEach(key[1..]);
      } else {
        assert e[0] == c && e[1..] == EscapeEach(key[1..]);
      }
    }
  }

  lemma EscapeKeyEncodes(key: string)
    ensures Encodes(EscapeKey(key), key, '"')
  {
    EscapeEachEncodes(key);
  }

  lemma QuotedFormBracket(key: string)
    ensures Bracket(QuotedForm(key)) == Ok((Key(key), []))
  {
    var e := EscapeKey(key);
    var s := QuotedForm(key);
    var inner := e + ['"'] + "]";
    assert s == "[\"" + inner;
    assert |s| > 1 && s[0] == '[' && s[1] == '"' && s[2..] == inner;
    EscapeKeyEncodes(key);
    QuotedKeyDecodes(e, key, '"', "]");
    assert QuotedBracket(inner, '"') == Ok((Key(key), []));
  }

  /** Every key, whatever its characters, comes back from its quoted form. */
  lemma QuotedFormSegment(key: string)
    ensures Segments(QuotedForm(key)) == Ok([Key(key)])
  {
    var s := QuotedForm(key);
    QuotedFormBracket(key);
    assert s[0] == '[';
    SegmentsAtBracket(s);
    assert [Key(key)] + [] == [Key(key)];
  }

  lemma SuffixSegment(token: Token)
    ensures Segments(Suffix(token)) == Ok([token])
  {
    match token
    case Index(i) =>
      IndexSegment(NatToString(i), "");
      DecimalValueOfNatToString(i);
      assert "[" + NatToString(i) + "]" + "" == Suffix(token);
      assert [Index(i)] + [] == [token];
    case Key(key) =>
      if UsesDotForm(key) {
        var s := "." + key;
        assert s[1..] == key;
        BareKeySegment(key, "");
        assert key + "" == key;
        assert [Key(key)] + [] == [token];
      } else {
        QuotedFormSegment(key);
      }
  }

  /** A decoded quoted key does not depend on what follows its closing quote. */
  lemma {:induction false} QuotedKeyAppend(s: string, quote: char, more: string)
    requires QuotedKey(s, quote).Ok?
    ensures QuotedKey(s + more, quote)
            == Ok((QuotedKey(s, quote).value.0, QuotedKey(s, quote).value.1 + more))
    decreases |s|
  {
    var t := s + more;
    if s[0] == '\\' {
      assert t[2..] == s[2..] + more;
      QuotedKeyAppend(s[2..], quote, more);
    } else if s[0] == quote {
      assert t[1..] == s[1..] + more;
    } else {
      assert t[1..] == s[1..] + more;
      QuotedKeyAppend(s[1..], quote, more);
    }
  }

  lemma QuotedBracketAppend(s: string, quote: char, more: string)
    requires QuotedBracket(s, quote).Ok?
    ensures QuotedBracket(s + more, quote)
            == Ok((QuotedBracket(s, quote).value.0, QuotedBracket(s, quote).value.1 + more))
  {
    QuotedKeyAppend(s, quote, more);
    var rest := QuotedKey(s, quote).value.1;
    assert (rest + more)[0] == rest[0];
    assert (rest + more)[1..] == rest[1..] + more;
  }

  lemma IndexBracketAppend(s: string, more: string)
    requires IndexBracket(s).Ok?
    ensures IndexBracket(s + more) == Ok((IndexBracket(s).value.0, IndexBracket(s).value.1 + more))
  {
    var n := DigitRunLen(s);
    assert s + more == s[..n] + (s[n..] + more);
    DigitRunLenOf(s[..n], s[n..] + more);
    assert (s + more)[n] == s[n];
    assert (s + more)[..n] == s[..n];
    assert (s + more)[n + 1..] == s[n + 1..] + more;
  }

  /** A bracket segment that reads successfully reads the same with anything after it. */
  lemma BracketAppend(s: string, more: string)
    requires s != [] && s[0] == '['
    requires Bracket(s).Ok?
    ensures Bracket(s + more) == Ok((Bracket(s).value.0, Bracket(s).value.1 + more))
  {
    var t := s + more;
    assert t[0] == '[' && t[1] == s[1];
    if IsQuote(s[1]) {
      assert t[2..] == s[2..] + more;
      QuotedBracketAppend(s[2..], s[1], more);
    } else {
      assert t[1..] == s[1..] + more;
      IndexBracketAppend(s[1..], more);
    }
  }

  /** Reading a path in two parts: when the second part starts with a separator, the tokens of the
      whole are the tokens of the first part followed by those of the second. */
  lemma {:induction false} SegmentsAppend(s: string, more: string)
    requires Segments(s).Ok?
    requires more != [] && IsSeparator(more[0])
    ensures Segments(s + more) == PrependAll(Segments(s).value, Segments(more))
    decreases |s|
  {
    var t := s + more;
    if s == [] {
      assert t == more;
    } else if s[0] == '.' {
      assert t[1..] == s[1..] + more;
      SegmentsAppend(s[1..], more);
    } else if s[0] == '[' {
      var token, rest := Bracket(s).value.0, Bracket(s).value.1;
      BracketAppend(s, more);
      SegmentsAtBracket(s);
      SegmentsAtBracket(t);
      SegmentsAppend(rest, more);
      PrependAllTwice([token], Segments(rest).value, Segments(more));
    } else {
      var n := SimpleKeyLen(s);
      SimpleKeyLenOf(s[..n], s[n..] + more);
      assert s[..n] + (s[n..] + more) == t;
      assert t[..n] == s[..n] && t[n..] == s[n..] + more;
      SegmentsAppend(s[n..], more);
      PrependAllTwice([Key(s[..n])], Segments(s[n..]).value, Segments(more));
    }
  }

  /** The same for a whole path: after a base that tokenizes, a part starting with a separator adds
      its own tokens. */
  lemma TokenizeAppend(base: string, more: string)
    requires base != [] && Tokenize(base).Ok?
    requires more != [] && IsSeparator(more[0])
    ensures Tokenize(base + more) == PrependAll(Tokenize(base).value, Segments(more))
  {
    var p := base + more;
    var n := RootPrefixLen(base);
    if base == "$" {
      assert p[0] == '$' && p[1..] == more;
      if more[0] == '.' {
        assert p[2..] == more[1..];
      }
      assert Tokenize(p) == Segments(more);
    } else {
      assert RootPrefixLen(p) == n by {
        assert p[0] == base[0];
        if |base| > 1 {
          assert p[1] == base[1];
        }
      }
      assert p[n..] == base[n..] + more;
      SegmentsAppend(base[n..], more);
    }
  }

  /** The round trip of the path codec: for a base that is not empty and that tokenizes, the joined
      path tokenizes to the base's tokens followed by the token. */
  lemma JoinRoundTrip(base: string, token: Token)
    requires base != [] && Tokenize(base).Ok?
    ensures Tokenize(JoinPath(base, token)) == Ok(Tokenize(base).value + [token])
  {
    JoinAppendsSuffix(base, token);
    SuffixSegment(token);
    TokenizeAppend(base, Suffix(token));
  }

  /** Without the root marker the round trip still holds, except for a dot-form key that starts with
      `$`: that `$` is then read as the root marker. */
  lemma RootlessRoundTrip(token: Token)
    requires !(token.Key? && UsesDotForm(token.key) && token.key[0] == '$')
    ensures Tokenize(JoinPath("", token)) == Ok([token])
  {
    var p := JoinPath("", token);
    if token.Key? && UsesDotForm(token.key) {
      var key := token.key;
      assert p == key;
      assert RootPrefixLen(p) == 0;
      BareKeySegment(key, "");
      assert key + "" == key;
      assert [Key(key)] + [] == [token];
    } else {
      assert p == Suffix(token);
      assert p[0] == '[';
      assert RootPrefixLen(p) == 0;
      SuffixSegment(token);
    }
  }

  /** The exception to the rootless round trip: the key `$a` joined to the empty base reads back as
      the key `a`. */
  lemma RootlessDollarKeyLosesDollar()
    ensures JoinPath("", Key("$a")) == "$a"
    ensures Tokenize(JoinPath("", Key("$a"))) == Ok([Key("a")])
  {
    var p := "$a";
    assert UsesDotForm(p);
    assert RootPrefixLen(p) == 1;
    assert p[1..] == "a";
    BareKeySegment("a", "");
    assert "a" + "" == "a";
    assert [Key("a")] + [] == [Key("a")];
  }

  /** A key written in dot form and the same key written in quoted form read the same. */
  lemma DotAndQuotedFormsAgree(base: string, key: string)
    requires base != [] && Tokenize(base).Ok? && UsesDotForm(key)
    ensures Tokenize(base + "." + key) == Tokenize(base + QuotedForm(key))
  {
    JoinRoundTrip(base, Key(key));
    JoinAppendsSuffix(base, Key(key));
    QuotedFormSegment(key);
    TokenizeAppend(base, QuotedForm(key));
  }

  /** The walker's path of a token list reads back as that token list, so two different token lists
      never get the same path. */
  lemma {:induction false} PathOfRoundTrip(tokens: seq<Token>)
    ensures Tokenize(PathOf(tokens)) == Ok(tokens)
    decreases |tokens|
  {
    if tokens == [] {
      assert Tokenize("$") == Ok([]);
    } else {
      var front := tokens[..|tokens| - 1];
      PathOfRoundTrip(front);
      JoinRoundTrip(PathOf(front), tokens[|tokens| - 1]);
      assert front + [tokens[|tokens| - 1]] == tokens;
    }
  }

  lemma PathOfInjective(a: seq<Token>, b: seq<Token>)
    requires PathOf(a) == PathOf(b)
    ensures a == b
  {
    PathOfRoundTrip(a);
    PathOfRoundTrip(b);
  }
}
