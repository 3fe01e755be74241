/** The tokenizer of VCL statements: split at white space outside quotes, keep quotes in tokens. */
module VclTokenizer {
  import opened Wrappers
  import opened QueryText

  predicate IsSeparator(ch: char) {
    ch == ' ' || ch == '\t' || ch == '\n'
  }

  /** Which quote the scanner is inside. The two flags of the code are never both set. */
  datatype Quote = Outside | Single | Double

  function Next(q: Quote, ch: char): Quote {
    if ch == '\'' && q != Double then (if q == Single then Outside else Single)
    else if ch == '"' && q != Single then (if q == Double then Outside else Double)
    else q
  }

  /** The tokens still to come, with `current` already read into the token at hand. */
  function TokensFrom(s: string, current: string, q: Quote): seq<string>
    decreases s
  {
    if s == "" then if current == "" then [] else [current]
    else if IsSeparator(s[0]) && q == Outside then
      (if current == "" then [] else [current]) + TokensFrom(s[1..], "", Outside)
    else TokensFrom(s[1..], current + [s[0]], Next(q, s[0]))
  }

  function Tokens(s: string): seq<string> {
    TokensFrom(s, "", Outside)
  }

  function QuoteOf(single: bool, double: bool): Quote {
    if single then Single else if double then Double else Outside
  }

  method Tokenize(input: string) returns (tokens: seq<string>)
    ensures tokens == Tokens(input)
  {
    tokens := [];
    var current := "";
    var inSingle, inDouble := false, false;
    for i := 0 to |input|
      invariant !(inSingle && inDouble)
      invariant tokens + TokensFrom(input[i..], current, QuoteOf(inSingle, inDouble)) == Tokens(input)
    {
      var ch := input[i];
      assert input[i..][1..] == input[i + 1..];
      if ch == '\'' && !inDouble {
        inSingle := !inSingle;
        current := current + [ch];
      } else if ch == '"' && !inSingle {
        inDouble := !inDouble;
        current := current + [ch];
      } else if IsSeparator(ch) && !inSingle && !inDouble {
        if current != "" {
          tokens := tokens + [current];
          current := "";
        }
      } else {
        current := current + [ch];
      }
    }
    if current != "" {
      tokens := tokens + [current];
    }
  }

  // ----- What a token list keeps of the text

  function Concat(tokens: seq<string>): string {
    if tokens == [] then "" else tokens[0] + Concat(tokens[1..])
  }

  /** The text without its separators outside quotes. */
  function Stripped(s: string, q: Quote): string {
    if s == "" then ""
    else if IsSeparator(s[0]) && q == Outside then Stripped(s[1..], Outside)
    else [s[0]] + Stripped(s[1..], Next(q, s[0]))
  }

  lemma {:induction false} TokensFromKeepText(s: string, current: string, q: Quote)
    ensures Concat(TokensFrom(s, current, q)) == current + Stripped(s, q)
    decreases s
  {
    if s == "" {
      assert Concat([current]) == current + Concat([]);
    } else if IsSeparator(s[0]) && q == Outside {
      TokensFromKeepText(s[1..], "", Outside);
      var rest := TokensFrom(s[1..], "", Outside);
      if current == "" {
        assert [] + rest == rest && current + Stripped(s, q) == Stripped(s, q);
      } else {
        assert ([current] + rest)[1..] == rest;
      }
    } else {
      TokensFromKeepText(s[1..], current + [s[0]], Next(q, s[0]));
      assert current + [s[0]] + Stripped(s[1..], Next(q, s[0])) == current + Stripped(s, q);
    }
  }

  /** The tokens put together are the text with exactly its separators outside quotes removed. */
  lemma TokensKeepText(s: string)
    ensures Concat(Tokens(s)) == Stripped(s, Outside)
  {
    TokensFromKeepText(s, "", Outside);
  }

  // ----- Token lists

  /** Scanning `t` from `q` meets no separator outside quotes. */
  predicate Unbroken(t: string, q: Quote) {
    t == "" || (!(IsSeparator(t[0]) && q == Outside) && Unbroken(t[1..], Next(q, t[0])))
  }

  function EndQuote(t: string, q: Quote): Quote {
    if t == "" then q else EndQuote(t[1..], Next(q, t[0]))
  }

  /** The lists a tokenizer can produce: no empty token, no separator outside quotes within one,
      and quotes closed in every token but possibly the last. */
  ghost predicate WellTokenized(tokens: seq<string>) {
    && (forall i :: 0 <= i < |tokens| ==> tokens[i] != "" && Unbroken(tokens[i], Outside))
    && (forall i :: 0 <= i < |tokens| - 1 ==> EndQuote(tokens[i], Outside) == Outside)
  }

  lemma {:induction false} AppendChar(t: string, q: Quote, ch: char)
    requires Unbroken(t, q) && !(IsSeparator(ch) && EndQuote(t, q) == Outside)
    ensures Unbroken(t + [ch], q) && EndQuote(t + [ch], q) == Next(EndQuote(t, q), ch)
  {
    if t == "" {
      assert t + [ch] == [ch];
    } else {
      AppendChar(t[1..], Next(q, t[0]), ch);
      assert (t + [ch])[1..] == t[1..] + [ch];
    }
  }

  lemma {:induction false} TokensFromAreWellTokenized(s: string, current: string, q: Quote)
    requires Unbroken(current, Outside) && EndQuote(current, Outside) == q
    ensures WellTokenized(TokensFrom(s, current, q))
    decreases s
  {
    if s != "" {
      if IsSeparator(s[0]) && q == Outside {
        TokensFromAreWellTokenized(s[1..], "", Outside);
      } else {
        AppendChar(current, Outside, s[0]);
        TokensFromAreWellTokenized(s[1..], current + [s[0]], Next(q, s[0]));
      }
    }
  }

  /** Reading an unbroken text only extends the current token. */
  lemma {:induction false} ReadUnbroken(t: string, rest: string, current: string, q: Quote)
    requires Unbroken(t, q)
    ensures TokensFrom(t + rest, current, q) == TokensFrom(rest, current + t, EndQuote(t, q))
    decreases t
  {
    if t == "" {
      assert t + rest == rest && current + t == current;
    } else {
      ReadUnbroken(t[1..], rest, current + [t[0]], Next(q, t[0]));
      assert (t + rest)[1..] == t[1..] + rest;
      assert current + [t[0]] + t[1..] == current + t;
    }
  }

  lemma {:induction false} JoinedTokensRead(tokens: seq<string>)
    requires WellTokenized(tokens)
    ensures Tokens(Join(tokens)) == tokens
  {
    if |tokens| == 1 {
      ReadUnbroken(tokens[0], "", "", Outside);
      assert tokens[0] + "" == tokens[0] && "" + tokens[0] == tokens[0];
    } else if |tokens| > 1 {
      var tail := " " + Join(tokens[1..]);
      ReadUnbroken(tokens[0], tail, "", Outside);
      assert Join(tokens) == tokens[0] + tail && "" + tokens[0] == tokens[0];
      assert tail[1..] == Join(tokens[1..]);
      JoinedTokensRead(tokens[1..]);
    }
  }

  /** Joining the tokens of any text with single spaces and tokenizing again changes nothing,
      unbalanced quotes included. */
  lemma TokenizeIsStable(s: string)
    ensures Tokens(Join(Tokens(s))) == Tokens(s)
  {
    TokensFromAreWellTokenized(s, "", Outside);
    JoinedTokensRead(Tokens(s));
  }

  /** The token lists that occur are exactly the well tokenized ones. */
  lemma TokenListsIff(tokens: seq<string>)
    ensures (exists s :: Tokens(s) == tokens) <==> WellTokenized(tokens)
  {
    if s :| Tokens(s) == tokens {
      TokensFromAreWellTokenized(s, "", Outside);
    }
    if WellTokenized(tokens) {
      JoinedTokensRead(tokens);
    }
  }

  // ----- WHERE id = '<value>'
  //
  // Letter case matters only for the ASCII words looked for here.

  predicate Surrounded(s: string, quote: char) {
    s != "" && s[0] == quote && s[|s| - 1] == quote
  }

  /** Strip surrounding quotes. The slice has no valid range when the text is one quote alone. */
  function Unquote(s: string): Option<string> {
    if Surrounded(s, '\'') || Surrounded(s, '"') then
      if |s| == 1 then None else Some(s[1..|s| - 1])
    else Some(s)
  }

  datatype Search = Absent | Found(id: string) | BadSlice

  function FindWhereId(tokens: seq<string>): Search {
    if tokens == [] then Absent
    else if UpperAscii(tokens[0]) == "WHERE" && |tokens| > 3 && LowerAscii(tokens[1]) == "id" && tokens[2] == "=" then
      match Unquote(tokens[3])
      case Some(id) => Found(id)
      case None => BadSlice
    else FindWhereId(tokens[1..])
  }

  lemma UnquoteFailsIff(s: string)
    ensures Unquote(s) == None <==> s == "'" || s == "\""
  {
  }

  lemma {:induction false} QuotedIsUnbroken(id: string, quote: char, q: Quote)
    requires (quote == '\'' && q == Single) || (quote == '"' && q == Double)
    requires quote !in id
    ensures Unbroken(id + [quote], q) && EndQuote(id + [quote], q) == Outside
  {
    if id == "" {
      assert id + [quote] == [quote];
      assert [quote][1..] == "";
    } else {
      assert (id + [quote])[1..] == id[1..] + [quote];
      QuotedIsUnbroken(id[1..], quote, q);
    }
  }

  /** For every id without the quote used, with any white space or other quotes in it, the
      statement gives that id back. */
  lemma DeleteStatementFindsId(id: string, quote: char)
    requires quote == '\'' || quote == '"'
    requires quote !in id
    ensures FindWhereId(Tokens("DELETE FROM octads WHERE id = " + [quote] + id + [quote])) == Found(id)
  {
    LiteralReads(id, quote);
    DeleteStatementFindsIff(id, quote);
    hide Tokens, FindWhereId, Unquote, Unbroken;
    Append("DELETE FROM octads WHERE id = ", [quote], id, [quote]);
  }

  lemma LiteralReads(id: string, quote: char)
    requires (quote == '\'' || quote == '"') && quote !in id
    ensures Unbroken([quote] + id + [quote], Outside) && Unquote([quote] + id + [quote]) == Some(id)
  {
    var literal := [quote] + id + [quote];
    assert literal[1..] == id + [quote] && literal[1..|literal| - 1] == id;
    QuotedIsUnbroken(id, quote, if quote == '\'' then Single else Double);
  }

  lemma Append(a: string, b: string, c: string, d: string)
    ensures a + (b + c + d) == a + b + c + d
  {
  }

  lemma WordIsUnbroken(w: string)
    requires forall c :: c in w ==> !IsSeparator(c) && c != '\'' && c != '"'
    ensures Unbroken(w, Outside) && EndQuote(w, Outside) == Outside
  {
    if w != "" {
      WordIsUnbroken(w[1..]);
    }
  }

  lemma SearchMore(first: string, rest: seq<string>)
    requires |first| != 5
    ensures FindWhereId([first] + rest) == FindWhereId(rest)
  {
    assert ([first] + rest)[1..] == rest;
  }

  // ----- Exactly which ids are given back

  /** A non-empty text without separators and quotes. */
  predicate IsPlain(w: string) {
    w != "" && forall c :: c in w ==> !IsSeparator(c) && c != '\'' && c != '"'
  }

  lemma StatementWordsArePlain()
    ensures IsPlain("DELETE") && IsPlain("FROM") && IsPlain("octads")
    ensures IsPlain("WHERE") && IsPlain("id") && IsPlain("=")
  {
  }

  lemma StatementText(s: string)
    ensures "DELETE FROM octads WHERE id = " + s ==
      "DELETE" + " " + ("FROM" + " " + ("octads" + " " + ("WHERE" + " " + ("id" + " " + ("=" + " " + s)))))
  {
    assert "DELETE FROM octads WHERE id = " ==
      "DELETE" + " " + "FROM" + " " + "octads" + " " + "WHERE" + " " + "id" + " " + "=" + " ";
  }

  lemma TokensAfterWord(w: string, s: string)
    requires IsPlain(w)
    ensures Tokens(w + " " + s) == [w] + Tokens(s)
  {
    WordIsUnbroken(w);
    ReadUnbroken(w, " " + s, "", Outside);
    assert w + " " + s == w + (" " + s) && "" + w == w && (" " + s)[1..] == s;
  }

  lemma StatementTokens(s: string)
    ensures Tokens("DELETE FROM octads WHERE id = " + s) ==
            ["DELETE"] + (["FROM"] + (["octads"] + (["WHERE"] + (["id"] + (["="] + Tokens(s))))))
  {
    hide Tokens, IsPlain;
    StatementWordsArePlain();
    StatementText(s);
    var t6 := "=" + " " + s;
    var t5 := "id" + " " + t6;
    var t4 := "WHERE" + " " + t5;
    var t3 := "octads" + " " + t4;
    var t2 := "FROM" + " " + t3;
    TokensAfterWord("=", s);
    TokensAfterWord("id", t6);
    TokensAfterWord("WHERE", t5);
    TokensAfterWord("octads", t4);
    TokensAfterWord("FROM", t3);
    TokensAfterWord("DELETE", t2);
  }

  lemma FirstValueDecides(tokens: seq<string>)
    requires tokens != []
    ensures FindWhereId(["DELETE"] + (["FROM"] + (["octads"] + (["WHERE"] + (["id"] + (["="] + tokens)))))) ==
            match Unquote(tokens[0]) case Some(id) => Found(id) case None => BadSlice
  {
    var t3 := ["WHERE"] + (["id"] + (["="] + tokens));
    assert t3[0] == "WHERE" && t3[1] == "id" && t3[2] == "=" && t3[3] == tokens[0];
    assert UpperAscii("WHERE") == "WHERE" && LowerAscii("id") == "id";
    assert FindWhereId(t3) == match Unquote(tokens[0]) case Some(id) => Found(id) case None => BadSlice;
    hide FindWhereId, Unquote;
    SearchMore("DELETE", ["FROM"] + (["octads"] + t3));
    SearchMore("FROM", ["octads"] + t3);
    SearchMore("octads", t3);
  }

  /** The first token ends at the first separator outside quotes. */
  lemma {:induction false} FirstTokenStops(s: string, current: string, q: Quote) returns (n: nat)
    requires current != "" && !Unbroken(s, q)
    ensures n < |s| && TokensFrom(s, current, q) != [] && TokensFrom(s, current, q)[0] == current + s[..n]
    decreases s
  {
    if IsSeparator(s[0]) && q == Outside {
      n := 0;
      assert current + s[..0] == current;
    } else {
      var m := FirstTokenStops(s[1..], current + [s[0]], Next(q, s[0]));
      n := m + 1;
      assert current + [s[0]] + s[1..][..m] == current + s[..n];
    }
  }

  lemma {:induction false} OneCharacterOnly(id: string, quote: char, i: nat)
    requires i < |id| && id == ([quote] + id + [quote])[..|id|]
    ensures id[i] == quote
  {
    assert id[i] == ([quote] + id + [quote])[i];
    if i > 0 {
      OneCharacterOnly(id, quote, i - 1);
    }
  }

  lemma {:induction false} NoSeparatorNoBreak(s: string, q: Quote)
    requires forall c :: c in s ==> !IsSeparator(c)
    ensures Unbroken(s, q)
  {
    if s != "" {
      NoSeparatorNoBreak(s[1..], Next(q, s[0]));
    }
  }

  /** A proper prefix of a quoted id does not stand for that id, unless there is no separator in it. */
  lemma PrefixIsOther(id: string, quote: char, n: nat)
    requires (quote == '\'' || quote == '"') && 0 < n < |id| + 2 && !Unbroken([quote] + id + [quote], Outside)
    ensures Unquote(([quote] + id + [quote])[..n]) != Some(id)
  {
    hide Unbroken, Unquote, IsSeparator;
    var literal := [quote] + id + [quote];
    if Unquote(literal[..n]) == Some(id) {
      UnquotedLength(literal[..n], id);
      NoSeparatorInside(id, quote);
      NoSeparatorNoBreak(literal, Outside);
    }
  }

  lemma UnquotedLength(s: string, id: string)
    requires Unquote(s) == Some(id)
    ensures |s| == |id| + 2 || s == id
  {
  }

  lemma NoSeparatorInside(id: string, quote: char)
    requires (quote == '\'' || quote == '"') && id == ([quote] + id + [quote])[..|id|]
    ensures forall c :: c in [quote] + id + [quote] ==> !IsSeparator(c)
  {
    var literal := [quote] + id + [quote];
    forall c | c in literal ensures !IsSeparator(c) {
      var i :| 0 <= i < |literal| && literal[i] == c;
      if 0 < i <= |id| {
        OneCharacterOnly(id, quote, i - 1);
      }
    }
  }

  /** A quoted id is given back if and only if no separator in it is outside quotes. */
  lemma DeleteStatementFindsIff(id: string, quote: char)
    requires quote == '\'' || quote == '"'
    ensures FindWhereId(Tokens("DELETE FROM octads WHERE id = " + ([quote] + id + [quote]))) == Found(id)
      <==> Unbroken([quote] + id + [quote], Outside)
  {
    hide FindWhereId, Unquote;
    var literal := [quote] + id + [quote];
    LiteralTokens(literal, quote);
    StatementTokens(literal);
    FirstValueDecides(Tokens(literal));
    if Unbroken(literal, Outside) {
      WholeIsUnquoted(id, quote);
    } else {
      var n: nat :| 0 < n < |literal| && Tokens(literal)[0] == literal[..n];
      PrefixIsOther(id, quote, n);
    }
  }

  lemma LiteralTokens(literal: string, quote: char)
    requires (quote == '\'' || quote == '"') && literal != "" && literal[0] == quote
    ensures Tokens(literal) != []
    ensures Unbroken(literal, Outside) ==> Tokens(literal)[0] == literal
    ensures !Unbroken(literal, Outside) ==> exists n :: 0 < n < |literal| && Tokens(literal)[0] == literal[..n]
  {
    hide Tokens, TokensFrom, Unbroken;
    OpeningQuote(literal, quote);
    if Unbroken(literal, Outside) {
      UnbrokenIsOneToken(literal);
    } else {
      var m := FirstTokenStops(literal[1..], [quote], Next(Outside, quote));
      assert [quote] + literal[1..][..m] == literal[..m + 1];
    }
  }

  lemma OpeningQuote(literal: string, quote: char)
    requires (quote == '\'' || quote == '"') && literal != "" && literal[0] == quote
    ensures Tokens(literal) == TokensFrom(literal[1..], [quote], Next(Outside, quote))
    ensures Unbroken(literal, Outside) <==> Unbroken(literal[1..], Next(Outside, quote))
  {
    assert "" + [literal[0]] == [quote];
  }

  lemma UnbrokenIsOneToken(t: string)
    requires t != "" && Unbroken(t, Outside)
    ensures Tokens(t) == [t]
  {
    ReadUnbroken(t, "", "", Outside);
    assert t + "" == t && "" + t == t;
  }

  lemma WholeIsUnquoted(id: string, quote: char)
    requires quote == '\'' || quote == '"'
    ensures Unquote([quote] + id + [quote]) == Some(id)
  {
    var literal := [quote] + id + [quote];
    assert literal[1..|literal| - 1] == id;
  }

  /** A statement that ends in a lone quote makes the search slice out of range. */
  lemma LoneQuoteIsReached(quote: char)
    requires quote == '\'' || quote == '"'
    ensures FindWhereId(Tokens("DELETE FROM octads WHERE id = " + [quote])) == BadSlice
  {
    hide FindWhereId;
    NoSeparatorNoBreak([quote], Outside);
    LiteralTokens([quote], quote);
    StatementTokens([quote]);
    FirstValueDecides(Tokens([quote]));
  }

  /** A space, a tab or a newline ends a plain word and is otherwise skipped; nothing else does. */
  lemma SeparatorsSeparate(w: string, ch: char, s: string)
    requires IsPlain(w)
    ensures ch == ' ' || ch == '\t' || ch == '\n' ==>
      Tokens(w + ([ch] + s)) == [w] + Tokens(s) && Tokens([ch] + s) == Tokens(s)
    ensures ch != ' ' && ch != '\t' && ch != '\n' ==> Tokens([ch]) == [[ch]]
  {
    WordIsUnbroken(w);
    ReadUnbroken(w, [ch] + s, "", Outside);
    assert "" + w == w && ([ch] + s)[1..] == s && [ch][1..] == "" && "" + [ch] == [ch];
    if ch != ' ' && ch != '\t' && ch != '\n' {
      assert TokensFrom([ch], "", Outside) == TokensFrom("", [ch], Next(Outside, ch));
    }
  }

  /** WHERE id = and a value stand at position `i`. */
  predicate AsksForId(tokens: seq<string>, i: nat) {
    && i + 3 < |tokens|
    && UpperAscii(tokens[i]) == "WHERE" && LowerAscii(tokens[i + 1]) == "id" && tokens[i + 2] == "="
  }

  /** The search gives the value of the first such position, and nothing if and only if there is none. */
  lemma {:induction false} FirstIdIsFound(tokens: seq<string>)
    ensures FindWhereId(tokens) == Absent <==> forall i: nat :: !AsksForId(tokens, i)
    ensures forall i: nat :: AsksForId(tokens, i) && (forall k: nat :: k < i ==> !AsksForId(tokens, k)) ==>
      FindWhereId(tokens) == match Unquote(tokens[i + 3]) case Some(id) => Found(id) case None => BadSlice
  {
    hide Unquote, UpperAscii, LowerAscii;
    if tokens != [] && !AsksForId(tokens, 0) {
      FirstIdIsFound(tokens[1..]);
      AsksLater(tokens);
    }
  }

  lemma AsksLater(tokens: seq<string>)
    requires tokens != [] && !AsksForId(tokens, 0)
    ensures FindWhereId(tokens) == FindWhereId(tokens[1..])
    ensures forall i: nat :: AsksForId(tokens[1..], i) <==> AsksForId(tokens, i + 1)
    ensures forall i: nat :: AsksForId(tokens, i) ==> i > 0 && AsksForId(tokens[1..], i - 1)
  {
    hide Unquote, UpperAscii, LowerAscii;
    forall i: nat ensures AsksForId(tokens[1..], i) <==> AsksForId(tokens, i + 1) {}
    forall i: nat | AsksForId(tokens, i) ensures i > 0 && AsksForId(tokens[1..], i - 1) {}
  }

  /** WHERE and id are found in any letter case, after any tokens that are no WHERE. */
  lemma CaseDoesNotMatter(before: seq<string>, w: string, i: string, value: string, after: seq<string>)
    requires UpperAscii(w) == "WHERE" && LowerAscii(i) == "id" && forall t :: t in before ==> UpperAscii(t) != "WHERE"
    ensures FindWhereId(before + ([w, i, "=", value] + after)) ==
      match Unquote(value) case Some(id) => Found(id) case None => BadSlice
  {
    if before == [] {
      assert before + ([w, i, "=", value] + after) == [w, i, "=", value] + after;
      assert ([w, i, "=", value] + after)[..4] == [w, i, "=", value];
    } else {
      var tokens := before + ([w, i, "=", value] + after);
      assert tokens[0] == before[0] && before[0] in before;
      assert tokens[1..] == before[1..] + ([w, i, "=", value] + after);
      CaseDoesNotMatter(before[1..], w, i, value, after);
    }
  }

  lemma CasesOfWhere()
    ensures UpperAscii("where") == UpperAscii("Where") == "WHERE" && LowerAscii("ID") == LowerAscii("Id") == "id"
  {
  }
}
