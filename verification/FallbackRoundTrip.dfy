/** Parsing a printed query gives the query back, except when its WHERE clause runs into GROUP BY,
HAVING or ORDER BY. */
module FallbackRoundTrip {
  import opened Wrappers
  import opened QueryText
  import opened FallbackParser
  import opened FallbackPrinter

  // ----- What each clause is followed by

  function LimitLead(q: Query): Option<string> {
    if q.limit.Some? then Some("LIMIT") else if q.offset.Some? then Some("OFFSET") else None
  }

  function OrderLead(q: Query): Option<string> {
    if q.orderBy.Some? then Some("ORDER") else LimitLead(q)
  }

  function ProofLead(q: Query): Option<string> {
    if q.proof != [] then Some("PROOF") else OrderLead(q)
  }

  function HavingLead(q: Query): Option<string> {
    if q.having.Some? then Some("HAVING") else ProofLead(q)
  }

  function GroupLead(q: Query): Option<string> {
    if q.groupBy.Some? then Some("GROUP") else HavingLead(q)
  }

  function WhereLead(q: Query): Option<string> {
    if q.filter.Some? then Some("WHERE") else GroupLead(q)
  }

  lemma StartsWithKeyword(c: Casing, kw: Spelling, k: string, tokens: Tokens, tail: Tokens)
    requires Spells(c, kw) && IsKeyword(k) && tokens != [] && tokens[0] == kw.word(k)
    ensures Lead(c, tokens + tail) == Some(k)
  {
  }

  lemma EmptyPrefix(tokens: Tokens, tail: Tokens)
    requires tokens == []
    ensures tokens + tail == tail
  {
  }

  lemma LimitLeads(c: Casing, kw: Spelling, q: Query)
    requires Spells(c, kw) && q.limit != Some(NaN) && q.offset != Some(NaN)
    ensures Lead(c, FromLimit(kw, q)) == LimitLead(q)
  {
    var limit, offset := NumberTokens(kw, "LIMIT", q.limit), NumberTokens(kw, "OFFSET", q.offset);
    if q.limit.Some? {
      StartsWithKeyword(c, kw, "LIMIT", limit, offset);
    } else {
      EmptyPrefix(limit, offset);
      if q.offset.Some? {
        StartsWithKeyword(c, kw, "OFFSET", offset, []);
        assert offset + [] == offset;
      }
    }
  }

  lemma OrderLeads(c: Casing, kw: Spelling, q: Query)
    requires Spells(c, kw) && q.limit != Some(NaN) && q.offset != Some(NaN)
    ensures Lead(c, FromOrder(kw, q)) == OrderLead(q)
  {
    LimitLeads(c, kw, q);
    if q.orderBy.Some? {
      StartsWithKeyword(c, kw, "ORDER", OrderTokens(kw, q.orderBy), FromLimit(kw, q));
    } else {
      EmptyPrefix(OrderTokens(kw, q.orderBy), FromLimit(kw, q));
    }
  }

  lemma ProofLeads(c: Casing, kw: Spelling, q: Query)
    requires Spells(c, kw) && q.limit != Some(NaN) && q.offset != Some(NaN)
    ensures Lead(c, FromProof(kw, q)) == ProofLead(q)
  {
    OrderLeads(c, kw, q);
    if q.proof != [] {
      StartsWithKeyword(c, kw, "PROOF", ProofTokens(kw, q.proof), FromOrder(kw, q));
    } else {
      EmptyPrefix(ProofTokens(kw, q.proof), FromOrder(kw, q));
    }
  }

  lemma HavingLeads(c: Casing, kw: Spelling, q: Query)
    requires Spells(c, kw) && q.limit != Some(NaN) && q.offset != Some(NaN)
    ensures Lead(c, FromHaving(kw, q)) == HavingLead(q)
  {
    ProofLeads(c, kw, q);
    if q.having.Some? {
      StartsWithKeyword(c, kw, "HAVING", RawTokens(kw, "HAVING", q.having), FromProof(kw, q));
    } else {
      EmptyPrefix(RawTokens(kw, "HAVING", q.having), FromProof(kw, q));
    }
  }

  lemma GroupLeads(c: Casing, kw: Spelling, q: Query)
    requires Spells(c, kw) && q.limit != Some(NaN) && q.offset != Some(NaN)
    ensures Lead(c, FromGroup(kw, q)) == GroupLead(q)
  {
    HavingLeads(c, kw, q);
    if q.groupBy.Some? {
      StartsWithKeyword(c, kw, "GROUP", GroupTokens(kw, q.groupBy), FromHaving(kw, q));
    } else {
      EmptyPrefix(GroupTokens(kw, q.groupBy), FromHaving(kw, q));
    }
  }

  lemma WhereLeads(c: Casing, kw: Spelling, q: Query)
    requires Spells(c, kw) && q.limit != Some(NaN) && q.offset != Some(NaN)
    ensures Lead(c, FromWhere(kw, q)) == WhereLead(q)
  {
    GroupLeads(c, kw, q);
    if q.filter.Some? {
      StartsWithKeyword(c, kw, "WHERE", RawTokens(kw, "WHERE", q.filter), FromGroup(kw, q));
    } else {
      EmptyPrefix(RawTokens(kw, "WHERE", q.filter), FromGroup(kw, q));
    }
  }

  lemma WhereEndsIff(c: Casing, kw: Spelling, q: Query)
    requires Spells(c, kw) && q.limit != Some(NaN) && q.offset != Some(NaN)
    ensures WhereEnds(q) <==> (q.filter.Some? ==> StopsAt(c, FromGroup(kw, q), AFTER_WHERE))
  {
    GroupLeads(c, kw, q);
    LeadDecides(c, FromGroup(kw, q), "", AFTER_WHERE);
  }

  // ----- Clause after clause

  lemma LimitReads(c: Casing, kw: Spelling, q: Query)
    requires Spells(c, kw) && q.limit != Some(NaN) && q.offset != Some(NaN)
    ensures var offset := NumberTokens(kw, "OFFSET", q.offset);
      && NumberClause(c, FromLimit(kw, q), "LIMIT") == (q.limit, offset)
      && NumberClause(c, offset, "OFFSET") == (q.offset, [])
  {
    var offset := NumberTokens(kw, "OFFSET", q.offset);
    NumberReads(c, kw, "OFFSET", q.offset, []);
    assert offset + [] == offset;
    if q.limit.None? {
      LimitLeads(c, kw, q);
      LeadDecides(c, FromLimit(kw, q), "LIMIT", {});
      EmptyPrefix(NumberTokens(kw, "LIMIT", q.limit), offset);
    }
    NumberReads(c, kw, "LIMIT", q.limit, offset);
  }

  lemma OrderClauseReads(c: Casing, kw: Spelling, q: Query)
    requires Standard(c) && Spells(c, kw) && Prints(c, q)
    ensures OrderClause(c, FromOrder(kw, q)) == Parsed(OrderByAsRead(kw, q.orderBy), FromLimit(kw, q))
  {
    LimitLeads(c, kw, q);
    LeadDecides(c, FromLimit(kw, q), "ORDER", AFTER_ORDER);
    OrderReads(c, kw, q.orderBy, FromLimit(kw, q));
  }

  lemma ProofClauseReads(c: Casing, kw: Spelling, q: Query)
    requires Spells(c, kw) && Prints(c, q)
    ensures ProofClause(c, FromProof(kw, q)) == (q.proof, FromOrder(kw, q))
  {
    OrderLeads(c, kw, q);
    LeadDecides(c, FromOrder(kw, q), "PROOF", AFTER_PROOF);
    ProofReads(c, kw, q.proof, FromOrder(kw, q));
  }

  lemma HavingClauseReads(c: Casing, kw: Spelling, q: Query)
    requires Spells(c, kw) && Prints(c, q)
    ensures RawClause(c, FromHaving(kw, q), "HAVING", AFTER_HAVING) == (q.having, FromProof(kw, q))
  {
    ProofLeads(c, kw, q);
    LeadDecides(c, FromProof(kw, q), "HAVING", AFTER_HAVING);
    RawReads(c, kw, "HAVING", q.having, AFTER_HAVING, FromProof(kw, q));
  }

  lemma GroupClauseReads(c: Casing, kw: Spelling, q: Query)
    requires Standard(c) && Spells(c, kw) && Prints(c, q)
    ensures GroupClause(c, FromGroup(kw, q)) == Parsed(q.groupBy, FromHaving(kw, q))
  {
    HavingLeads(c, kw, q);
    LeadDecides(c, FromHaving(kw, q), "GROUP", AFTER_GROUP);
    GroupReads(c, kw, q.groupBy, FromHaving(kw, q));
  }

  lemma WhereClauseReads(c: Casing, kw: Spelling, q: Query)
    requires Spells(c, kw) && Prints(c, q) && WhereEnds(q)
    ensures RawClause(c, FromWhere(kw, q), "WHERE", AFTER_WHERE) == (q.filter, FromGroup(kw, q))
  {
    GroupLeads(c, kw, q);
    LeadDecides(c, FromGroup(kw, q), "WHERE", AFTER_WHERE);
    WhereEndsIff(c, kw, q);
    RawReads(c, kw, "WHERE", q.filter, AFTER_WHERE, FromGroup(kw, q));
  }

  lemma ClausesRead(c: Casing, kw: Spelling, q: Query)
    requires Standard(c) && Spells(c, kw) && Prints(c, q) && WhereEnds(q)
    ensures Clauses(c, SelectedAsRead(kw, q.selected), q.source, FromWhere(kw, q)) == Parsed(AsRead(kw, q), [])
  {
    WhereClauseReads(c, kw, q);
    GroupClauseReads(c, kw, q);
    HavingClauseReads(c, kw, q);
    ProofClauseReads(c, kw, q);
    OrderClauseReads(c, kw, q);
    LimitReads(c, kw, q);
    hide RawClause, GroupClause, ProofClause, OrderClause, NumberClause, NumberTokens, Standard, Spells, Prints;
    hide FromWhere, FromGroup, FromHaving, FromProof, FromOrder, FromLimit, SelectedAsRead, OrderByAsRead;
  }

  /** What precedes the clauses is read back, whatever they are. */
  lemma FrontReads(c: Casing, kw: Spelling, q: Query)
    requires Standard(c) && Spells(c, kw) && Prints(c, q)
    ensures ParseTokens(c, Print(kw, q)) == Clauses(c, SelectedAsRead(kw, q.selected), q.source, FromWhere(kw, q))
  {
    hide RawClause, GroupClause, ProofClause, OrderClause, NumberClause, Clauses, SourceClause, Select, Spells,
        Standard, SelectionTokens, SourceTokens, SelectedAsRead, FromWhere, IsWord, StopsAt;
    var clauses := SourceTokens(kw, q.source) + FromWhere(kw, q);
    var fromOn := [kw.word("FROM")] + clauses;
    var listOn := SelectionTokens(kw, q.selected) + fromOn;
    assert Print(kw, q) == [kw.word("SELECT")] + listOn;
    ExpectReads(c, kw, "SELECT", listOn);
    KeywordLeads(c, kw, "FROM", clauses);
    SelectionReads(c, kw, q.selected, fromOn);
    ExpectReads(c, kw, "FROM", clauses);
    WhereLeads(c, kw, q);
    LeadDecides(c, FromWhere(kw, q), "WITH", {});
    SourceReads(c, kw, q.source, FromWhere(kw, q));
  }

  /** A printed query is read to the last token, and back but for some glued commas. */
  lemma PrintedTokensRead(c: Casing, kw: Spelling, q: Query)
    requires Standard(c) && Spells(c, kw) && Prints(c, q) && WhereEnds(q)
    ensures ParseTokens(c, Print(kw, q)) == Parsed(AsRead(kw, q), [])
  {
    FrontReads(c, kw, q);
    ClausesRead(c, kw, q);
  }

  // ----- The clause WHERE swallows

  lemma {:induction false} UntilTakesMore(c: Casing, words: Tokens, tail: Tokens, stops: set<string>)
    requires (forall w :: w in words ==> c.upper(w) !in stops) && !StopsAt(c, tail, stops)
    ensures words < Until(c, words + tail, stops)
  {
    if words == [] {
      assert words + tail == tail;
    } else {
      assert words[0] in words && (words + tail)[1..] == words[1..] + tail;
      UntilTakesMore(c, words[1..], tail, stops);
      assert words == [words[0]] + words[1..];
    }
  }

  lemma WhereIsKeyword()
    ensures IsKeyword("WHERE")
  {
  }

  /** Raw text that no stop word follows is read as a longer one. */
  lemma RawTakesMore(c: Casing, kw: Spelling, keyword: string, raw: string, stops: set<string>, tail: Tokens)
    requires Spells(c, kw) && IsKeyword(keyword) && RawPrints(c, Some(raw), stops)
    requires !StopsAt(c, tail, stops) && forall t :: t in tail ==> IsWord(t)
    ensures var r := RawClause(c, RawTokens(kw, keyword, Some(raw)) + tail, keyword, stops).0;
      r.Some? && |r.value| > |raw|
  {
    hide IsWord, IsKeyword, StopsAt, Spells, Join, Words, Until;
    var words := Words(raw);
    var taken := Until(c, words + tail, stops);
    UntilTakesMore(c, words, tail, stops);
    Associates([kw.word(keyword)], words, tail);
    KeywordLeads(c, kw, keyword, words + tail);
    PrefixOfRest(words, tail, taken);
    JoinGrows(words, taken[|words|..]);
  }

  lemma PrefixOfRest(words: Tokens, tail: Tokens, taken: Tokens)
    requires words < taken <= words + tail
    ensures taken == words + taken[|words|..] && taken[|words|..] != []
    ensures forall t :: t in taken[|words|..] ==> t in tail
  {
    forall i | |words| <= i < |taken| ensures taken[i] in tail {
      assert taken[i] == (words + tail)[i];
    }
  }

  /** A WHERE clause that does not end is read as a longer one: it takes in the keyword after it. */
  lemma WhereSwallows(c: Casing, kw: Spelling, q: Query)
    requires Spells(c, kw) && Prints(c, q) && !WhereEnds(q)
    requires forall t :: t in FromGroup(kw, q) ==> IsWord(t)
    ensures var r := RawClause(c, FromWhere(kw, q), "WHERE", AFTER_WHERE).0;
      r.Some? && |r.value| > |q.filter.value|
  {
    hide FromGroup, IsWord, IsKeyword, StopsAt, Spells, RawTokens, RawClause, RawPrints;
    WhereIsKeyword();
    WhereEndsIff(c, kw, q);
    RawTakesMore(c, kw, "WHERE", q.filter.value, AFTER_WHERE, FromGroup(kw, q));
  }

  /** The filter of a parsed query is what the WHERE clause read. */
  lemma FilterIsWhere(c: Casing, selected: Selected, source: Source, ts: Tokens)
    ensures var r := Clauses(c, selected, source, ts);
      r.Parsed? ==> r.value.filter == RawClause(c, ts, "WHERE", AFTER_WHERE).0
  {
    hide RawClause, GroupClause, ProofClause, OrderClause, NumberClause;
  }

  // ----- Every token is a word

  ghost predicate AreWords(ts: Tokens) {
    forall t :: t in ts ==> IsWord(t)
  }

  lemma CommaKeepsWord(t: string, comma: string)
    requires IsWord(t) && (comma == "" || comma == ",")
    ensures IsWord(t + comma)
  {
  }

  lemma LooseIsWords(kw: Spelling, p: Place, n: nat)
    ensures AreWords(Loose(kw, p, n))
  {
    assert IsWord(",");
  }

  lemma BareIsWord(c: Casing, m: string)
    requires Standard(c) && (m == "All" || IsTitle(m))
    ensures IsWord(BareToken(m))
  {
    if m != "All" {
      hide Standard, IsTitle;
      TitleFacts(c, m);
    }
  }

  lemma {:induction false} BareAreWords(c: Casing, kw: Spelling, modalities: seq<string>)
    requires Standard(c) && forall m :: m in modalities ==> m == "All" || IsTitle(m)
    ensures AreWords(BareTokens(kw, modalities))
    decreases |modalities|
  {
    hide IsTitle, Standard, IsWord, BareToken, Loose;
    if modalities != [] {
      var n := |modalities|;
      BareAreWords(c, kw, modalities[1..]);
      BareIsWord(c, modalities[0]);
      CommaKeepsWord(BareToken(modalities[0]), Glued(kw, Modalities, n));
      LooseIsWords(kw, Modalities, n);
    }
  }

  lemma {:induction false} FieldsAreWords(kw: Spelling, p: Place, fields: seq<FieldRef>)
    requires forall f :: f in fields ==> IsName(f.modality) && IsName(f.field)
    ensures AreWords(FieldTokens(kw, p, fields))
    decreases |fields|
  {
    hide IsName, FieldToken, IsWord, Loose;
    if fields != [] {
      var n := |fields|;
      assert fields[0] in fields;
      FieldTokenReads(fields[0]);
      CommaKeepsWord(FieldToken(fields[0]), Glued(kw, p, n));
      LooseIsWords(kw, p, n);
      FieldsAreWords(kw, p, fields[1..]);
    }
  }

  lemma AggregateHasFunc(modalities: seq<string>, a: Aggregate)
    requires AggregatePrints(modalities, a)
    ensures a.CountAll? || IsFunc(a.func)
  {
  }

  lemma AggregateIsWords(c: Casing, kw: Spelling, n: nat, modalities: seq<string>, a: Aggregate)
    requires Standard(c) && AggregatePrints(modalities, a)
    ensures AreWords(AggregateTokens(kw, a, n))
  {
    hide IsTitle, IsFunc, IsAggregate, Standard, IsSpace, AggregatePrints, StripCommas, StripParens, AggregateFunc,
        AggregateBody, AddAggregate;
    AggregateHasFunc(modalities, a);
    FuncReads(c, a);
    BodyReads(c, Selected(modalities, [], []), a, c.upper(AggregateFunc(a)), kw, n);
    InnerTakesComma(AggregateBody(a), Glued(kw, Aggregates, n), []);
  }

  lemma {:induction false} AggregatesAreWords(
    c: Casing, kw: Spelling, modalities: seq<string>, aggregates: seq<Aggregate>)
    requires Standard(c) && forall a :: a in aggregates ==> AggregatePrints(modalities, a)
    ensures AreWords(AllAggregateTokens(kw, aggregates))
    decreases |aggregates|
  {
    hide AggregatePrints, Standard, AggregateTokens, IsWord, Loose;
    if aggregates != [] {
      AggregateIsWords(c, kw, |aggregates|, modalities, aggregates[0]);
      LooseIsWords(kw, Aggregates, |aggregates|);
      AggregatesAreWords(c, kw, modalities, aggregates[1..]);
    }
  }

  lemma {:induction false} SpecsAreWords(c: Casing, kw: Spelling, specs: seq<ProofSpec>)
    requires Spells(c, kw) && forall spec :: spec in specs ==> SpecPrints(c, spec)
    ensures AreWords(SpecsTokens(kw, specs))
  {
    if specs != [] {
      assert SpecPrints(c, specs[0]);
      Parenthesized(specs[0].contract);
      SpecsAreWords(c, kw, specs[1..]);
    }
  }

  lemma ItemIsWords(c: Casing, kw: Spelling, item: OrderItem, n: nat)
    requires Spells(c, kw) && IsField(c, item.field)
    ensures AreWords(ItemTokens(kw, item, n))
  {
    hide IsWord, FieldToken, IsKeyword;
    FieldTokenReads(item.field);
    DirectionsAreKeywords();
    CommaKeepsWord(FieldToken(item.field), Glued(kw, Orders, n));
    CommaKeepsWord(kw.word(DirectionWord(item.direction)), Glued(kw, Orders, n));
  }

  lemma {:induction false} ItemsAreWords(c: Casing, kw: Spelling, items: seq<OrderItem>)
    requires Spells(c, kw) && forall item :: item in items ==> IsField(c, item.field)
    ensures AreWords(ItemsTokens(kw, items))
    decreases |items|
  {
    hide IsWord, Spells, IsField, ItemTokens, Loose;
    if items != [] {
      ItemIsWords(c, kw, items[0], |items|);
      LooseIsWords(kw, Orders, |items|);
      ItemsAreWords(c, kw, items[1..]);
    }
  }

  lemma AppendedAreWords(a: Tokens, b: Tokens)
    requires AreWords(a) && AreWords(b)
    ensures AreWords(a + b)
  {
    hide IsWord;
  }

  lemma KeywordsAreWords(c: Casing, kw: Spelling)
    requires Spells(c, kw)
    ensures forall k :: IsKeyword(k) ==> IsWord(kw.word(k))
  {
  }

  lemma RawIsWords(c: Casing, kw: Spelling, keyword: string, raw: Option<string>)
    requires Spells(c, kw) && IsKeyword(keyword)
    ensures AreWords(RawTokens(kw, keyword, raw))
  {
    hide IsKeyword;
  }

  lemma NumberIsWords(c: Casing, kw: Spelling, keyword: string, n: Option<Number>)
    requires Spells(c, kw) && IsKeyword(keyword)
    ensures AreWords(NumberTokens(kw, keyword, n))
  {
    hide IsKeyword;
  }

  lemma ClausesAreWords(c: Casing, kw: Spelling, q: Query)
    requires Spells(c, kw) && Prints(c, q)
    ensures AreWords(GroupTokens(kw, q.groupBy)) && AreWords(OrderTokens(kw, q.orderBy))
    ensures AreWords(ProofTokens(kw, q.proof))
  {
    KeywordsAreWords(c, kw);
    SpecsAreWords(c, kw, q.proof);
    if q.groupBy.Some? {
      FieldsAreWords(kw, Groups, q.groupBy.value);
    }
    if q.orderBy.Some? {
      ItemsAreWords(c, kw, q.orderBy.value);
    }
    hide IsWord, Prints, Spells;
  }

  lemma TailAreWords(c: Casing, kw: Spelling, q: Query)
    requires Spells(c, kw) && Prints(c, q)
    ensures AreWords(FromGroup(kw, q)) && AreWords(RawTokens(kw, "WHERE", q.filter))
  {
    hide AreWords, Spells, Prints, RawTokens, GroupTokens, ProofTokens, OrderTokens, NumberTokens;
    RawIsWords(c, kw, "WHERE", q.filter);
    RawIsWords(c, kw, "HAVING", q.having);
    NumberIsWords(c, kw, "LIMIT", q.limit);
    NumberIsWords(c, kw, "OFFSET", q.offset);
    ClausesAreWords(c, kw, q);
    AppendedAreWords(NumberTokens(kw, "LIMIT", q.limit), NumberTokens(kw, "OFFSET", q.offset));
    AppendedAreWords(OrderTokens(kw, q.orderBy), FromLimit(kw, q));
    AppendedAreWords(ProofTokens(kw, q.proof), FromOrder(kw, q));
    AppendedAreWords(RawTokens(kw, "HAVING", q.having), FromProof(kw, q));
    AppendedAreWords(GroupTokens(kw, q.groupBy), FromHaving(kw, q));
  }

  lemma SelectionIsWords(c: Casing, kw: Spelling, s: Selected)
    requires Standard(c) && SelectionPrints(s)
    ensures AreWords(SelectionTokens(kw, s))
  {
    hide Standard, AreWords, IsTitle, AggregatePrints, IsName;
    BareAreWords(c, kw, s.modalities);
    forall p | p in s.projections ensures IsName(p.modality) && IsName(p.field) {
      TitleFacts(c, p.modality);
    }
    var bare, fields := BareTokens(kw, s.modalities), FieldTokens(kw, Projections, s.projections);
    FieldsAreWords(kw, Projections, s.projections);
    AggregatesAreWords(c, kw, s.modalities, s.aggregates);
    AppendedAreWords(bare, fields);
    AppendedAreWords(bare + fields, AllAggregateTokens(kw, s.aggregates));
  }

  lemma SourceIsWords(c: Casing, kw: Spelling, s: Source)
    requires Spells(c, kw) && SourcePrints(c, s)
    ensures AreWords(SourceTokens(kw, s))
  {
    KeywordsAreWords(c, kw);
    hide IsWord, Spells;
  }

  lemma PrintIsWords(c: Casing, kw: Spelling, q: Query)
    requires Standard(c) && Spells(c, kw) && Prints(c, q)
    ensures AreWords(Print(kw, q))
  {
    hide AreWords, SelectionTokens, SourceTokens, FromGroup, RawTokens, Standard;
    var select, from := [kw.word("SELECT")], [kw.word("FROM")];
    assert AreWords(select) && AreWords(from) by {
      KeywordIsWord(c, kw, "SELECT");
      KeywordIsWord(c, kw, "FROM");
    }
    SelectionIsWords(c, kw, q.selected);
    var list := SelectionTokens(kw, q.selected);
    SourceIsWords(c, kw, q.source);
    TailAreWords(c, kw, q);
    AppendedAreWords(select, list);
    AppendedAreWords(select + list, from);
    AppendedAreWords(select + list + from, SourceTokens(kw, q.source));
    AppendedAreWords(RawTokens(kw, "WHERE", q.filter), FromGroup(kw, q));
    AppendedAreWords(select + list + from + SourceTokens(kw, q.source), FromWhere(kw, q));
  }

  lemma KeywordIsWord(c: Casing, kw: Spelling, k: string)
    requires Spells(c, kw) && IsKeyword(k)
    ensures AreWords([kw.word(k)])
  {
    hide IsKeyword;
  }

  // ----- The round trip

  /** What the parser makes of the text of a query whose WHERE clause ends. */
  lemma TextIsReadAs(c: Casing, kw: Spelling, q: Query)
    requires Standard(c) && Spells(c, kw) && Prints(c, q) && WhereEnds(q)
    ensures ParseText(c, Text(kw, q)) == Ok(AsRead(kw, q))
  {
    PrintIsWords(c, kw, q);
    WordsOfJoin(Print(kw, q));
    PrintedTokensRead(c, kw, q);
  }

  /** A query that can be written with single spaces, with or without commas, is read back from its
      text exactly when its WHERE clause, if any, is not followed directly by GROUP BY, HAVING or
      ORDER BY, and no comma is glued to an aggregate or to DESC. */
  lemma RoundTripIff(c: Casing, kw: Spelling, q: Query)
    requires Standard(c) && Spells(c, kw) && Prints(c, q)
    ensures ParseText(c, Text(kw, q)) == Ok(q) <==> WhereEnds(q) && CommasFit(kw, q)
  {
    if WhereEnds(q) {
      TextIsReadAs(c, kw, q);
      AsReadIff(kw, q);
    } else {
      PrintIsWords(c, kw, q);
      WordsOfJoin(Print(kw, q));
      assert Words(Text(kw, q)) == Print(kw, q);
      FrontReads(c, kw, q);
      TailAreWords(c, kw, q);
      WhereSwallows(c, kw, q);
      FilterIsWhere(c, SelectedAsRead(kw, q.selected), q.source, FromWhere(kw, q));
    }
  }

  // ----- Queries that are not read back

  /** Keywords in capitals, no commas, and every direction written. */
  const PLAIN := Spelling(k => k, (p, n) => false, (p, n) => false, n => false)

  /** The same with a comma after every item but the last of each list. */
  const COMMAS := Spelling(k => k, (p, n) => n > 1, (p, n) => false, n => false)

  /** SELECT * FROM HEXAD x WHERE a GROUP BY Graph.name */
  function Grouped(): Query {
    Query(Selected(["All"], [], []), Hexad(Some("x")), Some("a"), Some([FieldRef("Graph", "name")]), None, [], None,
      None, None)
  }

  lemma OneLetterWord(w: string)
    requires |w| == 1 && 'a' <= w[0] <= 'z'
    ensures IsWord(w) && Words(w) == [w] && Join(Words(w)) == w
  {
    assert Join([w]) == w;
    assert IsWord(w);
    WordsOfJoin([w]);
  }

  lemma CapitalsSpellThemselves(c: Casing)
    requires Standard(c)
    ensures Spells(c, PLAIN)
  {
    forall k | IsKeyword(k) ensures IsWord(k) && c.upper(k) == k {
      KeywordIsCapitals(k);
      CapitalsStay(k);
    }
  }

  lemma KeywordIsCapitals(k: string)
    requires IsKeyword(k)
    ensures k != "" && forall i :: 0 <= i < |k| ==> 'A' <= k[i] <= 'Z'
  {
  }

  lemma GroupedFilterPrints(c: Casing)
    requires Standard(c)
    ensures RawPrints(c, Some("a"), AFTER_WHERE)
  {
    OneLetterWord("a");
    SmallFacts(c, "a");
    assert |c.upper("a")| == 1;
  }

  lemma GroupedPrints(c: Casing)
    requires Standard(c)
    ensures Prints(c, Grouped()) && !WhereEnds(Grouped())
  {
    hide Standard, RawPrints;
    GroupedFilterPrints(c);
    OneLetterWord("x");
    TitleFacts(c, "Graph");
    SmallFacts(c, "name");
    assert RawPrints(c, None, AFTER_HAVING) by { NoRawPrints(c); }
    assert IsField(c, FieldRef("Graph", "name"));
  }

  lemma NoRawPrints(c: Casing)
    ensures RawPrints(c, None, AFTER_HAVING)
  {
  }

  /** This query can be written with single spaces, and is not read back. */
  lemma GroupedIsNotReadBack(c: Casing)
    requires Standard(c)
    ensures Prints(c, Grouped()) && !WhereEnds(Grouped()) && ParseText(c, Text(PLAIN, Grouped())) != Ok(Grouped())
  {
    hide Prints, WhereEnds, ParseText, Text, Spells, Standard, Grouped;
    GroupedPrints(c);
    CapitalsSpellThemselves(c);
    RoundTripIff(c, PLAIN, Grouped());
  }

  lemma PrintOfGrouped()
    ensures Print(PLAIN, Grouped()) == ["SELECT", "*", "FROM", "HEXAD", "x", "WHERE", "a", "GROUP", "BY", "Graph.name"]
  {
    OneLetterWord("a");
    OneOfEach();
    assert FieldTokens(PLAIN, Projections, []) == [] && AllAggregateTokens(PLAIN, []) == [];
    hide BareTokens, FieldTokens, AllAggregateTokens, Words;
    assert SelectionTokens(PLAIN, Grouped().selected) == ["*"];
    assert SourceTokens(PLAIN, Grouped().source) == ["HEXAD", "x"];
    assert FromLimit(PLAIN, Grouped()) == [];
    assert FromHaving(PLAIN, Grouped()) == [];
    assert FromWhere(PLAIN, Grouped()) == ["WHERE", "a"] + (["GROUP", "BY"] + ["Graph.name"]);
  }

  lemma OneOfEach()
    ensures BareTokens(PLAIN, ["All"]) == ["*"]
    ensures FieldTokens(PLAIN, Groups, [FieldRef("Graph", "name")]) == ["Graph.name"]
  {
    assert BareToken("All") + "" == "*";
    assert ["All"][1..] == [] && BareTokens(PLAIN, []) == [];
    assert FieldToken(FieldRef("Graph", "name")) + "" == "Graph.name";
    assert [FieldRef("Graph", "name")][1..] == [] && FieldTokens(PLAIN, Groups, []) == [];
  }

  /** SELECT Graph, Vector FROM HEXAD x ORDER BY Graph.name DESC, Graph.age ASC, when commas separate items */
  function Sorted(first: Direction): Query {
    Query(Selected(["Graph", "Vector"], [], []), Hexad(Some("x")), None, None, None, [],
      Some([OrderItem(FieldRef("Graph", "name"), first), OrderItem(FieldRef("Graph", "age"), Asc)]), None, None)
  }

  /** SELECT Graph COUNT (*), SUM (Graph.age) FROM HEXAD x, when commas separate items */
  function Counted(): Query {
    Query(Selected(["Graph"], [], [CountAll, AggregateField("Sum", FieldRef("Graph", "age"))]), Hexad(Some("x")),
      None, None, None, [], None, None, None)
  }

  lemma SortedPrints(c: Casing, first: Direction)
    requires Standard(c)
    ensures Prints(c, Sorted(first)) && WhereEnds(Sorted(first))
  {
    hide Standard, IsField, IsWord, IsTitle;
    OneLetterWord("x");
    GraphFieldPrints(c, "name");
    GraphFieldPrints(c, "age");
    TitlesOfSorted();
  }

  lemma GraphFieldPrints(c: Casing, field: string)
    requires Standard(c) && field != "" && forall i :: 0 <= i < |field| ==> 'a' <= field[i] <= 'z'
    ensures IsField(c, FieldRef("Graph", field))
  {
    hide Standard, IsSpace;
    TitleFacts(c, "Graph");
    SmallFacts(c, field);
  }

  lemma TitlesOfSorted()
    ensures IsTitle("Graph") && IsTitle("Vector")
  {
  }

  lemma TwoItemsAsRead(kw: Spelling, a: OrderItem, b: OrderItem)
    ensures ItemsAsRead(kw, [a, b]) == [ItemAsRead(kw, a, 2), ItemAsRead(kw, b, 1)]
  {
    assert [a, b][1..] == [b] && [b][1..] == [];
    assert ItemsAsRead(kw, [b]) == [ItemAsRead(kw, b, 1)] + ItemsAsRead(kw, []);
  }

  lemma SortedAsRead(first: Direction)
    ensures AsRead(COMMAS, Sorted(first)) == Sorted(Asc)
    ensures CommasFit(COMMAS, Sorted(first)) <==> first == Asc
  {
    var items := Sorted(first).orderBy.value;
    TwoItemsAsRead(COMMAS, items[0], items[1]);
    AsReadIff(COMMAS, Sorted(first));
    hide CommasFit, ItemsAsRead;
    assert AsRead(COMMAS, Sorted(first)) == Sorted(Asc);
    assert Sorted(first) == Sorted(Asc) <==> first == Asc by {
      assert items[0].direction == first && Sorted(Asc).orderBy.value[0].direction == Asc;
    }
  }

  lemma CountedPrints(c: Casing)
    requires Standard(c)
    ensures Prints(c, Counted()) && WhereEnds(Counted()) && !CommasFit(COMMAS, Counted())
  {
    hide Standard;
    OneLetterWord("x");
    SmallFacts(c, "age");
    assert COMMAS.glued(Aggregates, 2);
  }

  /** Commas between modalities and after ASC do no harm; a comma after DESC loses the direction, and
      one after an aggregate the aggregate. */
  lemma CommasAreReadOrLost(c: Casing)
    requires Standard(c)
    ensures ParseText(c, Text(COMMAS, Sorted(Asc))) == Ok(Sorted(Asc))
    ensures ParseText(c, Text(COMMAS, Sorted(Desc))) == Ok(Sorted(Asc))
    ensures ParseText(c, Text(COMMAS, Counted())) != Ok(Counted())
  {
    hide Prints, WhereEnds, ParseText, Text, Spells, Standard, Sorted, Counted, CommasFit;
    CapitalsSpell(c);
    SortedPrints(c, Asc);
    SortedPrints(c, Desc);
    CountedPrints(c);
    RoundTripIff(c, COMMAS, Sorted(Asc));
    RoundTripIff(c, COMMAS, Counted());
    TextIsReadAs(c, COMMAS, Sorted(Desc));
    SortedAsRead(Asc);
    SortedAsRead(Desc);
  }

  lemma PrintOfSorted()
    ensures Print(COMMAS, Sorted(Desc)) ==
      ["SELECT", "Graph,", "Vector", "FROM", "HEXAD", "x", "ORDER", "BY", "Graph.name", "DESC,", "Graph.age", "ASC"]
  {
    SortedLists();
    hide BareTokens, ItemsTokens;
    assert FieldTokens(COMMAS, Projections, []) == [] && AllAggregateTokens(COMMAS, []) == [];
    assert SelectionTokens(COMMAS, Sorted(Desc).selected) == ["Graph,", "Vector"];
    assert SourceTokens(COMMAS, Sorted(Desc).source) == ["HEXAD", "x"];
    assert FromLimit(COMMAS, Sorted(Desc)) == [];
    assert FromOrder(COMMAS, Sorted(Desc)) == ["ORDER", "BY", "Graph.name", "DESC,", "Graph.age", "ASC"];
    assert FromWhere(COMMAS, Sorted(Desc)) == FromOrder(COMMAS, Sorted(Desc));
  }

  lemma SortedLists()
    ensures BareTokens(COMMAS, ["Graph", "Vector"]) == ["Graph,", "Vector"]
    ensures ItemsTokens(COMMAS, Sorted(Desc).orderBy.value) == ["Graph.name", "DESC,", "Graph.age", "ASC"]
  {
    assert ["Graph", "Vector"][1..] == ["Vector"] && ["Vector"][1..] == [];
    assert "Graph" + "," == "Graph," && "Vector" + "" == "Vector";
    assert BareTokens(COMMAS, ["Vector"]) == ["Vector"];
    var items := Sorted(Desc).orderBy.value;
    assert items[1..] == [items[1]] && items[1..][1..] == [];
    assert "DESC" + "," == "DESC," && "ASC" + "" == "ASC";
    assert FieldToken(items[0].field) == "Graph.name" && FieldToken(items[1].field) == "Graph.age";
    assert ItemTokens(COMMAS, items[1], 1) == ["Graph.age", "ASC"];
    assert ItemTokens(COMMAS, items[0], 2) == ["Graph.name", "DESC,"];
    assert ItemsTokens(COMMAS, []) == [];
    assert ItemsTokens(COMMAS, [items[1]]) == ["Graph.age", "ASC"] + ([] + []);
  }

  lemma CapitalsSpell(c: Casing)
    requires Standard(c)
    ensures Spells(c, COMMAS)
  {
    hide Standard;
    CapitalsSpellThemselves(c);
  }

  // ----- The selection list of any input

  ghost predicate ModalitiesCover(s: Selected) {
    && (forall p :: p in s.projections ==> p.modality in s.modalities)
    && (forall a :: a in s.aggregates && a.AggregateField? ==> a.target.modality in s.modalities)
  }

  /** Whatever the tokens, the modalities listed include those of all projections and aggregates. */
  lemma {:induction false} SelectionIsCovered(c: Casing, acc: Selected, ts: Tokens)
    requires ModalitiesCover(acc)
    ensures ModalitiesCover(Select(c, acc, ts).0)
    decreases |ts|
  {
    if !StopsAt(c, ts, {"FROM"}) {
      SelectOneIsCovered(c, acc, ts);
      SelectionIsCovered(c, SelectOne(c, acc, ts).0, SelectOne(c, acc, ts).1);
    }
  }

  lemma SelectOneIsCovered(c: Casing, acc: Selected, ts: Tokens)
    requires ModalitiesCover(acc) && ts != []
    ensures ModalitiesCover(SelectOne(c, acc, ts).0)
  {
    hide StripCommas, StripParens, UpToDot, AfterDot, IsAggregate, IsModality, Title, OpensParen;
  }

  lemma {:induction false} UpToDotKeeps(s: string, t: string)
    requires '.' !in s
    ensures UpToDot(s + t) == s + UpToDot(t)
  {
    if s == "" {
      assert s + t == t;
    } else {
      assert (s + t)[0] == s[0] && s[0] in s && (s + t)[1..] == s[1..] + t;
      UpToDotKeeps(s[1..], t);
    }
  }

  /** An aggregate written without a space, as in COUNT(*), selects nothing: its token is
      skipped. */
  lemma GluedAggregateIsLost(c: Casing, acc: Selected, func: string, body: string, tail: Tokens)
    requires Standard(c) && IsName(func)
    ensures Select(c, acc, [func + "(" + body + ")"] + tail) == Select(c, acc, tail)
  {
    var written, ts := func + "(" + body + ")", [func + "(" + body + ")"] + tail;
    var rest := "(" + body + ")";
    assert written == func + rest;
    var tok := StripCommas(written);
    WithoutConcat(func, rest, {','});
    NameKeepsCommas(func);
    UpToDotKeeps(func, StripCommas(rest));
    StripStartsWith(rest);
    hide StripCommas, Without, IsSpace;
    assert '(' in written && '(' in tok && '(' in UpToDot(tok);
    ParenIsNoKeyword(c, written);
    ParenIsNoKeyword(c, tok);
    ParenIsNoKeyword(c, UpToDot(tok));
    assert ts[1..] == tail;
    hide IsAggregate, IsModality, UpToDot, Standard;
    SelectStep(c, acc, ts);
  }

  lemma StripStartsWith(s: string)
    requires s != "" && s[0] == '('
    ensures '(' in StripCommas(s) && '(' in UpToDot(StripCommas(s))
  {
    assert StripCommas(s) == ['('] + StripCommas(s[1..]);
  }

  lemma ParenIsNoKeyword(c: Casing, s: string)
    requires Standard(c) && '(' in s
    ensures !IsAggregate(c.upper(s)) && !IsModality(c.upper(s)) && c.upper(s) != "FROM" && c.upper(s) != "*"
  {
    var u := c.upper(s);
    assert '(' in u;
    NoParenIn(u);
  }

  lemma NoParenIn(u: string)
    requires '(' in u
    ensures !IsAggregate(u) && !IsModality(u) && u != "FROM" && u != "*"
  {
  }

  // ----- The letter case of an aggregate's modality

  lemma BodyModality(c: Casing, acc: Selected, func: string, f: FieldRef)
    requires IsName(f.modality) && IsName(f.field)
    ensures AddAggregate(c, acc, func, FieldToken(f)).modalities ==
      AddOnce(acc.modalities, AggregateModality(c, f.modality))
    ensures FieldToken(f) != "" && forall ch :: ch in FieldToken(f) ==> !IsSpace(ch) && ch !in {'(', ')'}
  {
    FieldTokenReads(f);
    assert '.' in FieldToken(f) && |FieldToken(f)| >= 1;
    assert FieldToken(f) != "*";
  }

  /** An aggregate over any field names its modality as written, up to the letters after the first. */
  lemma AggregateNamesModality(c: Casing, acc: Selected, func: string, f: FieldRef, tail: Tokens)
    requires IsName(func) && IsAggregate(c.upper(func)) && IsName(f.modality) && IsName(f.field) && NoParenAhead(tail)
    ensures
      var ts := [func, "(" + FieldToken(f) + ")"] + tail;
      SelectOne(c, acc, ts).0.modalities == AddOnce(acc.modalities, AggregateModality(c, f.modality))
  {
    hide IsAggregate, IsName, IsSpace, StripCommas, AggregateInner, AddAggregate, OpensParen, FieldToken,
        AggregateModality;
    var rest := ["(" + FieldToken(f) + ")"] + tail;
    NameKeepsCommas(func);
    BodyModality(c, acc, c.upper(func), f);
    InnerReads(FieldToken(f), tail);
    assert [func, "(" + FieldToken(f) + ")"] + tail == [func] + rest;
    OneToken(func, rest);
  }

  /** A projection of any field names its modality by its title. */
  lemma ProjectionNamesModality(c: Casing, acc: Selected, f: FieldRef, tail: Tokens)
    requires Standard(c) && IsName(f.modality) && IsName(f.field) && IsModality(c.upper(f.modality))
    ensures SelectOne(c, acc, [FieldToken(f)] + tail).0.modalities == AddOnce(acc.modalities, Title(c, f.modality))
  {
    hide IsName, IsSpace, StripCommas, FieldToken, IsModality, IsAggregate, IsKeyword, Standard, Title;
    FieldTokenReads(f);
    DotIsNoKeyword(c, FieldToken(f));
    OneToken(FieldToken(f), tail);
  }

  lemma SmallFacts(c: Casing, s: string)
    requires Standard(c) && s != "" && forall i :: 0 <= i < |s| ==> 'a' <= s[i] <= 'z'
    ensures IsName(s) && c.lower(s) == s && c.upper(s) == UpperAscii(s)
  {
    SmallIsName(s);
    LowerOfSmall(s);
    hide UpperAscii, LowerAscii, IsName, IsAscii;
  }

  lemma SmallIsName(s: string)
    requires forall i :: 0 <= i < |s| ==> 'a' <= s[i] <= 'z'
    ensures IsName(s) && IsAscii(s)
  {
    forall ch | ch in s ensures 'a' <= ch <= 'z' {
      var i :| 0 <= i < |s| && s[i] == ch;
    }
  }

  lemma GraphCase(c: Casing)
    requires Standard(c)
    ensures IsName("graph") && AggregateModality(c, "graph") == "graph" && Title(c, "graph") == "Graph"
  {
    hide Standard, IsName, UpperAscii;
    SmallFacts(c, "graph");
    SmallFacts(c, "g");
    SmallFacts(c, "raph");
    UpperIs("g", "G");
    assert "graph"[..1] == "g" && "graph"[1..] == "raph";
    assert "g" + "raph" == "graph" && "G" + "raph" == "Graph";
  }

  lemma GraphIsModality(c: Casing)
    requires Standard(c)
    ensures IsModality(c.upper("graph"))
  {
    hide Standard, IsName, UpperAscii;
    SmallFacts(c, "graph");
    UpperIs("graph", "GRAPH");
  }

  lemma CountIsAggregate(c: Casing)
    requires Standard(c)
    ensures IsName("count") && IsAggregate(c.upper("count"))
  {
    hide Standard, IsName, UpperAscii;
    SmallFacts(c, "count");
    UpperIs("count", "COUNT");
  }

  /** In lower case count (graph.x) selects the modality graph, where graph.x selects Graph. */
  lemma LowerCaseAggregate(c: Casing, x: string, tail: Tokens)
    requires Standard(c) && IsName(x) && NoParenAhead(tail)
    ensures
      var f, none := FieldToken(FieldRef("graph", x)), Selected([], [], []);
      && SelectOne(c, none, ["count", "(" + f + ")"] + tail).0.modalities == ["graph"]
      && SelectOne(c, none, [f] + tail).0.modalities == ["Graph"]
  {
    hide SelectOne, Standard, IsName, IsAggregate, IsModality, FieldToken, AggregateModality, Title;
    CountIsAggregate(c);
    GraphCase(c);
    GraphIsModality(c);
    AggregateNamesModality(c, Selected([], [], []), "count", FieldRef("graph", x), tail);
    ProjectionNamesModality(c, Selected([], [], []), FieldRef("graph", x), tail);
  }

  // ----- Parentheses as tokens of their own

  /** COUNT ( * ) and FUNC ( Graph.x ) are read like COUNT (*) and FUNC (Graph.x). */
  lemma SpacedParensRead(c: Casing, acc: Selected, a: Aggregate, tail: Tokens)
    requires Standard(c) && AggregatePrints(acc.modalities, a)
    ensures
      SelectOne(c, acc, [AggregateFunc(a), "(", AggregateBody(a), ")"] + tail) ==
      (acc.(aggregates := acc.aggregates + [a]), tail)
  {
    hide StripCommas, IsAggregate, IsFunc, IsTitle, IsSpace, AddAggregate, FieldToken, Standard, AggregateFunc,
        AggregateBody, StripParens, AggregatePrints;
    var f, body := AggregateFunc(a), AggregateBody(a);
    AggregateHasFunc(acc.modalities, a);
    FuncReads(c, a);
    BodyReads(c, acc, a, c.upper(f), PLAIN, 1);
    assert body + "" == body && Glued(PLAIN, Aggregates, 1) == "";
    LoneParens(body);
    var rest := ["(", body, ")"] + tail;
    assert [f, "(", body, ")"] + tail == [f] + rest;
    OneToken(f, rest);
    assert rest[1..] == [body, ")"] + tail && rest[2..] == [")"] + tail && rest[3..] == tail;
    SpacedInner(body, tail);
  }

  lemma LoneParens(body: string)
    requires forall ch :: ch in body ==> ch !in {'(', ')'}
    ensures StripParens("(") == "" && StripParens(body) == body
  {
    WithoutNone(body, {'(', ')'});
  }

  lemma SpacedInner(body: string, tail: Tokens)
    requires body != "" && StripParens("(") == "" && StripParens(body) == body
    ensures var ts := ["(", body, ")"] + tail;
      OpensParen(ts) && AggregateInner(ts) == (body, tail)
  {
    hide StripParens;
    var ts := ["(", body, ")"] + tail;
    assert ts[1..] == [body, ")"] + tail && ts[1..][1..] == [")"] + tail && ts[1..][1..][1..] == tail;
  }

  // ----- What is refused, and incomplete numbers

  /** A query that does not start with SELECT is refused, naming what stands there. */
  lemma SelectIsExpected(c: Casing, ts: Tokens)
    requires ts == [] || c.upper(ts[0]) != "SELECT"
    ensures ParseTokens(c, ts) == Failed(Expected("SELECT", if ts == [] then None else Some(ts[0])))
  {
  }

  /** A source is refused exactly if it is of no known kind, or if WITH is not followed by DRIFT. */
  lemma SourceFailsIff(c: Casing, kind: string, rest: Tokens)
    ensures
      var k, r := c.upper(kind), SourceClause(c, [kind] + rest);
      && (r == Failed(UnknownSource(Some(k))) <==> k != "HEXAD" && k != "FEDERATION" && k != "STORE")
      && (r.Failed? && r.error.Expected? <==>
            k == "FEDERATION" && |rest| > 1 && c.upper(rest[1]) == "WITH"
            && (|rest| == 2 || c.upper(rest[2]) != "DRIFT"))
  {
    OneToken(kind, rest);
  }

  /** LIMIT without a number after it gives no number. */
  lemma NothingIsNoNumber(c: Casing, kw: Spelling, keyword: string)
    requires Spells(c, kw) && IsKeyword(keyword)
    ensures NumberClause(c, [kw.word(keyword)], keyword) == (Some(NaN), [])
  {
    KeywordLeads(c, kw, keyword, []);
    assert [kw.word(keyword)] + [] == [kw.word(keyword)];
  }

  // ----- Letter case and stop words

  /** A drift policy is read in upper case. */
  lemma PolicyIsUpper(c: Casing, kw: Spelling, pattern: string, drift: string, tail: Tokens)
    requires Spells(c, kw)
    ensures
      SourceClause(c, [kw.word("FEDERATION"), pattern, kw.word("WITH"), kw.word("DRIFT"), drift] + tail) ==
      Parsed(Federation(Some(pattern), Some(c.upper(drift))), tail)
  {
    SourceKeywords();
    hide IsKeyword, Spells;
    var rest := [kw.word("WITH")] + ([kw.word("DRIFT")] + ([drift] + tail));
    assert [kw.word("FEDERATION"), pattern, kw.word("WITH"), kw.word("DRIFT"), drift] + tail ==
      [kw.word("FEDERATION"), pattern] + rest;
    IdReads(c, kw, "FEDERATION", pattern, rest);
    KeywordLeads(c, kw, "WITH", [kw.word("DRIFT")] + ([drift] + tail));
    ExpectReads(c, kw, "DRIFT", [drift] + tail);
    OneToken(drift, tail);
  }

  /** GROUP BY and ORDER BY capitalize modalities: graph.x is over Graph. */
  lemma ClausesCapitalize(c: Casing, x: string, tail: Tokens)
    requires Standard(c) && IsName(x) && NoDirectionAhead(c, tail)
    ensures
      var f := FieldToken(FieldRef("graph", x));
      && FieldRefs(c, [f]) == [FieldRef("Graph", x)]
      && OneOrder(c, [f] + tail) == ([OrderItem(FieldRef("Graph", x), Asc)], tail)
  {
    hide Standard, IsName, FieldToken, StripCommas, Title;
    GraphCase(c);
    FieldTokenReads(FieldRef("graph", x));
    FieldRefsOne(c, FieldToken(FieldRef("graph", x)));
    OneToken(FieldToken(FieldRef("graph", x)), tail);
  }

  /** The words at which each clause stops. */
  lemma StopWords(w: string)
    ensures w in AFTER_WHERE <==> w == "PROOF" || w == "LIMIT" || w == "OFFSET"
    ensures w in AFTER_GROUP <==> w == "HAVING" || w == "ORDER" || w in AFTER_WHERE
    ensures w in AFTER_HAVING <==> w == "ORDER" || w in AFTER_WHERE
    ensures w in AFTER_PROOF <==> w == "ORDER" || w == "LIMIT" || w == "OFFSET"
    ensures w in AFTER_ORDER <==> w == "LIMIT" || w == "OFFSET"
  {
  }

  // ----- What is dropped, and where a clause is refused

  /** A token without a dot is no grouping field and no ordering. */
  lemma DotlessIsDropped(c: Casing, tok: string, ts: Tokens)
    requires '.' !in tok
    ensures FieldRefs(c, ts + [tok]) == FieldRefs(c, ts) && OneOrder(c, [tok] + ts) == ([], ts)
  {
    WithoutIsPart(tok, {','});
    assert (ts + [tok])[..|ts|] == ts;
    OneToken(tok, ts);
  }

  /** The selection skips every token that names no aggregate, no modality and no field of one. */
  lemma OthersAreSkipped(c: Casing, acc: Selected, tok: string, tail: Tokens)
    requires Standard(c)
    requires
      var bare := StripCommas(tok);
      if '.' in bare then !IsModality(c.upper(UpToDot(bare)))
      else !IsAggregate(c.upper(bare)) && !IsModality(c.upper(bare)) && c.upper(bare) != "*"
    ensures SelectOne(c, acc, [tok] + tail) == (acc, tail)
  {
    hide IsModality, IsAggregate, IsKeyword, StripCommas, Standard;
    OneToken(tok, tail);
    if '.' in StripCommas(tok) {
      DotIsNoKeyword(c, StripCommas(tok));
    }
  }

  /** A name is added at the end, and only if it is not there. */
  lemma NameIsAddedOnce(names: seq<string>, name: string)
    ensures var r := AddOnce(names, name);
      names <= r && (forall x :: x in r <==> x in names || x == name) && |r| <= |names| + 1
    ensures name in names ==> AddOnce(names, name) == names
  {
  }

  /** A proof type with nothing after it has an empty contract. */
  lemma ProofMayLackContract(c: Casing, proofType: string)
    requires c.upper(proofType) !in AFTER_PROOF
    ensures ProofSpecs(c, [proofType]) == ([ProofSpec(proofType, "")], [])
  {
  }

  /** GROUP and ORDER are refused exactly when BY does not follow, naming what stands there. */
  lemma ByIsExpected(c: Casing, ts: Tokens)
    ensures
      var wanted := Expected("BY", if |ts| < 2 then None else Some(ts[1]));
      var follows := |ts| > 1 && c.upper(ts[1]) == "BY";
      && (GroupClause(c, ts).Failed? <==> At(c, ts, "GROUP") && !follows)
      && (GroupClause(c, ts).Failed? ==> GroupClause(c, ts).error == wanted)
      && (OrderClause(c, ts).Failed? <==> At(c, ts, "ORDER") && !follows)
      && (OrderClause(c, ts).Failed? ==> OrderClause(c, ts).error == wanted)
  {
    hide Until, FieldRefs, OrderItems;
  }
}
