/** Queries written out clause by clause in the parser's order, and what parsing gives back.

A spelling says how each keyword is written, in any mixture of cases, and where commas stand. */
module FallbackPrinter {
  import opened Wrappers
  import opened QueryText
  import opened FallbackParser

  /** The lists whose items may be followed by commas. */
  datatype Place = Modalities | Projections | Aggregates | Groups | Orders

  /** How a query is written: its keywords, and for each item of a list, counted from the end of the
      list, whether a comma is glued to it, whether a comma follows as a token of its own, and
      whether an ascending order goes without saying. */
  datatype Spelling = Spelling(
    word: string -> string,
    glued: (Place, nat) -> bool,
    loose: (Place, nat) -> bool,
    silent: nat -> bool)

  predicate IsKeyword(s: string) {
    || s == "SELECT" || s == "FROM" || s == "HEXAD" || s == "FEDERATION" || s == "STORE" || s == "WITH"
    || s == "DRIFT" || s == "WHERE" || s == "GROUP" || s == "BY" || s == "HAVING" || s == "PROOF"
    || s == "AND" || s == "ORDER" || s == "ASC" || s == "DESC" || s == "LIMIT" || s == "OFFSET"
  }

  ghost predicate Spells(c: Casing, kw: Spelling) {
    forall k :: IsKeyword(k) ==> IsWord(kw.word(k)) && c.upper(kw.word(k)) == k
  }

  // ----- Printing

  function BareToken(m: string): string {
    if m == "All" then "*" else m
  }

  function Glued(kw: Spelling, p: Place, n: nat): (comma: string)
    ensures comma == "" || comma == ","
  {
    if kw.glued(p, n) then "," else ""
  }

  function Loose(kw: Spelling, p: Place, n: nat): (comma: Tokens)
    ensures comma == [] || comma == [","]
  {
    if kw.loose(p, n) then [","] else []
  }

  function BareTokens(kw: Spelling, modalities: seq<string>): Tokens {
    if modalities == [] then []
    else
      var n := |modalities|;
      [BareToken(modalities[0]) + Glued(kw, Modalities, n)]
      + (Loose(kw, Modalities, n) + BareTokens(kw, modalities[1..]))
  }

  function FieldToken(f: FieldRef): string {
    f.modality + "." + f.field
  }

  function FieldTokens(kw: Spelling, p: Place, fields: seq<FieldRef>): Tokens {
    if fields == [] then []
    else
      var n := |fields|;
      [FieldToken(fields[0]) + Glued(kw, p, n)] + (Loose(kw, p, n) + FieldTokens(kw, p, fields[1..]))
  }

  function AggregateFunc(a: Aggregate): string {
    match a case CountAll => "COUNT" case AggregateField(func, _) => func
  }

  function AggregateBody(a: Aggregate): string {
    match a case CountAll => "*" case AggregateField(_, target) => FieldToken(target)
  }

  function AggregateTokens(kw: Spelling, a: Aggregate, n: nat): Tokens {
    [AggregateFunc(a), "(" + AggregateBody(a) + ")" + Glued(kw, Aggregates, n)]
  }

  function AllAggregateTokens(kw: Spelling, aggregates: seq<Aggregate>): Tokens {
    if aggregates == [] then []
    else
      var n := |aggregates|;
      AggregateTokens(kw, aggregates[0], n) + (Loose(kw, Aggregates, n) + AllAggregateTokens(kw, aggregates[1..]))
  }

  function OptionalToken(t: Option<string>): Tokens {
    match t case None => [] case Some(s) => [s]
  }

  function SourceTokens(kw: Spelling, s: Source): Tokens {
    match s
    case Hexad(id) => [kw.word("HEXAD")] + OptionalToken(id)
    case Federation(pattern, None) => [kw.word("FEDERATION")] + OptionalToken(pattern)
    case Federation(pattern, Some(drift)) =>
      [kw.word("FEDERATION")] + OptionalToken(pattern) + [kw.word("WITH"), kw.word("DRIFT"), drift]
    case StoreSource(id) => [kw.word("STORE")] + OptionalToken(id)
  }

  function RawTokens(kw: Spelling, keyword: string, raw: Option<string>): Tokens {
    match raw case None => [] case Some(s) => [kw.word(keyword)] + Words(s)
  }

  function GroupTokens(kw: Spelling, groupBy: Option<seq<FieldRef>>): Tokens {
    match groupBy
    case None => []
    case Some(fields) => [kw.word("GROUP"), kw.word("BY")] + FieldTokens(kw, Groups, fields)
  }

  function SpecTokens(spec: ProofSpec): Tokens {
    [spec.proofType, "(" + spec.contract + ")"]
  }

  function SpecsTokens(kw: Spelling, specs: seq<ProofSpec>): Tokens {
    if specs == [] then []
    else if |specs| == 1 then SpecTokens(specs[0])
    else SpecTokens(specs[0]) + ([kw.word("AND")] + SpecsTokens(kw, specs[1..]))
  }

  function ProofTokens(kw: Spelling, specs: seq<ProofSpec>): Tokens {
    if specs == [] then [] else [kw.word("PROOF")] + SpecsTokens(kw, specs)
  }

  function DirectionWord(d: Direction): string {
    if d == Asc then "ASC" else "DESC"
  }

  function ItemTokens(kw: Spelling, item: OrderItem, n: nat): Tokens {
    if item.direction == Asc && kw.silent(n) then [FieldToken(item.field) + Glued(kw, Orders, n)]
    else [FieldToken(item.field), kw.word(DirectionWord(item.direction)) + Glued(kw, Orders, n)]
  }

  function ItemsTokens(kw: Spelling, items: seq<OrderItem>): Tokens {
    if items == [] then []
    else
      var n := |items|;
      ItemTokens(kw, items[0], n) + (Loose(kw, Orders, n) + ItemsTokens(kw, items[1..]))
  }

  function OrderTokens(kw: Spelling, orderBy: Option<seq<OrderItem>>): Tokens {
    match orderBy case None => [] case Some(items) => [kw.word("ORDER"), kw.word("BY")] + ItemsTokens(kw, items)
  }

  function NumberTokens(kw: Spelling, keyword: string, n: Option<Number>): Tokens {
    match n
    case Some(Integer(value)) => [kw.word(keyword), Decimal(value)]
    case _ => []
  }

  function FromLimit(kw: Spelling, q: Query): Tokens {
    NumberTokens(kw, "LIMIT", q.limit) + NumberTokens(kw, "OFFSET", q.offset)
  }

  function FromOrder(kw: Spelling, q: Query): Tokens {
    OrderTokens(kw, q.orderBy) + FromLimit(kw, q)
  }

  function FromProof(kw: Spelling, q: Query): Tokens {
    ProofTokens(kw, q.proof) + FromOrder(kw, q)
  }

  function FromHaving(kw: Spelling, q: Query): Tokens {
    RawTokens(kw, "HAVING", q.having) + FromProof(kw, q)
  }

  function FromGroup(kw: Spelling, q: Query): Tokens {
    GroupTokens(kw, q.groupBy) + FromHaving(kw, q)
  }

  function FromWhere(kw: Spelling, q: Query): Tokens {
    RawTokens(kw, "WHERE", q.filter) + FromGroup(kw, q)
  }

  function SelectionTokens(kw: Spelling, s: Selected): Tokens {
    BareTokens(kw, s.modalities) + FieldTokens(kw, Projections, s.projections) + AllAggregateTokens(kw, s.aggregates)
  }

  function Print(kw: Spelling, q: Query): Tokens {
    [kw.word("SELECT")] + SelectionTokens(kw, q.selected) + [kw.word("FROM")] + SourceTokens(kw, q.source)
    + FromWhere(kw, q)
  }

  /** The query as text, with single spaces. */
  function Text(kw: Spelling, q: Query): string {
    Join(Print(kw, q))
  }

  // ----- Which queries can be written so

  predicate IsTitle(s: string) {
    || s == "Graph" || s == "Vector" || s == "Tensor" || s == "Semantic"
    || s == "Document" || s == "Temporal" || s == "Provenance" || s == "Spatial"
  }

  predicate IsFunc(s: string) {
    s == "Count" || s == "Sum" || s == "Avg" || s == "Min" || s == "Max"
  }

  /** A possibly empty text without the characters that structure a token. */
  predicate IsName(s: string) {
    forall ch :: ch in s ==> !IsSpace(ch) && ch !in {',', '.', '(', ')'}
  }

  predicate IsField(c: Casing, f: FieldRef) {
    IsName(f.modality) && IsName(f.field) && Title(c, f.modality) == f.modality
  }

  predicate IsSelectable(modalities: seq<string>, f: FieldRef) {
    IsTitle(f.modality) && f.modality in modalities && IsName(f.field)
  }

  predicate AggregatePrints(modalities: seq<string>, a: Aggregate) {
    a.CountAll? || (IsFunc(a.func) && IsSelectable(modalities, a.target))
  }

  predicate SelectionPrints(s: Selected) {
    && (forall m :: m in s.modalities ==> m == "All" || IsTitle(m))
    && (forall p :: p in s.projections ==> IsSelectable(s.modalities, p))
    && (forall a :: a in s.aggregates ==> AggregatePrints(s.modalities, a))
  }

  predicate IsSomeWord(t: Option<string>) {
    t.Some? && IsWord(t.value)
  }

  predicate SourcePrints(c: Casing, s: Source) {
    match s
    case Hexad(id) => IsSomeWord(id)
    case Federation(pattern, drift) =>
      IsSomeWord(pattern) && (drift.None? || (IsWord(drift.value) && c.upper(drift.value) == drift.value))
    case StoreSource(id) => IsSomeWord(id)
  }

  /** Single spaces between words, none of them a stop word. */
  predicate RawPrints(c: Casing, raw: Option<string>, stops: set<string>) {
    raw.Some? ==> Join(Words(raw.value)) == raw.value && forall w :: w in Words(raw.value) ==> c.upper(w) !in stops
  }

  predicate SpecPrints(c: Casing, spec: ProofSpec) {
    IsWord(spec.proofType) && c.upper(spec.proofType) !in AFTER_PROOF && IsName(spec.contract)
  }

  predicate Prints(c: Casing, q: Query) {
    && SelectionPrints(q.selected)
    && SourcePrints(c, q.source)
    && RawPrints(c, q.filter, AFTER_WHERE)
    && RawPrints(c, q.having, AFTER_HAVING)
    && (q.groupBy.Some? ==> forall f :: f in q.groupBy.value ==> IsField(c, f))
    && (forall spec :: spec in q.proof ==> SpecPrints(c, spec))
    && (q.orderBy.Some? ==> forall item :: item in q.orderBy.value ==> IsField(c, item.field))
    && q.limit != Some(NaN) && q.offset != Some(NaN)
  }

  /** The WHERE clause is followed by a word it stops at: not by GROUP, HAVING or ORDER. */
  predicate WhereEnds(q: Query) {
    q.filter.Some? ==> q.groupBy.None? && q.having.None? && (q.proof != [] || q.orderBy.None?)
  }

  // ----- What becomes of glued commas

  /** A comma glued to the parenthesis of an aggregate is read as part of what is inside: a count
      is then lost, and any other aggregate is over a field whose name ends in a comma. */
  function AggregateAsRead(kw: Spelling, a: Aggregate, n: nat): seq<Aggregate> {
    if !kw.glued(Aggregates, n) then [a]
    else match a
      case CountAll => []
      case AggregateField(func, target) => [AggregateField(func, target.(field := target.field + ","))]
  }

  function AggregatesAsRead(kw: Spelling, aggregates: seq<Aggregate>): seq<Aggregate> {
    if aggregates == [] then []
    else AggregateAsRead(kw, aggregates[0], |aggregates|) + AggregatesAsRead(kw, aggregates[1..])
  }

  /** A comma glued to ASC or DESC makes the word be skipped: the order is then ascending. */
  function ItemAsRead(kw: Spelling, item: OrderItem, n: nat): OrderItem {
    if kw.glued(Orders, n) then item.(direction := Asc) else item
  }

  function ItemsAsRead(kw: Spelling, items: seq<OrderItem>): seq<OrderItem> {
    if items == [] then [] else [ItemAsRead(kw, items[0], |items|)] + ItemsAsRead(kw, items[1..])
  }

  function SelectedAsRead(kw: Spelling, s: Selected): Selected {
    s.(aggregates := AggregatesAsRead(kw, s.aggregates))
  }

  function OrderByAsRead(kw: Spelling, orderBy: Option<seq<OrderItem>>): Option<seq<OrderItem>> {
    match orderBy case None => None case Some(items) => Some(ItemsAsRead(kw, items))
  }

  function AsRead(kw: Spelling, q: Query): Query {
    q.(selected := SelectedAsRead(kw, q.selected), orderBy := OrderByAsRead(kw, q.orderBy))
  }

  /** No comma is glued to an aggregate or to DESC. */
  predicate CommasFit(kw: Spelling, q: Query) {
    && AggregatesFit(kw, q.selected.aggregates)
    && (q.orderBy.Some? ==> OrdersFit(kw, q.orderBy.value))
  }

  predicate AggregatesFit(kw: Spelling, aggregates: seq<Aggregate>) {
    forall n :: 1 <= n <= |aggregates| ==> !kw.glued(Aggregates, n)
  }

  predicate OrdersFit(kw: Spelling, items: seq<OrderItem>) {
    forall i :: 0 <= i < |items| && kw.glued(Orders, |items| - i) ==> items[i].direction == Asc
  }

  lemma AggregatesFitStep(kw: Spelling, aggregates: seq<Aggregate>)
    requires aggregates != []
    ensures AggregatesFit(kw, aggregates) <==>
      !kw.glued(Aggregates, |aggregates|) && AggregatesFit(kw, aggregates[1..])
  {
  }

  lemma OrdersFitStep(kw: Spelling, items: seq<OrderItem>)
    requires items != []
    ensures OrdersFit(kw, items) <==>
      (kw.glued(Orders, |items|) ==> items[0].direction == Asc) && OrdersFit(kw, items[1..])
  {
    var rest := items[1..];
    if OrdersFit(kw, items) {
      assert kw.glued(Orders, |items| - 0) ==> items[0].direction == Asc;
      forall i | 0 <= i < |rest| && kw.glued(Orders, |rest| - i) ensures rest[i].direction == Asc {
        assert |rest| - i == |items| - (i + 1) && items[i + 1] == rest[i];
      }
    }
    if (kw.glued(Orders, |items|) ==> items[0].direction == Asc) && OrdersFit(kw, rest) {
      forall i | 0 <= i < |items| && kw.glued(Orders, |items| - i) ensures items[i].direction == Asc {
        if i > 0 {
          assert |rest| - (i - 1) == |items| - i && rest[i - 1] == items[i];
        }
      }
    }
  }

  lemma {:induction false} AggregatesAsReadIff(kw: Spelling, aggregates: seq<Aggregate>)
    ensures |AggregatesAsRead(kw, aggregates)| <= |aggregates|
    ensures AggregatesAsRead(kw, aggregates) == aggregates <==> AggregatesFit(kw, aggregates)
  {
    if aggregates != [] {
      hide AggregatesFit;
      var a, rest := aggregates[0], aggregates[1..];
      var read := AggregatesAsRead(kw, rest);
      AggregatesAsReadIff(kw, rest);
      AggregatesFitStep(kw, aggregates);
      assert aggregates == [a] + rest;
      if kw.glued(Aggregates, |aggregates|) && a.AggregateField? {
        assert |a.target.field + ","| > |a.target.field|;
        assert AggregatesAsRead(kw, aggregates)[0] != aggregates[0];
      }
      if !kw.glued(Aggregates, |aggregates|) {
        assert ([a] + read)[1..] == read && aggregates[1..] == rest;
      }
    }
  }

  lemma {:induction false} ItemsAsReadIff(kw: Spelling, items: seq<OrderItem>)
    ensures ItemsAsRead(kw, items) == items <==> OrdersFit(kw, items)
  {
    if items != [] {
      hide OrdersFit;
      var item, rest := items[0], items[1..];
      ItemsAsReadIff(kw, rest);
      OrdersFitStep(kw, items);
      assert items == [item] + rest;
      var read := ItemsAsRead(kw, items);
      assert read[0] == ItemAsRead(kw, item, |items|) && read[1..] == ItemsAsRead(kw, rest);
    }
  }

  lemma AsReadIff(kw: Spelling, q: Query)
    ensures AsRead(kw, q) == q <==> CommasFit(kw, q)
  {
    AggregatesAsReadIff(kw, q.selected.aggregates);
    if q.orderBy.Some? {
      ItemsAsReadIff(kw, q.orderBy.value);
    }
  }

  // ----- Tokens

  lemma Associates<T>(a: seq<T>, b: seq<T>, c: seq<T>)
    ensures a + b + c == a + (b + c)
  {
  }

  lemma FieldTokenReads(f: FieldRef)
    requires IsName(f.modality) && IsName(f.field)
    ensures var tok := FieldToken(f);
      && IsWord(tok) && StripCommas(tok) == tok && '.' in tok
      && UpToDot(tok) == f.modality && AfterDot(tok) == f.field
  {
    var tok := FieldToken(f);
    SplitDotted(f.modality, f.field);
    forall ch | ch in tok ensures !IsSpace(ch) && ch != ',' {}
    WithoutNone(tok, {','});
  }

  lemma CommaIsStripped(s: string, comma: string)
    requires ',' !in s && (comma == "" || comma == ",")
    ensures StripCommas(s + comma) == s
  {
    WithoutNone(s, {','});
    WithoutConcat(s, comma, {','});
    assert Without(comma, {','}) == "";
    assert s + "" == s;
  }

  lemma CommaIsNoKeyword(c: Casing, tok: string)
    requires Standard(c) && ',' in tok
    ensures !IsAggregate(c.upper(tok)) && !IsModality(c.upper(tok)) && !IsKeyword(c.upper(tok))
  {
    NoCommaIn(c.upper(tok));
  }

  lemma NoCommaIn(u: string)
    requires ',' in u
    ensures !IsAggregate(u) && !IsModality(u) && !IsKeyword(u)
  {
  }

  /** An item, an optional comma and the items after it. */
  lemma ListStep<T>(item: seq<T>, comma: seq<T>, rest: seq<T>, tail: seq<T>)
    ensures item + (comma + rest) + tail == item + (comma + (rest + tail))
  {
  }

  lemma Parenthesized(s: string)
    requires forall ch :: ch in s ==> !IsSpace(ch) && ch !in {'(', ')'}
    ensures var tok := "(" + s + ")";
      IsWord(tok) && tok[0] == '(' && StripParens(tok) == s
  {
    hide IsSpace, Without;
    var drop := {'(', ')'};
    WithoutNone(s, drop);
    WithoutConcat("(" + s, ")", drop);
    WithoutConcat("(", s, drop);
    ParensAreDropped();
    assert "" + s + "" == s;
  }

  lemma ParensAreDropped()
    ensures Without("(", {'(', ')'}) == "" && Without(")", {'(', ')'}) == ""
    ensures !IsSpace('(') && !IsSpace(')')
  {
  }

  lemma DotIsNoKeyword(c: Casing, tok: string)
    requires Standard(c) && '.' in tok
    ensures '.' in c.upper(tok)
    ensures !IsAggregate(c.upper(tok)) && !IsModality(c.upper(tok)) && !IsKeyword(c.upper(tok))
  {
    hide IsAggregate, IsModality, IsKeyword;
    DottedIsNoKeyword(c.upper(tok));
    DottedIsNoName(c.upper(tok));
  }

  lemma DottedIsNoKeyword(s: string)
    requires '.' in s
    ensures !IsKeyword(s)
  {
  }

  lemma DottedIsNoName(s: string)
    requires '.' in s
    ensures !IsAggregate(s) && !IsModality(s)
  {
  }

  // ----- The selection list

  predicate CaseFacts(c: Casing, s: string, upper: string) {
    && IsName(s) && s != ""
    && c.upper(s) == upper
    && First(s) + c.lower(AllButFirst(s)) == s
    && Title(c, s) == s
    && First(upper) + c.lower(AllButFirst(upper)) == s
  }

  predicate IsCapitalized(s: string) {
    s != "" && 'A' <= s[0] <= 'Z' && forall i :: 1 <= i < |s| ==> 'a' <= s[i] <= 'z'
  }

  lemma CapitalizedIsName(s: string)
    requires IsCapitalized(s)
    ensures IsName(s) && IsAscii(s) && IsAscii(s[..1]) && IsAscii(s[1..])
  {
    forall ch | ch in s ensures 'A' <= ch <= 'z' {
      var i :| 0 <= i < |s| && s[i] == ch;
      assert i == 0 || 'a' <= s[i] <= 'z';
    }
    assert forall ch :: ch in s[..1] || ch in s[1..] ==> ch in s;
  }

  lemma UpperOfCapitalized(s: string)
    requires IsCapitalized(s)
    ensures UpperAscii(s[..1]) == s[..1]
    ensures UpperAscii(s)[..1] == s[..1] && UpperAscii(s)[1..] == UpperAscii(s[1..])
  {
    assert s[..1] == [s[0]] && s[..1][1..] == "";
    assert UpperAscii("") == "";
    assert UpperAscii(s[..1]) == [UpperChar(s[0])] + UpperAscii(s[..1][1..]);
  }

  /** The upper case of a capitalized word has that word as its title. */
  lemma CaseFactsHold(c: Casing, s: string)
    requires Standard(c) && IsCapitalized(s)
    ensures CaseFacts(c, s, UpperAscii(s))
  {
    CapitalizedIsName(s);
    UpperOfCapitalized(s);
    LowerOfSmall(s[1..]);
    UpperOfSmall(s[1..]);
    hide IsAscii, IsName, UpperAscii, LowerAscii;
    assert s == s[..1] + s[1..];
    assert UpperAscii(s) != "";
  }

  lemma {:induction false} LowerOfSmall(s: string)
    requires forall i :: 0 <= i < |s| ==> 'a' <= s[i] <= 'z'
    ensures LowerAscii(s) == s
  {
    if s != "" {
      LowerOfSmall(s[1..]);
    }
  }

  lemma {:induction false} UpperOfSmall(s: string)
    requires forall i :: 0 <= i < |s| ==> 'a' <= s[i] <= 'z'
    ensures IsAscii(UpperAscii(s)) && LowerAscii(UpperAscii(s)) == s
  {
    if s != "" {
      UpperOfSmall(s[1..]);
      var u := UpperAscii(s);
      assert u == [UpperChar(s[0])] + UpperAscii(s[1..]);
      assert u[0] == UpperChar(s[0]) && u[1..] == UpperAscii(s[1..]);
      assert s == [s[0]] + s[1..];
      SmallIsAscii(s);
    }
  }

  lemma SmallIsAscii(s: string)
    requires forall i :: 0 <= i < |s| ==> 'a' <= s[i] <= 'z'
    ensures IsAscii(UpperAscii(s))
  {
    var u := UpperAscii(s);
    forall ch | ch in u ensures ch < '\U{0080}' {
      var i :| 0 <= i < |u| && u[i] == ch;
      assert 'a' <= s[i] <= 'z';
    }
  }

  lemma UpperIs(s: string, upper: string)
    requires |s| == |upper| && forall i :: 0 <= i < |s| ==> UpperChar(s[i]) == upper[i]
    ensures UpperAscii(s) == upper
  {
  }

  lemma TitlesAreCapitalized(s: string)
    requires IsTitle(s) || IsFunc(s)
    ensures IsCapitalized(s)
  {
  }

  lemma UpperTitles(s: string)
    requires IsTitle(s)
    ensures IsModality(UpperAscii(s))
  {
    hide UpperAscii;
    if s == "Graph" {
      UpperIs(s, "GRAPH");
    } else if s == "Vector" {
      UpperIs(s, "VECTOR");
    } else if s == "Tensor" {
      UpperIs(s, "TENSOR");
    } else if s == "Semantic" {
      UpperIs(s, "SEMANTIC");
    } else if s == "Document" {
      UpperIs(s, "DOCUMENT");
    } else if s == "Temporal" {
      UpperIs(s, "TEMPORAL");
    } else if s == "Provenance" {
      UpperIs(s, "PROVENANCE");
    } else {
      UpperIs(s, "SPATIAL");
    }
  }

  lemma UpperFuncs(s: string)
    requires IsFunc(s)
    ensures IsAggregate(UpperAscii(s))
  {
    hide UpperAscii;
    if s == "Count" {
      UpperIs(s, "COUNT");
    } else if s == "Sum" {
      UpperIs(s, "SUM");
    } else if s == "Avg" {
      UpperIs(s, "AVG");
    } else if s == "Min" {
      UpperIs(s, "MIN");
    } else {
      UpperIs(s, "MAX");
    }
  }

  lemma TitleFacts(c: Casing, s: string)
    requires Standard(c) && IsTitle(s)
    ensures CaseFacts(c, s, c.upper(s)) && IsModality(c.upper(s))
  {
    hide IsTitle, IsModality, UpperAscii, IsCapitalized;
    UpperTitles(s);
    TitlesAreCapitalized(s);
    CaseFactsHold(c, s);
  }

  lemma FuncFacts(c: Casing, s: string)
    requires Standard(c) && IsFunc(s)
    ensures CaseFacts(c, s, c.upper(s)) && IsAggregate(c.upper(s))
  {
    hide IsFunc, IsAggregate, UpperAscii, IsCapitalized;
    UpperFuncs(s);
    TitlesAreCapitalized(s);
    CaseFactsHold(c, s);
  }

  lemma SelectStep(c: Casing, acc: Selected, ts: Tokens)
    requires !StopsAt(c, ts, {"FROM"})
    ensures Select(c, acc, ts) == Select(c, SelectOne(c, acc, ts).0, SelectOne(c, acc, ts).1)
  {
  }

  lemma ModalityIsNoKeyword(upper: string)
    requires IsModality(upper)
    ensures !IsAggregate(upper) && upper != "FROM" && upper != "*"
  {
  }

  lemma AggregateIsNoKeyword(upper: string)
    requires IsAggregate(upper)
    ensures upper != "FROM" && upper != ")"
  {
  }

  lemma StarReads(c: Casing)
    requires Standard(c)
    ensures c.upper("*") == "*" && StripCommas("*") == "*" && !IsAggregate("*")
  {
    assert IsAscii("*");
    UpperIs("*", "*");
    WithoutNone("*", {','});
  }

  lemma BareReads(c: Casing, acc: Selected, m: string, comma: string, tail: Tokens)
    requires Standard(c) && (m == "All" || IsTitle(m)) && (comma == "" || comma == ",")
    ensures var ts := [BareToken(m) + comma] + tail;
      !StopsAt(c, ts, {"FROM"}) && SelectOne(c, acc, ts) == (acc.(modalities := acc.modalities + [m]), tail)
  {
    hide IsTitle, IsAggregate, IsModality, IsKeyword, Standard, StripCommas, Without;
    var tok := BareToken(m);
    assert ([tok + comma] + tail)[1..] == tail;
    if m == "All" {
      StarReads(c);
    } else {
      TitleFacts(c, m);
      ModalityIsNoKeyword(c.upper(m));
      assert '.' !in m && ',' !in m;
    }
    CommaIsStripped(tok, comma);
    FromIsKeyword();
    if comma == "," {
      CommaIsNoKeyword(c, tok + comma);
    } else {
      assert tok + comma == tok;
    }
  }

  lemma CommaIsSkipped(c: Casing, acc: Selected, tail: Tokens)
    requires Standard(c)
    ensures Select(c, acc, [","] + tail) == Select(c, acc, tail)
  {
    hide Standard, StripCommas, Without, IsKeyword;
    assert ([","] + tail)[1..] == tail;
    CommaIsStripped("", ",");
    assert "" + "," == ",";
    CommaIsNoKeyword(c, ",");
    FromIsKeyword();
    NothingIsUpper(c);
    SelectStep(c, acc, [","] + tail);
  }

  lemma NothingIsUpper(c: Casing)
    requires Standard(c)
    ensures c.upper("") == ""
  {
    assert IsAscii("");
  }

  lemma LooseIsSkipped(c: Casing, acc: Selected, kw: Spelling, p: Place, n: nat, tail: Tokens)
    requires Standard(c)
    ensures Select(c, acc, Loose(kw, p, n) + tail) == Select(c, acc, tail)
  {
    hide Select;
    CommaIsSkipped(c, acc, tail);
    assert [] + tail == tail;
  }

  lemma NameKeepsCommas(s: string)
    requires IsName(s)
    ensures StripCommas(s) == s
  {
    WithoutNone(s, {','});
  }

  lemma {:induction false} SelectBare(c: Casing, kw: Spelling, acc: Selected, modalities: seq<string>, tail: Tokens)
    requires Standard(c) && forall m :: m in modalities ==> m == "All" || IsTitle(m)
    ensures Select(c, acc, BareTokens(kw, modalities) + tail) ==
      Select(c, acc.(modalities := acc.modalities + modalities), tail)
    decreases |modalities|
  {
    hide Select, SelectOne, StopsAt, IsTitle, Standard, BareToken, Loose;
    if modalities == [] {
      assert BareTokens(kw, modalities) + tail == tail && acc.modalities + modalities == acc.modalities;
    } else {
      var m, rest, n := modalities[0], modalities[1..], |modalities|;
      var next, comma := acc.(modalities := acc.modalities + [m]), Glued(kw, Modalities, n);
      var after := BareTokens(kw, rest) + tail;
      BareReads(c, acc, m, comma, Loose(kw, Modalities, n) + after);
      SelectStep(c, acc, [BareToken(m) + comma] + (Loose(kw, Modalities, n) + after));
      ListStep([BareToken(m) + comma], Loose(kw, Modalities, n), BareTokens(kw, rest), tail);
      LooseIsSkipped(c, next, kw, Modalities, n, after);
      SelectBare(c, kw, next, rest, tail);
      Associates(acc.modalities, [m], rest);
      assert modalities == [m] + rest;
    }
  }

  lemma ProjectionReads(c: Casing, acc: Selected, p: FieldRef, comma: string, tail: Tokens)
    requires Standard(c) && IsSelectable(acc.modalities, p) && (comma == "" || comma == ",")
    ensures var ts := [FieldToken(p) + comma] + tail;
      !StopsAt(c, ts, {"FROM"}) && SelectOne(c, acc, ts) == (acc.(projections := acc.projections + [p]), tail)
  {
    hide IsTitle, IsAggregate, IsModality, Standard, StripCommas, Without, FieldToken, IsKeyword;
    var tok := FieldToken(p);
    assert ([tok + comma] + tail)[1..] == tail;
    TitleFacts(c, p.modality);
    FieldTokenReads(p);
    FieldHasNoComma(p);
    CommaIsStripped(tok, comma);
    DotIsNoKeyword(c, tok);
    DotIsNoKeyword(c, tok + comma);
    FromIsKeyword();
  }

  lemma FieldHasNoComma(f: FieldRef)
    requires IsName(f.modality) && IsName(f.field)
    ensures ',' !in FieldToken(f)
  {
  }

  lemma FromIsKeyword()
    ensures IsKeyword("FROM")
  {
  }

  lemma {:induction false} SelectProjections(c: Casing, kw: Spelling, acc: Selected, ps: seq<FieldRef>, tail: Tokens)
    requires Standard(c) && forall p :: p in ps ==> IsSelectable(acc.modalities, p)
    ensures Select(c, acc, FieldTokens(kw, Projections, ps) + tail) ==
      Select(c, acc.(projections := acc.projections + ps), tail)
    decreases |ps|
  {
    hide Select, SelectOne, StopsAt, IsTitle, Standard, FieldToken, Loose;
    if ps == [] {
      assert FieldTokens(kw, Projections, ps) + tail == tail && acc.projections + ps == acc.projections;
    } else {
      var p, rest, n := ps[0], ps[1..], |ps|;
      var next, comma := acc.(projections := acc.projections + [p]), Glued(kw, Projections, n);
      var after := FieldTokens(kw, Projections, rest) + tail;
      ProjectionReads(c, acc, p, comma, Loose(kw, Projections, n) + after);
      SelectStep(c, acc, [FieldToken(p) + comma] + (Loose(kw, Projections, n) + after));
      ListStep([FieldToken(p) + comma], Loose(kw, Projections, n), FieldTokens(kw, Projections, rest), tail);
      LooseIsSkipped(c, next, kw, Projections, n, after);
      SelectProjections(c, kw, next, rest, tail);
      Associates(acc.projections, [p], rest);
      assert ps == [p] + rest;
    }
  }

  /** Nothing that follows an aggregate is taken for its closing parenthesis. */
  predicate NoParenAhead(ts: Tokens) {
    ts == [] || ts[0] != ")"
  }

  lemma InnerReads(s: string, tail: Tokens)
    requires s != "" && (forall ch :: ch in s ==> !IsSpace(ch) && ch !in {'(', ')'}) && NoParenAhead(tail)
    ensures OpensParen(["(" + s + ")"] + tail) && AggregateInner(["(" + s + ")"] + tail) == (s, tail)
  {
    Parenthesized(s);
    assert (["(" + s + ")"] + tail)[1..] == tail;
  }

  /** A comma after the parenthesis is read as part of what is inside. */
  lemma InnerTakesComma(s: string, comma: string, tail: Tokens)
    requires s != "" && (forall ch :: ch in s ==> !IsSpace(ch) && ch !in {'(', ')'}) && NoParenAhead(tail)
    requires comma == "" || comma == ","
    ensures
      var ts := ["(" + s + ")" + comma] + tail;
      OpensParen(ts) && AggregateInner(ts) == (s + comma, tail) && IsWord("(" + s + ")" + comma)
  {
    hide IsSpace, Without;
    var drop, tok := {'(', ')'}, "(" + s + ")";
    Parenthesized(s);
    WithoutConcat(tok, comma, drop);
    CommaIsNoParen();
    assert (tok + comma)[0] == tok[0];
    assert ([tok + comma] + tail)[1..] == tail;
  }

  lemma CommaIsNoParen()
    ensures Without("", {'(', ')'}) == "" && Without(",", {'(', ')'}) == "," && !IsSpace(',')
  {
  }

  lemma FuncReads(c: Casing, a: Aggregate)
    requires Standard(c) && (a.CountAll? || IsFunc(a.func))
    ensures var f := AggregateFunc(a);
      StripCommas(f) == f && IsAggregate(c.upper(f)) && c.upper(f) != "FROM" && f != ")" && IsWord(f)
      && (a.AggregateField? ==> First(c.upper(f)) + c.lower(AllButFirst(c.upper(f))) == a.func)
  {
    if a.CountAll? {
      CountReads(c);
    } else {
      FuncFacts(c, a.func);
      AggregateIsNoKeyword(c.upper(a.func));
      NameKeepsCommas(a.func);
      assert ')' !in a.func;
    }
  }

  lemma CountReads(c: Casing)
    requires Standard(c)
    ensures c.upper("COUNT") == "COUNT" && StripCommas("COUNT") == "COUNT" && IsWord("COUNT")
  {
    CapitalsStay("COUNT");
    NameKeepsCommas("COUNT");
    hide IsSpace, StripCommas, UpperAscii, IsName, IsAscii;
  }

  lemma CapitalsStay(s: string)
    requires s != "" && forall i :: 0 <= i < |s| ==> 'A' <= s[i] <= 'Z'
    ensures IsAscii(s) && IsName(s) && IsWord(s) && UpperAscii(s) == s
  {
    UpperIs(s, s);
  }

  lemma BodyReads(c: Casing, acc: Selected, a: Aggregate, func: string, kw: Spelling, n: nat)
    requires Standard(c) && AggregatePrints(acc.modalities, a)
    requires a.AggregateField? ==> First(func) + c.lower(AllButFirst(func)) == a.func
    ensures var body := AggregateBody(a);
      && body != "" && (forall ch :: ch in body ==> !IsSpace(ch) && ch !in {'(', ')'})
      && AddAggregate(c, acc, func, body + Glued(kw, Aggregates, n)) ==
         acc.(aggregates := acc.aggregates + AggregateAsRead(kw, a, n))
  {
    hide IsTitle, Standard, FieldToken, IsSpace;
    var comma := Glued(kw, Aggregates, n);
    if a.AggregateField? {
      TitleFacts(c, a.target.modality);
      FieldBodyReads(a.target, comma);
      assert comma == "" ==> a.target.field + comma == a.target.field;
    } else {
      assert "*" + "" == "*" && acc.aggregates + [] == acc.aggregates;
      StarIsNoSpace();
    }
  }

  lemma StarIsNoSpace()
    ensures !IsSpace('*')
  {
  }

  lemma FieldBodyReads(f: FieldRef, comma: string)
    requires IsName(f.modality) && IsName(f.field) && (comma == "" || comma == ",")
    ensures var body := FieldToken(f);
      && body != "" && (forall ch :: ch in body ==> !IsSpace(ch) && ch !in {'(', ')'})
      && body + comma != "*" && '.' in body + comma
      && UpToDot(body + comma) == f.modality && AfterDot(body + comma) == f.field + comma
  {
    SplitDotted(f.modality, f.field + comma);
    assert f.modality + "." + (f.field + comma) == FieldToken(f) + comma;
    assert '.' in FieldToken(f) && |FieldToken(f)| >= 1;
  }

  lemma AggregateReads(c: Casing, acc: Selected, a: Aggregate, kw: Spelling, n: nat, tail: Tokens)
    requires Standard(c) && AggregatePrints(acc.modalities, a) && NoParenAhead(tail)
    ensures var ts := AggregateTokens(kw, a, n) + tail;
      && !StopsAt(c, ts, {"FROM"}) && NoParenAhead(ts)
      && SelectOne(c, acc, ts) == (acc.(aggregates := acc.aggregates + AggregateAsRead(kw, a, n)), tail)
  {
    hide StripCommas, IsAggregate, IsFunc, IsTitle, IsSpace, AggregateInner, AddAggregate, OpensParen, FieldToken,
        Standard, AggregateFunc, AggregateBody, AggregateAsRead;
    var f, body, comma := AggregateFunc(a), AggregateBody(a), Glued(kw, Aggregates, n);
    FuncReads(c, a);
    BodyReads(c, acc, a, c.upper(f), kw, n);
    InnerTakesComma(body, comma, tail);
    var rest := ["(" + body + ")" + comma] + tail;
    assert AggregateTokens(kw, a, n) + tail == [f] + rest;
    assert ([f] + rest)[1..] == rest && ([f] + rest)[0] == f;
  }

  lemma LooseIsNoParen(kw: Spelling, p: Place, n: nat, tail: Tokens)
    requires NoParenAhead(tail)
    ensures NoParenAhead(Loose(kw, p, n) + tail)
  {
    assert [] + tail == tail;
  }

  lemma {:induction false} SelectAggregates(
    c: Casing, kw: Spelling, acc: Selected, aggregates: seq<Aggregate>, tail: Tokens)
    requires Standard(c) && NoParenAhead(tail) && forall a :: a in aggregates ==> AggregatePrints(acc.modalities, a)
    ensures Select(c, acc, AllAggregateTokens(kw, aggregates) + tail) ==
            Select(c, acc.(aggregates := acc.aggregates + AggregatesAsRead(kw, aggregates)), tail)
    ensures NoParenAhead(AllAggregateTokens(kw, aggregates) + tail)
    decreases |aggregates|
  {
    hide Select, SelectOne, StopsAt, Standard, AggregateTokens, AggregatePrints, NoParenAhead, Loose, AggregateAsRead;
    if aggregates == [] {
      assert AllAggregateTokens(kw, aggregates) + tail == tail && acc.aggregates + [] == acc.aggregates;
    } else {
      var a, rest, n := aggregates[0], aggregates[1..], |aggregates|;
      var next := acc.(aggregates := acc.aggregates + AggregateAsRead(kw, a, n));
      var after := AllAggregateTokens(kw, rest) + tail;
      SelectAggregates(c, kw, next, rest, tail);
      LooseIsNoParen(kw, Aggregates, n, after);
      AggregateReads(c, acc, a, kw, n, Loose(kw, Aggregates, n) + after);
      SelectStep(c, acc, AggregateTokens(kw, a, n) + (Loose(kw, Aggregates, n) + after));
      LooseIsSkipped(c, next, kw, Aggregates, n, after);
      ListStep(AggregateTokens(kw, a, n), Loose(kw, Aggregates, n), AllAggregateTokens(kw, rest), tail);
      Associates(acc.aggregates, AggregateAsRead(kw, a, n), AggregatesAsRead(kw, rest));
    }
  }

  /** The selection list is read back, but for commas glued to aggregates, and the cursor stops at
      FROM. */
  lemma SelectionReads(c: Casing, kw: Spelling, s: Selected, tail: Tokens)
    requires Standard(c) && SelectionPrints(s) && At(c, tail, "FROM")
    ensures Select(c, Selected([], [], []), SelectionTokens(kw, s) + tail) == (SelectedAsRead(kw, s), tail)
  {
    hide Select, Standard, IsSelectable, AggregatePrints, IsTitle, BareTokens, FieldTokens, AllAggregateTokens, At,
        NoParenAhead, AggregatesAsRead;
    var bare, fields := BareTokens(kw, s.modalities), FieldTokens(kw, Projections, s.projections);
    var aggregates, read := AllAggregateTokens(kw, s.aggregates), AggregatesAsRead(kw, s.aggregates);
    assert SelectionTokens(kw, s) + tail == bare + (fields + (aggregates + tail));
    FromIsNoParen(c, tail);
    var s1 := Selected(s.modalities, [], []);
    var s2 := Selected(s.modalities, s.projections, []);
    SelectBare(c, kw, Selected([], [], []), s.modalities, fields + (aggregates + tail));
    assert [] + s.modalities == s.modalities && [] + s.projections == s.projections && [] + read == read;
    SelectProjections(c, kw, s1, s.projections, aggregates + tail);
    SelectAggregates(c, kw, s2, s.aggregates, tail);
    SelectStops(c, SelectedAsRead(kw, s), tail);
  }

  lemma SelectStops(c: Casing, acc: Selected, ts: Tokens)
    requires At(c, ts, "FROM")
    ensures Select(c, acc, ts) == (acc, ts)
  {
  }

  lemma FromIsNoParen(c: Casing, ts: Tokens)
    requires Standard(c) && At(c, ts, "FROM")
    ensures NoParenAhead(ts)
  {
    assert IsAscii(")");
    UpperIs(")", ")");
  }

  // ----- The other clauses

  /** The upper case of the next token. */
  function Lead(c: Casing, ts: Tokens): Option<string> {
    UpperOf(c, Head(ts))
  }

  lemma LeadDecides(c: Casing, ts: Tokens, keyword: string, stops: set<string>)
    ensures At(c, ts, keyword) <==> Lead(c, ts) == Some(keyword)
    ensures StopsAt(c, ts, stops) <==> Lead(c, ts) == None || Lead(c, ts).value in stops
  {
  }

  lemma KeywordLeads(c: Casing, kw: Spelling, k: string, ts: Tokens)
    requires Spells(c, kw) && IsKeyword(k)
    ensures At(c, [kw.word(k)] + ts, k) && Lead(c, [kw.word(k)] + ts) == Some(k) && ([kw.word(k)] + ts)[1..] == ts
  {
  }

  lemma ExpectReads(c: Casing, kw: Spelling, k: string, ts: Tokens)
    requires Spells(c, kw) && IsKeyword(k)
    ensures Expect(c, [kw.word(k)] + ts, k) == Parsed(kw.word(k), ts)
  {
    KeywordLeads(c, kw, k, ts);
  }

  lemma OneToken(t: string, tail: Tokens)
    ensures Head([t] + tail) == Some(t) && Rest([t] + tail) == tail && [t] + tail != [] && ([t] + tail)[1..] == tail
  {
  }

  lemma SourceKeywords()
    ensures IsKeyword("HEXAD") && IsKeyword("FEDERATION") && IsKeyword("STORE") && IsKeyword("WITH")
      && IsKeyword("DRIFT")
  {
  }

  lemma SourceReads(c: Casing, kw: Spelling, s: Source, tail: Tokens)
    requires Spells(c, kw) && SourcePrints(c, s) && !At(c, tail, "WITH")
    ensures SourceClause(c, SourceTokens(kw, s) + tail) == Parsed(s, tail)
  {
    SourceKeywords();
    hide IsKeyword, Spells;
    match s
    case Hexad(Some(id)) =>
      IdReads(c, kw, "HEXAD", id, tail);
    case StoreSource(Some(id)) =>
      IdReads(c, kw, "STORE", id, tail);
    case Federation(Some(pattern), None) =>
      IdReads(c, kw, "FEDERATION", pattern, tail);
    case Federation(Some(pattern), Some(drift)) =>
      DriftReads(c, kw, pattern, drift, tail);
  }

  lemma DriftReads(c: Casing, kw: Spelling, pattern: string, drift: string, tail: Tokens)
    requires Spells(c, kw) && c.upper(drift) == drift
    ensures var s := Federation(Some(pattern), Some(drift));
      SourceClause(c, SourceTokens(kw, s) + tail) == Parsed(s, tail)
  {
    var s := Federation(Some(pattern), Some(drift));
    SourceKeywords();
    hide IsKeyword, Spells;
    var rest := [kw.word("WITH")] + ([kw.word("DRIFT")] + ([drift] + tail));
    assert SourceTokens(kw, s) + tail == [kw.word("FEDERATION"), pattern] + rest;
    IdReads(c, kw, "FEDERATION", pattern, rest);
    KeywordLeads(c, kw, "WITH", [kw.word("DRIFT")] + ([drift] + tail));
    ExpectReads(c, kw, "DRIFT", [drift] + tail);
    OneToken(drift, tail);
  }

  lemma IdReads(c: Casing, kw: Spelling, k: string, id: string, tail: Tokens)
    requires Spells(c, kw) && IsKeyword(k)
    ensures var ts := [kw.word(k), id] + tail;
      Lead(c, ts) == Some(k) && Head(Rest(ts)) == Some(id) && Rest(Rest(ts)) == tail && [kw.word(k)] + [id] + tail == ts
  {
    assert [kw.word(k), id] + tail == [kw.word(k)] + ([id] + tail);
    KeywordLeads(c, kw, k, [id] + tail);
    OneToken(id, tail);
    assert [kw.word(k)] + [id] + tail == [kw.word(k), id] + tail;
  }

  lemma {:induction false} UntilReads(c: Casing, words: Tokens, tail: Tokens, stops: set<string>)
    requires (forall w :: w in words ==> c.upper(w) !in stops) && StopsAt(c, tail, stops)
    ensures Until(c, words + tail, stops) == words
  {
    if words == [] {
      assert words + tail == tail;
    } else {
      assert words[0] in words && (words + tail)[1..] == words[1..] + tail;
      UntilReads(c, words[1..], tail, stops);
    }
  }

  /** Raw text is read back if a stop word follows it. */
  lemma RawReads(c: Casing, kw: Spelling, keyword: string, raw: Option<string>, stops: set<string>, tail: Tokens)
    requires Spells(c, kw) && IsKeyword(keyword) && RawPrints(c, raw, stops)
    requires if raw.None? then !At(c, tail, keyword) else StopsAt(c, tail, stops)
    ensures RawClause(c, RawTokens(kw, keyword, raw) + tail, keyword, stops) == (raw, tail)
  {
    if raw.None? {
      assert RawTokens(kw, keyword, raw) + tail == tail;
    } else {
      var words := Words(raw.value);
      assert RawTokens(kw, keyword, raw) + tail == [kw.word(keyword)] + (words + tail);
      KeywordLeads(c, kw, keyword, words + tail);
      UntilReads(c, words, tail, stops);
      assert ([kw.word(keyword)] + (words + tail))[1 + |words|..] == tail;
    }
  }

  /** Tokens with a dot or a comma are never taken for keywords. */
  lemma {:induction false} FieldsAreRead(c: Casing, kw: Spelling, p: Place, fields: seq<FieldRef>)
    requires Standard(c) && forall f :: f in fields ==> IsField(c, f)
    ensures forall t :: t in FieldTokens(kw, p, fields) ==> !IsKeyword(c.upper(t))
    decreases |fields|
  {
    hide IsKeyword, Standard, FieldToken;
    if fields != [] {
      assert IsField(c, fields[0]);
      FieldTokenReads(fields[0]);
      DotIsNoKeyword(c, FieldToken(fields[0]) + Glued(kw, p, |fields|));
      CommaIsNoKeyword(c, ",");
      FieldsAreRead(c, kw, p, fields[1..]);
    }
  }

  lemma {:induction false} FieldRefsAppend(c: Casing, a: Tokens, b: Tokens)
    ensures FieldRefs(c, a + b) == FieldRefs(c, a) + FieldRefs(c, b)
    decreases |b|
  {
    if b == [] {
      assert a + b == a && FieldRefs(c, a) + [] == FieldRefs(c, a);
    } else {
      var init, last := b[..|b| - 1], b[|b| - 1];
      assert b == init + [last] && a + b == (a + init) + [last];
      FieldRefsAppend(c, a, init);
      FieldRefsStep(c, init, last);
      FieldRefsStep(c, a + init, last);
    }
  }

  lemma FieldRefsOne(c: Casing, t: string)
    ensures var tok := StripCommas(t);
      FieldRefs(c, [t]) == if '.' in tok then [FieldRef(Title(c, UpToDot(tok)), AfterDot(tok))] else []
  {
    FieldRefsStep(c, [], t);
    assert [] + [t] == [t];
    assert FieldRefs(c, []) == [];
  }

  lemma LooseIsNoField(c: Casing, kw: Spelling, p: Place, n: nat)
    ensures FieldRefs(c, Loose(kw, p, n)) == []
  {
    FieldRefsOne(c, ",");
    CommaIsStripped("", ",");
    assert "" + "," == ",";
  }

  lemma FieldIsRead(c: Casing, f: FieldRef, comma: string)
    requires IsField(c, f) && (comma == "" || comma == ",")
    ensures FieldRefs(c, [FieldToken(f) + comma]) == [f]
  {
    FieldTokenReads(f);
    FieldHasNoComma(f);
    CommaIsStripped(FieldToken(f), comma);
    FieldRefsOne(c, FieldToken(f) + comma);
  }

  lemma {:induction false} FieldRefsRead(c: Casing, kw: Spelling, p: Place, fields: seq<FieldRef>)
    requires forall f :: f in fields ==> IsField(c, f)
    ensures FieldRefs(c, FieldTokens(kw, p, fields)) == fields
    decreases |fields|
  {
    hide FieldToken, FieldRefs, Loose, IsField;
    if fields == [] {
      FieldRefsNone(c);
    } else {
      var f, rest, n := fields[0], fields[1..], |fields|;
      var tokens := FieldTokens(kw, p, rest);
      FieldIsRead(c, f, Glued(kw, p, n));
      LooseIsNoField(c, kw, p, n);
      FieldRefsRead(c, kw, p, rest);
      FieldRefsAppend(c, [FieldToken(f) + Glued(kw, p, n)], Loose(kw, p, n) + tokens);
      FieldRefsAppend(c, Loose(kw, p, n), tokens);
      assert [] + rest == rest && fields == [f] + rest;
    }
  }

  lemma StopsAreKeywords(w: string)
    requires !IsKeyword(w)
    ensures w !in AFTER_GROUP && w !in AFTER_ORDER && w !in AFTER_PROOF
  {
  }

  lemma ClauseKeywords()
    ensures IsKeyword("GROUP") && IsKeyword("ORDER") && IsKeyword("BY")
  {
  }

  lemma TwoTokens(a: string, b: string, ts: Tokens, tail: Tokens)
    ensures [a, b] + ts + tail == [a] + ([b] + (ts + tail))
  {
  }

  lemma GroupReads(c: Casing, kw: Spelling, groupBy: Option<seq<FieldRef>>, tail: Tokens)
    requires Standard(c) && Spells(c, kw)
    requires groupBy.Some? ==> forall f :: f in groupBy.value ==> IsField(c, f)
    requires if groupBy.None? then !At(c, tail, "GROUP") else StopsAt(c, tail, AFTER_GROUP)
    ensures GroupClause(c, GroupTokens(kw, groupBy) + tail) == Parsed(groupBy, tail)
  {
    if groupBy.None? {
      assert GroupTokens(kw, groupBy) + tail == tail;
    } else {
      var tokens := FieldTokens(kw, Groups, groupBy.value);
      TwoTokens(kw.word("GROUP"), kw.word("BY"), tokens, tail);
      KeywordLeads(c, kw, "GROUP", [kw.word("BY")] + (tokens + tail));
      ExpectReads(c, kw, "BY", tokens + tail);
      FieldsAreRead(c, kw, Groups, groupBy.value);
      forall t | t in tokens ensures c.upper(t) !in AFTER_GROUP {
        StopsAreKeywords(c.upper(t));
      }
      hide Standard, IsKeyword, Spells;
      UntilReads(c, tokens, tail, AFTER_GROUP);
      FieldRefsRead(c, kw, Groups, groupBy.value);
      assert (tokens + tail)[|tokens|..] == tail;
    }
  }

  lemma OneProofReads(c: Casing, spec: ProofSpec, tail: Tokens)
    requires SpecPrints(c, spec)
    ensures var ts := SpecTokens(spec) + tail;
      && !StopsAt(c, ts, AFTER_PROOF)
      && OneProof(c, ts) == if At(c, tail, "AND") then (spec, true, tail[1..]) else (spec, false, tail)
  {
    hide StripParens, IsSpace;
    Parenthesized(spec.contract);
    var close := "(" + spec.contract + ")";
    assert SpecTokens(spec) + tail == [spec.proofType] + ([close] + tail);
    OneToken(spec.proofType, [close] + tail);
    OneToken(close, tail);
  }

  lemma SpecsTokensOne(kw: Spelling, specs: seq<ProofSpec>)
    requires |specs| == 1
    ensures SpecsTokens(kw, specs) == SpecTokens(specs[0])
  {
  }

  lemma SpecsTokensStep(kw: Spelling, specs: seq<ProofSpec>, tail: Tokens)
    requires |specs| > 1
    ensures SpecsTokens(kw, specs) + tail ==
            SpecTokens(specs[0]) + ([kw.word("AND")] + (SpecsTokens(kw, specs[1..]) + tail))
  {
    hide SpecTokens;
    var more := SpecsTokens(kw, specs[1..]);
    Associates(SpecTokens(specs[0]), [kw.word("AND")] + more, tail);
    Associates([kw.word("AND")], more, tail);
  }

  lemma {:induction false} ProofSpecsRead(c: Casing, kw: Spelling, specs: seq<ProofSpec>, tail: Tokens)
    requires Spells(c, kw) && specs != [] && (forall spec :: spec in specs ==> SpecPrints(c, spec))
    requires StopsAt(c, tail, AFTER_PROOF)
    ensures ProofSpecs(c, SpecsTokens(kw, specs) + tail) == (specs, tail)
    decreases |specs|
  {
    hide OneProof, StopsAt, SpecPrints, Spells, IsKeyword, ProofSpecs, SpecTokens, SpecsTokens, At;
    assert specs[0] in specs;
    if |specs| == 1 {
      SpecsTokensOne(kw, specs);
      OneProofReads(c, specs[0], tail);
      StopIsNoAnd(c, tail);
      ProofSpecsStep(c, SpecTokens(specs[0]) + tail);
      assert specs == [specs[0]];
    } else {
      var rest := SpecsTokens(kw, specs[1..]) + tail;
      ProofSpecsRead(c, kw, specs[1..], tail);
      OneProofReads(c, specs[0], [kw.word("AND")] + rest);
      AndIsKeyword();
      KeywordLeads(c, kw, "AND", rest);
      ProofSpecsStep(c, SpecTokens(specs[0]) + ([kw.word("AND")] + rest));
      SpecsTokensStep(kw, specs, tail);
      assert specs == [specs[0]] + specs[1..];
    }
  }

  lemma AndIsKeyword()
    ensures IsKeyword("AND")
  {
  }

  lemma StopIsNoAnd(c: Casing, ts: Tokens)
    requires StopsAt(c, ts, AFTER_PROOF)
    ensures !At(c, ts, "AND")
  {
  }

  lemma ProofReads(c: Casing, kw: Spelling, specs: seq<ProofSpec>, tail: Tokens)
    requires Spells(c, kw) && forall spec :: spec in specs ==> SpecPrints(c, spec)
    requires StopsAt(c, tail, AFTER_PROOF)
    ensures ProofClause(c, ProofTokens(kw, specs) + tail) == (specs, tail)
  {
    if specs == [] {
      assert ProofTokens(kw, specs) + tail == tail;
    } else {
      var rest := SpecsTokens(kw, specs) + tail;
      assert ProofTokens(kw, specs) + tail == [kw.word("PROOF")] + rest;
      KeywordLeads(c, kw, "PROOF", rest);
      ProofSpecsRead(c, kw, specs, tail);
    }
  }

  predicate NoDirectionAhead(c: Casing, ts: Tokens) {
    !At(c, ts, "ASC") && !At(c, ts, "DESC")
  }

  lemma OrderItemsStep(c: Casing, ts: Tokens)
    requires !StopsAt(c, ts, AFTER_ORDER)
    ensures
      var (item, rest) := OneOrder(c, ts);
      OrderItems(c, ts) == (item + OrderItems(c, rest).0, OrderItems(c, rest).1)
  {
  }

  /** A token with a comma and without a dot is skipped. */
  lemma OrderSkips(c: Casing, s: string, tail: Tokens)
    requires Standard(c) && '.' !in s && ',' !in s
    ensures OrderItems(c, [s + ","] + tail) == OrderItems(c, tail) && NoDirectionAhead(c, [s + ","] + tail)
  {
    hide Standard, StripCommas, IsKeyword;
    CommaIsStripped(s, ",");
    CommaIsNoKeyword(c, s + ",");
    StopsAreKeywords(c.upper(s + ","));
    DirectionsAreKeywords();
    OneToken(s + ",", tail);
    OrderItemsStep(c, [s + ","] + tail);
    assert [] + OrderItems(c, tail).0 == OrderItems(c, tail).0;
  }

  lemma DirectionsAreKeywords()
    ensures IsKeyword("ASC") && IsKeyword("DESC")
  {
  }

  lemma LooseOrderIsSkipped(c: Casing, kw: Spelling, n: nat, tail: Tokens)
    requires Standard(c) && NoDirectionAhead(c, tail)
    ensures OrderItems(c, Loose(kw, Orders, n) + tail) == OrderItems(c, tail)
    ensures NoDirectionAhead(c, Loose(kw, Orders, n) + tail)
  {
    hide OrderItems, NoDirectionAhead;
    OrderSkips(c, "", tail);
    assert "" + "," == "," && [] + tail == tail;
  }

  /** The field of an item is read with the direction that the next tokens give. */
  lemma OrderFieldReads(c: Casing, f: FieldRef, comma: string, rest: Tokens)
    requires Standard(c) && IsField(c, f) && (comma == "" || comma == ",")
    ensures
      var ts, d := [FieldToken(f) + comma] + rest, DirectionOf(c, rest);
      && OrderItems(c, ts) == ([OrderItem(f, d.0)] + OrderItems(c, d.1).0, OrderItems(c, d.1).1)
      && NoDirectionAhead(c, ts)
  {
    hide Standard, FieldToken, StripCommas, IsKeyword, DirectionOf, OrderItems;
    var tok := FieldToken(f);
    FieldTokenReads(f);
    FieldHasNoComma(f);
    CommaIsStripped(tok, comma);
    DotIsNoKeyword(c, tok + comma);
    StopsAreKeywords(c.upper(tok + comma));
    DirectionsAreKeywords();
    OneToken(tok + comma, rest);
    OrderItemsStep(c, [tok + comma] + rest);
  }

  lemma DirectionReads(c: Casing, kw: Spelling, direction: Direction, tail: Tokens)
    requires Spells(c, kw)
    ensures DirectionOf(c, [kw.word(DirectionWord(direction))] + tail) == (direction, tail)
  {
    KeywordLeads(c, kw, DirectionWord(direction), tail);
  }

  /** An order without a direction is ascending. */
  lemma NoDirectionIsAscending(c: Casing, tail: Tokens)
    requires NoDirectionAhead(c, tail)
    ensures DirectionOf(c, tail) == (Asc, tail)
  {
  }

  /** What a spelled direction word holds. */
  lemma DirectionWordIsPlain(c: Casing, kw: Spelling, d: Direction)
    requires Standard(c) && Spells(c, kw)
    ensures '.' !in kw.word(DirectionWord(d)) && ',' !in kw.word(DirectionWord(d))
  {
    var w := kw.word(DirectionWord(d));
    assert c.upper(w) == DirectionWord(d) by {
      DirectionsAreKeywords();
    }
    assert '.' !in c.upper(w) && ',' !in c.upper(w);
  }

  lemma OneOrderReads(c: Casing, kw: Spelling, item: OrderItem, n: nat, tail: Tokens)
    requires Standard(c) && Spells(c, kw) && IsField(c, item.field) && NoDirectionAhead(c, tail)
    ensures
      var ts := ItemTokens(kw, item, n) + tail;
      && OrderItems(c, ts) == ([ItemAsRead(kw, item, n)] + OrderItems(c, tail).0, OrderItems(c, tail).1)
      && NoDirectionAhead(c, ts)
  {
    hide Standard, Spells, FieldToken, OrderItems, DirectionOf, NoDirectionAhead, IsField;
    var f, comma := FieldToken(item.field), Glued(kw, Orders, n);
    if item.direction == Asc && kw.silent(n) {
      NoDirectionIsAscending(c, tail);
      OrderFieldReads(c, item.field, comma, tail);
    } else {
      var w := kw.word(DirectionWord(item.direction));
      assert ItemTokens(kw, item, n) + tail == [f + ""] + ([w + comma] + tail) by {
        assert f + "" == f;
      }
      OrderFieldReads(c, item.field, "", [w + comma] + tail);
      if kw.glued(Orders, n) {
        DirectionWordIsPlain(c, kw, item.direction);
        OrderSkips(c, w, tail);
        NoDirectionIsAscending(c, [w + comma] + tail);
      } else {
        assert w + comma == w;
        DirectionReads(c, kw, item.direction, tail);
      }
    }
  }

  lemma {:induction false} OrderItemsRead(c: Casing, kw: Spelling, items: seq<OrderItem>, tail: Tokens)
    requires Standard(c) && Spells(c, kw) && (forall item :: item in items ==> IsField(c, item.field))
    requires StopsAt(c, tail, AFTER_ORDER)
    ensures OrderItems(c, ItemsTokens(kw, items) + tail) == (ItemsAsRead(kw, items), tail)
    ensures NoDirectionAhead(c, ItemsTokens(kw, items) + tail)
    decreases |items|
  {
    hide Standard, Spells, IsField, ItemTokens, NoDirectionAhead, OrderItems, Loose, ItemAsRead;
    if items == [] {
      assert ItemsTokens(kw, items) + tail == tail;
      StopIsNoDirection(c, tail);
      OrderItemsStop(c, tail);
    } else {
      var rest, n := items[1..], |items|;
      var after := ItemsTokens(kw, rest) + tail;
      OrderItemsRead(c, kw, rest, tail);
      LooseOrderIsSkipped(c, kw, n, after);
      OneOrderReads(c, kw, items[0], n, Loose(kw, Orders, n) + after);
      ListStep(ItemTokens(kw, items[0], n), Loose(kw, Orders, n), ItemsTokens(kw, rest), tail);
    }
  }

  lemma StopIsNoDirection(c: Casing, ts: Tokens)
    requires StopsAt(c, ts, AFTER_ORDER)
    ensures NoDirectionAhead(c, ts)
  {
  }

  lemma OrderItemsStop(c: Casing, ts: Tokens)
    requires StopsAt(c, ts, AFTER_ORDER)
    ensures OrderItems(c, ts) == ([], ts)
  {
  }

  lemma OrderReads(c: Casing, kw: Spelling, orderBy: Option<seq<OrderItem>>, tail: Tokens)
    requires Standard(c) && Spells(c, kw)
    requires orderBy.Some? ==> forall item :: item in orderBy.value ==> IsField(c, item.field)
    requires if orderBy.None? then !At(c, tail, "ORDER") else StopsAt(c, tail, AFTER_ORDER)
    ensures OrderClause(c, OrderTokens(kw, orderBy) + tail) == Parsed(OrderByAsRead(kw, orderBy), tail)
  {
    ClauseKeywords();
    hide Standard, Spells, IsKeyword, IsField, OrderItems, StopsAt, ItemsTokens;
    if orderBy.None? {
      assert OrderTokens(kw, orderBy) + tail == tail;
    } else {
      var rest := ItemsTokens(kw, orderBy.value) + tail;
      TwoTokens(kw.word("ORDER"), kw.word("BY"), ItemsTokens(kw, orderBy.value), tail);
      KeywordLeads(c, kw, "ORDER", [kw.word("BY")] + rest);
      ExpectReads(c, kw, "BY", rest);
      OrderItemsRead(c, kw, orderBy.value, tail);
    }
  }

  lemma NumberReads(c: Casing, kw: Spelling, keyword: string, n: Option<Number>, tail: Tokens)
    requires Spells(c, kw) && IsKeyword(keyword) && n != Some(NaN)
    requires n.None? ==> !At(c, tail, keyword)
    ensures NumberClause(c, NumberTokens(kw, keyword, n) + tail, keyword) == (n, tail)
  {
    if n.None? {
      assert NumberTokens(kw, keyword, n) + tail == tail;
    } else {
      var digits := Decimal(n.value.value);
      assert NumberTokens(kw, keyword, n) + tail == [kw.word(keyword)] + ([digits] + tail);
      KeywordLeads(c, kw, keyword, [digits] + tail);
      OneToken(digits, tail);
      DecimalReads(n.value.value);
    }
  }
}
