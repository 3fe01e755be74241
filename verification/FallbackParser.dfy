/** The fallback parser for VCL queries: a cursor over white-space separated tokens.

The functions say what each clause takes from the tokens that remain and what is left after it;
the class moves the cursor as the code does. `null` in the parsed query is None, and [] for the
three lists that become null when empty. */
module FallbackParser {
  import opened Wrappers
  import opened QueryText

  datatype FieldRef = FieldRef(modality: string, field: string)

  datatype Aggregate = CountAll | AggregateField(func: string, target: FieldRef)

  datatype Source =
    | Hexad(id: Option<string>)
    | Federation(pattern: Option<string>, drift: Option<string>)
    | StoreSource(id: Option<string>)

  datatype ProofSpec = ProofSpec(proofType: string, contract: string)

  datatype Direction = Asc | Desc

  datatype OrderItem = OrderItem(field: FieldRef, direction: Direction)

  datatype Selected = Selected(modalities: seq<string>, projections: seq<FieldRef>, aggregates: seq<Aggregate>)

  datatype Query = Query(
    selected: Selected,
    source: Source,
    filter: Option<string>,
    groupBy: Option<seq<FieldRef>>,
    having: Option<string>,
    proof: seq<ProofSpec>,
    orderBy: Option<seq<OrderItem>>,
    limit: Option<Number>,
    offset: Option<Number>)

  datatype Error = Expected(keyword: string, got: Option<string>) | UnknownSource(kind: Option<string>)

  type Tokens = seq<string>

  /** A value and the tokens after it, or an error. */
  datatype Parsed<+T> = Parsed(value: T, rest: Tokens) | Failed(error: Error)

  predicate IsModality(s: string) {
    || s == "GRAPH" || s == "VECTOR" || s == "TENSOR" || s == "SEMANTIC"
    || s == "DOCUMENT" || s == "TEMPORAL" || s == "PROVENANCE" || s == "SPATIAL"
  }

  predicate IsAggregate(s: string) {
    s == "COUNT" || s == "SUM" || s == "AVG" || s == "MIN" || s == "MAX"
  }

  const AFTER_WHERE := {"PROOF", "LIMIT", "OFFSET"}
  const AFTER_GROUP := {"HAVING", "PROOF", "ORDER", "LIMIT", "OFFSET"}
  const AFTER_HAVING := {"PROOF", "ORDER", "LIMIT", "OFFSET"}
  const AFTER_PROOF := {"ORDER", "LIMIT", "OFFSET"}
  const AFTER_ORDER := {"LIMIT", "OFFSET"}

  // ----- Tokens

  function Head(ts: Tokens): Option<string> {
    if ts == [] then None else Some(ts[0])
  }

  function Rest(ts: Tokens): Tokens {
    if ts == [] then [] else ts[1..]
  }

  predicate At(c: Casing, ts: Tokens, keyword: string) {
    ts != [] && c.upper(ts[0]) == keyword
  }

  /** The tokens have run out or the next one is one of the keywords. */
  predicate StopsAt(c: Casing, ts: Tokens, keywords: set<string>) {
    ts == [] || c.upper(ts[0]) in keywords
  }

  function Until(c: Casing, ts: Tokens, keywords: set<string>): (r: Tokens)
    ensures r <= ts && (forall t :: t in r ==> c.upper(t) !in keywords)
    ensures StopsAt(c, ts[|r|..], keywords)
  {
    if StopsAt(c, ts, keywords) then [] else [ts[0]] + Until(c, ts[1..], keywords)
  }

  function Expect(c: Casing, ts: Tokens, keyword: string): Parsed<string> {
    if At(c, ts, keyword) then Parsed(ts[0], ts[1..]) else Failed(Expected(keyword, Head(ts)))
  }

  function StripCommas(s: string): string {
    Without(s, {','})
  }

  function StripParens(s: string): string {
    Without(s, {'(', ')'})
  }

  predicate OpensParen(ts: Tokens) {
    ts != [] && ts[0] != "" && ts[0][0] == '('
  }

  function AddOnce(names: seq<string>, name: string): seq<string> {
    if name in names then names else names + [name]
  }

  // ----- The selection list

  function AggregateInner(ts: Tokens): (string, Tokens)
    requires ts != []
  {
    var inner, rest := StripParens(ts[0]), ts[1..];
    var (inner', rest') := if inner == "" && rest != [] then (StripParens(rest[0]), rest[1..]) else (inner, rest);
    (inner', if rest' != [] && rest'[0] == ")" then rest'[1..] else rest')
  }

  /** The first letter of the modality keeps its case here, unlike everywhere else. */
  function AggregateModality(c: Casing, name: string): string {
    First(name) + c.lower(AllButFirst(name))
  }

  /** So an aggregate names the modality as the other clauses do exactly when its first letter is
      already in upper case. */
  lemma AggregateKeepsCaseIff(c: Casing, name: string)
    ensures AggregateModality(c, name) == Title(c, name) <==> c.upper(First(name)) == First(name)
  {
    var rest := c.lower(AllButFirst(name));
    if First(name) + rest == c.upper(First(name)) + rest {
      assert |First(name)| == |c.upper(First(name))|;
      assert First(name) == (First(name) + rest)[..|First(name)|];
      assert c.upper(First(name)) == (c.upper(First(name)) + rest)[..|First(name)|];
    }
  }

  function AddAggregate(c: Casing, acc: Selected, func: string, inner: string): Selected {
    if inner == "*" then acc.(aggregates := acc.aggregates + [CountAll])
    else if '.' in inner then
      var m := AggregateModality(c, UpToDot(inner));
      acc.(aggregates := acc.aggregates +
             [AggregateField(First(func) + c.lower(AllButFirst(func)), FieldRef(m, AfterDot(inner)))],
           modalities := AddOnce(acc.modalities, m))
    else acc
  }

  predicate IsProjection(c: Casing, tok: string) {
    '.' in tok && IsModality(c.upper(UpToDot(tok)))
  }

  function AddProjection(c: Casing, acc: Selected, tok: string): Selected
    requires '.' in tok
  {
    var m := Title(c, UpToDot(tok));
    acc.(projections := acc.projections + [FieldRef(m, AfterDot(tok))], modalities := AddOnce(acc.modalities, m))
  }

  function AddBare(c: Casing, acc: Selected, upper: string): Selected {
    if upper == "*" then acc.(modalities := acc.modalities + ["All"])
    else if IsModality(upper) then acc.(modalities := acc.modalities + [First(upper) + c.lower(AllButFirst(upper))])
    else acc
  }

  /** What one turn of the selection loop adds, and where it leaves the cursor. */
  function SelectOne(c: Casing, acc: Selected, ts: Tokens): (r: (Selected, Tokens))
    requires ts != []
    ensures |r.1| < |ts|
  {
    var tok := StripCommas(ts[0]);
    if IsAggregate(c.upper(tok)) then
      if OpensParen(ts[1..]) then
        var (inner, rest) := AggregateInner(ts[1..]);
        (AddAggregate(c, acc, c.upper(tok), inner), rest)
      else (acc, ts[1..])
    else if IsProjection(c, tok) then (AddProjection(c, acc, tok), ts[1..])
    else (AddBare(c, acc, c.upper(tok)), ts[1..])
  }

  function Select(c: Casing, acc: Selected, ts: Tokens): (Selected, Tokens)
    decreases |ts|
  {
    if StopsAt(c, ts, {"FROM"}) then (acc, ts)
    else var (acc', ts') := SelectOne(c, acc, ts); Select(c, acc', ts')
  }

  // ----- The other clauses

  function UpperOf(c: Casing, t: Option<string>): Option<string> {
    match t case None => None case Some(s) => Some(c.upper(s))
  }

  function SourceClause(c: Casing, ts: Tokens): Parsed<Source> {
    var kind, rest := UpperOf(c, Head(ts)), Rest(ts);
    if kind == Some("HEXAD") then Parsed(Hexad(Head(rest)), Rest(rest))
    else if kind == Some("FEDERATION") then
      var pattern, rest := Head(rest), Rest(rest);
      if !At(c, rest, "WITH") then Parsed(Federation(pattern, None), rest)
      else match Expect(c, rest[1..], "DRIFT")
        case Failed(e) => Failed(e)
        case Parsed(_, rest) => Parsed(Federation(pattern, UpperOf(c, Head(rest))), Rest(rest))
    else if kind == Some("STORE") then Parsed(StoreSource(Head(rest)), Rest(rest))
    else Failed(UnknownSource(kind))
  }

  /** A keyword and the raw text after it, up to one of the stop words. */
  function RawClause(c: Casing, ts: Tokens, keyword: string, stops: set<string>): (Option<string>, Tokens) {
    if !At(c, ts, keyword) then (None, ts)
    else var raw := Until(c, ts[1..], stops); (Some(Join(raw)), ts[1 + |raw|..])
  }

  /** The field references among the tokens; tokens without a dot are dropped. */
  function FieldRefs(c: Casing, ts: Tokens): seq<FieldRef> {
    if ts == [] then []
    else
      var init, tok := ts[..|ts| - 1], StripCommas(ts[|ts| - 1]);
      FieldRefs(c, init) + if '.' in tok then [FieldRef(Title(c, UpToDot(tok)), AfterDot(tok))] else []
  }

  function GroupClause(c: Casing, ts: Tokens): Parsed<Option<seq<FieldRef>>> {
    if !At(c, ts, "GROUP") then Parsed(None, ts)
    else match Expect(c, ts[1..], "BY")
      case Failed(e) => Failed(e)
      case Parsed(_, rest) =>
        var taken := Until(c, rest, AFTER_GROUP);
        Parsed(Some(FieldRefs(c, taken)), rest[|taken|..])
  }

  function ContractName(t: Option<string>): string {
    match t case None => "" case Some(s) => StripParens(s)
  }

  /** One proof specification, and whether AND announces another. */
  function OneProof(c: Casing, ts: Tokens): (r: (ProofSpec, bool, Tokens))
    requires ts != []
    ensures |r.2| < |ts|
  {
    var spec, rest := ProofSpec(ts[0], ContractName(Head(ts[1..]))), Rest(ts[1..]);
    if At(c, rest, "AND") then (spec, true, rest[1..]) else (spec, false, rest)
  }

  function ProofSpecs(c: Casing, ts: Tokens): (seq<ProofSpec>, Tokens)
    decreases |ts|
  {
    if StopsAt(c, ts, AFTER_PROOF) then ([], ts)
    else
      var (spec, more, rest) := OneProof(c, ts);
      if more then var (specs, rest') := ProofSpecs(c, rest); ([spec] + specs, rest')
      else ([spec], rest)
  }

  function ProofClause(c: Casing, ts: Tokens): (seq<ProofSpec>, Tokens) {
    if At(c, ts, "PROOF") then ProofSpecs(c, ts[1..]) else ([], ts)
  }

  function DirectionOf(c: Casing, ts: Tokens): (Direction, Tokens) {
    if At(c, ts, "ASC") then (Asc, ts[1..])
    else if At(c, ts, "DESC") then (Desc, ts[1..])
    else (Asc, ts)
  }

  /** What one turn of the loop adds; a token without a dot is dropped. */
  function OneOrder(c: Casing, ts: Tokens): (r: (seq<OrderItem>, Tokens))
    requires ts != []
    ensures |r.1| < |ts|
  {
    var tok := StripCommas(ts[0]);
    if '.' in tok then
      var (direction, rest) := DirectionOf(c, ts[1..]);
      ([OrderItem(FieldRef(Title(c, UpToDot(tok)), AfterDot(tok)), direction)], rest)
    else ([], ts[1..])
  }

  function OrderItems(c: Casing, ts: Tokens): (seq<OrderItem>, Tokens)
    decreases |ts|
  {
    if StopsAt(c, ts, AFTER_ORDER) then ([], ts)
    else
      var (item, rest) := OneOrder(c, ts);
      var (items, rest') := OrderItems(c, rest);
      (item + items, rest')
  }

  function OrderClause(c: Casing, ts: Tokens): Parsed<Option<seq<OrderItem>>> {
    if !At(c, ts, "ORDER") then Parsed(None, ts)
    else match Expect(c, ts[1..], "BY")
      case Failed(e) => Failed(e)
      case Parsed(_, rest) => var (items, rest') := OrderItems(c, rest); Parsed(Some(items), rest')
  }

  function NumberClause(c: Casing, ts: Tokens, keyword: string): (Option<Number>, Tokens) {
    if !At(c, ts, keyword) then (None, ts)
    else (Some(match Head(ts[1..]) case None => NaN case Some(s) => ParseInt(s)), Rest(ts[1..]))
  }

  /** Everything after the source. */
  function Clauses(c: Casing, selected: Selected, source: Source, ts: Tokens): Parsed<Query> {
    var (filter, ts) := RawClause(c, ts, "WHERE", AFTER_WHERE);
    match GroupClause(c, ts)
    case Failed(e) => Failed(e)
    case Parsed(groupBy, ts) =>
      var (having, ts) := RawClause(c, ts, "HAVING", AFTER_HAVING);
      var (proof, ts) := ProofClause(c, ts);
      match OrderClause(c, ts)
      case Failed(e) => Failed(e)
      case Parsed(orderBy, ts) =>
        var (limit, ts) := NumberClause(c, ts, "LIMIT");
        var (offset, ts) := NumberClause(c, ts, "OFFSET");
        Parsed(Query(selected, source, filter, groupBy, having, proof, orderBy, limit, offset), ts)
  }

  /** The query at the front of the tokens, and the tokens the parser never looks at. */
  function ParseTokens(c: Casing, ts: Tokens): Parsed<Query> {
    match Expect(c, ts, "SELECT")
    case Failed(e) => Failed(e)
    case Parsed(_, ts) =>
      var (selected, ts) := Select(c, Selected([], [], []), ts);
      match Expect(c, ts, "FROM")
      case Failed(e) => Failed(e)
      case Parsed(_, ts) =>
        match SourceClause(c, ts)
        case Failed(e) => Failed(e)
        case Parsed(source, ts) => Clauses(c, selected, source, ts)
  }

  function ParseText(c: Casing, text: string): Result<Query, Error> {
    match ParseTokens(c, Words(text))
    case Parsed(q, _) => Ok(q)
    case Failed(e) => Err(e)
  }

  // ----- Taking tokens one at a time

  /** `taken` is the part of `all` before `left`, and no stop word is in it. */
  ghost predicate IsTaken(c: Casing, all: Tokens, taken: Tokens, left: Tokens, stops: set<string>) {
    all == taken + left && Until(c, all, stops) == taken + Until(c, left, stops)
  }

  lemma TakeNone(c: Casing, all: Tokens, stops: set<string>)
    ensures IsTaken(c, all, [], all, stops)
  {
    assert [] + all == all && [] + Until(c, all, stops) == Until(c, all, stops);
  }

  lemma TakeOne(c: Casing, all: Tokens, taken: Tokens, left: Tokens, stops: set<string>)
    requires IsTaken(c, all, taken, left, stops) && !StopsAt(c, left, stops)
    ensures IsTaken(c, all, taken + [left[0]], left[1..], stops)
  {
    assert left == [left[0]] + left[1..];
    assert taken + ([left[0]] + left[1..]) == taken + [left[0]] + left[1..];
    var rest := Until(c, left[1..], stops);
    assert Until(c, left, stops) == [left[0]] + rest;
    assert taken + ([left[0]] + rest) == taken + [left[0]] + rest;
  }

  lemma TakeAll(c: Casing, all: Tokens, taken: Tokens, left: Tokens, stops: set<string>)
    requires IsTaken(c, all, taken, left, stops) && StopsAt(c, left, stops)
    ensures taken == Until(c, all, stops) && left == all[|taken|..]
  {
  }

  lemma FieldRefsNone(c: Casing)
    ensures FieldRefs(c, []) == []
  {
  }

  lemma FieldRefsStep(c: Casing, ts: Tokens, t: string)
    ensures var tok := StripCommas(t);
      FieldRefs(c, ts + [t]) ==
        FieldRefs(c, ts) + if '.' in tok then [FieldRef(Title(c, UpToDot(tok)), AfterDot(tok))] else []
  {
    assert (ts + [t])[..|ts|] == ts;
  }

  /** `specs` have been read, and `left` is still to be read if another one is announced. */
  ghost predicate ProofsRead(c: Casing, all: Tokens, specs: seq<ProofSpec>, more: bool, left: Tokens) {
    ProofSpecs(c, all) ==
      if more then (specs + ProofSpecs(c, left).0, ProofSpecs(c, left).1) else (specs, left)
  }

  lemma ReadNoProof(c: Casing, all: Tokens)
    ensures ProofsRead(c, all, [], true, all)
  {
    assert [] + ProofSpecs(c, all).0 == ProofSpecs(c, all).0;
  }

  lemma ProofSpecsStep(c: Casing, ts: Tokens)
    requires !StopsAt(c, ts, AFTER_PROOF)
    ensures var (spec, more, rest) := OneProof(c, ts);
      ProofSpecs(c, ts) == if more then ([spec] + ProofSpecs(c, rest).0, ProofSpecs(c, rest).1) else ([spec], rest)
  {
  }

  lemma OneMore<T>(a: seq<T>, x: T, b: seq<T>)
    ensures a + ([x] + b) == a + [x] + b
  {
  }

  lemma ReadOneProof(c: Casing, all: Tokens, specs: seq<ProofSpec>, left: Tokens)
    requires ProofsRead(c, all, specs, true, left) && !StopsAt(c, left, AFTER_PROOF)
    ensures var (spec, more, rest) := OneProof(c, left); ProofsRead(c, all, specs + [spec], more, rest)
  {
    assert left != [];
    hide ProofSpecs, OneProof, StopsAt;
    var (spec, more, rest) := OneProof(c, left);
    ProofSpecsStep(c, left);
    OneMore(specs, spec, ProofSpecs(c, rest).0);
  }

  lemma ReadAllProofs(c: Casing, all: Tokens, specs: seq<ProofSpec>, more: bool, left: Tokens)
    requires ProofsRead(c, all, specs, more, left) && (more ==> StopsAt(c, left, AFTER_PROOF))
    ensures ProofSpecs(c, all) == (specs, left)
  {
    assert specs + [] == specs;
  }

  ghost predicate OrdersRead(c: Casing, all: Tokens, items: seq<OrderItem>, left: Tokens) {
    OrderItems(c, all) == (items + OrderItems(c, left).0, OrderItems(c, left).1)
  }

  lemma ReadNoOrder(c: Casing, all: Tokens)
    ensures OrdersRead(c, all, [], all)
  {
    assert [] + OrderItems(c, all).0 == OrderItems(c, all).0;
  }

  lemma ReadOneOrder(c: Casing, all: Tokens, items: seq<OrderItem>, left: Tokens)
    requires OrdersRead(c, all, items, left) && !StopsAt(c, left, AFTER_ORDER)
    ensures OrdersRead(c, all, items + OneOrder(c, left).0, OneOrder(c, left).1)
  {
    var (item, rest) := OneOrder(c, left);
    assert items + (item + OrderItems(c, rest).0) == items + item + OrderItems(c, rest).0;
  }

  lemma ReadAllOrders(c: Casing, all: Tokens, items: seq<OrderItem>, left: Tokens)
    requires OrdersRead(c, all, items, left) && StopsAt(c, left, AFTER_ORDER)
    ensures OrderItems(c, all) == (items, left)
  {
    assert items + [] == items;
  }

  // ----- The cursor

  class Cursor {
    const c: Casing
    const tokens: Tokens
    var pos: nat

    constructor (c: Casing, tokens: Tokens)
      ensures this.c == c && this.tokens == tokens && Left() == tokens
    {
      this.c, this.tokens, pos := c, tokens, 0;
    }

    /** The tokens that remain; the cursor may run past the end. */
    function Left(): Tokens
      reads this
    {
      if pos <= |tokens| then tokens[pos..] else []
    }

    method Peek() returns (t: Option<string>)
      ensures t == Head(Left())
    {
      t := if pos < |tokens| then Some(tokens[pos]) else None;
    }

    method Advance() returns (t: Option<string>)
      modifies this
      ensures t == Head(old(Left())) && Left() == Rest(old(Left()))
    {
      t := if pos < |tokens| then Some(tokens[pos]) else None;
      pos := pos + 1;
    }

    method Next() returns (t: string)
      requires Left() != []
      modifies this
      ensures t == old(Left())[0] && Left() == old(Left())[1..]
    {
      t := tokens[pos];
      pos := pos + 1;
    }

    method PeekIs(keyword: string) returns (b: bool)
      ensures b == At(c, Left(), keyword)
    {
      var t := Peek();
      b := t.Some? && c.upper(t.value) == keyword;
    }

    method Stops(keywords: set<string>) returns (b: bool)
      ensures b == StopsAt(c, Left(), keywords)
    {
      var t := Peek();
      b := t.None? || c.upper(t.value) in keywords;
    }

    method ExpectKeyword(keyword: string) returns (error: Option<Error>)
      modifies this
      ensures match Expect(c, old(Left()), keyword)
        case Parsed(_, rest) => error == None && Left() == rest
        case Failed(e) => error == Some(e)
    {
      var got := Advance();
      error := if got.Some? && c.upper(got.value) == keyword then None else Some(Expected(keyword, got));
    }

    method ParseSelection() returns (selected: Selected)
      modifies this
      ensures (selected, Left()) == Select(c, Selected([], [], []), old(Left()))
    {
      selected := Selected([], [], []);
      var stop := Stops({"FROM"});
      while !stop
        invariant Select(c, selected, Left()) == Select(c, Selected([], [], []), old(Left()))
        invariant stop == StopsAt(c, Left(), {"FROM"})
        decreases |Left()|
      {
        selected := SelectNext(selected);
        stop := Stops({"FROM"});
      }
    }

    method SelectNext(acc: Selected) returns (selected: Selected)
      requires Left() != []
      modifies this
      ensures (selected, Left()) == SelectOne(c, acc, old(Left()))
    {
      var first := Next();
      var tok := StripCommas(first);
      if IsAggregate(c.upper(tok)) {
        var next := Peek();
        if next.Some? && next.value != "" && next.value[0] == '(' {
          var inner := ParseInner();
          return AddAggregate(c, acc, c.upper(tok), inner);
        }
        return acc;
      }
      if IsProjection(c, tok) {
        return AddProjection(c, acc, tok);
      }
      selected := AddBare(c, acc, c.upper(tok));
    }

    method ParseInner() returns (inner: string)
      requires Left() != []
      modifies this
      ensures (inner, Left()) == AggregateInner(old(Left()))
    {
      var tok := Next();
      inner := StripParens(tok);
      var next := Peek();
      if inner == "" && next.Some? {
        tok := Next();
        inner := StripParens(tok);
      }
      next := Peek();
      if next == Some(")") {
        next := Advance();
      }
    }

    method ParseSource() returns (r: Result<Source, Error>)
      modifies this
      ensures match SourceClause(c, old(Left()))
        case Parsed(source, rest) => r == Ok(source) && Left() == rest
        case Failed(e) => r == Err(e)
    {
      var kind := Advance();
      if UpperOf(c, kind) == Some("HEXAD") {
        var id := Advance();
        return Ok(Hexad(id));
      }
      if UpperOf(c, kind) == Some("FEDERATION") {
        var pattern := Advance();
        var drift: Option<string> := None;
        var withDrift := PeekIs("WITH");
        if withDrift {
          var word := Advance();
          var error := ExpectKeyword("DRIFT");
          if error.Some? {
            return Err(error.value);
          }
          word := Advance();
          drift := UpperOf(c, word);
        }
        return Ok(Federation(pattern, drift));
      }
      if UpperOf(c, kind) == Some("STORE") {
        var id := Advance();
        return Ok(StoreSource(id));
      }
      r := Err(UnknownSource(UpperOf(c, kind)));
    }

    method TakeUntil(stops: set<string>) returns (taken: Tokens)
      modifies this
      ensures taken == Until(c, old(Left()), stops) && Left() == old(Left())[|taken|..]
    {
      hide Until;
      ghost var all := Left();
      taken := [];
      TakeNone(c, all, stops);
      var stop := Stops(stops);
      while !stop
        invariant IsTaken(c, all, taken, Left(), stops)
        invariant stop == StopsAt(c, Left(), stops)
        decreases |Left()|
      {
        TakeOne(c, all, taken, Left(), stops);
        var tok := Next();
        taken := taken + [tok];
        stop := Stops(stops);
      }
      TakeAll(c, all, taken, Left(), stops);
    }

    method ParseRaw(keyword: string, stops: set<string>) returns (raw: Option<string>)
      modifies this
      ensures (raw, Left()) == RawClause(c, old(Left()), keyword, stops)
    {
      var here := PeekIs(keyword);
      if !here {
        return None;
      }
      var word := Next();
      var taken := TakeUntil(stops);
      raw := Some(Join(taken));
    }

    method ParseGroup() returns (r: Result<Option<seq<FieldRef>>, Error>)
      modifies this
      ensures match GroupClause(c, old(Left()))
        case Parsed(groupBy, rest) => r == Ok(groupBy) && Left() == rest
        case Failed(e) => r == Err(e)
    {
      var here := PeekIs("GROUP");
      if !here {
        return Ok(None);
      }
      var word := Next();
      var error := ExpectKeyword("BY");
      if error.Some? {
        return Err(error.value);
      }
      hide Until, FieldRefs;
      ghost var all := Left();
      ghost var taken: Tokens := [];
      TakeNone(c, all, AFTER_GROUP);
      FieldRefsNone(c);
      var fields: seq<FieldRef> := [];
      var stop := Stops(AFTER_GROUP);
      while !stop
        invariant IsTaken(c, all, taken, Left(), AFTER_GROUP)
        invariant fields == FieldRefs(c, taken)
        invariant stop == StopsAt(c, Left(), AFTER_GROUP)
        decreases |Left()|
      {
        TakeOne(c, all, taken, Left(), AFTER_GROUP);
        FieldRefsStep(c, taken, Left()[0]);
        word := Next();
        taken := taken + [word];
        var tok := StripCommas(word);
        if '.' in tok {
          fields := fields + [FieldRef(Title(c, UpToDot(tok)), AfterDot(tok))];
        }
        stop := Stops(AFTER_GROUP);
      }
      TakeAll(c, all, taken, Left(), AFTER_GROUP);
      r := Ok(Some(fields));
    }

    method ParseProof() returns (specs: seq<ProofSpec>)
      modifies this
      ensures (specs, Left()) == ProofClause(c, old(Left()))
    {
      specs := [];
      var here := PeekIs("PROOF");
      if !here {
        return;
      }
      var word := Next();
      hide ProofSpecs;
      ghost var all := Left();
      ReadNoProof(c, all);
      var stop := Stops(AFTER_PROOF);
      var more := true;
      while !stop && more
        invariant stop == StopsAt(c, Left(), AFTER_PROOF)
        invariant ProofsRead(c, all, specs, more, Left())
        decreases |Left()|
      {
        ReadOneProof(c, all, specs, Left());
        var spec;
        spec, more := ParseOneProof();
        specs := specs + [spec];
        stop := Stops(AFTER_PROOF);
      }
      ReadAllProofs(c, all, specs, more, Left());
    }

    method ParseOneProof() returns (spec: ProofSpec, more: bool)
      requires Left() != []
      modifies this
      ensures (spec, more, Left()) == OneProof(c, old(Left()))
    {
      var proofType := Next();
      var contract := Advance();
      spec := ProofSpec(proofType, ContractName(contract));
      more := PeekIs("AND");
      if more {
        var word := Next();
      }
    }

    method ParseOrder() returns (r: Result<Option<seq<OrderItem>>, Error>)
      modifies this
      ensures match OrderClause(c, old(Left()))
        case Parsed(orderBy, rest) => r == Ok(orderBy) && Left() == rest
        case Failed(e) => r == Err(e)
    {
      var here := PeekIs("ORDER");
      if !here {
        return Ok(None);
      }
      var word := Next();
      var error := ExpectKeyword("BY");
      if error.Some? {
        return Err(error.value);
      }
      var items := ParseOrderItems();
      r := Ok(Some(items));
    }

    method ParseOrderItems() returns (items: seq<OrderItem>)
      modifies this
      ensures (items, Left()) == OrderItems(c, old(Left()))
    {
      hide OrderItems;
      ghost var all := Left();
      items := [];
      ReadNoOrder(c, all);
      var stop := Stops(AFTER_ORDER);
      while !stop
        invariant stop == StopsAt(c, Left(), AFTER_ORDER)
        invariant OrdersRead(c, all, items, Left())
        decreases |Left()|
      {
        ReadOneOrder(c, all, items, Left());
        var item := ParseOneOrder();
        items := items + item;
        stop := Stops(AFTER_ORDER);
      }
      ReadAllOrders(c, all, items, Left());
    }

    /** The item read, if the token has a dot. */
    method ParseOneOrder() returns (item: seq<OrderItem>)
      requires Left() != []
      modifies this
      ensures (item, Left()) == OneOrder(c, old(Left()))
    {
      var word := Next();
      var tok := StripCommas(word);
      item := [];
      if '.' in tok {
        var direction := ParseDirection();
        item := [OrderItem(FieldRef(Title(c, UpToDot(tok)), AfterDot(tok)), direction)];
      }
    }

    method ParseDirection() returns (direction: Direction)
      modifies this
      ensures (direction, Left()) == DirectionOf(c, old(Left()))
    {
      direction := Asc;
      var asc := PeekIs("ASC");
      var desc := PeekIs("DESC");
      if asc {
        var word := Next();
      } else if desc {
        var word := Next();
        direction := Desc;
      }
    }

    method ParseNumber(keyword: string) returns (n: Option<Number>)
      modifies this
      ensures (n, Left()) == NumberClause(c, old(Left()), keyword)
    {
      var here := PeekIs(keyword);
      if !here {
        return None;
      }
      var word := Next();
      var digits := Advance();
      n := Some(match digits case None => NaN case Some(s) => ParseInt(s));
    }

    /** Parse a whole query. When it succeeds, the tokens left over are ignored. */
    method Parse() returns (r: Result<Query, Error>)
      modifies this
      ensures match ParseTokens(c, old(Left()))
        case Parsed(q, rest) => r == Ok(q) && Left() == rest
        case Failed(e) => r == Err(e)
    {
      var error := ExpectKeyword("SELECT");
      if error.Some? {
        return Err(error.value);
      }
      var selected := ParseSelection();
      error := ExpectKeyword("FROM");
      if error.Some? {
        return Err(error.value);
      }
      var source := ParseSource();
      if source.Err? {
        return Err(source.error);
      }
      r := ParseClauses(selected, source.value);
    }

    method ParseClauses(selected: Selected, source: Source) returns (r: Result<Query, Error>)
      modifies this
      ensures match Clauses(c, selected, source, old(Left()))
        case Parsed(q, rest) => r == Ok(q) && Left() == rest
        case Failed(e) => r == Err(e)
    {
      var filter := ParseRaw("WHERE", AFTER_WHERE);
      var groupBy := ParseGroup();
      if groupBy.Err? {
        return Err(groupBy.error);
      }
      var having := ParseRaw("HAVING", AFTER_HAVING);
      var proof := ParseProof();
      var orderBy := ParseOrder();
      if orderBy.Err? {
        return Err(orderBy.error);
      }
      var limit := ParseNumber("LIMIT");
      var offset := ParseNumber("OFFSET");
      r := Ok(Query(selected, source, filter, groupBy.value, having, proof, orderBy.value, limit, offset));
    }
  }

  method FallbackParse(c: Casing, text: string) returns (r: Result<Query, Error>)
    ensures r == ParseText(c, text)
  {
    var cursor := new Cursor(c, Words(text));
    r := cursor.Parse();
  }
}
