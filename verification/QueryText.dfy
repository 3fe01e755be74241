/** The text operations the query tokenizer and the fallback parser share: letter case, white space,
joining and splitting words, dropping characters, splitting at a dot, and decimal numbers. */
module QueryText {

  // ----- Letter case

  /** The Unicode case mappings of whole strings. */
  datatype Casing = Casing(upper: string -> string, lower: string -> string)

  predicate IsAscii(s: string) {
    forall ch :: ch in s ==> ch < '\U{0080}'
  }

  function UpperChar(ch: char): char {
    if 'a' <= ch <= 'z' then (ch as int - 32) as char else ch
  }

  function LowerChar(ch: char): char {
    if 'A' <= ch <= 'Z' then (ch as int + 32) as char else ch
  }

  function UpperAscii(s: string): (r: string)
    ensures |r| == |s| && forall i :: 0 <= i < |s| ==> r[i] == UpperChar(s[i])
  {
    if s == "" then "" else [UpperChar(s[0])] + UpperAscii(s[1..])
  }

  function LowerAscii(s: string): (r: string)
    ensures |r| == |s| && forall i :: 0 <= i < |s| ==> r[i] == LowerChar(s[i])
  {
    if s == "" then "" else [LowerChar(s[0])] + LowerAscii(s[1..])
  }

  /** What is assumed of the case mappings: on ASCII text they are the usual ones, and a dot, a comma
      or an opening parenthesis stays. */
  ghost predicate Standard(c: Casing) {
    && (forall s {:trigger c.upper(s)} :: IsAscii(s) ==> c.upper(s) == UpperAscii(s))
    && (forall s {:trigger c.lower(s)} :: IsAscii(s) ==> c.lower(s) == LowerAscii(s))
    && (forall s {:trigger c.upper(s)} :: '.' in s ==> '.' in c.upper(s))
    && (forall s {:trigger c.upper(s)} :: ',' in s ==> ',' in c.upper(s))
    && (forall s {:trigger c.upper(s)} :: '(' in s ==> '(' in c.upper(s))
  }

  function First(s: string): string {
    if s == "" then "" else s[..1]
  }

  function AllButFirst(s: string): string {
    if s == "" then "" else s[1..]
  }

  /** First letter in upper case, the others in lower case. */
  function Title(c: Casing, s: string): string {
    c.upper(First(s)) + c.lower(AllButFirst(s))
  }

  // ----- White space

  predicate IsSpace(ch: char) {
    || '\t' <= ch <= '\r' || ch == ' ' || ch == '\U{00A0}' || ch == '\U{1680}'
    || '\U{2000}' <= ch <= '\U{200A}' || ch == '\U{2028}' || ch == '\U{2029}'
    || ch == '\U{202F}' || ch == '\U{205F}' || ch == '\U{3000}' || ch == '\U{FEFF}'
  }

  /** A non-empty text without white space. */
  predicate IsWord(s: string) {
    s != "" && forall ch :: ch in s ==> !IsSpace(ch)
  }

  function WordLength(s: string): (n: nat)
    ensures n <= |s| && (s != "" && !IsSpace(s[0]) ==> n > 0)
    ensures forall i :: 0 <= i < n ==> !IsSpace(s[i])
  {
    if s == "" || IsSpace(s[0]) then 0 else 1 + WordLength(s[1..])
  }

  /** The maximal runs of characters that are not white space, in order. */
  function Words(s: string): (words: seq<string>)
    ensures forall w :: w in words ==> IsWord(w)
    decreases |s|
  {
    if s == "" then []
    else if IsSpace(s[0]) then Words(s[1..])
    else [s[..WordLength(s)]] + Words(s[WordLength(s)..])
  }

  function Join(words: seq<string>): string {
    if words == [] then ""
    else if |words| == 1 then words[0]
    else words[0] + " " + Join(words[1..])
  }

  lemma {:induction false} WordLengthOf(w: string, rest: string)
    requires (forall ch :: ch in w ==> !IsSpace(ch)) && (rest == "" || IsSpace(rest[0]))
    ensures WordLength(w + rest) == |w|
  {
    if w == "" {
      assert w + rest == rest;
    } else {
      assert (w + rest)[1..] == w[1..] + rest;
      WordLengthOf(w[1..], rest);
    }
  }

  lemma BlankIsSpace()
    ensures IsSpace(' ')
  {
  }

  lemma WordsStep(w: string, rest: string)
    requires IsWord(w) && (rest == "" || IsSpace(rest[0]))
    ensures Words(w + rest) == [w] + Words(rest)
  {
    hide IsSpace;
    WordLengthOf(w, rest);
    assert (w + rest)[..|w|] == w && (w + rest)[|w|..] == rest;
    assert (w + rest)[0] == w[0] && w[0] in w;
  }

  lemma WordsSkip(s: string)
    ensures Words(" " + s) == Words(s)
  {
    assert (" " + s)[1..] == s;
  }

  lemma {:induction false} WordsOfJoin(words: seq<string>)
    requires forall w :: w in words ==> IsWord(w)
    ensures Words(Join(words)) == words
  {
    hide IsSpace, IsWord, Words;
    if words == [] {
      WordsOfNothing();
    } else {
      var w := words[0];
      assert w in words;
      BlankIsSpace();
      if |words| == 1 {
        WordsOfNothing();
        WordsStep(w, "");
        assert w + "" == w && [w] + [] == words;
      } else {
        var rest := Join(words[1..]);
        WordsOfJoin(words[1..]);
        WordsSkip(rest);
        WordsStep(w, " " + rest);
        assert w + " " + rest == w + (" " + rest);
        assert words == [w] + words[1..];
      }
    }
  }

  lemma WordsOfNothing()
    ensures Words("") == []
  {
  }

  lemma {:induction false} JoinGrows(words: seq<string>, more: seq<string>)
    requires more != [] && forall w :: w in more ==> IsWord(w)
    ensures |Join(words + more)| > |Join(words)|
  {
    if words == [] {
      assert words + more == more;
      assert IsWord(more[0]);
    } else if |words| == 1 {
      assert (words + more)[1..] == more;
    } else {
      assert (words + more)[1..] == words[1..] + more;
      JoinGrows(words[1..], more);
    }
  }

  // ----- Characters

  function Without(s: string, drop: set<char>): string {
    if s == "" then "" else (if s[0] in drop then "" else [s[0]]) + Without(s[1..], drop)
  }

  lemma {:induction false} WithoutNone(s: string, drop: set<char>)
    requires forall ch :: ch in s ==> ch !in drop
    ensures Without(s, drop) == s
  {
    if s != "" {
      assert s[0] in s;
      WithoutNone(s[1..], drop);
    }
  }

  /** `r` consists of the characters of `s` outside the dropped set, in their order: those at `at`. */
  ghost predicate IsFiltered(s: string, drop: set<char>, r: string, at: seq<nat>) {
    && |at| == |r|
    && (forall k :: 0 <= k < |at| ==> at[k] < |s| && r[k] == s[at[k]])
    && (forall k, l :: 0 <= k < l < |at| ==> at[k] < at[l])
    && (forall i: nat :: i < |s| ==> (i in at <==> s[i] !in drop))
  }

  lemma FilteredStep(s: string, ch: char, drop: set<char>, r: string, at: seq<nat>)
    requires IsFiltered(s, drop, r, at)
    ensures if ch in drop then IsFiltered(s + [ch], drop, r, at)
            else IsFiltered(s + [ch], drop, r + [ch], at + [|s|])
  {
    assert forall k :: 0 <= k < |at| ==> at[k] != |s|;
    forall i: nat | i < |s| + 1
      ensures i in (if ch in drop then at else at + [|s|]) <==> (s + [ch])[i] !in drop
    {
      if i < |s| {
        assert (s + [ch])[i] == s[i];
      }
    }
  }

  lemma WithoutStep(s: string, drop: set<char>)
    requires s != ""
    ensures
      var init, ch := s[..|s| - 1], s[|s| - 1];
      Without(s, drop) == if ch in drop then Without(init, drop) else Without(init, drop) + [ch]
  {
    var init, ch := s[..|s| - 1], s[|s| - 1];
    assert s == init + [ch];
    WithoutConcat(init, [ch], drop);
    assert [ch][1..] == "";
    assert Without(init, drop) + "" == Without(init, drop);
  }

  /** Exactly the characters outside the dropped set are kept, in their order. */
  lemma {:induction false} WithoutIsFilter(s: string, drop: set<char>) returns (at: seq<nat>)
    ensures IsFiltered(s, drop, Without(s, drop), at)
  {
    if s == "" {
      at := [];
    } else {
      hide Without, IsFiltered;
      var init, ch := s[..|s| - 1], s[|s| - 1];
      assert s == init + [ch];
      at := WithoutIsFilter(init, drop);
      WithoutStep(s, drop);
      FilteredStep(init, ch, drop, Without(init, drop), at);
      at := if ch in drop then at else at + [|init|];
    }
  }

  lemma {:induction false} WithoutConcat(s: string, t: string, drop: set<char>)
    ensures Without(s + t, drop) == Without(s, drop) + Without(t, drop)
  {
    if s == "" {
      assert s + t == t;
    } else {
      assert (s + t)[1..] == s[1..] + t;
      WithoutConcat(s[1..], t, drop);
    }
  }

  lemma {:induction false} WithoutKeeps(s: string, drop: set<char>, ch: char)
    requires ch in s && ch !in drop
    ensures ch in Without(s, drop)
  {
    if s[0] != ch {
      WithoutKeeps(s[1..], drop, ch);
    }
  }

  function UpToDot(s: string): (r: string)
    ensures |r| <= |s| && ('.' in s ==> |r| < |s|)
  {
    if s == "" || s[0] == '.' then "" else [s[0]] + UpToDot(s[1..])
  }

  /** The text between the first dot and the next one. */
  function AfterDot(s: string): string
    requires '.' in s
  {
    UpToDot(s[|UpToDot(s)| + 1..])
  }

  lemma {:induction false} UpToDotOf(s: string, rest: string)
    requires '.' !in s && (rest == "" || rest[0] == '.')
    ensures UpToDot(s + rest) == s
  {
    if s == "" {
      assert s + rest == rest;
    } else {
      assert (s + rest)[0] == s[0] && s[0] in s;
      assert (s + rest)[1..] == s[1..] + rest;
      UpToDotOf(s[1..], rest);
    }
  }

  lemma SplitDotted(m: string, f: string)
    requires '.' !in m && '.' !in f
    ensures var s := m + "." + f;
      '.' in s && UpToDot(s) == m && AfterDot(s) == f
  {
    var s := m + "." + f;
    assert s == m + ("." + f);
    UpToDotOf(m, "." + f);
    assert s[|m|] == '.';
    assert s[|m| + 1..] == f;
    UpToDotOf(f, "");
    assert f + "" == f;
  }

  /** Of a name with two dots the last part is dropped. */
  lemma ThirdPartIsDropped(m: string, f: string, rest: string)
    requires '.' !in m && '.' !in f
    ensures var s := m + "." + f + "." + rest;
      '.' in s && UpToDot(s) == m && AfterDot(s) == f
  {
    var s := m + "." + f + "." + rest;
    assert s == m + ("." + f + "." + rest);
    UpToDotOf(m, "." + f + "." + rest);
    assert s[|m|] == '.';
    assert s[|m| + 1..] == f + ("." + rest);
    UpToDotOf(f, "." + rest);
  }

  lemma {:induction false} WithoutIsPart(s: string, drop: set<char>)
    ensures forall ch :: ch in Without(s, drop) <==> ch in s && ch !in drop
  {
    if s != "" {
      assert s == [s[0]] + s[1..];
      WithoutIsPart(s[1..], drop);
    }
  }

  // ----- Decimal numbers

  /** What reading a number gives: not a number, or an integer. */
  datatype Number = NaN | Integer(value: int)

  predicate IsDigit(ch: char) {
    '0' <= ch <= '9'
  }

  function Leading(s: string): (digits: string)
    ensures forall ch :: ch in digits ==> IsDigit(ch)
  {
    if s == "" || !IsDigit(s[0]) then "" else [s[0]] + Leading(s[1..])
  }

  function ValueOf(digits: string): nat
    requires forall ch :: ch in digits ==> IsDigit(ch)
  {
    if digits == "" then 0
    else
      assert IsDigit(digits[|digits| - 1]);
      ValueOf(digits[..|digits| - 1]) * 10 + (digits[|digits| - 1] as int - '0' as int)
  }

  /** An optional sign and the digits that follow it; whatever comes after is ignored. */
  function ParseInt(s: string): Number {
    var unsigned := if s != "" && s[0] in {'+', '-'} then s[1..] else s;
    if Leading(unsigned) == "" then NaN
    else if s[0] == '-' then Integer(0 - ValueOf(Leading(unsigned)))
    else Integer(ValueOf(Leading(unsigned)))
  }

  function Digit(d: nat): char
    requires d < 10
  {
    ('0' as int + d) as char
  }

  function Digits(n: nat): (s: string)
    ensures s != "" && forall ch :: ch in s ==> IsDigit(ch)
  {
    if n < 10 then [Digit(n)] else Digits(n / 10) + [Digit(n % 10)]
  }

  function Decimal(n: int): (s: string)
    ensures IsWord(s)
  {
    if n < 0 then "-" + Digits(-n) else Digits(n)
  }

  lemma {:induction false} ValueOfDigits(n: nat)
    ensures ValueOf(Digits(n)) == n
  {
    if n >= 10 {
      ValueOfDigits(n / 10);
      var s := Digits(n);
      assert s[..|s| - 1] == Digits(n / 10);
    } else {
      assert Digits(n)[..0] == "";
    }
  }

  lemma {:induction false} LeadingAll(s: string)
    requires forall ch :: ch in s ==> IsDigit(ch)
    ensures Leading(s) == s
  {
    if s != "" {
      LeadingAll(s[1..]);
    }
  }

  lemma DecimalReads(n: int)
    ensures ParseInt(Decimal(n)) == Integer(n)
  {
    var digits := Digits(if n < 0 then -n else n);
    LeadingAll(digits);
    ValueOfDigits(if n < 0 then -n else n);
    assert IsDigit(digits[0]);
    assert n < 0 ==> Decimal(n)[1..] == digits;
  }

  lemma {:induction false} LeadingStops(digits: string, rest: string)
    requires (forall ch :: ch in digits ==> IsDigit(ch)) && (rest == "" || !IsDigit(rest[0]))
    ensures Leading(digits + rest) == digits
  {
    if digits == "" {
      assert digits + rest == rest;
    } else {
      assert (digits + rest)[0] == digits[0] && digits[0] in digits && (digits + rest)[1..] == digits[1..] + rest;
      LeadingStops(digits[1..], rest);
    }
  }

  /** A number ends at the first character that is no digit, and may start with a plus sign. */
  lemma NumberEnds(n: nat, rest: string)
    requires rest == "" || !IsDigit(rest[0])
    ensures ParseInt(Digits(n) + rest) == ParseInt("+" + Digits(n) + rest) == Integer(n)
    ensures ParseInt("-" + Digits(n) + rest) == Integer(0 - n)
  {
    var digits := Digits(n);
    LeadingStops(digits, rest);
    ValueOfDigits(n);
    assert IsDigit(digits[0]) && (digits + rest)[0] == digits[0];
    assert ("+" + digits + rest)[1..] == digits + rest && ("-" + digits + rest)[1..] == digits + rest;
  }

  /** Without a digit at the start, after a sign if there is one, there is no number. */
  lemma NoDigitNoNumber(s: string)
    requires s == "" || !IsDigit(s[0])
    ensures ParseInt("+" + s) == ParseInt("-" + s) == NaN
    ensures s == "" || (s[0] != '+' && s[0] != '-') ==> ParseInt(s) == NaN
  {
    assert ("+" + s)[1..] == s && ("-" + s)[1..] == s;
  }

  /** Decimal notation: the last digit counts ones and the digits before it tens. */
  lemma DigitsStep(n: nat, d: nat)
    requires d < 10
    ensures Digits(d) == [Digit(d)] && Digit(0) == '0' && Digit(9) == '9'
    ensures n > 0 ==> Digits(10 * n + d) == Digits(n) + [Digit(d)]
  {
    assert (10 * n + d) / 10 == n && (10 * n + d) % 10 == d;
  }

  /** Any white space separates words, and may stand before and after them. */
  lemma WordsSeparate(w: string, space: char, s: string)
    requires IsWord(w) && IsSpace(space)
    ensures Words([space] + s) == Words(s)
    ensures Words(w + ([space] + s)) == [w] + Words(s)
  {
    assert ([space] + s)[1..] == s;
    WordsStep(w, [space] + s);
  }

  /** ASCII white space, and some that is not ASCII. */
  lemma SpacesAre(ch: char)
    ensures ch < '\U{0080}' ==> (IsSpace(ch) <==> ch == ' ' || ch as int in {9, 10, 11, 12, 13})
    ensures IsSpace('\U{00A0}') && IsSpace('\U{2003}') && IsSpace('\U{3000}') && IsSpace('\U{FEFF}')
    ensures !IsSpace('\U{200B}')
  {
  }
}
