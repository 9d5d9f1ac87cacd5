/** Integer keyword arrays of a GRDECL deck: run-length spellings, the loader, and that
    it reads back any vector however it is spelled and laid out. */
module GrdeclArrays {
  import opened Wrappers
  import opened Decimal
  import opened GrdeclTokens

  const INT_LIMIT: int := 0x8000_0000
  const SIZE_LIMIT: int := 0x1_0000_0000_0000_0000

  // ------------------------------------------------------- reading numbers

  predicate IsNumber(digits: string) {
    digits != "" && AllDigits(digits)
  }

  /** `std::from_chars` for an `int`, of which the whole text must be consumed. */
  function ParseInt(text: string): Option<int> {
    var negative := text != "" && text[0] == '-';
    var digits := if negative then text[1..] else text;
    if !IsNumber(digits) then None
    else
      var magnitude: int := Value(digits);
      var value := if negative then -magnitude else magnitude;
      if -INT_LIMIT <= value < INT_LIMIT then Some(value) else None
  }

  /** The same for a `size_t`, which takes no sign. */
  function ParseSize(text: string): Option<nat> {
    if IsNumber(text) && Value(text) < SIZE_LIMIT then Some(Value(text)) else None
  }

  function FindStar(s: string): (r: Option<nat>)
    ensures r.Some? ==> r.value < |s| && s[r.value] == '*' && '*' !in s[..r.value]
    ensures r.None? ==> '*' !in s
  {
    if s == "" then None
    else if s[0] == '*' then Some(0)
    else
      match FindStar(s[1..])
      case None =>
        assert s == [s[0]] + s[1..];
        None
      case Some(k) =>
        assert s[..k + 1] == [s[0]] + s[1..][..k];
        Some(k + 1)
  }

  function Times(n: nat, value: int): (r: seq<int>)
    ensures |r| == n && forall k :: 0 <= k < n ==> r[k] == value
  {
    seq(n, _ => value)
  }

  /** The values of a token: one, or a run of equal ones, zeros if none is given. */
  function Expanded(token: string): Option<seq<int>> {
    match FindStar(token)
    case None => (
      match ParseInt(token)
      case Some(value) => Some([value])
      case None => None
    )
    case Some(star) => (
      var payload := token[star + 1..];
      match (ParseSize(token[..star]), if payload == "" then Some(0) else ParseInt(payload))
      case (Some(repeat), Some(value)) => Some(Times(repeat, value))
      case _ => None
    )
  }

  /** Appends the values of a token. */
  method ExpandIntToken(token: string, values: seq<int>) returns (r: Result<seq<int>>)
    ensures r == match Expanded(token) case Some(more) => Ok(values + more) case None => Throws
  {
    var star := FindStar(token);
    if star.None? {
      var value := ParseInt(token);
      if value.None? {
        return Throws;
      }
      return Ok(values + [value.value]);
    }
    var repeat := ParseSize(token[..star.value]);
    if repeat.None? {
      return Throws;
    }
    var value := 0;
    var payload := token[star.value + 1..];
    if payload != "" {
      var parsed := ParseInt(payload);
      if parsed.None? {
        return Throws;
      }
      value := parsed.value;
    }
    r := Ok(values + Times(repeat.value, value));
  }

  // ------------------------------------------------------------ the loader

  /** The values up to a slash, or up to the end of the file. */
  function ValuesToSlash(tokens: seq<Token>): Result<seq<int>> {
    if tokens == [] || tokens[0].text == "/" then Ok([])
    else
      match Expanded(tokens[0].text)
      case None => Throws
      case Some(head) =>
        var tail :- ValuesToSlash(tokens[1..]);
        Ok(head + tail)
  }

  /** The values behind the first token that is the keyword, whatever its case. */
  function KeywordInts(tokens: seq<Token>, keyword: string, expectedCount: nat): Result<seq<int>> {
    if tokens == [] then Throws
    else if ToUpper(tokens[0].text) != keyword then KeywordInts(tokens[1..], keyword, expectedCount)
    else
      var values :- ValuesToSlash(tokens[1..]);
      if expectedCount != 0 && |values| != expectedCount then Throws else Ok(values)
  }

  lemma {:induction false} ValuesStep(tokens: seq<Token>, head: seq<int>)
    ensures Prepend(head, ValuesToSlash(tokens)) ==
            if tokens == [] || tokens[0].text == "/" then Ok(head)
            else
              match Expanded(tokens[0].text)
              case None => Throws
              case Some(more) => Prepend(head + more, ValuesToSlash(tokens[1..]))
  {
    hide Expanded;
    assert head + [] == head;
    if tokens != [] && tokens[0].text != "/" && Expanded(tokens[0].text).Some? && ValuesToSlash(tokens[1..]).Ok? {
      var more, tail := Expanded(tokens[0].text).value, ValuesToSlash(tokens[1..]).value;
      assert head + (more + tail) == head + more + tail;
    }
  }

  /** The inner loop: values until a slash. */
  method ReadValues(tokenizer: DeckTokenizer) returns (r: Result<seq<int>>)
    requires tokenizer.Valid()
    modifies tokenizer
    ensures tokenizer.Valid() && r == ValuesToSlash(old(tokenizer.Rest()))
  {
    hide Expanded, ValuesToSlash, NextToken;
    var values: seq<int> := [];
    ghost var all := ValuesToSlash(tokenizer.Rest());
    PrependNothing(all);
    while true
      invariant tokenizer.Valid()
      invariant all == Prepend(values, ValuesToSlash(tokenizer.Rest()))
      decreases |tokenizer.input| - tokenizer.pos
    {
      ValuesStep(tokenizer.Rest(), values);
      ghost var rest := tokenizer.Rest();
      var token := tokenizer.Next();
      assert token.Some? ==> rest[1..] == tokenizer.Rest();
      if token.None? || token.value.text == "/" {
        return Ok(values);
      }
      var more := ExpandIntToken(token.value.text, values);
      if more.Throws? {
        return Throws;
      }
      values := more.value;
    }
  }

  method LoadIntKeywordArray(file: string, keyword: string, expectedCount: nat) returns (r: Result<seq<int>>)
    ensures r == KeywordInts(Tokens(file), keyword, expectedCount)
  {
    hide ValuesToSlash, Tokens, NextToken;
    var tokenizer := new DeckTokenizer(file);
    while true
      invariant fresh(tokenizer) && tokenizer.Valid()
      invariant KeywordInts(Tokens(file), keyword, expectedCount) == KeywordInts(tokenizer.Rest(), keyword, expectedCount)
      decreases |tokenizer.input| - tokenizer.pos
    {
      ghost var rest := tokenizer.Rest();
      var token := tokenizer.Next();
      if token.None? {
        return Throws;
      }
      assert rest[1..] == tokenizer.Rest();
      if ToUpper(token.value.text) == keyword {
        var values := ReadValues(tokenizer);
        if values.Throws? {
          return Throws;
        }
        if expectedCount != 0 && |values.value| != expectedCount {
          return Throws;
        }
        return values;
      }
    }
  }

  // -------------------------------------------------------------- spellings

  /** How values may be spelled; numbers may have leading zeros. */
  datatype Spelling =
    | One(negative: bool, digits: string)
    | Run(count: string, negative: bool, digits: string)
    | Zeros(count: string)

  function NumberText(negative: bool, digits: string): string {
    (if negative then "-" else "") + digits
  }

  function NumberOf(negative: bool, digits: string): int
    requires AllDigits(digits)
  {
    var magnitude: int := Value(digits);
    if negative then -magnitude else magnitude
  }

  predicate IsInt(negative: bool, digits: string) {
    IsNumber(digits) && -INT_LIMIT <= NumberOf(negative, digits) < INT_LIMIT
  }

  predicate IsCount(count: string) {
    IsNumber(count) && Value(count) < SIZE_LIMIT
  }

  predicate Correct(x: Spelling) {
    match x
    case One(negative, digits) => IsInt(negative, digits)
    case Run(count, negative, digits) => IsCount(count) && IsInt(negative, digits)
    case Zeros(count) => IsCount(count)
  }

  function TextOf(x: Spelling): string {
    match x
    case One(negative, digits) => NumberText(negative, digits)
    case Run(count, negative, digits) => count + "*" + NumberText(negative, digits)
    case Zeros(count) => count + "*"
  }

  function ValuesOf(x: Spelling): seq<int>
    requires Correct(x)
  {
    match x
    case One(negative, digits) => [NumberOf(negative, digits)]
    case Run(count, negative, digits) => Times(Value(count), NumberOf(negative, digits))
    case Zeros(count) => Times(Value(count), 0)
  }

  lemma NoStarIn(digits: string)
    requires AllDigits(digits)
    ensures '*' !in digits
  {
    forall k | 0 <= k < |digits| ensures digits[k] != '*' {
      assert IsDigit(digits[k]);
    }
  }

  lemma ParsesNumber(negative: bool, digits: string)
    requires IsInt(negative, digits)
    ensures ParseInt(NumberText(negative, digits)) == Some(NumberOf(negative, digits))
    ensures '*' !in NumberText(negative, digits) && NumberText(negative, digits) != ""
  {
    hide Value;
    NoStarIn(digits);
    assert IsDigit(digits[0]);
    assert NumberText(true, digits)[1..] == digits;
    assert NumberText(false, digits) == digits;
  }

  lemma {:induction false} StarAt(before: string, after: string)
    requires '*' !in before
    ensures FindStar(before + "*" + after) == Some(|before|)
    ensures (before + "*" + after)[..|before|] == before && (before + "*" + after)[|before| + 1..] == after
  {
    if before != "" {
      StarAt(before[1..], after);
      assert (before + "*" + after)[1..] == before[1..] + "*" + after;
    }
  }

  lemma NoStarFound(s: string)
    requires '*' !in s
    ensures FindStar(s) == None
  {
  }

  /** A spelling expands to its values. */
  lemma SpellingExpands(x: Spelling)
    requires Correct(x)
    ensures Expanded(TextOf(x)) == Some(ValuesOf(x))
  {
    hide ParseInt, FindStar, Value, NumberText, NumberOf, AllDigits, Times;
    match x
    case One(negative, digits) =>
      ParsesNumber(negative, digits);
      NoStarFound(NumberText(negative, digits));
    case Run(count, negative, digits) =>
      ParsesNumber(negative, digits);
      NoStarIn(count);
      StarAt(count, NumberText(negative, digits));
    case Zeros(count) =>
      NoStarIn(count);
      StarAt(count, "");
      assert count + "*" + "" == count + "*";
  }

  /** What reads as an integer is a sign and digits. */
  lemma OnlyNumbers(text: string) returns (negative: bool, digits: string)
    requires ParseInt(text).Some?
    ensures IsInt(negative, digits) && NumberText(negative, digits) == text
  {
    hide Value, AllDigits;
    negative := text[0] == '-';
    digits := if negative then text[1..] else text;
    assert text == (if negative then "-" else "") + digits;
  }

  /** Nothing else expands: a token that does is a spelling of its values. */
  lemma OnlySpellings(token: string) returns (x: Spelling)
    requires Expanded(token).Some?
    ensures Correct(x) && TextOf(x) == token
  {
    hide FindStar, ParseInt, Value, AllDigits, NumberText, NumberOf, Times;
    var star := FindStar(token);
    if star.None? {
      var negative, digits := OnlyNumbers(token);
      x := One(negative, digits);
    } else {
      var count, number := token[..star.value], token[star.value + 1..];
      assert token == count + "*" + number;
      if number == "" {
        x := Zeros(count);
      } else {
        var negative, digits := OnlyNumbers(number);
        x := Run(count, negative, digits);
      }
    }
  }
}
