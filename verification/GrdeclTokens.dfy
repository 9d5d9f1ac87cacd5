/** The tokenizer of GRDECL decks: words, quoted words and slashes, between blanks and
    `--` comments. A slash ends its line. */
module GrdeclTokens {
  import opened Wrappers

  datatype Token = Token(text: string, quoted: bool)

  predicate Space(c: char) {
    c == ' ' || c == '\t' || c == '\n' || c == '\r' || c == 11 as char || c == 12 as char
  }

  predicate EndsLine(c: char) {
    c == '\n' || c == '\r'
  }

  predicate DashesAt(s: string, pos: nat) {
    pos + 1 < |s| && s[pos] == '-' && s[pos + 1] == '-'
  }

  // -------------------------------------------------------- specification

  /** Behind the end of the line a position is on. */
  function LineEnd(s: string, pos: nat): (r: nat)
    requires pos <= |s|
    ensures pos <= r <= |s|
    decreases |s| - pos
  {
    if pos == |s| then pos
    else if EndsLine(s[pos]) then pos + 1
    else LineEnd(s, pos + 1)
  }

  /** Behind blanks and comments. */
  function SkipBlanks(s: string, pos: nat): (r: nat)
    requires pos <= |s|
    ensures pos <= r <= |s| && (r < |s| ==> !Space(s[r]) && !DashesAt(s, r))
    decreases |s| - pos
  {
    if pos == |s| then pos
    else if Space(s[pos]) then SkipBlanks(s, pos + 1)
    else if DashesAt(s, pos) then SkipBlanks(s, LineEnd(s, pos + 2))
    else pos
  }

  predicate EndsWord(s: string, pos: nat)
    requires pos < |s|
  {
    Space(s[pos]) || DashesAt(s, pos) || s[pos] == '/'
  }

  /** The end of a word of which everything before `pos` has been read. */
  function WordEnd(s: string, pos: nat): (r: nat)
    requires pos <= |s|
    ensures pos <= r <= |s| && (r < |s| ==> EndsWord(s, r))
    ensures forall k :: pos <= k < r ==> !EndsWord(s, k)
    decreases |s| - pos
  {
    if pos == |s| || EndsWord(s, pos) then pos else WordEnd(s, pos + 1)
  }

  function QuoteEnd(s: string, pos: nat, quote: char): (r: nat)
    requires pos <= |s|
    ensures pos <= r <= |s| && (r < |s| ==> s[r] == quote)
    ensures forall k :: pos <= k < r ==> s[k] != quote
    decreases |s| - pos
  {
    if pos == |s| || s[pos] == quote then pos else QuoteEnd(s, pos + 1, quote)
  }

  /** Where reading stands: a position, and whether the rest of the line is skipped. */
  datatype Place = Place(pos: nat, skipRestOfLine: bool)

  function QuotedAt(s: string, start: nat): (r: (Token, Place))
    requires start < |s|
    ensures start < r.1.pos <= |s|
  {
    var end := QuoteEnd(s, start + 1, s[start]);
    (Token(s[start + 1..end], true), Place(if end < |s| then end + 1 else end, false))
  }

  function WordAt(s: string, start: nat): (r: (Token, Place))
    requires start < |s|
    ensures start < r.1.pos <= |s|
  {
    var end := WordEnd(s, start + 1);
    (Token(s[start..end], false), Place(if end < |s| && Space(s[end]) then end + 1 else end, false))
  }

  /** The next token, and the place behind it. */
  function NextToken(s: string, at: Place): (r: Option<(Token, Place)>)
    requires at.pos <= |s|
    ensures r.Some? ==> at.pos < r.value.1.pos <= |s|
  {
    var start := SkipBlanks(s, if at.skipRestOfLine then LineEnd(s, at.pos) else at.pos);
    if start == |s| then None
    else if s[start] == '/' then Some((Token("/", false), Place(start + 1, true)))
    else if s[start] == '\'' || s[start] == '"' then Some(QuotedAt(s, start))
    else Some(WordAt(s, start))
  }

  /** All tokens from a place on. */
  function TokensFrom(s: string, at: Place): seq<Token>
    requires at.pos <= |s|
    decreases |s| - at.pos
  {
    match NextToken(s, at)
    case None => []
    case Some(next) => [next.0] + TokensFrom(s, next.1)
  }

  function Tokens(s: string): seq<Token> {
    TokensFrom(s, Place(0, false))
  }

  // ------------------------------------------------------------ the tokenizer

  class DeckTokenizer {
    const input: string
    var pos: nat
    var skipRestOfLine: bool

    ghost predicate Valid()
      reads this
    {
      pos <= |input|
    }

    /** The tokens still to come. */
    ghost function Rest(): seq<Token>
      requires Valid()
      reads this
    {
      TokensFrom(input, Place(pos, skipRestOfLine))
    }

    constructor (input: string)
      ensures Valid() && this.input == input && Rest() == Tokens(input)
    {
      this.input, pos, skipRestOfLine := input, 0, false;
    }

    method SkipLine()
      requires Valid()
      modifies this`pos
      ensures Valid() && pos == LineEnd(input, old(pos))
    {
      var more := true;
      while more && pos < |input|
        invariant Valid() && pos >= old(pos)
        invariant LineEnd(input, old(pos)) == if more then LineEnd(input, pos) else pos
        decreases |input| - pos
      {
        more := !EndsLine(input[pos]);
        pos := pos + 1;
      }
    }

    method SkipToToken()
      requires Valid()
      modifies this`pos
      ensures Valid() && pos == SkipBlanks(input, old(pos))
    {
      while pos < |input| && (Space(input[pos]) || DashesAt(input, pos))
        invariant Valid() && SkipBlanks(input, pos) == SkipBlanks(input, old(pos))
        decreases |input| - pos
      {
        if Space(input[pos]) {
          pos := pos + 1;
        } else {
          pos := pos + 2;
          SkipLine();
        }
      }
    }

    method ReadQuoted() returns (token: Token)
      requires pos < |input| && !skipRestOfLine
      modifies this`pos
      ensures (token, Place(pos, false)) == QuotedAt(input, old(pos))
    {
      var quote, start := input[pos], pos;
      pos := pos + 1;
      while pos < |input| && input[pos] != quote
        invariant start + 1 <= pos <= |input|
        invariant QuoteEnd(input, start + 1, quote) == QuoteEnd(input, pos, quote)
        decreases |input| - pos
      {
        pos := pos + 1;
      }
      token := Token(input[start + 1..pos], true);
      if pos < |input| {
        pos := pos + 1;
      }
    }

    method ReadWord() returns (token: Token)
      requires pos < |input| && !skipRestOfLine
      modifies this`pos
      ensures (token, Place(pos, false)) == WordAt(input, old(pos))
    {
      hide EndsWord;
      var start := pos;
      pos := pos + 1;
      while pos < |input| && !EndsWord(input, pos)
        invariant start + 1 <= pos <= |input|
        invariant WordEnd(input, start + 1) == WordEnd(input, pos)
        decreases |input| - pos
      {
        pos := pos + 1;
      }
      token := Token(input[start..pos], false);
      if pos < |input| && Space(input[pos]) {
        pos := pos + 1;
      }
    }

    method Next() returns (token: Option<Token>)
      requires Valid()
      modifies this
      ensures Valid() && pos >= old(pos)
      ensures token.None? ==> old(Rest()) == [] && Rest() == []
      ensures token.Some? ==> old(Rest()) == [token.value] + Rest() && pos > old(pos)
    {
      hide SkipBlanks, LineEnd, QuotedAt, WordAt;
      ghost var before := Place(pos, skipRestOfLine);
      if skipRestOfLine {
        SkipLine();
        skipRestOfLine := false;
      }
      SkipToToken();
      if pos == |input| {
        return None;
      }
      if input[pos] == '/' {
        skipRestOfLine := true;
        pos := pos + 1;
        return Some(Token("/", false));
      }
      var next: Token;
      if input[pos] == '\'' || input[pos] == '"' {
        next := ReadQuoted();
      } else {
        next := ReadWord();
      }
      assert NextToken(input, before) == Some((next, Place(pos, skipRestOfLine)));
      token := Some(next);
    }
  }

  // ------------------------------------------------------------- case folding

  function Upper(c: char): char {
    if 'a' <= c <= 'z' then (c as int - 32) as char else c
  }

  function ToUpper(s: string): (r: string)
    ensures |r| == |s| && forall k :: 0 <= k < |s| ==> r[k] == Upper(s[k])
  {
    seq(|s|, k requires 0 <= k < |s| => Upper(s[k]))
  }
}
