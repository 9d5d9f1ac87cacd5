/** Laying out tokens in a GRDECL deck with any blanks and comments between them, and
    why loading a keyword record gives back its vector. */
module GrdeclLayout {
  import opened Collections
  import opened Wrappers
  import opened Decimal
  import opened GrdeclTokens
  import opened GrdeclArrays

  // ------------------------------------------------------------------ layout

  predicate OneLine(s: string) {
    forall k :: 0 <= k < |s| ==> !EndsLine(s[k])
  }

  /** What may stand between tokens: a blank, or a comment with the end of its line. */
  datatype Filler = Blank(c: char) | Comment(text: string, end: char)

  predicate FillerOk(f: Filler) {
    match f
    case Blank(c) => Space(c)
    case Comment(text, end) => OneLine(text) && EndsLine(end)
  }

  function FillerText(f: Filler): (t: string)
    ensures t != ""
  {
    match f
    case Blank(c) => [c]
    case Comment(text, end) => "--" + (text + [end])
  }

  function GapText(gap: seq<Filler>): (t: string)
    ensures gap != [] ==> t != ""
  {
    if gap == [] then "" else FillerText(gap[0]) + GapText(gap[1..])
  }

  predicate GapOk(gap: seq<Filler>) {
    forall k :: 0 <= k < |gap| ==> FillerOk(gap[k])
  }

  /** A token with what stands before it; behind a slash there is the rest of a line. */
  datatype Item = Word(gap: seq<Filler>, text: string) | Slash(gap: seq<Filler>, junk: string, end: char)

  /** A word that is read as one token. */
  predicate WordOk(text: string) {
    && text != "" && text[0] != '\'' && text[0] != '"' && text[|text| - 1] != '-'
    && forall k :: 0 <= k < |text| ==> !EndsWord(text, k)
  }

  predicate ItemOk(item: Item) {
    && GapOk(item.gap)
    && match item
       case Word(_, text) => WordOk(text)
       case Slash(_, junk, end) => OneLine(junk) && EndsLine(end)
  }

  /** Words that follow one another are kept apart. */
  predicate ItemsOk(items: seq<Item>) {
    && (forall k :: 0 <= k < |items| ==> ItemOk(items[k]))
    && forall k :: 0 < k < |items| && items[k - 1].Word? && items[k].Word? ==> items[k].gap != []
  }

  function ItemBody(item: Item): (t: string)
    ensures item.Word? ==> t == item.text
  {
    match item
    case Word(_, text) => text
    case Slash(_, junk, end) => "/" + (junk + [end])
  }

  function ItemsText(items: seq<Item>): string {
    if items == [] then "" else GapText(items[0].gap) + (ItemBody(items[0]) + ItemsText(items[1..]))
  }

  function TokenOf(item: Item): Token {
    match item
    case Word(_, text) => Token(text, false)
    case Slash(_, _, _) => Token("/", false)
  }

  function TokensOf(items: seq<Item>): (r: seq<Token>)
    ensures |r| == |items| && forall k :: 0 <= k < |items| ==> r[k] == TokenOf(items[k])
  {
    seq(|items|, k requires 0 <= k < |items| => TokenOf(items[k]))
  }

  // ------------------------------------------------------------ reading it

  lemma {:induction false} LineEndOf(s: string, pos: nat, text: string, end: char)
    requires At(s, pos, text + [end]) && OneLine(text) && EndsLine(end)
    ensures LineEnd(s, pos) == pos + |text| + 1
    decreases |text|
  {
    if text == "" {
      assert s[pos] == (text + [end])[0];
    } else {
      assert s[pos] == (text + [end])[0];
      assert text + [end] == [text[0]] + (text[1..] + [end]);
      AtSplit(s, pos, [text[0]], text[1..] + [end]);
      LineEndOf(s, pos + 1, text[1..], end);
    }
  }

  lemma DashesAtStart(s: string, pos: nat, rest: string)
    requires At(s, pos, "--" + rest)
    ensures DashesAt(s, pos) && At(s, pos + 2, rest)
  {
    AtSplit(s, pos, "--", rest);
    assert s[pos..pos + 2][0] == '-' && s[pos..pos + 2][1] == '-';
  }

  lemma {:induction false} OverComment(s: string, pos: nat)
    requires pos <= |s| && DashesAt(s, pos)
    ensures SkipBlanks(s, pos) == SkipBlanks(s, LineEnd(s, pos + 2))
  {
    hide LineEnd;
  }

  lemma {:induction false} OverBlank(s: string, pos: nat, c: char)
    requires At(s, pos, [c]) && Space(c)
    ensures SkipBlanks(s, pos) == SkipBlanks(s, pos + 1)
  {
    assert s[pos] == s[pos..pos + 1][0];
  }

  lemma CommentSkipped(s: string, pos: nat, text: string, end: char)
    requires OneLine(text) && EndsLine(end) && At(s, pos, "--" + (text + [end]))
    ensures pos + |text| + 3 <= |s| && SkipBlanks(s, pos) == SkipBlanks(s, pos + |text| + 3)
  {
    hide *;
    DashesAtStart(s, pos, text + [end]);
    LineEndOf(s, pos + 2, text, end);
    AtInside(s, pos + 2, text + [end]);
    OverComment(s, pos);
  }

  lemma AtInside(s: string, pos: nat, text: string)
    requires At(s, pos, text)
    ensures pos + |text| <= |s|
  {
  }

  lemma FillerSkipped(s: string, pos: nat, f: Filler)
    requires FillerOk(f) && At(s, pos, FillerText(f))
    ensures SkipBlanks(s, pos) == SkipBlanks(s, pos + |FillerText(f)|)
  {
    hide LineEnd, SkipBlanks, OneLine, Space, EndsLine;
    match f
    case Blank(c) => OverBlank(s, pos, c);
    case Comment(text, end) => CommentSkipped(s, pos, text, end);
  }

  lemma {:induction false} GapSkipped(s: string, pos: nat, gap: seq<Filler>)
    requires GapOk(gap) && At(s, pos, GapText(gap))
    ensures SkipBlanks(s, pos) == SkipBlanks(s, pos + |GapText(gap)|)
    decreases |gap|
  {
    hide SkipBlanks, FillerText, FillerOk;
    if gap != [] {
      AtSplit(s, pos, FillerText(gap[0]), GapText(gap[1..]));
      FillerSkipped(s, pos, gap[0]);
      GapSkipped(s, pos + |FillerText(gap[0])|, gap[1..]);
    }
  }

  /** Tokens are the same from behind a gap. */
  lemma {:induction false} TokensBehindGap(s: string, pos: nat, gap: seq<Filler>)
    requires GapOk(gap) && At(s, pos, GapText(gap))
    ensures TokensFrom(s, Place(pos, false)) == TokensFrom(s, Place(pos + |GapText(gap)|, false))
  {
    hide SkipBlanks, GapText;
    GapSkipped(s, pos, gap);
  }

  lemma {:induction false} TokensBehindLine(s: string, pos: nat)
    requires pos <= |s|
    ensures TokensFrom(s, Place(pos, true)) == TokensFrom(s, Place(LineEnd(s, pos), false))
  {
    hide SkipBlanks, LineEnd;
  }

  lemma TokensBehindBlank(s: string, pos: nat)
    requires pos < |s| && Space(s[pos])
    ensures TokensFrom(s, Place(pos, false)) == TokensFrom(s, Place(pos + 1, false))
  {
    hide TokensFrom;
    assert s[pos..pos + 1] == [s[pos]];
    var gap := [Blank(s[pos])];
    assert gap[1..] == [] && GapText(gap) == [s[pos]] + GapText([]);
    TokensBehindGap(s, pos, gap);
  }

  /** A position where a word, if one is being read, ends. */
  predicate EndsHere(s: string, pos: nat) {
    pos == |s| || (pos < |s| && EndsWord(s, pos))
  }

  lemma CharOf(s: string, pos: nat, text: string, k: nat)
    requires At(s, pos, text) && k < |text|
    ensures pos + k < |s| && s[pos + k] == text[k]
  {
    assert s[pos..pos + |text|][k] == text[k];
  }

  /** No character of a word ends it. */
  lemma WordGoesOn(s: string, pos: nat, text: string, k: nat)
    requires WordOk(text) && At(s, pos, text) && k < |text|
    ensures pos + k < |s| && !EndsWord(s, pos + k)
  {
    hide At;
    CharOf(s, pos, text, k);
    assert !EndsWord(text, k);
    if k + 1 < |text| {
      CharOf(s, pos, text, k + 1);
    }
  }

  lemma {:induction false} WordEndFrom(s: string, pos: nat, end: nat)
    requires pos <= end <= |s| && EndsHere(s, end)
    requires forall k :: pos <= k < end ==> !EndsWord(s, k)
    ensures WordEnd(s, pos) == end
    decreases end - pos
  {
    if pos < end {
      WordEndFrom(s, pos + 1, end);
    }
  }

  lemma WordEndOf(s: string, pos: nat, text: string)
    requires WordOk(text) && text != "" && At(s, pos, text) && EndsHere(s, pos + |text|)
    ensures pos + |text| <= |s| && WordEnd(s, pos + 1) == pos + |text|
  {
    hide *;
    var end := pos + |text|;
    AtInside(s, pos, text);
    forall k | pos <= k < end ensures !EndsWord(s, k) {
      WordGoesOn(s, pos, text, k - pos);
    }
    WordEndFrom(s, pos + 1, end);
  }

  lemma WordStart(s: string, pos: nat, text: string)
    requires WordOk(text) && At(s, pos, text)
    ensures pos < |s| && !EndsWord(s, pos) && s[pos] == text[0]
  {
    hide At, EndsWord;
    CharOf(s, pos, text, 0);
    WordGoesOn(s, pos, text, 0);
  }

  lemma {:induction false} TokensOfWord(s: string, pos: nat, text: string)
    requires WordOk(text) && At(s, pos, text) && EndsHere(s, pos + |text|)
    ensures TokensFrom(s, Place(pos, false)) == [Token(text, false)] + TokensFrom(s, Place(pos + |text|, false))
  {
    WordEndOf(s, pos, text);
    WordStart(s, pos, text);
    hide WordEnd;
    assert SkipBlanks(s, pos) == pos;
    var end := pos + |text|;
    assert NextToken(s, Place(pos, false)) ==
           Some((Token(text, false), Place(if end < |s| && Space(s[end]) then end + 1 else end, false)));
    if end < |s| && Space(s[end]) {
      TokensBehindBlank(s, end);
    }
  }

  lemma {:induction false} TokensOfSlash(s: string, pos: nat)
    requires At(s, pos, "/")
    ensures TokensFrom(s, Place(pos, false)) == [Token("/", false)] + TokensFrom(s, Place(pos + 1, true))
  {
    assert s[pos] == s[pos..pos + 1][0];
    assert SkipBlanks(s, pos) == pos;
  }

  lemma {:induction false} TokensOfItem(s: string, pos: nat, item: Item)
    requires ItemOk(item) && At(s, pos, ItemBody(item))
    requires item.Word? ==> EndsHere(s, pos + |ItemBody(item)|)
    ensures TokensFrom(s, Place(pos, false)) == [TokenOf(item)] + TokensFrom(s, Place(pos + |ItemBody(item)|, false))
  {
    hide TokensFrom, LineEnd;
    match item
    case Word(_, text) => TokensOfWord(s, pos, text);
    case Slash(_, junk, end) =>
      AtSplit(s, pos, "/", junk + [end]);
      TokensOfSlash(s, pos);
      TokensBehindLine(s, pos + 1);
      LineEndOf(s, pos + 1, junk, end);
  }

  /** What follows a word ends it: a filler or a slash. */
  lemma FillerEndsWord(s: string, pos: nat, f: Filler)
    requires FillerOk(f) && At(s, pos, FillerText(f))
    ensures EndsHere(s, pos)
  {
    match f
    case Blank(c) =>
      assert s[pos] == s[pos..pos + 1][0];
    case Comment(text, end) =>
      DashesAtStart(s, pos, text + [end]);
  }

  lemma ItemEndsWord(s: string, pos: nat, item: Item, more: string)
    requires ItemOk(item) && At(s, pos, GapText(item.gap) + (ItemBody(item) + more))
    requires item.Word? ==> item.gap != []
    ensures EndsHere(s, pos)
  {
    hide FillerText, EndsHere, FillerOk, WordOk;
    AtSplit(s, pos, GapText(item.gap), ItemBody(item) + more);
    if item.gap != [] {
      AtSplit(s, pos, FillerText(item.gap[0]), GapText(item.gap[1..]));
      FillerEndsWord(s, pos, item.gap[0]);
    } else {
      AtSplit(s, pos, ItemBody(item), more);
      SlashEndsWord(s, pos, item.junk + [item.end]);
    }
  }

  lemma SlashEndsWord(s: string, pos: nat, rest: string)
    requires At(s, pos, "/" + rest)
    ensures EndsHere(s, pos)
  {
    assert s[pos] == s[pos..pos + |"/" + rest|][0];
  }

  /** Laid-out items are read back as their tokens. */
  lemma {:induction false} TokensOfItems(s: string, pos: nat, items: seq<Item>)
    requires ItemsOk(items) && At(s, pos, ItemsText(items))
    requires items != [] && items[|items| - 1].Word? ==> EndsHere(s, pos + |ItemsText(items)|)
    ensures TokensFrom(s, Place(pos, false)) == TokensOf(items) + TokensFrom(s, Place(pos + |ItemsText(items)|, false))
    decreases |items|
  {
    hide *;
    if items == [] {
      NoItems();
    } else {
      var item, rest := items[0], items[1..];
      var gap, body, more := GapText(item.gap), ItemBody(item), ItemsText(rest);
      ItemsCons(items);
      AtSplit(s, pos, gap, body + more);
      AtSplit(s, pos + |gap|, body, more);
      var next := pos + |gap| + |body|;
      assert next + |more| == pos + |gap + (body + more)|;
      if rest != [] {
        NextItem(s, next, items);
      } else {
        NoItems();
      }
      TokensBehindGap(s, pos, item.gap);
      TokensOfItem(s, pos + |gap|, item);
      RestOk(items);
      TokensOfItems(s, next, rest);
    }
  }

  lemma NoItems()
    ensures TokensOf([]) == [] && ItemsText([]) == ""
  {
  }

  lemma {:induction false} ItemsCons(items: seq<Item>)
    requires items != [] && ItemsOk(items)
    ensures ItemsText(items) == GapText(items[0].gap) + (ItemBody(items[0]) + ItemsText(items[1..]))
    ensures TokensOf(items) == [TokenOf(items[0])] + TokensOf(items[1..])
    ensures ItemOk(items[0]) && GapOk(items[0].gap)
  {
    hide GapText, ItemBody, WordOk, GapOk;
  }

  /** A word is ended by the item that follows it. */
  lemma {:induction false} NextItem(s: string, pos: nat, items: seq<Item>)
    requires |items| >= 2 && ItemsOk(items) && At(s, pos, ItemsText(items[1..]))
    ensures items[0].Word? ==> EndsHere(s, pos)
  {
    hide At, EndsHere, ItemOk, GapText, ItemBody;
    var rest := items[1..];
    assert rest[0] == items[1] && ItemOk(items[1]);
    if items[0].Word? {
      ItemEndsWord(s, pos, rest[0], ItemsText(rest[1..]));
    }
  }

  lemma RestOk(items: seq<Item>)
    requires ItemsOk(items) && items != []
    ensures ItemsOk(items[1..])
  {
    hide ItemOk;
    forall k | 0 < k < |items[1..]| && items[1..][k - 1].Word? && items[1..][k].Word? ensures items[1..][k].gap != [] {
      assert items[k].Word? && items[k + 1].Word?;
    }
  }

  // ---------------------------------------------------- the record, and its load

  predicate NoneIs(tokens: seq<Token>, keyword: string) {
    forall k :: 0 <= k < |tokens| ==> ToUpper(tokens[k].text) != keyword
  }

  lemma {:induction false} LoadBehind(before: seq<Token>, rest: seq<Token>, keyword: string, expectedCount: nat)
    requires NoneIs(before, keyword)
    ensures KeywordInts(before + rest, keyword, expectedCount) == KeywordInts(rest, keyword, expectedCount)
    decreases |before|
  {
    if before == [] {
      assert before + rest == rest;
    } else {
      LoadBehind(before[1..], rest, keyword, expectedCount);
      assert (before + rest)[1..] == before[1..] + rest;
    }
  }

  /** The values of a list of spellings, in a row. */
  function AllValues(xs: seq<Spelling>): seq<int>
    requires forall k :: 0 <= k < |xs| ==> Correct(xs[k])
  {
    if xs == [] then [] else ValuesOf(xs[0]) + AllValues(xs[1..])
  }

  /** The items write the spellings, one word each. */
  predicate Writes(items: seq<Item>, xs: seq<Spelling>) {
    |items| == |xs| && forall k :: 0 <= k < |xs| ==> Correct(xs[k]) && items[k].Word? && items[k].text == TextOf(xs[k])
  }

  lemma {:induction false} ValuesOfWords(items: seq<Item>, xs: seq<Spelling>, rest: seq<Token>)
    requires Writes(items, xs) && rest != [] && rest[0].text == "/"
    ensures ValuesToSlash(TokensOf(items) + rest) == Ok(AllValues(xs))
    decreases |xs|
  {
    hide TextOf, ValuesOf, Expanded;
    var tokens := TokensOf(items) + rest;
    if xs == [] {
      assert tokens == rest;
    } else {
      ValuesOfWords(items[1..], xs[1..], rest);
      assert tokens[1..] == TokensOf(items[1..]) + rest;
      SpellingExpands(xs[0]);
      SpellingIsWord(xs[0]);
      assert tokens[0].text == TextOf(xs[0]);
    }
  }

  lemma DigitsEndNoWord(s: string, k: nat)
    requires k < |s| && (IsDigit(s[k]) || s[k] == '*' || (s[k] == '-' && k + 1 < |s| && IsDigit(s[k + 1])))
    ensures !EndsWord(s, k)
  {
  }

  lemma NumberIsWord(negative: bool, digits: string, prefix: string)
    requires IsNumber(digits)
    requires forall k :: 0 <= k < |prefix| ==> IsDigit(prefix[k]) || prefix[k] == '*'
    ensures WordOk(prefix + NumberText(negative, digits))
  {
    var n := NumberText(negative, digits);
    var s := prefix + n;
    var d := |s| - |digits|;
    assert forall k :: 0 <= k < |digits| ==> s[d + k] == digits[k];
    assert forall k :: d <= k < |s| ==> IsDigit(s[k]);
    forall k | 0 <= k < |s| ensures !EndsWord(s, k) {
      if k < |prefix| {
        assert s[k] == prefix[k];
      } else if k < d {
        assert s[k] == '-' && k + 1 == d;
      }
      DigitsEndNoWord(s, k);
    }
    assert s[0] == (if prefix != "" then prefix[0] else n[0]);
  }

  /** Spellings are words, and no slash. */
  lemma SpellingIsWord(x: Spelling)
    requires Correct(x)
    ensures WordOk(TextOf(x)) && TextOf(x) != "/"
  {
    hide Value, NumberText, AllDigits, WordOk;
    match x {
      case One(negative, digits) =>
        NumberIsWord(negative, digits, "");
        assert "" + NumberText(negative, digits) == NumberText(negative, digits);
      case Run(count, negative, digits) =>
        CountIsPrefix(count);
        NumberIsWord(negative, digits, count + "*");
      case Zeros(count) =>
        ZerosIsWord(count);
    }
    WordIsNoSlash(TextOf(x));
  }

  lemma CountIsPrefix(count: string)
    requires IsNumber(count)
    ensures forall k :: 0 <= k < |count + "*"| ==> IsDigit((count + "*")[k]) || (count + "*")[k] == '*'
  {
  }

  lemma ZerosIsWord(count: string)
    requires IsNumber(count)
    ensures WordOk(count + "*")
  {
    var s := count + "*";
    forall k | 0 <= k < |s| ensures !EndsWord(s, k) {
      assert s[k] == if k < |count| then count[k] else '*';
      DigitsEndNoWord(s, k);
    }
    assert IsDigit(s[0]);
  }

  lemma WordIsNoSlash(text: string)
    requires WordOk(text)
    ensures text != "/"
  {
    assert !EndsWord(text, 0);
  }

  /** A deck that holds the record: items before it, the keyword, one word per
      spelling, a slash, and anything at all behind that. */
  function Deck(before: seq<Item>, keyword: Item, values: seq<Item>, gap: seq<Filler>, tail: string): string {
    ItemsText(before + [keyword] + values) + (GapText(gap) + ("/" + tail))
  }

  lemma GapBeforeSlash(s: string, pos: nat, gap: seq<Filler>, tail: string)
    requires GapOk(gap) && At(s, pos, GapText(gap) + ("/" + tail))
    ensures EndsHere(s, pos)
  {
    hide FillerText, EndsHere, FillerOk;
    AtSplit(s, pos, GapText(gap), "/" + tail);
    if gap != [] {
      AtSplit(s, pos, FillerText(gap[0]), GapText(gap[1..]));
      FillerEndsWord(s, pos, gap[0]);
    } else {
      SlashEndsWord(s, pos, tail);
    }
  }

  lemma {:induction false} TokensOfDeck(before: seq<Item>, keyword: Item, values: seq<Item>, gap: seq<Filler>, tail: string)
    returns (rest: seq<Token>)
    requires ItemsOk(before + [keyword] + values) && GapOk(gap)
    ensures rest != [] && rest[0].text == "/"
    ensures Tokens(Deck(before, keyword, values, gap, tail)) ==
            TokensOf(before) + ([TokenOf(keyword)] + (TokensOf(values) + rest))
  {
    hide ItemsText, GapText, TokensFrom, EndsHere, ItemsOk, GapOk, TokenOf, NextToken;
    var s := Deck(before, keyword, values, gap, tail);
    var items := before + [keyword] + values;
    var body, behind := ItemsText(items), GapText(gap) + ("/" + tail);
    assert s[0..|s|] == s;
    AtSplit(s, 0, body, behind);
    GapBeforeSlash(s, |body|, gap, tail);
    TokensOfItems(s, 0, items);
    TokensBehindGap(s, |body|, gap);
    AtSplit(s, |body|, GapText(gap), "/" + tail);
    AtSplit(s, |body| + |GapText(gap)|, "/", tail);
    TokensOfSlash(s, |body| + |GapText(gap)|);
    rest := TokensFrom(s, Place(|body|, false));
    assert TokensOf(items) + rest == TokensOf(before) + ([TokenOf(keyword)] + (TokensOf(values) + rest));
  }

  /** Loading the record gives exactly the vector, for every spelling and every
      layout, whatever the case of the keyword, and checks an expected count. */
  lemma RoundTrip(
      before: seq<Item>, keyword: Item, values: seq<Item>, gap: seq<Filler>, tail: string,
      name: string, xs: seq<Spelling>, expectedCount: nat)
    requires ItemsOk(before + [keyword] + values) && GapOk(gap)
    requires keyword.Word? && ToUpper(keyword.text) == name && NoneIs(TokensOf(before), name)
    requires Writes(values, xs)
    ensures KeywordInts(Tokens(Deck(before, keyword, values, gap, tail)), name, expectedCount) ==
            if expectedCount != 0 && |AllValues(xs)| != expectedCount then Throws else Ok(AllValues(xs))
  {
    hide ItemsOk, Deck, Tokens, AllValues, ValuesToSlash, Writes;
    assert forall k :: 0 <= k < |xs| ==> Correct(xs[k]) by {
      WritesCorrect(values, xs);
    }
    var rest := TokensOfDeck(before, keyword, values, gap, tail);
    var record := [TokenOf(keyword)] + (TokensOf(values) + rest);
    LoadBehind(TokensOf(before), record, name, expectedCount);
    ValuesOfWords(values, xs, rest);
    assert record[1..] == TokensOf(values) + rest && record[0].text == keyword.text;
  }

  lemma WritesCorrect(items: seq<Item>, xs: seq<Spelling>)
    requires Writes(items, xs)
    ensures forall k :: 0 <= k < |xs| ==> Correct(xs[k])
  {
    hide Correct;
  }
}
