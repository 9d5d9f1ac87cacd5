/** The order the FLASH reader sorts matched file names by. */
module NaturalOrder {
  import opened Decimal
  import opened Orders

  /** A maximal run of digits, by number and width, or a single other character. */
  datatype Token = Run(value: nat, width: nat) | Letter(c: char)

  /** Numbers by value and then by width; a number against a letter as its digits
      compare to that letter. */
  predicate TokenLess(a: Token, b: Token) {
    match (a, b)
    case (Run(v, m), Run(w, n)) => v < w || (v == w && m < n)
    case (Letter(c), Letter(d)) => c < d
    case (Run(_, _), Letter(d)) => '9' < d
    case (Letter(c), Run(_, _)) => c <= '9'
  }

  function Tokens(s: string): (t: seq<Token>)
    ensures t == [] <==> s == []
    decreases |s|
  {
    if s == [] then []
    else if IsDigit(s[0]) then
      var n := DigitRun(s);
      [Run(Value(s[..n]), n)] + Tokens(s[n..])
    else [Letter(s[0])] + Tokens(s[1..])
  }

  predicate NaturallyBefore(a: string, b: string) {
    LexLess(TokenLess, Tokens(a), Tokens(b))
  }

  predicate CharLess(a: char, b: char) {
    a < b
  }

  /** `s.substr(min(s.find_first_not_of('0'), s.size() - 1))`. */
  function TrimZeros(s: string): (t: string)
    requires s != [] && AllDigits(s)
    ensures t != [] && AllDigits(t) && Value(t) == Value(s)
    ensures t[0] == '0' ==> |t| == 1
  {
    if |s| > 1 && s[0] == '0' then
      LeadingZero(s);
      TrimZeros(s[1..])
    else s
  }

  method NaturalLess(lhs: string, rhs: string) returns (less: bool)
    ensures less == NaturallyBefore(lhs, rhs)
  {
    var i, j := 0, 0;
    assert lhs[0..] == lhs && rhs[0..] == rhs;
    while i < |lhs| && j < |rhs|
      invariant 0 <= i == j <= |lhs| && j <= |rhs|
      invariant LexLess(TokenLess, Tokens(lhs[i..]), Tokens(rhs[j..])) == NaturallyBefore(lhs, rhs)
    {
      if IsDigit(lhs[i]) && IsDigit(rhs[j]) {
        var ie := RunEnd(lhs, i);
        var je := RunEnd(rhs, j);
        var ln, rn := lhs[i..ie], rhs[j..je];
        CompareAtRuns(lhs, i, ie, rhs, j, je);
        var ltrim, rtrim := TrimZeros(ln), TrimZeros(rn);
        if |ltrim| != |rtrim| {
          return |ltrim| < |rtrim|;
        }
        if ltrim != rtrim {
          return LexLess(CharLess, ltrim, rtrim);
        }
        if |ln| != |rn| {
          return |ln| < |rn|;
        }
        i, j := ie, je;
      } else {
        var lc, rc := lhs[i], rhs[j];
        CompareAtLetters(lhs, i, rhs, j);
        if lc != rc {
          return lc < rc;
        }
        i, j := i + 1, j + 1;
      }
    }
    return |lhs| < |rhs|;
  }

  /** The two inner loops that look for the end of a digit run. */
  method RunEnd(s: string, start: nat) returns (end: nat)
    requires start < |s| && IsDigit(s[start])
    ensures start < end <= |s| && end - start == DigitRun(s[start..])
  {
    end := start;
    while end < |s| && IsDigit(s[end])
      invariant start <= end <= |s|
      invariant forall k :: start <= k < end ==> IsDigit(s[k])
    {
      end := end + 1;
    }
    ghost var n := DigitRun(s[start..]);
    assert n < |s[start..]| ==> !IsDigit(s[start + n]);
    assert forall k :: 0 <= k < n ==> IsDigit(s[start..][..n][k]);
    if start + n > end {
      assert IsDigit(s[start..][..n][end - start]);
    }
  }

  // ----------------------------------------------- numbers as trimmed digit text

  lemma CharLessStrictTotal()
    ensures StrictTotal(CharLess)
  {
  }

  lemma {:induction false} SameWidth(a: string, b: string)
    requires AllDigits(a) && AllDigits(b) && |a| == |b|
    ensures LexLess(CharLess, a, b) <==> Value(a) < Value(b)
    ensures a == b <==> Value(a) == Value(b)
    decreases |a|
  {
    if a != [] {
      var m := |a| - 1;
      CharLessStrictTotal();
      LexSnoc(CharLess, a, b);
      SameWidth(a[..m], b[..m]);
      assert a == a[..m] + [a[m]] && b == b[..m] + [b[m]];
    }
  }

  lemma ShorterIsSmaller(a: string, b: string)
    requires AllDigits(a) && AllDigits(b) && b != [] && b[0] != '0' && |a| < |b|
    ensures Value(a) < Value(b)
  {
    ValueBelowPow10(a);
    ValueFromPow10(b);
    Pow10Monotone(|a|, |b| - 1);
  }

  /** Comparing trimmed digit texts by length and then by text compares numbers. */
  lemma RunsCompare(a: string, b: string)
    requires a != [] && AllDigits(a) && (a[0] == '0' ==> |a| == 1)
    requires b != [] && AllDigits(b) && (b[0] == '0' ==> |b| == 1)
    ensures Value(a) < Value(b) <==> |a| < |b| || (|a| == |b| && LexLess(CharLess, a, b))
    ensures Value(a) == Value(b) <==> a == b
  {
    if |a| < |b| {
      ShorterIsSmaller(a, b);
    } else if |b| < |a| {
      ShorterIsSmaller(b, a);
    } else {
      SameWidth(a, b);
    }
  }

  /** How the rest of two names compares where both show a digit run. */
  lemma CompareAtRuns(lhs: string, i: nat, ie: nat, rhs: string, j: nat, je: nat)
    requires i < ie <= |lhs| && IsDigit(lhs[i]) && ie - i == DigitRun(lhs[i..])
    requires j < je <= |rhs| && IsDigit(rhs[j]) && je - j == DigitRun(rhs[j..])
    ensures AllDigits(lhs[i..ie]) && AllDigits(rhs[j..je])
    ensures var l, r := TrimZeros(lhs[i..ie]), TrimZeros(rhs[j..je]);
            LexLess(TokenLess, Tokens(lhs[i..]), Tokens(rhs[j..])) ==
            if |l| != |r| then |l| < |r|
            else if l != r then LexLess(CharLess, l, r)
            else if ie - i != je - j then ie - i < je - j
            else LexLess(TokenLess, Tokens(lhs[ie..]), Tokens(rhs[je..]))
  {
    HeadRun(lhs, i, ie);
    HeadRun(rhs, j, je);
    RunsCompare(TrimZeros(lhs[i..ie]), TrimZeros(rhs[j..je]));
  }

  lemma HeadRun(s: string, i: nat, ie: nat)
    requires i < ie <= |s| && IsDigit(s[i]) && ie - i == DigitRun(s[i..])
    ensures AllDigits(s[i..ie])
    ensures Tokens(s[i..]) == [Run(Value(s[i..ie]), ie - i)] + Tokens(s[ie..])
  {
    assert s[i..][..ie - i] == s[i..ie] && s[i..][ie - i..] == s[ie..];
  }

  lemma CompareAtLetters(lhs: string, i: nat, rhs: string, j: nat)
    requires i < |lhs| && j < |rhs| && !(IsDigit(lhs[i]) && IsDigit(rhs[j]))
    ensures LexLess(TokenLess, Tokens(lhs[i..]), Tokens(rhs[j..])) ==
            if lhs[i] != rhs[j] then lhs[i] < rhs[j]
            else LexLess(TokenLess, Tokens(lhs[i + 1..]), Tokens(rhs[j + 1..]))
  {
    assert lhs[i..][1..] == lhs[i + 1..] && rhs[j..][1..] == rhs[j + 1..];
  }

  // ------------------------------------------------------ a strict total order

  lemma TokenLessStrictTotal()
    ensures StrictTotal(TokenLess)
  {
  }

  /** A name is determined by its tokens. */
  lemma {:induction false} TokensInjective(a: string, b: string)
    requires Tokens(a) == Tokens(b)
    ensures a == b
    decreases |a|
  {
    if a != [] {
      assert a[0] == b[0] || IsDigit(a[0]) by {
        assert Tokens(a)[0] == Tokens(b)[0];
      }
      if IsDigit(a[0]) {
        var m, n := DigitRun(a), DigitRun(b);
        assert Tokens(a)[0] == Run(Value(a[..m]), m) == Tokens(b)[0] == Run(Value(b[..n]), n);
        SameWidth(a[..m], b[..n]);
        assert Tokens(a)[1..] == Tokens(a[m..]) && Tokens(b)[1..] == Tokens(b[n..]);
        TokensInjective(a[m..], b[n..]);
        assert a == a[..m] + a[m..] && b == b[..n] + b[n..];
      } else {
        assert Tokens(a)[1..] == Tokens(a[1..]) && Tokens(b)[1..] == Tokens(b[1..]);
        TokensInjective(a[1..], b[1..]);
        assert a == [a[0]] + a[1..] && b == [b[0]] + b[1..];
      }
    }
  }

  lemma NaturalOrderIsStrictTotal()
    ensures StrictTotal(NaturallyBefore)
  {
    TokenLessStrictTotal();
    forall a ensures !NaturallyBefore(a, a) {
      LexIrreflexive(TokenLess, Tokens(a));
    }
    forall a, b, c | NaturallyBefore(a, b) && NaturallyBefore(b, c) ensures NaturallyBefore(a, c) {
      LexTransitive(TokenLess, Tokens(a), Tokens(b), Tokens(c));
    }
    forall a, b ensures a == b || NaturallyBefore(a, b) || NaturallyBefore(b, a) {
      LexConnected(TokenLess, Tokens(a), Tokens(b));
      if Tokens(a) == Tokens(b) {
        TokensInjective(a, b);
      }
    }
  }

  /** The manifest lists the matched files in one order, whatever order the
      directory iterator produced them in. */
  lemma ManifestOrderUnique(listed: seq<string>, relisted: seq<string>)
    requires SortedBy(NaturallyBefore, listed) && SortedBy(NaturallyBefore, relisted)
    requires multiset(listed) == multiset(relisted)
    ensures listed == relisted
  {
    NaturalOrderIsStrictTotal();
    SortedOnce(NaturallyBefore, listed, relisted);
  }
}
