/** The file-name matcher of the FLASH reader: a greedy loop that remembers one
    star, proved against the recursive meaning of `?` and `*`. */
module Wildcard {

  /** The meaning of a pattern: `*` stands for any text, `?` for any one character. */
  predicate Glob(p: string, v: string)
    decreases |p| + |v|
  {
    if p == [] then v == []
    else if p[0] == '*' then Glob(p[1..], v) || (v != [] && Glob(p, v[1..]))
    else v != [] && (p[0] == '?' || p[0] == v[0]) && Glob(p[1..], v[1..])
  }

  /** The last star met by the loop and the value position it was retried from. */
  datatype StarMemory = NoStar | Star(star: nat, retry: nat)

  ghost predicate Reachable(p: string, v: string, i: nat, j: nat, memory: StarMemory) {
    && i <= |p| && j <= |v|
    && (memory.Star? ==>
          && memory.star < i && memory.retry <= j && p[memory.star] == '*'
          && i - memory.star - 1 == j - memory.retry)
  }

  /** The decision of the loop from one of its states. */
  predicate Greedy(p: string, v: string, i: nat, j: nat, memory: StarMemory)
    requires Reachable(p, v, i, j, memory)
    decreases |p| - (if memory.Star? then memory.star + 1 else 0),
              |v| - (if memory.Star? then memory.retry else 0),
              |p| - i + |v| - j
  {
    if j == |v| then AllStars(p[i..])
    else if i < |p| && (p[i] == '?' || p[i] == v[j]) then Greedy(p, v, i + 1, j + 1, memory)
    else if i < |p| && p[i] == '*' then Greedy(p, v, i + 1, j, Star(i, j))
    else if memory.Star? then
      Greedy(p, v, memory.star + 1, memory.retry + 1, Star(memory.star, memory.retry + 1))
    else false
  }

  /** The answer the loop gives on a whole pattern and value. */
  predicate Matches(p: string, v: string) {
    Greedy(p, v, 0, 0, NoStar)
  }

  predicate AllStars(p: string) {
    forall k :: 0 <= k < |p| ==> p[k] == '*'
  }

  method WildcardMatch(pattern: string, value: string) returns (matched: bool)
    ensures matched == Matches(pattern, value)
    ensures matched ==> Glob(pattern, value)
    ensures '*' !in value ==> (matched <==> Glob(pattern, value))
  {
    assert pattern[0..] == pattern && value[0..] == value;
    if Matches(pattern, value) {
      GreedySound(pattern, value, 0, 0, NoStar);
    }
    CorrectExactlyWithoutStars(value);
    var p: nat, v: nat := 0, 0;
    var memory := NoStar;
    while v < |value|
      invariant Reachable(pattern, value, p, v, memory)
      invariant Greedy(pattern, value, p, v, memory) == Matches(pattern, value)
      decreases |pattern| - (if memory.Star? then memory.star + 1 else 0),
                |value| - (if memory.Star? then memory.retry else 0),
                |pattern| - p + |value| - v
    {
      if p < |pattern| && (pattern[p] == '?' || pattern[p] == value[v]) {
        p, v := p + 1, v + 1;
      } else if p < |pattern| && pattern[p] == '*' {
        p, memory := p + 1, Star(p, v);
      } else if memory.Star? {
        memory := Star(memory.star, memory.retry + 1);
        p, v := memory.star + 1, memory.retry;
      } else {
        return false;
      }
    }
    ghost var q := p;
    while p < |pattern| && pattern[p] == '*'
      invariant q <= p <= |pattern|
      invariant forall k :: q <= k < p ==> pattern[k] == '*'
    {
      p := p + 1;
    }
    assert p < |pattern| ==> pattern[q..][p - q] != '*';
    matched := p == |pattern|;
  }

  // ---------------------------------------------------------------- star laws

  lemma {:induction false} EmptyValue(p: string)
    ensures Glob(p, []) <==> AllStars(p)
  {
    if p != [] {
      EmptyValue(p[1..]);
      assert p == [p[0]] + p[1..];
    }
  }

  /** A star absorbs any prefix of the value. */
  lemma {:induction false} StarAbsorbs(p: string, v: string, k: nat)
    requires p != [] && p[0] == '*' && k <= |v| && Glob(p, v[k..])
    ensures Glob(p, v)
    decreases k
  {
    if k == 0 {
      assert v[0..] == v;
    } else {
      assert v[1..][k - 1..] == v[k..];
      StarAbsorbs(p, v[1..], k - 1);
    }
  }

  /** A match of `*q` picks the suffix that `q` matches. */
  lemma {:induction false} StarChoice(p: string, v: string) returns (k: nat)
    requires p != [] && p[0] == '*' && Glob(p, v)
    ensures k <= |v| && Glob(p[1..], v[k..])
    decreases |v|
  {
    if Glob(p[1..], v) {
      k := 0;
      assert v[0..] == v;
    } else {
      var m := StarChoice(p, v[1..]);
      k := m + 1;
      assert v[1..][m..] == v[k..];
    }
  }

  /** A star-free head of a pattern consumes exactly its own length. */
  lemma {:induction false} LiteralHead(p: string, n: nat, v: string)
    requires n <= |p| && '*' !in p[..n] && Glob(p, v)
    ensures n <= |v| && Glob(p[n..], v[n..])
    decreases n
  {
    if n == 0 {
      assert p[0..] == p && v[0..] == v;
    } else {
      assert p[..n][0] == p[0];
      assert p[..n] == [p[0]] + p[1..][..n - 1];
      LiteralHead(p[1..], n - 1, v[1..]);
      assert p[1..][n - 1..] == p[n..] && v[1..][n - 1..] == v[n..];
    }
  }

  // ------------------------------------------------- the loop against the glob

  /** Whatever the value, a match reported by the loop is a match. */
  lemma {:induction false} GreedySound(p: string, v: string, i: nat, j: nat, memory: StarMemory)
    requires Reachable(p, v, i, j, memory)
    requires Greedy(p, v, i, j, memory)
    ensures Glob(p[i..], v[j..]) || (memory.Star? && Glob(p[memory.star..], v[memory.retry..]))
    decreases |p| - (if memory.Star? then memory.star + 1 else 0),
              |v| - (if memory.Star? then memory.retry else 0),
              |p| - i + |v| - j
  {
    if j == |v| {
      EmptyValue(p[i..]);
      assert v[j..] == [];
    } else if i < |p| && (p[i] == '?' || p[i] == v[j]) {
      GreedySound(p, v, i + 1, j + 1, memory);
      assert p[i..][1..] == p[i + 1..] && v[j..][1..] == v[j + 1..];
      if p[i] == '*' && Glob(p[i + 1..], v[j + 1..]) {
        assert Glob(p[i..], v[j + 1..]);
      }
    } else if i < |p| && p[i] == '*' {
      GreedySound(p, v, i + 1, j, Star(i, j));
      assert p[i..][1..] == p[i + 1..];
    } else {
      var s, r := memory.star, memory.retry;
      GreedySound(p, v, s + 1, r + 1, Star(s, r + 1));
      assert p[s..][1..] == p[s + 1..] && v[r..][1..] == v[r + 1..];
      if Glob(p[s + 1..], v[r + 1..]) {
        assert Glob(p[s..], v[r + 1..]);
      }
    }
  }

  /** On a star-free value the loop misses no match: giving up every star but the
      last one loses nothing. */
  lemma {:induction false} GreedyComplete(p: string, v: string, i: nat, j: nat, memory: StarMemory)
    requires Reachable(p, v, i, j, memory)
    requires '*' !in v
    requires memory.Star? ==> '*' !in p[memory.star + 1..i]
    requires Glob(p[i..], v[j..]) || (memory.Star? && memory.retry < |v| && Glob(p[memory.star..], v[memory.retry + 1..]))
    ensures Greedy(p, v, i, j, memory)
    decreases |p| - (if memory.Star? then memory.star + 1 else 0),
              |v| - (if memory.Star? then memory.retry else 0),
              |p| - i + |v| - j
  {
    if memory.Star? {
      assert p[memory.star..][1..] == p[memory.star + 1..];
    }
    if j == |v| {
      if Glob(p[i..], v[j..]) {
        EmptyValue(p[i..]);
      } else {
        var k := EarlierStarYields(p, v, i, j, memory);
      }
    } else if i < |p| && (p[i] == '?' || p[i] == v[j]) {
      assert p[i..][1..] == p[i + 1..] && v[j..][1..] == v[j + 1..];
      GreedyComplete(p, v, i + 1, j + 1, memory);
    } else if i < |p| && p[i] == '*' {
      NextStar(p, v, i, j, memory);
      GreedyComplete(p, v, i + 1, j, Star(i, j));
    } else {
      var s, r := memory.star, memory.retry;
      assert v[r + 1..] != [] ==> v[r + 1..][1..] == v[r + 2..];
      GreedyComplete(p, v, s + 1, r + 1, Star(s, r + 1));
    }
  }

  /** The star that is met next can take over from the one remembered. */
  lemma NextStar(p: string, v: string, i: nat, j: nat, memory: StarMemory)
    requires Reachable(p, v, i, j, memory) && i < |p| && p[i] == '*' && j < |v|
    requires memory.Star? ==> '*' !in p[memory.star + 1..i]
    requires Glob(p[i..], v[j..]) || (memory.Star? && memory.retry < |v| && Glob(p[memory.star..], v[memory.retry + 1..]))
    ensures Glob(p[i + 1..], v[j..]) || Glob(p[i..], v[j + 1..])
  {
    assert p[i..][1..] == p[i + 1..] && v[j..][1..] == v[j + 1..];
    if !Glob(p[i..], v[j..]) {
      var k := EarlierStarYields(p, v, i, j, memory);
      assert v[j + 1..][k..] == v[j + 1 + k..];
      StarAbsorbs(p[i..], v[j + 1..], k);
    }
  }

  /** If retrying the remembered star later would lead to a match, then what is
      left of the pattern matches a proper suffix of what is left of the value. */
  lemma EarlierStarYields(p: string, v: string, i: nat, j: nat, memory: StarMemory) returns (k: nat)
    requires Reachable(p, v, i, j, memory) && memory.Star?
    requires '*' !in p[memory.star + 1..i]
    requires memory.retry < |v| && Glob(p[memory.star..], v[memory.retry + 1..])
    ensures j + 1 + k <= |v| && Glob(p[i..], v[j + 1 + k..])
  {
    var s, r := memory.star, memory.retry;
    var n := i - s - 1;
    k := StarChoice(p[s..], v[r + 1..]);
    assert p[s..][1..] == p[s + 1..] && v[r + 1..][k..] == v[r + 1 + k..];
    assert p[s + 1..][..n] == p[s + 1..i];
    LiteralHead(p[s + 1..], n, v[r + 1 + k..]);
    assert p[s + 1..][n..] == p[i..] && v[r + 1 + k..][n..] == v[j + 1 + k..];
  }

  // ------------------------------------- exactly when the matcher is right

  /** A value is matched correctly by every pattern exactly when it holds no star:
      the equality test comes before the star test, so a star in the value is
      spent on a star in the pattern. */
  lemma CorrectExactlyWithoutStars(v: string)
    ensures '*' !in v <==> (forall p :: Matches(p, v) == Glob(p, v))
  {
    if '*' in v {
      var p := PatternMissed(v);
      assert Matches(p, v) != Glob(p, v);
    } else {
      forall p ensures Matches(p, v) == Glob(p, v) {
        assert p[0..] == p && v[0..] == v;
        if Matches(p, v) {
          GreedySound(p, v, 0, 0, NoStar);
        }
        if Glob(p, v) {
          GreedyComplete(p, v, 0, 0, NoStar);
        }
      }
    }
  }

  /** The pattern built from a value with a star: its star-free head, then a star. */
  lemma PatternMissed(v: string) returns (p: string)
    requires '*' in v
    ensures Glob(p, v) && !Matches(p, v)
  {
    var k := FirstStar(v);
    var tail := if k + 1 == |v| then "*?" else "*";
    p := v[..k] + tail;
    assert p[k..] == tail;
    assert tail[1..] == if k + 1 == |v| then "?" else "";
    if k + 1 == |v| {
      assert v[k..][1..] == [];
      assert "?"[1..] == "";
      assert Glob("", []);
      assert Glob("?", v[k..]);
    } else {
      EmptyValue("*");
      assert v[k..][|v| - k..] == [];
      assert Glob("", v[k..][|v| - k..]);
      GlobStarOnly(v[k..]);
    }
    assert Glob(tail, v[k..]);
    SharedPrefix(v[..k], tail, v[k..]);
    assert v[..k] + v[k..] == v;
    LiteralRun(p, v, 0, k);
    assert Greedy(p, v, k, k, NoStar) == Greedy(p, v, k + 1, k + 1, NoStar);
    if k + 1 == |v| {
      assert p[k + 1..][0] == '?';
    }
  }

  lemma {:induction false} GlobStarOnly(v: string)
    ensures Glob("*", v)
    decreases |v|
  {
    if v == [] {
      assert Glob("*"[1..], v);
    } else {
      GlobStarOnly(v[1..]);
    }
  }

  lemma {:induction false} FirstStar(v: string) returns (k: nat)
    requires '*' in v
    ensures k < |v| && v[k] == '*' && '*' !in v[..k]
    decreases |v|
  {
    if v[0] == '*' {
      k := 0;
    } else {
      assert v == [v[0]] + v[1..];
      var m := FirstStar(v[1..]);
      k := m + 1;
      assert v[..k] == [v[0]] + v[1..][..m];
    }
  }

  /** Any text matches itself as a pattern, in front of a match too. */
  lemma {:induction false} SharedPrefix(h: string, p: string, v: string)
    requires Glob(p, v)
    ensures Glob(h + p, h + v)
    decreases |h|
  {
    if h == [] {
      assert h + p == p && h + v == v;
    } else {
      SharedPrefix(h[1..], p, v);
      assert (h + p)[1..] == h[1..] + p && (h + v)[1..] == h[1..] + v;
      assert h[0] == '*' ==> Glob(h + p, h[1..] + v);
    }
  }

  lemma {:induction false} LiteralRun(p: string, v: string, i: nat, k: nat)
    requires i <= k <= |v| && k <= |p| && p[..k] == v[..k]
    ensures Greedy(p, v, i, i, NoStar) == Greedy(p, v, k, k, NoStar)
    decreases k - i
  {
    if i < k {
      assert p[i] == p[..k][i] == v[i];
      LiteralRun(p, v, i + 1, k);
    }
  }

  /** A pattern without stars is matched as it means, whatever the value. */
  lemma {:induction false} PlainComplete(p: string, v: string, i: nat, j: nat)
    requires Reachable(p, v, i, j, NoStar) && '*' !in p && Glob(p[i..], v[j..])
    ensures Greedy(p, v, i, j, NoStar)
    decreases |p| - i
  {
    if i < |p| {
      assert p[i] in p && p[i..][0] == p[i];
      assert p[i..][1..] == p[i + 1..] && v[j..][1..] == v[j + 1..];
      PlainComplete(p, v, i + 1, j + 1);
    }
  }

  lemma {:induction false} LastStar(p: string) returns (s: nat)
    requires '*' in p
    ensures s < |p| && p[s] == '*' && '*' !in p[s + 1..]
    decreases |p|
  {
    var n := |p| - 1;
    if p[n] == '*' {
      s := n;
    } else {
      assert p == p[..n] + [p[n]];
      s := LastStar(p[..n]);
      assert p[s + 1..] == p[..n][s + 1..] + [p[n]];
    }
  }

  /** The value built from a pattern with a star: the pattern, and again what follows its
      last star, or any character if nothing does. */
  lemma NameMissed(p: string) returns (v: string)
    requires '*' in p
    ensures Glob(p, v) && !Matches(p, v)
  {
    hide Matches;
    var s := LastStar(p);
    var tail := p[s + 1..];
    var extra := if tail == "" then "x" else tail;
    v := p + extra;
    var (head, last) := (p[..s], p[s..]);
    assert last[1..] == tail && (last + extra)[|last + extra| - |tail|..] == tail;
    SharedPrefix(tail, "", "");
    assert tail + "" == tail;
    StarAbsorbs(last, last + extra, |last + extra| - |tail|);
    SharedPrefix(head, last, last + extra);
    assert head + last == p && head + (last + extra) == v;
    Overrun(p, extra);
  }

  /** A value that a pattern is only the start of, letter by letter, is never matched. */
  lemma Overrun(p: string, extra: string)
    requires extra != ""
    ensures !Matches(p, p + extra)
  {
    var v := p + extra;
    assert p[..|p|] == v[..|p|];
    LiteralRun(p, v, 0, |p|);
  }

  /** A pattern matches every value correctly exactly when it holds no star. */
  lemma CorrectExactlyForPlainPatterns(p: string)
    ensures '*' !in p <==> (forall v :: Matches(p, v) == Glob(p, v))
  {
    if '*' in p {
      var v := NameMissed(p);
      assert Matches(p, v) != Glob(p, v);
    } else {
      forall v ensures Matches(p, v) == Glob(p, v) {
        assert p[0..] == p && v[0..] == v;
        if Matches(p, v) {
          GreedySound(p, v, 0, 0, NoStar);
        }
        if Glob(p, v) {
          PlainComplete(p, v, 0, 0);
        }
      }
    }
  }
}
