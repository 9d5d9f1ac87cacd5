/** Unique names for VTK arrays: a name that is taken gets a numeric suffix. */
module ArrayNames {
  import opened Collections
  import opened Decimal

  /** The names given out, and for each base requested the suffix to try next. */
  datatype Registry = Registry(usedNames: set<string>, nextSuffix: map<string, nat>)

  const EMPTY: Registry := Registry({}, map[])

  function Suffixed(base: string, k: nat): (name: string)
    ensures name != base
  {
    base + "_" + ToString(k)
  }

  lemma SuffixedInjective(base: string, j: nat, k: nat)
    requires Suffixed(base, j) == Suffixed(base, k)
    ensures j == k
  {
    assert Suffixed(base, j)[|base| + 1..] == ToString(j) && Suffixed(base, k)[|base| + 1..] == ToString(k);
    ToStringInjective(j, k);
  }

  ghost predicate IsSuffixedFrom(name: string, base: string, k: nat) {
    exists j: nat :: j >= k && name == Suffixed(base, j)
  }

  /** The taken names that the search from suffix `k` on may still meet. */
  ghost function Taken(usedNames: set<string>, base: string, k: nat): set<string> {
    set name | name in usedNames && IsSuffixedFrom(name, base, k)
  }

  /** Passing over a taken name leaves fewer of them: the search ends. */
  lemma SearchEnds(usedNames: set<string>, base: string, k: nat)
    requires Suffixed(base, k) in usedNames
    ensures |Taken(usedNames, base, k + 1)| < |Taken(usedNames, base, k)|
  {
    var here, next := Taken(usedNames, base, k), Taken(usedNames, base, k + 1);
    assert Suffixed(base, k) in here;
    if IsSuffixedFrom(Suffixed(base, k), base, k + 1) {
      var j: nat :| j >= k + 1 && Suffixed(base, k) == Suffixed(base, j);
      SuffixedInjective(base, j, k);
    }
    assert next <= here - {Suffixed(base, k)};
    SubsetSize(next, here - {Suffixed(base, k)});
  }

  /** The first suffix from `k` on whose name is free. */
  function FirstFree(usedNames: set<string>, base: string, k: nat): (r: nat)
    ensures k <= r && Suffixed(base, r) !in usedNames
    ensures forall j :: k <= j < r ==> Suffixed(base, j) in usedNames
    decreases |Taken(usedNames, base, k)|
  {
    if Suffixed(base, k) !in usedNames then k
    else
      SearchEnds(usedNames, base, k);
      FirstFree(usedNames, base, k + 1)
  }

  /** One request: the name given, and the registry after it. A base that is taken
      already when it is first requested starts at suffix zero, any other at one. */
  function Request(r: Registry, base: string): (Registry, string) {
    if base !in r.nextSuffix && base !in r.usedNames then
      (Registry(r.usedNames + {base}, r.nextSuffix[base := 1]), base)
    else
      var k := FirstFree(r.usedNames, base, if base in r.nextSuffix then r.nextSuffix[base] else 0);
      (Registry(r.usedNames + {Suffixed(base, k)}, r.nextSuffix[base := k + 1]), Suffixed(base, k))
  }

  class ArrayNameRegistry {
    /** Makes a valid identifier of any text. */
    const makeValidIdentifier: string -> string
    var usedNames: set<string>
    var nextSuffixByBaseName: map<string, nat>

    ghost function State(): Registry
      reads this
    {
      Registry(usedNames, nextSuffixByBaseName)
    }

    constructor (makeValidIdentifier: string -> string)
      ensures State() == EMPTY && this.makeValidIdentifier == makeValidIdentifier
    {
      this.makeValidIdentifier := makeValidIdentifier;
      usedNames, nextSuffixByBaseName := {}, map[];
    }

    method MakeUniqueName(sourceName: string, fallbackBase: string) returns (name: string)
      modifies this
      ensures var base := makeValidIdentifier(if sourceName == "" then fallbackBase else sourceName);
              (State(), name) == Request(old(State()), base)
      ensures name !in old(usedNames)
    {
      var rawBase := if sourceName == "" then fallbackBase else sourceName;
      var base := makeValidIdentifier(rawBase);
      if base !in nextSuffixByBaseName && base !in usedNames {
        usedNames := usedNames + {base};
        nextSuffixByBaseName := nextSuffixByBaseName[base := 1];
        return base;
      }
      var suffix: nat := if base in nextSuffixByBaseName then nextSuffixByBaseName[base] else 0;
      ghost var start := suffix;
      while Suffixed(base, suffix) in usedNames
        invariant State() == old(State())
        invariant suffix >= start && FirstFree(usedNames, base, start) == FirstFree(usedNames, base, suffix)
        decreases |Taken(usedNames, base, suffix)|
      {
        SearchEnds(usedNames, base, suffix);
        suffix := suffix + 1;
      }
      name := Suffixed(base, suffix);
      usedNames := usedNames + {name};
      nextSuffixByBaseName := nextSuffixByBaseName[base := suffix + 1];
    }

    method Clear()
      modifies this
      ensures State() == EMPTY
    {
      usedNames, nextSuffixByBaseName := {}, map[];
    }
  }

  // ----------------------------------------------------- sequences of requests

  function After(bases: seq<string>): Registry {
    if bases == [] then EMPTY
    else Request(After(bases[..|bases| - 1]), bases[|bases| - 1]).0
  }

  /** The names that a sequence of requests gets, from an empty registry on. */
  function Names(bases: seq<string>): (names: seq<string>)
    ensures |names| == |bases|
  {
    if bases == [] then []
    else
      var before := bases[..|bases| - 1];
      Names(before) + [Request(After(before), bases[|bases| - 1]).1]
  }

  /** What the registry knows: the names given out, and the bases requested. */
  lemma {:induction false} Remembers(bases: seq<string>)
    ensures forall n :: n in After(bases).usedNames <==> n in Names(bases)
    ensures forall b :: b in After(bases).nextSuffix <==> b in bases
    decreases |bases|
  {
    if bases != [] {
      var before := bases[..|bases| - 1];
      Remembers(before);
      assert bases == before + [bases[|bases| - 1]];
    }
  }

  lemma {:induction false} NamesOfPrefix(bases: seq<string>, i: nat)
    requires i <= |bases|
    ensures Names(bases)[..i] == Names(bases[..i])
    decreases |bases|
  {
    if i < |bases| {
      var before := bases[..|bases| - 1];
      NamesOfPrefix(before, i);
      assert before[..i] == bases[..i];
      assert Names(bases)[..i] == Names(before)[..i];
    } else {
      assert bases[..i] == bases;
    }
  }

  lemma {:induction false} LastName(bases: seq<string>)
    requires bases != []
    ensures var n := |bases| - 1; Names(bases)[n] == Request(After(bases[..n]), bases[n]).1
  {
    hide After, Request;
  }

  lemma NameIsRequested(bases: seq<string>, i: nat)
    requires i < |bases|
    ensures Names(bases)[i] == Request(After(bases[..i]), bases[i]).1
  {
    hide *;
    var prefix := bases[..i + 1];
    NamesOfPrefix(bases, i + 1);
    LastName(prefix);
    assert prefix[..i] == bases[..i] && prefix[i] == bases[i];
    assert Names(bases)[i] == Names(bases)[..i + 1][i];
  }

  /** No name is given out twice. */
  lemma AllDistinct(bases: seq<string>, i: nat, j: nat)
    requires i < j < |bases|
    ensures Names(bases)[i] != Names(bases)[j]
  {
    NameIsRequested(bases, j);
    Remembers(bases[..j]);
    NamesOfPrefix(bases, j);
    assert Names(bases)[i] == Names(bases[..j])[i];
  }

  /** A base is given unchanged exactly when it is requested for the first time and
      has not been given out as a name before. */
  lemma UnchangedExactly(bases: seq<string>, i: nat)
    requires i < |bases|
    ensures Names(bases)[i] == bases[i] <==> bases[i] !in bases[..i] && bases[i] !in Names(bases)[..i]
  {
    NameIsRequested(bases, i);
    Remembers(bases[..i]);
    NamesOfPrefix(bases, i);
  }

  /** Any other name is the base with a suffix, below which every suffix since the
      base's last one was taken. */
  lemma OtherwiseSuffixed(bases: seq<string>, i: nat) returns (start: nat, k: nat)
    requires i < |bases| && Names(bases)[i] != bases[i]
    ensures start <= k && Names(bases)[i] == Suffixed(bases[i], k)
    ensures forall j :: start <= j < k ==> Suffixed(bases[i], j) in Names(bases)[..i]
    ensures bases[i] !in bases[..i] ==> start == 0
  {
    NameIsRequested(bases, i);
    Remembers(bases[..i]);
    NamesOfPrefix(bases, i);
    var r := After(bases[..i]);
    start := if bases[i] in r.nextSuffix then r.nextSuffix[bases[i]] else 0;
    k := FirstFree(r.usedNames, bases[i], start);
  }
}
