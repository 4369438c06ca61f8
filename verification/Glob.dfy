/**
  Glob matching of table and column names (matchGlob in internal/rules/rules.go).
  The loop places each part of the pattern as far left as it will go; it is
  proved to decide the declarative reading of "*".
*/
module Glob {
  import opened Strings

  /** The reading of a pattern: "*" stands for any run of characters. */
  predicate Matches(p: string, n: string)
    decreases |p|
  {
    if p == "" then n == ""
    else if p[0] == '*' then exists k :: 0 <= k <= |n| && Matches(p[1..], n[k..])
    else n != "" && n[0] == p[0] && Matches(p[1..], n[1..])
  }

  /** Placement of the parts after the first: each after an arbitrary gap, the
      last one ending the name. */
  predicate Places(parts: seq<string>, m: string)
    decreases |parts|
  {
    if parts == [] then m == ""
    else exists k :: 0 <= k <= |m| && At(m, k, parts[0]) && Places(parts[1..], m[k + |parts[0]|..])
  }

  predicate PartsMatch(parts: seq<string>, n: string)
    requires parts != []
  {
    At(n, 0, parts[0]) && Places(parts[1..], n[|parts[0]|..])
  }

  lemma {:induction false} MatchesByParts(p: string, n: string)
    ensures Matches(p, n) <==> PartsMatch(Split(p, '*'), n)
    decreases |p|, 2
  {
    if p != "" {
      if p[0] == '*' {
        MatchesByPartsAfterStar(p, n);
      } else {
        var rest := Split(p[1..], '*');
        assert Split(p, '*') == [[p[0]] + rest[0]] + rest[1..];
        LiteralHead(p[0], rest, n);
        if n != "" {
          MatchesByParts(p[1..], n[1..]);
        }
      }
    }
  }

  lemma {:induction false} MatchesByPartsAfterStar(p: string, n: string)
    requires p != "" && p[0] == '*'
    ensures Matches(p, n) <==> PartsMatch(Split(p, '*'), n)
    decreases |p|, 1
  {
    var rest := Split(p[1..], '*');
    StarHead(rest, n);
    assert Split(p, '*') == [""] + rest;
    if Places(rest, n) {
      PlacedAfterStarMatches(p, n);
    }
    if Matches(p, n) {
      MatchAfterStarPlaces(p, n);
    }
  }

  lemma {:induction false} PlacedAfterStarMatches(p: string, n: string)
    requires p != "" && p[0] == '*' && Places(Split(p[1..], '*'), n)
    ensures Matches(p, n)
    decreases |p|, 0
  {
    var rest := Split(p[1..], '*');
    var k :| 0 <= k <= |n| && At(n, k, rest[0]) && Places(rest[1..], n[k + |rest[0]|..]);
    MatchesByPartsAt(p[1..], n, k);
    assert Matches(p[1..], n[k..]);
  }

  lemma {:induction false} MatchAfterStarPlaces(p: string, n: string)
    requires p != "" && p[0] == '*' && Matches(p, n)
    ensures Places(Split(p[1..], '*'), n)
    decreases |p|, 0
  {
    var k :| 0 <= k <= |n| && Matches(p[1..], n[k..]);
    MatchesByPartsAt(p[1..], n, k);
    PlacesAt(Split(p[1..], '*'), n, k);
  }

  lemma StarHead(rest: seq<string>, n: string)
    ensures PartsMatch([""] + rest, n) <==> Places(rest, n)
  {
    assert ([""] + rest)[1..] == rest && n[|""|..] == n && n[0..0] == "";
  }

  lemma LiteralHead(c: char, rest: seq<string>, n: string)
    requires rest != []
    ensures PartsMatch([[c] + rest[0]] + rest[1..], n) <==> n != "" && n[0] == c && PartsMatch(rest, n[1..])
  {
    var parts := [[c] + rest[0]] + rest[1..];
    assert parts[1..] == rest[1..];
    if n != "" && 1 + |rest[0]| <= |n| {
      assert n[|parts[0]|..] == n[1..][|rest[0]|..];
      assert n[0..|parts[0]|] == [n[0]] + n[1..][0..|rest[0]|];
      assert (n[0..|parts[0]|] == parts[0]) <==> (n[0] == c && n[1..][0..|rest[0]|] == rest[0]);
    }
  }

  lemma {:induction false} MatchesByPartsAt(p: string, n: string, k: int)
    requires 0 <= k <= |n|
    ensures var parts := Split(p, '*');
      Matches(p, n[k..]) <==> At(n, k, parts[0]) && Places(parts[1..], n[k + |parts[0]|..])
    decreases |p|, 3
  {
    MatchesByParts(p, n[k..]);
    var first := Split(p, '*')[0];
    if k + |first| <= |n| {
      assert n[k..][|first|..] == n[k + |first|..];
      assert n[k..][0..|first|] == n[k..k + |first|];
    }
  }

  lemma PlacesAt(parts: seq<string>, m: string, k: int)
    requires parts != [] && At(m, k, parts[0]) && Places(parts[1..], m[k + |parts[0]|..])
    ensures Places(parts, m)
  {
  }

  /** A placement of at least one more part survives giving it more room. */
  lemma PlacesWithMoreRoom(parts: seq<string>, m: string, k: nat)
    requires parts != [] && k <= |m| && Places(parts, m[k..])
    ensures Places(parts, m)
  {
    var s, len := m[k..], |parts[0]|;
    var j :| 0 <= j <= |s| && At(s, j, parts[0]) && Places(parts[1..], s[j + len..]);
    assert s[j..j + len] == m[k + j..k + j + len] && s[j + len..] == m[k + j + len..];
    PlacesAt(parts, m, k + j);
  }

  /** The exchange argument: if the parts can be placed at all, they can be
      placed with the first of them at its leftmost occurrence. */
  lemma LeftmostSuffices(parts: seq<string>, m: string)
    requires |parts| >= 2
    ensures var i := IndexOf(m, parts[0]);
      Places(parts, m) <==> i >= 0 && Places(parts[1..], m[i + |parts[0]|..])
  {
    var i, len := IndexOf(m, parts[0]), |parts[0]|;
    IndexOfMeans(m, parts[0]);
    if Places(parts, m) {
      var k := PlaceOfFirst(parts, m);
      MoveLeft(parts[1..], m, i + len, k + len);
    }
    if i >= 0 && Places(parts[1..], m[i + len..]) {
      PlacesAt(parts, m, i);
    }
  }

  lemma PlaceOfFirst(parts: seq<string>, m: string) returns (k: nat)
    requires parts != [] && Places(parts, m)
    ensures At(m, k, parts[0]) && Places(parts[1..], m[k + |parts[0]|..])
  {
    k :| 0 <= k <= |m| && At(m, k, parts[0]) && Places(parts[1..], m[k + |parts[0]|..]);
  }

  lemma MoveLeft(parts: seq<string>, m: string, to: nat, from: nat)
    requires parts != [] && to <= from <= |m| && Places(parts, m[from..])
    ensures Places(parts, m[to..])
  {
    assert m[from..] == m[to..][from - to..];
    PlacesWithMoreRoom(parts, m[to..], from - to);
  }

  lemma LastPartIsSuffix(part: string, m: string)
    ensures Places([part], m) <==> HasSuffix(m, part)
  {
    if HasSuffix(m, part) {
      var k := |m| - |part|;
      assert m[k..k + |part|] == m[k..] && m[k + |part|..] == "";
      PlacesAt([part], m, k);
    }
    if Places([part], m) {
      var k :| 0 <= k <= |m| && At(m, k, part) && Places([part][1..], m[k + |part|..]);
      assert m[k..k + |part|] == m[k..];
    }
  }

  lemma {:induction false} NoStarMeansEqual(p: string, n: string)
    requires '*' !in p
    ensures Matches(p, n) <==> p == n
    decreases |p|
  {
    if p != "" {
      if n != "" {
        NoStarMeansEqual(p[1..], n[1..]);
        assert p == [p[0]] + p[1..] && n == [n[0]] + n[1..];
      }
    }
  }

  lemma {:induction false} MatchesItself(p: string)
    ensures Matches(p, p)
    decreases |p|
  {
    if p != "" {
      MatchesItself(p[1..]);
      if p[0] == '*' {
        assert Matches(p[1..], p[1..]);
      }
    }
  }

  lemma {:induction false} SplitCountsStars(p: string)
    ensures '*' in p <==> |Split(p, '*')| >= 2
    decreases |p|
  {
    if p != "" {
      SplitCountsStars(p[1..]);
      assert p == [p[0]] + p[1..];
    }
  }

  /** Parts i and on can be placed in the name from position pos on. */
  predicate PlacesFrom(parts: seq<string>, i: nat, n: string, pos: nat)
    requires i <= |parts| && pos <= |n|
  {
    Places(parts[i..], n[pos..])
  }

  lemma PlaceMiddle(parts: seq<string>, i: nat, n: string, pos: nat)
    requires i < |parts| - 1 && pos <= |n|
    ensures var idx := IndexOf(n[pos..], parts[i]);
      PlacesFrom(parts, i, n, pos) <==> idx >= 0 && PlacesFrom(parts, i + 1, n, pos + idx + |parts[i]|)
  {
    LeftmostSuffices(parts[i..], n[pos..]);
    assert parts[i..][1..] == parts[i + 1..];
    var idx := IndexOf(n[pos..], parts[i]);
    if idx >= 0 {
      assert n[pos..][idx + |parts[i]|..] == n[pos + idx + |parts[i]|..];
    }
  }

  lemma PlaceLast(parts: seq<string>, n: string, pos: nat)
    requires parts != [] && pos <= |n|
    ensures PlacesFrom(parts, |parts| - 1, n, pos) <==> HasSuffix(n[pos..], parts[|parts| - 1])
  {
    assert parts[|parts| - 1..] == [parts[|parts| - 1]];
    LastPartIsSuffix(parts[|parts| - 1], n[pos..]);
  }

  lemma PlaceFirst(p: string, n: string)
    ensures var parts := Split(p, '*');
      Matches(p, n) <==> parts[0] <= n && PlacesFrom(parts, 1, n, |parts[0]|)
  {
    MatchesByParts(p, n);
    var first := Split(p, '*')[0];
    if |first| <= |n| {
      assert n[0..|first|] == n[..|first|];
    }
  }

  lemma EmptyPartIsFoundHere(s: string)
    ensures IndexOf(s, "") == 0 && HasSuffix(s, "")
  {
    assert At(s, 0, "");
  }

  /** matchGlob, over names as sequences of characters; `lower` is
      strings.ToLower, which may change a name's length. */
  method MatchGlob(lower: string -> string, pattern: string, name: string) returns (ok: bool)
    ensures ok <==> Matches(lower(pattern), lower(name))
  {
    var p, n := lower(pattern), lower(name);
    if p == n {
      MatchesItself(p);
      return true;
    }
    if '*' !in p {
      NoStarMeansEqual(p, n);
      return false;
    }
    ok := PlaceParts(p, n);
  }

  method PlaceParts(p: string, n: string) returns (ok: bool)
    requires '*' in p
    ensures ok <==> Matches(p, n)
  {
    var parts := Split(p, '*');
    PlaceFirst(p, n);
    SplitCountsStars(p);
    var pos, i := 0, 0;
    while i < |parts|
      invariant 0 <= i <= |parts| && 0 <= pos <= |n|
      invariant i == 0 ==> pos == 0
      invariant 0 < i < |parts| ==> (Matches(p, n) <==> PlacesFrom(parts, i, n, pos))
      invariant i == |parts| ==> Matches(p, n)
    {
      var part := parts[i];
      if 0 < i < |parts| - 1 {
        PlaceMiddle(parts, i, n, pos);
      } else if i > 0 {
        PlaceLast(parts, n, pos);
      }
      if part == "" {
        EmptyPartIsFoundHere(n[pos..]);
      } else if i == 0 {
        if !(part <= n) { return false; }
        pos := |part|;
      } else if i == |parts| - 1 {
        if !HasSuffix(n[pos..], part) { return false; }
      } else {
        var idx := IndexOf(n[pos..], part);
        if idx < 0 { return false; }
        pos := pos + idx + |part|;
      }
      i := i + 1;
    }
    return true;
  }
}
