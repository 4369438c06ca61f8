/** The few string operations of Go and TypeScript that the modelled code uses. */
module Strings {
  lemma ConcatAssociates<T>(a: seq<T>, b: seq<T>, c: seq<T>)
    ensures (a + b) + c == a + (b + c)
  {
  }

  lemma TakeOneMore<T>(s: seq<T>, i: nat)
    requires i < |s|
    ensures s[..i + 1] == s[..i] + [s[i]] && s == s[..i + 1] + s[i + 1..]
  {
  }

  predicate HasSuffix(s: string, suffix: string) {
    |suffix| <= |s| && s[|s| - |suffix|..] == suffix
  }

  /** sub occurs in s at position k. */
  predicate At(s: string, k: int, sub: string) {
    0 <= k && k + |sub| <= |s| && s[k..k + |sub|] == sub
  }

  /** The leftmost occurrence of sub in s, or -1. */
  function IndexOf(s: string, sub: string): (i: int)
    ensures -1 <= i && (i >= 0 ==> i + |sub| <= |s|)
  {
    IndexFrom(s, 0, sub)
  }

  function IndexFrom(s: string, from: nat, sub: string): (i: int)
    requires from <= |s|
    ensures i == -1 || from <= i <= |s| - |sub|
    decreases |s| - from
  {
    if At(s, from, sub) then from
    else if from == |s| then -1
    else IndexFrom(s, from + 1, sub)
  }

  lemma {:induction false} IndexFromMeans(s: string, from: nat, sub: string)
    requires from <= |s|
    ensures var i := IndexFrom(s, from, sub);
      if i < 0 then forall k :: from <= k ==> !At(s, k, sub)
      else At(s, i, sub) && forall k :: from <= k < i ==> !At(s, k, sub)
    decreases |s| - from
  {
    if !At(s, from, sub) && from < |s| {
      IndexFromMeans(s, from + 1, sub);
    }
  }

  lemma IndexOfMeans(s: string, sub: string)
    ensures var i := IndexOf(s, sub);
      if i < 0 then forall k :: !At(s, k, sub)
      else At(s, i, sub) && forall k :: 0 <= k < i ==> !At(s, k, sub)
  {
    IndexFromMeans(s, 0, sub);
  }

  /** Where sub first occurs is where IndexOf finds it. */
  lemma FirstIsIndexOf(s: string, sub: string, i: nat)
    requires At(s, i, sub) && forall k :: 0 <= k < i ==> !At(s, k, sub)
    ensures IndexOf(s, sub) == i
  {
    IndexOfMeans(s, sub);
  }

  /** strings.Split for a one-character separator. */
  function Split(s: string, sep: char): (parts: seq<string>)
    ensures |parts| >= 1
    ensures sep !in parts[0]
  {
    if s == "" then [""]
    else
      var rest := Split(s[1..], sep);
      if s[0] == sep then [""] + rest else [[s[0]] + rest[0]] + rest[1..]
  }

  function Join(parts: seq<string>, sep: string): string {
    if parts == [] then ""
    else if |parts| == 1 then parts[0]
    else parts[0] + sep + Join(parts[1..], sep)
  }

  /** Splitting loses nothing, and no part holds the separator. */
  lemma {:induction false} SplitJoin(s: string, sep: char)
    ensures Join(Split(s, sep), [sep]) == s
    ensures forall i :: 0 <= i < |Split(s, sep)| ==> sep !in Split(s, sep)[i]
  {
    if s != "" {
      SplitJoin(s[1..], sep);
      var rest := Split(s[1..], sep);
      assert s == [s[0]] + s[1..];
      if s[0] == sep {
        assert ([""] + rest)[1..] == rest;
      } else {
        var parts := [[s[0]] + rest[0]] + rest[1..];
        assert parts[1..] == rest[1..];
        assert Split(s, sep) == parts;
        forall i | 0 <= i < |parts| ensures sep !in parts[i] {
          if i > 0 {
            assert parts[i] == rest[i];
          }
        }
      }
    }
  }

  // ---- dictionary order --------------------------------------------------------

  predicate Less(a: string, b: string) {
    b != "" && (a == "" || a[0] < b[0] || (a[0] == b[0] && Less(a[1..], b[1..])))
  }

  predicate AtMost(a: string, b: string) { a == b || Less(a, b) }

  lemma {:induction false} NotLessThanItself(a: string)
    ensures !Less(a, a)
  {
    if a != "" {
      NotLessThanItself(a[1..]);
    }
  }

  lemma {:induction false} LessTotal(a: string, b: string)
    ensures a == b || Less(a, b) || Less(b, a)
    ensures !(Less(a, b) && Less(b, a))
    decreases |a|
  {
    if a != "" && b != "" {
      LessTotal(a[1..], b[1..]);
      if a[0] == b[0] && a[1..] == b[1..] {
        assert a == [a[0]] + a[1..] && b == [b[0]] + b[1..];
        NotLessThanItself(a);
      }
    }
  }

  lemma {:induction false} LessTransitive(a: string, b: string, c: string)
    requires Less(a, b) && Less(b, c)
    ensures Less(a, c)
    decreases |a|
  {
    if a != "" && a[0] == b[0] == c[0] {
      LessTransitive(a[1..], b[1..], c[1..]);
    }
  }
}
