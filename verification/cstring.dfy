/**
 * The C library string routines that checkFile relies on, over Dafny strings.
 * A Dafny string stands for a NUL-terminated C string; it holds no NUL itself.
 */
module CString {
  import opened Wrappers

  /** strcspn(s, {d}): the length of the longest prefix of `s` without `d`. */
  function Span(s: string, d: char): (n: nat)
    ensures n <= |s|
    ensures forall i :: 0 <= i < n ==> s[i] != d
    ensures n < |s| ==> s[n] == d
  {
    if s == [] || s[0] == d then 0 else 1 + Span(s[1..], d)
  }

  /** The span stops exactly at the end of a prefix without `d` that a `d` or the end follows. */
  lemma {:induction false} SpanOfJoin(a: string, d: char, b: string)
    requires d !in a && (b == [] || b[0] == d)
    ensures Span(a + b, d) == |a|
  {
    if a != [] {
      assert (a + b)[1..] == a[1..] + b;
      SpanOfJoin(a[1..], d, b);
    } else {
      assert a + b == b;
    }
  }

  /** strspn(s, {d}): `s` after its leading run of `d`. */
  function SkipLeading(s: string, d: char): (r: string)
    ensures |r| <= |s|
    ensures forall i :: 0 <= i < |s| - |r| ==> s[i] == d
    ensures r != [] ==> r[0] != d
  {
    if s != [] && s[0] == d then SkipLeading(s[1..], d) else s
  }

  /** What strtok skips is a prefix: the rest is a suffix of `s`. */
  lemma {:induction false} SkipLeadingSuffix(s: string, d: char)
    ensures SkipLeading(s, d) == s[|s| - |SkipLeading(s, d)|..]
    decreases |s|
  {
    if s != [] && s[0] == d {
      SkipLeadingSuffix(s[1..], d);
      assert s[1..][|s| - 1 - |SkipLeading(s, d)|..] == s[|s| - |SkipLeading(s, d)|..];
    } else {
      assert s[0..] == s;
    }
  }

  /** strrchr(s, c): the index of the last `c` in `s`, or NULL. */
  function LastIndex(s: string, c: char): (k: Option<nat>)
    ensures k.None? <==> c !in s
    ensures k.Some? ==> k.value < |s| && s[k.value] == c && c !in s[k.value + 1..]
  {
    if s == [] then None
    else if s[|s| - 1] == c then Some(|s| - 1)
    else
      var k := LastIndex(s[..|s| - 1], c);
      assert s == s[..|s| - 1] + [s[|s| - 1]];
      k
  }

  /** The characters of `t` from position `j` on agree with those of `s` from `i + j` on. */
  predicate MatchesFrom(s: string, t: string, i: nat, j: nat)
    decreases |t| - j
  {
    j >= |t| || (i + j < |s| && s[i + j] == t[j] && MatchesFrom(s, t, i, j + 1))
  }

  /** strstr's scan: some start position from `i` on where all of `t` matches. */
  predicate ContainsFrom(s: string, t: string, i: nat)
    decreases |s| - i
  {
    i + |t| <= |s| && (MatchesFrom(s, t, i, 0) || ContainsFrom(s, t, i + 1))
  }

  /** strstr(s, t) != NULL. */
  predicate Contains(s: string, t: string)
  {
    ContainsFrom(s, t, 0)
  }

  /** The occurrence of `t` in `s` that strstr looks for, stated by position. */
  ghost predicate OccursAt(s: string, t: string, i: int)
  {
    0 <= i && i + |t| <= |s| && s[i..i + |t|] == t
  }

  lemma {:induction false} MatchesFromIff(s: string, t: string, i: nat, j: nat)
    requires i + |t| <= |s| && j <= |t|
    ensures MatchesFrom(s, t, i, j) <==> s[i + j..i + |t|] == t[j..]
    decreases |t| - j
  {
    if j < |t| {
      MatchesFromIff(s, t, i, j + 1);
      assert s[i + j..i + |t|] == [s[i + j]] + s[i + j + 1..i + |t|];
      assert t[j..] == [t[j]] + t[j + 1..];
    }
  }

  lemma {:induction false} ContainsFromIff(s: string, t: string, i: nat)
    ensures ContainsFrom(s, t, i) <==> exists k :: i <= k && OccursAt(s, t, k)
    decreases |s| - i
  {
    if i + |t| <= |s| {
      MatchesFromIff(s, t, i, 0);
      ContainsFromIff(s, t, i + 1);
      assert MatchesFrom(s, t, i, 0) <==> OccursAt(s, t, i);
      if exists k :: i <= k && OccursAt(s, t, k) {
        var k :| i <= k && OccursAt(s, t, k);
        assert k == i || (i + 1 <= k && OccursAt(s, t, k));
      }
    }
  }

  /** strstr finds `t` exactly when `t` occurs somewhere in `s`. */
  lemma ContainsIff(s: string, t: string)
    ensures Contains(s, t) <==> exists i :: OccursAt(s, t, i)
  {
    ContainsFromIff(s, t, 0);
  }

  /** A text holding none of some character of `t` cannot contain `t`. */
  lemma MissingCharNotContained(s: string, t: string, j: nat)
    requires j < |t| && t[j] !in s
    ensures !Contains(s, t)
  {
    ContainsIff(s, t);
    forall i
      ensures !OccursAt(s, t, i)
    {
      if 0 <= i && i + |t| <= |s| {
        assert s[i..i + |t|][j] == s[i + j] && s[i + j] in s;
      }
    }
  }

  function Min(a: nat, b: nat): nat { if a <= b then a else b }

  /**
   * strncmp(a, b, n) == 0: the first `n` characters agree, where a string that
   * ends earlier compares its terminating NUL, which no other character equals.
   */
  predicate StrnEq(a: string, b: string, n: nat)
  {
    a[..Min(n, |a|)] == b[..Min(n, |b|)]
  }

  /** When `b` is shorter than the bound, strncmp against it is plain equality. */
  lemma StrnEqShort(a: string, b: string, n: nat)
    requires |b| < n
    ensures StrnEq(a, b, n) <==> a == b
  {
    if StrnEq(a, b, n) {
      assert |a[..Min(n, |a|)]| == |b|;
      assert Min(n, |a|) == |a|;
    }
  }

  /** How many times `c` occurs in `s`. */
  function Occurrences(s: string, c: char): nat
  {
    multiset(s)[c]
  }
}
