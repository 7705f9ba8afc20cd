/**
 * strtok with a single delimiter character, as checkFile uses it with "\n"
 * (main.c:375-378) and with "/" (main.c:322-324).
 *
 * The saved position of strtok is modelled as the unread rest of the buffer:
 * each call skips the delimiters in front, returns the run up to the next
 * delimiter, and continues after that delimiter (or at the end).
 */
module Strtok {
  import opened Wrappers
  import opened CString

  /** One strtok call on the unread rest `s`: NULL, or the token and the new rest. */
  function NextToken(s: string, d: char): (r: Option<(string, string)>)
    ensures r.Some? ==> r.value.0 != [] && d !in r.value.0 && |r.value.1| < |s|
  {
    var t := SkipLeading(s, d);
    if t == [] then None
    else
      var n := Span(t, d);
      Some((t[..n], if n < |t| then t[n + 1..] else []))
  }

  /** The tokens successive strtok calls return on `s`, by a scan of `s` from the left. */
  function Tokens(s: string, d: char): seq<string>
    decreases |s|
  {
    if s == [] then []
    else if s[0] == d then Tokens(s[1..], d)
    else
      var n := Span(s, d);
      [s[..n]] + Tokens(s[n..], d)
  }

  /** The k-th token as strtok's k-th call (from 0) returns it: NULL once the tokens run out. */
  function TokenAt(s: string, d: char, k: nat): Option<string>
  {
    var ts := Tokens(s, d);
    if k < |ts| then Some(ts[k]) else None
  }

  /** One strtok call returns the first token and leaves exactly the other tokens. */
  lemma {:induction false} NextTokenTokens(s: string, d: char)
    ensures NextToken(s, d).None? <==> Tokens(s, d) == []
    ensures NextToken(s, d).Some? ==>
      Tokens(s, d) == [NextToken(s, d).value.0] + Tokens(NextToken(s, d).value.1, d)
    decreases |s|
  {
    if s == [] {
    } else if s[0] == d {
      NextTokenSkips(s, d);
      NextTokenTokens(s[1..], d);
    } else {
      NextTokenTakes(s, d);
    }
  }

  /** A leading delimiter is skipped by strtok and by the scan alike. */
  lemma NextTokenSkips(s: string, d: char)
    requires s != [] && s[0] == d
    ensures NextToken(s, d) == NextToken(s[1..], d)
    ensures Tokens(s, d) == Tokens(s[1..], d)
  {
    assert SkipLeading(s, d) == SkipLeading(s[1..], d);
  }

  /** Without a leading delimiter strtok takes the first run, as the scan does. */
  lemma NextTokenTakes(s: string, d: char)
    requires s != [] && s[0] != d
    ensures var n := Span(s, d);
      NextToken(s, d) == Some((s[..n], if n < |s| then s[n + 1..] else [])) &&
      Tokens(s, d) == [s[..n]] + Tokens(if n < |s| then s[n + 1..] else [], d)
  {
    var n := Span(s, d);
    assert SkipLeading(s, d) == s;
    if n < |s| {
      assert s[n..][0] == d && s[n..][1..] == s[n + 1..];
    } else {
      assert s[n..] == [];
    }
  }

  /**
   * The reference definition: cut `s` at every delimiter, keeping the empty
   * pieces between adjacent delimiters.
   */
  function Split(s: string, d: char): (ps: seq<string>)
    ensures |ps| >= 1
    ensures forall k :: 0 <= k < |ps| ==> d !in ps[k]
    decreases |s|
  {
    var n := Span(s, d);
    if n == |s| then [s] else [s[..n]] + Split(s[n + 1..], d)
  }

  /** Glue pieces back together with one delimiter between neighbours. */
  function Join(ps: seq<string>, d: char): string
    requires |ps| >= 1
  {
    if |ps| == 1 then ps[0] else ps[0] + [d] + Join(ps[1..], d)
  }

  /** The pieces that are not empty, in order. */
  function NonEmpty(ps: seq<string>): seq<string>
  {
    if ps == [] then []
    else if ps[0] == [] then NonEmpty(ps[1..])
    else [ps[0]] + NonEmpty(ps[1..])
  }

  /** Cutting at every delimiter loses nothing: joining the pieces gives `s` back. */
  lemma {:induction false} JoinSplit(s: string, d: char)
    ensures Join(Split(s, d), d) == s
    decreases |s|
  {
    var n := Span(s, d);
    if n < |s| {
      JoinSplit(s[n + 1..], d);
      assert s == s[..n] + [d] + s[n + 1..];
    }
  }

  /** strtok returns exactly the non-empty pieces between delimiters, in order. */
  lemma {:induction false} TokensAreNonEmptyPieces(s: string, d: char)
    ensures Tokens(s, d) == NonEmpty(Split(s, d))
    decreases |s|
  {
    var n := Span(s, d);
    if s == [] {
    } else if s[0] == d {
      assert n == 0;
      TokensAreNonEmptyPieces(s[1..], d);
      assert Split(s, d) == [[]] + Split(s[1..], d);
    } else if n == |s| {
      assert s[..n] == s && s[n..] == [];
      assert Tokens(s, d) == [s];
    } else {
      TokensAreNonEmptyPieces(s[n + 1..], d);
      assert s[n..][0] == d && s[n..][1..] == s[n + 1..];
      assert Split(s, d) == [s[..n]] + Split(s[n + 1..], d);
    }
  }

  /** Every token is non-empty and free of the delimiter: the runs are maximal. */
  lemma TokensWellFormed(s: string, d: char)
    ensures forall k :: 0 <= k < |Tokens(s, d)| ==> Tokens(s, d)[k] != [] && d !in Tokens(s, d)[k]
  {
    TokensAreNonEmptyPieces(s, d);
    NonEmptyPieces(Split(s, d), d);
  }

  lemma {:induction false} NonEmptyPieces(ps: seq<string>, d: char)
    requires forall k :: 0 <= k < |ps| ==> d !in ps[k]
    ensures forall k :: 0 <= k < |NonEmpty(ps)| ==> NonEmpty(ps)[k] != [] && d !in NonEmpty(ps)[k]
  {
    if ps != [] {
      NonEmptyPieces(ps[1..], d);
    }
  }

  /** A string without the delimiter is a single token (or none when empty). */
  lemma {:induction false} TokensOfPlain(s: string, d: char)
    requires d !in s
    ensures Tokens(s, d) == if s == [] then [] else [s]
  {
    if s != [] {
      assert Span(s, d) == |s|;
      assert s[..|s|] == s && s[|s|..] == [];
      assert Tokens(s[|s|..], d) == [];
    }
  }

  /** A non-empty line ended by the delimiter is the first token, and strtok carries on after it. */
  lemma TokensOfLine(t: string, d: char, s: string)
    requires t != [] && d !in t
    ensures Tokens(t + [d] + s, d) == [t] + Tokens(s, d)
  {
    var u := t + [d] + s;
    assert u[0] == t[0];
    assert u == t + ([d] + s);
    SpanOfJoin(t, d, [d] + s);
    assert u[..|t|] == t && u[|t|..] == [d] + s;
    assert ([d] + s)[1..] == s;
  }
}
