/**
 * The string helpers shared by the configuration reader and the ground-truth loader:
 * `trim`, which strips blanks (the character ' ' only) from both ends, and the
 * `std::getline`-based `split` on a single delimiter character.
 */
module Text {

  /** Every character of `s` is a blank. */
  predicate AllSpaces(s: string) {
    forall i :: 0 <= i < |s| ==> s[i] == ' '
  }

  /** `s` is empty or starts and ends with a character other than a blank. */
  predicate Trimmed(s: string) {
    s == [] || (s[0] != ' ' && s[|s| - 1] != ' ')
  }

  /** The number of leading blanks of `s` (`find_first_not_of(' ')`, or |s| if none). */
  function LeadingSpaces(s: string): (n: nat)
    ensures n <= |s| && AllSpaces(s[..n])
    ensures n < |s| ==> s[n] != ' '
  {
    if s != [] && s[0] == ' ' then 1 + LeadingSpaces(s[1..]) else 0
  }

  /** The number of trailing blanks of `s`. */
  function TrailingSpaces(s: string): (n: nat)
    ensures n <= |s| && AllSpaces(s[|s| - n..])
    ensures n < |s| ==> s[|s| - 1 - n] != ' '
  {
    if s != [] && s[|s| - 1] == ' ' then 1 + TrailingSpaces(s[..|s| - 1]) else 0
  }

  /**
   * `trim`: empty when `s` holds only blanks, otherwise the text from the first to the
   * last non-blank character. The result is the infix of `s` left after removing a
   * run of blanks at each end, and it neither starts nor ends with a blank.
   */
  function Trim(s: string): (r: string)
    ensures |r| <= |s| && Trimmed(r)
    ensures r == [] <==> AllSpaces(s)
    ensures var n := LeadingSpaces(s);
      n + |r| <= |s| && r == s[n..n + |r|] && AllSpaces(s[n + |r|..])
  {
    var first := LeadingSpaces(s);
    if first == |s| then
      ""
    else
      var last := |s| - 1 - TrailingSpaces(s);
      assert s[last] != ' ';
      assert first <= last;
      assert AllSpaces(s[last + 1..]) by {
        assert s[last + 1..] == s[|s| - TrailingSpaces(s)..];
      }
      s[first..last + 1]
  }

  /**
   * Trim is determined by its contract: whatever blank padding surrounds a text that
   * neither starts nor ends with a blank, trimming returns exactly that text.
   */
  lemma TrimUnique(a: string, t: string, b: string)
    requires AllSpaces(a) && AllSpaces(b) && Trimmed(t)
    ensures Trim(a + t + b) == t
  {
    var s := a + t + b;
    var r := Trim(s);
    var n := LeadingSpaces(s);
    if t == [] {
      assert s == a + b;
      assert AllSpaces(s) by {
        forall i | 0 <= i < |s| ensures s[i] == ' ' {
          if i < |a| { assert s[i] == a[i]; } else { assert s[i] == b[i - |a|]; }
        }
      }
    } else {
      assert s[|a|] == t[0];
      assert n == |a|;
      assert !AllSpaces(s) by { assert s[|a|] != ' '; }
      assert s[|a| + |t| - 1] == t[|t| - 1];
      assert |r| == |t|;
      assert r == s[|a|..|a| + |t|];
      assert s[|a|..|a| + |t|] == t;
    }
  }

  /** Text that neither starts nor ends with a blank is left alone. */
  lemma TrimTrimmed(t: string)
    requires Trimmed(t)
    ensures Trim(t) == t
  {
    TrimUnique("", t, "");
    assert "" + t + "" == t;
  }

  /** Blanks after a trimmed text are removed. */
  lemma TrimTrailingPad(t: string, b: string)
    requires Trimmed(t) && AllSpaces(b)
    ensures Trim(t + b) == t
  {
    TrimUnique("", t, b);
    assert "" + t + b == t + b;
  }

  /** Blanks before a trimmed text are removed. */
  lemma TrimLeadingPad(a: string, t: string)
    requires AllSpaces(a) && Trimmed(t)
    ensures Trim(a + t) == t
  {
    TrimUnique(a, t, "");
    assert a + t + "" == a + t;
  }

  /** Trimming twice is the same as trimming once. */
  lemma {:induction false} TrimIdempotent(s: string)
    ensures Trim(Trim(s)) == Trim(s)
  {
    var t := Trim(s);
    TrimUnique("", t, "");
    assert "" + t + "" == t;
  }

  /** The index of the first `d` in `s`, or |s| when `s` holds none. */
  function IndexOf(s: string, d: char): (i: nat)
    ensures i <= |s| && d !in s[..i]
    ensures i < |s| ==> s[i] == d
  {
    if s == [] || s[0] == d then 0 else 1 + IndexOf(s[1..], d)
  }

  /** IndexOf is determined by its contract. */
  lemma {:induction false} IndexOfAt(s: string, d: char, k: nat)
    requires k <= |s| && d !in s[..k]
    requires k < |s| ==> s[k] == d
    ensures IndexOf(s, d) == k
  {
    if k > 0 {
      assert s[0] == s[..k][0];
      assert s[1..][..k - 1] == s[1..k];
      IndexOfAt(s[1..], d, k - 1);
    }
  }

  /**
   * The tokens `std::getline(stream, token, d)` yields, one call after another, on a
   * stream holding `s`: each call reads up to the next `d` (which it consumes) or the end;
   * a call that starts at the end yields nothing. So "" has no tokens, a trailing `d` adds
   * no empty token, and empty tokens between two delimiters are kept.
   */
  function Tokens(s: string, d: char): seq<string>
    decreases |s|
  {
    if s == [] then []
    else
      var i := IndexOf(s, d);
      if i == |s| then [s] else [s[..i]] + Tokens(s[i + 1..], d)
  }

  /** One call of getline: the first token, then the tokens after the delimiter it consumed. */
  lemma TokensUnfold(s: string, d: char)
    requires s != []
    ensures var i := IndexOf(s, d);
      Tokens(s, d) == [s[..i]] + if i < |s| then Tokens(s[i + 1..], d) else []
  {
    assert s[..|s|] == s;
  }

  /** The tokens joined back together with `d` between consecutive ones. */
  function Join(tokens: seq<string>, d: char): string
  {
    if tokens == [] then ""
    else if |tokens| == 1 then tokens[0]
    else tokens[0] + [d] + Join(tokens[1..], d)
  }

  /** The number of occurrences of `d` in `s`. */
  function Occurrences(s: string, d: char): nat
  {
    if s == [] then 0 else (if s[0] == d then 1 else 0) + Occurrences(s[1..], d)
  }

  /** Up to and including the first `d`, `s` holds exactly one `d`. */
  lemma {:induction false} OccurrencesFirst(s: string, d: char, i: nat)
    requires i < |s| && s[i] == d && d !in s[..i]
    ensures Occurrences(s, d) == 1 + Occurrences(s[i + 1..], d)
  {
    if i > 0 {
      assert s[0] == s[..i][0];
      assert s[1..][..i - 1] == s[1..i];
      assert s[1..][i..] == s[i + 1..];
      OccurrencesFirst(s[1..], d, i - 1);
    }
  }

  lemma {:induction false} OccurrencesNone(s: string, d: char)
    requires d !in s
    ensures Occurrences(s, d) == 0
  {
    if s != [] {
      OccurrencesNone(s[1..], d);
    }
  }

  /** No token holds the delimiter. */
  lemma {:induction false} TokensExcludeDelimiter(s: string, d: char)
    ensures forall k :: 0 <= k < |Tokens(s, d)| ==> d !in Tokens(s, d)[k]
    decreases |s|
  {
    if s != [] {
      var i := IndexOf(s, d);
      if i < |s| {
        TokensExcludeDelimiter(s[i + 1..], d);
      }
    }
  }

  /** `s` without its last character when that character is `d`. */
  function DropTrailing(s: string, d: char): string
  {
    if s != [] && s[|s| - 1] == d then s[..|s| - 1] else s
  }

  lemma DropTrailingAfter(s: string, d: char, i: nat)
    requires i + 1 < |s| && s[i] == d
    ensures DropTrailing(s, d) == s[..i] + [d] + DropTrailing(s[i + 1..], d)
  {
    var rest := s[i + 1..];
    assert rest[|rest| - 1] == s[|s| - 1];
    if s[|s| - 1] == d {
      assert s[..|s| - 1] == s[..i] + [d] + rest[..|rest| - 1];
    } else {
      assert s == s[..i] + [d] + rest;
    }
  }

  lemma JoinCons(t: string, tail: seq<string>, d: char)
    requires tail != []
    ensures Join([t] + tail, d) == t + [d] + Join(tail, d)
  {
    assert ([t] + tail)[1..] == tail;
  }

  /**
   * Splitting then joining gives the input back, except that a single trailing delimiter
   * is lost (getline yields no empty token after it).
   */
  lemma {:induction false} JoinTokens(s: string, d: char)
    ensures Join(Tokens(s, d), d) == DropTrailing(s, d)
    decreases |s|
  {
    if s != [] {
      var i := IndexOf(s, d);
      TokensUnfold(s, d);
      if i < |s| {
        var rest := s[i + 1..];
        if rest != [] {
          JoinTokens(rest, d);
          TokensUnfold(rest, d);
          JoinCons(s[..i], Tokens(rest, d), d);
          DropTrailingAfter(s, d, i);
        }
      }
    }
  }

  /**
   * Joining tokens that hold no delimiter, the last of them non-empty, and splitting the
   * result gives the tokens back.
   */
  lemma {:induction false} TokensJoin(tokens: seq<string>, d: char)
    requires forall k :: 0 <= k < |tokens| ==> d !in tokens[k]
    requires tokens != [] ==> tokens[|tokens| - 1] != []
    ensures Tokens(Join(tokens, d), d) == tokens
  {
    if tokens != [] {
      var t := tokens[0];
      var s := Join(tokens, d);
      if |tokens| == 1 {
        assert IndexOf(t, d) == |t|;
      } else {
        var rest := Join(tokens[1..], d);
        TokensJoin(tokens[1..], d);
        assert s == t + [d] + rest;
        assert s[..|t|] == t;
        IndexOfAt(s, d, |t|);
        assert s[..|t|] == t;
        assert s[|t| + 1..] == rest;
      }
    }
  }

  /**
   * Every delimiter ends one token, and text after the last delimiter is one more token:
   * so empty tokens between delimiters are all kept.
   */
  lemma {:induction false} TokenCount(s: string, d: char)
    ensures |Tokens(s, d)| == Occurrences(s, d) + if s != [] && s[|s| - 1] != d then 1 else 0
    decreases |s|
  {
    if s != [] {
      var i := IndexOf(s, d);
      TokensUnfold(s, d);
      if i == |s| {
        assert s[..i] == s;
        OccurrencesNone(s, d);
      } else {
        var rest := s[i + 1..];
        TokenCount(rest, d);
        OccurrencesFirst(s, d, i);
        if rest != [] {
          assert rest[|rest| - 1] == s[|s| - 1];
        }
      }
    }
  }

  /** The scan `std::getline` makes for the end of the next token: the next `d` from `start` on. */
  method NextDelimiter(s: string, d: char, start: nat) returns (i: nat)
    requires start <= |s|
    ensures i == start + IndexOf(s[start..], d)
  {
    i := start;
    while i < |s| && s[i] != d
      invariant start <= i <= |s|
      invariant forall k :: start <= k < i ==> s[k] != d
    {
      i := i + 1;
    }
    assert s[start..][..i - start] == s[start..i];
    IndexOfAt(s[start..], d, i - start);
  }

  /** The tokens of a suffix of `s`: the one up to the next delimiter, then the rest. */
  lemma TokensFrom(s: string, d: char, start: nat, i: nat)
    requires start < |s| && i == start + IndexOf(s[start..], d)
    ensures Tokens(s[start..], d) == [s[start..i]] + if i < |s| then Tokens(s[i + 1..], d) else []
  {
    var rest := s[start..];
    TokensUnfold(rest, d);
    assert rest[..i - start] == s[start..i];
    if i < |s| {
      assert rest[i - start + 1..] == s[i + 1..];
    }
  }

  /** `split`: the tokens of `s`, read with `std::getline` in a loop and appended in order. */
  method Split(s: string, d: char) returns (tokens: seq<string>)
    ensures tokens == Tokens(s, d)
  {
    tokens := [];
    var start := 0;
    while start < |s|
      invariant 0 <= start <= |s|
      invariant tokens + Tokens(s[start..], d) == Tokens(s, d)
    {
      var i := NextDelimiter(s, d, start);
      TokensFrom(s, d, start, i);
      ghost var later := if i < |s| then Tokens(s[i + 1..], d) else [];
      ghost var before := tokens;
      tokens := tokens + [s[start..i]];
      assert tokens + later == before + Tokens(s[start..], d);
      start := if i < |s| then i + 1 else i;
      assert later == Tokens(s[start..], d);
    }
    assert s[start..] == [];
  }
}
