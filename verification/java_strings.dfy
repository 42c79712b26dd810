/**
 * The two java.lang.String operations the tokenizer relies on:
 * `trim()` and `split(" ")`, modelled on sequences of chars.
 */
module JavaStrings {

  /** `trim()` removes every char whose code is at most U+0020. */
  predicate IsTrimmable(c: char) {
    c <= ' '
  }

  function TrimStart(s: string): (r: string)
    ensures |r| <= |s| && r == s[|s| - |r|..]
    ensures forall k :: 0 <= k < |s| - |r| ==> IsTrimmable(s[k])
    ensures r == [] || !IsTrimmable(r[0])
  {
    if |s| > 0 && IsTrimmable(s[0]) then TrimStart(s[1..]) else s
  }

  function TrimEnd(s: string): (r: string)
    ensures |r| <= |s| && r == s[..|r|]
    ensures forall k :: |r| <= k < |s| ==> IsTrimmable(s[k])
    ensures r == [] || !IsTrimmable(r[|r| - 1])
  {
    if |s| > 0 && IsTrimmable(s[|s| - 1]) then TrimEnd(s[..|s| - 1]) else s
  }

  /** Java's `String.trim()`: the longest infix that neither starts nor ends with a trimmable char. */
  function Trim(s: string): (r: string)
    ensures r == [] || (!IsTrimmable(r[0]) && !IsTrimmable(r[|r| - 1]))
  {
    TrimEnd(TrimStart(s))
  }

  /**
   * `trim()` keeps exactly the infix of `s` that starts at the first
   * non-trimmable char and ends at the last one.
   */
  lemma {:induction false} TrimIsInfix(s: string)
    ensures var i := |s| - |TrimStart(s)|;
      && i + |Trim(s)| <= |s|
      && s[i..i + |Trim(s)|] == Trim(s)
      && (forall k :: 0 <= k < i ==> IsTrimmable(s[k]))
      && (forall k :: i + |Trim(s)| <= k < |s| ==> IsTrimmable(s[k]))
  {
    var a := TrimStart(s);
    PrefixOfSuffix(s, a, TrimEnd(a));
  }

  /** A prefix `r` of a suffix `a` of `s` sits in `s` where `a` starts, followed by the rest of `a`. */
  lemma PrefixOfSuffix(s: string, a: string, r: string)
    requires |a| <= |s| && a == s[|s| - |a|..]
    requires |r| <= |a| && r == a[..|r|]
    requires forall k :: |r| <= k < |a| ==> IsTrimmable(a[k])
    ensures var i := |s| - |a|;
      && s[i..i + |r|] == r
      && forall k :: i + |r| <= k < |s| ==> IsTrimmable(s[k])
  {
    var i := |s| - |a|;
    assert s[i..i + |r|] == a[..|r|] by {
      forall k | 0 <= k < |r|
        ensures s[i..i + |r|][k] == a[..|r|][k]
      {
        assert s[i + k] == a[k];
      }
    }
    forall k | i + |r| <= k < |s|
      ensures IsTrimmable(s[k])
    {
      assert s[k] == a[k - i];
    }
  }

  /** A string made of trimmable chars only trims to the empty string. */
  lemma {:induction false} TrimAllTrimmable(s: string)
    requires forall k :: 0 <= k < |s| ==> IsTrimmable(s[k])
    ensures Trim(s) == []
  {
    if |s| > 0 {
      assert TrimStart(s) == TrimStart(s[1..]);
      TrimAllTrimmable(s[1..]);
    }
  }

  /**
   * The pieces of `s` between single spaces, empty pieces included:
   * n spaces always give n + 1 pieces.
   */
  function SplitAll(s: string): (r: seq<string>)
    ensures |r| >= 1
    ensures forall k :: 0 <= k < |r| ==> ' ' !in r[k]
  {
    if |s| == 0 then [""]
    else
      var rest := SplitAll(s[1..]);
      if s[0] == ' ' then [""] + rest else [[s[0]] + rest[0]] + rest[1..]
  }

  /** The pieces joined back together with single spaces. */
  function JoinWithSpaces(pieces: seq<string>): string
  {
    if |pieces| == 0 then ""
    else if |pieces| == 1 then pieces[0]
    else pieces[0] + " " + JoinWithSpaces(pieces[1..])
  }

  /** Joining the raw pieces with single spaces gives back the string. */
  lemma {:induction false} SplitAllJoin(s: string)
    ensures JoinWithSpaces(SplitAll(s)) == s
  {
    if |s| > 0 {
      var rest := SplitAll(s[1..]);
      SplitAllJoin(s[1..]);
      if s[0] == ' ' {
        assert s == [s[0]] + s[1..];
      } else if |rest| == 1 {
        assert s == [s[0]] + s[1..];
      } else {
        assert s == [s[0]] + s[1..];
        assert JoinWithSpaces(rest) == rest[0] + " " + JoinWithSpaces(rest[1..]);
        assert ([[s[0]] + rest[0]] + rest[1..])[1..] == rest[1..];
      }
    }
  }

  function DropTrailingEmpty(pieces: seq<string>): (r: seq<string>)
    ensures |r| <= |pieces| && r == pieces[..|r|]
    ensures r == [] || r[|r| - 1] != ""
    ensures forall k :: |r| <= k < |pieces| ==> pieces[k] == ""
  {
    if |pieces| > 0 && pieces[|pieces| - 1] == "" then DropTrailingEmpty(pieces[..|pieces| - 1]) else pieces
  }

  /**
   * Java's `String.split(" ")`: when `s` holds no space the result is `[s]`
   * (so the empty string gives one empty piece); otherwise trailing empty
   * pieces are dropped.
   */
  function Split(s: string): (r: seq<string>)
    ensures forall k :: 0 <= k < |r| ==> ' ' !in r[k]
    ensures |r| <= |SplitAll(s)| && r == SplitAll(s)[..|r|]
    ensures forall k :: |r| <= k < |SplitAll(s)| ==> SplitAll(s)[k] == ""
    ensures ' ' !in s ==> r == [s]
    ensures ' ' in s ==> r == [] || r[|r| - 1] != ""
  {
    if ' ' !in s then SplitAllNoSpace(s); [s] else DropTrailingEmpty(SplitAll(s))
  }

  /** A string without spaces is its own only raw piece. */
  lemma {:induction false} SplitAllNoSpace(s: string)
    requires ' ' !in s
    ensures SplitAll(s) == [s]
  {
    if |s| > 0 {
      assert ' ' !in s[1..] by {
        forall k | 0 <= k < |s[1..]|
          ensures s[1..][k] != ' '
        {
          assert s[1..][k] == s[k + 1];
        }
      }
      SplitAllNoSpace(s[1..]);
      assert s == [s[0]] + s[1..];
    }
  }

  /** The last raw piece of a string that does not end in a space is the text after its last space. */
  lemma {:induction false} SplitAllLastNonEmpty(s: string)
    requires |s| > 0 && s[|s| - 1] != ' '
    ensures SplitAll(s)[|SplitAll(s)| - 1] != ""
  {
    if |s| > 1 {
      SplitAllLastNonEmpty(s[1..]);
    }
  }

  /**
   * For a trimmed sentence, `split(" ")` keeps every piece: no piece contains a
   * space and joining them with single spaces gives the sentence back.
   */
  lemma SplitTrimmed(s: string)
    requires s == Trim(s)
    ensures forall k :: 0 <= k < |Split(s)| ==> ' ' !in Split(s)[k]
    ensures JoinWithSpaces(Split(s)) == s
  {
    SplitAllJoin(s);
    if ' ' in s {
      SplitAllLastNonEmpty(s);
      assert Split(s) == SplitAll(s);
    }
  }
}
