/** The regular expression matcher of grep.c (lines 72-106). A C string is a sequence without its NUL, and a pointer into
    it is an index; the index |s| stands for the NUL. */
module Grep {

  // ----- What a pattern means -----

  datatype Items = Nil | One(c: char, rest: Items) | Star(c: char, rest: Items) | End

  /** The pattern from index j on, read from the left: a character before '*' is repeated, a final '$' is the end of the
      text, '.' is any character, and everything else is itself. */
  function Pattern(re: string, j: nat): Items
    requires j <= |re|
    decreases |re| - j
  {
    if j == |re| then Nil
    else if j + 1 < |re| && re[j + 1] == '*' then Star(re[j], Pattern(re, j + 2))
    else if re[j] == '$' && j + 1 == |re| then End
    else One(re[j], Pattern(re, j + 1))
  }

  predicate Fits(c: char, x: char) {
    c == '.' || c == x
  }

  ghost predicate AllFit(c: char, text: string, i: nat, k: nat)
    requires k <= |text|
  {
    forall m | i <= m < k :: Fits(c, text[m])
  }

  /** The stretch of text from i to n is in the language of the items. */
  ghost predicate InLanguage(p: Items, text: string, i: nat, n: nat)
    requires n <= |text|
    decreases p
  {
    match p
    case Nil => i == n
    case End => i == n == |text|
    case One(c, rest) => i < n && Fits(c, text[i]) && InLanguage(rest, text, i + 1, n)
    case Star(c, rest) => exists k: nat :: i <= k <= n && AllFit(c, text, i, k) && InLanguage(rest, text, k, n)
  }

  /** Some stretch that starts at i is in the language. */
  ghost predicate StartsAt(p: Items, text: string, i: nat) {
    exists n: nat :: i <= n <= |text| && InLanguage(p, text, i, n)
  }

  /** What grep promises: some stretch of the text is in the language of the pattern, at the front of the text after '^'. */
  ghost predicate Found(re: string, text: string) {
    if |re| > 0 && re[0] == '^' then StartsAt(Pattern(re, 1), text, 0)
    else exists i: nat :: i <= |text| && StartsAt(Pattern(re, 0), text, i)
  }

  lemma {:induction false} StartsOne(c: char, rest: Items, text: string, i: nat)
    requires i <= |text|
    ensures StartsAt(One(c, rest), text, i) <==> i < |text| && Fits(c, text[i]) && StartsAt(rest, text, i + 1)
  {
    if StartsAt(One(c, rest), text, i) {
      var n: nat :| i <= n <= |text| && InLanguage(One(c, rest), text, i, n);
      assert InLanguage(rest, text, i + 1, n);
    }
    if i < |text| && Fits(c, text[i]) && StartsAt(rest, text, i + 1) {
      var n: nat :| i + 1 <= n <= |text| && InLanguage(rest, text, i + 1, n);
      assert InLanguage(One(c, rest), text, i, n);
    }
  }

  lemma {:induction false} StartsStar(c: char, rest: Items, text: string, i: nat, k: nat)
    requires i <= k <= |text| && AllFit(c, text, i, k) && StartsAt(rest, text, k)
    ensures StartsAt(Star(c, rest), text, i)
  {
    var n: nat :| k <= n <= |text| && InLanguage(rest, text, k, n);
    assert InLanguage(Star(c, rest), text, i, n);
  }

  /** The repetition can only go as far as the characters fit. */
  lemma {:induction false} StarStops(c: char, rest: Items, text: string, i: nat, stop: nat)
    requires i <= stop <= |text| && (stop == |text| || !Fits(c, text[stop]))
    requires forall k: nat | i <= k <= stop :: !StartsAt(rest, text, k)
    ensures !StartsAt(Star(c, rest), text, i)
  {
    forall n: nat, k: nat | i <= k <= n <= |text| && AllFit(c, text, i, k)
      ensures !InLanguage(rest, text, k, n)
    {
      assert InLanguage(rest, text, k, n) ==> StartsAt(rest, text, k);
    }
    forall n: nat | i <= n <= |text|
      ensures !InLanguage(Star(c, rest), text, i, n)
    {
    }
  }

  // ----- The matcher -----

  /** match */
  method Match(re: string, text: string) returns (r: bool)
    ensures r <==> Found(re, text)
  {
    if |re| > 0 && re[0] == '^' {
      r := Matchhere(re, 1, text, 0);
      return;
    }
    var t := 0;
    while true
      invariant t <= |text| && forall i: nat | i < t :: !StartsAt(Pattern(re, 0), text, i)
      decreases |text| - t
    {
      r := Matchhere(re, 0, text, t);
      if r {
        return;
      }
      if t == |text| {
        return false;
      }
      t := t + 1;
    }
  }

  /** matchhere: the pattern from j on at the beginning of the text from i on. */
  method Matchhere(re: string, j: nat, text: string, i: nat) returns (r: bool)
    requires j <= |re| && i <= |text|
    ensures r <==> StartsAt(Pattern(re, j), text, i)
    decreases |re| - j, 0
  {
    if j == |re| {
      assert InLanguage(Nil, text, i, i);
      return true;
    }
    if j + 1 < |re| && re[j + 1] == '*' {
      r := Matchstar(re[j], re, j + 2, text, i);
      return;
    }
    if re[j] == '$' && j + 1 == |re| {
      assert InLanguage(End, text, i, i) <==> i == |text|;
      return i == |text|;
    }
    StartsOne(re[j], Pattern(re, j + 1), text, i);
    if i != |text| && (re[j] == '.' || re[j] == text[i]) {
      r := Matchhere(re, j + 1, text, i + 1);
      return;
    }
    r := false;
  }

  /** matchstar: zero or more of c, then the pattern from j on, at the beginning of the text from i on. */
  method Matchstar(c: char, re: string, j: nat, text: string, i: nat) returns (r: bool)
    requires j <= |re| && i <= |text|
    ensures r <==> StartsAt(Star(c, Pattern(re, j)), text, i)
    decreases |re| - j, 1
  {
    var t := i;
    while true
      invariant i <= t <= |text| && AllFit(c, text, i, t)
      invariant forall k: nat | i <= k < t :: !StartsAt(Pattern(re, j), text, k)
      decreases |text| - t
    {
      r := Matchhere(re, j, text, t);
      if r {
        StartsStar(c, Pattern(re, j), text, i, t);
        return;
      }
      if t == |text| || !(text[t] == c || c == '.') {
        StarStops(c, Pattern(re, j), text, i, t);
        return;
      }
      t := t + 1;
    }
  }
}
