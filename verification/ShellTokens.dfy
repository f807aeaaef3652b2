/** The tokens of the shell (sh.c:262-320). The command line is a sequence without its NUL and a pointer into it is an index;
    the index |s| is where the NUL is. */
module ShellTokens {

  predicate Blank(c: char) {
    c == ' ' || c == '\t' || c == '\r' || c == '\n' || c == '\U{000B}'
  }

  predicate Symbol(c: char) {
    c == '<' || c == '|' || c == '>' || c == '&' || c == ';' || c == '(' || c == ')'
  }

  predicate WordChar(c: char) {
    !Blank(c) && !Symbol(c)
  }

  /** The tokens from some place on. The kind is the symbol, '+' for ">>" and 'a' for a word; the text is [q, eq). */
  datatype Toks = Eof | Tok(kind: char, q: nat, eq: nat, rest: Toks)

  function Skip(s: string, i: nat): (r: nat)
    requires i <= |s|
    ensures i <= r <= |s| && (r < |s| ==> !Blank(s[r]))
    ensures forall k | i <= k < r :: Blank(s[k])
    decreases |s| - i
  {
    if i < |s| && Blank(s[i]) then Skip(s, i + 1) else i
  }

  function WordEnd(s: string, i: nat): (r: nat)
    requires i <= |s|
    ensures i <= r <= |s| && (r < |s| ==> !WordChar(s[r]))
    ensures forall k | i <= k < r :: WordChar(s[k])
    decreases |s| - i
  {
    if i < |s| && WordChar(s[i]) then WordEnd(s, i + 1) else i
  }

  /** Where the token that starts at q ends. */
  function TokenEnd(s: string, q: nat): (r: nat)
    requires q < |s| && !Blank(s[q])
    ensures q < r <= |s|
  {
    if WordChar(s[q]) then WordEnd(s, q)
    else if s[q] == '>' && q + 1 < |s| && s[q + 1] == '>' then q + 2
    else q + 1
  }

  function Kind(s: string, q: nat): char
    requires q < |s| && !Blank(s[q])
  {
    if WordChar(s[q]) then 'a'
    else if s[q] == '>' && q + 1 < |s| && s[q + 1] == '>' then '+'
    else s[q]
  }

  function Tokens(s: string, i: nat): Toks
    requires i <= |s|
    decreases |s| - i
  {
    var q := Skip(s, i);
    if q == |s| then Eof else Tok(Kind(s, q), q, TokenEnd(s, q), Tokens(s, TokenEnd(s, q)))
  }

  /** Blanks in front make no difference. */
  lemma {:induction false} TokensSkip(s: string, i: nat)
    requires i <= |s|
    ensures Tokens(s, Skip(s, i)) == Tokens(s, i)
  {
    assert Skip(s, Skip(s, i)) == Skip(s, i);
  }

  /** gettoken: the token at the cursor and the cursor after it; kind 0 at the end of the line. */
  method Gettoken(s: string, ps: nat) returns (ret: char, q: nat, eq: nat, next: nat)
    requires ps <= |s|
    requires '\0' !in s
    ensures ps <= q <= eq <= next <= |s| && Skip(s, next) == next
    ensures Tokens(s, ps) == Eof <==> ret == '\0'
    ensures ret == '\0' ==> q == eq == next == |s|
    ensures ret != '\0' ==> Tokens(s, ps) == Tok(ret, q, eq, Tokens(s, next)) && next > ps
  {
    q := SkipBlanks(s, ps);
    if q == |s| {
      ret, eq := '\0', q;
    } else {
      ret, eq := OneToken(s, q);
    }
    next := SkipBlanks(s, eq);
    TokensSkip(s, eq);
  }

  /** The switch of gettoken (sh.c:276-300). */
  method OneToken(s: string, q: nat) returns (ret: char, p: nat)
    requires q < |s| && !Blank(s[q])
    ensures ret == Kind(s, q) && p == TokenEnd(s, q)
  {
    ret, p := s[q], q;
    match s[q]
    case '|' => p := p + 1;
    case '(' => p := p + 1;
    case ')' => p := p + 1;
    case ';' => p := p + 1;
    case '&' => p := p + 1;
    case '<' => p := p + 1;
    case '>' =>
      p := p + 1;
      if p < |s| && s[p] == '>' {
        ret := '+';
        p := p + 1;
      }
    case _ =>
      ret := 'a';
      p := SkipWord(s, p);
  }

  method SkipWord(s: string, i: nat) returns (r: nat)
    requires i <= |s|
    ensures r == WordEnd(s, i)
  {
    r := i;
    while r < |s| && !Blank(s[r]) && !Symbol(s[r])
      invariant r <= |s| && WordEnd(s, r) == WordEnd(s, i)
    {
      r := r + 1;
    }
  }

  method SkipBlanks(s: string, i: nat) returns (r: nat)
    requires i <= |s|
    ensures r == Skip(s, i)
  {
    r := i;
    while r < |s| && Blank(s[r])
      invariant r <= |s| && Skip(s, r) == Skip(s, i)
    {
      r := r + 1;
    }
  }

  /** peek: the cursor moves over blanks, and the next token is one of the symbols asked for; '>' also stands for ">>". */
  method Peek(s: string, ps: nat, toks: string) returns (r: bool, next: nat)
    requires ps <= |s| && forall c | c in toks :: Symbol(c)
    ensures next == Skip(s, ps) && Tokens(s, next) == Tokens(s, ps)
    ensures r <==> Tokens(s, ps).Tok? && OneOf(Tokens(s, ps).kind, toks)
  {
    next := SkipBlanks(s, ps);
    TokensSkip(s, ps);
    r := next < |s| && s[next] in toks;
  }

  predicate OneOf(kind: char, toks: string) {
    kind in toks || (kind == '+' && '>' in toks)
  }
}
