/** The grammar of the shell's command lines: concrete syntax trees that keep every token, the parser over tokens, and the
    proof that it accepts exactly the lines of the grammar. */
module ShellGrammar {
  import opened ShellTokens

  const MAXARGS: nat := 10

  /** A token without what follows it. */
  datatype Token = Token(kind: char, q: nat, eq: nat)

  /** The arguments and redirections of a command in source order. */
  datatype Items = NoItems | Arg(word: Token, rest: Items) | Redir(op: Token, file: Token, rest: Items)

  datatype Cst =
    | Simple(items: Items)
    | Block(open: Token, body: Cst, close: Token, redirs: Items)
    | Pipe(left: Cst, bar: Token, right: Cst)
    | Back(cmd: Cst, amp: Token)
    | List(first: Cst, semi: Token, second: Cst)

  // ----- Trees to tokens -----

  function Put(t: Token, k: Toks): Toks {
    Tok(t.kind, t.q, t.eq, k)
  }

  function ItemsOn(items: Items, k: Toks): Toks {
    match items
    case NoItems => k
    case Arg(w, rest) => Put(w, ItemsOn(rest, k))
    case Redir(op, f, rest) => Put(op, Put(f, ItemsOn(rest, k)))
  }

  /** The tokens of a tree in source order, followed by k. */
  function YieldOn(c: Cst, k: Toks): Toks {
    match c
    case Simple(items) => ItemsOn(items, k)
    case Block(o, body, cl, redirs) => Put(o, YieldOn(body, Put(cl, ItemsOn(redirs, k))))
    case Pipe(l, bar, r) => YieldOn(l, Put(bar, YieldOn(r, k)))
    case Back(c, amp) => YieldOn(c, Put(amp, k))
    case List(a, semi, b) => YieldOn(a, Put(semi, YieldOn(b, k)))
  }

  // ----- The grammar -----

  predicate IsRedir(kind: char) {
    kind == '<' || kind == '>' || kind == '+'
  }

  function ArgCount(items: Items): nat {
    match items
    case NoItems => 0
    case Arg(_, rest) => 1 + ArgCount(rest)
    case Redir(_, _, rest) => ArgCount(rest)
  }

  predicate GoodItems(items: Items) {
    match items
    case NoItems => true
    case Arg(w, rest) => w.kind == 'a' && GoodItems(rest)
    case Redir(op, f, rest) => IsRedir(op.kind) && f.kind == 'a' && GoodItems(rest)
  }

  /** unit ::= item* | ( line ) redirection* */
  predicate IsUnit(c: Cst)
    decreases c, 0
  {
    match c
    case Simple(items) => GoodItems(items) && ArgCount(items) < MAXARGS
    case Block(o, body, cl, redirs) => o.kind == '(' && IsLine(body) && cl.kind == ')' && GoodItems(redirs) && ArgCount(redirs) == 0
    case _ => false
  }

  /** pipeline ::= unit | unit '|' pipeline */
  predicate IsPipeline(c: Cst)
    decreases c, 1
  {
    match c
    case Pipe(l, bar, r) => IsUnit(l) && bar.kind == '|' && IsPipeline(r)
    case _ => IsUnit(c)
  }

  /** backed ::= pipeline | backed '&' */
  predicate IsBacked(c: Cst)
    decreases c, 2
  {
    match c
    case Back(d, amp) => IsBacked(d) && amp.kind == '&'
    case _ => IsPipeline(c)
  }

  /** line ::= backed | backed ';' line */
  predicate IsLine(c: Cst)
    decreases c, 3
  {
    match c
    case List(a, semi, b) => IsBacked(a) && semi.kind == ';' && IsLine(b)
    case _ => IsBacked(c)
  }

  // ----- The parser -----

  datatype Result<T> = Ok(value: T, rest: Toks) | Fail

  function Len(ts: Toks): nat {
    match ts
    case Eof => 0
    case Tok(_, _, _, rest) => 1 + Len(rest)
  }

  function First(ts: Toks): Token
    requires ts.Tok?
  {
    Token(ts.kind, ts.q, ts.eq)
  }

  predicate Starts(ts: Toks, kind: char) {
    ts.Tok? && ts.kind == kind
  }

  /** parseredirs */
  function ParseRedirs(ts: Toks): (r: Result<Items>)
    ensures r.Ok? ==> Len(r.rest) <= Len(ts)
    decreases ts
  {
    if ts.Tok? && IsRedir(ts.kind) then
      if !Starts(ts.rest, 'a') then Fail
      else
        match ParseRedirs(ts.rest.rest)
        case Fail => Fail
        case Ok(items, rest) => Ok(Redir(First(ts), First(ts.rest), items), rest)
    else Ok(NoItems, ts)
  }

  /** What ends a simple command: a symbol of "|)&;" or the end of the line. */
  predicate EndsSimple(ts: Toks) {
    ts.Eof? || ts.kind == '|' || ts.kind == ')' || ts.kind == '&' || ts.kind == ';'
  }

  /** The arguments and redirections of parseexec, argc of the former seen. */
  function ParseItems(ts: Toks, argc: nat): (r: Result<Items>)
    ensures r.Ok? ==> Len(r.rest) <= Len(ts)
    decreases ts
  {
    if ts.Tok? && IsRedir(ts.kind) then
      if !Starts(ts.rest, 'a') then Fail
      else
        match ParseItems(ts.rest.rest, argc)
        case Fail => Fail
        case Ok(items, rest) => Ok(Redir(First(ts), First(ts.rest), items), rest)
    else if EndsSimple(ts) then Ok(NoItems, ts)
    else if ts.kind != 'a' || argc + 1 >= MAXARGS then Fail
    else
      match ParseItems(ts.rest, argc + 1)
      case Fail => Fail
      case Ok(items, rest) => Ok(Arg(First(ts), items), rest)
  }

  /** parseexec and parseblock */
  function ParseUnit(ts: Toks): (r: Result<Cst>)
    ensures r.Ok? ==> Len(r.rest) <= Len(ts)
    decreases Len(ts), 0
  {
    if Starts(ts, '(') then
      match ParseLine(ts.rest)
      case Fail => Fail
      case Ok(body, close) =>
        if !Starts(close, ')') then Fail
        else
          match ParseRedirs(close.rest)
          case Fail => Fail
          case Ok(redirs, rest) => Ok(Block(First(ts), body, First(close), redirs), rest)
    else
      match ParseItems(ts, 0)
      case Fail => Fail
      case Ok(items, rest) => Ok(Simple(items), rest)
  }

  /** parsepipe */
  function ParsePipe(ts: Toks): (r: Result<Cst>)
    ensures r.Ok? ==> Len(r.rest) <= Len(ts)
    decreases Len(ts), 1
  {
    match ParseUnit(ts)
    case Fail => Fail
    case Ok(left, bar) =>
      if !Starts(bar, '|') then Ok(left, bar)
      else
        match ParsePipe(bar.rest)
        case Fail => Fail
        case Ok(right, rest) => Ok(Pipe(left, First(bar), right), rest)
  }

  /** The '&'s of parseline. */
  function ParseBacks(c: Cst, ts: Toks): (r: Result<Cst>)
    ensures r.Ok? && Len(r.rest) <= Len(ts)
    decreases Len(ts)
  {
    if Starts(ts, '&') then ParseBacks(Back(c, First(ts)), ts.rest) else Ok(c, ts)
  }

  /** parseline */
  function ParseLine(ts: Toks): (r: Result<Cst>)
    ensures r.Ok? ==> Len(r.rest) <= Len(ts)
    decreases Len(ts), 2
  {
    match ParsePipe(ts)
    case Fail => Fail
    case Ok(first, amps) =>
      var backed := ParseBacks(first, amps);
      if !Starts(backed.rest, ';') then backed
      else
        match ParseLine(backed.rest.rest)
        case Fail => Fail
        case Ok(second, rest) => Ok(List(backed.value, First(backed.rest), second), rest)
  }

  /** parsecmd: a line and nothing left over. */
  function ParseCmd(ts: Toks): Result<Cst> {
    match ParseLine(ts)
    case Fail => Fail
    case Ok(c, rest) => if rest.Eof? then Ok(c, Eof) else Fail
  }

  // ----- What is parsed is in the grammar and uses up the tokens -----

  lemma {:induction false} RedirsSound(ts: Toks)
    requires ParseRedirs(ts).Ok?
    ensures GoodItems(ParseRedirs(ts).value) && ArgCount(ParseRedirs(ts).value) == 0
    ensures ts == ItemsOn(ParseRedirs(ts).value, ParseRedirs(ts).rest)
    decreases ts
  {
    if ts.Tok? && IsRedir(ts.kind) {
      RedirsSound(ts.rest.rest);
    }
  }

  lemma {:induction false} ItemsSound(ts: Toks, argc: nat)
    requires ParseItems(ts, argc).Ok? && argc < MAXARGS
    ensures GoodItems(ParseItems(ts, argc).value) && argc + ArgCount(ParseItems(ts, argc).value) < MAXARGS
    ensures ts == ItemsOn(ParseItems(ts, argc).value, ParseItems(ts, argc).rest)
    decreases ts
  {
    if ts.Tok? && IsRedir(ts.kind) {
      ItemsSound(ts.rest.rest, argc);
    } else if !EndsSimple(ts) {
      ItemsSound(ts.rest, argc + 1);
    }
  }

  lemma {:induction false} UnitSound(ts: Toks)
    requires ParseUnit(ts).Ok?
    ensures IsUnit(ParseUnit(ts).value) && ts == YieldOn(ParseUnit(ts).value, ParseUnit(ts).rest)
    decreases Len(ts), 0
  {
    if Starts(ts, '(') {
      LineSound(ts.rest);
      RedirsSound(ParseLine(ts.rest).rest.rest);
    } else {
      ItemsSound(ts, 0);
    }
  }

  lemma {:induction false} PipeSound(ts: Toks)
    requires ParsePipe(ts).Ok?
    ensures IsPipeline(ParsePipe(ts).value) && ts == YieldOn(ParsePipe(ts).value, ParsePipe(ts).rest)
    decreases Len(ts), 1
  {
    UnitSound(ts);
    var bar := ParseUnit(ts).rest;
    if Starts(bar, '|') {
      PipeSound(bar.rest);
    }
  }

  lemma {:induction false} BacksSound(c: Cst, ts: Toks)
    requires IsBacked(c)
    ensures IsBacked(ParseBacks(c, ts).value) && YieldOn(c, ts) == YieldOn(ParseBacks(c, ts).value, ParseBacks(c, ts).rest)
    decreases ts
  {
    if Starts(ts, '&') {
      BacksSound(Back(c, First(ts)), ts.rest);
    }
  }

  lemma {:induction false} NotList(c: Cst)
    requires IsBacked(c)
    ensures !c.List?
  {
    assert c.List? ==> IsBacked(c) == IsPipeline(c) == IsUnit(c);
  }

  lemma {:induction false} LineSound(ts: Toks)
    requires ParseLine(ts).Ok?
    ensures IsLine(ParseLine(ts).value) && ts == YieldOn(ParseLine(ts).value, ParseLine(ts).rest)
    decreases Len(ts), 2
  {
    PipeSound(ts);
    var first := ParsePipe(ts);
    BacksSound(first.value, first.rest);
    var backed := ParseBacks(first.value, first.rest);
    NotList(backed.value);
    if Starts(backed.rest, ';') {
      LineSound(backed.rest.rest);
    }
  }

  // ----- Every line of the grammar is parsed -----

  lemma {:induction false} RedirsComplete(items: Items, k: Toks)
    requires GoodItems(items) && ArgCount(items) == 0 && (k.Tok? ==> !IsRedir(k.kind))
    ensures ParseRedirs(ItemsOn(items, k)) == Ok(items, k)
  {
    if items.Redir? {
      RedirsComplete(items.rest, k);
    }
  }

  lemma {:induction false} ItemsComplete(items: Items, k: Toks, argc: nat)
    requires GoodItems(items) && argc + ArgCount(items) < MAXARGS && EndsSimple(k)
    ensures ParseItems(ItemsOn(items, k), argc) == Ok(items, k)
  {
    match items
    case NoItems =>
    case Arg(w, rest) => ItemsComplete(rest, k, argc + 1);
    case Redir(op, f, rest) => ItemsComplete(rest, k, argc);
  }

  lemma {:induction false} UnitComplete(c: Cst, k: Toks)
    requires IsUnit(c) && EndsSimple(k)
    ensures ParseUnit(YieldOn(c, k)) == Ok(c, k)
    decreases c, 0
  {
    match c
    case Simple(items) => ItemsComplete(items, k, 0);
    case Block(o, body, cl, redirs) =>
      LineComplete(body, Put(cl, ItemsOn(redirs, k)));
      RedirsComplete(redirs, k);
  }

  lemma {:induction false} PipeComplete(c: Cst, k: Toks)
    requires IsPipeline(c) && EndsSimple(k) && !Starts(k, '|')
    ensures ParsePipe(YieldOn(c, k)) == Ok(c, k)
    decreases c, 1
  {
    if c.Pipe? {
      UnitComplete(c.left, Put(c.bar, YieldOn(c.right, k)));
      PipeComplete(c.right, k);
    } else {
      UnitComplete(c, k);
    }
  }

  /** The pipeline inside is found, and the '&'s lead back out. */
  lemma {:induction false} BackedComplete(c: Cst, k: Toks)
    requires IsBacked(c) && EndsSimple(k) && !Starts(k, '|')
    ensures ParsePipe(YieldOn(c, k)).Ok?
    ensures ParseBacks(ParsePipe(YieldOn(c, k)).value, ParsePipe(YieldOn(c, k)).rest) == ParseBacks(c, k)
    decreases c, 2
  {
    if c.Back? {
      BackedComplete(c.cmd, Put(c.amp, k));
    } else {
      PipeComplete(c, k);
    }
  }

  lemma {:induction false} LineComplete(c: Cst, k: Toks)
    requires IsLine(c) && (k.Eof? || k.kind == ')')
    ensures ParseLine(YieldOn(c, k)) == Ok(c, k)
    decreases c, 3
  {
    if c.List? {
      BackedComplete(c.first, Put(c.semi, YieldOn(c.second, k)));
      LineComplete(c.second, k);
    } else {
      BackedComplete(c, k);
    }
  }

  /** The parser accepts exactly the lines of the grammar, and the tree it returns has exactly the tokens of the line, in
      order; in particular the grammar is unambiguous. */
  lemma {:induction false} ParsesExactly(ts: Toks, c: Cst)
    ensures ParseCmd(ts) == Ok(c, Eof) <==> IsLine(c) && ts == YieldOn(c, Eof)
  {
    if ParseCmd(ts) == Ok(c, Eof) {
      LineSound(ts);
    }
    if IsLine(c) && ts == YieldOn(c, Eof) {
      LineComplete(c, Eof);
    }
  }
}
