/** The recursive-descent parser of sh.c (lines 327-493) over its cursor, and nulterminate over the command line's buffer.
    A method that returns ok == false has panicked: the shell prints a message and exits. */
module Shell {
  import opened ShellTokens
  import opened ShellGrammar
  import opened ShellCommands

  // ----- Items read so far -----

  function Append(a: Items, b: Items): Items {
    match a
    case NoItems => b
    case Arg(w, rest) => Arg(w, Append(rest, b))
    case Redir(op, f, rest) => Redir(op, f, Append(rest, b))
  }

  /** A result that continues items already read. */
  function After(done: Items, r: Result<Items>): Result<Items> {
    match r
    case Fail => Fail
    case Ok(items, rest) => Ok(Append(done, items), rest)
  }

  lemma {:induction false} AppendTwice(a: Items, b: Items, c: Items)
    ensures Append(Append(a, b), c) == Append(a, Append(b, c))
  {
    match a
    case NoItems =>
    case Arg(_, rest) => AppendTwice(rest, b, c);
    case Redir(_, _, rest) => AppendTwice(rest, b, c);
  }

  lemma {:induction false} AppendNone(a: Items)
    ensures Append(a, NoItems) == a
  {
    match a
    case NoItems =>
    case Arg(_, rest) => AppendNone(rest);
    case Redir(_, _, rest) => AppendNone(rest);
  }

  lemma {:induction false} AfterTwice(a: Items, b: Items, r: Result<Items>)
    ensures After(a, After(b, r)) == After(Append(a, b), r)
  {
    if r.Ok? {
      AppendTwice(a, b, r.value);
    }
  }

  lemma {:induction false} AppendCount(a: Items, b: Items)
    ensures ArgCount(Append(a, b)) == ArgCount(a) + ArgCount(b)
  {
    match a
    case NoItems =>
    case Arg(_, rest) => AppendCount(rest, b);
    case Redir(_, _, rest) => AppendCount(rest, b);
  }

  /** Redirections read ahead are the first items. */
  lemma {:induction false} RedirsFirst(ts: Toks, argc: nat)
    ensures ParseRedirs(ts).Fail? ==> ParseItems(ts, argc).Fail?
    ensures ParseRedirs(ts).Ok? ==> ParseItems(ts, argc) == After(ParseRedirs(ts).value, ParseItems(ParseRedirs(ts).rest, argc))
    ensures ParseRedirs(ts).Ok? ==> !(ParseRedirs(ts).rest.Tok? && IsRedir(ParseRedirs(ts).rest.kind)) && ArgCount(ParseRedirs(ts).value) == 0
    decreases ts
  {
    if ts.Tok? && IsRedir(ts.kind) && Starts(ts.rest, 'a') {
      RedirsFirst(ts.rest.rest, argc);
    } else if !(ts.Tok? && IsRedir(ts.kind)) {
      assert ParseRedirs(ts) == Ok(NoItems, ts);
      assert ParseItems(ts, argc).Ok? ==> Append(NoItems, ParseItems(ts, argc).value) == ParseItems(ts, argc).value;
    }
  }

  lemma {:induction false} AfterNone(r: Result<Items>)
    ensures After(NoItems, r) == r
  {
  }

  lemma {:induction false} NoRedir(done: Items, ts: Toks)
    requires !(ts.Tok? && IsRedir(ts.kind))
    ensures After(done, ParseRedirs(ts)) == Ok(done, ts)
  {
    AppendNone(done);
  }

  lemma {:induction false} RedirStep(ts: Toks)
    requires ts.Tok? && IsRedir(ts.kind)
    ensures !Starts(ts.rest, 'a') ==> ParseRedirs(ts).Fail?
    ensures Starts(ts.rest, 'a') ==> ParseRedirs(ts) == After(Redir(First(ts), First(ts.rest), NoItems), ParseRedirs(ts.rest.rest))
    ensures Starts(ts.rest, 'a') ==> Len(ts.rest.rest) < Len(ts)
  {
    if Starts(ts.rest, 'a') {
      assert Len(ts) == 1 + Len(ts.rest) && Len(ts.rest) == 1 + Len(ts.rest.rest);
      var r := ParseRedirs(ts.rest.rest);
      assert r.Ok? ==> Append(Redir(First(ts), First(ts.rest), NoItems), r.value) == Redir(First(ts), First(ts.rest), r.value);
    }
  }

  // ----- The parser -----

  class Parser {
    const s: string
    var ps: nat

    ghost predicate Valid()
      reads this
    {
      ps <= |s| && '\0' !in s
    }

    ghost function Left(): Toks
      requires Valid()
      reads this
    {
      Tokens(s, ps)
    }

    constructor (s: string)
      requires '\0' !in s
      ensures Valid() && this.s == s && ps == 0
    {
      this.s, ps := s, 0;
    }

    method Next(toks: string) returns (r: bool)
      requires Valid() && forall c | c in toks :: Symbol(c)
      modifies this
      ensures Valid() && Left() == old(Left()) && Skip(s, ps) == ps
      ensures r <==> Left().Tok? && OneOf(Left().kind, toks)
    {
      var next;
      r, next := Peek(s, ps, toks);
      ps := next;
    }

    method Get() returns (tok: Token)
      requires Valid()
      modifies this
      ensures Valid() && (old(Left()).Eof? <==> tok.kind == '\0') && (old(Left()).Eof? ==> Left().Eof?)
      ensures old(Left()).Tok? ==> tok == First(old(Left())) && Left() == old(Left()).rest
    {
      var ret, q, eq, next := Gettoken(s, ps);
      tok := Token(ret, q, eq);
      ps := next;
    }

    /** parseredirs, as the list of what it wraps around the command. */
    method Parseredirs() returns (ok: bool, done: Items)
      requires Valid()
      modifies this
      ensures Valid() && ok == ParseRedirs(old(Left())).Ok?
      ensures ok ==> ParseRedirs(old(Left())) == Ok(done, Left())
    {
      hide ParseRedirs, Tokens, Len, Append;
      done := NoItems;
      ghost var start := ParseRedirs(Left());
      AfterNone(start);
      var more := Next("<>");
      while more
        invariant Valid() && start == After(done, ParseRedirs(Left()))
        invariant more <==> Left().Tok? && IsRedir(Left().kind)
        decreases Len(Left())
      {
        RedirStep(Left());
        var op := Get();
        var file := Get();
        if file.kind != 'a' {
          return false, done;
        }
        AfterTwice(done, Redir(op, file, NoItems), ParseRedirs(Left()));
        done := Append(done, Redir(op, file, NoItems));
        more := Next("<>");
      }
      NoRedir(done, Left());
      ok := true;
    }

    /** The arguments and redirections of parseexec (sh.c:426-445). */
    method Parseitems() returns (ok: bool, done: Items)
      requires Valid()
      modifies this
      ensures Valid() && ok == ParseItems(old(Left()), 0).Ok?
      ensures ok ==> ParseItems(old(Left()), 0) == Ok(done, Left())
    {
      hide ParseRedirs, ParseItems, Tokens, Len, Append;
      ghost var start := ParseItems(Left(), 0);
      RedirsFirst(Left(), 0);
      ok, done := Parseredirs();
      if !ok {
        return;
      }
      var argc := 0;
      var ends := Next("|)&;");
      while !ends
        invariant Valid() && argc == ArgCount(done) && start == After(done, ParseItems(Left(), argc))
        invariant !(Left().Tok? && IsRedir(Left().kind))
        invariant ends ==> EndsSimple(Left())
        invariant !ends ==> Left().Eof? || !EndsSimple(Left())
        decreases Len(Left())
      {
        ItemStep(Left(), argc);
        var tok := Get();
        if tok.kind == '\0' {
          break;
        }
        if tok.kind != 'a' {
          return false, done;
        }
        AfterTwice(done, Arg(tok, NoItems), ParseItems(Left(), argc + 1));
        AppendCount(done, Arg(tok, NoItems));
        done := Append(done, Arg(tok, NoItems));
        argc := argc + 1;
        if argc >= MAXARGS {
          return false, done;
        }
        RedirsFirst(Left(), argc);
        ghost var before := Left();
        var redirs;
        ok, redirs := Parseredirs();
        if !ok {
          return;
        }
        RedirsShorten(before);
        AfterTwice(done, redirs, ParseItems(Left(), argc));
        AppendCount(done, redirs);
        done := Append(done, redirs);
        ends := Next("|)&;");
      }
      ItemsEnd(done, Left(), argc);
      ok := true;
    }

    /** parseexec and parseblock */
    method Parseexec() returns (ok: bool, cmd: Cmd)
      requires Valid()
      modifies this
      ensures Valid() && ok == ParseUnit(old(Left())).Ok?
      ensures ok ==> cmd == Meaning(ParseUnit(old(Left())).value) && Left() == ParseUnit(old(Left())).rest
      decreases Len(Left()), 0
    {
      hide Tokens, ParseItems, ParseRedirs, ParseLine, Wrap;
      cmd := Exec([]);
      var block := Next("(");
      if block {
        var open := Get();
        ok, cmd := Parseline();
        if !ok {
          return;
        }
        var closed := Next(")");
        if !closed {
          return false, cmd;
        }
        var close := Get();
        var redirs;
        ok, redirs := Parseredirs();
        if ok {
          cmd := Wrap(cmd, redirs);
        }
        return;
      }
      var items;
      ok, items := Parseitems();
      if ok {
        cmd := Wrap(Exec(Args(items)), items);
      }
    }

    method Parsepipe() returns (ok: bool, cmd: Cmd)
      requires Valid()
      modifies this
      ensures Valid() && ok == ParsePipe(old(Left())).Ok?
      ensures ok ==> cmd == Meaning(ParsePipe(old(Left())).value) && Left() == ParsePipe(old(Left())).rest
      decreases Len(Left()), 1
    {
      hide Tokens, ParseUnit;
      ok, cmd := Parseexec();
      if !ok {
        return;
      }
      var bar := Next("|");
      if bar {
        var tok := Get();
        var right;
        ok, right := Parsepipe();
        cmd := PipeCmd(cmd, right);
      }
    }

    method Parseline() returns (ok: bool, cmd: Cmd)
      requires Valid()
      modifies this
      ensures Valid() && ok == ParseLine(old(Left())).Ok?
      ensures ok ==> cmd == Meaning(ParseLine(old(Left())).value) && Left() == ParseLine(old(Left())).rest
      decreases Len(Left()), 2
    {
      hide Tokens, ParsePipe;
      ghost var first := ParsePipe(Left());
      ghost var ts := Left();
      ok, cmd := Parsepipe();
      if !ok {
        return;
      }
      ghost var c, backed := first.value, ParseBacks(first.value, first.rest);
      var amp := Next("&");
      while amp
        invariant Valid() && cmd == Meaning(c) && backed == ParseBacks(c, Left()) && Len(Left()) <= Len(ts)
        invariant amp <==> Starts(Left(), '&')
        decreases Len(Left())
      {
        var tok := Get();
        cmd := BackCmd(cmd);
        c := Back(c, tok);
        amp := Next("&");
      }
      var semi := Next(";");
      if semi {
        var tok := Get();
        var second;
        ok, second := Parseline();
        cmd := ListCmd(cmd, second);
      }
    }
  }

  lemma {:induction false} ItemStep(ts: Toks, argc: nat)
    requires !(ts.Tok? && IsRedir(ts.kind)) && (ts.Eof? || !EndsSimple(ts))
    ensures ts.Tok? && (ts.kind != 'a' || argc + 1 >= MAXARGS) ==> ParseItems(ts, argc).Fail?
    ensures ts.Tok? && ts.kind == 'a' && argc + 1 < MAXARGS ==> ParseItems(ts, argc) == After(Arg(First(ts), NoItems), ParseItems(ts.rest, argc + 1))
    ensures ts.Tok? ==> Len(ts.rest) < Len(ts)
  {
    if ts.Tok? && ts.kind == 'a' {
      var r := ParseItems(ts.rest, argc + 1);
      assert r.Ok? ==> Append(Arg(First(ts), NoItems), r.value) == Arg(First(ts), r.value);
    }
  }

  lemma {:induction false} ItemsEnd(done: Items, ts: Toks, argc: nat)
    requires EndsSimple(ts)
    ensures After(done, ParseItems(ts, argc)) == Ok(done, ts)
  {
    AppendNone(done);
  }

  lemma {:induction false} RedirsShorten(ts: Toks)
    requires ParseRedirs(ts).Ok?
    ensures Len(ParseRedirs(ts).rest) <= Len(ts)
  {
  }

  // ----- Terminating the words -----

  function Words(c: Cmd): set<Token> {
    match c
    case Exec(args) => set w | w in args
    case RedirCmd(d, f, _, _) => Words(d) + {f}
    case PipeCmd(l, r) => Words(l) + Words(r)
    case ListCmd(l, r) => Words(l) + Words(r)
    case BackCmd(d) => Words(d)
  }

  /** Some word of the command ends at i. */
  ghost predicate EndsAt(words: set<Token>, i: nat) {
    exists w :: w in words && w.eq == i
  }

  /** nulterminate: a NUL goes to the end of every word, and nothing else changes. */
  method Nulterminate(buf: array<char>, c: Cmd)
    requires forall w | w in Words(c) :: w.eq < buf.Length
    modifies buf
    ensures forall i: nat | i < buf.Length :: buf[i] == if EndsAt(Words(c), i) then '\0' else old(buf[i])
    decreases c
  {
    match c
    case Exec(args) =>
      var i := 0;
      while i < |args|
        invariant i <= |args|
        invariant forall k: nat | k < buf.Length :: buf[k] == if exists j :: 0 <= j < i && args[j].eq == k then '\0' else old(buf[k])
      {
        assert args[i] in Words(c);
        buf[args[i].eq] := '\0';
        i := i + 1;
      }
      forall k: nat
        ensures EndsAt(Words(c), k) <==> exists j :: 0 <= j < |args| && args[j].eq == k
      {
        if j :| 0 <= j < |args| && args[j].eq == k {
          assert args[j] in Words(c);
        }
      }
    case RedirCmd(d, f, _, _) =>
      Nulterminate(buf, d);
      EndsUnion(Words(d), {f});
      assert f in Words(c);
      buf[f.eq] := '\0';
    case PipeCmd(l, r) =>
      Nulterminate(buf, l);
      Nulterminate(buf, r);
      EndsUnion(Words(l), Words(r));
    case ListCmd(l, r) =>
      Nulterminate(buf, l);
      Nulterminate(buf, r);
      EndsUnion(Words(l), Words(r));
    case BackCmd(d) =>
      Nulterminate(buf, d);
  }

  lemma {:induction false} EndsUnion(a: set<Token>, b: set<Token>)
    ensures forall k: nat :: EndsAt(a + b, k) <==> EndsAt(a, k) || EndsAt(b, k)
  {
    forall k: nat
      ensures EndsAt(a + b, k) <==> EndsAt(a, k) || EndsAt(b, k)
    {
      if w :| w in a && w.eq == k {
        assert w in a + b;
      }
      if w :| w in b && w.eq == k {
        assert w in a + b;
      }
    }
  }

  /** A word of the line: a longest stretch of word characters. */
  ghost predicate IsWord(s: string, w: Token) {
    && w.q < w.eq <= |s|
    && (forall k | w.q <= k < w.eq :: WordChar(s[k]))
    && (w.eq < |s| ==> !WordChar(s[w.eq]))
  }

  ghost predicate GoodToks(s: string, ts: Toks) {
    match ts
    case Eof => true
    case Tok(kind, q, eq, rest) => (kind == 'a' ==> IsWord(s, Token(kind, q, eq))) && GoodToks(s, rest)
  }

  lemma {:induction false} TokensGood(s: string, i: nat)
    requires i <= |s|
    ensures GoodToks(s, Tokens(s, i))
    decreases |s| - i
  {
    var q := Skip(s, i);
    if q < |s| {
      TokensGood(s, TokenEnd(s, q));
    }
  }

  ghost predicate AllWords(s: string, words: set<Token>) {
    forall w | w in words :: IsWord(s, w)
  }

  lemma {:induction false} ItemsWords(s: string, items: Items, k: Toks, c: Cmd)
    requires GoodItems(items) && GoodToks(s, ItemsOn(items, k)) && AllWords(s, Words(c))
    ensures GoodToks(s, k) && AllWords(s, Words(Wrap(c, items)))
    ensures forall w | w in Args(items) :: IsWord(s, w)
    decreases items
  {
    match items
    case NoItems =>
    case Arg(w, rest) => ItemsWords(s, rest, k, c);
    case Redir(op, f, rest) =>
      assert ItemsOn(items, k).rest == Put(f, ItemsOn(rest, k));
      ItemsWords(s, rest, k, RedirCmd(c, f, Mode(op.kind), Fd(op.kind)));
  }

  /** Every word of the command is a word of the line. */
  lemma {:induction false} LineWords(s: string, c: Cst, k: Toks)
    requires IsLine(c) && GoodToks(s, YieldOn(c, k))
    ensures GoodToks(s, k) && AllWords(s, Words(Meaning(c)))
    decreases c, 3
  {
    if c.List? {
      BackedWords(s, c.first, Put(c.semi, YieldOn(c.second, k)));
      LineWords(s, c.second, k);
    } else {
      BackedWords(s, c, k);
    }
  }

  lemma {:induction false} BackedWords(s: string, c: Cst, k: Toks)
    requires IsBacked(c) && GoodToks(s, YieldOn(c, k))
    ensures GoodToks(s, k) && AllWords(s, Words(Meaning(c)))
    decreases c, 2
  {
    if c.Back? {
      BackedWords(s, c.cmd, Put(c.amp, k));
    } else {
      PipelineWords(s, c, k);
    }
  }

  lemma {:induction false} PipelineWords(s: string, c: Cst, k: Toks)
    requires IsPipeline(c) && GoodToks(s, YieldOn(c, k))
    ensures GoodToks(s, k) && AllWords(s, Words(Meaning(c)))
    decreases c, 1
  {
    if c.Pipe? {
      UnitWords(s, c.left, Put(c.bar, YieldOn(c.right, k)));
      PipelineWords(s, c.right, k);
    } else {
      UnitWords(s, c, k);
    }
  }

  lemma {:induction false} UnitWords(s: string, c: Cst, k: Toks)
    requires IsUnit(c) && GoodToks(s, YieldOn(c, k))
    ensures GoodToks(s, k) && AllWords(s, Words(Meaning(c)))
    decreases c, 0
  {
    match c
    case Simple(items) =>
      ItemsWords(s, items, k, Exec([]));
      ItemsWords(s, items, k, Exec(Args(items)));
    case Block(o, body, cl, redirs) =>
      LineWords(s, body, Put(cl, ItemsOn(redirs, k)));
      ItemsWords(s, redirs, k, Meaning(body));
  }

  /** The C string at i: up to the first NUL. */
  function CString(buf: seq<char>, i: nat): string
    decreases |buf| - i
  {
    if i >= |buf| || buf[i] == '\0' then [] else [buf[i]] + CString(buf, i + 1)
  }

  lemma {:induction false} CStringIs(buf: seq<char>, q: nat, eq: nat)
    requires q <= eq < |buf| && buf[eq] == '\0' && forall k | q <= k < eq :: buf[k] != '\0'
    ensures CString(buf, q) == buf[q..eq]
    decreases eq - q
  {
    if q < eq {
      CStringIs(buf, q + 1, eq);
      assert buf[q..eq] == [buf[q]] + buf[q + 1..eq];
    }
  }

  /** NULs at the ends of words fall inside no word. */
  lemma {:induction false} WordsApart(s: string, w: Token, v: Token)
    requires IsWord(s, w) && IsWord(s, v)
    ensures !(w.q <= v.eq < w.eq)
  {
  }

  lemma {:induction false} WordReads(s: string, words: set<Token>, w: Token, buf: seq<char>)
    requires AllWords(s, words) && w in words && '\0' !in s && |buf| == |s| + 1
    requires forall i: nat | i <= |s| :: buf[i] == if EndsAt(words, i) || i == |s| then '\0' else s[i]
    ensures CString(buf, w.q) == s[w.q..w.eq]
  {
    assert IsWord(s, w) && EndsAt(words, w.eq);
    forall k: nat | w.q <= k < w.eq
      ensures buf[k] == s[k] && buf[k] != '\0'
    {
      if v :| v in words && v.eq == k {
        WordsApart(s, w, v);
        assert false;
      }
    }
    CStringIs(buf, w.q, w.eq);
    assert buf[w.q..w.eq] == s[w.q..w.eq];
  }

  /** The tokens spell the command: its words are theirs, in order, and its redirections are their operators with the words
      that follow. */
  ghost predicate Commands(cmd: Cmd, seg: seq<Token>) {
    SpellsLine(cmd, seg) && WordsOf(cmd) == WordTokens(seg) && InOrder(cmd) && FilesFollow(cmd, seg)
  }

  /** A tree of the line spells its command. */
  lemma {:induction false} TreeCommands(line: string, c: Cst)
    requires IsLine(c) && Tokens(line, 0) == YieldOn(c, Eof)
    ensures Commands(Meaning(c), Seq(Tokens(line, 0)))
  {
    hide SpellsLine, InOrder, FilesFollow, WordsOf, WordTokens, Meaning, Tokens, Seq, Increasing;
    LineSpelled(c);
    YieldFlat(c, Eof);
    assert Flat(c) + Seq(Eof) == Flat(c) by { SeqEof(); }
    TokensExact(line, 0);
    SpelledWords(Meaning(c), Flat(c));
  }

  lemma {:induction false} SeqEof()
    ensures Seq(Eof) == []
  {
  }

  /** parsecmd: panics unless the line is in the grammar; else returns the command of its one syntax tree, which the line's
      tokens spell, and every argument and file name of it, read from the buffer as a C string, is its stretch of the line. */
  method Parsecmd(line: string, buf: array<char>) returns (ok: bool, cmd: Cmd)
    requires '\0' !in line && buf[..] == line + ['\0']
    modifies buf
    ensures ok == ParseCmd(Tokens(line, 0)).Ok?
    ensures ok ==> cmd == Meaning(ParseCmd(Tokens(line, 0)).value) && Commands(cmd, Seq(Tokens(line, 0)))
    ensures ok ==> forall w | w in Words(cmd) :: IsWord(line, w) && CString(buf[..], w.q) == line[w.q..w.eq]
  {
    hide Tokens, ParseLine, Words, CString, IsLine, YieldOn, GoodToks, Commands, Seq;
    var parser := new Parser(line);
    ok, cmd := parser.Parseline();
    if !ok {
      return;
    }
    var blank := parser.Next("");
    if parser.ps != |line| {
      LeftOver(line, parser.ps);
      return false, cmd;
    }
    LeftOver(line, parser.ps);
    ghost var c := ParseLine(Tokens(line, 0)).value;
    LineSound(Tokens(line, 0));
    TokensGood(line, 0);
    LineWords(line, c, Eof);
    TreeCommands(line, c);
    Nulterminate(buf, cmd);
    forall w | w in Words(cmd)
      ensures IsWord(line, w) && CString(buf[..], w.q) == line[w.q..w.eq]
    {
      WordReads(line, Words(cmd), w, buf[..]);
    }
  }

  lemma {:induction false} LeftOver(s: string, i: nat)
    requires i <= |s|
    ensures Tokens(s, |s|) == Eof && (Skip(s, i) == i && i != |s| ==> Tokens(s, i).Tok?)
  {
  }
}
