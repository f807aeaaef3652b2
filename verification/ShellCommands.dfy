/** Command structs and what they have to do with the line: which stretch of tokens spells a command, said without the
    syntax trees, and that the command of a syntax tree is spelled by its tokens. */
module ShellCommands {
  import opened ShellTokens
  import opened ShellGrammar

  const O_RDONLY := 0
  const O_WRONLY := 1
  const O_CREATE := 0x200

  /** The command structs. A word is the token [q, eq) of the command line. */
  datatype Cmd =
    | Exec(args: seq<Token>)
    | RedirCmd(cmd: Cmd, file: Token, mode: int, fd: int)
    | PipeCmd(left: Cmd, right: Cmd)
    | ListCmd(left: Cmd, right: Cmd)
    | BackCmd(cmd: Cmd)

  function Args(items: Items): seq<Token> {
    match items
    case NoItems => []
    case Arg(w, rest) => [w] + Args(rest)
    case Redir(_, _, rest) => Args(rest)
  }

  function Mode(op: char): int {
    if op == '<' then O_RDONLY else O_WRONLY + O_CREATE
  }

  function Fd(op: char): int {
    if op == '<' then 0 else 1
  }

  /** The redirections in order, the first one innermost. */
  function Wrap(c: Cmd, items: Items): Cmd
    decreases items
  {
    match items
    case NoItems => c
    case Arg(_, rest) => Wrap(c, rest)
    case Redir(op, f, rest) => Wrap(RedirCmd(c, f, Mode(op.kind), Fd(op.kind)), rest)
  }

  /** The command that a syntax tree stands for. */
  function Meaning(c: Cst): Cmd {
    match c
    case Simple(items) => Wrap(Exec(Args(items)), items)
    case Block(_, body, _, redirs) => Wrap(Meaning(body), redirs)
    case Pipe(l, _, r) => PipeCmd(Meaning(l), Meaning(r))
    case Back(d, _) => BackCmd(Meaning(d))
    case List(a, _, b) => ListCmd(Meaning(a), Meaning(b))
  }

  // ----- Spelling -----

  function Seq(ts: Toks): seq<Token> {
    match ts
    case Eof => []
    case Tok(kind, q, eq, rest) => [Token(kind, q, eq)] + Seq(rest)
  }

  /** A redirection as runcmd carries it out. */
  datatype Redirection = Redirection(file: Token, mode: int, fd: int)

  /** `< file` opens descriptor 0 for reading; `> file` and `>> file` open descriptor 1 for writing, made if need be. */
  function Directs(op: Token, f: Token): Redirection {
    if op.kind == '<' then Redirection(f, O_RDONLY, 0) else Redirection(f, O_WRONLY + O_CREATE, 1)
  }

  /** Words and redirections only. */
  predicate OnlyItems(seg: seq<Token>) {
    seg == [] ||
    if IsRedir(seg[0].kind) then |seg| >= 2 && seg[1].kind == 'a' && OnlyItems(seg[2..]) else seg[0].kind == 'a' && OnlyItems(seg[1..])
  }

  /** The words that follow no redirection operator. */
  function Plain(seg: seq<Token>): seq<Token> {
    if seg == [] then []
    else if IsRedir(seg[0].kind) then if |seg| >= 2 then Plain(seg[2..]) else []
    else [seg[0]] + Plain(seg[1..])
  }

  function Redirections(seg: seq<Token>): seq<Redirection> {
    if seg == [] then []
    else if IsRedir(seg[0].kind) then if |seg| >= 2 then [Directs(seg[0], seg[1])] + Redirections(seg[2..]) else []
    else Redirections(seg[1..])
  }

  /** An exec command under redirections. */
  predicate IsChain(c: Cmd) {
    c.Exec? || (c.RedirCmd? && IsChain(c.cmd))
  }

  function Argv(c: Cmd): seq<Token>
    requires IsChain(c)
  {
    if c.Exec? then c.args else Argv(c.cmd)
  }

  /** From the inside out. */
  function Chain(c: Cmd): seq<Redirection>
    requires IsChain(c)
  {
    if c.Exec? then [] else Chain(c.cmd) + [Redirection(c.file, c.mode, c.fd)]
  }

  ghost predicate SpellsSimple(c: Cmd, seg: seq<Token>) {
    IsChain(c) && OnlyItems(seg) && Argv(c) == Plain(seg) && Chain(c) == Redirections(seg)
  }

  /** ( line ) redirection* */
  ghost predicate SpellsBlock(c: Cmd, seg: seq<Token>)
    decreases |seg|, 0
  {
    var n := |seg|;
    && n >= 2
    && (|| (seg[0].kind == '(' && seg[n - 1].kind == ')' && SpellsLine(c, seg[1..n - 1]))
        || (&& c.RedirCmd? && IsRedir(seg[n - 2].kind) && seg[n - 1].kind == 'a'
            && Directs(seg[n - 2], seg[n - 1]) == Redirection(c.file, c.mode, c.fd) && SpellsBlock(c.cmd, seg[..n - 2])))
  }

  ghost predicate SpellsUnit(c: Cmd, seg: seq<Token>)
    decreases |seg|, 1
  {
    SpellsSimple(c, seg) || SpellsBlock(c, seg)
  }

  ghost predicate SpellsPipe(c: Cmd, seg: seq<Token>)
    decreases |seg|, 2
  {
    || SpellsUnit(c, seg)
    || (c.PipeCmd? && exists i: nat :: i < |seg| && seg[i].kind == '|' && SpellsUnit(c.left, seg[..i]) && SpellsPipe(c.right, seg[i + 1..]))
  }

  ghost predicate SpellsBacked(c: Cmd, seg: seq<Token>)
    decreases |seg|, 3
  {
    || SpellsPipe(c, seg)
    || (c.BackCmd? && seg != [] && seg[|seg| - 1].kind == '&' && SpellsBacked(c.cmd, seg[..|seg| - 1]))
  }

  /** The tokens are a command line for c. */
  ghost predicate SpellsLine(c: Cmd, seg: seq<Token>)
    decreases |seg|, 4
  {
    || SpellsBacked(c, seg)
    || (c.ListCmd? && exists i: nat :: i < |seg| && seg[i].kind == ';' && SpellsBacked(c.left, seg[..i]) && SpellsLine(c.right, seg[i + 1..]))
  }

  // ----- The tokens of a tree spell its command -----

  function FlatItems(items: Items): seq<Token> {
    match items
    case NoItems => []
    case Arg(w, rest) => [w] + FlatItems(rest)
    case Redir(op, f, rest) => [op, f] + FlatItems(rest)
  }

  function Flat(c: Cst): seq<Token> {
    match c
    case Simple(items) => FlatItems(items)
    case Block(o, body, cl, redirs) => [o] + Flat(body) + [cl] + FlatItems(redirs)
    case Pipe(l, bar, r) => Flat(l) + [bar] + Flat(r)
    case Back(d, amp) => Flat(d) + [amp]
    case List(a, semi, b) => Flat(a) + [semi] + Flat(b)
  }

  lemma {:induction false} ItemsFlat(items: Items, k: Toks)
    ensures Seq(ItemsOn(items, k)) == FlatItems(items) + Seq(k)
  {
    match items
    case NoItems =>
    case Arg(_, rest) => ItemsFlat(rest, k);
    case Redir(op, f, rest) =>
      ItemsFlat(rest, k);
      assert [op] + ([f] + (FlatItems(rest) + Seq(k))) == [op, f] + FlatItems(rest) + Seq(k);
  }

  lemma {:induction false} Assoc(a: seq<Token>, t: Token, b: seq<Token>, k: seq<Token>)
    ensures a + ([t] + (b + k)) == a + [t] + b + k
    ensures a + ([t] + k) == a + [t] + k
  {
  }

  lemma {:induction false} YieldFlat(c: Cst, k: Toks)
    ensures Seq(YieldOn(c, k)) == Flat(c) + Seq(k)
  {
    match c
    case Simple(items) => ItemsFlat(items, k);
    case Block(o, body, cl, redirs) =>
      ItemsFlat(redirs, k);
      YieldFlat(body, Put(cl, ItemsOn(redirs, k)));
      Assoc(Flat(body), cl, FlatItems(redirs), Seq(k));
      assert [o] + (Flat(body) + [cl] + FlatItems(redirs) + Seq(k)) == Flat(c) + Seq(k);
    case Pipe(l, bar, r) =>
      YieldFlat(r, k);
      YieldFlat(l, Put(bar, YieldOn(r, k)));
      Assoc(Flat(l), bar, Flat(r), Seq(k));
    case Back(d, amp) =>
      YieldFlat(d, Put(amp, k));
      Assoc(Flat(d), amp, [], Seq(k));
    case List(a, semi, b) =>
      YieldFlat(b, k);
      YieldFlat(a, Put(semi, YieldOn(b, k)));
      Assoc(Flat(a), semi, Flat(b), Seq(k));
  }

  function Pairs(items: Items): seq<Redirection> {
    match items
    case NoItems => []
    case Arg(_, rest) => Pairs(rest)
    case Redir(op, f, rest) => [Directs(op, f)] + Pairs(rest)
  }

  lemma {:induction false} ItemsPlain(items: Items)
    requires GoodItems(items)
    ensures OnlyItems(FlatItems(items)) && Plain(FlatItems(items)) == Args(items) && Redirections(FlatItems(items)) == Pairs(items)
  {
    var seg := FlatItems(items);
    match items
    case NoItems =>
    case Arg(w, rest) =>
      assert seg[1..] == FlatItems(rest);
      ItemsPlain(rest);
    case Redir(op, f, rest) =>
      assert seg[2..] == FlatItems(rest);
      ItemsPlain(rest);
  }

  lemma {:induction false} WrapChain(c: Cmd, items: Items)
    requires IsChain(c)
    ensures IsChain(Wrap(c, items)) && Argv(Wrap(c, items)) == Argv(c) && Chain(Wrap(c, items)) == Chain(c) + Pairs(items)
    decreases items
  {
    match items
    case NoItems =>
    case Arg(_, rest) => WrapChain(c, rest);
    case Redir(op, f, rest) =>
      WrapChain(RedirCmd(c, f, Mode(op.kind), Fd(op.kind)), rest);
      assert Chain(c) + [Directs(op, f)] + Pairs(rest) == Chain(c) + Pairs(items);
  }

  lemma {:induction false} BlockSpelled(c: Cmd, redirs: Items, seg: seq<Token>)
    requires SpellsBlock(c, seg) && GoodItems(redirs) && ArgCount(redirs) == 0
    ensures SpellsBlock(Wrap(c, redirs), seg + FlatItems(redirs))
    decreases redirs
  {
    if redirs == NoItems {
      assert seg + FlatItems(redirs) == seg;
    } else {
      var op, f, rest := redirs.op, redirs.file, redirs.rest;
      var seg1, c1 := seg + [op, f], RedirCmd(c, f, Mode(op.kind), Fd(op.kind));
      assert seg1[..|seg1| - 2] == seg;
      assert SpellsBlock(c1, seg1);
      BlockSpelled(c1, rest, seg1);
      assert seg1 + FlatItems(rest) == seg + FlatItems(redirs);
    }
  }

  lemma {:induction false} UnitSpelled(c: Cst)
    requires IsUnit(c)
    ensures SpellsUnit(Meaning(c), Flat(c))
    decreases c, 0
  {
    match c
    case Simple(items) =>
      ItemsPlain(items);
      WrapChain(Exec(Args(items)), items);
    case Block(o, body, cl, redirs) =>
      LineSpelled(body);
      var seg := [o] + Flat(body) + [cl];
      assert seg[1..|seg| - 1] == Flat(body);
      BlockSpelled(Meaning(body), redirs, seg);
  }

  lemma {:induction false} PipeSpelled(c: Cst)
    requires IsPipeline(c)
    ensures SpellsPipe(Meaning(c), Flat(c))
    decreases c, 1
  {
    if c.Pipe? {
      UnitSpelled(c.left);
      PipeSpelled(c.right);
      var seg, i := Flat(c), |Flat(c.left)|;
      assert seg[..i] == Flat(c.left) && seg[i] == c.bar && seg[i + 1..] == Flat(c.right);
    } else {
      UnitSpelled(c);
    }
  }

  lemma {:induction false} BackedSpelled(c: Cst)
    requires IsBacked(c)
    ensures SpellsBacked(Meaning(c), Flat(c))
    decreases c, 2
  {
    if c.Back? {
      BackedSpelled(c.cmd);
      assert Flat(c)[..|Flat(c)| - 1] == Flat(c.cmd);
    } else {
      PipeSpelled(c);
    }
  }

  /** The tokens of a syntax tree spell the command that the parser builds of it. */
  lemma {:induction false} LineSpelled(c: Cst)
    requires IsLine(c)
    ensures SpellsLine(Meaning(c), Flat(c))
    decreases c, 3
  {
    if c.List? {
      BackedSpelled(c.first);
      LineSpelled(c.second);
      var seg, i := Flat(c), |Flat(c.first)|;
      assert seg[..i] == Flat(c.first) && seg[i] == c.semi && seg[i + 1..] == Flat(c.second);
    } else {
      BackedSpelled(c);
    }
  }

  // ----- What follows of the words -----

  /** All words of a command, as often as they occur. */
  function WordsOf(c: Cmd): multiset<Token> {
    match c
    case Exec(args) => multiset(args)
    case RedirCmd(d, f, _, _) => WordsOf(d) + multiset{f}
    case PipeCmd(l, r) => WordsOf(l) + WordsOf(r)
    case ListCmd(l, r) => WordsOf(l) + WordsOf(r)
    case BackCmd(d) => WordsOf(d)
  }

  function WordTokens(seg: seq<Token>): multiset<Token> {
    if seg == [] then multiset{} else WordTokens(seg[..|seg| - 1]) + if seg[|seg| - 1].kind == 'a' then multiset{seg[|seg| - 1]} else multiset{}
  }

  lemma {:induction false} WordTokensJoin(a: seq<Token>, b: seq<Token>)
    ensures WordTokens(a + b) == WordTokens(a) + WordTokens(b)
  {
    hide WordTokens;
    if b == [] {
      assert a + b == a;
      NoWords(b);
    } else {
      var init, last := b[..|b| - 1], b[|b| - 1];
      WordTokensJoin(a, init);
      assert a + b == (a + init) + [last];
      LastToken(a + b, a + init, last);
      LastToken(b, init, last);
    }
  }

  lemma {:induction false} LastToken(seg: seq<Token>, init: seq<Token>, last: Token)
    requires seg == init + [last]
    ensures WordTokens(seg) == WordTokens(init) + if last.kind == 'a' then multiset{last} else multiset{}
  {
    assert seg[..|seg| - 1] == init;
  }

  lemma {:induction false} WordTokensIn(seg: seq<Token>, w: Token)
    requires w in WordTokens(seg)
    ensures w in seg
  {
    if seg != [] && w != seg[|seg| - 1] {
      WordTokensIn(seg[..|seg| - 1], w);
    }
  }

  /** Each token ends where the next begins or before. */
  predicate Increasing(seg: seq<Token>) {
    forall i, j | 0 <= i < j < |seg| :: seg[i].eq <= seg[j].q
  }

  ghost predicate Before(a: Cmd, b: Cmd) {
    forall w, v | w in WordsOf(a) && v in WordsOf(b) :: w.eq <= v.q
  }

  /** Arguments in the order of the line, and left sides in front of right sides. */
  ghost predicate InOrder(c: Cmd) {
    match c
    case Exec(args) => Increasing(args)
    case RedirCmd(d, _, _, _) => InOrder(d)
    case PipeCmd(l, r) => Before(l, r) && InOrder(l) && InOrder(r)
    case ListCmd(l, r) => Before(l, r) && InOrder(l) && InOrder(r)
    case BackCmd(d) => InOrder(d)
  }

  /** Tokens k and k + 1 are this redirection. */
  predicate DirectsAt(seg: seq<Token>, k: nat, r: Redirection) {
    k + 1 < |seg| && IsRedir(seg[k].kind) && Directs(seg[k], seg[k + 1]) == r
  }

  /** The file of every redirection is the word after its operator. */
  ghost predicate FilesFollow(c: Cmd, seg: seq<Token>) {
    match c
    case Exec(_) => true
    case RedirCmd(d, f, m, fd) => FilesFollow(d, seg) && exists k: nat :: DirectsAt(seg, k, Redirection(f, m, fd))
    case PipeCmd(l, r) => FilesFollow(l, seg) && FilesFollow(r, seg)
    case ListCmd(l, r) => FilesFollow(l, seg) && FilesFollow(r, seg)
    case BackCmd(d) => FilesFollow(d, seg)
  }

  ghost predicate Follows(c: Cmd, seg: seq<Token>) {
    WordsOf(c) == WordTokens(seg) && (Increasing(seg) ==> InOrder(c)) && FilesFollow(c, seg)
  }

  lemma {:induction false} FollowWider(c: Cmd, a: seq<Token>, seg: seq<Token>, b: seq<Token>)
    requires FilesFollow(c, seg)
    ensures FilesFollow(c, a + seg + b)
    decreases c
  {
    match c
    case Exec(_) =>
    case RedirCmd(d, f, m, fd) =>
      FollowWider(d, a, seg, b);
      var k: nat :| DirectsAt(seg, k, Redirection(f, m, fd));
      assert DirectsAt(a + seg + b, |a| + k, Redirection(f, m, fd));
    case PipeCmd(l, r) =>
      FollowWider(l, a, seg, b);
      FollowWider(r, a, seg, b);
    case ListCmd(l, r) =>
      FollowWider(l, a, seg, b);
      FollowWider(r, a, seg, b);
    case BackCmd(d) => FollowWider(d, a, seg, b);
  }

  lemma {:induction false} IncreasingParts(seg: seq<Token>, i: nat, j: nat)
    requires Increasing(seg) && i <= j <= |seg|
    ensures Increasing(seg[i..j])
  {
  }

  /** Around a command with symbols on either side. */
  lemma {:induction false} FollowsAround(c: Cmd, seg: seq<Token>, i: nat, j: nat)
    requires i <= j <= |seg| && Follows(c, seg[i..j]) && (forall k | 0 <= k < i || j <= k < |seg| :: seg[k].kind != 'a')
    ensures Follows(c, seg)
  {
    assert seg == seg[..i] + seg[i..j] + seg[j..];
    FollowWider(c, seg[..i], seg[i..j], seg[j..]);
    WordTokensJoin(seg[..i] + seg[i..j], seg[j..]);
    WordTokensJoin(seg[..i], seg[i..j]);
    NoWords(seg[..i]);
    NoWords(seg[j..]);
    if Increasing(seg) {
      IncreasingParts(seg, i, j);
    }
    hide FilesFollow, InOrder, WordsOf, WordTokens;
  }

  lemma {:induction false} NoWords(seg: seq<Token>)
    requires forall k | 0 <= k < |seg| :: seg[k].kind != 'a'
    ensures WordTokens(seg) == multiset{}
  {
    if seg != [] {
      NoWords(seg[..|seg| - 1]);
    }
  }

  /** Two commands with a symbol in between. */
  lemma {:induction false} FollowsBoth(l: Cmd, r: Cmd, c: Cmd, seg: seq<Token>, i: nat)
    requires i < |seg| && seg[i].kind != 'a' && Follows(l, seg[..i]) && Follows(r, seg[i + 1..])
    requires c == PipeCmd(l, r) || c == ListCmd(l, r)
    ensures Follows(c, seg)
  {
    hide Before, WordTokens, FilesFollow, InOrder, WordsOf, Increasing;
    var a, t, b := seg[..i], seg[i], seg[i + 1..];
    assert seg == a + [t] + b && seg == [] + a + ([t] + b) && seg == (a + [t]) + b + [];
    FollowWider(l, [], a, [t] + b);
    FollowWider(r, a + [t], b, []);
    BothWords(a, t, b);
    if Increasing(seg) {
      IncreasingParts(seg, 0, i);
      IncreasingParts(seg, i + 1, |seg|);
      BothOrder(l, r, seg, i);
      assert seg[0..i] == a && seg[i + 1..|seg|] == b;
    }
    AllOfBoth(l, r, c, seg);
  }

  lemma {:induction false} AllOfBoth(l: Cmd, r: Cmd, c: Cmd, seg: seq<Token>)
    requires WordsOf(l) + WordsOf(r) == WordTokens(seg) && (Increasing(seg) ==> InOrder(l) && InOrder(r) && Before(l, r))
    requires FilesFollow(l, seg) && FilesFollow(r, seg) && (c == PipeCmd(l, r) || c == ListCmd(l, r))
    ensures Follows(c, seg)
  {
    hide WordTokens, Increasing, Before;
  }

  lemma {:induction false} BothWords(a: seq<Token>, t: Token, b: seq<Token>)
    requires t.kind != 'a'
    ensures WordTokens(a + [t] + b) == WordTokens(a) + WordTokens(b)
  {
    WordTokensJoin(a + [t], b);
    LastToken(a + [t], a, t);
  }

  lemma {:induction false} BothOrder(l: Cmd, r: Cmd, seg: seq<Token>, i: nat)
    requires i < |seg| && Increasing(seg) && WordsOf(l) == WordTokens(seg[..i]) && WordsOf(r) == WordTokens(seg[i + 1..])
    ensures Before(l, r)
  {
    hide WordsOf, WordTokens;
    forall w, v | w in WordsOf(l) && v in WordsOf(r)
      ensures w.eq <= v.q
    {
      WordTokensIn(seg[..i], w);
      WordTokensIn(seg[i + 1..], v);
      var x :| 0 <= x < i && seg[..i][x] == w;
      var y :| 0 <= y < |seg| - i - 1 && seg[i + 1..][y] == v;
      assert seg[x] == w && seg[i + 1 + y] == v;
    }
  }

  // A simple command.

  function Files(rs: seq<Redirection>): multiset<Token> {
    if rs == [] then multiset{} else Files(rs[..|rs| - 1]) + multiset{rs[|rs| - 1].file}
  }

  lemma {:induction false} FilesFirst(r: Redirection, rs: seq<Redirection>)
    ensures Files([r] + rs) == multiset{r.file} + Files(rs)
  {
    if rs == [] {
      assert [r] + rs == [r] && [r][..0] == [];
    } else {
      var init := rs[..|rs| - 1];
      FilesFirst(r, init);
      assert ([r] + rs)[..|rs|] == [r] + init;
    }
  }

  lemma {:induction false} ChainWords(c: Cmd)
    requires IsChain(c)
    ensures WordsOf(c) == multiset(Argv(c)) + Files(Chain(c)) && (InOrder(c) <==> Increasing(Argv(c)))
  {
    if c.RedirCmd? {
      ChainWords(c.cmd);
      assert Chain(c)[..|Chain(c)| - 1] == Chain(c.cmd);
    }
  }

  lemma {:induction false} FirstTokens(a: seq<Token>, rest: seq<Token>)
    requires |a| <= 2
    ensures WordTokens(a + rest) == WordTokens(a) + WordTokens(rest)
    ensures |a| == 1 ==> WordTokens(a) == if a[0].kind == 'a' then multiset{a[0]} else multiset{}
    ensures |a| == 2 && a[0].kind != 'a' ==> WordTokens(a) == if a[1].kind == 'a' then multiset{a[1]} else multiset{}
  {
    hide WordTokens;
    WordTokensJoin(a, rest);
    NoWords([]);
    if |a| == 1 {
      LastToken(a, [], a[0]);
    } else if |a| == 2 {
      LastToken(a, [a[0]], a[1]);
      LastToken([a[0]], [], a[0]);
    }
  }

  lemma {:induction false} NoFiles()
    ensures Files([]) == multiset{}
  {
  }

  lemma {:induction false} ItemWords(seg: seq<Token>)
    requires OnlyItems(seg)
    ensures multiset(Plain(seg)) + Files(Redirections(seg)) == WordTokens(seg)
  {
    hide WordTokens, Files;
    if seg == [] {
      NoWords(seg);
      NoFiles();
    } else if IsRedir(seg[0].kind) {
      ItemWords(seg[2..]);
      assert seg == seg[..2] + seg[2..];
      FirstTokens(seg[..2], seg[2..]);
      FilesFirst(Directs(seg[0], seg[1]), Redirections(seg[2..]));
    } else {
      ItemWords(seg[1..]);
      assert seg == seg[..1] + seg[1..];
      FirstTokens(seg[..1], seg[1..]);
      assert multiset([seg[0]] + Plain(seg[1..])) == multiset{seg[0]} + multiset(Plain(seg[1..]));
    }
  }

  lemma {:induction false} PlainIncreasing(seg: seq<Token>)
    requires Increasing(seg)
    ensures Increasing(Plain(seg)) && forall w | w in Plain(seg) :: w in seg
  {
    if seg != [] {
      var n := if !IsRedir(seg[0].kind) then 1 else if |seg| >= 2 then 2 else |seg|;
      IncreasingParts(seg, n, |seg|);
      assert seg[n..|seg|] == seg[n..];
      PlainIncreasing(seg[n..]);
      if !IsRedir(seg[0].kind) {
        var rest := Plain(seg[1..]);
        forall j | 0 <= j < |rest|
          ensures seg[0].eq <= rest[j].q
        {
          assert rest[j] in seg[1..];
        }
      }
    }
  }

  lemma {:induction false} RedirectionAt(seg: seq<Token>, r: Redirection) returns (k: nat)
    requires r in Redirections(seg)
    ensures DirectsAt(seg, k, r)
  {
    if IsRedir(seg[0].kind) && Directs(seg[0], seg[1]) == r {
      k := 0;
    } else {
      var n := if IsRedir(seg[0].kind) then 2 else 1;
      k := RedirectionAt(seg[n..], r);
      k := k + n;
    }
  }

  lemma {:induction false} ChainFollows(c: Cmd, seg: seq<Token>)
    requires IsChain(c) && forall r | r in Chain(c) :: r in Redirections(seg)
    ensures FilesFollow(c, seg)
  {
    if c.RedirCmd? {
      assert forall r | r in Chain(c.cmd) :: r in Chain(c);
      ChainFollows(c.cmd, seg);
      var r := Redirection(c.file, c.mode, c.fd);
      assert Chain(c)[|Chain(c)| - 1] == r;
      var k := RedirectionAt(seg, r);
    }
  }

  lemma {:induction false} SimpleFollows(c: Cmd, seg: seq<Token>)
    requires SpellsSimple(c, seg)
    ensures Follows(c, seg)
  {
    hide WordTokens, FilesFollow, WordsOf, InOrder;
    ChainWords(c);
    ItemWords(seg);
    ChainFollows(c, seg);
    if Increasing(seg) {
      PlainIncreasing(seg);
    }
  }

  // The rest of the grammar.

  lemma {:induction false} RedirWords(c: Cmd, seg: seq<Token>)
    requires |seg| >= 2 && c.RedirCmd? && IsRedir(seg[|seg| - 2].kind) && seg[|seg| - 1].kind == 'a' && c.file == seg[|seg| - 1]
    requires WordsOf(c.cmd) == WordTokens(seg[..|seg| - 2])
    ensures WordsOf(c) == WordTokens(seg)
  {
    hide WordTokens;
    var n := |seg| - 2;
    assert seg == seg[..n] + [seg[n]] + [seg[n + 1]];
    LastToken(seg[..n] + [seg[n]], seg[..n], seg[n]);
    LastToken(seg, seg[..n] + [seg[n]], seg[n + 1]);
  }

  lemma {:induction false} RedirFollows(c: Cmd, seg: seq<Token>)
    requires |seg| >= 2 && c.RedirCmd? && IsRedir(seg[|seg| - 2].kind) && seg[|seg| - 1].kind == 'a'
    requires Directs(seg[|seg| - 2], seg[|seg| - 1]) == Redirection(c.file, c.mode, c.fd) && Follows(c.cmd, seg[..|seg| - 2])
    ensures Follows(c, seg)
  {
    hide WordTokens, WordsOf;
    var n := |seg| - 2;
    RedirWords(c, seg);
    assert seg == [] + seg[..n] + seg[n..];
    FollowWider(c.cmd, [], seg[..n], seg[n..]);
    assert DirectsAt(seg, n, Redirection(c.file, c.mode, c.fd));
    if Increasing(seg) {
      IncreasingParts(seg, 0, n);
    }
  }

  lemma {:induction false} BlockFollows(c: Cmd, seg: seq<Token>)
    requires SpellsBlock(c, seg)
    ensures Follows(c, seg)
    decreases |seg|, 0
  {
    hide Follows;
    var n := |seg|;
    if seg[0].kind == '(' && seg[n - 1].kind == ')' && SpellsLine(c, seg[1..n - 1]) {
      LineFollows(c, seg[1..n - 1]);
      FollowsAround(c, seg, 1, n - 1);
    } else {
      BlockFollows(c.cmd, seg[..n - 2]);
      RedirFollows(c, seg);
    }
  }

  lemma {:induction false} UnitFollows(c: Cmd, seg: seq<Token>)
    requires SpellsUnit(c, seg)
    ensures Follows(c, seg)
    decreases |seg|, 1
  {
    hide Follows;
    if SpellsSimple(c, seg) {
      SimpleFollows(c, seg);
    } else {
      BlockFollows(c, seg);
    }
  }

  lemma {:induction false} PipeFollows(c: Cmd, seg: seq<Token>)
    requires SpellsPipe(c, seg)
    ensures Follows(c, seg)
    decreases |seg|, 2
  {
    hide Follows;
    if SpellsUnit(c, seg) {
      UnitFollows(c, seg);
    } else {
      var i: nat :| i < |seg| && seg[i].kind == '|' && SpellsUnit(c.left, seg[..i]) && SpellsPipe(c.right, seg[i + 1..]);
      UnitFollows(c.left, seg[..i]);
      PipeFollows(c.right, seg[i + 1..]);
      FollowsBoth(c.left, c.right, c, seg, i);
    }
  }

  lemma {:induction false} BackedFollows(c: Cmd, seg: seq<Token>)
    requires SpellsBacked(c, seg)
    ensures Follows(c, seg)
    decreases |seg|, 3
  {
    hide Follows;
    if SpellsPipe(c, seg) {
      PipeFollows(c, seg);
    } else {
      var n := |seg| - 1;
      BackedFollows(c.cmd, seg[..n]);
      assert seg[0..n] == seg[..n];
      FollowsAround(c.cmd, seg, 0, n);
      BackFollows(c, seg);
    }
  }

  lemma {:induction false} BackFollows(c: Cmd, seg: seq<Token>)
    requires c.BackCmd? && Follows(c.cmd, seg)
    ensures Follows(c, seg)
  {
    hide WordTokens, Increasing;
  }

  lemma {:induction false} LineFollows(c: Cmd, seg: seq<Token>)
    requires SpellsLine(c, seg)
    ensures Follows(c, seg)
    decreases |seg|, 4
  {
    hide Follows;
    if SpellsBacked(c, seg) {
      BackedFollows(c, seg);
    } else {
      var i: nat :| i < |seg| && seg[i].kind == ';' && SpellsBacked(c.left, seg[..i]) && SpellsLine(c.right, seg[i + 1..]);
      BackedFollows(c.left, seg[..i]);
      LineFollows(c.right, seg[i + 1..]);
      FollowsBoth(c.left, c.right, c, seg, i);
    }
  }

  /** Of a command that a line spells: its words are the words of the line, each as often as it occurs there; arguments are
      in order, left sides in front of right sides; and every redirection is an operator of the line with the word that
      follows it, for input exactly if the operator is '<'. */
  lemma {:induction false} SpelledWords(c: Cmd, seg: seq<Token>)
    requires SpellsLine(c, seg)
    ensures WordsOf(c) == WordTokens(seg)
    ensures Increasing(seg) ==> InOrder(c)
    ensures FilesFollow(c, seg)
  {
    LineFollows(c, seg);
  }

  // ----- The tokens of a line -----

  /** A token has its kind from its text: a word is a longest stretch of word characters, ">>" is '+', and every other
      symbol stands alone. */
  ghost predicate TokenIs(s: string, t: Token) {
    && t.q < t.eq <= |s|
    && if t.kind == 'a' then
         && (forall k | t.q <= k < t.eq :: WordChar(s[k]))
         && (t.eq < |s| ==> !WordChar(s[t.eq])) && (t.q > 0 ==> !WordChar(s[t.q - 1]))
       else if t.kind == '+' then t.eq == t.q + 2 && s[t.q] == '>' && s[t.q + 1] == '>'
       else t.eq == t.q + 1 && s[t.q] == t.kind && Symbol(t.kind) && (t.kind == '>' && t.eq < |s| ==> s[t.eq] != '>')
  }

  /** Some token covers place k. */
  ghost predicate Covered(seg: seq<Token>, k: nat) {
    exists j :: 0 <= j < |seg| && seg[j].q <= k < seg[j].eq
  }

  /** From a place inside no word. */
  predicate Between(s: string, i: nat) {
    i <= |s| && (0 < i < |s| ==> !(WordChar(s[i - 1]) && WordChar(s[i])))
  }

  lemma {:induction false} FirstTokenIs(s: string, i: nat)
    requires Between(s, i) && Skip(s, i) < |s|
    ensures var q := Skip(s, i);
      TokenIs(s, Token(Kind(s, q), q, TokenEnd(s, q))) && Between(s, TokenEnd(s, q))
  {
    var q := Skip(s, i);
    assert q > i ==> Blank(s[q - 1]);
  }

  /** Between two adjacent tokens, and at both ends of the line, there are only blanks; every other character lies in a
      token, and the tokens follow each other. */
  lemma {:induction false} TokensExact(s: string, i: nat)
    requires Between(s, i)
    ensures Increasing(Seq(Tokens(s, i)))
    ensures forall j | 0 <= j < |Seq(Tokens(s, i))| :: TokenIs(s, Seq(Tokens(s, i))[j]) && i <= Seq(Tokens(s, i))[j].q
    ensures forall k: nat | i <= k < |s| :: Covered(Seq(Tokens(s, i)), k) <==> !Blank(s[k])
    decreases |s| - i
  {
    hide TokenIs;
    var q := Skip(s, i);
    if q < |s| {
      var e := TokenEnd(s, q);
      FirstTokenIs(s, i);
      TokensExact(s, e);
      var first, rest, all := Token(Kind(s, q), q, e), Seq(Tokens(s, e)), Seq(Tokens(s, i));
      assert all == [first] + rest;
      forall k: nat | i <= k < |s|
        ensures Covered(all, k) <==> !Blank(s[k])
      {
        CoveredFirst(first, rest, k);
        FirstDark(s, q, k);
      }
    }
  }

  lemma {:induction false} CoveredFirst(first: Token, rest: seq<Token>, k: nat)
    ensures Covered([first] + rest, k) <==> first.q <= k < first.eq || Covered(rest, k)
  {
    var all := [first] + rest;
    if first.q <= k < first.eq {
      assert all[0] == first;
    }
    if Covered(rest, k) {
      var j :| 0 <= j < |rest| && rest[j].q <= k < rest[j].eq;
      assert all[j + 1] == rest[j];
    }
  }

  lemma {:induction false} FirstDark(s: string, q: nat, k: nat)
    requires q < |s| && !Blank(s[q])
    ensures q <= k < TokenEnd(s, q) ==> !Blank(s[k])
  {
  }
}
