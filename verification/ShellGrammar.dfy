/** The shell's grammar over tokens, and the proof that its parser accepts a line exactly when the
    grammar derives it, with the same command:

      line   ::= back [ ';' line ]            back  ::= pipe | back '&'
      pipe   ::= exec [ '|' pipe ]            exec  ::= block | simple
      block  ::= '(' line ')' redir*          simple ::= ( word | redir )*
      redir  ::= ( '<' | '>' | '>>' ) word

    Each relation reads the tokens ts, makes the command c, and leaves the tokens rest. */
module ShellGrammar {
  import opened Shell

  // ---- Tokens ----

  /** The tokens of s from position i on. */
  function Toks(s: string, i: nat): seq<Token>
    requires i <= |s|
    decreases |s| - i
  {
    var t := Next(s, i);
    if t.kind == NUL then [] else [t] + Toks(s, t.next)
  }

  predicate Starts(ts: seq<Token>, kinds: string) {
    ts != [] && ts[0].kind in kinds
  }

  function WordOf(t: Token): Word {
    Word(t.q, t.eq)
  }

  function RedirOf(op: Token, file: Token): Redirection {
    Redirection(WordOf(file), op.kind != '<')
  }

  // ---- The grammar ----

  /** A redirection is an operator and a word. */
  predicate StartsRedir(ts: seq<Token>) {
    |ts| >= 2 && Starts(ts, "<>+") && ts[1].kind == 'a'
  }

  /** Redirections, each wrapped around what has been read so far: c becomes d. */
  ghost predicate RedirsG(ts: seq<Token>, c: Cmd, d: Cmd, rest: seq<Token>)
    decreases |ts|
  {
    || (ts == rest && d == c)
    || (StartsRedir(ts) && RedirsG(ts[2..], Redir(c, RedirOf(ts[0], ts[1])), d, rest))
  }

  /** Words and redirections in any order: the words are args, and each redirection is wrapped around what
      has been read so far, from c to d. */
  ghost predicate ItemsG(ts: seq<Token>, args: seq<Word>, c: Cmd, d: Cmd, rest: seq<Token>)
    decreases |ts|
  {
    || (ts == rest && args == [] && d == c)
    || (Starts(ts, "a") && args != [] && args[0] == WordOf(ts[0]) && ItemsG(ts[1..], args[1..], c, d, rest))
    || (StartsRedir(ts) && ItemsG(ts[2..], args, Redir(c, RedirOf(ts[0], ts[1])), d, rest))
  }

  ghost predicate SimpleG(ts: seq<Token>, c: Cmd, rest: seq<Token>) {
    exists args :: |args| < MAXARGS && ItemsG(ts, args, Exec(args), c, rest)
  }

  ghost predicate BlockG(ts: seq<Token>, c: Cmd, rest: seq<Token>)
    decreases |ts|, 0
  {
    Starts(ts, "(") && exists v, mid :: LineG(ts[1..], v, mid) && Starts(mid, ")") && RedirsG(mid[1..], v, c, rest)
  }

  ghost predicate ExecG(ts: seq<Token>, c: Cmd, rest: seq<Token>)
    decreases |ts|, 1
  {
    BlockG(ts, c, rest) || SimpleG(ts, c, rest)
  }

  ghost predicate PipeG(ts: seq<Token>, c: Cmd, rest: seq<Token>)
    decreases |ts|, 2
  {
    || ExecG(ts, c, rest)
    || (c.Pipe? && exists mid ::
          ExecG(ts, c.left, mid) && |mid| <= |ts| && Starts(mid, "|") && PipeG(mid[1..], c.right, rest))
  }

  ghost predicate BackG(ts: seq<Token>, c: Cmd, rest: seq<Token>)
    decreases |ts|, 3, c
  {
    || PipeG(ts, c, rest)
    || (c.Back? && exists mid :: BackG(ts, c.cmd, mid) && Starts(mid, "&") && rest == mid[1..])
  }

  ghost predicate LineG(ts: seq<Token>, c: Cmd, rest: seq<Token>)
    decreases |ts|, 4
  {
    || BackG(ts, c, rest)
    || (c.List? && exists mid ::
          BackG(ts, c.left, mid) && |mid| <= |ts| && Starts(mid, ";") && LineG(mid[1..], c.right, rest))
  }

  // ---- Redirections as lists ----

  /** The redirections rs, one after the other. */
  ghost predicate RedirList(ts: seq<Token>, rs: seq<Redirection>, rest: seq<Token>)
    decreases |rs|
  {
    if rs == [] then ts == rest
    else StartsRedir(ts) && rs[0] == RedirOf(ts[0], ts[1]) && RedirList(ts[2..], rs[1..], rest)
  }

  /** The words args and the redirections rs, in any order. */
  ghost predicate ItemList(ts: seq<Token>, args: seq<Word>, rs: seq<Redirection>, rest: seq<Token>)
    decreases |ts|
  {
    || (ts == rest && args == [] && rs == [])
    || (Starts(ts, "a") && args != [] && args[0] == WordOf(ts[0]) && ItemList(ts[1..], args[1..], rs, rest))
    || (StartsRedir(ts) && rs != [] && rs[0] == RedirOf(ts[0], ts[1]) && ItemList(ts[2..], args, rs[1..], rest))
  }

  /** Wrapping a list is wrapping its first redirection, and then the others around that. */
  lemma {:induction false} WrapFirst(c: Cmd, rs: seq<Redirection>)
    requires rs != []
    ensures Wrap(c, rs) == Wrap(Redir(c, rs[0]), rs[1..])
    decreases |rs|
  {
    var n := |rs| - 1;
    if n > 0 {
      WrapFirst(c, rs[..n]);
      assert rs[..n][1..] == rs[1..][..n - 1] && rs[1..][n - 1] == rs[n];
    } else {
      assert rs[..0] == [];
    }
  }

  lemma {:induction false} RedirsBuild(ts: seq<Token>, rs: seq<Redirection>, c: Cmd, rest: seq<Token>)
    requires RedirList(ts, rs, rest)
    ensures RedirsG(ts, c, Wrap(c, rs), rest)
    decreases |rs|
  {
    if rs != [] {
      WrapFirst(c, rs);
      RedirsBuild(ts[2..], rs[1..], Redir(c, rs[0]), rest);
    }
  }

  lemma {:induction false} RedirsAreList(ts: seq<Token>, c: Cmd, d: Cmd, rest: seq<Token>)
    returns (rs: seq<Redirection>)
    requires RedirsG(ts, c, d, rest)
    ensures RedirList(ts, rs, rest) && d == Wrap(c, rs)
    decreases |ts|
  {
    if ts == rest && d == c {
      rs := [];
    } else {
      var r := RedirOf(ts[0], ts[1]);
      var more := RedirsAreList(ts[2..], Redir(c, r), d, rest);
      rs := [r] + more;
      assert rs[1..] == more;
      WrapFirst(c, rs);
    }
  }

  lemma {:induction false} ItemsBuild(ts: seq<Token>, args: seq<Word>, rs: seq<Redirection>, c: Cmd, rest: seq<Token>)
    requires ItemList(ts, args, rs, rest)
    ensures ItemsG(ts, args, c, Wrap(c, rs), rest)
    decreases |ts|
  {
    if Starts(ts, "a") && args != [] && args[0] == WordOf(ts[0]) && ItemList(ts[1..], args[1..], rs, rest) {
      ItemsBuild(ts[1..], args[1..], rs, c, rest);
    } else if !(ts == rest && args == [] && rs == []) {
      WrapFirst(c, rs);
      ItemsBuild(ts[2..], args, rs[1..], Redir(c, rs[0]), rest);
    }
  }

  lemma {:induction false} ItemsAreList(ts: seq<Token>, args: seq<Word>, c: Cmd, d: Cmd, rest: seq<Token>)
    returns (rs: seq<Redirection>)
    requires ItemsG(ts, args, c, d, rest)
    ensures ItemList(ts, args, rs, rest) && d == Wrap(c, rs)
    decreases |ts|
  {
    if ts == rest && args == [] && d == c {
      rs := [];
    } else if Starts(ts, "a") && args != [] && args[0] == WordOf(ts[0]) && ItemsG(ts[1..], args[1..], c, d, rest) {
      rs := ItemsAreList(ts[1..], args[1..], c, d, rest);
    } else {
      var r := RedirOf(ts[0], ts[1]);
      var more := ItemsAreList(ts[2..], args, Redir(c, r), d, rest);
      rs := [r] + more;
      assert rs[1..] == more;
      WrapFirst(c, rs);
    }
  }

  // ---- Looking at the first token ----

  lemma SkipToks(s: string, i: nat)
    requires i <= |s|
    ensures Skip(s, Skip(s, i)) == Skip(s, i) && Toks(s, Skip(s, i)) == Toks(s, i)
  {
  }

  /** peek sees the kind of the first token, save that >> shows as its first character. */
  lemma PeekStarts(s: string, i: nat)
    requires i <= |s|
    ensures Peek(s, i, "<>") <==> Starts(Toks(s, i), "<>+")
    ensures Peek(s, i, "|)&;") <==> Starts(Toks(s, i), "|)&;")
    ensures Peek(s, i, "(") <==> Starts(Toks(s, i), "(")
    ensures Peek(s, i, ")") <==> Starts(Toks(s, i), ")")
    ensures Peek(s, i, "|") <==> Starts(Toks(s, i), "|")
    ensures Peek(s, i, "&") <==> Starts(Toks(s, i), "&")
    ensures Peek(s, i, ";") <==> Starts(Toks(s, i), ";")
  {
  }

  lemma FirstTok(s: string, i: nat)
    requires i <= |s|
    ensures Toks(s, i) == [] <==> Next(s, i).kind == NUL
    ensures Toks(s, i) != [] ==> Toks(s, i)[0] == Next(s, i) && Toks(s, i)[1..] == Toks(s, Next(s, i).next)
    ensures Skip(s, i) == |s| <==> Toks(s, i) == []
    ensures Toks(s, Next(s, i).next) == if Toks(s, i) == [] then [] else Toks(s, i)[1..]
  {
    if Toks(s, i) == [] {
      assert Next(s, i).next == |s|;
    }
  }

  // ---- What the parser accepts, the grammar derives ----

  lemma {:induction false} RedirsSound(s: string, i: nat)
    requires i <= |s| && ParseRedirs(s, i).Ok?
    ensures RedirList(Toks(s, i), ParseRedirs(s, i).v, Toks(s, ParseRedirs(s, i).pos))
    ensures |Toks(s, ParseRedirs(s, i).pos)| <= |Toks(s, i)|
    decreases |s| - i
  {
    PeekStarts(s, i);
    SkipToks(s, i);
    if Peek(s, i, "<>") {
      FirstTok(s, i);
      var t := Next(s, i);
      FirstTok(s, t.next);
      var f := Next(s, t.next);
      RedirsSound(s, f.next);
      assert Toks(s, i)[2..] == Toks(s, i)[1..][1..];
      var rs := ParseRedirs(s, i).v;
      assert rs[1..] == ParseRedirs(s, f.next).v;
    }
  }

  /** Redirections in front of words and redirections. */
  lemma {:induction false} RedirsItems(ts: seq<Token>, rs: seq<Redirection>, mid: seq<Token>, args: seq<Word>,
                                       rs2: seq<Redirection>, rest: seq<Token>)
    requires RedirList(ts, rs, mid) && ItemList(mid, args, rs2, rest)
    ensures ItemList(ts, args, rs + rs2, rest)
    decreases |rs|
  {
    if rs == [] {
      assert rs + rs2 == rs2;
    } else {
      RedirsItems(ts[2..], rs[1..], mid, args, rs2, rest);
      assert (rs + rs2)[1..] == rs[1..] + rs2;
    }
  }

  lemma NoItems(ts: seq<Token>)
    ensures ItemList(ts, [], [], ts)
  {
  }

  lemma OneMore(ts: seq<Token>, w: Word, args: seq<Word>, rs: seq<Redirection>, rest: seq<Token>)
    requires Starts(ts, "a") && w == WordOf(ts[0]) && ItemList(ts[1..], args, rs, rest)
    ensures ItemList(ts, [w] + args, rs, rest)
  {
    assert ([w] + args)[1..] == args;
  }

  lemma {:induction false} ArgsSound(s: string, i: nat, n: nat)
    requires i <= |s| && n < MAXARGS && ParseArgs(s, i, n).Ok?
    ensures var r := ParseArgs(s, i, n);
            && n + |r.v.0| < MAXARGS && ItemList(Toks(s, i), r.v.0, r.v.1, Toks(s, r.pos))
            && |Toks(s, r.pos)| <= |Toks(s, i)|
    decreases |s| - i
  {
    hide Toks, Skip, Next, ItemList, RedirList, ParseRedirs;
    PeekStarts(s, i);
    SkipToks(s, i);
    FirstTok(s, i);
    var t, r := Next(s, i), ParseArgs(s, i, n);
    if !Peek(s, i, "|)&;") && t.kind != NUL {
      RedirsSound(s, t.next);
      var more := ParseRedirs(s, t.next);
      ArgsSound(s, more.pos, n + 1);
      var tail := ParseArgs(s, more.pos, n + 1);
      RedirsItems(Toks(s, t.next), more.v, Toks(s, more.pos), tail.v.0, tail.v.1, Toks(s, tail.pos));
      OneMore(Toks(s, i), WordOf(t), tail.v.0, more.v + tail.v.1, Toks(s, tail.pos));
    } else {
      NoItems(Toks(s, i));
    }
  }

  lemma {:induction false} ExecSound(s: string, i: nat)
    requires i <= |s| && ParseExec(s, i).Ok?
    ensures ExecG(Toks(s, i), ParseExec(s, i).v, Toks(s, ParseExec(s, i).pos))
    ensures |Toks(s, ParseExec(s, i).pos)| <= |Toks(s, i)|
    decreases |s| - i, 1
  {
    hide Toks, Skip, Peek, ItemsG, ItemList, RedirList, BlockG, ParseRedirs, ParseArgs, ParseBlock, Wrap;
    if Peek(s, i, "(") {
      BlockSound(s, i);
    } else {
      RedirsSound(s, i);
      var rs := ParseRedirs(s, i);
      ArgsSound(s, rs.pos, 0);
      var r := ParseArgs(s, rs.pos, 0);
      RedirsItems(Toks(s, i), rs.v, Toks(s, rs.pos), r.v.0, r.v.1, Toks(s, r.pos));
      ItemsBuild(Toks(s, i), r.v.0, rs.v + r.v.1, Exec(r.v.0), Toks(s, r.pos));
      assert SimpleG(Toks(s, i), Wrap(Exec(r.v.0), rs.v + r.v.1), Toks(s, r.pos));
    }
  }

  lemma {:induction false} BlockSound(s: string, i: nat)
    requires i <= |s| && Peek(s, i, "(") && ParseBlock(s, i).Ok?
    ensures BlockG(Toks(s, i), ParseBlock(s, i).v, Toks(s, ParseBlock(s, i).pos))
    ensures |Toks(s, ParseBlock(s, i).pos)| <= |Toks(s, i)|
    decreases |s| - i, 0
  {
    PeekStarts(s, i);
    FirstTok(s, i);
    var j := Next(s, i).next;
    LineSound(s, j);
    var v := ParseLine(s, j);
    PeekStarts(s, v.pos);
    FirstTok(s, v.pos);
    RedirsSound(s, Next(s, v.pos).next);
    var rs := ParseRedirs(s, Next(s, v.pos).next);
    RedirsBuild(Toks(s, v.pos)[1..], rs.v, v.v, Toks(s, rs.pos));
  }

  lemma {:induction false} PipeSound(s: string, i: nat)
    requires i <= |s| && ParsePipe(s, i).Ok?
    ensures PipeG(Toks(s, i), ParsePipe(s, i).v, Toks(s, ParsePipe(s, i).pos))
    ensures |Toks(s, ParsePipe(s, i).pos)| <= |Toks(s, i)|
    decreases |s| - i, 2
  {
    ExecSound(s, i);
    var p := ParseExec(s, i).pos;
    PeekStarts(s, p);
    SkipToks(s, p);
    FirstTok(s, p);
    if Peek(s, p, "|") {
      PipeSound(s, Next(s, p).next);
    }
  }

  lemma {:induction false} BacksSound(s: string, i: nat, c: Cmd, ts: seq<Token>)
    requires i <= |s| && BackG(ts, c, Toks(s, i))
    ensures BackG(ts, Backs(s, i, c).0, Toks(s, Backs(s, i, c).1))
    ensures |Toks(s, Backs(s, i, c).1)| <= |Toks(s, i)|
    decreases |s| - i
  {
    PeekStarts(s, i);
    SkipToks(s, i);
    FirstTok(s, i);
    if Peek(s, i, "&") {
      assert BackG(ts, Back(c), Toks(s, Next(s, i).next));
      BacksSound(s, Next(s, i).next, Back(c), ts);
    }
  }

  lemma {:induction false} LineSound(s: string, i: nat)
    requires i <= |s| && ParseLine(s, i).Ok?
    ensures LineG(Toks(s, i), ParseLine(s, i).v, Toks(s, ParseLine(s, i).pos))
    ensures |Toks(s, ParseLine(s, i).pos)| <= |Toks(s, i)|
    decreases |s| - i, 3
  {
    PipeSound(s, i);
    var r := ParsePipe(s, i);
    BacksSound(s, r.pos, r.v, Toks(s, i));
    var b := Backs(s, r.pos, r.v);
    PeekStarts(s, b.1);
    FirstTok(s, b.1);
    if Peek(s, b.1, ";") {
      LineSound(s, Next(s, b.1).next);
    }
  }

  // ---- What the grammar derives, the parser accepts ----

  /** The tokens that may follow a simple command or a block, a pipeline, and a line. */
  predicate EndsExec(rest: seq<Token>) {
    rest == [] || Starts(rest, "|)&;")
  }

  predicate EndsPipe(rest: seq<Token>) {
    rest == [] || Starts(rest, ")&;")
  }

  predicate EndsLine(rest: seq<Token>) {
    rest == [] || Starts(rest, ")")
  }

  /** Reading from i gives v and leaves rest. */
  ghost predicate Gives<T>(r: Result<T>, s: string, v: T, rest: seq<Token>) {
    r.Ok? && r.v == v && r.pos <= |s| && Toks(s, r.pos) == rest
  }

  lemma {:induction false} RedirsComplete(s: string, i: nat, rs: seq<Redirection>, rest: seq<Token>)
    requires i <= |s| && RedirList(Toks(s, i), rs, rest) && !Starts(rest, "<>+")
    ensures Gives(ParseRedirs(s, i), s, rs, rest)
    decreases |rs|
  {
    PeekStarts(s, i);
    SkipToks(s, i);
    FirstTok(s, i);
    if rs != [] {
      var t := Next(s, i);
      FirstTok(s, t.next);
      var f := Next(s, t.next);
      assert Toks(s, i)[2..] == Toks(s, i)[1..][1..];
      RedirsComplete(s, f.next, rs[1..], rest);
      assert [rs[0]] + rs[1..] == rs;
    }
  }

  /** Words and redirections start with some redirections, and then there is a word or the end. */
  lemma {:induction false} LeadingRedirs(ts: seq<Token>, args: seq<Word>, rs: seq<Redirection>, rest: seq<Token>)
    returns (rs1: seq<Redirection>, rs2: seq<Redirection>, mid: seq<Token>)
    requires ItemList(ts, args, rs, rest) && !Starts(rest, "<>+")
    ensures RedirList(ts, rs1, mid) && ItemList(mid, args, rs2, rest) && rs == rs1 + rs2 && !Starts(mid, "<>+")
    decreases |ts|
  {
    if Starts(ts, "<>+") {
      rs1, rs2, mid := LeadingRedirs(ts[2..], args, rs[1..], rest);
      rs1 := [rs[0]] + rs1;
      assert rs1[1..] + rs2 == rs[1..];
    } else {
      rs1, rs2, mid := [], rs, ts;
    }
  }

  lemma NotBoth(rest: seq<Token>)
    requires EndsExec(rest)
    ensures !Starts(rest, "<>+") && !Starts(rest, "a") && !Starts(rest, "(") && (rest != [] ==> Starts(rest, "|)&;"))
  {
  }

  lemma FirstItem(ts: seq<Token>, args: seq<Word>, rs: seq<Redirection>, rest: seq<Token>)
    requires ItemList(ts, args, rs, rest) && !Starts(ts, "<>+")
    ensures args == [] ==> ts == rest && rs == []
    ensures args != [] ==> Starts(ts, "a") && args[0] == WordOf(ts[0]) && ItemList(ts[1..], args[1..], rs, rest)
    ensures args != [] ==> !Starts(ts, "|)&;")
  {
  }

  lemma {:induction false} ArgsComplete(s: string, i: nat, n: nat, args: seq<Word>, rs: seq<Redirection>,
                                        rest: seq<Token>)
    requires i <= |s| && ItemList(Toks(s, i), args, rs, rest) && EndsExec(rest) && !Starts(Toks(s, i), "<>+")
    requires n + |args| < MAXARGS
    ensures Gives(ParseArgs(s, i, n), s, (args, rs), rest)
    decreases |Toks(s, i)|
  {
    hide Toks, Skip, Next, Peek, ParseRedirs, RedirList, ItemList, EndsExec;
    NotBoth(rest);
    FirstItem(Toks(s, i), args, rs, rest);
    PeekStarts(s, i);
    SkipToks(s, i);
    FirstTok(s, i);
    if args != [] {
      var t := Next(s, i);
      var rs1, rs2, mid := LeadingRedirs(Toks(s, t.next), args[1..], rs, rest);
      RedirsComplete(s, t.next, rs1, mid);
      var p := ParseRedirs(s, t.next).pos;
      RedirsSound(s, t.next);
      ArgsComplete(s, p, n + 1, args[1..], rs2, rest);
      assert [WordOf(t)] + args[1..] == args;
    }
  }

  lemma {:induction false} SimpleComplete(s: string, i: nat, c: Cmd, rest: seq<Token>)
    requires i <= |s| && SimpleG(Toks(s, i), c, rest) && EndsExec(rest)
    ensures Gives(ParseExec(s, i), s, c, rest)
  {
    var args :| |args| < MAXARGS && ItemsG(Toks(s, i), args, Exec(args), c, rest);
    var rs := ItemsAreList(Toks(s, i), args, Exec(args), c, rest);
    PeekStarts(s, i);
    var rs1, rs2, mid := LeadingRedirs(Toks(s, i), args, rs, rest);
    RedirsComplete(s, i, rs1, mid);
    ArgsComplete(s, ParseRedirs(s, i).pos, 0, args, rs2, rest);
  }

  lemma {:induction false} BlockComplete(s: string, i: nat, c: Cmd, rest: seq<Token>)
    requires i <= |s| && BlockG(Toks(s, i), c, rest) && EndsExec(rest)
    ensures Gives(ParseExec(s, i), s, c, rest)
    decreases |Toks(s, i)|, 0
  {
    hide Toks, Skip, Next, Peek, ParseRedirs, RedirsG, RedirList, LineG, ParseLine, Wrap;
    NotBoth(rest);
    PeekStarts(s, i);
    FirstTok(s, i);
    var j := Next(s, i).next;
    var v, mid :| LineG(Toks(s, j), v, mid) && Starts(mid, ")") && RedirsG(mid[1..], v, c, rest);
    var rs := RedirsAreList(mid[1..], v, c, rest);
    LineComplete(s, j, v, mid);
    var p := ParseLine(s, j).pos;
    PeekStarts(s, p);
    FirstTok(s, p);
    RedirsComplete(s, Next(s, p).next, rs, rest);
  }

  lemma {:induction false} ExecComplete(s: string, i: nat, c: Cmd, rest: seq<Token>)
    requires i <= |s| && ExecG(Toks(s, i), c, rest) && EndsExec(rest)
    ensures Gives(ParseExec(s, i), s, c, rest)
    decreases |Toks(s, i)|, 1
  {
    if BlockG(Toks(s, i), c, rest) {
      BlockComplete(s, i, c, rest);
    } else {
      SimpleComplete(s, i, c, rest);
    }
  }

  lemma {:induction false} PipeComplete(s: string, i: nat, c: Cmd, rest: seq<Token>)
    requires i <= |s| && PipeG(Toks(s, i), c, rest) && EndsPipe(rest)
    ensures Gives(ParsePipe(s, i), s, c, rest)
    decreases |Toks(s, i)|, 2
  {
    var ts := Toks(s, i);
    if ExecG(ts, c, rest) {
      ExecComplete(s, i, c, rest);
      var p := ParseExec(s, i).pos;
      PeekStarts(s, p);
      SkipToks(s, p);
    } else {
      var mid :| ExecG(ts, c.left, mid) && |mid| <= |ts| && Starts(mid, "|") && PipeG(mid[1..], c.right, rest);
      ExecComplete(s, i, c.left, mid);
      var p := ParseExec(s, i).pos;
      PeekStarts(s, p);
      FirstTok(s, p);
      PipeComplete(s, Next(s, p).next, c.right, rest);
    }
  }

  /** Reading the pipeline and its ampersands comes to c, with mid still to read. */
  lemma {:induction false} BackComplete(s: string, i: nat, c: Cmd, mid: seq<Token>) returns (p: nat)
    requires i <= |s| && BackG(Toks(s, i), c, mid) && EndsPipe(mid)
    ensures ParsePipe(s, i).Ok? && p <= |s| && Toks(s, p) == mid
    ensures Backs(s, ParsePipe(s, i).pos, ParsePipe(s, i).v) == Backs(s, p, c)
    decreases |Toks(s, i)|, 3, c
  {
    var ts := Toks(s, i);
    if PipeG(ts, c, mid) {
      PipeComplete(s, i, c, mid);
      p := ParsePipe(s, i).pos;
    } else {
      var mid1 :| BackG(ts, c.cmd, mid1) && Starts(mid1, "&") && mid == mid1[1..];
      var p1 := BackComplete(s, i, c.cmd, mid1);
      PeekStarts(s, p1);
      FirstTok(s, p1);
      p := Next(s, p1).next;
    }
  }

  lemma {:induction false} LineComplete(s: string, i: nat, c: Cmd, rest: seq<Token>)
    requires i <= |s| && LineG(Toks(s, i), c, rest) && EndsLine(rest)
    ensures Gives(ParseLine(s, i), s, c, rest)
    decreases |Toks(s, i)|, 4
  {
    var ts := Toks(s, i);
    if BackG(ts, c, rest) {
      var p := BackComplete(s, i, c, rest);
      PeekStarts(s, p);
      SkipToks(s, p);
      PeekStarts(s, Skip(s, p));
    } else {
      var mid :| BackG(ts, c.left, mid) && |mid| <= |ts| && Starts(mid, ";") && LineG(mid[1..], c.right, rest);
      var p := BackComplete(s, i, c.left, mid);
      PeekStarts(s, p);
      SkipToks(s, p);
      PeekStarts(s, Skip(s, p));
      FirstTok(s, Skip(s, p));
      LineComplete(s, Next(s, Skip(s, p)).next, c.right, rest);
    }
  }

  /** The parser accepts a line as command c exactly when the grammar derives c from its tokens, and
      rejects it exactly when the grammar derives nothing. */
  lemma ParserMeetsGrammar(s: string)
    ensures forall c :: ParseCmd(s) == Ok(c, |s|) <==> LineG(Toks(s, 0), c, [])
    ensures ParseCmd(s).Fail? <==> forall c :: !LineG(Toks(s, 0), c, [])
  {
    forall c ensures ParseCmd(s) == Ok(c, |s|) <==> LineG(Toks(s, 0), c, []) {
      if ParseCmd(s) == Ok(c, |s|) {
        LineSound(s, 0);
        FirstTok(s, ParseLine(s, 0).pos);
      }
      if LineG(Toks(s, 0), c, []) {
        LineComplete(s, 0, c, []);
        FirstTok(s, ParseLine(s, 0).pos);
      }
    }
    if ParseCmd(s).Ok? {
      assert ParseCmd(s) == Ok(ParseCmd(s).v, |s|);
    }
  }
}
