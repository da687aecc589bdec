/** sh.c's parser as it runs: a cursor moved along the line by mutually recursive procedures, and the
    NULs written into the line afterwards. */
module ShellParser {
  import opened Shell

  lemma SkipSame(s: string, i: nat)
    requires i <= |s|
    ensures Skip(s, Skip(s, i)) == Skip(s, i) && Next(s, Skip(s, i)) == Next(s, i)
    ensures forall toks :: Peek(s, Skip(s, i), toks) == Peek(s, i, toks)
    ensures ParseRedirs(s, Skip(s, i)) == ParseRedirs(s, i)
  {
    SkipNone(s, Skip(s, i));
  }

  /** What is still to be read, behind what has been read. */
  function MoreRedirs(rs: seq<Redirection>, r: Result<seq<Redirection>>): Result<seq<Redirection>> {
    match r
    case Fail(e) => Fail(e)
    case Ok(v, p) => Ok(rs + v, p)
  }

  function MoreArgs(args: seq<Word>, rs: seq<Redirection>, r: Result<(seq<Word>, seq<Redirection>)>)
    : Result<(seq<Word>, seq<Redirection>)>
  {
    match r
    case Fail(e) => Fail(e)
    case Ok(v, p) => Ok((args + v.0, rs + v.1), p)
  }

  lemma NothingYet(r: Result<seq<Redirection>>, a: Result<(seq<Word>, seq<Redirection>)>)
    ensures MoreRedirs([], r) == r && MoreArgs([], [], a) == a
  {
    if r.Ok? {
      assert [] + r.v == r.v;
    }
    if a.Ok? {
      assert [] + a.v.0 == a.v.0 && [] + a.v.1 == a.v.1;
    }
  }

  class Parser {
    const s: string
    var pos: nat

    constructor (s: string)
      ensures this.s == s && pos == 0
    {
      this.s := s;
      pos := 0;
    }

    method SkipSpace()
      requires pos <= |s|
      modifies this
      ensures pos == Skip(s, old(pos))
    {
      while pos < |s| && Ws(s[pos])
        invariant pos <= |s| && Skip(s, pos) == Skip(s, old(pos))
      {
        pos := pos + 1;
      }
    }

    method GetToken() returns (t: Token)
      requires pos <= |s|
      modifies this
      ensures t == Next(s, old(pos)) && pos == t.next
      ensures old(pos) <= t.q <= t.eq <= t.next <= |s|
      // white space before and behind it
      ensures forall k :: old(pos) <= k < t.q || t.eq <= k < t.next ==> Ws(s[k])
      ensures (t.q < |s| ==> !Ws(s[t.q])) && (t.next < |s| ==> !Ws(s[t.next]))
      // the end, one of the symbols, or a word
      ensures t.kind == NUL <==> t.q == |s|
      ensures t.q < |s| ==>
                if s[t.q] == '>' && t.q + 1 < |s| && s[t.q + 1] == '>' then t.kind == '+' && t.eq == t.q + 2
                else if Sym(s[t.q]) then t.kind == s[t.q] && t.eq == t.q + 1
                else t.kind == 'a' && (forall k :: t.q <= k < t.eq ==> !Ws(s[k]) && !Sym(s[k]))
                     && (t.eq < |s| ==> Ws(s[t.eq]) || Sym(s[t.eq]))
    {
      SkipSpace();
      var q := pos;
      var kind := NUL;
      if pos < |s| {
        kind := s[pos];
        if kind == '|' || kind == '(' || kind == ')' || kind == ';' || kind == '&' || kind == '<' {
          pos := pos + 1;
        } else if kind == '>' {
          pos := pos + 1;
          if pos < |s| && s[pos] == '>' {
            kind := '+';
            pos := pos + 1;
          }
        } else {
          kind := 'a';
          while pos < |s| && !Ws(s[pos]) && !Sym(s[pos])
            invariant q <= pos <= |s| && WordEnd(s, pos) == WordEnd(s, q)
          {
            pos := pos + 1;
          }
        }
      }
      var eq := pos;
      SkipSpace();
      t := Token(kind, q, eq, pos);
    }

    method PeekAt(toks: string) returns (b: bool)
      requires pos <= |s|
      modifies this
      ensures b == Peek(s, old(pos), toks) && pos == Skip(s, old(pos))
      ensures old(pos) <= pos <= |s| && (forall k :: old(pos) <= k < pos ==> Ws(s[k])) && (pos < |s| ==> !Ws(s[pos]))
      ensures b <==> pos < |s| && s[pos] in toks
    {
      SkipSpace();
      b := pos < |s| && s[pos] in toks;
    }

    /** parseredirs: the redirections at the cursor, in order. */
    method Redirs() returns (r: Result<seq<Redirection>>)
      requires pos <= |s|
      modifies this
      ensures r == ParseRedirs(s, old(pos)) && (r.Ok? ==> pos == r.pos)
    {
      var rs: seq<Redirection> := [];
      NothingYet(ParseRedirs(s, pos), ParseArgs(s, pos, 0));
      while true
        invariant pos <= |s| && MoreRedirs(rs, ParseRedirs(s, pos)) == ParseRedirs(s, old(pos))
        decreases |s| - pos
      {
        ghost var i := pos;
        SkipSame(s, i);
        var more := PeekAt("<>");
        if !more {
          assert rs + [] == rs;
          return Ok(rs, pos);
        }
        var t := GetToken();
        var f := GetToken();
        if f.kind != 'a' {
          return Fail(NoFile);
        }
        MoreRedirsStep(s, i, rs, t, f);
        rs := rs + [Redirection(Word(f.q, f.eq), t.kind != '<')];
      }
    }

    method Line() returns (r: Result<Cmd>)
      requires pos <= |s|
      modifies this
      ensures r == ParseLine(s, old(pos)) && (r.Ok? ==> pos == r.pos)
      decreases |s| - pos, 3
    {
      r := Piping();
      if r.Fail? {
        return;
      }
      var cmd := r.v;
      ghost var p := pos;
      var more := PeekAt("&");
      SkipSame(s, p);
      BacksSame(s, p, cmd);
      while more
        invariant p <= |s| && old(pos) <= pos <= |s| && Skip(s, pos) == pos && more == Peek(s, pos, "&")
        invariant Backs(s, pos, cmd) == Backs(s, p, r.v)
        decreases |s| - pos
      {
        var t := GetToken();
        cmd := Back(cmd);
        ghost var i := pos;
        SkipSame(s, i);
        BacksSame(s, i, cmd);
        more := PeekAt("&");
      }
      more := PeekAt(";");
      SkipSame(s, pos);
      if more {
        var t := GetToken();
        var d := Line();
        if d.Fail? {
          return d;
        }
        return Ok(List(cmd, d.v), pos);
      }
      return Ok(cmd, pos);
    }

    method Piping() returns (r: Result<Cmd>)
      requires pos <= |s|
      modifies this
      ensures r == ParsePipe(s, old(pos)) && (r.Ok? ==> pos == r.pos)
      decreases |s| - pos, 2
    {
      r := Executing();
      if r.Fail? {
        return;
      }
      ghost var p := pos;
      SkipSame(s, p);
      var more := PeekAt("|");
      if more {
        var t := GetToken();
        var d := Piping();
        if d.Fail? {
          return d;
        }
        return Ok(Pipe(r.v, d.v), pos);
      }
      return Ok(r.v, pos);
    }

    method Block() returns (r: Result<Cmd>)
      requires pos <= |s| && Peek(s, pos, "(")
      modifies this
      ensures r == ParseBlock(s, old(pos)) && (r.Ok? ==> pos == r.pos)
      decreases |s| - pos, 0
    {
      var t := GetToken();
      r := Line();
      if r.Fail? {
        return;
      }
      ghost var p := pos;
      SkipSame(s, p);
      var closed := PeekAt(")");
      if !closed {
        return Fail(NoParen);
      }
      t := GetToken();
      var rs := Redirs();
      if rs.Fail? {
        return Fail(rs.e);
      }
      return Ok(Wrap(r.v, rs.v), pos);
    }

    method Executing() returns (r: Result<Cmd>)
      requires pos <= |s|
      modifies this
      ensures r == ParseExec(s, old(pos)) && (r.Ok? ==> pos == r.pos)
      decreases |s| - pos, 1
    {
      ghost var i := pos;
      SkipSame(s, i);
      var block := PeekAt("(");
      if block {
        BlockSame(s, i);
        r := Block();
        return;
      }
      var first := Redirs();
      if first.Fail? {
        return Fail(first.e);
      }
      var a := Arguments();
      if a.Fail? {
        return Fail(a.e);
      }
      return Ok(Wrap(Exec(a.v.0), first.v + a.v.1), pos);
    }

    /** parseexec's loop. */
    method Arguments() returns (r: Result<(seq<Word>, seq<Redirection>)>)
      requires pos <= |s|
      modifies this
      ensures r == ParseArgs(s, old(pos), 0) && (r.Ok? ==> pos == r.pos)
    {
      var args: seq<Word>, rs: seq<Redirection> := [], [];
      NothingYet(ParseRedirs(s, pos), ParseArgs(s, pos, 0));
      var argc := 0;
      hide ParseArgs, MoreArgs, ParseRedirs;
      while true
        invariant pos <= |s| && argc < MAXARGS
        invariant MoreArgs(args, rs, ParseArgs(s, pos, argc)) == ParseArgs(s, old(pos), 0)
        decreases |s| - pos
      {
        ghost var i := pos;
        SkipSame(s, i);
        ArgsEnd(s, i, args, rs, argc);
        var stop := PeekAt("|)&;");
        if stop {
          return Ok((args, rs), pos);
        }
        var t := GetToken();
        if t.kind == NUL {
          return Ok((args, rs), pos);
        }
        if t.kind != 'a' {
          return Fail(Syntax);
        }
        ghost var n, args0 := argc, args;
        args := args + [Word(t.q, t.eq)];
        argc := argc + 1;
        if argc >= MAXARGS {
          return Fail(TooMany);
        }
        var more := Redirs();
        if more.Fail? {
          return Fail(more.e);
        }
        MoreArgsStep(s, i, args0, args, rs, t, more, n, argc);
        rs := rs + more.v;
      }
    }
  }

  /** How parseexec's loop ends. */
  lemma ArgsEnd(s: string, i: nat, args: seq<Word>, rs: seq<Redirection>, n: nat)
    requires i <= |s| && n < MAXARGS
    ensures var r, t := MoreArgs(args, rs, ParseArgs(s, i, n)), Next(s, i);
            && (Peek(s, i, "|)&;") ==> r == Ok((args, rs), Skip(s, i)))
            && (!Peek(s, i, "|)&;") && t.kind == NUL ==> r == Ok((args, rs), t.next))
            && (!Peek(s, i, "|)&;") && t.kind != NUL && t.kind != 'a' ==> r == Fail(Syntax))
            && (!Peek(s, i, "|)&;") && t.kind == 'a' && n + 1 >= MAXARGS ==> r == Fail(TooMany))
            && (!Peek(s, i, "|)&;") && t.kind == 'a' && n + 1 < MAXARGS && ParseRedirs(s, t.next).Fail? ==>
                  r == Fail(ParseRedirs(s, t.next).e))
  {
    assert args + [] == args && rs + [] == rs;
  }

  /** parsecmd, up to nulterminate. */
  method Parse(s: string) returns (r: Result<Cmd>)
    ensures r == ParseCmd(s)
  {
    var p := new Parser(s);
    r := p.Line();
    if r.Fail? {
      return;
    }
    var b := p.PeekAt("");
    if p.pos != |s| {
      return Fail(Leftovers);
    }
    return Ok(r.v, |s|);
  }

  lemma MoreRedirsStep(s: string, i: nat, rs: seq<Redirection>, t: Token, f: Token)
    requires i <= |s| && Peek(s, i, "<>") && t == Next(s, i) && f == Next(s, t.next) && f.kind == 'a'
    ensures MoreRedirs(rs, ParseRedirs(s, i)) ==
            MoreRedirs(rs + [Redirection(Word(f.q, f.eq), t.kind != '<')], ParseRedirs(s, f.next))
  {
    var r := Redirection(Word(f.q, f.eq), t.kind != '<');
    if ParseRedirs(s, f.next).Ok? {
      assert rs + ([r] + ParseRedirs(s, f.next).v) == (rs + [r]) + ParseRedirs(s, f.next).v;
    }
  }

  /** One more argument, with the redirections behind it. */
  lemma ArgsUnfold(s: string, i: nat, t: Token, more: Result<seq<Redirection>>, n: nat, m: nat)
    requires i <= |s| && !Peek(s, i, "|)&;") && t == Next(s, i) && t.kind == 'a' && m == n + 1 < MAXARGS
    requires more == ParseRedirs(s, t.next) && more.Ok?
    ensures ParseArgs(s, i, n) == MoreArgs([Word(t.q, t.eq)], more.v, ParseArgs(s, more.pos, m))
  {
  }

  lemma MoreArgsStep(s: string, i: nat, args: seq<Word>, args': seq<Word>, rs: seq<Redirection>, t: Token,
                     more: Result<seq<Redirection>>, n: nat, m: nat)
    requires i <= |s| && !Peek(s, i, "|)&;") && t == Next(s, i) && t.kind == 'a' && m == n + 1 < MAXARGS
    requires more == ParseRedirs(s, t.next) && more.Ok? && args' == args + [Word(t.q, t.eq)]
    ensures MoreArgs(args, rs, ParseArgs(s, i, n)) == MoreArgs(args', rs + more.v, ParseArgs(s, more.pos, m))
  {
    ArgsUnfold(s, i, t, more, n, m);
    hide ParseArgs, ParseRedirs, Next, Peek, MoreArgs;
    MoreArgsTwice(args, Word(t.q, t.eq), args', rs, more.v, ParseArgs(s, more.pos, m));
  }

  lemma MoreArgsTwice(args: seq<Word>, w: Word, args': seq<Word>, rs: seq<Redirection>, rs2: seq<Redirection>,
                      a: Result<(seq<Word>, seq<Redirection>)>)
    requires args' == args + [w]
    ensures MoreArgs(args, rs, MoreArgs([w], rs2, a)) == MoreArgs(args', rs + rs2, a)
  {
    if a.Ok? {
      assert args + ([w] + a.v.0) == args' + a.v.0;
      assert rs + (rs2 + a.v.1) == (rs + rs2) + a.v.1;
    }
  }

  lemma BacksSame(s: string, i: nat, c: Cmd)
    requires i <= |s|
    ensures Backs(s, Skip(s, i), c) == Backs(s, i, c)
  {
    SkipSame(s, i);
  }

  lemma BlockSame(s: string, i: nat)
    requires i <= |s| && Peek(s, i, "(")
    ensures Peek(s, Skip(s, i), "(") && ParseBlock(s, Skip(s, i)) == ParseBlock(s, i)
  {
    SkipSame(s, i);
  }

  // ---- nulterminate ----

  /** A word of c ends at k. */
  ghost predicate EndsAt(c: Cmd, k: nat) {
    exists w :: w in Words(c) && w.eq == k
  }

  /** nulterminate: a NUL at the end of every word of c, and no other change. */
  method NulTerminate(buf: array<char>, c: Cmd)
    requires forall w :: w in Words(c) ==> w.eq < buf.Length
    modifies buf
    ensures forall k :: 0 <= k < buf.Length ==> buf[k] == if EndsAt(c, k) then NUL else old(buf[k])
    decreases c
  {
    match c
    case Exec(args) =>
      var i := 0;
      while i < |args|
        invariant 0 <= i <= |args|
        invariant forall k :: 0 <= k < buf.Length ==>
              buf[k] == if (exists j :: 0 <= j < i && args[j].eq == k) then NUL else old(buf[k])
      {
        assert args[i] in Words(c);
        buf[args[i].eq] := NUL;
        i := i + 1;
      }
      forall k | 0 <= k < buf.Length ensures (exists j :: 0 <= j < |args| && args[j].eq == k) <==> EndsAt(c, k) {
        ArgEnds(args, k);
      }
    case Redir(d, r) =>
      NulTerminate(buf, d);
      assert r.file in Words(c);
      buf[r.file.eq] := NUL;
    case Pipe(l, r) =>
      NulTerminate(buf, l);
      NulTerminate(buf, r);
    case List(l, r) =>
      NulTerminate(buf, l);
      NulTerminate(buf, r);
    case Back(d) =>
      NulTerminate(buf, d);
  }

  lemma ArgEnds(args: seq<Word>, k: nat)
    ensures (exists j :: 0 <= j < |args| && args[j].eq == k) <==> EndsAt(Exec(args), k)
  {
    if EndsAt(Exec(args), k) {
      var w :| w in Words(Exec(args)) && w.eq == k;
      var j :| 0 <= j < |args| && args[j] == w;
    }
    if j :| 0 <= j < |args| && args[j].eq == k {
      assert args[j] in Words(Exec(args));
    }
  }

  /** parsecmd on a NUL-terminated line: every word of the command it returns is a C string that reads
      exactly as the word did. */
  method ParseCommand(buf: array<char>) returns (r: Result<Cmd>)
    requires buf.Length > 0 && buf[buf.Length - 1] == NUL && NoNul(buf[..buf.Length - 1])
    modifies buf
    ensures r == ParseCmd(old(buf[..buf.Length - 1]))
    ensures r.Ok? ==> forall w :: w in Words(r.v) ==>
              w.q < buf.Length && w.eq < buf.Length && CString(buf[..], w.q) == Text(old(buf[..buf.Length - 1]), w)
    ensures r.Ok? ==> CTree(buf[..], r.v) == Read(old(buf[..buf.Length - 1]), r.v)
  {
    var s := buf[..buf.Length - 1];
    r := Parse(s);
    if r.Fail? {
      return;
    }
    LinePlaced(s, 0);
    forall w | w in Words(r.v) ensures w.eq < buf.Length {
      assert PlacedWord(s, w);
    }
    NulTerminate(buf, r.v);
    ghost var after := buf[..];
    assert Terminated(s, r.v, after);
    forall w | w in Words(r.v) ensures w.q < buf.Length && w.eq < buf.Length && CString(after, w.q) == Text(s, w) {
      WordsAreStrings(s, r.v, after, w);
      assert PlacedWord(s, w);
    }
    SameTree(s, r.v, after);
  }

  /** The C string at the start of a word. */
  function CText(buf: string, w: Word): string {
    if w.q <= |buf| then CString(buf, w.q) else ""
  }

  /** The command as runcmd sees it: every word is the C string its pointer points to. */
  function CTree(buf: string, c: Cmd): Tree {
    match c
    case Exec(args) => Run(seq(|args|, k requires 0 <= k < |args| => CText(buf, args[k])))
    case Redir(d, r) => Redirected(CTree(buf, d), CText(buf, r.file), r.out)
    case Pipe(l, r) => Piped(CTree(buf, l), CTree(buf, r))
    case List(l, r) => Listed(CTree(buf, l), CTree(buf, r))
    case Back(d) => Background(CTree(buf, d))
  }

  lemma {:induction false} SameTree(s: string, c: Cmd, buf: string)
    requires forall w :: w in Words(c) ==> w.q <= |buf| && CString(buf, w.q) == Text(s, w)
    ensures CTree(buf, c) == Read(s, c)
  {
    match c
    case Exec(args) =>
      forall k | 0 <= k < |args| ensures CText(buf, args[k]) == Text(s, args[k]) {
        assert args[k] in Words(c);
      }
    case Redir(d, r) => SameTree(s, d, buf); assert r.file in Words(c);
    case Pipe(l, r) => SameTree(s, l, buf); SameTree(s, r, buf);
    case List(l, r) => SameTree(s, l, buf); SameTree(s, r, buf);
    case Back(d) => SameTree(s, d, buf);
  }
}
