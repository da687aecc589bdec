/** The shell's parser (sh.c).  A command line is a string without NULs; commands refer to their words
    by position, as the source's pointers do. */
module Shell {

  const MAXARGS := 10
  const NUL := '\0'

  predicate Ws(c: char) {
    c == ' ' || c == '\t' || c == '\r' || c == '\n' || c == '\U{0B}'
  }

  predicate Sym(c: char) {
    c == '<' || c == '|' || c == '>' || c == '&' || c == ';' || c == '(' || c == ')'
  }

  /** A character that can stand in a word. */
  predicate Plain(c: char) {
    !Ws(c) && !Sym(c) && c != NUL
  }

  predicate NoNul(s: string) {
    forall k :: 0 <= k < |s| ==> s[k] != NUL
  }

  // ---- Commands ----

  /** The word s[q..eq]. */
  datatype Word = Word(q: nat, eq: nat)

  /** A redirection: of output (file opened for writing, descriptor 1) or of input (reading, 0). */
  datatype Redirection = Redirection(file: Word, out: bool)

  datatype Cmd =
    | Exec(args: seq<Word>)
    | Redir(cmd: Cmd, r: Redirection)
    | Pipe(left: Cmd, right: Cmd)
    | List(left: Cmd, right: Cmd)
    | Back(cmd: Cmd)

  datatype Error = Syntax | NoFile | NoParen | TooMany | Leftovers

  datatype Result<T> = Ok(v: T, pos: nat) | Fail(e: Error)

  /** Redirections wrapped around a command, the last one outermost. */
  function Wrap(c: Cmd, rs: seq<Redirection>): Cmd {
    if rs == [] then c else Redir(Wrap(c, rs[..|rs| - 1]), rs[|rs| - 1])
  }

  // ---- Tokens ----

  function Skip(s: string, i: nat): (j: nat)
    requires i <= |s|
    ensures i <= j <= |s|
    ensures forall k :: i <= k < j ==> Ws(s[k])
    ensures j < |s| ==> !Ws(s[j])
    decreases |s| - i
  {
    if i < |s| && Ws(s[i]) then Skip(s, i + 1) else i
  }

  function WordEnd(s: string, i: nat): (j: nat)
    requires i <= |s|
    ensures i <= j <= |s|
    ensures forall k :: i <= k < j ==> !Ws(s[k]) && !Sym(s[k])
    ensures j < |s| ==> Ws(s[j]) || Sym(s[j])
    decreases |s| - i
  {
    if i < |s| && !Ws(s[i]) && !Sym(s[i]) then WordEnd(s, i + 1) else i
  }

  /** gettoken's results: the kind of token ('a' for a word, '+' for >>, NUL at the end, otherwise the
      symbol), where it starts and ends, and where the next one starts. */
  datatype Token = Token(kind: char, q: nat, eq: nat, next: nat)

  function TokenEnd(s: string, q: nat): (eq: nat)
    requires q <= |s|
    ensures q <= eq <= |s| && (q < |s| ==> q < eq || Ws(s[q]))
  {
    if q == |s| then q
    else if s[q] == '>' then if q + 1 < |s| && s[q + 1] == '>' then q + 2 else q + 1
    else if Sym(s[q]) then q + 1
    else WordEnd(s, q)
  }

  function TokenKind(s: string, q: nat): char
    requires q <= |s|
  {
    if q == |s| then NUL
    else if s[q] == '>' then if q + 1 < |s| && s[q + 1] == '>' then '+' else '>'
    else if Sym(s[q]) then s[q]
    else 'a'
  }

  function Next(s: string, i: nat): (t: Token)
    requires i <= |s|
    ensures i <= t.q <= t.eq <= t.next <= |s|
    ensures t.kind == NUL <==> t.q == |s|
    ensures t.kind != NUL ==> t.q < t.eq
  {
    var q := Skip(s, i);
    var eq := TokenEnd(s, q);
    Token(TokenKind(s, q), q, eq, Skip(s, eq))
  }

  /** peek: the next character, white space aside, is one of toks. */
  predicate Peek(s: string, i: nat, toks: string)
    requires i <= |s|
  {
    Skip(s, i) < |s| && s[Skip(s, i)] in toks
  }

  // ---- The grammar ----

  function ParseRedirs(s: string, i: nat): (r: Result<seq<Redirection>>)
    requires i <= |s|
    ensures r.Ok? ==> i <= r.pos <= |s|
    decreases |s| - i
  {
    if !Peek(s, i, "<>") then Ok([], Skip(s, i))
    else
      var t := Next(s, i);
      var f := Next(s, t.next);
      if f.kind != 'a' then Fail(NoFile)
      else
        match ParseRedirs(s, f.next)
        case Fail(e) => Fail(e)
        case Ok(rs, p) => Ok([Redirection(Word(f.q, f.eq), t.kind != '<')] + rs, p)
  }

  /** parseexec's loop, with n arguments read so far. */
  function ParseArgs(s: string, i: nat, n: nat): (r: Result<(seq<Word>, seq<Redirection>)>)
    requires i <= |s|
    ensures r.Ok? ==> i <= r.pos <= |s|
    decreases |s| - i
  {
    if Peek(s, i, "|)&;") then Ok(([], []), Skip(s, i))
    else
      var t := Next(s, i);
      if t.kind == NUL then Ok(([], []), t.next)
      else if t.kind != 'a' then Fail(Syntax)
      else if n + 1 >= MAXARGS then Fail(TooMany)
      else
        match ParseRedirs(s, t.next)
        case Fail(e) => Fail(e)
        case Ok(rs, p) =>
          match ParseArgs(s, p, n + 1)
          case Fail(e) => Fail(e)
          case Ok(v, p2) => Ok(([Word(t.q, t.eq)] + v.0, rs + v.1), p2)
  }

  function ParseExec(s: string, i: nat): (r: Result<Cmd>)
    requires i <= |s|
    ensures r.Ok? ==> i <= r.pos <= |s|
    decreases |s| - i, 1
  {
    if Peek(s, i, "(") then ParseBlock(s, i)
    else
      match ParseRedirs(s, i)
      case Fail(e) => Fail(e)
      case Ok(rs, p) =>
        match ParseArgs(s, p, 0)
        case Fail(e) => Fail(e)
        case Ok(v, p2) => Ok(Wrap(Exec(v.0), rs + v.1), p2)
  }

  function ParseBlock(s: string, i: nat): (r: Result<Cmd>)
    requires i <= |s| && Peek(s, i, "(")
    ensures r.Ok? ==> i <= r.pos <= |s|
    decreases |s| - i, 0
  {
    match ParseLine(s, Next(s, i).next)
    case Fail(e) => Fail(e)
    case Ok(c, p) =>
      if !Peek(s, p, ")") then Fail(NoParen)
      else
        match ParseRedirs(s, Next(s, p).next)
        case Fail(e) => Fail(e)
        case Ok(rs, p2) => Ok(Wrap(c, rs), p2)
  }

  function ParsePipe(s: string, i: nat): (r: Result<Cmd>)
    requires i <= |s|
    ensures r.Ok? ==> i <= r.pos <= |s|
    decreases |s| - i, 2
  {
    match ParseExec(s, i)
    case Fail(e) => Fail(e)
    case Ok(c, p) =>
      if !Peek(s, p, "|") then Ok(c, Skip(s, p))
      else
        match ParsePipe(s, Next(s, p).next)
        case Fail(e) => Fail(e)
        case Ok(d, p2) => Ok(Pipe(c, d), p2)
  }

  /** parseline's loop over "&". */
  function Backs(s: string, i: nat, c: Cmd): (r: (Cmd, nat))
    requires i <= |s|
    ensures i <= r.1 <= |s|
    decreases |s| - i
  {
    if Peek(s, i, "&") then Backs(s, Next(s, i).next, Back(c)) else (c, Skip(s, i))
  }

  function ParseLine(s: string, i: nat): (r: Result<Cmd>)
    requires i <= |s|
    ensures r.Ok? ==> i <= r.pos <= |s|
    decreases |s| - i, 3
  {
    match ParsePipe(s, i)
    case Fail(e) => Fail(e)
    case Ok(c, p) =>
      var b := Backs(s, p, c);
      if !Peek(s, b.1, ";") then Ok(b.0, b.1)
      else
        match ParseLine(s, Next(s, b.1).next)
        case Fail(e) => Fail(e)
        case Ok(d, p2) => Ok(List(b.0, d), p2)
  }

  function ParseCmd(s: string): (r: Result<Cmd>)
    ensures r.Ok? ==> r.pos == |s|
  {
    match ParseLine(s, 0)
    case Fail(e) => Fail(e)
    case Ok(c, p) => if Skip(s, p) != |s| then Fail(Leftovers) else Ok(c, |s|)
  }

  // ---- Words stay whole ----

  /** A word of s: plain characters up to one that is not, or to the end. */
  ghost predicate PlacedWord(s: string, w: Word) {
    && w.q < w.eq <= |s|
    && (forall k :: w.q <= k < w.eq ==> Plain(s[k]))
    && (w.eq < |s| ==> !Plain(s[w.eq]))
  }

  function Words(c: Cmd): set<Word> {
    match c
    case Exec(args) => set w | w in args
    case Redir(d, r) => Words(d) + {r.file}
    case Pipe(l, r) => Words(l) + Words(r)
    case List(l, r) => Words(l) + Words(r)
    case Back(d) => Words(d)
  }

  ghost predicate Placed(s: string, c: Cmd) {
    forall w :: w in Words(c) ==> PlacedWord(s, w)
  }

  lemma NextPlaced(s: string, i: nat)
    requires NoNul(s) && i <= |s| && Next(s, i).kind == 'a'
    ensures PlacedWord(s, Word(Next(s, i).q, Next(s, i).eq))
  {
  }

  ghost predicate WordsPlaced(s: string, ws: seq<Word>) {
    forall k :: 0 <= k < |ws| ==> PlacedWord(s, ws[k])
  }

  ghost predicate FilesPlaced(s: string, rs: seq<Redirection>) {
    forall k :: 0 <= k < |rs| ==> PlacedWord(s, rs[k].file)
  }

  lemma {:induction false} WrapPlaced(s: string, c: Cmd, rs: seq<Redirection>)
    requires Placed(s, c) && FilesPlaced(s, rs)
    ensures Placed(s, Wrap(c, rs))
    decreases |rs|
  {
    if rs != [] {
      WrapPlaced(s, c, rs[..|rs| - 1]);
    }
  }

  lemma {:induction false} RedirsPlaced(s: string, i: nat)
    requires NoNul(s) && i <= |s|
    ensures ParseRedirs(s, i).Ok? ==> FilesPlaced(s, ParseRedirs(s, i).v)
    decreases |s| - i
  {
    if Peek(s, i, "<>") {
      var f := Next(s, Next(s, i).next);
      if f.kind == 'a' {
        NextPlaced(s, Next(s, i).next);
        RedirsPlaced(s, f.next);
      }
    }
  }

  lemma NonePlaced(s: string)
    ensures WordsPlaced(s, []) && FilesPlaced(s, [])
  {
  }

  lemma BothPlaced(s: string, w: Word, ws: seq<Word>, rs: seq<Redirection>, rs': seq<Redirection>)
    requires PlacedWord(s, w) && WordsPlaced(s, ws) && FilesPlaced(s, rs) && FilesPlaced(s, rs')
    ensures WordsPlaced(s, [w] + ws) && FilesPlaced(s, rs + rs')
  {
    hide PlacedWord;
  }

  lemma {:induction false} ArgsPlaced(s: string, i: nat, n: nat)
    requires NoNul(s) && i <= |s|
    ensures ParseArgs(s, i, n).Ok? ==> WordsPlaced(s, ParseArgs(s, i, n).v.0) && FilesPlaced(s, ParseArgs(s, i, n).v.1)
    decreases |s| - i
  {
    NonePlaced(s);
    hide WordsPlaced, FilesPlaced, PlacedWord, ParseRedirs, Peek, NoNul, Next;
    if !Peek(s, i, "|)&;") {
      var t := Next(s, i);
      if t.kind == 'a' {
        NextPlaced(s, i);
        RedirsPlaced(s, t.next);
        var r := ParseRedirs(s, t.next);
        if r.Ok? {
          ArgsPlaced(s, r.pos, n + 1);
          var a := ParseArgs(s, r.pos, n + 1);
          if a.Ok? {
            BothPlaced(s, Word(t.q, t.eq), a.v.0, r.v, a.v.1);
          }
        }
      }
    }
  }

  lemma {:induction false} ExecPlaced(s: string, i: nat)
    requires NoNul(s) && i <= |s|
    ensures ParseExec(s, i).Ok? ==> Placed(s, ParseExec(s, i).v)
    decreases |s| - i, 1
  {
    if Peek(s, i, "(") {
      BlockPlaced(s, i);
    } else {
      RedirsPlaced(s, i);
      if ParseRedirs(s, i).Ok? {
        ArgsPlaced(s, ParseRedirs(s, i).pos, 0);
        var a := ParseArgs(s, ParseRedirs(s, i).pos, 0);
        if a.Ok? {
          assert FilesPlaced(s, ParseRedirs(s, i).v + a.v.1);
          assert Placed(s, Exec(a.v.0));
          WrapPlaced(s, Exec(a.v.0), ParseRedirs(s, i).v + a.v.1);
        }
      }
    }
  }

  lemma {:induction false} BlockPlaced(s: string, i: nat)
    requires NoNul(s) && i <= |s| && Peek(s, i, "(")
    ensures ParseBlock(s, i).Ok? ==> Placed(s, ParseBlock(s, i).v)
    decreases |s| - i, 0
  {
    LinePlaced(s, Next(s, i).next);
    var l := ParseLine(s, Next(s, i).next);
    if l.Ok? && Peek(s, l.pos, ")") {
      RedirsPlaced(s, Next(s, l.pos).next);
      var r := ParseRedirs(s, Next(s, l.pos).next);
      if r.Ok? {
        WrapPlaced(s, l.v, r.v);
      }
    }
  }

  lemma {:induction false} PipePlaced(s: string, i: nat)
    requires NoNul(s) && i <= |s|
    ensures ParsePipe(s, i).Ok? ==> Placed(s, ParsePipe(s, i).v)
    decreases |s| - i, 2
  {
    ExecPlaced(s, i);
    var x := ParseExec(s, i);
    if x.Ok? && Peek(s, x.pos, "|") {
      PipePlaced(s, Next(s, x.pos).next);
    }
  }

  lemma {:induction false} BacksPlaced(s: string, i: nat, c: Cmd)
    requires i <= |s| && Placed(s, c)
    ensures Placed(s, Backs(s, i, c).0)
    decreases |s| - i
  {
    if Peek(s, i, "&") {
      BacksPlaced(s, Next(s, i).next, Back(c));
    }
  }

  lemma {:induction false} LinePlaced(s: string, i: nat)
    requires NoNul(s) && i <= |s|
    ensures ParseLine(s, i).Ok? ==> Placed(s, ParseLine(s, i).v)
    decreases |s| - i, 3
  {
    PipePlaced(s, i);
    var x := ParsePipe(s, i);
    if x.Ok? {
      BacksPlaced(s, x.pos, x.v);
      var b := Backs(s, x.pos, x.v);
      if Peek(s, b.1, ";") {
        LinePlaced(s, Next(s, b.1).next);
      }
    }
  }

  /** The C string at q: the characters up to the first NUL. */
  function CString(buf: string, q: nat): string
    requires q <= |buf|
    decreases |buf| - q
  {
    if q == |buf| || buf[q] == NUL then "" else [buf[q]] + CString(buf, q + 1)
  }

  /** The input line, with its NUL, after nulterminate has ended every word of c. */
  ghost predicate Terminated(s: string, c: Cmd, buf: string) {
    && |buf| == |s| + 1
    && (forall k :: 0 <= k <= |s| ==>
          buf[k] == if k == |s| || (exists w :: w in Words(c) && w.eq == k) then NUL else s[k])
  }

  lemma {:induction false} CStringIs(buf: string, q: nat, eq: nat)
    requires q <= eq < |buf| && buf[eq] == NUL && forall k :: q <= k < eq ==> buf[k] != NUL
    ensures CString(buf, q) == buf[q..eq]
    decreases eq - q
  {
    if q < eq {
      CStringIs(buf, q + 1, eq);
    }
  }

  /** No NUL lands inside a word: after nulterminate each word is a C string of its own. */
  lemma WordsAreStrings(s: string, c: Cmd, buf: string, w: Word)
    requires NoNul(s) && Placed(s, c) && Terminated(s, c, buf) && w in Words(c)
    ensures w.q < |buf| && w.eq <= |s| && CString(buf, w.q) == s[w.q..w.eq]
  {
    assert PlacedWord(s, w);
    forall k | w.q <= k < w.eq ensures buf[k] == s[k] != NUL {
      forall x | x in Words(c) ensures x.eq != k {
        assert PlacedWord(s, x);
      }
    }
    CStringIs(buf, w.q, w.eq);
    assert buf[w.q..w.eq] == s[w.q..w.eq];
  }

  // ---- Printing ----

  /** A command by its words. */
  datatype Tree =
    | Run(args: seq<string>)
    | Redirected(cmd: Tree, file: string, out: bool)
    | Piped(left: Tree, right: Tree)
    | Listed(left: Tree, right: Tree)
    | Background(cmd: Tree)

  function Text(s: string, w: Word): string {
    if w.q <= w.eq <= |s| then s[w.q..w.eq] else ""
  }

  function Read(s: string, c: Cmd): Tree {
    match c
    case Exec(args) => Run(seq(|args|, k requires 0 <= k < |args| => Text(s, args[k])))
    case Redir(d, r) => Redirected(Read(s, d), Text(s, r.file), r.out)
    case Pipe(l, r) => Piped(Read(s, l), Read(s, r))
    case List(l, r) => Listed(Read(s, l), Read(s, r))
    case Back(d) => Background(Read(s, d))
  }

  predicate PlainWord(x: string) {
    x != "" && forall k :: 0 <= k < |x| ==> Plain(x[k])
  }

  /** A tree the shell can express: plain words, and at most MAXARGS - 1 arguments to a command. */
  predicate Printable(t: Tree) {
    match t
    case Run(args) => |args| < MAXARGS && forall k :: 0 <= k < |args| ==> PlainWord(args[k])
    case Redirected(c, file, _) => Printable(c) && PlainWord(file)
    case Piped(l, r) => Printable(l) && Printable(r)
    case Listed(l, r) => Printable(l) && Printable(r)
    case Background(c) => Printable(c)
  }

  function Join(args: seq<string>): string {
    if args == [] then "" else if |args| == 1 then args[0] else args[0] + " " + Join(args[1..])
  }

  /** x in parentheses, then tail. */
  function Parens(x: string, tail: string): string {
    ['('] + (x + ([')'] + tail))
  }

  /** The fully parenthesised form. */
  function Print(t: Tree): string {
    match t
    case Run(args) => Join(args)
    case Redirected(c, file, out) => Parens(Print(c), [if out then '>' else '<'] + file)
    case Piped(l, r) => Parens(Print(l), ['|'] + Parens(Print(r), []))
    case Listed(l, r) => Parens(Print(l), [';'] + Parens(Print(r), []))
    case Background(c) => Parens(Print(c), ['&'])
  }

  // ---- Where the printed characters stand ----

  /** x stands at position i of s. */
  predicate At(s: string, i: nat, x: string) {
    i + |x| <= |s| && forall k :: 0 <= k < |x| ==> s[i + k] == x[k]
  }

  function JoinLen(args: seq<string>): nat {
    if args == [] then 0 else if |args| == 1 then |args[0]| else |args[0]| + 1 + JoinLen(args[1..])
  }

  function Len(t: Tree): nat {
    match t
    case Run(args) => JoinLen(args)
    case Redirected(c, file, out) => Len(c) + 3 + |file|
    case Piped(l, r) => Len(l) + Len(r) + 5
    case Listed(l, r) => Len(l) + Len(r) + 5
    case Background(c) => Len(c) + 3
  }

  /** The arguments stand in s from i on, a blank between each two. */
  predicate ArgsLaid(s: string, i: nat, args: seq<string>)
    decreases |args|
  {
    if args == [] then i <= |s|
    else if |args| == 1 then At(s, i, args[0])
    else
      && At(s, i, args[0]) && i + |args[0]| < |s| && s[i + |args[0]|] == ' '
      && ArgsLaid(s, i + |args[0]| + 1, args[1..])
  }

  /** The printed form of t stands in s from i on. */
  predicate Laid(s: string, i: nat, t: Tree)
    decreases t, 0
  {
    match t
    case Run(args) => ArgsLaid(s, i, args)
    case Redirected(c, file, out) =>
      var j := i + 1 + Len(c);
      InParens(s, i, c, j) && j + 1 < |s| && s[j + 1] == (if out then '>' else '<') && At(s, j + 2, file)
    case Piped(l, r) =>
      var j := i + 1 + Len(l);
      InParens(s, i, l, j) && j + 1 < |s| && s[j + 1] == '|' && InParens(s, j + 2, r, j + 3 + Len(r))
    case Listed(l, r) =>
      var j := i + 1 + Len(l);
      InParens(s, i, l, j) && j + 1 < |s| && s[j + 1] == ';' && InParens(s, j + 2, r, j + 3 + Len(r))
    case Background(c) =>
      var j := i + 1 + Len(c);
      InParens(s, i, c, j) && j + 1 < |s| && s[j + 1] == '&'
  }

  /** t stands behind the parenthesis at i, up to the closing one at j. */
  predicate InParens(s: string, i: nat, t: Tree, j: nat)
    decreases t, 1
  {
    j == i + 1 + Len(t) && j < |s| && s[i] == '(' && s[j] == ')' && Laid(s, i + 1, t)
  }

  lemma AtSplit(s: string, i: nat, x: string, y: string)
    requires At(s, i, x + y)
    ensures At(s, i, x) && At(s, i + |x|, y)
  {
    forall k | 0 <= k < |x| ensures s[i + k] == x[k] {
      assert (x + y)[k] == x[k];
    }
    forall k | 0 <= k < |y| ensures s[i + |x| + k] == y[k] {
      assert s[i + (|x| + k)] == (x + y)[|x| + k];
    }
  }

  lemma AtChar(s: string, i: nat, c: char, x: string)
    requires At(s, i, [c] + x)
    ensures i < |s| && s[i] == c && At(s, i + 1, x)
  {
    AtSplit(s, i, [c], x);
    assert s[i + 0] == [c][0];
  }

  lemma {:induction false} JoinLaid(s: string, i: nat, args: seq<string>)
    requires At(s, i, Join(args))
    ensures |Join(args)| == JoinLen(args) && ArgsLaid(s, i, args)
    decreases |args|
  {
    if |args| > 1 {
      assert Join(args) == args[0] + ([' '] + Join(args[1..]));
      AtSplit(s, i, args[0], [' '] + Join(args[1..]));
      AtChar(s, i + |args[0]|, ' ', Join(args[1..]));
      JoinLaid(s, i + |args[0]| + 1, args[1..]);
    }
  }

  /** A command in parentheses, and what follows. */
  lemma ParensAt(s: string, i: nat, t: Tree, tail: string)
    requires At(s, i, Parens(Print(t), tail))
    ensures i < |s| && s[i] == '(' && At(s, i + 1, Print(t))
    ensures var j := i + 1 + |Print(t)|; j < |s| && s[j] == ')' && At(s, j + 1, tail)
  {
    AtChar(s, i, '(', Print(t) + ([')'] + tail));
    AtSplit(s, i + 1, Print(t), [')'] + tail);
    AtChar(s, i + 1 + |Print(t)|, ')', tail);
  }

  lemma {:induction false} PrintLaid(s: string, i: nat, t: Tree)
    requires At(s, i, Print(t))
    ensures |Print(t)| == Len(t) && Laid(s, i, t)
    decreases t
  {
    hide At, Join, Print;
    match t
    case Run(args) => PrintRun(args); JoinLaid(s, i, args);
    case Redirected(c, file, out) =>
      RedirectedParts(s, i, c, file, out);
      PrintLaid(s, i + 1, c);
    case Piped(l, r) =>
      PairPrinted(t, l, r, '|');
      PairLaid(s, i, l, r, '|');
      PrintLaid(s, i + 1, l);
      PrintLaid(s, i + 4 + |Print(l)|, r);
    case Listed(l, r) =>
      PairPrinted(t, l, r, ';');
      PairLaid(s, i, l, r, ';');
      PrintLaid(s, i + 1, l);
      PrintLaid(s, i + 4 + |Print(l)|, r);
    case Background(c) =>
      BackgroundParts(s, i, c);
      PrintLaid(s, i + 1, c);
  }

  lemma RedirectedParts(s: string, i: nat, c: Tree, file: string, out: bool)
    requires At(s, i, Print(Redirected(c, file, out)))
    ensures i < |s| && s[i] == '(' && At(s, i + 1, Print(c))
    ensures var j := i + 1 + |Print(c)|;
            && j + 1 < |s| && s[j] == ')' && s[j + 1] == (if out then '>' else '<')
            && At(s, j + 2, file)
    ensures |Print(Redirected(c, file, out))| == |Print(c)| + 3 + |file|
  {
    var op := if out then '>' else '<';
    ParensAt(s, i, c, [op] + file);
    AtChar(s, i + 2 + |Print(c)|, op, file);
  }

  lemma BackgroundParts(s: string, i: nat, c: Tree)
    requires At(s, i, Print(Background(c)))
    ensures i < |s| && s[i] == '(' && At(s, i + 1, Print(c))
    ensures var j := i + 1 + |Print(c)|; j + 1 < |s| && s[j] == ')' && s[j + 1] == '&'
    ensures |Print(Background(c))| == |Print(c)| + 3
  {
    ParensAt(s, i, c, ['&']);
    assert ['&'] == ['&'] + [];
    AtChar(s, i + 2 + |Print(c)|, '&', []);
  }

  lemma PrintRun(args: seq<string>)
    ensures Print(Run(args)) == Join(args)
  {
  }

  lemma PairPrinted(t: Tree, l: Tree, r: Tree, op: char)
    requires (t == Piped(l, r) && op == '|') || (t == Listed(l, r) && op == ';')
    ensures Print(t) == Parens(Print(l), [op] + Parens(Print(r), []))
    ensures |Print(t)| == |Print(l)| + |Print(r)| + 5
  {
  }

  lemma PairLaid(s: string, i: nat, l: Tree, r: Tree, op: char)
    requires At(s, i, Parens(Print(l), [op] + Parens(Print(r), [])))
    ensures i < |s| && s[i] == '(' && At(s, i + 1, Print(l))
    ensures var j := i + 1 + |Print(l)|;
            && j + 2 < |s| && s[j] == ')' && s[j + 1] == op && s[j + 2] == '(' && At(s, j + 3, Print(r))
            && j + 3 + |Print(r)| < |s| && s[j + 3 + |Print(r)|] == ')'
  {
    hide At, Print, Parens;
    var right := Parens(Print(r), []);
    ParensAt(s, i, l, [op] + right);
    AtChar(s, i + 2 + |Print(l)|, op, right);
    ParensAt(s, i + 3 + |Print(l)|, r, []);
  }

  // ---- Parsing what was printed ----

  /** Position j is the end of s, or a closing parenthesis. */
  predicate Stop(s: string, j: nat) {
    j == |s| || (j < |s| && s[j] == ')')
  }

  lemma SkipNone(s: string, i: nat)
    requires i <= |s| && (i == |s| || !Ws(s[i]))
    ensures Skip(s, i) == i
  {
  }

  /** A one-character symbol, with no white space around it. */
  lemma SymbolAt(s: string, i: nat, next: nat)
    requires i < |s| && Sym(s[i]) && next == i + 1 && (next == |s| || !Ws(s[next]))
    requires s[i] == '>' ==> next == |s| || s[next] != '>'
    ensures Skip(s, i) == i && Skip(s, next) == next && Next(s, i) == Token(s[i], i, next, next)
  {
    SkipNone(s, i);
    SkipNone(s, next);
  }

  lemma {:induction false} WordEndIs(s: string, i: nat, j: nat)
    requires i <= j <= |s| && (forall k :: i <= k < j ==> Plain(s[k])) && (j == |s| || !Plain(s[j])) && NoNul(s)
    ensures WordEnd(s, i) == j
    decreases j - i
  {
    if i < j {
      WordEndIs(s, i + 1, j);
    }
  }

  /** A word, followed by something that is not part of it. */
  lemma WordAt(s: string, i: nat, x: string, j: nat)
    requires NoNul(s) && At(s, i, x) && PlainWord(x) && j == i + |x| && (j == |s| || !Plain(s[j]))
    ensures Plain(s[i]) && Skip(s, i) == i && Next(s, i) == Token('a', i, j, Skip(s, j)) && Text(s, Word(i, j)) == x
  {
    forall k | i <= k < j ensures Plain(s[k]) {
      assert s[i + (k - i)] == x[k - i];
    }
    SkipNone(s, i);
    WordEndIs(s, i, j);
    assert s[i..j] == x;
  }

  lemma StopPeeks(s: string, j: nat)
    requires j <= |s| && Stop(s, j)
    ensures Skip(s, j) == j && (j < |s| ==> !Plain(s[j]) && !Ws(s[j]))
    ensures !Peek(s, j, "<>") && !Peek(s, j, "|") && !Peek(s, j, "&") && !Peek(s, j, ";") && !Peek(s, j, "(")
    ensures Peek(s, j, "|)&;") || j == |s|
  {
    SkipNone(s, j);
  }

  // ---- Arguments ----

  /** ParseArgs reads exactly args, up to position p. */
  ghost predicate ArgsRead(s: string, i: nat, n: nat, args: seq<string>, p: nat) {
    && i <= |s|
    && var r := ParseArgs(s, i, n);
       && r.Ok? && r.pos == p && r.v.1 == [] && |r.v.0| == |args|
       && forall k :: 0 <= k < |args| ==> Text(s, r.v.0[k]) == args[k]
  }

  lemma NoArgs(s: string, i: nat, n: nat)
    requires i <= |s| && Stop(s, i)
    ensures ArgsRead(s, i, n, [], i)
  {
    StopPeeks(s, i);
  }

  lemma ArgsStep(s: string, i: nat, j: nat, n: nat, m: nat, p: nat)
    requires i < j <= p <= |s| && Next(s, i) == Token('a', i, j, p) && Skip(s, i) == i && Plain(s[i])
    requires m == n + 1 < MAXARGS
    requires Skip(s, p) == p && !Peek(s, p, "<>") && ParseArgs(s, p, m).Ok?
    ensures ParseArgs(s, i, n) ==
          Ok(([Word(i, j)] + ParseArgs(s, p, m).v.0, ParseArgs(s, p, m).v.1), ParseArgs(s, p, m).pos)
  {
    assert ParseRedirs(s, p) == Ok([], p);
    assert [] + ParseArgs(s, p, m).v.1 == ParseArgs(s, p, m).v.1;
  }

  lemma ArgsCons(s: string, i: nat, j: nat, args: seq<string>, n: nat, m: nat, p: nat, e: nat)
    requires NoNul(s) && args != [] && At(s, i, args[0]) && PlainWord(args[0]) && j == i + |args[0]|
    requires (j == |s| || !Plain(s[j]))
    requires m == n + 1 < MAXARGS && p == Skip(s, j) && !Peek(s, p, "<>") && ArgsRead(s, p, m, args[1..], e)
    ensures ArgsRead(s, i, n, args, e)
  {
    WordAt(s, i, args[0], j);
    SkipNone(s, p);
    ArgsStep(s, i, j, n, m, p);
    TextsCons(s, Word(i, j), ParseArgs(s, p, m).v.0, args);
    hide ParseArgs, Peek, Skip, Plain, At, Text, PlainWord, NoNul;
  }

  lemma TextsCons(s: string, w: Word, ws: seq<Word>, args: seq<string>)
    requires |args| == |ws| + 1 && Text(s, w) == args[0] && forall k :: 0 <= k < |ws| ==> Text(s, ws[k]) == args[1..][k]
    ensures forall k :: 0 <= k < |args| ==> Text(s, ([w] + ws)[k]) == args[k]
  {
    hide Text;
    forall k | 0 < k < |args| ensures Text(s, ([w] + ws)[k]) == args[k] {
      assert ([w] + ws)[k] == ws[k - 1] && args[k] == args[1..][k - 1];
    }
  }

  /** The arguments of a simple command. */
  lemma {:induction false} ArgsAt(s: string, i: nat, args: seq<string>, n: nat, e: nat)
    requires NoNul(s) && ArgsLaid(s, i, args) && e == i + JoinLen(args) && e <= |s| && Stop(s, e)
    requires n + |args| < MAXARGS
    requires forall k :: 0 <= k < |args| ==> PlainWord(args[k])
    ensures ArgsRead(s, i, n, args, e) && (args != [] ==> i < |s| && Plain(s[i]))
    decreases |args|
  {
    hide ArgsRead, Plain, Stop;
    if args == [] {
      NoArgs(s, i, n);
    } else {
      var j, m, rest := i + |args[0]|, n + 1, args[1..];
      assert PlainWord(args[0]);
      if |args| == 1 {
        StopPeeks(s, j);
        NoArgs(s, j, m);
        ArgsCons(s, i, j, args, n, m, j, e);
      } else {
        ArgsAt(s, j + 1, rest, m, e);
        BlankAt(s, j, j + 1);
        ArgsCons(s, i, j, args, n, m, j + 1, e);
      }
      PlainFirst(s, i, args[0]);
    }
  }

  lemma PlainFirst(s: string, i: nat, x: string)
    requires At(s, i, x) && PlainWord(x)
    ensures i < |s| && Plain(s[i])
  {
    assert s[i + 0] == x[0];
  }

  /** A blank between two words. */
  lemma BlankAt(s: string, j: nat, next: nat)
    requires next == j + 1 < |s| && s[j] == ' ' && Plain(s[next])
    ensures Skip(s, j) == next && !Plain(s[j]) && !Peek(s, next, "<>")
  {
    SkipNone(s, next);
  }

  // ---- Commands ----

  /** The parse r read the tree t, up to position p. */
  ghost predicate Reads(r: Result<Cmd>, s: string, t: Tree, p: nat) {
    r.Ok? && r.pos == p && Read(s, r.v) == t
  }

  /** A command that ends the line, or its block. */
  lemma LineStop(s: string, i: nat, c: Cmd, p: nat)
    requires i <= |s| && p <= |s| && ParseExec(s, i) == Ok(c, p) && Stop(s, p)
    ensures ParsePipe(s, i) == Ok(c, p) && ParseLine(s, i) == Ok(c, p)
  {
    StopPeeks(s, p);
    assert ParsePipe(s, i) == Ok(c, p);
    assert Backs(s, p, c) == (c, p);
  }

  lemma RunExec(s: string, i: nat, args: seq<string>, p: nat)
    requires ArgsRead(s, i, 0, args, p) && !Peek(s, i, "<>") && !Peek(s, i, "(") && Skip(s, i) == i
    ensures Reads(ParseExec(s, i), s, Run(args), p)
  {
    assert ParseRedirs(s, i) == Ok([], i);
    var a := ParseArgs(s, i, 0);
    assert [] + a.v.1 == [];
    assert ParseExec(s, i) == Ok(Exec(a.v.0), p);
    assert Read(s, Exec(a.v.0)).args == args;
  }

  lemma RunAt(s: string, i: nat, args: seq<string>, p: nat)
    requires NoNul(s) && Printable(Run(args)) && ArgsLaid(s, i, args) && p == i + JoinLen(args) && p <= |s|
    requires Stop(s, p)
    ensures i <= |s| && Reads(ParseLine(s, i), s, Run(args), p) && (i < |s| ==> !Ws(s[i]))
  {
    ArgsAt(s, i, args, 0, p);
    if args == [] {
      StopPeeks(s, i);
    } else {
      SkipNone(s, i);
    }
    RunExec(s, i, args, p);
    LineStop(s, i, ParseExec(s, i).v, p);
  }

  /** A command in parentheses from i to j, before any redirections of it. */
  lemma BlockAt(s: string, i: nat, j: nat, e: nat, v: Cmd, rs: seq<Redirection>, p: nat)
    requires j < |s| && i + 1 <= j && s[i] == '(' && s[j] == ')' && !Ws(s[i + 1]) && e == j + 1
    requires (e == |s| || !Ws(s[e]))
    requires ParseLine(s, i + 1) == Ok(v, j) && ParseRedirs(s, e) == Ok(rs, p)
    ensures ParseExec(s, i) == Ok(Wrap(v, rs), p)
  {
    SymbolAt(s, i, i + 1);
    SymbolAt(s, j, e);
    hide ParseLine, ParseRedirs;
    assert ParseBlock(s, i) == Ok(Wrap(v, rs), p);
  }

  /** A command in parentheses followed by something other than a redirection. */
  lemma PlainBlock(s: string, i: nat, c: Tree, j: nat, e: nat) returns (v: Cmd)
    requires j < |s| && i + 1 <= j && s[i] == '(' && s[j] == ')' && !Ws(s[i + 1]) && e == j + 1
    requires e == |s| || (!Ws(s[e]) && s[e] != '<' && s[e] != '>')
    requires Reads(ParseLine(s, i + 1), s, c, j)
    ensures Read(s, v) == c && Skip(s, e) == e && ParseExec(s, i) == Ok(v, e)
    ensures (e == |s| || s[e] != '|') ==> ParsePipe(s, i) == Ok(v, e)
    ensures Stop(s, e) ==> ParseLine(s, i) == Ok(v, e)
  {
    v := ParseLine(s, i + 1).v;
    SkipNone(s, e);
    assert ParseRedirs(s, e) == Ok([], e);
    hide Read, ParseRedirs, ParseLine, ParseExec;
    BlockAt(s, i, j, e, v, [], e);
    if Stop(s, e) {
      LineStop(s, i, v, e);
    }
  }

  /** One redirection, then the end of the command. */
  lemma RedirAt(s: string, e: nat, next: nat, file: string, out: bool, p: nat)
    requires NoNul(s) && next == e + 1 < |s| && s[e] == (if out then '>' else '<') && At(s, next, file)
    requires PlainWord(file)
    requires p == next + |file| && p <= |s| && Stop(s, p)
    ensures ParseRedirs(s, e) == Ok([Redirection(Word(next, p), out)], p) && Text(s, Word(next, p)) == file
  {
    StopPeeks(s, p);
    WordAt(s, next, file, p);
    SymbolAt(s, e, next);
    assert ParseRedirs(s, p) == Ok([], p);
    var r := Redirection(Word(next, p), out);
    assert [r] + [] == [r];
    assert Peek(s, e, "<>");
  }

  lemma RedirectedAt(s: string, i: nat, c: Tree, file: string, out: bool, j: nat, e: nat, p: nat)
    requires NoNul(s) && PlainWord(file) && e == j + 1 && e + 1 < |s| && i + 1 <= j && s[i] == '(' && s[j] == ')'
    requires !Ws(s[i + 1])
    requires s[e] == (if out then '>' else '<') && At(s, e + 1, file) && p == e + 1 + |file| && p <= |s| && Stop(s, p)
    requires Reads(ParseLine(s, i + 1), s, c, j)
    ensures Reads(ParseLine(s, i), s, Redirected(c, file, out), p)
  {
    hide Read, ParseRedirs, ParseLine, ParsePipe, ParseBlock, ParseExec, At, PlainWord, NoNul, Text, Wrap, Skip, Stop;
    var v, r := ParseLine(s, i + 1).v, Redirection(Word(e + 1, p), out);
    WrapOne(v, r);
    RedirAt(s, e, e + 1, file, out, p);
    BlockAt(s, i, j, e, v, [r], p);
    LineStop(s, i, Redir(v, r), p);
    ReadRedir(s, v, r);
  }

  lemma WrapOne(v: Cmd, r: Redirection)
    ensures Wrap(v, [r]) == Redir(v, r)
  {
    assert [r][..0] == [];
  }

  lemma ReadRedir(s: string, v: Cmd, r: Redirection)
    ensures Read(s, Redir(v, r)) == Redirected(Read(s, v), Text(s, r.file), r.out)
  {
  }

  lemma PipeStep(s: string, i: nat, e: nat, next: nat, p: nat, v: Cmd, w: Cmd)
    requires i <= |s| && e < |s| && s[e] == '|' && ParseExec(s, i) == Ok(v, e) && Skip(s, e) == e
    requires next <= |s| && Next(s, e).next == next && ParsePipe(s, next) == Ok(w, p) && p <= |s| && Stop(s, p)
    ensures ParseLine(s, i) == Ok(Pipe(v, w), p)
  {
    StopPeeks(s, p);
    assert ParsePipe(s, i) == Ok(Pipe(v, w), p);
    assert Backs(s, p, Pipe(v, w)) == (Pipe(v, w), p);
  }

  lemma ListStep(s: string, i: nat, e: nat, next: nat, p: nat, v: Cmd, w: Cmd)
    requires i <= |s| && e < |s| && s[e] == ';' && ParsePipe(s, i) == Ok(v, e) && Skip(s, e) == e
    requires next <= |s| && Next(s, e).next == next && ParseLine(s, next) == Ok(w, p)
    ensures ParseLine(s, i) == Ok(List(v, w), p)
  {
    assert Backs(s, e, v) == (v, e);
  }

  lemma BackStep(s: string, i: nat, e: nat, p: nat, v: Cmd)
    requires i <= |s| && e < |s| && s[e] == '&' && ParsePipe(s, i) == Ok(v, e) && Skip(s, e) == e
    requires p <= |s| && Next(s, e).next == p && Stop(s, p)
    ensures ParseLine(s, i) == Ok(Back(v), p)
  {
    StopPeeks(s, p);
    assert Backs(s, p, Back(v)) == (Back(v), p);
    assert Backs(s, e, v) == Backs(s, p, Back(v));
  }

  lemma ReadParts(s: string, v: Cmd, w: Cmd)
    ensures Read(s, Back(v)) == Background(Read(s, v))
    ensures Read(s, Pipe(v, w)) == Piped(Read(s, v), Read(s, w))
    ensures Read(s, List(v, w)) == Listed(Read(s, v), Read(s, w))
  {
  }

  /** Two commands in parentheses with op, a pipe or a semicolon, between them. */
  lemma PairAt(s: string, i: nat, l: Tree, r: Tree, op: char, j: nat, e: nat, f: nat, k: nat, p: nat)
    requires e == j + 1 && f == e + 1 && f + 1 <= k < |s| && p == k + 1 && i + 1 <= j && (op == '|' || op == ';')
    requires Stop(s, p)
    requires s[i] == '(' && s[j] == ')' && !Ws(s[i + 1]) && s[e] == op && s[f] == '(' && s[k] == ')' && !Ws(s[f + 1])
    requires Reads(ParseLine(s, i + 1), s, l, j) && Reads(ParseLine(s, f + 1), s, r, k)
    ensures Reads(ParseLine(s, i), s, if op == '|' then Piped(l, r) else Listed(l, r), p)
  {
    SymbolAt(s, e, f);
    StopPeeks(s, p);
    hide ParseLine, ParsePipe, ParseExec, Skip, Stop, Read;
    var v := PlainBlock(s, i, l, j, e);
    var w := PlainBlock(s, f, r, k, p);
    ReadParts(s, v, w);
    if op == '|' {
      PipeStep(s, i, e, f, p, v, w);
    } else {
      ListStep(s, i, e, f, p, v, w);
    }
  }

  lemma BackgroundAt(s: string, i: nat, c: Tree, j: nat, e: nat, p: nat)
    requires e == j + 1 && e < |s| && p == e + 1 && i + 1 <= j && Stop(s, p)
    requires s[i] == '(' && s[j] == ')' && !Ws(s[i + 1]) && s[e] == '&' && Reads(ParseLine(s, i + 1), s, c, j)
    ensures Reads(ParseLine(s, i), s, Background(c), p)
  {
    StopPeeks(s, p);
    SymbolAt(s, e, p);
    hide ParseLine, ParsePipe, ParseExec, Skip, Stop, Read;
    var v := PlainBlock(s, i, c, j, e);
    BackStep(s, i, e, p, v);
    ReadParts(s, v, v);
  }

  /** The printed form parses to the tree it came from. */
  lemma {:induction false} LineAt(s: string, i: nat, t: Tree, p: nat)
    requires NoNul(s) && Printable(t) && Laid(s, i, t) && p == i + Len(t) && p <= |s| && Stop(s, p)
    ensures i <= |s| && Reads(ParseLine(s, i), s, t, p) && (i < |s| ==> !Ws(s[i]))
    decreases t
  {
    hide ParseLine, Reads, NoNul, At;
    match t
    case Run(args) => RunAt(s, i, args, p);
    case Redirected(c, file, out) =>
      var j := i + 1 + Len(c);
      LineAt(s, i + 1, c, j);
      RedirectedAt(s, i, c, file, out, j, j + 1, p);
    case Piped(l, r) =>
      var j, k := i + 1 + Len(l), i + 4 + Len(l) + Len(r);
      LineAt(s, i + 1, l, j);
      LineAt(s, j + 3, r, k);
      PairAt(s, i, l, r, '|', j, j + 1, j + 2, k, p);
    case Listed(l, r) =>
      var j, k := i + 1 + Len(l), i + 4 + Len(l) + Len(r);
      LineAt(s, i + 1, l, j);
      LineAt(s, j + 3, r, k);
      PairAt(s, i, l, r, ';', j, j + 1, j + 2, k, p);
    case Background(c) =>
      var j := i + 1 + Len(c);
      LineAt(s, i + 1, c, j);
      BackgroundAt(s, i, c, j, j + 1, p);
  }

  lemma {:induction false} JoinPlain(args: seq<string>)
    requires forall k :: 0 <= k < |args| ==> PlainWord(args[k])
    ensures NoNul(Join(args))
    decreases |args|
  {
    if args != [] {
      JoinPlain(args[1..]);
      assert PlainWord(args[0]);
    }
  }

  lemma {:induction false} PrintNoNul(t: Tree)
    requires Printable(t)
    ensures NoNul(Print(t))
  {
    match t
    case Run(args) => JoinPlain(args);
    case Redirected(c, file, _) => PrintNoNul(c);
    case Piped(l, r) => PrintNoNul(l); PrintNoNul(r);
    case Listed(l, r) => PrintNoNul(l); PrintNoNul(r);
    case Background(c) => PrintNoNul(c);
  }

  /** Round trip: parsing the fully parenthesised print of a command tree gives back the tree. */
  lemma RoundTrip(t: Tree)
    requires Printable(t)
    ensures Reads(ParseCmd(Print(t)), Print(t), t, |Print(t)|)
  {
    var s := Print(t);
    PrintNoNul(t);
    PrintLaid(s, 0, t);
    LineAt(s, 0, t, |s|);
    SkipNone(s, |s|);
  }
}
