/** The grammar sh.c parses, over tokens: what its recursive functions accept and build, how a
    command is written down, and that reading back what was written gives the command again. */
module ShellGrammar {
  const MAXARGS: nat := 10
  const O_RDONLY: nat := 0x000
  const O_WRONLY_CREATE: nat := 0x201

  /** A command whose words are of type W: positions in the input, or the words themselves. */
  datatype Cmd<W> =
    | Exec(argv: seq<W>)
    | Redir(cmd: Cmd<W>, to: Redirect<W>)
    | Pipe(left: Cmd<W>, right: Cmd<W>)
    | List(left: Cmd<W>, right: Cmd<W>)
    | Back(cmd: Cmd<W>)

  datatype Redirect<W> = Redirect(file: W, mode: nat, fd: nat)

  type Tree = Cmd<string>

  datatype Token = Sym(c: char) | Append | Word(w: string)

  datatype Error = MissingFile | Syntax | TooManyArgs | MissingParen | Leftovers

  datatype Parsed<T> = Fail(error: Error) | Ok(value: T, rest: seq<Token>)

  predicate StartsWith(ts: seq<Token>, chars: string) {
    ts != [] && ((ts[0].Sym? && ts[0].c in chars) || (ts[0].Append? && '>' in chars))
  }

  // ----- reading

  function RedirectOf<W>(tok: Token, file: W): Redirect<W> {
    if tok == Sym('<') then Redirect(file, O_RDONLY, 0) else Redirect(file, O_WRONLY_CREATE, 1)
  }

  /** parseredirs: the redirections from here on. */
  function ReadRedirs(ts: seq<Token>): (r: Parsed<seq<Redirect<string>>>)
    ensures r.Ok? ==> |r.rest| <= |ts|
  {
    if !StartsWith(ts, "<>") then Ok([], ts)
    else if |ts| < 2 || !ts[1].Word? then Fail(MissingFile)
    else
      var more := ReadRedirs(ts[2..]);
      if more.Fail? then more else Ok([RedirectOf(ts[0], ts[1].w)] + more.value, more.rest)
  }

  /** The first redirection is the innermost. */
  function Wrap<W>(c: Cmd<W>, rs: seq<Redirect<W>>): Cmd<W>
    decreases |rs|
  {
    if rs == [] then c else Redir(Wrap(c, rs[..|rs| - 1]), rs[|rs| - 1])
  }

  /** The loop of parseexec: words, each followed by redirections. */
  function ReadWords(words: seq<string>, rs: seq<Redirect<string>>, ts: seq<Token>): (r: Parsed<Tree>)
    ensures r.Ok? ==> |r.rest| <= |ts|
    decreases |ts|
  {
    if ts == [] || StartsWith(ts, "|)&;") then Ok(Wrap(Exec(words), rs), ts)
    else if !ts[0].Word? then Fail(Syntax)
    else if |words| + 1 >= MAXARGS then Fail(TooManyArgs)
    else
      var more := ReadRedirs(ts[1..]);
      if more.Fail? then Fail(more.error) else ReadWords(words + [ts[0].w], rs + more.value, more.rest)
  }

  function ReadExec(ts: seq<Token>): (r: Parsed<Tree>)
    ensures r.Ok? ==> |r.rest| <= |ts|
    decreases |ts|, 1
  {
    if StartsWith(ts, "(") then ReadBlock(ts)
    else
      var first := ReadRedirs(ts);
      if first.Fail? then Fail(first.error) else ReadWords([], first.value, first.rest)
  }

  function ReadBlock(ts: seq<Token>): (r: Parsed<Tree>)
    requires StartsWith(ts, "(")
    ensures r.Ok? ==> |r.rest| <= |ts|
    decreases |ts|, 0
  {
    var line := ReadLine(ts[1..]);
    if line.Fail? then line
    else if !StartsWith(line.rest, ")") then Fail(MissingParen)
    else
      var rs := ReadRedirs(line.rest[1..]);
      if rs.Fail? then Fail(rs.error) else Ok(Wrap(line.value, rs.value), rs.rest)
  }

  function ReadPipe(ts: seq<Token>): (r: Parsed<Tree>)
    ensures r.Ok? ==> |r.rest| <= |ts|
    decreases |ts|, 2
  {
    var first := ReadExec(ts);
    if first.Ok? && StartsWith(first.rest, "|") then
      var more := ReadPipe(first.rest[1..]);
      if more.Fail? then more else Ok(Pipe(first.value, more.value), more.rest)
    else first
  }

  /** The loop over ampersands. */
  function ReadBacks(c: Tree, ts: seq<Token>): (r: Parsed<Tree>)
    ensures r.Ok? && |r.rest| <= |ts|
    decreases |ts|
  {
    if StartsWith(ts, "&") then ReadBacks(Back(c), ts[1..]) else Ok(c, ts)
  }

  function ReadLine(ts: seq<Token>): (r: Parsed<Tree>)
    ensures r.Ok? ==> |r.rest| <= |ts|
    decreases |ts|, 3
  {
    var first := ReadPipe(ts);
    if first.Fail? then first
    else
      var job := ReadBacks(first.value, first.rest);
      if StartsWith(job.rest, ";") then
        var more := ReadLine(job.rest[1..]);
        if more.Fail? then more else Ok(List(job.value, more.value), more.rest)
      else job
  }

  function ReadCmd(ts: seq<Token>): (r: Parsed<Tree>)
    ensures r.Ok? ==> r.rest == []
  {
    var line := ReadLine(ts);
    if line.Ok? && line.rest != [] then Fail(Leftovers) else line
  }

  // ----- writing

  function Level<W>(t: Cmd<W>): nat {
    match t
    case Exec(_) => 0
    case Redir(_, _) => 0
    case Pipe(_, _) => 1
    case Back(_) => 2
    case List(_, _) => 3
  }

  function WordTokens(words: seq<string>): (ts: seq<Token>)
    ensures |ts| == |words| && forall k :: 0 <= k < |ts| ==> ts[k] == Word(words[k])
  {
    seq(|words|, k requires 0 <= k < |words| => Word(words[k]))
  }

  function RedirTokens(r: Redirect<string>): seq<Token> {
    [Sym(if r.fd == 0 then '<' else '>'), Word(r.file)]
  }

  /** With parentheses only where the grammar needs them. */
  function Write(t: Tree, level: nat): seq<Token>
    decreases t, 1
  {
    if Level(t) <= level then WriteBody(t) else [Sym('(')] + WriteBody(t) + [Sym(')')]
  }

  function WriteBody(t: Tree): seq<Token>
    decreases t, 0
  {
    match t
    case Exec(words) => WordTokens(words)
    case Redir(c, r) => Write(c, 0) + RedirTokens(r)
    case Pipe(l, r) => Write(l, 0) + [Sym('|')] + Write(r, 1)
    case Back(c) => Write(c, 2) + [Sym('&')]
    case List(l, r) => Write(l, 2) + [Sym(';')] + Write(r, 3)
  }

  /** At most nine words to a command, and redirections as the shell makes them. */
  predicate Proper(t: Tree) {
    match t
    case Exec(words) => |words| < MAXARGS
    case Redir(c, r) => Proper(c) && ProperRedirect(r)
    case Pipe(l, r) => Proper(l) && Proper(r)
    case Back(c) => Proper(c)
    case List(l, r) => Proper(l) && Proper(r)
  }

  predicate ProperRedirect(r: Redirect<string>) {
    (r.mode == O_RDONLY && r.fd == 0) || (r.mode == O_WRONLY_CREATE && r.fd == 1)
  }

  // ----- what is written is read back

  /** No redirection follows. */
  predicate EndsExec(rest: seq<Token>) {
    rest == [] || StartsWith(rest, "|)&;")
  }

  function Base(t: Tree): (b: Tree)
    ensures !b.Redir?
    ensures t.Redir? ==> b < t
  {
    if t.Redir? then Base(t.cmd) else t
  }

  function Redirects(t: Tree): (rs: seq<Redirect<string>>)
    ensures t == Wrap(Base(t), rs)
  {
    if t.Redir? then
      var rs := Redirects(t.cmd);
      assert (rs + [t.to])[..|rs|] == rs;
      rs + [t.to]
    else []
  }

  function AllRedirTokens(rs: seq<Redirect<string>>): seq<Token> {
    if rs == [] then [] else RedirTokens(rs[0]) + AllRedirTokens(rs[1..])
  }

  lemma {:induction false} AllRedirTokensMore(rs: seq<Redirect<string>>, r: Redirect<string>)
    ensures AllRedirTokens(rs + [r]) == AllRedirTokens(rs) + RedirTokens(r)
  {
    if rs == [] {
      assert (rs + [r])[1..] == [];
      assert AllRedirTokens([]) == [];
    } else {
      AllRedirTokensMore(rs[1..], r);
      assert (rs + [r])[1..] == rs[1..] + [r];
    }
  }

  lemma {:induction false} WriteChain(t: Tree)
    ensures Write(t, 0) == Write(Base(t), 0) + AllRedirTokens(Redirects(t))
    ensures Proper(t) ==> Proper(Base(t)) && forall r :: r in Redirects(t) ==> ProperRedirect(r)
    decreases t
  {
    if t.Redir? {
      WriteChain(t.cmd);
      AllRedirTokensMore(Redirects(t.cmd), t.to);
    }
  }

  lemma {:induction false} RedirsBack(rs: seq<Redirect<string>>, rest: seq<Token>)
    requires (forall r :: r in rs ==> ProperRedirect(r)) && !StartsWith(rest, "<>")
    ensures ReadRedirs(AllRedirTokens(rs) + rest) == Ok(rs, rest)
  {
    hide AllRedirTokens, ReadRedirs;
    var ts := AllRedirTokens(rs) + rest;
    RedirsSpelled(rs);
    if rs == [] {
      assert ts == rest;
      NoRedirs(rest);
    } else {
      RedirsBack(rs[1..], rest);
      assert rs[0] in rs;
      assert ts == RedirTokens(rs[0]) + (AllRedirTokens(rs[1..]) + rest);
      OneRedir(rs[0], AllRedirTokens(rs[1..]) + rest);
      assert rs == [rs[0]] + rs[1..];
    }
  }

  lemma RedirsSpelled(rs: seq<Redirect<string>>)
    ensures AllRedirTokens(rs) == if rs == [] then [] else RedirTokens(rs[0]) + AllRedirTokens(rs[1..])
  {
  }

  lemma OneRedir(r: Redirect<string>, rest: seq<Token>)
    requires ProperRedirect(r)
    ensures var more := ReadRedirs(rest);
      ReadRedirs(RedirTokens(r) + rest) == if more.Fail? then more else Ok([r] + more.value, more.rest)
  {
    var ts := RedirTokens(r) + rest;
    assert ts[0] == RedirTokens(r)[0] && ts[1] == Word(r.file) && ts[2..] == rest;
  }

  lemma EndsExecNoRedir(rest: seq<Token>)
    requires EndsExec(rest)
    ensures !StartsWith(rest, "<>") && !StartsWith(rest, "(")
  {
  }

  /** The words of a command, then its redirections. */
  lemma {:induction false} WordsBack(before: seq<string>, words: seq<string>, rs: seq<Redirect<string>>,
        rest: seq<Token>)
    requires words != [] && |before| + |words| < MAXARGS
    requires (forall r :: r in rs ==> ProperRedirect(r)) && EndsExec(rest)
    ensures ReadWords(before, [], WordTokens(words) + AllRedirTokens(rs) + rest) ==
      Ok(Wrap(Exec(before + words), rs), rest)
    decreases |words|
  {
    hide AllRedirTokens, Wrap;
    EndsExecNoRedir(rest);
    var ts := WordTokens(words) + AllRedirTokens(rs) + rest;
    assert ts[0] == Word(words[0]);
    assert before + words == before + [words[0]] + words[1..];
    if |words| == 1 {
      RedirsBack(rs, rest);
      assert ts[1..] == AllRedirTokens(rs) + rest;
      assert [] + rs == rs;
      assert before + [words[0]] == before + words;
      AfterWords(before + words, rs, rest);
    } else {
      var left := WordTokens(words[1..]) + AllRedirTokens(rs) + rest;
      assert ts[1..] == left;
      assert left[0] == Word(words[1]);
      NoRedirs(left);
      var none: seq<Redirect<string>> := [];
      assert none + none == none;
      WordsBack(before + [words[0]], words[1..], rs, rest);
    }
  }

  lemma AfterWords(words: seq<string>, rs: seq<Redirect<string>>, rest: seq<Token>)
    requires EndsExec(rest)
    ensures ReadWords(words, rs, rest) == Ok(Wrap(Exec(words), rs), rest)
  {
  }

  lemma ExecBack(words: seq<string>, rs: seq<Redirect<string>>, rest: seq<Token>)
    requires |words| < MAXARGS && (forall r :: r in rs ==> ProperRedirect(r)) && EndsExec(rest)
    ensures ReadExec(WordTokens(words) + AllRedirTokens(rs) + rest) == Ok(Wrap(Exec(words), rs), rest)
  {
    hide AllRedirTokens, Wrap, ReadWords, ReadRedirs;
    EndsExecNoRedir(rest);
    var ts := WordTokens(words) + AllRedirTokens(rs) + rest;
    if words == [] {
      assert ts == AllRedirTokens(rs) + rest;
      RedirsBack(rs, rest);
      RedirsHead(rs, rest);
      AfterWords(words, rs, rest);
    } else {
      assert ts[0] == Word(words[0]);
      NoRedirs(ts);
      WordsBack([], words, rs, rest);
      assert [] + words == words;
    }
  }

  lemma NoRedirs(ts: seq<Token>)
    requires !StartsWith(ts, "<>")
    ensures ReadRedirs(ts) == Ok([], ts)
  {
  }

  lemma RedirsHead(rs: seq<Redirect<string>>, rest: seq<Token>)
    requires EndsExec(rest)
    ensures !StartsWith(AllRedirTokens(rs) + rest, "(")
  {
    if rs == [] {
      assert AllRedirTokens(rs) + rest == rest;
    } else {
      assert (AllRedirTokens(rs) + rest)[0] == RedirTokens(rs[0])[0];
    }
  }

  /** Everything a tree of one level may be followed by. */
  predicate Follows(level: nat, rest: seq<Token>) {
    EndsExec(rest) && (level >= 1 ==> !StartsWith(rest, "|")) && (level >= 3 ==> !StartsWith(rest, "&;"))
  }

  /** A parenthesised line, then redirections. */
  lemma BlockBack(t: Tree, rs: seq<Redirect<string>>, rest: seq<Token>)
    requires ReadLine(WriteBody(t) + [Sym(')')] + AllRedirTokens(rs) + rest) ==
      Ok(t, [Sym(')')] + AllRedirTokens(rs) + rest)
    requires (forall r :: r in rs ==> ProperRedirect(r)) && EndsExec(rest)
    ensures ReadExec([Sym('(')] + WriteBody(t) + [Sym(')')] + AllRedirTokens(rs) + rest) == Ok(Wrap(t, rs), rest)
  {
    hide AllRedirTokens, Wrap, ReadLine, WriteBody, ReadRedirs;
    EndsExecNoRedir(rest);
    RedirsBack(rs, rest);
    var inner := WriteBody(t) + [Sym(')')] + AllRedirTokens(rs) + rest;
    var ts := [Sym('(')] + WriteBody(t) + [Sym(')')] + AllRedirTokens(rs) + rest;
    assert ts[0] == Sym('(') && ts[1..] == inner;
    var after := [Sym(')')] + AllRedirTokens(rs) + rest;
    assert after[0] == Sym(')') && after[1..] == AllRedirTokens(rs) + rest;
  }

  lemma {:induction false} ExecLevel(t: Tree, rest: seq<Token>)
    requires Proper(t) && EndsExec(rest)
    ensures ReadExec(Write(t, 0) + rest) == Ok(t, rest)
    decreases t, 2
  {
    hide Wrap, AllRedirTokens, Write, WriteBody, ReadExec, ReadLine;
    WriteChain(t);
    var b, rs := Base(t), Redirects(t);
    assert Write(t, 0) + rest == Write(b, 0) + AllRedirTokens(rs) + rest;
    if b.Exec? {
      WrittenExec(b.argv);
      ExecBack(b.argv, rs, rest);
    } else {
      var after := [Sym(')')] + AllRedirTokens(rs) + rest;
      assert after[0] == Sym(')');
      BodyLine(b, after);
      assert WriteBody(b) + [Sym(')')] + AllRedirTokens(rs) + rest == WriteBody(b) + after;
      BlockBack(b, rs, rest);
      WrittenBlock(b);
    }
  }

  lemma WrittenExec(words: seq<string>)
    ensures Write(Exec(words), 0) == WordTokens(words)
  {
  }

  lemma WrittenBlock(t: Tree)
    requires Level(t) > 0
    ensures Write(t, 0) == [Sym('(')] + WriteBody(t) + [Sym(')')]
  {
  }

  lemma WrittenOpen(t: Tree, level: nat)
    requires Level(t) <= level
    ensures Write(t, level) == WriteBody(t)
  {
  }

  lemma WrittenClosed(t: Tree, level: nat)
    requires Level(t) > level
    ensures Write(t, level) == Write(t, 0)
  {
  }

  lemma {:induction false} PipeLevel(t: Tree, rest: seq<Token>)
    requires Proper(t) && Follows(1, rest)
    ensures ReadPipe(Write(t, 1) + rest) == Ok(t, rest)
    decreases t, 3
  {
    hide Write, WriteBody, ReadExec, ReadLine;
    if t.Pipe? {
      BodyPipe(t, rest);
      WrittenOpen(t, 1);
    } else {
      ExecLevel(t, rest);
      if Level(t) > 1 {
        WrittenClosed(t, 1);
      } else {
        WrittenOpen(t, 0);
        WrittenOpen(t, 1);
      }
    }
  }

  lemma {:induction false} BodyPipe(t: Tree, rest: seq<Token>)
    requires Proper(t) && t.Pipe? && Follows(1, rest)
    ensures ReadPipe(WriteBody(t) + rest) == Ok(t, rest)
    decreases t, 0
  {
    hide Write, ReadExec, ReadLine, ReadPipe;
    var after := [Sym('|')] + Write(t.right, 1) + rest;
    ExecLevel(t.left, after);
    assert WriteBody(t) + rest == Write(t.left, 0) + after;
    assert after[1..] == Write(t.right, 1) + rest;
    PipeLevel(t.right, rest);
    PipeStep(Write(t.left, 0) + after, t.left, after);
  }

  lemma PipeStep(ts: seq<Token>, c: Tree, after: seq<Token>)
    requires ReadExec(ts) == Ok(c, after) && StartsWith(after, "|") && ReadPipe(after[1..]).Ok?
    ensures var more := ReadPipe(after[1..]); ReadPipe(ts) == Ok(Pipe(c, more.value), more.rest)
  {
    hide ReadExec, ReadLine;
  }

  /** What ReadLine has before it looks for a semicolon. */
  function ReadJob(ts: seq<Token>): Parsed<Tree> {
    var first := ReadPipe(ts);
    if first.Fail? then first else ReadBacks(first.value, first.rest)
  }

  lemma {:induction false} JobLevel(t: Tree, rest: seq<Token>)
    requires Proper(t) && Follows(1, rest)
    ensures ReadJob(Write(t, 2) + rest) == ReadBacks(t, rest)
    decreases t, 4
  {
    hide Write, WriteBody, ReadPipe, ReadLine;
    if t.Back? {
      BodyBack(t, rest);
      WrittenOpen(t, 2);
    } else {
      PipeLevel(t, rest);
      if Level(t) > 2 {
        WrittenClosed(t, 1);
        WrittenClosed(t, 2);
      } else {
        WrittenOpen(t, 1);
        WrittenOpen(t, 2);
      }
    }
  }

  lemma {:induction false} BodyBack(t: Tree, rest: seq<Token>)
    requires Proper(t) && t.Back? && Follows(1, rest)
    ensures ReadJob(WriteBody(t) + rest) == ReadBacks(t, rest)
    decreases t, 0
  {
    hide Write, ReadPipe, ReadLine, ReadJob;
    var after := [Sym('&')] + rest;
    JobLevel(t.cmd, after);
    assert WriteBody(t) + rest == Write(t.cmd, 2) + after;
    assert after[1..] == rest;
  }

  /** A line that is not in parentheses. */
  lemma {:induction false} BodyLine(t: Tree, rest: seq<Token>)
    requires Proper(t) && Level(t) > 0 && Follows(3, rest)
    ensures ReadLine(WriteBody(t) + rest) == Ok(t, rest)
    decreases t, 1
  {
    hide Write, WriteBody, ReadPipe, ReadLine, ReadJob;
    match t {
      case Pipe(_, _) =>
        BodyPipe(t, rest);
        LineEnd(WriteBody(t) + rest, t, rest);
      case Back(_) =>
        BodyBack(t, rest);
        LineEnd(WriteBody(t) + rest, t, rest);
      case List(l, r) =>
        var after := [Sym(';')] + Write(r, 3) + rest;
        JobLevel(l, after);
        WrittenList(t, rest);
        assert after[1..] == Write(r, 3) + rest;
        LineLevel(r, rest);
        LineStep(WriteBody(t) + rest, l, after);
    }
  }

  lemma WrittenList(t: Tree, rest: seq<Token>)
    requires t.List?
    ensures WriteBody(t) + rest == Write(t.left, 2) + ([Sym(';')] + Write(t.right, 3) + rest)
  {
  }

  lemma LineEnd(ts: seq<Token>, c: Tree, rest: seq<Token>)
    requires (ReadPipe(ts) == Ok(c, rest) || ReadJob(ts) == ReadBacks(c, rest)) && Follows(3, rest)
    ensures ReadLine(ts) == Ok(c, rest)
  {
    hide ReadPipe;
  }

  lemma LineStep(ts: seq<Token>, c: Tree, after: seq<Token>)
    requires ReadJob(ts) == ReadBacks(c, after) && StartsWith(after, ";") && ReadLine(after[1..]).Ok?
    ensures var more := ReadLine(after[1..]); ReadLine(ts) == Ok(List(c, more.value), more.rest)
  {
    hide ReadPipe;
  }

  lemma {:induction false} LineLevel(t: Tree, rest: seq<Token>)
    requires Proper(t) && Follows(3, rest)
    ensures ReadLine(Write(t, 3) + rest) == Ok(t, rest)
    decreases t, 5
  {
    hide Write, WriteBody, ReadPipe, ReadLine, ReadJob;
    WrittenOpen(t, 3);
    if Level(t) > 0 {
      BodyLine(t, rest);
    } else {
      PipeLevel(t, rest);
      WrittenOpen(t, 1);
      LineEnd(WriteBody(t) + rest, t, rest);
    }
  }

  // ----- whatever is read is proper

  lemma {:induction false} RedirsProper(ts: seq<Token>)
    ensures var r := ReadRedirs(ts); r.Ok? ==> forall x :: x in r.value ==> ProperRedirect(x)
    decreases |ts|
  {
    if StartsWith(ts, "<>") && |ts| >= 2 && ts[1].Word? {
      RedirsProper(ts[2..]);
    }
  }

  lemma {:induction false} WrapProper(c: Tree, rs: seq<Redirect<string>>)
    requires Proper(c) && forall x :: x in rs ==> ProperRedirect(x)
    ensures Proper(Wrap(c, rs))
    decreases |rs|
  {
    if rs != [] {
      WrapProper(c, rs[..|rs| - 1]);
      assert rs[|rs| - 1] in rs;
    }
  }

  lemma {:induction false} WordsProper(words: seq<string>, rs: seq<Redirect<string>>, ts: seq<Token>)
    requires |words| < MAXARGS && forall x :: x in rs ==> ProperRedirect(x)
    ensures var r := ReadWords(words, rs, ts); r.Ok? ==> Proper(r.value)
    decreases |ts|
  {
    hide ReadRedirs, Wrap;
    if ts == [] || StartsWith(ts, "|)&;") {
      WrapProper(Exec(words), rs);
    } else if ts[0].Word? && |words| + 1 < MAXARGS {
      RedirsProper(ts[1..]);
      var more := ReadRedirs(ts[1..]);
      if more.Ok? {
        WordsProper(words + [ts[0].w], rs + more.value, more.rest);
      }
    }
  }

  lemma {:induction false} ExecProper(ts: seq<Token>)
    ensures var r := ReadExec(ts); r.Ok? ==> Proper(r.value)
    decreases |ts|, 1
  {
    hide ReadRedirs, ReadWords, Wrap;
    if StartsWith(ts, "(") {
      LineProper(ts[1..]);
      var line := ReadLine(ts[1..]);
      if line.Ok? && StartsWith(line.rest, ")") {
        RedirsProper(line.rest[1..]);
        var rs := ReadRedirs(line.rest[1..]);
        if rs.Ok? {
          WrapProper(line.value, rs.value);
        }
      }
    } else {
      RedirsProper(ts);
      var first := ReadRedirs(ts);
      if first.Ok? {
        WordsProper([], first.value, first.rest);
      }
    }
  }

  lemma {:induction false} PipeProper(ts: seq<Token>)
    ensures var r := ReadPipe(ts); r.Ok? ==> Proper(r.value)
    decreases |ts|, 2
  {
    hide ReadExec, ReadLine;
    ExecProper(ts);
    var first := ReadExec(ts);
    if first.Ok? && StartsWith(first.rest, "|") {
      PipeProper(first.rest[1..]);
    }
  }

  lemma {:induction false} BacksProper(c: Tree, ts: seq<Token>)
    requires Proper(c)
    ensures Proper(ReadBacks(c, ts).value)
    decreases |ts|
  {
    if StartsWith(ts, "&") {
      BacksProper(Back(c), ts[1..]);
    }
  }

  lemma {:induction false} LineProper(ts: seq<Token>)
    ensures var r := ReadLine(ts); r.Ok? ==> Proper(r.value)
    decreases |ts|, 3
  {
    hide ReadPipe, ReadBacks;
    PipeProper(ts);
    var first := ReadPipe(ts);
    if first.Ok? {
      BacksProper(first.value, first.rest);
      var job := ReadBacks(first.value, first.rest);
      if StartsWith(job.rest, ";") {
        LineProper(job.rest[1..]);
      }
    }
  }

  /** The round trip: a written command reads back as itself exactly if it is proper. */
  lemma RoundTrip(t: Tree)
    ensures ReadCmd(Write(t, 3)) == Ok(t, []) <==> Proper(t)
  {
    hide Write, ReadLine;
    if Proper(t) {
      LineLevel(t, []);
      assert Write(t, 3) + [] == Write(t, 3);
    }
    LineProper(Write(t, 3));
  }

  /** So writing is a normal form: reading, writing and reading again changes nothing. */
  lemma ReadWriteRead(ts: seq<Token>)
    requires ReadCmd(ts).Ok?
    ensures ReadCmd(Write(ReadCmd(ts).value, 3)) == ReadCmd(ts)
  {
    hide Write, ReadLine;
    LineProper(ts);
    RoundTrip(ReadCmd(ts).value);
  }
}
