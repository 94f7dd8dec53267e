/** sh.c: the scanner and the recursive-descent parser over the input line, refining the
    grammar over tokens, and the pass that ends every word with a zero in place. */
module ShellParser {
  import opened ShellGrammar

  const NUL: char := '\0'

  predicate IsSpace(c: char) {
    c in " \t\r\n" || c == '\U{000B}'
  }

  predicate IsSymbol(c: char) {
    c in "<|>&;()"
  }

  predicate IsWordChar(c: char) {
    !IsSpace(c) && !IsSymbol(c) && c != NUL
  }

  /** A line as gets leaves it: a C string. */
  predicate IsLine(buf: string) {
    NUL !in buf
  }

  // ----- the token stream

  function SkipSpace(buf: string, s: nat): (e: nat)
    requires s <= |buf|
    ensures s <= e <= |buf|
    ensures e < |buf| ==> !IsSpace(buf[e])
    decreases |buf| - s
  {
    if s < |buf| && IsSpace(buf[s]) then SkipSpace(buf, s + 1) else s
  }

  function WordEnd(buf: string, s: nat): (e: nat)
    requires s <= |buf|
    ensures s <= e <= |buf|
    ensures forall k :: s <= k < e ==> IsWordChar(buf[k])
    ensures e < |buf| ==> !IsWordChar(buf[e])
    ensures s < |buf| && IsWordChar(buf[s]) ==> s < e
    decreases |buf| - s
  {
    if s < |buf| && IsWordChar(buf[s]) then WordEnd(buf, s + 1) else s
  }

  /** The end of the token that starts at s. */
  function TokenEnd(buf: string, s: nat): (e: nat)
    requires s < |buf| && IsLine(buf) && !IsSpace(buf[s])
    ensures s < e <= |buf|
  {
    if buf[s] == '>' && s + 1 < |buf| && buf[s + 1] == '>' then s + 2
    else if IsSymbol(buf[s]) then s + 1
    else WordEnd(buf, s)
  }

  function TokenAt(buf: string, s: nat): Token
    requires s < |buf| && IsLine(buf) && !IsSpace(buf[s])
  {
    if buf[s] == '>' && s + 1 < |buf| && buf[s + 1] == '>' then Append
    else if IsSymbol(buf[s]) then Sym(buf[s])
    else Word(buf[s..WordEnd(buf, s)])
  }

  /** The tokens from position s on. */
  function Lex(buf: string, s: nat): seq<Token>
    requires s <= |buf| && IsLine(buf)
    decreases |buf| - s
  {
    var q := SkipSpace(buf, s);
    if q == |buf| then [] else [TokenAt(buf, q)] + Lex(buf, TokenEnd(buf, q))
  }

  lemma LexSkip(buf: string, s: nat)
    requires s <= |buf| && IsLine(buf)
    ensures Lex(buf, SkipSpace(buf, s)) == Lex(buf, s)
  {
  }

  // ----- the scanner

  datatype Span = Span(start: nat, end: nat)

  /** A maximal run of word characters. */
  predicate IsWord(buf: string, w: Span) {
    && w.start < w.end <= |buf|
    && (forall k :: w.start <= k < w.end ==> IsWordChar(buf[k]))
    && (w.end < |buf| ==> !IsWordChar(buf[w.end]))
  }

  function WordOf(buf: string, w: Span): string
    requires w.start <= w.end <= |buf|
  {
    buf[w.start..w.end]
  }

  datatype Kind = End | Symbol(c: char) | Twice | Text

  /** gettoken: the kind of the next token, where it lies, and where to go on. */
  method GetToken(buf: string, at: nat) returns (k: Kind, q: nat, eq: nat, next: nat)
    requires at <= |buf| && IsLine(buf)
    ensures at <= q <= eq <= next <= |buf|
    ensures k.End? <==> Lex(buf, at) == []
    ensures Lex(buf, next) == if k.End? then [] else Lex(buf, at)[1..]
    ensures !k.End? ==> at < next
    ensures k.Symbol? ==> Lex(buf, at)[0] == Sym(k.c) && IsSymbol(k.c)
    ensures k.Twice? ==> Lex(buf, at)[0] == Append
    ensures k.Text? ==> IsWord(buf, Span(q, eq)) && Lex(buf, at)[0] == Word(buf[q..eq])
  {
    hide IsSpace, IsSymbol, Lex, SkipSpace;
    var s := SkipSpaces(buf, at);
    q := s;
    LexStep(buf, at);
    if s == |buf| {
      LexStep(buf, s);
      k := End;
    } else if IsSymbol(buf[s]) {
      k := Symbol(buf[s]);
      s := s + 1;
      if buf[s - 1] == '>' && s < |buf| && buf[s] == '>' {
        k := Twice;
        s := s + 1;
      }
    } else {
      k := Text;
      WordHere(buf, s);
      while s < |buf| && !IsSpace(buf[s]) && !IsSymbol(buf[s])
        invariant q <= s <= |buf| && WordEnd(buf, s) == WordEnd(buf, q)
      {
        s := s + 1;
      }
    }
    eq := s;
    next := SkipSpaces(buf, s);
    LexSkip(buf, eq);
  }

  /** The loop over white space, which gettoken has twice and peek once. */
  method SkipSpaces(buf: string, at: nat) returns (s: nat)
    requires at <= |buf|
    ensures at <= s <= |buf| && s == SkipSpace(buf, at)
  {
    hide IsSpace;
    s := at;
    while s < |buf| && IsSpace(buf[s])
      invariant at <= s <= |buf| && SkipSpace(buf, s) == SkipSpace(buf, at)
    {
      s := s + 1;
    }
  }

  lemma LexStep(buf: string, at: nat)
    requires at <= |buf| && IsLine(buf)
    ensures var q := SkipSpace(buf, at);
      Lex(buf, at) == if q == |buf| then [] else [TokenAt(buf, q)] + Lex(buf, TokenEnd(buf, q))
    ensures IsSymbol('>')
  {
    hide IsSpace;
  }

  lemma WordHere(buf: string, s: nat)
    requires s < |buf| && IsLine(buf) && !IsSpace(buf[s]) && !IsSymbol(buf[s])
    ensures IsWordChar(buf[s])
  {
  }

  /** peek: does the next token start with one of the given symbols? */
  method Peek(buf: string, at: nat, toks: string) returns (hit: bool, next: nat)
    requires at <= |buf| && IsLine(buf) && forall c :: c in toks ==> IsSymbol(c)
    ensures at <= next <= |buf| && Lex(buf, next) == Lex(buf, at)
    ensures hit <==> StartsWith(Lex(buf, at), toks)
    ensures next == |buf| <==> Lex(buf, at) == []
  {
    hide IsSpace, IsSymbol, Lex;
    next := SkipSpaces(buf, at);
    LexSkip(buf, at);
    LexStep(buf, at);
    hit := next < |buf| && buf[next] in toks;
  }

  // ----- the parser

  datatype Outcome<T> = Panic(error: Error) | Read(value: T, next: nat)

  function SpellRedirect(buf: string, r: Redirect<Span>): Redirect<string>
    requires IsWord(buf, r.file)
  {
    Redirect(WordOf(buf, r.file), r.mode, r.fd)
  }

  predicate GoodRedirects(buf: string, rs: seq<Redirect<Span>>) {
    forall k :: 0 <= k < |rs| ==> IsWord(buf, rs[k].file)
  }

  function SpellRedirects(buf: string, rs: seq<Redirect<Span>>): (t: seq<Redirect<string>>)
    requires GoodRedirects(buf, rs)
    ensures |t| == |rs| && forall k :: 0 <= k < |t| ==> t[k] == SpellRedirect(buf, rs[k])
  {
    seq(|rs|, k requires 0 <= k < |rs| => SpellRedirect(buf, rs[k]))
  }

  predicate GoodWords(buf: string, ws: seq<Span>) {
    forall k :: 0 <= k < |ws| ==> IsWord(buf, ws[k])
  }

  function SpellWords(buf: string, ws: seq<Span>): (t: seq<string>)
    requires GoodWords(buf, ws)
    ensures |t| == |ws| && forall k :: 0 <= k < |t| ==> t[k] == WordOf(buf, ws[k])
  {
    seq(|ws|, k requires 0 <= k < |ws| => WordOf(buf, ws[k]))
  }

  /** Every position in the tree is that of a whole word. */
  predicate Good(buf: string, c: Cmd<Span>) {
    match c
    case Exec(ws) => GoodWords(buf, ws)
    case Redir(d, r) => Good(buf, d) && IsWord(buf, r.file)
    case Pipe(l, r) => Good(buf, l) && Good(buf, r)
    case List(l, r) => Good(buf, l) && Good(buf, r)
    case Back(d) => Good(buf, d)
  }

  /** The tree with its positions replaced by the words there. */
  function Spell(buf: string, c: Cmd<Span>): Tree
    requires Good(buf, c)
  {
    match c
    case Exec(ws) => Exec(SpellWords(buf, ws))
    case Redir(d, r) => Redir(Spell(buf, d), SpellRedirect(buf, r))
    case Pipe(l, r) => Pipe(Spell(buf, l), Spell(buf, r))
    case List(l, r) => List(Spell(buf, l), Spell(buf, r))
    case Back(d) => Back(Spell(buf, d))
  }

  lemma {:induction false} SpellWrap(buf: string, c: Cmd<Span>, rs: seq<Redirect<Span>>)
    requires Good(buf, c) && GoodRedirects(buf, rs)
    ensures Good(buf, Wrap(c, rs)) && Spell(buf, Wrap(c, rs)) == Wrap(Spell(buf, c), SpellRedirects(buf, rs))
    decreases |rs|
  {
    hide IsWord, WordOf;
    if rs != [] {
      var some := rs[..|rs| - 1];
      SpellWrap(buf, c, some);
      assert SpellRedirects(buf, rs)[..|rs| - 1] == SpellRedirects(buf, some);
    }
  }

  /** A step of the parser does what the grammar says: same tree, same tokens left over, and
      failure in the same cases. */
  ghost predicate Agrees(buf: string, r: Outcome<Cmd<Span>>, p: Parsed<Tree>)
    requires IsLine(buf)
  {
    match r
    case Panic(e) => p == Fail(e)
    case Read(c, next) => Good(buf, c) && next <= |buf| && p == Ok(Spell(buf, c), Lex(buf, next))
  }

  method ParseRedirs(buf: string, at: nat) returns (r: Outcome<seq<Redirect<Span>>>)
    requires at <= |buf| && IsLine(buf)
    ensures r.Panic? ==> ReadRedirs(Lex(buf, at)) == Fail(r.error)
    ensures r.Read? ==> GoodRedirects(buf, r.value) && at <= r.next <= |buf|
    ensures r.Read? ==> ReadRedirs(Lex(buf, at)) == Ok(SpellRedirects(buf, r.value), Lex(buf, r.next))
  {
    hide Lex, IsWord, ReadRedirs, SpellRedirects, Prepend;
    var rs: seq<Redirect<Span>> := [];
    var s := at;
    PrependNone(ReadRedirs(Lex(buf, at)));
    while true
      invariant at <= s <= |buf| && GoodRedirects(buf, rs)
      invariant ReadRedirs(Lex(buf, at)) == Prepend(SpellRedirects(buf, rs), ReadRedirs(Lex(buf, s)))
      decreases |buf| - s
    {
      var hit, s0 := Peek(buf, s, "<>");
      if !hit {
        RedirsEnd(SpellRedirects(buf, rs), Lex(buf, s0));
        return Read(rs, s0);
      }
      ghost var ts := Lex(buf, s0);
      var tok, _, _, s1 := GetToken(buf, s0);
      var k, q, eq, s2 := GetToken(buf, s1);
      RedirsStep(ts);
      if !k.Text? {
        return Panic(MissingFile);
      }
      var to := RedirectOf(if tok == Symbol('<') then Sym('<') else Sym('>'), Span(q, eq));
      PrependMore(buf, rs, to, ReadRedirs(Lex(buf, s2)));
      rs := rs + [to];
      s := s2;
    }
  }

  /** What a loop has gathered, in front of what is still to come. */
  function Prepend<T>(done: seq<T>, r: Parsed<seq<T>>): Parsed<seq<T>> {
    if r.Fail? then r else Ok(done + r.value, r.rest)
  }

  lemma RedirsEnd(done: seq<Redirect<string>>, ts: seq<Token>)
    requires !StartsWith(ts, "<>")
    ensures Prepend(done, ReadRedirs(ts)) == Ok(done, ts)
  {
    assert done + [] == done;
  }

  lemma RedirsStep(ts: seq<Token>)
    requires StartsWith(ts, "<>")
    ensures var left := ts[1..];
      if left != [] && left[0].Word? then
        ReadRedirs(ts) == Prepend([RedirectOf(ts[0], left[0].w)], ReadRedirs(left[1..]))
      else ReadRedirs(ts) == Fail(MissingFile)
    ensures forall done: seq<Redirect<string>> :: Prepend(done, Fail(MissingFile)) == Fail(MissingFile)
  {
    assert |ts| >= 2 ==> ts[2..] == ts[1..][1..];
  }

  lemma PrependNone<T>(r: Parsed<seq<T>>)
    ensures Prepend<T>([], r) == r
  {
    if r.Ok? {
      assert [] + r.value == r.value;
    }
  }

  lemma PrependMore(buf: string, rs: seq<Redirect<Span>>, to: Redirect<Span>, r: Parsed<seq<Redirect<string>>>)
    requires GoodRedirects(buf, rs) && IsWord(buf, to.file)
    ensures GoodRedirects(buf, rs + [to])
    ensures Prepend(SpellRedirects(buf, rs), Prepend([SpellRedirect(buf, to)], r)) ==
      Prepend(SpellRedirects(buf, rs + [to]), r)
  {
    hide IsWord;
    var done := SpellRedirects(buf, rs);
    assert SpellRedirects(buf, rs + [to]) == done + [SpellRedirect(buf, to)];
    if r.Ok? {
      assert done + ([SpellRedirect(buf, to)] + r.value) == done + [SpellRedirect(buf, to)] + r.value;
    }
  }

  lemma SpellMore(buf: string, ws: seq<Span>, w: Span)
    requires GoodWords(buf, ws) && IsWord(buf, w)
    ensures GoodWords(buf, ws + [w]) && SpellWords(buf, ws + [w]) == SpellWords(buf, ws) + [WordOf(buf, w)]
  {
    hide IsWord;
  }

  lemma SpellJoin(buf: string, rs: seq<Redirect<Span>>, more: seq<Redirect<Span>>)
    requires GoodRedirects(buf, rs) && GoodRedirects(buf, more)
    ensures GoodRedirects(buf, rs + more)
    ensures SpellRedirects(buf, rs + more) == SpellRedirects(buf, rs) + SpellRedirects(buf, more)
  {
    hide IsWord;
  }

  method ParseExec(buf: string, at: nat) returns (r: Outcome<Cmd<Span>>)
    requires at <= |buf| && IsLine(buf)
    ensures Agrees(buf, r, ReadExec(Lex(buf, at))) && (r.Read? ==> at <= r.next)
    decreases |buf| - at, 1
  {
    hide Lex, IsWord, WordOf, ReadRedirs, ReadWords, Wrap, ReadBlock, SpellWords, SpellRedirects;
    var block, s := Peek(buf, at, "(");
    if block {
      r := ParseBlock(buf, s);
      return;
    }
    var first := ParseRedirs(buf, s);
    if first.Panic? {
      return Panic(first.error);
    }
    r := ParseWords(buf, first.next, first.value);
  }

  /** The loop of parseexec. */
  method ParseWords(buf: string, at: nat, first: seq<Redirect<Span>>) returns (r: Outcome<Cmd<Span>>)
    requires at <= |buf| && IsLine(buf) && GoodRedirects(buf, first)
    ensures Agrees(buf, r, ReadWords([], SpellRedirects(buf, first), Lex(buf, at))) && (r.Read? ==> at <= r.next)
  {
    hide Lex, IsWord, ReadRedirs, Wrap, SpellWords, SpellRedirects;
    var words: seq<Span> := [];
    var rs := first;
    var s := at;
    while true
      invariant at <= s <= |buf| && GoodWords(buf, words) && GoodRedirects(buf, rs) && |words| < MAXARGS
      invariant ReadWords([], SpellRedirects(buf, first), Lex(buf, at)) ==
        ReadWords(SpellWords(buf, words), SpellRedirects(buf, rs), Lex(buf, s))
      decreases |buf| - s
    {
      var stop, s0 := Peek(buf, s, "|)&;");
      if stop {
        SpellWrap(buf, Exec(words), rs);
        return Read(Wrap(Exec(words), rs), s0);
      }
      var k, q, eq, s1 := GetToken(buf, s0);
      if k.End? {
        SpellWrap(buf, Exec(words), rs);
        return Read(Wrap(Exec(words), rs), s1);
      }
      if !k.Text? {
        return Panic(Syntax);
      }
      SpellMore(buf, words, Span(q, eq));
      words := words + [Span(q, eq)];
      if |words| >= MAXARGS {
        return Panic(TooManyArgs);
      }
      var more := ParseRedirs(buf, s1);
      if more.Panic? {
        return Panic(more.error);
      }
      SpellJoin(buf, rs, more.value);
      rs := rs + more.value;
      s := more.next;
    }
  }

  method ParseBlock(buf: string, at: nat) returns (r: Outcome<Cmd<Span>>)
    requires at <= |buf| && IsLine(buf) && StartsWith(Lex(buf, at), "(")
    ensures Agrees(buf, r, ReadBlock(Lex(buf, at))) && (r.Read? ==> at <= r.next)
    decreases |buf| - at, 0
  {
    hide Lex, IsWord, WordOf, ReadRedirs, Wrap, ReadLine, SpellRedirects;
    var _, _, _, s := GetToken(buf, at);
    var line := ParseLine(buf, s);
    if line.Panic? {
      return line;
    }
    var hit, s0 := Peek(buf, line.next, ")");
    if !hit {
      return Panic(MissingParen);
    }
    var _, _, _, s1 := GetToken(buf, s0);
    var rs := ParseRedirs(buf, s1);
    if rs.Panic? {
      return Panic(rs.error);
    }
    SpellWrap(buf, line.value, rs.value);
    return Read(Wrap(line.value, rs.value), rs.next);
  }

  method ParsePipe(buf: string, at: nat) returns (r: Outcome<Cmd<Span>>)
    requires at <= |buf| && IsLine(buf)
    ensures Agrees(buf, r, ReadPipe(Lex(buf, at))) && (r.Read? ==> at <= r.next)
    decreases |buf| - at, 2
  {
    hide Lex, IsWord, WordOf, ReadExec, ReadLine;
    r := ParseExec(buf, at);
    if r.Panic? {
      return;
    }
    var hit, s := Peek(buf, r.next, "|");
    if hit {
      var _, _, _, s1 := GetToken(buf, s);
      var more := ParsePipe(buf, s1);
      if more.Panic? {
        return more;
      }
      r := Read(Pipe(r.value, more.value), more.next);
    } else {
      r := Read(r.value, s);
    }
  }

  method ParseLine(buf: string, at: nat) returns (r: Outcome<Cmd<Span>>)
    requires at <= |buf| && IsLine(buf)
    ensures Agrees(buf, r, ReadLine(Lex(buf, at))) && (r.Read? ==> at <= r.next)
    decreases |buf| - at, 3
  {
    hide Lex, IsWord, WordOf, ReadPipe;
    r := ParsePipe(buf, at);
    if r.Panic? {
      return;
    }
    var c, s := ParseBacks(buf, r.value, r.next);
    var hit, s0 := Peek(buf, s, ";");
    if hit {
      var _, _, _, s1 := GetToken(buf, s0);
      var more := ParseLine(buf, s1);
      if more.Panic? {
        return more;
      }
      r := Read(List(c, more.value), more.next);
    } else {
      r := Read(c, s0);
    }
  }

  /** The loop of parseline. */
  method ParseBacks(buf: string, first: Cmd<Span>, at: nat) returns (c: Cmd<Span>, next: nat)
    requires at <= |buf| && IsLine(buf) && Good(buf, first)
    ensures at <= next <= |buf| && Good(buf, c)
    ensures ReadBacks(Spell(buf, first), Lex(buf, at)) == Ok(Spell(buf, c), Lex(buf, next))
  {
    hide Lex, IsWord, WordOf;
    c := first;
    var hit, s := Peek(buf, at, "&");
    while hit
      invariant at <= s <= |buf| && Good(buf, c) && (hit <==> StartsWith(Lex(buf, s), "&"))
      invariant ReadBacks(Spell(buf, first), Lex(buf, at)) == ReadBacks(Spell(buf, c), Lex(buf, s))
      decreases |buf| - s
    {
      var _, _, _, s1 := GetToken(buf, s);
      c := Back(c);
      hit, s := Peek(buf, s1, "&");
    }
    next := s;
  }

  // ----- terminating the words

  function EndsOf(ws: seq<Span>): set<nat> {
    set k | 0 <= k < |ws| :: ws[k].end
  }

  /** Where the words of a command end. */
  function Ends(c: Cmd<Span>): set<nat> {
    match c
    case Exec(ws) => EndsOf(ws)
    case Redir(d, r) => Ends(d) + {r.file.end}
    case Pipe(l, r) => Ends(l) + Ends(r)
    case List(l, r) => Ends(l) + Ends(r)
    case Back(d) => Ends(d)
  }

  /** The buffer with zeros at the given places. */
  ghost predicate Zeroed(was: string, now: string, ends: set<nat>) {
    |now| == |was| && forall i {:trigger now[i]} :: 0 <= i < |now| ==> now[i] == if i in ends then NUL else was[i]
  }

  lemma ZeroedTwice(a: string, b: string, c: string, p: set<nat>, q: set<nat>)
    requires Zeroed(a, b, p) && Zeroed(b, c, q)
    ensures Zeroed(a, c, p + q)
  {
    forall i | 0 <= i < |c| ensures c[i] == if i in p + q then NUL else a[i] {
      assert b[i] == if i in p then NUL else a[i];
    }
  }

  /** nulterminate. */
  method NulTerminate(c: Cmd<Span>, buf: array<char>)
    requires forall e :: e in Ends(c) ==> e < buf.Length
    modifies buf
    ensures Zeroed(old(buf[..]), buf[..], Ends(c))
    decreases c
  {
    hide Zeroed;
    ghost var was := buf[..];
    match c {
      case Exec(ws) =>
        assert EndsOf(ws) <= Ends(c);
        TerminateArgs(ws, buf);
      case Redir(d, r) =>
        assert Ends(d) <= Ends(c) && r.file.end in Ends(c);
        NulTerminate(d, buf);
        ghost var mid := buf[..];
        buf[r.file.end] := NUL;
        ZeroedOne(mid, r.file.end);
        assert buf[..] == mid[r.file.end := NUL];
        ZeroedTwice(was, mid, buf[..], Ends(d), {r.file.end});
      case Pipe(l, r) =>
        assert Ends(l) <= Ends(c) && Ends(r) <= Ends(c);
        NulTerminate(l, buf);
        ghost var mid := buf[..];
        NulTerminate(r, buf);
        ZeroedTwice(was, mid, buf[..], Ends(l), Ends(r));
      case List(l, r) =>
        assert Ends(l) <= Ends(c) && Ends(r) <= Ends(c);
        NulTerminate(l, buf);
        ghost var mid := buf[..];
        NulTerminate(r, buf);
        ZeroedTwice(was, mid, buf[..], Ends(l), Ends(r));
      case Back(d) =>
        assert Ends(d) <= Ends(c);
        NulTerminate(d, buf);
    }
  }

  lemma ZeroedOne(was: string, e: nat)
    requires e < |was|
    ensures Zeroed(was, was[e := NUL], {e})
  {
  }

  /** The loop over the arguments. */
  method TerminateArgs(ws: seq<Span>, buf: array<char>)
    requires forall e :: e in EndsOf(ws) ==> e < buf.Length
    modifies buf
    ensures Zeroed(old(buf[..]), buf[..], EndsOf(ws))
  {
    ghost var was := buf[..];
    for i := 0 to |ws|
      invariant Zeroed(was, buf[..], EndsOf(ws[..i]))
    {
      assert ws[i].end in EndsOf(ws);
      ghost var mid := buf[..];
      buf[ws[i].end] := NUL;
      assert buf[..] == mid[ws[i].end := NUL];
      ZeroedOne(mid, ws[i].end);
      ZeroedTwice(was, mid, buf[..], EndsOf(ws[..i]), {ws[i].end});
      EndsOfMore(ws, i);
    }
    assert ws[..|ws|] == ws;
  }

  lemma EndsOfMore(ws: seq<Span>, i: nat)
    requires i < |ws|
    ensures EndsOf(ws[..i + 1]) == EndsOf(ws[..i]) + {ws[i].end}
  {
    var p, q := ws[..i], ws[..i + 1];
    forall e | e in EndsOf(q) ensures e in EndsOf(p) + {ws[i].end} {
      var k :| 0 <= k < |q| && q[k].end == e;
      if k < i {
        assert p[k].end == e;
      }
    }
    forall e | e in EndsOf(p) + {ws[i].end} ensures e in EndsOf(q) {
      if e in EndsOf(p) {
        var k :| 0 <= k < |p| && p[k].end == e;
        assert q[k].end == e;
      } else {
        assert q[i].end == e;
      }
    }
  }

  /** The C string at a position. */
  function CString(buf: string, s: nat): string
    decreases |buf| - s
  {
    if s >= |buf| || buf[s] == NUL then "" else [buf[s]] + CString(buf, s + 1)
  }

  function CStrings(buf: string, ws: seq<Span>): (t: seq<string>)
    ensures |t| == |ws| && forall k :: 0 <= k < |t| ==> t[k] == CString(buf, ws[k].start)
  {
    seq(|ws|, k requires 0 <= k < |ws| => CString(buf, ws[k].start))
  }

  /** The tree as a program sees it that follows the pointers. */
  function Follow(buf: string, c: Cmd<Span>): Tree {
    match c
    case Exec(ws) => Exec(CStrings(buf, ws))
    case Redir(d, r) => Redir(Follow(buf, d), Redirect(CString(buf, r.file.start), r.mode, r.fd))
    case Pipe(l, r) => Pipe(Follow(buf, l), Follow(buf, r))
    case List(l, r) => List(Follow(buf, l), Follow(buf, r))
    case Back(d) => Back(Follow(buf, d))
  }

  /** No word runs across the end of another. */
  ghost predicate Apart(line: string, ends: set<nat>) {
    forall e :: e in ends ==> e <= |line| && (e < |line| ==> !IsWordChar(line[e]))
  }

  lemma {:induction false} EndsApart(line: string, c: Cmd<Span>)
    requires Good(line, c)
    ensures Apart(line, Ends(c))
  {
    match c {
      case Exec(ws) =>
      case Redir(d, r) => EndsApart(line, d);
      case Pipe(l, r) => EndsApart(line, l); EndsApart(line, r);
      case List(l, r) => EndsApart(line, l); EndsApart(line, r);
      case Back(d) => EndsApart(line, d);
    }
  }

  lemma {:induction false} WordStands(line: string, now: string, ends: set<nat>, w: Span)
    requires Apart(line, ends) && w.end in ends && w.start <= w.end <= |line|
    requires forall k :: w.start <= k < w.end ==> IsWordChar(line[k])
    requires Zeroed(line + [NUL], now, ends)
    ensures CString(now, w.start) == WordOf(line, w)
    decreases w.end - w.start
  {
    assert now[w.start] == if w.start in ends then NUL else (line + [NUL])[w.start];
    if w.start < w.end {
      WordStands(line, now, ends, Span(w.start + 1, w.end));
      assert line[w.start..w.end] == [line[w.start]] + line[w.start + 1..w.end];
    }
  }

  /** After the pass every argument and file name is exactly its token. */
  lemma {:induction false} TreeStands(line: string, now: string, ends: set<nat>, c: Cmd<Span>)
    requires Good(line, c) && Ends(c) <= ends && Apart(line, ends) && Zeroed(line + [NUL], now, ends)
    ensures Follow(now, c) == Spell(line, c)
    decreases c
  {
    hide Zeroed, Apart, WordOf, CString;
    match c {
      case Exec(ws) =>
        forall k | 0 <= k < |ws| ensures CString(now, ws[k].start) == WordOf(line, ws[k]) {
          assert ws[k].end in EndsOf(ws);
          WordStands(line, now, ends, ws[k]);
        }
        assert CStrings(now, ws) == SpellWords(line, ws);
      case Redir(d, r) =>
        TreeStands(line, now, ends, d);
        WordStands(line, now, ends, r.file);
      case Pipe(l, r) => TreeStands(line, now, ends, l); TreeStands(line, now, ends, r);
      case List(l, r) => TreeStands(line, now, ends, l); TreeStands(line, now, ends, r);
      case Back(d) => TreeStands(line, now, ends, d);
    }
  }

  /** parsecmd on a buffer that holds a C string of length es. */
  method ParseCmd(buf: array<char>, es: nat) returns (r: Outcome<Cmd<Span>>)
    requires es < buf.Length && buf[es] == NUL && IsLine(buf[..es])
    modifies buf
    ensures r.Panic? ==> ReadCmd(Lex(old(buf[..es]), 0)) == Fail(r.error) && buf[..] == old(buf[..])
    ensures r.Read? ==> ReadCmd(Lex(old(buf[..es]), 0)) == Ok(Follow(buf[..es + 1], r.value), [])
  {
    hide Lex, ReadLine, Good, Spell, Zeroed, Apart, Follow;
    var line := buf[..es];
    r := ParseLine(line, 0);
    if r.Panic? {
      return;
    }
    var _, s := Peek(line, r.next, "");
    if s != es {
      return Panic(Leftovers);
    }
    EndsApart(line, r.value);
    ApartInside(line, r.value, buf.Length);
    ghost var was := buf[..];
    NulTerminate(r.value, buf);
    ZeroedLine(was, buf[..], Ends(r.value), es);
    TreeStands(line, buf[..es + 1], Ends(r.value), r.value);
  }

  lemma ApartInside(line: string, c: Cmd<Span>, n: nat)
    requires Apart(line, Ends(c)) && |line| < n
    ensures forall e :: e in Ends(c) ==> e < n
  {
  }

  lemma ZeroedLine(was: string, now: string, ends: set<nat>, es: nat)
    requires Zeroed(was, now, ends) && es < |was| && was[es] == NUL
    ensures es < |now| && Zeroed(was[..es] + [NUL], now[..es + 1], ends)
  {
    forall i | 0 <= i < es + 1 ensures now[..es + 1][i] == if i in ends then NUL else (was[..es] + [NUL])[i] {
      assert now[..es + 1][i] == now[i];
    }
  }

  // ----- text

  predicate IsSpelling(w: string) {
    w != "" && forall k :: 0 <= k < |w| ==> IsWordChar(w[k])
  }

  predicate Writable(t: Token) {
    match t
    case Sym(c) => IsSymbol(c)
    case Append => true
    case Word(w) => IsSpelling(w)
  }

  function TokenText(t: Token): string {
    match t
    case Sym(c) => [c]
    case Append => ">>"
    case Word(w) => w
  }

  /** Tokens with a space before each. */
  function TextOf(ts: seq<Token>): string {
    if ts == [] then "" else " " + TokenText(ts[0]) + TextOf(ts[1..])
  }

  lemma {:induction false} WordEndIs(buf: string, s: nat, e: nat)
    requires s <= e <= |buf| && (forall k :: s <= k < e ==> IsWordChar(buf[k])) && (e < |buf| ==> !IsWordChar(buf[e]))
    ensures WordEnd(buf, s) == e
    decreases e - s
  {
    if s < e {
      WordEndIs(buf, s + 1, e);
    }
  }

  /** The token at a position, when a space or the end follows it. */
  lemma TokenHere(buf: string, s: nat, t: Token)
    requires IsLine(buf) && Writable(t) && s + |TokenText(t)| <= |buf| && buf[s..s + |TokenText(t)|] == TokenText(t)
    requires s + |TokenText(t)| < |buf| ==> buf[s + |TokenText(t)|] == ' '
    ensures s < |buf| && !IsSpace(buf[s]) && TokenAt(buf, s) == t && TokenEnd(buf, s) == s + |TokenText(t)|
  {
    var x := TokenText(t);
    assert forall k :: 0 <= k < |x| ==> buf[s + k] == x[k];
    assert buf[s] == x[0];
    match t {
      case Sym(c) =>
      case Append => assert buf[s + 1] == x[1];
      case Word(w) =>
        forall k | s <= k < s + |x| ensures IsWordChar(buf[k]) {
          assert buf[k] == x[k - s];
        }
        WordEndIs(buf, s, s + |x|);
    }
  }

  predicate AllWritable(ts: seq<Token>) {
    forall k :: 0 <= k < |ts| ==> Writable(ts[k])
  }

  lemma {:induction false} TextIsLine(ts: seq<Token>)
    requires AllWritable(ts)
    ensures IsLine(TextOf(ts))
  {
    if ts != [] {
      TextIsLine(ts[1..]);
      assert Writable(ts[0]);
      TokenIsLine(ts[0]);
    }
  }

  lemma TokenIsLine(t: Token)
    requires Writable(t)
    ensures IsLine(TokenText(t)) && TokenText(t) != ""
  {
  }

  lemma {:induction false} LexText(before: string, ts: seq<Token>)
    requires IsLine(before) && AllWritable(ts)
    ensures IsLine(before + TextOf(ts)) && Lex(before + TextOf(ts), |before|) == ts
    decreases |ts|
  {
    hide Lex, TextOf, TokenText, Writable, TokenAt, TokenEnd, IsSpace, SkipSpace;
    TextIsLine(ts);
    var buf := before + TextOf(ts);
    LexStep(buf, |before|);
    TextHead(ts);
    if ts == [] {
      assert buf == before;
    } else {
      var x := TokenText(ts[0]);
      var next := before + " " + x;
      TokenIsLine(ts[0]);
      LexText(next, ts[1..]);
      TextHead(ts[1..]);
      assert buf == next + TextOf(ts[1..]);
      var s := |before| + 1;
      assert buf[s..s + |x|] == x;
      TokenHere(buf, s, ts[0]);
      SkipOne(buf, |before|);
      assert ts == [ts[0]] + ts[1..];
    }
  }

  lemma TextHead(ts: seq<Token>)
    ensures TextOf(ts) == if ts == [] then "" else " " + TokenText(ts[0]) + TextOf(ts[1..])
    ensures ts != [] ==> TextOf(ts)[0] == ' '
  {
  }

  lemma SkipOne(buf: string, s: nat)
    requires s + 1 < |buf| && buf[s] == ' ' && !IsSpace(buf[s + 1])
    ensures SkipSpace(buf, s) == s + 1
  {
  }

  /** All words of a command can be typed. */
  predicate Typeable(t: Tree) {
    match t
    case Exec(ws) => forall k :: 0 <= k < |ws| ==> IsSpelling(ws[k])
    case Redir(d, r) => Typeable(d) && IsSpelling(r.file)
    case Pipe(l, r) => Typeable(l) && Typeable(r)
    case List(l, r) => Typeable(l) && Typeable(r)
    case Back(d) => Typeable(d)
  }

  lemma WritableSymbol(c: char)
    requires c in "<|>&;()"
    ensures AllWritable([Sym(c)])
  {
  }

  lemma WritableJoin(p: seq<Token>, q: seq<Token>, r: seq<Token>)
    requires AllWritable(p) && AllWritable(q) && AllWritable(r)
    ensures AllWritable(p + q) && AllWritable(p + q + r)
  {
    hide Writable;
  }

  lemma {:induction false} WrittenWritable(t: Tree, level: nat)
    requires Typeable(t)
    ensures AllWritable(Write(t, level))
    decreases t
  {
    hide Writable, IsSpelling, AllWritable;
    match t {
      case Exec(ws) => WordsWritable(ws);
      case Redir(d, r) =>
        WrittenWritable(d, 0);
        RedirWritable(r);
        WritableJoin(Write(d, 0), RedirTokens(r), RedirTokens(r));
      case Pipe(l, r) =>
        WrittenWritable(l, 0);
        WrittenWritable(r, 1);
        WritableSymbol('|');
        WritableJoin(Write(l, 0), [Sym('|')], Write(r, 1));
      case List(l, r) =>
        WrittenWritable(l, 2);
        WrittenWritable(r, 3);
        WritableSymbol(';');
        WritableJoin(Write(l, 2), [Sym(';')], Write(r, 3));
      case Back(d) =>
        WrittenWritable(d, 2);
        WritableSymbol('&');
        WritableJoin(Write(d, 2), [Sym('&')], [Sym('&')]);
    }
    WritableSymbol('(');
    WritableSymbol(')');
    WritableJoin([Sym('(')], WriteBody(t), [Sym(')')]);
  }

  lemma WordsWritable(ws: seq<string>)
    requires forall k :: 0 <= k < |ws| ==> IsSpelling(ws[k])
    ensures AllWritable(WordTokens(ws))
  {
    hide IsSpelling;
  }

  lemma RedirWritable(r: Redirect<string>)
    requires IsSpelling(r.file)
    ensures AllWritable(RedirTokens(r))
  {
    hide IsSpelling;
  }

  /** Typing a command and parsing the line gives the command. */
  lemma TypedRoundTrip(t: Tree)
    requires Typeable(t) && Proper(t)
    ensures var line := TextOf(Write(t, 3)); IsLine(line) && ReadCmd(Lex(line, 0)) == Ok(t, [])
  {
    hide Write, ReadCmd, Lex, TextOf;
    WrittenWritable(t, 3);
    LexText("", Write(t, 3));
    assert "" + TextOf(Write(t, 3)) == TextOf(Write(t, 3));
    RoundTrip(t);
  }
}
