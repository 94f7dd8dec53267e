/** grep.c: the matcher, against the language its pattern denotes.  A C string is the sequence
    of its characters before the terminating zero. */
module Grep {
  // ----- the languages

  type Language = iset<string>

  datatype Atom = Any | Lit(c: char)

  datatype Item = One(a: Atom) | Star(a: Atom)

  /** What a pattern asks for: the items in order, and whether the match must end the text. */
  datatype Pattern = Pattern(items: seq<Item>, toEnd: bool)

  predicate Fits(a: Atom, c: char) {
    a.Any? || a.c == c
  }

  ghost function Single(a: Atom): Language {
    iset s: string | |s| == 1 && Fits(a, s[0])
  }

  ghost predicate SplitAt(p: Language, q: Language, s: string, k: nat) {
    k <= |s| && s[..k] in p && s[k..] in q
  }

  ghost predicate Splits(p: Language, q: Language, s: string) {
    exists k: nat :: SplitAt(p, q, s, k)
  }

  ghost function Concat(p: Language, q: Language): Language {
    iset s: string | Splits(p, q, s)
  }

  ghost function Power(p: Language, n: nat): Language {
    if n == 0 then iset{""} else Concat(p, Power(p, n - 1))
  }

  ghost predicate Repeats(p: Language, s: string) {
    exists n: nat :: s in Power(p, n)
  }

  ghost function Kleene(p: Language): Language {
    iset s: string | Repeats(p, s)
  }

  ghost function ItemLang(item: Item): Language {
    if item.One? then Single(item.a) else Kleene(Single(item.a))
  }

  ghost function Lang(items: seq<Item>): Language {
    if items == [] then iset{""} else Concat(ItemLang(items[0]), Lang(items[1..]))
  }

  // ----- the syntax

  function AtomOf(c: char): Atom {
    if c == '.' then Any else Lit(c)
  }

  /** A character before a star is repeated, whatever it is; a dollar sign is an anchor only at
      the very end; a star that nothing precedes stands for itself. */
  function Parse(re: string): Pattern {
    if re == "" then Pattern([], false)
    else if |re| > 1 && re[1] == '*' then
      var rest := Parse(re[2..]);
      Pattern([Star(AtomOf(re[0]))] + rest.items, rest.toEnd)
    else if re == "$" then Pattern([], true)
    else
      var rest := Parse(re[1..]);
      Pattern([One(AtomOf(re[0]))] + rest.items, rest.toEnd)
  }

  // ----- what the three functions decide

  ghost predicate Prefix(lang: Language, toEnd: bool, text: string, j: nat) {
    j <= |text| && text[..j] in lang && (toEnd ==> j == |text|)
  }

  /** Some prefix of the text is in the language; all of it, if the pattern is anchored. */
  ghost predicate Begins(lang: Language, toEnd: bool, text: string) {
    exists j: nat :: Prefix(lang, toEnd, text, j)
  }

  ghost predicate Here(re: string, text: string) {
    var p := Parse(re);
    Begins(Lang(p.items), p.toEnd, text)
  }

  ghost predicate StarHere(a: Atom, re: string, text: string) {
    var p := Parse(re);
    Begins(Concat(Kleene(Single(a)), Lang(p.items)), p.toEnd, text)
  }

  ghost predicate Substring(re: string, text: string, i: nat, j: nat) {
    i <= j <= |text| && text[i..j] in Lang(Parse(re).items) && (Parse(re).toEnd ==> j == |text|)
  }

  /** The meaning of a search: a substring in the language, at the start of the text after a
      caret, at its end before a final dollar sign. */
  ghost predicate Matches(re: string, text: string) {
    if re != "" && re[0] == '^' then exists j: nat :: Substring(re[1..], text, 0, j)
    else exists i: nat, j: nat :: Substring(re, text, i, j)
  }

  // ----- how a prefix comes apart

  lemma EmptyBegins(text: string)
    ensures Begins(Lang([]), false, text)
    ensures Begins(Lang([]), true, text) <==> text == ""
  {
    assert Prefix(Lang([]), false, text, 0);
    if text == "" {
      assert Prefix(Lang([]), true, text, 0);
    }
  }

  lemma OneBegins(a: Atom, q: Language, toEnd: bool, text: string)
    ensures Begins(Concat(Single(a), q), toEnd, text) <==>
      text != "" && Fits(a, text[0]) && Begins(q, toEnd, text[1..])
  {
    hide Single;
    if Begins(Concat(Single(a), q), toEnd, text) {
      var j: nat :| Prefix(Concat(Single(a), q), toEnd, text, j);
      var s := text[..j];
      var k: nat :| SplitAt(Single(a), q, s, k);
      OneChar(a, s[..k]);
      Shift(text, j - 1);
      assert Prefix(q, toEnd, text[1..], j - 1);
    }
    if text != "" && Fits(a, text[0]) && Begins(q, toEnd, text[1..]) {
      var j: nat :| Prefix(q, toEnd, text[1..], j);
      var s := text[..j + 1];
      OneChar(a, s[..1]);
      Shift(text, j);
      assert SplitAt(Single(a), q, s, 1);
      assert Prefix(Concat(Single(a), q), toEnd, text, j + 1);
    }
  }

  lemma Shift(text: string, j: nat)
    requires j < |text|
    ensures text[..j + 1][1..] == text[1..][..j]
  {
  }

  lemma OneChar(a: Atom, s: string)
    ensures s in Single(a) <==> |s| == 1 && Fits(a, s[0])
  {
  }

  /** Zero or more, then the rest: either the rest now, or one more and the same again. */
  lemma StarBegins(a: Atom, q: Language, toEnd: bool, text: string)
    ensures var star := Concat(Kleene(Single(a)), q);
      Begins(star, toEnd, text) <==>
        Begins(q, toEnd, text) || (text != "" && Fits(a, text[0]) && Begins(star, toEnd, text[1..]))
  {
    hide Single, Power, Kleene;
    var p := Single(a);
    var star := Concat(Kleene(p), q);
    if Begins(star, toEnd, text) {
      var j: nat :| Prefix(star, toEnd, text, j);
      var s := text[..j];
      var k: nat :| SplitAt(Kleene(p), q, s, k);
      if k == 0 {
        assert s[0..] == s;
        assert Prefix(q, toEnd, text, j);
      } else {
        KleenePeel(a, s[..k]);
        assert s[..k][1..] == s[1..][..k - 1] && s[1..][k - 1..] == s[k..];
        assert SplitAt(Kleene(p), q, s[1..], k - 1);
        Shift(text, j - 1);
        assert Prefix(star, toEnd, text[1..], j - 1);
      }
    }
    if Begins(q, toEnd, text) {
      var j: nat :| Prefix(q, toEnd, text, j);
      var s := text[..j];
      KleeneEmpty(p);
      assert s[..0] == "" && s[0..] == s;
      assert SplitAt(Kleene(p), q, s, 0);
      assert Prefix(star, toEnd, text, j);
    }
    if text != "" && Fits(a, text[0]) && Begins(star, toEnd, text[1..]) {
      var j: nat :| Prefix(star, toEnd, text[1..], j);
      var s := text[..j + 1];
      Shift(text, j);
      var k: nat :| SplitAt(Kleene(p), q, s[1..], k);
      assert s[..k + 1][1..] == s[1..][..k] && s[1..][k..] == s[k + 1..];
      KleenePush(a, s[..k + 1]);
      assert SplitAt(Kleene(p), q, s, k + 1);
      assert Prefix(star, toEnd, text, j + 1);
    }
  }

  lemma KleeneEmpty(p: Language)
    ensures "" in Kleene(p)
  {
    assert "" in Power(p, 0);
  }

  lemma KleenePeel(a: Atom, s: string)
    requires s in Kleene(Single(a)) && s != ""
    ensures Fits(a, s[0]) && s[1..] in Kleene(Single(a))
  {
    hide Single;
    var p := Single(a);
    var n: nat :| s in Power(p, n);
    var k: nat :| SplitAt(p, Power(p, n - 1), s, k);
    OneChar(a, s[..k]);
  }

  lemma KleenePush(a: Atom, s: string)
    requires s != "" && Fits(a, s[0]) && s[1..] in Kleene(Single(a))
    ensures s in Kleene(Single(a))
  {
    hide Single;
    var p := Single(a);
    var n: nat :| s[1..] in Power(p, n);
    OneChar(a, s[..1]);
    assert SplitAt(p, Power(p, n), s, 1);
    assert s in Power(p, n + 1);
  }

  // ----- the matcher

  /** matchstar: c, repeated, then the rest of the pattern. */
  method MatchStar(c: char, re: string, text: string) returns (found: bool)
    ensures found <==> StarHere(AtomOf(c), re, text)
    decreases |re|, 1
  {
    hide Lang, Begins, Concat, Kleene, Single, Parse;
    var t := text;
    while true
      invariant StarHere(AtomOf(c), re, text) <==> StarHere(AtomOf(c), re, t)
      decreases |t|
    {
      StarBegins(AtomOf(c), Lang(Parse(re).items), Parse(re).toEnd, t);
      found := MatchHere(re, t);
      if found {
        return true;
      }
      if t == "" || (t[0] != c && c != '.') {
        return false;
      }
      t := t[1..];
    }
  }

  /** matchhere: the pattern at the beginning of the text. */
  method MatchHere(re: string, text: string) returns (found: bool)
    ensures found <==> Here(re, text)
    decreases |re|, 0
  {
    hide Begins, Concat, Kleene, Single;
    if re == "" {
      EmptyBegins(text);
      return true;
    }
    if |re| > 1 && re[1] == '*' {
      ParseStar(re);
      found := MatchStar(re[0], re[2..], text);
      return;
    }
    if re[0] == '$' && |re| == 1 {
      EmptyBegins(text);
      return text == "";
    }
    ParseOne(re);
    OneBegins(AtomOf(re[0]), Lang(Parse(re[1..]).items), Parse(re[1..]).toEnd, text);
    if text != "" && (re[0] == '.' || re[0] == text[0]) {
      found := MatchHere(re[1..], text[1..]);
      return;
    }
    return false;
  }

  lemma ParseStar(re: string)
    requires |re| > 1 && re[1] == '*'
    ensures Lang(Parse(re).items) == Concat(Kleene(Single(AtomOf(re[0]))), Lang(Parse(re[2..]).items))
    ensures Parse(re).toEnd == Parse(re[2..]).toEnd
  {
    hide Concat, Kleene, Single;
    assert Parse(re).items[1..] == Parse(re[2..]).items;
  }

  lemma ParseOne(re: string)
    requires re != "" && !(|re| > 1 && re[1] == '*') && re != "$"
    ensures Lang(Parse(re).items) == Concat(Single(AtomOf(re[0])), Lang(Parse(re[1..]).items))
    ensures Parse(re).toEnd == Parse(re[1..]).toEnd
  {
    hide Concat, Kleene, Single;
    assert Parse(re).items[1..] == Parse(re[1..]).items;
  }

  /** A match at position i is a prefix of what is left there. */
  lemma HereIsSubstring(re: string, text: string, i: nat)
    requires i <= |text|
    ensures Here(re, text[i..]) <==> exists j: nat :: Substring(re, text, i, j)
  {
    hide Lang, Parse;
    var p := Parse(re);
    if Here(re, text[i..]) {
      var j: nat :| Prefix(Lang(p.items), p.toEnd, text[i..], j);
      assert text[i..][..j] == text[i..i + j];
      assert Substring(re, text, i, i + j);
    }
    if j: nat :| Substring(re, text, i, j) {
      assert text[i..][..j - i] == text[i..j];
      assert Prefix(Lang(p.items), p.toEnd, text[i..], j - i);
    }
  }

  /** match: anywhere in the text, or at its start after a caret. */
  method Match(re: string, text: string) returns (found: bool)
    ensures found <==> Matches(re, text)
  {
    hide Lang, Parse, Here, Substring;
    if re != "" && re[0] == '^' {
      HereIsSubstring(re[1..], text, 0);
      assert text[0..] == text;
      found := MatchHere(re[1..], text);
      return;
    }
    var i := 0;
    while i <= |text|
      invariant 0 <= i <= |text| + 1
      invariant forall i': nat, j: nat :: i' < i ==> !Substring(re, text, i', j)
    {
      HereIsSubstring(re, text, i);
      found := MatchHere(re, text[i..]);
      if found {
        return;
      }
      i := i + 1;
    }
    forall i': nat, j: nat ensures !Substring(re, text, i', j) {
      SubstringInside(re, text, i', j);
    }
    return false;
  }

  lemma SubstringInside(re: string, text: string, i: nat, j: nat)
    ensures Substring(re, text, i, j) ==> i <= |text|
  {
  }
}
