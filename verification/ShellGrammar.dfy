/** What the shell's lexer and parser (xv6/sh.c) accept, said without them: how tokens make up a line,
    and a grammar over tokens. For every line the lexer gives the one list of tokens that makes it up,
    and the parser accepts exactly the lines of the grammar, with the one tree the grammar gives. */
module ShellGrammar {
  import opened ShellLexer
  import opened ShellParser

  // ----- lines as tokens

  /** A token: its kind and the piece of the line that it is. */
  datatype Lexeme = Lexeme(kind: Kind, q: nat, eq: nat)

  ghost predicate Blank(s: string, i: nat, j: nat) {
    i <= j <= |s| && forall k :: i <= k < j ==> IsSpace(s[k])
  }

  /** The piece of the line is the text of that token; a word is whole, and ">" is not half of ">>". */
  ghost predicate IsLexeme(s: string, t: Lexeme) {
    && t.q < t.eq <= |s|
    && var text := s[t.q..t.eq];
       match t.kind
       case End => false
       case Bar => text == "|"
       case Open => text == "("
       case Shut => text == ")"
       case Semi => text == ";"
       case Amp => text == "&"
       case Less => text == "<"
       case Great => text == ">" && (t.eq < |s| ==> s[t.eq] != '>')
       case Append => text == ">>"
       case Word => IsWordSpan(s, t.q, t.eq)
  }

  /** From i on the line is these tokens in this order, with white space between them and nothing else. */
  ghost predicate Tiles(s: string, ts: seq<Lexeme>, i: nat)
    decreases |ts|
  {
    if ts == [] then Blank(s, i, |s|)
    else Blank(s, i, ts[0].q) && IsLexeme(s, ts[0]) && Tiles(s, ts[1..], ts[0].eq)
  }

  /** The tokens that repeated calls of gettoken return. */
  function Lex(s: string, i: nat): seq<Lexeme>
    requires i <= |s|
    decreases |s| - i
  {
    hide GetToken, Settled, IsWordSpan, Peek;
    var t := GetToken(s, i);
    if t.kind.End? then [] else [Lexeme(t.kind, t.q, t.eq)] + Lex(s, t.next)
  }

  lemma TilesEarlier(s: string, ts: seq<Lexeme>, i: nat, j: nat)
    requires Blank(s, i, j) && Tiles(s, ts, j)
    ensures Tiles(s, ts, i)
  {
  }

  lemma TokenIsLexeme(s: string, i: nat)
    requires i <= |s|
    ensures var t := GetToken(s, i);
            && Blank(s, i, t.q) && Blank(s, t.eq, t.next)
            && (t.kind.End? ==> t.q == |s|)
            && (!t.kind.End? ==> IsLexeme(s, Lexeme(t.kind, t.q, t.eq)))
  {
    hide SkipSpace, WordEnd;
    var q := SkipSpace(s, i);
    WordIsNotEmpty(s, q);
  }

  /** The lexer's tokens make up the line. */
  lemma {:induction false} TokensTile(s: string, i: nat)
    requires i <= |s|
    ensures Tiles(s, Lex(s, i), i)
    decreases |s| - i
  {
    hide GetToken, IsLexeme, Settled, IsWordSpan, Peek;
    TokenIsLexeme(s, i);
    var t := GetToken(s, i);
    if t.kind.End? {
    } else {
      TokensTile(s, t.next);
      TilesEarlier(s, Lex(s, t.next), t.eq, t.next);
    }
  }

  /** A token starts with a character that is no white space, and that and the next one tell its kind
      and its end. */
  lemma LexemeIsToken(s: string, i: nat, t: Lexeme)
    requires Blank(s, i, t.q) && IsLexeme(s, t)
    ensures var u := GetToken(s, i); u.kind == t.kind && u.q == t.q && u.eq == t.eq
  {
    FirstChar(s, t);
    SkipIs(s, i, t.q);
    if t.kind.Word? { WordEndIs(s, t.q, t.eq); }
    hide SkipSpace, WordEnd;
    if t.kind.Append? { assert s[t.q..t.eq][1] == s[t.q + 1]; }
  }

  lemma FirstChar(s: string, t: Lexeme)
    requires IsLexeme(s, t)
    ensures s[t.q] == s[t.q..t.eq][0] && !IsSpace(s[t.q]) && KindAt(s, t.q) == t.kind
  {
    if t.kind.Append? { assert s[t.q..t.eq][1] == s[t.q + 1]; }
  }

  lemma {:induction false} SkipIs(s: string, i: nat, q: nat)
    requires Blank(s, i, q) && (q < |s| ==> !IsSpace(s[q]))
    ensures SkipSpace(s, i) == q
    decreases q - i
  {
    if i == q {
    } else {
      SkipIs(s, i + 1, q);
    }
  }

  lemma {:induction false} WordEndIs(s: string, q: nat, eq: nat)
    requires q <= eq <= |s| && (forall k :: q <= k < eq ==> IsWordChar(s[k])) && (eq < |s| ==> !IsWordChar(s[eq]))
    ensures WordEnd(s, q) == eq
    decreases eq - q
  {
    if q == eq {
    } else {
      WordEndIs(s, q + 1, eq);
    }
  }

  /** And no other tokens do. */
  lemma {:induction false} TokensUnique(s: string, ts: seq<Lexeme>, i: nat)
    requires i <= |s| && Tiles(s, ts, i)
    ensures ts == Lex(s, i)
    decreases |ts|
  {
    hide GetToken, IsLexeme, Settled, IsWordSpan, Peek;
    if ts == [] {
      AllBlank(s, i);
    } else {
      var t := ts[0];
      LexemeIsToken(s, i, t);
      LexemeBounds(s, t);
      TokensUnique(s, ts[1..], t.eq);
      TokenIsLexeme(s, i);
      LexSkips(s, t.eq, GetToken(s, i).next);
    }
  }

  lemma LexemeBounds(s: string, t: Lexeme)
    requires IsLexeme(s, t)
    ensures t.q < t.eq <= |s| && !t.kind.End?
  {
  }

  lemma AllBlank(s: string, i: nat)
    requires Blank(s, i, |s|)
    ensures Lex(s, i) == []
  {
    SkipIs(s, i, |s|);
  }

  lemma LexSkips(s: string, i: nat, j: nat)
    requires Blank(s, i, j)
    ensures Lex(s, i) == Lex(s, j)
  {
    var q := SkipSpace(s, j);
    SkipIs(s, i, q);
    hide SkipSpace;
  }

  /** Every character that is no white space lies in exactly one token, and white space in none. */
  lemma {:induction false} EveryCharacterOnce(s: string, k: nat)
    requires k < |s|
    ensures IsSpace(s[k]) <==> forall n :: 0 <= n < |Lex(s, 0)| ==> !(Lex(s, 0)[n].q <= k < Lex(s, 0)[n].eq)
    ensures forall m, n :: 0 <= m < n < |Lex(s, 0)| ==> Lex(s, 0)[m].eq <= Lex(s, 0)[n].q
  {
    TokensTile(s, 0);
    TilesCover(s, Lex(s, 0), 0, k);
  }

  lemma LexemeCovers(s: string, t: Lexeme, k: nat)
    requires IsLexeme(s, t) && t.q <= k < t.eq
    ensures !IsSpace(s[k])
  {
    assert s[t.q..t.eq][k - t.q] == s[k];
  }

  lemma {:induction false} TilesCover(s: string, ts: seq<Lexeme>, i: nat, k: nat)
    requires i <= k < |s| && Tiles(s, ts, i)
    ensures IsSpace(s[k]) <==> forall n :: 0 <= n < |ts| ==> !(ts[n].q <= k < ts[n].eq)
    ensures forall m, n :: 0 <= m < n < |ts| ==> ts[m].eq <= ts[n].q
    ensures forall n :: 0 <= n < |ts| ==> i <= ts[n].q
    decreases |ts|
  {
    hide IsLexeme;
    if ts == [] {
    } else {
      LexemeBounds(s, ts[0]);
      var rest := ts[1..];
      assert forall n :: 0 < n < |ts| ==> ts[n] == rest[n - 1];
      if ts[0].eq <= k {
        TilesCover(s, rest, ts[0].eq, k);
      } else {
        TilesOrder(s, rest, ts[0].eq);
        if ts[0].q <= k { LexemeCovers(s, ts[0], k); }
      }
    }
  }

  lemma {:induction false} TilesOrder(s: string, ts: seq<Lexeme>, i: nat)
    requires Tiles(s, ts, i)
    ensures forall m, n :: 0 <= m < n < |ts| ==> ts[m].eq <= ts[n].q
    ensures forall n :: 0 <= n < |ts| ==> i <= ts[n].q
    decreases |ts|
  {
    hide IsLexeme;
    if ts == [] {
    } else {
      LexemeBounds(s, ts[0]);
      var rest := ts[1..];
      assert forall n :: 0 < n < |ts| ==> ts[n] == rest[n - 1];
      TilesOrder(s, rest, ts[0].eq);
    }
  }

  // ----- the grammar
  //
  //   line  ::=  pipe "&"* [ ";" line ]
  //   pipe  ::=  exec [ "|" pipe ]
  //   exec  ::=  "(" line ")" redir*  |  ( word | redir )*
  //   redir ::=  ( "<" | ">" | ">>" ) word

  function SpanOf(t: Lexeme): Span { Span(t.q, t.eq) }

  /** open() modes: 0 is O_RDONLY, 0x201 is O_WRONLY|O_CREATE, for ">" and ">>" alike. */
  function RedirNode(op: Lexeme, file: Lexeme): Redirect<Span> {
    if op.kind.Less? then Redirect(SpanOf(file), 0, 0) else Redirect(SpanOf(file), 0x201, 1)
  }

  predicate IsOp(t: Lexeme) { t.kind.Less? || t.kind.Great? || t.kind.Append? }

  ghost predicate IsRedirs(ts: seq<Lexeme>, rs: seq<Redirect<Span>>)
    decreases |ts|
  {
    if ts == [] then rs == []
    else
      && |ts| >= 2 && IsOp(ts[0]) && ts[1].kind.Word?
      && rs != [] && rs[0] == RedirNode(ts[0], ts[1]) && IsRedirs(ts[2..], rs[1..])
  }

  /** Words and redirections in any order: each is kept, in its own order. */
  ghost predicate IsItems(ts: seq<Lexeme>, argv: seq<Span>, rs: seq<Redirect<Span>>)
    decreases |ts|
  {
    if ts == [] then argv == [] && rs == []
    else if ts[0].kind.Word? then argv != [] && argv[0] == SpanOf(ts[0]) && IsItems(ts[1..], argv[1..], rs)
    else
      && |ts| >= 2 && IsOp(ts[0]) && ts[1].kind.Word?
      && rs != [] && rs[0] == RedirNode(ts[0], ts[1]) && IsItems(ts[2..], argv, rs[1..])
  }

  ghost predicate IsSimple(ts: seq<Lexeme>, c: Cmd<Span>) {
    exists argv, rs :: IsItems(ts, argv, rs) && |argv| < MAXARGS && c == Wrap(Exec(argv), rs)
  }

  ghost predicate IsBlockAt(ts: seq<Lexeme>, c: Cmd<Span>, i: nat, d: Cmd<Span>, rs: seq<Redirect<Span>>)
    decreases |ts|, 0
  {
    && 0 < i < |ts| && ts[0].kind.Open? && ts[i].kind.Shut?
    && IsLine(ts[1..i], d) && IsRedirs(ts[i + 1..], rs) && c == Wrap(d, rs)
  }

  ghost predicate IsExec(ts: seq<Lexeme>, c: Cmd<Span>)
    decreases |ts|, 1
  {
    IsSimple(ts, c) || exists i, d, rs :: IsBlockAt(ts, c, i, d, rs)
  }

  ghost predicate IsPipeAt(ts: seq<Lexeme>, c: Cmd<Span>, i: nat, l: Cmd<Span>, r: Cmd<Span>)
    decreases |ts|, 2
  {
    i < |ts| && ts[i].kind.Bar? && IsExec(ts[..i], l) && IsPipe(ts[i + 1..], r) && c == Pipe(l, r)
  }

  ghost predicate IsPipe(ts: seq<Lexeme>, c: Cmd<Span>)
    decreases |ts|, 3
  {
    IsExec(ts, c) || exists i, l, r :: IsPipeAt(ts, c, i, l, r)
  }

  /** c in the background, n times over. */
  function Backed(c: Cmd<Span>, n: nat): Cmd<Span> { if n == 0 then c else Back(Backed(c, n - 1)) }

  predicate AreAmps(ts: seq<Lexeme>) { forall k :: 0 <= k < |ts| ==> ts[k].kind.Amp? }

  ghost predicate IsLastAt(ts: seq<Lexeme>, c: Cmd<Span>, i: nat, p: Cmd<Span>)
    decreases |ts|, 4
  {
    i <= |ts| && IsPipe(ts[..i], p) && AreAmps(ts[i..]) && c == Backed(p, |ts| - i)
  }

  ghost predicate IsListAt(ts: seq<Lexeme>, c: Cmd<Span>, i: nat, j: nat, p: Cmd<Span>, d: Cmd<Span>)
    decreases |ts|, 4
  {
    && i <= j < |ts| && IsPipe(ts[..i], p) && AreAmps(ts[i..j]) && ts[j].kind.Semi?
    && IsLine(ts[j + 1..], d) && c == List(Backed(p, j - i), d)
  }

  ghost predicate IsLine(ts: seq<Lexeme>, c: Cmd<Span>)
    decreases |ts|, 5
  {
    || (exists i, p :: IsLastAt(ts, c, i, p))
    || (exists i, j, p, d :: IsListAt(ts, c, i, j, p, d))
  }

  // ----- the cursor and the tokens ahead of it

  function Front(ts: seq<Lexeme>): Kind { if ts == [] then End else ts[0].kind }

  lemma Ahead(s: string, i: nat)
    requires i <= |s|
    ensures var ts, ps := Lex(s, i), SkipSpace(s, i);
            var t := GetToken(s, ps);
            && Peek(s, i) == Front(ts) && Peek(s, ps) == Front(ts) && Lex(s, ps) == ts && t.kind == Front(ts)
            && SkipSpace(s, ps) == ps
            && (ts == [] <==> ps == |s|) && (ts == [] <==> t.kind.End?) && (ts == [] ==> t.next == |s|)
            && (ts != [] ==> ts[0] == Lexeme(t.kind, t.q, t.eq) && Lex(s, t.next) == ts[1..])
  {
    var ps := SkipSpace(s, i);
    SkipIs(s, ps, ps);
    LexSkips(s, i, ps);
    TokenIsLexeme(s, ps);
    hide SkipSpace, WordEnd;
    if Lex(s, ps) != [] { assert Lex(s, ps) == [Lex(s, ps)[0]] + Lex(s, GetToken(s, ps).next); }
  }

  /** A cursor that gettoken has left stands on the next token. */
  lemma AheadOf(s: string, i: nat)
    requires i <= |s| && Settled(s, i)
    ensures SkipSpace(s, i) == i
    ensures var ts, t := Lex(s, i), GetToken(s, i);
            && t.kind == Front(ts)
            && (ts != [] ==> ts[0] == Lexeme(t.kind, t.q, t.eq) && Lex(s, t.next) == ts[1..])
  {
    SkipIs(s, i, i);
    Ahead(s, i);
  }

  lemma {:induction false} BackedBack(c: Cmd<Span>, n: nat)
    ensures Backed(Back(c), n) == Back(Backed(c, n)) == Backed(c, n + 1)
  {
    if n == 0 {
    } else {
      BackedBack(c, n - 1);
    }
  }

  /** The parser has moved over the first n tokens. */
  ghost predicate Moved(s: string, i: nat, n: nat, ps: nat) {
    i <= |s| && ps <= |s| && n <= |Lex(s, i)| && Lex(s, ps) == Lex(s, i)[n..]
  }

  lemma MovedThen(s: string, i: nat, n: nat, j: nat, m: nat, k: nat)
    requires Moved(s, i, n, j) && Moved(s, j, m, k)
    ensures Moved(s, i, n + m, k)
    ensures Lex(s, i)[..n + m] == Lex(s, i)[..n] + Lex(s, j)[..m]
  {
    hide Lex;
  }

  // ----- what the parser accepts is in the grammar

  lemma {:induction false} RedirsAre(s: string, acc: seq<Redirect<Span>>, i: nat) returns (n: nat,
      rs: seq<Redirect<Span>>)
    requires i <= |s| && ParseRedirs(s, acc, i).Ok?
    ensures var r := ParseRedirs(s, acc, i);
            && Moved(s, i, n, r.ps) && r.value == acc + rs && IsRedirs(Lex(s, i)[..n], rs)
            && !IsRedirection(Front(Lex(s, r.ps)))
    decreases |s| - i
  {
    hide GetToken, SkipSpace, Peek, Lex, IsWordSpan;
    Ahead(s, i);
    var ps, ts := SkipSpace(s, i), Lex(s, i);
    if IsRedirection(Peek(s, i)) {
      var t := GetToken(s, ps);
      AheadOf(s, t.next);
      var w := GetToken(s, t.next);
      var m, more := RedirsAre(s, acc + [RedirectOf(t.kind, Span(w.q, w.eq))], w.next);
      n, rs := m + 2, [RedirectOf(t.kind, Span(w.q, w.eq))] + more;
      assert ts[..n][2..] == ts[2..][..m] && rs[1..] == more;
      assert ts[2..] == ts[1..][1..] && ts[n..] == ts[2..][m..];
    } else {
      n, rs := 0, [];
    }
  }

  lemma {:induction false} ItemsAfter(a: seq<Lexeme>, r: seq<Redirect<Span>>, b: seq<Lexeme>, argv: seq<Span>,
                                      rs: seq<Redirect<Span>>)
    requires IsRedirs(a, r) && IsItems(b, argv, rs)
    ensures IsItems(a + b, argv, r + rs)
    decreases |a|
  {
    if a == [] {
      assert a + b == b && r + rs == rs;
    } else {
      ItemsAfter(a[2..], r[1..], b, argv, rs);
      assert (a + b)[2..] == a[2..] + b && (r + rs)[1..] == r[1..] + rs;
    }
  }

  /** One turn of the loop of parseexec. */
  lemma ArgsTurn(s: string, argv: seq<Span>, acc: seq<Redirect<Span>>, i: nat)
    requires i <= |s| && ParseArgs(s, argv, acc, i).Ok? && !EndsExec(Front(Lex(s, i)))
    ensures var t := GetToken(s, SkipSpace(s, i));
            var r := ParseRedirs(s, acc, t.next);
            && t.kind.Word? && |argv| + 1 < MAXARGS && r.Ok?
            && ParseArgs(s, argv, acc, i) == ParseArgs(s, argv + [Span(t.q, t.eq)], r.value, r.ps)
            && i < r.ps
  {
    hide GetToken, SkipSpace, Peek, Lex, IsWordSpan, ParseRedirs;
    Ahead(s, i);
  }

  /** A word, redirections and more items, put together. */
  lemma {:induction false} ItemsJoin(s: string, i: nat, p: nat, k: nat, q: nat, m: nat, e: nat,
                                     r: seq<Redirect<Span>>, b: seq<Span>, r': seq<Redirect<Span>>)
    requires Moved(s, i, 1, p) && Moved(s, p, k, q) && Moved(s, q, m, e) && Lex(s, i)[0].kind.Word?
    requires IsRedirs(Lex(s, p)[..k], r) && IsItems(Lex(s, q)[..m], b, r')
    ensures Moved(s, i, 1 + k + m, e)
    ensures IsItems(Lex(s, i)[..1 + k + m], [SpanOf(Lex(s, i)[0])] + b, r + r')
  {
    hide IsRedirs, Lex;
    var ts := Lex(s, i);
    var u := ts[..1 + k + m];
    ItemsAfter(Lex(s, p)[..k], r, Lex(s, q)[..m], b, r');
    MovedThen(s, p, k, q, m, e);
    assert u[1..] == ts[1..][..k + m];
    assert ([SpanOf(ts[0])] + b)[1..] == b;
    assert ts[1 + k + m..] == ts[1..][k..][m..];
  }

  /** parseexec's loop, from position i on, has read n tokens as the items a and rs. */
  ghost predicate ReadArgs(s: string, argv: seq<Span>, acc: seq<Redirect<Span>>, i: nat, n: nat, a: seq<Span>,
                           rs: seq<Redirect<Span>>)
    requires i <= |s|
  {
    var r := ParseArgs(s, argv, acc, i);
    && r.Ok? && Moved(s, i, n, r.ps) && r.value == (argv + a, acc + rs) && IsItems(Lex(s, i)[..n], a, rs)
    && |argv + a| < MAXARGS && EndsExec(Front(Lex(s, r.ps)))
  }

  lemma {:induction false} ReadMore(s: string, argv: seq<Span>, acc: seq<Redirect<Span>>, i: nat, p: nat, k: nat,
                                    r: seq<Redirect<Span>>, q: nat, m: nat, b: seq<Span>, r': seq<Redirect<Span>>)
    requires Moved(s, i, 1, p) && Moved(s, p, k, q) && Lex(s, i)[0].kind.Word? && IsRedirs(Lex(s, p)[..k], r)
    requires ReadArgs(s, argv + [SpanOf(Lex(s, i)[0])], acc + r, q, m, b, r')
    requires ParseArgs(s, argv, acc, i) == ParseArgs(s, argv + [SpanOf(Lex(s, i)[0])], acc + r, q)
    ensures ReadArgs(s, argv, acc, i, 1 + k + m, [SpanOf(Lex(s, i)[0])] + b, r + r')
  {
    hide Lex, ParseArgs, IsItems, IsRedirs;
    var w := SpanOf(Lex(s, i)[0]);
    hide Moved;
    ItemsJoin(s, i, p, k, q, m, ParseArgs(s, argv, acc, i).ps, r, b, r');
    assert argv + [w] + b == argv + ([w] + b) && acc + r + r' == acc + (r + r');
  }

  lemma {:induction false} ArgsAre(s: string, argv: seq<Span>, acc: seq<Redirect<Span>>, i: nat)
    returns (n: nat, a: seq<Span>, rs: seq<Redirect<Span>>)
    requires i <= |s| && ParseArgs(s, argv, acc, i).Ok? && |argv| < MAXARGS
    ensures ReadArgs(s, argv, acc, i, n, a, rs)
    decreases |s| - i
  {
    hide GetToken, SkipSpace, Peek, Lex, IsWordSpan, ParseRedirs, IsRedirs, ParseArgs, ReadArgs;
    Ahead(s, i);
    var ts := Lex(s, i);
    var t := GetToken(s, SkipSpace(s, i));
    if EndsExec(Front(ts)) {
      n, a, rs := 0, [], [];
      ReadNone(s, argv, acc, i);
    } else {
      ArgsTurn(s, argv, acc, i);
      var k, r := RedirsAre(s, acc, t.next);
      var q := ParseRedirs(s, acc, t.next).ps;
      var m, b, r' := ArgsAre(s, argv + [SpanOf(ts[0])], acc + r, q);
      n, a, rs := 1 + k + m, [SpanOf(ts[0])] + b, r + r';
      ReadMore(s, argv, acc, i, t.next, k, r, q, m, b, r');
    }
  }

  lemma ReadNone(s: string, argv: seq<Span>, acc: seq<Redirect<Span>>, i: nat)
    requires i <= |s| && EndsExec(Front(Lex(s, i))) && |argv| < MAXARGS
    ensures ReadArgs(s, argv, acc, i, 0, [], [])
  {
    hide GetToken, SkipSpace, Peek, Lex, IsWordSpan, ParseRedirs, ParseArgs;
    ArgsEnd(s, argv, acc, i);
    Ahead(s, i);
    assert argv + [] == argv;
  }

  lemma ArgsEnd(s: string, argv: seq<Span>, acc: seq<Redirect<Span>>, i: nat)
    requires i <= |s| && EndsExec(Front(Lex(s, i)))
    ensures ParseArgs(s, argv, acc, i) == Ok((argv + [], acc + []), SkipSpace(s, i))
    ensures Moved(s, i, 0, SkipSpace(s, i))
  {
    hide GetToken, SkipSpace, Peek, Lex, IsWordSpan, ParseRedirs;
    Ahead(s, i);
    assert argv + [] == argv && acc + [] == acc;
  }

  lemma LexEnd(s: string)
    ensures Lex(s, |s|) == []
  {
    AllBlank(s, |s|);
  }

  lemma {:induction false} BacksAre(s: string, c: Cmd<Span>, i: nat) returns (n: nat)
    requires i <= |s|
    ensures var r := Backs(s, c, i);
            && Moved(s, i, n, r.ps) && r.value == Backed(c, n) && AreAmps(Lex(s, i)[..n])
            && !Front(Lex(s, r.ps)).Amp? && SkipSpace(s, r.ps) == r.ps
    decreases |s| - i
  {
    hide GetToken, SkipSpace, Peek, Lex, IsWordSpan, Sound;
    Ahead(s, i);
    var ts, t := Lex(s, i), GetToken(s, SkipSpace(s, i));
    if Peek(s, i).Amp? {
      var m := BacksAre(s, Back(c), t.next);
      n := m + 1;
      BackedBack(c, m);
      assert ts[n..] == ts[1..][m..];
      forall k | 0 <= k < n ensures ts[k].kind.Amp? {
        if k > 0 { assert ts[k] == ts[1..][..m][k - 1]; }
      }
    } else {
      n := 0;
    }
  }

  /** The tokens of a block. */
  lemma {:induction false} BlockJoin(s: string, i: nat, p: nat, m: nat, q: nat, u: nat, k: nat, e: nat,
                                     d: Cmd<Span>, rs: seq<Redirect<Span>>)
    requires Moved(s, i, 1, p) && Moved(s, p, m, q) && Moved(s, q, 1, u) && Moved(s, u, k, e)
    requires Lex(s, i)[0].kind.Open? && Lex(s, q)[0].kind.Shut?
    requires IsLine(Lex(s, p)[..m], d) && IsRedirs(Lex(s, u)[..k], rs)
    ensures Moved(s, i, m + k + 2, e) && IsExec(Lex(s, i)[..m + k + 2], Wrap(d, rs))
  {
    hide IsRedirs, IsLine, Lex, Wrap, IsSimple;
    var ts := Lex(s, i);
    var b := ts[..m + k + 2];
    assert ts[1..][m] == ts[m + 1];
    assert b[1..m + 1] == Lex(s, p)[..m] && b[m + 2..] == Lex(s, u)[..k];
    assert ts[m + k + 2..] == ts[1..][m..][1..][k..];
    assert IsBlockAt(b, Wrap(d, rs), m + 1, d, rs);
  }

  lemma {:induction false} ExecIs(s: string, i: nat) returns (n: nat)
    requires i <= |s| && ParseExec(s, i).Ok?
    ensures var r := ParseExec(s, i); Moved(s, i, n, r.ps) && IsExec(Lex(s, i)[..n], r.value)
    decreases |s| - i, 1
  {
    hide GetToken, SkipSpace, Peek, Lex, IsWordSpan, Sound, ParseRedirs, ParseArgs, IsRedirs, IsItems, ParseBlock, Wrap;
    Ahead(s, i);
    var ps := SkipSpace(s, i);
    if Peek(s, i).Open? {
      n := BlockIs(s, ps);
    } else {
      var k, rs := RedirsAre(s, [], ps);
      var q := ParseRedirs(s, [], ps).ps;
      assert [] + rs == rs;
      var m, argv, r := ArgsAre(s, [], rs, q);
      n := k + m;
      assert [] + argv == argv;
      SimpleIs(s, ps, k, q, m, ParseExec(s, i).ps, rs, argv, r);
    }
  }

  lemma {:induction false} SimpleIs(s: string, i: nat, k: nat, q: nat, m: nat, e: nat, rs: seq<Redirect<Span>>,
                                    argv: seq<Span>, r: seq<Redirect<Span>>)
    requires Moved(s, i, k, q) && Moved(s, q, m, e) && |argv| < MAXARGS
    requires IsRedirs(Lex(s, i)[..k], rs) && IsItems(Lex(s, q)[..m], argv, r)
    ensures Moved(s, i, k + m, e) && IsExec(Lex(s, i)[..k + m], Wrap(Exec(argv), rs + r))
  {
    hide IsRedirs, IsItems, Lex, Wrap;
    MovedThen(s, i, k, q, m, e);
    ItemsAfter(Lex(s, i)[..k], rs, Lex(s, q)[..m], argv, r);
    assert IsSimple(Lex(s, i)[..k + m], Wrap(Exec(argv), rs + r));
  }

  lemma {:induction false} BlockIs(s: string, i: nat) returns (n: nat)
    requires i <= |s| && ParseBlock(s, i).Ok?
    ensures var r := ParseBlock(s, i); Moved(s, i, n, r.ps) && IsExec(Lex(s, i)[..n], r.value)
    decreases |s| - i, 0
  {
    hide GetToken, SkipSpace, Peek, Lex, IsWordSpan, Sound, ParseRedirs, ParseLine, IsRedirs, IsLine, IsExec, Wrap;
    Ahead(s, i);
    var p := GetToken(s, SkipSpace(s, i)).next;
    var line := ParseLine(s, p);
    var m := LineIs(s, p);
    Ahead(s, line.ps);
    var u := GetToken(s, SkipSpace(s, line.ps)).next;
    var k, rs := RedirsAre(s, [], u);
    assert [] + rs == rs;
    n := m + k + 2;
    BlockJoin(s, i, p, m, line.ps, u, k, ParseRedirs(s, [], u).ps, line.value, rs);
  }

  lemma {:induction false} PipeIs(s: string, i: nat) returns (n: nat)
    requires i <= |s| && ParsePipe(s, i).Ok?
    ensures var r := ParsePipe(s, i); Moved(s, i, n, r.ps) && IsPipe(Lex(s, i)[..n], r.value)
    decreases |s| - i, 2
  {
    hide GetToken, SkipSpace, Peek, Lex, IsWordSpan, Sound, ParseExec, IsExec;
    var m := ExecIs(s, i);
    var c := ParseExec(s, i);
    Ahead(s, c.ps);
    var ts := Lex(s, i);
    if Peek(s, c.ps).Bar? {
      var u := GetToken(s, SkipSpace(s, c.ps)).next;
      var k := PipeIs(s, u);
      var d := ParsePipe(s, u);
      n := m + 1 + k;
      hide IsPipe;
      PipeJoin(s, i, m, c.ps, u, k, d.ps, c.value, d.value);
    } else {
      n := m;
    }
  }

  lemma {:induction false} PipeJoin(s: string, i: nat, m: nat, q: nat, u: nat, k: nat, e: nat, l: Cmd<Span>,
                                    r: Cmd<Span>)
    requires Moved(s, i, m, q) && Moved(s, q, 1, u) && Moved(s, u, k, e) && Lex(s, q)[0].kind.Bar?
    requires IsExec(Lex(s, i)[..m], l) && IsPipe(Lex(s, u)[..k], r)
    ensures Moved(s, i, m + 1 + k, e) && IsPipe(Lex(s, i)[..m + 1 + k], Pipe(l, r))
  {
    hide IsExec, Lex;
    var ts := Lex(s, i);
    var b := ts[..m + 1 + k];
    assert b[..m] == ts[..m] && b[m] == ts[m..][0] && b[m + 1..] == ts[m..][1..][..k];
    assert ts[m + 1 + k..] == ts[m..][1..][k..];
    assert IsPipeAt(b, Pipe(l, r), m, l, r);
  }

  lemma {:induction false} LineIs(s: string, i: nat) returns (n: nat)
    requires i <= |s| && ParseLine(s, i).Ok?
    ensures var r := ParseLine(s, i); Moved(s, i, n, r.ps) && IsLine(Lex(s, i)[..n], r.value)
    decreases |s| - i, 3
  {
    hide GetToken, SkipSpace, Peek, Lex, IsWordSpan, Sound, ParsePipe, IsPipe, Backs, IsLine;
    var m := PipeIs(s, i);
    var c := ParsePipe(s, i);
    var k := BacksAre(s, c.value, c.ps);
    var b := Backs(s, c.value, c.ps);
    Ahead(s, b.ps);
    if Peek(s, b.ps).Semi? {
      var u := GetToken(s, SkipSpace(s, b.ps)).next;
      var h := LineIs(s, u);
      var d := ParseLine(s, u);
      n := m + k + 1 + h;
      ListJoin(s, i, m, c.ps, k, b.ps, u, h, d.ps, c.value, d.value);
    } else {
      n := m + k;
      LastJoin(s, i, m, c.ps, k, b.ps, c.value);
    }
  }

  lemma {:induction false} LastJoin(s: string, i: nat, m: nat, q: nat, k: nat, e: nat, p: Cmd<Span>)
    requires Moved(s, i, m, q) && Moved(s, q, k, e) && IsPipe(Lex(s, i)[..m], p) && AreAmps(Lex(s, q)[..k])
    ensures Moved(s, i, m + k, e) && IsLine(Lex(s, i)[..m + k], Backed(p, k))
  {
    hide IsPipe, Lex, Backed;
    MovedThen(s, i, m, q, k, e);
    var b := Lex(s, i)[..m + k];
    assert b[..m] == Lex(s, i)[..m] && b[m..] == Lex(s, q)[..k];
    assert IsLastAt(b, Backed(p, k), m, p);
  }

  lemma {:induction false} ListJoin(s: string, i: nat, m: nat, q: nat, k: nat, e: nat, u: nat, h: nat, f: nat,
                                    p: Cmd<Span>, d: Cmd<Span>)
    requires Moved(s, i, m, q) && Moved(s, q, k, e) && Moved(s, e, 1, u) && Moved(s, u, h, f)
    requires IsPipe(Lex(s, i)[..m], p) && AreAmps(Lex(s, q)[..k]) && Lex(s, e)[0].kind.Semi?
    requires IsLine(Lex(s, u)[..h], d)
    ensures Moved(s, i, m + k + 1 + h, f) && IsLine(Lex(s, i)[..m + k + 1 + h], List(Backed(p, k), d))
  {
    hide IsPipe, Lex, Backed;
    var ts := Lex(s, i);
    var b := ts[..m + k + 1 + h];
    assert b[..m] == ts[..m] && b[m..m + k] == ts[m..][..k] && b[m + k] == ts[m..][k..][0];
    assert b[m + k + 1..] == ts[m..][k..][1..][..h];
    assert ts[m + k + 1 + h..] == ts[m..][k..][1..][h..];
    assert IsListAt(b, List(Backed(p, k), d), m, m + k, p, d);
  }

  // ----- what is in the grammar the parser accepts, with that tree

  /** `ts` lies ahead of the cursor, and `rest` behind it. */
  ghost predicate Holds(s: string, i: nat, ts: seq<Lexeme>, rest: seq<Lexeme>) {
    i <= |s| && Lex(s, i) == ts + rest
  }

  /** The first token ahead. */
  lemma HoldsFirst(s: string, i: nat, ts: seq<Lexeme>, rest: seq<Lexeme>)
    requires Holds(s, i, ts, rest) && ts != []
    ensures var t := GetToken(s, SkipSpace(s, i));
            && Peek(s, i) == t.kind == ts[0].kind && SpanOf(ts[0]) == Span(t.q, t.eq)
            && i < t.next <= |s| && Settled(s, t.next) && Holds(s, t.next, ts[1..], rest)
  {
    hide GetToken, SkipSpace, Peek, Lex, IsWordSpan, Settled;
    Ahead(s, i);
    assert (ts + rest)[1..] == ts[1..] + rest;
  }

  lemma HoldsSplit(s: string, i: nat, ts: seq<Lexeme>, rest: seq<Lexeme>, k: nat)
    requires Holds(s, i, ts, rest) && k <= |ts|
    ensures Holds(s, i, ts[..k], ts[k..] + rest)
  {
    hide Lex;
    assert ts + rest == ts[..k] + (ts[k..] + rest);
  }

  lemma HoldsNone(s: string, i: nat, rest: seq<Lexeme>)
    requires Holds(s, i, [], rest)
    ensures Peek(s, i) == Front(rest) && Lex(s, i) == rest && Lex(s, SkipSpace(s, i)) == rest
    ensures (rest == [] ==> GetToken(s, SkipSpace(s, i)).next == |s| == SkipSpace(s, i))
    ensures GetToken(s, SkipSpace(s, i)).kind == Front(rest)
    ensures SkipSpace(s, SkipSpace(s, i)) == SkipSpace(s, i)
    ensures Front(rest).End? <==> rest == []
  {
    Ahead(s, i);
    assert [] + rest == rest;
  }

  /** A redirection ahead: one turn of parseredirs. */
  lemma RedirTurn(s: string, acc: seq<Redirect<Span>>, i: nat, ts: seq<Lexeme>, rest: seq<Lexeme>) returns (j: nat)
    requires Holds(s, i, ts, rest) && |ts| >= 2 && IsOp(ts[0]) && ts[1].kind.Word?
    ensures i < j <= |s| && Holds(s, j, ts[2..], rest)
    ensures ParseRedirs(s, acc, i) == ParseRedirs(s, acc + [RedirNode(ts[0], ts[1])], j)
  {
    hide GetToken, SkipSpace, Peek, Lex, IsWordSpan;
    HoldsFirst(s, i, ts, rest);
    var t := GetToken(s, SkipSpace(s, i));
    HoldsFirst(s, t.next, ts[1..], rest);
    AheadOf(s, t.next);
    j := GetToken(s, t.next).next;
    assert ts[1..][1..] == ts[2..];
  }

  lemma {:induction false} RedirsParse(s: string, acc: seq<Redirect<Span>>, i: nat, ts: seq<Lexeme>,
                                       rs: seq<Redirect<Span>>, rest: seq<Lexeme>)
    returns (ps: nat)
    requires Holds(s, i, ts, rest) && IsRedirs(ts, rs) && !IsRedirection(Front(rest))
    ensures ParseRedirs(s, acc, i) == Ok(acc + rs, ps) && Holds(s, ps, [], rest)
    decreases |ts|
  {
    hide GetToken, SkipSpace, Peek, Lex, IsWordSpan;
    if ts == [] {
      HoldsNone(s, i, rest);
      ps := SkipSpace(s, i);
      assert acc + rs == acc && [] + rest == rest;
    } else {
      var j := RedirTurn(s, acc, i, ts, rest);
      ps := RedirsParse(s, acc + [rs[0]], j, ts[2..], rs[1..], rest);
      assert acc + [rs[0]] + rs[1..] == acc + rs;
    }
  }

  /** A word ahead: one turn of the loop. */
  lemma WordTurn(s: string, argv: seq<Span>, acc: seq<Redirect<Span>>, i: nat, ts: seq<Lexeme>, rest: seq<Lexeme>)
    returns (j: nat)
    requires Holds(s, i, ts, rest) && ts != [] && ts[0].kind.Word? && |argv| + 1 < MAXARGS
    ensures i < j <= |s| && Holds(s, j, ts[1..], rest)
    ensures RestOfExec(s, argv, acc, i) == RestOfExec(s, argv + [SpanOf(ts[0])], acc, j)
  {
    hide GetToken, SkipSpace, Peek, Lex, IsWordSpan;
    HoldsFirst(s, i, ts, rest);
    Ahead(s, i);
    var ps := SkipSpace(s, i);
    assert ParseRedirs(s, acc, i) == Ok(acc, ps);
    Ahead(s, ps);
    j := GetToken(s, ps).next;
  }

  lemma {:induction false} ItemsParse(s: string, argv: seq<Span>, acc: seq<Redirect<Span>>, i: nat, ts: seq<Lexeme>,
                                      a: seq<Span>, rs: seq<Redirect<Span>>, rest: seq<Lexeme>)
    returns (ps: nat)
    requires Holds(s, i, ts, rest) && IsItems(ts, a, rs) && |argv| + |a| < MAXARGS && EndsExec(Front(rest))
    ensures RestOfExec(s, argv, acc, i) == Ok((argv + a, acc + rs), ps) && Holds(s, ps, [], rest)
    decreases |ts|
  {
    hide GetToken, SkipSpace, Peek, Lex, IsWordSpan, ParseArgs, ParseRedirs;
    if ts == [] {
      ps := RedirsParse(s, acc, i, [], [], rest);
      HoldsNone(s, ps, rest);
      ArgsEnd(s, argv, acc, ps);
      assert acc + [] == acc && argv + [] == argv && [] + rest == rest;
      ps := SkipSpace(s, ps);
    } else if ts[0].kind.Word? {
      var j := WordTurn(s, argv, acc, i, ts, rest);
      ps := ItemsParse(s, argv + [a[0]], acc, j, ts[1..], a[1..], rs, rest);
      assert argv + [a[0]] + a[1..] == argv + a;
    } else {
      var j := RedirTurn(s, acc, i, ts, rest);
      ps := ItemsParse(s, argv, acc + [rs[0]], j, ts[2..], a, rs[1..], rest);
      assert acc + [rs[0]] + rs[1..] == acc + rs;
    }
  }

  lemma {:induction false} BacksParse(s: string, c: Cmd<Span>, i: nat, ts: seq<Lexeme>,
                                      rest: seq<Lexeme>) returns (ps: nat)
    requires Holds(s, i, ts, rest) && AreAmps(ts) && !Front(rest).Amp?
    ensures Backs(s, c, i) == Ok(Backed(c, |ts|), ps) && Holds(s, ps, [], rest)
    decreases |ts|
  {
    hide GetToken, SkipSpace, Peek, Lex, IsWordSpan, Sound;
    if ts == [] {
      HoldsNone(s, i, rest);
      ps := SkipSpace(s, i);
      assert [] + rest == rest;
    } else {
      HoldsFirst(s, i, ts, rest);
      ps := BacksParse(s, Back(c), GetToken(s, SkipSpace(s, i)).next, ts[1..], rest);
      BackedBack(c, |ts| - 1);
    }
  }

  /** What may follow a pipe, and a line. */
  predicate EndsPipe(k: Kind) { k.End? || k.Shut? || k.Amp? || k.Semi? }

  predicate EndsLine(k: Kind) { k.End? || k.Shut? }

  lemma HoldsSkip(s: string, i: nat, ts: seq<Lexeme>, rest: seq<Lexeme>)
    requires Holds(s, i, ts, rest)
    ensures Holds(s, SkipSpace(s, i), ts, rest) && Peek(s, i) == Front(ts + rest)
    ensures SkipSpace(s, SkipSpace(s, i)) == SkipSpace(s, i) && Peek(s, SkipSpace(s, i)) == Peek(s, i)
  {
    Ahead(s, i);
  }

  lemma NotOpen(ts: seq<Lexeme>, argv: seq<Span>, rs: seq<Redirect<Span>>, rest: seq<Lexeme>)
    requires IsItems(ts, argv, rs) && EndsExec(Front(rest))
    ensures !Front(ts + rest).Open?
  {
    if ts == [] { assert ts + rest == rest; }
  }

  lemma {:induction false} SimpleParse(s: string, i: nat, ts: seq<Lexeme>, argv: seq<Span>, rs: seq<Redirect<Span>>,
                                       rest: seq<Lexeme>)
    returns (ps: nat)
    requires Holds(s, i, ts, rest) && IsItems(ts, argv, rs) && |argv| < MAXARGS && EndsExec(Front(rest))
    ensures ParseExec(s, i) == Ok(Wrap(Exec(argv), rs), ps) && Holds(s, ps, [], rest)
  {
    hide GetToken, SkipSpace, Peek, Lex, IsWordSpan, Sound, ParseRedirs, ParseArgs, IsItems, ParseBlock, Wrap, Holds;
    HoldsSkip(s, i, ts, rest);
    NotOpen(ts, argv, rs, rest);
    assert SkipSpace(s, i) <= |s| && i <= |s| by { HoldsIn(s, i, ts, rest); }
    ps := ItemsParse(s, [], [], SkipSpace(s, i), ts, argv, rs, rest);
    assert [] + argv == argv && [] + rs == rs;
  }

  lemma HoldsIn(s: string, i: nat, ts: seq<Lexeme>, rest: seq<Lexeme>)
    requires Holds(s, i, ts, rest)
    ensures i <= |s|
  {
  }

  lemma {:induction false} ExecParse(s: string, i: nat, ts: seq<Lexeme>, c: Cmd<Span>,
                                     rest: seq<Lexeme>) returns (ps: nat)
    requires Holds(s, i, ts, rest) && IsExec(ts, c) && EndsExec(Front(rest))
    ensures i <= |s| && ParseExec(s, i) == Ok(c, ps) && Holds(s, ps, [], rest)
    decreases |ts|, 1
  {
    hide GetToken, SkipSpace, Peek, Lex, IsWordSpan, Sound, ParseRedirs, ParseArgs, IsItems, ParseBlock, Wrap, Holds,
        IsLine;
    hide IsRedirs;
    HoldsIn(s, i, ts, rest);
    if IsSimple(ts, c) {
      var argv, rs :| IsItems(ts, argv, rs) && |argv| < MAXARGS && c == Wrap(Exec(argv), rs);
      ps := SimpleParse(s, i, ts, argv, rs, rest);
    } else {
      var k: nat, d, rs :| IsBlockAt(ts, c, k, d, rs);
      HoldsSkip(s, i, ts, rest);
      HoldsIn(s, SkipSpace(s, i), ts, rest);
      ps := BlockParse(s, SkipSpace(s, i), ts, c, k, d, rs, rest);
    }
  }

  lemma {:induction false} BlockParse(s: string, i: nat, ts: seq<Lexeme>, c: Cmd<Span>, k: nat, d: Cmd<Span>,
                                      rs: seq<Redirect<Span>>, rest: seq<Lexeme>)
    returns (ps: nat)
    requires Holds(s, i, ts, rest) && IsBlockAt(ts, c, k, d, rs) && EndsExec(Front(rest))
    ensures i <= |s| && ParseBlock(s, i) == Ok(c, ps) && Holds(s, ps, [], rest)
    decreases |ts|, 0
  {
    hide GetToken, SkipSpace, Peek, Lex, IsWordSpan, Sound, ParseRedirs, Wrap, Holds, IsLine, IsRedirs, Settled;
    HoldsIn(s, i, ts, rest);
    HoldsFirst(s, i, ts, rest);
    var p := GetToken(s, SkipSpace(s, i)).next;
    var tail := ts[1..];
    HoldsSplit(s, p, tail, rest, k - 1);
    assert tail[..k - 1] == ts[1..k] && tail[k - 1..] == ts[k..];
    var q := LineParse(s, p, ts[1..k], d, ts[k..] + rest);
    HoldsMove(s, q, ts[k..], rest);
    HoldsFirst(s, q, ts[k..], rest);
    assert ts[k..][1..] == ts[k + 1..];
    ps := RedirsParse(s, [], GetToken(s, SkipSpace(s, q)).next, ts[k + 1..], rs, rest);
    assert [] + rs == rs;
  }

  lemma HoldsMove(s: string, i: nat, ts: seq<Lexeme>, rest: seq<Lexeme>)
    requires Holds(s, i, [], ts + rest)
    ensures Holds(s, i, ts, rest)
  {
    assert [] + (ts + rest) == ts + rest;
  }

  lemma {:induction false} PipeParse(s: string, i: nat, ts: seq<Lexeme>, c: Cmd<Span>,
                                     rest: seq<Lexeme>) returns (ps: nat)
    requires Holds(s, i, ts, rest) && IsPipe(ts, c) && EndsPipe(Front(rest))
    ensures i <= |s| && ParsePipe(s, i) == Ok(c, ps) && Holds(s, ps, [], rest)
    decreases |ts|, 2
  {
    hide GetToken, SkipSpace, Peek, Lex, IsWordSpan, Sound, ParseExec, Holds, IsExec, Settled;
    HoldsIn(s, i, ts, rest);
    if IsExec(ts, c) {
      ps := ExecParse(s, i, ts, c, rest);
      HoldsSkip(s, ps, [], rest);
      assert [] + rest == rest;
      ps := SkipSpace(s, ps);
    } else {
      var k: nat, l, r :| IsPipeAt(ts, c, k, l, r);
      HoldsSplit(s, i, ts, rest, k);
      var q := ExecParse(s, i, ts[..k], l, ts[k..] + rest);
      HoldsMove(s, q, ts[k..], rest);
      HoldsFirst(s, q, ts[k..], rest);
      assert ts[k..][1..] == ts[k + 1..];
      ps := PipeParse(s, GetToken(s, SkipSpace(s, q)).next, ts[k + 1..], r, rest);
    }
  }

  /** A pipe and its "&"s, up to the test for ";". */
  lemma {:induction false} PipeBacksParse(s: string, i: nat, ts: seq<Lexeme>, k: nat, p: Cmd<Span>, rest: seq<Lexeme>)
    returns (ps: nat)
    requires Holds(s, i, ts, rest) && k <= |ts| && IsPipe(ts[..k], p) && AreAmps(ts[k..])
    requires EndsPipe(Front(rest)) && !Front(rest).Amp?
    ensures i <= |s| && ParsePipe(s, i).Ok? && ParsePipe(s, i).value == p
    ensures Backs(s, p, ParsePipe(s, i).ps) == Ok(Backed(p, |ts| - k), ps) && Holds(s, ps, [], rest)
    decreases |ts|, 3
  {
    hide GetToken, SkipSpace, Peek, Lex, IsWordSpan, Sound, ParsePipe, Holds, IsPipe, Backs, Backed, Settled;
    HoldsSplit(s, i, ts, rest, k);
    if k == |ts| { assert ts[k..] + rest == rest; } else { assert Front(ts[k..] + rest) == ts[k].kind; }
    var q := PipeParse(s, i, ts[..k], p, ts[k..] + rest);
    HoldsMove(s, q, ts[k..], rest);
    ps := BacksParse(s, p, q, ts[k..], rest);
  }

  lemma {:induction false} LineParse(s: string, i: nat, ts: seq<Lexeme>, c: Cmd<Span>,
                                     rest: seq<Lexeme>) returns (ps: nat)
    requires Holds(s, i, ts, rest) && IsLine(ts, c) && EndsLine(Front(rest))
    ensures i <= |s| && ParseLine(s, i) == Ok(c, ps) && Holds(s, ps, [], rest)
    decreases |ts|, 4
  {
    hide GetToken, SkipSpace, Peek, Lex, IsWordSpan, Sound, ParsePipe, Holds, IsPipe, Backs, Backed, Settled, AreAmps;
    HoldsIn(s, i, ts, rest);
    if exists k, p :: IsLastAt(ts, c, k, p) {
      var k: nat, p :| IsLastAt(ts, c, k, p);
      ps := PipeBacksParse(s, i, ts, k, p, rest);
      HoldsSkip(s, ps, [], rest);
      assert [] + rest == rest;
      ps := SkipSpace(s, ps);
    } else {
      var k: nat, j: nat, p, d :| IsListAt(ts, c, k, j, p, d);
      HoldsSplit(s, i, ts, rest, j);
      assert ts[..j][..k] == ts[..k] && ts[..j][k..] == ts[k..j];
      var q := PipeBacksParse(s, i, ts[..j], k, p, ts[j..] + rest);
      HoldsMove(s, q, ts[j..], rest);
      HoldsFirst(s, q, ts[j..], rest);
      assert ts[j..][1..] == ts[j + 1..];
      ps := LineParse(s, GetToken(s, SkipSpace(s, q)).next, ts[j + 1..], d, rest);
    }
  }

  /** For every line and every tree: parsecmd gives that tree if and only if the grammar does. So it
      succeeds exactly on the lines of the grammar, and the grammar gives a line one tree at most. */
  lemma {:induction false} ParserIsGrammar(s: string, c: Cmd<Span>)
    ensures ParseCmd(s) == Ok(c, |s|) <==> IsLine(Lex(s, 0), c)
  {
    hide SkipSpace, Lex, Sound, ParseLine, IsLine;
    if IsLine(Lex(s, 0), c) {
      assert Lex(s, 0) + [] == Lex(s, 0);
      var ps := LineParse(s, 0, Lex(s, 0), c, []);
      HoldsNone(s, ps, []);
    }
    if ParseCmd(s).Ok? {
      var n := LineIs(s, 0);
      Ahead(s, ParseLine(s, 0).ps);
      assert Lex(s, 0)[..n] == Lex(s, 0);
    }
  }

  lemma AcceptsExactly(s: string)
    ensures ParseCmd(s).Ok? <==> exists c :: IsLine(Lex(s, 0), c)
  {
    hide IsLine, Lex, ParseLine, SkipSpace, Sound;
    if ParseCmd(s).Ok? { ParserIsGrammar(s, ParseCmd(s).value); }
    if c :| IsLine(Lex(s, 0), c) { ParserIsGrammar(s, c); }
  }
}
