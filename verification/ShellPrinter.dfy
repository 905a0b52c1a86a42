/** Printing a command with parentheses only where the grammar needs them, and the proof that the
    parser (xv6/sh.c) undoes it. */
module ShellPrinter {
  import opened ShellLexer
  import opened ShellParser

  datatype Tok = Tok(kind: Kind, text: string)

  // ----- printing

  /** The weakest position a command may stand in without parentheses: argument of a redirection or
      left of "|" (0), right of "|" (1), before "&" or ";" (2), a whole line (3). */
  function Level(t: Cmd<string>): nat {
    match t
    case Exec(_) => 0
    case Redir(_, _, _, _) => 0
    case Pipe(_, _) => 1
    case Back(_) => 2
    case List(_, _) => 3
  }

  function Show(t: Cmd<string>, level: nat): seq<Tok>
    decreases t, 1
  {
    if Level(t) <= level then Body(t) else [Tok(Open, "(")] + Body(t) + [Tok(Shut, ")")]
  }

  function Body(t: Cmd<string>): seq<Tok>
    decreases t, 0
  {
    match t
    case Exec(argv) => WordToks(argv)
    case Redir(c, file, mode, fd) => Show(c, 0) + RedirToks([Redirect(file, mode, fd)])
    case Pipe(l, r) => Show(l, 0) + [Tok(Bar, "|")] + Show(r, 1)
    case Back(c) => Show(c, 2) + [Tok(Amp, "&")]
    case List(l, r) => Show(l, 2) + [Tok(Semi, ";")] + Show(r, 3)
  }

  function WordToks(argv: seq<string>): seq<Tok> {
    if argv == [] then [] else [Tok(Word, argv[0])] + WordToks(argv[1..])
  }

  function RedirToks(rs: seq<Redirect<string>>): seq<Tok> {
    if rs == [] then []
    else [RedirTok(rs[0]), Tok(Word, rs[0].file)] + RedirToks(rs[1..])
  }

  /** The text of a token list: one space after each token. */
  function Render(toks: seq<Tok>): string {
    if toks == [] then "" else toks[0].text + " " + Render(toks[1..])
  }

  predicate IsWord(w: string) { w != "" && forall k :: 0 <= k < |w| ==> IsWordChar(w[k]) }

  predicate WellFormed(t: Cmd<string>) {
    match t
    case Exec(argv) => |argv| < MAXARGS && forall k :: 0 <= k < |argv| ==> IsWord(argv[k])
    case Redir(c, file, mode, fd) => WellFormed(c) && IsWord(file) && ValidMode(mode, fd)
    case Pipe(l, r) => WellFormed(l) && WellFormed(r)
    case List(l, r) => WellFormed(l) && WellFormed(r)
    case Back(c) => WellFormed(c)
  }

  // ----- a parsed command with its words read from the line

  function Slice(s: string, w: Span): string {
    if w.q <= w.eq <= |s| then s[w.q..w.eq] else ""
  }

  function Slices(s: string, a: seq<Span>): seq<string> {
    seq(|a|, k requires 0 <= k < |a| => Slice(s, a[k]))
  }

  function Resolve(s: string, c: Cmd<Span>): Cmd<string> {
    match c
    case Exec(argv) => Exec(Slices(s, argv))
    case Redir(d, file, mode, fd) => Redir(Resolve(s, d), Slice(s, file), mode, fd)
    case Pipe(l, r) => Pipe(Resolve(s, l), Resolve(s, r))
    case List(l, r) => List(Resolve(s, l), Resolve(s, r))
    case Back(d) => Back(Resolve(s, d))
  }

  function ResolveRedirects(s: string, rs: seq<Redirect<Span>>): seq<Redirect<string>> {
    seq(|rs|, k requires 0 <= k < |rs| => Redirect(Slice(s, rs[k].file), rs[k].mode, rs[k].fd))
  }

  lemma SlicesCons(s: string, w: Span, a: seq<Span>)
    ensures Slices(s, [w] + a) == [Slice(s, w)] + Slices(s, a)
  {
  }

  lemma ResolveCons(s: string, r: Redirect<Span>, rs: seq<Redirect<Span>>)
    ensures ResolveRedirects(s, [r] + rs) == [Redirect(Slice(s, r.file), r.mode, r.fd)] + ResolveRedirects(s, rs)
  {
  }

  lemma {:induction false} ResolveWrap(s: string, c: Cmd<Span>, rs: seq<Redirect<Span>>)
    ensures Resolve(s, Wrap(c, rs)) == Wrap(Resolve(s, c), ResolveRedirects(s, rs))
  {
    if rs != [] {
      var n := |rs| - 1;
      ResolveWrap(s, c, rs[..n]);
      assert ResolveRedirects(s, rs)[..n] == ResolveRedirects(s, rs[..n]);
    }
  }

  /** Whatever parses is well formed. */
  lemma {:induction false} ParsedIsWellFormed(s: string, c: Cmd<Span>)
    requires Sound(s, c)
    ensures WellFormed(Resolve(s, c))
  {
    match c
    case Exec(argv) =>
      forall k | 0 <= k < |argv| ensures IsWord(Slices(s, argv)[k]) {
        assert IsWordSpan(s, argv[k].q, argv[k].eq);
      }
    case Redir(d, file, _, _) => ParsedIsWellFormed(s, d);
    case Pipe(l, r) => ParsedIsWellFormed(s, l); ParsedIsWellFormed(s, r);
    case List(l, r) => ParsedIsWellFormed(s, l); ParsedIsWellFormed(s, r);
    case Back(d) => ParsedIsWellFormed(s, d);
  }

  // ----- token lists of the line

  ghost predicate IsTok(s: string, t: Token, tok: Tok) {
    t.kind == tok.kind && t.q <= t.eq <= |s| && (tok.kind.Word? ==> s[t.q..t.eq] == tok.text)
  }

  /** Reading `toks` from i ends at j. */
  ghost predicate Lexes(s: string, i: nat, toks: seq<Tok>, j: nat)
    decreases |toks|
  {
    && i <= |s|
    && if toks == [] then i == j && Settled(s, i)
       else
         && Settled(s, i)
         && IsTok(s, GetToken(s, i), toks[0])
         && Lexes(s, GetToken(s, i).next, toks[1..], j)
  }

  lemma {:induction false} LexesSplit(s: string, i: nat, a: seq<Tok>, b: seq<Tok>, j: nat) returns (m: nat)
    requires Lexes(s, i, a + b, j)
    ensures Lexes(s, i, a, m) && Lexes(s, m, b, j)
    decreases |a|
  {
    if a == [] {
      m := i;
      assert a + b == b;
    } else {
      assert (a + b)[1..] == a[1..] + b;
      m := LexesSplit(s, GetToken(s, i).next, a[1..], b, j);
    }
  }

  /** Reading the first token of a list. */
  lemma {:induction false} LexesFirst(s: string, i: nat, tok: Tok, rest: seq<Tok>, j: nat) returns (t: Token)
    requires Lexes(s, i, [tok] + rest, j)
    ensures i <= |s| && t == GetToken(s, i) && IsTok(s, t, tok) && Lexes(s, t.next, rest, j)
    ensures Peek(s, i) == tok.kind && SkipSpace(s, i) == i
  {
    assert ([tok] + rest)[1..] == rest;
    t := GetToken(s, i);
  }

  lemma SettledStays(s: string, i: nat)
    requires Settled(s, i)
    ensures SkipSpace(s, i) == i
  {
  }

  lemma {:induction false} LexesEnds(s: string, i: nat, toks: seq<Tok>, j: nat)
    requires Lexes(s, i, toks, j)
    ensures Settled(s, i) && Settled(s, j)
    decreases |toks|
  {
    if toks != [] { LexesEnds(s, GetToken(s, i).next, toks[1..], j); }
  }

  // ----- redirections and words

  function RedirTok(r: Redirect<string>): Tok {
    if r.mode == O_RDONLY then Tok(Less, "<") else Tok(Great, ">")
  }

  /** One turn of the loop of parseredirs. */
  lemma {:induction false} RedirOk(s: string, acc: seq<Redirect<Span>>, i: nat, r: Redirect<string>, rest: seq<Tok>,
                                   j: nat)
    returns (out: Redirect<Span>, m: nat)
    requires Lexes(s, i, [RedirTok(r), Tok(Word, r.file)] + rest, j) && ValidMode(r.mode, r.fd)
    ensures i <= m <= |s| && Lexes(s, m, rest, j)
    ensures ParseRedirs(s, acc, i) == ParseRedirs(s, acc + [out], m)
    ensures Redirect(Slice(s, out.file), out.mode, out.fd) == r
  {
    hide Lexes, GetToken, SkipSpace, Peek, SoundRedirects, IsWordSpan, Settled;
    assert [RedirTok(r), Tok(Word, r.file)] + rest == [RedirTok(r)] + ([Tok(Word, r.file)] + rest);
    var t := LexesFirst(s, i, RedirTok(r), [Tok(Word, r.file)] + rest, j);
    var w := LexesFirst(s, t.next, Tok(Word, r.file), rest, j);
    out, m := RedirectOf(t.kind, Span(w.q, w.eq)), w.next;
  }

  lemma {:induction false} RedirsEnd(s: string, acc: seq<Redirect<Span>>, i: nat, j: nat)
    requires Lexes(s, i, [], j) && j <= |s| && !IsRedirection(Peek(s, j))
    ensures i <= |s| && ParseRedirs(s, acc, i) == Ok(acc + [], j) && ResolveRedirects(s, []) == []
  {
    assert acc + [] == acc;
    SettledStays(s, i);
  }

  lemma {:induction false} RedirsOk(s: string, acc: seq<Redirect<Span>>, i: nat, rs: seq<Redirect<string>>, j: nat)
    returns (out: seq<Redirect<Span>>)
    requires Lexes(s, i, RedirToks(rs), j) && forall k :: 0 <= k < |rs| ==> ValidMode(rs[k].mode, rs[k].fd)
    requires j <= |s| && !IsRedirection(Peek(s, j))
    ensures i <= |s| && ParseRedirs(s, acc, i) == Ok(acc + out, j)
    ensures ResolveRedirects(s, out) == rs
    decreases |rs|
  {
    hide GetToken, SkipSpace, Peek, IsWordSpan, ParseRedirs, Lexes, ResolveRedirects;
    if rs == [] {
      out := [];
      RedirsEnd(s, acc, i, j);
    } else {
      var r, m := RedirOk(s, acc, i, rs[0], RedirToks(rs[1..]), j);
      var rest := RedirsOk(s, acc + [r], m, rs[1..], j);
      out := [r] + rest;
      assert acc + [r] + rest == acc + out;
      ResolveCons(s, r, rest);
    }
  }

  /** One turn of the loop of parseexec. */
  lemma {:induction false} ArgOk(s: string, acc: seq<Span>, i: nat, word: string, rest: seq<Tok>, j: nat)
    returns (w: Span, m: nat)
    requires Lexes(s, i, [Tok(Word, word)] + rest, j) && |acc| + 1 < MAXARGS
    ensures i <= m <= |s| && Lexes(s, m, rest, j) && Slice(s, w) == word
    ensures RestOfExec(s, acc, [], i) == RestOfExec(s, acc + [w], [], m)
  {
    hide GetToken, SkipSpace, Peek, SoundRedirects, WordSpans, IsWordSpan, Settled, Lexes;
    var t := LexesFirst(s, i, Tok(Word, word), rest, j);
    w, m := Span(t.q, t.eq), t.next;
    assert ParseRedirs(s, [], i) == Ok([], i);
  }

  /** From where parseexec first looks for redirections, or looks for them after a word: the words,
      then the redirections. */
  lemma {:induction false} ArgsOk(s: string, acc: seq<Span>, i: nat, argv: seq<string>, rs: seq<Redirect<string>>,
                                  j: nat)
    returns (out: seq<Span>, rout: seq<Redirect<Span>>)
    requires Lexes(s, i, WordToks(argv) + RedirToks(rs), j) && j <= |s| && EndsExec(Peek(s, j))
    requires forall k :: 0 <= k < |rs| ==> ValidMode(rs[k].mode, rs[k].fd)
    requires |acc| + |argv| < MAXARGS
    ensures i <= |s|
    ensures RestOfExec(s, acc, [], i) == Ok((acc + out, rout), j)
    ensures Slices(s, out) == argv && ResolveRedirects(s, rout) == rs
    decreases |argv|
  {
    hide GetToken, SkipSpace, Peek, SoundRedirects, WordSpans, IsWordSpan, Lexes, ParseArgs, ParseRedirs;
    if argv == [] {
      assert WordToks(argv) + RedirToks(rs) == RedirToks(rs);
      rout := RedirsOk(s, [], i, rs, j);
      assert [] + rout == rout;
      out := [];
      assert acc + out == acc;
      ArgsEnd(s, acc, rout, i, RedirToks(rs), j);
    } else {
      hide RestOfExec, Slices, ResolveRedirects;
      assert WordToks(argv) + RedirToks(rs) == [Tok(Word, argv[0])] + (WordToks(argv[1..]) + RedirToks(rs));
      var w, m := ArgOk(s, acc, i, argv[0], WordToks(argv[1..]) + RedirToks(rs), j);
      var rest;
      rest, rout := ArgsOk(s, acc + [w], m, argv[1..], rs, j);
      out := [w] + rest;
      assert acc + [w] + rest == acc + out;
      SlicesCons(s, w, rest);
    }
  }

  /** The loop of parseexec stops at the end of the line or before a stop character. */
  lemma {:induction false} ArgsEnd(s: string, acc: seq<Span>, rs: seq<Redirect<Span>>, i: nat, toks: seq<Tok>, j: nat)
    requires Lexes(s, i, toks, j) && j <= |s| && EndsExec(Peek(s, j))
    ensures ParseArgs(s, acc, rs, j) == Ok((acc, rs), j)
  {
    hide SoundRedirects, WordSpans, IsWordSpan;
    LexesEnds(s, i, toks, j);
    SettledStays(s, j);
  }

  // ----- a command and its redirections

  function Core(t: Cmd<string>): (c: Cmd<string>)
    ensures !c.Redir?
  {
    if t.Redir? then Core(t.cmd) else t
  }

  function Redirects(t: Cmd<string>): seq<Redirect<string>> {
    if t.Redir? then Redirects(t.cmd) + [Redirect(t.file, t.mode, t.fd)] else []
  }

  function Size(t: Cmd<string>): nat {
    match t
    case Exec(_) => 0
    case Redir(c, _, _, _) => Size(c) + 1
    case Pipe(l, r) => Size(l) + Size(r) + 1
    case List(l, r) => Size(l) + Size(r) + 1
    case Back(c) => Size(c) + 1
  }

  lemma {:induction false} RedirToksConcat(a: seq<Redirect<string>>, b: seq<Redirect<string>>)
    ensures RedirToks(a + b) == RedirToks(a) + RedirToks(b)
  {
    if a == [] {
      assert a + b == b;
    } else {
      assert (a + b)[1..] == a[1..] + b;
      RedirToksConcat(a[1..], b);
    }
  }

  lemma {:induction false} Unwrap(t: Cmd<string>)
    requires WellFormed(t)
    ensures WellFormed(Core(t)) && t == Wrap(Core(t), Redirects(t)) && Size(Core(t)) <= Size(t)
    ensures t.Redir? ==> Size(Core(t)) < Size(t)
    ensures forall k :: 0 <= k < |Redirects(t)| ==> ValidMode(Redirects(t)[k].mode, Redirects(t)[k].fd)
    ensures Show(t, 0) == Show(Core(t), 0) + RedirToks(Redirects(t))
  {
    if t.Redir? {
      Unwrap(t.cmd);
      var r := [Redirect(t.file, t.mode, t.fd)];
      RedirToksConcat(Redirects(t.cmd), r);
      assert Redirects(t)[..|Redirects(t)| - 1] == Redirects(t.cmd);
    }
  }

  // ----- the parser finds what was printed

  /** The order in which the four parsers call each other on one tree. */
  function Rank(t: Cmd<string>, level: nat): nat {
    (level + match t
     case Exec(_) => 0
     case Redir(_, _, _, _) => 0
     case List(_, _) => 1
     case Back(_) => 2
     case Pipe(_, _) => 3) % 4
  }

  /** What may follow a pipeline, and a line. */
  predicate EndsPipe(k: Kind) { k.End? || k.Shut? || k.Amp? || k.Semi? }
  predicate EndsLine(k: Kind) { k.End? || k.Shut? }

  lemma {:induction false} ExecOk(s: string, i: nat, t: Cmd<string>, j: nat) returns (c: Cmd<Span>)
    requires WellFormed(t) && Lexes(s, i, Show(t, 0), j) && j <= |s| && EndsExec(Peek(s, j))
    ensures i <= |s| && ParseExec(s, i) == Ok(c, j) && Resolve(s, c) == t
    decreases Size(t), Rank(t, 0)
  {
    hide Lexes, ParseExec, ParseBlock, ParseLine, ParseRedirs, Resolve, ResolveRedirects, WellFormed, GetToken,
        SkipSpace, Wrap, Redirects,
      Sound, SoundRedirects, RedirToks, Settled, IsWordSpan;
    Unwrap(t);
    if Core(t).Exec? {
      c := SimpleOk(s, i, Core(t).argv, Redirects(t), j);
    } else {
      var open, body, shut := [Tok(Open, "(")], Body(Core(t)), [Tok(Shut, ")")];
      assert Show(t, 0) == open + (body + (shut + RedirToks(Redirects(t))));
      var a := LexesFirst(s, i, open[0], body + (shut + RedirToks(Redirects(t))), j);
      var m := LexesSplit(s, a.next, body, shut + RedirToks(Redirects(t)), j);
      var b := LexesFirst(s, m, shut[0], RedirToks(Redirects(t)), j);
      var d := LineOk(s, a.next, Core(t), m);
      var rs := RedirsOk(s, [], b.next, Redirects(t), j);
      assert [] + rs == rs;
      BlockOk(s, i, d, m, rs, j);
      ResolveWrap(s, d, rs);
      c := Wrap(d, rs);
    }
  }

  lemma {:induction false} SimpleOk(s: string, i: nat, argv: seq<string>, rs: seq<Redirect<string>>, j: nat)
    returns (c: Cmd<Span>)
    requires WellFormed(Exec(argv)) && forall k :: 0 <= k < |rs| ==> ValidMode(rs[k].mode, rs[k].fd)
    requires Lexes(s, i, WordToks(argv) + RedirToks(rs), j) && j <= |s| && EndsExec(Peek(s, j))
    ensures i <= |s| && ParseExec(s, i) == Ok(c, j) && Resolve(s, c) == Wrap(Exec(argv), rs)
  {
    hide Lexes, GetToken, SkipSpace, Peek, ParseArgs, ParseRedirs, Sound;
    var out, rout := ArgsOk(s, [], i, argv, rs, j);
    assert [] + out == out;
    ResolveWrap(s, Exec(out), rout);
    c := Wrap(Exec(out), rout);
    StartsSimple(s, i, argv, rs, j);
  }

  lemma {:induction false} StartsSimple(s: string, i: nat, argv: seq<string>, rs: seq<Redirect<string>>, j: nat)
    requires Lexes(s, i, WordToks(argv) + RedirToks(rs), j) && j <= |s| && EndsExec(Peek(s, j))
    ensures i <= |s| && SkipSpace(s, i) == i && !Peek(s, i).Open?
  {
    hide GetToken;
    SettledStays(s, i);
  }

  lemma {:induction false} BlockOk(s: string, i: nat, d: Cmd<Span>, m: nat, rs: seq<Redirect<Span>>, j: nat)
    requires i <= |s| && SkipSpace(s, i) == i && Peek(s, i).Open?
    requires ParseLine(s, GetToken(s, i).next) == Ok(d, m) && m <= |s|
    requires SkipSpace(s, m) == m && Peek(s, m).Shut?
    requires ParseRedirs(s, [], GetToken(s, m).next) == Ok(rs, j)
    ensures ParseExec(s, i) == Ok(Wrap(d, rs), j)
  {
    hide SkipSpace, GetToken, Peek, Sound, SoundRedirects, ParseRedirs, ParseLine;
  }

  lemma {:induction false} PipeOk(s: string, i: nat, t: Cmd<string>, j: nat) returns (c: Cmd<Span>)
    requires WellFormed(t) && Lexes(s, i, Show(t, 1), j) && j <= |s| && EndsPipe(Peek(s, j))
    ensures i <= |s| && ParsePipe(s, i) == Ok(c, j) && Resolve(s, c) == t
    decreases Size(t), Rank(t, 1)
  {
    hide Lexes, ParseExec, GetToken, SkipSpace, Peek, Sound;
    if t.Pipe? {
      var l, r, bar := Show(t.left, 0), Show(t.right, 1), [Tok(Bar, "|")];
      assert Show(t, 1) == l + (bar + r);
      var m := LexesSplit(s, i, l, bar + r, j);
      var b := LexesFirst(s, m, bar[0], r, j);
      var x := ExecOk(s, i, t.left, m);
      var y := PipeOk(s, b.next, t.right, j);
      c := Pipe(x, y);
    } else {
      LexesEnds(s, i, Show(t, 1), j);
      SettledStays(s, j);
      c := ExecOk(s, i, t, j);
    }
  }

  /** parsepipe and then the loop over "&" reach the command and the end of its text. */
  lemma {:induction false} BackOk(s: string, i: nat, t: Cmd<string>, j: nat)
    returns (first: Cmd<Span>, m: nat, c: Cmd<Span>)
    requires WellFormed(t) && Lexes(s, i, Show(t, 2), j) && j <= |s| && EndsPipe(Peek(s, j))
    ensures i <= |s| && ParsePipe(s, i) == Ok(first, m) && m <= |s| && Resolve(s, c) == t
    ensures Backs(s, first, m) == Backs(s, c, j)
    decreases Size(t), Rank(t, 2)
  {
    hide Lexes, ParsePipe, GetToken, SkipSpace, Peek, Sound;
    if t.Back? {
      var u, amp := Show(t.cmd, 2), [Tok(Amp, "&")];
      var p := LexesSplit(s, i, u, amp, j);
      assert amp == amp + [];
      var b := LexesFirst(s, p, amp[0], [], j);
      assert b.next == j by { LexesNone(s, b.next, j); }
      var d;
      first, m, d := BackOk(s, i, t.cmd, p);
      c := Back(d);
    } else {
      c := PipeOk(s, i, t, j);
      first, m := c, j;
    }
  }

  lemma LexesNone(s: string, i: nat, j: nat)
    requires Lexes(s, i, [], j)
    ensures i == j
  {
  }

  lemma {:induction false} LineOk(s: string, i: nat, t: Cmd<string>, j: nat) returns (c: Cmd<Span>)
    requires WellFormed(t) && Lexes(s, i, Body(t), j) && j <= |s| && EndsLine(Peek(s, j))
    ensures i <= |s| && ParseLine(s, i) == Ok(c, j) && Resolve(s, c) == t
    decreases Size(t), Rank(t, 3)
  {
    hide Lexes, ParsePipe, GetToken, SkipSpace, Peek, Sound;
    LexesEnds(s, i, Body(t), j);
    SettledStays(s, j);
    if t.List? {
      var l, r, semi := Show(t.left, 2), Show(t.right, 3), [Tok(Semi, ";")];
      assert Body(t) == l + (semi + r);
      var m := LexesSplit(s, i, l, semi + r, j);
      var b := LexesFirst(s, m, semi[0], r, j);
      var first, p, x := BackOk(s, i, t.left, m);
      var y := LineOk(s, b.next, t.right, j);
      c := List(x, y);
    } else {
      var first, p, x := BackOk(s, i, t, j);
      c := x;
    }
  }

  // ----- the lexer finds what was rendered

  predicate ValidTok(tok: Tok) {
    match tok.kind
    case Word => IsWord(tok.text)
    case Bar => tok.text == "|"
    case Open => tok.text == "("
    case Shut => tok.text == ")"
    case Semi => tok.text == ";"
    case Amp => tok.text == "&"
    case Less => tok.text == "<"
    case Great => tok.text == ">"
    case Append => tok.text == ">>"
    case End => false
  }

  ghost predicate ValidToks(toks: seq<Tok>) { forall k :: 0 <= k < |toks| ==> ValidTok(toks[k]) }

  lemma {:induction false} WordToksValid(argv: seq<string>)
    requires forall k :: 0 <= k < |argv| ==> IsWord(argv[k])
    ensures ValidToks(WordToks(argv))
  {
    if argv != [] { WordToksValid(argv[1..]); }
  }

  lemma {:induction false} BodyValid(t: Cmd<string>)
    requires WellFormed(t)
    ensures ValidToks(Body(t))
    decreases t, 0
  {
    match t
    case Exec(argv) => WordToksValid(argv);
    case Redir(c, file, mode, fd) =>
      ShowValid(c, 0);
      assert RedirToks([Redirect(file, mode, fd)]) == [RedirTok(Redirect(file, mode, fd)), Tok(Word, file)];
    case Pipe(l, r) => ShowValid(l, 0); ShowValid(r, 1);
    case List(l, r) => ShowValid(l, 2); ShowValid(r, 3);
    case Back(c) => ShowValid(c, 2);
  }

  lemma {:induction false} ShowValid(t: Cmd<string>, level: nat)
    requires WellFormed(t)
    ensures ValidToks(Show(t, level))
    decreases t, 1
  {
    hide Body;
    BodyValid(t);
  }

  lemma {:induction false} WordEndIs(s: string, i: nat, j: nat)
    requires i <= j < |s| && (forall k :: i <= k < j ==> IsWordChar(s[k])) && !IsWordChar(s[j])
    ensures WordEnd(s, i) == j
    decreases j - i
  {
    if i < j { WordEndIs(s, i + 1, j); }
  }

  /** A token's text followed by a space is that token. */
  lemma {:induction false} TokenIs(s: string, i: nat, tok: Tok)
    requires ValidTok(tok) && i + |tok.text| < |s| && s[i..i + |tok.text|] == tok.text && s[i + |tok.text|] == ' '
    ensures Settled(s, i) && IsTok(s, GetToken(s, i), tok) && GetToken(s, i).eq == i + |tok.text|
  {
    forall k | 0 <= k < |tok.text| ensures s[i + k] == tok.text[k] {
      assert s[i..i + |tok.text|][k] == s[i + k];
    }
    if tok.kind.Word? {
      forall k | i <= k < i + |tok.text| ensures IsWordChar(s[k]) {
        assert s[k] == tok.text[k - i];
      }
      WordEndIs(s, i, i + |tok.text|);
    } else {
      assert s[i] == tok.text[0] && s[i + |tok.text| - 1] == tok.text[|tok.text| - 1];
    }
    assert KindAt(s, i) == tok.kind && EndAt(s, i) == i + |tok.text|;
    SettledStays(s, i);
  }

  /** Only the one space is skipped. */
  lemma {:induction false} OneSpace(s: string, j: nat)
    requires j < |s| && s[j] == ' ' && Settled(s, j + 1)
    ensures SkipSpace(s, j) == j + 1
  {
    SettledStays(s, j + 1);
  }

  lemma {:induction false} TokenThen(s: string, i: nat, tok: Tok)
    requires ValidTok(tok) && i + |tok.text| < |s| && s[i..i + |tok.text|] == tok.text && s[i + |tok.text|] == ' '
    requires Settled(s, i + |tok.text| + 1)
    ensures Settled(s, i) && IsTok(s, GetToken(s, i), tok) && GetToken(s, i).next == i + |tok.text| + 1
  {
    hide ValidTok;
    TokenIs(s, i, tok);
    OneSpace(s, i + |tok.text|);
  }

  lemma RenderSettled(p: string, toks: seq<Tok>)
    requires ValidToks(toks)
    ensures Settled(p + Render(toks), |p|)
  {
    if toks != [] {
      assert ValidTok(toks[0]);
      assert (p + Render(toks))[|p|] == toks[0].text[0];
    }
  }

  lemma {:induction false} RenderLexes(p: string, toks: seq<Tok>)
    requires ValidToks(toks)
    ensures Lexes(p + Render(toks), |p|, toks, |p + Render(toks)|)
    decreases |toks|
  {
    hide GetToken, SkipSpace, ValidTok, Settled, IsTok;
    var s := p + Render(toks);
    RenderSettled(p, toks);
    if toks == [] {
      assert s == p;
    } else {
      var x, rest := toks[0].text, toks[1..];
      var p' := p + x + " ";
      assert s == p' + Render(rest);
      assert s[|p|..|p| + |x|] == x;
      RenderSettled(p', rest);
      TokenThen(s, |p|, toks[0]);
      RenderLexes(p', rest);
    }
  }

  // ----- main results

  function Print(t: Cmd<string>): string { Render(Show(t, 3)) }

  /** Parsing undoes printing. */
  lemma {:induction false} ParsePrint(t: Cmd<string>)
    requires WellFormed(t)
    ensures ParseCmd(Print(t)).Ok? && Resolve(Print(t), ParseCmd(Print(t)).value) == t
  {
    hide Render, ParseLine, WellFormed, Resolve, Sound, Body, Lexes;
    var s := Print(t);
    ShowValid(t, 3);
    RenderLexes("", Show(t, 3));
    assert "" + s == s;
    assert Show(t, 3) == Body(t);
    SettledStays(s, |s|);
    var c := LineOk(s, 0, t, |s|);
  }

  /** Whatever line was parsed, printing its command and parsing again gives the same command. */
  lemma {:induction false} ReparseIsStable(s: string)
    requires ParseCmd(s).Ok?
    ensures var t := Resolve(s, ParseCmd(s).value);
      WellFormed(t) && ParseCmd(Print(t)).Ok? && Resolve(Print(t), ParseCmd(Print(t)).value) == t
  {
    hide Print, ParseLine;
    ParsedIsWellFormed(s, ParseCmd(s).value);
    ParsePrint(Resolve(s, ParseCmd(s).value));
  }
}
