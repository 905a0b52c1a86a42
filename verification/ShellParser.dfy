/** The shell's recursive-descent parser (xv6/sh.c): spec functions over positions of the line, and the
    methods with the source's loops. */
module ShellParser {
  import opened ShellLexer

  const MAXARGS := 10
  const O_RDONLY := 0x000
  const O_WRONLY := 0x001
  const O_CREATE := 0x200

  datatype Span = Span(q: nat, eq: nat)

  /** A command; its words are spans of the line, or strings. */
  datatype Cmd<T> =
    | Exec(argv: seq<T>)
    | Redir(cmd: Cmd<T>, file: T, mode: nat, fd: nat)
    | Pipe(left: Cmd<T>, right: Cmd<T>)
    | List(left: Cmd<T>, right: Cmd<T>)
    | Back(cmd: Cmd<T>)

  datatype Redirect<T> = Redirect(file: T, mode: nat, fd: nat)

  datatype Error = MissingFile | Syntax | MissingParen | NoBlock | TooManyArgs

  datatype Result<T> = Ok(value: T, ps: nat) | Panic(error: Error)

  /** The redirections of one command, first one innermost. */
  function Wrap<T>(c: Cmd<T>, rs: seq<Redirect<T>>): Cmd<T> {
    if rs == [] then c
    else var r := rs[|rs| - 1]; Redir(Wrap(c, rs[..|rs| - 1]), r.file, r.mode, r.fd)
  }

  predicate IsRedirection(k: Kind) { k == Less || k == Great || k == Append }

  /** What follows a command: the characters "|)&;". */
  predicate IsStop(k: Kind) { k == Bar || k == Shut || k == Amp || k == Semi }

  /** ">" and ">>" give the same node. */
  function RedirectOf<T>(k: Kind, file: T): Redirect<T> {
    if k == Less then Redirect(file, O_RDONLY, 0) else Redirect(file, O_WRONLY + O_CREATE, 1)
  }

  predicate ValidMode(mode: nat, fd: nat) {
    (mode == O_RDONLY && fd == 0) || (mode == O_WRONLY + O_CREATE && fd == 1)
  }

  // ----- every word of a parsed command is a whole word of the line

  ghost predicate WordSpans(s: string, a: seq<Span>) {
    forall k :: 0 <= k < |a| ==> IsWordSpan(s, a[k].q, a[k].eq)
  }

  ghost predicate SoundRedirects(s: string, rs: seq<Redirect<Span>>) {
    forall k :: 0 <= k < |rs| ==> IsWordSpan(s, rs[k].file.q, rs[k].file.eq) && ValidMode(rs[k].mode, rs[k].fd)
  }

  ghost predicate Sound(s: string, c: Cmd<Span>) {
    match c
    case Exec(argv) => |argv| < MAXARGS && WordSpans(s, argv)
    case Redir(d, file, mode, fd) => Sound(s, d) && IsWordSpan(s, file.q, file.eq) && ValidMode(mode, fd)
    case Pipe(l, r) => Sound(s, l) && Sound(s, r)
    case List(l, r) => Sound(s, l) && Sound(s, r)
    case Back(d) => Sound(s, d)
  }

  lemma SoundWrap(s: string, c: Cmd<Span>, rs: seq<Redirect<Span>>)
    requires Sound(s, c) && SoundRedirects(s, rs)
    ensures Sound(s, Wrap(c, rs))
  {
    if rs != [] { SoundWrap(s, c, rs[..|rs| - 1]); }
  }

  // ----- the parser

  function ParseRedirs(s: string, rs: seq<Redirect<Span>>, i: nat): (r: Result<seq<Redirect<Span>>>)
    requires i <= |s|
    ensures r.Ok? ==> i <= r.ps <= |s|
    decreases |s| - i
  {
    hide GetToken, SkipSpace, IsWordSpan, Settled;
    var ps := SkipSpace(s, i);
    if IsRedirection(Peek(s, i)) then
      var t := GetToken(s, ps);
      var w := GetToken(s, t.next);
      if !w.kind.Word? then Panic(MissingFile)
      else ParseRedirs(s, rs + [RedirectOf(t.kind, Span(w.q, w.eq))], w.next)
    else Ok(rs, ps)
  }

  /** The loop of parseexec: words and redirections in any order. */
  function ParseArgs(s: string, argv: seq<Span>, rs: seq<Redirect<Span>>, i: nat)
    : (r: Result<(seq<Span>, seq<Redirect<Span>>)>)
    requires i <= |s|
    ensures r.Ok? ==> i <= r.ps <= |s|
    decreases |s| - i
  {
    hide GetToken, SkipSpace, IsWordSpan, Settled, ParseRedirs;
    var ps := SkipSpace(s, i);
    if IsStop(Peek(s, i)) then Ok((argv, rs), ps)
    else
      var t := GetToken(s, ps);
      if t.kind.End? then Ok((argv, rs), t.next)
      else if !t.kind.Word? then Panic(Syntax)
      else if |argv| + 1 >= MAXARGS then Panic(TooManyArgs)
      else match ParseRedirs(s, rs, t.next)
        case Panic(e) => Panic(e)
        case Ok(rs', ps') => ParseArgs(s, argv + [Span(t.q, t.eq)], rs', ps')
  }

  /** What may follow a simple command or a block. */
  predicate EndsExec(k: Kind) { k.End? || IsStop(k) }

  /** The rest of parseexec from where it looks for redirections. */
  function RestOfExec(s: string, argv: seq<Span>, rs: seq<Redirect<Span>>, i: nat)
    : Result<(seq<Span>, seq<Redirect<Span>>)>
    requires i <= |s|
  {
    match ParseRedirs(s, rs, i)
    case Panic(e) => Panic(e)
    case Ok(rs', ps) => ParseArgs(s, argv, rs', ps)
  }

  lemma {:induction false} RedirsSound(s: string, rs: seq<Redirect<Span>>, i: nat)
    requires i <= |s| && SoundRedirects(s, rs) && ParseRedirs(s, rs, i).Ok?
    ensures SoundRedirects(s, ParseRedirs(s, rs, i).value)
    decreases |s| - i
  {
    hide GetToken, SkipSpace, IsWordSpan, Settled;
    if IsRedirection(Peek(s, i)) {
      var t := GetToken(s, SkipSpace(s, i));
      var w := GetToken(s, t.next);
      RedirsSound(s, rs + [RedirectOf(t.kind, Span(w.q, w.eq))], w.next);
    }
  }

  lemma {:induction false} ArgsSound(s: string, argv: seq<Span>, rs: seq<Redirect<Span>>, i: nat)
    requires i <= |s| && SoundRedirects(s, rs) && WordSpans(s, argv)
    requires |argv| < MAXARGS && ParseArgs(s, argv, rs, i).Ok?
    ensures var r := ParseArgs(s, argv, rs, i).value; SoundRedirects(s, r.1) && WordSpans(s, r.0) && |r.0| < MAXARGS
    decreases |s| - i
  {
    hide GetToken, SkipSpace, IsWordSpan, Settled, SoundRedirects, ParseRedirs;
    var t := GetToken(s, SkipSpace(s, i));
    if !IsStop(Peek(s, i)) && !t.kind.End? {
      RedirsSound(s, rs, t.next);
      var r := ParseRedirs(s, rs, t.next);
      ArgsSound(s, argv + [Span(t.q, t.eq)], r.value, r.ps);
    }
  }

  function ParseExec(s: string, i: nat): (r: Result<Cmd<Span>>)
    requires i <= |s|
    ensures r.Ok? ==> i <= r.ps <= |s| && Sound(s, r.value)
    decreases |s| - i, 1
  {
    hide GetToken, SkipSpace, IsWordSpan, Settled, ParseRedirs, ParseArgs;
    var ps := SkipSpace(s, i);
    if Peek(s, i).Open? then ParseBlock(s, ps)
    else match ParseRedirs(s, [], ps)
      case Panic(e) => Panic(e)
      case Ok(rs, ps') =>
        match ParseArgs(s, [], rs, ps')
        case Panic(e) => Panic(e)
        case Ok((argv, rs'), ps'') =>
          RedirsSound(s, [], ps);
          ArgsSound(s, [], rs, ps');
          SoundWrap(s, Exec(argv), rs');
          Ok(Wrap(Exec(argv), rs'), ps'')
  }

  function ParseBlock(s: string, i: nat): (r: Result<Cmd<Span>>)
    requires i <= |s|
    ensures r.Ok? ==> i <= r.ps <= |s| && Sound(s, r.value)
    decreases |s| - i, 0
  {
    hide GetToken, SkipSpace, IsWordSpan, Settled, Sound;
    if !Peek(s, i).Open? then Panic(NoBlock)
    else match ParseLine(s, GetToken(s, SkipSpace(s, i)).next)
      case Panic(e) => Panic(e)
      case Ok(c, ps) =>
        if !Peek(s, ps).Shut? then Panic(MissingParen)
        else match ParseRedirs(s, [], GetToken(s, SkipSpace(s, ps)).next)
          case Panic(e) => Panic(e)
          case Ok(rs, ps') =>
            RedirsSound(s, [], GetToken(s, SkipSpace(s, ps)).next);
            SoundWrap(s, c, rs);
            Ok(Wrap(c, rs), ps')
  }

  function ParsePipe(s: string, i: nat): (r: Result<Cmd<Span>>)
    requires i <= |s|
    ensures r.Ok? ==> i <= r.ps <= |s| && Sound(s, r.value)
    decreases |s| - i, 2
  {
    match ParseExec(s, i)
    case Panic(e) => Panic(e)
    case Ok(c, ps) =>
      if Peek(s, ps).Bar? then
        match ParsePipe(s, GetToken(s, SkipSpace(s, ps)).next)
        case Panic(e) => Panic(e)
        case Ok(d, ps') => Ok(Pipe(c, d), ps')
      else Ok(c, SkipSpace(s, ps))
  }

  /** The loop of parseline over "&". */
  function Backs(s: string, c: Cmd<Span>, i: nat): (r: Result<Cmd<Span>>)
    requires i <= |s|
    ensures r.Ok? && i <= r.ps <= |s| && (Sound(s, c) ==> Sound(s, r.value))
    decreases |s| - i
  {
    if Peek(s, i).Amp? then Backs(s, Back(c), GetToken(s, SkipSpace(s, i)).next) else Ok(c, SkipSpace(s, i))
  }

  function ParseLine(s: string, i: nat): (r: Result<Cmd<Span>>)
    requires i <= |s|
    ensures r.Ok? ==> i <= r.ps <= |s| && Sound(s, r.value)
    decreases |s| - i, 3
  {
    match ParsePipe(s, i)
    case Panic(e) => Panic(e)
    case Ok(c, ps) =>
      var b := Backs(s, c, ps);
      if Peek(s, b.ps).Semi? then
        match ParseLine(s, GetToken(s, SkipSpace(s, b.ps)).next)
        case Panic(e) => Panic(e)
        case Ok(d, ps') => Ok(List(b.value, d), ps')
      else Ok(b.value, SkipSpace(s, b.ps))
  }

  /** parsecmd up to the call of nulterminate. */
  function ParseCmd(s: string): (r: Result<Cmd<Span>>)
    ensures r.Ok? ==> Sound(s, r.value)
  {
    match ParseLine(s, 0)
    case Panic(e) => Panic(e)
    case Ok(c, ps) => if SkipSpace(s, ps) != |s| then Panic(Syntax) else Ok(c, |s|)
  }

  // ----- the parser as written: a cursor, loops, recursive calls

  method RunParseRedirs(s: string, rs0: seq<Redirect<Span>>, i: nat) returns (r: Result<seq<Redirect<Span>>>)
    requires i <= |s|
    ensures r == ParseRedirs(s, rs0, i)
  {
    hide SkipSpace, Peek, GetToken, SoundRedirects, IsWordSpan, Settled;
    var rs, ps, more := rs0, i, false;
    ps, more := RunPeek(s, ps, {Less, Great, Append});
    while more
      invariant ps <= |s| && more == IsRedirection(Peek(s, ps))
      invariant ps == SkipSpace(s, ps) && ParseRedirs(s, rs, ps) == ParseRedirs(s, rs0, i)
      decreases |s| - ps
    {
      var tok, q, eq;
      tok, q, eq, ps := RunGetToken(s, ps);
      var word;
      word, q, eq, ps := RunGetToken(s, ps);
      if word != Word { return Panic(MissingFile); }
      rs := rs + [RedirectOf(tok, Span(q, eq))];
      ps, more := RunPeek(s, ps, {Less, Great, Append});
    }
    r := Ok(rs, ps);
  }

  /** The loop of parseexec, from its first test on. */
  method RunParseArgs(s: string, rs0: seq<Redirect<Span>>, i: nat)
    returns (r: Result<(seq<Span>, seq<Redirect<Span>>)>)
    requires i <= |s|
    ensures r == ParseArgs(s, [], rs0, i)
  {
    hide SkipSpace, Peek, GetToken, ParseRedirs, SoundRedirects, WordSpans, IsWordSpan, Settled;
    var argv: seq<Span>, rs := [], rs0;
    var ps, stop := RunPeek(s, i, {Bar, Shut, Amp, Semi});
    while !stop
      invariant ps <= |s| && stop == IsStop(Peek(s, ps)) && ps == SkipSpace(s, ps)
      invariant ParseArgs(s, argv, rs, ps) == ParseArgs(s, [], rs0, i)
      decreases |s| - ps
    {
      var tok, q, eq;
      tok, q, eq, ps := RunGetToken(s, ps);
      if tok == End { return Ok((argv, rs), ps); }
      if tok != Word { return Panic(Syntax); }
      if |argv| + 1 >= MAXARGS { return Panic(TooManyArgs); }
      var ret := RunParseRedirs(s, rs, ps);
      if ret.Panic? { return Panic(ret.error); }
      argv, rs := argv + [Span(q, eq)], ret.value;
      ps, stop := RunPeek(s, ret.ps, {Bar, Shut, Amp, Semi});
    }
    r := Ok((argv, rs), ps);
  }

  method RunParseExec(s: string, i: nat) returns (r: Result<Cmd<Span>>)
    requires i <= |s|
    ensures r == ParseExec(s, i)
    decreases |s| - i, 1
  {
    hide SkipSpace, Peek, GetToken, Sound;
    var ps, block := RunPeek(s, i, {Open});
    if block {
      r := RunParseBlock(s, ps);
      return;
    }
    var ret := RunParseRedirs(s, [], ps);
    if ret.Panic? { return Panic(ret.error); }
    var args := RunParseArgs(s, ret.value, ret.ps);
    if args.Panic? { return Panic(args.error); }
    r := Ok(Wrap(Exec(args.value.0), args.value.1), args.ps);
  }

  method RunParseBlock(s: string, i: nat) returns (r: Result<Cmd<Span>>)
    requires i <= |s|
    ensures r == ParseBlock(s, i)
    decreases |s| - i, 0
  {
    hide SkipSpace, Peek, GetToken, Sound;
    var ps, found := RunPeek(s, i, {Open});
    if !found { return Panic(NoBlock); }
    var tok, q, eq;
    tok, q, eq, ps := RunGetToken(s, ps);
    r := RunParseLine(s, ps);
    if r.Panic? { return; }
    ps, found := RunPeek(s, r.ps, {Shut});
    if !found { return Panic(MissingParen); }
    tok, q, eq, ps := RunGetToken(s, ps);
    var ret := RunParseRedirs(s, [], ps);
    r := if ret.Panic? then Panic(ret.error) else Ok(Wrap(r.value, ret.value), ret.ps);
  }

  method RunParsePipe(s: string, i: nat) returns (r: Result<Cmd<Span>>)
    requires i <= |s|
    ensures r == ParsePipe(s, i)
    decreases |s| - i, 2
  {
    hide SkipSpace, Peek, GetToken, Sound;
    r := RunParseExec(s, i);
    if r.Panic? { return; }
    var ps, found := RunPeek(s, r.ps, {Bar});
    if !found { return Ok(r.value, ps); }
    var tok, q, eq;
    tok, q, eq, ps := RunGetToken(s, ps);
    var rest := RunParsePipe(s, ps);
    r := if rest.Panic? then rest else Ok(Pipe(r.value, rest.value), rest.ps);
  }

  method RunParseLine(s: string, i: nat) returns (r: Result<Cmd<Span>>)
    requires i <= |s|
    ensures r == ParseLine(s, i)
    decreases |s| - i, 3
  {
    hide SkipSpace, Peek, GetToken, Sound, ParsePipe, IsWordSpan, Settled;
    r := RunParsePipe(s, i);
    if r.Panic? { return; }
    var cmd := r.value;
    var tok, q, eq;
    var ps, found := RunPeek(s, r.ps, {Amp});
    while found
      invariant ps <= |s| && i <= ps && found == Peek(s, ps).Amp? && ps == SkipSpace(s, ps)
      invariant Backs(s, cmd, ps) == Backs(s, r.value, r.ps)
      decreases |s| - ps
    {
      tok, q, eq, ps := RunGetToken(s, ps);
      cmd := Back(cmd);
      ps, found := RunPeek(s, ps, {Amp});
    }
    ps, found := RunPeek(s, ps, {Semi});
    if !found { return Ok(cmd, ps); }
    tok, q, eq, ps := RunGetToken(s, ps);
    var rest := RunParseLine(s, ps);
    r := if rest.Panic? then rest else Ok(List(cmd, rest.value), rest.ps);
  }
}
