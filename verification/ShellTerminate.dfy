/** nulterminate (xv6/sh.c): after parsing, a NUL is written behind every word, in place. */
module ShellTerminate {
  import opened ShellLexer
  import opened ShellParser

  const NUL: char := '\0'

  /** The words of a command: arguments and file names. */
  ghost function Words(c: Cmd<Span>): set<Span> {
    match c
    case Exec(argv) => set w | w in argv
    case Redir(d, file, _, _) => Words(d) + {file}
    case Pipe(l, r) => Words(l) + Words(r)
    case List(l, r) => Words(l) + Words(r)
    case Back(d) => Words(d)
  }

  /** The C string that starts at q. */
  function CString(b: seq<char>, q: nat): string
    requires q <= |b|
    decreases |b| - q
  {
    if q == |b| || b[q] == NUL then [] else [b[q]] + CString(b, q + 1)
  }

  /** `b` is `a` with a NUL at the end of each word in `ws` and nothing else changed. */
  ghost predicate Terminated(a: seq<char>, ws: set<Span>, b: seq<char>) {
    && |b| == |a|
    && (forall w :: w in ws && w.eq < |b| ==> b[w.eq] == NUL)
    && (forall k :: 0 <= k < |a| && b[k] != a[k] ==> b[k] == NUL && EndsAt(ws, k))
  }

  ghost predicate EndsAt(ws: set<Span>, k: nat) { exists w :: w in ws && w.eq == k }

  /** The words of `ws` lie in the line. */
  ghost predicate InLine(ws: set<Span>, n: nat) { forall w :: w in ws ==> w.eq < n }

  lemma {:induction false} SoundWords(s: string, c: Cmd<Span>, w: Span)
    requires Sound(s, c) && w in Words(c)
    ensures IsWordSpan(s, w.q, w.eq)
  {
    match c
    case Exec(argv) =>
    case Redir(d, file, _, _) => if w in Words(d) { SoundWords(s, d, w); }
    case Pipe(l, r) => if w in Words(l) { SoundWords(s, l, w); } else { SoundWords(s, r, w); }
    case List(l, r) => if w in Words(l) { SoundWords(s, l, w); } else { SoundWords(s, r, w); }
    case Back(d) => SoundWords(s, d, w);
  }

  /** No terminator of any word lies inside any word. */
  lemma {:induction false} EndsOutsideWords(s: string, c: Cmd<Span>, v: Span, w: Span)
    requires Sound(s, c) && v in Words(c) && w in Words(c)
    ensures !(w.q <= v.eq < w.eq)
  {
    SoundWords(s, c, v);
    SoundWords(s, c, w);
  }

  lemma {:induction false} CStringIs(b: seq<char>, q: nat, eq: nat)
    requires q <= eq < |b| && b[eq] == NUL && forall k :: q <= k < eq ==> b[k] != NUL
    ensures CString(b, q) == b[q..eq]
    decreases eq - q
  {
    if q < eq { CStringIs(b, q + 1, eq); }
  }

  /** Once terminated, the buffer holds each word as a C string. */
  lemma {:induction false} WordsReadBack(s: string, c: Cmd<Span>, b: seq<char>, w: Span)
    requires NUL !in s && Sound(s, c) && Terminated(s + [NUL], Words(c), b) && w in Words(c)
    ensures w.q <= w.eq <= |s| && CString(b, w.q) == s[w.q..w.eq]
  {
    SoundWords(s, c, w);
    forall k | w.q <= k < w.eq ensures b[k] == s[k] && b[k] != NUL {
      if b[k] != (s + [NUL])[k] {
        var v :| v in Words(c) && v.eq == k;
        EndsOutsideWords(s, c, v, w);
      }
      assert s[k] in s;
    }
    CStringIs(b, w.q, w.eq);
    assert b[w.q..w.eq] == s[w.q..w.eq];
  }

  lemma TerminatedThen(a: seq<char>, ws: set<Span>, b: seq<char>, vs: set<Span>, c: seq<char>)
    requires Terminated(a, ws, b) && Terminated(b, vs, c)
    ensures Terminated(a, ws + vs, c)
  {
    forall w | w in ws + vs && w.eq < |c| ensures c[w.eq] == NUL {}
    forall k | 0 <= k < |a| && c[k] != a[k] ensures c[k] == NUL && EndsAt(ws + vs, k) {
      if c[k] != b[k] {
        var w :| w in vs && w.eq == k;
        assert w in ws + vs;
      } else {
        var w :| w in ws && w.eq == k;
        assert w in ws + vs;
      }
    }
  }

  /** One store through an end pointer. */
  method Stop(buf: array<char>, w: Span)
    requires w.eq < buf.Length
    modifies buf
    ensures Terminated(old(buf[..]), {w}, buf[..])
  {
    buf[w.eq] := NUL;
    assert w in {w};
    assert forall k :: 0 <= k < buf.Length && buf[k] != old(buf[k]) ==> k == w.eq;
  }

  /** nulterminate, case by case. */
  method NulTerminate(buf: array<char>, c: Cmd<Span>)
    requires InLine(Words(c), buf.Length)
    modifies buf
    ensures Terminated(old(buf[..]), Words(c), buf[..])
    decreases c
  {
    hide Terminated;
    ghost var before := buf[..];
    match c
    case Exec(argv) => StopAll(buf, argv);
    case Redir(d, file, _, _) =>
      NulTerminate(buf, d);
      ghost var mid := buf[..];
      Stop(buf, file);
      TerminatedThen(before, Words(d), mid, {file}, buf[..]);
    case Pipe(l, r) =>
      NulTerminate(buf, l);
      ghost var mid := buf[..];
      NulTerminate(buf, r);
      TerminatedThen(before, Words(l), mid, Words(r), buf[..]);
    case List(l, r) =>
      NulTerminate(buf, l);
      ghost var mid := buf[..];
      NulTerminate(buf, r);
      TerminatedThen(before, Words(l), mid, Words(r), buf[..]);
    case Back(d) =>
      NulTerminate(buf, d);
  }

  /** The loop of the EXEC case. */
  method StopAll(buf: array<char>, argv: seq<Span>)
    requires forall w :: w in argv ==> w.eq < buf.Length
    modifies buf
    ensures Terminated(old(buf[..]), (set w | w in argv), buf[..])
  {
    ghost var before := buf[..];
    ghost var done: set<Span> := {};
    var i := 0;
    while i < |argv|
      invariant 0 <= i <= |argv| && done == (set w | w in argv[..i])
      invariant Terminated(before, done, buf[..])
    {
      hide Terminated;
      ghost var mid := buf[..];
      Stop(buf, argv[i]);
      TerminatedThen(before, done, mid, {argv[i]}, buf[..]);
      assert argv[..i + 1] == argv[..i] + [argv[i]];
      done := done + {argv[i]};
      i := i + 1;
    }
    assert argv[..i] == argv;
  }

  /** parsecmd on a line in a buffer, NUL included: the tree of the line, and each of its words is
      then a C string of the buffer. */
  method ParseBuffer(buf: array<char>, n: nat) returns (r: Result<Cmd<Span>>)
    requires n + 1 == buf.Length && buf[n] == NUL && NUL !in buf[..n]
    modifies buf
    ensures r == ParseCmd(old(buf[..n]))
    ensures r.Panic? ==> buf[..] == old(buf[..])
    ensures r.Ok? ==> forall w :: w in Words(r.value) ==>
      w.q <= w.eq <= n && CString(buf[..], w.q) == old(buf[..n])[w.q..w.eq]
  {
    hide ParseLine, Sound, Terminated, CString, Words;
    var s := buf[..n];
    r := RunParseLine(s, 0);
    if r.Panic? { return; }
    var ps, found := RunPeek(s, r.ps, {});
    if ps != |s| { return Panic(Syntax); }
    r := Ok(r.value, ps);
    assert Sound(s, r.value);
    forall w | w in Words(r.value) ensures w.eq < buf.Length { SoundWords(s, r.value, w); }
    assert buf[..] == s + [NUL];
    NulTerminate(buf, r.value);
    forall w | w in Words(r.value) ensures w.q <= w.eq <= n && CString(buf[..], w.q) == s[w.q..w.eq] {
      WordsReadBack(s, r.value, buf[..], w);
    }
  }
}
