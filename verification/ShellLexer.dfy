/** Tokens of the shell's input line (xv6/sh.c): gettoken and peek over positions of a string. */
module ShellLexer {

  predicate IsSpace(c: char) { c in [' ', '\t', '\r', '\n', '\U{000B}'] }

  predicate IsSymbol(c: char) { c in ['<', '|', '>', '&', ';', '(', ')'] }

  predicate IsWordChar(c: char) { !IsSpace(c) && !IsSymbol(c) }

  /** What gettoken returns: 0, the symbol, '+' for ">>", or 'a' for a word. */
  datatype Kind = End | Bar | Open | Shut | Semi | Amp | Less | Great | Append | Word

  /** The token starts at q and ends before eq; `next` is where the one after it starts. */
  datatype Token = Token(kind: Kind, q: nat, eq: nat, next: nat)

  function SkipSpace(s: string, i: nat): (j: nat)
    requires i <= |s|
    ensures i <= j <= |s|
    ensures forall k :: i <= k < j ==> IsSpace(s[k])
    ensures j < |s| ==> !IsSpace(s[j])
    decreases |s| - i
  {
    if i < |s| && IsSpace(s[i]) then SkipSpace(s, i + 1) else i
  }

  function WordEnd(s: string, i: nat): (j: nat)
    requires i <= |s|
    ensures i <= j <= |s|
    ensures forall k :: i <= k < j ==> IsWordChar(s[k])
    ensures j < |s| ==> !IsWordChar(s[j])
    decreases |s| - i
  {
    if i < |s| && IsWordChar(s[i]) then WordEnd(s, i + 1) else i
  }

  function KindAt(s: string, i: nat): Kind
    requires i <= |s|
  {
    if i == |s| then End
    else match s[i]
      case '|' => Bar
      case '(' => Open
      case ')' => Shut
      case ';' => Semi
      case '&' => Amp
      case '<' => Less
      case '>' => if i + 1 < |s| && s[i + 1] == '>' then Append else Great
      case _ => Word
  }

  function EndAt(s: string, i: nat): (j: nat)
    requires i <= |s|
    ensures i <= j <= |s|
  {
    match KindAt(s, i)
    case End => i
    case Append => i + 2
    case Word => WordEnd(s, i)
    case _ => i + 1
  }

  /** No white space starts at i: where gettoken and peek leave the cursor. */
  predicate Settled(s: string, i: nat) { i <= |s| && (i < |s| ==> !IsSpace(s[i])) }

  /** A whole word: word characters only, and none after them. */
  ghost predicate IsWordSpan(s: string, q: nat, eq: nat)
  {
    && q < eq <= |s|
    && (forall k :: q <= k < eq ==> IsWordChar(s[k]))
    && (eq < |s| ==> !IsWordChar(s[eq]))
  }

  /** gettoken */
  function GetToken(s: string, i: nat): (t: Token)
    requires i <= |s|
    ensures i <= t.q <= t.eq <= t.next <= |s| && Settled(s, t.next)
    ensures t.kind == Peek(s, i)
    ensures t.kind.End? ==> t.next == |s|
    ensures !t.kind.End? ==> i < t.next
    ensures t.kind.Word? ==> IsWordSpan(s, t.q, t.eq)
  {
    var q := SkipSpace(s, i);
    var eq := EndAt(s, q);
    WordIsNotEmpty(s, q);
    Token(KindAt(s, q), q, eq, SkipSpace(s, eq))
  }

  lemma WordIsNotEmpty(s: string, q: nat)
    requires q <= |s| && (q < |s| ==> !IsSpace(s[q]))
    ensures KindAt(s, q).Word? ==> q < |s| && IsWordChar(s[q]) && q < WordEnd(s, q)
  {
  }

  /** The kind of the next token, which is what peek tests. */
  function Peek(s: string, i: nat): Kind
    requires i <= |s|
  {
    KindAt(s, SkipSpace(s, i))
  }

  // ----- the loops

  method RunSkipSpace(s: string, i: nat) returns (j: nat)
    requires i <= |s|
    ensures j == SkipSpace(s, i)
  {
    j := i;
    while j < |s| && IsSpace(s[j])
      invariant i <= j <= |s| && SkipSpace(s, i) == SkipSpace(s, j)
    {
      j := j + 1;
    }
  }

  method RunWordEnd(s: string, i: nat) returns (j: nat)
    requires i <= |s|
    ensures j == WordEnd(s, i)
  {
    j := i;
    while j < |s| && !IsSpace(s[j]) && !IsSymbol(s[j])
      invariant i <= j <= |s| && WordEnd(s, i) == WordEnd(s, j)
    {
      j := j + 1;
    }
  }

  /** gettoken as written. */
  method RunGetToken(s: string, i: nat) returns (ret: Kind, q: nat, eq: nat, ps: nat)
    requires i <= |s|
    ensures Token(ret, q, eq, ps) == GetToken(s, i)
  {
    hide SkipSpace, WordEnd;
    q := RunSkipSpace(s, i);
    eq := q;
    if q == |s| {
      ret := End;
    } else if s[q] in ['|', '(', ')', ';', '&', '<'] {
      ret := KindAt(s, q);
      eq := q + 1;
    } else if s[q] == '>' {
      ret := Great;
      eq := q + 1;
      if eq < |s| && s[eq] == '>' {
        ret := Append;
        eq := eq + 1;
      }
    } else {
      ret := Word;
      eq := RunWordEnd(s, q);
    }
    ps := RunSkipSpace(s, eq);
  }

  /** peek as written, the set of characters given as kinds: it moves over white space and tests the
      next character. */
  method RunPeek(s: string, i: nat, toks: set<Kind>) returns (ps: nat, found: bool)
    requires i <= |s| && End !in toks
    ensures ps == SkipSpace(s, i) && (found <==> Peek(s, i) in toks)
    ensures ps == SkipSpace(s, ps) && Peek(s, ps) == Peek(s, i)
  {
    ps := RunSkipSpace(s, i);
    found := ps < |s| && KindAt(s, ps) in toks;
  }
}
