/** The shell's parser over its input line (sh.c): gettoken, peek and the parse functions move a
    position through the text; nulterminate then writes a NUL after each word in place. */
module Shell {
  import opened ShellGrammar

  /** A word is the slice [q, eq) of the line. */
  datatype Slice = Slice(q: nat, eq: nat)

  const BLANKS: string := [' ', '\t', '\r', '\n', '\U{000B}']
  const SYMBOLS: string := "<|>&;()"

  predicate IsBlank(c: char)
  {
    c in BLANKS
  }

  predicate IsSymbol(c: char)
  {
    c in SYMBOLS
  }

  predicate IsWordChar(c: char)
  {
    !IsBlank(c) && !IsSymbol(c) && c != '\0'
  }

  /** The classes of the characters, as sh.c lists them. */
  lemma CharClasses(c: char)
    ensures IsBlank(c) <==> c == ' ' || c == '\t' || c == '\r' || c == '\n' || c == '\U{000B}'
    ensures IsSymbol(c) <==> c == '<' || c == '|' || c == '>' || c == '&' || c == ';' || c == '(' || c == ')'
    ensures IsWordChar(c) || IsBlank(c) || IsSymbol(c) || c == '\0'
    ensures IsWordChar(c) ==> !IsBlank(c) && !IsSymbol(c) && c != '\0'
  {
  }

  // ---------------------------------------------------------------- the tokens of a line

  function AfterBlanks(s: string, p: nat): (r: nat)
    requires p <= |s|
    ensures p <= r <= |s| && (r < |s| ==> !IsBlank(s[r])) && forall i | p <= i < r :: IsBlank(s[i])
    decreases |s| - p
  {
    if p < |s| && IsBlank(s[p]) then AfterBlanks(s, p + 1) else p
  }

  function WordEnd(s: string, p: nat): (r: nat)
    requires p <= |s|
    ensures p <= r <= |s| && (r < |s| ==> IsBlank(s[r]) || IsSymbol(s[r]))
    ensures forall i | p <= i < r :: !IsBlank(s[i]) && !IsSymbol(s[i])
    decreases |s| - p
  {
    if p < |s| && !IsBlank(s[p]) && !IsSymbol(s[p]) then WordEnd(s, p + 1) else p
  }

  /** The first token at or after p and the place after it. */
  function Next(s: string, p: nat): (r: (Tok<Slice>, nat))
    requires p < |s| && !IsBlank(s[p])
    ensures p < r.1 <= |s|
  {
    if s[p] == '>' && p + 1 < |s| && s[p + 1] == '>' then (Append, p + 2)
    else if IsSymbol(s[p]) then (Sym(s[p]), p + 1)
    else (Word(Slice(p, WordEnd(s, p + 1))), WordEnd(s, p + 1))
  }

  function Toks(s: string, p: nat): seq<Tok<Slice>>
    requires p <= |s|
    decreases |s| - p
  {
    var q := AfterBlanks(s, p);
    if q == |s| then [] else [Next(s, q).0] + Toks(s, Next(s, q).1)
  }

  lemma ToksAfterBlanks(s: string, p: nat)
    requires p <= |s|
    ensures AfterBlanks(s, AfterBlanks(s, p)) == AfterBlanks(s, p)
    ensures Toks(s, AfterBlanks(s, p)) == Toks(s, p)
  {
    var q := AfterBlanks(s, p);
    assert AfterBlanks(s, q) == q;
  }

  /** `while(s < es && strchr(whitespace, *s)) s++`. */
  method SkipBlanks(s: string, p: nat) returns (r: nat)
    requires p <= |s|
    ensures r == AfterBlanks(s, p)
  {
    r := p;
    while r < |s| && IsBlank(s[r])
      invariant p <= r <= |s| && AfterBlanks(s, r) == AfterBlanks(s, p)
    {
      r := r + 1;
    }
  }

  /** The code gettoken returns for a token: the symbol, '+' for >>, 'a' for a word. */
  function Code(t: Tok<Slice>): char
  {
    match t
    case Sym(c) => c
    case Append => '+'
    case Word(_) => 'a'
  }

  /** gettoken: takes the first token of what is left, or nothing at the end. */
  method Gettoken(s: string, p: nat) returns (tok: char, q: nat, eq: nat, r: nat)
    requires p <= |s| && '\0' !in s
    ensures r <= |s| && AfterBlanks(s, r) == r
    ensures Toks(s, p) == [] ==> tok == '\0' && Toks(s, r) == []
    ensures Toks(s, p) != [] ==> Toks(s, r) == Toks(s, p)[1..] && tok == Code(Toks(s, p)[0]) && tok != '\0'
    ensures Toks(s, p) != [] && tok == 'a' ==> Toks(s, p)[0] == Word(Slice(q, eq))
  {
    r := SkipBlanks(s, p);
    q := r;
    if r == |s| {
      return '\0', q, r, r;
    }
    tok := s[r];
    if tok == '|' || tok == '(' || tok == ')' || tok == ';' || tok == '&' || tok == '<' {
      r := r + 1;
    } else if tok == '>' {
      r := r + 1;
      if r < |s| && s[r] == '>' {
        tok := '+';
        r := r + 1;
      }
    } else {
      tok := 'a';
      r := r + 1;
      while r < |s| && !IsBlank(s[r]) && !IsSymbol(s[r])
        invariant q < r <= |s| && WordEnd(s, r) == WordEnd(s, q + 1)
      {
        r := r + 1;
      }
    }
    eq := r;
    assert Next(s, q).1 == r;
    ToksAfterBlanks(s, r);
    r := SkipBlanks(s, r);
  }

  /** peek: moves over blanks and looks at one character. */
  method PeekAt(s: string, p: nat, toks: string) returns (yes: bool, r: nat)
    requires p <= |s| && '\0' !in s
    ensures r == AfterBlanks(s, p) && Toks(s, r) == Toks(s, p)
    ensures yes <==> r < |s| && s[r] in toks
  {
    ToksAfterBlanks(s, p);
    r := SkipBlanks(s, p);
    yes := r < |s| && s[r] in toks;
  }

  /** Looking at a symbol character is looking at the first token. */
  lemma PeekIsToken(s: string, p: nat, c: char)
    requires p <= |s| && IsSymbol(c) && c != '>'
    ensures AfterBlanks(s, p) < |s| && s[AfterBlanks(s, p)] == c <==> Peek(Toks(s, p), c)
  {
  }

  lemma PeekIsRedir(s: string, p: nat)
    requires p <= |s|
    ensures AfterBlanks(s, p) < |s| && s[AfterBlanks(s, p)] in "<>" <==> AtRedir(Toks(s, p))
  {
  }

  // ---------------------------------------------------------------- the parse functions

  datatype Result = Panic | Done(cmd: Cmd<Slice>, p: nat)

  /** A position-based result is the token-based one. */
  ghost predicate Same(s: string, r: Result, spec: Parsed<Slice>)
  {
    if r.Panic? then spec.Syntax? else r.p <= |s| && spec == Ok(r.cmd, Toks(s, r.p))
  }

  method DoParseRedirs(s: string, cmd: Cmd<Slice>, p: nat) returns (r: Result)
    requires p <= |s| && '\0' !in s
    ensures var q := ParseRedirs(cmd, Toks(s, p));
      if r.Panic? then q.BadRedir? else r.p <= |s| && q == Redirs(r.cmd, Toks(s, r.p))
  {
    hide Toks;
    var ret, ps := cmd, p;
    while true
      invariant 0 <= ps <= |s| && ParseRedirs(ret, Toks(s, ps)) == ParseRedirs(cmd, Toks(s, p))
      decreases |Toks(s, ps)|
    {
      PeekIsRedir(s, ps);
      var yes, at := PeekAt(s, ps, "<>");
      if !yes {
        return Done(ret, at);
      }
      ghost var ts := Toks(s, at);
      var tok, _, _, after := Gettoken(s, at);
      var word, q, eq, rest := Gettoken(s, after);
      RedirStep(ret, ts);
      if word != 'a' {
        return Panic;
      }
      ret := Redir(ret, Slice(q, eq), if tok == '<' then In else Out);
      ps := rest;
    }
  }

  /** One turn of parseredirs, on tokens. */
  lemma RedirStep(cmd: Cmd<Slice>, ts: seq<Tok<Slice>>)
    requires AtRedir(ts)
    ensures |ts| < 2 || !ts[1].Word? ==> ParseRedirs(cmd, ts).BadRedir?
    ensures |ts| >= 2 && ts[1].Word? ==>
      ParseRedirs(cmd, ts) == ParseRedirs(Redir(cmd, ts[1].w, if ts[0] == Sym('<') then In else Out), ts[2..])
  {
  }

  method DoParseExec(s: string, p: nat) returns (r: Result)
    requires p <= |s| && '\0' !in s
    ensures Same(s, r, ParseExec(Toks(s, p)))
    decreases |Toks(s, p)|, 1
  {
    hide Toks, ParseRedirs, ParseArgs, ParseLine;
    PeekIsToken(s, p, '(');
    var block, at := PeekAt(s, p, "(");
    if block {
      r := DoParseBlock(s, at);
      return;
    }
    r := DoParseRedirs(s, Exec([]), at);
    if r.Done? {
      r := DoParseArgs(s, r.cmd, r.p);
    }
  }

  /** The loop of parseexec. */
  method DoParseArgs(s: string, cmd: Cmd<Slice>, p: nat) returns (r: Result)
    requires p <= |s| && '\0' !in s
    ensures Same(s, r, ParseArgs(cmd, 0, Toks(s, p)))
  {
    hide Toks, ParseRedirs, ParseArgs;
    var argc := 0;
    r := Done(cmd, p);
    while true
      invariant r.Done? && r.p <= |s| && ParseArgs(r.cmd, argc, Toks(s, r.p)) == ParseArgs(cmd, 0, Toks(s, p))
      decreases |Toks(s, r.p)|
    {
      PeekIsStop(s, r.p);
      var stop, at := PeekAt(s, r.p, "|)&;");
      ghost var ts := Toks(s, at);
      ArgsStep(r.cmd, argc, ts);
      r := r.(p := at);
      if stop {
        return;
      }
      var tok, q, eq, after := Gettoken(s, at);
      if tok == '\0' {
        return;
      }
      if tok != 'a' {
        return Panic;
      }
      argc := argc + 1;
      if argc >= MAXARGS {
        return Panic;
      }
      r := DoParseRedirs(s, AddArg(r.cmd, Slice(q, eq)), after);
      if r.Panic? {
        return;
      }
    }
  }

  lemma PeekIsStop(s: string, p: nat)
    requires p <= |s|
    ensures AfterBlanks(s, p) < |s| && s[AfterBlanks(s, p)] in "|)&;" <==> AtEnd(Toks(s, p)) && Toks(s, p) != []
  {
    PeekIsToken(s, p, '|');
    PeekIsToken(s, p, ')');
    PeekIsToken(s, p, '&');
    PeekIsToken(s, p, ';');
  }

  /** One turn of the loop of parseexec, on tokens. */
  lemma ArgsStep(cmd: Cmd<Slice>, argc: nat, ts: seq<Tok<Slice>>)
    ensures AtEnd(ts) ==> ParseArgs(cmd, argc, ts) == Ok(cmd, ts)
    ensures !AtEnd(ts) && (!ts[0].Word? || argc + 1 >= MAXARGS) ==> ParseArgs(cmd, argc, ts).Syntax?
    ensures !AtEnd(ts) && ts[0].Word? && argc + 1 < MAXARGS ==>
      var r := ParseRedirs(AddArg(cmd, ts[0].w), ts[1..]);
      ParseArgs(cmd, argc, ts) == if r.BadRedir? then Syntax else ParseArgs(r.cmd, argc + 1, r.rest)
  {
    hide ParseRedirs;
  }

  method DoParseBlock(s: string, p: nat) returns (r: Result)
    requires p <= |s| && '\0' !in s && Peek(Toks(s, p), '(')
    ensures Same(s, r, ParseExec(Toks(s, p)))
    decreases |Toks(s, p)|, 0
  {
    hide Toks, ParseRedirs, ParseArgs, ParseLine;
    var _, _, _, at := Gettoken(s, p);
    r := DoParseLine(s, at);
    if r.Panic? {
      return;
    }
    PeekIsToken(s, r.p, ')');
    var closed, close := PeekAt(s, r.p, ")");
    if !closed {
      return Panic;
    }
    var cmd := r.cmd;
    var _, _, _, after := Gettoken(s, close);
    r := DoParseRedirs(s, cmd, after);
  }

  method DoParsePipe(s: string, p: nat) returns (r: Result)
    requires p <= |s| && '\0' !in s
    ensures Same(s, r, ParsePipe(Toks(s, p)))
    decreases |Toks(s, p)|, 2
  {
    hide Toks, ParseExec;
    r := DoParseExec(s, p);
    if r.Done? {
      PeekIsToken(s, r.p, '|');
      var more, at := PeekAt(s, r.p, "|");
      var left := r.cmd;
      r := Done(left, at);
      if more {
        var _, _, _, after := Gettoken(s, at);
        r := DoParsePipe(s, after);
        if r.Done? {
          r := Done(Pipe(left, r.cmd), r.p);
        }
      }
    }
  }

  method DoParseLine(s: string, p: nat) returns (r: Result)
    requires p <= |s| && '\0' !in s
    ensures Same(s, r, ParseLine(Toks(s, p)))
    decreases |Toks(s, p)|, 3
  {
    hide Toks, ParsePipe;
    r := DoParsePipe(s, p);
    if r.Panic? {
      return;
    }
    var cmd, at := DoParseBacks(s, r.cmd, r.p);
    PeekIsToken(s, at, ';');
    var more, semi := PeekAt(s, at, ";");
    r := Done(cmd, semi);
    if more {
      var _, _, _, after := Gettoken(s, semi);
      r := DoParseLine(s, after);
      if r.Done? {
        r := Done(List(cmd, r.cmd), r.p);
      }
    }
  }

  /** The `&` loop of parseline. */
  method DoParseBacks(s: string, cmd: Cmd<Slice>, p: nat) returns (ret: Cmd<Slice>, at: nat)
    requires p <= |s| && '\0' !in s
    ensures at <= |s| && ParseBacks(cmd, Toks(s, p)) == (ret, Toks(s, at))
  {
    hide Toks;
    ret, at := cmd, p;
    while true
      invariant at <= |s| && ParseBacks(ret, Toks(s, at)) == ParseBacks(cmd, Toks(s, p))
      decreases |Toks(s, at)|
    {
      PeekIsToken(s, at, '&');
      var more, amp := PeekAt(s, at, "&");
      at := amp;
      if !more {
        return;
      }
      var _, _, _, after := Gettoken(s, at);
      ret, at := Back(ret), after;
    }
  }

  /** parsecmd up to nulterminate: for every line the tokens are parsed, and either all of it is a
      command or the shell panics. */
  method DoParseCmd(s: string) returns (r: Result)
    requires '\0' !in s
    ensures if r.Panic? then ParseCmd(Toks(s, 0)).Syntax? else ParseCmd(Toks(s, 0)) == Ok(r.cmd, [])
  {
    hide ParseLine;
    r := DoParseLine(s, 0);
    if r.Done? {
      var _, at := PeekAt(s, r.p, "");
      if at != |s| {
        return Panic;
      }
    }
  }
}
