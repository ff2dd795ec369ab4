/** The grammar of the shell (sh.c) over tokens: the recursive-descent parser, a printer, and the
    proof that parsing what the printer wrote gives the tree back. */
module ShellGrammar {

  const MAXARGS: nat := 10

  /** W is what a word token carries. `>>` is a token of its own. */
  datatype Tok<W> = Sym(c: char) | Append | Word(w: W)

  datatype Mode = In | Out

  datatype Cmd<W> =
    | Exec(argv: seq<W>)
    | Redir(cmd: Cmd<W>, file: W, mode: Mode)
    | Pipe(left: Cmd<W>, right: Cmd<W>)
    | List(left: Cmd<W>, right: Cmd<W>)
    | Back(cmd: Cmd<W>)

  /** A command and the tokens left, or a call of panic. */
  datatype Parsed<W> = Syntax | Ok(cmd: Cmd<W>, rest: seq<Tok<W>>)

  predicate Peek<W(==)>(ts: seq<Tok<W>>, c: char)
  {
    ts != [] && ts[0] == Sym(c)
  }

  // ---------------------------------------------------------------- the parser

  datatype Redirs<W> = BadRedir | Redirs(cmd: Cmd<W>, rest: seq<Tok<W>>)

  predicate AtRedir<W(==)>(ts: seq<Tok<W>>)
  {
    ts != [] && (ts[0] == Sym('<') || ts[0] == Sym('>') || ts[0] == Append)
  }

  /** parseredirs: each redirection wraps the command. */
  function ParseRedirs<W(==)>(cmd: Cmd<W>, ts: seq<Tok<W>>): (r: Redirs<W>)
    ensures r.Redirs? ==> |r.rest| <= |ts| && !AtRedir(r.rest)
    decreases |ts|
  {
    if !AtRedir(ts) then Redirs(cmd, ts)
    else if |ts| < 2 || !ts[1].Word? then BadRedir
    else ParseRedirs(Redir(cmd, ts[1].w, if ts[0] == Sym('<') then In else Out), ts[2..])
  }

  /** The arguments go to the exec node at the core of the redirections around it. */
  function AddArg<W>(cmd: Cmd<W>, w: W): Cmd<W>
  {
    match cmd
    case Exec(argv) => Exec(argv + [w])
    case Redir(c, file, mode) => Redir(AddArg(c, w), file, mode)
    case _ => cmd
  }

  predicate AtEnd<W(==)>(ts: seq<Tok<W>>)
  {
    ts == [] || Peek(ts, '|') || Peek(ts, ')') || Peek(ts, '&') || Peek(ts, ';')
  }

  /** The loop of parseexec, with argc arguments read so far. */
  function ParseArgs<W(==)>(cmd: Cmd<W>, argc: nat, ts: seq<Tok<W>>): (r: Parsed<W>)
    ensures r.Ok? ==> |r.rest| <= |ts|
    decreases |ts|
  {
    if AtEnd(ts) then Ok(cmd, ts)
    else if !ts[0].Word? || argc + 1 >= MAXARGS then Syntax
    else
      var r := ParseRedirs(AddArg(cmd, ts[0].w), ts[1..]);
      if r.BadRedir? then Syntax else ParseArgs(r.cmd, argc + 1, r.rest)
  }

  function ParseExec<W(==)>(ts: seq<Tok<W>>): (r: Parsed<W>)
    ensures r.Ok? ==> |r.rest| <= |ts|
    decreases |ts|, 0
  {
    if Peek(ts, '(') then
      var r := ParseLine(ts[1..]);
      if r.Syntax? || !Peek(r.rest, ')') then Syntax
      else
        var q := ParseRedirs(r.cmd, r.rest[1..]);
        if q.BadRedir? then Syntax else Ok(q.cmd, q.rest)
    else
      var q := ParseRedirs(Exec([]), ts);
      if q.BadRedir? then Syntax else ParseArgs(q.cmd, 0, q.rest)
  }

  function ParsePipe<W(==)>(ts: seq<Tok<W>>): (r: Parsed<W>)
    ensures r.Ok? ==> |r.rest| <= |ts|
    decreases |ts|, 1
  {
    var r := ParseExec(ts);
    if r.Ok? && Peek(r.rest, '|') then
      var q := ParsePipe(r.rest[1..]);
      if q.Ok? then Ok(Pipe(r.cmd, q.cmd), q.rest) else Syntax
    else r
  }

  /** `while(peek(ps, es, "&"))`. */
  function ParseBacks<W(==)>(cmd: Cmd<W>, ts: seq<Tok<W>>): (r: (Cmd<W>, seq<Tok<W>>))
    ensures |r.1| <= |ts| && !Peek(r.1, '&')
    decreases |ts|
  {
    if Peek(ts, '&') then ParseBacks(Back(cmd), ts[1..]) else (cmd, ts)
  }

  function ParseLine<W(==)>(ts: seq<Tok<W>>): (r: Parsed<W>)
    ensures r.Ok? ==> |r.rest| <= |ts|
    decreases |ts|, 2
  {
    var r := ParsePipe(ts);
    if r.Syntax? then Syntax
    else
      var (cmd, rest) := ParseBacks(r.cmd, r.rest);
      if Peek(rest, ';') then
        var q := ParseLine(rest[1..]);
        if q.Ok? then Ok(List(cmd, q.cmd), q.rest) else Syntax
      else Ok(cmd, rest)
  }

  /** parsecmd: a line and nothing after it. */
  function ParseCmd<W(==)>(ts: seq<Tok<W>>): Parsed<W>
  {
    var r := ParseLine(ts);
    if r.Ok? && r.rest != [] then Syntax else r
  }

  // ---------------------------------------------------------------- what parseexec reads

  /** A redirection at the head of ts, with its file. */
  predicate PairAt<W(==)>(ts: seq<Tok<W>>)
  {
    AtRedir(ts) && |ts| >= 2 && ts[1].Word?
  }

  function PairOf<W(==)>(ts: seq<Tok<W>>): (W, Mode)
    requires PairAt(ts)
  {
    (ts[1].w, if ts[0] == Sym('<') then In else Out)
  }

  /** The words of a simple command, in order, wherever its redirections stand. */
  function WordsIn<W(==)>(ts: seq<Tok<W>>): seq<W>
  {
    if ts == [] then []
    else if ts[0].Word? then [ts[0].w] + WordsIn(ts[1..])
    else if PairAt(ts) then WordsIn(ts[2..])
    else []
  }

  /** Its redirections, in order, each with its own file and mode. */
  function RedirsIn<W(==)>(ts: seq<Tok<W>>): seq<(W, Mode)>
  {
    if ts == [] then []
    else if ts[0].Word? then RedirsIn(ts[1..])
    else if PairAt(ts) then [PairOf(ts)] + RedirsIn(ts[2..])
    else []
  }

  /** What comes after it. */
  function RestOf<W(==)>(ts: seq<Tok<W>>): (r: seq<Tok<W>>)
    ensures |r| <= |ts|
  {
    if ts == [] then []
    else if ts[0].Word? then RestOf(ts[1..])
    else if PairAt(ts) then RestOf(ts[2..])
    else ts
  }

  /** cmd with redirections around it, the first one innermost. */
  function Wrapped<W>(cmd: Cmd<W>, pairs: seq<(W, Mode)>): Cmd<W>
  {
    if pairs == [] then cmd
    else
      var last := pairs[|pairs| - 1];
      Redir(Wrapped(cmd, pairs[..|pairs| - 1]), last.0, last.1)
  }

  lemma {:induction false} AddArgWrapped<W>(argv: seq<W>, pairs: seq<(W, Mode)>, w: W)
    ensures AddArg(Wrapped(Exec(argv), pairs), w) == Wrapped(Exec(argv + [w]), pairs)
  {
    if pairs != [] {
      AddArgWrapped(argv, pairs[..|pairs| - 1], w);
    }
  }

  lemma WrappedMore<W>(cmd: Cmd<W>, pairs: seq<(W, Mode)>, pair: (W, Mode))
    ensures Wrapped(cmd, pairs + [pair]) == Redir(Wrapped(cmd, pairs), pair.0, pair.1)
  {
    assert (pairs + [pair])[..|pairs|] == pairs;
  }

  /** The redirections at the head of ts. */
  function Leading<W(==)>(ts: seq<Tok<W>>): seq<(W, Mode)>
  {
    if PairAt(ts) then [PairOf(ts)] + Leading(ts[2..]) else []
  }

  function AfterLeading<W(==)>(ts: seq<Tok<W>>): (r: seq<Tok<W>>)
    ensures |r| <= |ts| && !PairAt(r)
  {
    if PairAt(ts) then AfterLeading(ts[2..]) else ts
  }

  /** parseredirs wraps the command in the redirections that follow, and panics exactly on one
      without a file. */
  lemma {:induction false} RedirsExact<W>(cmd: Cmd<W>, pairs: seq<(W, Mode)>, ts: seq<Tok<W>>)
    ensures ParseRedirs(Wrapped(cmd, pairs), ts) ==
            if AtRedir(AfterLeading(ts)) then BadRedir
            else Redirs(Wrapped(cmd, pairs + Leading(ts)), AfterLeading(ts))
    decreases |ts|
  {
    if PairAt(ts) {
      var pair, rest := PairOf(ts), ts[2..];
      WrappedMore(cmd, pairs, pair);
      RedirsExact(cmd, pairs + [pair], rest);
      assert pairs + [pair] + Leading(rest) == pairs + Leading(ts);
      assert ParseRedirs(Wrapped(cmd, pairs), ts) == ParseRedirs(Wrapped(cmd, pairs + [pair]), rest) by {
        hide Wrapped, Leading, AfterLeading;
      }
      hide Wrapped, ParseRedirs;
    } else {
      assert pairs + Leading(ts) == pairs;
      hide Wrapped;
    }
  }

  /** Redirections at the head hold no words. */
  lemma {:induction false} PastLeading<W>(ts: seq<Tok<W>>)
    ensures WordsIn(ts) == WordsIn(AfterLeading(ts)) && RedirsIn(ts) == Leading(ts) + RedirsIn(AfterLeading(ts))
    ensures RestOf(ts) == RestOf(AfterLeading(ts))
    decreases |ts|
  {
    if PairAt(ts) {
      PastLeading(ts[2..]);
    } else {
      assert Leading(ts) + RedirsIn(ts) == RedirsIn(ts);
    }
  }

  /** The loop of parseexec, from any point on. */
  lemma {:induction false} ArgsExact<W>(argv: seq<W>, pairs: seq<(W, Mode)>, ts: seq<Tok<W>>)
    requires !AtRedir(ts) && |argv| < MAXARGS
    ensures ParseArgs(Wrapped(Exec(argv), pairs), |argv|, ts) ==
            if AtEnd(RestOf(ts)) && |argv| + |WordsIn(ts)| < MAXARGS
            then Ok(Wrapped(Exec(argv + WordsIn(ts)), pairs + RedirsIn(ts)), RestOf(ts)) else Syntax
    decreases |ts|
  {
    if AtEnd(ts) || !ts[0].Word? || |argv| + 1 >= MAXARGS {
      ArgsDone(argv, pairs, ts);
    } else {
      var w, rest := ts[0].w, ts[1..];
      PastLeading(rest);
      var next := AfterLeading(rest);
      ArgTaken(argv, pairs, ts);
      if AtRedir(next) {
        assert RestOf(next) == next;
      } else {
        ArgsExact(argv + [w], pairs + Leading(rest), next);
        Together(argv, [w], WordsIn(next));
        Together(pairs, Leading(rest), RedirsIn(next));
        hide ParseArgs, Wrapped, AfterLeading, Leading;
      }
    }
  }

  lemma Together<T>(a: seq<T>, b: seq<T>, c: seq<T>)
    ensures a + b + c == a + (b + c)
  {
  }

  lemma ArgsDone<W>(argv: seq<W>, pairs: seq<(W, Mode)>, ts: seq<Tok<W>>)
    requires !AtRedir(ts) && |argv| < MAXARGS && (AtEnd(ts) || !ts[0].Word? || |argv| + 1 >= MAXARGS)
    ensures ParseArgs(Wrapped(Exec(argv), pairs), |argv|, ts) ==
            if AtEnd(RestOf(ts)) && |argv| + |WordsIn(ts)| < MAXARGS
            then Ok(Wrapped(Exec(argv + WordsIn(ts)), pairs + RedirsIn(ts)), RestOf(ts)) else Syntax
  {
    hide Wrapped;
    if AtEnd(ts) {
      assert argv + WordsIn(ts) == argv && pairs + RedirsIn(ts) == pairs;
    }
  }

  /** One turn of the loop. */
  lemma ArgTaken<W>(argv: seq<W>, pairs: seq<(W, Mode)>, ts: seq<Tok<W>>)
    requires ts != [] && ts[0].Word? && |argv| + 1 < MAXARGS
    ensures var rest := ts[1..];
      ParseArgs(Wrapped(Exec(argv), pairs), |argv|, ts) ==
      if AtRedir(AfterLeading(rest)) then Syntax
      else ParseArgs(Wrapped(Exec(argv + [ts[0].w]), pairs + Leading(rest)), |argv| + 1, AfterLeading(rest))
  {
    AddArgWrapped(argv, pairs, ts[0].w);
    RedirsExact(Exec(argv + [ts[0].w]), pairs, ts[1..]);
    hide Wrapped, Leading, AfterLeading, ParseRedirs, AddArg;
  }

  /** A simple command, wherever its redirections stand among its words: the exec of the words in
      order, wrapped in the redirections in order. It panics exactly if it is followed by something
      that cannot follow a command, or has too many words. */
  lemma ExecExact<W>(ts: seq<Tok<W>>)
    requires !Peek(ts, '(')
    ensures ParseExec(ts) ==
            if AtEnd(RestOf(ts)) && |WordsIn(ts)| < 10
            then Ok(Wrapped(Exec(WordsIn(ts)), RedirsIn(ts)), RestOf(ts)) else Syntax
  {
    RedirsExact(Exec([]), [], ts);
    PastLeading(ts);
    var next := AfterLeading(ts);
    assert [] + Leading(ts) == Leading(ts);
    if AtRedir(next) {
      assert RestOf(next) == next;
    } else {
      ArgsExact([], Leading(ts), next);
      assert [] + WordsIn(next) == WordsIn(ts);
    }
  }

  /** A block: the line inside, wrapped in the redirections after the parenthesis. */
  lemma BlockExact<W>(ts: seq<Tok<W>>)
    requires Peek(ts, '(')
    ensures var line := ParseLine(ts[1..]);
      ParseExec(ts) ==
      if line.Syntax? || !Peek(line.rest, ')') || AtRedir(AfterLeading(line.rest[1..])) then Syntax
      else Ok(Wrapped(line.cmd, Leading(line.rest[1..])), AfterLeading(line.rest[1..]))
  {
    var line := ParseLine(ts[1..]);
    if line.Ok? && Peek(line.rest, ')') {
      RedirsExact(line.cmd, [], line.rest[1..]);
      assert [] + Leading(line.rest[1..]) == Leading(line.rest[1..]);
    }
  }

  // ---------------------------------------------------------------- the printer

  /** The command under the redirections around it, and those redirections, innermost first. */
  function Base<W>(c: Cmd<W>): (r: Cmd<W>)
    ensures !r.Redir? && (r == c || r < c)
  {
    if c.Redir? then Base(c.cmd) else c
  }

  function RedirToks<W>(c: Cmd<W>): seq<Tok<W>>
  {
    if c.Redir? then RedirToks(c.cmd) + [Sym(if c.mode.In? then '<' else '>'), Word(c.file)] else []
  }

  function Words<W>(argv: seq<W>): seq<Tok<W>>
  {
    if argv == [] then [] else [Word(argv[0])] + Words(argv[1..])
  }

  /** Orders the four printers on one command: the one that takes it apart comes last. */
  function Rank<W>(c: Cmd<W>, level: nat): nat
    requires level < 4
  {
    if c.Pipe? then (level + 3) % 4 else if c.Back? then (level + 2) % 4 else if c.List? then (level + 1) % 4 else level
  }

  function PrintExec<W>(c: Cmd<W>): seq<Tok<W>>
    decreases c, Rank(c, 0)
  {
    if Base(c).Exec? then Words(Base(c).argv) + RedirToks(c)
    else [Sym('(')] + PrintLine(Base(c)) + [Sym(')')] + RedirToks(c)
  }

  function PrintPipe<W>(c: Cmd<W>): seq<Tok<W>>
    decreases c, Rank(c, 1)
  {
    if c.Pipe? then PrintExec(c.left) + [Sym('|')] + PrintPipe(c.right) else PrintExec(c)
  }

  function PrintBack<W>(c: Cmd<W>): seq<Tok<W>>
    decreases c, Rank(c, 2)
  {
    if c.Back? then PrintBack(c.cmd) + [Sym('&')] else PrintPipe(c)
  }

  function PrintLine<W>(c: Cmd<W>): seq<Tok<W>>
    decreases c, Rank(c, 3)
  {
    if c.List? then PrintBack(c.left) + [Sym(';')] + PrintLine(c.right) else PrintBack(c)
  }

  // ---------------------------------------------------------------- the round trip

  /** At most MAXARGS - 1 arguments in each exec. */
  ghost predicate Small<W>(c: Cmd<W>)
  {
    match c
    case Exec(argv) => |argv| < MAXARGS
    case Redir(d, _, _) => Small(d)
    case Pipe(l, r) => Small(l) && Small(r)
    case List(l, r) => Small(l) && Small(r)
    case Back(d) => Small(d)
  }

  /** The redirections of c put around another command. */
  function Around<W>(c: Cmd<W>, inner: Cmd<W>): Cmd<W>
  {
    if c.Redir? then Redir(Around(c.cmd, inner), c.file, c.mode) else inner
  }

  lemma {:induction false} AroundBase<W>(c: Cmd<W>)
    ensures Around(c, Base(c)) == c
  {
    if c.Redir? {
      AroundBase(c.cmd);
    }
  }

  lemma {:induction false} RedirsBack<W>(c: Cmd<W>, inner: Cmd<W>, rest: seq<Tok<W>>)
    ensures ParseRedirs(inner, RedirToks(c) + rest) == ParseRedirs(Around(c, inner), rest)
    decreases c
  {
    if c.Redir? {
      var two := [Sym(if c.mode.In? then '<' else '>'), Word(c.file)];
      assert RedirToks(c) + rest == RedirToks(c.cmd) + (two + rest);
      RedirsBack(c.cmd, inner, two + rest);
      var ts := two + rest;
      assert ts[0] == two[0] && ts[1] == two[1] && ts[2..] == rest;
      assert ParseRedirs(Around(c.cmd, inner), ts) == ParseRedirs(Around(c, inner), rest);
    } else {
      assert RedirToks(c) + rest == rest;
    }
  }

  lemma NoRedirs<W>(cmd: Cmd<W>, ts: seq<Tok<W>>)
    requires !AtRedir(ts)
    ensures ParseRedirs(cmd, ts) == Redirs(cmd, ts)
  {
  }

  lemma ArgStep<W>(argv: seq<W>, w: W, tail: seq<Tok<W>>, cmd: Cmd<W>, rest: seq<Tok<W>>)
    requires |argv| + 1 < MAXARGS && ParseRedirs(Exec(argv + [w]), tail) == Redirs(cmd, rest) && |rest| <= |tail|
    ensures ParseArgs(Exec(argv), |argv|, [Word(w)] + tail) == ParseArgs(cmd, |argv| + 1, rest)
  {
    hide ParseRedirs;
    var ts := [Word(w)] + tail;
    assert ts[0] == Word(w) && ts[1..] == tail;
    assert AddArg(Exec(argv), w) == Exec(argv + [w]);
  }

  lemma WordsFirst<W>(more: seq<W>, tail: seq<Tok<W>>)
    requires more != []
    ensures Words(more) + tail == [Word(more[0])] + (Words(more[1..]) + tail)
  {
  }

  lemma {:induction false} ArgsBack<W>(done: seq<W>, more: seq<W>, tail: seq<Tok<W>>, cmd: Cmd<W>, rest: seq<Tok<W>>)
    requires more != [] && |done| + |more| < MAXARGS && AtEnd(rest) && |rest| <= |tail|
    requires ParseRedirs(Exec(done + more), tail) == Redirs(cmd, rest)
    ensures ParseArgs(Exec(done), |done|, Words(more) + tail) == Ok(cmd, rest)
    decreases |more|
  {
    hide ParseRedirs, Words;
    var w, next := more[0], done + [more[0]];
    var after := Words(more[1..]) + tail;
    WordsFirst(more, tail);
    if |more| == 1 {
      assert more[1..] == [] && done + more == next;
      assert after == tail by { NoWords(tail); }
      ArgStep(done, w, tail, cmd, rest);
    } else {
      WordsFirst(more[1..], tail);
      NoRedirs(Exec(next), after);
      ArgStep(done, w, after, Exec(next), after);
      hide ParseArgs;
      assert next + more[1..] == done + more;
      ArgsBack(next, more[1..], tail, cmd, rest);
    }
  }

  lemma NoWords<W>(tail: seq<Tok<W>>)
    ensures Words([]) + tail == tail
  {
  }

  /** What parseexec does when no parenthesis comes first. */
  lemma ExecStep<W>(ts: seq<Tok<W>>, cmd: Cmd<W>, rest: seq<Tok<W>>)
    requires !Peek(ts, '(') && ParseRedirs(Exec([]), ts) == Redirs(cmd, rest) && |rest| <= |ts|
    ensures ParseExec(ts) == ParseArgs(cmd, 0, rest)
  {
    hide ParseRedirs, ParseArgs, ParseLine;
  }

  lemma ArgsEnd<W>(cmd: Cmd<W>, argc: nat, rest: seq<Tok<W>>)
    requires AtEnd(rest)
    ensures ParseArgs(cmd, argc, rest) == Ok(cmd, rest)
  {
  }

  lemma ExecBack<W>(c: Cmd<W>, rest: seq<Tok<W>>)
    requires Base(c).Exec? && Small(Base(c)) && AtEnd(rest)
    ensures ParseExec(PrintExec(c) + rest) == Ok(c, rest)
  {
    hide ParseRedirs, RedirToks, ParseExec, ParseArgs, Words;
    AroundBase(c);
    var argv, tail := Base(c).argv, RedirToks(c) + rest;
    var ts := PrintExec(c) + rest;
    assert ts == Words(argv) + tail;
    RedirsBack(c, Exec(argv), rest);
    NoRedirs(c, rest);
    if argv == [] {
      NoWords(tail);
      NotBlock(c, rest);
      ExecStep(ts, c, rest);
      ArgsEnd(c, 0, rest);
    } else {
      WordsFirst(argv, tail);
      NoRedirs(Exec([]), ts);
      ExecStep(ts, Exec([]), ts);
      assert [] + argv == argv;
      ArgsBack([], argv, tail, c, rest);
    }
  }

  lemma {:induction false} NotBlock<W>(c: Cmd<W>, rest: seq<Tok<W>>)
    requires AtEnd(rest)
    ensures !Peek(RedirToks(c) + rest, '(')
    decreases c
  {
    if c.Redir? {
      var two := [Sym(if c.mode.In? then '<' else '>'), Word(c.file)];
      assert RedirToks(c) + rest == RedirToks(c.cmd) + (two + rest);
      NotBlockFirst(c);
      assert (RedirToks(c) + rest)[0] == RedirToks(c)[0];
    } else {
      assert RedirToks(c) + rest == rest;
    }
  }

  lemma {:induction false} NotBlockFirst<W>(c: Cmd<W>)
    requires c.Redir?
    ensures RedirToks(c) != [] && (RedirToks(c)[0] == Sym('<') || RedirToks(c)[0] == Sym('>'))
  {
    if c.cmd.Redir? {
      NotBlockFirst(c.cmd);
    }
  }

  // ---------------------------------------------------------------- pipes, backgrounds and lists

  predicate AfterPipe<W(==)>(ts: seq<Tok<W>>)
  {
    ts == [] || Peek(ts, ')') || Peek(ts, '&') || Peek(ts, ';')
  }

  predicate AfterLine<W(==)>(ts: seq<Tok<W>>)
  {
    ts == [] || Peek(ts, ')')
  }

  /** A command under its backgrounds, and how many there are. */
  function Fore<W>(c: Cmd<W>): (r: Cmd<W>)
    ensures !r.Back? && (r == c || r < c)
  {
    if c.Back? then Fore(c.cmd) else c
  }

  function Amps<W>(c: Cmd<W>): seq<Tok<W>>
  {
    if c.Back? then Amps(c.cmd) + [Sym('&')] else []
  }

  lemma {:induction false} PrintBackIs<W>(c: Cmd<W>)
    ensures PrintBack(c) == PrintPipe(Fore(c)) + Amps(c)
  {
    if c.Back? {
      PrintBackIs(c.cmd);
      assert PrintPipe(Fore(c)) + Amps(c) == PrintPipe(Fore(c.cmd)) + Amps(c.cmd) + [Sym('&')];
    } else {
      assert PrintPipe(c) + Amps(c) == PrintPipe(c);
    }
  }

  function Backed<W>(c: Cmd<W>, inner: Cmd<W>): Cmd<W>
  {
    if c.Back? then Back(Backed(c.cmd, inner)) else inner
  }

  lemma {:induction false} BackedFore<W>(c: Cmd<W>)
    ensures Backed(c, Fore(c)) == c
  {
    if c.Back? {
      BackedFore(c.cmd);
    }
  }

  lemma {:induction false} AmpsBack<W>(c: Cmd<W>, inner: Cmd<W>, rest: seq<Tok<W>>)
    ensures ParseBacks(inner, Amps(c) + rest) == ParseBacks(Backed(c, inner), rest)
    decreases c
  {
    if c.Back? {
      assert Amps(c) + rest == Amps(c.cmd) + ([Sym('&')] + rest);
      AmpsBack(c.cmd, inner, [Sym('&')] + rest);
      assert ([Sym('&')] + rest)[1..] == rest;
    } else {
      assert Amps(c) + rest == rest;
    }
  }

  lemma {:induction false} AmpsFirst<W>(c: Cmd<W>, rest: seq<Tok<W>>)
    requires rest == [] || Peek(rest, ')') || Peek(rest, ';')
    ensures AfterPipe(Amps(c) + rest)
    decreases c
  {
    if c.Back? {
      AmpsAll(c);
      assert (Amps(c) + rest)[0] == Amps(c)[0];
    } else {
      assert Amps(c) + rest == rest;
    }
  }

  lemma {:induction false} AmpsAll<W>(c: Cmd<W>)
    ensures forall i | 0 <= i < |Amps(c)| :: Amps(c)[i] == Sym('&')
  {
    if c.Back? {
      AmpsAll(c.cmd);
    }
  }

  lemma {:induction false} PipeBack<W>(c: Cmd<W>, rest: seq<Tok<W>>)
    requires Small(c) && AfterPipe(rest)
    ensures ParsePipe(PrintPipe(c) + rest) == Ok(c, rest)
    decreases c, Rank(c, 1)
  {
    hide ParseExec;
    if c.Pipe? {
      var tail := [Sym('|')] + (PrintPipe(c.right) + rest);
      assert PrintPipe(c) + rest == PrintExec(c.left) + tail;
      UnitBack(c.left, tail);
      assert tail[1..] == PrintPipe(c.right) + rest;
      PipeBack(c.right, rest);
    } else {
      UnitBack(c, rest);
    }
  }

  /** What parseexec reads: an exec, or any command in parentheses, with redirections. */
  lemma {:induction false} UnitBack<W>(c: Cmd<W>, rest: seq<Tok<W>>)
    requires Small(c) && AtEnd(rest)
    ensures ParseExec(PrintExec(c) + rest) == Ok(c, rest)
    decreases c, Rank(c, 0)
  {
    hide ParseExec;
    SmallBase(c);
    if Base(c).Exec? {
      ExecBack(c, rest);
    } else {
      var after := [Sym(')')] + (RedirToks(c) + rest);
      LineBack(Base(c), after);
      BlockBack(c, rest);
    }
  }

  /** A command in parentheses, if what is inside them reads back. */
  lemma BlockBack<W>(c: Cmd<W>, rest: seq<Tok<W>>)
    requires !Base(c).Exec? && AtEnd(rest)
    requires var after := [Sym(')')] + (RedirToks(c) + rest);
      ParseLine(PrintLine(Base(c)) + after) == Ok(Base(c), after)
    ensures ParseExec(PrintExec(c) + rest) == Ok(c, rest)
  {
    hide ParseRedirs, RedirToks, ParseLine, PrintLine;
    AroundBase(c);
    var inside := PrintLine(Base(c));
    var after := [Sym(')')] + (RedirToks(c) + rest);
    var ts := PrintExec(c) + rest;
    assert ts == [Sym('(')] + (inside + after) && ts[1..] == inside + after;
    assert after[1..] == RedirToks(c) + rest;
    RedirsBack(c, Base(c), rest);
    NoRedirs(c, rest);
  }

  lemma {:induction false} SmallBase<W>(c: Cmd<W>)
    ensures Small(c) <==> Small(Base(c))
  {
    if c.Redir? {
      SmallBase(c.cmd);
    }
  }

  lemma {:induction false} SmallFore<W>(c: Cmd<W>)
    requires Small(c)
    ensures Small(Fore(c))
  {
    if c.Back? {
      SmallFore(c.cmd);
    }
  }

  /** Parsing the printed line of any command gives the command. */
  lemma {:induction false} LineBack<W>(c: Cmd<W>, rest: seq<Tok<W>>)
    requires Small(c) && AfterLine(rest)
    ensures ParseLine(PrintLine(c) + rest) == Ok(c, rest)
    decreases c, Rank(c, 3)
  {
    hide ParsePipe, PrintPipe;
    if c.List? {
      var tail := [Sym(';')] + (PrintLine(c.right) + rest);
      assert PrintLine(c) + rest == PrintBack(c.left) + tail;
      BacksBack(c.left, tail);
      assert tail[1..] == PrintLine(c.right) + rest;
      LineBack(c.right, rest);
    } else {
      BacksBack(c, rest);
    }
  }

  lemma {:induction false} BacksBack<W>(c: Cmd<W>, rest: seq<Tok<W>>)
    requires Small(c) && (AfterLine(rest) || Peek(rest, ';'))
    ensures var r := ParsePipe(PrintBack(c) + rest);
      r.Ok? && ParseBacks(r.cmd, r.rest) == (c, rest)
    decreases c, Rank(c, 2)
  {
    hide ParsePipe, PrintPipe;
    PrintBackIs(c);
    SmallFore(c);
    var tail := Amps(c) + rest;
    assert PrintBack(c) + rest == PrintPipe(Fore(c)) + tail;
    AmpsFirst(c, rest);
    PipeBack(Fore(c), tail);
    AmpsBack(c, Fore(c), rest);
    BackedFore(c);
  }

  /** The round trip on whole commands. */
  lemma RoundTrip<W>(c: Cmd<W>)
    requires Small(c)
    ensures ParseCmd(PrintLine(c)) == Ok(c, [])
  {
    assert PrintLine(c) + [] == PrintLine(c);
    LineBack(c, []);
  }

  // ---------------------------------------------------------------- what the parser accepts

  lemma {:induction false} BaseAfterRedirs<W>(cmd: Cmd<W>, ts: seq<Tok<W>>)
    ensures var r := ParseRedirs(cmd, ts); r.Redirs? ==> Base(r.cmd) == Base(cmd)
    decreases |ts|
  {
    if AtRedir(ts) && |ts| >= 2 && ts[1].Word? {
      BaseAfterRedirs(Redir(cmd, ts[1].w, if ts[0] == Sym('<') then In else Out), ts[2..]);
    }
  }

  lemma {:induction false} BaseAfterArg<W>(cmd: Cmd<W>, w: W)
    requires Base(cmd).Exec?
    ensures Base(AddArg(cmd, w)) == Exec(Base(cmd).argv + [w])
  {
    if cmd.Redir? {
      BaseAfterArg(cmd.cmd, w);
    }
  }

  lemma {:induction false} ArgsSmall<W>(cmd: Cmd<W>, argc: nat, ts: seq<Tok<W>>)
    requires Base(cmd).Exec? && |Base(cmd).argv| == argc < MAXARGS
    ensures var r := ParseArgs(cmd, argc, ts); r.Ok? ==> Small(r.cmd)
    decreases |ts|
  {
    SmallBase(cmd);
    if !AtEnd(ts) && ts[0].Word? && argc + 1 < MAXARGS {
      BaseAfterArg(cmd, ts[0].w);
      BaseAfterRedirs(AddArg(cmd, ts[0].w), ts[1..]);
      var r := ParseRedirs(AddArg(cmd, ts[0].w), ts[1..]);
      if r.Redirs? {
        ArgsSmall(r.cmd, argc + 1, r.rest);
      }
    }
  }

  lemma {:induction false} ExecSmall<W>(ts: seq<Tok<W>>)
    ensures var r := ParseExec(ts); r.Ok? ==> Small(r.cmd)
    decreases |ts|, 0
  {
    hide ParseRedirs, ParseArgs;
    if Peek(ts, '(') {
      LineSmall(ts[1..]);
      var r := ParseLine(ts[1..]);
      if r.Ok? && Peek(r.rest, ')') {
        var q := ParseRedirs(r.cmd, r.rest[1..]);
        BaseAfterRedirs(r.cmd, r.rest[1..]);
        SmallBase(r.cmd);
        if q.Redirs? { SmallBase(q.cmd); }
      }
    } else {
      var q := ParseRedirs(Exec([]), ts);
      BaseAfterRedirs(Exec([]), ts);
      if q.Redirs? { ArgsSmall(q.cmd, 0, q.rest); }
    }
  }

  lemma {:induction false} PipeSmall<W>(ts: seq<Tok<W>>)
    ensures var r := ParsePipe(ts); r.Ok? ==> Small(r.cmd)
    decreases |ts|, 1
  {
    hide ParseExec;
    var r := ParseExec(ts);
    ExecSmall(ts);
    if r.Ok? && Peek(r.rest, '|') {
      PipeSmall(r.rest[1..]);
    }
  }

  lemma {:induction false} BacksSmall<W>(cmd: Cmd<W>, ts: seq<Tok<W>>)
    requires Small(cmd)
    ensures Small(ParseBacks(cmd, ts).0)
    decreases |ts|
  {
    if Peek(ts, '&') {
      BacksSmall(Back(cmd), ts[1..]);
    }
  }

  lemma {:induction false} LineSmall<W>(ts: seq<Tok<W>>)
    ensures var r := ParseLine(ts); r.Ok? ==> Small(r.cmd)
    decreases |ts|, 2
  {
    hide ParsePipe, ParseBacks;
    var r := ParsePipe(ts);
    PipeSmall(ts);
    if r.Ok? {
      BacksSmall(r.cmd, r.rest);
      var (cmd, rest) := ParseBacks(r.cmd, r.rest);
      if Peek(rest, ';') {
        LineSmall(rest[1..]);
      }
    }
  }

  /** The other way round: a command that some line parses to has at most MAXARGS - 1 arguments in
      each exec, and its printed form is another line for it. */
  lemma Reprinted<W>(ts: seq<Tok<W>>, c: Cmd<W>)
    requires ParseCmd(ts) == Ok(c, [])
    ensures Small(c) && ParseCmd(PrintLine(c)) == Ok(c, [])
  {
    LineSmall(ts);
    RoundTrip(c);
  }

  // ---------------------------------------------------------------- words do not matter

  /** The same tokens, or command, with each word w replaced by f(w). */
  function MapTok<V, W>(f: V -> W, t: Tok<V>): Tok<W>
  {
    match t
    case Sym(c) => Sym(c)
    case Append => Append
    case Word(w) => Word(f(w))
  }

  function MapToks<V, W>(f: V -> W, ts: seq<Tok<V>>): (r: seq<Tok<W>>)
    ensures |r| == |ts| && forall i | 0 <= i < |ts| :: r[i] == MapTok(f, ts[i])
  {
    if ts == [] then [] else [MapTok(f, ts[0])] + MapToks(f, ts[1..])
  }

  function MapArgs<V, W>(f: V -> W, argv: seq<V>): (r: seq<W>)
    ensures |r| == |argv| && forall i | 0 <= i < |argv| :: r[i] == f(argv[i])
  {
    if argv == [] then [] else [f(argv[0])] + MapArgs(f, argv[1..])
  }

  function MapCmd<V, W>(f: V -> W, c: Cmd<V>): Cmd<W>
  {
    match c
    case Exec(argv) => Exec(MapArgs(f, argv))
    case Redir(d, file, mode) => Redir(MapCmd(f, d), f(file), mode)
    case Pipe(l, r) => Pipe(MapCmd(f, l), MapCmd(f, r))
    case List(l, r) => List(MapCmd(f, l), MapCmd(f, r))
    case Back(d) => Back(MapCmd(f, d))
  }

  function MapParsed<V, W>(f: V -> W, r: Parsed<V>): Parsed<W>
  {
    if r.Syntax? then Syntax else Ok(MapCmd(f, r.cmd), MapToks(f, r.rest))
  }

  lemma MapDrop<V, W>(f: V -> W, ts: seq<Tok<V>>, k: nat)
    requires k <= |ts|
    ensures MapToks(f, ts)[k..] == MapToks(f, ts[k..])
  {
  }

  lemma {:induction false} MapAddArg<V, W>(f: V -> W, c: Cmd<V>, w: V)
    ensures MapCmd(f, AddArg(c, w)) == AddArg(MapCmd(f, c), f(w))
  {
    match c
    case Exec(argv) => assert MapArgs(f, argv + [w]) == MapArgs(f, argv) + [f(w)];
    case Redir(d, _, _) => MapAddArg(f, d, w);
    case _ =>
  }

  lemma {:induction false} MapRedirs<V, W>(f: V -> W, c: Cmd<V>, ts: seq<Tok<V>>)
    ensures var r := ParseRedirs(c, ts);
      ParseRedirs(MapCmd(f, c), MapToks(f, ts)) == if r.BadRedir? then BadRedir
        else Redirs(MapCmd(f, r.cmd), MapToks(f, r.rest))
    decreases |ts|
  {
    hide MapToks;
    if AtRedir(ts) && |ts| >= 2 && ts[1].Word? {
      MapDrop(f, ts, 2);
      MapRedirs(f, Redir(c, ts[1].w, if ts[0] == Sym('<') then In else Out), ts[2..]);
    }
  }

  lemma {:induction false} MapParseArgs<V, W>(f: V -> W, c: Cmd<V>, argc: nat, ts: seq<Tok<V>>)
    ensures ParseArgs(MapCmd(f, c), argc, MapToks(f, ts)) == MapParsed(f, ParseArgs(c, argc, ts))
    decreases |ts|
  {
    hide MapToks, ParseRedirs;
    if !AtEnd(ts) && ts[0].Word? && argc + 1 < MAXARGS {
      MapDrop(f, ts, 1);
      MapAddArg(f, c, ts[0].w);
      MapRedirs(f, AddArg(c, ts[0].w), ts[1..]);
      var r := ParseRedirs(AddArg(c, ts[0].w), ts[1..]);
      if r.Redirs? {
        MapParseArgs(f, r.cmd, argc + 1, r.rest);
      }
    }
  }

  lemma {:induction false} MapParseBacks<V, W>(f: V -> W, c: Cmd<V>, ts: seq<Tok<V>>)
    ensures var r := ParseBacks(c, ts); ParseBacks(MapCmd(f, c), MapToks(f, ts)) == (MapCmd(f, r.0), MapToks(f, r.1))
    decreases |ts|
  {
    hide MapToks;
    if Peek(ts, '&') {
      MapDrop(f, ts, 1);
      MapParseBacks(f, Back(c), ts[1..]);
    }
  }

  lemma {:induction false} MapParseExec<V, W>(f: V -> W, ts: seq<Tok<V>>)
    ensures ParseExec(MapToks(f, ts)) == MapParsed(f, ParseExec(ts))
    decreases |ts|, 0
  {
    hide MapToks, ParseRedirs, ParseLine, ParseArgs;
    if Peek(ts, '(') {
      MapDrop(f, ts, 1);
      MapParseLine(f, ts[1..]);
      var r := ParseLine(ts[1..]);
      if r.Ok? && Peek(r.rest, ')') {
        MapDrop(f, r.rest, 1);
        MapRedirs(f, r.cmd, r.rest[1..]);
      }
    } else {
      MapRedirs(f, Exec([]), ts);
      var q := ParseRedirs(Exec([]), ts);
      if q.Redirs? {
        MapParseArgs(f, q.cmd, 0, q.rest);
      }
    }
  }

  lemma {:induction false} MapParsePipe<V, W>(f: V -> W, ts: seq<Tok<V>>)
    ensures ParsePipe(MapToks(f, ts)) == MapParsed(f, ParsePipe(ts))
    decreases |ts|, 1
  {
    hide MapToks, ParseExec;
    MapParseExec(f, ts);
    var r := ParseExec(ts);
    if r.Ok? && Peek(r.rest, '|') {
      MapDrop(f, r.rest, 1);
      MapParsePipe(f, r.rest[1..]);
    }
  }

  /** Parsing looks only at what kind of token it sees. */
  lemma {:induction false} MapParseLine<V, W>(f: V -> W, ts: seq<Tok<V>>)
    ensures ParseLine(MapToks(f, ts)) == MapParsed(f, ParseLine(ts))
    decreases |ts|, 2
  {
    hide MapToks, ParsePipe, ParseBacks;
    MapParsePipe(f, ts);
    var r := ParsePipe(ts);
    if r.Ok? {
      MapParseBacks(f, r.cmd, r.rest);
      var rest := ParseBacks(r.cmd, r.rest).1;
      if Peek(rest, ';') {
        MapDrop(f, rest, 1);
        MapParseLine(f, rest[1..]);
      }
    }
  }
}
