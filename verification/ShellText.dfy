/** From command trees to text and back, and the NULs that parsecmd writes at the end. */
module ShellText {
  import opened ShellGrammar
  import opened Shell

  // ---------------------------------------------------------------- text of a command

  function TokText(t: Tok<string>): string
  {
    match t
    case Sym(c) => [c]
    case Append => ">>"
    case Word(w) => w
  }

  /** Each token followed by a blank. */
  function Rendered(ts: seq<Tok<string>>): string
  {
    if ts == [] then [] else TokText(ts[0]) + [' '] + Rendered(ts[1..])
  }

  ghost predicate WordOk(w: string)
  {
    w != [] && forall i | 0 <= i < |w| :: IsWordChar(w[i])
  }

  ghost predicate TokOk(t: Tok<string>)
  {
    match t
    case Sym(c) => IsSymbol(c)
    case Append => true
    case Word(w) => WordOk(w)
  }

  ghost predicate ToksOk(ts: seq<Tok<string>>)
  {
    forall i | 0 <= i < |ts| :: TokOk(ts[i])
  }

  /** The string of a slice. */
  function Text(s: string): Slice -> string
  {
    (sl: Slice) => if sl.q <= sl.eq <= |s| then s[sl.q..sl.eq] else []
  }

  /** text stands at p, a blank after it. */
  ghost predicate StandsAt(s: string, p: nat, text: string)
  {
    p + |text| < |s| && s[p + |text|] == ' ' && forall i | 0 <= i < |text| :: s[p + i] == text[i]
  }

  lemma FirstWord(s: string, p: nat, w: string)
    requires StandsAt(s, p, w) && WordOk(w)
    ensures AfterBlanks(s, p) == p && Next(s, p) == (Word(Slice(p, p + |w|)), p + |w|) && s[p..p + |w|] == w
  {
    hide IsSymbol;
    forall i | p <= i < p + |w|
      ensures IsWordChar(s[i])
    {
      assert s[p + (i - p)] == w[i - p];
    }
    WordEndIs(s, p + 1, p + |w|);
    assert !IsSymbol(s[p]);
    GreaterIsSymbol();
  }

  lemma GreaterIsSymbol()
    ensures IsSymbol('>') && !IsBlank('>') && IsBlank(' ')
  {
  }

  lemma FirstSym(s: string, p: nat, c: char)
    requires StandsAt(s, p, [c]) && IsSymbol(c)
    ensures AfterBlanks(s, p) == p && Next(s, p) == (Sym(c), p + 1)
  {
    var text := [c];
    assert s[p + 0] == text[0] && s[p + |text|] == ' ';
    assert !IsBlank(c);
  }

  lemma FirstAppend(s: string, p: nat)
    requires StandsAt(s, p, ">>")
    ensures AfterBlanks(s, p) == p && Next(s, p) == (Append, p + 2)
  {
    var text := ">>";
    assert s[p + 0] == text[0] && s[p + 1] == text[1];
    GreaterIsSymbol();
  }

  lemma FirstToken(s: string, p: nat, t: Tok<string>)
    requires StandsAt(s, p, TokText(t)) && TokOk(t)
    ensures AfterBlanks(s, p) == p < |s| && Next(s, p).1 == p + |TokText(t)|
    ensures MapTok(Text(s), Next(s, p).0) == t
  {
    hide StandsAt, AfterBlanks, Next, IsSymbol, WordOk;
    match t
    case Word(w) => FirstWord(s, p, w);
    case Sym(c) => FirstSym(s, p, c);
    case Append => FirstAppend(s, p);
  }

  lemma WordEndIs(s: string, p: nat, e: nat)
    requires p <= e < |s| && IsBlank(s[e]) && forall i | p <= i < e :: !IsBlank(s[i]) && !IsSymbol(s[i])
    ensures WordEnd(s, p) == e
  {
    hide IsBlank, IsSymbol;
    var r := WordEnd(s, p);
    assert !(r < e);
  }

  /** One token, then the rest after its blank. */
  lemma ToksStep(s: string, p: nat, e: nat)
    requires p < |s| && AfterBlanks(s, p) == p && Next(s, p).1 == e < |s| && s[e] == ' '
    ensures Toks(s, p) == [Next(s, p).0] + Toks(s, e + 1)
  {
    hide Next, WordEnd;
    assert AfterBlanks(s, e) == AfterBlanks(s, e + 1);
    assert Toks(s, e) == Toks(s, e + 1);
  }

  lemma RenderedStands(s: string, p: nat, ts: seq<Tok<string>>)
    requires p <= |s| && s[p..] == Rendered(ts) && ts != []
    ensures var n := |TokText(ts[0])|; StandsAt(s, p, TokText(ts[0])) && s[p + n + 1..] == Rendered(ts[1..])
  {
    hide TokText;
    var t, rest := TokText(ts[0]), Rendered(ts[1..]);
    var n := |t|;
    assert s[p..] == t + [' '] + rest;
    assert s[p + n] == s[p..][n];
    forall i | 0 <= i < n
      ensures s[p + i] == t[i]
    {
      assert s[p + i] == s[p..][i];
    }
    assert s[p + n + 1..] == s[p..][n + 1..] == rest;
  }

  lemma MapCons<V, W>(f: V -> W, t: Tok<V>, ts: seq<Tok<V>>)
    ensures MapToks(f, [t] + ts) == [MapTok(f, t)] + MapToks(f, ts)
  {
  }

  /** gettoken reads a rendered token list back. */
  lemma {:induction false} RenderedToks(s: string, p: nat, ts: seq<Tok<string>>)
    requires p <= |s| && s[p..] == Rendered(ts) && ToksOk(ts)
    ensures MapToks(Text(s), Toks(s, p)) == ts
    decreases |ts|
  {
    hide MapTok, MapToks, TokText, Next, AfterBlanks;
    if ts == [] {
      EndOfText(s, p);
    } else {
      hide Toks;
      var e := p + |TokText(ts[0])|;
      RenderedStands(s, p, ts);
      FirstToken(s, p, ts[0]);
      ToksStep(s, p, e);
      RenderedToks(s, e + 1, ts[1..]);
      MapCons(Text(s), Next(s, p).0, Toks(s, e + 1));
      assert [ts[0]] + ts[1..] == ts;
    }
  }

  lemma EndOfText(s: string, p: nat)
    requires p == |s|
    ensures Toks(s, p) == []
  {
  }

  ghost predicate WordsOk(c: Cmd<string>)
  {
    match c
    case Exec(argv) => forall i | 0 <= i < |argv| :: WordOk(argv[i])
    case Redir(d, file, _) => WordsOk(d) && WordOk(file)
    case Pipe(l, r) => WordsOk(l) && WordsOk(r)
    case List(l, r) => WordsOk(l) && WordsOk(r)
    case Back(d) => WordsOk(d)
  }

  lemma {:induction false} WordsPrinted(argv: seq<string>)
    requires forall i | 0 <= i < |argv| :: WordOk(argv[i])
    ensures ToksOk(Words(argv))
  {
    if argv != [] {
      WordsPrinted(argv[1..]);
    }
  }

  lemma {:induction false} RedirsPrinted(c: Cmd<string>)
    requires WordsOk(c)
    ensures ToksOk(RedirToks(c)) && WordsOk(Base(c))
  {
    if c.Redir? {
      RedirsPrinted(c.cmd);
    }
  }

  lemma {:induction false} ExecPrinted(c: Cmd<string>)
    requires WordsOk(c)
    ensures ToksOk(PrintExec(c))
    decreases c, Rank(c, 0)
  {
    RedirsPrinted(c);
    if Base(c).Exec? {
      WordsPrinted(Base(c).argv);
    } else {
      LinePrinted(Base(c));
    }
  }

  lemma {:induction false} PipePrinted(c: Cmd<string>)
    requires WordsOk(c)
    ensures ToksOk(PrintPipe(c))
    decreases c, Rank(c, 1)
  {
    if c.Pipe? {
      ExecPrinted(c.left);
      PipePrinted(c.right);
    } else {
      ExecPrinted(c);
    }
  }

  lemma {:induction false} BackPrinted(c: Cmd<string>)
    requires WordsOk(c)
    ensures ToksOk(PrintBack(c))
    decreases c, Rank(c, 2)
  {
    if c.Back? {
      BackPrinted(c.cmd);
    } else {
      PipePrinted(c);
    }
  }

  lemma {:induction false} LinePrinted(c: Cmd<string>)
    requires WordsOk(c)
    ensures ToksOk(PrintLine(c))
    decreases c, Rank(c, 3)
  {
    if c.List? {
      BackPrinted(c.left);
      LinePrinted(c.right);
    } else {
      BackPrinted(c);
    }
  }

  /** Printing any command tree and parsing the text gives the tree back: the slices of the result
      read as the words of the original. */
  lemma ShellRoundTrip(c: Cmd<string>)
    requires Small(c) && WordsOk(c)
    ensures var s := Rendered(PrintLine(c));
      var r := ParseCmd(Toks(s, 0));
      r.Ok? && r.rest == [] && MapCmd(Text(s), r.cmd) == c
  {
    hide PrintLine, MapCmd, Text;
    var ts := PrintLine(c);
    var s := Rendered(ts);
    LinePrinted(c);
    assert s[0..] == s;
    RenderedToks(s, 0, ts);
    RoundTrip(c);
    MapParseLine(Text(s), Toks(s, 0));
  }

  // ---------------------------------------------------------------- nulterminate

  /** A slice is a whole word of the line: it ends at a blank, a symbol or the end. */
  ghost predicate WholeWord(s: string, w: Slice)
  {
    && w.q < w.eq <= |s| && (w.eq < |s| ==> IsBlank(s[w.eq]) || IsSymbol(s[w.eq]))
    && forall i | w.q <= i < w.eq :: !IsBlank(s[i]) && !IsSymbol(s[i])
  }

  ghost predicate GoodToks(s: string, ts: seq<Tok<Slice>>)
  {
    forall i | 0 <= i < |ts| && ts[i].Word? :: WholeWord(s, ts[i].w)
  }

  ghost predicate GoodCmd(s: string, c: Cmd<Slice>)
  {
    match c
    case Exec(argv) => forall i | 0 <= i < |argv| :: WholeWord(s, argv[i])
    case Redir(d, file, _) => GoodCmd(s, d) && WholeWord(s, file)
    case Pipe(l, r) => GoodCmd(s, l) && GoodCmd(s, r)
    case List(l, r) => GoodCmd(s, l) && GoodCmd(s, r)
    case Back(d) => GoodCmd(s, d)
  }

  lemma {:induction false} ToksAreGood(s: string, p: nat)
    requires p <= |s|
    ensures GoodToks(s, Toks(s, p))
    decreases |s| - p
  {
    hide IsBlank, IsSymbol;
    var q := AfterBlanks(s, p);
    if q < |s| {
      ToksAreGood(s, Next(s, q).1);
      GreaterIsSymbol();
    }
  }

  lemma {:induction false} GoodAddArg(s: string, c: Cmd<Slice>, w: Slice)
    requires GoodCmd(s, c) && WholeWord(s, w)
    ensures GoodCmd(s, AddArg(c, w))
  {
    hide WholeWord;
    match c
    case Redir(d, _, _) => GoodAddArg(s, d, w);
    case _ =>
  }

  lemma {:induction false} GoodRedirs(s: string, c: Cmd<Slice>, ts: seq<Tok<Slice>>)
    requires GoodCmd(s, c) && GoodToks(s, ts)
    ensures var r := ParseRedirs(c, ts); r.Redirs? ==> GoodCmd(s, r.cmd) && GoodToks(s, r.rest)
    decreases |ts|
  {
    hide WholeWord;
    if AtRedir(ts) && |ts| >= 2 && ts[1].Word? {
      GoodRedirs(s, Redir(c, ts[1].w, if ts[0] == Sym('<') then In else Out), ts[2..]);
    }
  }

  lemma {:induction false} GoodArgs(s: string, c: Cmd<Slice>, argc: nat, ts: seq<Tok<Slice>>)
    requires GoodCmd(s, c) && GoodToks(s, ts)
    ensures var r := ParseArgs(c, argc, ts); r.Ok? ==> GoodCmd(s, r.cmd) && GoodToks(s, r.rest)
    decreases |ts|
  {
    hide WholeWord, ParseRedirs, GoodCmd;
    if !AtEnd(ts) && ts[0].Word? {
      GoodAddArg(s, c, ts[0].w);
      GoodRedirs(s, AddArg(c, ts[0].w), ts[1..]);
      var r := ParseRedirs(AddArg(c, ts[0].w), ts[1..]);
      if r.Redirs? {
        GoodArgs(s, r.cmd, argc + 1, r.rest);
      }
    }
  }

  lemma {:induction false} GoodBacks(s: string, c: Cmd<Slice>, ts: seq<Tok<Slice>>)
    requires GoodCmd(s, c) && GoodToks(s, ts)
    ensures var r := ParseBacks(c, ts); GoodCmd(s, r.0) && GoodToks(s, r.1)
    decreases |ts|
  {
    hide WholeWord;
    if Peek(ts, '&') {
      GoodBacks(s, Back(c), ts[1..]);
    }
  }

  lemma {:induction false} GoodExec(s: string, ts: seq<Tok<Slice>>)
    requires GoodToks(s, ts)
    ensures var r := ParseExec(ts); r.Ok? ==> GoodCmd(s, r.cmd) && GoodToks(s, r.rest)
    decreases |ts|, 0
  {
    hide WholeWord, ParseRedirs, ParseArgs, ParseLine;
    if Peek(ts, '(') {
      GoodLine(s, ts[1..]);
      var r := ParseLine(ts[1..]);
      if r.Ok? && Peek(r.rest, ')') {
        GoodRedirs(s, r.cmd, r.rest[1..]);
      }
    } else {
      GoodRedirs(s, Exec([]), ts);
      var q := ParseRedirs(Exec([]), ts);
      if q.Redirs? {
        GoodArgs(s, q.cmd, 0, q.rest);
      }
    }
  }

  lemma {:induction false} GoodPipe(s: string, ts: seq<Tok<Slice>>)
    requires GoodToks(s, ts)
    ensures var r := ParsePipe(ts); r.Ok? ==> GoodCmd(s, r.cmd) && GoodToks(s, r.rest)
    decreases |ts|, 1
  {
    hide WholeWord, ParseExec;
    GoodExec(s, ts);
    var r := ParseExec(ts);
    if r.Ok? && Peek(r.rest, '|') {
      GoodPipe(s, r.rest[1..]);
    }
  }

  /** Every word of a parsed command is a whole word of the line. */
  lemma {:induction false} GoodLine(s: string, ts: seq<Tok<Slice>>)
    requires GoodToks(s, ts)
    ensures var r := ParseLine(ts); r.Ok? ==> GoodCmd(s, r.cmd) && GoodToks(s, r.rest)
    decreases |ts|, 2
  {
    hide WholeWord, ParsePipe, ParseBacks;
    GoodPipe(s, ts);
    var r := ParsePipe(ts);
    if r.Ok? {
      GoodBacks(s, r.cmd, r.rest);
      var rest := ParseBacks(r.cmd, r.rest).1;
      if Peek(rest, ';') {
        GoodLine(s, rest[1..]);
      }
    }
  }

  /** The words of a command. */
  ghost function WordsIn(c: Cmd<Slice>): set<Slice>
  {
    match c
    case Exec(argv) => set i | 0 <= i < |argv| :: argv[i]
    case Redir(d, file, _) => WordsIn(d) + {file}
    case Pipe(l, r) => WordsIn(l) + WordsIn(r)
    case List(l, r) => WordsIn(l) + WordsIn(r)
    case Back(d) => WordsIn(d)
  }

  /** Position i is the end of a word of c. */
  ghost predicate EndsWord(c: Cmd<Slice>, i: nat)
  {
    exists w :: w in WordsIn(c) && w.eq == i
  }

  lemma {:induction false} GoodWords(s: string, c: Cmd<Slice>, w: Slice)
    requires GoodCmd(s, c) && w in WordsIn(c)
    ensures WholeWord(s, w)
    decreases c
  {
    hide WholeWord;
    match c
    case Exec(argv) =>
    case Redir(d, file, _) => if w != file { GoodWords(s, d, w); }
    case Pipe(l, r) => if w in WordsIn(l) { GoodWords(s, l, w); } else { GoodWords(s, r, w); }
    case List(l, r) => if w in WordsIn(l) { GoodWords(s, l, w); } else { GoodWords(s, r, w); }
    case Back(d) => GoodWords(s, d, w);
  }

  /** The buffer with a NUL at the end of each word of c. */
  ghost predicate Ended(was: seq<char>, now: seq<char>, c: Cmd<Slice>)
  {
    |now| == |was| && forall i | 0 <= i < |was| :: now[i] == if EndsWord(c, i) then '\0' else was[i]
  }

  lemma EndedTwice(was: seq<char>, mid: seq<char>, now: seq<char>, a: Cmd<Slice>, b: Cmd<Slice>, c: Cmd<Slice>)
    requires Ended(was, mid, a) && Ended(mid, now, b) && WordsIn(c) == WordsIn(a) + WordsIn(b)
    ensures Ended(was, now, c)
  {
    forall i | 0 <= i < |was|
      ensures EndsWord(c, i) <==> EndsWord(a, i) || EndsWord(b, i)
    {
    }
  }

  /** nulterminate. */
  method Nulterminate(buf: array<char>, c: Cmd<Slice>)
    requires forall w | w in WordsIn(c) :: w.eq < buf.Length
    modifies buf
    ensures Ended(old(buf[..]), buf[..], c)
    decreases c
  {
    hide Ended;
    match c
    case Exec(argv) => EndArgs(buf, argv);
    case Redir(d, file, _) =>
      Nulterminate(buf, d);
      ghost var mid := buf[..];
      buf[file.eq] := '\0';
      EndedOne(mid, file);
      assert buf[..] == mid[file.eq := '\0'];
      EndedTwice(old(buf[..]), mid, buf[..], d, Exec([file]), c);
    case Pipe(l, r) =>
      Nulterminate(buf, l);
      ghost var mid := buf[..];
      Nulterminate(buf, r);
      EndedTwice(old(buf[..]), mid, buf[..], l, r, c);
    case List(l, r) =>
      Nulterminate(buf, l);
      ghost var mid := buf[..];
      Nulterminate(buf, r);
      EndedTwice(old(buf[..]), mid, buf[..], l, r, c);
    case Back(d) =>
      Nulterminate(buf, d);
      EndedSame(old(buf[..]), buf[..], d);
  }

  lemma EndedSame(was: seq<char>, now: seq<char>, d: Cmd<Slice>)
    requires Ended(was, now, d)
    ensures Ended(was, now, Back(d))
  {
    assert WordsIn(Back(d)) == WordsIn(d);
  }

  lemma EndedOne(was: seq<char>, w: Slice)
    requires w.eq < |was|
    ensures WordsIn(Exec([w])) == {w} && Ended(was, was[w.eq := '\0'], Exec([w]))
  {
    assert WordsIn(Exec([w])) == {w} by { assert [w][0] == w; }
    assert EndsWord(Exec([w]), w.eq);
  }

  method EndArgs(buf: array<char>, argv: seq<Slice>)
    requires forall w | w in WordsIn(Exec(argv)) :: w.eq < buf.Length
    modifies buf
    ensures Ended(old(buf[..]), buf[..], Exec(argv))
  {
    var i := 0;
    while i < |argv|
      invariant 0 <= i <= |argv|
      invariant forall j | 0 <= j < buf.Length ::
        buf[j] == if exists k :: 0 <= k < i && argv[k].eq == j then '\0' else old(buf[..])[j]
    {
      assert argv[i] in WordsIn(Exec(argv));
      buf[argv[i].eq] := '\0';
      i := i + 1;
    }
    forall j | 0 <= j < buf.Length
      ensures EndsWord(Exec(argv), j) <==> exists k :: 0 <= k < |argv| && argv[k].eq == j
    {
      if exists k :: 0 <= k < |argv| && argv[k].eq == j {
        var k :| 0 <= k < |argv| && argv[k].eq == j;
        assert argv[k] in WordsIn(Exec(argv));
      }
    }
  }

  /** The C string at position q of a buffer. */
  function CStringAt(buf: seq<char>, q: nat): string
    requires q <= |buf|
    decreases |buf| - q
  {
    if q == |buf| || buf[q] == '\0' then [] else [buf[q]] + CStringAt(buf, q + 1)
  }

  lemma {:induction false} CStringIs(buf: seq<char>, q: nat, e: nat)
    requires q <= e < |buf| && buf[e] == '\0' && forall i | q <= i < e :: buf[i] != '\0'
    ensures CStringAt(buf, q) == buf[q..e]
    decreases e - q
  {
    if q < e {
      CStringIs(buf, q + 1, e);
    }
  }

  /** No word ends inside another word. */
  lemma EndsOutside(s: string, v: Slice, w: Slice)
    requires WholeWord(s, v) && WholeWord(s, w)
    ensures !(w.q <= v.eq < w.eq)
  {
    hide IsBlank, IsSymbol;
  }

  lemma WordSurvives(s: string, now: seq<char>, c: Cmd<Slice>, w: Slice)
    requires '\0' !in s && GoodCmd(s, c) && Ended(s + ['\0'], now, c) && w in WordsIn(c)
    ensures w.q < w.eq < |now| && CStringAt(now, w.q) == s[w.q..w.eq]
  {
    hide GoodCmd, WordsIn, WholeWord;
    GoodWords(s, c, w);
    assert w.q < w.eq <= |s| by { SliceInside(s, w); }
    forall i | w.q <= i < w.eq
      ensures now[i] == s[i] != '\0'
    {
      if EndsWord(c, i) {
        var v :| v in WordsIn(c) && v.eq == i;
        GoodWords(s, c, v);
        EndsOutside(s, v, w);
      }
    }
    assert EndsWord(c, w.eq);
    CStringIs(now, w.q, w.eq);
    assert now[w.q..w.eq] == s[w.q..w.eq];
  }

  lemma SliceInside(s: string, w: Slice)
    requires WholeWord(s, w)
    ensures w.q < w.eq <= |s|
  {
  }

  /** parsecmd on the buffer: the line and its terminator. After it, each argument and file name of
      the command reads, as a C string, exactly as the token it was. */
  method Parsecmd(buf: array<char>, s: string) returns (r: Result)
    requires '\0' !in s && buf[..] == s + ['\0']
    modifies buf
    ensures if r.Panic? then ParseCmd(Toks(s, 0)).Syntax? && buf[..] == old(buf[..])
            else ParseCmd(Toks(s, 0)) == Ok(r.cmd, [])
    ensures r.Done? ==>
              forall w | w in WordsIn(r.cmd) :: w.q < w.eq < buf.Length && CStringAt(buf[..], w.q) == s[w.q..w.eq]
  {
    hide GoodCmd, WholeWord, Toks, ParseLine;
    r := DoParseCmd(s);
    if r.Done? {
      ToksAreGood(s, 0);
      GoodLine(s, Toks(s, 0));
      var c := r.cmd;
      forall w | w in WordsIn(c)
        ensures w.eq < buf.Length
      {
        GoodWords(s, c, w);
        SliceInside(s, w);
      }
      Nulterminate(buf, c);
      forall w | w in WordsIn(c)
        ensures w.q < w.eq < buf.Length && CStringAt(buf[..], w.q) == s[w.q..w.eq]
      {
        WordSurvives(s, buf[..], c, w);
      }
    }
  }
}
