/** The regular expression matcher of grep.c against a declarative meaning: a pattern is a list of
    atoms, and it matches at a place when the text there can be cut into pieces, one per atom, each
    in the language of its atom. */
module Regex {

  /** One character, or any number of equal ones; '.' stands for every character. */
  datatype Atom = One(c: char) | Many(c: char)

  datatype Pattern = Pattern(atoms: seq<Atom>, toEnd: bool)

  /** How the matcher reads a pattern: c* first, then a final '$', then single characters. */
  function Parse(re: string): Pattern
  {
    if re == [] then Pattern([], false)
    else if |re| >= 2 && re[1] == '*' then
      var p := Parse(re[2..]);
      Pattern([Many(re[0])] + p.atoms, p.toEnd)
    else if re == ['$'] then Pattern([], true)
    else
      var p := Parse(re[1..]);
      Pattern([One(re[0])] + p.atoms, p.toEnd)
  }

  ghost predicate All(c: char, piece: string)
  {
    forall i | 0 <= i < |piece| :: c == '.' || piece[i] == c
  }

  ghost predicate Fits(a: Atom, piece: string)
  {
    All(a.c, piece) && (a.One? ==> |piece| == 1)
  }

  function Joined(pieces: seq<string>): string
  {
    if pieces == [] then [] else pieces[0] + Joined(pieces[1..])
  }

  ghost predicate Cut(p: Pattern, text: string, pieces: seq<string>)
  {
    && |pieces| == |p.atoms|
    && (forall i | 0 <= i < |pieces| :: Fits(p.atoms[i], pieces[i]))
    && Joined(pieces) <= text && (p.toEnd ==> Joined(pieces) == text)
  }

  /** The pattern matches at the start of the text. */
  ghost predicate Here(re: string, text: string)
  {
    exists pieces :: Cut(Parse(re), text, pieces)
  }

  /** c*re matches at the start of the text. */
  ghost predicate StarHere(c: char, re: string, text: string)
  {
    exists k :: StarAt(c, re, text, k)
  }

  ghost predicate StarAt(c: char, re: string, text: string, k: int)
  {
    0 <= k <= |text| && All(c, text[..k]) && Here(re, text[k..])
  }

  lemma HereEmpty(text: string)
    ensures Here([], text)
  {
    assert Cut(Parse([]), text, []);
  }

  lemma HereEnd(text: string)
    ensures Here(['$'], text) <==> text == []
  {
    assert Parse(['$']) == Pattern([], true);
    if text == [] {
      assert Cut(Parse(['$']), text, []);
    }
  }

  /** Cutting off the piece of the first atom. */
  lemma CutFirst(a: Atom, p: Pattern, text: string, pieces: seq<string>)
    requires Cut(Pattern([a] + p.atoms, p.toEnd), text, pieces)
    ensures var w := pieces[0]; Fits(a, w) && w <= text && Cut(p, text[|w|..], pieces[1..])
  {
    var q := Pattern([a] + p.atoms, p.toEnd);
    var w := pieces[0];
    assert Fits(q.atoms[0], w);
    forall i | 0 <= i < |pieces[1..]|
      ensures Fits(p.atoms[i], pieces[1..][i])
    {
      assert Fits(q.atoms[i + 1], pieces[i + 1]);
    }
  }

  lemma CutMore(a: Atom, p: Pattern, text: string, w: string, pieces: seq<string>)
    requires Fits(a, w) && w <= text && Cut(p, text[|w|..], pieces)
    ensures Cut(Pattern([a] + p.atoms, p.toEnd), text, [w] + pieces)
  {
    assert ([w] + pieces)[1..] == pieces;
    assert text == w + text[|w|..];
  }

  lemma HereStar(re: string, text: string)
    requires |re| >= 2 && re[1] == '*'
    ensures Here(re, text) <==> StarHere(re[0], re[2..], text)
  {
    var a, p := Many(re[0]), Parse(re[2..]);
    if Here(re, text) {
      var pieces :| Cut(Parse(re), text, pieces);
      CutFirst(a, p, text, pieces);
      assert StarAt(re[0], re[2..], text, |pieces[0]|);
    }
    if StarHere(re[0], re[2..], text) {
      var k :| StarAt(re[0], re[2..], text, k);
      var pieces :| Cut(p, text[k..], pieces);
      CutMore(a, p, text, text[..k], pieces);
      assert Cut(Parse(re), text, [text[..k]] + pieces);
    }
  }

  lemma HereOne(re: string, text: string)
    requires re != [] && !(|re| >= 2 && re[1] == '*') && re != ['$']
    ensures Here(re, text) <==> text != [] && (re[0] == '.' || re[0] == text[0]) && Here(re[1..], text[1..])
  {
    var a, p := One(re[0]), Parse(re[1..]);
    if Here(re, text) {
      var pieces :| Cut(Parse(re), text, pieces);
      CutFirst(a, p, text, pieces);
      assert Here(re[1..], text[1..]);
    }
    if text != [] && (re[0] == '.' || re[0] == text[0]) && Here(re[1..], text[1..]) {
      var pieces :| Cut(p, text[1..], pieces);
      CutMore(a, p, text, text[..1], pieces);
      assert Cut(Parse(re), text, [text[..1]] + pieces);
    }
  }

  // ---------------------------------------------------------------- the matcher

  /** matchhere. */
  method MatchHere(re: string, text: string) returns (r: bool)
    ensures r <==> Here(re, text)
    decreases |re|, 0
  {
    hide Here;
    if re == [] {
      HereEmpty(text);
      return true;
    }
    if |re| >= 2 && re[1] == '*' {
      HereStar(re, text);
      r := MatchStar(re[0], re[2..], text);
      return;
    }
    if re[0] == '$' && |re| == 1 {
      HereEnd(text);
      assert re == ['$'];
      return text == [];
    }
    HereOne(re, text);
    if text != [] && (re[0] == '.' || re[0] == text[0]) {
      r := MatchHere(re[1..], text[1..]);
      return;
    }
    return false;
  }

  /** matchstar: the shortest run of c first, then longer ones. */
  method MatchStar(c: char, re: string, text: string) returns (r: bool)
    ensures r <==> StarHere(c, re, text)
    decreases |re|, 1
  {
    hide Here;
    var k := 0;
    while true
      invariant 0 <= k <= |text| && All(c, text[..k])
      invariant forall j | 0 <= j < k :: !Here(re, text[j..])
      decreases |text| - k
    {
      var here := MatchHere(re, text[k..]);
      if here {
        assert StarAt(c, re, text, k);
        return true;
      }
      if k == |text| || !(text[k] == c || c == '.') {
        break;
      }
      k := k + 1;
    }
    forall j
      ensures !StarAt(c, re, text, j)
    {
      if k < j <= |text| {
        assert text[..j][k] == text[k];
      }
    }
    return false;
  }

  /** match: 1 exactly when the pattern matches somewhere, or at the start after '^'. */
  method Match(re: string, text: string) returns (r: bool)
    ensures re != [] && re[0] == '^' ==> (r <==> Here(re[1..], text))
    ensures !(re != [] && re[0] == '^') ==> (r <==> exists k :: 0 <= k <= |text| && Here(re, text[k..]))
  {
    hide Here;
    if re != [] && re[0] == '^' {
      r := MatchHere(re[1..], text);
      return;
    }
    var k := 0;
    while true
      invariant 0 <= k <= |text|
      invariant forall j | 0 <= j < k :: !Here(re, text[j..])
      decreases |text| - k
    {
      r := MatchHere(re, text[k..]);
      if r {
        return;
      }
      if k == |text| {
        break;
      }
      k := k + 1;
    }
  }
}
