/** The patterns of policy rules: exact text, or text in which `*` stands for any run without line terminators. */
module PolicyPatterns {
  import opened Options
  import opened Splitting

  // ----- From a pattern to a regular expression -----

  predicate Escaped(c: char) {
    c in "|\\{}()[]^$+?.-"
  }

  function EscapeRegex(value: string): string {
    if value == "" then ""
    else (if Escaped(value[0]) then ['\\', value[0]] else [value[0]]) + EscapeRegex(value[1..])
  }

  function ReplaceStars(text: string): string {
    if text == "" then ""
    else (if text[0] == '*' then ".*" else [text[0]]) + ReplaceStars(text[1..])
  }

  // ----- What a regular expression of this kind means -----

  /** `.*` or one character. */
  datatype Term = AnyRun | Exactly(c: char)

  /** The characters the regular expression grammar gives a meaning of their own. */
  predicate Syntax(c: char) {
    c in "^$\\.*+?()[]{}|"
  }

  /** Reads the fragment of the grammar made of characters, escaped punctuation and `.*`; nothing else. */
  function ReadRegex(text: string): Option<seq<Term>> {
    if text == "" then Some([])
    else if text[0] == '\\' then
      if |text| > 1 && (Syntax(text[1]) || text[1] == '-') then Prepend(Exactly(text[1]), ReadRegex(text[2..]))
        else None
    else if text[0] == '.' then
      if |text| > 1 && text[1] == '*' then Prepend(AnyRun, ReadRegex(text[2..])) else None
    else if Syntax(text[0]) then None
    else Prepend(Exactly(text[0]), ReadRegex(text[1..]))
  }

  function Prepend(t: Term, rest: Option<seq<Term>>): Option<seq<Term>> {
    if rest.Some? then Some([t] + rest.value) else None
  }

  predicate LineTerminator(c: char) {
    c == '\n' || c == '\r' || c == '\U{2028}' || c == '\U{2029}'
  }

  /** Whether the whole value is in the language of the terms. */
  predicate Accepts(terms: seq<Term>, value: string)
    decreases |terms| + |value|
  {
    if terms == [] then value == ""
    else
      match terms[0]
      case Exactly(c) => value != "" && value[0] == c && Accepts(terms[1..], value[1..])
      case AnyRun =>
        || Accepts(terms[1..], value)
        || (value != "" && !LineTerminator(value[0]) && Accepts(terms, value[1..]))
  }

  /** How closely a pattern names a value: 2 exactly, 1 by wildcard. */
  function MatchSpecificity(pattern: string, value: string): Option<nat> {
    if pattern == value then Some(2)
    else if '*' !in pattern then None
    else
      match ReadRegex(ReplaceStars(EscapeRegex(pattern)))
      case Some(terms) => if Accepts(terms, value) then Some(1) else None
      case None => None
  }

  // ----- The escaping leaves nothing but characters and wildcards -----

  function TermsOf(pattern: string): seq<Term> {
    if pattern == "" then []
    else [TermOf(pattern[0])] + TermsOf(pattern[1..])
  }

  lemma ReplacedTail(c: char, rest: string)
    ensures ReplaceStars([c] + rest) == (if c == '*' then ".*" else [c]) + ReplaceStars(rest)
  {
    assert ([c] + rest)[1..] == rest;
  }

  lemma ReadEscape(c: char, rest: string)
    requires Syntax(c) || c == '-'
    ensures ReadRegex(['\\', c] + rest) == Prepend(Exactly(c), ReadRegex(rest))
  {
    assert (['\\', c] + rest)[2..] == rest;
  }

  lemma ReadPlain(c: char, rest: string)
    requires !Syntax(c)
    ensures ReadRegex([c] + rest) == Prepend(Exactly(c), ReadRegex(rest))
  {
    assert ([c] + rest)[1..] == rest;
  }

  lemma ReadStar(rest: string)
    ensures ReadRegex(".*" + rest) == Prepend(AnyRun, ReadRegex(rest))
  {
    assert (".*" + rest)[2..] == rest;
  }

  function TermOf(c: char): Term {
    if c == '*' then AnyRun else Exactly(c)
  }

  lemma EscapedRegex(c: char, rest: string)
    requires Escaped(c)
    ensures ReadRegex(ReplaceStars(['\\', c] + rest)) == Prepend(Exactly(c), ReadRegex(ReplaceStars(rest)))
  {
    assert ['\\', c] + rest == ['\\'] + ([c] + rest);
    ReplacedTail('\\', [c] + rest);
    ReplacedTail(c, rest);
    var replaced := ReplaceStars(rest);
    assert ['\\'] + ([c] + replaced) == ['\\', c] + replaced;
    ReadEscape(c, replaced);
  }

  lemma UnescapedRegex(c: char, rest: string)
    requires !Escaped(c)
    ensures ReadRegex(ReplaceStars([c] + rest)) == Prepend(TermOf(c), ReadRegex(ReplaceStars(rest)))
  {
    ReplacedTail(c, rest);
    if c == '*' {
      ReadStar(ReplaceStars(rest));
    } else {
      ReadPlain(c, ReplaceStars(rest));
    }
  }

  /** The regular expression built from any pattern reads as the pattern's own characters and wildcards. */
  lemma {:induction false} EscapingIsExact(pattern: string)
    ensures ReadRegex(ReplaceStars(EscapeRegex(pattern))) == Some(TermsOf(pattern))
  {
    if pattern != "" {
      EscapingIsExact(pattern[1..]);
      if Escaped(pattern[0]) {
        EscapedRegex(pattern[0], EscapeRegex(pattern[1..]));
      } else {
        UnescapedRegex(pattern[0], EscapeRegex(pattern[1..]));
      }
    }
  }

  // ----- What a pattern means -----

  ghost predicate OneLine(run: string) {
    forall i :: 0 <= i < |run| ==> !LineTerminator(run[i])
  }

  ghost predicate AllOneLine(runs: seq<string>) {
    forall i :: 0 <= i < |runs| ==> OneLine(runs[i])
  }

  /** The pieces with the runs between them. */
  function Weave(pieces: seq<string>, runs: seq<string>): string
    requires |pieces| == |runs| + 1
  {
    if runs == [] then pieces[0] else pieces[0] + runs[0] + Weave(pieces[1..], runs[1..])
  }

  ghost predicate FilledBy(pattern: string, runs: seq<string>, value: string) {
    && |Split(pattern, '*')| == |runs| + 1
    && AllOneLine(runs)
    && value == Weave(Split(pattern, '*'), runs)
  }

  /** The value is the pattern with each `*` replaced by some run without line terminators. */
  ghost predicate Fits(pattern: string, value: string) {
    exists runs :: FilledBy(pattern, runs, value)
  }

  lemma Cancel(a: string, b: string, c: string)
    ensures a + b == a + c <==> b == c
  {
    assert (a + b)[|a|..] == b && (a + c)[|a|..] == c;
  }

  lemma FilledFirst(c: char, rest: string, runs: seq<string>, value: string)
    requires c != '*'
    ensures FilledBy([c] + rest, runs, [c] + value) <==> FilledBy(rest, runs, value)
  {
    var pattern := [c] + rest;
    assert pattern[1..] == rest;
    var inner := Split(rest, '*');
    var outer := Split(pattern, '*');
    assert outer == [[c] + inner[0]] + inner[1..];
    if |inner| == |runs| + 1 {
      WeaveFirst(c, inner, runs);
      Cancel([c], value, Weave(inner, runs));
    }
  }

  lemma WeaveFirst(c: char, pieces: seq<string>, runs: seq<string>)
    requires |pieces| == |runs| + 1
    ensures Weave([[c] + pieces[0]] + pieces[1..], runs) == [c] + Weave(pieces, runs)
  {
    var longer := [[c] + pieces[0]] + pieces[1..];
    assert longer[1..] == pieces[1..];
    if runs != [] {
      assert ([c] + pieces[0]) + runs[0] + Weave(pieces[1..], runs[1..]) == [c]
        + (pieces[0] + runs[0] + Weave(pieces[1..], runs[1..]));
    }
  }

  lemma WeaveStartsWith(c: char, rest: string, runs: seq<string>)
    requires c != '*' && |Split([c] + rest, '*')| == |runs| + 1
    ensures Weave(Split([c] + rest, '*'), runs) == [c] + Weave(Split(rest, '*'), runs)
  {
    assert ([c] + rest)[1..] == rest;
    WeaveFirst(c, Split(rest, '*'), runs);
  }

  lemma FitsCharacter(c: char, rest: string, value: string)
    requires c != '*'
    ensures Fits([c] + rest, value) <==> value != "" && value[0] == c && Fits(rest, value[1..])
  {
    if Fits([c] + rest, value) {
      var runs :| FilledBy([c] + rest, runs, value);
      WeaveStartsWith(c, rest, runs);
      assert value == [c] + value[1..];
      FilledFirst(c, rest, runs, value[1..]);
    }
    if value != "" && value[0] == c && Fits(rest, value[1..]) {
      var runs :| FilledBy(rest, runs, value[1..]);
      FilledFirst(c, rest, runs, value[1..]);
      assert value == [c] + value[1..];
    }
  }

  lemma FilledStar(rest: string, run: string, runs: seq<string>, value: string)
    ensures FilledBy("*" + rest, [run] + runs, run + value) <==> OneLine(run) && FilledBy(rest, runs, value)
  {
    var pattern := "*" + rest;
    assert pattern[1..] == rest;
    var pieces := Split(pattern, '*');
    assert pieces == [""] + Split(rest, '*');
    assert pieces[1..] == Split(rest, '*');
    var all := [run] + runs;
    assert all[1..] == runs;
    if AllOneLine(all) {
      assert OneLine(all[0]);
      assert forall i :: 0 <= i < |runs| ==> runs[i] == all[i + 1];
    }
    if |pieces| == |all| + 1 {
      var woven := Weave(Split(rest, '*'), runs);
      assert Weave(pieces, all) == run + woven;
      Cancel(run, value, woven);
    }
  }

  ghost predicate RunThen(rest: string, value: string, k: nat) {
    k <= |value| && OneLine(value[..k]) && Fits(rest, value[k..])
  }

  lemma FitsStar(rest: string, value: string)
    ensures Fits("*" + rest, value) <==> exists k :: RunThen(rest, value, k)
  {
    if Fits("*" + rest, value) {
      var runs :| FilledBy("*" + rest, runs, value);
      assert ("*" + rest)[1..] == rest;
      var run := runs[0];
      assert runs == [run] + runs[1..];
      var woven := Weave(Split(rest, '*'), runs[1..]);
      assert Split("*" + rest, '*')[1..] == Split(rest, '*');
      assert value == run + woven;
      FilledStar(rest, run, runs[1..], woven);
      assert value[..|run|] == run && value[|run|..] == woven;
      assert RunThen(rest, value, |run|);
    }
    if k: nat :| RunThen(rest, value, k) {
      var runs :| FilledBy(rest, runs, value[k..]);
      FilledStar(rest, value[..k], runs, value[k..]);
      assert value == value[..k] + value[k..];
      assert FilledBy("*" + rest, [value[..k]] + runs, value);
    }
  }

  /** A wildcard takes nothing, or one more character. */
  lemma StarStep(rest: string, value: string)
    ensures Fits("*" + rest, value)
       <==> Fits(rest, value) || (value != "" && !LineTerminator(value[0]) && Fits("*" + rest, value[1..]))
  {
    FitsStar(rest, value);
    if k: nat :| RunThen(rest, value, k) {
      if k == 0 {
        assert value[0..] == value;
      } else {
        assert value[..k][0] == value[0];
        assert value[1..][..k - 1] == value[..k][1..] && value[1..][k - 1..] == value[k..];
        FitsStar(rest, value[1..]);
        assert RunThen(rest, value[1..], k - 1);
      }
    }
    if Fits(rest, value) {
      assert value[0..] == value;
      assert RunThen(rest, value, 0);
    }
    if value != "" && !LineTerminator(value[0]) && Fits("*" + rest, value[1..]) {
      FitsStar(rest, value[1..]);
      var k: nat :| RunThen(rest, value[1..], k);
      assert value[..k + 1] == [value[0]] + value[1..][..k] && value[k + 1..] == value[1..][k..];
      assert RunThen(rest, value, k + 1);
    }
  }

  lemma EmptyPatternFits(value: string)
    ensures Fits("", value) <==> value == ""
  {
    assert FilledBy("", [], "");
    if Fits("", value) {
      var runs :| FilledBy("", runs, value);
    }
  }

  /** The terms of a pattern accept exactly the values the pattern fits. */
  lemma {:induction false} AcceptsIffFits(pattern: string, value: string)
    ensures Accepts(TermsOf(pattern), value) <==> Fits(pattern, value)
    decreases |pattern| + |value|
  {
    if pattern == "" {
      EmptyPatternFits(value);
    } else {
      var rest := pattern[1..];
      assert TermsOf(pattern)[1..] == TermsOf(rest);
      if pattern[0] == '*' {
        assert pattern == "*" + rest;
        StarStep(rest, value);
        AcceptsIffFits(rest, value);
        if value != "" { AcceptsIffFits(pattern, value[1..]); }
      } else {
        assert pattern == [pattern[0]] + rest;
        FitsCharacter(pattern[0], rest, value);
        if value != "" { AcceptsIffFits(rest, value[1..]); }
      }
    }
  }

  /** Without a wildcard a pattern fits itself only. */
  lemma {:induction false} PlainFitsItself(pattern: string, value: string)
    requires '*' !in pattern
    ensures Fits(pattern, value) <==> pattern == value
  {
    if pattern == "" {
      EmptyPatternFits(value);
    } else {
      assert pattern == [pattern[0]] + pattern[1..] && pattern[0] in pattern;
      FitsCharacter(pattern[0], pattern[1..], value);
      if value != "" {
        PlainFitsItself(pattern[1..], value[1..]);
        assert value == [value[0]] + value[1..];
      }
    }
  }

  /** Every pattern fits its own text: a `*` may stand for itself. */
  lemma {:induction false} FitsItself(pattern: string)
    ensures Fits(pattern, pattern)
  {
    if pattern == "" {
      EmptyPatternFits("");
    } else {
      FitsItself(pattern[1..]);
      assert pattern == [pattern[0]] + pattern[1..];
      if pattern[0] == '*' {
        StarStep(pattern[1..], pattern[1..]);
        StarStep(pattern[1..], pattern);
      } else {
        FitsCharacter(pattern[0], pattern[1..], pattern);
      }
    }
  }

  /** A pattern is given a specificity exactly when the value fits it, and 2 exactly when it is the value. */
  lemma SpecificityMeans(pattern: string, value: string)
    ensures MatchSpecificity(pattern, value)
         == if pattern == value then Some(2) else if Fits(pattern, value) then Some(1) else None
    ensures MatchSpecificity(pattern, value).Some? <==> Fits(pattern, value)
  {
    EscapingIsExact(pattern);
    AcceptsIffFits(pattern, value);
    FitsItself(pattern);
    if '*' !in pattern { PlainFitsItself(pattern, value); }
  }
}
