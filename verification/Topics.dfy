/**
 Topic patterns: the segment matcher of the bus, the regular expression built for Kafka and the routing-key pattern
 built for AMQP, all compared with one declarative meaning.
 */
module Topics {

  import opened Strings

  // ---------- what a pattern means ----------

  predicate SegmentMatches(p: string, t: string) { p == "*" || p == t }

  /** `*` is one segment; `>`, only as the last segment, is one or more; anything else is itself. */
  predicate Meaning(ps: seq<string>, ts: seq<string>)
  {
    || (|ps| == |ts| && Aligned(ps, ts, |ps|))
    || (1 <= |ps| <= |ts| && ps[|ps| - 1] == ">" && Aligned(ps, ts, |ps| - 1))
  }

  /** The first `n` segments of the pattern are not `>`, and match. */
  predicate Aligned(ps: seq<string>, ts: seq<string>, n: nat)
  {
    n <= |ps| && n <= |ts| && forall k :: 0 <= k < n ==> ps[k] != ">" && SegmentMatches(ps[k], ts[k])
  }

  predicate IsLiteral(pattern: string) { '*' !in pattern && '>' !in pattern }

  lemma LiteralMeaning(pattern: string, topic: string)
    requires IsLiteral(pattern)
    ensures Meaning(Split(pattern, '.'), Split(topic, '.')) <==> pattern == topic
  {
    var ps, ts := Split(pattern, '.'), Split(topic, '.');
    LiteralSegments(pattern);
    JoinSplit(pattern, '.');
    JoinSplit(topic, '.');
    if Meaning(ps, ts) { assert ps == ts; }
  }

  lemma {:induction false} LiteralSegments(pattern: string)
    requires IsLiteral(pattern)
    ensures forall k :: 0 <= k < |Split(pattern, '.')| ==> IsLiteral(Split(pattern, '.')[k])
    ensures ">" !in Split(pattern, '.') && "*" !in Split(pattern, '.')
  {
    if pattern == "" {} else { LiteralSegments(pattern[1..]); }
    assert !IsLiteral(">") && !IsLiteral("*");
  }

  /** The segment matcher decides the meaning, for every pattern, well-formed or not, and every topic. */
  method MatchPattern(pattern: string, topic: string) returns (matched: bool)
    ensures matched <==> Meaning(Split(pattern, '.'), Split(topic, '.'))
  {
    if IsLiteral(pattern) {
      LiteralMeaning(pattern, topic);
      return pattern == topic;
    }
    var patternParts := Split(pattern, '.');
    var topicParts := Split(topic, '.');
    for i := 0 to |patternParts|
      invariant Aligned(patternParts, topicParts, i)
    {
      var p := patternParts[i];
      if p == ">" {
        return i == |patternParts| - 1 && i < |topicParts|;
      }
      if i >= |topicParts| {
        return false;
      }
      if p != "*" && p != topicParts[i] {
        return false;
      }
    }
    return |patternParts| == |topicParts|;
  }

  /** Wildcards fill a whole segment, and `>` is only the last one. */
  predicate WellFormed(ps: seq<string>)
  {
    && (forall k :: 0 <= k < |ps| ==> ps[k] == "*" || ps[k] == ">" || IsLiteral(ps[k]))
    && forall k :: 0 <= k < |ps| - 1 ==> ps[k] != ">"
  }

  // ---------- the regular expression for Kafka ----------

  datatype Matcher = TooLong | Exact(topic: string) | Regex(source: string)

  predicate IsSpecial(c: char) { c in ".+?^${}()|[]\\" }

  function ReplaceEach(s: string, f: char -> string): string
  {
    if s == "" then "" else f(s[0]) + ReplaceEach(s[1..], f)
  }

  function Escape(c: char): string { if IsSpecial(c) then ['\\', c] else [c] }

  function StarToRun(c: char): string { if c == '*' then "[^.]+" else [c] }

  function TailToRun(c: char): string { if c == '>' then ".+" else [c] }

  /** Three replacements, one after the other. */
  function RegexSource(pattern: string): string
  {
    ReplaceEach(ReplaceEach(ReplaceEach(pattern, Escape), StarToRun), TailToRun)
  }

  /** No pattern over 256 characters; a literal one as itself; the rest as an expression anchored at both ends. */
  function PatternToKafkaTopicMatcher(pattern: string): Matcher
  {
    if |pattern| > 256 then TooLong
    else if IsLiteral(pattern) then Exact(pattern)
    else Regex(RegexSource(pattern))
  }

  // The regular expressions that can arise: characters, runs without a dot, runs without a line end.

  datatype Atom = Lit(c: char) | SegmentRun | AnyRun

  predicate IsLineEnd(c: char) { c in "\n\r\U{2028}\U{2029}" }

  datatype Parsed = Atoms(atoms: seq<Atom>) | Unsupported

  /** The syntax characters of a regular expression; any other character stands for itself. */
  predicate IsSyntax(c: char)
  {
    || c == '^' || c == '$' || c == '\\' || c == '.' || c == '*' || c == '+' || c == '?'
    || c == '(' || c == ')' || c == '[' || c == ']' || c == '{' || c == '}' || c == '|'
  }

  /** Reading a regular expression of this kind; anything else is not supported. */
  function Parse(source: string): Parsed
    decreases |source|
  {
    if source == "" then Atoms([])
    else if "[^.]+" <= source then Behind(SegmentRun, Parse(source[5..]))
    else if ".+" <= source then Behind(AnyRun, Parse(source[2..]))
    else if source[0] == '\\' && |source| >= 2 && IsSyntax(source[1]) then Behind(Lit(source[1]), Parse(source[2..]))
    else if IsSyntax(source[0]) then Unsupported
    else Behind(Lit(source[0]), Parse(source[1..]))
  }

  function Behind(first: Atom, rest: Parsed): Parsed
  {
    if rest.Atoms? then Atoms([first] + rest.atoms) else Unsupported
  }

  predicate Accepts(atoms: seq<Atom>, s: string)
    decreases |atoms|
  {
    if atoms == [] then s == "" else
    match atoms[0]
    case Lit(c) => s != "" && s[0] == c && Accepts(atoms[1..], s[1..])
    case SegmentRun => exists k :: 1 <= k <= |s| && Free(s[..k], '.') && Accepts(atoms[1..], s[k..])
    case AnyRun => exists k :: 1 <= k <= |s| && LineFree(s[..k]) && Accepts(atoms[1..], s[k..])
  }

  predicate LineFree(s: string) { forall k :: 0 <= k < |s| ==> !IsLineEnd(s[k]) }

  /** One pattern character as one piece of the expression. */
  function AtomOf(c: char): Atom { if c == '*' then SegmentRun else if c == '>' then AnyRun else Lit(c) }

  function AtomsOf(pattern: string): seq<Atom>
  {
    if pattern == "" then [] else [AtomOf(pattern[0])] + AtomsOf(pattern[1..])
  }

  lemma {:induction false} ReplaceEachAppend(a: string, b: string, f: char -> string)
    ensures ReplaceEach(a + b, f) == ReplaceEach(a, f) + ReplaceEach(b, f)
  {
    if a == "" {
      assert a + b == b;
    } else {
      assert (a + b)[1..] == a[1..] + b;
      ReplaceEachAppend(a[1..], b, f);
    }
  }

  function Piece(c: char): string
  {
    if c == '*' then "[^.]+" else if c == '>' then ".+" else Escape(c)
  }

  lemma PieceIsThreeReplacements(c: char)
    ensures ReplaceEach(ReplaceEach(Escape(c), StarToRun), TailToRun) == Piece(c)
  {
    assert !IsSpecial('*') && !IsSpecial('>') && !IsSyntax('>');
    var e := Escape(c);
    if IsSpecial(c) {
      assert e[1..] == [c] && e[1..][1..] == "";
      assert ReplaceEach(e, StarToRun) == ['\\'] + ReplaceEach([c], StarToRun) == e;
      assert ReplaceEach(e, TailToRun) == ['\\'] + ReplaceEach([c], TailToRun) == e;
    } else {
      SingleReplacement(c, StarToRun);
      if c == '*' {
        RunHasNoTail();
      } else {
        SingleReplacement(c, TailToRun);
      }
    }
  }

  lemma SingleReplacement(c: char, f: char -> string)
    ensures ReplaceEach([c], f) == f(c)
  {
    assert [c][1..] == "";
  }

  lemma RunHasNoTail()
    ensures ReplaceEach("[^.]+", TailToRun) == "[^.]+"
  {
    var r := "[^.]+";
    assert r[1..] == "^.]+" && "^.]+"[1..] == ".]+" && ".]+"[1..] == "]+" && "]+"[1..] == "+" && "+"[1..] == "";
    assert ReplaceEach("+", TailToRun) == "+";
    assert ReplaceEach("]+", TailToRun) == "]+";
    assert ReplaceEach(".]+", TailToRun) == ".]+";
    assert ReplaceEach("^.]+", TailToRun) == "^.]+";
  }

  /** The text built by the three replacements reads back as one piece per pattern character. */
  lemma {:induction false} RegexTextReadsBack(pattern: string)
    ensures Parse(RegexSource(pattern)) == Atoms(AtomsOf(pattern))
  {
    if pattern == "" {
    } else {
      var c, rest := pattern[0], pattern[1..];
      RegexTextReadsBack(rest);
      ReplaceEachAppend(Escape(c), ReplaceEach(rest, Escape), StarToRun);
      ReplaceEachAppend(
        ReplaceEach(Escape(c), StarToRun), ReplaceEach(ReplaceEach(rest, Escape), StarToRun), TailToRun);
      PieceIsThreeReplacements(c);
      assert RegexSource(pattern) == Piece(c) + RegexSource(rest);
      PieceParses(c, RegexSource(rest));
    }
  }

  /** The escaped characters are all the syntax characters but the star, which is replaced. */
  lemma EscapedAreSyntax(c: char)
    ensures IsSyntax(c) <==> IsSpecial(c) || c == '*'
  {}

  lemma PieceParses(c: char, rest: string)
    ensures Parse(Piece(c) + rest) == Behind(AtomOf(c), Parse(rest))
  {
    var source := Piece(c) + rest;
    EscapedAreSyntax(c);
    if c == '*' {
      assert source[5..] == rest;
    } else if c == '>' {
      assert source[0] == '.' && source[2..] == rest;
    } else if IsSpecial(c) {
      assert source[0] == '\\' && source[1] == c && source[2..] == rest;
    } else {
      assert source[0] == c && source[1..] == rest;
      assert IsSpecial('[') && IsSpecial('.') && IsSpecial('\\');
    }
  }

  predicate KafkaAccepts(pattern: string, topic: string)
  {
    match PatternToKafkaTopicMatcher(pattern)
    case TooLong => false
    case Exact(t) => t == topic
    case Regex(source) => Parse(source).Atoms? && Accepts(Parse(source).atoms, topic)
  }

  // ---------- matching segment by segment ----------

  /** The atoms behind a segment: none, or those of a dot and more. */
  predicate AtBoundary(atoms: seq<Atom>) { atoms == [] || atoms[0] == Lit('.') }

  /** The first segment of `s` and what follows it. */
  lemma FirstSegment(s: string)
    ensures var t := Split(s, '.')[0];
      t <= s && Free(t, '.') && (if |Split(s, '.')| == 1 then t == s else |t| < |s| && s[|t|] == '.')
    ensures |Split(s, '.')| > 1 ==> Split(s[|Split(s, '.')[0]| + 1..], '.') == Split(s, '.')[1..]
  {
    JoinSplit(s, '.');
    if |Split(s, '.')| > 1 { SplitTail(s); }
  }

  lemma {:induction false} SplitTail(s: string)
    requires |Split(s, '.')| > 1
    ensures |Split(s, '.')[0]| < |s| && Split(s[|Split(s, '.')[0]| + 1..], '.') == Split(s, '.')[1..]
  {
    var rest := Split(s[1..], '.');
    if s[0] == '.' {
      assert ([""] + rest)[1..] == rest;
    } else {
      var parts := [[s[0]] + rest[0]] + rest[1..];
      assert parts[1..] == rest[1..];
      SplitTail(s[1..]);
      assert s[1..][|rest[0]| + 1..] == s[|rest[0]| + 2..];
    }
  }

  lemma {:induction false} AtomsOfAppend(a: string, b: string)
    ensures AtomsOf(a + b) == AtomsOf(a) + AtomsOf(b)
  {
    if a == "" {
      assert a + b == b;
    } else {
      assert (a + b)[1..] == a[1..] + b;
      AtomsOfAppend(a[1..], b);
    }
  }

  /** A literal segment takes itself off the front. */
  lemma {:induction false} LiteralAtoms(l: string, rest: seq<Atom>, s: string)
    requires IsLiteral(l)
    ensures Accepts(AtomsOf(l) + rest, s) <==> l <= s && Accepts(rest, s[|l|..])
  {
    if l == "" {
      assert AtomsOf(l) + rest == rest && s[0..] == s;
    } else {
      assert (AtomsOf(l) + rest)[1..] == AtomsOf(l[1..]) + rest;
      if s != "" {
        LiteralAtoms(l[1..], rest, s[1..]);
        assert l <= s <==> s[0] == l[0] && l[1..] <= s[1..];
        if l <= s { assert s[1..][|l[1..]|..] == s[|l|..]; }
      }
    }
  }

  /** Up to a boundary, a literal segment takes exactly the first segment, and a run takes all of it. */
  lemma SegmentTakesFirst(p: string, rest: seq<Atom>, s: string)
    requires p == "*" || (IsLiteral(p) && Free(p, '.'))
    requires AtBoundary(rest)
    ensures var t := Split(s, '.')[0];
      Accepts(AtomsOf(p) + rest, s) <==>
        SegmentMatches(p, t) && (p == "*" ==> t != "") && t <= s && Accepts(rest, s[|t|..])
  {
    var t := Split(s, '.')[0];
    FirstSegment(s);
    if p == "*" {
      assert AtomsOf(p) == [SegmentRun] by { assert p[1..] == ""; }
      assert (AtomsOf(p) + rest)[1..] == rest;
      forall k | 1 <= k <= |s| && Free(s[..k], '.') && Accepts(rest, s[k..]) ensures k == |t| {
        BoundaryIsSegmentEnd(rest, s, k);
      }
      if t != "" && Accepts(rest, s[|t|..]) { assert s[..|t|] == t; }
    } else {
      LiteralAtoms(p, rest, s);
      if p <= s && Accepts(rest, s[|p|..]) {
        assert s[..|p|] == p;
        BoundaryIsSegmentEnd(rest, s, |p|);
      }
    }
  }

  /** A dot-free front after which a boundary is accepted is the whole first segment. */
  lemma BoundaryIsSegmentEnd(rest: seq<Atom>, s: string, k: nat)
    requires k <= |s| && Free(s[..k], '.') && AtBoundary(rest) && Accepts(rest, s[k..])
    ensures s[..k] == Split(s, '.')[0]
  {
    var t := Split(s, '.')[0];
    FirstSegment(s);
    if k < |s| { assert s[k..][0] == '.' && s[k] == '.'; }
  }

  /** What Kafka asks beyond the meaning: no empty segment under a wildcard, no line end in the tail. */
  predicate KafkaExtra(ps: seq<string>, ts: seq<string>)
    requires 1 <= |ps| <= |ts|
  {
    && StarsFilled(ps, ts)
    && (ps[|ps| - 1] == ">" ==> Join(ts[|ps| - 1..], '.') != "" && LineFree(Join(ts[|ps| - 1..], '.')))
  }

  predicate StarsFilled(ps: seq<string>, ts: seq<string>)
    requires |ps| <= |ts|
  {
    forall k :: 0 <= k < |ps| && ps[k] == "*" ==> ts[k] != ""
  }

  lemma TailTakesAll(s: string)
    ensures Accepts([AnyRun], s) <==> s != "" && LineFree(s)
  {
    assert [AnyRun][1..] == [];
    if s != "" && LineFree(s) { assert s[..|s|] == s && s[|s|..] == ""; }
    if Accepts([AnyRun], s) {
      var k :| 1 <= k <= |s| && LineFree(s[..k]) && Accepts([AnyRun][1..], s[k..]);
      assert s[..k] == s;
    }
  }

  lemma AlignedCons(p: string, ps: seq<string>, t: string, ts: seq<string>, n: nat)
    requires p != ">" && n <= |ps|
    ensures Aligned([p] + ps, [t] + ts, n + 1) <==> SegmentMatches(p, t) && Aligned(ps, ts, n)
  {
    var pps, tts := [p] + ps, [t] + ts;
    if Aligned(pps, tts, n + 1) {
      assert pps[0] == p && tts[0] == t;
      forall k | 0 <= k < n ensures ps[k] != ">" && SegmentMatches(ps[k], ts[k]) {
        assert pps[k + 1] == ps[k] && tts[k + 1] == ts[k];
      }
    }
  }

  lemma MeaningCons(p: string, ps: seq<string>, t: string, ts: seq<string>)
    requires p != ">" && 1 <= |ps|
    ensures Meaning([p] + ps, [t] + ts) <==> SegmentMatches(p, t) && Meaning(ps, ts)
  {
    hide Aligned, SegmentMatches;
    AlignedCons(p, ps, t, ts, |ps|);
    AlignedCons(p, ps, t, ts, |ps| - 1);
  }

  /** The atoms of a well-formed pattern accept what the pattern means, and Kafka's extra demands. */
  lemma {:induction false} AtomsDecideSegments(ps: seq<string>, s: string)
    requires |ps| >= 1 && WellFormed(ps) && AllFree(ps, '.')
    ensures Accepts(AtomsOf(Join(ps, '.')), s) <==> Meaning(ps, Split(s, '.')) && KafkaExtra(ps, Split(s, '.'))
    decreases |ps|
  {
    var p, ts := ps[0], Split(s, '.');
    FirstSegment(s);
    JoinSplit(s, '.');
    if |ps| == 1 {
      if p == ">" {
        assert AtomsOf(p) == [AnyRun] by { assert p[1..] == ""; }
        TailTakesAll(s);
        assert ps[..0] == [] && ts[0..] == ts;
      } else {
        SegmentTakesFirst(p, [], s);
        assert AtomsOf(p) + [] == AtomsOf(p);
        LastSegment(p, ts);
      }
    } else {
      var rest := ps[1..];
      DotThenRest(p, rest, s);
      if |ts| > 1 {
        AtomsDecideSegments(rest, s[|ts[0]| + 1..]);
        assert ps == [p] + rest && ts == [ts[0]] + ts[1..];
        MeaningCons(p, rest, ts[0], ts[1..]);
        if Meaning(rest, ts[1..]) { ExtraCons(p, rest, ts[0], ts[1..]); }
      }
    }
  }

  lemma LastSegment(p: string, ts: seq<string>)
    requires |ts| >= 1 && p != ">"
    ensures Meaning([p], ts) <==> |ts| == 1 && SegmentMatches(p, ts[0])
  {}

  lemma ExtraCons(p: string, ps: seq<string>, t: string, ts: seq<string>)
    requires p != ">" && 1 <= |ps| <= |ts|
    ensures KafkaExtra([p] + ps, [t] + ts) <==> (p == "*" ==> t != "") && KafkaExtra(ps, ts)
  {
    hide Join, LineFree;
    var pps, tts := [p] + ps, [t] + ts;
    assert tts[|pps| - 1..] == ts[|ps| - 1..] && pps[|pps| - 1] == ps[|ps| - 1];
    if StarsFilled(pps, tts) {
      forall k | 0 <= k < |ps| && ps[k] == "*" ensures ts[k] != "" { assert pps[k + 1] == "*" && tts[k + 1] == ts[k]; }
      assert p == "*" ==> pps[0] == "*" && tts[0] == t;
    }
  }

  /** A first segment that is not the last takes the first segment of the topic and the dot behind it. */
  lemma DotThenRest(p: string, rest: seq<string>, s: string)
    requires |rest| >= 1 && (p == "*" || (IsLiteral(p) && Free(p, '.')))
    ensures var ts := Split(s, '.');
      Accepts(AtomsOf(Join([p] + rest, '.')), s) <==>
        |ts| > 1 && SegmentMatches(p, ts[0]) && (p == "*" ==> ts[0] != "")
        && |ts[0]| < |s| && Accepts(AtomsOf(Join(rest, '.')), s[|ts[0]| + 1..])
  {
    hide Join, AtomsOf, Split, Accepts;
    var t := Split(s, '.')[0];
    var behind := [Lit('.')] + AtomsOf(Join(rest, '.'));
    FirstSegment(s);
    JoinedAtoms(p, rest);
    SegmentTakesFirst(p, behind, s);
    if t <= s { DotAccepts(AtomsOf(Join(rest, '.')), s[|t|..]); }
    if |t| < |s| { assert s[|t|..][1..] == s[|t| + 1..] && s[|t|..][0] == s[|t|]; }
  }

  lemma JoinedAtoms(p: string, rest: seq<string>)
    requires |rest| >= 1
    ensures AtomsOf(Join([p] + rest, '.')) == AtomsOf(p) + ([Lit('.')] + AtomsOf(Join(rest, '.')))
  {
    var behind := Join(rest, '.');
    assert Join([p] + rest, '.') == p + ("." + behind) by { assert ([p] + rest)[1..] == rest; }
    hide Join;
    AtomsOfAppend(p, "." + behind);
    assert AtomsOf("." + behind) == [Lit('.')] + AtomsOf(behind) by { assert ("." + behind)[1..] == behind; }
  }

  lemma DotAccepts(atoms: seq<Atom>, s: string)
    ensures Accepts([Lit('.')] + atoms, s) <==> s != "" && s[0] == '.' && Accepts(atoms, s[1..])
  {
    assert ([Lit('.')] + atoms)[1..] == atoms;
  }

  /**
   For every well-formed pattern and every topic: Kafka's expression accepts the topic exactly when the pattern
   means it, no wildcard stands over an empty segment and the tail under a `>` has no line end.
   */
  lemma KafkaExact(pattern: string, topic: string)
    requires WellFormed(Split(pattern, '.'))
    ensures var ps, ts := Split(pattern, '.'), Split(topic, '.');
      KafkaAccepts(pattern, topic) <==> |pattern| <= 256 && Meaning(ps, ts) && KafkaExtra(ps, ts)
  {
    var ps, ts := Split(pattern, '.'), Split(topic, '.');
    JoinSplit(pattern, '.');
    if IsLiteral(pattern) {
      LiteralMeaning(pattern, topic);
      LiteralSegments(pattern);
      if Meaning(ps, ts) { NoWildcards(ps, ts); }
    } else {
      AtomsDecideSegments(ps, topic);
      RegexTextReadsBack(pattern);
    }
  }

  lemma NoWildcards(ps: seq<string>, ts: seq<string>)
    requires 1 <= |ps| <= |ts| && "*" !in ps && ">" !in ps
    ensures KafkaExtra(ps, ts)
  {
    assert ps[|ps| - 1] in ps;
  }

  /** For every pattern that is not too long, well-formed or not: what Kafka accepts, piece by piece. */
  lemma KafkaIsAtoms(pattern: string, topic: string)
    requires |pattern| <= 256
    ensures KafkaAccepts(pattern, topic) <==> Accepts(AtomsOf(pattern), topic)
  {
    if IsLiteral(pattern) {
      LiteralAtoms(pattern, [], topic);
      assert AtomsOf(pattern) + [] == AtomsOf(pattern);
    } else {
      RegexTextReadsBack(pattern);
    }
  }

  // ---------- patterns that are not well-formed ----------

  /** A string with every character replaced. */
  function Mapped(s: string, f: char -> char): string { seq(|s|, k requires 0 <= k < |s| => f(s[k])) }

  function MappedAll(ps: seq<string>, f: char -> char): seq<string>
  {
    seq(|ps|, k requires 0 <= k < |ps| => Mapped(ps[k], f))
  }

  lemma MappedCons(c: char, s: string, f: char -> char)
    ensures Mapped([c] + s, f) == [f(c)] + Mapped(s, f)
  {}

  lemma MappedAt(s: string, f: char -> char, k: nat)
    requires k < |s|
    ensures Mapped(s, f)[k] == f(s[k])
  {}

  lemma MappedAllCons(p: string, ps: seq<string>, f: char -> char)
    ensures MappedAll([p] + ps, f) == [Mapped(p, f)] + MappedAll(ps, f)
  {}

  /** Replacing characters, but neither putting in nor taking out a dot, and splitting commute. */
  lemma {:induction false} SplitCommutes(pattern: string, f: char -> char)
    requires forall c :: f(c) == '.' <==> c == '.'
    ensures Split(Mapped(pattern, f), '.') == MappedAll(Split(pattern, '.'), f)
  {
    if pattern == "" {
      assert Mapped(pattern, f) == "";
    } else {
      var c, tail := pattern[0], pattern[1..];
      var rest := Split(tail, '.');
      SplitCommutes(tail, f);
      assert pattern == [c] + tail;
      MappedCons(c, tail, f);
      assert ([f(c)] + Mapped(tail, f))[1..] == Mapped(tail, f);
      MappedAllCons(rest[0], rest[1..], f);
      assert rest == [rest[0]] + rest[1..];
      assert Mapped("", f) == "";
      hide Mapped, MappedAll;
      if c == '.' {
        MappedAllCons("", rest, f);
      } else {
        MappedAllCons([c] + rest[0], rest[1..], f);
        MappedCons(c, rest[0], f);
      }
    }
  }

  /** A letter for every wildcard. */
  function Instance(c: char): char { if c == '*' || c == '>' then 'x' else c }

  /** Kafka accepts the pattern with a letter for every wildcard. */
  lemma {:induction false} InstanceIsAccepted(pattern: string)
    ensures Accepts(AtomsOf(pattern), Mapped(pattern, Instance))
  {
    if pattern == "" {
      assert Mapped(pattern, Instance) == "";
    } else {
      var c, tail := pattern[0], pattern[1..];
      var s := Mapped(pattern, Instance);
      InstanceIsAccepted(tail);
      assert s[1..] == Mapped(tail, Instance) && AtomsOf(pattern)[1..] == AtomsOf(tail);
      assert s[0] == Instance(c) && s[..1] == [Instance(c)];
      if c == '*' { assert Free(s[..1], '.') && Accepts(AtomsOf(pattern)[1..], s[1..]); }
      if c == '>' { assert LineFree(s[..1]) && Accepts(AtomsOf(pattern)[1..], s[1..]); }
    }
  }

  /** A pattern that is not well-formed does not mean that topic. */
  lemma InstanceIsNotMeant(ps: seq<string>)
    requires !WellFormed(ps)
    ensures !Meaning(ps, MappedAll(ps, Instance))
  {
    var ts := MappedAll(ps, Instance);
    if k :| 0 <= k < |ps| - 1 && ps[k] == ">" {
      assert !Aligned(ps, ts, |ps|) && !Aligned(ps, ts, |ps| - 1);
    } else {
      var k :| 0 <= k < |ps| && ps[k] != "*" && ps[k] != ">" && !IsLiteral(ps[k]);
      InstanceDiffers(ps[k]);
      assert !SegmentMatches(ps[k], ts[k]);
    }
  }

  lemma InstanceDiffers(p: string)
    requires !IsLiteral(p)
    ensures Mapped(p, Instance) != p
  {
    var j :| 0 <= j < |p| && (p[j] == '*' || p[j] == '>');
    MappedAt(p, Instance, j);
    assert Instance(p[j]) == 'x';
  }

  /** The pattern means the topic, and Kafka's extra demands hold. */
  predicate KafkaMeaning(ps: seq<string>, ts: seq<string>)
    requires |ps| >= 1
  {
    Meaning(ps, ts) && KafkaExtra(ps, ts)
  }

  /**
   For a pattern that is not too long the statement of `KafkaExact` holds on every topic exactly when the pattern is
   well-formed: else Kafka accepts a topic that the bus does not mean, the one with a letter for every wildcard.
   */
  lemma KafkaExactIff(pattern: string)
    requires |pattern| <= 256
    ensures WellFormed(Split(pattern, '.')) <==>
      forall topic: string :: KafkaAccepts(pattern, topic) <==> KafkaMeaning(Split(pattern, '.'), Split(topic, '.'))
  {
    hide Split, WellFormed, KafkaAccepts, Meaning, KafkaExtra, Accepts, AtomsOf, Mapped, MappedAll;
    var ps := Split(pattern, '.');
    if WellFormed(ps) {
      forall topic: string ensures KafkaAccepts(pattern, topic) <==> KafkaMeaning(ps, Split(topic, '.')) {
        KafkaExact(pattern, topic);
      }
    } else {
      var topic := Mapped(pattern, Instance);
      InstanceIsAccepted(pattern);
      KafkaIsAtoms(pattern, topic);
      SplitCommutes(pattern, Instance);
      InstanceIsNotMeant(ps);
      assert KafkaAccepts(pattern, topic) && !KafkaMeaning(ps, Split(topic, '.'));
    }
  }

  // ---------- ordinary topics ----------

  /** What follows in a topic without line ends and empty segments has none either. */
  lemma {:induction false} TailIsOrdinary(ts: seq<string>, k: nat)
    requires k < |ts| && LineFree(Join(ts, '.')) && ts[k] != ""
    ensures LineFree(Join(ts[k..], '.')) && Join(ts[k..], '.') != ""
  {
    if k == 0 {
      assert ts[0..] == ts;
    } else {
      var behind := Join(ts[1..], '.');
      assert ts[1..][k - 1..] == ts[k..];
      assert Join(ts, '.') == ts[0] + ['.'] + behind;
      forall j | 0 <= j < |behind| ensures !IsLineEnd(behind[j]) {
        assert behind[j] == Join(ts, '.')[|ts[0]| + 1 + j];
      }
      TailIsOrdinary(ts[1..], k - 1);
    }
  }

  /** On ordinary topics Kafka receives exactly what the bus would route. */
  lemma KafkaAgrees(pattern: string, topic: string)
    requires WellFormed(Split(pattern, '.')) && |pattern| <= 256
    requires "" !in Split(topic, '.') && LineFree(topic)
    ensures KafkaAccepts(pattern, topic) <==> Meaning(Split(pattern, '.'), Split(topic, '.'))
  {
    hide LineFree, KafkaAccepts, Split, WellFormed;
    var ps, ts := Split(pattern, '.'), Split(topic, '.');
    KafkaExact(pattern, topic);
    JoinSplit(topic, '.');
    if Meaning(ps, ts) {
      assert ts[|ps| - 1] in ts;
      TailIsOrdinary(ts, |ps| - 1);
      forall k | 0 <= k < |ps| ensures ts[k] != "" { assert ts[k] in ts; }
    }
  }

  /** No empty segment and no line end. */
  predicate Ordinary(topic: string) { "" !in Split(topic, '.') && LineFree(topic) }

  lemma InstanceIsOrdinary(pattern: string)
    requires Ordinary(pattern)
    ensures Ordinary(Mapped(pattern, Instance))
  {
    hide Split;
    var topic, ps := Mapped(pattern, Instance), Split(pattern, '.');
    SplitCommutes(pattern, Instance);
    forall k | 0 <= k < |topic| ensures !IsLineEnd(topic[k]) {
      MappedAt(pattern, Instance, k);
      assert !IsLineEnd(pattern[k]) && (Instance(pattern[k]) == pattern[k] || Instance(pattern[k]) == 'x');
    }
    forall k | 0 <= k < |ps| ensures Mapped(ps[k], Instance) != "" { assert ps[k] in ps; }
  }

  /** For an ordinary pattern that is not too long: Kafka and the bus agree on all ordinary topics exactly when the
      pattern is well-formed. */
  lemma KafkaAgreesIff(pattern: string)
    requires |pattern| <= 256 && Ordinary(pattern)
    ensures WellFormed(Split(pattern, '.')) <==> forall topic: string :: Ordinary(topic) ==>
      (KafkaAccepts(pattern, topic) <==> Meaning(Split(pattern, '.'), Split(topic, '.')))
  {
    hide Split, WellFormed, KafkaAccepts, Meaning, Accepts, AtomsOf, Mapped, MappedAll, LineFree;
    var ps := Split(pattern, '.');
    if WellFormed(ps) {
      forall topic: string | Ordinary(topic) ensures KafkaAccepts(pattern, topic) <==> Meaning(ps, Split(topic, '.')) {
        KafkaAgrees(pattern, topic);
      }
    } else {
      var topic := Mapped(pattern, Instance);
      InstanceIsOrdinary(pattern);
      InstanceIsAccepted(pattern);
      KafkaIsAtoms(pattern, topic);
      SplitCommutes(pattern, Instance);
      InstanceIsNotMeant(ps);
      assert Ordinary(topic) && KafkaAccepts(pattern, topic) && !Meaning(ps, Split(topic, '.'));
    }
  }

  // ---------- the routing-key pattern for AMQP ----------

  function Hash(c: char): char { if c == '>' then '#' else c }

  function ToAmqpPattern(pattern: string): string { Mapped(pattern, Hash) }

  /** The words of a routing key; unlike the bus's segments, an empty key has none. */
  function Words(key: string): seq<string> { if key == "" then [] else Split(key, '.') }

  /** Topic-exchange matching, section 3.1.3.3 of AMQP 0-9-1: `*` is one word, `#` zero or more. */
  predicate AmqpMatches(ws: seq<string>, ts: seq<string>)
    decreases |ws| + |ts|
  {
    if ws == [] then ts == []
    else if ws[0] == "#" then AmqpMatches(ws[1..], ts) || (ts != [] && AmqpMatches(ws, ts[1..]))
    else ts != [] && SegmentMatches(ws[0], ts[0]) && AmqpMatches(ws[1..], ts[1..])
  }

  predicate AmqpAccepts(pattern: string, topic: string) { AmqpMatches(Words(ToAmqpPattern(pattern)), Words(topic)) }

  lemma WildcardsForAmqp()
    ensures Mapped(">", Hash) == "#" && Mapped("#", Hash) == "#" && Mapped("*", Hash) == "*"
  {
    MappedAt(">", Hash, 0);
    MappedAt("#", Hash, 0);
    MappedAt("*", Hash, 0);
    assert Hash('>') == '#' && Hash('#') == '#' && Hash('*') == '*';
  }

  /** A segment without `>` is itself for AMQP. */
  lemma Unhashed(p: string)
    requires '>' !in p
    ensures Mapped(p, Hash) == p
  {
    forall j | 0 <= j < |p| ensures Mapped(p, Hash)[j] == p[j] {
      MappedAt(p, Hash, j);
      assert Hash(p[j]) == p[j];
    }
  }

  /** A trailing `#` takes whatever is left. */
  lemma {:induction false} HashTakesAll(ts: seq<string>)
    ensures AmqpMatches(["#"], ts)
    decreases |ts|
  {
    assert ["#"][1..] == [];
    if ts == [] {} else { HashTakesAll(ts[1..]); }
  }

  /** The pattern means the topic, or ends in `>` and the segments before that are all of the topic. */
  predicate AmqpMeaning(ps: seq<string>, ts: seq<string>)
  {
    Meaning(ps, ts) || (ps != [] && ps[|ps| - 1] == ">" && |ts| == |ps| - 1 && Aligned(ps, ts, |ts|))
  }

  /** `>` occurs only as the last segment, and no segment is AMQP's own `#`. */
  predicate Translatable(ps: seq<string>)
  {
    forall k :: 0 <= k < |ps| ==> ps[k] != "#" && ('>' in ps[k] ==> ps[k] == ">" && k == |ps| - 1)
  }

  lemma TranslatableTail(ps: seq<string>)
    requires Translatable(ps) && ps != []
    ensures Translatable(ps[1..])
  {
    forall k | 0 <= k < |ps| - 1
      ensures ps[1..][k] != "#" && ('>' in ps[1..][k] ==> ps[1..][k] == ">" && k == |ps| - 2)
    {
      assert ps[1..][k] == ps[k + 1];
    }
  }

  lemma {:induction false} AmqpDecidesSegments(ps: seq<string>, ts: seq<string>)
    requires Translatable(ps)
    ensures AmqpMatches(MappedAll(ps, Hash), ts) <==> AmqpMeaning(ps, ts)
    decreases |ps|
  {
    var ws := MappedAll(ps, Hash);
    if ps == [] {
    } else {
      var p, rest := ps[0], ps[1..];
      assert ps == [p] + rest && ws[1..] == MappedAll(rest, Hash);
      if p == ">" {
        WildcardsForAmqp();
        assert ws == [Mapped(">", Hash)];
        HashTakesAll(ts);
      } else {
        Unhashed(p);
        assert ws[0] == p;
        if ts != [] {
          TranslatableTail(ps);
          AmqpDecidesSegments(rest, ts[1..]);
          assert ts == [ts[0]] + ts[1..];
          AmqpMeaningCons(p, rest, ts[0], ts[1..]);
        }
      }
    }
  }

  lemma AmqpMeaningCons(p: string, ps: seq<string>, t: string, ts: seq<string>)
    requires p != ">"
    ensures AmqpMeaning([p] + ps, [t] + ts) <==> SegmentMatches(p, t) && AmqpMeaning(ps, ts)
  {
    if ps == [] {
      LastSegment(p, [t] + ts);
      assert [p] + ps == [p];
    } else {
      MeaningCons(p, ps, t, ts);
      if |ts| <= |ps| { AlignedCons(p, ps, t, ts, |ts|); }
    }
  }

  /**
   For every translatable pattern: AMQP delivers exactly the non-empty topics that the pattern means and, for a
   pattern with a trailing `>`, the one in which nothing is left for it. The empty topic, which is a segment for the
   bus and no word for AMQP, is delivered for the patterns "" and ">" only.
   */
  lemma AmqpExact(pattern: string, topic: string)
    requires Translatable(Split(pattern, '.'))
    ensures AmqpAccepts(pattern, topic) <==>
      if topic == "" then pattern == "" || pattern == ">" else AmqpMeaning(Split(pattern, '.'), Split(topic, '.'))
  {
    hide Translatable, AmqpMatches, Split, AmqpMeaning, Mapped, MappedAll;
    var ps := Split(pattern, '.');
    SplitCommutes(pattern, Hash);
    MappedSize(pattern, Hash);
    if pattern == "" {
      EmptyPattern(topic);
    } else {
      AmqpDecidesSegments(ps, Words(topic));
      if topic == "" { EmptyTopic(pattern); }
    }
  }

  lemma MappedSize(s: string, f: char -> char)
    ensures |Mapped(s, f)| == |s|
  {}

  lemma EmptyTopic(pattern: string)
    ensures AmqpMeaning(Split(pattern, '.'), []) <==> pattern == ">"
  {
    JoinSplit(pattern, '.');
    assert AmqpMeaning(Split(pattern, '.'), []) <==> Split(pattern, '.') == [">"];
    SplitJoin([">"], '.');
  }

  lemma EmptyPattern(topic: string)
    ensures AmqpMatches([], Words(topic)) <==> topic == ""
    ensures Split("", '.') == [""] && (topic != "" ==> !AmqpMeaning([""], Split(topic, '.')))
  {
    JoinSplit(topic, '.');
  }

  // ---------- patterns that are not translatable ----------

  /** One word for every wildcard, AMQP's own `#` included; anything else as AMQP gets to see it. */
  function Filled(p: string): string { if p == "*" || p == ">" || p == "#" then "x" else Mapped(p, Hash) }

  function FilledAll(ps: seq<string>): seq<string> { seq(|ps|, k requires 0 <= k < |ps| => Filled(ps[k])) }

  lemma {:induction false} FilledMatches(ps: seq<string>)
    ensures AmqpMatches(MappedAll(ps, Hash), FilledAll(ps))
  {
    if ps == [] {
    } else {
      var ws, ts := MappedAll(ps, Hash), FilledAll(ps);
      FilledMatches(ps[1..]);
      assert ws[1..] == MappedAll(ps[1..], Hash) && ts[1..] == FilledAll(ps[1..]);
      FilledSegment(ps[0]);
      assert ws[0] == "#" ==> AmqpMatches(ws, ts[1..]);
    }
  }

  lemma FilledSegment(p: string)
    ensures Mapped(p, Hash) != "#" ==> SegmentMatches(Mapped(p, Hash), Filled(p))
  {
    WildcardsForAmqp();
  }

  /** A segment that is no wildcard but holds a `>` is another one for AMQP. */
  lemma HashDiffers(p: string)
    requires '>' in p
    ensures Mapped(p, Hash) != p && Mapped(p, Hash) != ""
  {
    var j :| 0 <= j < |p| && p[j] == '>';
    MappedAt(p, Hash, j);
    assert Hash(p[j]) == '#';
  }

  lemma FilledIsNotMeant(ps: seq<string>)
    requires !Translatable(ps)
    ensures !AmqpMeaning(ps, FilledAll(ps))
    ensures exists k :: 0 <= k < |ps| && FilledAll(ps)[k] != ""
  {
    var ts := FilledAll(ps);
    var k :| 0 <= k < |ps| && (ps[k] == "#" || ('>' in ps[k] && !(ps[k] == ">" && k == |ps| - 1)));
    if '>' in ps[k] { HashDiffers(ps[k]); }
    assert ts[k] == Filled(ps[k]) != "";
    assert ps[k] == ">" || !SegmentMatches(ps[k], ts[k]);
    assert !Aligned(ps, ts, |ps|) && (k < |ps| - 1 ==> !Aligned(ps, ts, |ps| - 1));
  }

  lemma FilledIsFree(p: string)
    requires Free(p, '.')
    ensures Free(Filled(p), '.')
  {
    forall j | 0 <= j < |p| ensures Mapped(p, Hash)[j] != '.' {
      MappedAt(p, Hash, j);
      assert Hash(p[j]) != '.';
    }
  }

  lemma FilledIsTopic(ps: seq<string>)
    requires |ps| >= 1 && AllFree(ps, '.')
    requires exists k :: 0 <= k < |ps| && FilledAll(ps)[k] != ""
    ensures |FilledAll(ps)| >= 1 && Split(Join(FilledAll(ps), '.'), '.') == FilledAll(ps)
    ensures Join(FilledAll(ps), '.') != ""
  {
    forall k | 0 <= k < |ps| ensures Free(FilledAll(ps)[k], '.') { FilledIsFree(ps[k]); }
    SplitJoin(FilledAll(ps), '.');
  }

  /**
   On non-empty topics the statement of `AmqpExact` holds exactly for the translatable patterns: for any other one
   AMQP delivers a topic outside it, the one with a word `x` for every wildcard.
   */
  lemma AmqpExactIff(pattern: string)
    ensures Translatable(Split(pattern, '.')) <==> forall topic: string :: topic != "" ==>
      (AmqpAccepts(pattern, topic) <==> AmqpMeaning(Split(pattern, '.'), Split(topic, '.')))
  {
    hide Split, Translatable, AmqpMatches, AmqpMeaning, FilledAll, Join, Mapped, MappedAll;
    var ps := Split(pattern, '.');
    if Translatable(ps) {
      forall topic: string | topic != "" ensures AmqpAccepts(pattern, topic) <==> AmqpMeaning(ps, Split(topic, '.')) {
        AmqpExact(pattern, topic);
      }
    } else {
      JoinSplit(pattern, '.');
      FilledMatches(ps);
      FilledIsNotMeant(ps);
      FilledIsTopic(ps);
      SplitCommutes(pattern, Hash);
      NotEmpty(pattern);
      var topic := Join(FilledAll(ps), '.');
      assert topic != "" && AmqpAccepts(pattern, topic) && !AmqpMeaning(ps, Split(topic, '.'));
    }
  }

  lemma NotEmpty(pattern: string)
    requires !Translatable(Split(pattern, '.'))
    ensures ToAmqpPattern(pattern) != ""
  {}
}
