/** What the replace-all passes of `rewritePrompt` amount to for a template
    whose braces all belong to placeholders, when the arguments contain no
    brace and no `$`: every `{{i}}` with 1 <= i <= n becomes argument i,
    every `{{*}}` and `{{arg}}` becomes the space-joined arguments, and
    every other placeholder (`{{0}}`, `{{k}}` for k > n, `{{01}}`, `{{x}}`)
    stays as it is. The sequential passes equal this one-pass substitution. */
module Placeholders {
  import opened Wrappers
  import opened Decimal
  import opened Text
  import opened Expander

  /** A template read as characters and placeholders. */
  datatype Segment = Char(c: char) | Hole(name: string)

  predicate BraceFree(s: string) {
    '{' !in s && '}' !in s
  }

  predicate WellFormedSegment(g: Segment) {
    match g
    case Char(c) => c != '{' && c != '}'
    case Hole(name) => BraceFree(name)
  }

  /** Every brace of the template belongs to a placeholder. */
  predicate WellFormed(segs: seq<Segment>) {
    forall i :: 0 <= i < |segs| ==> WellFormedSegment(segs[i])
  }

  function RenderSegment(g: Segment): string {
    match g
    case Char(c) => [c]
    case Hole(name) => Placeholder(name)
  }

  /** The template text. */
  function Render(segs: seq<Segment>): string
    decreases |segs|
  {
    if segs == [] then [] else RenderSegment(segs[0]) + Render(segs[1..])
  }

  /** What a placeholder stands for: the space-joined arguments for `*` and
      `arg`, argument i for the canonical index i when 1 <= i <= n, and
      nothing for any other name. */
  function Fill(name: string, args: seq<string>): Option<string> {
    if name == "*" || name == "arg" then Some(JoinWith(args, " "))
    else
      match ParseIndex(name)
      case Some(i) => if 1 <= i <= |args| then Some(args[i - 1]) else None
      case None => None
  }

  /** One left-to-right substitution of every placeholder of the template. */
  function Simultaneous(segs: seq<Segment>, args: seq<string>): string
    decreases |segs|
  {
    if segs == [] then []
    else
      (match segs[0]
       case Char(c) => [c]
       case Hole(name) => Fill(name, args).GetOr(Placeholder(name)))
      + Simultaneous(segs[1..], args)
  }

  // ---------------------------------------------------------------------
  // Segment-level view of one pass

  function Chars(t: string): seq<Segment>
    ensures |Chars(t)| == |t|
  {
    seq(|t|, i requires 0 <= i < |t| => Char(t[i]))
  }

  /** One pass at the segment level: each `{{name}}` becomes the characters
      of `text`. */
  function SubstHole(segs: seq<Segment>, name: string, text: string): seq<Segment>
    decreases |segs|
  {
    if segs == [] then []
    else (if segs[0] == Hole(name) then Chars(text) else [segs[0]]) + SubstHole(segs[1..], name, text)
  }

  lemma {:induction false} RenderAppend(a: seq<Segment>, b: seq<Segment>)
    ensures Render(a + b) == Render(a) + Render(b)
    decreases |a|
  {
    if a != [] {
      assert (a + b)[1..] == a[1..] + b;
      RenderAppend(a[1..], b);
    } else {
      assert a + b == b;
    }
  }

  lemma {:induction false} RenderChars(t: string)
    ensures Render(Chars(t)) == t
    decreases |t|
  {
    if t != [] {
      assert Chars(t)[1..] == Chars(t[1..]);
      RenderChars(t[1..]);
    }
  }

  lemma {:induction false} SubstHoleAppend(a: seq<Segment>, b: seq<Segment>, name: string, text: string)
    ensures SubstHole(a + b, name, text) == SubstHole(a, name, text) + SubstHole(b, name, text)
    decreases |a|
  {
    if a != [] {
      assert (a + b)[1..] == a[1..] + b;
      SubstHoleAppend(a[1..], b, name, text);
    } else {
      assert a + b == b;
    }
  }

  lemma {:induction false} SubstHoleChars(t: string, name: string, text: string)
    ensures SubstHole(Chars(t), name, text) == Chars(t)
    decreases |t|
  {
    if t != [] {
      assert Chars(t)[1..] == Chars(t[1..]);
      SubstHoleChars(t[1..], name, text);
      assert Chars(t) == [Char(t[0])] + Chars(t[1..]);
    }
  }

  lemma SubstHoleOne(g: Segment, name: string, text: string)
    ensures SubstHole([g], name, text) == if g == Hole(name) then Chars(text) else [g]
  {
    assert [g][1..] == [];
  }

  lemma PlaceholderChars(x: string)
    ensures |Placeholder(x)| == |x| + 4
    ensures Placeholder(x)[0] == '{' && Placeholder(x)[1] == '{'
    ensures forall i :: 0 <= i < |x| ==> Placeholder(x)[i + 2] == x[i]
    ensures Placeholder(x)[|x| + 2] == '}' && Placeholder(x)[|x| + 3] == '}'
  {
  }

  /** An occurrence of one placeholder that starts inside another starts
      where it does and is the same placeholder, whatever follows. */
  lemma PlaceholderOccurrence(x: string, y: string, b: string, o: int)
    requires BraceFree(x) && BraceFree(y)
    requires 0 <= o < |Placeholder(x)|
    requires OccursAt(Placeholder(x) + b, Placeholder(y), o)
    ensures o == 0 && x == y
  {
    var a := Placeholder(x);
    var p := Placeholder(y);
    var s := a + b;
    PlaceholderChars(x);
    PlaceholderChars(y);
    assert s[o..o + |p|] == p;
    assert forall j :: 0 <= j < |p| ==> s[o + j] == p[j];
    assert forall j :: 0 <= j < |a| ==> s[j] == a[j];
    if o == 0 && |y| == |x| {
      assert a == s[..|p|] == p;
      assert x == a[2..|a| - 2] == p[2..|p| - 2] == y;
    }
  }

  /** No occurrence of a placeholder straddles the end of a well-formed
      segment. */
  lemma SegmentBoundary(g: Segment, b: string, name: string)
    requires WellFormedSegment(g) && BraceFree(name)
    ensures NoStraddle(RenderSegment(g), b, Placeholder(name))
  {
    var a := RenderSegment(g);
    var pat := Placeholder(name);
    forall o | 0 <= o < |a| < o + |pat| ensures !OccursAt(a + b, pat, o) {
      match g
      case Char(c) =>
        assert (a + b)[0] == c;
      case Hole(x) =>
        if OccursAt(a + b, pat, o) {
          PlaceholderOccurrence(x, name, b, o);
        }
    }
  }

  /** One pass over a single segment. */
  lemma PassOnSegment(g: Segment, name: string, text: string)
    requires WellFormedSegment(g) && BraceFree(name)
    ensures LiteralReplace(RenderSegment(g), Placeholder(name), text) == Render(SubstHole([g], name, text))
  {
    var a := RenderSegment(g);
    var pat := Placeholder(name);
    SubstHoleOne(g, name, text);
    match g
    case Char(c) =>
      assert Render([g]) == a;
    case Hole(x) =>
      if x == name {
        LiteralReplaceWhole(pat, text);
        RenderChars(text);
      } else {
        forall o ensures !OccursAt(a, pat, o) {
          if OccursAt(a, pat, o) {
            assert a + [] == a;
            PlaceholderOccurrence(x, name, [], o);
          }
        }
        ContainsIffOccurs(a, pat);
        LiteralReplaceNoMatch(a, pat, text);
        assert Render([g]) == a;
      }
  }

  lemma {:induction false} LiteralPassOnSegments(segs: seq<Segment>, name: string, text: string)
    requires WellFormed(segs) && BraceFree(name)
    ensures LiteralReplace(Render(segs), Placeholder(name), text) == Render(SubstHole(segs, name, text))
    decreases |segs|
  {
    if segs != [] {
      LiteralPassOnSegments(segs[1..], name, text);
      LiteralPassCons(segs[0], segs[1..], name, text);
      assert [segs[0]] + segs[1..] == segs;
    }
  }

  lemma LiteralPassCons(g: Segment, rest: seq<Segment>, name: string, text: string)
    requires WellFormedSegment(g) && BraceFree(name)
    requires LiteralReplace(Render(rest), Placeholder(name), text) == Render(SubstHole(rest, name, text))
    ensures LiteralReplace(Render([g] + rest), Placeholder(name), text) == Render(SubstHole([g] + rest, name, text))
  {
    var pat := Placeholder(name);
    var b := Render(rest);
    RenderAppend([g], rest);
    assert Render([g]) == RenderSegment(g) by {
      assert [g][1..] == [];
    }
    SegmentBoundary(g, b, name);
    LiteralReplaceAppend(RenderSegment(g), b, pat, text);
    PassOnSegment(g, name, text);
    SubstHoleAppend([g], rest, name, text);
    RenderAppend(SubstHole([g], name, text), SubstHole(rest, name, text));
  }


  lemma {:induction false} SubstHoleWellFormed(segs: seq<Segment>, name: string, text: string)
    requires WellFormed(segs) && BraceFree(text)
    ensures WellFormed(SubstHole(segs, name, text))
    decreases |segs|
  {
    if segs != [] {
      SubstHoleWellFormed(segs[1..], name, text);
      var sub := SubstHole(segs, name, text);
      var head := if segs[0] == Hole(name) then Chars(text) else [segs[0]];
      assert sub == head + SubstHole(segs[1..], name, text);
      forall i | 0 <= i < |sub| ensures WellFormedSegment(sub[i]) {
        if i >= |head| {
          assert sub[i] == SubstHole(segs[1..], name, text)[i - |head|];
        } else if segs[0] == Hole(name) {
          assert sub[i] == Char(text[i]);
          assert text[i] in text;
        }
      }
    }
  }

  /** One `$`-free pass over a well-formed template, with brace-free text,
      is the segment-level substitution. */
  lemma PassOnSegments(segs: seq<Segment>, name: string, text: string)
    requires WellFormed(segs) && BraceFree(name) && BraceFree(text) && '$' !in text
    ensures ReplaceAll(Render(segs), Placeholder(name), text) == Render(SubstHole(segs, name, text))
    ensures WellFormed(SubstHole(segs, name, text))
  {
    ReplaceAllWithoutDollar(Render(segs), Placeholder(name), text);
    LiteralPassOnSegments(segs, name, text);
    SubstHoleWellFormed(segs, name, text);
  }

  // ---------------------------------------------------------------------
  // All passes at the segment level

  predicate CleanArgs(args: seq<string>) {
    forall k :: 0 <= k < |args| ==> BraceFree(args[k]) && '$' !in args[k]
  }

  function PositionalSegs(segs: seq<Segment>, args: seq<string>): seq<Segment>
    decreases |args|
  {
    if |args| == 0 then segs
    else
      var n := |args|;
      SubstHole(PositionalSegs(segs, args[..n - 1]), NatToString(n), args[n - 1])
  }

  function FinalSegs(segs: seq<Segment>, args: seq<string>): seq<Segment> {
    var all := JoinWith(args, " ");
    SubstHole(SubstHole(PositionalSegs(segs, args), "*", all), "arg", all)
  }

  lemma IndexBraceFree(n: nat)
    ensures BraceFree(NatToString(n))
  {
    NatToStringCanonical(n);
  }

  lemma CleanJoin(args: seq<string>)
    requires CleanArgs(args)
    ensures BraceFree(JoinWith(args, " ")) && '$' !in JoinWith(args, " ")
  {
    JoinWithAvoids(args, " ", '{');
    JoinWithAvoids(args, " ", '}');
    JoinWithAvoids(args, " ", '$');
  }

  lemma {:induction false} PositionalOnSegments(segs: seq<Segment>, args: seq<string>)
    requires WellFormed(segs) && CleanArgs(args)
    ensures Positional(Render(segs), args) == Render(PositionalSegs(segs, args))
    ensures WellFormed(PositionalSegs(segs, args))
    decreases |args|
  {
    if |args| > 0 {
      var n := |args|;
      PositionalOnSegments(segs, args[..n - 1]);
      IndexBraceFree(n);
      PassOnSegments(PositionalSegs(segs, args[..n - 1]), NatToString(n), args[n - 1]);
    }
  }

  lemma {:induction false} PositionalSegsAppend(a: seq<Segment>, b: seq<Segment>, args: seq<string>)
    ensures PositionalSegs(a + b, args) == PositionalSegs(a, args) + PositionalSegs(b, args)
    decreases |args|
  {
    if |args| > 0 {
      var n := |args|;
      PositionalSegsAppend(a, b, args[..n - 1]);
      SubstHoleAppend(PositionalSegs(a, args[..n - 1]), PositionalSegs(b, args[..n - 1]), NatToString(n), args[n - 1]);
    }
  }

  /** What the positional passes for `args` make of the placeholder named
      `x`. */
  function HoleAfter(x: string, args: seq<string>): seq<Segment> {
    match ParseIndex(x)
    case Some(i) => if 1 <= i <= |args| then Chars(args[i - 1]) else [Hole(x)]
    case None => [Hole(x)]
  }

  /** A placeholder name is the decimal form of `n` exactly when it parses
      as `n`. */
  lemma IndexName(x: string, n: nat)
    ensures x == NatToString(n) <==> ParseIndex(x) == Some(n)
  {
    ParseNatToString(n);
    if ParseIndex(x).Some? {
      NatToStringParse(x);
    }
  }

  /** Where the positional passes leave one placeholder: replaced by its
      argument when it names one, otherwise untouched. */
  lemma {:induction false} PositionalSegsHole(x: string, args: seq<string>)
    ensures PositionalSegs([Hole(x)], args) == HoleAfter(x, args)
    decreases |args|
  {
    if |args| > 0 {
      PositionalSegsHole(x, args[..|args| - 1]);
      HoleStep(x, args);
    }
  }

  lemma HoleStep(x: string, args: seq<string>)
    requires |args| > 0
    requires PositionalSegs([Hole(x)], args[..|args| - 1]) == HoleAfter(x, args[..|args| - 1])
    ensures PositionalSegs([Hole(x)], args) == HoleAfter(x, args)
  {
    var n := |args|;
    var prev := args[..n - 1];
    match ParseIndex(x)
    case Some(i) =>
      if 1 <= i < n {
        assert prev[i - 1] == args[i - 1];
        assert HoleAfter(x, prev) == Chars(args[i - 1]);
        FilledStep([Hole(x)], args, args[i - 1]);
      } else {
        KeptStep(x, args);
      }
    case None =>
      KeptStep(x, args);
  }

  /** Text that an earlier pass inserted stays as it is. */
  lemma FilledStep(segs: seq<Segment>, args: seq<string>, t: string)
    requires |args| > 0
    requires PositionalSegs(segs, args[..|args| - 1]) == Chars(t)
    ensures PositionalSegs(segs, args) == Chars(t)
  {
    SubstHoleChars(t, NatToString(|args|), args[|args| - 1]);
  }

  /** A placeholder still in place is filled by pass n exactly when it names n. */
  lemma KeptStep(x: string, args: seq<string>)
    requires |args| > 0
    requires ParseIndex(x).None? || ParseIndex(x).value == 0 || ParseIndex(x).value >= |args|
    requires PositionalSegs([Hole(x)], args[..|args| - 1]) == HoleAfter(x, args[..|args| - 1])
    ensures PositionalSegs([Hole(x)], args) == HoleAfter(x, args)
  {
    var n := |args|;
    var prev := args[..n - 1];
    assert HoleAfter(x, prev) == [Hole(x)];
    assert PositionalSegs([Hole(x)], args) == SubstHole([Hole(x)], NatToString(n), args[n - 1]);
    SubstHoleOne(Hole(x), NatToString(n), args[n - 1]);
    IndexName(x, n);
  }

  lemma {:induction false} PositionalSegsNil(args: seq<string>)
    ensures PositionalSegs([], args) == []
    decreases |args|
  {
    if |args| > 0 {
      PositionalSegsNil(args[..|args| - 1]);
    }
  }

  lemma {:induction false} PositionalSegsChar(c: char, args: seq<string>)
    ensures PositionalSegs([Char(c)], args) == [Char(c)]
    decreases |args|
  {
    if |args| > 0 {
      PositionalSegsChar(c, args[..|args| - 1]);
      SubstHoleOne(Char(c), NatToString(|args|), args[|args| - 1]);
    }
  }

  lemma FinalSegsOne(g: Segment, args: seq<string>)
    ensures Render(FinalSegs([g], args)) ==
      match g
      case Char(c) => [c]
      case Hole(x) => Fill(x, args).GetOr(Placeholder(x))
  {
    var all := JoinWith(args, " ");
    match g
    case Char(c) =>
      PositionalSegsChar(c, args);
      SubstHoleOne(Char(c), "*", all);
      SubstHoleOne(Char(c), "arg", all);
      assert Render([Char(c)]) == [c];
    case Hole(x) =>
      PositionalSegsHole(x, args);
      var p := PositionalSegs([g], args);
      if p == [g] {
        SubstHoleOne(g, "*", all);
        var q := SubstHole([g], "*", all);
        if x == "*" {
          SubstHoleChars(all, "arg", all);
          RenderChars(all);
        } else {
          SubstHoleOne(g, "arg", all);
          if x == "arg" {
            RenderChars(all);
          } else {
            assert Render([g]) == Placeholder(x);
          }
        }
      } else {
        var i := ParseIndex(x).value;
        assert x != "*" && x != "arg" by {
          assert IsDigit(x[0]);
        }
        SubstHoleChars(args[i - 1], "*", all);
        SubstHoleChars(args[i - 1], "arg", all);
        RenderChars(args[i - 1]);
      }
  }

  lemma {:induction false} FinalSegsRender(segs: seq<Segment>, args: seq<string>)
    ensures Render(FinalSegs(segs, args)) == Simultaneous(segs, args)
    decreases |segs|
  {
    if segs != [] {
      var all := JoinWith(args, " ");
      var g := segs[0];
      assert segs == [g] + segs[1..];
      PositionalSegsAppend([g], segs[1..], args);
      var pa := PositionalSegs([g], args);
      var pb := PositionalSegs(segs[1..], args);
      SubstHoleAppend(pa, pb, "*", all);
      SubstHoleAppend(SubstHole(pa, "*", all), SubstHole(pb, "*", all), "arg", all);
      RenderAppend(FinalSegs([g], args), FinalSegs(segs[1..], args));
      FinalSegsOne(g, args);
      FinalSegsRender(segs[1..], args);
      assert FinalSegs(segs, args) == FinalSegs([g], args) + FinalSegs(segs[1..], args);
      assert Render(FinalSegs(segs, args)) == Render(FinalSegs([g], args)) + Simultaneous(segs[1..], args);
      assert [g][1..] == [];
    } else {
      PositionalSegsNil(args);
    }
  }

  /** The sequential passes of `rewritePrompt` equal the one-pass
      substitution, for a template whose braces all belong to placeholders
      and arguments free of braces and `$`. */
  lemma ExpandIsSimultaneous(segs: seq<Segment>, args: seq<string>)
    requires WellFormed(segs) && CleanArgs(args)
    ensures Expand(Render(segs), args) == Simultaneous(segs, args)
  {
    var all := JoinWith(args, " ");
    CleanJoin(args);
    PositionalOnSegments(segs, args);
    var p := PositionalSegs(segs, args);
    PassOnSegments(p, "*", all);
    PassOnSegments(SubstHole(p, "*", all), "arg", all);
    FinalSegsRender(segs, args);
  }

  // ---------------------------------------------------------------------
  // Plain text inside templates

  lemma {:induction false} SimultaneousAppend(a: seq<Segment>, b: seq<Segment>, args: seq<string>)
    ensures Simultaneous(a + b, args) == Simultaneous(a, args) + Simultaneous(b, args)
    decreases |a|
  {
    if a != [] {
      assert (a + b)[1..] == a[1..] + b;
      SimultaneousAppend(a[1..], b, args);
    } else {
      assert a + b == b;
    }
  }

  /** Plain text is a well-formed template piece when it has no braces, and
      the substitution leaves it as it is. */
  lemma {:induction false} PlainText(t: string, args: seq<string>)
    ensures Render(Chars(t)) == t
    ensures Simultaneous(Chars(t), args) == t
    ensures BraceFree(t) ==> WellFormed(Chars(t))
    decreases |t|
  {
    RenderChars(t);
    if t != [] {
      assert Chars(t)[1..] == Chars(t[1..]);
      PlainText(t[1..], args);
    }
    if BraceFree(t) {
      forall i | 0 <= i < |t| ensures WellFormedSegment(Chars(t)[i]) {
        assert t[i] in t;
      }
    }
  }
}
