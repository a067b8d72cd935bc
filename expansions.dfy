/** Worked expansions: the documented examples of the macro syntax, and the
    two consequences of running the passes with JavaScript's `replace` one
    after another. */
module Expansions {
  import opened Wrappers
  import opened Decimal
  import opened Text
  import opened Json
  import opened Expander
  import opened Placeholders

  /** A template made of plain text and then a placeholder. */
  lemma TextHole(t: string, x: string, args: seq<string>) returns (segs: seq<Segment>)
    requires BraceFree(t) && BraceFree(x)
    ensures Render(segs) == t + Placeholder(x)
    ensures WellFormed(segs)
    ensures Simultaneous(segs, args) == t + Fill(x, args).GetOr(Placeholder(x))
  {
    PlainText(t, args);
    SingleHole(x, args);
    segs := Chars(t) + [Hole(x)];
    Joined(Chars(t), [Hole(x)], args);
  }

  /** Text followed by `{{1}}`, expanded with one argument: the argument
      takes the placeholder's place. */
  lemma ExpandGreeting(t: string, a: string)
    requires BraceFree(t) && BraceFree(a) && '$' !in a
    ensures Expand(t + Placeholder("1"), [a]) == t + a
  {
    assert BraceFree("1");
    var segs := TextHole(t, "1", [a]);
    FirstFill([a]);
    assert CleanArgs([a]);
    ExpandIsSimultaneous(segs, [a]);
  }

  lemma ParseGreeting(message: string)
    requires message == "gr World"
    ensures ParseInvocation(message) == Invocation("gr", ["World"])
  {
    var inv := Invocation("gr", ["World"]);
    assert JoinWith([inv.name] + inv.args, " ") == message;
    InvocationRoundTrip(inv);
  }

  function Dict(name: string, template: string): Json {
    JObject([Entry(name, JString(template))])
  }

  lemma DictTemplate(name: string, template: string)
    ensures TemplateFor(Dict(name, template), name) == Some(template)
  {
  }

  /** A message that names a string of the dictionary is replaced by that
      template's expansion for the message's arguments. */
  lemma Invoked(text: string, dict: Json, name: string, args: seq<string>, template: string)
    requires ParseInvocation(text) == Invocation(name, args)
    requires TemplateFor(dict, name) == Some(template)
    ensures Rewrite(JString(text), Some(dict)) == JString(Expand(template, args))
  {
  }

  lemma GreetingText(template: string, expected: string)
    requires template == "Hello {{1}}" && expected == "Hello World"
    ensures template == "Hello " + Placeholder("1")
    ensures expected == "Hello " + "World"
  {
  }

  /** `"gr World"` with `{ "gr": "Hello {{1}}" }` gives `"Hello World"`. */
  lemma GreetingExample(message: string, template: string, expected: string)
    requires message == "gr World" && template == "Hello {{1}}" && expected == "Hello World"
    ensures Rewrite(JString(message), Some(Dict("gr", template))) == JString(expected)
  {
    GreetingText(template, expected);
    ParseGreeting(message);
    DictTemplate("gr", template);
    Invoked(message, Dict("gr", template), "gr", ["World"], template);
    assert BraceFree("Hello ") && BraceFree("World");
    ExpandGreeting("Hello ", "World");
  }

  /** A template made of a placeholder and then plain text. */
  lemma HoleText(x: string, t: string, args: seq<string>) returns (segs: seq<Segment>)
    requires BraceFree(x) && BraceFree(t)
    ensures Render(segs) == Placeholder(x) + t
    ensures WellFormed(segs)
    ensures Simultaneous(segs, args) == Fill(x, args).GetOr(Placeholder(x)) + t
  {
    PlainText(t, args);
    SingleHole(x, args);
    segs := [Hole(x)] + Chars(t);
    Joined([Hole(x)], Chars(t), args);
  }

  /** `{{*}}` followed by text: the space-joined arguments take the
      placeholder's place. */
  lemma ExpandWildcard(t: string, args: seq<string>)
    requires BraceFree(t) && CleanArgs(args)
    ensures Expand(Placeholder("*") + t, args) == JoinWith(args, " ") + t
  {
    assert BraceFree("*");
    var segs := HoleText("*", t, args);
    ExpandIsSimultaneous(segs, args);
  }

  lemma ParseWildcard(message: string)
    requires message == "ex a b c"
    ensures ParseInvocation(message) == Invocation("ex", ["a", "b", "c"])
  {
    var inv := Invocation("ex", ["a", "b", "c"]);
    assert JoinWith([inv.name] + inv.args, " ") == message;
    InvocationRoundTrip(inv);
  }

  lemma WildcardText(template: string, expected: string)
    requires template == "{{*}} end" && expected == "a b c end"
    ensures template == Placeholder("*") + " end"
    ensures expected == JoinWith(["a", "b", "c"], " ") + " end"
  {
    assert JoinWith(["a", "b", "c"], " ") == "a b c";
  }

  /** `"ex a b c"` with `{ "ex": "{{*}} end" }` gives `"a b c end"`. */
  lemma WildcardExample(message: string, template: string, expected: string)
    requires message == "ex a b c" && template == "{{*}} end" && expected == "a b c end"
    ensures Rewrite(JString(message), Some(Dict("ex", template))) == JString(expected)
  {
    WildcardText(template, expected);
    var args := ["a", "b", "c"];
    ParseWildcard(message);
    DictTemplate("ex", template);
    Invoked(message, Dict("ex", template), "ex", args, template);
    assert BraceFree(" end") && CleanArgs(args);
    ExpandWildcard(" end", args);
  }

  /** Two template pieces side by side. */
  lemma Joined(a: seq<Segment>, b: seq<Segment>, args: seq<string>)
    ensures Render(a + b) == Render(a) + Render(b)
    ensures Simultaneous(a + b, args) == Simultaneous(a, args) + Simultaneous(b, args)
    ensures WellFormed(a) && WellFormed(b) ==> WellFormed(a + b)
  {
    RenderAppend(a, b);
    SimultaneousAppend(a, b, args);
    if WellFormed(a) && WellFormed(b) {
      forall i | 0 <= i < |a + b| ensures WellFormedSegment((a + b)[i]) {
        if i < |a| { assert (a + b)[i] == a[i]; } else { assert (a + b)[i] == b[i - |a|]; }
      }
    }
  }

  /** A template made of one placeholder. */
  lemma SingleHole(name: string, args: seq<string>)
    ensures Render([Hole(name)]) == Placeholder(name)
    ensures Simultaneous([Hole(name)], args) == Fill(name, args).GetOr(Placeholder(name))
    ensures BraceFree(name) ==> WellFormed([Hole(name)])
  {
    assert [Hole(name)][1..] == [];
  }

  lemma FirstFill(args: seq<string>)
    requires |args| == 1
    ensures Fill("1", args) == Some(args[0])
    ensures Fill("2", args) == None
  {
    ParseNatToString(1);
    ParseNatToString(2);
    assert NatToString(1) == "1";
    assert NatToString(2) == "2";
  }

  /** A template made of a placeholder, plain text and a placeholder. */
  lemma HoleTextHole(x: string, t: string, y: string, args: seq<string>) returns (segs: seq<Segment>)
    requires BraceFree(x) && BraceFree(t) && BraceFree(y)
    ensures Render(segs) == Placeholder(x) + t + Placeholder(y)
    ensures WellFormed(segs)
    ensures Simultaneous(segs, args)
         == Fill(x, args).GetOr(Placeholder(x)) + t + Fill(y, args).GetOr(Placeholder(y))
  {
    PlainText(t, args);
    SingleHole(x, args);
    SingleHole(y, args);
    Joined([Hole(x)], Chars(t), args);
    segs := [Hole(x)] + Chars(t) + [Hole(y)];
    Joined([Hole(x)] + Chars(t), [Hole(y)], args);
  }

  /** `{{1}}`, text and `{{2}}`, expanded with one argument: the argument
      fills `{{1}}` and `{{2}}`, beyond the arguments, is kept. */
  lemma ExpandMissing(a: string, t: string)
    requires BraceFree(a) && '$' !in a && BraceFree(t)
    ensures Expand(Placeholder("1") + t + Placeholder("2"), [a]) == a + t + Placeholder("2")
  {
    assert BraceFree("1") && BraceFree("2");
    var segs := HoleTextHole("1", t, "2", [a]);
    FirstFill([a]);
    assert CleanArgs([a]);
    ExpandIsSimultaneous(segs, [a]);
  }

  lemma ParseMissing(message: string)
    requires message == "x one"
    ensures ParseInvocation(message) == Invocation("x", ["one"])
  {
    var inv := Invocation("x", ["one"]);
    assert JoinWith([inv.name] + inv.args, " ") == message;
    InvocationRoundTrip(inv);
  }

  lemma MissingText(template: string, expected: string)
    requires template == "{{1}} and {{2}}" && expected == "one and {{2}}"
    ensures template == Placeholder("1") + " and " + Placeholder("2")
    ensures expected == "one" + " and " + Placeholder("2")
  {
  }

  /** `"x one"` with `{ "x": "{{1}} and {{2}}" }` gives `"one and {{2}}"`:
      a placeholder beyond the arguments stays as it is. */
  lemma MissingArgumentExample(message: string, template: string, expected: string)
    requires message == "x one" && template == "{{1}} and {{2}}" && expected == "one and {{2}}"
    ensures Rewrite(JString(message), Some(Dict("x", template))) == JString(expected)
  {
    MissingText(template, expected);
    ParseMissing(message);
    DictTemplate("x", template);
    Invoked(message, Dict("x", template), "x", ["one"], template);
    assert BraceFree("one") && BraceFree(" and ");
    ExpandMissing("one", " and ");
  }

  /** A whole-string replace-all pass with a `$`-free replacement. */
  lemma WholePass(pat: string, rep: string)
    requires pat != [] && '$' !in rep
    ensures ReplaceAll(pat, pat, rep) == rep
  {
    ReplaceAllWithoutDollar(pat, pat, rep);
    LiteralReplaceWhole(pat, rep);
  }

  /** The positional passes on `"{{1}}"` with arguments `{{2}}` and `b`. */
  lemma RescanPositional(args: seq<string>)
    requires args == ["{{2}}", "b"]
    ensures Positional("{{1}}", args) == "b"
  {
    assert NatToString(1) == "1";
    assert NatToString(2) == "2";
    RescanFirstPass(args[..1]);
    WholePass("{{2}}", "b");
    assert args[..2] == args;
  }

  lemma RescanFirstPass(args: seq<string>)
    requires args == ["{{2}}"]
    ensures Positional("{{1}}", args) == "{{2}}"
  {
    assert NatToString(1) == "1";
    WholePass("{{1}}", "{{2}}");
    assert args[..0] == [];
  }

  /** Text inserted by one pass is scanned by the later ones: a first
      argument `{{2}}` is itself replaced by the second argument. */
  lemma RescanExample()
    ensures Expand("{{1}}", ["{{2}}", "b"]) == "b"
  {
    RescanPositional(["{{2}}", "b"]);
    assert !Contains("b", Placeholder("*"));
    assert !Contains("b", Placeholder("arg"));
    WildcardsWithoutWildcard("b", JoinWith(["{{2}}", "b"], " "));
  }

  /** The wildcard passes rescan too: `{{*}}` inserts the joined arguments,
      and an argument `{{arg}}` among them is then replaced by the joined
      arguments once more. */
  lemma WildcardRescanExample()
    ensures Expand("{{*}}", ["{{arg}}", "x"]) == "{{arg}} x x"
  {
    var args := ["{{arg}}", "x"];
    WildcardRescanPositional(args);
    assert JoinWith(args, " ") == "{{arg}} x";
    WildcardRescanPasses("{{arg}} x");
  }

  /** `{{*}}` holds neither `{{1}}` nor `{{2}}`, so the positional passes
      for two arguments leave it alone. */
  lemma WildcardRescanPositional(args: seq<string>)
    requires args == ["{{arg}}", "x"]
    ensures Positional("{{*}}", args) == "{{*}}"
  {
    assert NatToString(1) == "1" && NatToString(2) == "2";
    NotOtherPlaceholder("1");
    NotOtherPlaceholder("2");
    ReplaceAllNoMatch("{{*}}", Placeholder("1"), args[0]);
    ReplaceAllNoMatch("{{*}}", Placeholder("2"), args[1]);
    var first := args[..1];
    assert first[..0] == [] && first[0] == args[0];
    assert Positional("{{*}}", first) == "{{*}}";
    assert args[..|args| - 1] == first;
  }

  /** A one-character name other than `*` gives a placeholder that does not
      occur in `{{*}}`. */
  lemma NotOtherPlaceholder(name: string)
    requires |name| == 1 && name != "*"
    ensures !Contains("{{*}}", Placeholder(name))
  {
    var s, p := "{{*}}", Placeholder(name);
    assert |p| == |s| && p[2] == name[0] != s[2];
    assert s[..|p|] != p;
    assert !Contains(s[1..], p);
  }

  /** The two wildcard passes on `{{*}}` with the joined text `{{arg}} x`. */
  lemma WildcardRescanPasses(all: string)
    requires all == "{{arg}} x"
    ensures Wildcards("{{*}}", all) == "{{arg}} x x"
  {
    WholePass("{{*}}", all);
    ReplaceAllWithoutDollar(all, Placeholder("arg"), all);
    assert all[..7] == Placeholder("arg") && all[7..] == " x";
    assert LiteralReplace(all, Placeholder("arg"), all) == all + LiteralReplace(" x", Placeholder("arg"), all);
  }

  /** Replacing every match by `$&`, "the matched text", changes nothing. */
  lemma {:induction false} MatchedTextFrom(s: string, pat: string, i: nat)
    requires pat != [] && i <= |s|
    ensures ReplaceFrom(s, pat, "$&", i) == s[i..]
    decreases |s| - i
  {
    if |s| - i < |pat| {
    } else if s[i..i + |pat|] == pat {
      MatchedTextFrom(s, pat, i + |pat|);
      MatchedStep(s, pat, i);
    } else {
      MatchedTextFrom(s, pat, i + 1);
      UnmatchedStep(s, pat, i);
    }
  }

  lemma MatchedStep(s: string, pat: string, i: nat)
    requires pat != [] && i + |pat| <= |s| && s[i..i + |pat|] == pat
    requires ReplaceFrom(s, pat, "$&", i + |pat|) == s[i + |pat|..]
    ensures ReplaceFrom(s, pat, "$&", i) == s[i..]
  {
    SubstitutionPatterns([], s, i, |pat|);
    assert "$&" + [] == "$&";
    assert ReplaceFrom(s, pat, "$&", i)
        == Substitution("$&", s, i, |pat|) + ReplaceFrom(s, pat, "$&", i + |pat|);
    assert s[i..] == s[i..i + |pat|] + s[i + |pat|..];
  }

  lemma UnmatchedStep(s: string, pat: string, i: nat)
    requires pat != [] && i + |pat| <= |s| && s[i..i + |pat|] != pat
    requires ReplaceFrom(s, pat, "$&", i + 1) == s[i + 1..]
    ensures ReplaceFrom(s, pat, "$&", i) == s[i..]
  {
    assert ReplaceFrom(s, pat, "$&", i) == [s[i]] + ReplaceFrom(s, pat, "$&", i + 1);
    assert s[i..] == [s[i]] + s[i + 1..];
  }

  /** Expansion with one argument: the `{{1}}` pass, then the wildcards. */
  lemma ExpandOneArgument(t: string, x: string)
    ensures Expand(t, [x]) == Wildcards(ReplaceAll(t, "{{1}}", x), x)
  {
    assert NatToString(1) == "1";
    assert Placeholder(NatToString(1)) == "{{1}}";
    assert [x][..0] == [];
    assert Positional(t, [x][..0]) == t;
    assert JoinWith([x], " ") == x;
  }

  /** A lone argument `$&` is not inserted as typed: `replace` reads it as
      "the matched text", so every placeholder it should fill, `{{1}}`,
      `{{*}}` and `{{arg}}`, comes back as it was. */
  lemma DollarArgumentEchoes(t: string)
    ensures Expand(t, ["$&"]) == t
  {
    ExpandOneArgument(t, "$&");
    MatchedTextFrom(t, "{{1}}", 0);
    assert ReplaceAll(t, "{{1}}", "$&") == t;
    MatchedTextFrom(t, "{{*}}", 0);
    assert ReplaceAll(t, "{{*}}", "$&") == t;
    MatchedTextFrom(t, "{{arg}}", 0);
    assert ReplaceAll(t, "{{arg}}", "$&") == t;
    assert Placeholder("*") == "{{*}}" && Placeholder("arg") == "{{arg}}";
  }
}
