/** `rewritePrompt`: macro expansion of the user's message.

    The message is trimmed and split on white space; the first token names
    a macro, the rest are its positional arguments. The macro's template
    then goes through replace-all passes over one working string, in this
    order: `{{1}}`, `{{2}}`, ..., `{{n}}` for the n arguments, then `{{*}}`,
    then `{{arg}}`, the last two by the arguments joined with single spaces.
    Each pass scans the previous pass's output, so text that one pass
    inserts is seen by the later ones. */
module Expander {
  import opened Wrappers
  import opened Decimal
  import opened Text
  import opened Json

  /** The placeholder `{{name}}`. */
  function Placeholder(name: string): string {
    "{{" + name + "}}"
  }

  /** A parsed message: macro name and positional arguments. */
  datatype Invocation = Invocation(name: string, args: seq<string>)

  /** The message trimmed and split on runs of white space; the first token
      is the macro name. Splitting never gives zero tokens, so there is
      always a name (the empty name for blank text). */
  function ParseInvocation(text: string): (inv: Invocation)
    ensures NoWhitespace(inv.name)
    ensures forall k :: 0 <= k < |inv.args| ==> inv.args[k] != [] && NoWhitespace(inv.args[k])
  {
    var trimmed := Trim(text);
    var tokens := Split(trimmed);
    TokensOfTrimmed(trimmed);
    Invocation(tokens[0], tokens[1..])
  }

  /** The template stored under `name`, when the value there is a string. */
  function TemplateFor(macros: Json, name: string): (t: Option<string>)
    ensures t.Some? <==> (Get(macros, name).Some? && Get(macros, name).value.JString?)
    ensures t.Some? ==> Get(macros, name) == Some(JString(t.value))
  {
    match Get(macros, name)
    case Some(JString(t)) => Some(t)
    case _ => None
  }

  /** The replace-all passes for `{{1}}` .. `{{|args|}}`, in ascending order,
      each applied to the output of the one before. */
  function Positional(template: string, args: seq<string>): string
    decreases |args|
  {
    if |args| == 0 then template
    else
      var n := |args|;
      ReplaceAll(Positional(template, args[..n - 1]), Placeholder(NatToString(n)), args[n - 1])
  }

  /** The `{{*}}` pass and then the `{{arg}}` pass. */
  function Wildcards(t: string, all: string): string {
    ReplaceAll(ReplaceAll(t, Placeholder("*"), all), Placeholder("arg"), all)
  }

  /** The expansion of a template for the given arguments. */
  function Expand(template: string, args: seq<string>): string {
    Wildcards(Positional(template, args), JoinWith(args, " "))
  }

  /** `rewritePrompt(original, macros)`. The untrimmed `original` comes back
      on every path that does not expand a macro: when it is not a string,
      when there is no dictionary, and when the first token does not name a
      string in the dictionary. */
  function Rewrite(original: Json, macros: Option<Json>): (r: Json)
    ensures !original.JString? || macros.None? ==> r == original
    ensures (&& original.JString? && macros.Some?
             && TemplateFor(macros.value, ParseInvocation(original.s).name).None?) ==> r == original
    ensures original.JString? ==> r.JString?
  {
    if !original.JString? || macros.None? then original
    else
      var inv := ParseInvocation(original.s);
      match TemplateFor(macros.value, inv.name)
      case None => original
      case Some(template) => JString(Expand(template, inv.args))
  }

  /** `rewritePrompt` as the script runs it: the positional passes in a loop
      over the arguments, then the two wildcard passes. */
  method RewritePrompt(original: Json, macros: Option<Json>) returns (r: Json)
    ensures r == Rewrite(original, macros)
  {
    if !original.JString? || macros.None? {
      return original;
    }
    var trimmed := Trim(original.s);
    var parts := Split(trimmed);
    // The script also returns `original` when `parts` is empty; `Split`
    // never returns an empty sequence, so that test cannot succeed.
    var name := parts[0];
    var args := parts[1..];
    var expansion := TemplateFor(macros.value, name);
    if expansion.None? {
      return original;
    }
    var rewritten := expansion.value;
    var idx := 0;
    while idx < |args|
      invariant 0 <= idx <= |args|
      invariant rewritten == Positional(expansion.value, args[..idx])
    {
      assert args[..idx + 1][..idx] == args[..idx];
      rewritten := ReplaceAll(rewritten, Placeholder(NatToString(idx + 1)), args[idx]);
      idx := idx + 1;
    }
    assert args[..|args|] == args;
    var allArgs := JoinWith(args, " ");
    rewritten := ReplaceAll(ReplaceAll(rewritten, Placeholder("*"), allArgs), Placeholder("arg"), allArgs);
    return JString(rewritten);
  }

  // ---------------------------------------------------------------------
  // Tokens

  lemma TrimUnpadded(t: string)
    requires t != [] ==> !IsWhitespace(t[0]) && !IsWhitespace(t[|t| - 1])
    ensures Trim(t) == t
  {
  }

  /** A message written as a name followed by its arguments, separated by
      single spaces, parses back to that name and those arguments. */
  lemma InvocationRoundTrip(inv: Invocation)
    requires inv.name != [] && NoWhitespace(inv.name)
    requires forall k :: 0 <= k < |inv.args| ==> inv.args[k] != [] && NoWhitespace(inv.args[k])
    ensures ParseInvocation(JoinWith([inv.name] + inv.args, " ")) == inv
  {
    var words := [inv.name] + inv.args;
    var text := JoinWith(words, " ");
    JoinWithStartsWith(words);
    JoinWithEndsWith(words);
    TrimUnpadded(text);
    SplitJoinRoundTrip(words);
    assert words[1..] == inv.args;
  }

  lemma {:induction false} JoinWithEndsWith(words: seq<string>)
    requires |words| >= 1 && words[|words| - 1] != []
    ensures JoinWith(words, " ") != []
    ensures JoinWith(words, " ")[|JoinWith(words, " ")| - 1] == words[|words| - 1][|words[|words| - 1]| - 1]
  {
    if |words| > 1 {
      var rest := words[1..];
      JoinWithEndsWith(rest);
      assert rest[|rest| - 1] == words[|words| - 1];
      var r := JoinWith(rest, " ");
      assert JoinWith(words, " ") == (words[0] + " ") + r;
      assert JoinWith(words, " ")[|JoinWith(words, " ")| - 1] == r[|r| - 1];
    }
  }

  /** Blank text names the macro "": it comes back unchanged unless the
      dictionary holds a string under the empty key. */
  lemma BlankMessage(text: string, macros: Json)
    requires AllWhitespace(text)
    ensures ParseInvocation(text) == Invocation("", [])
    ensures TemplateFor(macros, "").None? ==> Rewrite(JString(text), Some(macros)) == JString(text)
  {
    TrimEmptyIffAllWhitespace(text);
  }

  /** A dictionary with a string under the empty key does expand blank
      text: a blank message becomes that template (here one without
      placeholders). */
  lemma BlankMessageWithEmptyKey(text: string, template: string)
    requires AllWhitespace(text)
    requires '{' !in template
    ensures Rewrite(JString(text), Some(JObject([Entry("", JString(template))]))) == JString(template)
  {
    BlankMessage(text, JObject([Entry("", JString(template))]));
    ExpandOnPlainText(template, []);
  }

  /** Text without `{` contains no placeholder. */
  lemma NoBraceNoPlaceholder(t: string, name: string)
    requires '{' !in t
    ensures !Contains(t, Placeholder(name))
  {
    ContainsIffOccurs(t, Placeholder(name));
    forall i | 0 <= i && i + |Placeholder(name)| <= |t| ensures !OccursAt(t, Placeholder(name), i) {
      assert t[i..i + |Placeholder(name)|][0] == t[i];
    }
  }

  /** A template without `{` holds no positional placeholder, so the
      positional passes leave it as written, whatever the arguments. */
  lemma {:induction false} PositionalOnPlainText(template: string, args: seq<string>)
    requires '{' !in template
    ensures Positional(template, args) == template
    decreases |args|
  {
    if |args| > 0 {
      var n := |args|;
      PositionalOnPlainText(template, args[..n - 1]);
      NoBraceNoPlaceholder(template, NatToString(n));
      ReplaceAllNoMatch(template, Placeholder(NatToString(n)), args[n - 1]);
    }
  }

  /** Text holding neither `{{*}}` nor `{{arg}}` passes both wildcard passes
      unchanged, whatever the joined arguments are, `$` patterns and
      placeholders included. */
  lemma WildcardsWithoutWildcard(t: string, all: string)
    requires !Contains(t, Placeholder("*")) && !Contains(t, Placeholder("arg"))
    ensures Wildcards(t, all) == t
  {
    ReplaceAllNoMatch(t, Placeholder("*"), all);
    ReplaceAllNoMatch(t, Placeholder("arg"), all);
  }

  /** A template without `{` expands to itself for every argument list. */
  lemma ExpandOnPlainText(template: string, args: seq<string>)
    requires '{' !in template
    ensures Expand(template, args) == template
  {
    PositionalOnPlainText(template, args);
    NoBraceNoPlaceholder(template, "*");
    NoBraceNoPlaceholder(template, "arg");
    WildcardsWithoutWildcard(template, JoinWith(args, " "));
  }

}
