# chatgpt-input-rewriter, modelled in Dafny

The userscript expands short macros typed into the ChatGPT message box at
the moment a message is sent. A message `gen foo bar baz` names the macro
`gen` and gives it the positional arguments `foo`, `bar`, `baz`. The
macro's template comes from a JSON dictionary kept in `localStorage`.
`{{1}}`, `{{2}}`, ... in the template become the arguments. `{{*}}` and
`{{arg}}` become all arguments joined by single spaces. The expansion
happens inside a wrapper around `window.fetch`. The wrapper picks out
requests that carry a conversation message, rewrites the first part of
the first message in the JSON body, and forwards the request. An editor
lets the user change the dictionary. Its Save button stores the text only
if every entry is a valid macro name bound to a string.

The project models three parts of the script and proves properties of them.

- **The expander, `rewritePrompt`** (modules `Text`, `Decimal`, `Json`,
  `Expander`, `Placeholders`, `Expansions`).
  - It trims the message, splits it on runs of white space, and looks up
    the first token.
  - It then makes the replace-all passes in the script's order:
    `{{1}}` .. `{{n}}`, then `{{*}}`, then `{{arg}}`. Each pass rescans
    what the previous one produced.
  - The replacement semantics of `String.prototype.replace` are modelled
    exactly, including the `$$`, `$&`, `` $` `` and `$'` patterns.
  - The main theorem, `Placeholders.ExpandIsSimultaneous`, covers a
    template whose braces all belong to placeholders, with arguments free
    of braces and `$`. For these, the sequential passes equal one
    left-to-right substitution:
    - every `{{i}}` with 1 <= i <= n becomes argument i;
    - `{{*}}` and `{{arg}}` become the joined arguments;
    - every other placeholder stays as written.
  - `Expansions` works through the documented examples and the two
    consequences of rescanning and of `$` patterns.
- **The fetch wrapper** (module `Interceptor`).
  - `RewriteBody` decides whether the request body is replaced, and with
    what.
  - `Handle` is the whole call as a value.
  - `Fetch` is the call as a method on a `RequestInit` object and on a
    `Transport` (the browser's own `fetch`, which records the calls it
    receives).
  - `Handle` and `Fetch` model the wrapper with a `null` init passed
    through. As written, a `null` init never reaches the browser's `fetch`
    (see Findings); `HandleAsWritten` models that.
- **The dictionary in storage** (module `MacroStore`).
  - `LoadMacros` is `loadMacros`.
  - The Save button is a `Storage` class holding the stored text, with a
    method `Save` whose entry loop is the method `ValidateEntries`.
    `ValidateEntries` is proved equal to the specification
    `FirstViolation`.
  - Lemmas connect a saved dictionary to what the expander does with it.

Behaviour the code has and the model keeps:

- **Blank messages.** Splitting never yields zero pieces, so the test
  `parts.length === 0` can never succeed. Blank text looks up the macro
  named `""`. A blank message comes back unchanged when the dictionary
  has no string under the empty key (`Expander.BlankMessage`). When it
  has one, the blank message is expanded with that template
  (`Expander.BlankMessageWithEmptyKey`). A dictionary stored through the Save button
  never has that key (`MacroStore.SavedDictionaryIgnoresBlank`).
- **`$` patterns.** A `$` in an argument is read as a replacement pattern,
  not inserted as typed. For example, the lone argument `$&` leaves every
  placeholder as it was (`Expansions.DollarArgumentEchoes`).
- **Rescanning.** Text that one pass inserts is seen by the passes after
  it (`Expansions.RescanExample`).
- **Dictionary values.** The dictionary in `rewritePrompt` is whatever
  `loadMacros` returns. Its values are not checked, and arrays count as
  objects. A name whose value is not a string leaves the message unchanged.

## Model

| member | source | states |
|---|---|---|
| Decimal.ParseNatToString | chatgpt-input-rewriter.user.js:69 | the decimal text of an argument number, as written into the placeholder, is a canonical index that reads back as that number |
| Decimal.NatToStringParse | chatgpt-input-rewriter.user.js:104 | every canonical index key, such as `"0"`, is the decimal text of the number it denotes |
| Decimal.NatToStringInjective | chatgpt-input-rewriter.user.js:69 | distinct argument numbers give distinct positional placeholders |
| Text.Trim | chatgpt-input-rewriter.user.js:55 | `trim` returns the text with leading and trailing white space removed: the result is a middle slice of the input, surrounded only by white space, and neither starts nor ends with white space |
| Text.TrimEmptyIffAllWhitespace | chatgpt-input-rewriter.user.js:55 | trimming gives the empty string exactly when the text is all white space |
| Text.Split | chatgpt-input-rewriter.user.js:56-57 | `split(/\s+/)` never returns zero pieces, and no piece contains white space, so the zero-token test is dead |
| Text.SplitPieces | chatgpt-input-rewriter.user.js:56 | for text not ending in white space, the first piece is empty exactly when the text is empty or starts with white space, and every later piece is non-empty |
| Text.TokensOfTrimmed | chatgpt-input-rewriter.user.js:55-56 | trimmed empty text splits into one empty token; any other trimmed text splits into non-empty tokens |
| Text.SplitJoinRoundTrip | chatgpt-input-rewriter.user.js:56 | splitting non-empty, white-space-free words joined by single spaces gives back exactly those words |
| Text.JoinWithAvoids | chatgpt-input-rewriter.user.js:73 | a character found in no argument and not in the separator is not in the joined arguments |
| Text.JoinWithSnoc | chatgpt-input-rewriter.user.js:73 | `JoinWith`, the model of `args.join(' ')`: adding a word at the end of a non-empty list adds the separator and the word, so the separator stands exactly between neighbouring words |
| Text.ContainsIffOccurs | chatgpt-input-rewriter.user.js:98-99 | `Contains`, the model of `includes`, holds exactly when the substring occurs at some position |
| Text.SubstitutionWithoutDollar | chatgpt-input-rewriter.user.js:70 | a replacement string without `$` is inserted as written |
| Text.SubstitutionPatterns | chatgpt-input-rewriter.user.js:70 | `Substitution`, the text one match is replaced by: `$$` gives `$`, `$&` the matched text, `` $` `` the text before the match, `$'` the text after it, followed by the rest of the replacement |
| Text.ReplaceFromWithoutDollar | chatgpt-input-rewriter.user.js:70 | `ReplaceFrom`, the scan of a global replace from a given index, with a `$`-free string is literal replacement of the rest of the text |
| Text.ReplaceAllWithoutDollar | chatgpt-input-rewriter.user.js:70-78 | `ReplaceAll`, a global replace with a `$`-free string equals leftmost, non-overlapping literal replacement |
| Text.ReplaceAllNoMatch | chatgpt-input-rewriter.user.js:77-78 | a global replace of a pattern that does not occur leaves the text unchanged |
| Text.LiteralReplaceNoMatch | chatgpt-input-rewriter.user.js:70 | literal replacement of a pattern that does not occur leaves the text unchanged |
| Text.LiteralReplaceWhole | chatgpt-input-rewriter.user.js:70 | replacing a pattern in text that is exactly the pattern gives the replacement |
| Text.LiteralReplaceAppend | chatgpt-input-rewriter.user.js:70 | when no occurrence crosses the boundary, replacing in a concatenation is replacing in each part |
| Json.Field | chatgpt-input-rewriter.user.js:62 | a property of an object reads as present exactly when some entry has that key |
| Json.Get | chatgpt-input-rewriter.user.js:62 | a property read with a non-index key succeeds only on an object; an index read on a string gives a one-character string |
| Json.SetReads | chatgpt-input-rewriter.user.js:112 | after `v[key] = x` on an existing property, `v[key]` is `x` and every other property reads as before |
| Json.UpdateReadsBack | chatgpt-input-rewriter.user.js:112 | `Update`, the assignment `parts[0] = rewritten`: after an update along a path of objects and arrays, reading that path gives the new value |
| Json.UpdateFrame | chatgpt-input-rewriter.user.js:112-113 | an update leaves every path that parts ways with it reading as before |
| Json.LookupAppend | chatgpt-input-rewriter.user.js:104 | `Lookup`, the chain of property reads `data?.messages?.[0]?.content?.parts`: reading along a path and then along a further path is reading along both, and a chain that fails part-way stays failed |
| Json.UpdateAlongPrefix | chatgpt-input-rewriter.user.js:112 | each object or array along the updated path becomes its own update by the rest of the path |
| Json.Entries | chatgpt-input-rewriter.user.js:253 | `Object.entries` lists an object's entries in order and an array's elements keyed by their indices; for any other value the model gives no entries, whereas JavaScript lists a string's characters and throws on `null`, but the script calls it only on objects and arrays, after the guard at :250 |
| Json.GetIsEntry | chatgpt-input-rewriter.user.js:253 | any property that reads as present on an object or array is one of the entries `Object.entries` lists |
| Expander.ParseInvocation | chatgpt-input-rewriter.user.js:55-60 | the macro name has no white space, and every argument is non-empty with no white space |
| Expander.TemplateFor | chatgpt-input-rewriter.user.js:62-63 | there is a template exactly when the dictionary's property under the name is a string, and the template is that string |
| Expander.Rewrite | chatgpt-input-rewriter.user.js:52-81 | a non-string original, an absent dictionary or an unknown macro gives back the untrimmed original itself; a string original always gives a string |
| Expander.RewritePrompt | chatgpt-input-rewriter.user.js:52-81 | the loop over the arguments followed by the two wildcard passes computes `Rewrite`, with invariant: after k steps the text is the template after the passes for `{{1}}`..`{{k}}` |
| Expander.InvocationRoundTrip | chatgpt-input-rewriter.user.js:55-60 | a message written as a name and its arguments separated by single spaces parses back to that name and those arguments |
| Expander.BlankMessage | chatgpt-input-rewriter.user.js:55-63 | blank text names the macro `""` with no arguments, and comes back unchanged when the dictionary has no string under `""` |
| Expander.BlankMessageWithEmptyKey | chatgpt-input-rewriter.user.js:55-65 | with the dictionary `{ "": template }`, for any template without `{`, every blank message is replaced by that template |
| Expander.PositionalOnPlainText | chatgpt-input-rewriter.user.js:65-71 | `Positional`, the passes for `{{1}}`..`{{n}}`: a template without `{` comes back as written, whatever the arguments |
| Expander.WildcardsWithoutWildcard | chatgpt-input-rewriter.user.js:76-78 | `Wildcards`, the `{{*}}` and `{{arg}}` passes: text holding neither placeholder comes back as written, whatever the joined arguments |
| Expander.ExpandOnPlainText | chatgpt-input-rewriter.user.js:65-80 | `Expand`, all passes in order: a template without `{` expands to itself for every argument list, `$` patterns included |
| Placeholders.PlaceholderOccurrence | chatgpt-input-rewriter.user.js:69-78 | for brace-free names, an occurrence of one placeholder that starts inside another starts at its first brace and is the same placeholder |
| Placeholders.SegmentBoundary | chatgpt-input-rewriter.user.js:69-70 | no placeholder occurrence crosses the end of a character or a placeholder of a well-formed template |
| Placeholders.PassOnSegments | chatgpt-input-rewriter.user.js:70-78 | one replace-all pass with brace-free, `$`-free text replaces exactly the template's placeholders of that name, and the result is again well-formed |
| Placeholders.PositionalOnSegments | chatgpt-input-rewriter.user.js:68-71 | the positional passes replace exactly the placeholders `{{1}}`..`{{n}}`, in order, and nothing else |
| Placeholders.ExpandIsSimultaneous | chatgpt-input-rewriter.user.js:65-80 | for a well-formed template and arguments free of braces and `$`, the sequential passes equal one simultaneous substitution: `{{i}}` (1 <= i <= n) by argument i, `{{*}}` and `{{arg}}` by the space-joined arguments, every other placeholder kept |
| Placeholders.PositionalSegsHole | chatgpt-input-rewriter.user.js:68-71 | after the positional passes a placeholder `{{i}}` with 1 <= i <= n holds argument i, and any other placeholder is as written |
| Expansions.Invoked | chatgpt-input-rewriter.user.js:55-80 | a message whose first token names a string of the dictionary becomes that template's expansion for the remaining tokens |
| Expansions.ExpandGreeting | chatgpt-input-rewriter.user.js:68-71 | brace-free text followed by `{{1}}`, expanded with one brace-free, `$`-free argument, is the text followed by the argument |
| Expansions.ExpandWildcard | chatgpt-input-rewriter.user.js:73-78 | `{{*}}` followed by brace-free text, for clean arguments, is the space-joined arguments followed by the text |
| Expansions.ExpandMissing | chatgpt-input-rewriter.user.js:68-71 | `{{1}}`, text, `{{2}}` with one argument gives the argument, the text, and `{{2}}` as written |
| Expansions.GreetingExample | chatgpt-input-rewriter.user.js:27-30 | `gr World` with the template `Hello {{1}}` becomes `Hello World` |
| Expansions.WildcardExample | chatgpt-input-rewriter.user.js:73-78 | `ex a b c` with the template `{{*}} end` becomes `a b c end` |
| Expansions.MissingArgumentExample | chatgpt-input-rewriter.user.js:68-71 | `x one` with the template `{{1}} and {{2}}` becomes `one and {{2}}`: a placeholder beyond the arguments is kept |
| Expansions.RescanExample | chatgpt-input-rewriter.user.js:68-71 | a first argument `{{2}}` is itself replaced by the second argument in the next pass |
| Expansions.WildcardRescanExample | chatgpt-input-rewriter.user.js:76-78 | the wildcard passes rescan too: `{{*}}` with arguments `{{arg}}` and `x` becomes `{{arg}} x`, whose `{{arg}}` the next pass replaces, giving `{{arg}} x x` |
| Expansions.MatchedTextFrom | chatgpt-input-rewriter.user.js:70 | a global replace with the string `$&` changes nothing |
| Expansions.DollarArgumentEchoes | chatgpt-input-rewriter.user.js:70-78 | with the lone argument `$&`, every template comes back unchanged |
| MacroStore.FirstViolation | chatgpt-input-rewriter.user.js:253-260 | no error exactly when every entry has a valid name and a string value; otherwise the error of the first failing entry, with the name checked before the value |
| MacroStore.ValidateEntries | chatgpt-input-rewriter.user.js:253-260 | the loop that stops at the first failing entry returns `FirstViolation` |
| MacroStore.SaveCheck | chatgpt-input-rewriter.user.js:249-260 | the text passes exactly when it parses to an object or array whose every entry is a valid name bound to a string; for an object or array, the error is the first failing entry's |
| MacroStore.LoadMacros | chatgpt-input-rewriter.user.js:37-46 | a dictionary is loaded exactly when the stored text is present, non-empty, parses, and is an object or an array, and it is the parsed value |
| MacroStore.Storage.Save | chatgpt-input-rewriter.user.js:247-261 | the returned error is the check's; the text is stored when it passes; otherwise the stored text is left as it was |
| MacroStore.ValidDictionaryNames | chatgpt-input-rewriter.user.js:254 | every name that a valid dictionary answers with a template matches `^[a-z][a-z0-9]{1,3}$` |
| MacroStore.ValidNameIsInvocable | chatgpt-input-rewriter.user.js:254 | `NameOk`, the name pattern: every name it accepts can be invoked, since the name followed by clean arguments joined by single spaces parses back to that name and those arguments |
| MacroStore.SavedTextLoads | chatgpt-input-rewriter.user.js:39-42 | text the Save button stored loads as the value it was validated as (nothing for empty text), and that value is a valid dictionary |
| MacroStore.SavedDictionaryNeedsValidName | chatgpt-input-rewriter.user.js:55-63 | with a saved dictionary, a message whose first token is not a valid macro name is sent as typed |
| MacroStore.SavedDictionaryIgnoresBlank | chatgpt-input-rewriter.user.js:55-63 | with a saved dictionary, blank messages are sent as typed |
| MacroStore.ArrayDictionaries | chatgpt-input-rewriter.user.js:250-255 | the empty array passes as an empty dictionary; any other array fails with the invalid name `0` |
| Interceptor.FirstPart | chatgpt-input-rewriter.user.js:104-106 | there is a first part exactly when `messages[0].content.parts` is an array whose element 0 is a string, and it is that string |
| Interceptor.LooksLikeConversationIff | chatgpt-input-rewriter.user.js:97-99 | `LooksLikeConversation` holds exactly when the conversation path occurs somewhere in the URL, or `"messages"` somewhere in a string body |
| Interceptor.UnknownInputNeedsBody | chatgpt-input-rewriter.user.js:90-95 | `UrlOf`: an input that is neither a string nor a `Request` has the URL `""`, so it is picked out only by a string body holding `"messages"` |
| Interceptor.RewriteBody | chatgpt-input-rewriter.user.js:97-116 | a new body requires a request that looks like a conversation, a string body that parses, a string first part, and an expansion that differs from it; the new body is the payload with the expansion as its first part, serialised |
| Interceptor.BodyChangesIff | chatgpt-input-rewriter.user.js:97-116 | the body is replaced exactly when all five of those conditions hold |
| Interceptor.FirstPartReachable | chatgpt-input-rewriter.user.js:104-106 | a payload with a string first part has an object or array at each step of the path to it |
| Interceptor.WithFirstPartFrame | chatgpt-input-rewriter.user.js:112-113 | replacing the first part yields `parts` with only element 0 changed; the new first part reads back; every path off `messages[0].content.parts[0]` reads as before |
| Interceptor.RewrittenBodyDelivers | chatgpt-input-rewriter.user.js:103-113 | when parsing reads back the serialised new payload, the new body parses to the original payload with only its first part changed, to that part's expansion |
| Interceptor.BodyAfter | chatgpt-input-rewriter.user.js:111-113 | the body changes only for a request that looks like a conversation, with a string body that parses and has a string first part; the new body is the serialised payload with that part replaced by its expansion |
| Interceptor.HandleAsWritten | chatgpt-input-rewriter.user.js:89-101 | the wrapper as written fails exactly for a `null` init |
| Interceptor.NullInitIsDropped | chatgpt-input-rewriter.user.js:89-99 | a call with a `null` init is rejected and never forwarded |
| Interceptor.Handle | chatgpt-input-rewriter.user.js:89-122 | every call is forwarded; a `null` init goes through untouched; any other call is handled as written |
| Interceptor.HandleChangesOnlyBody | chatgpt-input-rewriter.user.js:101-122 | when no new body is decided, the forwarded init is the one supplied, and an omitted init becomes `{}` |
| Interceptor.Transport.Send | chatgpt-input-rewriter.user.js:122 | one call is appended to the record, with the body its init carries at that moment |
| Interceptor.Fetch | chatgpt-input-rewriter.user.js:89-123 | the corrected wrapper (`Handle`, with a `null` init passed through; as written such a call never reaches `fetch`): exactly one call reaches the browser's `fetch`, with the same input and the same init object (a fresh `{}` when omitted); what it sees is what `Handle` decides for the dictionary in storage; the init's body is left as the call carried it |

## Left out

- The editor and button UI, overlay and syntax highlighting
  (chatgpt-input-rewriter.user.js:129-286) are display code with no
  effect on what is sent or stored. The editor's initial text
  (`stored ?? EXAMPLE_JSON`) is part of this, so the model does not cover it.
- `console.log` diagnostics (:19, :114, :262, :289) have no effect on
  results.
- `localStorage` is the field `Storage.stored`. A `getItem` that throws
  (and reads as `null` through the catch at :43-45) is not modelled.
- `JSON.parse` and `JSON.stringify` are function parameters. Their
  behaviour is not modelled. `Interceptor.RewrittenBodyDelivers` assumes, as a
  precondition, that parsing reads back the one payload it serialises. The model assumes the parsed
  value's object entries come in JavaScript's enumeration order with
  distinct keys. This matters for which failing entry the Save button
  reports first.
- Promises, `async`, replacing `window.fetch` and the `Request` class are
  left out. The input is a URL string, a `Request` reduced to its URL, or
  anything else. The browser's `fetch` is a recorder of calls.
- A non-object, non-null `init` (a string, say) is not modelled. The
  `init` argument is left out, `null`, or an object with a body.
- In place, the script mutates the parsed payload (`parts[0] = rewritten`).
  The model updates an immutable JSON value along the path, so aliasing
  inside the payload is not represented. A value parsed from JSON has no
  shared parts.
- JavaScript strings are UTF-16 code units. Here a string is a sequence of
  Unicode characters. The two differ for characters outside the Basic
  Multilingual Plane, and for lone surrogates, which a JavaScript string
  can hold (for example from the JSON escape `"\ud800"`) and a Dafny
  character cannot. All white space and pattern characters used lie
  inside the Basic Multilingual Plane.
- Property reads of `length` and of inherited members (`constructor`,
  `__proto__`) are modelled as absent. None of them is a string or an
  array, so each takes the same branch as a missing property.
- Text.Split: its contract states only that the result is non-empty and
  white-space free. That the pieces are exactly the maximal runs of
  non-white-space is proved only for text built by joining words
  (`Text.SplitJoinRoundTrip`).
- Placeholders.ExpandIsSimultaneous: stated for well-formed templates and
  arguments without braces or `$`. Outside that, the sequential passes
  may differ from one substitution. Arguments holding placeholders are
  rescanned (`Expansions.RescanExample`, `Expansions.WildcardRescanExample`),
  and `$` patterns in arguments are interpreted
  (`Expansions.DollarArgumentEchoes`). Templates with stray braces are not
  covered: `{{{1}}}` becomes `{`, the argument and `}`, and `a { {{1}}`
  becomes `a { ` and the argument, but no lemma states these.

## Findings

| source | as written | input that shows it | evidently intended | confidence | as-written member | corrected member |
|---|---|---|---|---|---|---|
| chatgpt-input-rewriter.user.js:89-101 | the default `init = {}` replaces only a missing argument; with `init === null` the read of `init.body` throws, so the wrapper's promise rejects and the request is never sent | `fetch(url, null)`, which the browser's own `fetch` accepts as an empty init | requests the wrapper does not rewrite reach the browser's `fetch` unchanged | high, not executed | Interceptor.NullInitIsDropped | Interceptor.Handle |
