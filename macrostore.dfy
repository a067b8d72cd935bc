/** The macro dictionary in storage: `loadMacros`, and the Save button of
    the editor, which validates the edited text and stores it only when
    every entry passes. Storage is one optional string (the value under the
    script's storage key); `JSON.parse` is a parameter. */
module MacroStore {
  import opened Wrappers
  import opened Decimal
  import opened Text
  import opened Json
  import opened Expander

  predicate IsLowerLetter(c: char) {
    'a' <= c <= 'z'
  }

  predicate IsLowerLetterOrDigit(c: char) {
    'a' <= c <= 'z' || '0' <= c <= '9'
  }

  /** The pattern `^[a-z][a-z0-9]{1,3}$` of macro names: two to four
      characters, a lower-case ASCII letter and then lower-case ASCII
      letters or digits. */
  predicate NameOk(k: string) {
    2 <= |k| <= 4 && IsLowerLetter(k[0]) && forall i :: 1 <= i < |k| ==> IsLowerLetterOrDigit(k[i])
  }

  /** Every name the pattern accepts can be called: the name followed by
      arguments, separated by single spaces, parses back to that name and
      those arguments. */
  lemma ValidNameIsInvocable(k: string, args: seq<string>)
    requires NameOk(k)
    requires forall i :: 0 <= i < |args| ==> args[i] != [] && NoWhitespace(args[i])
    ensures ParseInvocation(JoinWith([k] + args, " ")) == Invocation(k, args)
  {
    assert NoWhitespace(k) by {
      forall i | 0 <= i < |k| ensures !IsWhitespace(k[i]) {
        assert i == 0 || IsLowerLetterOrDigit(k[i]);
      }
    }
    InvocationRoundTrip(Invocation(k, args));
  }

  /** An entry the Save button accepts. */
  predicate EntryOk(e: Entry) {
    NameOk(e.key) && e.value.JString?
  }

  /** The message the Save button shows. */
  datatype SaveError =
    | InvalidJson
    | RootNotObject
    | InvalidName(key: string)
    | NotString(key: string)

  /** The error for an entry that fails: the name is checked before the value. */
  function Violation(e: Entry): SaveError {
    if !NameOk(e.key) then InvalidName(e.key) else NotString(e.key)
  }

  /** The error of the first failing entry, in iteration order. */
  function FirstViolation(entries: seq<Entry>): (r: Option<SaveError>)
    ensures r.None? <==> forall i :: 0 <= i < |entries| ==> EntryOk(entries[i])
    ensures r.Some? ==>
              exists i :: 0 <= i < |entries| && !EntryOk(entries[i]) && r.value == Violation(entries[i])
                          && forall j :: 0 <= j < i ==> EntryOk(entries[j])
    decreases |entries|
  {
    if entries == [] then None
    else if !EntryOk(entries[0]) then Some(Violation(entries[0]))
    else
      var r := FirstViolation(entries[1..]);
      assert forall j :: 0 <= j < |entries[1..]| ==> entries[1..][j] == entries[j + 1];
      r
  }

  /** The `for ... of Object.entries(parsed)` loop, leaving at the first
      entry that throws. */
  method ValidateEntries(entries: seq<Entry>) returns (err: Option<SaveError>)
    ensures err == FirstViolation(entries)
  {
    var i := 0;
    while i < |entries|
      invariant 0 <= i <= |entries|
      invariant FirstViolation(entries) == FirstViolation(entries[i..])
    {
      var e := entries[i];
      assert entries[i..][1..] == entries[i + 1..];
      if !NameOk(e.key) {
        return Some(InvalidName(e.key));
      }
      if !e.value.JString? {
        return Some(NotString(e.key));
      }
      i := i + 1;
    }
    return None;
  }

  /** A parsed value the Save button would store: an object or an array
      whose every entry is a macro name bound to a string. */
  predicate ValidDictionary(v: Json) {
    IsObject(v) && forall i :: 0 <= i < |Entries(v)| ==> EntryOk(Entries(v)[i])
  }

  /** The checks of the Save button on the parse result of the edited text;
      None when the text may be stored. */
  function SaveCheck(parsed: Option<Json>): (r: Option<SaveError>)
    ensures r.None? <==> parsed.Some? && ValidDictionary(parsed.value)
    ensures parsed.Some? && IsObject(parsed.value) ==> r == FirstViolation(Entries(parsed.value))
  {
    match parsed
    case None => Some(InvalidJson)
    case Some(v) => if !IsObject(v) then Some(RootNotObject) else FirstViolation(Entries(v))
  }

  /** `loadMacros()` on the stored text: nothing when there is no text, when
      it is empty, when it does not parse, or when it is not an object or
      an array. */
  function LoadMacros(raw: Option<string>, parse: string -> Option<Json>): (r: Option<Json>)
    ensures r.Some? ==> IsObject(r.value)
    ensures r.Some? <==> (&& raw.Some? && raw.value != ""
                          && parse(raw.value).Some? && IsObject(parse(raw.value).value))
    ensures r.Some? ==> r == parse(raw.value)
  {
    match raw
    case None => None
    case Some(text) =>
      if text == "" then None
      else
        match parse(text)
        case None => None
        case Some(v) => if IsObject(v) then Some(v) else None
  }

  /** The storage slot of the macro dictionary. */
  class Storage {
    var stored: Option<string>

    constructor(initial: Option<string>)
      ensures stored == initial
    {
      stored := initial;
    }

    /** The Save button: the edited text is stored only when it parses to
        a valid dictionary; otherwise the error is reported and the stored
        text stays as it was. */
    method Save(text: string, parse: string -> Option<Json>) returns (err: Option<SaveError>)
      modifies this
      ensures err == SaveCheck(parse(text))
      ensures err.None? ==> stored == Some(text)
      ensures err.Some? ==> stored == old(stored)
    {
      var parsed := parse(text);
      if parsed.None? {
        return Some(InvalidJson);
      }
      if !IsObject(parsed.value) {
        return Some(RootNotObject);
      }
      err := ValidateEntries(Entries(parsed.value));
      if err.None? {
        stored := Some(text);
      }
    }
  }

  // ---------------------------------------------------------------------
  // What a saved dictionary means for the expander

  /** Every name a valid dictionary answers with a template is a valid
      macro name. */
  lemma ValidDictionaryNames(v: Json, name: string)
    requires ValidDictionary(v)
    requires TemplateFor(v, name).Some?
    ensures NameOk(name)
  {
    GetIsEntry(v, name);
    var i :| 0 <= i < |Entries(v)| && Entries(v)[i] == Entry(name, Get(v, name).value);
    assert EntryOk(Entries(v)[i]);
  }

  /** Text the Save button stored loads back as the dictionary it was
      validated as. */
  lemma SavedTextLoads(text: string, parse: string -> Option<Json>)
    requires SaveCheck(parse(text)).None?
    ensures text != "" ==> LoadMacros(Some(text), parse) == parse(text)
    ensures text == "" ==> LoadMacros(Some(text), parse).None?
    ensures LoadMacros(Some(text), parse).Some? ==> ValidDictionary(LoadMacros(Some(text), parse).value)
  {
  }

  /** With a dictionary the Save button stored, a message whose first token
      is not a valid macro name (in particular a blank message, whose token
      is empty) is sent as typed. */
  lemma SavedDictionaryNeedsValidName(text: string, parse: string -> Option<Json>, message: string)
    requires SaveCheck(parse(text)).None?
    requires !NameOk(ParseInvocation(message).name)
    ensures Rewrite(JString(message), LoadMacros(Some(text), parse)) == JString(message)
  {
    SavedTextLoads(text, parse);
    var macros := LoadMacros(Some(text), parse);
    if macros.Some? && TemplateFor(macros.value, ParseInvocation(message).name).Some? {
      ValidDictionaryNames(macros.value, ParseInvocation(message).name);
    }
  }

  lemma SavedDictionaryIgnoresBlank(text: string, parse: string -> Option<Json>, message: string)
    requires SaveCheck(parse(text)).None?
    requires AllWhitespace(message)
    ensures Rewrite(JString(message), LoadMacros(Some(text), parse)) == JString(message)
  {
    BlankMessage(message, JNull);
    SavedDictionaryNeedsValidName(text, parse, message);
  }

  /** Arrays pass the root check: the empty array is a valid (empty)
      dictionary, and any other array fails on its first index. */
  lemma ArrayDictionaries(items: seq<Json>)
    ensures items == [] ==> SaveCheck(Some(JArray(items))).None?
    ensures items != [] ==> SaveCheck(Some(JArray(items))) == Some(InvalidName("0"))
  {
    if items != [] {
      assert NatToString(0) == "0";
      assert Entries(JArray(items))[0] == Entry("0", items[0]);
    }
  }
}
