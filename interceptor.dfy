/** The `window.fetch` wrapper: it recognises a request that sends a
    conversation message, expands the macro in the first part of the first
    message, re-serialises the payload into the request's body, and hands
    the request to the browser's own `fetch`.

    `JSON.parse` and `JSON.stringify` are parameters; the browser's `fetch`
    is a `Transport` that records each call it receives. */
module Interceptor {
  import opened Wrappers
  import opened Decimal
  import opened Text
  import opened Json
  import opened Expander
  import opened MacroStore

  /** The first argument of `fetch`: a URL string, a `Request`, or anything
      else (a `URL` object, say). */
  datatype Input = UrlString(s: string) | RequestObject(url: string) | OtherInput

  /** The URL the wrapper classifies by; anything but a string or a
      `Request` gives the empty string. */
  function UrlOf(input: Input): string {
    match input
    case UrlString(s) => s
    case RequestObject(url) => url
    case OtherInput => ""
  }

  /** `init.body`: a string, or anything else (absent, a `Blob`, a
      `FormData`, ...). */
  datatype Body = TextBody(text: string) | OtherBody

  const ConversationPath: string := "/backend-api/conversation"
  const MessagesKey: string := "\"messages\""

  /** The request looks like a conversation message: by its URL, or by a
      string body that mentions `"messages"`. */
  predicate LooksLikeConversation(url: string, body: Body) {
    Contains(url, ConversationPath) || (body.TextBody? && Contains(body.text, MessagesKey))
  }

  /** The test holds exactly when the conversation path occurs somewhere in
      the URL, or `"messages"` somewhere in a string body. */
  lemma LooksLikeConversationIff(url: string, body: Body)
    ensures LooksLikeConversation(url, body) <==>
              || (exists i :: OccursAt(url, ConversationPath, i))
              || (body.TextBody? && exists i :: OccursAt(body.text, MessagesKey, i))
  {
    ContainsIffOccurs(url, ConversationPath);
    if body.TextBody? {
      ContainsIffOccurs(body.text, MessagesKey);
    }
  }

  /** An input that is neither a URL string nor a `Request` has the empty
      URL, so it is picked out only by its body. */
  lemma UnknownInputNeedsBody(body: Body)
    ensures LooksLikeConversation(UrlOf(OtherInput), body) <==>
              body.TextBody? && exists i :: OccursAt(body.text, MessagesKey, i)
  {
    LooksLikeConversationIff(UrlOf(OtherInput), body);
  }

  /** `messages[0].content.parts` */
  const PartsPath: seq<string> := ["messages", "0", "content", "parts"]

  /** `messages[0].content.parts[0]` */
  const FirstPartPath: seq<string> := PartsPath + ["0"]

  /** The first part of the first message, when `parts` is an array whose
      element 0 is a string. */
  function FirstPart(data: Json): (r: Option<string>)
    ensures r.Some? <==> (&& Lookup(data, PartsPath).Some? && Lookup(data, PartsPath).value.JArray?
                          && |Lookup(data, PartsPath).value.items| > 0
                          && Lookup(data, PartsPath).value.items[0].JString?)
    ensures r.Some? ==> Lookup(data, PartsPath).value.items[0] == JString(r.value)
  {
    match Lookup(data, PartsPath)
    case Some(JArray(items)) =>
      if |items| > 0 && items[0].JString? then Some(items[0].s) else None
    case _ => None
  }

  /** The payload with its first part replaced by `s`. */
  function WithFirstPart(data: Json, s: string): Json {
    Update(data, FirstPartPath, JString(s))
  }

  /** The new body the wrapper gives the request, or None when it leaves
      `init.body` as supplied: when the request does not look like a
      conversation, the body is not a string, it does not parse, it has no
      string first part, or the expansion equals that part. */
  function RewriteBody(url: string, body: Body, macros: Option<Json>,
                       parse: string -> Option<Json>, stringify: Json -> string): (r: Option<string>)
    ensures r.Some? ==> LooksLikeConversation(url, body) && body.TextBody?
    ensures r.Some? ==> parse(body.text).Some? && FirstPart(parse(body.text).value).Some?
    ensures r.Some? ==>
              var data := parse(body.text).value;
              var original := FirstPart(data).value;
              && Rewrite(JString(original), macros) != JString(original)
              && r.value == stringify(WithFirstPart(data, Rewrite(JString(original), macros).s))
  {
    if !(LooksLikeConversation(url, body) && body.TextBody?) then None
    else
      match parse(body.text)
      case None => None
      case Some(data) =>
        match FirstPart(data)
        case None => None
        case Some(original) =>
          var rewritten := Rewrite(JString(original), macros);
          if rewritten == JString(original) then None
          else Some(stringify(WithFirstPart(data, rewritten.s)))
  }

  // ---------------------------------------------------------------------
  // When the body changes, and what changes in it

  /** The body is replaced exactly when all five conditions hold. */
  lemma BodyChangesIff(url: string, body: Body, macros: Option<Json>,
                       parse: string -> Option<Json>, stringify: Json -> string)
    ensures RewriteBody(url, body, macros, parse, stringify).Some? <==>
              (&& LooksLikeConversation(url, body)
               && body.TextBody?
               && parse(body.text).Some?
               && FirstPart(parse(body.text).value).Some?
               && Rewrite(JString(FirstPart(parse(body.text).value).value), macros)
                  != JString(FirstPart(parse(body.text).value).value))
  {
  }

  /** An array with at least one element. */
  predicate NonEmptyArray(o: Option<Json>) {
    o.Some? && o.value.JArray? && |o.value.items| > 0
  }

  /** Looking up `key` and then `rest`. */
  lemma LookupCons(v: Json, key: string, rest: seq<string>)
    ensures Lookup(v, [key] + rest) == if Get(v, key).None? then None else Lookup(Get(v, key).value, rest)
  {
    assert ([key] + rest)[0] == key && ([key] + rest)[1..] == rest;
  }

  /** An object or array holding `key`, followed by objects along `rest`. */
  lemma AlongCons(v: Json, key: string, rest: seq<string>)
    requires IsObject(v) && Get(v, key).Some? && ObjectsAlong(Get(v, key).value, rest)
    ensures ObjectsAlong(v, [key] + rest)
  {
    assert ([key] + rest)[0] == key && ([key] + rest)[1..] == rest;
  }

  lemma ReachParts(content: Json)
    requires NonEmptyArray(Lookup(content, ["parts"]))
    ensures content.JObject? && ObjectsAlong(content, ["parts", "0"])
  {
    LookupCons(content, "parts", []);
    assert ["parts"] == ["parts"] + [];
    var parts := Get(content, "parts").value;
    assert ParseIndex("parts").None?;
    assert ParseIndex("0") == Some(0);
    AlongCons(parts, "0", []);
    AlongCons(content, "parts", ["0"]);
  }

  lemma ReachContent(m0: Json)
    requires NonEmptyArray(Lookup(m0, ["content", "parts"]))
    ensures m0.JObject? && ObjectsAlong(m0, ["content", "parts", "0"])
  {
    assert ["content", "parts"] == ["content"] + ["parts"];
    LookupCons(m0, "content", ["parts"]);
    ReachParts(Get(m0, "content").value);
    assert ParseIndex("content").None?;
    AlongCons(m0, "content", ["parts", "0"]);
    assert ["content", "parts", "0"] == ["content"] + ["parts", "0"];
  }

  lemma ReachFirstMessage(m: Json)
    requires NonEmptyArray(Lookup(m, ["0", "content", "parts"]))
    ensures ObjectsAlong(m, ["0", "content", "parts", "0"])
  {
    assert ["0", "content", "parts"] == ["0"] + ["content", "parts"];
    LookupCons(m, "0", ["content", "parts"]);
    var m0 := Get(m, "0").value;
    ReachContent(m0);
    assert !m.JString?;
    AlongCons(m, "0", ["content", "parts", "0"]);
    assert ["0", "content", "parts", "0"] == ["0"] + ["content", "parts", "0"];
  }

  /** A payload with a string first part has an object or an array at
      every step of the path to it. */
  lemma FirstPartReachable(data: Json)
    requires FirstPart(data).Some?
    ensures ObjectsAlong(data, FirstPartPath)
  {
    assert PartsPath == ["messages"] + ["0", "content", "parts"];
    LookupCons(data, "messages", ["0", "content", "parts"]);
    ReachFirstMessage(Get(data, "messages").value);
    assert ParseIndex("messages").None?;
    AlongCons(data, "messages", ["0", "content", "parts", "0"]);
    assert FirstPartPath == ["messages"] + ["0", "content", "parts", "0"];
  }

  /** Replacing the first part changes `parts[0]` and nothing else: `parts`
      keeps its other elements, the first part reads as the new text, and
      every path that parts ways with `messages[0].content.parts[0]` reads
      as before. */
  lemma WithFirstPartFrame(data: Json, s: string)
    requires FirstPart(data).Some?
    ensures FirstPart(WithFirstPart(data, s)) == Some(s)
    ensures Lookup(WithFirstPart(data, s), PartsPath)
            == Some(JArray(Lookup(data, PartsPath).value.items[0 := JString(s)]))
    ensures forall q :: Diverge(FirstPartPath, q) ==> Lookup(WithFirstPart(data, s), q) == Lookup(data, q)
  {
    FirstPartReachable(data);
    WithFirstPartParts(data, s);
    forall q | Diverge(FirstPartPath, q)
      ensures Lookup(WithFirstPart(data, s), q) == Lookup(data, q)
    {
      UpdateFrame(data, FirstPartPath, JString(s), q);
    }
  }

  /** After the replacement, `parts` is the old array with element 0 set. */
  lemma WithFirstPartParts(data: Json, s: string)
    requires FirstPart(data).Some? && ObjectsAlong(data, FirstPartPath)
    ensures Lookup(WithFirstPart(data, s), PartsPath)
            == Some(JArray(Lookup(data, PartsPath).value.items[0 := JString(s)]))
  {
    var items := Lookup(data, PartsPath).value.items;
    UpdateAlongPrefix(data, PartsPath, ["0"], JString(s));
    SetFirstItem(items, JString(s));
  }

  lemma SetFirstItem(items: seq<Json>, x: Json)
    requires |items| > 0
    ensures Update(JArray(items), ["0"], x) == JArray(items[0 := x])
  {
    assert ParseIndex("0") == Some(0);
    assert ["0"][1..] == [];
    assert Get(JArray(items), "0") == Some(items[0]);
  }

  /** When the body is replaced and `JSON.parse` reads back what
      `JSON.stringify` writes, the server receives the original payload
      with only its first part changed, to the expansion of that part. */
  lemma RewrittenBodyDelivers(url: string, body: Body, macros: Option<Json>,
                              parse: string -> Option<Json>, stringify: Json -> string)
    requires RewriteBody(url, body, macros, parse, stringify).Some?
    requires var data := parse(body.text).value;
             var v := WithFirstPart(data, Rewrite(JString(FirstPart(data).value), macros).s);
             parse(stringify(v)) == Some(v)
    ensures var data := parse(body.text).value;
            var sent := parse(RewriteBody(url, body, macros, parse, stringify).value).value;
            && FirstPart(sent) == Some(Rewrite(JString(FirstPart(data).value), macros).s)
            && FirstPart(sent) != FirstPart(data)
            && forall q :: Diverge(FirstPartPath, q) ==> Lookup(sent, q) == Lookup(data, q)
  {
    var data := parse(body.text).value;
    var rewritten := Rewrite(JString(FirstPart(data).value), macros).s;
    WithFirstPartFrame(data, rewritten);
  }

  // ---------------------------------------------------------------------
  // The call as a whole

  /** The `init` argument as the wrapper sees it: left out (so defaulted
      to `{}`), `null`, or an object with the given body. */
  datatype InitView = NoInit | NullInit | InitObject(body: Body)

  /** What a call of the wrapper does: hand the request to the browser's
      `fetch` with the given `init`, or fail before doing so. */
  datatype Outcome = Rejected | Forwarded(init: InitView)

  /** The body of `init` after the wrapper has run. */
  function BodyAfter(url: string, body: Body, macros: Option<Json>,
                     parse: string -> Option<Json>, stringify: Json -> string): (r: Body)
    ensures r != body ==> LooksLikeConversation(url, body) && body.TextBody? && r.TextBody? && parse(body.text).Some?
    ensures r != body ==>
              var data := parse(body.text).value;
              && FirstPart(data).Some?
              && r.text == stringify(WithFirstPart(data, Rewrite(JString(FirstPart(data).value), macros).s))
  {
    match RewriteBody(url, body, macros, parse, stringify)
    case Some(text) => TextBody(text)
    case None => body
  }

  /** The wrapper as written. The default `init = {}` applies only when
      the argument is left out; for `init === null` the read of `init.body`
      throws a TypeError, so the call fails and the request is never sent. */
  function HandleAsWritten(url: string, init: InitView, macros: Option<Json>,
                           parse: string -> Option<Json>, stringify: Json -> string): (o: Outcome)
    ensures init.NullInit? <==> o.Rejected?
  {
    match init
    case NoInit => Forwarded(InitObject(OtherBody))
    case NullInit => Rejected
    case InitObject(body) => Forwarded(InitObject(BodyAfter(url, body, macros, parse, stringify)))
  }

  /** A `null` init is a request the wrapper does not rewrite, yet the
      wrapper as written fails on it, where the browser's `fetch` would
      accept it. */
  lemma NullInitIsDropped(url: string, macros: Option<Json>,
                          parse: string -> Option<Json>, stringify: Json -> string)
    ensures HandleAsWritten(url, NullInit, macros, parse, stringify) == Rejected
  {
  }

  /** The wrapper with a `null` init passed through untouched: every call
      reaches the browser's `fetch`, and calls with any other `init` are
      handled as written. */
  function Handle(url: string, init: InitView, macros: Option<Json>,
                  parse: string -> Option<Json>, stringify: Json -> string): (o: Outcome)
    ensures o.Forwarded?
    ensures init.NullInit? ==> o.init == NullInit
    ensures !init.NullInit? ==> o == HandleAsWritten(url, init, macros, parse, stringify)
  {
    match init
    case NoInit => Forwarded(InitObject(BodyAfter(url, OtherBody, macros, parse, stringify)))
    case NullInit => Forwarded(NullInit)
    case InitObject(body) => Forwarded(InitObject(BodyAfter(url, body, macros, parse, stringify)))
  }

  /** The only change the wrapper makes to a request is the body, and only
      as `RewriteBody` decides. */
  lemma HandleChangesOnlyBody(url: string, init: InitView, macros: Option<Json>,
                              parse: string -> Option<Json>, stringify: Json -> string)
    ensures var o := Handle(url, init, macros, parse, stringify);
            && (init.InitObject? && RewriteBody(url, init.body, macros, parse, stringify).None?
                ==> o.init == init)
            && (init.NoInit? ==> o.init == InitObject(OtherBody))
  {
  }

  /** The object passed as `init`. */
  class RequestInit {
    var body: Body

    constructor(body: Body)
      ensures this.body == body
    {
      this.body := body;
    }
  }

  /** The `init` argument of a call. */
  datatype InitArg = Omitted | Null | Given(obj: RequestInit)

  /** A call the browser's `fetch` received, with the body its `init`
      carried at that moment. */
  datatype Call = Call(input: Input, init: InitArg, body: Body)

  /** What the browser's `fetch` sees of a call. */
  function Seen(c: Call): InitView {
    match c.init
    case Omitted => NoInit
    case Null => NullInit
    case Given(_) => InitObject(c.body)
  }

  /** The `init` argument as the wrapper sees it when it is called. */
  function ViewOf(init: InitArg): InitView
    reads if init.Given? then {init.obj} else {}
  {
    match init
    case Omitted => NoInit
    case Null => NullInit
    case Given(obj) => InitObject(obj.body)
  }

  /** The browser's own `fetch`, recording the calls it receives. */
  class Transport {
    var calls: seq<Call>

    constructor()
      ensures calls == []
    {
      calls := [];
    }

    method Send(input: Input, init: InitArg)
      modifies this
      ensures calls == old(calls) + [Call(input, init, if init.Given? then init.obj.body else OtherBody)]
    {
      calls := calls + [Call(input, init, if init.Given? then init.obj.body else OtherBody)];
    }
  }

  /** One call of the wrapper (with a `null` init passed through). It
      reads the dictionary from storage, rewrites `init.body` in place when
      `RewriteBody` says so, and calls the browser's `fetch` exactly once,
      with the same input and the same `init` object (a fresh `{}` when the
      argument was left out). */
  method Fetch(input: Input, init: InitArg, storage: Storage, net: Transport,
               parse: string -> Option<Json>, stringify: Json -> string)
    modifies net, if init.Given? then {init.obj} else {}
    ensures |net.calls| == |old(net.calls)| + 1
    ensures net.calls[..|old(net.calls)|] == old(net.calls)
    ensures net.calls[|old(net.calls)|].input == input
    ensures Forwarded(Seen(net.calls[|old(net.calls)|]))
            == Handle(UrlOf(input), old(ViewOf(init)), LoadMacros(storage.stored, parse), parse, stringify)
    ensures init.Omitted? ==> net.calls[|old(net.calls)|].init.Given? && fresh(net.calls[|old(net.calls)|].init.obj)
    ensures !init.Omitted? ==> net.calls[|old(net.calls)|].init == init
    ensures init.Given? ==> init.obj.body == net.calls[|old(net.calls)|].body
  {
    if init.Null? {
      net.Send(input, Null);
      return;
    }
    var obj: RequestInit;
    if init.Omitted? {
      obj := new RequestInit(OtherBody);
    } else {
      obj := init.obj;
    }
    var macros := LoadMacros(storage.stored, parse);
    var newBody := RewriteBody(UrlOf(input), obj.body, macros, parse, stringify);
    if newBody.Some? {
      obj.body := TextBody(newBody.value);
    }
    net.Send(input, Given(obj));
  }
}
