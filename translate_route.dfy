/** The `/api/translate` endpoint of `src/app/api/translate/route.ts`: it answers one post's
    translation from the shared cache file, or translates the three texts with one request
    each and records them. The parsed body is a parameter (`None` when `request.json()`
    throws); the service and the cache are the `Translator` and `TranslationCache` of the
    `Translate` module. */
module TranslateRoute {
  import opened Wrappers
  import opened Text
  import opened Translate

  /** The request body; `id` and `targetLocale` are `None` when absent or null. */
  datatype TranslateBody = TranslateBody(
    id: Option<string>,
    title: string,
    excerpt: string,
    content: string,
    targetLocale: Option<string>)

  /** The JSON answer. `Unconfigured` is the 503 body, which carries the texts back. */
  datatype Payload =
    | Translated(title: string, excerpt: string, content: string, cached: bool)
    | Unconfigured(message: string, title: string, excerpt: string, content: string)
    | Error(message: string)
    | Failure

  datatype Response = Response(status: int, payload: Payload)

  const MissingFieldsMessage := "Missing id or targetLocale"
  const UnconfiguredMessage := "GOOGLE_TRANSLATE_API_KEY not configured. Set it in your environment variables."

  /** What `translateWithGoogle` resolves to: the translated text, or a thrown error. */
  datatype Single = Threw | Resolved(text: string)

  /** The request `translateWithGoogle` sends: `q` is the one text, blank or not. */
  function SingleRequest(text: string, lang: string): Request {
    Request([text], SourceLanguage, lang, Format)
  }

  /** `data.translations[0].translatedText || text` for an answered reply: the first
      translation when the service gave a non-empty one, the text sent otherwise. */
  predicate FirstOrText(reply: BatchReply, text: string, result: string) {
    && reply.Answered?
    && (|reply.translations| > 0 && reply.translations[0] != "" ==> result == reply.translations[0])
    && (|reply.translations| == 0 || reply.translations[0] == "" ==> result == text)
  }

  /** `translateWithGoogle`: a missing key or a failed request throws; otherwise the first
      `translatedText`, or the text itself when that is missing or empty. */
  function GoogleOutcome(text: string, lang: string, hasKey: bool, answer: Request -> BatchReply): (r: Single)
    ensures r.Threw? <==> !hasKey || answer(SingleRequest(text, lang)).Failed?
    ensures r.Resolved? ==> FirstOrText(answer(SingleRequest(text, lang)), text, r.text)
    ensures r.Resolved? && text != "" ==> r.text != ""
  {
    if !hasKey then Threw
    else match answer(SingleRequest(text, lang))
      case Failed => Threw
      case Answered(ts) => Resolved(Pick(ts, 0, text))
  }

  method TranslateWithGoogle(tr: Translator, text: string, lang: string) returns (r: Single)
    modifies tr
    ensures r == GoogleOutcome(text, lang, tr.hasKey, tr.answer)
    ensures tr.sent == old(tr.sent) + (if tr.hasKey then [SingleRequest(text, lang)] else [])
  {
    if !tr.hasKey {
      return Threw;
    }
    var reply := tr.Send(SingleRequest(text, lang));
    match reply {
      case Failed => r := Threw;
      case Answered(ts) => r := Resolved(Pick(ts, 0, text));
    }
  }

  /** The body names a post and a locale. */
  predicate WellFormed(b: TranslateBody) {
    Truthy(b.id) && Truthy(b.targetLocale)
  }

  function BodyKey(b: TranslateBody): string
    requires WellFormed(b)
  {
    Key(b.id.value, b.targetLocale.value)
  }

  /** The request reaches the translation service: a well-formed body, no record, a key. */
  predicate Translates(body: Option<TranslateBody>, entries: map<string, CacheEntry>, hasKey: bool) {
    body.Some? && WellFormed(body.value) && BodyKey(body.value) !in entries && hasKey
  }

  /** The answer of POST, in the order the handler decides it: an unparsable body is a 500;
      a missing id or locale is a 400 before the cache is read; a record is served with
      `cached` set, key or no key; with no key the texts come back under a 503; a failed
      translation is a 500; otherwise the three translations with `cached` clear. */
  function Outcome(body: Option<TranslateBody>, entries: map<string, CacheEntry>, hasKey: bool,
                   answer: Request -> BatchReply): (r: Response)
    ensures r.status in {200, 400, 500, 503}
    ensures r.status == 200 <==> r.payload.Translated?
    ensures r.status == 400 <==> body.Some? && !WellFormed(body.value)
    ensures body.Some? && WellFormed(body.value) && BodyKey(body.value) in entries ==>
      var e := entries[BodyKey(body.value)];
      r == Response(200, Translated(e.title, e.excerpt, e.content, true))
    ensures r.status == 503 <==> body.Some? && WellFormed(body.value) && BodyKey(body.value) !in entries && !hasKey
    ensures r.status == 503 ==> r.payload == Unconfigured(UnconfiguredMessage, body.value.title, body.value.excerpt, body.value.content)
    ensures r.status == 200 && !r.payload.cached ==> Translates(body, entries, hasKey)
    ensures r.status == 500 ==> body.None? || Translates(body, entries, hasKey)
    ensures r.status == 500 ==> r.payload == Failure
    ensures body.None? ==> r == Response(500, Failure)
  {
    match body
    case None => Response(500, Failure)
    case Some(b) =>
      if !WellFormed(b) then Response(400, Error(MissingFieldsMessage))
      else if BodyKey(b) in entries then
        var e := entries[BodyKey(b)];
        Response(200, Translated(e.title, e.excerpt, e.content, true))
      else if !hasKey then Response(503, Unconfigured(UnconfiguredMessage, b.title, b.excerpt, b.content))
      else
        var lang := b.targetLocale.value;
        var t, x, c := GoogleOutcome(b.title, lang, true, answer), GoogleOutcome(b.excerpt, lang, true, answer),
                       GoogleOutcome(b.content, lang, true, answer);
        if t.Threw? || x.Threw? || c.Threw? then Response(500, Failure)
        else Response(200, Translated(t.text, x.text, c.text, false))
  }

  /** A fresh translation succeeds exactly when the service answers all three requests, and
      then each field is the service's answer or, where that is empty, the text sent. */
  lemma FreshTranslation(body: Option<TranslateBody>, entries: map<string, CacheEntry>, hasKey: bool,
                         answer: Request -> BatchReply)
    requires Translates(body, entries, hasKey)
    ensures var b, lang := body.value, body.value.targetLocale.value;
      var r := Outcome(body, entries, hasKey, answer);
      && (r.status == 200 <==>
            answer(SingleRequest(b.title, lang)).Answered? && answer(SingleRequest(b.excerpt, lang)).Answered?
            && answer(SingleRequest(b.content, lang)).Answered?)
      && (r.status == 200 ==>
            && !r.payload.cached
            && FirstOrText(answer(SingleRequest(b.title, lang)), b.title, r.payload.title)
            && FirstOrText(answer(SingleRequest(b.excerpt, lang)), b.excerpt, r.payload.excerpt)
            && FirstOrText(answer(SingleRequest(b.content, lang)), b.content, r.payload.content))
  {
  }

  /** POST: the cache is written exactly when a fresh translation succeeds, and then only
      under the post's key; the service gets the title, excerpt and content requests, in
      that order, exactly when the request gets past the cache and the key checks. */
  method HandleTranslate(cache: TranslationCache, tr: Translator, body: Option<TranslateBody>, now: int)
    returns (resp: Response)
    modifies cache, tr
    ensures resp == Outcome(body, old(cache.entries), tr.hasKey, tr.answer)
    ensures resp.status == 200 && !resp.payload.cached ==>
      cache.entries == old(cache.entries)[BodyKey(body.value) := CacheEntry(resp.payload.title, resp.payload.excerpt, resp.payload.content, now)]
    ensures !(resp.status == 200 && !resp.payload.cached) ==> cache.entries == old(cache.entries)
    ensures tr.sent == old(tr.sent) +
      (if Translates(body, old(cache.entries), tr.hasKey)
       then [SingleRequest(body.value.title, body.value.targetLocale.value),
             SingleRequest(body.value.excerpt, body.value.targetLocale.value),
             SingleRequest(body.value.content, body.value.targetLocale.value)]
       else [])
  {
    if body.None? {
      return Response(500, Failure);
    }
    var b := body.value;
    if !Truthy(b.id) || !Truthy(b.targetLocale) {
      return Response(400, Error(MissingFieldsMessage));
    }
    var key := Key(b.id.value, b.targetLocale.value);
    var snapshot := cache.entries;
    if key in snapshot {
      var e := snapshot[key];
      return Response(200, Translated(e.title, e.excerpt, e.content, true));
    }
    if !tr.hasKey {
      return Response(503, Unconfigured(UnconfiguredMessage, b.title, b.excerpt, b.content));
    }
    var lang := b.targetLocale.value;
    var t := TranslateWithGoogle(tr, b.title, lang);
    var x := TranslateWithGoogle(tr, b.excerpt, lang);
    var c := TranslateWithGoogle(tr, b.content, lang);
    if t.Threw? || x.Threw? || c.Threw? {
      return Response(500, Failure);
    }
    snapshot := snapshot[key := CacheEntry(t.text, x.text, c.text, now)];
    cache.entries := snapshot;
    resp := Response(200, Translated(t.text, x.text, c.text, false));
  }

  /** A post translated through the endpoint is served from the cache afterwards, with the
      same texts, without asking the service again and whatever the key setting. */
  method TranslateThenRepeat(cache: TranslationCache, tr: Translator, body: Option<TranslateBody>, now: int)
    returns (first: Response, second: Response)
    modifies cache, tr
    ensures first.payload.Translated? && !first.payload.cached ==>
      second == Response(200, first.payload.(cached := true))
    ensures first.payload.Translated? ==> second.payload.Translated? && second.payload.cached
  {
    first := HandleTranslate(cache, tr, body, now);
    second := HandleTranslate(cache, tr, body, now);
  }
}
