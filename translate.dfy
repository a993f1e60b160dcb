/** The translation layer of `src/lib/translate.ts`: the batch call to the Google Cloud
    Translation service, which sends only the non-blank texts and puts the answers back in
    place, and the three cache-backed operations built on it. The service is an oracle
    (`Translator.answer`) that also records every request it receives; the cache file is the
    map field of `TranslationCache`; the clock is the `now` parameter. */
module Translate {
  import opened Text
  import opened Seqs

  // ---------------------------------------------------------------- the service

  const SourceLanguage := "zh-CN"
  const Format := "html"

  /** The JSON body of one request: `{ q, source, target, format }`. */
  datatype Request = Request(q: seq<string>, source: string, target: string, format: string)

  /** What the service answers: a failure (a non-OK status, a timeout, a network error or an
      unparsable body all end in the same `catch`), or the `translatedText` of each entry of
      `data.translations`, `""` where it is missing. */
  datatype BatchReply = Failed | Answered(translations: seq<string>)

  /** The translation service together with the `GOOGLE_TRANSLATE_API_KEY` setting. */
  class Translator {
    const hasKey: bool
    const answer: Request -> BatchReply
    /** Every request sent so far, oldest first. */
    var sent: seq<Request>

    constructor (hasKey: bool, answer: Request -> BatchReply)
      ensures this.hasKey == hasKey && this.answer == answer && sent == []
    {
      this.hasKey := hasKey;
      this.answer := answer;
      sent := [];
    }

    /** One `fetch` to the translation endpoint. */
    method Send(req: Request) returns (reply: BatchReply)
      modifies this
      ensures reply == answer(req) && sent == old(sent) + [req]
    {
      reply := answer(req);
      sent := sent + [req];
    }
  }

  // ---------------------------------------------------------------- the batch call

  /** The texts that are sent: the non-blank ones, in input order. */
  function NonBlank(texts: seq<string>): seq<string> {
    Filter(texts, NotBlank)
  }

  /** The position in the request of the text at index `i`: the number of non-blank texts
      before it. */
  function Rank(texts: seq<string>, i: int): nat
    requires 0 <= i <= |texts|
  {
    |NonBlank(texts[..i])|
  }

  /** `translations[k]?.translatedText || fallback`. */
  function Pick(translations: seq<string>, k: nat, fallback: string): (r: string)
    ensures k < |translations| && translations[k] != "" ==> r == translations[k]
    ensures k >= |translations| || translations[k] == "" ==> r == fallback
  {
    if k < |translations| && translations[k] != "" then translations[k] else fallback
  }

  /** A request goes out only with a key and at least one non-blank text. */
  predicate Sends(hasKey: bool, texts: seq<string>) {
    hasKey && NonBlank(texts) != []
  }

  function BatchRequest(texts: seq<string>, lang: string): Request {
    Request(NonBlank(texts), SourceLanguage, lang, Format)
  }

  /** The requests one batch call sends: none, or the one carrying the non-blank texts. */
  function SentBy(texts: seq<string>, lang: string, hasKey: bool): (r: seq<Request>)
    ensures |r| <= 1
    ensures r != [] <==> Sends(hasKey, texts)
  {
    if Sends(hasKey, texts) then [BatchRequest(texts, lang)] else []
  }

  /** What `callGoogleTranslateBatch` returns, position by position. */
  function BatchOutcome(texts: seq<string>, lang: string, hasKey: bool, answer: Request -> BatchReply): (r: seq<string>)
    ensures |r| == |texts|
    ensures forall i :: 0 <= i < |texts| && Blank(texts[i]) ==> r[i] == texts[i]
    ensures forall i :: 0 <= i < |texts| && texts[i] != "" ==> r[i] != ""
    ensures !Sends(hasKey, texts) || answer(BatchRequest(texts, lang)).Failed? ==> r == texts
  {
    if !Sends(hasKey, texts) then texts
    else match answer(BatchRequest(texts, lang))
      case Failed => texts
      case Answered(ts) =>
        seq(|texts|, i requires 0 <= i < |texts| =>
          if NotBlank(texts[i]) then Pick(ts, Rank(texts, i), texts[i]) else texts[i])
  }

  /** The non-blank text at index `i` is the one sent at position `Rank(texts, i)`. */
  lemma {:induction false} RankAligned(texts: seq<string>, i: int)
    requires 0 <= i < |texts| && NotBlank(texts[i])
    ensures Rank(texts, i) < |NonBlank(texts)| && NonBlank(texts)[Rank(texts, i)] == texts[i]
  {
    assert texts[..i + 1] == texts[..i] + [texts[i]];
    FilterConcat(texts[..i], [texts[i]], NotBlank);
    assert texts == texts[..i + 1] + texts[i + 1..];
    FilterConcat(texts[..i + 1], texts[i + 1..], NotBlank);
  }

  /** Later non-blank texts are sent later: distinct texts never share a request slot. */
  lemma {:induction false} RankIncreasing(texts: seq<string>, i: int, j: int)
    requires 0 <= i < j <= |texts| && NotBlank(texts[i])
    ensures Rank(texts, i) < Rank(texts, j)
  {
    assert texts[..i + 1] == texts[..i] + [texts[i]];
    FilterConcat(texts[..i], [texts[i]], NotBlank);
    assert texts[..j] == texts[..i + 1] + texts[i + 1..j];
    FilterConcat(texts[..i + 1], texts[i + 1..j], NotBlank);
  }

  /** When the service answers, each non-blank text comes back as the answer at the slot it
      was sent in, or as itself when that answer is missing or empty. */
  lemma BatchResultAligned(texts: seq<string>, lang: string, hasKey: bool, answer: Request -> BatchReply, i: int)
    requires Sends(hasKey, texts) && answer(BatchRequest(texts, lang)).Answered?
    requires 0 <= i < |texts| && NotBlank(texts[i])
    ensures var q, k := BatchRequest(texts, lang).q, Rank(texts, i);
      && k < |q| && q[k] == texts[i]
      && BatchOutcome(texts, lang, hasKey, answer)[i] == Pick(answer(BatchRequest(texts, lang)).translations, k, texts[i])
  {
    RankAligned(texts, i);
  }

  /** `indexMap` after the first `i` texts: the index of each non-blank one, in order. */
  predicate IndexedUpTo(texts: seq<string>, i: nat, indexMap: seq<nat>)
    requires i <= |texts|
  {
    && |indexMap| == Rank(texts, i)
    && (forall k :: 0 <= k < |indexMap| ==>
          indexMap[k] < i && NotBlank(texts[indexMap[k]]) && Rank(texts, indexMap[k]) == k)
    && (forall j :: 0 <= j < i && NotBlank(texts[j]) ==>
          Rank(texts, j) < |indexMap| && indexMap[Rank(texts, j)] == j)
  }

  /** The non-blank texts among the first `i + 1`: those among the first `i`, then the
      next text when it is not blank. */
  lemma NonBlankStep(texts: seq<string>, i: nat)
    requires i < |texts|
    ensures NonBlank(texts[..i + 1]) == NonBlank(texts[..i]) + (if NotBlank(texts[i]) then [texts[i]] else [])
    ensures Rank(texts, i + 1) == Rank(texts, i) + (if NotBlank(texts[i]) then 1 else 0)
  {
    assert texts[..i + 1] == texts[..i] + [texts[i]];
    FilterConcat(texts[..i], [texts[i]], NotBlank);
    assert [texts[i]][1..] == [];
  }

  /** One step of the collecting `forEach` keeps its invariant. */
  lemma IndexStep(texts: seq<string>, i: nat, indexMap: seq<nat>)
    requires i < |texts| && IndexedUpTo(texts, i, indexMap)
    ensures IndexedUpTo(texts, i + 1, if NotBlank(texts[i]) then indexMap + [i] else indexMap)
  {
    NonBlankStep(texts, i);
    var next := if NotBlank(texts[i]) then indexMap + [i] else indexMap;
    forall k | 0 <= k < |next|
      ensures next[k] < i + 1 && NotBlank(texts[next[k]]) && Rank(texts, next[k]) == k
    {
      if k < |indexMap| {
        assert next[k] == indexMap[k];
      }
    }
    forall j | 0 <= j < i + 1 && NotBlank(texts[j])
      ensures Rank(texts, j) < |next| && next[Rank(texts, j)] == j
    {
      if j < i {
        assert next[Rank(texts, j)] == indexMap[Rank(texts, j)];
      }
    }
  }

  /** The state of the collecting `forEach` after the first `i` texts. */
  predicate Collected(texts: seq<string>, i: nat, indexMap: seq<nat>, nonEmpty: seq<string>) {
    i <= |texts| && nonEmpty == NonBlank(texts[..i]) && IndexedUpTo(texts, i, indexMap)
  }

  lemma CollectedStep(texts: seq<string>, i: nat, indexMap: seq<nat>, nonEmpty: seq<string>)
    requires i < |texts| && Collected(texts, i, indexMap, nonEmpty)
    ensures NotBlank(texts[i]) ==> Collected(texts, i + 1, indexMap + [i], nonEmpty + [texts[i]])
    ensures !NotBlank(texts[i]) ==> Collected(texts, i + 1, indexMap, nonEmpty)
  {
    NonBlankStep(texts, i);
    IndexStep(texts, i, indexMap);
  }

  /** The state of the collecting `forEach` once every text is seen. */
  lemma CollectedAll(texts: seq<string>, indexMap: seq<nat>, nonEmpty: seq<string>)
    requires Collected(texts, |texts|, indexMap, nonEmpty)
    ensures nonEmpty == NonBlank(texts) && |indexMap| == |nonEmpty|
    ensures forall k :: 0 <= k < |indexMap| ==>
      indexMap[k] < |texts| && NotBlank(texts[indexMap[k]]) && Rank(texts, indexMap[k]) == k
    ensures forall j :: 0 <= j < |texts| && NotBlank(texts[j]) ==>
      Rank(texts, j) < |indexMap| && indexMap[Rank(texts, j)] == j
  {
    assert texts[..|texts|] == texts;
  }

  /** The `forEach` that collects the non-blank texts and the index each came from. */
  method CollectNonBlank(texts: seq<string>) returns (indexMap: seq<nat>, nonEmpty: seq<string>)
    ensures nonEmpty == NonBlank(texts) && |indexMap| == |nonEmpty|
    ensures forall k :: 0 <= k < |indexMap| ==>
      indexMap[k] < |texts| && NotBlank(texts[indexMap[k]]) && Rank(texts, indexMap[k]) == k
    ensures forall j :: 0 <= j < |texts| && NotBlank(texts[j]) ==>
      Rank(texts, j) < |indexMap| && indexMap[Rank(texts, j)] == j
  {
    indexMap := [];
    nonEmpty := [];
    for i := 0 to |texts|
      invariant Collected(texts, i, indexMap, nonEmpty)
    {
      CollectedStep(texts, i, indexMap, nonEmpty);
      if NotBlank(texts[i]) {
        indexMap := indexMap + [i];
        nonEmpty := nonEmpty + [texts[i]];
      }
    }
    CollectedAll(texts, indexMap, nonEmpty);
  }

  /** The `forEach` that writes each answer back over a copy of the input, at the index its
      text came from. */
  method WriteBack(texts: seq<string>, indexMap: seq<nat>, translations: seq<string>) returns (result: seq<string>)
    requires forall k :: 0 <= k < |indexMap| ==>
      indexMap[k] < |texts| && NotBlank(texts[indexMap[k]]) && Rank(texts, indexMap[k]) == k
    requires forall j :: 0 <= j < |texts| && NotBlank(texts[j]) ==>
      Rank(texts, j) < |indexMap| && indexMap[Rank(texts, j)] == j
    ensures |result| == |texts|
    ensures forall j :: 0 <= j < |texts| ==>
      result[j] == (if NotBlank(texts[j]) then Pick(translations, Rank(texts, j), texts[j]) else texts[j])
  {
    result := texts;
    for b := 0 to |indexMap|
      invariant |result| == |texts|
      invariant forall j :: 0 <= j < |texts| ==>
        result[j] == (if NotBlank(texts[j]) && Rank(texts, j) < b then Pick(translations, Rank(texts, j), texts[j]) else texts[j])
    {
      result := result[indexMap[b] := Pick(translations, b, texts[indexMap[b]])];
    }
  }

  /** `callGoogleTranslateBatch`: without a key, or with nothing but blank texts, the input
      comes back unchanged and nothing is sent; otherwise one request carries the non-blank
      texts and the answers are written back in place, the input standing in for a failure
      and for each missing answer. */
  method TranslateBatch(tr: Translator, texts: seq<string>, lang: string) returns (result: seq<string>)
    modifies tr
    ensures result == BatchOutcome(texts, lang, tr.hasKey, tr.answer)
    ensures tr.sent == old(tr.sent) + SentBy(texts, lang, tr.hasKey)
  {
    if !tr.hasKey {
      return texts;
    }
    var indexMap, nonEmpty := CollectNonBlank(texts);
    if |nonEmpty| == 0 {
      return texts;
    }
    var request := Request(nonEmpty, SourceLanguage, lang, Format);
    assert request == BatchRequest(texts, lang);
    var reply := tr.Send(request);
    if reply.Failed? {
      return texts;
    }
    result := WriteBack(texts, indexMap, reply.translations);
  }

  /** `callGoogleTranslate`: a batch of one. The text comes back unchanged without a key, when
      it is blank or when the call fails; otherwise the first translation when it is non-empty
      and the text itself when it is not. */
  function TranslateOne(text: string, lang: string, hasKey: bool, answer: Request -> BatchReply): (r: string)
    ensures !hasKey || Blank(text) ==> r == text
    ensures text != "" ==> r != ""
    ensures hasKey && NotBlank(text) ==>
      match answer(BatchRequest([text], lang))
      case Failed => r == text
      case Answered(ts) =>
        && (|ts| > 0 && ts[0] != "" ==> r == ts[0])
        && (|ts| == 0 || ts[0] == "" ==> r == text)
  {
    var texts := [text];
    if Sends(hasKey, texts) && answer(BatchRequest(texts, lang)).Answered? then
      BatchResultAligned(texts, lang, hasKey, answer, 0);
      BatchOutcome(texts, lang, hasKey, answer)[0]
    else
      BatchOutcome(texts, lang, hasKey, answer)[0]
  }

  method TranslateText(tr: Translator, text: string, lang: string) returns (r: string)
    modifies tr
    ensures r == TranslateOne(text, lang, tr.hasKey, tr.answer)
    ensures tr.sent == old(tr.sent) + SentBy([text], lang, tr.hasKey)
  {
    var results := TranslateBatch(tr, [text], lang);
    r := results[0];
  }

  // ---------------------------------------------------------------- the cache

  /** One record of `translations-cache.json`; `translatedAt` is a timestamp in
      milliseconds. */
  datatype CacheEntry = CacheEntry(title: string, excerpt: string, content: string, translatedAt: int)

  /** `${id}_${targetLocale}`. */
  function Key(id: string, locale: string): string {
    id + "_" + locale
  }

  /** Within one locale, different posts never share a cache record. */
  lemma KeyInjective(a: string, b: string, locale: string)
    requires Key(a, locale) == Key(b, locale)
    ensures a == b
  {
    assert |a| == |b|;
    assert a == Key(a, locale)[..|a|];
    assert b == Key(b, locale)[..|b|];
  }

  /** The cache file, as the map it parses to. */
  class TranslationCache {
    var entries: map<string, CacheEntry>

    constructor ()
      ensures entries == map[]
    {
      entries := map[];
    }
  }

  /** The answer of `translatePost`. */
  datatype Translation = Translation(title: string, excerpt: string, content: string, cached: bool)

  /** The answer of `translatePostSummary` and each value of `translatePostSummaries`. */
  datatype Summary = Summary(title: string, excerpt: string)

  /** `translatePost`: a record under the key answers with `cached` set and is never
      rewritten (a summary-only record answers with its empty content); without a key the
      texts come back as given; otherwise the three texts are translated one by one and
      stored under the key. */
  method TranslatePost(cache: TranslationCache, tr: Translator, id: string, title: string,
                       excerpt: string, content: string, locale: string, now: int) returns (r: Translation)
    modifies cache, tr
    ensures var key := Key(id, locale);
      key in old(cache.entries) ==>
        && r == Translation(old(cache.entries)[key].title, old(cache.entries)[key].excerpt, old(cache.entries)[key].content, true)
        && cache.entries == old(cache.entries) && tr.sent == old(tr.sent)
    ensures Key(id, locale) !in old(cache.entries) && !tr.hasKey ==>
      r == Translation(title, excerpt, content, false) && cache.entries == old(cache.entries) && tr.sent == old(tr.sent)
    ensures Key(id, locale) !in old(cache.entries) && tr.hasKey ==>
      && r == Translation(TranslateOne(title, locale, true, tr.answer), TranslateOne(excerpt, locale, true, tr.answer),
                          TranslateOne(content, locale, true, tr.answer), false)
      && cache.entries == old(cache.entries)[Key(id, locale) := CacheEntry(r.title, r.excerpt, r.content, now)]
      && tr.sent == old(tr.sent) + SentBy([title], locale, true) + SentBy([excerpt], locale, true) + SentBy([content], locale, true)
  {
    var key := Key(id, locale);
    var snapshot := cache.entries;
    if key in snapshot {
      var e := snapshot[key];
      return Translation(e.title, e.excerpt, e.content, true);
    }
    if !tr.hasKey {
      return Translation(title, excerpt, content, false);
    }
    var lang := locale;
    var t := TranslateText(tr, title, lang);
    var x := TranslateText(tr, excerpt, lang);
    var c := TranslateText(tr, content, lang);
    snapshot := snapshot[key := CacheEntry(t, x, c, now)];
    cache.entries := snapshot;
    r := Translation(t, x, c, false);
  }

  /** `translatePostSummary`: like `translatePost` for title and excerpt only; a fresh
      record is stored with an empty content. */
  method TranslatePostSummary(cache: TranslationCache, tr: Translator, id: string, title: string,
                              excerpt: string, locale: string, now: int) returns (r: Summary)
    modifies cache, tr
    ensures var key := Key(id, locale);
      key in old(cache.entries) ==>
        && r == Summary(old(cache.entries)[key].title, old(cache.entries)[key].excerpt)
        && cache.entries == old(cache.entries) && tr.sent == old(tr.sent)
    ensures Key(id, locale) !in old(cache.entries) && !tr.hasKey ==>
      r == Summary(title, excerpt) && cache.entries == old(cache.entries) && tr.sent == old(tr.sent)
    ensures Key(id, locale) !in old(cache.entries) && tr.hasKey ==>
      && r == Summary(TranslateOne(title, locale, true, tr.answer), TranslateOne(excerpt, locale, true, tr.answer))
      && cache.entries == old(cache.entries)[Key(id, locale) := CacheEntry(r.title, r.excerpt, "", now)]
      && tr.sent == old(tr.sent) + SentBy([title], locale, true) + SentBy([excerpt], locale, true)
  {
    var key := Key(id, locale);
    var snapshot := cache.entries;
    if key in snapshot {
      return Summary(snapshot[key].title, snapshot[key].excerpt);
    }
    if !tr.hasKey {
      return Summary(title, excerpt);
    }
    var lang := locale;
    var t := TranslateText(tr, title, lang);
    var x := TranslateText(tr, excerpt, lang);
    snapshot := snapshot[key := CacheEntry(t, x, "", now)];
    cache.entries := snapshot;
    r := Summary(t, x);
  }

  /** A list view that translated a post's summary makes the detail view answer from the
      cache with an empty content and no further request: the summary-only record is a
      hit. */
  method SummaryThenDetail(cache: TranslationCache, tr: Translator, id: string, title: string,
                           excerpt: string, content: string, locale: string, now: int) returns (s: Summary, d: Translation)
    requires Key(id, locale) !in cache.entries && tr.hasKey
    modifies cache, tr
    ensures d == Translation(s.title, s.excerpt, "", true)
    ensures tr.sent == old(tr.sent) + SentBy([title], locale, true) + SentBy([excerpt], locale, true)
  {
    s := TranslatePostSummary(cache, tr, id, title, excerpt, locale, now);
    d := TranslatePost(cache, tr, id, title, excerpt, content, locale, now);
  }

  /** Translating the same post twice asks the service once: the second answer is the first
      one, now marked as cached. */
  method DetailTwice(cache: TranslationCache, tr: Translator, id: string, title: string,
                     excerpt: string, content: string, locale: string, now: int) returns (first: Translation, second: Translation)
    requires Key(id, locale) !in cache.entries && tr.hasKey
    modifies cache, tr
    ensures !first.cached && second.cached
    ensures second == first.(cached := true)
    ensures tr.sent == old(tr.sent) + SentBy([title], locale, true) + SentBy([excerpt], locale, true) + SentBy([content], locale, true)
  {
    first := TranslatePost(cache, tr, id, title, excerpt, content, locale, now);
    second := TranslatePost(cache, tr, id, title, excerpt, content, locale, now);
  }

  // ---------------------------------------------------------------- summaries in bulk

  /** The part of a post that the list view translates. */
  datatype PostRef = PostRef(id: string, title: string, excerpt: string)

  predicate Cached(entries: map<string, CacheEntry>, p: PostRef, locale: string) {
    Key(p.id, locale) in entries
  }

  /** `uncachedIndices` after the first `n` posts: the indices, in increasing order, of the
      posts with no record. */
  function Uncached(posts: seq<PostRef>, entries: map<string, CacheEntry>, locale: string, n: nat): (u: seq<nat>)
    requires n <= |posts|
    ensures forall k :: 0 <= k < |u| ==> u[k] < n && !Cached(entries, posts[u[k]], locale)
    ensures forall k, k' :: 0 <= k < k' < |u| ==> u[k] < u[k']
    ensures forall i :: 0 <= i < n && !Cached(entries, posts[i], locale) ==> i in u
  {
    if n == 0 then []
    else
      var u := Uncached(posts, entries, locale, n - 1);
      if Cached(entries, posts[n - 1], locale) then u else u + [n - 1]
  }

  /** The titles (or excerpts) of the uncached posts, in input order. */
  function Titles(posts: seq<PostRef>, u: seq<nat>): (r: seq<string>)
    requires forall k :: 0 <= k < |u| ==> u[k] < |posts|
    ensures |r| == |u| && forall k :: 0 <= k < |u| ==> r[k] == posts[u[k]].title
  {
    seq(|u|, k requires 0 <= k < |u| => posts[u[k]].title)
  }

  function Excerpts(posts: seq<PostRef>, u: seq<nat>): (r: seq<string>)
    requires forall k :: 0 <= k < |u| ==> u[k] < |posts|
    ensures |r| == |u| && forall k :: 0 <= k < |u| ==> r[k] == posts[u[k]].excerpt
  {
    seq(|u|, k requires 0 <= k < |u| => posts[u[k]].excerpt)
  }

  /** `value || fallback` for strings. */
  function NonEmptyOr(value: string, fallback: string): string {
    if value != "" then value else fallback
  }

  /** No later uncached post in the first `b` carries the same id as the one at batch
      position `k`: its write is the one that stays. */
  predicate LastInBatch(posts: seq<PostRef>, u: seq<nat>, k: int, b: int)
    requires 0 <= k < b <= |u| && forall k' :: 0 <= k' < |u| ==> u[k'] < |posts|
  {
    forall k' :: k < k' < b ==> posts[u[k']].id != posts[u[k]].id
  }

  function Ids(posts: seq<PostRef>): set<string> {
    set p | p in posts :: p.id
  }

  /** The cache keys of the posts in one locale. */
  function PostKeys(posts: seq<PostRef>, locale: string): set<string> {
    set p | p in posts :: Key(p.id, locale)
  }

  /** Every record of `before` is still in `after`, unchanged. */
  predicate KeepsRecords(before: map<string, CacheEntry>, after: map<string, CacheEntry>) {
    forall key :: key in before ==> key in after && after[key] == before[key]
  }

  /** `after` adds records only under the keys of `posts`. */
  predicate AddsOnlyPostKeys(before: map<string, CacheEntry>, after: map<string, CacheEntry>, posts: seq<PostRef>, locale: string) {
    forall key :: key in after ==> key in before || key in PostKeys(posts, locale)
  }

  /** The summary-only record for a translated pair. */
  function SummaryRecord(s: Summary, now: int): CacheEntry {
    CacheEntry(s.title, s.excerpt, "", now)
  }

  /** The summary a cached post answers with. */
  function CachedSummary(entries: map<string, CacheEntry>, p: PostRef, locale: string): Summary
    requires Cached(entries, p, locale)
  {
    Summary(entries[Key(p.id, locale)].title, entries[Key(p.id, locale)].excerpt)
  }

  /** Every cached post is answered from its record. */
  predicate CachedAnswered(posts: seq<PostRef>, entries: map<string, CacheEntry>, locale: string, result: map<string, Summary>) {
    forall p :: p in posts && Cached(entries, p, locale) ==>
      p.id in result && result[p.id] == CachedSummary(entries, p, locale)
  }

  /** The summary stored for the uncached post at batch position `k`: the translated pair,
      each falling back to the post's own text. */
  function Fresh(posts: seq<PostRef>, u: seq<nat>, k: int, ts: seq<string>, xs: seq<string>): Summary
    requires 0 <= k < |u| == |ts| == |xs| && forall k' :: 0 <= k' < |u| ==> u[k'] < |posts|
  {
    Summary(NonEmptyOr(ts[k], posts[u[k]].title), NonEmptyOr(xs[k], posts[u[k]].excerpt))
  }

  /** The cached posts among the first `n` are answered from their records. */
  predicate AnsweredUpTo(posts: seq<PostRef>, entries: map<string, CacheEntry>, locale: string, n: nat,
                         result: map<string, Summary>)
    requires n <= |posts|
  {
    forall j :: 0 <= j < n && Cached(entries, posts[j], locale) ==>
      posts[j].id in result && result[posts[j].id] == CachedSummary(entries, posts[j], locale)
  }

  /** One step of the first pass keeps its invariant. */
  lemma CollectStep(posts: seq<PostRef>, entries: map<string, CacheEntry>, locale: string, i: nat,
                    result: map<string, Summary>)
    requires i < |posts| && result.Keys <= Ids(posts) && AnsweredUpTo(posts, entries, locale, i, result)
    ensures var p := posts[i];
      var next := if Cached(entries, p, locale) then result[p.id := CachedSummary(entries, p, locale)] else result;
      next.Keys <= Ids(posts) && AnsweredUpTo(posts, entries, locale, i + 1, next)
  {
    var p := posts[i];
    assert p.id in Ids(posts);
  }

  /** The first pass of `translatePostSummaries`: answer the cached posts from their
      records and list the indices of the others. */
  method CollectCached(posts: seq<PostRef>, entries: map<string, CacheEntry>, locale: string)
    returns (result: map<string, Summary>, uncached: seq<nat>)
    ensures uncached == Uncached(posts, entries, locale, |posts|)
    ensures result.Keys <= Ids(posts)
    ensures CachedAnswered(posts, entries, locale, result)
  {
    result := map[];
    uncached := [];
    for i := 0 to |posts|
      invariant uncached == Uncached(posts, entries, locale, i)
      invariant result.Keys <= Ids(posts)
      invariant AnsweredUpTo(posts, entries, locale, i, result)
    {
      var post := posts[i];
      var key := Key(post.id, locale);
      CollectStep(posts, entries, locale, i, result);
      if key in entries {
        result := result[post.id := Summary(entries[key].title, entries[key].excerpt)];
      } else {
        uncached := uncached + [i];
      }
    }
    CachedPostsAnswered(posts, entries, locale, result);
  }

  lemma CachedPostsAnswered(posts: seq<PostRef>, entries: map<string, CacheEntry>, locale: string, result: map<string, Summary>)
    requires AnsweredUpTo(posts, entries, locale, |posts|, result)
    ensures CachedAnswered(posts, entries, locale, result)
  {
    forall p | p in posts && Cached(entries, p, locale)
      ensures p.id in result && result[p.id] == CachedSummary(entries, p, locale)
    {
      var j :| 0 <= j < |posts| && posts[j] == p;
    }
  }

  /** After `b` steps of the no-key pass, each uncached post not overwritten by a later one
      with the same id answers with its own texts. */
  predicate OriginalsKept(posts: seq<PostRef>, u: seq<nat>, b: int, result: map<string, Summary>)
    requires 0 <= b <= |u| && forall k :: 0 <= k < |u| ==> u[k] < |posts|
  {
    forall k :: 0 <= k < b && LastInBatch(posts, u, k, b) ==>
      posts[u[k]].id in result && result[posts[u[k]].id] == Summary(posts[u[k]].title, posts[u[k]].excerpt)
  }

  lemma OriginalsKeptStep(posts: seq<PostRef>, u: seq<nat>, b: int, result: map<string, Summary>)
    requires 0 <= b < |u| && forall k :: 0 <= k < |u| ==> u[k] < |posts|
    requires OriginalsKept(posts, u, b, result)
    ensures var p := posts[u[b]];
      OriginalsKept(posts, u, b + 1, result[p.id := Summary(p.title, p.excerpt)])
  {
    var p := posts[u[b]];
    var result' := result[p.id := Summary(p.title, p.excerpt)];
    forall k | 0 <= k < b + 1 && LastInBatch(posts, u, k, b + 1)
      ensures posts[u[k]].id in result' && result'[posts[u[k]].id] == Summary(posts[u[k]].title, posts[u[k]].excerpt)
    {
      if k < b {
        assert LastInBatch(posts, u, k, b);
        assert p.id != posts[u[k]].id;
      }
    }
  }

  /** The no-key pass: every uncached post answers with its own texts. */
  method KeepOriginals(posts: seq<PostRef>, entries: map<string, CacheEntry>, locale: string, u: seq<nat>,
                       answered: map<string, Summary>) returns (result: map<string, Summary>)
    requires u == Uncached(posts, entries, locale, |posts|)
    requires answered.Keys <= Ids(posts) && CachedAnswered(posts, entries, locale, answered)
    ensures result.Keys == Ids(posts) && CachedAnswered(posts, entries, locale, result)
    ensures OriginalsKept(posts, u, |u|, result)
  {
    result := answered;
    for b := 0 to |u|
      invariant result.Keys <= Ids(posts) && CachedAnswered(posts, entries, locale, result)
      invariant forall k :: 0 <= k < b ==> posts[u[k]].id in result
      invariant OriginalsKept(posts, u, b, result)
    {
      var post := posts[u[b]];
      OriginalsKeptStep(posts, u, b, result);
      AnswerUncached(posts, entries, locale, result, post, Summary(post.title, post.excerpt));
      result := result[post.id := Summary(post.title, post.excerpt)];
    }
    UncachedCoverIds(posts, entries, locale, u, result);
  }

  /** After `b` steps of the last pass, each uncached post not overwritten by a later one
      with the same id has its translated pair answered and recorded. */
  predicate LatestStored(posts: seq<PostRef>, u: seq<nat>, ts: seq<string>, xs: seq<string>, locale: string, now: int,
                         b: int, result: map<string, Summary>, written: map<string, CacheEntry>)
    requires 0 <= b <= |u| == |ts| == |xs| && forall k :: 0 <= k < |u| ==> u[k] < |posts|
  {
    forall k :: 0 <= k < b && LastInBatch(posts, u, k, b) ==>
      && posts[u[k]].id in result && result[posts[u[k]].id] == Fresh(posts, u, k, ts, xs)
      && Key(posts[u[k]].id, locale) in written
      && written[Key(posts[u[k]].id, locale)] == SummaryRecord(Fresh(posts, u, k, ts, xs), now)
  }

  lemma LatestStoredStep(posts: seq<PostRef>, u: seq<nat>, ts: seq<string>, xs: seq<string>, locale: string, now: int,
                         b: int, result: map<string, Summary>, written: map<string, CacheEntry>)
    requires 0 <= b < |u| == |ts| == |xs| && forall k :: 0 <= k < |u| ==> u[k] < |posts|
    requires LatestStored(posts, u, ts, xs, locale, now, b, result, written)
    ensures var id, s := posts[u[b]].id, Fresh(posts, u, b, ts, xs);
      LatestStored(posts, u, ts, xs, locale, now, b + 1, result[id := s], written[Key(id, locale) := SummaryRecord(s, now)])
  {
    var id, s := posts[u[b]].id, Fresh(posts, u, b, ts, xs);
    var result', written' := result[id := s], written[Key(id, locale) := SummaryRecord(s, now)];
    forall k | 0 <= k < b + 1 && LastInBatch(posts, u, k, b + 1)
      ensures && posts[u[k]].id in result' && result'[posts[u[k]].id] == Fresh(posts, u, k, ts, xs)
              && Key(posts[u[k]].id, locale) in written'
              && written'[Key(posts[u[k]].id, locale)] == SummaryRecord(Fresh(posts, u, k, ts, xs), now)
    {
      if k < b {
        assert LastInBatch(posts, u, k, b);
        assert posts[u[b]].id != posts[u[k]].id;
        if Key(posts[u[k]].id, locale) == Key(id, locale) {
          KeyInjective(posts[u[k]].id, id, locale);
        }
      }
    }
  }

  lemma AnswerUncached(posts: seq<PostRef>, entries: map<string, CacheEntry>, locale: string,
                       result: map<string, Summary>, p: PostRef, s: Summary)
    requires p in posts && !Cached(entries, p, locale)
    requires result.Keys <= Ids(posts) && CachedAnswered(posts, entries, locale, result)
    ensures result[p.id := s].Keys <= Ids(posts) && CachedAnswered(posts, entries, locale, result[p.id := s])
  {
  }

  lemma RecordUncached(posts: seq<PostRef>, entries: map<string, CacheEntry>, locale: string,
                       written: map<string, CacheEntry>, p: PostRef, e: CacheEntry)
    requires p in posts && !Cached(entries, p, locale)
    requires KeepsRecords(entries, written) && AddsOnlyPostKeys(entries, written, posts, locale)
    ensures var w := written[Key(p.id, locale) := e];
      KeepsRecords(entries, w) && AddsOnlyPostKeys(entries, w, posts, locale)
  {
  }

  /** The invariant of the pass after the two batch calls, after `b` steps. */
  predicate StoredUpTo(posts: seq<PostRef>, entries: map<string, CacheEntry>, locale: string, u: seq<nat>,
                       ts: seq<string>, xs: seq<string>, now: int, b: int,
                       result: map<string, Summary>, written: map<string, CacheEntry>)
    requires 0 <= b <= |u| == |ts| == |xs| && forall k :: 0 <= k < |u| ==> u[k] < |posts|
  {
    && result.Keys <= Ids(posts) && CachedAnswered(posts, entries, locale, result)
    && KeepsRecords(entries, written) && AddsOnlyPostKeys(entries, written, posts, locale)
    && (forall k :: 0 <= k < b ==> posts[u[k]].id in result)
    && LatestStored(posts, u, ts, xs, locale, now, b, result, written)
  }

  /** One step of that pass keeps its invariant. */
  lemma StoredStep(posts: seq<PostRef>, entries: map<string, CacheEntry>, locale: string, u: seq<nat>,
                   ts: seq<string>, xs: seq<string>, now: int, b: int,
                   result: map<string, Summary>, written: map<string, CacheEntry>)
    requires u == Uncached(posts, entries, locale, |posts|) && 0 <= b < |u| == |ts| == |xs|
    requires StoredUpTo(posts, entries, locale, u, ts, xs, now, b, result, written)
    ensures var p, s := posts[u[b]], Fresh(posts, u, b, ts, xs);
      StoredUpTo(posts, entries, locale, u, ts, xs, now, b + 1,
                 result[p.id := s], written[Key(p.id, locale) := SummaryRecord(s, now)])
  {
    var p, s := posts[u[b]], Fresh(posts, u, b, ts, xs);
    LatestStoredStep(posts, u, ts, xs, locale, now, b, result, written);
    AnswerUncached(posts, entries, locale, result, p, s);
    RecordUncached(posts, entries, locale, written, p, SummaryRecord(s, now));
  }

  /** The pass after the two batch calls: each uncached post answers with its translated
      pair and gets a summary-only record. */
  method StoreTranslations(posts: seq<PostRef>, entries: map<string, CacheEntry>, locale: string, u: seq<nat>,
                           answered: map<string, Summary>, ts: seq<string>, xs: seq<string>, now: int)
    returns (result: map<string, Summary>, written: map<string, CacheEntry>)
    requires u == Uncached(posts, entries, locale, |posts|) && |ts| == |u| && |xs| == |u|
    requires answered.Keys <= Ids(posts) && CachedAnswered(posts, entries, locale, answered)
    ensures result.Keys == Ids(posts) && CachedAnswered(posts, entries, locale, result)
    ensures KeepsRecords(entries, written) && AddsOnlyPostKeys(entries, written, posts, locale)
    ensures LatestStored(posts, u, ts, xs, locale, now, |u|, result, written)
  {
    result := answered;
    written := entries;
    for b := 0 to |u|
      invariant StoredUpTo(posts, entries, locale, u, ts, xs, now, b, result, written)
    {
      var post := posts[u[b]];
      var summary := Summary(NonEmptyOr(ts[b], post.title), NonEmptyOr(xs[b], post.excerpt));
      StoredStep(posts, entries, locale, u, ts, xs, now, b, result, written);
      result := result[post.id := summary];
      written := written[Key(post.id, locale) := SummaryRecord(summary, now)];
    }
    UncachedCoverIds(posts, entries, locale, u, result);
  }

  /** `translatePostSummaries`: every input id gets a summary. A cached post gets its record;
      when nothing is uncached nothing is sent or written. Without a key the uncached posts
      keep their texts and nothing is written. Otherwise the uncached titles and the
      uncached excerpts go out in two batch calls, in input order, and each uncached post
      gets its translated pair and a summary-only record; where ids repeat, the last
      occurrence wins, and no existing record changes. */
  method TranslatePostSummaries(cache: TranslationCache, tr: Translator, posts: seq<PostRef>, locale: string, now: int)
    returns (result: map<string, Summary>)
    modifies cache, tr
    ensures result.Keys == Ids(posts)
    ensures CachedAnswered(posts, old(cache.entries), locale, result)
    ensures var u := Uncached(posts, old(cache.entries), locale, |posts|);
      u == [] || !tr.hasKey ==> cache.entries == old(cache.entries) && tr.sent == old(tr.sent)
    ensures var u := Uncached(posts, old(cache.entries), locale, |posts|);
      !tr.hasKey ==> OriginalsKept(posts, u, |u|, result)
    ensures var u := Uncached(posts, old(cache.entries), locale, |posts|);
      var ts := BatchOutcome(Titles(posts, u), locale, true, tr.answer);
      var xs := BatchOutcome(Excerpts(posts, u), locale, true, tr.answer);
      u != [] && tr.hasKey ==>
        && tr.sent == old(tr.sent) + SentBy(Titles(posts, u), locale, true) + SentBy(Excerpts(posts, u), locale, true)
        && KeepsRecords(old(cache.entries), cache.entries)
        && AddsOnlyPostKeys(old(cache.entries), cache.entries, posts, locale)
        && LatestStored(posts, u, ts, xs, locale, now, |u|, result, cache.entries)
  {
    var snapshot := cache.entries;
    var uncached;
    result, uncached := CollectCached(posts, snapshot, locale);
    if |uncached| == 0 {
      AllCachedCoversIds(posts, snapshot, locale, result);
      return;
    }
    if !tr.hasKey {
      result := KeepOriginals(posts, snapshot, locale, uncached, result);
      return;
    }
    var lang := locale;
    var titles := Titles(posts, uncached);
    var excerpts := Excerpts(posts, uncached);
    var translatedTitles := TranslateBatch(tr, titles, lang);
    var translatedExcerpts := TranslateBatch(tr, excerpts, lang);
    result, snapshot := StoreTranslations(posts, snapshot, locale, uncached, result, translatedTitles, translatedExcerpts, now);
    cache.entries := snapshot;
  }

  lemma AllCachedCoversIds(posts: seq<PostRef>, entries: map<string, CacheEntry>, locale: string, result: map<string, Summary>)
    requires Uncached(posts, entries, locale, |posts|) == []
    requires result.Keys <= Ids(posts) && CachedAnswered(posts, entries, locale, result)
    ensures result.Keys == Ids(posts)
  {
    var u := Uncached(posts, entries, locale, |posts|);
    forall p | p in posts ensures p.id in result {
      var j :| 0 <= j < |posts| && posts[j] == p;
      assert j !in u;
      assert Cached(entries, p, locale);
    }
  }

  lemma UncachedCoverIds(posts: seq<PostRef>, entries: map<string, CacheEntry>, locale: string, u: seq<nat>, result: map<string, Summary>)
    requires u == Uncached(posts, entries, locale, |posts|)
    requires result.Keys <= Ids(posts) && CachedAnswered(posts, entries, locale, result)
    requires forall k :: 0 <= k < |u| ==> posts[u[k]].id in result
    ensures result.Keys == Ids(posts)
  {
    forall p | p in posts ensures p.id in result {
      var j :| 0 <= j < |posts| && posts[j] == p;
      if !Cached(entries, p, locale) {
        assert j in u;
        var k :| 0 <= k < |u| && u[k] == j;
      }
    }
  }
}
