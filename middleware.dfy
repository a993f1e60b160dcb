/** The locale middleware of `src/middleware.ts`. Every page request is given a locale, from
    the first of four sources that decides: the `lang` query parameter, the first label of
    the host name, the `locale` cookie, and the `Accept-Language` header. The locale is
    passed on in the `x-locale` header and remembered in the `locale` cookie. */
module Middleware {
  import opened Wrappers
  import opened Text

  /** The parts of a request the middleware reads; `None` for an absent parameter, header or
      cookie. */
  datatype Request = Request(
    lang: Option<string>,
    host: Option<string>,
    cookie: Option<string>,
    acceptLanguage: Option<string>)

  datatype Cookie = Cookie(name: string, value: string, path: string, maxAge: int, sameSite: string)

  /** The `x-locale` header and the cookie set on the response. */
  datatype Response = Response(xLocale: string, setCookie: Cookie)

  const LocaleCookie := "locale"
  /** Thirty days, in seconds. */
  const CookieMaxAge := 60 * 60 * 24 * 30

  predicate IsLocale(s: string) {
    s == "en" || s == "zh"
  }

  /** A value that names one of the two locales exactly. */
  predicate Supported(v: Option<string>) {
    v.Some? && IsLocale(v.value)
  }

  /** The subdomain stage: the first dot-separated label of the host, lower-cased, when the
      host has at least two labels and that label names a locale. */
  function SubdomainLocale(host: string): (r: Option<string>)
    ensures r.Some? ==> IsLocale(r.value)
  {
    var parts := Split(host, '.');
    if |parts| >= 2 then
      var sub := Lower(parts[0]);
      if sub == "en" then Some("en") else if sub == "zh" then Some("zh") else None
    else None
  }

  /** The header stage: `zh` when the lower-cased header mentions `zh` anywhere. */
  function HeaderLocale(acceptLanguage: string): (r: string)
    ensures IsLocale(r)
  {
    if Contains(Lower(acceptLanguage), "zh") then "zh" else "en"
  }

  /** The locale of a request: the first stage that decides, in priority order. */
  function Resolve(req: Request): (locale: string)
    ensures IsLocale(locale)
  {
    if Supported(req.lang) then req.lang.value
    else if SubdomainLocale(req.host.GetOr("")).Some? then SubdomainLocale(req.host.GetOr("")).value
    else if Supported(req.cookie) then req.cookie.value
    else HeaderLocale(req.acceptLanguage.GetOr(""))
  }

  /** `middleware`: a nullable `locale` filled in by the first stage that decides, then
      forced into `en`/`zh`, then written to the header and the cookie. */
  method HandleRequest(req: Request) returns (resp: Response)
    ensures IsLocale(resp.xLocale) && resp.xLocale == Resolve(req)
    ensures resp.setCookie == Cookie(LocaleCookie, resp.xLocale, "/", 2592000, "lax")
  {
    var host := req.host.GetOr("");
    var locale: Option<string> := None;

    if req.lang == Some("en") || req.lang == Some("zh") {
      locale := req.lang;
    }

    if locale.None? {
      var parts := Split(host, '.');
      if |parts| >= 2 {
        var sub := Lower(parts[0]);
        if sub == "en" {
          locale := Some("en");
        } else if sub == "zh" {
          locale := Some("zh");
        }
      }
    }

    if locale.None? {
      if req.cookie == Some("en") || req.cookie == Some("zh") {
        locale := req.cookie;
      }
    }

    if locale.None? {
      var acceptLang := req.acceptLanguage.GetOr("");
      locale := Some(if Contains(Lower(acceptLang), "zh") then "zh" else "en");
    }

    var resolved := if locale != Some("en") then "zh" else "en";
    resp := Response(resolved, Cookie(LocaleCookie, resolved, "/", CookieMaxAge, "lax"));
  }

  /** The first label of a host, as the subdomain stage reads it. */
  function FirstLabel(host: string): string
    requires '.' in host
  {
    host[..IndexOf(host, '.')]
  }

  /** The subdomain stage decides exactly when the host has a dot and the text before the
      first dot is `en` or `zh` in any letter case. */
  lemma SubdomainRule(host: string)
    ensures SubdomainLocale(host).Some? <==> '.' in host && IsLocale(Lower(FirstLabel(host)))
    ensures SubdomainLocale(host).Some? ==> SubdomainLocale(host).value == Lower(FirstLabel(host))
  {
    SplitHead(host, '.');
  }

  /** A supported `lang` parameter wins over every other source. */
  lemma QueryOverridesAll(a: Request, b: Request)
    requires Supported(a.lang) && b.lang == a.lang
    ensures Resolve(a) == Resolve(b) == a.lang.value
  {
  }

  /** Any other `lang` value is as good as none. */
  lemma InvalidQueryIgnored(req: Request)
    requires !Supported(req.lang)
    ensures Resolve(req) == Resolve(req.(lang := None))
  {
  }

  /** Without a usable `lang`, a host such as `en.example.com` decides, whatever the cookie
      and the header say. */
  lemma SubdomainOverridesCookieAndHeader(req: Request)
    requires !Supported(req.lang) && req.host.Some? && '.' in req.host.value
    requires IsLocale(Lower(FirstLabel(req.host.value)))
    ensures Resolve(req) == Lower(FirstLabel(req.host.value))
    ensures forall cookie, header :: Resolve(req.(cookie := cookie, acceptLanguage := header)) == Resolve(req)
  {
    SubdomainRule(req.host.value);
  }

  /** With neither `lang` nor the host deciding, an `en`/`zh` cookie wins over the header. */
  lemma CookieOverridesHeader(req: Request)
    requires !Supported(req.lang) && SubdomainLocale(req.host.GetOr("")).None? && Supported(req.cookie)
    ensures Resolve(req) == req.cookie.value
    ensures forall header :: Resolve(req.(acceptLanguage := header)) == Resolve(req)
  {
  }

  /** Otherwise the header decides: `zh` exactly when `zh` occurs in it, in any letter case;
      an absent header gives `en`. */
  lemma HeaderDecides(req: Request)
    requires !Supported(req.lang) && SubdomainLocale(req.host.GetOr("")).None? && !Supported(req.cookie)
    ensures var header := Lower(req.acceptLanguage.GetOr(""));
      Resolve(req) == "zh" <==> exists k :: OccursAt(header, "zh", k)
    ensures req.acceptLanguage.None? ==> Resolve(req) == "en"
  {
    ContainsIffOccurs(Lower(req.acceptLanguage.GetOr("")), "zh");
  }

  /** The cookie the middleware sets makes the next request from the same browser resolve to
      the same locale, unless `lang` or the host decides otherwise. */
  lemma LocaleIsSticky(req: Request, next: Request, resp: Response)
    requires resp.xLocale == Resolve(req) && resp.setCookie.value == resp.xLocale
    requires next.cookie == Some(resp.setCookie.value)
    requires !Supported(next.lang) && SubdomainLocale(next.host.GetOr("")).None?
    ensures Resolve(next) == Resolve(req)
  {
  }
}
