/** `getLocale` of `src/i18n/server.ts`: the locale a server component renders in, read from
    the `locale` cookie, then the `x-locale` header, then `zh`. The cookie store and the
    header store are parameters. */
module ServerLocale {
  import opened Wrappers
  import opened Middleware

  /** The cookie when it names a locale, else the header when it does, else `zh`. */
  function GetLocale(cookie: Option<string>, header: Option<string>): (r: string)
    ensures IsLocale(r)
    ensures Supported(cookie) ==> r == cookie.value
    ensures !Supported(cookie) ==> r == (if Supported(header) then header.value else "zh")
  {
    if cookie == Some("en") || cookie == Some("zh") then cookie.value
    else if header == Some("en") || header == Some("zh") then header.value
    else "zh"
  }

  /** Values that are neither `en` nor `zh` never come through: the answer is always one of
      the supported values offered, or `zh`. */
  lemma NoInvalidLocaleLeaks(cookie: Option<string>, header: Option<string>)
    ensures var r := GetLocale(cookie, header);
      (Supported(cookie) && r == cookie.value) || (Supported(header) && r == header.value) || r == "zh"
  {
  }

  /** A server component sees the locale the middleware resolved, whether it reads the
      cookie the middleware set or, without a usable cookie, the `x-locale` header. */
  lemma AgreesWithMiddleware(req: Request, resp: Response, cookie: Option<string>)
    requires resp.xLocale == Resolve(req) && resp.setCookie.value == resp.xLocale
    requires cookie == Some(resp.setCookie.value) || !Supported(cookie)
    ensures GetLocale(cookie, Some(resp.xLocale)) == Resolve(req)
  {
  }
}
