/** url.URL: the parts of a URL, updated in place, and its text form. */
module Urls {
  import opened Text

  /** The fields of a url.URL the model keeps (user information is not modelled). */
  datatype UrlParts = UrlParts(scheme: Str, opaqueText: Str, host: Str, path: Str, rawQuery: Str, fragment: Str)

  /** url.URL.String, without the escaping it applies to host, path and fragment. */
  function Render(p: UrlParts): Str
  {
    (if |p.scheme| > 0 then p.scheme + ":" else []) +
    (if |p.opaqueText| > 0 then p.opaqueText else Hierarchical(p)) +
    (if |p.rawQuery| > 0 then "?" + p.rawQuery else []) +
    (if |p.fragment| > 0 then "#" + p.fragment else [])
  }

  /** The "//host/path" part of a URL without an opaque part. */
  function Hierarchical(p: UrlParts): Str
  {
    var authority := if (|p.scheme| > 0 || |p.host| > 0) && (|p.host| > 0 || |p.path| > 0) then "//" + p.host else [];
    var slash := if |p.path| > 0 && p.path[0] != '/' && |p.host| > 0 then "/" else [];
    authority + slash + p.path
  }

  class Url {
    var scheme: Str
    var opaqueText: Str
    var host: Str
    var path: Str
    var rawQuery: Str
    var fragment: Str

    /** The URL url.Parse returned. */
    constructor (p: UrlParts)
      ensures Parts() == p
    {
      scheme, opaqueText, host, path, rawQuery, fragment := p.scheme, p.opaqueText, p.host, p.path, p.rawQuery, p.fragment;
    }

    function Parts(): UrlParts
      reads this
    {
      UrlParts(scheme, opaqueText, host, path, rawQuery, fragment)
    }

    function String(): Str
      reads this
    {
      Render(Parts())
    }
  }
}
