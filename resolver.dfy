/**
  pkg/maker/resolver.go: completing a template location into a clone URL. Parsing with
  `net/url` is a parameter of the model; printing is modelled for URLs whose scheme and
  host are both set, which is all this operation prints.
 */
module Resolver {
  import opened Wrappers

  /**
    A parsed URL: `host` holds any user information too, and `tail` the query and fragment
    as they are printed.
   */
  datatype URL = URL(scheme: string, nonHierarchical: string, host: string, path: string, tail: string)

  const DefaultScheme := "https"
  const DefaultHost := "github.com"

  /** `URL.String` for a URL with a scheme and a host. */
  function Render(u: URL): string
    requires u.scheme != "" && u.host != ""
  {
    if u.nonHierarchical != "" then u.scheme + ":" + u.nonHierarchical + u.tail
    else u.scheme + "://" + u.host + (if u.path != "" && u.path[0] != '/' then "/" else "") + u.path + u.tail
  }

  /** The two field updates: a missing scheme becomes https, a missing host github.com. */
  function Complete(u: URL): (r: URL)
    ensures r.scheme != "" && r.host != ""
    ensures u.scheme == "" ==> r.scheme == DefaultScheme
    ensures u.host == "" ==> r.host == DefaultHost
    ensures u.scheme != "" ==> r.scheme == u.scheme
    ensures u.host != "" ==> r.host == u.host
    ensures r.nonHierarchical == u.nonHierarchical && r.path == u.path && r.tail == u.tail
  {
    var u := if u.scheme == "" then u.(scheme := DefaultScheme) else u;
    if u.host == "" then u.(host := DefaultHost) else u
  }

  /** `ResolveTemplateURL`: what does not parse is returned as it is. */
  function ResolveTemplateURL(template: string, parse: string -> Option<URL>): (r: string)
    ensures parse(template).None? ==> r == template
  {
    match parse(template)
    case None => template
    case Some(u) => Render(Complete(u))
  }

  /** Completing is idempotent, and leaves a URL that has a scheme and a host as it is. */
  lemma CompleteKeepsComplete(u: URL)
    ensures Complete(Complete(u)) == Complete(u)
    ensures u.scheme != "" && u.host != "" ==> Complete(u) == u
  {
  }

  /** A template that parses into a URL with scheme and host, and prints back as itself, is returned unchanged. */
  lemma ResolveCompleteURL(template: string, parse: string -> Option<URL>)
    requires parse(template).Some?
    requires var u := parse(template).value; u.scheme != "" && u.host != "" && Render(u) == template
    ensures ResolveTemplateURL(template, parse) == template
  {
    CompleteKeepsComplete(parse(template).value);
  }

  /** A path with no scheme and no host becomes a path on github.com over https. */
  lemma ResolveBarePath(template: string, path: string, parse: string -> Option<URL>)
    requires parse(template) == Some(URL("", "", "", path, ""))
    requires path != [] && path[0] != '/'
    ensures ResolveTemplateURL(template, parse) == DefaultScheme + "://" + DefaultHost + "/" + path
  {
    var u := URL(DefaultScheme, "", DefaultHost, path, "");
    assert Complete(parse(template).value) == u;
  }

  /** A scheme-relative location keeps its host and gets https. */
  lemma ResolveSchemeRelative(template: string, host: string, path: string, parse: string -> Option<URL>)
    requires parse(template) == Some(URL("", "", host, path, ""))
    requires host != "" && (path == [] || path[0] == '/')
    ensures ResolveTemplateURL(template, parse) == DefaultScheme + "://" + host + path
  {
    var u := URL(DefaultScheme, "", host, path, "");
    assert Complete(parse(template).value) == u;
  }
}
