/** Page metadata and favicon checks of pkg/server/fetch. The network, the decompressors
    and the HTML parser are not modelled: a response is its status, its headers and the
    elements of the parsed page in document order, and the decompressor's or parser's
    failure is part of the response. */
module Fetch {
  import opened Base
  import GoStrings

  /** A parsed URL, as much of `net/url.URL` as the rules read. */
  datatype URL = URL(scheme: string, host: string, path: string, rawQuery: string, fragment: string)

  /** `URL.String`, simplified: no escaping, no user-info part, and no "//" before an
      empty host, since a URL without a host has no authority here. */
  function URLString(u: URL): (r: string)
    ensures |r| >= |u.path|
  {
    (if u.scheme != "" then u.scheme + ":" else "")
    + (if u.host != "" then "//" + u.host else "")
    + u.path
    + (if u.rawQuery != "" then "?" + u.rawQuery else "")
    + (if u.fragment != "" then "#" + u.fragment else "")
  }

  /** `u.ResolveReference(&url.URL{Path: "/favicon.ico"})`: an absolute path keeps the
      base's scheme and host and drops its query and fragment. */
  function DefaultFavicon(u: URL): (r: URL)
    ensures r.scheme == u.scheme && r.host == u.host && r.path == "/favicon.ico"
    ensures r.rawQuery == "" && r.fragment == ""
  {
    URL(u.scheme, u.host, "/favicon.ico", "", "")
  }

  /** An element of the parsed page: its tag, its attributes and the text of its
      contents. */
  datatype Element = Element(tag: string, attrs: map<string, string>, text: string)

  datatype Response = Response(
    status: int,
    headers: map<string, string>,
    readerErr: Outcome,
    parseErr: Outcome,
    elements: seq<Element>)

  datatype Document = Document(link: string, title: string, description: string, favicon: string, faviconCheck: bool)

  const ContentEncoding := "Content-Encoding"
  const ContentType := "Content-Type"

  /** `Header.Get`: the value, or "" when the header is absent. */
  function Header(rep: Response, name: string): (r: string)
    ensures name !in rep.headers ==> r == ""
  {
    if name in rep.headers then rep.headers[name] else ""
  }

  /** `Selection.AttrOr(name, "")`. */
  function AttrOr(e: Element, name: string): (r: string)
    ensures name in e.attrs ==> r == e.attrs[name]
    ensures name !in e.attrs ==> r == ""
  {
    if name in e.attrs then e.attrs[name] else ""
  }

  predicate Success(status: int) {
    200 <= status < 300
  }

  // ---------------------------------------------------------------------------------
  // Selection rules

  /** The two element scans of `Fetch`: meta descriptions, and icon links. */
  datatype Rule = DescriptionRule | IconRule

  predicate Selects(rule: Rule, e: Element) {
    match rule
    case DescriptionRule => e.tag == "meta" && AttrOr(e, "name") == "description"
    case IconRule => e.tag == "link" && (AttrOr(e, "rel") == "icon" || AttrOr(e, "rel") == "shortcut icon")
  }

  /** The attribute a rule reads off a selected element. */
  function Attr(rule: Rule): string {
    match rule
    case DescriptionRule => "content"
    case IconRule => "href"
  }

  /** The `EachWithBreak` loop: each selected element overwrites the value, and the loop
      stops at the first non-empty one. */
  function Scan(elems: seq<Element>, rule: Rule, current: string): (r: string)
    ensures r == current || exists i :: 0 <= i < |elems| && Selects(rule, elems[i]) && r == AttrOr(elems[i], Attr(rule))
    decreases |elems|
  {
    if |elems| == 0 then current
    else if Selects(rule, elems[0]) then
      var v := AttrOr(elems[0], Attr(rule));
      if v != "" then v else Scan(elems[1..], rule, v)
    else Scan(elems[1..], rule, current)
  }

  /** The reference reading of the scan: the first selected element whose attribute is
      non-empty. */
  function FirstNonEmpty(elems: seq<Element>, rule: Rule): (r: Option<nat>)
    ensures r.Some? ==> r.value < |elems| && Selects(rule, elems[r.value]) && AttrOr(elems[r.value], Attr(rule)) != ""
    ensures r.Some? ==> forall i :: 0 <= i < r.value ==> !Selects(rule, elems[i]) || AttrOr(elems[i], Attr(rule)) == ""
    ensures r.None? <==> forall i :: 0 <= i < |elems| ==> !Selects(rule, elems[i]) || AttrOr(elems[i], Attr(rule)) == ""
  {
    if |elems| == 0 then None
    else if Selects(rule, elems[0]) && AttrOr(elems[0], Attr(rule)) != "" then Some(0)
    else
      match FirstNonEmpty(elems[1..], rule)
      case None => None
      case Some(k) => Some(k + 1)
  }

  /** The scan starting from "" picks the attribute of the first selected element that
      has a non-empty one, and "" when there is none. */
  lemma {:induction false} ScanIsFirstNonEmpty(elems: seq<Element>, rule: Rule)
    ensures Scan(elems, rule, "") ==
      match FirstNonEmpty(elems, rule)
      case Some(i) => AttrOr(elems[i], Attr(rule))
      case None => ""
  {
    if |elems| > 0 {
      ScanIsFirstNonEmpty(elems[1..], rule);
    }
  }

  /** The text of every title element, concatenated. */
  function Title(elems: seq<Element>): (r: string)
    ensures (forall i :: 0 <= i < |elems| ==> elems[i].tag != "title") ==> r == ""
  {
    if |elems| == 0 then ""
    else (if elems[0].tag == "title" then elems[0].text else "") + Title(elems[1..])
  }

  // ---------------------------------------------------------------------------------
  // Fetch and CheckIcon

  const AcceptedEncodings: set<string> := {"gzip", "br", "compress", "deflate", ""}

  /** `HTMLFetcher.Fetch`. `url` is the request URL or the error building the request
      failed with; `transport` is the response or the client's error. */
  function FetchDocument(url: Result<URL>, transport: Result<Response>): (r: Result<Document>)
    ensures url.Err? ==> r == Err(url.error)
    ensures url.Ok? && transport.Err? ==> r == Err(transport.error)
    ensures url.Ok? && transport.Ok? && !Success(transport.value.status) ==> r == Err(HTTPError(transport.value.status))
    ensures (url.Ok? && transport.Ok? && Success(transport.value.status)
             && Header(transport.value, ContentEncoding) !in AcceptedEncodings) ==>
      r == Err(UnknownContentEncoding(Header(transport.value, ContentEncoding)))
    ensures r.Ok? ==>
      (url.Ok? && transport.Ok? && Success(transport.value.status)
       && Header(transport.value, ContentEncoding) in AcceptedEncodings)
    ensures r.Ok? ==> var elems := transport.value.elements;
      && r.value.link == URLString(url.value)
      && r.value.title == Title(elems)
      && r.value.description == (match FirstNonEmpty(elems, DescriptionRule)
                                 case Some(i) => AttrOr(elems[i], "content")
                                 case None => "")
      && r.value.favicon == (match FirstNonEmpty(elems, IconRule)
                             case Some(i) => AttrOr(elems[i], "href")
                             case None => URLString(DefaultFavicon(url.value)))
      && r.value.favicon != ""
      && !r.value.faviconCheck
  {
    var u :- url;
    var rep :- transport;
    if !Success(rep.status) then Err(HTTPError(rep.status))
    else
      var encoding := Header(rep, ContentEncoding);
      if encoding !in AcceptedEncodings then Err(UnknownContentEncoding(encoding))
      else if (encoding == "gzip" || encoding == "deflate") && rep.readerErr.Some? then Err(rep.readerErr.value)
      else if rep.parseErr.Some? then Err(rep.parseErr.value)
      else
        var elems := rep.elements;
        ScanIsFirstNonEmpty(elems, DescriptionRule);
        ScanIsFirstNonEmpty(elems, IconRule);
        var found := Scan(elems, IconRule, "");
        Ok(Document(URLString(u), Title(elems), Scan(elems, DescriptionRule, ""),
          if found == "" then URLString(DefaultFavicon(u)) else found, false))
  }

  /** `IconFetcher.Check`: a request or transport failure is an error; otherwise the icon
      exists exactly when the status is 2xx and the content type, trimmed and lowercased,
      starts with "image/". */
  function CheckIcon(url: Result<URL>, transport: Result<Response>): (r: (bool, Outcome))
    ensures url.Err? ==> r == (false, Some(url.error))
    ensures url.Ok? && transport.Err? ==> r == (false, Some(transport.error))
    ensures url.Ok? && transport.Ok? ==> r.1.None?
    ensures r.0 <==>
      (url.Ok? && transport.Ok? && Success(transport.value.status)
       && IsImageType(Header(transport.value, ContentType)))
  {
    if url.Err? then (false, Some(url.error))
    else if transport.Err? then (false, Some(transport.error))
    else
      var rep := transport.value;
      if !Success(rep.status) then (false, None)
      else
        var ctype := GoStrings.ToLower(GoStrings.TrimSpace(Header(rep, ContentType)));
        if !GoStrings.HasPrefix(ctype, "image/") then (false, None) else (true, None)
  }

  lemma TrimPadded(s: string)
    requires |s| > 0 && !GoStrings.IsSpace(s[0]) && !GoStrings.IsSpace(s[|s| - 1])
    ensures GoStrings.TrimSpace(" " + s + " ") == s
  {
    var padded := " " + s + " ";
    assert padded[1..] == s + " ";
    assert GoStrings.TrimLeftSpace(padded) == s + " ";
    assert (s + " ")[..|s|] == s;
    assert GoStrings.TrimRightSpace(s + " ") == s;
  }

  /** The content type test of `CheckIcon`. */
  predicate IsImageType(ctype: string) {
    GoStrings.HasPrefix(GoStrings.ToLower(GoStrings.TrimSpace(ctype)), "image/")
  }

  lemma {:induction false} LowerIdempotent(s: string)
    ensures GoStrings.ToLower(GoStrings.ToLower(s)) == GoStrings.ToLower(s)
  {
    var l := GoStrings.ToLower(s);
    assert forall i :: 0 <= i < |l| ==> GoStrings.LowerChar(l[i]) == l[i];
  }

  lemma LowerKeepsNonSpace(c: char)
    requires !GoStrings.IsSpace(c)
    ensures !GoStrings.IsSpace(GoStrings.LowerChar(c))
  {
  }

  /** The content-type test ignores surrounding space and case: padding a content type
      with spaces or lowercasing it does not change the verdict. */
  lemma ContentTypeNormalised(s: string)
    requires |s| > 0 && !GoStrings.IsSpace(s[0]) && !GoStrings.IsSpace(s[|s| - 1])
    ensures IsImageType(" " + s + " ") == IsImageType(s)
    ensures IsImageType(GoStrings.ToLower(s)) == IsImageType(s)
  {
    TrimPadded(s);
    var l := GoStrings.ToLower(s);
    LowerKeepsNonSpace(s[0]);
    LowerKeepsNonSpace(s[|s| - 1]);
    assert GoStrings.TrimSpace(l) == l;
    assert GoStrings.TrimSpace(s) == s;
    LowerIdempotent(s);
  }

  /** `CheckIcon` gives the same answer for a content type, its lower-case form and the
      same type padded with spaces. */
  lemma ContentTypeCaseInsensitive(u: URL, rep: Response, ctype: string)
    requires |ctype| > 0 && !GoStrings.IsSpace(ctype[0]) && !GoStrings.IsSpace(ctype[|ctype| - 1])
    ensures CheckIcon(Ok(u), Ok(rep.(headers := rep.headers[ContentType := " " + ctype + " "])))
         == CheckIcon(Ok(u), Ok(rep.(headers := rep.headers[ContentType := ctype])))
    ensures CheckIcon(Ok(u), Ok(rep.(headers := rep.headers[ContentType := GoStrings.ToLower(ctype)])))
         == CheckIcon(Ok(u), Ok(rep.(headers := rep.headers[ContentType := ctype])))
  {
    ContentTypeNormalised(ctype);
  }

  /** A page with no usable icon link gets the site's /favicon.ico, whatever its
      descriptions say. */
  lemma DefaultFaviconAtRoot(u: URL, rep: Response)
    requires FetchDocument(Ok(u), Ok(rep)).Ok?
    requires forall i :: 0 <= i < |rep.elements| ==> rep.elements[i].tag != "link"
    ensures FetchDocument(Ok(u), Ok(rep)).value.favicon == URLString(URL(u.scheme, u.host, "/favicon.ico", "", ""))
  {
  }
}
