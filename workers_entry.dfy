/**
 * The edge responder: a fetch handler that serves one static HTML page for
 * the site root and `/index.html`, and a 404 for every other path.
 *
 * The handler receives the request with its URL already split into its
 * parts; only the pathname is consulted.
 */
module WorkersEntry {
  import opened JsRuntime

  datatype Header = Header(name: string, value: string)

  /** The parts of an incoming request the runtime hands over. */
  datatype Request = Request(httpMethod: string, pathname: string, search: string, headers: seq<Header>)

  /** The init object of the Response constructor; a missing `status`
      member is None. */
  datatype ResponseInit = ResponseInit(status: Option<int>, headers: seq<Header>)

  datatype Response = Response(status: int, headers: seq<Header>, body: string)

  /** Status a Response gets when its init object names none (section 6.4
      of the WHATWG Fetch Standard). */
  const DefaultStatus: int := 200

  const NotFoundStatus: int := 404

  const NotFoundBody: string := "Resource not available"

  const HtmlContentType: Header := Header("content-type", "text/html;charset=UTF-8")

  /** A status whose response must not carry a body: 204, 205 and 304
      (section 2.2.3 of the WHATWG Fetch Standard). */
  predicate IsNullBodyStatus(status: int) {
    status == 204 || status == 205 || status == 304
  }

  /** `new Response(body, init)` with a body that is a string, never null.
      The constructor throws a RangeError for a status outside 200 to 599
      and a TypeError for a null-body status given with a body (section 6.4
      of the WHATWG Fetch Standard); callers must avoid both. */
  function NewResponse(body: string, init: ResponseInit): (r: Response)
    requires init.status.Some? ==> 200 <= init.status.value <= 599 && !IsNullBodyStatus(init.status.value)
    ensures r.body == body && r.headers == init.headers
    ensures init.status.None? ==> r.status == DefaultStatus
    ensures init.status.Some? ==> r.status == init.status.value
  {
    Response(match init.status case None => DefaultStatus case Some(s) => s, init.headers, body)
  }

  // ---------------------------------------------------------------------
  // buildHtmlPage

  /** `text` has `part` somewhere inside it. */
  predicate Contains(text: string, part: string) {
    exists i {:trigger text[i..]} :: 0 <= i <= |text| - |part| && text[i..][..|part|] == part
  }

  /** The lines of the page's template literal: the document head up to
      the style sheet, the style rules, and the rest of the document. */
  const PageLines: seq<string> := HeadLines + StyleLines + BodyLines

  const HeadLines: seq<string> := [
    "<!DOCTYPE html>",
    "<html>",
    "<head>",
    "  <meta charset=\"utf-8\">",
    "  <meta name=\"viewport\" content=\"width=device-width,initial-scale=1\">",
    "  <title>CF Workers Vite App</title>",
    "  <style>"
  ]

  const StyleLines: seq<string> := [
    "    * { margin: 0; padding: 0; box-sizing: border-box; }",
    "    body {",
    "      font-family: -apple-system, BlinkMacSystemFont, 'Segoe UI', sans-serif;",
    "      background: linear-gradient(135deg, #667eea 0%, #764ba2 100%);",
    "      min-height: 100vh;",
    "      display: flex;",
    "      align-items: center;",
    "      justify-content: center;",
    "    }",
    "    .wrapper {",
    "      background: white;",
    "      padding: 3rem;",
    "      border-radius: 12px;",
    "      box-shadow: 0 20px 60px rgba(0,0,0,0.3);",
    "      max-width: 600px;",
    "    }",
    "    h1 {",
    "      color: #667eea;",
    "      margin-bottom: 1.5rem;",
    "      font-size: 2rem;",
    "    }",
    "    .success-badge {",
    "      background: #10b981;",
    "      color: white;",
    "      padding: 0.5rem 1rem;",
    "      border-radius: 6px;",
    "      display: inline-block;",
    "      margin-bottom: 1.5rem;",
    "      font-weight: 600;",
    "    }",
    "    p {",
    "      color: #4b5563;",
    "      line-height: 1.6;",
    "      margin-bottom: 1rem;",
    "    }"
  ]

  const BodyLines: seq<string> := [
    "  </style>",
    "</head>",
    "<body>",
    "  <div class=\"wrapper\">",
    "    <h1>🎉 Cloudflare Workers Deployment</h1>",
    "    <div class=\"success-badge\">✓ Active and Running</div>",
    "    <p>This Vite application was successfully built and deployed to Cloudflare Workers.</p>",
    "    <p>During the build process, all CI environment variables were logged to the console for debugging purposes.</p>",
    "  </div>",
    "</body>",
    "</html>"
  ]

  /** Position of the heading line in PageLines. */
  const HeadingLine: nat := |HeadLines| + |StyleLines| + 4

  /** Lines joined by line breaks, as a template literal written over
      several lines reads. */
  function JoinLines(lines: seq<string>): string {
    if lines == [] then ""
    else if |lines| == 1 then lines[0]
    else lines[0] + "\n" + JoinLines(lines[1..])
  }

  /** `buildHtmlPage`: one constant document, from its doctype to its
      closing tag. */
  function BuildHtmlPage(): (page: string)
    ensures |page| >= 15 && page[..15] == "<!DOCTYPE html>"
    ensures |page| >= 7 && page[|page| - 7..] == "</html>"
  {
    assert PageLines[0] == HeadLines[0] == "<!DOCTYPE html>";
    assert PageLines[|PageLines| - 1] == BodyLines[|BodyLines| - 1] == "</html>";
    JoinLinesEnds(PageLines);
    JoinLines(PageLines)
  }

  /** Every line of a joined text is inside it. */
  lemma {:induction false} JoinLinesContains(lines: seq<string>, k: nat)
    requires k < |lines|
    ensures Contains(JoinLines(lines), lines[k])
  {
    var text := JoinLines(lines);
    if k == 0 {
      assert text[0..][..|lines[0]|] == lines[0];
    } else {
      var rest := JoinLines(lines[1..]);
      JoinLinesContains(lines[1..], k - 1);
      var i :| 0 <= i <= |rest| - |lines[k]| && rest[i..][..|lines[k]|] == lines[k];
      var offset := |lines[0]| + 1;
      assert text == (lines[0] + "\n") + rest;
      assert text[offset + i..] == rest[i..];
    }
  }

  /** A joined text starts with its first line and ends with its last. */
  lemma {:induction false} JoinLinesEnds(lines: seq<string>)
    requires |lines| > 0
    ensures |JoinLines(lines)| >= |lines[0]| && JoinLines(lines)[..|lines[0]|] == lines[0]
    ensures |JoinLines(lines)| >= |lines[|lines| - 1]|
    ensures JoinLines(lines)[|JoinLines(lines)| - |lines[|lines| - 1]|..] == lines[|lines| - 1]
  {
    if |lines| > 1 {
      JoinLinesEnds(lines[1..]);
      var rest := JoinLines(lines[1..]);
      assert JoinLines(lines) == (lines[0] + "\n") + rest;
    }
  }

  /** Containment carries over from a part to the whole. */
  lemma ContainsTransitive(text: string, middle: string, part: string)
    requires Contains(text, middle) && Contains(middle, part)
    ensures Contains(text, part)
  {
    var i :| 0 <= i <= |text| - |middle| && text[i..][..|middle|] == middle;
    var j :| 0 <= j <= |middle| - |part| && middle[j..][..|part|] == part;
    assert forall t :: 0 <= t < |part| ==> text[i + j..][..|part|][t] == middle[j..][..|part|][t] by {
      forall t | 0 <= t < |part| ensures text[i + j..][..|part|][t] == middle[j..][..|part|][t] {
        assert middle[j + t] == text[i..][..|middle|][j + t];
      }
    }
  }

  /** The heading line names the deployment. */
  lemma HeadingNamesDeployment()
    ensures Contains(PageLines[HeadingLine], "Cloudflare Workers Deployment")
  {
    var heading := BodyLines[HeadingLine - |HeadLines| - |StyleLines|];
    assert PageLines[HeadingLine] == heading;
    assert heading[10..][..29] == "Cloudflare Workers Deployment";
  }

  /** The page carries the deployment heading. */
  lemma PageShowsDeployment()
    ensures Contains(BuildHtmlPage(), "Cloudflare Workers Deployment")
  {
    JoinLinesContains(PageLines, HeadingLine);
    HeadingNamesDeployment();
    ContainsTransitive(BuildHtmlPage(), PageLines[HeadingLine], "Cloudflare Workers Deployment");
  }

  // ---------------------------------------------------------------------
  // handleIncomingRequest

  /** `handleIncomingRequest`: the page for exactly `/` and `/index.html`,
      with an HTML content type and the default status; a 404 with a plain
      body and no headers of its own for any other pathname. */
  function HandleIncomingRequest(req: Request): (r: Response)
    ensures r.status == 200 <==> (req.pathname == "/" || req.pathname == "/index.html")
    ensures r.status == 200 ==> r.headers == [HtmlContentType] && r.body == BuildHtmlPage()
    ensures r.status != 200 ==> r.status == 404 && r.headers == [] && r.body == "Resource not available"
  {
    var pagePath := req.pathname;
    if pagePath == "/" || pagePath == "/index.html" then
      NewResponse(BuildHtmlPage(), ResponseInit(None, [HtmlContentType]))
    else
      NewResponse(NotFoundBody, ResponseInit(Some(NotFoundStatus), []))
  }

  /** `/index.html` is answered exactly as `/` is. */
  lemma IndexServesRoot(req: Request)
    requires req.pathname == "/index.html"
    ensures HandleIncomingRequest(req) == HandleIncomingRequest(req.(pathname := "/"))
  {
  }

  /** The answer depends on the pathname alone: neither the method, the
      query string nor the headers are consulted. */
  lemma OnlyPathnameMatters(a: Request, b: Request)
    requires a.pathname == b.pathname
    ensures HandleIncomingRequest(a) == HandleIncomingRequest(b)
  {
  }

  /** The comparison is exact: case variants and near misses of the two
      page paths are not found. */
  lemma NearMissesAreNotFound(req: Request)
    requires req.pathname in {"/INDEX.HTML", "/Index.html", "/index.htm", "/index.html/", "//", "", "/index"}
    ensures HandleIncomingRequest(req).status == 404
    ensures HandleIncomingRequest(req).body == NotFoundBody
  {
  }

  /** Every request gets one of exactly two responses. */
  lemma RoutingIsExhaustive(req: Request)
    ensures var r := HandleIncomingRequest(req);
      || r == Response(200, [HtmlContentType], BuildHtmlPage())
      || r == Response(404, [], NotFoundBody)
  {
  }

  /** The not-found body is the bare phrase, with no closing period. */
  lemma NotFoundBodyHasNoPeriod()
    ensures |NotFoundBody| == 22 && NotFoundBody[|NotFoundBody| - 1] != '.'
  {
  }
}
