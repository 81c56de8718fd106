/** The default-backend error server: `/` renders an error page for the HTTP
    code named by the `X-Code` request header, `/healthz` answers "ok". The
    template engine and the embedded page bytes are opaque: a response says
    which page it carries and with what data, not the bytes. */
module ErrorServer {
  import opened Wrappers
  import opened Strconv

  /** The data handed to the error-page template. */
  datatype TemplateData = TemplateData(errCode: int, errMsg: string)

  /** What a response carries. */
  datatype Body =
    | NoBody                      // nothing written after the status
    | Rendered(data: TemplateData) // the error page rendered with `data`
    | IndexPage                   // the static index page
    | Text(text: string)          // a literal text body

  datatype Response = Response(status: int, body: Body)

  const ParseFailureMessage: string := "unable to get error code"
  const HealthzPath: string := "/healthz"

  /** The codes that get a rendered error page. */
  const PageCodes: set<int> := {400, 401, 403, 404, 500, 503, 504}

  /** The switch of handleErrorPage: the message for each code with a page. */
  function ErrorMessage(code: int): (m: Option<string>)
    ensures m.Some? <==> code in PageCodes
  {
    match code
    case 400 => Some("Bad Request")
    case 401 => Some("Unauthorized Access")
    case 403 => Some("Forbidden")
    case 404 => Some("Not Found")
    case 500 => Some("Internal Server Error")
    case 503 => Some("Service Unavailable")
    case 504 => Some("Gateway Time-out")
    case _ => None
  }

  /** handleErrorPage, given whether the template parsed and the value of the
      `X-Code` header ("" when absent). */
  function HandleErrorPage(templateOk: bool, xCode: string): (r: Response)
    ensures !templateOk ==> r == Response(500, NoBody)
    ensures templateOk && xCode != "" && Atoi(xCode).None? ==>
              r == Response(500, Rendered(TemplateData(500, ParseFailureMessage)))
    ensures templateOk && xCode == "" ==> r == Response(404, IndexPage)
    ensures templateOk && Atoi(xCode).Some? && Atoi(xCode).value in PageCodes ==>
              r == Response(Atoi(xCode).value, Rendered(TemplateData(Atoi(xCode).value, ErrorMessage(Atoi(xCode).value).value)))
    ensures r.body == IndexPage <==>
              templateOk && (xCode == "" || (Atoi(xCode).Some? && Atoi(xCode).value !in PageCodes))
    ensures r.body == IndexPage ==> r.status == 404
    ensures r.body.Rendered? ==> r.body.data.errCode == r.status
    ensures r.status in PageCodes
  {
    if !templateOk then Response(500, NoBody)
    else
      var code :=
        if xCode == "" then Some(0) else Atoi(xCode);
      match code
      case None => Response(500, Rendered(TemplateData(500, ParseFailureMessage)))
      case Some(errorCode) =>
        match ErrorMessage(errorCode)
        case None => Response(404, IndexPage)
        case Some(errMsg) => Response(errorCode, Rendered(TemplateData(errorCode, errMsg)))
  }

  /** A header carrying the decimal form of a code with a page gets that page,
      with that code as its status. */
  lemma PageForCode(code: int)
    requires code in PageCodes
    ensures HandleErrorPage(true, Itoa(code)) ==
            Response(code, Rendered(TemplateData(code, ErrorMessage(code).value)))
  {
    AtoiItoa(code);
  }

  /** Any other int64 code, and a header such as "0", gets the index page. */
  lemma IndexForOtherCode(code: int)
    requires MinInt64 <= code <= MaxInt64 && code !in PageCodes
    ensures HandleErrorPage(true, Itoa(code)) == Response(404, IndexPage)
  {
    AtoiItoa(code);
  }

  /** The `/healthz` handler. */
  function Healthz(): (r: Response)
    ensures r.status == 200 && r.body == Text("ok")
  {
    Response(200, Text("ok"))
  }

  /** The server's mux: `/healthz` exactly goes to the health check, every
      other path to the error page. */
  function Serve(path: string, templateOk: bool, xCode: string): (r: Response)
    ensures path == HealthzPath ==> r == Response(200, Text("ok"))
    ensures r.status == 200 <==> path == HealthzPath
    ensures path != HealthzPath ==> r == HandleErrorPage(templateOk, xCode)
    ensures path != HealthzPath ==> r.status in PageCodes && r.body != Text("ok")
  {
    if path == HealthzPath then Healthz() else HandleErrorPage(templateOk, xCode)
  }
}
