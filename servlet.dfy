/**
 * HttpToSftpServlet: answers a GET by translating the request path into a
 * backend path, setting the headers the query asks for, streaming the
 * backend file into the response through a counting stream, and mapping
 * backend failures to HTTP status codes.
 *
 * `Handle` is the specification: what one request does to the response and
 * which paths it asks the backend for. `DoGet` is the servlet's method,
 * proved to do exactly that.
 */
module SftpServlet {
  import opened Wrappers
  import opened JavaText
  import opened Http
  import opened Backend

  const HeaderContentType: string := "Content-Type"
  const HeaderContentDisposition: string := "Content-Disposition"
  const HeaderContentLength: string := "Content-Length"
  const KeyContentType: string := "contentType"
  const KeyFileName: string := "fileName"

  /** The routing prefix that marks where the backend path starts. */
  const PathPrefix: string := "/sftp/"

  /** The message of the exception raised when the prefix is missing. */
  const MissingPrefixMessage: string := "Path does not contain: " + PathPrefix

  /** The text of the disposition pattern before and after its one argument. */
  const DispositionLead: string := "attachment; filename=\""
  const DispositionTail: string := "\""

  /**
   * The backend path: the request path from the last character of the
   * first "/sftp/" on, so that it keeps that prefix's trailing '/'.
   * Fails with the exception's message when the prefix is absent.
   */
  function TranslatePath(path: string): (r: Result<string, string>)
    ensures r.Failure? <==> !Contains(path, PathPrefix)
    ensures r.Failure? ==> r.error == MissingPrefixMessage
    ensures r.Success? ==> |r.value| >= 1 && r.value[0] == '/'
    ensures r.Success? ==> |r.value| <= |path| && path[|path| - |r.value|..] == r.value
  {
    var index := IndexOf(path, PathPrefix);
    if index < 0 then Failure(MissingPrefixMessage)
    else
      assert path[index..index + |PathPrefix|] == PathPrefix;
      assert path[index + |PathPrefix| - 1] == '/';
      Success(path[index + |PathPrefix| - 1..])
  }

  /** The Content-Disposition value for a file name: the name is put between the quotes as it is. */
  function ContentDisposition(fileName: string): (v: string)
    ensures DispositionFileName(v) == Some(fileName)
  {
    DispositionLead + fileName + DispositionTail
  }

  /**
   * The text between the pattern's fixed lead and its closing quote. This is
   * not how an RFC 7230 reader parses the value: see HeaderSyntax.QuotedStringValue.
   */
  function DispositionFileName(v: string): Option<string> {
    if |v| >= |DispositionLead| + |DispositionTail|
       && v[..|DispositionLead|] == DispositionLead
       && v[|v| - |DispositionTail|..] == DispositionTail
    then Some(v[|DispositionLead|..|v| - |DispositionTail|])
    else None
  }

  /**
   * The header steps: Content-Disposition when the query has a fileName,
   * Content-Type when it has a contentType; every other header as before.
   */
  function SetRequestHeaders(h: map<string, string>, params: map<string, string>): (r: map<string, string>)
    ensures KeyFileName in params ==>
      HeaderContentDisposition in r && r[HeaderContentDisposition] == ContentDisposition(params[KeyFileName])
    ensures KeyContentType in params ==>
      HeaderContentType in r && r[HeaderContentType] == params[KeyContentType]
    ensures forall k :: (k != HeaderContentDisposition || KeyFileName !in params)
                     && (k != HeaderContentType || KeyContentType !in params)
                     ==> (k in r <==> k in h) && (k in h ==> r[k] == h[k])
  {
    var h1 := if KeyFileName in params
              then h[HeaderContentDisposition := ContentDisposition(params[KeyFileName])]
              else h;
    if KeyContentType in params then h1[HeaderContentType := params[KeyContentType]] else h1
  }

  /** The catch clauses: a NotFoundException gives 404, any other exception 500, each with its message. */
  function Caught(thrown: Outcome, r: ResponseState): (r': ResponseState)
    requires !thrown.Ok?
    ensures r'.status == Some(if thrown.NotFound? then StatusNotFound else StatusInternalServerError)
    ensures r'.error == Some(thrown.message)
    ensures r'.headers == r.headers && r'.body == r.body
  {
    match thrown
    case NotFound(m) => r.(status := Some(StatusNotFound), error := Some(m))
    case Fail(m) => r.(status := Some(StatusInternalServerError), error := Some(m))
  }

  /** What one GET did: the response afterwards, and the paths given to the backend. */
  datatype Handled = Handled(response: ResponseState, fetched: seq<string>)

  /** The effect of a GET on `path` with query `params`, starting from the response `r0`. */
  function Handle(path: string, params: map<string, string>, serve: string -> Script, r0: ResponseState): Handled {
    var r1 := r0.(headers := SetRequestHeaders(r0.headers, params));
    match TranslatePath(path)
    case Failure(message) => Handled(Caught(Fail(message), r1), [])
    case Success(backendPath) =>
      var script := serve(backendPath);
      var streamed := Flatten(script.chunks);
      var r2 := r1.(body := r1.body + streamed);
      if script.outcome.Ok? then
        Handled(r2.(headers := r2.headers[HeaderContentLength := DecimalString(|streamed|)],
                    status := Some(StatusOk)),
                [backendPath])
      else
        Handled(Caught(script.outcome, r2), [backendPath])
  }

  /**
   * doGet. The try block runs to completion or stops at the first
   * exception, recorded in `thrown` (Ok while none was raised); the catch
   * clauses then map it to an error status.
   */
  method DoGet(path: string, params: map<string, string>, manager: SftpManager, response: ServletResponse)
    modifies manager, response
    ensures response.State() == Handle(path, params, manager.serve, old(response.State())).response
    ensures manager.requests == old(manager.requests) + Handle(path, params, manager.serve, old(response.State())).fetched
  {
    var thrown: Outcome := Ok;
    if KeyFileName in params {
      response.SetHeader(HeaderContentDisposition, ContentDisposition(params[KeyFileName]));
    }
    if KeyContentType in params {
      response.SetHeader(HeaderContentType, params[KeyContentType]);
    }
    var index := IndexOf(path, PathPrefix);
    if index < 0 {
      thrown := Fail(MissingPrefixMessage);
    } else {
      var backendPath := path[index + |PathPrefix| - 1..];
      var out := new CountingSink(response);
      thrown := manager.GetFile(backendPath, out);
      if thrown.Ok? {
        var count := out.GetCount();
        response.SetHeader(HeaderContentLength, DecimalString(count));
        response.SetStatus(StatusOk);
      }
    }
    match thrown
    case Ok =>
    case NotFound(m) => response.SendError(StatusNotFound, m);
    case Fail(m) => response.SendError(StatusInternalServerError, m);
  }
}
