/**
 * What a GET does to a response as the container hands it over (`Fresh`):
 * the routing, header, length, status and error-mapping guarantees of
 * HttpToSftpServlet, stated about `Handle` and therefore about `DoGet`.
 */
module SftpServletProperties {
  import opened Wrappers
  import opened JavaText
  import opened Http
  import opened Backend
  import opened SftpServlet
  import opened HeaderSyntax

  /** The response to a GET on a fresh response. */
  function Get(path: string, params: map<string, string>, serve: string -> Script): Handled {
    Handle(path, params, serve, Fresh)
  }

  /**
   * With the first "/sftp/" at index i, the backend path is the request
   * path from index i + 5 on: "/" followed by everything after the prefix.
   */
  lemma TranslatePathAt(path: string, i: nat)
    requires FirstOccurrence(path, PathPrefix, i)
    ensures TranslatePath(path) == Success(path[i + |PathPrefix| - 1..])
    ensures path[i + |PathPrefix| - 1..] == "/" + path[i + |PathPrefix|..]
  {
  }

  /** The backend is asked exactly once, for exactly the translated path. */
  lemma FetchesTranslatedPath(path: string, params: map<string, string>, serve: string -> Script, i: nat)
    requires FirstOccurrence(path, PathPrefix, i)
    ensures Get(path, params, serve).fetched == [path[i + |PathPrefix| - 1..]]
  {
  }

  /**
   * Without "/sftp/" in the path the backend is never asked; the response
   * is 500 with the missing-prefix message, an empty body and no
   * Content-Length.
   */
  lemma MissingPrefixRejected(path: string, params: map<string, string>, serve: string -> Script)
    requires !Contains(path, PathPrefix)
    ensures Get(path, params, serve).fetched == []
    ensures Get(path, params, serve).response.status == Some(StatusInternalServerError)
    ensures Get(path, params, serve).response.error == Some("Path does not contain: /sftp/")
    ensures Get(path, params, serve).response.body == []
    ensures HeaderContentLength !in Get(path, params, serve).response.headers
  {
    assert MissingPrefixMessage == "Path does not contain: /sftp/";
  }

  /**
   * Content-Disposition is set iff the query has a fileName, whatever the
   * path and the backend do (the header steps run before the prefix check),
   * and its value is the attachment form with the name as given.
   */
  lemma DispositionIffFileName(path: string, params: map<string, string>, serve: string -> Script)
    ensures HeaderContentDisposition in Get(path, params, serve).response.headers <==> KeyFileName in params
    ensures KeyFileName in params ==>
      Get(path, params, serve).response.headers[HeaderContentDisposition]
        == "attachment; filename=\"" + params[KeyFileName] + "\""
  {
  }

  /** Content-Type is set iff the query has a contentType, and then to that value as given. */
  lemma ContentTypeIffParameter(path: string, params: map<string, string>, serve: string -> Script)
    ensures HeaderContentType in Get(path, params, serve).response.headers <==> KeyContentType in params
    ensures KeyContentType in params ==>
      Get(path, params, serve).response.headers[HeaderContentType] == params[KeyContentType]
  {
  }

  /**
   * A request without the prefix carries exactly the headers its query asks
   * for, and no others.
   */
  lemma MissingPrefixKeepsRequestHeaders(path: string, params: map<string, string>, serve: string -> Script)
    requires !Contains(path, PathPrefix)
    ensures forall k :: k in Get(path, params, serve).response.headers <==>
      (k == HeaderContentDisposition && KeyFileName in params) || (k == HeaderContentType && KeyContentType in params)
  {
  }

  /**
   * The file name goes into the disposition value unescaped: the value is
   * `attachment; filename=` and a quoted parameter, and a client reading
   * that parameter as an RFC 7230 quoted-string gets the name back exactly
   * when the name needs no escaping (no '"', no backslash, no control
   * character).
   */
  lemma DispositionNameReadBackIff(fileName: string)
    ensures ContentDisposition(fileName) == "attachment; filename=" + ("\"" + fileName + "\"")
    ensures QuotedStringValue("\"" + fileName + "\"") == Some(fileName) <==> AllQdText(fileName)
  {
    var q := "\"" + fileName + "\"";
    assert q[1..] == fileName + "\"";
    UnquoteVerbatimIff(fileName);
  }

  /**
   * When the backend returns normally: status 200, no error, the body is
   * the scripted chunks in order, and Content-Length reads back as the
   * number of bytes streamed (0 for an empty file).
   */
  lemma SuccessReportsLength(path: string, params: map<string, string>, serve: string -> Script)
    requires Contains(path, PathPrefix)
    requires serve(TranslatePath(path).value).outcome == Ok
    ensures Get(path, params, serve).response.status == Some(StatusOk)
    ensures Get(path, params, serve).response.error == None
    ensures Get(path, params, serve).response.body == Flatten(serve(TranslatePath(path).value).chunks)
    ensures HeaderContentLength in Get(path, params, serve).response.headers
    ensures ParseDecimal(Get(path, params, serve).response.headers[HeaderContentLength])
              == Some(TotalLength(serve(TranslatePath(path).value).chunks))
  {
    var chunks := serve(TranslatePath(path).value).chunks;
    DecimalRoundTrip(|Flatten(chunks)|);
    FlattenLength(chunks);
  }

  /**
   * When the backend throws: 404 for NotFound and 500 for any other failure,
   * with the backend's message as it is; the backend was asked once (no
   * retry); the bytes it wrote before failing stay in the body; and neither
   * Content-Length nor status 200 is set.
   */
  lemma BackendFailureMapped(path: string, params: map<string, string>, serve: string -> Script)
    requires Contains(path, PathPrefix)
    requires !serve(TranslatePath(path).value).outcome.Ok?
    ensures Get(path, params, serve).response.status ==
      Some(if serve(TranslatePath(path).value).outcome.NotFound? then StatusNotFound else StatusInternalServerError)
    ensures Get(path, params, serve).response.error == Some(serve(TranslatePath(path).value).outcome.message)
    ensures Get(path, params, serve).fetched == [TranslatePath(path).value]
    ensures Get(path, params, serve).response.body == Flatten(serve(TranslatePath(path).value).chunks)
    ensures HeaderContentLength !in Get(path, params, serve).response.headers
  {
  }

  /** Status 200 and Content-Length are set exactly when the prefix is present and getFile returns normally. */
  lemma OkOnlyAfterNormalReturn(path: string, params: map<string, string>, serve: string -> Script)
    ensures Get(path, params, serve).response.status == Some(StatusOk)
        <==> Contains(path, PathPrefix) && serve(TranslatePath(path).value).outcome.Ok?
    ensures HeaderContentLength in Get(path, params, serve).response.headers
        <==> Get(path, params, serve).response.status == Some(StatusOk)
  {
  }

  /**
   * GET /sftp/reports/q1.csv?fileName=q1.csv&contentType=text/csv with a
   * backend that writes 1234 bytes for /reports/q1.csv.
   */
  lemma ReportExample(serve: string -> Script)
    requires serve("/reports/q1.csv").outcome == Ok
    requires |Flatten(serve("/reports/q1.csv").chunks)| == 1234
    ensures Get("/sftp/reports/q1.csv", map["fileName" := "q1.csv", "contentType" := "text/csv"], serve)
      == Handled(
           ResponseState(
             map["Content-Disposition" := "attachment; filename=\"q1.csv\"",
                 "Content-Type" := "text/csv",
                 "Content-Length" := "1234"],
             Some(200), None, Flatten(serve("/reports/q1.csv").chunks)),
           ["/reports/q1.csv"])
  {
    var path := "/sftp/reports/q1.csv";
    var params := map["fileName" := "q1.csv", "contentType" := "text/csv"];
    assert TranslatePath(path) == Success("/reports/q1.csv") by {
      assert path[0..6] == PathPrefix;
      TranslatePathAt(path, 0);
    }
    assert DecimalString(1234) == "1234" by {
      assert DecimalString(1) == "1";
      assert DecimalString(12) == "12";
      assert DecimalString(123) == "123";
    }
    assert SetRequestHeaders(map[], params)
        == map["Content-Disposition" := "attachment; filename=\"q1.csv\"", "Content-Type" := "text/csv"] by {
      assert KeyFileName in params && params[KeyFileName] == "q1.csv";
      assert KeyContentType in params && params[KeyContentType] == "text/csv";
      assert ContentDisposition("q1.csv") == "attachment; filename=\"q1.csv\"";
      assert HeaderContentDisposition != HeaderContentType;
    }
  }
}
