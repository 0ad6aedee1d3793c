# HttpToSftpServlet in Dafny

A verified model of the request pipeline of `HttpToSftpServlet.doGet` from
the Sage Bionetworks file proxy. This servlet bridges HTTP GET requests to an
SFTP backend. For one request it does four things:

- It translates the request path into a backend path. It finds the first
  `/sftp/` and keeps everything from that prefix's trailing `/` onward.
- It sets `Content-Disposition: attachment; filename="<name>"` when the query
  has a `fileName`. It sets `Content-Type` when the query has a `contentType`.
- It lets the SFTP manager write the file into the response body through a
  counting stream. Then it sets `Content-Length` to the count and the status
  to 200.
- It maps a `NotFoundException` to 404 and any other exception to 500. Both
  carry the exception's message. The missing-prefix `IllegalArgumentException`
  is one of the "other" exceptions.

Files:

- `wrappers.dfy` (`Wrappers`): `Option`, `Result` and the `byte` type.
- `java_text.dfy` (`JavaText`): `String.indexOf`, and the decimal text of the
  byte count (`"" + long`). It also holds `ParseDecimal`, a reference reader of decimal
  text that is not part of the servlet. It serves only as the inverse that `DecimalString` is proved against.
- `header_syntax.dfy` (`HeaderSyntax`): the quoted-string of section 3.2.6 of
  RFC 7230. This is how a client reads the `filename` parameter of
  section 4.1 of RFC 6266.
- `http.dfy` (`Http`): the response as a class (`ServletResponse`: headers,
  status, error message, body). It also holds the counting stream as a class
  (`CountingSink`, Guava's `CountingOutputStream`). The sink's `Valid()`
  invariant says the count is the number of bytes forwarded and the body ends
  with exactly those bytes.
- `backend.dfy` (`Backend`): `SftpManager.getFile` as a scripted
  collaborator. Each path maps to the chunks it writes and then how the call
  ends: `Ok`, `NotFound(msg)` or `Fail(msg)`. The class records every path it
  was asked for.
- `servlet.dfy` (`SftpServlet`): the constants, path translation, header
  synthesis, the catch clauses and two views of `doGet`. `Handle` is a pure
  specification of one request. `DoGet` is the imperative method, step for
  step as in the source. Its postcondition says that it leaves the response
  and the manager exactly as `Handle` says.
- `servlet_properties.dfy` (`SftpServletProperties`): what a request does to a
  fresh response. This covers routing, headers, `Content-Length`, status,
  error mapping, partial failure, and the `/sftp/reports/q1.csv` example.

The backend, URL parsing and the servlet container are inputs. The request
path and the query map are parameters. The backend is a function from path
to script (`SftpManager.serve`).

## Model

All source cells refer to `src/main/java/org/sagebionetworks/file/proxy/servlet/HttpToSftpServlet.java`.

| member | source | states |
|---|---|---|
| JavaText.IndexOf | src/main/java/org/sagebionetworks/file/proxy/servlet/HttpToSftpServlet.java:83 | `indexOf` gives -1 iff the prefix does not occur; otherwise it gives the first index where it occurs |
| JavaText.IndexFrom | src/main/java/org/sagebionetworks/file/proxy/servlet/HttpToSftpServlet.java:83 | searching from `from` finds an occurrence at or after `from` with none between, or -1 when none follows |
| JavaText.DecimalString | src/main/java/org/sagebionetworks/file/proxy/servlet/HttpToSftpServlet.java:94 | the Content-Length text is one or more decimal digits with no leading zero |
| JavaText.DecimalRoundTrip | src/main/java/org/sagebionetworks/file/proxy/servlet/HttpToSftpServlet.java:94 | reading the Content-Length text back gives the byte count that was written |
| JavaText.DecimalStringInjective | src/main/java/org/sagebionetworks/file/proxy/servlet/HttpToSftpServlet.java:94 | different byte counts give different Content-Length values |
| Http.ServletResponse.constructor | src/main/java/org/sagebionetworks/file/proxy/servlet/HttpToSftpServlet.java:58-59 | the response starts with no headers, no status, no error and an empty body |
| Http.ServletResponse.SetHeader | src/main/java/org/sagebionetworks/file/proxy/servlet/HttpToSftpServlet.java:76-80 | setHeader replaces that one header's value; status, error and body are unchanged |
| Http.ServletResponse.SetStatus | src/main/java/org/sagebionetworks/file/proxy/servlet/HttpToSftpServlet.java:95 | setStatus records the code; headers, error and body are unchanged |
| Http.ServletResponse.SendError | src/main/java/org/sagebionetworks/file/proxy/servlet/HttpToSftpServlet.java:99-104 | sendError records the code and message; headers and the already-written body stay |
| Http.ServletResponse.Write | src/main/java/org/sagebionetworks/file/proxy/servlet/HttpToSftpServlet.java:90-92 | a write to the response stream appends its bytes to the body and changes nothing else |
| Http.CountingSink.constructor | src/main/java/org/sagebionetworks/file/proxy/servlet/HttpToSftpServlet.java:90 | a new counting stream wraps the response with count 0 and nothing written, and its invariant holds |
| Http.CountingSink.Write | src/main/java/org/sagebionetworks/file/proxy/servlet/HttpToSftpServlet.java:90-92 | each write forwards the same bytes to the body and grows the count by their length; the invariant is kept |
| Http.CountingSink.GetCount | src/main/java/org/sagebionetworks/file/proxy/servlet/HttpToSftpServlet.java:94 | getCount is the number of bytes that passed through the stream |
| Backend.FlattenAppend | src/main/java/org/sagebionetworks/file/proxy/servlet/HttpToSftpServlet.java:92 | one more chunk written appends exactly its bytes to the stream so far |
| Backend.FlattenLength | src/main/java/org/sagebionetworks/file/proxy/servlet/HttpToSftpServlet.java:92-94 | the bytes streamed number exactly the sum of the chunk lengths |
| Backend.SftpManager.constructor | src/main/java/org/sagebionetworks/file/proxy/servlet/HttpToSftpServlet.java:50-55 | the injected manager serves by its script and has not been asked for anything yet |
| Backend.SftpManager.GetFile | src/main/java/org/sagebionetworks/file/proxy/servlet/HttpToSftpServlet.java:92 | getFile is asked once for the path; all scripted chunks pass in order through the counting stream into the body; then it ends as scripted |
| SftpServlet.TranslatePath | src/main/java/org/sagebionetworks/file/proxy/servlet/HttpToSftpServlet.java:83-87 | it fails with "Path does not contain: /sftp/" iff the prefix is absent; otherwise the backend path is a suffix of the request path starting with '/' |
| SftpServlet.ContentDisposition | src/main/java/org/sagebionetworks/file/proxy/servlet/HttpToSftpServlet.java:77 | the value is `attachment; filename="`, then the name unchanged, then `"`; an RFC 7230 reader recovers the name only when every character is qdtext (see DispositionNameReadBackIff) |
| SftpServlet.SetRequestHeaders | src/main/java/org/sagebionetworks/file/proxy/servlet/HttpToSftpServlet.java:71-81 | Content-Disposition is set from fileName and Content-Type from contentType when present; every other header is untouched |
| SftpServlet.Caught | src/main/java/org/sagebionetworks/file/proxy/servlet/HttpToSftpServlet.java:97-105 | NotFoundException maps to 404 and any other exception to 500, each carrying its message; headers and body are kept |
| SftpServlet.DoGet | src/main/java/org/sagebionetworks/file/proxy/servlet/HttpToSftpServlet.java:57-106 | doGet leaves the response and the manager's request log exactly as the specification `Handle` says |
| SftpServletProperties.TranslatePathAt | src/main/java/org/sagebionetworks/file/proxy/servlet/HttpToSftpServlet.java:83-87 | if the first "/sftp/" is at index i, the backend path is path[i+5..], which is "/" followed by everything after the prefix |
| SftpServletProperties.FetchesTranslatedPath | src/main/java/org/sagebionetworks/file/proxy/servlet/HttpToSftpServlet.java:83-92 | when the prefix is present, the backend is asked exactly once, for exactly that suffix |
| SftpServletProperties.MissingPrefixRejected | src/main/java/org/sagebionetworks/file/proxy/servlet/HttpToSftpServlet.java:83-86 | without the prefix the backend is never asked; the result is 500 with "Path does not contain: /sftp/", an empty body and no Content-Length |
| SftpServletProperties.MissingPrefixKeepsRequestHeaders | src/main/java/org/sagebionetworks/file/proxy/servlet/HttpToSftpServlet.java:75-87 | headers are set before the prefix check, so a request without the prefix carries exactly the headers its query asks for |
| SftpServletProperties.DispositionIffFileName | src/main/java/org/sagebionetworks/file/proxy/servlet/HttpToSftpServlet.java:75-78 | Content-Disposition is present iff fileName is in the query, and its value is `attachment; filename="` + name + `"` |
| SftpServletProperties.ContentTypeIffParameter | src/main/java/org/sagebionetworks/file/proxy/servlet/HttpToSftpServlet.java:79-81 | Content-Type is present iff contentType is in the query, and it equals the parameter verbatim |
| SftpServletProperties.DispositionNameReadBackIff | src/main/java/org/sagebionetworks/file/proxy/servlet/HttpToSftpServlet.java:48 | because the name is not escaped, an RFC 7230 quoted-string reader recovers it exactly iff every character is qdtext |
| SftpServletProperties.SuccessReportsLength | src/main/java/org/sagebionetworks/file/proxy/servlet/HttpToSftpServlet.java:90-95 | when getFile returns normally: status 200, no error, the body is the chunks in order, and Content-Length reads back as the total bytes (0 for an empty file) |
| SftpServletProperties.BackendFailureMapped | src/main/java/org/sagebionetworks/file/proxy/servlet/HttpToSftpServlet.java:92-104 | a backend NotFound gives 404 and any other failure 500, each with the message verbatim and one fetch only; bytes written before the failure stay and no Content-Length is set |
| SftpServletProperties.OkOnlyAfterNormalReturn | src/main/java/org/sagebionetworks/file/proxy/servlet/HttpToSftpServlet.java:92-95 | status 200 is set iff the prefix is present and getFile returns normally, and Content-Length is set iff status 200 is |
| SftpServletProperties.ReportExample | src/main/java/org/sagebionetworks/file/proxy/servlet/HttpToSftpServlet.java:71-96 | GET /sftp/reports/q1.csv?fileName=q1.csv&contentType=text/csv with a 1234-byte file gives the full expected response |

## Left out

- Rebuilding the URL from `getRequestURL` and `getQueryString`, and parsing it with `UrlData` (lines 62-70), are left out: the parser is an external library. The path and the query map are parameters. A repeated query key is whatever that parser left in the map. A failure of `UrlData` at line 68 is not modelled either. Such a failure would answer 500 before any header is set.
- A query key present with a null value counts as absent in Java (`get` returns null). The model's query map has no nulls, so it does not model that case.
- `NotFoundException` and other exception messages are strings. A null `getMessage()` is not modelled.
- The real `SftpManager` (SFTP protocol, connections, authentication) is a foreign network client. It becomes a scripted function from path to chunks plus an outcome.
- Failures of the response stream itself are not modelled. These are an `IOException` from `getOutputStream`, from a write to a disconnected client, or from `flushBuffer` (line 96). Only failures raised by the backend are.
- `flushBuffer` (line 96) has no effect on the modelled response state. Buffering and committing are container behaviour.
- Once the response is committed, a container ignores `setHeader` and `setStatus`. In the running servlet, the Content-Length (line 94) and the 200 (line 95) therefore reach the client only when the whole body fit in the response buffer. The model does not capture committing. `SuccessReportsLength` and `OkOnlyAfterNormalReturn` are statements about the modelled response record, not about what the client receives.
- How `sendError` acts on a response that is already committed or partly written is not modelled. The container may clear the buffer, show an error page, or throw `IllegalStateException`. The model records the status and message and keeps the body.
- Header names are compared as exact strings. The container's case-insensitive header handling is not modelled.
- The count is an unbounded `nat`. The `long` counter's overflow beyond 2^63-1 bytes is not modelled.
- Streaming and backpressure are not modelled: the body is a sequence that grows by appends.
- Logging (lines 98 and 102), Guice `@Inject`/`@Singleton`, `serialVersionUID` and the unused `KEY_CONTENT_SIZE` have no behavioural content.
- Concurrent requests are left out because no state is shared between requests.
- Path translation never yields a not-found. A missing prefix throws `IllegalArgumentException` (line 85), and the catch-all at lines 101-104 turns it into 500. Only the backend's `NotFoundException` gives 404 (lines 97-100).
- The file name is put into `Content-Disposition` without escaping, as in the code. `DispositionNameReadBackIff` states the resulting limitation instead of changing the behaviour.
