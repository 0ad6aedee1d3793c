/**
 * The servlet container's side of a request: the response the servlet
 * fills in (headers, status, error message, body), and the counting
 * stream the servlet wraps around the response body
 * (Guava's CountingOutputStream).
 */
module Http {
  import opened Wrappers

  /** HttpServletResponse.SC_OK */
  const StatusOk: int := 200
  /** HttpServletResponse.SC_NOT_FOUND */
  const StatusNotFound: int := 404
  /** HttpServletResponse.SC_INTERNAL_SERVER_ERROR */
  const StatusInternalServerError: int := 500

  /**
   * What a response holds at one moment. `status` is None while the
   * handler has set no status (the container's default then applies);
   * `error` is the message given to sendError.
   */
  datatype ResponseState = ResponseState(
    headers: map<string, string>,
    status: Option<int>,
    error: Option<string>,
    body: seq<byte>)

  /** A response as the container hands it to the servlet. */
  const Fresh := ResponseState(map[], None, None, [])

  /** The HttpServletResponse of one request. */
  class ServletResponse {
    var headers: map<string, string>
    var status: Option<int>
    var error: Option<string>
    var body: seq<byte>

    function State(): ResponseState
      reads this
    {
      ResponseState(headers, status, error, body)
    }

    constructor ()
      ensures State() == Fresh
    {
      headers, status, error, body := map[], None, None, [];
    }

    /** setHeader: replaces any earlier value of the header; nothing else changes. */
    method SetHeader(name: string, value: string)
      modifies this
      ensures State() == old(State()).(headers := old(headers)[name := value])
    {
      headers := headers[name := value];
    }

    /** setStatus: records the status code; nothing else changes. */
    method SetStatus(code: int)
      modifies this
      ensures State() == old(State()).(status := Some(code))
    {
      status := Some(code);
    }

    /** sendError: records the status code and the error message; headers and body stay. */
    method SendError(code: int, message: string)
      modifies this
      ensures State() == old(State()).(status := Some(code), error := Some(message))
    {
      status, error := Some(code), Some(message);
    }

    /** A write to the response's output stream: appends to the body; nothing else changes. */
    method Write(data: seq<byte>)
      modifies this
      ensures State() == old(State()).(body := old(body) + data)
    {
      body := body + data;
    }
  }

  /**
   * An output stream that forwards every write to the response body and
   * counts the bytes that passed through it. `written` is the sequence of
   * those bytes and `base` what the body held when the stream was made.
   */
  class CountingSink {
    const out: ServletResponse
    var count: nat
    ghost var written: seq<byte>
    ghost var base: seq<byte>

    /** The count is the number of bytes forwarded, and the body ends with exactly those bytes. */
    ghost predicate Valid()
      reads this, out
    {
      out.body == base + written && count == |written|
    }

    constructor (out: ServletResponse)
      ensures Valid() && this.out == out
      ensures written == [] && base == out.body
    {
      this.out := out;
      count := 0;
      written := [];
      base := out.body;
    }

    /** Forwards `data` unchanged to the response body and adds its length to the count. */
    method Write(data: seq<byte>)
      requires Valid()
      modifies this, out
      ensures Valid()
      ensures written == old(written) + data && base == old(base)
      ensures count == old(count) + |data|
      ensures out.State() == old(out.State()).(body := old(out.body) + data)
    {
      out.Write(data);
      count := count + |data|;
      written := written + data;
    }

    /** getCount: the number of bytes written through this stream. */
    method GetCount() returns (n: nat)
      requires Valid()
      ensures n == |written|
    {
      n := count;
    }
  }
}
