/**
 * The backend file fetch (SftpManager.getFile), as a scripted stand-in:
 * for each path, the chunks of bytes it writes to the stream it is given,
 * followed by how the call ends — normally, with a NotFoundException, or
 * with any other exception.
 */
module Backend {
  import opened Wrappers
  import opened Http

  /** How a call to getFile ends. */
  datatype Outcome = Ok | NotFound(message: string) | Fail(message: string)

  /** What getFile does for one path: the writes it makes, then how it ends. */
  datatype Script = Script(chunks: seq<seq<byte>>, outcome: Outcome)

  /** The bytes of all chunks, in order. */
  function Flatten(chunks: seq<seq<byte>>): seq<byte> {
    if chunks == [] then [] else chunks[0] + Flatten(chunks[1..])
  }

  /** Writing one more chunk appends its bytes to what was written before. */
  lemma {:induction false} FlattenAppend(chunks: seq<seq<byte>>, c: seq<byte>)
    ensures Flatten(chunks + [c]) == Flatten(chunks) + c
  {
    if chunks != [] {
      assert (chunks + [c])[1..] == chunks[1..] + [c];
      FlattenAppend(chunks[1..], c);
    } else {
      assert chunks + [c] == [c];
    }
  }

  /** The sum of the chunk lengths. */
  function TotalLength(chunks: seq<seq<byte>>): nat {
    if chunks == [] then 0 else |chunks[0]| + TotalLength(chunks[1..])
  }

  /** The flattened stream holds exactly as many bytes as the chunks together. */
  lemma {:induction false} FlattenLength(chunks: seq<seq<byte>>)
    ensures |Flatten(chunks)| == TotalLength(chunks)
  {
    if chunks != [] {
      FlattenLength(chunks[1..]);
    }
  }

  /**
   * The SFTP manager as the servlet sees it: `serve` says what happens for
   * each path and `requests` records the paths it was asked for, in order.
   */
  class SftpManager {
    const serve: string -> Script
    var requests: seq<string>

    constructor (serve: string -> Script)
      ensures this.serve == serve && requests == []
    {
      this.serve := serve;
      requests := [];
    }

    /**
     * getFile(path, out): writes the scripted chunks for `path` to `out`,
     * one write per chunk, then ends as scripted.
     */
    method GetFile(path: string, out: CountingSink) returns (outcome: Outcome)
      requires out.Valid()
      modifies this, out, out.out
      ensures out.Valid() && out.base == old(out.base)
      ensures out.written == old(out.written) + Flatten(serve(path).chunks)
      ensures out.out.State() == old(out.out.State()).(body := old(out.out.body) + Flatten(serve(path).chunks))
      ensures outcome == serve(path).outcome
      ensures requests == old(requests) + [path]
    {
      requests := requests + [path];
      var script := serve(path);
      var i := 0;
      while i < |script.chunks|
        invariant 0 <= i <= |script.chunks|
        invariant out.Valid() && out.base == old(out.base)
        invariant out.written == old(out.written) + Flatten(script.chunks[..i])
        invariant out.out.State() == old(out.out.State()).(body := old(out.out.body) + Flatten(script.chunks[..i]))
        invariant requests == old(requests) + [path]
      {
        out.Write(script.chunks[i]);
        FlattenAppend(script.chunks[..i], script.chunks[i]);
        assert script.chunks[..i + 1] == script.chunks[..i] + [script.chunks[i]];
        i := i + 1;
      }
      assert script.chunks[..i] == script.chunks;
      outcome := script.outcome;
    }
  }
}
