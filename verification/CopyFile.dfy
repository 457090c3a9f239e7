/** Sending a file as an HTTP response in chunks (GSoapInstance::copy_file). */
module CopyFile {
  import opened Bits
  import opened Text

  /** What happens to one call. A file missing from the environment cannot be opened. The n-th
      call of soap_send_raw fails if n == failAt; reading stops short at readLimit, where a
      read error persists (a limit at or beyond the end means no error). soap_end_send returns
      endResult and may leave an error code of its own. */
  datatype Env = Env(file: Opened, headerError: int, failAt: int, sendError: int, endResult: int,
                     endError: Option<int>, readLimit: nat)
  datatype Opened = Missing | Found(bytes: seq<byte>)

  const NOT_FOUND := 404

  /** The error code after soap_end_send. */
  function AfterEnd(env: Env, error: int): int {
    if env.endError.Some? then env.endError.value else error
  }

  /** The bytes a reader can get. */
  function Readable(env: Env): seq<byte>
    requires env.file.Found?
  {
    if env.readLimit < |env.file.bytes| then env.file.bytes[..env.readLimit] else env.file.bytes
  }

  /** The bytes cut into chunks of the buffer size, the last one possibly shorter. */
  function Chunks(s: seq<byte>, size: nat): seq<seq<byte>>
    requires size > 0
    decreases |s|
  {
    if s == [] then [] else if |s| <= size then [s] else [s[..size]] + Chunks(s[size..], size)
  }

  function Concat(chunks: seq<seq<byte>>): seq<byte> {
    if chunks == [] then [] else chunks[0] + Concat(chunks[1..])
  }

  /** An open file: fread returns up to `size` bytes from the current position. */
  class Stream {
    const bytes: seq<byte>
    var pos: nat
    var closes: nat

    constructor (bytes: seq<byte>)
      ensures this.bytes == bytes && pos == 0 && closes == 0
    {
      this.bytes, pos, closes := bytes, 0, 0;
    }

    method Read(size: nat) returns (chunk: seq<byte>)
      requires closes == 0 && pos <= |bytes|
      modifies this`pos
      ensures pos == if old(pos) + size <= |bytes| then old(pos) + size else |bytes|
      ensures chunk == bytes[old(pos)..pos]
    {
      var end := if pos + size <= |bytes| then pos + size else |bytes|;
      chunk := bytes[pos..end];
      pos := end;
    }

    method Close()
      requires closes == 0
      modifies this`closes
      ensures closes == 1
    {
      closes := 1;
    }
  }

  class Soap {
    var sent: seq<seq<byte>>
    var error: int
    var ended: nat
    var httpContent: Option<string>

    constructor ()
      ensures sent == [] && error == 0 && ended == 0 && httpContent == None
    {
      sent, error, ended, httpContent := [], 0, 0, None;
    }

    /** soap_response(soap, SOAP_FILE) */
    method Response(env: Env) returns (r: int)
      modifies this`error
      ensures r == env.headerError && error == if r != 0 then r else old(error)
    {
      r := env.headerError;
      if r != 0 {
        error := r;
      }
    }

    /** soap_send_raw */
    method SendRaw(env: Env, chunk: seq<byte>) returns (r: int)
      modifies this`sent, this`error
      ensures |old(sent)| == env.failAt && env.sendError != 0 ==>
                r != 0 && error == env.sendError && sent == old(sent)
      ensures !(|old(sent)| == env.failAt && env.sendError != 0) ==>
                r == 0 && error == old(error) && sent == old(sent) + [chunk]
    {
      if |sent| == env.failAt && env.sendError != 0 {
        error := env.sendError;
        return env.sendError;
      }
      sent := sent + [chunk];
      return 0;
    }

    /** soap_end_send */
    method EndSend(env: Env) returns (r: int)
      modifies this`ended, this`error
      ensures ended == old(ended) + 1 && r == env.endResult && error == AfterEnd(env, old(error))
    {
      ended := ended + 1;
      error := AfterEnd(env, error);
      r := env.endResult;
    }
  }

  /** size is sizeof(soap->tmpbuf). The stream is the file that was opened, if any; it is
      closed exactly once. Without an error exactly the chunks of the readable bytes are sent;
      a send error, which happens just when the failing call is reached, leaves the chunks
      before it. */
  method CopyFile(soap: Soap, env: Env, contentType: string, size: nat) returns (ret: int, stream: Stream?)
    requires size > 0 && soap.sent == [] && soap.error == 0
    modifies soap
    ensures env.file.Missing? <==> stream == null
    ensures stream == null ==> ret == 404 && unchanged(soap)
    ensures stream != null ==> fresh(stream) && stream.closes == 1 && soap.ended == old(soap.ended) + 1
    ensures stream != null ==> soap.httpContent == Some(contentType)
    ensures stream != null && env.headerError != 0 ==>
              soap.sent == [] && ret == soap.error == AfterEnd(env, env.headerError)
    ensures stream != null && env.headerError == 0 ==>
              var chunks := Chunks(Readable(env), size);
              if env.sendError != 0 && 0 <= env.failAt < |chunks|
              then soap.sent == chunks[..env.failAt] && ret == soap.error == AfterEnd(env, env.sendError)
              else soap.sent == chunks && soap.error == AfterEnd(env, 0) && ret == env.endResult
  {
    if env.file.Missing? {
      return NOT_FOUND, null;
    }
    stream := new Stream(Readable(env));
    soap.httpContent := Some(contentType);
    var header := soap.Response(env);
    if header != 0 {
      var _ := soap.EndSend(env);
      stream.Close();
      return soap.error, stream;
    }
    var sent := SendChunks(soap, stream, env, size);
    if !sent {
      var _ := soap.EndSend(env);
      stream.Close();
      return soap.error, stream;
    }
    stream.Close();
    ret := soap.EndSend(env);
  }

  /** The chunk loop of copy_file; false if a send failed. */
  method SendChunks(soap: Soap, stream: Stream, env: Env, size: nat) returns (sent: bool)
    requires size > 0 && soap.sent == [] && soap.error == 0 && stream.pos == 0 && stream.closes == 0
    modifies soap`sent, soap`error, stream`pos
    ensures var chunks := Chunks(stream.bytes, size);
            if env.sendError != 0 && 0 <= env.failAt < |chunks|
            then !sent && soap.sent == chunks[..env.failAt] && soap.error == env.sendError
            else sent && soap.sent == chunks && soap.error == 0
  {
    ghost var chunks := Chunks(stream.bytes, size);
    while true
      invariant stream.pos <= |stream.bytes| && soap.error == 0
      invariant |soap.sent| <= |chunks| && soap.sent == chunks[..|soap.sent|]
      invariant Chunks(stream.bytes[stream.pos..], size) == chunks[|soap.sent|..]
      invariant env.sendError != 0 && 0 <= env.failAt ==> env.failAt >= |soap.sent|
      decreases |stream.bytes| - stream.pos
    {
      NextChunk(stream.bytes, stream.pos, size, chunks, |soap.sent|);
      var chunk := stream.Read(size);
      if |chunk| == 0 {
        return true;
      }
      var r := soap.SendRaw(env, chunk);
      if r != 0 {
        return false;
      }
    }
  }

  /** Reading on at pos after n chunks yields chunk n, or nothing after the last. */
  lemma NextChunk(s: seq<byte>, pos: nat, size: nat, chunks: seq<seq<byte>>, n: nat)
    requires size > 0 && pos <= |s| && n <= |chunks|
    requires Chunks(s[pos..], size) == chunks[n..]
    ensures var end := if pos + size <= |s| then pos + size else |s|;
            if pos == |s| then n == |chunks|
            else n < |chunks| && chunks[n] == s[pos..end] && Chunks(s[end..], size) == chunks[n + 1..]
                 && chunks[..n + 1] == chunks[..n] + [s[pos..end]]
  {
    if pos < |s| {
      assert chunks[n..][0] == chunks[n];
      assert chunks[n..][1..] == chunks[n + 1..];
      if pos + size < |s| {
        assert s[pos..][..size] == s[pos..pos + size];
        assert s[pos..][size..] == s[pos + size..];
      } else {
        assert s[pos..] == s[pos..|s|];
      }
    }
  }

  // ---------------------------------------------------------------- what arrives

  /** The chunks make up exactly the bytes. */
  lemma {:induction false} ChunksConcat(s: seq<byte>, size: nat)
    requires size > 0
    ensures Concat(Chunks(s, size)) == s
    decreases |s|
  {
    if |s| > size {
      ChunksConcat(s[size..], size);
    } else if s != [] {
      assert [s][1..] == [];
    }
  }

  /** The first n chunks make up a prefix, of n times the buffer size unless it is everything. */
  lemma {:induction false} ChunksPrefix(s: seq<byte>, size: nat, n: nat)
    requires size > 0 && n <= |Chunks(s, size)|
    ensures Concat(Chunks(s, size)[..n]) <= s
    ensures |Concat(Chunks(s, size)[..n])| == if n < |Chunks(s, size)| then n * size else |s|
    decreases |s|
  {
    if n > 0 {
      var cs := Chunks(s, size);
      assert cs[..n][1..] == cs[1..][..n - 1];
      if |s| > size {
        ChunksPrefix(s[size..], size, n - 1);
        assert s == s[..size] + s[size..];
      }
    }
  }

  /** No chunk is empty, and all but the last fill the buffer. */
  lemma {:induction false} ChunksFull(s: seq<byte>, size: nat)
    requires size > 0
    ensures var cs := Chunks(s, size);
            && (forall i | 0 <= i < |cs| :: 0 < |cs[i]| <= size)
            && (forall i | 0 <= i < |cs| - 1 :: |cs[i]| == size)
    decreases |s|
  {
    if |s| > size {
      ChunksFull(s[size..], size);
      assert forall i | 1 <= i < |Chunks(s, size)| :: Chunks(s, size)[i] == Chunks(s[size..], size)[i - 1];
    }
  }

  /** Together: the file arrives whole if nothing fails, and a prefix of it in every case. */
  method SendFile(env: Env, contentType: string, size: nat) returns (received: seq<byte>, ret: int)
    requires size > 0 && env.file.Found?
    ensures received <= env.file.bytes
    ensures env.headerError != 0 ==> received == []
    ensures env.headerError == 0 && env.sendError == 0 ==>
              received == env.file.bytes[..if env.readLimit < |env.file.bytes| then env.readLimit else |env.file.bytes|]
    ensures env.headerError == 0 && env.sendError == 0 && env.readLimit >= |env.file.bytes| ==>
              received == env.file.bytes && ret == env.endResult
  {
    var soap := new Soap();
    var r, stream := CopyFile(soap, env, contentType, size);
    var chunks := Chunks(Readable(env), size);
    ChunksConcat(Readable(env), size);
    if env.headerError == 0 && env.sendError != 0 && 0 <= env.failAt < |chunks| {
      ChunksPrefix(Readable(env), size, env.failAt);
    }
    return Concat(soap.sent), r;
  }
}
