/** File content in flight: a body cut into messages on the way up, chunks passed on one by
    one on the way down. */
module Streaming {
  import opened Options
  import opened Statuses
  import opened Tree

  // ----- upload -----

  const CHUNK_SIZE := 256 * 1024

  /** Only the first message of an upload names its target and carries credentials. */
  datatype Target = Target(uid: Uid, auth: string)
  datatype Message = Message(target: Option<Target>, data: string)

  function Contents(ms: seq<Message>): string {
    if ms == [] then "" else Contents(ms[..|ms| - 1]) + ms[|ms| - 1].data
  }

  /** The client end of an upload stream; a write may fail, and then all later ones do. */
  class UploadStream {
    var sent: seq<Message>
    var broken: bool

    constructor ()
      ensures sent == [] && !broken
    {
      sent, broken := [], false;
    }

    method Write(m: Message) returns (ok: bool)
      modifies this
      ensures ok ==> !old(broken) && sent == old(sent) + [m] && !broken
      ensures !ok ==> sent == old(sent) && broken
    {
      ok := *;
      ok := ok && !broken;
      if ok {
        sent := sent + [m];
      } else {
        broken := true;
      }
    }
  }

  /** How a stream to or from the core ended, once the bridge asks. */
  datatype Status = Fine | Cancelled | Broken(error: string) | Thrown

  /** The core's answer to an upload. */
  datatype Stored = Stored(success: bool, error: string)

  ghost predicate Headed(ms: seq<Message>, target: Target) {
    forall i :: 0 <= i < |ms| ==> ms[i].target == if i == 0 then Some(target) else None
  }

  lemma ContentsGrow(ms: seq<Message>, m: Message)
    ensures Contents(ms + [m]) == Contents(ms) + m.data
  {
    assert (ms + [m])[..|ms|] == ms;
  }

  /** Reads the next chunk of a body: what was read and what is left. */
  function NextChunk(rest: string): (r: (string, string))
    ensures r.0 + r.1 == rest && |r.0| <= 262144
    ensures r.0 == "" <==> rest == ""
  {
    if |rest| <= CHUNK_SIZE then (rest, "") else (rest[..CHUNK_SIZE], rest[CHUNK_SIZE..])
  }

  ghost predicate Chunked(ms: seq<Message>) {
    forall i :: 0 <= i < |ms| ==> 0 < |ms[i].data| <= 262144
  }

  /** What has been sent, under one head and in chunks, and what is left make up the body. */
  ghost predicate SentSoFar(sent: seq<Message>, target: Target, rest: string, body: string) {
    Headed(sent, target) && Chunked(sent) && Contents(sent) + rest == body
  }

  lemma SendOne(sent: seq<Message>, m: Message, target: Target, rest: string, left: string, body: string)
    requires SentSoFar(sent, target, rest, body)
    requires m.target == if sent == [] then Some(target) else None
    requires m.data + left == rest && 0 < |m.data| <= 262144
    ensures SentSoFar(sent + [m], target, left, body)
  {
    ContentsGrow(sent, m);
    assert Contents(sent) + m.data + left == Contents(sent) + rest;
  }

  /** Streams `body`, reading it a chunk at a time. `reply` is what the core answers and `error`
      what the stream reports if it failed. */
  method StreamUpload(stream: UploadStream, target: Target, body: string, reply: Stored, error: Option<string>)
    returns (result: Stored)
    requires stream.sent == [] && !stream.broken
    modifies stream
    ensures result.success <==> error.None? && reply.success
    ensures !result.success ==> result.error == if error.Some? then error.value else reply.error
    ensures Headed(stream.sent, target)
    ensures Contents(stream.sent) <= body
    ensures !stream.broken ==> stream.sent != [] && Contents(stream.sent) == body
    ensures body != "" ==> Chunked(stream.sent)
    ensures body == "" && !stream.broken ==> stream.sent == [Message(Some(target), "")]
  {
    var rest := body;
    var first := true;
    while true
      invariant !stream.broken && SentSoFar(stream.sent, target, rest, body)
      invariant first <==> stream.sent == []
      decreases |rest|
    {
      var (chunk, left) := NextChunk(rest);
      if chunk == "" {
        break;
      }
      var m := Message(if first then Some(target) else None, chunk);
      SendOne(stream.sent, m, target, rest, left, body);
      first := false;
      var ok := stream.Write(m);
      if !ok {
        break;
      }
      rest := left;
    }
    if first {
      var m := Message(Some(target), "");
      ContentsGrow(stream.sent, m);
      var ok := stream.Write(m);
    }
    result := reply;
    if error.Some? {
      result := Stored(false, error.value);
    }
  }

  // ----- download -----

  datatype Chunk = Chunk(success: bool, data: string, error: string)

  /** The data of the chunks up to the first error chunk. */
  function Payload(chunks: seq<Chunk>): string {
    if chunks == [] || !chunks[0].success then "" else chunks[0].data + Payload(chunks[1..])
  }

  datatype Written = Good | Bad | Threw

  /** The client's connection: response heads sent so far, and the bytes that went out. */
  class Client {
    var heads: seq<int>
    var bytes: string
    ghost var trouble: bool

    constructor ()
      ensures heads == [] && bytes == "" && !trouble
    {
      heads, bytes, trouble := [], "", false;
    }

    method SendHead(status: int)
      modifies `heads
      ensures heads == old(heads) + [status]
    {
      heads := heads + [status];
    }

    /** A write that does not succeed may still have put some of the data on the wire. */
    method Write(data: string) returns (r: Written)
      modifies `bytes, `trouble
      ensures r.Good? ==> bytes == old(bytes) + data && trouble == old(trouble)
      ensures !r.Good? ==> old(bytes) <= bytes <= old(bytes) + data && trouble
    {
      r := *;
      if r.Good? {
        bytes := bytes + data;
      } else {
        var k: int := *;
        bytes := bytes + data[..if 0 <= k <= |data| then k else 0];
        trouble := true;
      }
    }
  }

  predicate AllSucceed(chunks: seq<Chunk>) {
    chunks == [] || (chunks[0].success && AllSucceed(chunks[1..]))
  }

  /** Everything in `whole` before `rest` has gone out, the head with it if there was any. */
  ghost predicate InStep(heads: seq<int>, bytes: string, rest: seq<Chunk>, whole: seq<Chunk>) {
    bytes + Payload(rest) == Payload(whole) &&
    (AllSucceed(whole) <==> AllSucceed(rest)) &&
    heads == if bytes == "" then [] else [OK]
  }

  /** How a download may end: one head, and part of the payload behind it. */
  ghost predicate Ended(heads: seq<int>, bytes: string, trouble: bool, chunks: seq<Chunk>, finish: Status) {
    |heads| == 1 &&
    bytes <= Payload(chunks) && (!trouble ==> bytes == Payload(chunks)) &&
    (heads[0] != OK ==> bytes == "") &&
    heads[0] == (if Payload(chunks) != "" then OK
                 else if finish.Thrown? then UNAVAILABLE
                 else if !AllSucceed(chunks) || finish.Broken? then INTERNAL_ERROR
                 else OK)
  }

  lemma ChunkPassed(heads: seq<int>, bytes: string, rest: seq<Chunk>, whole: seq<Chunk>)
    requires InStep(heads, bytes, rest, whole) && rest != [] && rest[0].success
    ensures InStep([OK], bytes + rest[0].data, rest[1..], whole) || rest[0].data == ""
    ensures rest[0].data == "" ==> InStep(heads, bytes, rest[1..], whole)
    ensures bytes + rest[0].data <= Payload(whole)
  {
    assert Payload(whole) == bytes + rest[0].data + Payload(rest[1..]);
  }

  /** The handler's part of a download: the head goes out with the first data, so a failure
      before any data still gets a proper status. */
  method OnChunk(client: Client, headSent: bool, data: string) returns (w: Written)
    requires data != ""
    modifies client
    ensures client.heads == if headSent then old(client.heads) else old(client.heads) + [OK]
    ensures w.Good? ==> client.bytes == old(client.bytes) + data && client.trouble == old(client.trouble)
    ensures !w.Good? ==> old(client.bytes) <= client.bytes <= old(client.bytes) + data && client.trouble
  {
    if !headSent {
      client.SendHead(OK);
    }
    w := client.Write(data);
  }

  /** Passes the core's chunks on to the client. */
  method Download(client: Client, chunks: seq<Chunk>, finish: Status)
    requires client.heads == [] && client.bytes == "" && !client.trouble
    modifies client
    ensures Ended(client.heads, client.bytes, client.trouble, chunks, finish)
  {
    var headSent, failed := false, false;
    var i := 0;
    ghost var rest := chunks;
    while i < |chunks|
      invariant i <= |chunks| && rest == chunks[i..]
      invariant InStep(client.heads, client.bytes, rest, chunks) && !client.trouble
      invariant headSent <==> client.bytes != ""
    {
      if !chunks[i].success {
        failed := true;
        break;
      }
      ChunkPassed(client.heads, client.bytes, rest, chunks);
      if chunks[i].data != "" {
        var w := OnChunk(client, headSent, chunks[i].data);
        headSent := true;
        if w.Threw? {
          return;
        }
        if w.Bad? {
          break;
        }
      }
      i, rest := i + 1, rest[1..];
    }
    if finish.Thrown? {
      if !headSent {
        client.SendHead(UNAVAILABLE);
      }
      return;
    }
    var success := !failed && !finish.Broken?;
    if !headSent {
      client.SendHead(if success then OK else INTERNAL_ERROR);
    }
  }
}
