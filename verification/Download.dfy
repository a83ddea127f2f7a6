/** The payload download: the server's chunks from an offset, and the client's
    resumable file with its running hash. */
module Download {
  import opened Common

  const CHUNK_SIZE := 65536

  datatype PayloadChunk = PayloadChunk(offset: nat, data: seq<byte>, isLast: bool)

  function Min(a: nat, b: nat): nat {
    if a < b then a else b
  }

  // ---- The server's chunks ------------------------------------------------------------

  /** The chunks are the payload from `start` on, piece by piece. */
  predicate AreChunks(payload: seq<byte>, start: nat, chunks: seq<PayloadChunk>) {
    forall k :: 0 <= k < |chunks| ==> IsChunk(payload, start, chunks, k)
  }

  /** Chunk `k` begins where the one before it ends, is the payload's bytes
      there, neither empty nor over the limit, and short only at the end. */
  predicate IsChunk(payload: seq<byte>, start: nat, chunks: seq<PayloadChunk>, k: nat)
    requires k < |chunks|
  {
    var chunk := chunks[k];
    var end := chunk.offset + |chunk.data|;
    && chunk.offset == (if k == 0 then start else chunks[k - 1].offset + |chunks[k - 1].data|)
    && 0 < |chunk.data| <= CHUNK_SIZE
    && end <= |payload| && chunk.data == payload[chunk.offset..end]
    && (chunk.isLast <==> end == |payload|)
    && (|chunk.data| < CHUNK_SIZE ==> chunk.isLast)
  }

  function EndOfChunks(start: nat, chunks: seq<PayloadChunk>): nat {
    if chunks == [] then start else chunks[|chunks| - 1].offset + |chunks[|chunks| - 1].data|
  }

  function Concat(chunks: seq<PayloadChunk>): seq<byte> {
    if chunks == [] then [] else Concat(chunks[..|chunks| - 1]) + chunks[|chunks| - 1].data
  }

  /** All the chunks of a request. */
  predicate AllChunks(payload: seq<byte>, start: nat, chunks: seq<PayloadChunk>) {
    && AreChunks(payload, start, chunks)
    && (start >= |payload| ==> chunks == [])
    && (start < |payload| ==> chunks != [] && EndOfChunks(start, chunks) == |payload|)
  }

  method SendChunks(payload: seq<byte>, start: nat) returns (chunks: seq<PayloadChunk>)
    ensures AllChunks(payload, start, chunks)
    ensures start < |payload| ==> |chunks| == (|payload| - start + 65535) / 65536
    ensures forall k :: 0 <= k < |chunks| ==> 0 < |chunks[k].data| <= 65536
  {
    chunks := [];
    var offset := start;
    while offset < |payload|
      invariant start <= |payload| ==> offset <= |payload|
      invariant start >= |payload| ==> chunks == [] && offset == start
      invariant AreChunks(payload, start, chunks) && offset == EndOfChunks(start, chunks)
      invariant offset < |payload| ==> offset == start + |chunks| * CHUNK_SIZE
      invariant start < |payload| && offset == |payload| ==>
                  start + (|chunks| - 1) * CHUNK_SIZE < offset <= start + |chunks| * CHUNK_SIZE
      decreases |payload| - offset
    {
      var end := Min(offset + CHUNK_SIZE, |payload|);
      ghost var sent := chunks;
      chunks := chunks + [PayloadChunk(offset, payload[offset..end], end >= |payload|)];
      forall k | 0 <= k < |chunks| ensures IsChunk(payload, start, chunks, k) {
        assert k < |sent| ==> IsChunk(payload, start, sent, k);
      }
      offset := end;
    }
    forall k | 0 <= k < |chunks| ensures 0 < |chunks[k].data| <= 65536 {
      assert IsChunk(payload, start, chunks, k);
    }
  }

  lemma FirstChunks(payload: seq<byte>, start: nat, chunks: seq<PayloadChunk>, n: nat)
    requires AreChunks(payload, start, chunks) && n <= |chunks|
    ensures AreChunks(payload, start, chunks[..n])
  {
    forall k | 0 <= k < n ensures IsChunk(payload, start, chunks[..n], k) {
      assert IsChunk(payload, start, chunks, k);
    }
  }

  lemma Adjacent(s: seq<byte>, i: nat, j: nat, k: nat)
    requires i <= j <= k <= |s|
    ensures s[i..j] + s[j..k] == s[i..k]
  {
  }

  lemma LastChunk(payload: seq<byte>, start: nat, chunks: seq<PayloadChunk>)
    requires AreChunks(payload, start, chunks) && chunks != []
    ensures (var k := |chunks| - 1;
             && chunks[k].offset == EndOfChunks(start, chunks[..k]) < EndOfChunks(start, chunks) <= |payload|
             && chunks[k].data == payload[chunks[k].offset..EndOfChunks(start, chunks)])
  {
    assert IsChunk(payload, start, chunks, |chunks| - 1);
  }

  /** Any number of delivered chunks are the bytes behind the start. */
  lemma {:induction false} ChunksJoin(payload: seq<byte>, start: nat, chunks: seq<PayloadChunk>)
    requires start <= |payload| && AreChunks(payload, start, chunks)
    ensures start <= EndOfChunks(start, chunks) <= |payload|
    ensures Concat(chunks) == payload[start..EndOfChunks(start, chunks)]
    decreases |chunks|
  {
    hide IsChunk, AreChunks;
    if chunks != [] {
      var k := |chunks| - 1;
      FirstChunks(payload, start, chunks, k);
      LastChunk(payload, start, chunks);
      ChunksJoin(payload, start, chunks[..k]);
      hide EndOfChunks;
      Adjacent(payload, start, chunks[k].offset, EndOfChunks(start, chunks));
    }
  }

  // ---- The client's file ----------------------------------------------------------------

  /** How a stream ends: the server closed it, or it broke with only `kept` of
      the received bytes in the file. */
  datatype StreamEnd = Closed | Broken(kept: nat)

  function Existing(file: Option<seq<byte>>): seq<byte> {
    if file.Some? then file.value else []
  }

  datatype Attempt = Attempt(file: Option<seq<byte>>, ok: bool)

  /** What an attempt leaves: everything hashed is everything in the file; a
      broken stream leaves a shorter file, a wrong hash leaves none. */
  function AfterAttempt(file: Option<seq<byte>>, received: seq<byte>, end: StreamEnd,
                        sha: seq<byte> -> string, expected: string): Attempt
  {
    var all := Existing(file) + received;
    match end
    case Broken(kept) => Attempt(Some(Existing(file) + received[..Min(kept, |received|)]), false)
    case Closed => if sha(all) == expected then Attempt(Some(all), true) else Attempt(None, false)
  }

  /** The spool file of one job. */
  class SpoolFile {
    var content: Option<seq<byte>>

    constructor ()
      ensures content == None
    {
      content := None;
    }

    /** The file of a finished job goes, whatever became of the job. */
    method Remove()
      modifies this
      ensures content == None
    {
      content := None;
    }

    /** One download attempt. `chunks` are the chunks that arrived. */
    method Download(chunks: seq<PayloadChunk>, end: StreamEnd, sha: seq<byte> -> string, expected: string) returns (ok: bool)
      modifies this
      ensures Attempt(content, ok) == AfterAttempt(old(content), Concat(chunks), end, sha, expected)
    {
      var hashed: seq<byte> := [];
      var size := if content.Some? then |content.value| else 0;
      if content.Some? && |content.value| > 0 {
        hashed := content.value;
      } else {
        content := Some([]);
      }
      assert hashed == Existing(old(content)) == content.value;
      for i := 0 to |chunks|
        invariant content.Some?
        invariant content.value == hashed == Existing(old(content)) + Concat(chunks[..i])
      {
        assert chunks[..i + 1][..i] == chunks[..i];
        Associative(Existing(old(content)), Concat(chunks[..i]), chunks[i].data);
        hashed := hashed + chunks[i].data;
        content := Some(content.value + chunks[i].data);
      }
      assert chunks[..|chunks|] == chunks;
      match end {
        case Broken(kept) =>
          ghost var received := Concat(chunks);
          var n := size + Min(kept, |hashed| - size);
          assert hashed[..n] == Existing(old(content)) + received[..Min(kept, |received|)];
          content := Some(hashed[..n]);
          return false;
        case Closed =>
          if sha(hashed) != expected {
            content := None;
            return false;
          }
          return true;
      }
    }
  }

  // ---- Any sequence of attempts ------------------------------------------------------------

  /** One attempt, with the chunks that arrived and how its stream ended, or the
      removal of the file at the end of a job. */
  datatype Event = Try(chunks: seq<PayloadChunk>, end: StreamEnd) | Removal

  function FileAfter(events: seq<Event>, sha: seq<byte> -> string, expected: string): Option<seq<byte>> {
    if events == [] then None
    else
      var last, before := events[|events| - 1], FileAfter(events[..|events| - 1], sha, expected);
      if last.Removal? then None else AfterAttempt(before, Concat(last.chunks), last.end, sha, expected).file
  }

  /** Every attempt asked for what its file did not have yet, and got some
      first chunks of the answer. */
  predicate Resumed(payload: seq<byte>, events: seq<Event>, sha: seq<byte> -> string, expected: string) {
    forall i :: 0 <= i < |events| ==> ResumedAt(payload, events, i, sha, expected)
  }

  predicate ResumedAt(payload: seq<byte>, events: seq<Event>, i: nat, sha: seq<byte> -> string, expected: string)
    requires i < |events|
  {
    events[i].Try? ==> AreChunks(payload, |Existing(FileAfter(events[..i], sha, expected))|, events[i].chunks)
  }

  lemma AttemptKeepsPrefix(payload: seq<byte>, file: Option<seq<byte>>, chunks: seq<PayloadChunk>, end: StreamEnd,
                           sha: seq<byte> -> string, expected: string)
    requires Existing(file) <= payload && AreChunks(payload, |Existing(file)|, chunks)
    ensures Existing(AfterAttempt(file, Concat(chunks), end, sha, expected).file) <= payload
    ensures end.Broken? ==> Existing(file) <= Existing(AfterAttempt(file, Concat(chunks), end, sha, expected).file)
  {
    ChunksJoin(payload, |Existing(file)|, chunks);
    var all := Existing(file) + Concat(chunks);
    assert all == payload[..|all|];
  }

  /** Across any sequence of interrupted and resumed attempts, and of removals
      between them, the file stays a prefix of the payload. */
  lemma {:induction false} FileIsAPrefix(payload: seq<byte>, events: seq<Event>, sha: seq<byte> -> string, expected: string)
    requires Resumed(payload, events, sha, expected)
    ensures Existing(FileAfter(events, sha, expected)) <= payload
    decreases |events|
  {
    hide AfterAttempt, AreChunks, Concat;
    if events != [] {
      var k := |events| - 1;
      forall i | 0 <= i < k ensures ResumedAt(payload, events[..k], i, sha, expected) {
        assert ResumedAt(payload, events, i, sha, expected);
        assert events[..k][..i] == events[..i];
      }
      FileIsAPrefix(payload, events[..k], sha, expected);
      if events[k].Try? {
        assert ResumedAt(payload, events, k, sha, expected);
        AttemptKeepsPrefix(payload, FileAfter(events[..k], sha, expected), events[k].chunks, events[k].end, sha, expected);
      }
    }
  }

  /** After any such sequence, an attempt whose stream is complete hashes
      exactly the payload: it succeeds if and only if the payload has the
      expected hash, leaving the payload, and otherwise leaves no file. */
  lemma CompleteAttempt(payload: seq<byte>, events: seq<Event>, chunks: seq<PayloadChunk>,
                        sha: seq<byte> -> string, expected: string)
    requires Resumed(payload, events, sha, expected)
    requires AllChunks(payload, |Existing(FileAfter(events, sha, expected))|, chunks)
    ensures (var after := AfterAttempt(FileAfter(events, sha, expected), Concat(chunks), Closed, sha, expected);
             && (after.ok <==> sha(payload) == expected)
             && after.file == if after.ok then Some(payload) else None)
  {
    var file := FileAfter(events, sha, expected);
    FileIsAPrefix(payload, events, sha, expected);
    ChunksJoin(payload, |Existing(file)|, chunks);
    assert Existing(file) + Concat(chunks) == payload;
  }

  /** An attempt succeeds only with a complete stream. One whose stream breaks
      fails, and keeps what it had and as much of the rest as reached the file. */
  lemma BrokenAttempt(file: Option<seq<byte>>, received: seq<byte>, kept: nat, sha: seq<byte> -> string, expected: string)
    ensures (var after := AfterAttempt(file, received, Broken(kept), sha, expected);
             && !after.ok && after.file.Some?
             && Existing(file) <= after.file.value <= Existing(file) + received
             && (kept >= |received| ==> after.file.value == Existing(file) + received)
             && (kept < |received| ==> |after.file.value| == |Existing(file)| + kept))
  {
    assert received[..|received|] == received;
  }

  /** The receiver removes the file at the end of every job, failed downloads
      included. So while it lives an attempt never has anything to resume from:
      each starts from no file. */
  lemma LivingReceiverStartsAnew(events: seq<Event>, k: nat, sha: seq<byte> -> string, expected: string)
    requires k < |events|
    requires forall i :: 0 <= i < |events| - 1 && events[i].Try? ==> events[i + 1].Removal?
    ensures events[k].Try? ==> FileAfter(events[..k], sha, expected) == None
  {
    if k > 0 && events[k].Try? {
      assert events[..k][k - 1] == events[k - 1];
      assert events[k - 1].Removal?;
    }
  }
}
