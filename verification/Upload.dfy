/**
 The resumable upload loop against a server that takes any part of each request. The
 server reads the `Content-Range` header itself (section 14.4 of RFC 9110) and reports
 what it holds in a `Range` header, which is missing while it holds nothing.
*/
module Upload {
  import opened Wrappers
  import opened Text

  newtype octet = n: int | 0 <= n < 256
  type Bytes = seq<octet>

  const RESUMABLE_CHUNK_BYTES: nat := 8 * 1024 * 1024

  function Min(a: nat, b: nat): nat {
    if a < b then a else b
  }

  // ---------------------------------------------------------------------- headers

  datatype ContentRange = Span(first: nat, last: nat, complete: nat) | Unsatisfied(complete: nat)

  function SpanText(first: nat, last: nat, complete: nat): string {
    "bytes " + NatToString(first) + "-" + NatToString(last) + "/" + NatToString(complete)
  }

  function StripPrefix(s: string, prefix: string): Option<string> {
    if prefix <= s then Some(s[|prefix|..]) else None
  }

  /** The `Content-Range` grammar for the unit `bytes`. */
  function ParseContentRange(text: string): Option<ContentRange> {
    match StripPrefix(text, "bytes ")
    case None => None
    case Some(rest) =>
      match SplitOnce(rest, '/')
      case None => None
      case Some((span, complete)) =>
        if ParseU64(complete).None? then None
        else if span == "*" then Some(Unsatisfied(ParseU64(complete).value))
        else match SplitOnce(span, '-')
             case None => None
             case Some((first, last)) =>
               if ParseU64(first).None? || ParseU64(last).None? then None
               else Some(Span(ParseU64(first).value, ParseU64(last).value, ParseU64(complete).value))
  }

  lemma ContentRangeReadsBack(first: nat, last: nat, complete: nat)
    requires first <= U64_MAX && last <= U64_MAX && complete <= U64_MAX
    ensures ParseContentRange(SpanText(first, last, complete)) == Some(Span(first, last, complete))
  {
    hide NatToString, ParseU64, SplitOnce;
    var a, b, c := NatToString(first), NatToString(last), NatToString(complete);
    ParseOfPrinted(first);
    ParseOfPrinted(last);
    ParseOfPrinted(complete);
    var span := a + ['-'] + b;
    var text := SpanText(first, last, complete);
    assert text == "bytes " + (span + ['/'] + c);
    assert text[6..] == span + ['/'] + c;
    assert Lacks(span, '/');
    SplitOnceOf(span, '/', c);
    SplitOnceOf(a, '-', b);
    assert span != "*" by { assert |span| > 1; }
  }

  /** `parse_next_offset`, on the value of the `Range` header. */
  function ParseNextOffset(range: Option<string>): (r: Option<nat>)
    ensures r.Some? ==> 0 < r.value <= U64_MAX
  {
    match range
    case None => None
    case Some(text) =>
      match StripPrefix(Split(text, ',')[0], "bytes=")
      case None => None
      case Some(value) =>
        match SplitOnce(value, '-')
        case None => None
        case Some((_, end)) =>
          match ParseU64(end)
          case None => None
          case Some(n) => if n < U64_MAX then Some(n + 1) else None
  }

  /** What the server holds: nothing to report, or the bytes from 0 to the last. */
  function RangeHeader(held: nat): Option<string> {
    if held == 0 then None else Some("bytes=0-" + NatToString(held - 1))
  }

  lemma RangeHeaderReadsBack(held: nat)
    requires held <= U64_MAX
    ensures ParseNextOffset(RangeHeader(held)) == if held == 0 then None else Some(held)
  {
    hide NatToString, ParseU64, SplitOnce;
    if held > 0 {
      var n := NatToString(held - 1);
      ParseOfPrinted(held - 1);
      var text := "bytes=0-" + n;
      assert Lacks(text, ',');
      assert Split(text, ',')[0] == text;
      assert "0" + ['-'] + n == text[6..];
      SplitOnceOf("0", '-', n);
    }
  }

  // ----------------------------------------------------------------------- server

  datatype Request = Request(contentRange: string, body: Bytes)
  datatype Response = Response(status: nat, range: Option<string>)

  /** Up to `n` of the bytes in `body` that are not there yet. */
  function Taken(received: Bytes, first: nat, body: Bytes, n: nat): Bytes
    requires first <= |received|
  {
    var more := if first + |body| <= |received| then [] else body[|received| - first..];
    received + more[..Min(n, |more|)]
  }

  /**
   The bytes held after a request and the reply. `accept` is how many new bytes the
   server is willing to take; without it the server is gone.
  */
  function Reply(total: nat, received: Bytes, accept: Option<nat>, request: Request): (Bytes, Response) {
    match (accept, ParseContentRange(request.contentRange))
    case (Some(_), Some(Unsatisfied(complete))) =>
      (received, if |received| == total then Response(200, None) else Response(308, RangeHeader(|received|)))
    case (Some(n), Some(Span(first, last, complete))) =>
      if complete != total || last >= total || first > |received| || first + |request.body| != last + 1 then
        (received, Response(400, None))
      else
        var held := Taken(received, first, request.body, n);
        (held, if |held| == total then Response(200, None) else Response(308, RangeHeader(|held|)))
    case (None, _) => (received, Response(503, None))
    case (_, None) => (received, Response(400, None))
  }

  class Server {
    const total: nat
    var received: Bytes
    var script: seq<nat>
    /** The requests so far and how much the server held after each. */
    ghost var log: seq<Request>
    ghost var held: seq<nat>

    constructor (total: nat, received: Bytes, script: seq<nat>)
      ensures this.total == total && this.received == received && this.script == script && log == [] && held == []
    {
      this.total, this.received, this.script := total, received, script;
      log, held := [], [];
    }

    function NextAccept(): Option<nat> reads this {
      if script == [] then None else Some(script[0])
    }

    method Put(request: Request) returns (response: Response)
      modifies this
      ensures (received, response) == Reply(total, old(received), old(NextAccept()), request)
      ensures log == old(log) + [request] && held == old(held) + [|received|]
      ensures script == if old(script) == [] then [] else old(script)[1..]
    {
      var reply := Reply(total, received, NextAccept(), request);
      received, response := reply.0, reply.1;
      script := if script == [] then [] else script[1..];
      log, held := log + [request], held + [|received|];
    }
  }

  /** The server has the beginning of `data`. */
  predicate HoldsPrefix(received: Bytes, data: Bytes, total: nat) {
    |received| <= total && received <= data
  }

  // ----------------------------------------------------------------------- client

  function ChunkSize(total: nat, offset: nat): nat
    requires offset <= total
  {
    Min(total - offset, RESUMABLE_CHUNK_BYTES)
  }

  predicate Readable(data: Bytes, total: nat, offset: nat) {
    offset < total && offset + ChunkSize(total, offset) <= |data|
  }

  /** The request for the chunk at `offset`: the next bytes of the file under their own range. */
  function ChunkRequest(data: Bytes, total: nat, offset: nat): Request
    requires Readable(data, total, offset)
  {
    var end := offset + ChunkSize(total, offset);
    Request(SpanText(offset, end - 1, total), data[offset..end])
  }

  /** The chunk is the rest of the file, or as much of it as fits; its header says what it is. */
  lemma ChunkMeaning(data: Bytes, total: nat, offset: nat)
    requires Readable(data, total, offset) && total <= U64_MAX
    ensures var request, size := ChunkRequest(data, total, offset), |ChunkRequest(data, total, offset).body|;
            && (if total - offset <= 8388608 then size == total - offset else size == 8388608)
            && offset + size <= |data| && request.body == data[offset..offset + size]
            && ParseContentRange(request.contentRange) == Some(Span(offset, offset + size - 1, total))
  {
    hide ParseContentRange, SpanText;
    ContentRangeReadsBack(offset, offset + |ChunkRequest(data, total, offset).body| - 1, total);
  }

  /** How much the server holds after the chunk at `offset`. */
  function HeldAfter(total: nat, offset: nat, received: nat, n: nat): nat
    requires offset <= total
  {
    var end := offset + ChunkSize(total, offset);
    if received < end then received + Min(n, end - received) else received
  }

  lemma TakenOfChunk(data: Bytes, total: nat, offset: nat, received: Bytes, n: nat)
    requires Readable(data, total, offset) && HoldsPrefix(received, data, total) && offset <= |received|
    ensures var held := HeldAfter(total, offset, |received|, n);
            held <= |data| && Taken(received, offset, ChunkRequest(data, total, offset).body, n) == data[..held]
  {
    hide SpanText, ChunkSize;
    var end := offset + ChunkSize(total, offset);
    var body := data[offset..end];
    assert received == data[..|received|];
    if |received| < end {
      var have := |received|;
      var k := Min(n, end - have);
      assert body[have - offset..] == data[have..end];
      assert data[have..end][..k] == data[have..have + k];
      assert data[..have] + data[have..have + k] == data[..have + k];
    } else {
      assert received + [] == received;
    }
  }

  lemma ReplyValue(data: Bytes, total: nat, offset: nat, received: Bytes, n: nat)
    requires total <= U64_MAX && Readable(data, total, offset) && HoldsPrefix(received, data, total)
    ensures HeldAfter(total, offset, |received|, n) <= |data|
    ensures Reply(total, received, Some(n), ChunkRequest(data, total, offset))
            == if offset > |received| then (received, Response(400, None))
               else
                 var held := HeldAfter(total, offset, |received|, n);
                 (data[..held], if held == total then Response(200, None) else Response(308, RangeHeader(held)))
  {
    hide ParseContentRange, SpanText, RangeHeader, Taken, HeldAfter;
    HeldAfterFits(data, total, offset, received, n);
    var request := ChunkRequest(data, total, offset);
    var end := offset + ChunkSize(total, offset);
    ContentRangeReadsBack(offset, end - 1, total);
    assert ParseContentRange(request.contentRange) == Some(Span(offset, end - 1, total))
        && |request.body| == end - offset;
    hide ChunkRequest, ChunkSize, HoldsPrefix;
    if offset <= |received| {
      TakenOfChunk(data, total, offset, received, n);
      var held := Taken(received, offset, request.body, n);
      assert Reply(total, received, Some(n), request)
          == (held, if |held| == total then Response(200, None) else Response(308, RangeHeader(|held|)));
    }
  }

  lemma HeldAfterFits(data: Bytes, total: nat, offset: nat, received: Bytes, n: nat)
    requires Readable(data, total, offset) && HoldsPrefix(received, data, total)
    ensures HeldAfter(total, offset, |received|, n) <= |data|
  {
  }

  lemma ReplyToChunk(data: Bytes, total: nat, offset: nat, received: Bytes, accept: Option<nat>)
    requires total <= U64_MAX && Readable(data, total, offset) && HoldsPrefix(received, data, total)
    ensures var (held, response) := Reply(total, received, accept, ChunkRequest(data, total, offset));
            && HoldsPrefix(held, data, total) && |received| <= |held|
            && |held| == (if offset <= |received| && accept.Some?
                          then HeldAfter(total, offset, |received|, accept.value) else |received|)
            && (200 <= response.status < 300 <==> offset <= |received| && accept.Some? && |held| == total)
            && (response.status == 308 <==> offset <= |received| && accept.Some? && |held| < total)
            && (response.status == 308 ==>
                  ParseNextOffset(response.range) == if |held| == 0 then None else Some(|held|))
  {
    if accept.Some? {
      ReplyValue(data, total, offset, received, accept.value);
      RangeHeaderReadsBack(HeldAfter(total, offset, |received|, accept.value));
      assert received == data[..|received|];
    }
    hide ParseNextOffset, RangeHeader, ParseContentRange, SpanText;
  }

  datatype Progress = Finished(response: Response) | Continue(next: nat) | Failed(error: string)

  /** What the loop makes of an answer to the chunk that ends before `end`. */
  function Judged(response: Response, offset: nat, end: nat, totalSize: nat): Progress {
    if 200 <= response.status < 300 then Finished(response)
    else if response.status != 308 then Failed("resumable upload")
    else
      var next := ParseNextOffset(response.range).GetOr(end);
      if next > totalSize then Failed("next offset past the end")
      else if next <= offset then Failed("non-increasing offset")
      else Continue(next)
  }

  /** Any 2xx answer ends the upload, 308 with an offset past the last one goes on, all else fails. */
  lemma AnswerMeaning(response: Response, offset: nat, end: nat, totalSize: nat)
    ensures var p, reported := Judged(response, offset, end, totalSize), ParseNextOffset(response.range);
            && (p == Finished(response) <==> response.status / 100 == 2)
            && (forall next: nat :: p == Continue(next) <==>
                  && response.status == 308 && offset < next <= totalSize
                  && (reported == Some(next) || (reported.None? && next == end)))
  {
    hide ParseNextOffset;
  }

  /**
   What one round comes to, whatever the server already had and takes now: it is finished
   when the server then holds the file, goes on when the server reports progress past the
   offset or nothing at all, and fails otherwise.
  */
  predicate Finishes(total: nat, offset: nat, received: nat, accept: Option<nat>) {
    offset <= received && offset <= total && accept.Some? && HeldAfter(total, offset, received, accept.value) == total
  }

  predicate GoesOn(total: nat, offset: nat, received: nat, accept: Option<nat>) {
    offset <= received && offset <= total && accept.Some?
    && var held := HeldAfter(total, offset, received, accept.value);
       held < total && (offset < held || held == 0)
  }

  lemma JudgedReply(data: Bytes, total: nat, offset: nat, received: Bytes, accept: Option<nat>)
    requires total <= U64_MAX && Readable(data, total, offset) && HoldsPrefix(received, data, total)
    ensures var (held, response) := Reply(total, received, accept, ChunkRequest(data, total, offset));
            var p := Judged(response, offset, offset + ChunkSize(total, offset), total);
            && HoldsPrefix(held, data, total) && |received| <= |held|
            && |held| == (if offset <= |received| && accept.Some?
                          then HeldAfter(total, offset, |received|, accept.value) else |received|)
            && (p.Finished? <==> Finishes(total, offset, |received|, accept))
            && (p.Continue? <==> GoesOn(total, offset, |received|, accept))
            && (p.Continue? ==> p.next == if |held| > 0 then |held| else offset + ChunkSize(total, offset))
  {
    ReplyToChunk(data, total, offset, received, accept);
    HeldAfterBounds(data, total, offset, received, accept.GetOr(0));
    hide Reply, ChunkRequest, ParseNextOffset, HoldsPrefix, HeldAfter;
  }

  lemma HeldAfterBounds(data: Bytes, total: nat, offset: nat, received: Bytes, n: nat)
    requires Readable(data, total, offset) && HoldsPrefix(received, data, total)
    ensures |received| <= HeldAfter(total, offset, |received|, n) <= total
  {
  }

  function Rest(script: seq<nat>): seq<nat> {
    if script == [] then [] else script[1..]
  }

  /** Read a chunk, send it, and check the answer. */
  method SendReadable(server: Server, data: Bytes, totalSize: nat, offset: nat) returns (p: Progress)
    requires Readable(data, totalSize, offset)
    modifies server
    ensures server.log == old(server.log) + [ChunkRequest(data, totalSize, offset)]
    ensures server.held == old(server.held) + [|server.received|]
    ensures var (held, response) := Reply(server.total, old(server.received), old(server.NextAccept()),
        ChunkRequest(data, totalSize, offset));
            server.received == held && p == Judged(response, offset, offset + ChunkSize(totalSize, offset), totalSize)
    ensures server.script == Rest(old(server.script))
  {
    hide Reply, Judged;
    var end := offset + ChunkSize(totalSize, offset) - 1;
    var response := server.Put(Request(SpanText(offset, end, totalSize), data[offset..end + 1]));
    p := Judged(response, offset, end + 1, totalSize);
  }

  /** One round of the loop. */
  method SendChunk(server: Server, data: Bytes, totalSize: nat, offset: nat) returns (p: Progress)
    requires totalSize == server.total <= U64_MAX && offset < totalSize
    requires HoldsPrefix(server.received, data, totalSize)
    modifies server
    ensures HoldsPrefix(server.received, data, totalSize) && |old(server.received)| <= |server.received|
    ensures !Readable(data, totalSize, offset) ==>
              p.Failed? && server.log == old(server.log) && server.held == old(server.held)
                  && server.received == old(server.received)
    ensures Readable(data, totalSize, offset) ==>
              && server.log == old(server.log) + [ChunkRequest(data, totalSize, offset)]
              && server.held == old(server.held) + [|server.received|]
    ensures p.Finished? <==>
              Readable(data, totalSize, offset)
              && Finishes(totalSize, offset, |old(server.received)|, old(server.NextAccept()))
    ensures p.Continue? <==>
              Readable(data, totalSize, offset)
              && GoesOn(totalSize, offset, |old(server.received)|, old(server.NextAccept()))
    ensures p.Continue? ==>
              p.next == if server.received != [] then |server.received| else offset + ChunkSize(totalSize, offset)
    ensures Readable(data, totalSize, offset) ==>
              && server.script == Rest(old(server.script))
              && |server.received|
                 == if offset <= |old(server.received)| && old(server.NextAccept()).Some?
                    then HeldAfter(totalSize, offset, |old(server.received)|, old(server.NextAccept()).value)
                    else |old(server.received)|
  {
    if offset + ChunkSize(totalSize, offset) > |data| { return Failed("read chunk"); }
    JudgedReply(data, totalSize, offset, server.received, server.NextAccept());
    hide Reply, Judged, ChunkRequest, HoldsPrefix;
    p := SendReadable(server, data, totalSize, offset);
  }

  /** One request per known offset, each for the chunk at that offset. */
  ghost predicate InOrder(data: Bytes, total: nat, offsets: seq<nat>, sent: seq<Request>) {
    && |sent| <= |offsets|
    && forall i :: 0 <= i < |sent| ==>
         Readable(data, total, offsets[i]) && sent[i] == ChunkRequest(data, total, offsets[i])
  }

  /** Offsets only grow and stay inside the file. */
  ghost predicate Advancing(offsets: seq<nat>, total: nat) {
    && (forall i, j :: 0 <= i < j < |offsets| ==> offsets[i] < offsets[j])
    && (forall i :: 0 <= i < |offsets| ==> offsets[i] <= total)
  }

  /** The offset reported after a request is not ahead of what the server held then. */
  ghost predicate NeverAhead(reported: seq<nat>, held: seq<nat>) {
    |reported| <= |held| && forall i :: 0 <= i < |reported| ==> reported[i] <= held[i]
  }

  /** The server has something already, or takes something of the next request. */
  predicate FirstBytesTaken(received: Bytes, accept: Option<nat>) {
    received != [] || accept != Some(0)
  }

  /**
   What an upload from `start` did: the requests `sent` carry the chunks at the start and
   at the reported offsets, there are no more of them than missing bytes, offsets only
   grow, and they are never ahead of the server exactly when the first bytes were taken.
  */
  ghost predicate UploadTrace(
    data: Bytes, total: nat, start: nat, reported: seq<nat>, sent: seq<Request>, held: seq<nat>, taken: bool)
  {
    && start <= total
    && InOrder(data, total, [start] + reported, sent) && |reported| <= |sent| <= total - start && |sent| == |held|
    && Advancing([start] + reported, total)
    && (taken || reported == [] <==> NeverAhead(reported, held))
  }

  /** The trace between two rounds. */
  ghost predicate BetweenRounds(
    data: Bytes, total: nat, start: nat, reported: seq<nat>, sent: seq<Request>, held: seq<nat>, taken: bool,
    offset: nat)
  {
    && UploadTrace(data, total, start, reported, sent, held, taken)
    && |sent| == |reported| <= offset - start && offset == ([start] + reported)[|reported|] <= total
  }

  lemma RoundSent(
    data: Bytes, total: nat, start: nat, reported: seq<nat>, sent: seq<Request>, held: seq<nat>, taken: bool,
    offset: nat, now: nat)
    requires BetweenRounds(data, total, start, reported, sent, held, taken, offset) && Readable(data, total, offset)
    ensures UploadTrace(data, total, start, reported, sent + [ChunkRequest(data, total, offset)], held + [now], taken)
  {
    hide ChunkRequest, Advancing;
    NextSent(data, total, [start] + reported, sent);
    assert NeverAhead(reported, held + [now]) <==> NeverAhead(reported, held);
  }

  lemma RoundReported(
    data: Bytes, total: nat, start: nat, reported: seq<nat>, sent: seq<Request>, held: seq<nat>, taken: bool,
    offset: nat, now: nat,
    next: nat)
    requires BetweenRounds(data, total, start, reported, sent, held, taken, offset) && Readable(data, total, offset)
    requires offset < next <= total && (taken ==> next <= now) && (!taken && reported == [] ==> now < next)
    ensures BetweenRounds(data, total, start, reported + [next], sent + [ChunkRequest(data, total, offset)],
        held + [now], taken, next)
  {
    hide Readable, ChunkRequest, Advancing, InOrder, NeverAhead;
    assert [start] + (reported + [next]) == [start] + reported + [next];
    assert (held + [now])[..|reported|] == held && (held + [now])[|reported|] == now;
    NextSent(data, total, [start] + reported, sent);
    NextReported([start] + reported, total, reported, held + [now], next);
  }

  /** How the reported offsets stand to what the server holds, before a round. */
  ghost predicate InTouch(
      received: Bytes, accept: Option<nat>, reported: seq<nat>, taken: bool, offset: nat)
  {
    && (reported == [] ==> (taken <==> FirstBytesTaken(received, accept)))
    && (reported != [] && taken ==> received != [] && offset <= |received|)
  }

  lemma HeldFacts(total: nat, offset: nat, received: nat, accept: Option<nat>)
    requires offset < total && received <= total
    ensures accept.Some? ==>
              var held := HeldAfter(total, offset, received, accept.value);
              received <= held <= total && (held == 0 <==> received == 0 && accept == Some(0))
    ensures offset < offset + ChunkSize(total, offset) <= total
  {
  }

  /** From these offsets the script brings the server to the whole file, each round past the last. */
  ghost predicate Reaches(total: nat, offset: nat, received: nat, script: seq<nat>)
    decreases |script|
  {
    script != [] && offset <= received && offset < total
    && var held := HeldAfter(total, offset, received, script[0]);
       held == total || (offset < held && Reaches(total, held, held, script[1..]))
  }

  /** What one round does to the prospects of the upload. */
  lemma RoundReaches(total: nat, offset: nat, received: nat, script: seq<nat>)
    requires offset < total && received <= total
    ensures var accept := if script == [] then None else Some(script[0]);
            && (Finishes(total, offset, received, accept) ==> Reaches(total, offset, received, script))
            && (!Finishes(total, offset, received, accept) && !GoesOn(total, offset, received, accept) ==>
                  !Reaches(total, offset, received, script))
            && (GoesOn(total, offset, received, accept) ==>
                  var held := HeldAfter(total, offset, received, script[0]);
                  var next := if held > 0 then held else offset + ChunkSize(total, offset);
                  Reaches(total, offset, received, script) <==> Reaches(total, next, held, Rest(script)))
  {
  }

  /** A server that takes something of every request gets the whole file. */
  lemma {:induction false} PositiveScriptReaches(total: nat, offset: nat, received: nat, script: seq<nat>)
    requires offset <= received <= total && offset < total
    requires |script| >= total - offset && forall i :: 0 <= i < total - offset ==> script[i] > 0
    ensures Reaches(total, offset, received, script)
    decreases |script|
  {
    var held := HeldAfter(total, offset, received, script[0]);
    assert script[0] > 0;
    if held != total {
      assert offset < held;
      PositiveScriptReaches(total, held, held, script[1..]);
    }
  }

  /** One turn of the loop, with the trace kept up to date. */
  method UploadRound(
    server: Server, data: Bytes, totalSize: nat, offset: nat, ghost start: nat, ghost reported: seq<nat>,
    ghost sent: seq<Request>, ghost held: seq<nat>, ghost taken: bool, ghost log0: seq<Request>, ghost held0: seq<nat>)
    returns (p: Progress, ghost sent': seq<Request>, ghost held': seq<nat>)
    requires totalSize == server.total <= U64_MAX && offset < totalSize && HoldsPrefix(server.received, data, totalSize)
    requires server.log == log0 + sent && server.held == held0 + held
    requires BetweenRounds(data, totalSize, start, reported, sent, held, taken, offset)
    requires InTouch(server.received, server.NextAccept(), reported, taken, offset)
    modifies server
    ensures HoldsPrefix(server.received, data, totalSize)
    ensures server.log == log0 + sent' && server.held == held0 + held'
    ensures !p.Failed? ==> offset <= |old(server.received)| <= |server.received|
    ensures p.Finished? ==> |server.received| == totalSize
    ensures !p.Continue? ==> UploadTrace(data, totalSize, start, reported, sent', held', taken)
    ensures p.Continue? ==>
              && p.next <= totalSize && offset < p.next
              && BetweenRounds(data, totalSize, start, reported + [p.next], sent', held', taken, p.next)
              && InTouch(server.received, server.NextAccept(), reported + [p.next], taken, p.next)
    ensures !taken && reported == [] && offset == 0 && Readable(data, totalSize, 0) ==> p.Continue?
    ensures totalSize <= |data| ==>
              var reaches := Reaches(totalSize, offset, |old(server.received)|, old(server.script));
              && (p.Finished? ==> reaches) && (p.Failed? ==> !reaches)
              && (p.Continue? ==>
                    (reaches <==> Reaches(totalSize, p.next, |server.received|, server.script)))
  {
    hide UploadTrace, BetweenRounds, ChunkRequest, HoldsPrefix, Readable, Reply, Judged, HeldAfter, Reaches;
    if totalSize <= |data| { AllReadable(data, totalSize, offset); }
    PrefixFits(server.received, data, totalSize);
    RoundReaches(totalSize, offset, |server.received|, server.script);
    HeldFacts(totalSize, offset, |server.received|, server.NextAccept());
    TraceOf(data, totalSize, start, reported, sent, held, taken, offset);
    sent', held' := sent, held;
    p := SendChunk(server, data, totalSize, offset);
    if Readable(data, totalSize, offset) {
      sent', held' := sent + [ChunkRequest(data, totalSize, offset)], held + [|server.received|];
      if p.Continue? {
        RoundReported(data, totalSize, start, reported, sent, held, taken, offset, |server.received|, p.next);
      } else {
        RoundSent(data, totalSize, start, reported, sent, held, taken, offset, |server.received|);
      }
    }
  }

  /**
   `upload_resumable_bytes` for a non-empty file. It succeeds exactly when every answer
   brings progress up to the whole file, and then the server holds it. An answer without a
   `Range` header counts as full acceptance, which is why the offsets run ahead of a server
   that holds nothing and takes nothing. A stored offset that is ahead of the server fails
   without any progress.
  */
  method UploadResumableBytes(server: Server, data: Bytes, totalSize: nat, startOffset: nat)
    returns (r: Result<Response, string>, reported: seq<nat>, ghost sent: seq<Request>, ghost held: seq<nat>)
    requires 0 < totalSize == server.total <= U64_MAX
    requires HoldsPrefix(server.received, data, totalSize)
    modifies server
    ensures r.Ok? <==>
              totalSize <= |data| && Reaches(totalSize, startOffset, |old(server.received)|, old(server.script))
    ensures r.Ok? ==> server.received == data[..totalSize]
    ensures HoldsPrefix(server.received, data, totalSize)
    ensures totalSize <= |data| && startOffset <= |old(server.received)| && startOffset < totalSize
            && totalSize - startOffset <= |old(server.script)|
            && (forall i :: 0 <= i < totalSize - startOffset ==> old(server.script)[i] > 0) ==>
              r.Ok?
    ensures server.log == old(server.log) + sent && server.held == old(server.held) + held
    ensures UploadTrace(data, totalSize, Min(startOffset, totalSize), reported, sent, held,
                        FirstBytesTaken(old(server.received), old(server.NextAccept())))
    ensures startOffset == 0 && Readable(data, totalSize, 0) ==>
              FirstBytesTaken(old(server.received), old(server.NextAccept())) || reported != []
    ensures startOffset > |old(server.received)| ==> r.Err? && reported == []
  {
    ghost var log0, held0, taken := server.log, server.held, FirstBytesTaken(server.received, server.NextAccept());
    sent, held := [], [];
    var offset := Min(startOffset, totalSize);
    ghost var start := offset;
    reported := [];
    assert BetweenRounds(data, totalSize, start, reported, sent, held, taken, offset);
    ghost var reaches := Reaches(totalSize, startOffset, |server.received|, server.script);
    Prospects(data, totalSize, startOffset, server.received, server.script);
    hide UploadTrace, BetweenRounds, HoldsPrefix, Readable, Reaches;
    while true
      invariant offset <= totalSize && HoldsPrefix(server.received, data, totalSize)
      invariant server.log == log0 + sent && server.held == held0 + held
      invariant BetweenRounds(data, totalSize, start, reported, sent, held, taken, offset)
      invariant InTouch(server.received, server.NextAccept(), reported, taken, offset)
      invariant totalSize <= |data| ==>
                  (reaches <==> Reaches(totalSize, offset, |server.received|, server.script))
      invariant reported == [] ==> offset == start && server.received == old(server.received)
      invariant reported != [] ==> startOffset <= |old(server.received)|
      decreases totalSize - offset
    {
      if totalSize - offset == 0 {
        TraceOf(data, totalSize, start, reported, sent, held, taken, offset);
        AtTheEnd(totalSize, |server.received|, server.script);
        r := Err("no remaining bytes");
        return;
      }
      var p;
      p, sent, held := UploadRound(server, data, totalSize, offset, start, reported, sent, held, taken, log0, held0);
      match p {
        case Finished(response) =>
          Whole(server.received, data, totalSize);
          r := Ok(response);
          return;
        case Failed(error) =>
          r := Err(error);
          return;
        case Continue(next) =>
          offset := next;
          reported := reported + [next];
      }
    }
  }

  /** Nothing is reached from the end of the file on. */
  lemma AtTheEnd(total: nat, received: nat, script: seq<nat>)
    ensures !Reaches(total, total, received, script)
  {
  }

  lemma Prospects(data: Bytes, total: nat, start: nat, received: Bytes, script: seq<nat>)
    requires HoldsPrefix(received, data, total)
    ensures Reaches(total, start, |received|, script) <==> Reaches(total, Min(start, total), |received|, script)
    ensures start <= |received| && start < total
            && total - start <= |script| && (forall i :: 0 <= i < total - start ==> script[i] > 0) ==>
              Reaches(total, start, |received|, script)
  {
    if start <= |received| && start < total
       && total - start <= |script| && (forall i :: 0 <= i < total - start ==> script[i] > 0)
    {
      PositiveScriptReaches(total, start, |received|, script);
    }
  }

  lemma TraceOf(
    data: Bytes, total: nat, start: nat, reported: seq<nat>, sent: seq<Request>, held: seq<nat>, taken: bool,
    offset: nat)
    requires BetweenRounds(data, total, start, reported, sent, held, taken, offset)
    ensures UploadTrace(data, total, start, reported, sent, held, taken)
  {
  }

  lemma AllReadable(data: Bytes, total: nat, offset: nat)
    requires offset < total <= |data|
    ensures Readable(data, total, offset)
  {
  }

  lemma PrefixFits(received: Bytes, data: Bytes, total: nat)
    requires HoldsPrefix(received, data, total)
    ensures |received| <= total
  {
  }

  lemma Whole(received: Bytes, data: Bytes, total: nat)
    requires HoldsPrefix(received, data, total) && |received| == total
    ensures total <= |data| && received == data[..total]
  {
  }

  lemma NextSent(data: Bytes, total: nat, offsets: seq<nat>, sent: seq<Request>)
    requires InOrder(data, total, offsets, sent) && |offsets| == |sent| + 1 && Readable(data, total, offsets[|sent|])
    ensures InOrder(data, total, offsets, sent + [ChunkRequest(data, total, offsets[|sent|])])
    ensures forall next: nat :: InOrder(data, total, offsets + [next],
        sent + [ChunkRequest(data, total, offsets[|sent|])])
  {
    hide Readable, ChunkRequest;
  }

  lemma NextReported(offsets: seq<nat>, total: nat, reported: seq<nat>, held: seq<nat>, next: nat)
    requires Advancing(offsets, total) && offsets != [] && offsets[|offsets| - 1] < next <= total
    requires |held| == |reported| + 1
    ensures Advancing(offsets + [next], total)
    ensures NeverAhead(reported + [next], held) <==>
              NeverAhead(reported, held[..|reported|]) && next <= held[|reported|]
    ensures NeverAhead(reported, held) <==> NeverAhead(reported, held[..|reported|])
  {
    assert offsets[|offsets| - 1] < next;
    assert forall i :: 0 <= i < |offsets| ==> offsets[i] <= offsets[|offsets| - 1];
    var r' := reported + [next];
    assert r'[|reported|] == next;
    assert forall i :: 0 <= i < |reported| ==> r'[i] == reported[i];
  }
}
