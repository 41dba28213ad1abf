/**
 The noVNC upgrade proxy holds back the upstream's response until its head is complete
 (apps/web/vite.config.ts), looking for the head terminator only in a three-byte tail
 plus the newest chunk. Bytes reach the browser only after the head has been filtered.
 */
module HandshakeBoundary {
  import opened Options
  import opened Wire
  import opened HandshakeHeaders

  const HEAD_LIMIT: nat := 64 * 1024

  ghost predicate HasTerminator(s: Bytes) {
    exists i :: TerminatorAt(s, i)
  }

  /** The offset of the first terminator. */
  ghost predicate FirstTerminator(s: Bytes, i: int) {
    TerminatorAt(s, i) && forall j :: j < i ==> !TerminatorAt(s, j)
  }

  lemma HasTerminatorExactly(s: Bytes)
    ensures HasTerminator(s) <==> exists i :: 0 <= i <= |s| && [13, 10, 13, 10] <= s[i..]
  {
    if HasTerminator(s) {
      var i :| TerminatorAt(s, i);
      assert [13, 10, 13, 10] <= s[i..];
    }
    if i :| 0 <= i <= |s| && [13, 10, 13, 10] <= s[i..] {
      assert forall k :: 0 <= k < 4 ==> s[i..][k] == s[i + k];
      assert s[i..][0] == 13 && s[i..][1] == 10 && s[i..][2] == 13 && s[i..][3] == 10;
      assert TerminatorAt(s, i);
    }
  }

  function Concat(chunks: seq<Bytes>): Bytes {
    if chunks == [] then [] else Concat(chunks[..|chunks| - 1]) + chunks[|chunks| - 1]
  }

  function LastThree(s: Bytes): Bytes {
    if |s| <= 3 then s else s[|s| - 3..]
  }

  /** `Buffer.indexOf` for the terminator. */
  method IndexOfTerminator(s: Bytes) returns (index: int)
    ensures index < 0 ==> !HasTerminator(s)
    ensures index >= 0 ==> FirstTerminator(s, index)
  {
    index := 0;
    while index + 4 <= |s|
      invariant 0 <= index
      invariant forall j :: j < index ==> !TerminatorAt(s, j)
    {
      if TerminatorAt(s, index) {
        return;
      }
      index := index + 1;
    }
    index := -1;
  }

  /** A terminator completed by `chunk` starts within the last three bytes received before it. */
  lemma TailSuffices(received: Bytes, chunk: Bytes)
    requires !HasTerminator(received)
    ensures HasTerminator(LastThree(received) + chunk) <==> HasTerminator(received + chunk)
    ensures LastThree(LastThree(received) + chunk) == LastThree(received + chunk)
  {
    var whole, local := received + chunk, LastThree(received) + chunk;
    var cut := |received| - |LastThree(received)|;
    assert whole[cut..] == local;
    if HasTerminator(local) {
      var i :| TerminatorAt(local, i);
      assert TerminatorAt(whole, cut + i);
    }
    if HasTerminator(whole) {
      var i :| TerminatorAt(whole, i);
      assert !TerminatorAt(received, i);
      assert TerminatorAt(local, i - cut);
    }
  }

  /** Later bytes never move the first terminator. */
  lemma FirstTerminatorStable(s: Bytes, more: Bytes, i: int)
    requires FirstTerminator(s, i)
    ensures FirstTerminator(s + more, i)
  {
    forall j | j <= i ensures TerminatorAt(s + more, j) <==> TerminatorAt(s, j) { }
  }

  lemma FirstTerminatorExists(s: Bytes, i: int)
    requires TerminatorAt(s, i)
    ensures exists k :: FirstTerminator(s, k)
    decreases i
  {
    if exists j :: j < i && TerminatorAt(s, j) {
      var j :| j < i && TerminatorAt(s, j);
      FirstTerminatorExists(s, j);
    } else {
      assert FirstTerminator(s, i);
    }
  }

  /** The offset of the first terminator of a stream that has one. */
  ghost function HeadEnd(s: Bytes): (i: int)
    requires HasTerminator(s)
    ensures FirstTerminator(s, i)
  {
    var any :| TerminatorAt(s, any);
    FirstTerminatorExists(s, any);
    var i :| FirstTerminator(s, i);
    i
  }

  /**
   What the browser must see of an upstream stream: the filtered head, the terminator, and
   every later byte as it came.
   */
  ghost function Delivered(stream: Bytes): Bytes
    requires HasTerminator(stream)
  {
    FilterHead(stream[..HeadEnd(stream)]) + TERMINATOR + stream[HeadEnd(stream) + 4..]
  }

  lemma DeliveredGrows(stream: Bytes, more: Bytes)
    requires HasTerminator(stream)
    ensures HasTerminator(stream + more)
    ensures Delivered(stream + more) == Delivered(stream) + more
  {
    var i := HeadEnd(stream);
    FirstTerminatorStable(stream, more, i);
    assert HeadEnd(stream + more) == i;
    assert (stream + more)[..i] == stream[..i];
    assert (stream + more)[i + 4..] == stream[i + 4..] + more;
  }

  /** The browser finds the end of the head where the proxy put it, and before it exactly the lines it may see. */
  lemma DeliveredHead(stream: Bytes)
    requires HasTerminator(stream)
    ensures var head, seen := stream[..HeadEnd(stream)], Delivered(stream);
            && HasTerminator(seen)
            && Lines(seen[..HeadEnd(seen)]) == SafeLines(Lines(head))
            && (forall line :: line in Lines(seen[..HeadEnd(seen)])[1..] <==>
                               line in Lines(head)[1..] && !Sensitive(line))
            && seen[HeadEnd(seen)..] == stream[HeadEnd(stream)..]
  {
    var end := HeadEnd(stream);
    var head, seen := stream[..end], Delivered(stream);
    var kept := FilterHead(head);
    assert head + TERMINATOR == stream[..end + 4];
    forall j | 0 <= j < |head| ensures !TerminatorAt(head + TERMINATOR, j) {
      assert !TerminatorAt(stream, j);
    }
    FilteredHeadEndsFirst(head);
    FilteredHeadReadsBack(head);
    assert TerminatorAt(seen, |kept|);
    forall j | 0 <= j < |kept| ensures !TerminatorAt(seen, j) {
      assert !TerminatorAt(kept + TERMINATOR, j);
    }
    assert HeadEnd(seen) == |kept| && seen[..|kept|] == kept;
    assert seen[|kept|..] == TERMINATOR + stream[end + 4..];
    assert stream[end..] == TERMINATOR + stream[end + 4..];
  }

  datatype Phase = Listening | Forwarding | Destroyed

  /** The listener installed on one upstream connection. */
  class HandshakeForwarder {
    var responseChunks: seq<Bytes>
    var responseSize: nat
    var responseTail: Bytes
    var phase: Phase
    /** Bytes written to the browser's socket. */
    var written: Bytes
    ghost var received: Bytes

    ghost predicate Valid()
      reads this
    {
      match phase
      case Listening =>
        && responseSize == |received| <= HEAD_LIMIT
        && Concat(responseChunks) == received
        && responseTail == LastThree(received)
        && !HasTerminator(received)
        && written == []
      case Forwarding => HasTerminator(received) && written == Delivered(received)
      case Destroyed => responseSize > HEAD_LIMIT && written == []
    }

    constructor ()
      ensures Valid() && phase == Listening && received == []
    {
      responseChunks, responseSize, responseTail := [], 0, [];
      phase, written, received := Listening, [], [];
    }

    /** The head without its sensitive lines; null when there is no terminator. */
    method StripSensitiveHandshakeHeaders(response: Bytes) returns (safe: Option<Bytes>)
      ensures safe.None? <==> !HasTerminator(response)
      ensures safe.Some? ==> safe.value == Delivered(response)
    {
      var end := IndexOfTerminator(response);
      if end < 0 {
        return None;
      }
      assert HeadEnd(response) == end;
      safe := Some(FilterHead(response[..end]) + TERMINATOR + response[end + 4..]);
    }

    /** One upstream data event; once forwarding, the pipe copies the chunk. */
    method OnData(chunk: Bytes)
      requires Valid()
      modifies this
      ensures Valid()
      ensures received == old(received) + chunk
      ensures phase == Next(old(phase), received)
      ensures old(phase).Forwarding? ==> written == old(written) + chunk
    {
      if phase == Forwarding {
        DeliveredGrows(received, chunk);
        received := received + chunk;
        written := written + chunk;
        return;
      }
      ghost var before := received;
      received := received + chunk;
      responseChunks := responseChunks + [chunk];
      assert responseChunks[..|responseChunks| - 1] == old(responseChunks);
      responseSize := responseSize + |chunk|;
      if responseSize > HEAD_LIMIT {
        phase := Destroyed;
        return;
      }
      TailSuffices(before, chunk);
      var boundarySearch := responseTail + chunk;
      var index := IndexOfTerminator(boundarySearch);
      if index < 0 {
        responseTail := LastThree(boundarySearch);
        return;
      }
      var safe := StripSensitiveHandshakeHeaders(Concat(responseChunks));
      match safe
      case None => assert false;
      case Some(bytes) =>
        phase := Forwarding;
        written := written + bytes;
    }
  }

  /** What the phase after a data event depends on: all the bytes received, not the chunks. */
  ghost function Next(phase: Phase, received: Bytes): Phase {
    if phase != Listening then phase
    else if |received| > HEAD_LIMIT then Destroyed
    else if HasTerminator(received) then Forwarding
    else Listening
  }

  ghost function PhaseAfter(chunks: seq<Bytes>): Phase {
    if chunks == [] then Listening
    else Next(PhaseAfter(chunks[..|chunks| - 1]), Concat(chunks))
  }

  /** The upstream sends `chunks` and then falls silent. */
  method ForwardHandshake(chunks: seq<Bytes>) returns (phase: Phase, written: Bytes)
    ensures phase == PhaseAfter(chunks)
    ensures phase.Forwarding? ==> HasTerminator(Concat(chunks)) && written == Delivered(Concat(chunks))
    ensures !phase.Forwarding? ==> written == []
  {
    var forwarder := new HandshakeForwarder();
    for k := 0 to |chunks|
      invariant forwarder.Valid()
      invariant forwarder.received == Concat(chunks[..k])
      invariant forwarder.phase == PhaseAfter(chunks[..k])
    {
      forwarder.OnData(chunks[k]);
      assert chunks[..k + 1][..k] == chunks[..k];
    }
    assert chunks[..|chunks|] == chunks;
    phase, written := forwarder.phase, forwarder.written;
  }

  /** The first chunk after which the bytes so far hold a terminator. */
  ghost predicate CompletesHead(chunks: seq<Bytes>, k: nat) {
    && k < |chunks|
    && HasTerminator(Concat(chunks[..k + 1]))
    && !HasTerminator(Concat(chunks[..k]))
  }

  lemma {:induction false} PrefixSizes(chunks: seq<Bytes>, k: nat)
    requires k <= |chunks|
    ensures |Concat(chunks[..k])| <= |Concat(chunks)|
    ensures HasTerminator(Concat(chunks[..k])) ==> HasTerminator(Concat(chunks))
  {
    if k == |chunks| {
      assert chunks[..k] == chunks;
    } else {
      var init, last := chunks[..|chunks| - 1], chunks[|chunks| - 1];
      PrefixSizes(init, k);
      assert init[..k] == chunks[..k];
      if HasTerminator(Concat(init)) {
        var i :| TerminatorAt(Concat(init), i);
        assert TerminatorAt(Concat(chunks), i);
      }
    }
  }

  lemma {:induction false} ListeningExactly(chunks: seq<Bytes>)
    ensures PhaseAfter(chunks).Listening? <==>
            !HasTerminator(Concat(chunks)) && |Concat(chunks)| <= 65536
  {
    if chunks != [] {
      ListeningExactly(chunks[..|chunks| - 1]);
      PrefixSizes(chunks, |chunks| - 1);
    }
  }

  lemma {:induction false} ForwardingStays(chunks: seq<Bytes>, k: nat)
    requires k <= |chunks| && PhaseAfter(chunks[..k]).Forwarding?
    ensures PhaseAfter(chunks).Forwarding?
  {
    if k == |chunks| {
      assert chunks[..k] == chunks;
    } else {
      assert chunks[..|chunks| - 1][..k] == chunks[..k];
      ForwardingStays(chunks[..|chunks| - 1], k);
    }
  }

  /** The chunk that completes the head, within the limit, is the one that hands it on. */
  lemma CompletingChunkForwards(chunks: seq<Bytes>, k: nat)
    requires CompletesHead(chunks, k) && |Concat(chunks[..k + 1])| <= 65536
    ensures PhaseAfter(chunks[..k]).Listening? && PhaseAfter(chunks[..k + 1]).Forwarding?
  {
    assert chunks[..k + 1][..k] == chunks[..k];
    PrefixSizes(chunks[..k + 1], k);
    ListeningExactly(chunks[..k]);
  }

  lemma {:induction false} ForwardingHasCompletingChunk(chunks: seq<Bytes>) returns (k: nat)
    requires PhaseAfter(chunks).Forwarding?
    ensures CompletesHead(chunks, k) && |Concat(chunks[..k + 1])| <= 65536
  {
    var n := |chunks| - 1;
    var init := chunks[..n];
    if PhaseAfter(init).Forwarding? {
      k := ForwardingHasCompletingChunk(init);
      assert init[..k] == chunks[..k] && init[..k + 1] == chunks[..k + 1];
    } else {
      k := n;
      assert chunks[..n + 1] == chunks;
      ListeningExactly(init);
    }
  }

  /**
   For every chunking: the head is handed on exactly when the chunk that completes it leaves the
   total within the limit; otherwise nothing is ever handed on.
   */
  lemma ForwardedExactly(chunks: seq<Bytes>)
    ensures PhaseAfter(chunks).Forwarding? <==>
            exists k: nat :: CompletesHead(chunks, k) && |Concat(chunks[..k + 1])| <= 65536
  {
    if PhaseAfter(chunks).Forwarding? {
      var k := ForwardingHasCompletingChunk(chunks);
    }
    if k: nat :| CompletesHead(chunks, k) && |Concat(chunks[..k + 1])| <= 65536 {
      CompletingChunkForwards(chunks, k);
      ForwardingStays(chunks, k + 1);
    }
  }

  /** Two chunkings of one stream that both get through deliver the same bytes. */
  lemma ChunkingIsInvisible(a: seq<Bytes>, b: seq<Bytes>)
    requires Concat(a) == Concat(b)
    requires PhaseAfter(a).Forwarding? && PhaseAfter(b).Forwarding?
    ensures HasTerminator(Concat(a)) && HasTerminator(Concat(b))
    ensures Delivered(Concat(a)) == Delivered(Concat(b))
  {
    var k := ForwardingHasCompletingChunk(a);
    PrefixSizes(a, k + 1);
  }
}
