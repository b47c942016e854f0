/**
 The writing half of http/MessageStream.cpp: the response header, the choice of chunked coding, and the encoder.
 */
module Messages {
  import opened Bytes
  import opened Chunked

  // The chunked encoder: what write does once the header is out

  /** m_write_remaining, and what has been written behind the header. */
  datatype Coder = Coder(remaining: int, out: Bytes)

  /** The line in front of a chunk of n bytes. */
  function Started(k: Coder, n: nat): Coder {
    if k.remaining <= 0 then Coder(n, k.out + (if k.remaining == 0 then CRLF else []) + Hex(n) + CRLF) else k
  }

  /** One write of data, of which the streams below accept at most accept bytes; also the number of bytes consumed. */
  function Fed(k: Coder, data: Bytes, accept: nat): (Coder, nat) {
    var n := |data|;
    var k1 := Started(k, n);
    if n == 0 then (k1, 0)
    else
      var na := Min(n, accept);
      (Coder(k1.remaining - na, k1.out + data[..na]), na)
  }

  /** What Closing adds. */
  function Finished(k: Coder): Bytes {
    k.out + CRLF + LAST
  }

  // The whole stream

  /** What build_header finds in the request and the response, and the text it builds. */
  datatype Facts = Facts(newerThan10: bool, requestClose: bool, responseClose: bool, hasBody: bool, hasLength: bool,
                         header: Bytes)

  predicate Persists(f: Facts) {
    f.newerThan10 && !f.requestClose && !f.responseClose
  }

  predicate ChoosesChunked(f: Facts) {
    f.hasBody && !f.hasLength && Persists(f)
  }

  /**
   What the built header says about where the message ends: whether the connection persists, and whether there is a
   Content-Length, a chunked Transfer-Encoding, and a "Connection: close".
   */
  datatype Announced = Announced(persist: bool, length: bool, coding: bool, close: bool)

  function Announcement(f: Facts): Announced {
    Announced(Persists(f), f.hasBody && f.hasLength, ChoosesChunked(f),
              f.responseClose || (f.newerThan10 && f.requestClose))
  }

  /** The fields of the stream; awake tells whether the Writeable event is enabled. */
  datatype State = State(transparent: bool, headersSent: bool, buffer: Option<Bytes>, chunked: bool, remaining: int,
                         bytesWritten: int, finished: bool, wire: Bytes, announced: Option<Announced>, awake: bool)

  const FRESH := State(false, false, None, false, 0, 0, false, [], None, false)

  function HeaderBuilt(f: Facts, st: State): State {
    st.(buffer := Some(f.header), chunked := st.chunked || ChoosesChunked(f),
        remaining := if ChoosesChunked(f) then -1 else st.remaining, announced := Some(Announcement(f)), awake := true)
  }

  function HeaderWritten(st: State, accept: nat): State
    requires st.buffer.Some?
  {
    var text := st.buffer.value;
    var na := Min(|text|, accept);
    st.(wire := st.wire + text[..na], buffer := if na == |text| then None else Some(text[na..]),
        headersSent := st.headersSent || na == |text|)
  }

  function HeaderPhase(f: Facts, st: State, accept: nat): State {
    if st.headersSent then st
    else HeaderWritten(if st.buffer.None? then HeaderBuilt(f, st) else st, accept)
  }

  /** write: the new state, and the number of bytes consumed. */
  function Written(f: Facts, st: State, data: Bytes, acceptHeader: nat, accept: nat): (State, nat) {
    var st1 := HeaderPhase(f, st, acceptHeader);
    var na := Min(|data|, accept);
    if st1.transparent then (st1.(wire := st1.wire + data[..na]), na)
    else if !st1.headersSent then (st1, 0)
    else if st1.chunked then
      var (k, fed) := Fed(Coder(st1.remaining, st1.wire), data, accept);
      (st1.(wire := k.out, remaining := k.remaining, bytesWritten := st1.bytesWritten + fed,
            finished := st1.finished || data == []), fed)
    else
      (st1.(wire := st1.wire + data[..na], remaining := st1.remaining - na, bytesWritten := st1.bytesWritten + na), na)
  }

  /** The Writeable event. */
  function Awoken(st: State, accept: nat): (State, Condition) {
    var st1 := if !st.headersSent && st.buffer.Some? then HeaderWritten(st, accept) else st;
    if st1.headersSent then (st1.(awake := false), if st1.finished then End else Ok) else (st1, Ok)
  }

  /**
   The Closing event. As long as the header is not out, a header that has been built is written on, and the answer is
   that of the streams below; if there is none, the page that send_simple_response makes is written instead.
   */
  function Closed(simple: Facts, st: State, page: Bytes, acceptHeader: nat, accept: nat, below: Condition)
    : (State, Condition)
  {
    if st.headersSent then
      (if st.chunked then st.(wire := Finished(Coder(st.remaining, st.wire))) else st, Ok)
    else if st.buffer.Some? then (HeaderWritten(st, acceptHeader), below)
    else (Written(simple, st, page, acceptHeader, accept).0, Wait)
  }

  /** set_transparent: from then on what is written goes past the stream. */
  function MadeTransparent(f: Facts, st: State, accept: nat): State {
    HeaderWritten(HeaderBuilt(f, st.(transparent := true)), accept)
  }

  class MessageStream {
    var facts: Facts
    var transparent: bool
    var headersSent: bool
    var buffer: Option<Bytes>
    var writeChunked: bool
    var writeRemaining: int
    var bytesWritten: int
    var finished: bool
    var wire: Bytes
    var announced: Option<Announced>
    var awake: bool

    function Abs(): State
      reads this
    {
      State(transparent, headersSent, buffer, writeChunked, writeRemaining, bytesWritten, finished, wire, announced,
            awake)
    }

    constructor (facts: Facts)
      ensures this.facts == facts && Abs() == FRESH
    {
      this.facts := facts;
      transparent := false;
      headersSent := false;
      buffer := None;
      writeChunked := false;
      writeRemaining := 0;
      bytesWritten := 0;
      finished := false;
      wire := [];
      announced := None;
      awake := false;
    }

    method BuildHeader()
      modifies this
      ensures facts == old(facts) && buffer.Some? && Abs() == HeaderBuilt(facts, old(Abs()))
    {
      var persist := facts.newerThan10;
      var close, length, coding := facts.responseClose, facts.hasLength, false;
      if persist {
        if facts.requestClose {
          close := true;
          persist := false;
        } else if facts.responseClose {
          persist := false;
        }
      }
      if facts.hasBody {
        if !facts.hasLength {
          if persist {
            writeChunked := true;
            writeRemaining := -1;
            coding := true;
            close := false;
          }
        }
      } else {
        length := false;
      }
      announced := Some(Announced(persist, length, coding, close));
      buffer := Some(facts.header);
      awake := true;
    }

    method WriteHeader(accept: nat)
      requires buffer.Some?
      modifies this
      ensures facts == old(facts) && Abs() == HeaderWritten(old(Abs()), accept)
    {
      var na := Min(|buffer.value|, accept);
      wire := wire + buffer.value[..na];
      buffer := Some(buffer.value[na..]);
      if |buffer.value| == 0 {
        buffer := None;
        headersSent := true;
      }
    }

    method Write(data: Bytes, acceptHeader: nat, accept: nat) returns (na: nat)
      modifies this
      ensures facts == old(facts) && (Abs(), na) == Written(facts, old(Abs()), data, acceptHeader, accept)
    {
      hide Fed, HeaderWritten, HeaderBuilt;
      na := 0;
      if !headersSent {
        if buffer.None? {
          BuildHeader();
        }
        WriteHeader(acceptHeader);
      }
      if transparent {
        na := Min(|data|, accept);
        wire := wire + data[..na];
        return;
      }
      if headersSent {
        na := WriteBody(data, accept);
      }
    }

    /** The part of write behind the header. */
    method WriteBody(data: Bytes, accept: nat) returns (na: nat)
      modifies this
      ensures facts == old(facts)
      ensures var (k, fed) := Fed(Coder(old(writeRemaining), old(wire)), data, accept);
              if writeChunked then
                && Abs() == old(Abs()).(wire := k.out, remaining := k.remaining,
                                        finished := old(finished) || data == [],
                                        bytesWritten := old(bytesWritten) + fed)
                && na == fed
              else
                && na == Min(|data|, accept)
                && Abs() == old(Abs()).(wire := old(wire) + data[..na], remaining := old(writeRemaining) - na,
                                        bytesWritten := old(bytesWritten) + na)
    {
      hide Hex;
      var n := |data|;
      if writeChunked {
        BeginChunk(n);
        if n == 0 {
          finished := true;
          return 0;
        }
      }
      na := Min(n, accept);
      wire := wire + data[..na];
      bytesWritten := bytesWritten + na;
      writeRemaining := writeRemaining - na;
    }

    /** The line in front of a chunk of n bytes, unless part of a chunk is still to be written. */
    method BeginChunk(n: nat)
      modifies `wire, `writeRemaining
      ensures Coder(writeRemaining, wire) == Started(Coder(old(writeRemaining), old(wire)), n)
    {
      if writeRemaining <= 0 {
        wire := wire + (if writeRemaining == 0 then CRLF else []) + Hex(n) + CRLF;
        writeRemaining := n;
      }
    }

    method SetTransparent(accept: nat)
      modifies this
      ensures facts == old(facts) && Abs() == MadeTransparent(facts, old(Abs()), accept)
    {
      transparent := true;
      BuildHeader();
      WriteHeader(accept);
    }

    /** The Writeable event. */
    method OnWriteable(accept: nat) returns (c: Condition)
      modifies this
      ensures facts == old(facts) && (Abs(), c) == Awoken(old(Abs()), accept)
    {
      if !headersSent && buffer.Some? {
        WriteHeader(accept);
      }
      if headersSent {
        awake := false;
        if finished {
          return End;
        }
      }
      return Ok;
    }

    /** The Closing event; simple is what build_header would find for the page of send_simple_response. */
    method Close(simple: Facts, page: Bytes, acceptHeader: nat, accept: nat, below: Condition) returns (c: Condition)
      modifies this
      ensures (Abs(), c) == Closed(simple, old(Abs()), page, acceptHeader, accept, below)
    {
      hide HeaderWritten, Written;
      if !headersSent {
        if buffer.Some? {
          WriteHeader(acceptHeader);
          return below;
        } else {
          facts := simple;
          var na := Write(page, acceptHeader, accept);
          return Wait;
        }
      }
      if writeChunked {
        wire := wire + CRLF + ([48] + CRLF + CRLF);
      }
      return Ok;
    }
  }

  // What the encoder's output is at any time

  /** Whole chunks cs are out, and part of a further one of which remaining bytes are still to come. */
  ghost predicate IsOpen(k: Coder, sent: Bytes, cs: seq<Bytes>, part: Bytes) {
    && NoEmpty(cs) && k.remaining >= 0 && |part| + k.remaining > 0
    && sent == Flatten(cs) + part
    && k.out == Chunks(cs) + (Hex(|part| + k.remaining) + CRLF + part)
  }

  ghost predicate Open(k: Coder, sent: Bytes) {
    exists cs, part :: IsOpen(k, sent, cs, part)
  }

  /** A last chunk is out already, although more is still to be written. */
  ghost predicate IsSpoiled(k: Coder, cs: seq<Bytes>, t: Bytes) {
    && NoEmpty(cs) && k.remaining >= 0
    && k.out == Chunks(cs) + ([48] + CRLF + t)
    && ((t == [] && k.remaining == 0) || CRLF <= t)
  }

  ghost predicate Spoiled(k: Coder) {
    exists cs, t :: IsSpoiled(k, cs, t)
  }

  /** A write of n bytes that finishes a partly accepted chunk before it starts a new one. */
  predicate Orderly(k: Coder, n: nat) {
    k.remaining > 0 ==> n <= k.remaining
  }

  /** A write of no bytes where a chunk would start. */
  predicate EndsEarly(k: Coder, n: nat) {
    k.remaining <= 0 && n == 0
  }

  lemma CloseChunk(k: Coder, sent: Bytes, cs: seq<Bytes>, part: Bytes)
    requires IsOpen(k, sent, cs, part) && k.remaining == 0
    ensures k.out + CRLF == Chunks(cs + [part]) && sent == Flatten(cs + [part]) && NoEmpty(cs + [part])
  {
    ChunksSnoc(cs, part);
    FlattenSnoc(cs, part);
    assert Chunk(part) == Hex(|part|) + CRLF + part + CRLF;
    ConcatAssoc(Chunks(cs), Hex(|part|) + CRLF + part, CRLF);
  }

  /** Starting a chunk for data behind whole chunks cs. */
  lemma StartChunk(k: Coder, sent: Bytes, data: Bytes, accept: nat, cs: seq<Bytes>)
    requires k.remaining == 0 || k.remaining == -1
    requires (if k.remaining == 0 then k.out + CRLF else k.out) == Chunks(cs) && NoEmpty(cs) && sent == Flatten(cs)
    ensures var (k', na) := Fed(k, data, accept);
            if data == [] then Spoiled(k') else Open(k', sent + data[..na])
  {
    HexOfZero();
    hide Hex, Chunks;
    var (k', na) := Fed(k, data, accept);
    var front := k.out + (if k.remaining == 0 then CRLF else []);
    var line := Hex(|data|) + CRLF;
    assert front == Chunks(cs) by {
      assert k.out + [] == k.out;
    }
    ConcatAssoc(front, Hex(|data|), CRLF);
    ConcatAssoc(front, line, data[..na]);
    assert k'.out == front + (line + data[..na]);
    if data == [] {
      assert line + data[..na] == [48] + CRLF + [];
      assert IsSpoiled(k', cs, []);
    } else {
      assert IsOpen(k', sent + data[..na], cs, data[..na]);
    }
  }

  lemma FedOpen(k: Coder, sent: Bytes, data: Bytes, accept: nat)
    requires Open(k, sent) && Orderly(k, |data|)
    ensures var (k', na) := Fed(k, data, accept);
            if EndsEarly(k, |data|) then Spoiled(k') else Open(k', sent + data[..na])
  {
    hide Hex, Chunks;
    var cs, part :| IsOpen(k, sent, cs, part);
    var (k', na) := Fed(k, data, accept);
    if k.remaining == 0 {
      CloseChunk(k, sent, cs, part);
      StartChunk(k, sent, data, accept, cs + [part]);
    } else if data == [] {
      assert sent + data[..na] == sent;
    } else {
      ConcatAssoc(Flatten(cs), part, data[..na]);
      ConcatAssoc(Chunks(cs), Hex(|part| + k.remaining) + CRLF + part, data[..na]);
      ConcatAssoc(Hex(|part| + k.remaining) + CRLF, part, data[..na]);
      assert IsOpen(k', sent + data[..na], cs, part + data[..na]);
    }
  }

  lemma FedSpoiled(k: Coder, data: Bytes, accept: nat)
    requires Spoiled(k) && Orderly(k, |data|)
    ensures Spoiled(Fed(k, data, accept).0)
  {
    hide Hex, Chunks;
    var cs, t :| IsSpoiled(k, cs, t);
    var (k', na) := Fed(k, data, accept);
    var added := (if k.remaining == 0 then CRLF + Hex(|data|) + CRLF else []) + data[..na];
    assert k'.out == k.out + added;
    ConcatAssoc(Chunks(cs), [48] + CRLF + t, added);
    ConcatAssoc([48] + CRLF, t, added);
    assert CRLF <= t + added || (t + added == [] && k'.remaining == 0);
    assert IsSpoiled(k', cs, t + added);
  }

  /** Closing behind a complete chunk makes a chunked coding of what was sent, whatever follows it. */
  lemma FinishedOpen(k: Coder, sent: Bytes, more: Bytes) returns (cs: seq<Bytes>)
    requires Open(k, sent) && k.remaining == 0
    ensures NoEmpty(cs) && Flatten(cs) == sent && Finished(k) == Chunks(cs) + LAST
    ensures ParseCoding(Finished(k) + more) == Some((sent, more))
  {
    var cs0, part :| IsOpen(k, sent, cs0, part);
    CloseChunk(k, sent, cs0, part);
    cs := cs0 + [part];
    ParseChunks(cs, more);
  }

  lemma FinishedSpoiled(k: Coder, more: Bytes)
    requires Spoiled(k)
    ensures ParseCoding(Finished(k) + more).Some? && |ParseCoding(Finished(k) + more).value.1| > |more|
  {
    var cs, t :| IsSpoiled(k, cs, t);
    var rest := if t == [] then LAST else t[2..] + CRLF + LAST;
    SpoiledEnd(t, rest);
    hide Chunks, ParseCoding;
    var end := [48] + CRLF + t;
    ConcatAssoc(Chunks(cs), end, CRLF);
    ConcatAssoc(Chunks(cs), end + CRLF, LAST);
    ConcatAssoc(Chunks(cs), LAST, rest);
    ConcatAssoc(Chunks(cs) + LAST, rest, more);
    ParseChunks(cs, rest + more);
  }

  lemma SpoiledEnd(t: Bytes, rest: Bytes)
    requires t == [] || CRLF <= t
    requires rest == if t == [] then LAST else t[2..] + CRLF + LAST
    ensures [48] + CRLF + t + CRLF + LAST == LAST + rest
  {
  }

  lemma FinishedUnused(more: Bytes)
    ensures ParseCoding(Finished(Coder(-1, [])) + more).None?
  {
  }

  // Whole responses

  /** What happens next: some of the body is offered to write, or the Writeable event comes. */
  datatype Offer = Offer(n: nat, acceptHeader: nat, accept: nat) | Wakeup(acceptHeader: nat)

  function Piece(body: Bytes, consumed: nat, n: nat): (piece: Bytes)
    requires consumed <= |body|
    ensures |piece| <= |body| - consumed
  {
    body[consumed..consumed + Min(n, |body| - consumed)]
  }

  /** The state after one offer of what is left of body, and how much of it has been consumed. */
  function Step(f: Facts, st: State, body: Bytes, consumed: nat, offer: Offer): (r: (State, nat))
    requires consumed <= |body|
    ensures consumed <= r.1 <= |body|
  {
    match offer
    case Offer(n, acceptHeader, accept) =>
      var (st', na) := Written(f, st, Piece(body, consumed, n), acceptHeader, accept);
      (st', consumed + na)
    case Wakeup(acceptHeader) => (Awoken(st, acceptHeader).0, consumed)
  }

  /** Offers body to write piece by piece: the state in the end, and how much of body has been consumed. */
  function Run(f: Facts, st: State, body: Bytes, consumed: nat, offers: seq<Offer>): (r: (State, nat))
    requires consumed <= |body|
    ensures r.1 <= |body|
    decreases |offers|
  {
    if offers == [] then (st, consumed)
    else
      var (st', consumed') := Step(f, st, body, consumed, offers[0]);
      Run(f, st', body, consumed', offers[1..])
  }

  /** Every write in the run finishes a partly accepted chunk before it starts a new one. */
  predicate Disciplined(f: Facts, st: State, body: Bytes, consumed: nat, offers: seq<Offer>)
    requires consumed <= |body|
    decreases |offers|
  {
    offers == [] ||
    var (st', consumed') := Step(f, st, body, consumed, offers[0]);
    && OrderlyOffer(f, st, body, consumed, offers[0])
    && Disciplined(f, st', body, consumed', offers[1..])
  }

  predicate OrderlyOffer(f: Facts, st: State, body: Bytes, consumed: nat, offer: Offer)
    requires consumed <= |body|
  {
    offer.Offer? ==>
      var st1 := HeaderPhase(f, st, offer.acceptHeader);
      st1.headersSent ==> Orderly(Coder(st1.remaining, []), |Piece(body, consumed, offer.n)|)
  }

  /** No write in the run is empty where a chunk would start. */
  predicate NeverEndsEarly(f: Facts, st: State, body: Bytes, consumed: nat, offers: seq<Offer>)
    requires consumed <= |body|
    decreases |offers|
  {
    offers == [] ||
    var (st', consumed') := Step(f, st, body, consumed, offers[0]);
    && CleanOffer(f, st, body, consumed, offers[0])
    && NeverEndsEarly(f, st', body, consumed', offers[1..])
  }

  predicate CleanOffer(f: Facts, st: State, body: Bytes, consumed: nat, offer: Offer)
    requires consumed <= |body|
  {
    offer.Offer? ==>
      var st1 := HeaderPhase(f, st, offer.acceptHeader);
      st1.headersSent ==> !EndsEarly(Coder(st1.remaining, []), |Piece(body, consumed, offer.n)|)
  }

  /** Some write in the run is empty, once the header is out. */
  predicate SomeEmpty(f: Facts, st: State, body: Bytes, consumed: nat, offers: seq<Offer>)
    requires consumed <= |body|
    decreases |offers|
  {
    offers != [] &&
    var (st', consumed') := Step(f, st, body, consumed, offers[0]);
    EmptyOffer(f, st, body, consumed, offers[0]) || SomeEmpty(f, st', body, consumed', offers[1..])
  }

  predicate EmptyOffer(f: Facts, st: State, body: Bytes, consumed: nat, offer: Offer)
    requires consumed <= |body|
  {
    offer.Offer? && HeaderPhase(f, st, offer.acceptHeader).headersSent && Piece(body, consumed, offer.n) == []
  }

  ghost predicate Encoded(k: Coder, sent: Bytes, clean: bool) {
    if k == Coder(-1, []) then sent == [] && clean
    else if clean then Open(k, sent) else Spoiled(k)
  }

  /** What is true of the stream as long as the header is not out, and of what does not change behind it. */
  predicate Heading(f: Facts, st: State, sent: Bytes) {
    && !st.transparent && st.bytesWritten == |sent|
    && if st.headersSent then st.announced == Some(Announcement(f)) && f.header <= st.wire && st.buffer.None?
       else
         && sent == []
         && (st == FRESH ||
             (st.buffer.Some? && st.wire + st.buffer.value == f.header && st.announced == Some(Announcement(f)) &&
              st.awake && !st.finished))
  }

  ghost predicate Encoding(f: Facts, st: State, sent: Bytes, clean: bool) {
    && Heading(f, st, sent)
    && if st.headersSent then st.chunked && Encoded(Coder(st.remaining, st.wire[|f.header|..]), sent, clean)
       else clean && (st == FRESH || (st.chunked && st.remaining == -1))
  }

  lemma FedEncoded(k: Coder, sent: Bytes, clean: bool, data: Bytes, accept: nat)
    requires Encoded(k, sent, clean) && Orderly(k, |data|)
    ensures var (k', na) := Fed(k, data, accept);
            na <= |data| && Encoded(k', sent + data[..na], clean && !EndsEarly(k, |data|))
  {
    var (k', na) := Fed(k, data, accept);
    if k == Coder(-1, []) {
      StartChunk(k, sent, data, accept, []);
    } else if clean {
      FedOpen(k, sent, data, accept);
    } else {
      FedSpoiled(k, data, accept);
    }
    NotUnused(k');
    NotUnused(k);
  }

  lemma NotUnused(k: Coder)
    ensures Spoiled(k) || (exists sent :: Open(k, sent)) ==> k != Coder(-1, [])
  {
  }

  /** The header in front of the output makes no difference to the encoder. */
  lemma FedBehindHeader(header: Bytes, k: Coder, data: Bytes, accept: nat)
    ensures var (k', na) := Fed(k, data, accept);
            Fed(Coder(k.remaining, header + k.out), data, accept) == (Coder(k'.remaining, header + k'.out), na)
  {
    hide Hex;
    var n, na := |data|, Min(|data|, accept);
    var start := if k.remaining == 0 then CRLF else [];
    assert header + k.out + start + Hex(n) + CRLF == header + (k.out + start + Hex(n) + CRLF);
    var out := if k.remaining <= 0 then k.out + start + Hex(n) + CRLF else k.out;
    ConcatAssoc(header, out, data[..na]);
  }

  lemma HeaderKeepsEncoding(f: Facts, st: State, accept: nat)
    requires ChoosesChunked(f) && Encoding(f, st, [], true) && !st.headersSent
    ensures Encoding(f, HeaderPhase(f, st, accept), [], true)
    ensures HeaderPhase(f, st, accept).headersSent ==>
              HeaderPhase(f, st, accept).wire == f.header && HeaderPhase(f, st, accept).remaining == -1
  {
    hide ChoosesChunked, Persists;
    HeaderKeepsHeading(f, st, accept);
  }

  lemma HeaderKeepsHeading(f: Facts, st: State, accept: nat)
    requires Heading(f, st, []) && !st.headersSent
    ensures var st' := HeaderPhase(f, st, accept);
            && Heading(f, st', []) && (st'.headersSent ==> st'.wire == f.header) && !st'.finished && st' != FRESH
  {
    hide ChoosesChunked, Persists;
    var st1 := if st.buffer.None? then HeaderBuilt(f, st) else st;
    var text := st1.buffer.value;
    var na := Min(|text|, accept);
    assert text == text[..na] + text[na..];
    ConcatAssoc(st1.wire, text[..na], text[na..]);
    assert [] + f.header == f.header;
  }

  lemma WakeupIsHeader(f: Facts, st: State, accept: nat)
    ensures Awoken(st, accept).0 == if st.headersSent then st.(awake := false)
                                    else if st.buffer.None? then st
                                    else
                                      var st1 := HeaderPhase(f, st, accept);
                                      if st1.headersSent then st1.(awake := false) else st1
  {
  }

  lemma WakeupKeepsEncoding(f: Facts, st: State, sent: Bytes, clean: bool, accept: nat)
    requires ChoosesChunked(f) && Encoding(f, st, sent, clean)
    ensures Encoding(f, Awoken(st, accept).0, sent, clean)
  {
    hide ChoosesChunked, Encoded, Awoken, HeaderPhase;
    WakeupIsHeader(f, st, accept);
    if !st.headersSent && st.buffer.Some? {
      HeaderKeepsEncoding(f, st, accept);
    }
  }

  lemma WriteKeepsEncoding(f: Facts, st: State, sent: Bytes, clean: bool, data: Bytes, acceptHeader: nat, accept: nat)
    requires ChoosesChunked(f) && Encoding(f, st, sent, clean)
    requires var st1 := HeaderPhase(f, st, acceptHeader);
             st1.headersSent ==> Orderly(Coder(st1.remaining, []), |data|)
    ensures var st1 := HeaderPhase(f, st, acceptHeader);
            var (st', na) := Written(f, st, data, acceptHeader, accept);
            && na <= |data|
            && Encoding(f, st', sent + data[..na],
                        clean && (st1.headersSent ==> !EndsEarly(Coder(st1.remaining, []), |data|)))
  {
    hide Encoded, Fed;
    var st1 := HeaderPhase(f, st, acceptHeader);
    if !st.headersSent {
      HeaderKeepsEncoding(f, st, acceptHeader);
    }
    if st1.headersSent {
      var k := Coder(st1.remaining, st1.wire[|f.header|..]);
      assert st1.wire == f.header + k.out;
      FedEncoded(k, sent, clean, data, accept);
      FedBehindHeader(f.header, k, data, accept);
      var k' := Fed(k, data, accept).0;
      assert (f.header + k'.out)[|f.header|..] == k'.out;
    } else {
      assert sent + data[..0] == [];
    }
  }

  lemma {:induction false} RunKeepsEncoding(f: Facts, st: State, body: Bytes, consumed: nat, offers: seq<Offer>,
                                            clean: bool)
    requires consumed <= |body| && ChoosesChunked(f) && Encoding(f, st, body[..consumed], clean)
    requires Disciplined(f, st, body, consumed, offers)
    ensures var (st', consumed') := Run(f, st, body, consumed, offers);
            Encoding(f, st', body[..consumed'], clean && NeverEndsEarly(f, st, body, consumed, offers))
    decreases |offers|
  {
    hide Encoding, HeaderPhase, Written, Awoken, ChoosesChunked;
    if offers != [] {
      var (st', consumed') := Step(f, st, body, consumed, offers[0]);
      match offers[0] {
        case Offer(n, acceptHeader, accept) =>
          var piece := Piece(body, consumed, n);
          WriteKeepsEncoding(f, st, body[..consumed], clean, piece, acceptHeader, accept);
          assert body[..consumed] + piece[..consumed' - consumed] == body[..consumed'];
        case Wakeup(acceptHeader) =>
          WakeupKeepsEncoding(f, st, body[..consumed], clean, acceptHeader);
      }
      RunKeepsEncoding(f, st', body, consumed', offers[1..], clean && CleanOffer(f, st, body, consumed, offers[0]));
    }
  }

  /** What stands behind the header when the message is closed. */
  function Coding(f: Facts, st: State): Bytes
    requires f.header <= st.wire
  {
    Finished(Coder(st.remaining, st.wire[|f.header|..]))
  }

  lemma FreshEncoding(f: Facts)
    ensures Encoding(f, FRESH, [], true)
  {
  }

  /**
   Whatever pieces a body is written in and whatever is accepted of them, the closed message holds the header and then
   a chunked coding of the body, which can be told from what follows, exactly if no write is empty where a chunk would
   start and there is a write at all. This is for responses with a body of unknown length on a connection that persists.
   */
  lemma EncoderIsValid(f: Facts, body: Bytes, offers: seq<Offer>, more: Bytes)
    requires f.hasBody && !f.hasLength && f.newerThan10 && !f.requestClose && !f.responseClose
    requires Disciplined(f, FRESH, body, 0, offers)
    requires var st := Run(f, FRESH, body, 0, offers).0;
             st.headersSent && st.remaining <= 0
    ensures var (st, consumed) := Run(f, FRESH, body, 0, offers);
            && f.header <= st.wire && st.announced == Some(Announcement(f)) && st.chunked && st.bytesWritten == consumed
            && Finished(Coder(st.remaining, st.wire)) == f.header + Coding(f, st)
            && (ParseCoding(Coding(f, st) + more) == Some((body[..consumed], more)) <==>
                 NeverEndsEarly(f, FRESH, body, 0, offers) && consumed > 0)
  {
    hide Run, Disciplined, NeverEndsEarly, Announcement;
    var (st, consumed) := Run(f, FRESH, body, 0, offers);
    var clean := NeverEndsEarly(f, FRESH, body, 0, offers);
    FreshEncoding(f);
    assert body[..0] == [];
    RunKeepsEncoding(f, FRESH, body, 0, offers, true);
    var k := Coder(st.remaining, st.wire[|f.header|..]);
    assert st.wire == f.header + k.out;
    assert f.header + k.out + CRLF + LAST == f.header + (k.out + CRLF + LAST);
    if k == Coder(-1, []) {
      FinishedUnused(more);
    } else if clean {
      var cs := FinishedOpen(k, body[..consumed], more);
    } else {
      FinishedSpoiled(k, more);
    }
  }

  /** The chunks that a clean run leaves behind the header. */
  lemma EncoderWritesChunks(f: Facts, body: Bytes, offers: seq<Offer>) returns (cs: seq<Bytes>)
    requires f.hasBody && !f.hasLength && f.newerThan10 && !f.requestClose && !f.responseClose
    requires Disciplined(f, FRESH, body, 0, offers)
    requires var (st, consumed) := Run(f, FRESH, body, 0, offers);
             st.headersSent && st.remaining <= 0 && consumed > 0
    requires NeverEndsEarly(f, FRESH, body, 0, offers)
    ensures var (st, consumed) := Run(f, FRESH, body, 0, offers);
            && f.header <= st.wire && Coding(f, st) == Chunks(cs) + LAST
            && NoEmpty(cs) && Flatten(cs) == body[..consumed]
  {
    hide Run, Disciplined, NeverEndsEarly;
    var (st, consumed) := Run(f, FRESH, body, 0, offers);
    FreshEncoding(f);
    assert body[..0] == [];
    RunKeepsEncoding(f, FRESH, body, 0, offers, true);
    cs := FinishedOpen(Coder(st.remaining, st.wire[|f.header|..]), body[..consumed], []);
  }

  // Messages that are not chunked

  ghost predicate Plain(f: Facts, st: State, sent: Bytes) {
    && Heading(f, st, sent) && !st.chunked && !st.finished && st.remaining == 0 - |sent|
    && (st.headersSent ==> st.wire == f.header + sent)
  }

  lemma WriteKeepsPlain(f: Facts, st: State, sent: Bytes, data: Bytes, acceptHeader: nat, accept: nat)
    requires !ChoosesChunked(f) && Plain(f, st, sent)
    ensures var (st', na) := Written(f, st, data, acceptHeader, accept);
            na <= |data| && Plain(f, st', sent + data[..na])
  {
    hide ChoosesChunked, Persists, Fed;
    if !st.headersSent {
      HeaderKeepsHeading(f, st, acceptHeader);
      assert f.header + [] == f.header;
    }
    var na := Min(|data|, accept);
    ConcatAssoc(f.header, sent, data[..na]);
    assert sent + data[..0] == sent;
  }

  lemma WakeupKeepsPlain(f: Facts, st: State, sent: Bytes, accept: nat)
    requires !ChoosesChunked(f) && Plain(f, st, sent)
    ensures Plain(f, Awoken(st, accept).0, sent)
  {
    hide ChoosesChunked, Persists, Awoken;
    WakeupIsHeader(f, st, accept);
    if !st.headersSent && st.buffer.Some? {
      HeaderKeepsHeading(f, st, accept);
      assert f.header + [] == f.header;
    }
  }

  lemma {:induction false} RunKeepsPlain(f: Facts, st: State, body: Bytes, consumed: nat, offers: seq<Offer>)
    requires consumed <= |body| && !ChoosesChunked(f) && Plain(f, st, body[..consumed])
    ensures var (st', consumed') := Run(f, st, body, consumed, offers);
            Plain(f, st', body[..consumed'])
    decreases |offers|
  {
    hide Plain, Written, Awoken, ChoosesChunked;
    if offers != [] {
      var (st', consumed') := Step(f, st, body, consumed, offers[0]);
      match offers[0] {
        case Offer(n, acceptHeader, accept) =>
          var piece := Piece(body, consumed, n);
          WriteKeepsPlain(f, st, body[..consumed], piece, acceptHeader, accept);
          assert body[..consumed] + piece[..consumed' - consumed] == body[..consumed'];
        case Wakeup(acceptHeader) =>
          WakeupKeepsPlain(f, st, body[..consumed], acceptHeader);
      }
      RunKeepsPlain(f, st', body, consumed', offers[1..]);
    }
  }

  // Where a message ends

  /**
   The body that a receiver makes of what follows the header, and what it leaves (section 3.3.3 of RFC 7230); length
   is what the Content-Length says, if there is one.
   */
  function Received(a: Announced, hasBody: bool, length: nat, data: Bytes): Option<(Bytes, Bytes)> {
    if !hasBody then Some(([], data))
    else if a.coding then ParseCoding(data)
    else if a.length then if |data| < length then None else Some((data[..length], data[length..]))
    else Some((data, []))
  }

  /**
   A finished message, whatever pieces it is written in and whatever is accepted of them. The connection persists for
   a response newer than 1.0 if neither side asks for it to be closed; a close is said to the client if it has to be.
   A chunked coding is announced exactly for a body of unknown length on such a connection, and never with a
   Content-Length. A receiver gets the body and leaves what follows it, exactly if a chunked body is not empty and no
   write was empty where a chunk would start.
   */
  lemma MessageIsFramed(f: Facts, body: Bytes, offers: seq<Offer>, more: Bytes)
    requires f.hasBody || body == []
    requires (f.newerThan10 && !f.requestClose && !f.responseClose) || more == []
    requires f.hasBody && !f.hasLength && f.newerThan10 && !f.requestClose && !f.responseClose ==>
               Disciplined(f, FRESH, body, 0, offers) && Run(f, FRESH, body, 0, offers).0.remaining <= 0
    requires Run(f, FRESH, body, 0, offers).0.headersSent && Run(f, FRESH, body, 0, offers).1 == |body|
    ensures var st := Run(f, FRESH, body, 0, offers).0;
            var (end, c) := Closed(f, st, [], 0, 0, Ok);
            var persists := f.newerThan10 && !f.requestClose && !f.responseClose;
            && c == Ok && f.header <= end.wire && end.bytesWritten == |body| && end.announced.Some?
            && var a := end.announced.value;
               && a.persist == persists && a.coding == (f.hasBody && !f.hasLength && persists)
               && a.length == (f.hasBody && f.hasLength) && !(a.length && a.coding)
               && (a.close ==> !a.persist) && (!a.persist && f.newerThan10 ==> a.close)
               && (Received(a, f.hasBody, |body|, end.wire[|f.header|..] + more) == Some((body, more)) <==>
                     (a.coding ==> body != [] && NeverEndsEarly(f, FRESH, body, 0, offers)))
  {
    hide Run, Disciplined, NeverEndsEarly, ParseCoding;
    var st := Run(f, FRESH, body, 0, offers).0;
    assert body[..|body|] == body && body[..0] == [];
    if f.hasBody && !f.hasLength && f.newerThan10 && !f.requestClose && !f.responseClose {
      EncoderIsValid(f, body, offers, more);
      assert (f.header + Coding(f, st))[|f.header|..] == Coding(f, st);
    } else {
      FreshPlain(f);
      RunKeepsPlain(f, FRESH, body, 0, offers);
      assert st.wire[|f.header|..] == body;
      assert (body + more)[..|body|] == body && (body + more)[|body|..] == more;
      assert body + [] == body && [] + more == more;
    }
  }

  lemma FreshPlain(f: Facts)
    ensures Plain(f, FRESH, [])
  {
  }

  /** The choice of the coding is made when the header is built, and stays. */
  predicate Chosen(f: Facts, st: State) {
    && !st.transparent
    && st.chunked == if st.headersSent || st.buffer.Some? then ChoosesChunked(f) else false
  }

  lemma StepKeepsChoice(f: Facts, st: State, body: Bytes, consumed: nat, offer: Offer)
    requires consumed <= |body| && Chosen(f, st)
    ensures var st' := Step(f, st, body, consumed, offer).0;
            && Chosen(f, st')
            && (st'.finished <==> st.finished || (ChoosesChunked(f) && EmptyOffer(f, st, body, consumed, offer)))
  {
    hide ChoosesChunked, Persists, Hex;
  }

  lemma {:induction false} RunFinishes(f: Facts, st: State, body: Bytes, consumed: nat, offers: seq<Offer>)
    requires consumed <= |body| && Chosen(f, st)
    ensures var st' := Run(f, st, body, consumed, offers).0;
            && Chosen(f, st')
            && (st'.finished <==> st.finished || (ChoosesChunked(f) && SomeEmpty(f, st, body, consumed, offers)))
    decreases |offers|
  {
    hide ChoosesChunked, Step, Chosen;
    if offers != [] {
      StepKeepsChoice(f, st, body, consumed, offers[0]);
      var (st', consumed') := Step(f, st, body, consumed, offers[0]);
      RunFinishes(f, st', body, consumed', offers[1..]);
    }
  }

  /**
   The Writeable event is answered with End exactly if the header is out, the message is chunked, and some write was
   empty once the header was out. It stays enabled until the header is out.
   */
  lemma EndIsAnswered(f: Facts, body: Bytes, offers: seq<Offer>, accept: nat)
    ensures var (st, c) := Awoken(Run(f, FRESH, body, 0, offers).0, accept);
            && (c == End || c == Ok)
            && (c == End <==>
                  && st.headersSent && f.hasBody && !f.hasLength && f.newerThan10 && !f.requestClose && !f.responseClose
                  && SomeEmpty(f, FRESH, body, 0, offers))
            && (st.awake <==> st.buffer.Some?)
  {
    hide Run, SomeEmpty, HeaderPhase;
    RunFinishes(f, FRESH, body, 0, offers);
    RunStaysAwake(f, FRESH, body, 0, offers);
  }

  /** The Writeable event is enabled as long as part of the header is buffered. */
  predicate StaysAwake(st: State) {
    && !st.transparent
    && (st.buffer.Some? ==> !st.headersSent && st.awake)
    && (st.awake ==> st.headersSent || st.buffer.Some?)
    && (st.finished ==> st.headersSent)
  }

  lemma {:induction false} RunStaysAwake(f: Facts, st: State, body: Bytes, consumed: nat, offers: seq<Offer>)
    requires consumed <= |body| && StaysAwake(st)
    ensures StaysAwake(Run(f, st, body, consumed, offers).0)
    decreases |offers|
  {
    hide StaysAwake, Step;
    if offers != [] {
      var (st', consumed') := Step(f, st, body, consumed, offers[0]);
      StepStaysAwake(f, st, body, consumed, offers[0]);
      RunStaysAwake(f, st', body, consumed', offers[1..]);
    }
  }

  lemma StepStaysAwake(f: Facts, st: State, body: Bytes, consumed: nat, offer: Offer)
    requires consumed <= |body| && StaysAwake(st)
    ensures StaysAwake(Step(f, st, body, consumed, offer).0)
  {
    hide ChoosesChunked, Hex;
  }

  // Transparent streams

  /** Behind the header, what a transparent stream gets goes out unchanged. */
  lemma {:induction false} TransparentIsPlain(f: Facts, st: State, body: Bytes, consumed: nat, offers: seq<Offer>,
                                              before: Bytes)
    requires consumed <= |body| && st.transparent && st.headersSent && st.wire == before + body[..consumed]
    ensures var (st', consumed') := Run(f, st, body, consumed, offers);
            st'.transparent && st'.headersSent && st'.wire == before + body[..consumed']
    decreases |offers|
  {
    if offers != [] {
      var (st', consumed') := Step(f, st, body, consumed, offers[0]);
      if offers[0].Offer? {
        var piece := Piece(body, consumed, offers[0].n);
        ConcatAssoc(before, body[..consumed], piece[..consumed' - consumed]);
        assert body[..consumed] + piece[..consumed' - consumed] == body[..consumed'];
      }
      TransparentIsPlain(f, st', body, consumed', offers[1..], before);
    }
  }

  /**
   What is written before all of the header has been accepted overtakes the rest of it: of a header that is accepted
   up to h, the rest stands behind the data.
   */
  lemma TransparentOvertakes(f: Facts, h: nat, data: Bytes, offers: seq<Offer>)
    requires h <= |f.header|
    requires offers == [Offer(|data|, 0, |data|), Wakeup(|f.header|)]
    ensures var (st, consumed) := Run(f, MadeTransparent(f, FRESH, h), data, 0, offers);
            && st.headersSent && consumed == |data|
            && st.wire == f.header[..h] + data + f.header[h..]
            && (h == |f.header| ==> st.wire == f.header + data)
  {
    hide ChoosesChunked, Persists;
    var st0 := MadeTransparent(f, FRESH, h);
    var rest := f.header[h..];
    assert [] + f.header[..h] == f.header[..h] && rest[..0] == [] && rest[0..] == rest;
    assert data[0..0 + Min(|data|, |data| - 0)] == data && data[..|data|] == data;
    assert f.header[..h] + [] == f.header[..h];
    var (st1, consumed1) := Step(f, st0, data, 0, offers[0]);
    assert st1.wire == f.header[..h] + data;
    assert offers[1..] == [offers[1]] && offers[1..][1..] == [];
    var (st2, consumed2) := Step(f, st1, data, consumed1, offers[1]);
    assert rest[..|rest|] == rest;
    assert st2.wire == f.header[..h] + data + rest;
    assert Run(f, st2, data, consumed2, []) == (st2, consumed2);
    assert Run(f, st1, data, consumed1, offers[1..]) == (st2, consumed2);
    if h == |f.header| {
      assert rest == [] && f.header[..h] == f.header;
    }
  }

  // Closing a message to which nothing has been written

  datatype CloseCall = CloseCall(acceptHeader: nat, accept: nat, below: Condition)

  /** Sends Closing until it is answered with Ok: the state in the end, and whether it has been. */
  function Closing(simple: Facts, st: State, page: Bytes, calls: seq<CloseCall>): (State, bool)
    decreases |calls|
  {
    if calls == [] then (st, false)
    else
      var (st', c) := Closed(simple, st, page, calls[0].acceptHeader, calls[0].accept, calls[0].below);
      if c == Ok then (st', true) else Closing(simple, st', page, calls[1..])
  }

  /** The message on the wire is the header and the page, in the coding that the header announces. */
  predicate IsPage(simple: Facts, wire: Bytes, page: Bytes) {
    && simple.header <= wire
    && if ChoosesChunked(simple) then ParseCoding(wire[|simple.header|..]) == Some((page, []))
       else wire[|simple.header|..] == page
  }

  /** The page has been dropped, and at most the header has gone out. */
  predicate HeaderOnly(simple: Facts, st: State) {
    && !st.transparent && st.chunked == ChoosesChunked(simple)
    && (st.chunked ==> st.remaining == -1)
    && if st.headersSent then st.wire == simple.header
       else st.buffer.Some? && st.wire + st.buffer.value == simple.header
  }

  lemma HeaderIsNoPage(simple: Facts, wire: Bytes, page: Bytes)
    requires page != []
    requires wire <= simple.header || (ChoosesChunked(simple) && wire == Finished(Coder(-1, simple.header)))
    ensures !IsPage(simple, wire, page)
  {
    hide ChoosesChunked;
    if wire != simple.header && simple.header <= wire {
      assert wire[|simple.header|..] == Finished(Coder(-1, []));
      FinishedUnused([]);
    }
  }

  lemma {:induction false} ClosingHeaderOnly(simple: Facts, st: State, page: Bytes, calls: seq<CloseCall>)
    requires HeaderOnly(simple, st) && page != []
    ensures !IsPage(simple, Closing(simple, st, page, calls).0.wire, page)
    decreases |calls|
  {
    hide ChoosesChunked, IsPage, Written, Finished;
    if calls == [] {
      HeaderIsNoPage(simple, st.wire, page);
    } else {
      var (st', c) := Closed(simple, st, page, calls[0].acceptHeader, calls[0].accept, calls[0].below);
      if st.headersSent {
        HeaderIsNoPage(simple, st'.wire, page);
      } else {
        HeaderGoesOn(simple, st, calls[0].acceptHeader);
        if c == Ok {
          HeaderIsNoPage(simple, st'.wire, page);
        } else {
          ClosingHeaderOnly(simple, st', page, calls[1..]);
        }
      }
    }
  }

  lemma HeaderGoesOn(simple: Facts, st: State, accept: nat)
    requires HeaderOnly(simple, st) && !st.headersSent
    ensures HeaderOnly(simple, HeaderWritten(st, accept)) && HeaderWritten(st, accept).wire <= simple.header
  {
    hide ChoosesChunked;
    var text, na := st.buffer.value, Min(|st.buffer.value|, accept);
    assert text[..na] + text[na..] == text;
    ConcatAssoc(st.wire, text[..na], text[na..]);
  }

  lemma ParsedIsLong(w: Bytes)
    ensures ParseCoding(w).Some? ==> |w| >= 5
  {
  }

  /** A chunk of which the end is missing is not taken for the whole one. */
  lemma TornChunk(page: Bytes, na: nat)
    requires page != [] && na <= |page|
    ensures ParseCoding(Hex(|page|) + CRLF + page[..na] + CRLF + LAST) == Some((page, [])) <==> na == |page|
  {
    hide SizeLine, Hex, ParseCoding;
    var rest := page[..na] + CRLF + LAST;
    var w := Hex(|page|) + CRLF + rest;
    ConcatAssoc(Hex(|page|) + CRLF, page[..na], CRLF);
    ConcatAssoc(Hex(|page|) + CRLF, page[..na] + CRLF, LAST);
    SizeLineOfHex(|page|, rest);
    ParseChunk(w, |page|, rest);
    if na == |page| {
      assert page[..na] == page;
      EndOfChunk(page);
      ParseLast();
    }
  }

  lemma EndOfChunk(c: Bytes)
    ensures var rest := c + CRLF + LAST;
            rest[..|c|] + [] == c && CRLF <= rest[|c|..] && rest[|c| + 2..] == LAST
  {
  }

  lemma ParseChunk(w: Bytes, n: nat, rest: Bytes)
    requires SizeLine(w) == Some((n, rest)) && n > 0
    ensures n + 7 > |rest| ==> ParseCoding(w).None?
    ensures n + 7 <= |rest| && CRLF <= rest[n..] ==>
              var more := ParseCoding(rest[n + 2..]);
              ParseCoding(w) == if more.None? then None else Some((rest[..n] + more.value.0, more.value.1))
  {
    hide SizeLine;
    if n + 2 <= |rest| {
      ParsedIsLong(rest[n + 2..]);
    }
  }

  lemma ParseLast()
    ensures ParseCoding(LAST) == Some(([], []))
  {
    ParseChunks([], []);
    assert Chunks([]) + LAST + [] == LAST;
  }

  /** What has been written of the page, in the coding that the header announces. */
  function Begun(simple: Facts, page: Bytes, na: nat): Bytes
    requires na <= |page|
  {
    if ChoosesChunked(simple) then Hex(|page|) + CRLF + page[..na] else page[..na]
  }

  lemma FirstClosing(simple: Facts, page: Bytes, acceptHeader: nat, accept: nat)
    requires page != []
    ensures var st := Written(simple, FRESH, page, acceptHeader, accept).0;
            if acceptHeader < |simple.header| then HeaderOnly(simple, st)
            else
              && st.headersSent && st.chunked == ChoosesChunked(simple)
              && st.wire == simple.header + Begun(simple, page, Min(|page|, accept))
  {
    hide ChoosesChunked, Hex;
    var header, na := simple.header, Min(|page|, accept);
    if acceptHeader < |header| {
      assert header[..acceptHeader] + header[acceptHeader..] == header;
    } else {
      assert [] + header[..|header|] == header;
      assert header + [] + Hex(|page|) + CRLF + page[..na] == header + (Hex(|page|) + CRLF + page[..na]);
    }
  }

  lemma PageBehindHeader(simple: Facts, page: Bytes, na: nat)
    requires page != [] && na <= |page|
    ensures var wire := simple.header + Begun(simple, page, na);
            IsPage(simple, if ChoosesChunked(simple) then wire + CRLF + LAST else wire, page) <==> na == |page|
  {
    hide ChoosesChunked, Hex;
    var header, begun := simple.header, Begun(simple, page, na);
    if ChoosesChunked(simple) {
      assert header + begun + CRLF + LAST == header + (begun + CRLF + LAST);
      assert (header + (begun + CRLF + LAST))[|header|..] == begun + CRLF + LAST;
      TornChunk(page, na);
    } else {
      assert (header + begun)[|header|..] == begun;
    }
  }

  /**
   When a message is closed to which nothing has been written, and Closing is sent until it is answered with Ok, the
   page of send_simple_response arrives exactly if the first Closing gets the header and the page out whole.
   */
  lemma UnwrittenIsPage(simple: Facts, page: Bytes, calls: seq<CloseCall>)
    requires page != [] && Closing(simple, FRESH, page, calls).1
    ensures calls != [] && Closed(simple, FRESH, page, calls[0].acceptHeader, calls[0].accept, calls[0].below).1 == Wait
    ensures IsPage(simple, Closing(simple, FRESH, page, calls).0.wire, page) <==>
            calls[0].acceptHeader >= |simple.header| && calls[0].accept >= |page|
  {
    hide IsPage, ChoosesChunked, Written;
    var (h, a) := (calls[0].acceptHeader, calls[0].accept);
    var st := Closed(simple, FRESH, page, h, a, calls[0].below).0;
    FirstClosing(simple, page, h, a);
    if h < |simple.header| {
      ClosingHeaderOnly(simple, st, page, calls[1..]);
    } else {
      assert calls[1..] != [];
      PageBehindHeader(simple, page, Min(|page|, a));
    }
  }
}
