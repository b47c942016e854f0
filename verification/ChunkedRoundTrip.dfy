/**
 The server's chunked encoder and the client's chunked decoder, back to back.
 */
module ChunkedRoundTrip {
  import opened Bytes
  import opened Chunked
  import Messages
  import Clients

  lemma {:induction false} ChunkFits(cs: seq<Bytes>, i: nat)
    requires i < |cs|
    ensures |cs[i]| <= |Flatten(cs)|
  {
    if i > 0 {
      ChunkFits(cs[1..], i - 1);
    }
  }

  /**
   A body goes through both unchanged exactly if it has no NUL in it: for every way to write it, every way it is
   accepted, whatever follows it on the wire, and every way it is read. The decoder fails only if the stream below it
   does, and it comes to its end within a bounded number of calls that find bytes when they ask for them.
   */
  lemma BodySurvives(f: Messages.Facts, body: Bytes, offers: seq<Messages.Offer>, rest: Bytes, calls: seq<Clients.Call>)
    requires 0 < |body| < 0x8000_0000
    requires f.hasBody && !f.hasLength && f.newerThan10 && !f.requestClose && !f.responseClose
    requires Messages.Disciplined(f, Messages.FRESH, body, 0, offers)
    requires Messages.NeverEndsEarly(f, Messages.FRESH, body, 0, offers)
    requires var (st, consumed) := Messages.Run(f, Messages.FRESH, body, 0, offers);
             st.headersSent && st.remaining <= 0 && consumed == |body| && f.header <= st.wire
    requires var wire := Messages.Coding(f, Messages.Run(f, Messages.FRESH, body, 0, offers).0) + rest;
             Clients.AllFair(Clients.Start(wire), calls)
    ensures var wire := Messages.Coding(f, Messages.Run(f, Messages.FRESH, body, 0, offers).0) + rest;
            var (st, c) := Clients.Run(Clients.Start(wire), calls);
            && (c == End ==> Clients.Pending(st) == CRLF + rest && (st.data == body <==> 0 !in body))
            && (c == End || c == Wait || Clients.Failed(c, calls))
            && ((forall call | call in calls :: Clients.DeliversAll(call)) && |calls| > 2 * |wire| ==> c == End)
  {
    hide Messages.Run, Messages.Disciplined, Messages.NeverEndsEarly, Clients.Run, Clients.AllFair;
    var cs := Messages.EncoderWritesChunks(f, body, offers);
    assert body[..|body|] == body;
    forall i | 0 <= i < |cs|
      ensures |cs[i]| < 0x8000_0000
    {
      ChunkFits(cs, i);
    }
    Clients.DecoderReturnsBody(cs, rest, calls);
    if (forall call | call in calls :: Clients.DeliversAll(call)) && |calls| > 2 * |Chunks(cs) + LAST + rest| {
      Clients.DecoderFinishes(cs, rest, calls);
    }
  }
}
