/**
 What http/ResponseStream.cpp answers to the reads of a multipart body, and the order of the stages it goes through.
 */
module MultipartAnswers {
  import opened Bytes
  import opened Multipart

  /** How many bytes are in the buffer once read has tried to fill it. */
  function Buffered(st: State, fill: Fill): int {
    |st.buf| + if st.head + |st.buf| < st.size then Min(fill.k, Min(st.size - st.head - |st.buf|, |st.src|)) else 0
  }

  /** Whether the source has said End by then. */
  predicate SourceEnds(st: State, fill: Fill) {
    if st.head + |st.buf| < st.size then fill.c == End else st.sourceCond == End
  }

  /** How much of rem, the rest of a section, can be told from its delimiter when b bytes are in the buffer. */
  function Readable(rem: nat, b: int, mark: nat, sourceEnds: bool): int {
    if sourceEnds then rem else Min(rem, b - mark - 3)
  }

  /** What is left of the section that is being read. */
  function Rest(t: Trace, boundary: Bytes, parts: seq<Bytes>, epilogue: Bytes): Bytes
    requires 0 < |t.handed| <= |parts|
  {
    var (k, s) := (|t.handed|, Sections(boundary, parts, epilogue));
    if |t.handed[k - 1]| <= |s[k - 1]| then s[k - 1][|t.handed[k - 1]|..] else []
  }

  /**
   The answer c and the bytes out of a read. Before the first boundary and between two sections nothing is handed out;
   the first boundary is seen with more than two bytes behind it. In a section the next bytes are handed out, as many
   as are wanted and can be told from its delimiter, and End is answered when the delimiter, with more than two bytes
   behind it, is all that is left. If there is nothing to be handed out, the answer is Wait.
   */
  predicate Answers(t: Trace, n: nat, fill: Fill, c: Condition, out: Bytes, boundary: Bytes, parts: seq<Bytes>,
                    epilogue: Bytes)
  {
    var (b, mark, k) := (Buffered(t.st, fill), |boundary| + 4, |t.handed|);
    match t.st.stage
    case MultiStart => out == [] && c == if b > |boundary| + 4 then End else Wait
    case MultiBoundary => out == [] && c == End
    case ReadEnd => out == [] && c == End
    case Responding => true
    case _ =>
      && 0 < k <= |parts|
      && var rem := Rest(t, boundary, parts, epilogue);
         var readable := Readable(|rem|, b, mark, SourceEnds(t.st, fill));
         && c == (if rem == [] && b >= mark + 3 && (k < |parts| || epilogue != []) then End
                  else if readable > 0 then Ok
                  else Wait)
         && |out| == (if c == Ok then Min(n, readable) else 0)
         && out <= rem
  }

  lemma FilledIsBuffered(st: State, fill: Fill)
    ensures |Filled(st, fill).buf| == Buffered(st, fill)
    ensures Filled(st, fill).sourceCond == End <==> SourceEnds(st, fill)
  {
    hide FirstMatch;
  }

  lemma AnswersAtStart(st: State, n: nat, fill: Fill, boundary: Bytes, parts: seq<Bytes>, epilogue: Bytes)
    requires Starting(st, boundary, parts, epilogue) && Framed(boundary, parts) && Honest(st, fill)
    ensures var (st', c, out) := ReadBytes(st, n, fill);
            out == [] && c == if Buffered(st, fill) > |boundary| + 4 then End else Wait
  {
    StartingRead(st, n, fill, boundary, parts, epilogue);
    FirstIsSeen(st, fill, boundary, parts, epilogue);
    FilledIsBuffered(st, fill);
    StartNotEnded(st, fill, boundary, parts, epilogue);
    hide Filled, BoundaryPopped, Body, Contains;
  }

  /** The first boundary is at the front of the buffer, and is seen with more than two bytes behind it. */
  lemma FirstIsSeen(st: State, fill: Fill, boundary: Bytes, parts: seq<Bytes>, epilogue: Bytes)
    requires Starting(st, boundary, parts, epilogue)
    ensures var st1 := Filled(st, fill);
            st1.len == |boundary| + 2 && st1.pos == if |st1.buf| > |boundary| + 4 then 0 else -1
  {
    hide Body, FirstMatch;
    if Room(st) > 0 && Amount(st, fill) > 0 {
      var nr := Amount(st, fill);
      var st0 := st.(sourceCond := fill.c, buf := st.buf + st.src[..nr], src := st.src[nr..]);
      assert st.src == st.src[..nr] + st.src[nr..];
      ConcatAssoc(st.buf, st.src[..nr], st.src[nr..]);
      FirstMatchStep(st0.buf, st0.mark, 0, ScanEnd(st0.buf, st0.mark));
      if |st0.buf| > |st.mark| + 2 {
        FirstBoundaryFound(st0, boundary, parts, epilogue);
      }
    }
  }

  /** The source cannot have ended before the first boundary is there. */
  lemma StartNotEnded(st: State, fill: Fill, boundary: Bytes, parts: seq<Bytes>, epilogue: Bytes)
    requires Starting(st, boundary, parts, epilogue) && Framed(boundary, parts) && Honest(st, fill)
    ensures Filled(st, fill).sourceCond == End ==> |Filled(st, fill).buf| > |boundary| + 4
  {
    hide FirstMatch, Contains;
    var mark := Delimiter(boundary);
    TailStarts(parts, mark, epilogue);
    hide Tail;
    assert |Pending(st)| == |boundary| + 2 + |Tail(parts, mark, epilogue)|;
  }

  /** The same in a section that has an end. */
  lemma AnswersInSection(st: State, n: nat, fill: Fill, rem: Bytes, rest: seq<Bytes>, mark: Bytes, epilogue: Bytes)
    requires InSection(st, rem, rest, mark, epilogue) && IsMark(mark) && Honest(st, fill)
    requires (rest != [] || epilogue != []) && (st.stage == MultiHeader || st.stage == MultiBody)
    ensures var (st', c, out) := ReadBytes(st, n, fill);
            var b := Buffered(st, fill);
            var readable := Readable(|rem|, b, |mark|, SourceEnds(st, fill));
            && c == (if rem == [] && b >= |mark| + 3 then End else if readable > 0 then Ok else Wait)
            && |out| == (if c == Ok then Min(n, readable) else 0)
            && out <= rem
  {
    FilledIsBuffered(st, fill);
    FilledInSection(st, fill, rem, rest, mark, epilogue);
    var st1 := Filled(st, fill);
    BoundaryKnown(st1, rem, rest, mark, epilogue);
    TailStarts(rest, mark, epilogue);
    SectionMeans(st1, rem, rest, mark, epilogue);
    ScannedMeans(st1);
    HandedOutOfSection(st1, n, rem, rest, mark, epilogue);
    hide Filled, BoundaryPopped, InSection, Buffered, SourceEnds, Tail, IsMark;
    assert |Pending(st1)| == |st1.buf| + |st1.src|;
  }

  /** The same in a last section that has none: its delimiter is part of it. */
  lemma AnswersLeaking(st: State, n: nat, fill: Fill, given: Bytes, part: Bytes, mark: Bytes)
    requires Leaking(st, given, part, mark) && Honest(st, fill) && (st.stage == MultiHeader || st.stage == MultiBody)
    ensures |given| <= |Unterminated(part, mark)|
    ensures var (st', c, out) := ReadBytes(st, n, fill);
            var rem := Unterminated(part, mark)[|given|..];
            var readable := Readable(|rem|, Buffered(st, fill), |mark|, SourceEnds(st, fill));
            && c == (if readable > 0 then Ok else Wait)
            && |out| == (if c == Ok then Min(n, readable) else 0)
            && out <= rem
  {
    FilledIsBuffered(st, fill);
    LeakingFilled(st, fill, given, part, mark);
    var st1, all := Filled(st, fill), Unterminated(part, mark);
    hide Filled, Endless, Buffered, SourceEnds, Unterminated;
    assert Pending(st1) == all[|given|..];
    assert st1.buf == Pending(st1)[..|st1.buf|];
  }

  lemma ReadAnswers(t: Trace, n: nat, fill: Fill, boundary: Bytes, parts: seq<Bytes>, epilogue: Bytes)
    requires Splitting(t, boundary, parts, epilogue) && Framed(boundary, parts) && Honest(t.st, fill)
    ensures var (st', c, out) := ReadBytes(t.st, n, fill);
            Answers(t, n, fill, c, out, boundary, parts, epilogue)
  {
    hide ReadBytes, Contains, Leaking, InSection, Starting, Delimiter, Readable, Buffered, SourceEnds;
    DelimiterIsMark(boundary);
    DelimiterLength(boundary);
    NothingRead(t.st, n, fill);
    var mark, k := Delimiter(boundary), |t.handed|;
    if t.st.stage == MultiStart {
      AnswersAtStart(t.st, n, fill, boundary, parts, epilogue);
    } else if t.st.stage == MultiHeader || t.st.stage == MultiBody {
      var given, part := t.handed[k - 1], parts[k - 1];
      if k == |parts| && epilogue == [] {
        assert parts[k..] == [];
        AnswersLeaking(t.st, n, fill, given, part, mark);
      } else {
        assert k < |parts| ==> parts[k..] != [];
        AnswersInSection(t.st, n, fill, part[|given|..], parts[k..], mark, epilogue);
      }
    }
  }

  lemma DelimiterLength(boundary: Bytes)
    ensures |Delimiter(boundary)| == |boundary| + 4 && Delimiter(boundary) == [13, 10, 45, 45] + boundary
  {
  }

  /**
   However a body has arrived and been read so far: what the next read answers and hands out is said by the section
   that is left and by what is in the buffer; so it answers only Ok, Wait and End, and hands out nothing unless Ok.
   */
  lemma EveryReadAnswers(boundary: Bytes, parts: seq<Bytes>, epilogue: Bytes, events: seq<Event>, n: nat, fill: Fill)
    requires Framed(boundary, parts) && AllHonest(Begun(boundary, parts, epilogue), events)
    requires var t := Run(Begun(boundary, parts, epilogue), events);
             t.st.stage != Responding && Honest(t.st, fill)
    ensures var t := Run(Begun(boundary, parts, epilogue), events);
            var (st', c, out) := ReadBytes(t.st, n, fill);
            && Answers(t, n, fill, c, out, boundary, parts, epilogue)
            && (c == Ok || ((c == Wait || c == End) && out == []))
  {
    hide Run, AllHonest, Splitting, ReadBytes;
    BegunSplits(boundary, parts, epilogue);
    RunKeepsSplitting(Begun(boundary, parts, epilogue), events, boundary, parts, epilogue);
    ReadAnswers(Run(Begun(boundary, parts, epilogue), events), n, fill, boundary, parts, epilogue);
  }

  /** The stage that follows in a body of so many parts. */
  function NextStage(t: Trace, e: Event, parts: nat): Stage {
    var s := t.st.stage;
    match e
    case Reading(n, fill) =>
      if s == Responding || s == MultiBoundary || s == ReadEnd || ReadBytes(t.st, n, fill).1 != End then s
      else if |t.handed| < parts then MultiBoundary
      else ReadEnd
    case Closing => if s == MultiBoundary then MultiHeader else if s == ReadEnd then Responding else s
    case HeaderEnd => if s == MultiHeader then MultiBody else s
  }

  /**
   The stages follow one another: End brings the stream behind a delimiter, and behind the last one to the end of the
   body; Closing begins the next section with its headers, or the response; the end of the headers brings the body.
   Nothing else changes the stage.
   */
  lemma StagesFollow(boundary: Bytes, parts: seq<Bytes>, epilogue: Bytes, events: seq<Event>, e: Event)
    requires Framed(boundary, parts) && AllHonest(Begun(boundary, parts, epilogue), events + [e])
    ensures var t := Run(Begun(boundary, parts, epilogue), events);
            var t' := Run(Begun(boundary, parts, epilogue), events + [e]);
            var (k, s) := (|t.handed|, t.st.stage);
            && t' == Step(t, e) && k <= |parts|
            && t'.st.stage == NextStage(t, e, |parts|)
            && |t'.handed| == if e == Closing && s == MultiBoundary then k + 1 else k
  {
    hide Splitting, ReadBytes;
    RunAndOne(Begun(boundary, parts, epilogue), events, e);
    BegunSplits(boundary, parts, epilogue);
    RunKeepsSplitting(Begun(boundary, parts, epilogue), events, boundary, parts, epilogue);
    StageFollows(Run(Begun(boundary, parts, epilogue), events), e, boundary, parts, epilogue);
  }

  lemma StageFollows(t: Trace, e: Event, boundary: Bytes, parts: seq<Bytes>, epilogue: Bytes)
    requires Splitting(t, boundary, parts, epilogue) && Framed(boundary, parts)
    requires e.Reading? ==> Honest(t.st, e.fill)
    ensures var (t', k, s) := (Step(t, e), |t.handed|, t.st.stage);
            && k <= |parts|
            && t'.st.stage == NextStage(t, e, |parts|)
            && |t'.handed| == if e == Closing && s == MultiBoundary then k + 1 else k
  {
    hide ReadBytes, Contains, Leaking, InSection, Starting, Delimiter, Tail, FirstMatch;
    DelimiterIsMark(boundary);
    var mark, k := Delimiter(boundary), |t.handed|;
    if e.Reading? {
      NothingRead(t.st, e.n, e.fill);
      if t.st.stage == MultiStart {
        StartingRead(t.st, e.n, e.fill, boundary, parts, epilogue);
        StartingMeans(t.st, e.n, e.fill, boundary, parts, epilogue);
      } else if t.st.stage == MultiHeader || t.st.stage == MultiBody {
        PartRead(t.st, e.n, e.fill, t.handed[k - 1], parts[k - 1], parts[k..], mark, epilogue);
        RecordedGrows(t.handed, ReadBytes(t.st, e.n, e.fill).2);
      }
    }
  }

  lemma StartingMeans(st: State, n: nat, fill: Fill, boundary: Bytes, parts: seq<Bytes>, epilogue: Bytes)
    requires Starting(st, boundary, parts, epilogue) && Framed(boundary, parts) && Honest(st, fill)
    ensures ReadBytes(st, n, fill).1 != End ==> ReadBytes(st, n, fill).0.stage == MultiStart
  {
    StartingRead(st, n, fill, boundary, parts, epilogue);
    hide ReadBytes, Contains;
  }
}
