/**
 How far the buffer of http/ResponseStream.cpp goes: when a multipart body is split to its end, and when the stream
 waits for ever.
 */
module MultipartCapacity {
  import opened Bytes
  import opened Multipart

  /** The buffer is full up to its end although little is in it: only pop_to packs it, and nothing can be popped. */
  predicate Wedged(st: State) {
    && (st.stage == MultiStart || st.stage == MultiHeader || st.stage == MultiBody)
    && Room(st) <= 0 && st.pos == -1 && |st.buf| <= st.len + 3 && st.sourceCond != End
  }

  /** A wedged stream answers Wait for ever, whatever the source still has. */
  lemma WedgedForever(st: State, n: nat, fill: Fill)
    requires Wedged(st)
    ensures ReadBytes(st, n, fill) == (st, Wait, [])
  {
  }

  const SIZE := 1024

  /**
   Behind head wasted bytes there is no room for a delimiter of mark bytes and what must follow it, nor for a part and
   its delimiter.
   */
  predicate Tight(head: nat, mark: nat, part: nat) {
    SIZE - head <= mark + 3 && SIZE - head - mark - 2 <= part
  }

  /** The wasted bytes in front of the buffer when section k begins: empty sections leave theirs to the next one. */
  function EntryHead(boundary: nat, parts: seq<Bytes>, k: nat): (h: nat)
    requires k <= |parts|
    ensures h > 0
  {
    if k == 0 then boundary + 4
    else (if parts[k - 1] == [] then EntryHead(boundary, parts, k - 1) else 0) + boundary + 6
  }

  predicate TightAt(boundary: nat, parts: seq<Bytes>, k: nat)
    requires k < |parts|
  {
    Tight(EntryHead(boundary, parts, k), boundary + 4, |parts[k]|)
  }

  /** The buffer is too small for the boundary, or for one of the sections where it begins. */
  predicate CanWedge(boundary: nat, parts: seq<Bytes>) {
    boundary + 4 >= SIZE || exists k | 0 <= k < |parts| :: TightAt(boundary, parts, k)
  }

  /** The buffer is large enough for the first k sections. */
  predicate Roomy(boundary: nat, parts: seq<Bytes>, k: nat)
    requires k <= |parts|
  {
    boundary + 4 < SIZE && forall i | 0 <= i < k :: !TightAt(boundary, parts, i)
  }

  predicate InBuffer(st: State) {
    st.size == SIZE && st.head + |st.buf| <= SIZE
  }

  /** In a section the wasted bytes are those of its beginning, or none once something could be handed out. */
  predicate HeadIn(st: State, given: Bytes, part: Bytes, entry: nat, mark: nat, ended: bool) {
    && InBuffer(st)
    && ((st.head == entry && given == []) || (st.head == 0 && (given != [] || part != [] || !ended)))
    && (ended && st.head == 0 ==> !Tight(entry, mark, |part|))
  }

  predicate Placed(t: Trace, boundary: Bytes, parts: seq<Bytes>, epilogue: Bytes) {
    var (b, k) := (|boundary|, |t.handed|);
    match t.st.stage
    case MultiStart => InBuffer(t.st) && t.st.head == 0
    case MultiBoundary => k < |parts| && Roomy(b, parts, k) && InBuffer(t.st) && t.st.head == EntryHead(b, parts, k)
    case ReadEnd => Roomy(b, parts, |parts|)
    case Responding => Roomy(b, parts, |parts|)
    case _ =>
      && 0 < k <= |parts| && Roomy(b, parts, k - 1)
      && HeadIn(t.st, t.handed[k - 1], parts[k - 1], EntryHead(b, parts, k - 1), b + 4, k < |parts| || epilogue != [])
  }

  lemma FilledInBuffer(st: State, fill: Fill)
    requires InBuffer(st)
    ensures InBuffer(Filled(st, fill)) && Filled(st, fill).head == st.head
  {
    hide FirstMatch;
  }

  /** What is known of a buffer inside a section that has an end. */
  lemma EndedSection(st: State, rem: Bytes, rest: seq<Bytes>, mark: Bytes, epilogue: Bytes)
    requires InSection(st, rem, rest, mark, epilogue) && IsMark(mark) && (rest != [] || epilogue != [])
    ensures st.len == |mark| && st.pos == if |rem| < |st.buf| - |mark| - 2 then |rem| else -1
    ensures st.pos >= 0 ==> st.kind == if rest == [] then Final else Intermediate
    ensures st.src == [] ==> st.pos >= 0
    ensures st.sourceCond == End ==> st.pos >= 0
  {
    BoundaryKnown(st, rem, rest, mark, epilogue);
    TailStarts(rest, mark, epilogue);
    SectionMeans(st, rem, rest, mark, epilogue);
    ScannedMeans(st);
    assert |Pending(st)| == |st.buf| + |st.src|;
  }

  /** Inside a section with an end, Wait means that more input is needed and can be taken, or that it is wedged. */
  lemma WaitNeedsInput(st: State, n: nat, fill: Fill, rem: Bytes, parts: seq<Bytes>, mark: Bytes, epilogue: Bytes)
    requires InSection(st, rem, parts, mark, epilogue) && IsMark(mark) && (parts != [] || epilogue != [])
    requires Honest(st, fill) && (st.stage == MultiHeader || st.stage == MultiBody)
    ensures var (st', c, out) := ReadBytes(st, n, fill);
            c == Wait ==> Wedged(st') || (Room(st') > 0 && st'.src != [])
  {
    FilledInSection(st, fill, rem, parts, mark, epilogue);
    EndedSection(Filled(st, fill), rem, parts, mark, epilogue);
    hide Filled, BoundaryPopped, InSection;
  }

  lemma PoppedHead(st: State)
    ensures var n := st.len + if st.kind == Final then 4 else 2;
            n < |st.buf| ==>
              && BoundaryPopped(st).head == st.head + n && BoundaryPopped(st).size == st.size
              && |BoundaryPopped(st).buf| == |st.buf| - n
    ensures |BoundaryPopped(st).buf| <= |st.buf| && BoundaryPopped(st).src == st.src
    ensures st.len + 2 <= |st.buf| ==> |BoundaryPopped(st).buf| < |st.buf|
  {
    hide FirstMatch;
  }

  /** Reading keeps the wasted bytes as they are, or packs them down, which takes that the section is not tight. */
  lemma HandedHead(st: State, n: nat, given: Bytes, part: Bytes, rest: seq<Bytes>, mark: Bytes, epilogue: Bytes,
                   entry: nat)
    requires given <= part && InSection(st, part[|given|..], rest, mark, epilogue) && IsMark(mark)
    requires (rest != [] || epilogue != []) && entry > 0 && HeadIn(st, given, part, entry, |mark|, true)
    ensures var (st', c, out) := HandedOut(st, n);
            if c == End then
              && !Tight(entry, |mark|, |part|)
              && (rest != [] ==> InBuffer(st') && st'.head == (if part == [] then entry else 0) + |mark| + 2)
            else HeadIn(st', given + out, part, entry, |mark|, true)
  {
    EndedSection(st, part[|given|..], rest, mark, epilogue);
    PoppedHead(st);
    hide InSection, BoundaryPopped, IsMark;
  }

  lemma PartReadHead(st: State, n: nat, fill: Fill, given: Bytes, part: Bytes, rest: seq<Bytes>, mark: Bytes,
                     epilogue: Bytes, entry: nat)
    requires InPart(st, given, part, rest, mark, epilogue) && Honest(st, fill) && IsMark(mark) && entry > 0
    requires st.stage == MultiHeader || st.stage == MultiBody
    requires HeadIn(st, given, part, entry, |mark|, rest != [] || epilogue != [])
    ensures var (st', c, out) := ReadBytes(st, n, fill);
            if c == End then
              && !Tight(entry, |mark|, |part|)
              && (rest != [] ==> InBuffer(st') && st'.head == (if part == [] then entry else 0) + |mark| + 2)
            else HeadIn(st', given + out, part, entry, |mark|, rest != [] || epilogue != [])
  {
    FilledInBuffer(st, fill);
    hide InSection, Filled, Honest, Tight, BoundaryPopped;
    if rest == [] && epilogue == [] {
      LeakingRead(st, n, fill, given, part, mark);
      LeakingFilled(st, fill, given, part, mark);
      assert given + [] == given;
    } else {
      FilledInSection(st, fill, part[|given|..], rest, mark, epilogue);
      HandedHead(Filled(st, fill), n, given, part, rest, mark, epilogue, entry);
    }
  }

  /** Before the first boundary is complete there is nothing to be found, and then it is at the front. */
  lemma StartFilled(st: State, fill: Fill, boundary: Bytes, parts: seq<Bytes>, epilogue: Bytes)
    requires Starting(st, boundary, parts, epilogue)
    ensures var st1 := Filled(st, fill);
            && st1.head == st.head && st1.size == st.size && st1.len == |boundary| + 2
            && if |st1.buf| > |boundary| + 4 then st1.pos == 0 && st1.kind == Initial else st1.pos == -1
  {
    hide Body, FirstMatch;
    if Room(st) > 0 && Amount(st, fill) > 0 {
      var nr := Amount(st, fill);
      var st0 := st.(sourceCond := fill.c, buf := st.buf + st.src[..nr], src := st.src[nr..]);
      assert st.src == st.src[..nr] + st.src[nr..];
      ConcatAssoc(st.buf, st.src[..nr], st.src[nr..]);
      FirstMatchStep(st0.buf, st0.mark, 0, ScanEnd(st0.buf, st0.mark));
      if |st0.buf| > |st.mark| + 2 {
        FirstBoundaryFound(st0, boundary, parts, epilogue);
      }
    }
  }

  lemma StartReadHead(st: State, n: nat, fill: Fill, boundary: Bytes, parts: seq<Bytes>, epilogue: Bytes)
    requires Starting(st, boundary, parts, epilogue) && Framed(boundary, parts) && Honest(st, fill)
    requires InBuffer(st) && st.head == 0
    ensures var (st', c, out) := ReadBytes(st, n, fill);
            && InBuffer(st') && out == []
            && (if c == End then st'.head == |boundary| + 4 && |boundary| + 4 < SIZE else st'.head == 0)
  {
    FilledInBuffer(st, fill);
    StartingRead(st, n, fill, boundary, parts, epilogue);
    StartFilled(st, fill, boundary, parts, epilogue);
    PoppedHead(Filled(st, fill));
    hide Filled, BoundaryPopped, Body, Contains;
  }

  lemma EntryStep(boundary: nat, parts: seq<Bytes>, k: nat)
    requires k < |parts|
    ensures EntryHead(boundary, parts, k + 1) ==
            (if parts[k] == [] then EntryHead(boundary, parts, k) else 0) + boundary + 6
    ensures Roomy(boundary, parts, k + 1) <==> Roomy(boundary, parts, k) && !TightAt(boundary, parts, k)
  {
  }

  lemma StepKeepsPlaced(t: Trace, e: Event, boundary: Bytes, parts: seq<Bytes>, epilogue: Bytes)
    requires Splitting(t, boundary, parts, epilogue) && Framed(boundary, parts) && Placed(t, boundary, parts, epilogue)
    requires e.Reading? ==> Honest(t.st, e.fill)
    ensures Placed(Step(t, e), boundary, parts, epilogue)
  {
    hide ReadBytes, Contains, Leaking, InSection, Roomy, Tight, EntryHead;
    var b, k := |boundary|, |t.handed|;
    if e.Reading? && (t.st.stage == MultiHeader || t.st.stage == MultiBody) {
      var given, part, entry := t.handed[k - 1], parts[k - 1], EntryHead(b, parts, k - 1);
      DelimiterIsMark(boundary);
      EntryStep(b, parts, k - 1);
      PartRead(t.st, e.n, e.fill, given, part, parts[k..], Delimiter(boundary), epilogue);
      PartReadHead(t.st, e.n, e.fill, given, part, parts[k..], Delimiter(boundary), epilogue, entry);
      RecordedGrows(t.handed, ReadBytes(t.st, e.n, e.fill).2);
    } else if e.Reading? && t.st.stage == MultiStart {
      StartingRead(t.st, e.n, e.fill, boundary, parts, epilogue);
      StartReadHead(t.st, e.n, e.fill, boundary, parts, epilogue);
      EntryStart(b, parts);
    } else if e.Reading? {
      NothingRead(t.st, e.n, e.fill);
    }
  }

  lemma EntryStart(boundary: nat, parts: seq<Bytes>)
    ensures EntryHead(boundary, parts, 0) == boundary + 4
    ensures boundary + 4 < SIZE ==> Roomy(boundary, parts, 0)
  {
  }

  lemma {:induction false} RunKeepsPlaced(t: Trace, events: seq<Event>, boundary: Bytes, parts: seq<Bytes>,
                                          epilogue: Bytes)
    requires Splitting(t, boundary, parts, epilogue) && Framed(boundary, parts) && Placed(t, boundary, parts, epilogue)
    requires AllHonest(t, events)
    ensures Splitting(Run(t, events), boundary, parts, epilogue) && Placed(Run(t, events), boundary, parts, epilogue)
    decreases |events|
  {
    hide Splitting, Step, Placed;
    if events != [] {
      StepKeepsSplitting(t, events[0], boundary, parts, epilogue);
      StepKeepsPlaced(t, events[0], boundary, parts, epilogue);
      RunKeepsPlaced(Step(t, events[0]), events[1..], boundary, parts, epilogue);
    }
  }

  /** A wedged stream has met a section, or a boundary, that the buffer is too small for. */
  lemma WedgedIsTight(t: Trace, boundary: Bytes, parts: seq<Bytes>, epilogue: Bytes)
    requires Splitting(t, boundary, parts, epilogue) && Framed(boundary, parts) && Placed(t, boundary, parts, epilogue)
    requires Wedged(t.st)
    ensures CanWedge(|boundary|, parts)
  {
    hide Contains, EntryHead, Roomy;
    var k := |t.handed|;
    DelimiterIsMark(boundary);
    if t.st.stage != MultiStart {
      var mark, part, given := Delimiter(boundary), parts[k - 1], t.handed[k - 1];
      if k == |parts| && epilogue == [] {
        assert |given| + |Pending(t.st)| == |part| + |mark| + 2;
      } else {
        EndedSection(t.st, part[|given|..], parts[k..], mark, epilogue);
      }
      assert TightAt(|boundary|, parts, k - 1);
    }
  }

  // Runs that go as far as they can

  /** The source has never said End, and what was packed down was not tight. */
  ghost predicate Driven(t: Trace, boundary: Bytes, parts: seq<Bytes>, epilogue: Bytes) {
    && Splitting(t, boundary, parts, epilogue) && Placed(t, boundary, parts, epilogue) && t.st.sourceCond == Ok
    && t.st.stage != ReadEnd && t.st.stage != Responding
    && ((t.st.stage == MultiHeader || t.st.stage == MultiBody) && t.st.head == 0 ==>
          !TightAt(|boundary|, parts, |t.handed| - 1))
  }

  /** All of a last section without an end has been read, and the source has not said so. */
  predicate Starved(t: Trace, parts: seq<Bytes>, epilogue: Bytes) {
    && (t.st.stage == MultiHeader || t.st.stage == MultiBody) && |t.handed| == |parts| && epilogue == []
    && t.st.src == [] && Room(t.st) > 0 && |t.st.buf| <= t.st.len + 3
  }

  const FULL := Fill(SIZE, Ok)

  function Next(t: Trace): Event {
    if t.st.stage == MultiBoundary then Closing else Reading(SIZE, FULL)
  }

  function Rank(t: Trace): nat {
    if t.st.stage == MultiBoundary then 1 else 0
  }

  /** Reading from the source or handing out makes this smaller. */
  function Left(st: State): nat {
    2 * |st.src| + |st.buf|
  }

  lemma FullFill(st: State)
    requires InBuffer(st)
    ensures var st1 := Filled(st, FULL);
            && (Room(st) > 0 && st.src != [] ==> Left(st1) < Left(st))
            && Left(st1) <= Left(st) && (st.sourceCond == Ok ==> st1.sourceCond == Ok)
            && (Room(st) <= 0 ==> st1 == st)
            && (st.src == [] ==> st1.buf == st.buf && st1.pos == st.pos && st1.len == st.len && st1.src == [])
  {
    hide FirstMatch;
  }

  lemma HandingLeft(st: State, n: nat)
    requires InBuffer(st) && st.sourceCond != End
    ensures var (st', c, out) := HandedOut(st, n);
            && Left(st') <= Left(st) && st'.sourceCond == st.sourceCond
            && (n > 0 && (st.pos >= 0 || |st.buf| > st.len + 3) && (st.pos >= 0 ==> st.pos + st.len + 2 <= |st.buf|) ==>
                  Left(st') < Left(st))
  {
    PoppedHead(st);
    PoppedSource(st);
    hide BoundaryPopped;
  }

  lemma PoppedSource(st: State)
    ensures BoundaryPopped(st).sourceCond == st.sourceCond
  {
    hide FirstMatch;
  }

  /** A read of all there is makes progress inside a section, unless the stream is wedged or starved. */
  lemma FullRead(st: State, given: Bytes, part: Bytes, rest: seq<Bytes>, mark: Bytes, epilogue: Bytes)
    requires InPart(st, given, part, rest, mark, epilogue) && IsMark(mark) && InBuffer(st) && st.sourceCond == Ok
    requires st.stage == MultiHeader || st.stage == MultiBody
    requires !Wedged(st)
    requires rest == [] && epilogue == [] ==> st.src != [] || Room(st) <= 0 || |st.buf| > st.len + 3
    ensures Honest(st, FULL)
    ensures var st' := ReadBytes(st, SIZE, FULL).0;
            Left(st') < Left(st) && st'.sourceCond == Ok
  {
    FullFill(st);
    FilledInBuffer(st, FULL);
    var st1 := Filled(st, FULL);
    HandingLeft(st1, SIZE);
    hide BoundaryPopped, HandedOut, Filled;
    if rest == [] && epilogue == [] {
      LeakingFilled(st, FULL, given, part, mark);
      hide Leaking;
    } else {
      FilledInSection(st, FULL, part[|given|..], rest, mark, epilogue);
      EndedSection(st, part[|given|..], rest, mark, epilogue);
      EndedSection(st1, part[|given|..], rest, mark, epilogue);
      hide InSection;
    }
  }

  /** Packing down a section that has been read without an End takes that it is not tight. */
  lemma LeakingHead(st: State, given: Bytes, part: Bytes, mark: Bytes, entry: nat)
    requires Leaking(st, given, part, mark) && InBuffer(st) && st.sourceCond == Ok
    requires st.head == entry || (st.head == 0 && !Tight(entry, |mark|, |part|))
    ensures var (st', c, out) := HandedOut(Filled(st, FULL), SIZE);
            st'.head == st.head || !Tight(entry, |mark|, |part|)
  {
    FilledInBuffer(st, FULL);
    FullFill(st);
    assert Honest(st, FULL);
    LeakingFilled(st, FULL, given, part, mark);
    hide Filled;
  }

  lemma StartFullRead(st: State, boundary: Bytes, parts: seq<Bytes>, epilogue: Bytes)
    requires Starting(st, boundary, parts, epilogue) && Framed(boundary, parts)
    requires InBuffer(st) && st.sourceCond == Ok && st.stage == MultiStart && !Wedged(st)
    ensures Honest(st, FULL)
    ensures var st' := ReadBytes(st, SIZE, FULL).0;
            Left(st') < Left(st) && st'.sourceCond == Ok
  {
    FullFill(st);
    FilledInBuffer(st, FULL);
    HandingLeft(Filled(st, FULL), SIZE);
    TailStarts(parts, Delimiter(boundary), epilogue);
    assert |Pending(st)| == |st.mark| + |Tail(parts, Delimiter(boundary), epilogue)|;
    assert st.src != [] by {
      assert |st.buf| + |st.src| == |Pending(st)|;
    }
    hide Filled, HandedOut, Tail;
  }

  /** The next event makes progress, unless the stream is wedged or starved. */
  lemma NextDrives(t: Trace, boundary: Bytes, parts: seq<Bytes>, epilogue: Bytes)
    requires Driven(t, boundary, parts, epilogue) && Framed(boundary, parts)
    requires !Wedged(t.st) && !Starved(t, parts, epilogue)
    ensures Next(t).Reading? ==> Honest(t.st, Next(t).fill)
    ensures var t' := Step(t, Next(t));
            && (t'.st.stage == ReadEnd || Driven(t', boundary, parts, epilogue))
            && (Left(t'.st) < Left(t.st) || (Left(t'.st) == Left(t.st) && Rank(t') < Rank(t)))
  {
    hide ReadBytes, Leaking, InSection, Tight, EntryHead, Roomy, Contains, Starting;
    var k := |t.handed|;
    var mark := Delimiter(boundary);
    DelimiterIsMark(boundary);
    if t.st.stage == MultiStart {
      StartFullRead(t.st, boundary, parts, epilogue);
    } else if t.st.stage != MultiBoundary {
      FullRead(t.st, t.handed[k - 1], parts[k - 1], parts[k..], mark, epilogue);
    }
    StepKeepsSplitting(t, Next(t), boundary, parts, epilogue);
    StepKeepsPlaced(t, Next(t), boundary, parts, epilogue);
    DrivenHead(t, boundary, parts, epilogue);
  }

  /** Also in a last section without an end, what is packed down is not tight. */
  lemma DrivenHead(t: Trace, boundary: Bytes, parts: seq<Bytes>, epilogue: Bytes)
    requires Driven(t, boundary, parts, epilogue) && Framed(boundary, parts)
    requires Next(t).Reading? ==> Honest(t.st, FULL)
    requires Splitting(Step(t, Next(t)), boundary, parts, epilogue)
    requires Placed(Step(t, Next(t)), boundary, parts, epilogue)
    ensures var t' := Step(t, Next(t));
            (t'.st.stage == MultiHeader || t'.st.stage == MultiBody) && t'.st.head == 0 ==>
              !TightAt(|boundary|, parts, |t'.handed| - 1)
    ensures Step(t, Next(t)).st.stage != Responding
  {
    hide Leaking, InSection, Tight, EntryHead, Roomy, Contains, Starting, HandedOut, Filled;
    var k := |t.handed|;
    var mark := Delimiter(boundary);
    DelimiterIsMark(boundary);
    if t.st.stage == MultiHeader || t.st.stage == MultiBody {
      PartRead(t.st, SIZE, FULL, t.handed[k - 1], parts[k - 1], parts[k..], mark, epilogue);
      RecordedGrows(t.handed, ReadBytes(t.st, SIZE, FULL).2);
      if k == |parts| && epilogue == [] {
        LeakingHead(t.st, t.handed[k - 1], parts[k - 1], mark, EntryHead(|boundary|, parts, k - 1));
      }
    } else if t.st.stage == MultiStart {
      StartingRead(t.st, SIZE, FULL, boundary, parts, epilogue);
    }
  }

  /** From any such state the stream can be driven to the end of the body, or until it is wedged or starved. */
  lemma {:induction false} Drive(t: Trace, boundary: Bytes, parts: seq<Bytes>, epilogue: Bytes)
    returns (events: seq<Event>)
    requires Driven(t, boundary, parts, epilogue) && Framed(boundary, parts)
    ensures AllHonest(t, events)
    ensures var t' := Run(t, events);
            t'.st.stage == ReadEnd ||
            (Driven(t', boundary, parts, epilogue) && (Wedged(t'.st) || Starved(t', parts, epilogue)))
    decreases Left(t.st), Rank(t)
  {
    hide Step, Driven, Starved, Next, Left, Rank;
    events := [];
    if !Wedged(t.st) && !Starved(t, parts, epilogue) {
      NextDrives(t, boundary, parts, epilogue);
      var t' := Step(t, Next(t));
      if t'.st.stage != ReadEnd {
        events := Drive(t', boundary, parts, epilogue);
      }
      events := [Next(t)] + events;

    }
  }

  lemma BegunDriven(boundary: Bytes, parts: seq<Bytes>, epilogue: Bytes)
    ensures var t := Begun(boundary, parts, epilogue);
            Splitting(t, boundary, parts, epilogue) && Placed(t, boundary, parts, epilogue) &&
            Driven(t, boundary, parts, epilogue)
  {
    BegunSplits(boundary, parts, epilogue);
  }

  lemma RoomyCannotWedge(boundary: nat, parts: seq<Bytes>)
    ensures Roomy(boundary, parts, |parts|) <==> !CanWedge(boundary, parts)
  {
  }

  /** A starved stream has found room for all its sections. */
  lemma StarvedIsRoomy(t: Trace, boundary: Bytes, parts: seq<Bytes>, epilogue: Bytes)
    requires Driven(t, boundary, parts, epilogue) && Starved(t, parts, epilogue) && Framed(boundary, parts)
    ensures !CanWedge(|boundary|, parts)
  {
    var k := |parts|;
    hide Contains, EntryHead, Endless, CanWedge;
    var given, part := t.handed[k - 1], parts[k - 1];
    assert |given| + |Pending(t.st)| == |part| + |Delimiter(boundary)| + 2;
    RoomyCannotWedge(|boundary|, parts);
    EntryStep(|boundary|, parts, k - 1);
  }

  /**
   Some way for a body to arrive and to be read leaves the stream waiting for ever exactly if the buffer is too small
   for the boundary, or for one of the sections behind the bytes wasted in front of it.
   */
  lemma WedgesExactlyIf(boundary: Bytes, parts: seq<Bytes>, epilogue: Bytes)
    requires Framed(boundary, parts)
    ensures (exists events :: AllHonest(Begun(boundary, parts, epilogue), events) &&
                              Wedged(Run(Begun(boundary, parts, epilogue), events).st)) <==> CanWedge(|boundary|, parts)
  {
    hide Run, AllHonest, CanWedge, Wedged, Splitting, Placed, Driven, Begun, Contains;
    var t := Begun(boundary, parts, epilogue);
    BegunDriven(boundary, parts, epilogue);
    forall events | AllHonest(t, events) && Wedged(Run(t, events).st)
      ensures CanWedge(|boundary|, parts)
    {
      RunKeepsPlaced(t, events, boundary, parts, epilogue);
      WedgedIsTight(Run(t, events), boundary, parts, epilogue);
    }
    if CanWedge(|boundary|, parts) {
      var events := Drive(t, boundary, parts, epilogue);
      RunKeepsPlaced(t, events, boundary, parts, epilogue);
      ReadEndIsRoomy(Run(t, events), boundary, parts, epilogue);
      if Starved(Run(t, events), parts, epilogue) {
        if Driven(Run(t, events), boundary, parts, epilogue) {
          StarvedIsRoomy(Run(t, events), boundary, parts, epilogue);
        }
      }
      assert AllHonest(t, events) && Wedged(Run(t, events).st);
    }
  }

  lemma ReadEndIsRoomy(t: Trace, boundary: Bytes, parts: seq<Bytes>, epilogue: Bytes)
    requires Splitting(t, boundary, parts, epilogue) && Placed(t, boundary, parts, epilogue)
    ensures t.st.stage == ReadEnd || t.st.stage == Responding ==> epilogue != [] && !CanWedge(|boundary|, parts)
  {
    RoomyCannotWedge(|boundary|, parts);
  }

  /**
   The end of a body can be reached, and the response begun, exactly if something follows the final dashes, and the
   buffer is large enough.
   */
  lemma EndIsReachedIf(boundary: Bytes, parts: seq<Bytes>, epilogue: Bytes)
    requires Framed(boundary, parts)
    ensures (exists events :: AllHonest(Begun(boundary, parts, epilogue), events) &&
                              Run(Begun(boundary, parts, epilogue), events).st.stage == ReadEnd) <==>
              epilogue != [] && !CanWedge(|boundary|, parts)
    ensures (exists events :: AllHonest(Begun(boundary, parts, epilogue), events) &&
                              Run(Begun(boundary, parts, epilogue), events).st.stage == Responding) <==>
              epilogue != [] && !CanWedge(|boundary|, parts)
  {
    hide Run, AllHonest, CanWedge, Wedged, Splitting, Placed, Driven, Begun, Contains;
    var t := Begun(boundary, parts, epilogue);
    BegunDriven(boundary, parts, epilogue);
    forall events | AllHonest(t, events) &&
                    (Run(t, events).st.stage == ReadEnd || Run(t, events).st.stage == Responding)
      ensures epilogue != [] && !CanWedge(|boundary|, parts)
    {
      RunKeepsPlaced(t, events, boundary, parts, epilogue);
      ReadEndIsRoomy(Run(t, events), boundary, parts, epilogue);
    }
    if epilogue != [] && !CanWedge(|boundary|, parts) {
      var events := Drive(t, boundary, parts, epilogue);
      RunKeepsPlaced(t, events, boundary, parts, epilogue);
      if Wedged(Run(t, events).st) {
        WedgedIsTight(Run(t, events), boundary, parts, epilogue);
      }
      assert AllHonest(t, events) && Run(t, events).st.stage == ReadEnd;
      RunAndOne(t, events, Closing);
      assert AllHonest(t, events + [Closing]) && Run(t, events + [Closing]).st.stage == Responding;
    }
  }

  /**
   A body that ends right behind its final dashes has its last delimiter handed out as data, with those dashes, by some
   run; unless the buffer is too small for it anyway.
   */
  lemma UnterminatedBodyLeaks(boundary: Bytes, parts: seq<Bytes>)
    requires Framed(boundary, parts) && !CanWedge(|boundary|, parts)
    ensures exists events :: AllHonest(Begun(boundary, parts, []), events) &&
                             Run(Begun(boundary, parts, []), events).handed == Sections(boundary, parts, [])
  {
    hide Run, AllHonest, CanWedge, Wedged, Splitting, Placed, Driven, Begun, Contains, Starved, Sections;
    var t := Begun(boundary, parts, []);
    BegunDriven(boundary, parts, []);
    var events := Drive(t, boundary, parts, []);
    RunKeepsPlaced(t, events, boundary, parts, []);
    var t' := Run(t, events);
    ReadEndIsRoomy(t', boundary, parts, []);
    if Wedged(t'.st) {
      WedgedIsTight(t', boundary, parts, []);
    }
    StarvedLeaks(t', boundary, parts);
    var last := Reading(SIZE, Fill(0, End));
    RunAndOne(t, events, last);
    assert AllHonest(t, events + [last]) && Run(t, events + [last]).handed == Sections(boundary, parts, []);
  }

  lemma StarvedLeaks(t: Trace, boundary: Bytes, parts: seq<Bytes>)
    requires Splitting(t, boundary, parts, []) && Placed(t, boundary, parts, []) && Starved(t, parts, [])
    ensures Honest(t.st, Fill(0, End))
    ensures Step(t, Reading(SIZE, Fill(0, End))).handed == Sections(boundary, parts, [])
  {
    var k, fill, mark := |parts|, Fill(0, End), Delimiter(boundary);
    var given, part := t.handed[k - 1], parts[k - 1];
    LeakingRead(t.st, SIZE, fill, given, part, mark);
    var st1 := Filled(t.st, fill);
    assert st1 == t.st.(sourceCond := End);
    hide ReadBytes, Filled, Endless, Delimiter, Placed;
    var out := ReadBytes(t.st, SIZE, fill).2;
    RecordedGrows(t.handed, out);
    var handed := Recorded(t.handed, out);
    assert given + out == Unterminated(part, mark);
    assert handed == handed[..k - 1] + [handed[k - 1]];
    assert t.handed[..k - 1] == parts[..k - 1];
  }

  // What that means for boundaries

  /** How many sections directly before section k are empty. */
  function EmptyBefore(parts: seq<Bytes>, k: nat): nat
    requires k <= |parts|
  {
    if k == 0 || parts[k - 1] != [] then 0 else 1 + EmptyBefore(parts, k - 1)
  }

  lemma {:induction false} EntryHeadBound(boundary: nat, parts: seq<Bytes>, k: nat)
    requires k <= |parts|
    ensures EntryHead(boundary, parts, k) <= (EmptyBefore(parts, k) + 1) * (boundary + 6)
    decreases k
  {
    if k > 0 && parts[k - 1] == [] {
      EntryHeadBound(boundary, parts, k - 1);
      var e := EmptyBefore(parts, k - 1);
      assert (e + 1) * (boundary + 6) + (boundary + 6) == (e + 2) * (boundary + 6);
    }
  }

  /** With boundaries as RFC 2046 allows them, the stream can be wedged only by twelve empty sections in a row. */
  lemma ShortBoundary(boundary: nat, parts: seq<Bytes>)
    requires boundary <= 70 && forall k | 0 <= k <= |parts| :: EmptyBefore(parts, k) < 12
    ensures !CanWedge(boundary, parts)
  {
    forall k | 0 <= k < |parts|
      ensures !TightAt(boundary, parts, k)
    {
      EntryHeadBound(boundary, parts, k);
      var e := EmptyBefore(parts, k);
      assert (e + 1) * (boundary + 6) <= 12 * 76;
    }
  }

  /** Twelve empty sections do it, with the longest boundary allowed. */
  lemma TwelveEmpty(parts: seq<Bytes>)
    requires |parts| == 13 && forall i | 0 <= i < 13 :: parts[i] == []
    ensures CanWedge(70, parts)
  {
    TwelveEmptyHead(parts, 12);
    assert TightAt(70, parts, 12);
  }

  lemma {:induction false} TwelveEmptyHead(parts: seq<Bytes>, k: nat)
    requires k <= |parts| && forall i | 0 <= i < |parts| :: parts[i] == []
    ensures EntryHead(70, parts, k) == 74 + 76 * k
    decreases k
  {
    if k > 0 {
      TwelveEmptyHead(parts, k - 1);
    }
  }

  /** A boundary of half the buffer wedges the stream in the first section of every body. */
  lemma LongBoundary(boundary: nat, parts: seq<Bytes>)
    requires parts != []
    ensures boundary >= 507 ==> CanWedge(boundary, parts)
    ensures TightAt(boundary, parts, 0) <==> 2 * boundary >= 1013 && 1014 <= 2 * boundary + |parts[0]|
  {
    assert boundary >= 507 ==> TightAt(boundary, parts, 0);
  }
}
