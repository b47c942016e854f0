/**
 The multipart splitter of http/ResponseStream.cpp, for the media types of section 5.1 of RFC 2046.
 */
module Multipart {
  import opened Bytes

  /** m_resp_seq, as far as a multipart body goes; Responding stands for what follows. */
  datatype Stage = MultiStart | MultiBoundary | MultiHeader | MultiBody | ReadEnd | Responding

  datatype Kind = Initial | Intermediate | Final

  /** The fields of the stream; head counts the wasted bytes in front of buf, src is what the source still holds. */
  datatype State = State(buf: Bytes, head: nat, size: nat, mark: Bytes, pos: int, len: nat, kind: Kind, num: nat,
                         stage: Stage, sourceCond: Condition, src: Bytes)

  predicate At(buf: Bytes, mark: Bytes, i: nat) {
    i + |mark| <= |buf| && buf[i..i + |mark|] == mark
  }

  /** The first position of mark in buf from i on and before max, or -1. */
  function FirstMatch(buf: Bytes, mark: Bytes, i: nat, max: int): (j: int)
    ensures j == -1 || (i <= j < max && At(buf, mark, j))
    ensures forall k | i <= k < (if j == -1 then max else j) :: !At(buf, mark, k)
    decreases max - i
  {
    if i >= max then -1 else if At(buf, mark, i) then i else FirstMatch(buf, mark, i + 1, max)
  }

  lemma FirstMatchStep(buf: Bytes, mark: Bytes, i: nat, max: int)
    ensures FirstMatch(buf, mark, i, max) ==
            if i >= max then -1 else if At(buf, mark, i) then i else FirstMatch(buf, mark, i + 1, max)
  {
  }

  /** How far a mark can be recognised in buf: two more bytes must follow it, and one for good measure. */
  function ScanEnd(buf: Bytes, mark: Bytes): int {
    |buf| - |mark| - 2
  }

  function Found(st: State): State {
    var pos := FirstMatch(st.buf, st.mark, 0, ScanEnd(st.buf, st.mark));
    if pos == -1 then st.(pos := -1, len := |st.mark|)
    else st.(pos := pos, len := |st.mark|, num := st.num + 1,
             mark := if st.num == 0 then CRLF + st.mark else st.mark,
             kind := if st.num == 0 then Initial
                     else if st.buf[pos + |st.mark|] == DASH then Final else Intermediate)
  }

  function Room(st: State): int {
    st.size - st.head - |st.buf|
  }

  function Amount(st: State, fill: Fill): nat
    requires Room(st) > 0
  {
    Min(fill.k, Min(Room(st), |st.src|))
  }

  function Filled(st: State, fill: Fill): State {
    if Room(st) <= 0 then st else
    var nr := Amount(st, fill);
    var st1 := st.(sourceCond := fill.c);
    if nr == 0 then st1 else Found(st1.(buf := st.buf + st.src[..nr], src := st.src[nr..]))
  }

  /** m_buffer.pop; the pop of a final boundary can take one byte more than there is. */
  function Popped(st: State, n: nat): State {
    if n >= |st.buf| then st.(buf := [], head := 0) else st.(buf := st.buf[n..], head := st.head + n)
  }

  function BoundaryPopped(st: State): State {
    Found(Popped(st, st.len + if st.kind == Final then 4 else 2).(
      stage := if st.kind == Final then ReadEnd else MultiBoundary))
  }

  /** How much of the buffer may be handed out. */
  function Allowed(st: State): int {
    if st.pos > 0 then st.pos
    else if st.sourceCond == End then |st.buf|
    else |st.buf| - (st.len + 4) + 1
  }

  /** What read does once it has tried to fill the buffer. */
  function HandedOut(st: State, n: nat): (State, Condition, Bytes) {
    if st.pos == 0 then (BoundaryPopped(st), End, [])
    else if Allowed(st) <= 0 then (st, Wait, [])
    else
      var na := Min(n, Min(Allowed(st), |st.buf|));
      (st.(buf := st.buf[na..], head := 0, pos := if st.pos > 0 then st.pos - na else st.pos), Ok, st.buf[..na])
  }

  function ReadBytes(st: State, n: nat, fill: Fill): (State, Condition, Bytes) {
    if st.stage == MultiBoundary || st.stage == ReadEnd then (st, End, [])
    else HandedOut(Filled(st, fill), n)
  }

  /** The Closing event, and the end of a section's headers. */
  function Closed(st: State): State {
    match st.stage
    case MultiBoundary => st.(stage := MultiHeader)
    case ReadEnd => st.(stage := Responding)
    case _ => st
  }

  function HeadersRead(st: State): State {
    if st.stage == MultiHeader then st.(stage := MultiBody) else st
  }

  class ResponseStream {
    const size: nat
    var buf: Bytes
    var head: nat
    var mimeBoundary: Bytes
    var mimeBoundaryPos: int
    var mimeBoundaryLen: nat
    var mimeBoundaryType: Kind
    var mimeBoundaryNum: nat
    var stage: Stage
    var sourceCond: Condition
    var src: Bytes

    function Abs(): State
      reads this
    {
      State(buf, head, size, mimeBoundary, mimeBoundaryPos, mimeBoundaryLen, mimeBoundaryType, mimeBoundaryNum, stage,
            sourceCond, src)
    }

    /** The stream as the Opening event of a multipart request leaves it. */
    constructor (boundary: Bytes, src: Bytes)
      ensures Abs() == Start(boundary, src)
    {
      size := 1024;
      buf := [];
      head := 0;
      mimeBoundary := [DASH, DASH] + boundary;
      mimeBoundaryPos := -1;
      mimeBoundaryLen := 2 + |boundary|;
      mimeBoundaryType := Initial;
      mimeBoundaryNum := 0;
      stage := MultiStart;
      sourceCond := Ok;
      this.src := src;
    }

    /** The loop of find_mime_boundary. */
    method ScanBuffer() returns (at: int)
      requires mimeBoundary != []
      ensures at == FirstMatch(buf, mimeBoundary, 0, ScanEnd(buf, mimeBoundary))
    {
      hide FirstMatch;
      var bmax := |mimeBoundary|;
      var max := |buf| - bmax - 2;
      var i := 0;
      while i < max
        invariant 0 <= i
        invariant FirstMatch(buf, mimeBoundary, i, max) == FirstMatch(buf, mimeBoundary, 0, max)
      {
        FirstMatchStep(buf, mimeBoundary, i, max);
        if buf[i] == mimeBoundary[0] {
          if buf[i..i + bmax] == mimeBoundary {
            return i;
          }
        }
        i := i + 1;
      }
      FirstMatchStep(buf, mimeBoundary, i, max);
      return -1;
    }

    method FindMimeBoundary() returns (found: bool)
      requires mimeBoundary != []
      modifies this
      ensures Abs() == Found(old(Abs())) && found == (mimeBoundaryPos >= 0) && mimeBoundary != []
    {
      hide FirstMatch;
      mimeBoundaryPos := -1;
      mimeBoundaryLen := |mimeBoundary|;
      var at := ScanBuffer();
      if at != -1 {
        RecordMatch(at);
      }
      found := at != -1;
    }

    /** The part of find_mime_boundary that is reached when the boundary stands at i. */
    method RecordMatch(i: nat)
      requires i + |mimeBoundary| < |buf|
      modifies `mimeBoundaryPos, `mimeBoundaryType, `mimeBoundaryNum, `mimeBoundary
      ensures mimeBoundaryPos == i && mimeBoundaryNum == old(mimeBoundaryNum) + 1
      ensures mimeBoundary == if old(mimeBoundaryNum) == 0 then CRLF + old(mimeBoundary) else old(mimeBoundary)
      ensures mimeBoundaryType == if old(mimeBoundaryNum) == 0 then Initial
                                  else if buf[i + |old(mimeBoundary)|] == DASH then Final else Intermediate
    {
      mimeBoundaryPos := i;
      if mimeBoundaryNum == 0 {
        mimeBoundaryType := Initial;
        mimeBoundary := CRLF + mimeBoundary;
      } else if buf[i + |mimeBoundary|] == DASH {
        mimeBoundaryType := Final;
      } else {
        mimeBoundaryType := Intermediate;
      }
      mimeBoundaryNum := mimeBoundaryNum + 1;
    }

    method Pop(n: nat)
      modifies this
      ensures Abs() == Popped(old(Abs()), n)
    {
      if n >= |buf| {
        buf := [];
        head := 0;
      } else {
        buf := buf[n..];
        head := head + n;
      }
    }

    method Read(n: nat, fill: Fill) returns (c: Condition, out: Bytes)
      requires mimeBoundary != []
      modifies this
      ensures (Abs(), c, out) == ReadBytes(old(Abs()), n, fill)
      ensures mimeBoundary != []
    {
      hide Found, HandedOut;
      if stage == MultiBoundary || stage == ReadEnd {
        return End, [];
      }
      if size - head - |buf| > 0 {
        var nr := Min(fill.k, Min(size - head - |buf|, |src|));
        sourceCond := fill.c;
        if nr > 0 {
          buf, src := buf + src[..nr], src[nr..];
          var _ := FindMimeBoundary();
        }
      }
      c, out := HandOut(n);
    }

    method HandOut(n: nat) returns (c: Condition, out: Bytes)
      requires mimeBoundary != []
      modifies this
      ensures (Abs(), c, out) == HandedOut(old(Abs()), n)
      ensures mimeBoundary != []
    {
      hide BoundaryPopped;
      out := [];
      if mimeBoundaryPos == 0 {
        PopBoundary();
        return End, [];
      }
      var allowRead;
      if mimeBoundaryPos > 0 {
        allowRead := mimeBoundaryPos;
      } else if sourceCond == End {
        allowRead := |buf|;
      } else {
        allowRead := |buf| - (mimeBoundaryLen + 4) + 1;
      }
      if allowRead <= 0 {
        return Wait, [];
      }
      var na := Min(n, Min(allowRead, |buf|));
      out := buf[..na];
      buf := buf[na..];
      head := 0;
      if mimeBoundaryPos > 0 {
        mimeBoundaryPos := mimeBoundaryPos - na;
      }
      return Ok, out;
    }

    /** The part of read that is reached when a boundary stands at the front of the buffer. */
    method PopBoundary()
      requires mimeBoundary != []
      modifies this
      ensures Abs() == BoundaryPopped(old(Abs())) && mimeBoundary != []
    {
      hide Found;
      var sz := mimeBoundaryLen + 2;
      match mimeBoundaryType {
        case Initial =>
          stage := MultiBoundary;
        case Intermediate =>
          stage := MultiBoundary;
        case Final =>
          sz := sz + 2;
          stage := ReadEnd;
      }
      Pop(sz);
      var _ := FindMimeBoundary();
    }

    /** The Closing event, which is always answered with End: the stream has still to respond. */
    method Closing() returns (c: Condition)
      modifies this
      ensures Abs() == Closed(old(Abs())) && c == End
    {
      if stage == MultiBoundary {
        stage := MultiHeader;
      } else if stage == ReadEnd {
        stage := Responding;
      }
      return End;
    }

    method MimeheaderEnd()
      modifies this
      ensures Abs() == HeadersRead(old(Abs()))
    {
      if stage == MultiHeader {
        stage := MultiBody;
      }
    }
  }

  function Start(boundary: Bytes, src: Bytes): State {
    State([], 0, 1024, [DASH, DASH] + boundary, -1, 2 + |boundary|, Initial, 0, MultiStart, Ok, src)
  }

  // Well-formed bodies

  function Delimiter(boundary: Bytes): Bytes {
    CRLF + ([DASH, DASH] + boundary)
  }

  ghost predicate Contains(part: Bytes, mark: Bytes) {
    exists i: nat :: At(part, mark, i)
  }

  /** What stands behind a delimiter when these parts are still to come. */
  function Tail(parts: seq<Bytes>, mark: Bytes, epilogue: Bytes): Bytes {
    if parts == [] then [DASH, DASH] + epilogue
    else CRLF + parts[0] + mark + Tail(parts[1..], mark, epilogue)
  }

  /** A multipart body without a preamble. */
  function Body(boundary: Bytes, parts: seq<Bytes>, epilogue: Bytes): Bytes {
    [DASH, DASH] + boundary + Tail(parts, Delimiter(boundary), epilogue)
  }

  /** The parts are told apart by the boundary. */
  ghost predicate Framed(boundary: Bytes, parts: seq<Bytes>) {
    && CR !in boundary && parts != []
    && forall i | 0 <= i < |parts| :: !Contains(parts[i], Delimiter(boundary))
  }

  /** Only its first byte is a CR, so that it cannot overlap itself. */
  predicate IsMark(mark: Bytes) {
    |mark| >= 4 && mark[0] == CR && forall i | 0 < i < |mark| :: mark[i] != CR
  }

  lemma DelimiterIsMark(boundary: Bytes)
    requires CR !in boundary
    ensures IsMark(Delimiter(boundary))
  {
  }

  /** Behind a part that does not contain the mark, the mark stands first where the part ends. */
  lemma MarkStandsFirst(rem: Bytes, mark: Bytes, more: Bytes, i: nat)
    requires IsMark(mark) && !Contains(rem, mark)
    ensures At(rem + mark + more, mark, |rem|)
    ensures i < |rem| ==> !At(rem + mark + more, mark, i)
  {
    var all := rem + mark + more;
    assert all[|rem|..|rem| + |mark|] == mark && all[|rem|] == mark[0] == CR;
    assert i + |mark| <= |rem| ==> all[i..i + |mark|] == rem[i..i + |mark|] && !At(rem, mark, i);
    assert At(all, mark, i) ==>
             forall k | i < k < i + |mark| :: all[k] == all[i..i + |mark|][k - i] == mark[k - i] != CR;
  }

  lemma ContainsLess(part: Bytes, mark: Bytes, n: nat)
    requires n <= |part| && !Contains(part, mark)
    ensures !Contains(part[n..], mark)
  {
    if Contains(part[n..], mark) {
      var i: nat :| At(part[n..], mark, i);
      assert part[n..][i..i + |mark|] == part[n + i..n + i + |mark|];
      assert At(part, mark, n + i);
    }
  }

  function Pending(st: State): Bytes {
    st.buf + st.src
  }

  /** The recorded boundary position is what a scan of the buffer finds now. */
  predicate Scanned(st: State) {
    && st.num > 0 && st.len == |st.mark|
    && st.pos == FirstMatch(st.buf, st.mark, 0, ScanEnd(st.buf, st.mark))
    && (st.pos >= 0 ==> st.kind == if st.buf[st.pos + st.len] == DASH then Final else Intermediate)
  }

  /** The source has said End only if nothing is left in it. */
  predicate SourceOk(st: State) {
    st.sourceCond == End ==> st.src == []
  }

  /** Inside a section: rem is left of it, and the parts are still to come behind it. */
  ghost predicate InSection(st: State, rem: Bytes, parts: seq<Bytes>, mark: Bytes, epilogue: Bytes) {
    && st.mark == mark && Scanned(st) && SourceOk(st)
    && Pending(st) == rem + mark + Tail(parts, mark, epilogue)
    && !Contains(rem, mark) && (forall i | 0 <= i < |parts| :: !Contains(parts[i], mark))
  }

  lemma TailStarts(parts: seq<Bytes>, mark: Bytes, epilogue: Bytes)
    requires parts != [] || epilogue != []
    requires |mark| >= 1
    ensures |Tail(parts, mark, epilogue)| >= 3
    ensures Tail(parts, mark, epilogue)[0] == if parts == [] then DASH else CR
  {
  }

  // Reading a section

  lemma AtInFront(buf: Bytes, src: Bytes, mark: Bytes, k: nat)
    requires k + |mark| <= |buf|
    ensures At(buf, mark, k) <==> At(buf + src, mark, k)
  {
    assert (buf + src)[k..k + |mark|] == buf[k..k + |mark|];
  }

  /** Inside a section the boundary is known exactly if it and two more bytes are in the buffer, and then rightly. */
  lemma BoundaryKnown(st: State, rem: Bytes, parts: seq<Bytes>, mark: Bytes, epilogue: Bytes)
    requires InSection(st, rem, parts, mark, epilogue) && IsMark(mark) && (parts != [] || epilogue != [])
    ensures st.pos == if |rem| < ScanEnd(st.buf, mark) then |rem| else -1
    ensures st.pos >= 0 ==> st.kind == if parts == [] then Final else Intermediate
  {
    var more := Tail(parts, mark, epilogue);
    var all := Pending(st);
    assert st.buf == all[..|st.buf|];
    forall k: nat | k + |mark| <= |st.buf|
      ensures At(st.buf, mark, k) <==> At(all, mark, k)
    {
      AtInFront(st.buf, st.src, mark, k);
    }
    hide At, Tail, Contains;
    forall k: nat | k < |rem|
      ensures !At(all, mark, k)
    {
      MarkStandsFirst(rem, mark, more, k);
    }
    MarkStandsFirst(rem, mark, more, 0);
    TailStarts(parts, mark, epilogue);
    assert |rem| < ScanEnd(st.buf, mark) ==> st.buf[|rem| + |mark|] == all[|rem| + |mark|] == more[0];
  }

  lemma FoundIsScanned(st: State)
    requires st.num > 0
    ensures Scanned(Found(st)) && Found(st).mark == st.mark
    ensures Pending(Found(st)) == Pending(st) && Found(st).stage == st.stage
    ensures Found(st).sourceCond == st.sourceCond && Found(st).src == st.src && Found(st).buf == st.buf
  {
  }

  /** The source answers End only with the last of its bytes. */
  predicate Honest(st: State, fill: Fill) {
    Room(st) > 0 && fill.c == End ==> Amount(st, fill) == |st.src|
  }

  lemma FilledInSection(st: State, fill: Fill, rem: Bytes, parts: seq<Bytes>, mark: Bytes, epilogue: Bytes)
    requires InSection(st, rem, parts, mark, epilogue) && Honest(st, fill)
    ensures InSection(Filled(st, fill), rem, parts, mark, epilogue) && Filled(st, fill).stage == st.stage
  {
    hide FirstMatch, Tail, Contains;
    if Room(st) > 0 {
      var nr := Amount(st, fill);
      if nr > 0 {
        assert st.src == st.src[..nr] + st.src[nr..];
        FoundIsScanned(st.(sourceCond := fill.c, buf := st.buf + st.src[..nr], src := st.src[nr..]));
      }
    }
  }

  /** Taking off n bytes that are no boundary and come before any boundary keeps the scan up to date. */
  lemma FirstMatchLess(buf: Bytes, mark: Bytes, n: nat, i: nat, max: int)
    requires n <= |buf| && n <= i && (max <= i || max <= |buf| - |mark|)
    ensures FirstMatch(buf[n..], mark, i - n, max - n) ==
            if FirstMatch(buf, mark, i, max) == -1 then -1 else FirstMatch(buf, mark, i, max) - n
    decreases max - i
  {
    if i < max {
      assert buf[n..][i - n..i - n + |mark|] == buf[i..i + |mark|];
      FirstMatchLess(buf, mark, n, i + 1, max);
    }
  }

  lemma FirstMatchFrom(buf: Bytes, mark: Bytes, i: nat, n: nat, max: int)
    requires i <= n && forall k | i <= k < n && k < max :: !At(buf, mark, k)
    ensures FirstMatch(buf, mark, i, max) == FirstMatch(buf, mark, n, max)
    decreases n - i
  {
  }

  lemma HandingKeepsScan(st: State, n: nat)
    requires Scanned(st) && n <= |st.buf|
    requires if st.pos >= 0 then n <= st.pos else n <= Max(0, ScanEnd(st.buf, st.mark))
    ensures Scanned(st.(buf := st.buf[n..], head := 0, pos := if st.pos > 0 then st.pos - n else st.pos))
  {
    hide FirstMatch, At;
    var max := ScanEnd(st.buf, st.mark);
    FirstMatchFrom(st.buf, st.mark, 0, n, max);
    FirstMatchLess(st.buf, st.mark, n, n, max);
    assert st.pos >= 0 ==> st.buf[n..][st.pos - n + st.len] == st.buf[st.pos + st.len];
  }

  lemma ScannedMeans(st: State)
    requires Scanned(st)
    ensures st.num > 0 && st.len == |st.mark| && (st.pos >= 0 ==> st.pos + st.len + 2 < |st.buf|)
  {
  }

  lemma TakeFromFront(a: Bytes, b: Bytes, front: Bytes, back: Bytes, n: nat)
    requires a + b == front + back && n <= |a| && n <= |front|
    ensures a[..n] == front[..n] && a[n..] + b == front[n..] + back
  {
    var all := a + b;
    assert a[..n] == all[..n] == front[..n];
    assert a[n..] + b == all[n..] == front[n..] + back;
  }

  lemma PoppedToNextPart(st: State, first: Bytes, rest: Bytes)
    requires Pending(st) == first + rest && |first| < |st.buf|
    requires |first| == st.len + if st.kind == Final then 4 else 2
    requires st.kind != Final && st.num > 0 && SourceOk(st)
    ensures var st' := BoundaryPopped(st);
            && st'.stage == MultiBoundary && st'.mark == st.mark && Scanned(st') && SourceOk(st')
            && Pending(st') == rest
            && st'.buf == st.buf[|first|..] && Room(st') == Room(st) && st'.sourceCond == st.sourceCond
  {
    hide Found, Scanned;
    TakeFromFront(st.buf, st.src, first, rest, |first|);
    assert first[|first|..] + rest == rest;
    FoundIsScanned(Popped(st, |first|).(stage := MultiBoundary));
    FoundKeepsRoom(Popped(st, |first|).(stage := MultiBoundary));
  }

  lemma FoundKeepsRoom(st: State)
    ensures Found(st).buf == st.buf && Room(Found(st)) == Room(st) && Found(st).stage == st.stage
  {
  }

  /** Reading at the front of a boundary takes exactly the boundary off, and ends the section. */
  lemma BoundaryIsPopped(st: State, parts: seq<Bytes>, mark: Bytes, epilogue: Bytes)
    requires InSection(st, [], parts, mark, epilogue) && IsMark(mark) && (parts != [] || epilogue != []) && st.pos == 0
    ensures var st' := BoundaryPopped(st);
            if parts == [] then st'.stage == ReadEnd
            else
              && st'.stage == MultiBoundary && InSection(st', parts[0], parts[1..], mark, epilogue)
              && st'.buf == st.buf[|mark| + 2..] && Room(st') == Room(st) && st'.sourceCond == st.sourceCond
  {
    BoundaryKnown(st, [], parts, mark, epilogue);
    ScannedMeans(st);
    hide FirstMatch, Contains, At, Found, Scanned;
    if parts != [] {
      var rest := parts[0] + mark + Tail(parts[1..], mark, epilogue);
      TailOfMore(parts, mark, epilogue);
      hide Tail, BoundaryPopped;
      assert Pending(st) == mark + CRLF + rest by {
        ConcatAssoc(mark, CRLF, rest);
        assert [] + mark == mark;
      }
      PoppedToNextPart(st, mark + CRLF, rest);
    } else {
      FoundKeepsRoom(Popped(st, |mark| + 4).(stage := ReadEnd));
    }
  }

  lemma TailOfMore(parts: seq<Bytes>, mark: Bytes, epilogue: Bytes)
    requires parts != []
    ensures Tail(parts, mark, epilogue) == CRLF + (parts[0] + mark + Tail(parts[1..], mark, epilogue))
  {
  }

  /** Whatever read hands out inside a section is the next piece of it. */
  lemma HandedOutOfSection(st: State, n: nat, rem: Bytes, parts: seq<Bytes>, mark: Bytes, epilogue: Bytes)
    requires InSection(st, rem, parts, mark, epilogue) && IsMark(mark) && (parts != [] || epilogue != [])
    ensures var (st', c, out) := HandedOut(st, n);
            if c == End then
              rem == [] && out == [] &&
              if parts == [] then st'.stage == ReadEnd
              else st'.stage == MultiBoundary && InSection(st', parts[0], parts[1..], mark, epilogue)
            else out <= rem && st'.stage == st.stage && InSection(st', rem[|out|..], parts, mark, epilogue)
  {
    BoundaryKnown(st, rem, parts, mark, epilogue);
    TailStarts(parts, mark, epilogue);
    ScannedMeans(st);
    hide FirstMatch, Contains, Tail, BoundaryPopped, Scanned, At;
    if st.pos == 0 {
      assert rem == [];
      BoundaryIsPopped(st, parts, mark, epilogue);
    } else if Allowed(st) > 0 {
      var more := Tail(parts, mark, epilogue);
      assert |Pending(st)| == |rem| + |mark| + |more|;
      assert st.sourceCond == End ==> st.pos > 0;
      var na := Min(n, Min(Allowed(st), |st.buf|));
      assert na <= |rem|;
      HandingKeepsScan(st, na);
      ContainsLess(rem, mark, na);
      TakeFromFront(st.buf, st.src, rem, mark + more, na);
      ConcatAssoc(rem, mark, more);
      ConcatAssoc(rem[na..], mark, more);
    } else {
      assert rem[0..] == rem;
    }
  }

  // The first boundary

  /** Nothing but part of the first boundary has been read. */
  ghost predicate Starting(st: State, boundary: Bytes, parts: seq<Bytes>, epilogue: Bytes) {
    && st.mark == [DASH, DASH] + boundary && st.len == |st.mark| && st.num == 0 && st.pos == -1
    && st.stage == MultiStart && SourceOk(st) && |st.buf| <= |st.mark| + 2
    && Pending(st) == Body(boundary, parts, epilogue)
  }

  /** The buffer starts with the first boundary, the next scan will find it. */
  lemma FirstBoundaryFound(st: State, boundary: Bytes, parts: seq<Bytes>, epilogue: Bytes)
    requires st.mark == [DASH, DASH] + boundary && st.num == 0
    requires Pending(st) == Body(boundary, parts, epilogue) && |st.buf| > |st.mark| + 2
    ensures Found(st) == st.(pos := 0, len := |st.mark|, num := 1, mark := Delimiter(boundary), kind := Initial)
  {
    assert st.buf[..|st.mark|] == Pending(st)[..|st.mark|] == st.mark;
    assert At(st.buf, st.mark, 0);
  }

  lemma FirstBoundaryPopped(st: State, boundary: Bytes, parts: seq<Bytes>, epilogue: Bytes)
    requires Framed(boundary, parts) && SourceOk(st)
    requires st.mark == Delimiter(boundary) && st.num == 1 && st.pos == 0 && st.len == |boundary| + 2
    requires st.kind == Initial
    requires Pending(st) == Body(boundary, parts, epilogue) && |st.buf| > st.len + 2
    ensures var st' := BoundaryPopped(st);
            st'.stage == MultiBoundary && InSection(st', parts[0], parts[1..], Delimiter(boundary), epilogue)
  {
    var mark := Delimiter(boundary);
    var rest := parts[0] + mark + Tail(parts[1..], mark, epilogue);
    var first := [DASH, DASH] + boundary + CRLF;
    TailOfMore(parts, mark, epilogue);
    hide Tail, BoundaryPopped, Scanned, Contains;
    ConcatAssoc([DASH, DASH] + boundary, CRLF, rest);
    PoppedToNextPart(st, first, rest);
  }

  /** Until the first boundary has been read, nothing is handed out. */
  lemma StartingRead(st: State, n: nat, fill: Fill, boundary: Bytes, parts: seq<Bytes>, epilogue: Bytes)
    requires Starting(st, boundary, parts, epilogue) && Framed(boundary, parts) && Honest(st, fill)
    ensures var (st', c, out) := ReadBytes(st, n, fill);
            && out == []
            && if c == End then
                 st'.stage == MultiBoundary && InSection(st', parts[0], parts[1..], Delimiter(boundary), epilogue)
               else Starting(st', boundary, parts, epilogue)
  {
    hide Contains, InSection, BoundaryPopped, FirstMatch, Tail;
    var mark := Delimiter(boundary);
    TailStarts(parts, mark, epilogue);
    var total := Body(boundary, parts, epilogue);
    assert |total| == |st.mark| + |Tail(parts, mark, epilogue)|;
    var st1 := Filled(st, fill);
    if Room(st) > 0 && Amount(st, fill) > 0 {
      var nr := Amount(st, fill);
      var st0 := st.(sourceCond := fill.c, buf := st.buf + st.src[..nr], src := st.src[nr..]);
      assert st.src == st.src[..nr] + st.src[nr..];
      assert Pending(st0) == total;
      if |st0.buf| > |st.mark| + 2 {
        FirstBoundaryFound(st0, boundary, parts, epilogue);
        FirstBoundaryPopped(st1, boundary, parts, epilogue);
      } else {
        FirstMatchStep(st0.buf, st0.mark, 0, ScanEnd(st0.buf, st0.mark));
      }
    }
    assert |Pending(st1)| == |total| && (st1.sourceCond == End ==> |st1.buf| == |total|);
  }

  // A last section without an end

  /** Nowhere in s does the mark stand with more than two bytes behind it. */
  ghost predicate Endless(s: Bytes, mark: Bytes) {
    forall k: nat | k + |mark| + 2 < |s| :: !At(s, mark, k)
  }

  lemma EndlessBuffer(buf: Bytes, src: Bytes, mark: Bytes)
    requires Endless(buf + src, mark)
    ensures FirstMatch(buf, mark, 0, ScanEnd(buf, mark)) == -1
  {
    forall k: nat | k < ScanEnd(buf, mark)
      ensures !At(buf, mark, k)
    {
      assert !At(buf + src, mark, k);
      assert (buf + src)[k..k + |mark|] == buf[k..k + |mark|];
    }
  }

  lemma EndlessRest(s: Bytes, mark: Bytes, n: nat)
    requires Endless(s, mark) && n <= |s|
    ensures Endless(s[n..], mark)
  {
    forall k: nat | k + |mark| + 2 < |s| - n
      ensures !At(s[n..], mark, k)
    {
      assert !At(s, mark, n + k);
      assert s[n..][k..k + |mark|] == s[n + k..n + k + |mark|];
    }
  }

  /** A part, its delimiter, and nothing behind the final dashes. */
  function Unterminated(part: Bytes, mark: Bytes): Bytes {
    part + mark + [DASH, DASH]
  }

  lemma UnterminatedIsEndless(part: Bytes, mark: Bytes)
    requires IsMark(mark) && !Contains(part, mark)
    ensures Endless(Unterminated(part, mark), mark)
  {
    forall k: nat | k < |part|
      ensures !At(Unterminated(part, mark), mark, k)
    {
      MarkStandsFirst(part, mark, [DASH, DASH], k);
    }
  }

  /** In a last section without an end: given has been handed out, and all will be, as no boundary will be found. */
  ghost predicate Leaking(st: State, given: Bytes, part: Bytes, mark: Bytes) {
    && st.mark == mark && st.len == |mark| && st.num > 0 && st.pos == -1 && SourceOk(st)
    && given + Pending(st) == Unterminated(part, mark) && Endless(Pending(st), mark)
  }

  lemma SectionLeaks(st: State, given: Bytes, part: Bytes, mark: Bytes)
    requires given <= part && InSection(st, part[|given|..], [], mark, []) && IsMark(mark) && !Contains(part, mark)
    ensures Leaking(st, given, part, mark)
  {
    hide FirstMatch, Contains;
    var rem := part[|given|..];
    ContainsLess(part, mark, |given|);
    UnterminatedIsEndless(rem, mark);
    assert [DASH, DASH] + [] == [DASH, DASH];
    assert Pending(st) == Unterminated(rem, mark);
    EndlessBuffer(st.buf, st.src, mark);
    assert part == given + rem;
    assert given + (rem + mark + [DASH, DASH]) == given + rem + mark + [DASH, DASH];
  }

  /** Whatever is read in such a section is handed out in the end, the delimiter too. */
  lemma LeakingRead(st: State, n: nat, fill: Fill, given: Bytes, part: Bytes, mark: Bytes)
    requires Leaking(st, given, part, mark) && Honest(st, fill) && (st.stage == MultiHeader || st.stage == MultiBody)
    ensures var (st', c, out) := ReadBytes(st, n, fill);
            c != End && st'.stage == st.stage && Leaking(st', given + out, part, mark)
    ensures var st1 := Filled(st, fill);
            st1.sourceCond == End && n >= |st1.buf| ==> ReadBytes(st, n, fill).2 == Pending(st)
  {
    hide FirstMatch;
    var st1 := Filled(st, fill);
    LeakingFilled(st, fill, given, part, mark);
    var (st2, c, out) := HandedOut(st1, n);
    if Allowed(st1) > 0 {
      var na := Min(n, Min(Allowed(st1), |st1.buf|));
      EndlessRest(Pending(st1), mark, na);
      assert Pending(st1)[na..] == Pending(st2);
      assert Pending(st1) == out + Pending(st2);
      ConcatAssoc(given, out, Pending(st2));
    } else {
      assert given + [] == given;
    }
    assert st1.buf[..|st1.buf|] == st1.buf;
    assert st1.src == [] ==> Pending(st1) == st1.buf;
  }

  lemma LeakingFilled(st: State, fill: Fill, given: Bytes, part: Bytes, mark: Bytes)
    requires Leaking(st, given, part, mark) && Honest(st, fill)
    ensures Leaking(Filled(st, fill), given, part, mark) && Filled(st, fill).stage == st.stage
    ensures Pending(Filled(st, fill)) == Pending(st)
  {
    hide FirstMatch;
    if Room(st) > 0 && Amount(st, fill) > 0 {
      var nr := Amount(st, fill);
      assert st.src == st.src[..nr] + st.src[nr..];
      ConcatAssoc(st.buf, st.src[..nr], st.src[nr..]);
      EndlessBuffer(st.buf + st.src[..nr], st.src[nr..], mark);
    }
  }

  // Whole bodies

  /** What the streams above do next: read, or pass on the Closing event, or the end of a section's headers. */
  datatype Event = Reading(n: nat, fill: Fill) | Closing | HeaderEnd

  /** The stream, with what it has handed out for each section so far. */
  datatype Trace = Trace(st: State, handed: seq<Bytes>)

  function Recorded(handed: seq<Bytes>, out: Bytes): seq<Bytes> {
    if out == [] then handed
    else if handed == [] then [out]
    else handed[..|handed| - 1] + [handed[|handed| - 1] + out]
  }

  /** Behind the body nothing reads any more. */
  function Step(t: Trace, e: Event): Trace {
    match e
    case Reading(n, fill) =>
      if t.st.stage == Responding then t else
      var (st', c, out) := ReadBytes(t.st, n, fill);
      Trace(st', Recorded(t.handed, out))
    case Closing => Trace(Closed(t.st), if t.st.stage == MultiBoundary then t.handed + [[]] else t.handed)
    case HeaderEnd => Trace(HeadersRead(t.st), t.handed)
  }

  function Run(t: Trace, events: seq<Event>): Trace
    decreases |events|
  {
    if events == [] then t else Run(Step(t, events[0]), events[1..])
  }

  predicate AllHonest(t: Trace, events: seq<Event>)
    decreases |events|
  {
    events == [] ||
    ((events[0].Reading? ==> Honest(t.st, events[0].fill)) && AllHonest(Step(t, events[0]), events[1..]))
  }

  lemma {:induction false} RunAndOne(t: Trace, events: seq<Event>, e: Event)
    ensures Run(t, events + [e]) == Step(Run(t, events), e)
    ensures AllHonest(t, events + [e]) <==>
              AllHonest(t, events) && (e.Reading? ==> Honest(Run(t, events).st, e.fill))
    decreases |events|
  {
    hide Step, Honest;
    if events == [] {
      assert [e][1..] == [] && [] + [e] == [e];
      assert Run(Step(t, e), []) == Step(t, e);
    } else {
      RunAndOne(Step(t, events[0]), events[1..], e);
      assert (events + [e])[1..] == events[1..] + [e];
    }
  }

  function Begun(boundary: Bytes, parts: seq<Bytes>, epilogue: Bytes): Trace {
    Trace(Start(boundary, Body(boundary, parts, epilogue)), [])
  }

  /** Of the section with this part, given has been handed out; the parts rest come behind it. */
  ghost predicate InPart(st: State, given: Bytes, part: Bytes, rest: seq<Bytes>, mark: Bytes, epilogue: Bytes) {
    if rest == [] && epilogue == [] then Leaking(st, given, part, mark)
    else given <= part && InSection(st, part[|given|..], rest, mark, epilogue)
  }

  /** What has been handed out is the sections so far, and part of the one being read; the rest is still to come. */
  ghost predicate Splitting(t: Trace, boundary: Bytes, parts: seq<Bytes>, epilogue: Bytes) {
    var (mark, k) := (Delimiter(boundary), |t.handed|);
    match t.st.stage
    case MultiStart => t.handed == [] && Starting(t.st, boundary, parts, epilogue)
    case MultiBoundary =>
      k < |parts| && t.handed == parts[..k] && InSection(t.st, parts[k], parts[k + 1..], mark, epilogue)
    case ReadEnd => t.handed == parts && epilogue != []
    case Responding => t.handed == parts && epilogue != []
    case _ =>
      && 0 < k <= |parts| && t.handed[..k - 1] == parts[..k - 1]
      && InPart(t.st, t.handed[k - 1], parts[k - 1], parts[k..], mark, epilogue)
  }

  lemma PartRead(st: State, n: nat, fill: Fill, given: Bytes, part: Bytes, rest: seq<Bytes>, mark: Bytes,
                 epilogue: Bytes)
    requires InPart(st, given, part, rest, mark, epilogue) && Honest(st, fill) && IsMark(mark)
    requires st.stage == MultiHeader || st.stage == MultiBody
    ensures var (st', c, out) := ReadBytes(st, n, fill);
            if c == End then
              && (rest != [] || epilogue != []) && given == part && out == []
              && if rest == [] then st'.stage == ReadEnd
                 else st'.stage == MultiBoundary && InSection(st', rest[0], rest[1..], mark, epilogue)
            else st'.stage == st.stage && InPart(st', given + out, part, rest, mark, epilogue)
  {
    if rest == [] && epilogue == [] {
      LeakingRead(st, n, fill, given, part, mark);
    } else {
      hide InSection, HandedOut, Filled, Contains, Tail, Leaking;
      var rem := part[|given|..];
      FilledInSection(st, fill, rem, rest, mark, epilogue);
      HandedOutOfSection(Filled(st, fill), n, rem, rest, mark, epilogue);
      var (st', c, out) := ReadBytes(st, n, fill);
      assert part == given + rem;
      if c != End {
        assert rem == out + rem[|out|..];
        ConcatAssoc(given, out, rem[|out|..]);
        assert part[|given + out|..] == rem[|out|..];
      }
    }
  }

  lemma SectionRead(t: Trace, n: nat, fill: Fill, boundary: Bytes, parts: seq<Bytes>, epilogue: Bytes)
    requires Splitting(t, boundary, parts, epilogue) && Framed(boundary, parts) && Honest(t.st, fill)
    requires t.st.stage == MultiHeader || t.st.stage == MultiBody
    ensures Splitting(Step(t, Reading(n, fill)), boundary, parts, epilogue)
  {
    hide InSection, ReadBytes, Contains, Delimiter, Leaking;
    DelimiterIsMark(boundary);
    var mark, k := Delimiter(boundary), |t.handed|;
    var part, given := parts[k - 1], t.handed[k - 1];
    PartRead(t.st, n, fill, given, part, parts[k..], mark, epilogue);
    var (st', c, out) := ReadBytes(t.st, n, fill);
    if c == End {
      assert parts[..k] == t.handed by {
        assert t.handed == t.handed[..k - 1] + [given] && parts[..k] == parts[..k - 1] + [part];
      }
      assert k < |parts| ==> parts[k..][0] == parts[k] && parts[k..][1..] == parts[k + 1..];
    } else {
      RecordedGrows(t.handed, out);
    }
  }

  lemma RecordedGrows(handed: seq<Bytes>, out: Bytes)
    requires handed != []
    ensures var (k, handed') := (|handed|, Recorded(handed, out));
            |handed'| == k && handed'[..k - 1] == handed[..k - 1] && handed'[k - 1] == handed[k - 1] + out
  {
    assert handed[|handed| - 1] + [] == handed[|handed| - 1];
  }

  lemma StepKeepsSplitting(t: Trace, e: Event, boundary: Bytes, parts: seq<Bytes>, epilogue: Bytes)
    requires Splitting(t, boundary, parts, epilogue) && Framed(boundary, parts)
    requires e.Reading? ==> Honest(t.st, e.fill)
    ensures Splitting(Step(t, e), boundary, parts, epilogue)
  {
    hide ReadBytes, Contains, Leaking, InSection, Starting, Delimiter, Tail, FirstMatch;
    if e.Reading? && (t.st.stage == MultiHeader || t.st.stage == MultiBody) {
      SectionRead(t, e.n, e.fill, boundary, parts, epilogue);
    } else if e.Reading? && t.st.stage == MultiStart {
      StartRead(t, e.n, e.fill, boundary, parts, epilogue);
    } else if e.Reading? {
      NothingRead(t.st, e.n, e.fill);
    } else if e == Closing && t.st.stage == MultiBoundary {
      BoundaryClosed(t, boundary, parts, epilogue);
    } else if e == HeaderEnd && t.st.stage == MultiHeader {
      var k := |t.handed|;
      StageIsFreeInPart(t.st, MultiBody, t.handed[k - 1], parts[k - 1], parts[k..], Delimiter(boundary), epilogue);
    }
  }

  lemma StartRead(t: Trace, n: nat, fill: Fill, boundary: Bytes, parts: seq<Bytes>, epilogue: Bytes)
    requires Splitting(t, boundary, parts, epilogue) && Framed(boundary, parts) && Honest(t.st, fill)
    requires t.st.stage == MultiStart
    ensures Splitting(Step(t, Reading(n, fill)), boundary, parts, epilogue)
  {
    StartingRead(t.st, n, fill, boundary, parts, epilogue);
    hide ReadBytes, Contains, InSection, Delimiter, Body;
    assert parts[0 + 1..] == parts[1..] && parts[..0] == [];
  }

  lemma BoundaryClosed(t: Trace, boundary: Bytes, parts: seq<Bytes>, epilogue: Bytes)
    requires Splitting(t, boundary, parts, epilogue) && Framed(boundary, parts) && t.st.stage == MultiBoundary
    ensures Splitting(Step(t, Closing), boundary, parts, epilogue)
  {
    hide Contains, InSection, InPart, Delimiter;
    var k := |t.handed|;
    var t' := Step(t, Closing);
    assert t'.handed[..k] == t.handed;
    StageIsFree(t.st, MultiHeader, parts[k], parts[k + 1..], Delimiter(boundary), epilogue);
    SectionBegins(t'.st, parts[k], parts[k + 1..], boundary, epilogue);
  }

  lemma NothingRead(st: State, n: nat, fill: Fill)
    ensures st.stage == MultiBoundary || st.stage == ReadEnd ==> ReadBytes(st, n, fill) == (st, End, [])
  {
  }

  lemma SectionBegins(st: State, part: Bytes, rest: seq<Bytes>, boundary: Bytes, epilogue: Bytes)
    requires CR !in boundary && InSection(st, part, rest, Delimiter(boundary), epilogue)
    ensures InPart(st, [], part, rest, Delimiter(boundary), epilogue)
  {
    DelimiterIsMark(boundary);
    assert part[0..] == part;
    SectionMeans(st, part, rest, Delimiter(boundary), epilogue);
    hide InSection, Delimiter, Contains, Leaking;
    if rest == [] && epilogue == [] {
      SectionLeaks(st, [], part, Delimiter(boundary));
    }
  }

  lemma SectionMeans(st: State, rem: Bytes, parts: seq<Bytes>, mark: Bytes, epilogue: Bytes)
    requires InSection(st, rem, parts, mark, epilogue)
    ensures !Contains(rem, mark) && SourceOk(st) && |Pending(st)| == |rem| + |mark| + |Tail(parts, mark, epilogue)|
  {
  }

  lemma StageIsFree(st: State, stage: Stage, rem: Bytes, parts: seq<Bytes>, mark: Bytes, epilogue: Bytes)
    requires InSection(st, rem, parts, mark, epilogue)
    ensures InSection(st.(stage := stage), rem, parts, mark, epilogue)
  {
  }

  lemma StageIsFreeInPart(st: State, stage: Stage, given: Bytes, part: Bytes, rest: seq<Bytes>, mark: Bytes,
                          epilogue: Bytes)
    requires InPart(st, given, part, rest, mark, epilogue)
    ensures InPart(st.(stage := stage), given, part, rest, mark, epilogue)
  {
  }

  lemma BegunSplits(boundary: Bytes, parts: seq<Bytes>, epilogue: Bytes)
    ensures Splitting(Begun(boundary, parts, epilogue), boundary, parts, epilogue)
  {
    var st := Start(boundary, Body(boundary, parts, epilogue));
    assert Pending(st) == Body(boundary, parts, epilogue);
  }

  lemma {:induction false} RunKeepsSplitting(t: Trace, events: seq<Event>, boundary: Bytes, parts: seq<Bytes>,
                                             epilogue: Bytes)
    requires Splitting(t, boundary, parts, epilogue) && Framed(boundary, parts) && AllHonest(t, events)
    ensures Splitting(Run(t, events), boundary, parts, epilogue)
    decreases |events|
  {
    hide Splitting, Step;
    if events != [] {
      StepKeepsSplitting(t, events[0], boundary, parts, epilogue);
      RunKeepsSplitting(Step(t, events[0]), events[1..], boundary, parts, epilogue);
    }
  }

  /** What comes out of the sections in the end: without an epilogue, the last one takes its delimiter with it. */
  function Sections(boundary: Bytes, parts: seq<Bytes>, epilogue: Bytes): (s: seq<Bytes>)
    ensures |s| == |parts| && (epilogue != [] ==> s == parts)
  {
    if epilogue != [] || parts == [] then parts
    else parts[..|parts| - 1] + [Unterminated(parts[|parts| - 1], Delimiter(boundary))]
  }

  /**
   However a body arrives and whatever sizes it is read in: what has been handed out is always a prefix of its sections,
   one by one; and the end of the body is reached only if something follows the final dashes, with exactly the parts
   handed out.
   */
  lemma PartsAreHandedOut(boundary: Bytes, parts: seq<Bytes>, epilogue: Bytes, events: seq<Event>)
    requires Framed(boundary, parts) && AllHonest(Begun(boundary, parts, epilogue), events)
    ensures var t := Run(Begun(boundary, parts, epilogue), events);
            var (k, s) := (|t.handed|, Sections(boundary, parts, epilogue));
            && k <= |s|
            && (forall i | 0 <= i < k - 1 :: t.handed[i] == s[i])
            && (k > 0 ==> t.handed[k - 1] <= s[k - 1])
            && (t.st.stage == MultiBoundary ==> t.handed == parts[..k])
            && (t.st.stage == ReadEnd || t.st.stage == Responding ==> epilogue != [] && t.handed == parts)
  {
    hide Run, AllHonest, InSection, Leaking, Body;
    BegunSplits(boundary, parts, epilogue);
    RunKeepsSplitting(Begun(boundary, parts, epilogue), events, boundary, parts, epilogue);
    SplittingMeans(Run(Begun(boundary, parts, epilogue), events), boundary, parts, epilogue);
  }

  lemma SplittingMeans(t: Trace, boundary: Bytes, parts: seq<Bytes>, epilogue: Bytes)
    requires Splitting(t, boundary, parts, epilogue)
    ensures var (k, s) := (|t.handed|, Sections(boundary, parts, epilogue));
            && k <= |s|
            && (forall i | 0 <= i < k - 1 :: t.handed[i] == s[i])
            && (k > 0 ==> t.handed[k - 1] <= s[k - 1])
  {
    hide InSection, Delimiter, Unterminated;
    var k, s := |t.handed|, Sections(boundary, parts, epilogue);
    assert forall i | 0 <= i < k - 1 && k <= |parts| :: parts[..k - 1][i] == parts[i];
    assert forall i | 0 <= i < |parts| - 1 :: s[i] == parts[i];
    if k == |parts| > 0 && epilogue == [] {
      assert s[k - 1] == Unterminated(parts[k - 1], Delimiter(boundary));
    }
  }
}
