/**
 The byte-range filter of http/PartialResponseStream.cpp.
 */
module PartialResponse {
  import opened Bytes
  import opened Decimals

  datatype Status = Unset | PartialContent | RequestedRangeNotSatisfiable

  /** The response headers the filter reads and writes; lengths are kept as numbers. */
  datatype Response = Response(status: Status, contentLength: Option<int>,
                               contentRange: Option<(int, int, Option<int>)>)

  /** The fields of the stream, with what it has passed downstream. */
  datatype State = State(start: int, length: int, position: int, contentLength: int, error: bool,
                         resp: Response, sent: Bytes)

  const BYTES := "bytes="

  /** std::string::find: the first position of pat in s, or -1. */
  function Find(s: string, pat: string): (i: int)
    ensures i == -1 || (0 <= i && i + |pat| <= |s|)
    decreases |s|
  {
    if |pat| > |s| then -1
    else if s[..|pat|] == pat then 0
    else if s == "" then -1
    else var i := Find(s[1..], pat); if i == -1 then -1 else i + 1
  }

  const OPENING := State(-1, 0, 0, -1, false, Response(Unset, None, None), [])

  /** The state of a stream that has not been written to yet. */
  function Fresh(contentLength: Option<int>): State {
    OPENING.(resp := Response(Unset, contentLength, None))
  }

  /** The text before and behind the first '-' of what follows "bytes=". */
  function RangeParts(range: string): Option<(string, string)> {
    var ib := Find(range, BYTES);
    if ib == -1 then None else
    var rest := range[ib + |BYTES|..];
    var ih := Find(rest, "-");
    if ih == -1 then None else Some((rest[..ih], rest[ih + 1..]))
  }

  /** The start and length that a range asks for, and whether they need a content length that is unknown. */
  function Asked(parts: (string, string), start: int, contentLength: int): (int, int, bool) {
    var from := if parts.0 != "" then Atoi(parts.0) else start;
    if parts.1 == "" then (from, contentLength - from, contentLength < 0)
    else if parts.0 == "" then (contentLength - Atoi(parts.1), Atoi(parts.1), contentLength < 0)
    else (from, Atoi(parts.1) + 1 - from, false)
  }

  predicate Satisfiable(start: int, length: int, contentLength: int) {
    0 <= start && 0 <= length && (contentLength >= 0 ==> start + length <= contentLength)
  }

  /** What a range with these parts does to the state, whose contentLength has been brought up to date. */
  function Applied(st: State, parts: (string, string)): State {
    var total := st.contentLength;
    var (start, length, unknown) := Asked(parts, st.start, total);
    if !Satisfiable(start, length, total) then
      st.(start := start, length := length, error := true, resp := st.resp.(status := RequestedRangeNotSatisfiable))
    else
      st.(start := start, length := length, error := st.error || unknown,
          resp := Response(PartialContent, Some(length),
                           Some((start, start + length - 1, if total >= 0 then Some(total) else None))))
  }

  /** What the first part of write does to the state, whenever the position is still 0. */
  function Parsed(st: State, range: string): State {
    if range == "" then st.(position := -1) else
    var st1 := if st.resp.contentLength.Some? then st.(contentLength := st.resp.contentLength.value) else st;
    if RangeParts(range).None? then st1.(position := -1) else Applied(st1, RangeParts(range).value)
  }

  /** x, brought into [lo, hi]. */
  function Clamp(x: int, lo: int, hi: int): int
  {
    if x < lo then lo else if x > hi then hi else x
  }

  /** How many of n bytes at position pos lie before the window, and in it. */
  function Before(pos: int, n: nat, start: int): int {
    Clamp(start, pos, pos + n) - pos
  }

  function Inside(pos: int, n: nat, start: int, end: int): int {
    Clamp(end, pos, pos + n) - Clamp(start, pos, pos + n)
  }

  /** The part of write behind an accepted range: only what lies inside the window goes downstream. */
  function Filtered(st: State, buffer: Bytes, accept: nat): (r: (State, int))
    requires 0 <= st.position && 0 <= st.start && 0 <= st.length
  {
    var n := |buffer|;
    var before := Before(st.position, n, st.start);
    var inside := Inside(st.position, n, st.start, st.start + st.length);
    var nw := Min(accept, inside);
    var na := if nw < inside then before + nw else n;
    (st.(position := st.position + na, sent := st.sent + buffer[before..before + nw]), na)
  }

  /** Data is only let through from position 0 on when a range has been accepted. */
  predicate Consistent(st: State) {
    st.position > 0 && !st.error ==> 0 <= st.start && 0 <= st.length
  }

  /**
   One call of write, when the streams below accept at most accept bytes of it: the new state, the answer, and the
   number of bytes consumed.
   */
  function Written(st: State, range: string, buffer: Bytes, accept: nat): (State, Condition, int)
    requires Consistent(st)
  {
    var n := |buffer|;
    var st1 := if st.position == 0 then Parsed(st, range) else st;
    if st.position == 0 && st1.position == -1 then (st1, End, 0)
    else if st1.error then
      if st1.position == 0 then
        (st1.(position := -1, resp := st1.resp.(contentLength := None), sent := st1.sent + [LF]), Ok, n)
      else (st1, Ok, n)
    else if st1.position < 0 then
      (st1.(sent := st1.sent + buffer[..Min(n, accept)]), Ok, Min(n, accept))
    else
      var (st2, na) := Filtered(st1, buffer, accept);
      (st2, Ok, na)
  }

  /** How write's three cases divide n bytes at position pos. */
  lemma WindowCases(pos: nat, n: nat, start: nat, length: nat)
    ensures var (before, inside, end) := (Before(pos, n, start), Inside(pos, n, start, start + length), start + length);
            && 0 <= before && 0 <= inside && before + inside <= n
            && if pos + n < start then before == n && inside == 0
               else if pos > end then before == 0 && inside == 0
               else before == Max(0, start - pos) && inside == Min(n, end - pos) - before
  {
  }

  /** How write's three cases treat a buffer. */
  lemma FilteredCases(st: State, buffer: Bytes, accept: nat)
    requires 0 <= st.position && 0 <= st.start && 0 <= st.length
    ensures var (pos, n, end) := (st.position, |buffer|, st.start + st.length);
            Filtered(st, buffer, accept) ==
            if pos + n < st.start || pos > end then (st.(position := pos + n), n)
            else
              var before := Max(0, st.start - pos);
              var inside := Min(n, end - pos) - before;
              assert 0 <= before && 0 <= inside && before + inside <= n;
              var nw := Min(accept, inside);
              var na := if nw < inside then before + nw else n;
              (st.(position := pos + na, sent := st.sent + buffer[before..before + nw]), na)
  {
    hide Before, Inside;
    WindowCases(st.position, |buffer|, st.start, st.length);
    var before := Before(st.position, |buffer|, st.start);
    assert st.sent + buffer[before..before] == st.sent;
  }

  class PartialResponseStream {
    const range: string
    var rangeStart: int
    var rangeLength: int
    var position: int
    var contentLength: int
    var error: bool
    var resp: Response
    var sent: Bytes

    function Abs(): State
      reads this
    {
      State(rangeStart, rangeLength, position, contentLength, error, resp, sent)
    }

    constructor (range: string, contentLength: Option<int>)
      ensures this.range == range && Abs() == Fresh(contentLength)
    {
      this.range := range;
      rangeStart := -1;
      rangeLength := 0;
      position := 0;
      this.contentLength := -1;
      error := false;
      resp := Response(Unset, contentLength, None);
      sent := [];
    }

    method Apply(before: string, after: string)
      modifies this
      ensures Abs() == Applied(old(Abs()), (before, after)) && position == old(position)
    {
      hide Atoi;
      if before != "" {
        rangeStart := Atoi(before);
      }
      if after != "" {
        var last := Atoi(after);
        if before == "" {
          if contentLength < 0 {
            resp := resp.(status := RequestedRangeNotSatisfiable);
            error := true;
          }
          rangeLength := last;
          rangeStart := contentLength - rangeLength;
        } else {
          rangeLength := last + 1 - rangeStart;
        }
      } else {
        if contentLength < 0 {
          resp := resp.(status := RequestedRangeNotSatisfiable);
          error := true;
        }
        rangeLength := contentLength - rangeStart;
      }
      if rangeStart < 0 || rangeLength < 0 {
        resp := resp.(status := RequestedRangeNotSatisfiable);
        error := true;
      } else if contentLength >= 0 && rangeStart + rangeLength > contentLength {
        resp := resp.(status := RequestedRangeNotSatisfiable);
        error := true;
      } else {
        resp := Response(PartialContent, Some(rangeLength),
                         Some((rangeStart, rangeStart + rangeLength - 1,
                               if contentLength >= 0 then Some(contentLength) else None)));
      }
    }

    /** The part of write that reads the request's Range header; true if it makes write return End. */
    method Parse() returns (ignored: bool)
      requires position == 0
      modifies this
      ensures Abs() == Parsed(old(Abs()), range)
      ensures ignored == (position == -1)
    {
      hide Find, Applied;
      if range == "" {
        position := -1;
        return true;
      }
      if resp.contentLength.Some? {
        contentLength := resp.contentLength.value;
      }
      var ib := Find(range, BYTES);
      if ib == -1 {
        position := -1;
        return true;
      }
      var rest := range[ib + |BYTES|..];
      var ih := Find(rest, "-");
      if ih == -1 {
        position := -1;
        return true;
      }
      var before := rest[..ih];
      var after := if ih < |rest| then rest[ih + 1..] else "";
      Apply(before, after);
      return false;
    }

    method Write(buffer: Bytes, accept: nat) returns (c: Condition, na: int)
      requires Consistent(Abs())
      modifies this
      ensures Consistent(Abs())
      ensures (Abs(), c, na) == Written(old(Abs()), range, buffer, accept)
    {
      na := 0;
      var n := |buffer|;
      if position == 0 {
        var ignored := Parse();
        if ignored {
          return End, 0;
        }
      }
      if error {
        if position == 0 {
          resp := resp.(contentLength := None);
          position := -1;
          sent := sent + [LF];
        }
        return Ok, n;
      }
      if position < 0 {
        na := Min(n, accept);
        sent := sent + buffer[..na];
        return Ok, na;
      }
      na := Filter(buffer, accept);
      return Ok, na;
    }

    /** The part of write behind an accepted range. */
    method Filter(buffer: Bytes, accept: nat) returns (na: int)
      requires 0 <= position && 0 <= rangeStart && 0 <= rangeLength
      modifies this
      ensures (Abs(), na) == Filtered(old(Abs()), buffer, accept)
    {
      hide Filtered;
      FilteredCases(Abs(), buffer, accept);
      na := 0;
      var n := |buffer|;
      if position + n < rangeStart {
        na := na + n;
        position := position + n;
      } else if position > rangeStart + rangeLength {
        na := na + n;
        position := position + n;
      } else {
        var startPos := 0;
        if position < rangeStart {
          startPos := rangeStart - position;
        }
        var length := n - startPos;
        var postfix := 0;
        if position + n > rangeStart + rangeLength {
          length := rangeStart + rangeLength - position - startPos;
          postfix := position + n - (rangeStart + rangeLength);
        }
        na := na + startPos;
        position := position + startPos;
        var nw := 0;
        if length > 0 {
          nw := Min(accept, length);
          sent := sent + buffer[startPos..startPos + nw];
        }
        assert sent == old(sent) + buffer[startPos..startPos + nw];
        if postfix != 0 && length == nw {
          na := na + postfix;
          position := position + postfix;
        }
        na := na + nw;
        position := position + nw;
      }
    }
  }

  // What is promised about a range that is accepted

  /** A response whose Range header was accepted, before anything has been let through. */
  predicate Accepted(st: State) {
    && st.position == 0 && !st.error && 0 <= st.start && 0 <= st.length
    && st.resp.status == PartialContent && st.resp.contentLength == Some(st.length)
  }

  /** st has its start and length from the range header. */
  predicate Derived(st: State, range: string) {
    RangeParts(range).Some? &&
    var (first, last) := RangeParts(range).value;
    && (first != "" || last != "")
    && (first != "" ==> st.start == Atoi(first))
    && (last != "" ==> st.length == if first == "" then Atoi(last) else Atoi(last) + 1 - st.start)
  }

  /** The response announces the bytes of the body from position first to position last. */
  predicate Answered(st: State, total: Option<int>, first: int, last: int) {
    st.resp == Response(PartialContent, Some(last + 1 - first), Some((first, last, total)))
  }

  /** The response says that the range cannot be satisfied, and no more. */
  predicate Refused(st: State, total: Option<int>) {
    st.error && st.resp == Response(RequestedRangeNotSatisfiable, total, None)
  }

  /** The length of the body, if it is known. */
  function Known(contentLength: Option<int>): Option<int> {
    if contentLength.Some? && contentLength.value < 0 then None else contentLength
  }

  predicate SameWindow(a: State, b: State) {
    a.start == b.start && a.length == b.length && a.error == b.error
  }

  lemma FirstParse(range: string, contentLength: Option<int>)
    ensures var st := Parsed(Fresh(contentLength), range);
            if st.position == 0 && !st.error then Accepted(st) && Derived(st, range) && st.sent == []
            else st.position == -1 || st.error
  {
  }

  /** Parsing once more, when the first write consumed nothing, leaves the window alone exactly if it starts at 0. */
  lemma ParseAgain(st: State, range: string)
    requires Accepted(st) && Derived(st, range)
    ensures SameWindow(Parsed(st, range), st) <==> st.start == 0
    ensures st.start == 0 ==> Accepted(Parsed(st, range)) && Derived(Parsed(st, range), range)
    ensures Parsed(st, range).sent == st.sent
  {
  }

  lemma NothingToApply(st: State, range: string)
    requires st.position == 0
    ensures Parsed(st, range).position == if RangeParts(range).None? then -1 else 0
  {
    hide Atoi;
  }

  /** Every write is answered with Ok, but for the first one of a request that asks for no range of bytes. */
  lemma WritesAreOk(st: State, range: string, buffer: Bytes, accept: nat)
    requires Consistent(st)
    ensures Written(st, range, buffer, accept).1 == if st.position == 0 && RangeParts(range).None? then End else Ok
  {
    hide Find, Applied, Filtered;
    if st.position == 0 {
      NothingToApply(st, range);
    }
  }

  /** What a caller offers in one write, and what the streams below then accept. */
  datatype Offer = Offer(n: nat, accept: nat)

  /** Offers the rest of body, piece by piece, until it has been consumed or the offers run out. */
  function Run(st: State, range: string, body: Bytes, consumed: nat, offers: seq<Offer>): (r: (State, int))
    requires Consistent(st) && consumed <= |body|
    decreases |offers|
  {
    if offers == [] || consumed == |body| then (st, consumed)
    else
      var buffer := body[consumed..consumed + Min(offers[0].n, |body| - consumed)];
      var (st', c, na) := Written(st, range, buffer, offers[0].accept);
      Progress(st, range, buffer, offers[0].accept);
      Run(st', range, body, consumed + na, offers[1..])
  }

  /** A write consumes between none and all of what it is offered. */
  lemma Progress(st: State, range: string, buffer: Bytes, accept: nat)
    requires Consistent(st)
    ensures var (st', c, na) := Written(st, range, buffer, accept);
            0 <= na <= |buffer| && Consistent(st')
  {
  }

  /** What must have been passed on when consumed bytes of body have been. */
  function Passed(body: Bytes, consumed: nat, start: nat, length: nat): Bytes
    requires consumed <= |body|
  {
    body[Min(start, consumed)..Min(start + length, consumed)]
  }

  ghost predicate Filtering(st: State, range: string, body: Bytes, consumed: nat, start: nat, length: nat)
    requires consumed <= |body|
  {
    && st.start == start && st.length == length && !st.error && st.position == consumed
    && st.resp.contentLength == Some(length) && st.resp.status == PartialContent && Derived(st, range)
    && st.sent == Passed(body, consumed, start, length)
    && (consumed == 0 ==> start == 0)
  }

  lemma PassedGrows(body: Bytes, consumed: nat, before: nat, nw: nat, na: nat, start: nat, length: nat)
    requires consumed + na <= |body| && before + nw <= na
    requires if nw == 0 then start + length <= consumed || consumed + na <= start || length == 0
             else consumed + before == Max(start, consumed)
    requires nw > 0 ==> consumed + before + nw == Min(start + length, consumed + na)
    ensures Passed(body, consumed + na, start, length)
            == Passed(body, consumed, start, length) + body[consumed + before..consumed + before + nw]
  {
  }

  /** What a write behind an accepted range consumes; the first byte of a write before the range always is. */
  lemma FilteredAdvances(st: State, buffer: Bytes, accept: nat)
    requires 0 <= st.position && 0 <= st.start && 0 <= st.length
    ensures var (st', na) := Filtered(st, buffer, accept);
            && 0 <= na <= |buffer| && st' == st.(position := st.position + na, sent := st'.sent)
            && (st.position < st.start && buffer != [] ==> na > 0)
  {
  }

  lemma SentIsWindow(st: State, body: Bytes, n: nat, accept: nat)
    requires 0 <= st.position && 0 <= st.start && 0 <= st.length
    requires st.position + n <= |body| && st.sent == Passed(body, st.position, st.start, st.length)
    ensures var (st', na) := Filtered(st, body[st.position..st.position + n], accept);
            0 <= na <= n && st'.sent == Passed(body, st.position + na, st.start, st.length)
  {
    hide Before, Inside, Passed;
    WindowCases(st.position, n, st.start, st.length);
    var before := Before(st.position, n, st.start);
    var nw := Min(accept, Inside(st.position, n, st.start, st.start + st.length));
    var na := Filtered(st, body[st.position..st.position + n], accept).1;
    SliceOfSlice(body, st.position, st.position + n, before, before + nw);
    if na == 0 {
      assert st.sent + [] == st.sent;
    } else {
      PassedGrows(body, st.position, before, nw, na, st.start, st.length);
    }
  }

  /** A write behind an accepted range keeps what has been passed on equal to the window of what was consumed. */
  lemma FilteredKeepsWindow(st: State, body: Bytes, n: nat, accept: nat)
    requires 0 <= st.position && 0 <= st.start && 0 <= st.length
    requires st.position + n <= |body| && (n > 0 || st.position > 0 || st.start == 0)
    requires st.sent == Passed(body, st.position, st.start, st.length)
    ensures var (st', na) := Filtered(st, body[st.position..st.position + n], accept);
            && 0 <= na <= n && st' == st.(position := st.position + na, sent := st'.sent)
            && st'.sent == Passed(body, st'.position, st.start, st.length)
            && (st'.position == 0 ==> st.start == 0)
  {
    hide Filtered, Passed;
    var buffer := body[st.position..st.position + n];
    FilteredAdvances(st, buffer, accept);
    SentIsWindow(st, body, n, accept);
  }

  /** Either nothing has been written yet and the range will be accepted, or the accepted range is being served. */
  ghost predicate Serving(st: State, range: string, body: Bytes, consumed: nat, start: nat, length: nat)
    requires consumed <= |body|
  {
    if consumed == 0 && st == Fresh(st.resp.contentLength) then
      var st1 := Parsed(st, range);
      Accepted(st1) && st1.start == start && st1.length == length
    else Filtering(st, range, body, consumed, start, length)
  }

  lemma ServingStep(st: State, range: string, body: Bytes, consumed: nat, n: nat, accept: nat, start: nat, length: nat)
    requires consumed + n <= |body| && Consistent(st) && (n > 0 || consumed > 0 || start == 0)
    requires Serving(st, range, body, consumed, start, length)
    ensures var (st', c, na) := Written(st, range, body[consumed..consumed + n], accept);
            && 0 <= na <= n && c == Ok && Consistent(st')
            && Filtering(st', range, body, consumed + na, start, length)
  {
    hide Filtered, Parsed;
    var st1 := if consumed == 0 then Parsed(st, range) else st;
    if consumed == 0 {
      FirstParse(range, st.resp.contentLength);
      if st != Fresh(st.resp.contentLength) {
        assert Accepted(st);
        ParseAgain(st, range);
      }
    }
    FilteredKeepsWindow(st1, body, n, accept);
  }

  /**
   For an accepted range, whatever pieces the body comes in and whatever the streams below accept, what has been
   passed on is the requested window of what has been consumed, unless the first piece is empty and the range starts
   behind 0.
   */
  lemma {:induction false} RunServesRange(st: State, range: string, body: Bytes, consumed: nat, offers: seq<Offer>,
                                          start: nat, length: nat)
    requires consumed <= |body| && Consistent(st)
    requires Serving(st, range, body, consumed, start, length)
    requires consumed == 0 && start > 0 && offers != [] ==> offers[0].n > 0
    ensures var (st', c') := Run(st, range, body, consumed, offers);
            && consumed <= c' <= |body| && Serving(st', range, body, c', start, length)
    decreases |offers|
  {
    hide Written, Serving;
    if offers != [] && consumed < |body| {
      var n := Min(offers[0].n, |body| - consumed);
      var (st', c, na) := Written(st, range, body[consumed..consumed + n], offers[0].accept);
      ServingStep(st, range, body, consumed, n, offers[0].accept, start, length);
      FilteringIsServing(st', range, body, consumed + na, start, length);
      RunServesRange(st', range, body, consumed + na, offers[1..], start, length);
    }
  }

  lemma FilteringIsServing(st: State, range: string, body: Bytes, consumed: nat, start: nat, length: nat)
    requires consumed <= |body| && Filtering(st, range, body, consumed, start, length)
    ensures Serving(st, range, body, consumed, start, length)
  {
  }

  /** What a further parse makes of a range that starts behind 0: the Content-Length is now the one it set itself. */
  lemma ParseSpoils(st: State, range: string)
    requires Accepted(st) && Derived(st, range) && st.start > 0
    ensures var (first, last) := RangeParts(range).value;
            var st' := Parsed(st, range);
            && (st'.error <==> first != "" && (last != "" || st.length < st.start))
            && (!st'.error ==> Accepted(st') && Derived(st', range))
            && (first == "" ==> st'.start == 0 && st'.length == st.length)
            && (last == "" ==> st'.start == st.start && st'.length == st.length - st.start)
  {
  }

  /** The range is refused, or stands for another window than the one with this start > 0 and length. */
  ghost predicate Spoilt(st: State, range: string, start: int, length: int) {
    || st.error
    || ((st.position == 0 ==> Accepted(st) && Derived(st, range))
        && (st.start == 0 || (st.start == start && st.length < length)))
  }

  lemma StaysSpoilt(st: State, range: string, buffer: Bytes, accept: nat, start: int, length: int)
    requires Consistent(st) && RangeParts(range).Some? && Spoilt(st, range, start, length)
    ensures Spoilt(Written(st, range, buffer, accept).0, range, start, length)
  {
    hide Find, Atoi, Filtered, RangeParts, Parsed;
    if st.position == 0 {
      if st.error {
        ParseKeepsError(st, range);
      } else if st.start == 0 {
        ParseAgain(st, range);
      } else {
        ParseSpoils(st, range);
      }
    }
    var st1 := if st.position == 0 then Parsed(st, range) else st;
    if 0 <= st1.position && !st1.error {
      FilteredAdvances(st1, buffer, accept);
    }
  }

  lemma ParseKeepsError(st: State, range: string)
    requires st.error && RangeParts(range).Some?
    ensures Parsed(st, range).error
  {
    hide Atoi, Find;
  }

  lemma {:induction false} RunStaysSpoilt(st: State, range: string, body: Bytes, consumed: nat, offers: seq<Offer>,
                                          start: int, length: int)
    requires consumed <= |body| && Consistent(st)
    requires RangeParts(range).Some? && Spoilt(st, range, start, length)
    ensures Spoilt(Run(st, range, body, consumed, offers).0, range, start, length)
    decreases |offers|
  {
    hide Written, Spoilt, RangeParts;
    if offers != [] && consumed < |body| {
      var buffer := body[consumed..consumed + Min(offers[0].n, |body| - consumed)];
      var (st', c, na) := Written(st, range, buffer, offers[0].accept);
      Progress(st, range, buffer, offers[0].accept);
      StaysSpoilt(st, range, buffer, offers[0].accept, start, length);
      RunStaysSpoilt(st', range, body, consumed + na, offers[1..], start, length);
    }
  }

  /** An empty first write consumes nothing of an accepted range, so that the second one parses the header again. */
  lemma EmptyFirstWrite(range: string, contentLength: Option<int>, accept: nat)
    requires Accepted(Parsed(Fresh(contentLength), range))
    ensures Written(Fresh(contentLength), range, [], accept) == (Parsed(Fresh(contentLength), range), Ok, 0)
  {
    hide Parsed, Filtered;
    var st1 := Parsed(Fresh(contentLength), range);
    FilteredCases(st1, [], accept);
    assert st1.sent + [] == st1.sent;
  }

  /** So the second write parses the header again, and that spoils a range behind 0. */
  lemma SecondWriteSpoils(st1: State, range: string, buffer: Bytes, accept: nat)
    requires Accepted(st1) && Derived(st1, range) && st1.start > 0
    ensures Spoilt(Written(st1, range, buffer, accept).0, range, st1.start, st1.length)
  {
    hide Parsed, Filtered, Atoi, RangeParts;
    ParseSpoils(st1, range);
    var st2 := Parsed(st1, range);
    if !st2.error {
      FilteredAdvances(st2, buffer, accept);
    }
  }

  /** What every range makes of a response whose header has not been looked at yet. */
  lemma EveryRange(range: string, contentLength: Option<int>)
    ensures var st := Parsed(Fresh(contentLength), range);
            if Accepted(st) then Answered(st, Known(contentLength), st.start, st.start + st.length - 1)
            else if st.position == -1 then !st.error && st.resp == Fresh(contentLength).resp
            else Refused(st, contentLength)
  {
    hide Find, Atoi, RangeParts;
    NothingToApply(Fresh(contentLength), range);
    if RangeParts(range).Some? {
      NoDash(range);
      AtoiOfPart(RangeParts(range).value.0);
    }
  }

  /** The part in front of the first '-' has none in it, so that it is not negative. */
  lemma NoDash(range: string)
    requires RangeParts(range).Some?
    ensures '-' !in RangeParts(range).value.0
  {
    hide Atoi;
    var rest := range[Find(range, BYTES) + |BYTES|..];
    var ih := Find(rest, "-");
    FindIsFirst(rest, "-");
    forall k | 0 <= k < ih
      ensures rest[..ih][k] != '-'
    {
      assert !OccursAt(rest, "-", k);
      assert rest[k..k + 1] == [rest[k]];
    }
  }

  predicate OccursAt(s: string, pat: string, i: int) {
    0 <= i && i + |pat| <= |s| && s[i..i + |pat|] == pat
  }

  lemma OccursLater(s: string, pat: string, j: int)
    requires s != ""
    ensures OccursAt(s[1..], pat, j) <==> j >= 0 && OccursAt(s, pat, j + 1)
  {
    if 0 <= j && j + 1 + |pat| <= |s| {
      SliceOfSlice(s, 1, |s|, j, j + |pat|);
      assert s[1..|s|] == s[1..];
    }
  }

  /** The pattern occurs where it is found, and nowhere before, or nowhere at all. */
  lemma {:induction false} FindIsFirst(s: string, pat: string)
    ensures var i := Find(s, pat);
            && (i != -1 ==> OccursAt(s, pat, i))
            && (forall j | OccursAt(s, pat, j) :: i != -1 && i <= j)
    decreases |s|
  {
    if |pat| <= |s| && s[..|pat|] == pat {
      assert OccursAt(s, pat, 0);
    } else if |pat| <= |s| && s != "" {
      FindIsFirst(s[1..], pat);
      OccursLater(s, pat, Find(s[1..], pat));
      assert !OccursAt(s, pat, 0);
      var i := Find(s, pat);
      hide OccursAt;
      forall j | OccursAt(s, pat, j)
        ensures i != -1 && i <= j
      {
        NotBefore(s, pat, j);
        OccursLater(s, pat, j - 1);
      }
    }
  }

  lemma NotBefore(s: string, pat: string, j: int)
    requires OccursAt(s, pat, j)
    ensures j >= 0
  {
  }

  predicate FirstAt(s: string, pat: string, i: int) {
    OccursAt(s, pat, i) && forall j | 0 <= j < i :: !OccursAt(s, pat, j)
  }

  /** A header is split behind its first "bytes=", at the first '-' that follows, if there are both. */
  lemma HeaderIsSplit(range: string, ib: int)
    requires FirstAt(range, BYTES, ib)
    ensures var rest := range[ib + |BYTES|..];
            && (RangeParts(range).None? <==> '-' !in rest)
            && (RangeParts(range).Some? ==>
                  var (first, last) := RangeParts(range).value;
                  rest == first + "-" + last && '-' !in first)
  {
    FindIsFirst(range, BYTES);
    assert Find(range, BYTES) == ib;
    var rest := range[ib + |BYTES|..];
    var ih := Find(rest, "-");
    FindIsFirst(rest, "-");
    hide Find;
    if ih == -1 {
      forall k | 0 <= k < |rest|
        ensures rest[k] != '-'
      {
        assert !OccursAt(rest, "-", k);
        assert rest[k..k + 1] == [rest[k]];
      }
    } else {
      NoDash(range);
      assert rest[ih] == '-';
      assert rest == rest[..ih] + [rest[ih]] + rest[ih + 1..];
    }
  }

  lemma NoHeader(range: string)
    requires forall i :: !OccursAt(range, BYTES, i)
    ensures RangeParts(range).None?
  {
    FindIsFirst(range, BYTES);
  }

  lemma {:induction false} AtoiOfPart(s: string)
    requires '-' !in s
    ensures Atoi(s) >= 0
  {
    if s != "" && IsSpace(s[0] as int) {
      AtoiOfPart(s[1..]);
    }
  }

  /** Behind the first byte the response is left alone. */
  lemma {:induction false} RunKeepsResponse(st: State, range: string, body: Bytes, consumed: nat, offers: seq<Offer>)
    requires Consistent(st) && consumed <= |body| && st.position > 0
    ensures Run(st, range, body, consumed, offers).0.resp == st.resp
    decreases |offers|
  {
    hide Parsed;
    if offers != [] && consumed < |body| {
      var buffer := body[consumed..consumed + Min(offers[0].n, |body| - consumed)];
      var (st', c, na) := Written(st, range, buffer, offers[0].accept);
      Progress(st, range, buffer, offers[0].accept);
      RunKeepsResponse(st', range, body, consumed + na, offers[1..]);
    }
  }

  /** A range from 0 whose first write has consumed nothing: the total announced is its own length. */
  lemma {:induction false} TotalIsLength(st: State, range: string, body: Bytes, offers: seq<Offer>)
    requires Accepted(st) && Derived(st, range) && st.start == 0
    requires body != [] && Run(st, range, body, 0, offers).1 > 0
    ensures Answered(Run(st, range, body, 0, offers).0, Some(st.length), 0, st.length - 1)
    decreases |offers|
  {
    hide Find, Atoi, RangeParts, Run;
    RunStep(st, range, body, 0, offers);
    var buffer := body[0..Min(offers[0].n, |body|)];
    var (st', c, na) := Written(st, range, buffer, offers[0].accept);
    ParseAgain(st, range);
    AnsweredAgain(st, range);
    FilteredAdvances(Parsed(st, range), buffer, offers[0].accept);
    if na > 0 {
      RunKeepsResponse(st', range, body, na, offers[1..]);
    } else {
      TotalIsLength(st', range, body, offers[1..]);
    }
  }

  lemma RunStep(st: State, range: string, body: Bytes, consumed: nat, offers: seq<Offer>)
    requires Consistent(st) && consumed <= |body|
    ensures offers == [] || consumed == |body| ==> Run(st, range, body, consumed, offers) == (st, consumed)
    ensures offers != [] && consumed < |body| ==>
              var buffer := body[consumed..consumed + Min(offers[0].n, |body| - consumed)];
              var (st', c, na) := Written(st, range, buffer, offers[0].accept);
              && 0 <= na <= |buffer| && Consistent(st')
              && Run(st, range, body, consumed, offers) == Run(st', range, body, consumed + na, offers[1..])
  {
    hide Parsed, Filtered;
    if offers != [] && consumed < |body| {
      var buffer := body[consumed..consumed + Min(offers[0].n, |body| - consumed)];
      Progress(st, range, buffer, offers[0].accept);
    }
  }

  lemma AnsweredAgain(st: State, range: string)
    requires Accepted(st) && Derived(st, range) && st.start == 0
    ensures Answered(Parsed(st, range), Some(st.length), 0, st.length - 1)
  {
  }

  /** The first write gets the header's answer out of reach of a further one: it consumes something. */
  predicate Begins(offer: Offer, start: int, length: int) {
    offer.n > 0 && (start > 0 || length == 0 || offer.accept > 0)
  }

  /**
   Once the whole body has been consumed, the range that was accepted has been served exactly if it starts at 0 or the
   first write was not empty. Then, as far as the body goes, the bytes of body[start, start + length) have been passed
   on. Content-Range names the positions of the first and the last of them in the body, if there are any and the body
   reaches that far; Content-Length is their number. The total is the length of the body that was known, or none if it
   was not known, exactly if the first write consumed something or the range is the whole body.
   */
  lemma RangeIsServed(range: string, contentLength: Option<int>, body: Bytes, offers: seq<Offer>)
    requires body != []
    requires Accepted(Parsed(Fresh(contentLength), range))
    requires Run(Fresh(contentLength), range, body, 0, offers).1 == |body|
    ensures var st1 := Parsed(Fresh(contentLength), range);
            var st := Run(Fresh(contentLength), range, body, 0, offers).0;
            && offers != []
            && (SameWindow(st, st1) <==> st1.start == 0 || offers[0].n > 0)
            && (SameWindow(st, st1) ==>
                  && st.sent == body[Min(st1.start, |body|)..Min(st1.start + st1.length, |body|)]
                  && (contentLength == Some(|body|) ==> |st.sent| == st1.length)
                  && st.resp.status == PartialContent && st.resp.contentRange.Some?
                  && var (first, last, total) := st.resp.contentRange.value;
                     && st.resp.contentLength == Some(last + 1 - first)
                     && (|st.sent| == last + 1 - first <==> last < first || last < |body|)
                     && (first <= last < |body| ==> 0 <= first && st.sent == body[first..last + 1])
                     && (total == Known(contentLength) <==>
                           Begins(offers[0], st1.start, st1.length) || Known(contentLength) == Some(st1.length)))
  {
    hide Find, Atoi, Written, Parsed;
    var st1 := Parsed(Fresh(contentLength), range);
    if st1.start == 0 || offers[0].n > 0 {
      RunServesRange(Fresh(contentLength), range, body, 0, offers, st1.start, st1.length);
      WindowFits(range, contentLength);
      RangeIsAnnounced(range, contentLength, body, offers);
    } else {
      RunIsSpoilt(range, contentLength, body, offers);
    }
  }

  /** What the response says of a range that is served. */
  lemma RangeIsAnnounced(range: string, contentLength: Option<int>, body: Bytes, offers: seq<Offer>)
    requires body != [] && offers != [] && Accepted(Parsed(Fresh(contentLength), range))
    requires Run(Fresh(contentLength), range, body, 0, offers).1 == |body|
    requires Parsed(Fresh(contentLength), range).start == 0 || offers[0].n > 0
    ensures var st1 := Parsed(Fresh(contentLength), range);
            var st := Run(Fresh(contentLength), range, body, 0, offers).0;
            var total := if Begins(offers[0], st1.start, st1.length) then Known(contentLength) else Some(st1.length);
            Answered(st, total, st1.start, st1.start + st1.length - 1)
  {
    hide Find, Atoi, Parsed, Derived, Run;
    var st1 := Parsed(Fresh(contentLength), range);
    EveryRange(range, contentLength);
    FirstParse(range, contentLength);
    RunStep(Fresh(contentLength), range, body, 0, offers);
    var buffer := body[0..Min(offers[0].n, |body|)];
    var (st', c, na) := Written(Fresh(contentLength), range, buffer, offers[0].accept);
    FirstBytes(st1, buffer, offers[0].accept);
    if na > 0 {
      RunKeepsResponse(st', range, body, na, offers[1..]);
    } else {
      DerivedStill(st1, st', range);
      TotalIsLength(st', range, body, offers[1..]);
    }
  }

  lemma DerivedStill(st: State, st': State, range: string)
    requires Derived(st, range) && st'.start == st.start && st'.length == st.length
    ensures Derived(st', range)
  {
  }

  /** When the first write behind an accepted range consumes nothing. */
  lemma FirstBytes(st: State, buffer: Bytes, accept: nat)
    requires Accepted(st)
    ensures var (st', na) := Filtered(st, buffer, accept);
            && 0 <= na <= |buffer| && st' == st.(position := na, sent := st'.sent)
            && (na > 0 <==> Begins(Offer(|buffer|, accept), st.start, st.length))
  {
  }

  lemma WindowFits(range: string, contentLength: Option<int>)
    requires Accepted(Parsed(Fresh(contentLength), range))
    ensures var st := Parsed(Fresh(contentLength), range);
            contentLength.Some? && contentLength.value >= 0 ==> st.start + st.length <= contentLength.value
  {
    hide Find, Atoi;
  }

  lemma RunIsSpoilt(range: string, contentLength: Option<int>, body: Bytes, offers: seq<Offer>)
    requires body != [] && offers != [] && offers[0].n == 0
    requires Accepted(Parsed(Fresh(contentLength), range)) && Parsed(Fresh(contentLength), range).start > 0
    requires Run(Fresh(contentLength), range, body, 0, offers).1 == |body|
    ensures var st1 := Parsed(Fresh(contentLength), range);
            !SameWindow(Run(Fresh(contentLength), range, body, 0, offers).0, st1)
  {
    hide Written, Parsed, RangeParts;
    var st1 := Parsed(Fresh(contentLength), range);
    var rest := offers[1..];
    FirstParse(range, contentLength);
    assert body[0..0] == [];
    EmptyFirstWrite(range, contentLength, offers[0].accept);
    if rest != [] {
      var buffer := body[0..Min(rest[0].n, |body|)];
      SecondWriteSpoils(st1, range, buffer, rest[0].accept);
      Progress(st1, range, buffer, rest[0].accept);
      var (st', c, na) := Written(st1, range, buffer, rest[0].accept);
      RunStaysSpoilt(st', range, body, na, rest[1..], st1.start, st1.length);
    }
  }

  // What the header texts of section 2.1 of RFC 7233 ask for

  lemma FindFirst(pat: string, s: string)
    ensures Find(pat + s, pat) == 0
  {
  }

  lemma {:induction false} FindBehindDigits(digits: string, s: string)
    requires forall c | c in digits :: IsDigit(c)
    ensures Find(digits + "-" + s, "-") == |digits|
  {
    var all := digits + "-" + s;
    if digits == "" {
      assert all[..1] == "-";
    } else {
      assert all[1..] == digits[1..] + "-" + s;
      assert all[..1][0] == digits[0] && digits[0] in digits;
      FindBehindDigits(digits[1..], s);
    }
  }

  lemma PartsOf(first: string, last: string)
    requires forall c | c in first :: IsDigit(c)
    ensures RangeParts(BYTES + (first + "-" + last)) == Some((first, last))
  {
    hide Find;
    var text := first + "-" + last;
    FindFirst(BYTES, text);
    assert (BYTES + text)[0 + |BYTES|..] == text;
    FindBehindDigits(first, last);
    assert text[..|first|] == first && text[|first| + 1..] == last;
  }

  /** "a-b" is the bytes from a to b, for a at most b + 1 and b inside the body. */
  lemma RangeFromTo(a: nat, b: nat, contentLength: Option<nat>)
    ensures var st := Parsed(Fresh(contentLength), BYTES + (Decimal(a) + "-" + Decimal(b)));
            && (Accepted(st) <==> a <= b + 1 && (contentLength.Some? ==> b < contentLength.value))
            && (Accepted(st) ==> st.start == a && st.length == b + 1 - a)
            && (Accepted(st) ==> Answered(st, contentLength, a, b))
            && (!Accepted(st) ==> Refused(st, contentLength))
  {
    hide RangeParts, Atoi, Decimal;
    DecimalHasDigits(a);
    PartsOf(Decimal(a), Decimal(b));
    AtoiOfDecimal(a);
    AtoiOfDecimal(b);
  }

  /** "a-" is everything from a on, if the length of the body is known and at least a. */
  lemma RangeFrom(a: nat, contentLength: Option<nat>)
    ensures var st := Parsed(Fresh(contentLength), BYTES + (Decimal(a) + "-"));
            && (Accepted(st) <==> contentLength.Some? && a <= contentLength.value)
            && (Accepted(st) ==> st.start == a && st.start + st.length == contentLength.value)
            && (Accepted(st) ==> Answered(st, contentLength, a, contentLength.value - 1))
            && (!Accepted(st) ==> Refused(st, contentLength))
  {
    hide RangeParts, Atoi, Decimal;
    DecimalHasDigits(a);
    PartsOf(Decimal(a), "");
    assert Decimal(a) + "-" == Decimal(a) + "-" + "";
    AtoiOfDecimal(a);
  }

  /** "-n" is the last n bytes, if the length of the body is known and at least n. */
  lemma RangeLast(n: nat, contentLength: Option<nat>)
    ensures var st := Parsed(Fresh(contentLength), BYTES + ("-" + Decimal(n)));
            && (Accepted(st) <==> contentLength.Some? && n <= contentLength.value)
            && (Accepted(st) ==> st.length == n && st.start + st.length == contentLength.value)
            && (Accepted(st) ==> Answered(st, contentLength, contentLength.value - n, contentLength.value - 1))
            && (!Accepted(st) ==> Refused(st, contentLength))
  {
    hide RangeParts, Atoi, Decimal;
    PartsOf("", Decimal(n));
    assert "-" + Decimal(n) == "" + "-" + Decimal(n);
    AtoiOfDecimal(n);
  }

  /** How many bytes are offered altogether. */
  function Offered(offers: seq<Offer>): nat {
    if offers == [] then 0 else offers[0].n + Offered(offers[1..])
  }

  /** Behind a refusal nothing of the body is passed on, yet every write is said to be consumed. */
  lemma {:induction false} RefusedRange(st: State, range: string, body: Bytes, consumed: nat, offers: seq<Offer>)
    requires Consistent(st) && consumed <= |body|
    requires st.error && st.position == -1
    ensures Run(st, range, body, consumed, offers) == (st, Min(|body|, consumed + Offered(offers)))
    decreases |offers|
  {
    if offers != [] && consumed < |body| {
      var n := Min(offers[0].n, |body| - consumed);
      RefusedRange(st, range, body, consumed + n, offers[1..]);
    }
  }

  /**
   When a range is refused, a line feed is passed on and nothing of the body, yet every write is said to be consumed.
   The response says so, and has neither a Content-Length nor a Content-Range.
   */
  lemma RefusedRun(range: string, contentLength: Option<int>, body: Bytes, offers: seq<Offer>)
    requires body != [] && offers != [] && Parsed(Fresh(contentLength), range).error
    ensures var (st, consumed) := Run(Fresh(contentLength), range, body, 0, offers);
            st.sent == [LF] && Refused(st, None) && consumed == Min(|body|, Offered(offers))
  {
    hide Parsed, Find, Run;
    EveryRange(range, contentLength);
    ErrorIsFirst(range, contentLength);
    RunStep(Fresh(contentLength), range, body, 0, offers);
    var n := Min(offers[0].n, |body|);
    var st := Written(Fresh(contentLength), range, body[0..n], offers[0].accept).0;
    RefusedRange(st, range, body, n, offers[1..]);
  }

  lemma ErrorIsFirst(range: string, contentLength: Option<int>)
    ensures var st := Parsed(Fresh(contentLength), range);
            st.error ==> st.position == 0 && st.sent == [] && !Accepted(st)
  {
    hide Find, Atoi;
  }

  /**
   Without a range of bytes in the request the first write answers End and takes nothing, so that the stream is removed
   from the chain; if it is not, it passes everything on as it is.
   */
  lemma IgnoredRange(range: string, contentLength: Option<int>, buffer: Bytes, body: Bytes, offers: seq<Offer>)
    ensures RangeParts(range).None? <==> Written(Fresh(contentLength), range, buffer, 0).1 == End
    ensures RangeParts(range).None? ==>
              && Written(Fresh(contentLength), range, buffer, 0).2 == 0
              && var (st, consumed) := Run(Fresh(contentLength), range, body, 0, offers);
                 0 <= consumed <= |body| && st.sent == body[..consumed] && st.resp == Fresh(contentLength).resp
  {
    hide Find, Atoi, Run, Filtered, Applied;
    assert body[..0] == [];
    NothingToApply(Fresh(contentLength), range);
    if RangeParts(range).None? && offers != [] && body != [] {
      RunStep(Fresh(contentLength), range, body, 0, offers);
      var n := Min(offers[0].n, |body|);
      PassedThrough(Written(Fresh(contentLength), range, body[0..n], offers[0].accept).0, range, body, 0, offers[1..]);
    }
    RunStep(Fresh(contentLength), range, body, 0, offers);
  }

  lemma {:induction false} PassedThrough(st: State, range: string, body: Bytes, consumed: nat, offers: seq<Offer>)
    requires consumed <= |body| && !st.error && st.position == -1 && st.sent == body[..consumed]
    ensures var (st', consumed') := Run(st, range, body, consumed, offers);
            0 <= consumed' <= |body| && st'.sent == body[..consumed'] && st'.resp == st.resp
    decreases |offers|
  {
    if offers != [] && consumed < |body| {
      var n := Min(offers[0].n, |body| - consumed);
      var buffer := body[consumed..consumed + n];
      var (st', c, na) := Written(st, range, buffer, offers[0].accept);
      assert body[..consumed] + buffer[..na] == body[..consumed + na];
      PassedThrough(st', range, body, consumed + na, offers[1..]);
    }
  }
}
