/**
 The chunked decoder of http/Client.cpp, on top of sconex/LineBuffer.cpp and sconex/StreamTokenizer.cpp.
 */
module Clients {
  import opened Bytes
  import opened Chunked

  // sconex/LineBuffer.cpp

  /** The answer of next_token: what to skip, the token, what to skip behind it, and the remembered character. */
  datatype Token = Token(found: bool, pre: nat, len: nat, post: nat, prev: u8)

  function NextToken(buf: Bytes, i: nat, pre: nat, len: nat, prev: u8): (t: Token)
    requires i == pre + len <= |buf|
    ensures t.pre + t.len + t.post <= |buf|
    decreases |buf| - i
  {
    if i == |buf| then Token(false, pre, len, 0, prev)
    else if prev == CR && buf[i] == LF then
      // the skipped byte is counted in front, wherever it stands
      NextToken(buf, i + 1, pre + 1, len, 0)
    else if buf[i] == CR || buf[i] == LF then
      if i + 1 == |buf| then Token(true, pre, len, 1, buf[i])
      else Token(true, pre, len, if buf[i] == CR && buf[i + 1] == LF then 2 else 1, prev)
    else NextToken(buf, i + 1, pre, len + 1, prev)
  }

  method LineBufferNextToken(buf: Bytes, prev: u8) returns (t: Token)
    ensures t == NextToken(buf, 0, 0, 0, prev)
  {
    var prevChar, preSkip, length, postSkip := prev, 0, 0, 0;
    var i := 0;
    while i < |buf|
      invariant i == preSkip + length <= |buf| && postSkip == 0
      invariant NextToken(buf, i, preSkip, length, prevChar) == NextToken(buf, 0, 0, 0, prev)
    {
      var c := buf[i];
      if prevChar == CR && c == LF {
        preSkip := preSkip + 1;
        prevChar := 0;
        i := i + 1;
        continue;
      }
      if c == CR || c == LF {
        postSkip := postSkip + 1;
        if i + 1 < |buf| {
          if c == CR && buf[i + 1] == LF {
            postSkip := postSkip + 1;
          }
        } else {
          prevChar := c;
        }
        break;
      }
      length := length + 1;
      i := i + 1;
    }
    t := Token(postSkip > 0, preSkip, length, postSkip, prevChar);
  }

  // The stream

  /** The fields of the stream; src is what the stream below it has still to deliver. */
  datatype State = State(buf: Bytes, wasted: nat, size: nat, prev: u8, overflow: bool, remaining: int, data: Bytes,
                         src: Bytes)

  function Amount(st: State, fill: Fill, room: nat): nat {
    Min(fill.k, Min(room, |st.src|))
  }

  function Room(st: State): int {
    st.size - st.wasted - |st.buf|
  }

  function Popped(st: State, n: nat): State
    requires n <= |st.buf|
  {
    st.(buf := st.buf[n..], wasted := if n == |st.buf| then 0 else st.wasted + n)
  }

  function Filled(st: State, n: nat): State
    requires n <= |st.src|
  {
    st.(buf := st.buf + st.src[..n], src := st.src[n..])
  }

  function TakeToken(st: State, t: Token, overflowed: bool): (State, Condition, Bytes)
    requires t.pre + t.len + t.post <= |st.buf|
  {
    (Popped(st, t.pre + t.len + t.post), if overflowed then Error else Ok, st.buf[t.pre..t.pre + t.len])
  }

  function Tokenized(st: State, fill: Fill): (State, Condition, Bytes) {
    var t1 := NextToken(st.buf, 0, 0, 0, st.prev);
    var st1 := st.(overflow := false, prev := t1.prev);
    if t1.found then TakeToken(st1, t1, st.overflow) else
    var st2 := st1.(wasted := 0);
    if Room(st2) <= 0 then (st2.(overflow := true), Error, []) else
    var n := Amount(st2, fill, Room(st2));
    if n == 0 then (st2, fill.c, []) else
    var t2 := NextToken(Filled(st2, n).buf, 0, 0, 0, st2.prev);
    var st3 := Filled(st2, n).(prev := t2.prev);
    if t2.found then TakeToken(st3, t2, st.overflow)
    else if Room(st3) > 0 then (st3, Wait, [])
    else (st3.(overflow := true), Error, [])
  }

  /** The part of read that goes to the stream below: straight for a large request, else through the buffer. */
  function ReadBelow(st: State, left: nat, fill: Fill): (State, Condition, Bytes) {
    if left >= Room(st) then
      var nr := Amount(st, fill, left);
      (st.(src := st.src[nr..]), fill.c, st.src[..nr])
    else
      var nr := Amount(st, fill, Room(st));
      if nr == 0 then (st, fill.c, []) else
      var st2 := Filled(st, nr);
      var b := Min(left, |st2.buf|);
      (Popped(st2, b), fill.c, st2.buf[..b])
  }

  function ReadBytes(st: State, n: nat, fill: Fill): (State, Condition, Bytes) {
    if st.buf == [] then ReadBelow(st, n, fill) else
    var a := Min(n, |st.buf|);
    var st1 := Popped(st, a);
    if a == n then (st1, Ok, st.buf[..a]) else
    var (st2, c, bytes) := ReadBelow(st1, n - a, fill);
    (st2, c, st.buf[..a] + bytes)
  }

  /** What is left of s when it is taken for a C string. */
  function CString(s: Bytes): (r: Bytes)
    ensures |r| <= |s|
  {
    if s == [] || s[0] == 0 then [] else [s[0]] + CString(s[1..])
  }

  function Request(remaining: int): nat {
    if 0 < remaining < 4096 then remaining else 4096
  }

  function DataReceived(st: State, fill: Fill): (State, Condition) {
    var (st1, c, bytes) := ReadBytes(st, Request(st.remaining), fill);
    (st1.(remaining := if st.remaining > 0 then st.remaining - |bytes| else st.remaining,
          data := st.data + CString(bytes)), c)
  }

  const ULONG: nat := 0x1_0000_0000_0000_0000

  /** strtoul with base 16. */
  function StrToUl16(s: Bytes): nat {
    if s != [] && IsSpace(s[0] as int) then StrToUl16(s[1..])
    else if s != [] && s[0] == 43 then Min(HexMagnitude(s[1..]), ULONG - 1)
    else if s != [] && s[0] == DASH then
      if HexMagnitude(s[1..]) >= ULONG then ULONG - 1 else (ULONG - HexMagnitude(s[1..])) % ULONG
    else Min(HexMagnitude(s), ULONG - 1)
  }

  function HexMagnitude(s: Bytes): nat {
    if |s| > 2 && s[0] == 48 && (s[1] == 120 || s[1] == 88) && IsHex(s[2]) then HexValue(s[2..], 0) else HexValue(s, 0)
  }

  /** The cast to int. */
  function ToInt32(n: nat): int {
    var low := n % 0x1_0000_0000;
    if low < 0x8000_0000 then low else low - 0x1_0000_0000
  }

  function HeaderStep(st: State, fill: Fill): (State, Condition) {
    if st.remaining != -1 then (st, Ok) else
    var (st1, c, line) := Tokenized(st, fill);
    if c != Ok then (st1, c) else
    var size := ToInt32(StrToUl16(line));
    (st1.(remaining := size), if size == 0 then End else Ok)
  }

  function DataStep(st: State, c: Condition, fill: Fill): (State, Condition) {
    if c == Ok && st.remaining > 0 then DataReceived(st, fill) else (st, c)
  }

  function FooterStep(st: State, c: Condition, fill: Fill): (State, Condition) {
    if c == Ok && st.remaining == 0 then
      var (st1, c1, line) := Tokenized(st, fill);
      (if c1 == Ok then st1.(remaining := -1) else st1, c1)
    else (st, c)
  }

  /** One call of receive_body_chunked; each of its three steps reads at most once from the stream below. */
  function Received(st: State, header: Fill, body: Fill, footer: Fill): (State, Condition) {
    var (st1, c1) := HeaderStep(st, header);
    var (st2, c2) := DataStep(st1, c1, body);
    FooterStep(st2, c2, footer)
  }

  class ClientStream {
    const size: nat
    var buf: Bytes
    var wasted: nat
    var prev: u8
    var overflow: bool
    var remaining: int
    var data: Bytes
    var src: Bytes

    function Abs(): State
      reads this
    {
      State(buf, wasted, size, prev, overflow, remaining, data, src)
    }

    constructor (src: Bytes)
      ensures Abs() == State([], 0, 1024, 0, false, -1, [], src)
    {
      size := 1024;
      buf := [];
      wasted := 0;
      prev := 0;
      overflow := false;
      remaining := -1;
      data := [];
      this.src := src;
    }

    method Pop(n: nat)
      requires n <= |buf|
      modifies this
      ensures Abs() == Popped(old(Abs()), n)
    {
      wasted := wasted + n;
      buf := buf[n..];
      if |buf| == 0 {
        wasted := 0;
      }
    }

    method Tokenize(fill: Fill) returns (c: Condition, token: Bytes)
      modifies this
      ensures (Abs(), c, token) == Tokenized(old(Abs()), fill)
    {
      hide NextToken, TakeToken;
      var prevOverflow := overflow;
      overflow := false;
      var t := LineBufferNextToken(buf, prev);
      prev := t.prev;
      if !t.found {
        wasted := 0;
        var avail := size - |buf|;
        if avail <= 0 {
          overflow := true;
          return Error, [];
        }
        var nr := Min(fill.k, Min(avail, |src|));
        if nr <= 0 {
          return fill.c, [];
        }
        buf, src := buf + src[..nr], src[nr..];
        t := LineBufferNextToken(buf, prev);
        prev := t.prev;
        if !t.found {
          if size - wasted - |buf| > 0 {
            return Wait, [];
          } else {
            overflow := true;
            return Error, [];
          }
        }
      }
      c, token := Take(t, prevOverflow);
    }

    method Take(t: Token, prevOverflow: bool) returns (c: Condition, token: Bytes)
      requires t.pre + t.len + t.post <= |buf| && prev == t.prev
      modifies this
      ensures (Abs(), c, token) == TakeToken(old(Abs()), t, prevOverflow)
    {
      token := buf[t.pre..t.pre + t.len];
      Pop(t.pre + t.len + t.post);
      c := if prevOverflow then Error else Ok;
    }

    method Read(n: nat, fill: Fill) returns (c: Condition, out: Bytes)
      modifies this
      ensures (Abs(), c, out) == ReadBytes(old(Abs()), n, fill)
      ensures remaining == old(remaining) && data == old(data)
    {
      hide ReadBelow;
      out := [];
      if |buf| > 0 {
        var a := Min(n, |buf|);
        out := buf[..a];
        Pop(a);
        if |out| == n {
          return Ok, out;
        }
      }
      var more;
      c, more := ReadFromBelow(n - |out|, fill);
      assert [] + more == more;
      out := out + more;
    }

    method ReadFromBelow(left: nat, fill: Fill) returns (c: Condition, out: Bytes)
      modifies this
      ensures (Abs(), c, out) == ReadBelow(old(Abs()), left, fill)
      ensures remaining == old(remaining) && data == old(data)
    {
      if left >= size - wasted - |buf| {
        var nr := Min(fill.k, Min(left, |src|));
        out, src := src[..nr], src[nr..];
        return fill.c, out;
      }
      out := [];
      var nr := Min(fill.k, Min(size - wasted - |buf|, |src|));
      if nr > 0 {
        buf, src := buf + src[..nr], src[nr..];
        var b := Min(left, |buf|);
        out := buf[..b];
        Pop(b);
      }
      return fill.c, out;
    }

    method ReceiveData(fill: Fill) returns (c: Condition)
      modifies this
      ensures (Abs(), c) == DataReceived(old(Abs()), fill)
    {
      hide ReadBytes, CString;
      var nreq := 4096;
      if remaining > 0 && remaining < nreq {
        nreq := remaining;
      }
      var buffer;
      c, buffer := Read(nreq, fill);
      if |buffer| > 0 {
        if remaining > 0 {
          remaining := remaining - |buffer|;
        }
        data := data + CString(buffer);
      } else {
        NothingReceived(data);
      }
    }

    method ReceiveBodyChunked(header: Fill, body: Fill, footer: Fill) returns (c: Condition)
      modifies this
      ensures (Abs(), c) == Received(old(Abs()), header, body, footer)
    {
      hide Tokenized, DataReceived, StrToUl16;
      c := Ok;
      if remaining == -1 {
        var line;
        c, line := Tokenize(header);
        if c == Ok {
          remaining := ToInt32(StrToUl16(line));
          if remaining == 0 {
            c := End;
          }
        }
      }
      if c == Ok && remaining > 0 {
        c := ReceiveData(body);
      }
      if c == Ok && remaining == 0 {
        var line;
        c, line := Tokenize(footer);
        if c == Ok {
          remaining := -1;
        }
      }
    }
  }

  lemma NothingReceived(data: Bytes)
    ensures data + CString([]) == data
  {
  }

  // Decoding what the encoder wrote

  /** What has not been taken out of the stream yet. */
  function Pending(st: State): Bytes {
    st.buf + st.src
  }

  /** Reading from the stream below or taking bytes makes this smaller. */
  function Cost(st: State): nat {
    2 * |st.src| + |st.buf|
  }

  predicate Ready(st: State) {
    !st.overflow && st.size >= 16 && st.wasted + |st.buf| <= st.size && (st.buf == [] ==> st.wasted == 0)
  }

  predicate NoBreak(line: Bytes) {
    CR !in line && LF !in line
  }

  lemma {:induction false} NoTokenYet(buf: Bytes, pre: nat, i: nat, prev: u8)
    requires pre + i <= |buf| && NoBreak(buf[pre..])
    ensures NextToken(buf, pre + i, pre, i, prev) == Token(false, pre, |buf| - pre, 0, prev)
    decreases |buf| - pre - i
  {
    if pre + i < |buf| {
      assert buf[pre..][i] in buf[pre..];
      NoTokenYet(buf, pre, i + 1, prev);
    }
  }

  lemma {:induction false} TokenIsLine(buf: Bytes, pre: nat, line: Bytes, i: nat, prev: u8)
    requires NoBreak(line) && i <= |line| && pre + |line| < |buf|
    requires buf[pre..pre + |line|] == line && buf[pre + |line|] == CR
    ensures NextToken(buf, pre + i, pre, i, prev) ==
            if pre + |line| + 1 == |buf| then Token(true, pre, |line|, 1, CR)
            else Token(true, pre, |line|, if buf[pre + |line| + 1] == LF then 2 else 1, prev)
    decreases |line| - i
  {
    if i < |line| {
      assert buf[pre + i] == line[i] && line[i] in line;
      TokenIsLine(buf, pre, line, i + 1, prev);
    }
  }

  /** The LF that is still to come when a line was taken without it. */
  function Front(owed: bool): Bytes {
    if owed then [LF] else []
  }

  /** What is in the buffer when a line and its CRLF come next. */
  lemma BufferedLine(buf: Bytes, src: Bytes, owed: bool, line: Bytes, more: Bytes)
    requires buf + src == Front(owed) + (line + CRLF + more)
    ensures var (o, n) := (|Front(owed)|, |line|);
            && (owed && buf != [] ==> buf[0] == LF)
            && (o <= |buf| <= o + n ==> buf[o..] == line[..|buf| - o])
            && (|buf| > o + n ==> buf[o..o + n] == line && buf[o + n] == CR)
            && (|buf| == o + n + 1 ==> src == [LF] + more)
            && (|buf| > o + n + 1 ==> buf[o + n + 1] == LF && buf[o + n + 2..] + src == more)
  {
    var front, o, n := Front(owed) + line, |Front(owed)|, |line|;
    assert Front(owed) + (line + CRLF + more) == front + (CRLF + more);
    Overlap(buf, src, front, CRLF + more);
    if |buf| > o + n {
      BehindLine(buf[o + n..], src, more);
      assert buf[..o + n][o..] == line;
      if |buf| > o + n + 1 {
        assert buf[o + n..][2..] == buf[o + n + 2..];
      }
    } else if o <= |buf| {
      assert front[..|buf|][o..] == line[..|buf| - o];
    }
  }

  lemma BehindLine(buf: Bytes, src: Bytes, more: Bytes)
    requires buf + src == CRLF + more && buf != []
    ensures buf[0] == CR && (|buf| == 1 ==> src == [LF] + more)
    ensures |buf| > 1 ==> buf[1] == LF && buf[2..] + src == more
  {
    assert CRLF + more == [CR] + ([LF] + more);
    Overlap(buf, src, [CR], [LF] + more);
    if |buf| > 1 {
      Overlap(buf, src, CRLF, more);
    }
  }

  /** Where the boundary between x and y is when their bytes are divided otherwise. */
  lemma Overlap(buf: Bytes, src: Bytes, x: Bytes, y: Bytes)
    requires buf + src == x + y
    ensures |buf| <= |x| ==> buf == x[..|buf|] && src == x[|buf|..] + y
    ensures |buf| >= |x| ==> buf[..|x|] == x && buf[|x|..] + src == y
  {
    var all := buf + src;
    assert buf == all[..|buf|] && src == all[|buf|..] && y == all[|x|..] && x == all[..|x|];
    if |buf| <= |x| {
      assert all[|buf|..] == x[|buf|..] + y;
    } else {
      assert all[|x|..] == buf[|x|..] + src;
    }
  }

  /** What next_token finds when a line comes next, as it sees more and more of it. */
  lemma NextTokenOfLine(buf: Bytes, src: Bytes, prev: u8, owed: bool, line: Bytes, more: Bytes)
    requires buf + src == Front(owed) + (line + CRLF + more) && NoBreak(line) && (owed ==> prev == CR)
    ensures var (o, n) := (|Front(owed)|, |line|);
            var t := NextToken(buf, 0, 0, 0, prev);
            if |buf| <= o + n then
              !t.found && (if owed && buf != [] then t.pre == 1 && t.prev == 0 else t.pre == 0 && t.prev == prev)
            else if |buf| == o + n + 1 then t == Token(true, o, n, 1, CR)
            else t == Token(true, o, n, 2, if owed then 0 else prev)
  {
    BufferedLine(buf, src, owed, line, more);
    FirstByte(buf, prev);
    hide NextToken;
    var o, n, p := |Front(owed)|, |line|, if owed then 0 else prev;
    if |buf| > o + n {
      TokenIsLine(buf, o, line, 0, p);
    } else if o <= |buf| {
      NoTokenYet(buf, o, 0, p);
    }
  }

  lemma FirstByte(buf: Bytes, prev: u8)
    ensures buf == [] ==> NextToken(buf, 0, 0, 0, prev) == Token(false, 0, 0, 0, prev)
    ensures buf != [] && buf[0] == LF && prev == CR ==> NextToken(buf, 0, 0, 0, prev) == NextToken(buf, 1, 1, 0, 0)
  {
  }

  // What tokenize sees: it looks at its buffer once, and once more if that is not enough and more bytes come

  function FirstLook(st: State): Token {
    NextToken(st.buf, 0, 0, 0, st.prev)
  }

  /** How many bytes tokenize reads from the stream below, if it does. */
  function TokenFill(st: State, fill: Fill): nat {
    Amount(st.(wasted := 0), fill, Max(0, Room(st.(wasted := 0))))
  }

  function LastLook(st: State, fill: Fill): Token {
    if FirstLook(st).found || TokenFill(st, fill) == 0 then FirstLook(st)
    else NextToken(st.buf + st.src[..TokenFill(st, fill)], 0, 0, 0, FirstLook(st).prev)
  }

  /** A look that finds a line sees its LF, and one that finds none does not skip an LF. */
  predicate CleanLook(t: Token) {
    if t.found then t.post == 2 else t.pre == 0
  }

  predicate CleanLooks(st: State, fill: Fill) {
    CleanLook(FirstLook(st)) && CleanLook(LastLook(st, fill))
  }

  /** No look skips an LF and finds no line behind it. */
  predicate NoLoneFeed(st: State, fill: Fill) {
    (FirstLook(st).found || FirstLook(st).pre == 0) && (LastLook(st, fill).found || LastLook(st, fill).pre == 0)
  }

  /** A line is found whose LF is not in the buffer. */
  predicate Torn(st: State, fill: Fill) {
    LastLook(st, fill).found && LastLook(st, fill).post == 1
  }

  /** st' differs from st only in where the bytes are that have not been taken yet, and in the remembered character. */
  predicate SameButInput(st: State, st': State) {
    st' == st.(buf := st'.buf, src := st'.src, wasted := st'.wasted, prev := st'.prev)
  }

  lemma FilledReady(st: State, n: nat)
    requires Ready(st) && n <= |st.src| && n <= Room(st)
    ensures Ready(Filled(st, n)) && SameButInput(st, Filled(st, n))
    ensures Pending(Filled(st, n)) == Pending(st) && Cost(Filled(st, n)) == Cost(st) - n
  {
  }

  lemma PoppedReady(st: State, n: nat)
    requires Ready(st) && n <= |st.buf|
    ensures Ready(Popped(st, n)) && SameButInput(st, Popped(st, n))
    ensures Pending(st) == st.buf[..n] + Pending(Popped(st, n)) && Cost(Popped(st, n)) == Cost(st) - n
  {
  }

  lemma TakenLine(st: State, owed: bool, line: Bytes, more: Bytes, t: Token)
    requires Ready(st) && Pending(st) == Front(owed) + (line + CRLF + more) && |st.buf| > |Front(owed)| + |line|
    requires var torn := |st.buf| == |Front(owed)| + |line| + 1;
             t == Token(true, |Front(owed)|, |line|, if torn then 1 else 2, t.prev)
    ensures var (st', c, token) := TakeToken(st, t, false);
            && c == Ok && token == line && Ready(st') && SameButInput(st, st') && st'.prev == st.prev
            && Pending(st') == Front(t.post == 1) + more && Cost(st') < Cost(st)
  {
    BufferedLine(st.buf, st.src, owed, line, more);
    PoppedReady(st, t.pre + t.len + t.post);
    assert t.post == 1 ==> st.buf[|st.buf|..] + st.src == st.src;
  }

  lemma PrevIsFree(st: State, prev: u8)
    ensures Ready(st.(prev := prev)) == Ready(st) && Pending(st.(prev := prev)) == Pending(st)
    ensures Cost(st.(prev := prev)) == Cost(st)
  {
  }

  /** What tokenize does, in terms of its looks, when the buffer is large enough. */
  lemma TokenizedByLooks(st: State, fill: Fill)
    requires Ready(st)
    ensures var (t, n) := (LastLook(st, fill), TokenFill(st, fill));
            var st0 := if FirstLook(st).found then st else st.(wasted := 0);
            var st1 := (if FirstLook(st).found then st0 else Filled(st0, n)).(prev := t.prev);
            t.found ==> t.pre + t.len + t.post <= |st1.buf| && Tokenized(st, fill) == TakeToken(st1, t, false)
    ensures !LastLook(st, fill).found && |st.buf| + TokenFill(st, fill) < st.size ==>
              var st1 := Filled(st.(wasted := 0), TokenFill(st, fill)).(prev := LastLook(st, fill).prev);
              Tokenized(st, fill) == (st1, if TokenFill(st, fill) == 0 then fill.c else Wait, [])
  {
    hide NextToken, TakeToken;
    assert st.buf + st.src[..0] == st.buf && st.src[0..] == st.src;
  }

  /**
   tokenize hands out the line that comes next or, failing that, changes nothing that matters. A line that was taken
   without its LF leaves the LF to be skipped.
   */
  lemma TokenizedLine(st: State, fill: Fill, owed: bool, line: Bytes, more: Bytes)
    requires Ready(st) && Pending(st) == Front(owed) + (line + CRLF + more) && NoBreak(line) && |line| < 12
    requires owed ==> st.prev == CR && NoLoneFeed(st, fill)
    ensures var (st', c, token) := Tokenized(st, fill);
            && Ready(st') && SameButInput(st, st')
            && if LastLook(st, fill).found then
                 && c == Ok && token == line && Pending(st') == Front(Torn(st, fill)) + more
                 && (Torn(st, fill) ==> st'.prev == CR) && Cost(st') < Cost(st)
               else
                 && |st.buf| < 16 && c == (if TokenFill(st, fill) == 0 then fill.c else Wait) && token == []
                 && st'.prev == st.prev && Pending(st') == Pending(st) && Cost(st') == Cost(st) - TokenFill(st, fill)
  {
    hide NextToken, Tokenized, TakeToken, Popped;
    TokenizedByLooks(st, fill);
    NextTokenOfLine(st.buf, st.src, st.prev, owed, line, more);
    var t := LastLook(st, fill);
    if FirstLook(st).found {
      PrevIsFree(st, t.prev);
      TakenLine(st.(prev := t.prev), owed, line, more, t);
    } else {
      var st1 := Filled(st.(wasted := 0), TokenFill(st, fill));
      FilledReady(st.(wasted := 0), TokenFill(st, fill));
      PrevIsFree(st1, t.prev);
      LooksAgain(st, fill);
      NextTokenOfLine(st1.buf, st1.src, st.prev, owed, line, more);
      if t.found {
        TakenLine(st1.(prev := t.prev), owed, line, more, t);
      }
    }
  }

  lemma LooksAgain(st: State, fill: Fill)
    requires Ready(st) && !FirstLook(st).found && FirstLook(st).prev == st.prev
    ensures LastLook(st, fill) == NextToken(Filled(st.(wasted := 0), TokenFill(st, fill)).buf, 0, 0, 0, st.prev)
  {
    assert st.buf + st.src[..0] == st.buf;
  }

  /**
   What tokenize answers, whatever the buffer holds and whether it has overflowed before: Ok with the line that is found
   or, behind an overflow, Error although it is taken; Error when there is none and the buffer is full.
   */
  lemma TokenizeAnswers(st: State, fill: Fill)
    requires st.wasted + |st.buf| <= st.size
    ensures var (st', c, token) := Tokenized(st, fill);
            var (t, n) := (LastLook(st, fill), TokenFill(st, fill));
            var b := if FirstLook(st).found then |st.buf| else |st.buf| + n;
            && t.pre + t.len + t.post <= b <= |st.buf + st.src|
            && st'.overflow == (!t.found && b == st.size)
            && c == (if t.found then if st.overflow then Error else Ok
                     else if b == st.size then Error
                     else if n == 0 then fill.c
                     else Wait)
            && token == (if t.found then (st.buf + st.src)[t.pre..t.pre + t.len] else [])
            && Pending(st') == (st.buf + st.src)[if t.found then t.pre + t.len + t.post else 0..]
            && st' == st.(buf := st'.buf, src := st'.src, wasted := st'.wasted, prev := t.prev,
                          overflow := st'.overflow)
  {
    hide NextToken;
    TakenPending(st.buf, st.src, LastLook(st, fill));
    if !FirstLook(st).found {
      TokenizeFills(st, fill);
    }
  }

  lemma TokenizeFills(st: State, fill: Fill)
    requires st.wasted + |st.buf| <= st.size && !FirstLook(st).found
    ensures var (st', c, token) := Tokenized(st, fill);
            var (t, n) := (LastLook(st, fill), TokenFill(st, fill));
            var b := |st.buf| + n;
            && t.pre + t.len + t.post <= b <= |st.buf + st.src|
            && st'.overflow == (!t.found && b == st.size)
            && c == (if t.found then if st.overflow then Error else Ok
                     else if b == st.size then Error
                     else if n == 0 then fill.c
                     else Wait)
            && token == (if t.found then (st.buf + st.src)[t.pre..t.pre + t.len] else [])
            && Pending(st') == (st.buf + st.src)[if t.found then t.pre + t.len + t.post else 0..]
            && st' == st.(buf := st'.buf, src := st'.src, wasted := st'.wasted, prev := t.prev,
                          overflow := st'.overflow)
  {
    hide NextToken, Tokenized;
    TokenizedBehind(st, fill);
    var (t, n) := (LastLook(st, fill), TokenFill(st, fill));
    SourceSplits(st, n);
    hide LastLook, TokenFill, FirstLook;
    if n > 0 && t.found {
      TakenPending(st.buf + st.src[..n], st.src[n..], t);
    }
  }

  /** What tokenize does when its first look finds nothing. */
  lemma TokenizedBehind(st: State, fill: Fill)
    requires st.wasted + |st.buf| <= st.size && !FirstLook(st).found
    ensures var (t, n) := (LastLook(st, fill), TokenFill(st, fill));
            var st2 := st.(overflow := false, prev := FirstLook(st).prev, wasted := 0);
            && n <= |st.src| && n <= st.size - |st.buf| && t.pre + t.len + t.post <= |st.buf| + n
            && (n == 0 ==> !t.found && t.prev == FirstLook(st).prev)
            && Tokenized(st, fill) ==
               if |st.buf| == st.size then (st2.(overflow := true), Error, [])
               else if n == 0 then (st2, fill.c, [])
               else
                 var st3 := Filled(st2, n).(prev := t.prev);
                 if t.found then TakeToken(st3, t, st.overflow)
                 else if |st.buf| + n < st.size then (st3, Wait, [])
                 else (st3.(overflow := true), Error, [])
  {
    hide NextToken;
  }

  lemma SourceSplits(st: State, n: nat)
    requires n <= |st.src|
    ensures st.buf + st.src[..n] + st.src[n..] == st.buf + st.src
    ensures st.buf + st.src[..0] == st.buf && st.src[0..] == st.src && (st.buf + st.src)[0..] == st.buf + st.src
  {
  }

  lemma TakenPending(buf: Bytes, src: Bytes, t: Token)
    ensures var k := t.pre + t.len + t.post;
            k <= |buf| ==>
              && buf[k..] + src == (buf + src)[k..]
              && buf[t.pre..t.pre + t.len] == (buf + src)[t.pre..t.pre + t.len]
  {
    var k := t.pre + t.len + t.post;
    if k <= |buf| {
      assert (buf + src)[k..] == buf[k..] + src;
    }
  }

  /** A line that is longer than the buffer is never got over: every call answers Error, whatever comes. */
  lemma OverflowForever(st: State, fill: Fill)
    requires NoBreak(st.buf) && |st.buf| == st.size
    ensures var (st', c, token) := Tokenized(st, fill);
            && c == Error && token == [] && st' == st.(wasted := 0, overflow := true)
            && NoBreak(st'.buf) && |st'.buf| == st'.size
  {
    NoTokenIn(st.buf, st.prev);
    hide NextToken;
  }

  lemma NoTokenIn(buf: Bytes, prev: u8)
    requires NoBreak(buf)
    ensures NextToken(buf, 0, 0, 0, prev) == Token(false, 0, |buf|, 0, prev)
  {
    NoTokenYet(buf, 0, 0, prev);
  }

  lemma ReadBelowTakesPrefix(st: State, left: nat, fill: Fill)
    requires Ready(st) && st.buf == []
    ensures var (st', c, bytes) := ReadBelow(st, left, fill);
            && Ready(st') && |bytes| <= left && Pending(st) == bytes + Pending(st') && SameButInput(st, st')
            && c == fill.c && Cost(st') <= Cost(st) - |bytes|
  {
    if left >= Room(st) {
      var nr := Amount(st, fill, left);
      assert st.src == st.src[..nr] + st.src[nr..];
    } else {
      var nr := Amount(st, fill, Room(st));
      FilledReady(st, nr);
      if nr > 0 {
        PoppedReady(Filled(st, nr), Min(left, nr));
      }
    }
  }

  /** read takes bytes off the front of what is pending, and no more than it was asked for. */
  lemma ReadTakesPrefix(st: State, n: nat, fill: Fill)
    requires Ready(st)
    ensures var (st', c, bytes) := ReadBytes(st, n, fill);
            && Ready(st') && |bytes| <= n && Pending(st) == bytes + Pending(st') && SameButInput(st, st')
            && (c == Ok || c == fill.c) && Cost(st') <= Cost(st) - |bytes|
  {
    hide Ready, ReadBelow;
    if st.buf == [] {
      ReadBelowTakesPrefix(st, n, fill);
    } else {
      var a := Min(n, |st.buf|);
      PoppedReady(st, a);
      if a < n {
        ReadBelowTakesPrefix(Popped(st, a), n - a, fill);
        var (st2, c, bytes) := ReadBelow(Popped(st, a), n - a, fill);
        ConcatAssoc(st.buf[..a], bytes, Pending(st2));
      }
    }
  }

  // Whole bodies

  /** What the stream below promises: bytes when it says Ok, and End only when it has none left. */
  predicate Honest(fill: Fill, st: State, nr: nat) {
    (fill.c == Ok ==> nr > 0) && (fill.c == End ==> nr == 0 && st.src == [])
  }

  predicate HonestToTokenize(st: State, fill: Fill) {
    !FirstLook(st).found ==> Honest(fill, st, TokenFill(st, fill))
  }

  /** How many bytes read gets from the stream below, if it has to. */
  function ReadFill(st: State, n: nat, fill: Fill): nat {
    if st.buf == [] then Amount(st, fill, if n >= Room(st) then n else Room(st))
    else if n <= |st.buf| then 0
    else
      var room := Room(Popped(st, |st.buf|));
      Amount(st, fill, if n - |st.buf| >= room then n - |st.buf| else room)
  }

  predicate HonestToRead(st: State, n: nat, fill: Fill) {
    |st.buf| < n ==> Honest(fill, st, ReadFill(st, n, fill))
  }

  /** How the chunked decoder's data relates to the bytes it has got: each piece was cut at its first NUL. */
  ghost predicate Kept(data: Bytes, got: Bytes) {
    if 0 !in got then data == got else |data| < |got|
  }

  lemma {:induction false} CStringCuts(x: Bytes)
    ensures if 0 !in x then CString(x) == x else |CString(x)| < |x|
  {
    if x != [] {
      CStringCuts(x[1..]);
      assert x == [x[0]] + x[1..];
    }
  }

  lemma KeptGrows(data: Bytes, got: Bytes, x: Bytes)
    requires Kept(data, got)
    ensures Kept(data + CString(x), got + x)
  {
    CStringCuts(x);
  }

  /** What is still to come behind the rest of the current chunk. */
  function Remainder(cs: seq<Bytes>, rest: Bytes): Bytes {
    Chunks(cs) + LAST + rest
  }

  /** The decoder is inside a chunk, of which part is still to come. */
  ghost predicate InChunk(st: State, got: Bytes, part: Bytes, more: Bytes) {
    Ready(st) && Kept(st.data, got) && st.remaining == |part| && Pending(st) == part + more
  }

  /** The decoder is before a chunk's header; it may still have to skip the LF of the line before. */
  ghost predicate BeforeHeader(st: State, got: Bytes, more: Bytes) {
    && Ready(st) && Kept(st.data, got) && st.remaining == -1
    && (Pending(st) == more || (Pending(st) == [LF] + more && st.prev == CR))
  }

  ghost predicate SmallChunks(cs: seq<Bytes>) {
    NoEmpty(cs) && forall i | 0 <= i < |cs| :: |cs[i]| < 0x8000_0000
  }

  /** The decoder has got the bytes got, part of a chunk and then the chunks cs are still to come, and then rest. */
  ghost predicate Receiving(st: State, got: Bytes, part: Bytes, cs: seq<Bytes>, rest: Bytes) {
    SmallChunks(cs) &&
    if st.remaining == -1 then part == [] && BeforeHeader(st, got, Remainder(cs, rest))
    else InChunk(st, got, part, CRLF + Remainder(cs, rest))
  }

  /** A line that gives a chunk's size, alone or in front of a chunk extension (section 4.1 of RFC 7230). */
  ghost predicate SizeText(line: Bytes, size: nat) {
    NoBreak(line) && |line| < 12 &&
    exists k: nat :: 0 < k <= |line| && Spells(line[..k], size) && (k < |line| ==> line[k] == 59)
  }

  /** A number in base 16 as strtoul takes it: the prefix is left out if digits follow it. */
  lemma MagnitudeIsRead(s: Bytes, n: nat, rest: Bytes)
    requires Spells(s, n) && (rest == [] || (!IsHex(rest[0]) && rest[0] != 120 && rest[0] != 88))
    ensures HexMagnitude(s + rest) == n && HexMagnitude([48, 120] + (s + rest)) == n
    ensures HexMagnitude([48, 88] + (s + rest)) == n
    ensures s != [] && IsHex((s + rest)[0])
  {
    hide HexValue, Spells;
    SpelledIsHex(s, n);
    SpelledValue(s, n, rest);
    SpelledIsSome(s, n);
    var t := s + rest;
    assert t[0] == s[0] && (|s| > 1 ==> t[1] == s[1]) && (|s| == 1 && rest != [] ==> t[1] == rest[0]);
    assert ([48, 120] + t)[2..] == t && ([48, 88] + t)[2..] == t;
  }

  lemma SpelledIsSome(s: Bytes, n: nat)
    requires Spells(s, n)
    ensures s != []
  {
  }

  /** strtoul: white space, a sign, which negates modulo 2^64, and a number; a larger one becomes the largest. */
  lemma {:induction false} NumberIsRead(blanks: Bytes, s: Bytes, n: nat, rest: Bytes)
    requires forall c | c in blanks :: IsSpace(c as int)
    requires Spells(s, n) && (rest == [] || (!IsHex(rest[0]) && rest[0] != 120 && rest[0] != 88))
    ensures var largest := 0xFFFF_FFFF_FFFF_FFFF;
            && StrToUl16(blanks + (s + rest)) == Min(n, largest)
            && StrToUl16(blanks + ([43] + (s + rest))) == Min(n, largest)
            && StrToUl16(blanks + ([45] + (s + rest))) == if n == 0 then 0 else if n > largest then largest
                                                          else largest + 1 - n
    decreases |blanks|
  {
    MagnitudeIsRead(s, n, rest);
    hide HexMagnitude, Spells, StrToUl16;
    var t := s + rest;
    if blanks == [] {
      NumberInFront(t);
      assert [] + t == t && [] + ([43] + t) == [43] + t && [] + ([45] + t) == [45] + t;
    } else {
      assert blanks[0] in blanks && forall c | c in blanks[1..] :: c in blanks;
      NumberIsRead(blanks[1..], s, n, rest);
      BehindSpace(blanks, t);
      BehindSpace(blanks, [43] + t);
      BehindSpace(blanks, [45] + t);
    }
  }

  lemma NumberInFront(t: Bytes)
    requires t != [] && IsHex(t[0])
    ensures var (n, largest) := (HexMagnitude(t), ULONG - 1);
            && StrToUl16(t) == Min(n, largest) && StrToUl16([43] + t) == Min(n, largest)
            && StrToUl16([45] + t) == if n == 0 then 0 else if n > largest then largest else largest + 1 - n
  {
    hide HexMagnitude;
    assert ([43] + t)[1..] == t && ([45] + t)[1..] == t;
  }

  lemma BehindSpace(blanks: Bytes, s: Bytes)
    requires blanks != [] && IsSpace(blanks[0] as int)
    ensures StrToUl16(blanks + s) == StrToUl16(blanks[1..] + s)
  {
    assert (blanks + s)[1..] == blanks[1..] + s;
  }

  /** The cast to int keeps the lowest 32 bits, with a sign. */
  lemma CastKeepsLowBits(n: nat)
    ensures -0x8000_0000 <= ToInt32(n) < 0x8000_0000 && (n - ToInt32(n)) % 0x1_0000_0000 == 0
  {
  }

  /** A chunk's size is read however it is spelled; what does not fit an int is cut off to its lowest 32 bits. */
  lemma SizeIsRead(line: Bytes, size: nat)
    requires SizeText(line, size)
    ensures size < 0x8000_0000 ==> ToInt32(StrToUl16(line)) == size
    ensures (size - ToInt32(StrToUl16(line))) % 0x1_0000_0000 == 0
  {
    hide NoBreak, HexValue, Spells, ToInt32, StrToUl16;
    var k: nat :| 0 < k <= |line| && Spells(line[..k], size) && (k < |line| ==> line[k] == 59);
    assert line[..k] + line[k..] == line && [] + line == line;
    NumberIsRead([], line[..k], size, line[k..]);
    SpelledFits(line[..k], size, 11);
    SixteenToTheEleventh();
    CastKeepsLowBits(size);
    SmallIsSame(size);
  }

  lemma SixteenToTheEleventh()
    ensures Pow16(11) == 0x1000_0000_0000
  {
  }

  lemma {:induction false} SpelledFits(s: Bytes, n: nat, k: nat)
    requires Spells(s, n) && |s| <= k
    ensures n < Pow16(k)
    decreases k
  {
    if |s| > 1 {
      SpelledFits(s[..|s| - 1], n / 16, k - 1);
    }
    assert Pow16(k) == 16 * Pow16(k - 1);
  }

  lemma SixteenToTheEighth()
    ensures Pow16(8) == 0x1_0000_0000
  {
  }

  lemma HexLine(n: nat)
    requires n < 0x8000_0000
    ensures SizeText(Hex(n), n)
  {
    hide Hex, Pow16, Spells;
    SixteenToTheEighth();
    HexLength(n, 8);
    HexSpells(n);
    SpelledIsHex(Hex(n), n);
    assert Hex(n)[..|Hex(n)|] == Hex(n);
  }

  lemma SmallIsSame(n: nat)
    ensures n < 0x8000_0000 ==> ToInt32(n) == n
  {
  }

  lemma RemainderStarts(cs: seq<Bytes>, rest: Bytes)
    requires NoEmpty(cs)
    ensures cs == [] ==> Remainder(cs, rest) == Hex(0) + CRLF + (CRLF + rest)
    ensures cs != [] ==> Remainder(cs, rest) == Hex(|cs[0]|) + CRLF + (cs[0] + (CRLF + Remainder(cs[1..], rest)))
  {
    hide Hex;
    if cs == [] {
      HexOfZero();
    } else {
      var line, c, more := Hex(|cs[0]|) + CRLF, cs[0], Chunks(cs[1..]);
      assert line + c + CRLF == line + (c + CRLF);
      assert line + (c + CRLF) + more + LAST + rest == line + (c + (CRLF + (more + LAST + rest)));
    }
  }

  /** The answer of a step that has neither finished nor failed by itself. */
  predicate Passed(c: Condition, fill: Fill) {
    c == Ok || c == Wait || (c == fill.c && c != End)
  }

  /** Bytes come when there are any. */
  predicate Delivers(fill: Fill) {
    fill.k > 0 && fill.c == Ok
  }

  /** The header step: size is the number on the line that comes next, however it is spelled. */
  lemma HeaderLine(st: State, fill: Fill, got: Bytes, line: Bytes, size: nat, more: Bytes)
    requires size < 0x8000_0000 && SizeText(line, size) && BeforeHeader(st, got, line + CRLF + more)
    requires HonestToTokenize(st, fill)
    requires NoLoneFeed(st, fill) || Pending(st) == line + CRLF + more
    ensures var (st', c) := HeaderStep(st, fill);
            if LastLook(st, fill).found then
              && c == (if size == 0 then End else Ok) && st'.remaining == size && Ready(st') && st'.data == st.data
              && Pending(st') == Front(Torn(st, fill)) + more && (Torn(st, fill) ==> st'.prev == CR)
              && Cost(st') < Cost(st)
            else
              && BeforeHeader(st', got, line + CRLF + more) && c != Ok && Passed(c, fill)
              && (Delivers(fill) ==> c == Wait && Cost(st') < Cost(st))
  {
    hide Tokenized, StrToUl16, NoBreak, Kept, ToInt32, LastLook, Torn, NoLoneFeed, FirstLook, Spells;
    SizeIsRead(line, size);
    var owed := Pending(st) != line + CRLF + more;
    assert Front(false) + (line + CRLF + more) == line + CRLF + more;
    TokenizedLine(st, fill, owed, line, more);
    LooksAtAll(st, fill);
    assert |Pending(st)| >= |line| + 2;
    assert !LastLook(st, fill).found ==> |st.buf| + |st.src| >= 2;
    ShortOfLine(st, fill, owed, line, more);
    RemainingIsFree(Tokenized(st, fill).0, size);
  }

  lemma LooksAtAll(st: State, fill: Fill)
    ensures FirstLook(st).found ==> LastLook(st, fill) == FirstLook(st)
  {
  }

  /** As long as no line is found, there is more to be read from the stream below. */
  lemma ShortOfLine(st: State, fill: Fill, owed: bool, line: Bytes, more: Bytes)
    requires Ready(st) && Pending(st) == Front(owed) + (line + CRLF + more) && NoBreak(line) && |line| < 12
    requires owed ==> st.prev == CR
    ensures !FirstLook(st).found ==> st.src != [] && |st.buf| < 16
    ensures !LastLook(st, fill).found && fill.k > 0 ==> TokenFill(st, fill) > 0
  {
    hide NextToken;
    NextTokenOfLine(st.buf, st.src, st.prev, owed, line, more);
    LooksAtAll(st, fill);
    assert |st.buf| + |st.src| == |Front(owed)| + |line| + 2 + |more|;
  }

  lemma RemainingIsFree(st: State, remaining: int)
    ensures Ready(st.(remaining := remaining)) == Ready(st) && Pending(st.(remaining := remaining)) == Pending(st)
    ensures Cost(st.(remaining := remaining)) == Cost(st)
  {
  }

  lemma HeaderKeeps(st: State, fill: Fill, got: Bytes, cs: seq<Bytes>, rest: Bytes)
    requires Receiving(st, got, [], cs, rest) && st.remaining == -1
    requires CleanLooks(st, fill) && HonestToTokenize(st, fill)
    ensures var (st', c) := HeaderStep(st, fill);
            if c == Ok then
              cs != [] && Receiving(st', got, cs[0], cs[1..], rest) && st'.remaining > 0 && Cost(st') < Cost(st)
            else if c == End then cs == [] && Kept(st'.data, got) && Pending(st') == CRLF + rest
            else
              && Receiving(st', got, [], cs, rest) && Passed(c, fill)
              && (Delivers(fill) ==> c == Wait && Cost(st') < Cost(st))
  {
    hide HeaderStep, Hex, Kept, Ready, Chunks, CleanLooks, HonestToTokenize, LastLook, Torn, NoLoneFeed;
    RemainderStarts(cs, rest);
    var size := if cs == [] then 0 else |cs[0]|;
    var more := if cs == [] then CRLF + rest else cs[0] + (CRLF + Remainder(cs[1..], rest));
    CleanIsWhole(st, fill);
    HexLine(size);
    HeaderLine(st, fill, got, Hex(size), size, more);
    assert Front(false) + more == more;
  }

  lemma CleanIsWhole(st: State, fill: Fill)
    requires CleanLooks(st, fill)
    ensures !Torn(st, fill) && NoLoneFeed(st, fill)
  {
  }

  /** Inside a chunk the next bytes of it are taken, whatever stands behind it. */
  lemma DataKeeps(st: State, fill: Fill, got: Bytes, part: Bytes, more: Bytes) returns (x: Bytes)
    requires InChunk(st, got, part, more) && part != []
    ensures var (st', c) := DataReceived(st, fill);
            && x <= part && InChunk(st', got + x, part[|x|..], more) && st'.data == st.data + CString(x)
            && Cost(st') <= Cost(st) - |x| && (c == Ok || c == fill.c)
            && (fill.k > 0 ==> x != [])
            && (HonestToRead(st, Request(|part|), fill) ==> Passed(c, fill))
  {
    var n := Request(|part|);
    ReadTakesPrefix(st, n, fill);
    var (st1, c, bytes) := ReadBytes(st, n, fill);
    ReadEnds(st, n, fill);
    hide ReadBytes, Kept, Ready, Pending, HonestToRead;
    x := bytes;
    PrefixOfFront(Pending(st), part, more, x, Pending(st1));
    KeptGrows(st.data, got, x);
    RemainingIsFree(st1, |part| - |x|);
    DataIsFree(st1, |part| - |x|, st.data + CString(x));
  }

  /** read hands out as many bytes as are wanted and buffered or come; what is buffered is handed out with Ok. */
  lemma ReadAmount(st: State, n: nat, fill: Fill)
    requires Ready(st)
    ensures var (st', c, bytes) := ReadBytes(st, n, fill);
            && |bytes| == Min(n, |st.buf| + Min(fill.k, |st.src|))
            && c == if st.buf != [] && n <= |st.buf| then Ok else fill.c
  {
  }

  /** A call takes at most 4096 bytes of a chunk. */
  lemma DataAmount(st: State, fill: Fill)
    requires Ready(st) && st.remaining > 0
    ensures var st' := DataReceived(st, fill).0;
            st.remaining - st'.remaining == Min(Min(st.remaining, 4096), |st.buf| + Min(fill.k, |st.src|))
  {
    ReadAmount(st, Min(st.remaining, 4096), fill);
    ReadTakesPrefix(st, Min(st.remaining, 4096), fill);
    hide ReadBytes, Ready;
  }

  lemma DataIsFree(st: State, remaining: int, data: Bytes)
    ensures var st' := st.(remaining := remaining, data := data);
            Ready(st') == Ready(st) && Pending(st') == Pending(st) && Cost(st') == Cost(st)
  {
  }

  lemma PrefixOfFront(all: Bytes, front: Bytes, back: Bytes, x: Bytes, y: Bytes)
    requires all == front + back == x + y && |x| <= |front|
    ensures x <= front && y == front[|x|..] + back
  {
    assert x == all[..|x|] == front[..|x|];
    assert y == all[|x|..] == front[|x|..] + back;
  }

  lemma ReadEnds(st: State, n: nat, fill: Fill)
    requires Ready(st) && 0 < n <= |Pending(st)|
    ensures var (st', c, bytes) := ReadBytes(st, n, fill);
            && (HonestToRead(st, n, fill) ==> c != End)
            && (fill.k > 0 ==> bytes != [])
  {
  }

  lemma FooterKeeps(st: State, fill: Fill, got: Bytes, cs: seq<Bytes>, rest: Bytes)
    requires Receiving(st, got, [], cs, rest) && st.remaining == 0 && HonestToTokenize(st, fill)
    ensures var (st', c) := FooterStep(st, Ok, fill);
            && Receiving(st', got, [], cs, rest) && Passed(c, fill) && c != End
            && (c == Ok ==> Cost(st') < Cost(st))
            && (Delivers(fill) ==> (c == Ok || c == Wait) && Cost(st') < Cost(st))
  {
    hide Tokenized, Kept, Remainder, LastLook, Torn, FirstLook, CleanLooks;
    var more := Remainder(cs, rest);
    assert Front(false) + ([] + CRLF + more) == [] + (CRLF + more) && Front(false) + more == more;
    TokenizedLine(st, fill, false, [], more);
    ShortOfLine(st, fill, false, [], more);
    LooksAtAll(st, fill);
    var st1 := Tokenized(st, fill).0;
    RemainingIsFree(st1, -1);
  }

  datatype Call = Call(header: Fill, body: Fill, footer: Fill)

  /**
   The stream below is honest in all that it does in one call, and a chunk's header is never looked at when its LF is
   missing, or when nothing but the LF of the line before and part of the header are there.
   */
  predicate Fair(st: State, call: Call) {
    var (st1, c1) := HeaderStep(st, call.header);
    var (st2, c2) := DataStep(st1, c1, call.body);
    && (st.remaining == -1 ==> CleanLooks(st, call.header) && HonestToTokenize(st, call.header))
    && (c1 == Ok && st1.remaining > 0 ==> HonestToRead(st1, Request(st1.remaining), call.body))
    && (c2 == Ok && st2.remaining == 0 ==> HonestToTokenize(st2, call.footer))
  }

  predicate DeliversAll(call: Call) {
    Delivers(call.header) && Delivers(call.body) && Delivers(call.footer)
  }

  /** A call that has not finished has failed only if a read from the stream below has. */
  predicate PassedAll(c: Condition, call: Call) {
    Passed(c, call.header) || Passed(c, call.body) || Passed(c, call.footer)
  }

  ghost predicate Progressing(st: State, body: Bytes, got: Bytes, part: Bytes, cs: seq<Bytes>, rest: Bytes) {
    body == got + part + Flatten(cs) && Receiving(st, got, part, cs, rest)
  }

  /** The header and data steps of a call. */
  lemma HeaderAndDataKeep(st: State, call: Call, body: Bytes, got: Bytes, part: Bytes, cs: seq<Bytes>, rest: Bytes)
      returns (got': Bytes, part': Bytes, cs': seq<Bytes>)
    requires Progressing(st, body, got, part, cs, rest) && Fair(st, call)
    ensures var (st1, c1) := HeaderStep(st, call.header);
            var (st2, c2) := DataStep(st1, c1, call.body);
            if c2 == End then Kept(st2.data, body) && Pending(st2) == CRLF + rest
            else
              && Progressing(st2, body, got', part', cs', rest) && (c2 == Ok || PassedAll(c2, call))
              && Cost(st2) <= Cost(st)
              && (DeliversAll(call) ==>
                    (c2 == Ok || c2 == Wait) && (st.remaining != 0 ==> Cost(st2) < Cost(st)))
  {
    hide HeaderStep, DataReceived, Receiving, HonestToTokenize, HonestToRead, CleanLooks, Kept;
    got', part', cs' := got, part, cs;
    var (st1, c1) := HeaderStep(st, call.header);
    PartIs(st, got, part, cs, rest);
    NoHeader(st, call.header);
    if st.remaining == -1 {
      HeaderKeeps(st, call.header, got, cs, rest);
      if c1 == Ok {
        part', cs' := cs[0], cs[1..];
        assert got + [] + Flatten(cs) == got + cs[0] + Flatten(cs[1..]);
      } else {
        assert c1 == End ==> got + [] + Flatten<u8>([]) == got;
        CostOfWait(st, st1, c1, call.header);
        return;
      }
    }
    PartIs(st1, got', part', cs', rest);
    if st1.remaining > 0 {
      var more := CRLF + Remainder(cs', rest);
      var x := DataKeeps(st1, call.body, got', part', more);
      assert part' == x + part'[|x|..];
      ConcatAssoc(got', x, part'[|x|..]);
      got', part' := got' + x, part'[|x|..];
      ChunkIs(DataReceived(st1, call.body).0, got', part', cs', rest);
    }
  }

  lemma CostOfWait(st: State, st': State, c: Condition, fill: Fill)
    requires (st', c) == HeaderStep(st, fill)
    ensures c != Ok && c != End ==> Cost(st') <= Cost(st)
  {
  }

  lemma NoHeader(st: State, fill: Fill)
    ensures st.remaining != -1 ==> HeaderStep(st, fill) == (st, Ok)
  {
  }

  lemma ReceivedKeeps(st: State, call: Call, body: Bytes, got: Bytes, part: Bytes, cs: seq<Bytes>, rest: Bytes)
      returns (got': Bytes, part': Bytes, cs': seq<Bytes>)
    requires Progressing(st, body, got, part, cs, rest) && Fair(st, call)
    ensures var (st', c) := Received(st, call.header, call.body, call.footer);
            if c == End then Kept(st'.data, body) && Pending(st') == CRLF + rest
            else
              && Progressing(st', body, got', part', cs', rest) && (c == Ok || PassedAll(c, call))
              && (DeliversAll(call) ==> (c == Ok || c == Wait) && Cost(st') < Cost(st))
  {
    hide HeaderStep, DataReceived, Receiving, HonestToTokenize, HonestToRead, CleanLooks, Tokenized, Kept;
    got', part', cs' := HeaderAndDataKeep(st, call, body, got, part, cs, rest);
    var (st1, c1) := HeaderStep(st, call.header);
    var (st2, c2) := DataStep(st1, c1, call.body);
    NoHeader(st, call.header);
    if c2 == Ok {
      PartIs(st2, got', part', cs', rest);
      if st2.remaining == 0 {
        FooterKeeps(st2, call.footer, got', cs', rest);
      }
    }
  }

  lemma PartIs(st: State, got: Bytes, part: Bytes, cs: seq<Bytes>, rest: Bytes)
    requires Receiving(st, got, part, cs, rest)
    ensures st.remaining == -1 ==> part == []
    ensures st.remaining != -1 ==> st.remaining == |part| && InChunk(st, got, part, CRLF + Remainder(cs, rest))
    ensures SmallChunks(cs) && Kept(st.data, got)
  {
  }

  lemma ChunkIs(st: State, got: Bytes, part: Bytes, cs: seq<Bytes>, rest: Bytes)
    requires InChunk(st, got, part, CRLF + Remainder(cs, rest)) && SmallChunks(cs)
    ensures Receiving(st, got, part, cs, rest)
  {
  }

  /** Calls until one of them answers something else than Ok or Wait. */
  function Run(st: State, calls: seq<Call>): (State, Condition)
    decreases |calls|
  {
    if calls == [] then (st, Wait)
    else
      var (st', c) := Received(st, calls[0].header, calls[0].body, calls[0].footer);
      if c == Ok || c == Wait then Run(st', calls[1..]) else (st', c)
  }

  predicate AllFair(st: State, calls: seq<Call>)
    decreases |calls|
  {
    calls == [] ||
    (Fair(st, calls[0]) &&
     var (st', c) := Received(st, calls[0].header, calls[0].body, calls[0].footer);
     c == Ok || c == Wait ==> AllFair(st', calls[1..]))
  }

  ghost predicate Failed(c: Condition, calls: seq<Call>) {
    exists call :: call in calls && (c == call.header.c || c == call.body.c || c == call.footer.c)
  }

  lemma {:induction false} RunKeeps(st: State, calls: seq<Call>, body: Bytes, got: Bytes, part: Bytes, cs: seq<Bytes>,
                                    rest: Bytes)
    requires Progressing(st, body, got, part, cs, rest) && AllFair(st, calls)
    ensures var (st', c) := Run(st, calls);
            if c == End then Kept(st'.data, body) && Pending(st') == CRLF + rest
            else (exists got' :: got' <= body && Kept(st'.data, got')) && (c == Wait || Failed(c, calls))
    ensures (forall call | call in calls :: DeliversAll(call)) && |calls| > Cost(st) ==> Run(st, calls).1 == End
    decreases |calls|
  {
    hide Received, Fair, Receiving, DeliversAll;
    PartIs(st, got, part, cs, rest);
    assert got <= body;
    if calls != [] {
      var call := calls[0];
      var got', part', cs' := ReceivedKeeps(st, call, body, got, part, cs, rest);
      var (st', c) := Received(st, call.header, call.body, call.footer);
      if c != End {
        PartIs(st', got', part', cs', rest);
        assert got' <= body;
        assert call in calls;
        if c == Ok || c == Wait {
          RunKeeps(st', calls[1..], body, got', part', cs', rest);
          FailedBefore(Run(st', calls[1..]).1, calls);
        }
      }
    }
  }

  lemma FailedBefore(c: Condition, calls: seq<Call>)
    requires calls != []
    ensures Failed(c, calls[1..]) ==> Failed(c, calls)
    ensures forall call | call in calls[1..] :: call in calls
  {
  }

  function Start(src: Bytes): State {
    State([], 0, 1024, 0, false, -1, [], src)
  }

  lemma StartReceives(cs: seq<Bytes>, rest: Bytes)
    requires SmallChunks(cs)
    ensures Progressing(Start(Chunks(cs) + LAST + rest), Flatten(cs), [], [], cs, rest)
  {
    var st, body := Start(Chunks(cs) + LAST + rest), Flatten(cs);
    assert Pending(st) == Remainder(cs, rest);
    assert [] + [] + body == body;
  }

  /**
   However a chunked coding arrives, as long as no chunk header is torn: when the decoder says End it has taken exactly
   the coding up to its last line end, and its data is the body exactly if the body is free of NULs. Before that its
   data is part of the body, and it has failed only if the stream below has.
   */
  lemma DecoderReturnsBody(cs: seq<Bytes>, rest: Bytes, calls: seq<Call>)
    requires SmallChunks(cs) && AllFair(Start(Chunks(cs) + LAST + rest), calls)
    ensures var (st, c) := Run(Start(Chunks(cs) + LAST + rest), calls);
            && (c == End ==> Pending(st) == CRLF + rest && (st.data == Flatten(cs) <==> 0 !in Flatten(cs)))
            && (c != End && 0 !in Flatten(cs) ==> st.data <= Flatten(cs))
            && (c == Ok || c == Close || c == Error ==> Failed(c, calls))
  {
    hide Run, AllFair, Chunks, Receiving;
    StartReceives(cs, rest);
    RunKeeps(Start(Chunks(cs) + LAST + rest), calls, Flatten(cs), [], [], cs, rest);
  }

  /** Calls that find bytes whenever they ask for them bring the decoder to its end in a bounded number of steps. */
  lemma DecoderFinishes(cs: seq<Bytes>, rest: Bytes, calls: seq<Call>)
    requires SmallChunks(cs) && AllFair(Start(Chunks(cs) + LAST + rest), calls)
    requires (forall call | call in calls :: DeliversAll(call)) && |calls| > 2 * |Chunks(cs) + LAST + rest|
    ensures Run(Start(Chunks(cs) + LAST + rest), calls).1 == End
  {
    hide Run, AllFair, Chunks, Receiving;
    StartReceives(cs, rest);
    RunKeeps(Start(Chunks(cs) + LAST + rest), calls, Flatten(cs), [], [], cs, rest);
  }

  // Where the decoder fails

  /** The data steps of successive calls, until the chunk is complete. */
  function Gathered(st: State, fills: seq<Fill>): State
    decreases |fills|
  {
    if fills == [] || st.remaining <= 0 then st else Gathered(DataReceived(st, fills[0]).0, fills[1..])
  }

  lemma {:induction false} GatheredIs(st: State, fills: seq<Fill>, got: Bytes, part: Bytes, more: Bytes)
    requires InChunk(st, got, part, more) && 0 !in part
    ensures var st' := Gathered(st, fills);
            && 0 <= st'.remaining <= |part| && st'.data == st.data + part[..|part| - st'.remaining]
            && ((forall fill | fill in fills :: fill.k > 0) && |fills| >= |part| ==> st'.remaining == 0)
    decreases |fills|
  {
    hide DataReceived, Kept, Ready;
    if fills == [] || part == [] {
      assert st.data + [] == st.data;
    } else {
      var x := DataKeeps(st, fills[0], got, part, more);
      CStringCuts(x);
      var rest := part[|x|..];
      GatheredIs(DataReceived(st, fills[0]).0, fills[1..], got + x, rest, more);
      var n := Gathered(st, fills).remaining;
      ConcatAssoc(st.data, x, rest[..|rest| - n]);
      assert part == x + rest;
      FrontOfTwo(x, rest, |rest| - n);
    }
  }

  lemma FrontOfTwo(x: Bytes, y: Bytes, k: nat)
    requires k <= |y|
    ensures (x + y)[..|x| + k] == x + y[..k]
  {
  }

  /** What the decoder takes for c when its header is torn: the LF comes in front, and the last byte is left. */
  function Shifted(c: Bytes): Bytes {
    ([LF] + c)[..|c|]
  }

  lemma ShiftedIsSame(c: Bytes)
    requires 0 !in c
    ensures |Shifted(c)| == |c| && 0 !in Shifted(c)
    ensures Shifted(c) == c <==> forall i | 0 <= i < |c| :: c[i] == LF
  {
    var s := Shifted(c);
    assert forall i | 0 <= i < |c| :: s[i] == if i == 0 then LF else c[i - 1];
    if s == c {
      AllTheSame(c, |c|);
    }
  }

  lemma {:induction false} AllTheSame(c: Bytes, n: nat)
    requires n <= |c| && c == Shifted(c)
    ensures forall i | 0 <= i < n :: c[i] == LF
  {
    if n > 0 {
      AllTheSame(c, n - 1);
      assert c[n - 1] == Shifted(c)[n - 1] == ([LF] + c)[n - 1];
    }
  }

  /**
   A header whose line is found announces its chunk; and the chunk is then received rightly exactly if the LF was there
   to be seen, or if the chunk is nothing but LFs. Otherwise it is received shifted by that LF.
   */
  lemma ChunkIsReceivedIf(st: State, fill: Fill, got: Bytes, c: Bytes, more: Bytes, fills: seq<Fill>)
    requires 0 < |c| < 0x8000_0000 && 0 !in c && BeforeHeader(st, got, Hex(|c|) + CRLF + (c + more))
    requires HonestToTokenize(st, fill) && NoLoneFeed(st, fill) && LastLook(st, fill).found
    requires (forall f | f in fills :: f.k > 0) && |fills| >= |c|
    ensures var st' := Gathered(HeaderStep(st, fill).0, fills);
            && st'.remaining == 0
            && st'.data == st.data + (if Torn(st, fill) then Shifted(c) else c)
            && (st'.data == st.data + c <==> CleanLooks(st, fill) || forall i | 0 <= i < |c| :: c[i] == LF)
  {
    hide HeaderStep, Hex, Gathered, LastLook, FirstLook, Kept, Ready, CleanLooks, NoLoneFeed, Shifted, Torn;
    HexLine(|c|);
    HeaderLine(st, fill, got, Hex(|c|), |c|, c + more);
    var st1 := HeaderStep(st, fill).0;
    LooksAre(st, fill, got, |c|, c + more);
    ShiftedIsSame(c);
    var part, left := if Torn(st, fill) then Shifted(c) else c, if Torn(st, fill) then [c[|c| - 1]] else [];
    ShiftedFront(c);
    ConcatAssoc(part, left, more);
    assert Pending(st1) == part + (left + more) by {
      ConcatAssoc([LF], c, more);
    }
    GatheredIs(st1, fills, got, part, left + more);
    assert part[..|c|] == part;
    SameBehind(st.data, part, c);
  }

  lemma ShiftedFront(c: Bytes)
    requires c != []
    ensures [LF] + c == Shifted(c) + [c[|c| - 1]]
  {
  }

  lemma SameBehind(front: Bytes, x: Bytes, y: Bytes)
    ensures front + x == front + y <==> x == y
  {
    if front + x == front + y {
      assert x == (front + x)[|front|..] == (front + y)[|front|..] == y;
    }
  }

  /** A look at a header that is not clean finds it torn, or skips the LF of the line before and finds nothing. */
  lemma LooksAre(st: State, fill: Fill, got: Bytes, size: nat, more: Bytes)
    requires size < 0x8000_0000 && BeforeHeader(st, got, Hex(size) + CRLF + more)
    ensures CleanLooks(st, fill) <==> NoLoneFeed(st, fill) && !Torn(st, fill)
  {
    hide NextToken, Hex;
    HexLine(size);
    assert Front(false) + (Hex(size) + CRLF + more) == Hex(size) + CRLF + more;
    var owed := Pending(st) != Hex(size) + CRLF + more;
    NextTokenOfLine(st.buf, st.src, st.prev, owed, Hex(size), more);
    if NoLoneFeed(st, fill) && !FirstLook(st).found {
      LooksAgain(st, fill);
      var st1 := Filled(st.(wasted := 0), TokenFill(st, fill));
      FilledReady(st.(wasted := 0), TokenFill(st, fill));
      NextTokenOfLine(st1.buf, st1.src, st.prev, owed, Hex(size), more);
    }
  }

  /**
   When the LF of the line before is skipped and no header is found, the LF stays in the buffer, and it is taken for an
   empty header: the decoder says End in this call or the next one, and drops what is still to come.
   */
  lemma LoneFeedEnds(st: State, fill: Fill, next: Fill, got: Bytes, size: nat, more: Bytes)
    requires size < 0x8000_0000 && BeforeHeader(st, got, Hex(size) + CRLF + more) && !NoLoneFeed(st, fill)
    ensures var (st1, c1) := HeaderStep(st, fill);
            var (st2, c2) := if c1 == End then (st1, c1) else HeaderStep(st1, next);
            c2 == End && st2.data == st.data
  {
    hide NextToken, Hex, Kept, Tokenized, StrToUl16;
    HexLine(size);
    var line := Hex(size);
    OnlyOwedFeeds(st, fill, line, more);
    NextTokenOfLine(st.buf, st.src, st.prev, true, line, more);
    var n := TokenFill(st, fill);
    var st1 := Filled(st.(wasted := 0), n);
    FilledReady(st.(wasted := 0), n);
    BufferedLine(st.buf, st.src, true, line, more);
    BufferedLine(st1.buf, st1.src, true, line, more);
    if st.buf == [] {
      LooksAgain(st, fill);
      NextTokenOfLine(st1.buf, st1.src, st.prev, true, line, more);
      TokenizedByLooks(st, fill);
      EmptyHeader(st1.(prev := 0), next);
    } else {
      LoneFeedInFront(st, fill, next);
    }
  }

  /** The LF was skipped by the first look already: the second one, or the next call, meets it at the front again. */
  lemma LoneFeedInFront(st: State, fill: Fill, next: Fill)
    requires Ready(st) && st.remaining == -1 && st.buf != [] && |st.buf| < 16 && st.buf[0] == LF
    requires !FirstLook(st).found && FirstLook(st).prev == 0
    ensures var (st1, c1) := HeaderStep(st, fill);
            var (st2, c2) := if c1 == End then (st1, c1) else HeaderStep(st1, next);
            c2 == End && st2.data == st.data
  {
    var n := TokenFill(st, fill);
    EmptyToken(st.buf + st.src[..n]);
    EmptyHeader(st.(prev := 0, wasted := 0), next);
    hide NextToken;
    assert (st.buf + st.src[..n])[0..0] == [];
    assert StrToUl16([]) == 0;
  }

  lemma OnlyOwedFeeds(st: State, fill: Fill, line: Bytes, more: Bytes)
    requires Ready(st) && NoBreak(line) && !NoLoneFeed(st, fill)
    ensures Pending(st) != line + CRLF + more
  {
    hide NextToken;
    if Pending(st) == line + CRLF + more {
      assert Front(false) + (line + CRLF + more) == line + CRLF + more;
      NextTokenOfLine(st.buf, st.src, st.prev, false, line, more);
      if !FirstLook(st).found {
        LooksAgain(st, fill);
        var st1 := Filled(st.(wasted := 0), TokenFill(st, fill));
        FilledReady(st.(wasted := 0), TokenFill(st, fill));
        NextTokenOfLine(st1.buf, st1.src, st.prev, false, line, more);
      }
    }
  }

  lemma EmptyToken(buf: Bytes)
    requires buf != [] && buf[0] == LF
    ensures var t := NextToken(buf, 0, 0, 0, 0);
            t.found && t.pre == 0 && t.len == 0
  {
  }

  lemma EmptyHeader(st: State, fill: Fill)
    requires !st.overflow && st.remaining == -1 && st.prev == 0 && st.buf != [] && st.buf[0] == LF
    ensures HeaderStep(st, fill).1 == End && HeaderStep(st, fill).0.data == st.data
  {
    EmptyToken(st.buf);
    hide NextToken;
    assert st.buf[0..0] == [];
    assert StrToUl16([]) == 0;
  }

  /** There is a fill that tears a header, whatever its size. */
  lemma FillTears(st: State, got: Bytes, size: nat, more: Bytes, c: Condition)
    requires size < 0x8000_0000 && BeforeHeader(st, got, Hex(size) + CRLF + more)
    requires st.buf == [] && Pending(st) == Hex(size) + CRLF + more
    ensures var fill := Fill(|Hex(size)| + 1, c);
            Torn(st, fill) && NoLoneFeed(st, fill) && HonestToTokenize(st, fill) == (c != End)
  {
    hide NextToken, Hex;
    HexLine(size);
    assert Front(false) + (Hex(size) + CRLF + more) == Hex(size) + CRLF + more;
    var fill := Fill(|Hex(size)| + 1, c);
    FirstByte(st.buf, st.prev);
    LooksAgain(st, fill);
    var st1 := Filled(st.(wasted := 0), TokenFill(st, fill));
    FilledReady(st.(wasted := 0), TokenFill(st, fill));
    NextTokenOfLine(st1.buf, st1.src, st.prev, false, Hex(size), more);
  }
}
