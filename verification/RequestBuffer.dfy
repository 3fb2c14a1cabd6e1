/** The growing receive buffer and the request list of the old proxy
    (proxy_request_handler.c). The parser of the http_utils library is a parameter;
    requests are kept as offsets into the buffer. */
module RequestBuffer {
  import opened Options
  import opened SystemTypes
  import opened ConnQueue

  const REQUEST_BUF_SIZE: nat := 8192
  const REALLOC_LIMIT: nat := 128

  /** One answer of recv, and of the realloc before it. */
  datatype Answer = Answer(granted: bool, ret: int, errno: Errno)

  datatype ParseResult = Complete(headerLen: nat) | Incomplete | ParseError

  datatype Request = Request(offset: nat, len: nat)

  type Parser = seq<Byte> -> ParseResult

  /** A complete header is not empty and lies within the bytes given. */
  ghost predicate Sensible(parse: Parser) {
    forall s :: parse(s).Complete? ==> 0 < parse(s).headerLen <= |s|
  }

  /** The requests lie end to end in [from, to), in order. */
  predicate Tile(reqs: seq<Request>, from: nat, to: nat) {
    if reqs == [] then from == to
    else reqs[0].offset == from && reqs[0].len > 0 && Tile(reqs[1..], from + reqs[0].len, to)
  }

  lemma {:induction false} TileAppend(reqs: seq<Request>, from: nat, mid: nat, len: nat)
    requires Tile(reqs, from, mid) && len > 0
    ensures Tile(reqs + [Request(mid, len)], from, mid + len)
  {
    if reqs == [] {
      assert reqs + [Request(mid, len)] == [Request(mid, len)];
    } else {
      assert (reqs + [Request(mid, len)])[1..] == reqs[1..] + [Request(mid, len)];
      TileAppend(reqs[1..], from + reqs[0].len, mid, len);
    }
  }

  /** Tiled requests are disjoint and cover every byte: a byte of the range belongs to
      exactly one of them. */
  lemma {:induction false} TileCovers(reqs: seq<Request>, from: nat, to: nat, x: nat) returns (k: nat)
    requires Tile(reqs, from, to) && from <= x < to
    ensures k < |reqs| && reqs[k].offset <= x < reqs[k].offset + reqs[k].len
    ensures forall j :: 0 <= j < |reqs| && reqs[j].offset <= x < reqs[j].offset + reqs[j].len ==> j == k
  {
    TileBounds(reqs[1..], from + reqs[0].len, to);
    assert forall j :: 1 <= j < |reqs| ==> reqs[j] == reqs[1..][j - 1];
    if x < from + reqs[0].len {
      k := 0;
    } else {
      var i := TileCovers(reqs[1..], from + reqs[0].len, to, x);
      k := i + 1;
    }
  }

  lemma {:induction false} TileBounds(reqs: seq<Request>, from: nat, to: nat)
    requires Tile(reqs, from, to)
    ensures from <= to
    ensures forall j :: 0 <= j < |reqs| ==> from <= reqs[j].offset && reqs[j].offset + reqs[j].len <= to
  {
    if reqs == [] {
    } else {
      TileBounds(reqs[1..], from + reqs[0].len, to);
      forall j | 0 <= j < |reqs| ensures from <= reqs[j].offset && reqs[j].offset + reqs[j].len <= to {
        if j > 0 {
          assert reqs[j] == reqs[1..][j - 1];
        }
      }
    }
  }

  // ---------------------------------------------------------------- parsing

  /** Why parsing stopped: a request is incomplete; the parser reports an error, on which
      the loop of the program makes no progress and never ends; or the answers of the
      allocator ended. */
  datatype ParseEnd = NeedMore | ErrorLoop | CutOff

  /** The parsed length, the request list and the allocator's answers to come. */
  datatype ParseState = ParseState(parsed: nat, reqs: seq<Request>, grants: seq<bool>)

  /** handle_request with a header of `n` bytes: listed, unless memory for it was refused. */
  function Handled(st: ParseState, n: nat): ParseState
    requires st.grants != []
  {
    if !st.grants[0] then st.(grants := st.grants[1..])
    else ParseState(st.parsed + n, st.reqs + [Request(st.parsed, n)], st.grants[1..])
  }

  /** One round of the parse loop on the bytes `s`: it stops, or handles a request. */
  ghost function ParseRound(parse: Parser, s: seq<Byte>, st: ParseState): (res: (ParseState, Option<ParseEnd>))
    requires Sensible(parse) && st.parsed <= |s|
    ensures st.parsed <= res.0.parsed <= |s| && (res.1 == None ==> |res.0.grants| < |st.grants|)
  {
    match parse(s[st.parsed..])
    case Incomplete => (st, Some(NeedMore))
    case ParseError => (st, Some(ErrorLoop))
    case Complete(n) => if st.grants == [] then (st, Some(CutOff)) else (Handled(st, n), None)
  }

  /** parse_request_buffer on the bytes `s`: takes complete requests off the unparsed part
      one by one, and tries again where the list got no memory. */
  ghost function Parsing(parse: Parser, s: seq<Byte>, st: ParseState): (ParseState, ParseEnd)
    requires Sensible(parse) && st.parsed <= |s|
    decreases |s| - st.parsed, |st.grants|
  {
    var (st1, end) := ParseRound(parse, s, st);
    if end.Some? then (st1, end.value) else Parsing(parse, s, st1)
  }

  /** The complete requests from `from` on: what the loop lists with enough memory. It
      ends because headers are not empty, so that the unparsed part shrinks. */
  ghost function Requests(parse: Parser, s: seq<Byte>, from: nat): (reqs: seq<Request>)
    requires Sensible(parse) && from <= |s|
    ensures |reqs| <= |s| - from
    decreases |s| - from
  {
    match parse(s[from..])
    case Complete(n) => [Request(from, n)] + Requests(parse, s, from + n)
    case _ => []
  }

  /** How many allocations succeed. */
  function Granted(grants: seq<bool>): (n: nat)
    ensures n <= |grants|
  {
    if grants == [] then 0 else (if grants[0] then 1 else 0) + Granted(grants[1..])
  }

  /** Of the requests `reqs` those are listed for which there is memory, and parsing
      stops by itself exactly when there is memory for all. */
  ghost predicate Lists(st: ParseState, reqs: seq<Request>, st': ParseState, end: ParseEnd) {
    && st'.reqs == st.reqs + reqs[..Min(Granted(st.grants), |reqs|)]
    && (end != CutOff <==> Granted(st.grants) >= |reqs|)
  }

  /** The loop lists the complete requests, in order, as far as there is memory. */
  lemma {:induction false} ParsingListsRequests(parse: Parser, s: seq<Byte>, st: ParseState)
    requires Sensible(parse) && st.parsed <= |s|
    ensures Lists(st, Requests(parse, s, st.parsed), Parsing(parse, s, st).0, Parsing(parse, s, st).1)
    decreases |s| - st.parsed, |st.grants|
  {
    var p := parse(s[st.parsed..]);
    if !p.Complete? || st.grants == [] {
    } else {
      var st1 := Handled(st, p.headerLen);
      ParsingListsRequests(parse, s, st1);
      var reqs := Requests(parse, s, st1.parsed);
      assert Requests(parse, s, st.parsed) == if st.grants[0] then [Request(st.parsed, p.headerLen)] + reqs else reqs;
      ListsMore(st, p.headerLen, reqs, Parsing(parse, s, st1).0, Parsing(parse, s, st1).1);
    }
  }

  lemma ListsMore(st: ParseState, n: nat, reqs: seq<Request>, st': ParseState, end: ParseEnd)
    requires st.grants != [] && Lists(Handled(st, n), reqs, st', end)
    ensures Lists(st, if st.grants[0] then [Request(st.parsed, n)] + reqs else reqs, st', end)
  {
    var k := Min(Granted(st.grants[1..]), |reqs|);
    var first := Request(st.parsed, n);
    assert ([first] + reqs)[..k + 1] == [first] + reqs[..k];
    assert st.reqs + ([first] + reqs[..k]) == st.reqs + [first] + reqs[..k];
  }

  /** One allocation for each unparsed byte is always enough. */
  lemma ParsingStops(parse: Parser, s: seq<Byte>, st: ParseState)
    requires Sensible(parse) && st.parsed <= |s| && Granted(st.grants) >= |s| - st.parsed
    ensures Parsing(parse, s, st).1 != CutOff
  {
    ParsingListsRequests(parse, s, st);
  }

  /** The list goes on tiling the parsed part, and only grows. */
  lemma {:induction false} ParsingTiles(parse: Parser, s: seq<Byte>, st: ParseState)
    requires Sensible(parse) && st.parsed <= |s| && Tile(st.reqs, 0, st.parsed)
    ensures var st' := Parsing(parse, s, st).0;
            st.parsed <= st'.parsed <= |s| && st.reqs <= st'.reqs && Tile(st'.reqs, 0, st'.parsed)
    decreases |s| - st.parsed, |st.grants|
  {
    var p := parse(s[st.parsed..]);
    if !p.Complete? || st.grants == [] {
    } else {
      TileAppend(st.reqs, 0, st.parsed, p.headerLen);
      ParsingTiles(parse, s, Handled(st, p.headerLen));
    }
  }

  /** Each new request is a complete header at its offset, and where parsing stopped there
      is no further one: an incomplete header, an error, or no memory left to list it. */
  lemma {:induction false} ParsingIsExact(parse: Parser, s: seq<Byte>, st: ParseState)
    requires Sensible(parse) && st.parsed <= |s|
    ensures var (st', end) := Parsing(parse, s, st);
            && st.reqs <= st'.reqs && st'.parsed <= |s|
            && (forall k :: |st.reqs| <= k < |st'.reqs| ==>
                  var r := st'.reqs[k];
                  r.offset <= |s| && parse(s[r.offset..]) == Complete(r.len))
            && (match parse(s[st'.parsed..])
                case Incomplete => end == NeedMore
                case ParseError => end == ErrorLoop
                case Complete(_) => end == CutOff && st'.grants == [])
    decreases |s| - st.parsed, |st.grants|
  {
    var p := parse(s[st.parsed..]);
    if !p.Complete? || st.grants == [] {
    } else {
      ParsingIsExact(parse, s, Handled(st, p.headerLen));
    }
  }

  // ------------------------------------------------------------ buffer growth

  /** The program state the receive loop works on, and the answers to come. */
  datatype Fill = Fill(answers: seq<Answer>, size: nat, currLen: nat)

  /** The size alloc_client_buf asks for. */
  function NextSize(size: nat, currLen: nat): nat {
    if size == 0 then REQUEST_BUF_SIZE
    else if size - currLen < REALLOC_LIMIT then 2 * size
    else size
  }

  function Least(a: nat, b: nat, c: nat): nat {
    if a <= b && a <= c then a else if b <= c then b else c
  }

  /** One round of the receive loop: the size asked for, what recv returned (0 if the
      realloc was refused) and the bytes counted. */
  function Round(f: Fill, total: nat): (res: (Fill, int))
    requires f.answers != [] && f.currLen <= total && f.currLen <= f.size
    ensures res.0.currLen <= total && res.0.currLen <= res.0.size
  {
    var a, size := f.answers[0], NextSize(f.size, f.currLen);
    var ret := if !a.granted then 0 else if a.ret < 0 then a.ret
               else Least(a.ret, size - f.currLen, total - f.currLen);
    (Fill(f.answers[1..], size, f.currLen + if ret > 0 then ret else 0), ret)
  }

  /** recv_client_data, as a function of the answers, when the client sends `total` bytes
      in all. The result is negative on error, 0 at the end, 1 when the socket is drained
      and None where the answers end. */
  function Filling(f: Fill, total: nat): (Fill, Option<int>)
    requires f.currLen <= total && f.currLen <= f.size
    decreases |f.answers|
  {
    if f.answers == [] then (f, None)
    else
      var (g, ret) := Round(f, total);
      var a := f.answers[0];
      if !a.granted then (g, Some(-1))
      else if ret == 0 then (g, Some(0))
      else if ret > 0 || a.errno == EINTR then Filling(g, total)
      else (g, Some(if a.errno == EAGAIN then 1 else ret))
  }

  /** What a round of the loop met: no memory, or what recv returned. */
  datatype Event = Refused | Recvd(ret: int, errno: Errno)

  function Met(f: Fill, total: nat): Event
    requires f.answers != [] && f.currLen <= total && f.currLen <= f.size
  {
    if !f.answers[0].granted then Refused else Recvd(Round(f, total).1, f.answers[0].errno)
  }

  /** What the caller is told, if the loop ends there: -1 without memory, 0 when the client
      closed, 1 when the socket would block, and the error of recv otherwise. Data and an
      interrupt do not end it. */
  function Verdict(e: Event): Option<int> {
    match e
    case Refused => Some(-1)
    case Recvd(ret, errno) =>
      if ret == 0 then Some(0)
      else if ret > 0 || errno == EINTR then None
      else if errno == EAGAIN then Some(1)
      else Some(ret)
  }

  /** The rounds up to the first with a verdict, or until the answers end. */
  function Rounds(f: Fill, total: nat): (es: seq<Event>)
    requires f.currLen <= total && f.currLen <= f.size
    ensures |es| <= |f.answers|
    decreases |f.answers|
  {
    if f.answers == [] then []
    else [Met(f, total)] + if Verdict(Met(f, total)).Some? then [] else Rounds(Round(f, total).0, total)
  }

  /** The bytes received in some rounds. */
  function Bytes(es: seq<Event>): nat {
    if es == [] then 0 else (if es[0].Recvd? && es[0].ret > 0 then es[0].ret else 0) + Bytes(es[1..])
  }

  /** The result is the verdict of the last round, every round before it had none, and
      exactly the bytes received were counted. */
  lemma {:induction false} FillingResult(f: Fill, total: nat)
    requires f.currLen <= total && f.currLen <= f.size
    ensures var (f', r) := Filling(f, total);
            var es := Rounds(f, total);
            && r == (if es == [] then None else Verdict(es[|es| - 1]))
            && (forall i :: 0 <= i < |es| - 1 ==> Verdict(es[i]) == None)
            && (r == None ==> |es| == |f.answers|)
            && f'.answers == f.answers[|es|..] && f'.currLen == f.currLen + Bytes(es)
    decreases |f.answers|
  {
    if f.answers == [] {
    } else {
      var e, g := Met(f, total), Round(f, total).0;
      var es := Rounds(f, total);
      if Verdict(e).Some? {
        assert es == [e] && Bytes(es) == Bytes([e]) && es[1..] == [];
      } else {
        FillingResult(g, total);
        var rest := Rounds(g, total);
        assert es == [e] + rest && es[1..] == rest;
        assert f.answers[1..][|rest|..] == f.answers[|es|..];
      }
    }
  }

  /** The result by the last answer used: 1 exactly when recv would block, 0 exactly when
      it returned 0, negative exactly without memory or on another error. */
  lemma {:induction false} FillingVerdict(f: Fill, total: nat)
    requires f.currLen <= total && f.currLen <= f.size && Filling(f, total).1.Some?
    ensures var (f', r) := Filling(f, total);
            && |f'.answers| < |f.answers|
            && var a := f.answers[|f.answers| - |f'.answers| - 1];
            && (r == Some(1) <==> a.granted && a.ret < 0 && a.errno == EAGAIN)
            && (r == Some(0) <==> a.granted && a.ret >= 0)
            && (r.value < 0 <==> !a.granted || (a.ret < 0 && a.errno == OtherError))
    decreases |f.answers|
  {
    if Verdict(Met(f, total)).Some? {
    } else {
      FillingVerdict(Round(f, total).0, total);
    }
  }

  /** A size reached by doubling the first one. */
  predicate Doubled(size: nat) {
    size == REQUEST_BUF_SIZE || (size > REQUEST_BUF_SIZE && size % 2 == 0 && Doubled(size / 2))
  }

  /** No buffer yet, or one that holds the bytes received and is at most twice as large
      as they and the room asked for need. */
  predicate Fitting(size: nat, currLen: nat) {
    if size == 0 then currLen == 0
    else Doubled(size) && currLen <= size && (size == REQUEST_BUF_SIZE || size < 2 * (currLen + REALLOC_LIMIT))
  }

  lemma {:induction false} DoubledAtLeast(size: nat)
    requires Doubled(size)
    ensures size >= REQUEST_BUF_SIZE
  {
  }

  /** Every recv gets at least 128 bytes of room, in a buffer that still fits. */
  lemma NextSizeFits(size: nat, currLen: nat)
    requires Fitting(size, currLen)
    ensures Fitting(NextSize(size, currLen), currLen)
    ensures NextSize(size, currLen) - currLen >= REALLOC_LIMIT
  {
    if size != 0 {
      DoubledAtLeast(size);
    }
  }

  /** Whatever the answers, the buffer is never more than twice as large as needed. */
  lemma {:induction false} FillingFits(f: Fill, total: nat)
    requires Fitting(f.size, f.currLen) && f.currLen <= total
    ensures f.currLen <= f.size
    ensures var f' := Filling(f, total).0;
            f.currLen <= f'.currLen <= total && Fitting(f'.size, f'.currLen)
    decreases |f.answers|
  {
    if f.answers == [] {
    } else {
      NextSizeFits(f.size, f.currLen);
      FillingFits(Round(f, total).0, total);
    }
  }

  /** Two sizes reached by doubling differ by a factor of two at least. */
  lemma {:induction false} DoubledGap(a: nat, b: nat)
    requires Doubled(a) && Doubled(b) && a < b
    ensures 2 * a <= b
  {
    if a == REQUEST_BUF_SIZE {
      DoubledAtLeast(b / 2);
    } else {
      DoubledAtLeast(a / 2);
      DoubledGap(a / 2, b / 2);
    }
  }

  const GIB: nat := 0x4000_0000

  lemma DoubledGib()
    ensures Doubled(GIB)
  {
    assert Doubled(0x4000) && Doubled(0x8000) && Doubled(0x1_0000) && Doubled(0x2_0000);
    assert Doubled(0x4_0000) && Doubled(0x8_0000) && Doubled(0x10_0000) && Doubled(0x20_0000);
    assert Doubled(0x40_0000) && Doubled(0x80_0000) && Doubled(0x100_0000) && Doubled(0x200_0000);
    assert Doubled(0x400_0000) && Doubled(0x800_0000) && Doubled(0x1000_0000) && Doubled(0x2000_0000);
  }

  /** The size is an int in the program. The next one overflows it exactly when all but
      127 bytes of the first GiB, or more, have been received. */
  lemma NextSizeOverflowsIff(size: nat, currLen: nat)
    requires Fitting(size, currLen) && size <= GIB
    ensures NextSize(size, currLen) >= 2 * GIB <==> currLen > GIB - REALLOC_LIMIT
  {
    if size != 0 && size != GIB {
      DoubledGib();
      DoubledGap(size, GIB);
    }
  }

  /** From the empty buffer, the size stays an int with these answers. */
  predicate StaysInt(answers: seq<Answer>, total: nat) {
    Filling(Fill(answers, 0, 0), total).0.size < 2 * GIB
  }

  /** The size stays an int in every run exactly for clients that send at most 1 GiB less
      128 bytes; any larger client can drive it over. */
  lemma SizeOverflowsIff(total: nat)
    ensures (forall answers :: StaysInt(answers, total)) <==> total <= GIB - REALLOC_LIMIT
  {
    if total <= GIB - REALLOC_LIMIT {
      forall answers ensures StaysInt(answers, total) {
        FillingFits(Fill(answers, 0, 0), total);
      }
    } else {
      var rest := OverflowRun(REQUEST_BUF_SIZE, total);
      FillingFirst(0, 0, total, rest);
      assert !StaysInt([Answer(true, total, EINTR)] + rest, total);
    }
  }

  /** A full buffer of any size reached by doubling goes on to overflow, when every recv
      fills the room it gets. */
  lemma {:induction false} OverflowRun(size: nat, total: nat) returns (answers: seq<Answer>)
    requires Doubled(size) && size <= GIB && total > GIB - REALLOC_LIMIT
    ensures Filling(Fill(answers, size, Min(size, total)), total).0.size >= 2 * GIB
    decreases GIB - size
  {
    if size == GIB {
      answers := [Answer(false, 0, EINTR)];
    } else {
      DoubledGib();
      DoubledGap(size, GIB);
      DoubledAtLeast(size);
      var rest := OverflowRun(2 * size, total);
      FillingFirst(size, size, total, rest);
      answers := [Answer(true, total, EINTR)] + rest;
    }
  }

  /** A round in which recv fills the room. */
  lemma FillingFirst(size: nat, currLen: nat, total: nat, rest: seq<Answer>)
    requires currLen < total && currLen <= size
    ensures var next := NextSize(size, currLen);
            currLen < next ==>
              Filling(Fill([Answer(true, total, EINTR)] + rest, size, currLen), total)
              == Filling(Fill(rest, next, Min(next, total)), total)
  {
    var answers := [Answer(true, total, EINTR)] + rest;
    assert answers[1..] == rest;
  }

  // ---------------------------------------------------------- the proxy object

  class ProxyInfo {
    const stream: seq<Byte>  // everything the client will ever send
    var answers: seq<Answer>
    var buf: array?<Byte>
    var size: nat
    var currLen: nat
    var parsedLen: nat
    const list: Queue<Request>

    /** The buffer holds exactly the bytes received so far. */
    ghost predicate Holds()
      reads this, buf
    {
      && currLen <= |stream| && parsedLen <= currLen
      && (if buf == null then currLen == 0 else currLen <= buf.Length && buf[..currLen] == stream[..currLen])
    }

    /** The linked request list tiles the parsed part of the buffer. */
    ghost predicate Listed()
      reads this, list, list.items
    {
      list.Valid() && Tile(list.Contents(), 0, parsedLen)
    }

    /** The recorded size is the allocated one (untrue only after a failed realloc). */
    ghost predicate Sized()
      reads this, buf
    {
      && (if buf == null then size == 0 else buf.Length == size && size != 0)
      && Fitting(size, currLen)
    }

    ghost function Filled(): Fill
      reads this
    {
      Fill(answers, size, currLen)
    }

    constructor (stream: seq<Byte>, answers: seq<Answer>)
      ensures Holds() && Sized() && Listed() && list.Contents() == []
      ensures this.stream == stream && Filled() == Fill(answers, 0, 0) && fresh(list)
    {
      this.stream, this.answers := stream, answers;
      buf, size, currLen, parsedLen := null, 0, 0, 0;
      list := new Queue<Request>();
    }

    /** realloc: a block of the new size with the old contents. */
    method Realloc(n: nat) returns (block: array<Byte>)
      requires buf == null || buf.Length <= n
      ensures fresh(block) && block.Length == n
      ensures buf != null ==> block[..buf.Length] == buf[..]
    {
      block := new Byte[n];
      if buf != null {
        var i := 0;
        while i < buf.Length
          invariant 0 <= i <= buf.Length && block[..i] == buf[..i]
        {
          block[i] := buf[i];
          i := i + 1;
        }
      }
    }

    /** alloc_client_buf: on success the buffer has at least 128 bytes of room; in any
        case no received byte is lost. */
    method AllocClientBuf(rem: int, granted: bool) returns (ok: bool, rem': int)
      requires Holds() && Sized() && rem == size - currLen
      modifies this`buf, this`size
      ensures Holds() && ok == granted && size == NextSize(old(size), currLen)
      ensures ok ==> Sized() && buf != null && fresh(buf) && rem' == size - currLen >= REALLOC_LIMIT
      ensures !ok ==> buf == old(buf)
    {
      NextSizeFits(size, currLen);
      rem' := rem;
      if size == 0 {
        size := REQUEST_BUF_SIZE;
        rem' := REQUEST_BUF_SIZE;
      } else if rem < REALLOC_LIMIT && buf != null {
        size := size * 2;
        rem' := size - currLen;
      }
      ok := granted;
      if ok {
        var block := Realloc(size);
        assert buf != null ==> block[..currLen] == buf[..][..currLen];
        buf := block;
      }
    }

    /** recv into the free end of the buffer, which must have the room it is told of and
        at least 128 bytes of it; what came is counted. */
    method Recv(block: array<Byte>, room: nat, a: Answer) returns (ret: int)
      requires Holds() && block == buf && room >= REALLOC_LIMIT && currLen + room == block.Length
      modifies block, this`currLen
      ensures Holds() && ret == if a.ret < 0 then a.ret else Least(a.ret, room, |stream| - old(currLen))
      ensures currLen == old(currLen) + if ret > 0 then ret else 0
    {
      ret := if a.ret < 0 then a.ret else Least(a.ret, room, |stream| - currLen);
      if ret > 0 {
        var i := 0;
        while i < ret
          invariant 0 <= i <= ret && currLen == old(currLen)
          invariant block[..currLen + i] == stream[..currLen + i]
        {
          block[currLen + i] := stream[currLen + i];
          i := i + 1;
        }
        currLen := currLen + ret;
      }
    }

    /** One round of the receive loop: make room, receive, and count what came. */
    method AllocAndRecv(a: Answer) returns (ret: int)
      requires Holds() && Sized() && currLen <= size && answers != [] && a == answers[0]
      modifies this`answers, this`buf, this`size, this`currLen
      ensures Holds() && (Filled(), ret) == Round(old(Filled()), |stream|)
      ensures a.granted ==> Sized() && fresh(buf)
    {
      answers := answers[1..];
      var ok, rem := AllocClientBuf(size - currLen, a.granted);
      ret := 0;
      if ok {
        ret := Recv(buf, rem, a);
      }
    }

    /** recv_client_data: the loop does what Filling says, and the buffer is always the
        concatenation of everything received. */
    method RecvClientData() returns (r: Option<int>)
      requires Holds() && Sized()
      modifies this`answers, this`buf, this`size, this`currLen
      ensures Holds() && old(currLen) <= old(size)
      ensures (Filled(), r) == Filling(old(Filled()), |stream|)
      ensures r.Some? && r.value >= 0 ==> Sized()
    {
      while answers != []
        invariant Holds() && Sized() && currLen <= size && (buf == old(buf) || fresh(buf))
        invariant Filling(Filled(), |stream|) == Filling(old(Filled()), |stream|)
        decreases |answers|
      {
        var a := answers[0];
        var ret := AllocAndRecv(a);
        if !a.granted {
          return Some(-1);
        }
        if ret < 0 {
          if a.errno == EAGAIN {
            return Some(1);
          } else if a.errno == OtherError {
            return Some(ret);
          }
        } else if ret == 0 {
          return Some(0);
        }
      }
      r := None;
    }

    ghost function Parsed(grants: seq<bool>): ParseState
      reads this, list
    {
      ParseState(parsedLen, list.Contents(), grants)
    }

    /** handle_request: the header just parsed goes to the end of the linked list, unless
        there is no memory for a node; then nothing changes. */
    method HandleRequest(headerLen: nat, grants: seq<bool>) returns (ret: int)
      requires list.Valid() && headerLen <= currLen - parsedLen && grants != []
      modifies this`parsedLen, list, list.tail
      ensures list.Valid() && (list.tail == old(list.tail) || fresh(list.tail))
      ensures parsedLen <= currLen && ret == if grants[0] then 0 else -1
      ensures Parsed(grants[1..]) == Handled(old(Parsed(grants)), headerLen)
    {
      list.PushTail(Some(Request(parsedLen, headerLen)), grants[0]);
      if !grants[0] {
        return -1;
      }
      parsedLen := parsedLen + headerLen;
      ret := 0;
    }

    /** What the parser is given: the bytes received and not yet parsed. */
    function Unparsed(): (s: seq<Byte>)
      requires Holds()
      reads this, buf
      ensures s == stream[..currLen][parsedLen..]
    {
      if buf == null then [] else assert buf[..currLen][parsedLen..] == buf[parsedLen..currLen]; buf[parsedLen..currLen]
    }

    /** One round of the parse loop, on the unparsed end of the buffer. */
    method ParseOnce(parse: Parser, grants: seq<bool>) returns (end: Option<ParseEnd>, left: seq<bool>)
      requires Holds() && list.Valid() && Sensible(parse)
      modifies this`parsedLen, list, list.tail
      ensures Holds() && list.Valid() && (list.tail == old(list.tail) || fresh(list.tail))
      ensures (Parsed(left), end) == ParseRound(parse, stream[..currLen], old(Parsed(grants)))
    {
      left := grants;
      var p := parse(Unparsed());
      if p.ParseError? {
        return Some(ErrorLoop), left;
      } else if p.Incomplete? {
        return Some(NeedMore), left;
      } else if left == [] {
        return Some(CutOff), left;
      }
      var ret := HandleRequest(p.headerLen, left);
      left := left[1..];
      end := None;
    }

    /** parse_request_buffer: the loop does what Parsing says with the bytes received, the
        list goes on tiling the parsed part, and the loop comes to its own end if there is
        memory for the complete requests, of which there are no more than unparsed bytes. */
    method ParseRequestBuffer(parse: Parser, grants: seq<bool>) returns (end: ParseEnd, left: seq<bool>)
      requires Holds() && Listed() && Sensible(parse)
      modifies this`parsedLen, list, list.tail
      ensures Holds() && Listed() && (list.tail == old(list.tail) || fresh(list.tail))
      ensures (Parsed(left), end) == Parsing(parse, stream[..currLen], old(Parsed(grants)))
      ensures end != CutOff <==> Granted(grants) >= |Requests(parse, stream[..currLen], old(parsedLen))|
      ensures Granted(grants) >= currLen - old(parsedLen) ==> end != CutOff
    {
      ParsingTiles(parse, stream[..currLen], Parsed(grants));
      ParsingListsRequests(parse, stream[..currLen], Parsed(grants));
      ghost var all := Parsing(parse, stream[..currLen], Parsed(grants));
      left := grants;
      while true
        invariant Holds() && list.Valid() && (list.tail == old(list.tail) || fresh(list.tail))
        invariant Parsing(parse, stream[..currLen], Parsed(left)) == all
        decreases currLen - parsedLen, |left|
      {
        var stop: Option<ParseEnd>;
        stop, left := ParseOnce(parse, left);
        if stop.Some? {
          return stop.value, left;
        }
      }
    }
  }
}
