/** The byte tunnel of the splicing proxy (sproxy_core.c, sproxy_splice.c and
    sproxy_net.c): server to client through a pipe with splice, client to server
    through a buffer with recv and send. The kernel's answers are scripts of any
    length; a run that needs an answer beyond the end of a script stops there with
    None, so what holds of every script holds at every instant. */
module Tunnel {
  import opened Options
  import opened SystemTypes

  const MAX_LENGTH: nat := 8192

  /** Answer to poll: return value, errno, and the events set on the first and second
      descriptor. */
  datatype Poll = Poll(ret: int, errno: Errno, ready: bool, ready2: bool)

  /** Answer to a transfer: all the bytes there are, up to the size asked for; only part
      of them, if n is less; or an error. */
  datatype Transfer = Whole | AtMost(n: nat) | Failed(errno: Errno)

  /** What a transfer returned to the program. */
  datatype Return = Moves(n: nat) | Error(errno: Errno)

  /** The descriptors a poll waits for: both ends to read, one of them to write. */
  datatype Place = Ends | Client | Server

  /** A system call of the proxy with what it returned: poll, splice into the pipe, splice
      out of it, recv and send, the transfers with the size asked for. */
  datatype Event =
    | Polled(at: Place, p: Poll)
    | Took(ret: Return, asked: nat)
    | Gave(ret: Return, asked: nat)
    | Recvd(ret: Return, asked: nat)
    | Sent(ret: Return, asked: nat)

  /** The outside of the proxy: the answers still to come, to poll and to the four kinds
      of transfer, the bytes in their places, and the system calls made so far.
      `fromServer` and `fromClient` are what the peers have still to send. */
  datatype World = World(
    polls: seq<Poll>, takes: seq<Transfer>, gives: seq<Transfer>, recvs: seq<Transfer>, sends: seq<Transfer>,
    fromServer: seq<Byte>, pipe: seq<Byte>, toClient: seq<Byte>, fromClient: seq<Byte>, toServer: seq<Byte>,
    trace: seq<Event>)

  /** The number of bytes moved when there are `avail`. */
  function Moved(t: Transfer, avail: nat): nat {
    match t
    case Whole => avail
    case AtMost(n) => Min(n, avail)
    case Failed(_) => 0
  }

  function Returned(t: Transfer, avail: nat): Return {
    if t.Failed? then Error(t.errno) else Moves(Moved(t, avail))
  }

  /** The int that a transfer returns in the program. */
  function Int(r: Return): int {
    if r.Moves? then r.n else -1
  }

  // -------------------------------------------------------------- system calls

  function Waited(w: World, at: Place): World
    requires w.polls != []
  {
    w.(polls := w.polls[1..], trace := w.trace + [Polled(at, w.polls[0])])
  }

  /** splice from the server socket into the pipe. */
  function Taken(w: World, len: nat): World
    requires w.takes != []
  {
    var n := Moved(w.takes[0], Min(len, |w.fromServer|));
    w.(takes := w.takes[1..], fromServer := w.fromServer[n..], pipe := w.pipe + w.fromServer[..n],
       trace := w.trace + [Took(Returned(w.takes[0], Min(len, |w.fromServer|)), len)])
  }

  /** splice from the pipe into the client socket. */
  function Given(w: World, len: nat): World
    requires w.gives != []
  {
    var n := Moved(w.gives[0], Min(len, |w.pipe|));
    w.(gives := w.gives[1..], pipe := w.pipe[n..], toClient := w.toClient + w.pipe[..n],
       trace := w.trace + [Gave(Returned(w.gives[0], Min(len, |w.pipe|)), len)])
  }

  /** recv from the client socket. */
  function Read(w: World, cap: nat): World
    requires w.recvs != []
  {
    var n := Moved(w.recvs[0], Min(cap, |w.fromClient|));
    w.(recvs := w.recvs[1..], fromClient := w.fromClient[n..],
       trace := w.trace + [Recvd(Returned(w.recvs[0], Min(cap, |w.fromClient|)), cap)])
  }

  /** send to the server socket. */
  function Written(w: World, buf: seq<Byte>): World
    requires w.sends != []
  {
    var n := Moved(w.sends[0], |buf|);
    w.(sends := w.sends[1..], toServer := w.toServer + buf[..n],
       trace := w.trace + [Sent(Returned(w.sends[0], |buf|), |buf|)])
  }

  class Kernel {
    var w: World

    constructor (w: World)
      ensures this.w == w
    {
      this.w := w;
    }

    method Poll(at: Place) returns (p: Poll)
      requires w.polls != []
      modifies this
      ensures p == old(w.polls[0]) && w == Waited(old(w), at)
    {
      p := w.polls[0];
      w := Waited(w, at);
    }

    method SpliceIn(len: nat) returns (ret: Return)
      requires w.takes != []
      modifies this
      ensures w == Taken(old(w), len) && ret == Returned(old(w.takes[0]), Min(len, |old(w.fromServer)|))
    {
      ret := Returned(w.takes[0], Min(len, |w.fromServer|));
      w := Taken(w, len);
    }

    method SpliceOut(len: nat) returns (ret: Return)
      requires w.gives != []
      modifies this
      ensures w == Given(old(w), len) && ret == Returned(old(w.gives[0]), Min(len, |old(w.pipe)|))
    {
      ret := Returned(w.gives[0], Min(len, |w.pipe|));
      w := Given(w, len);
    }

    method Recv(cap: nat) returns (ret: Return, buf: seq<Byte>)
      requires w.recvs != []
      modifies this
      ensures w == Read(old(w), cap) && ret == Returned(old(w.recvs[0]), Min(cap, |old(w.fromClient)|))
      ensures buf == old(w.fromClient)[..Moved(old(w.recvs[0]), Min(cap, |old(w.fromClient)|))]
    {
      ret := Returned(w.recvs[0], Min(cap, |w.fromClient|));
      buf := w.fromClient[..Moved(w.recvs[0], Min(cap, |w.fromClient|))];
      w := Read(w, cap);
    }

    method Send(buf: seq<Byte>) returns (ret: Return)
      requires w.sends != []
      modifies this
      ensures w == Written(old(w), buf) && ret == Returned(old(w.sends[0]), |buf|)
    {
      ret := Returned(w.sends[0], |buf|);
      w := Written(w, buf);
    }
  }

  // ---------------------------------------------------------- server to client

  /** splice_with_poll, as a function of the world. */
  function PipeToClient(w: World, len: nat): (res: (World, Option<int>))
    ensures res.0.takes == w.takes && |res.0.polls| <= |w.polls|
    decreases |w.polls|
  {
    if w.polls == [] then (w, None)
    else
      var p, w1 := w.polls[0], Waited(w, Client);
      if p.ret < 0 then (if p.errno == EINTR then PipeToClient(w1, len) else (w1, Some(-1)))
      else if p.ret == 0 then (w1, Some(-1))
      else if !p.ready then PipeToClient(w1, len)
      else if w1.gives == [] then (w1, None)
      else
        (Given(w1, len), Some(Int(Returned(w1.gives[0], Min(len, |w1.pipe|)))))
  }

  /** make_splice, as a function of the world. */
  function Splicing(w: World, len: nat): (res: (World, Option<int>))
    ensures |res.0.polls| <= |w.polls| && (res.1.Some? ==> res.1.value in {-1, 0, 1})
    decreases |w.takes|
  {
    if w.takes == [] then (w, None)
    else
      var t, w1 := w.takes[0], Taken(w, len);
      if t.Failed? then (w1, Some(if t.errno == EAGAIN then 1 else -1))
      else if Moved(t, Min(len, |w.fromServer|)) == 0 then (w1, Some(0))
      else
        var (w2, r) := PipeToClient(w1, len);
        if r == None then (w2, None)
        else if r.value < 0 then (w2, Some(-1))
        else if r.value == 0 then (w2, Some(0))
        else Splicing(w2, len)
  }

  method SpliceWithPoll(k: Kernel, len: nat) returns (r: Option<int>)
    modifies k
    ensures (k.w, r) == PipeToClient(old(k.w), len)
  {
    while k.w.polls != []
      invariant PipeToClient(k.w, len) == PipeToClient(old(k.w), len)
      decreases |k.w.polls|
    {
      var p := k.Poll(Client);
      if p.ret < 0 {
        if p.errno != EINTR {
          return Some(-1);
        }
      } else if p.ret == 0 {
        return Some(-1);
      } else if p.ready {
        if k.w.gives == [] {
          return None;
        }
        var ret := k.SpliceOut(len);
        return Some(Int(ret));
      }
    }
    r := None;
  }

  method MakeSplice(k: Kernel, pipeGiven: bool, len: nat) returns (r: Option<int>)
    modifies k
    ensures !pipeGiven ==> r == Some(-1) && k.w == old(k.w)
    ensures pipeGiven ==> (k.w, r) == Splicing(old(k.w), len)
  {
    if !pipeGiven {
      return Some(-1);
    }
    while k.w.takes != []
      invariant Splicing(k.w, len) == Splicing(old(k.w), len)
      decreases |k.w.takes|
    {
      var ret := k.SpliceIn(len);
      if ret.Error? {
        return Some(if ret.errno == EAGAIN then 1 else -1);
      } else if ret.n == 0 {
        return Some(0);
      }
      var out := SpliceWithPoll(k, len);
      if out == None {
        return None;
      } else if out.value < 0 {
        return Some(-1);
      } else if out.value == 0 {
        return Some(0);
      }
    }
    r := None;
  }

  /** All bytes of the server, in the order they will reach the client. */
  function Downstream(w: World): seq<Byte> {
    w.toClient + w.pipe + w.fromServer
  }

  predicate SameUp(w: World, w': World) {
    w'.fromClient == w.fromClient && w'.toServer == w.toServer
  }

  predicate SameDown(w: World, w': World) {
    w'.fromServer == w.fromServer && w'.pipe == w.pipe && w'.toClient == w.toClient && w'.gives == w.gives
  }

  /** A result n >= 0 moved exactly the first n bytes of the pipe to the client, any
      other result moved none. */
  lemma {:induction false} PipeToClientMoves(w: World, len: nat)
    ensures var (w', r) := PipeToClient(w, len);
            var n := if r.Some? && r.value > 0 then r.value else 0;
            && (r.Some? ==> -1 <= r.value <= |w.pipe|)
            && n <= |w.pipe| && w'.toClient == w.toClient + w.pipe[..n] && w'.pipe == w.pipe[n..]
            && w'.fromServer == w.fromServer && SameUp(w, w')
            && (w'.gives == w.gives || (w.gives != [] && w'.gives == w.gives[1..]))
            && (r.Some? && r.value >= 0 ==>
                  && w.gives != [] && !w.gives[0].Failed? && w'.gives == w.gives[1..]
                  && n == Moved(w.gives[0], Min(len, |w.pipe|)))
    decreases |w.polls|
  {
    if w.polls == [] {
    } else {
      PipeToClientMoves(Waited(w, Client), len);
    }
  }

  lemma TakenConserves(w: World, len: nat)
    requires w.takes != []
    ensures Downstream(Taken(w, len)) == Downstream(w)
  {
    var n := Moved(w.takes[0], Min(len, |w.fromServer|));
    assert w.fromServer == w.fromServer[..n] + w.fromServer[n..];
  }

  lemma PipeToClientConserves(w: World, len: nat)
    ensures var w' := PipeToClient(w, len).0;
            Downstream(w') == Downstream(w) && w.toClient <= w'.toClient
  {
    PipeToClientMoves(w, len);
    var (w', r) := PipeToClient(w, len);
    var n := if r.Some? && r.value > 0 then r.value else 0;
    MovedOver(w.toClient, w.pipe, n);
  }

  lemma MovedOver(done: seq<Byte>, left: seq<Byte>, n: nat)
    requires n <= |left|
    ensures done + left[..n] + left[n..] == done + left
  {
    assert left == left[..n] + left[n..];
  }

  /** Byte conservation: whatever the kernel answers, the bytes delivered, then those in
      the pipe, then those not yet taken, are the server's bytes in order. */
  lemma {:induction false} SplicingConserves(w: World, len: nat)
    ensures var w' := Splicing(w, len).0;
            Downstream(w') == Downstream(w) && w.toClient <= w'.toClient && SameUp(w, w')
    decreases |w.takes|
  {
    if w.takes == [] {
    } else {
      var w1 := Taken(w, len);
      var w2 := PipeToClient(w1, len).0;
      TakenConserves(w, len);
      PipeToClientMoves(w1, len);
      PipeToClientConserves(w1, len);
      SplicingConserves(w2, len);
    }
  }

  /** Answers are used up from the front of the script. */
  predicate UsedUp<T(==)>(before: seq<T>, after: seq<T>) {
    |after| <= |before| && after == before[|before| - |after|..]
  }

  lemma {:induction false} SplicingUses(w: World, len: nat)
    ensures UsedUp(w.gives, Splicing(w, len).0.gives)
    decreases |w.takes|
  {
    if w.takes == [] {
    } else {
      var w1 := Taken(w, len);
      var w2 := PipeToClient(w1, len).0;
      PipeToClientMoves(w1, len);
      assert UsedUp(w.gives, w1.gives) && UsedUp(w1.gives, w2.gives);
      SplicingUses(w2, len);
      UsedUpLonger(w1.gives, w2.gives, Splicing(w2, len).0.gives);
    }
  }

  /** Room for fewer bytes than a splice may have to move. */
  predicate Partial(t: Transfer, len: nat) {
    t.AtMost? && t.n < len
  }

  /** No answer of the client socket before its first error is partial. */
  predicate Delivering(gives: seq<Transfer>, len: nat) {
    gives == [] || gives[0].Failed? || (!Partial(gives[0], len) && Delivering(gives[1..], len))
  }

  /** If every splice to the client moves all that is in the pipe, then a result of 0 or
      1 leaves the pipe empty: everything taken was delivered. */
  lemma {:induction false} SplicingDrains(w: World, len: nat)
    requires w.pipe == [] && Delivering(w.gives, len)
    requires var r := Splicing(w, len).1; r.Some? && r.value >= 0
    ensures Splicing(w, len).0.pipe == [] && Delivering(Splicing(w, len).0.gives, len)
    decreases |w.takes|
  {
    if w.takes[0].Failed? || Moved(w.takes[0], Min(len, |w.fromServer|)) == 0 {
    } else {
      var w1 := Taken(w, len);
      var (w2, r) := PipeToClient(w1, len);
      PipeToClientMoves(w1, len);
      assert 0 < |w1.pipe| <= len && r.value == |w1.pipe| && w2.pipe == [];
      SplicingDrains(w2, len);
    }
  }

  // ---------------------------------------------------------- client to server

  /** tcp_send_data_with_poll, as a function of the world. */
  function Sending(w: World, buf: seq<Byte>, sent: nat): (res: (World, Option<int>))
    requires sent <= |buf|
    ensures res.0.recvs == w.recvs && |res.0.polls| <= |w.polls|
    decreases |w.polls|
  {
    if sent == |buf| then (w, Some(sent))
    else if w.polls == [] then (w, None)
    else
      var p, w1 := w.polls[0], Waited(w, Server);
      if p.ret < 0 then (if p.errno == EINTR then Sending(w1, buf, sent) else (w1, Some(-1)))
      else if p.ret == 0 then (w1, Some(-1))
      else if !p.ready then Sending(w1, buf, sent)
      else if w1.sends == [] then (w1, None)
      else
        var t, w2 := w1.sends[0], Written(w1, buf[sent..]);
        if t.Failed? && t.errno != EINTR then (w2, Some(-1)) else Sending(w2, buf, sent + Moved(t, |buf| - sent))
  }

  /** proxy_recv_and_send, as a function of the world. */
  function Relaying(w: World): (res: (World, Option<int>))
    ensures |res.0.polls| <= |w.polls|
    decreases |w.recvs|
  {
    if w.recvs == [] then (w, None)
    else
      var t := w.recvs[0];
      var n := Moved(t, Min(MAX_LENGTH, |w.fromClient|));
      var w1 := Read(w, MAX_LENGTH);
      if t.Failed? then (w1, Some(if t.errno == EAGAIN then 1 else -1))
      else if n == 0 then (w1, Some(0))
      else
        var (w2, r) := Sending(w1, w.fromClient[..n], 0);
        if r == None then (w2, None)
        else if r.value < 0 then (w2, Some(r.value))
        else Relaying(w2)
  }

  method SendWithPoll(k: Kernel, buf: seq<Byte>) returns (r: Option<int>)
    modifies k
    ensures (k.w, r) == Sending(old(k.w), buf, 0)
  {
    var sent := 0;
    while sent < |buf|
      invariant 0 <= sent <= |buf| && Sending(k.w, buf, sent) == Sending(old(k.w), buf, 0)
      decreases |k.w.polls|
    {
      if k.w.polls == [] {
        return None;
      }
      var p := k.Poll(Server);
      if p.ret < 0 {
        if p.errno != EINTR {
          return Some(-1);
        }
      } else if p.ret == 0 {
        return Some(-1);
      } else if p.ready {
        if k.w.sends == [] {
          return None;
        }
        var ret := k.Send(buf[sent..]);
        if ret.Moves? {
          sent := sent + ret.n;
        } else if ret.errno != EINTR {
          return Some(-1);
        }
      }
    }
    r := Some(sent);
  }

  method RecvAndSend(k: Kernel) returns (r: Option<int>)
    modifies k
    ensures (k.w, r) == Relaying(old(k.w))
  {
    while k.w.recvs != []
      invariant Relaying(k.w) == Relaying(old(k.w))
      decreases |k.w.recvs|
    {
      var ret, buf := k.Recv(MAX_LENGTH);
      if ret.Error? {
        return Some(if ret.errno == EAGAIN then 1 else -1);
      } else if ret.n == 0 {
        return Some(0);
      }
      var sent := SendWithPoll(k, buf);
      if sent == None || sent.value < 0 {
        return sent;
      }
    }
    r := None;
  }

  /** Some first part of `rest` was sent on top of `before`. */
  predicate SentMore(before: seq<Byte>, after: seq<Byte>, rest: seq<Byte>) {
    before <= after <= before + rest
  }

  lemma SentNone(before: seq<Byte>, rest: seq<Byte>)
    ensures SentMore(before, before, rest)
  {
  }

  lemma SentOneMore(before: seq<Byte>, after: seq<Byte>, buf: seq<Byte>, sent: nat, n: nat)
    requires sent + n <= |buf| && SentMore(before + buf[sent..][..n], after, buf[sent + n..])
    ensures SentMore(before, after, buf[sent..])
    ensures before + buf[sent..][..n] + buf[sent + n..] == before + buf[sent..]
  {
    assert buf[sent..][n..] == buf[sent + n..];
    MovedOver(before, buf[sent..], n);
  }

  /** The bytes from `sent` on: all of them sent on success, else a first part. */
  lemma {:induction false} SendingSendsMore(w: World, buf: seq<Byte>, sent: nat)
    requires sent <= |buf|
    ensures var (w', r) := Sending(w, buf, sent);
            && SentMore(w.toServer, w'.toServer, buf[sent..])
            && (r.Some? ==> r.value == -1 || r.value == |buf|)
            && (r == Some(|buf|) ==> w'.toServer == w.toServer + buf[sent..])
    decreases |w.polls|
  {
    SentNone(w.toServer, buf[sent..]);
    if sent == |buf| || w.polls == [] {
    } else {
      var p, w1 := w.polls[0], Waited(w, Server);
      if p.ret <= 0 || !p.ready {
        SendingSendsMore(w1, buf, sent);
      } else if w.sends != [] {
        var t := w.sends[0];
        var n := Moved(t, |buf| - sent);
        var w2 := Written(w1, buf[sent..]);
        if t.Failed? && t.errno != EINTR {
          assert Sending(w, buf, sent) == (w2, Some(-1)) && w2.toServer == w.toServer;
        } else {
          assert Sending(w, buf, sent) == Sending(w2, buf, sent + n);
          SendingSendsMore(w2, buf, sent + n);
          SentOneMore(w.toServer, Sending(w2, buf, sent + n).0.toServer, buf, sent, n);
        }
      }
    }
  }

  lemma {:induction false} SendingKeeps(w: World, buf: seq<Byte>, sent: nat)
    requires sent <= |buf|
    ensures var w' := Sending(w, buf, sent).0;
            w'.fromClient == w.fromClient && SameDown(w, w')
    decreases |w.polls|
  {
    if sent == |buf| || w.polls == [] {
    } else {
      var w1 := Waited(w, Server);
      SendingKeeps(w1, buf, sent);
      if w.sends != [] {
        SendingKeeps(Written(w1, buf[sent..]), buf, sent + Moved(w.sends[0], |buf| - sent));
      }
    }
  }

  /** Success means that the whole buffer was sent once and in order, anything else that
      a prefix of it was. */
  lemma SendingSends(w: World, buf: seq<Byte>)
    ensures var (w', r) := Sending(w, buf, 0);
            && w.toServer <= w'.toServer <= w.toServer + buf
            && (r.Some? ==> r.value == -1 || r.value == |buf|)
            && (r == Some(|buf|) ==> w'.toServer == w.toServer + buf)
            && w'.fromClient == w.fromClient && SameDown(w, w')
  {
    SendingSendsMore(w, buf, 0);
    SendingKeeps(w, buf, 0);
    assert buf[0..] == buf;
  }

  /** The first bytes of the client, as many as have been received. */
  function Received(w: World, w': World): seq<Byte>
    requires |w'.fromClient| <= |w.fromClient|
  {
    w.fromClient[..|w.fromClient| - |w'.fromClient|]
  }

  /** At every instant what was sent to the server is a prefix of what was received from
      the client. A result of 0 or 1 means that all of it was sent. */
  lemma {:induction false} RelayingForwards(w: World)
    ensures Forwarded(w, Relaying(w).0, Relaying(w).1)
    decreases |w.recvs|
  {
    if w.recvs == [] {
    } else {
      var n := Moved(w.recvs[0], Min(MAX_LENGTH, |w.fromClient|));
      var w1 := Read(w, MAX_LENGTH);
      var buf := w.fromClient[..n];
      if w.recvs[0].Failed? || n == 0 {
      } else {
        var (w2, r) := Sending(w1, buf, 0);
        SendingSends(w1, buf);
        if r.Some? && r.value >= 0 {
          RelayingForwards(w2);
          ForwardedLonger(w, w2, Relaying(w2).0, Relaying(w2).1, n);
        }
      }
    }
  }

  ghost predicate Forwarded(w: World, w': World, r: Option<int>) {
    && (r.Some? ==> r.value in {-1, 0, 1})
    && UsedUp(w.fromClient, w'.fromClient)
    && w.toServer <= w'.toServer <= w.toServer + Received(w, w')
    && (r.Some? && r.value >= 0 ==> w'.toServer == w.toServer + Received(w, w'))
    && SameDown(w, w')
  }

  lemma ForwardedLonger(w: World, w2: World, w': World, r: Option<int>, n: nat)
    requires n <= |w.fromClient| && w2.fromClient == w.fromClient[n..] && SameDown(w, w2)
    requires w2.toServer == w.toServer + w.fromClient[..n] && Forwarded(w2, w', r)
    ensures Forwarded(w, w', r)
  {
    ReceivedMore(w, w2, w', n);
  }

  lemma UsedUpLonger<T>(a: seq<T>, b: seq<T>, c: seq<T>)
    requires UsedUp(a, b) && UsedUp(b, c)
    ensures UsedUp(a, c)
  {
  }

  lemma ReceivedMore(w: World, w2: World, w': World, n: nat)
    requires n <= |w.fromClient| && w2.fromClient == w.fromClient[n..] && UsedUp(w2.fromClient, w'.fromClient)
    requires w2.toServer == w.toServer + w.fromClient[..n]
    ensures UsedUp(w.fromClient, w'.fromClient)
    ensures w.toServer + Received(w, w') == w2.toServer + Received(w2, w')
  {
    UsedUpLonger(w.fromClient, w2.fromClient, w'.fromClient);
    var m := |w.fromClient| - |w'.fromClient|;
    assert m - n == |w2.fromClient| - |w'.fromClient|;
    FirstParts(w.toServer, w.fromClient, n, m);
  }

  lemma FirstParts(before: seq<Byte>, s: seq<Byte>, n: nat, m: nat)
    requires n <= m <= |s|
    ensures before + s[..m] == before + s[..n] + s[n..][..m - n]
  {
    assert s[..m] == s[..n] + s[n..][..m - n];
  }

  // ------------------------------------------------------------ both directions

  /** proxy_poll_and_tunnel after its pipe was made, as a function of the world. */
  function Tunnelling(w: World, len: nat): (res: (World, Option<int>))
    ensures res.1.Some? ==> res.1.value in {-1, 0}
    decreases |w.polls|
  {
    if w.polls == [] then (w, None)
    else
      var p, w1 := w.polls[0], Waited(w, Ends);
      if p.ret <= 0 then (w1, Some(-1))
      else if !p.ready && !p.ready2 then Tunnelling(w1, len)
      else
        var (w2, r) := if p.ready then Relaying(w1) else Splicing(w1, len);
        if r == None then (w2, None)
        else if r.value < 0 then (w2, Some(-1))
        else if r.value == 0 then (w2, Some(0))
        else Tunnelling(w2, len)
  }

  method PollAndTunnel(k: Kernel, pipeMade: bool, len: nat) returns (r: Option<int>)
    modifies k
    ensures !pipeMade ==> r == Some(-1) && k.w == old(k.w)
    ensures pipeMade ==> (k.w, r) == Tunnelling(old(k.w), len)
  {
    if !pipeMade {
      return Some(-1);
    }
    while k.w.polls != []
      invariant Tunnelling(k.w, len) == Tunnelling(old(k.w), len)
      decreases |k.w.polls|
    {
      var p := k.Poll(Ends);
      if p.ret <= 0 {
        return Some(-1);
      }
      var out := Some(1);
      if p.ready {
        out := RecvAndSend(k);
      } else if p.ready2 {
        out := MakeSplice(k, true, len);
      }
      if out == None {
        return None;
      } else if out.value < 0 {
        return Some(-1);
      } else if out.value == 0 {
        return Some(0);
      }
    }
    r := None;
  }

  /** Both directions conserve their bytes; when `idle`, everything received from the
      client has also been sent. */
  ghost predicate Tunnelled(w: World, w': World, idle: bool) {
    && Downstream(w') == Downstream(w) && w.toClient <= w'.toClient
    && UsedUp(w.fromClient, w'.fromClient) && UsedUp(w.gives, w'.gives)
    && w.toServer <= w'.toServer <= w.toServer + Received(w, w')
    && (idle ==> w'.toServer == w.toServer + Received(w, w'))
  }

  /** The whole tunnel conserves the bytes of both directions at every instant, and after
      an orderly end (0) everything received from the client has been sent. */
  lemma {:induction false} TunnellingConserves(w: World, len: nat)
    ensures Tunnelled(w, Tunnelling(w, len).0, Tunnelling(w, len).1 == Some(0))
    decreases |w.polls|
  {
    if w.polls == [] || w.polls[0].ret <= 0 {
    } else {
      var p, w1 := w.polls[0], Waited(w, Ends);
      if !p.ready && !p.ready2 {
        TunnellingConserves(w1, len);
      } else {
        var (w2, r) := if p.ready then Relaying(w1) else Splicing(w1, len);
        OneDirection(w1, len, p.ready);
        if r == Some(1) {
          TunnellingConserves(w2, len);
          TunnelledLonger(w1, w2, Tunnelling(w2, len).0, Tunnelling(w2, len).1 == Some(0));
        }
      }
      PollsAside(w, w1, Tunnelling(w, len).0, Tunnelling(w, len).1 == Some(0));
    }
  }

  lemma PollsAside(w: World, w1: World, w': World, idle: bool)
    requires w1 == w.(polls := w1.polls, trace := w1.trace) && Tunnelled(w1, w', idle)
    ensures Tunnelled(w, w', idle)
  {
  }

  /** Serving one direction leaves the other alone. */
  lemma OneDirection(w: World, len: nat, up: bool)
    ensures var (w', r) := if up then Relaying(w) else Splicing(w, len);
            Tunnelled(w, w', r.Some? && r.value >= 0) && (r.Some? ==> r.value in {-1, 0, 1})
  {
    if up {
      RelayingForwards(w);
    } else {
      SplicingConserves(w, len);
      SplicingUses(w, len);
    }
  }

  lemma TunnelledLonger(w: World, w2: World, w': World, idle: bool)
    requires Tunnelled(w, w2, true) && Tunnelled(w2, w', idle)
    ensures Tunnelled(w, w', idle)
  {
    assert Received(w, w') == Received(w, w2) + Received(w2, w');
    assert w.toServer + Received(w, w') == w2.toServer + Received(w2, w');
  }

  /** A run from an empty pipe with an orderly end leaves nothing in the pipe: every
      byte taken from the server was delivered. */
  ghost predicate Delivered(w: World, len: nat) {
    w.pipe == [] && Tunnelling(w, len).1 == Some(0) ==> Tunnelling(w, len).0.pipe == []
  }

  lemma {:induction false} TunnellingDrains(w: World, len: nat)
    requires Delivering(w.gives, len)
    ensures Delivered(w, len)
    decreases |w.polls|
  {
    if w.polls == [] || w.polls[0].ret <= 0 || w.pipe != [] {
    } else {
      var p, w1 := w.polls[0], Waited(w, Ends);
      if !p.ready && !p.ready2 {
        TunnellingDrains(w1, len);
      } else {
        var (w2, r) := if p.ready then Relaying(w1) else Splicing(w1, len);
        if r.Some? && r.value >= 0 {
          DirectionDrains(w1, len, p.ready);
          TunnellingDrains(w2, len);
        }
      }
    }
  }

  lemma DirectionDrains(w: World, len: nat, up: bool)
    requires w.pipe == [] && Delivering(w.gives, len)
    requires var r := (if up then Relaying(w) else Splicing(w, len)).1; r.Some? && r.value >= 0
    ensures var w' := (if up then Relaying(w) else Splicing(w, len)).0;
            w'.pipe == [] && Delivering(w'.gives, len)
  {
    if up {
      RelayingForwards(w);
    } else {
      SplicingDrains(w, len);
    }
  }

  /** An orderly end means delivery exactly when the client socket never accepts only
      part of the pipe before its first error: with any other answers of that socket
      there are a server and a kernel for which bytes stay in the pipe. */
  lemma DeliveredIff(gives: seq<Transfer>, len: nat)
    ensures (forall w: World :: w.gives == gives ==> Delivered(w, len)) <==> Delivering(gives, len)
  {
    if Delivering(gives, len) {
      forall w: World | w.gives == gives ensures Delivered(w, len) {
        TunnellingDrains(w, len);
      }
    } else {
      var p := Poll(1, OtherError, false, true);
      var w1 := LossyWorld(gives, len, [], [Polled(Ends, p)]);
      var w := w1.(polls := [p] + w1.polls, trace := []);
      assert Waited(w, Ends) == w1;
      assert !Delivered(w, len);
    }
  }

  const WRITABLE: Poll := Poll(1, OtherError, true, false)

  /** A world in which make_splice returns 0 and leaves bytes in the pipe. */
  lemma {:induction false} LossyWorld(gives: seq<Transfer>, len: nat, toClient: seq<Byte>, trace: seq<Event>)
    returns (w: World)
    requires !Delivering(gives, len)
    ensures len > 0 && w.gives == gives && w.pipe == [] && w.toClient == toClient && w.trace == trace
    ensures Splicing(w, len).1 == Some(0) && Splicing(w, len).0.pipe != []
    decreases |gives|
  {
    if Partial(gives[0], len) {
      var n := gives[0].n;
      var bytes := seq(n + 1, _ => 0);
      w := World([WRITABLE], [Whole, Whole], gives, [], [], bytes, [], toClient, [], [], trace);
      var w1 := Taken(w, len);
      assert w1.pipe == bytes && w1.fromServer == [] && w1.takes == [Whole];
      PipeToClientMoves(w1, len);
    } else {
      var calls := [Took(Moves(1), len), Polled(Client, WRITABLE), Gave(Moves(1), len)];
      var rest := LossyWorld(gives[1..], len, toClient + [0], trace + calls);
      w := rest.(polls := [WRITABLE] + rest.polls, takes := [AtMost(1)] + rest.takes, gives := gives,
                 fromServer := [0] + rest.fromServer, toClient := toClient, trace := trace);
      OneByte(w, rest, len);
    }
  }

  /** One byte through the pipe, by the first answers of each script. */
  lemma OneByte(w: World, rest: World, len: nat)
    requires len > 0 && w.gives != [] && !w.gives[0].Failed? && !Partial(w.gives[0], len)
    requires rest.gives == w.gives[1..] && rest.pipe == [] && rest.toClient == w.toClient + [0]
    requires rest.trace == w.trace + [Took(Moves(1), len), Polled(Client, WRITABLE), Gave(Moves(1), len)]
    requires w == rest.(polls := [WRITABLE] + rest.polls, takes := [AtMost(1)] + rest.takes, gives := w.gives,
                        fromServer := [0] + rest.fromServer, toClient := w.toClient, trace := w.trace)
    ensures Splicing(w, len) == Splicing(rest, len)
  {
    var w1 := w.(takes := rest.takes, fromServer := rest.fromServer, pipe := [0], trace := w.trace + [Took(Moves(1), len)]);
    assert Moved(w.takes[0], Min(len, |w.fromServer|)) == 1 && w.takes[1..] == rest.takes;
    assert w.fromServer[1..] == rest.fromServer && w.pipe + w.fromServer[..1] == [0];
    assert Taken(w, len) == w1;
    var w2 := Waited(w1, Client);
    assert w1.polls[0] == WRITABLE && w2.polls == rest.polls;
    assert Moved(w2.gives[0], Min(len, |w2.pipe|)) == 1;
    assert w2.pipe[1..] == [] && w2.toClient + w2.pipe[..1] == rest.toClient;
    assert w2.trace + [Gave(Moves(1), len)] == rest.trace;
    assert Given(w2, len) == rest;
    assert PipeToClient(w1, len) == (rest, Some(1));
  }

  /** The condition is needed. Two bytes are taken from the server, the client socket
      accepts one, and the server closes: the tunnel ends with 0 and the second byte
      still in the pipe that it then closes. */
  lemma PartialSpliceLosesBytes()
    ensures var w := World([Poll(1, OtherError, false, true), WRITABLE],
                           [Whole, Whole], [AtMost(1)], [], [], [7, 8], [], [], [], [], []);
            var (w', r) := Tunnelling(w, 16);
            r == Some(0) && w'.toClient == [7] && w'.pipe == [8] && w'.fromServer == []
  {
    var w := World([Poll(1, OtherError, false, true), WRITABLE],
                   [Whole, Whole], [AtMost(1)], [], [], [7, 8], [], [], [], [], []);
    var w1 := Waited(w, Ends);
    var t1 := Taken(w1, 16);
    assert t1.takes == [Whole] && t1.fromServer == [] && t1.pipe == [7, 8];
    var p1 := Waited(t1, Client);
    var g1 := Given(p1, 16);
    assert g1.pipe == [8] && g1.toClient == [7];
    assert PipeToClient(t1, 16) == (g1, Some(1));
    assert Taken(g1, 16).pipe == [8];
    assert Splicing(g1, 16) == (Taken(g1, 16), Some(0));
    assert Splicing(w1, 16) == Splicing(g1, 16);
  }

  // ------------------------------------------------------- the order of the calls

  /** What the program must do next: make a certain system call, or return. */
  datatype Next =
    | PollEnds | PollClient | PollServer
    | Take | Give | Receive | Send
    | Return(result: int)

  /** What must come after a wait for a socket to become writable: interrupted or woken
      for something else it is repeated; a timeout or an error ends the tunnel. */
  function AfterWait(p: Poll, again: Next, ready: Next): Next {
    if p.ret == 0 || (p.ret < 0 && p.errno != EINTR) then Return(-1)
    else if p.ret < 0 || !p.ready then again
    else ready
  }

  /** The protocol of the tunnel: what must follow each call. A readable client is served
      before a readable server; a socket is served until it would block; whatever is
      taken is passed on before more is taken; a partial send goes on with the rest. */
  function Then(e: Event): Next {
    match e
    case Polled(Ends, p) =>
      if p.ret <= 0 then Return(-1) else if p.ready then Receive else if p.ready2 then Take else PollEnds
    case Polled(Client, p) => AfterWait(p, PollClient, Give)
    case Polled(Server, p) => AfterWait(p, PollServer, Send)
    case Took(Moves(n), _) => if n == 0 then Return(0) else PollClient
    case Gave(Moves(n), _) => if n == 0 then Return(0) else Take
    case Recvd(Moves(n), _) => if n == 0 then Return(0) else PollServer
    case Sent(Moves(n), asked) => if n < asked then PollServer else Receive
    case Took(Error(errno), _) => if errno == EAGAIN then PollEnds else Return(-1)
    case Gave(Error(_), _) => Return(-1)
    case Recvd(Error(errno), _) => if errno == EAGAIN then PollEnds else Return(-1)
    case Sent(Error(errno), _) => if errno == EINTR then PollServer else Return(-1)
  }

  /** Splices ask for `len` bytes, recv for a whole buffer. */
  predicate IsCall(len: nat, e: Event, next: Next) {
    match next
    case PollEnds => e.Polled? && e.at == Ends
    case PollClient => e.Polled? && e.at == Client
    case PollServer => e.Polled? && e.at == Server
    case Take => e.Took? && e.asked == len
    case Give => e.Gave? && e.asked == len
    case Receive => e.Recvd? && e.asked == MAX_LENGTH
    case Send => e.Sent?
    case Return(_) => false
  }

  /** From where `next` was due, each call is the one due. */
  predicate InOrder(len: nat, next: Next, calls: seq<Event>)
    decreases |calls|
  {
    calls == [] || (IsCall(len, calls[0], next) && InOrder(len, Then(calls[0]), calls[1..]))
  }

  /** What is due after the calls. */
  function Due(next: Next, calls: seq<Event>): Next
    decreases |calls|
  {
    if calls == [] then next else Due(Then(calls[0]), calls[1..])
  }

  /** The calls made between two traces were in order, and led from one to the other. */
  ghost predicate Leads(len: nat, a: Next, before: seq<Event>, b: Next, after: seq<Event>) {
    && before <= after
    && InOrder(len, a, after[|before|..])
    && Due(a, after[|before|..]) == b
  }

  /** The script for what is due has ended. */
  predicate Starved(next: Next, w: World) {
    match next
    case PollEnds => w.polls == []
    case PollClient => w.polls == []
    case PollServer => w.polls == []
    case Take => w.takes == []
    case Give => w.gives == []
    case Receive => w.recvs == []
    case Send => w.sends == []
    case Return(_) => false
  }

  lemma {:induction false} OrderAppends(len: nat, a: Next, s: seq<Event>, t: seq<Event>)
    requires InOrder(len, a, s) && InOrder(len, Due(a, s), t)
    ensures InOrder(len, a, s + t) && Due(a, s + t) == Due(Due(a, s), t)
    decreases |s|
  {
    if s == [] {
      assert s + t == t;
    } else {
      assert (s + t)[1..] == s[1..] + t;
      OrderAppends(len, Then(s[0]), s[1..], t);
    }
  }

  lemma LeadsOn(len: nat, a: Next, x: seq<Event>, b: Next, y: seq<Event>, c: Next, z: seq<Event>)
    requires Leads(len, a, x, b, y) && Leads(len, b, y, c, z)
    ensures Leads(len, a, x, c, z)
  {
    OrderAppends(len, a, y[|x|..], z[|y|..]);
    assert y[|x|..] + z[|y|..] == z[|x|..];
  }

  lemma LeadsOne(len: nat, a: Next, x: seq<Event>, e: Event)
    requires IsCall(len, e, a)
    ensures Leads(len, a, x, Then(e), x + [e])
  {
    var calls := (x + [e])[|x|..];
    assert calls == [e] && calls[1..] == [];
  }

  lemma LeadsNone(len: nat, a: Next, x: seq<Event>)
    ensures Leads(len, a, x, a, x)
  {
    assert x[|x|..] == [];
  }

  /** One call, then others. */
  lemma LeadsFrom(len: nat, a: Next, x: seq<Event>, e: Event, c: Next, z: seq<Event>)
    requires IsCall(len, e, a) && Leads(len, Then(e), x + [e], c, z)
    ensures Leads(len, a, x, c, z)
  {
    LeadsOne(len, a, x, e);
    LeadsOn(len, a, x, Then(e), x + [e], c, z);
  }

  /** The socket that a call writes to, or for. */
  function Side(e: Event): Place {
    match e
    case Polled(at, _) => at
    case Took(_, _) => Client
    case Gave(_, _) => Client
    case Recvd(_, _) => Server
    case Sent(_, _) => Server
  }

  /** The last of the calls serves that side, and what is due follows from it. */
  predicate EndsAt(trace: seq<Event>, side: Place, due: Next) {
    trace != [] && Side(trace[|trace| - 1]) == side && Then(trace[|trace| - 1]) == due
  }

  /** splice_with_poll makes its calls in order; a positive result comes with the next
      splice from the server due. */
  lemma {:induction false} PipeToClientCalls(w: World, len: nat) returns (due: Next)
    ensures var (w', r) := PipeToClient(w, len);
            && Leads(len, PollClient, w.trace, due, w'.trace)
            && (w.polls != [] ==> EndsAt(w'.trace, Client, due))
            && (w.polls == [] ==> w'.trace == w.trace && due == PollClient)
            && (match due
                case Return(v) => -1 <= v <= 0 && r == Some(v)
                case Take => r.Some? && r.value > 0
                case _ => (due == PollClient || due == Give) && r == None && Starved(due, w'))
    decreases |w.polls|
  {
    if w.polls == [] {
      due := PollClient;
      LeadsNone(len, due, w.trace);
    } else {
      var p, w1 := w.polls[0], Waited(w, Client);
      due := Then(Polled(Client, p));
      if due == PollClient {
        due := PipeToClientCalls(w1, len);
      } else if due == Give && w1.gives != [] {
        var e := Gave(Returned(w1.gives[0], Min(len, |w1.pipe|)), len);
        due := Then(e);
        LeadsOne(len, Give, w1.trace, e);
      } else {
        LeadsNone(len, due, w1.trace);
      }
      LeadsFrom(len, PollClient, w.trace, Polled(Client, p), due, PipeToClient(w, len).0.trace);
    }
  }

  /** Where a run for one direction stands: it returned; it left the socket drained, with
      1; or its script ended. */
  predicate Settled(due: Next, w': World, r: Option<int>) {
    match due
    case Return(v) => -1 <= v <= 0 && r == Some(v)
    case PollEnds => r == Some(1)
    case _ => r == None && Starved(due, w')
  }

  lemma {:induction false} SplicingCalls(w: World, len: nat) returns (due: Next)
    ensures var (w', r) := Splicing(w, len);
            && Leads(len, Take, w.trace, due, w'.trace) && Settled(due, w', r)
            && (w.takes != [] ==> |w.trace| < |w'.trace| && EndsAt(w'.trace, Client, due))
            && (w.takes == [] ==> w'.trace == w.trace && due == Take)
    decreases |w.takes|
  {
    if w.takes == [] {
      due := Take;
      LeadsNone(len, due, w.trace);
    } else {
      var e, w1 := Took(Returned(w.takes[0], Min(len, |w.fromServer|)), len), Taken(w, len);
      var (w', r) := Splicing(w, len);
      due := Then(e);
      if due == PollClient {
        var (w2, out) := PipeToClient(w1, len);
        due := PipeToClientCalls(w1, len);
        if due == Take {
          assert (w', r) == Splicing(w2, len);
          due := SplicingCalls(w2, len);
          LeadsOn(len, PollClient, w1.trace, Take, w2.trace, due, w'.trace);
        } else {
          assert (w', r) == (w2, out);
        }
      } else {
        assert (w', r) == (w1, Some(if due == PollEnds then 1 else due.result));
        LeadsNone(len, due, w1.trace);
      }
      LeadsFrom(len, Take, w.trace, e, due, w'.trace);
    }
  }

  /** Where tcp_send_data_with_poll stands: with everything sent the next recv is due. */
  predicate SendSettled(due: Next, w': World, r: Option<int>, total: nat) {
    match due
    case Return(v) => v == -1 && r == Some(-1)
    case Receive => r == Some(total)
    case _ => (due == PollServer || due == Send) && r == None && Starved(due, w')
  }

  lemma {:induction false} SendingCalls(len: nat, w: World, buf: seq<Byte>, sent: nat) returns (due: Next)
    requires sent < |buf|
    ensures var (w', r) := Sending(w, buf, sent);
            && Leads(len, PollServer, w.trace, due, w'.trace) && SendSettled(due, w', r, |buf|)
            && (w.polls != [] ==> |w.trace| < |w'.trace| && EndsAt(w'.trace, Server, due))
            && (w.polls == [] ==> w'.trace == w.trace && due == PollServer)
    decreases |w.polls|
  {
    if w.polls == [] {
      due := PollServer;
      LeadsNone(len, due, w.trace);
    } else {
      var p, w1 := w.polls[0], Waited(w, Server);
      var (w', r) := Sending(w, buf, sent);
      due := Then(Polled(Server, p));
      if due == PollServer {
        assert (w', r) == Sending(w1, buf, sent);
        due := SendingCalls(len, w1, buf, sent);
      } else if due == Send && w1.sends != [] {
        var n, w2 := Moved(w1.sends[0], |buf| - sent), Written(w1, buf[sent..]);
        var e := Sent(Returned(w1.sends[0], |buf| - sent), |buf| - sent);
        assert w2.trace == w1.trace + [e];
        due := Then(e);
        if due == PollServer {
          assert (w', r) == Sending(w2, buf, sent + n);
          due := SendingCalls(len, w2, buf, sent + n);
        } else {
          assert (w', r) == (w2, Some(if due == Receive then |buf| else -1));
          LeadsNone(len, due, w2.trace);
        }
        LeadsFrom(len, Send, w1.trace, e, due, w'.trace);
      } else {
        assert (w', r) == (w1, if due == Send then None else Some(-1));
        LeadsNone(len, due, w1.trace);
      }
      LeadsFrom(len, PollServer, w.trace, Polled(Server, p), due, w'.trace);
    }
  }

  lemma {:induction false} RelayingCalls(len: nat, w: World) returns (due: Next)
    ensures var (w', r) := Relaying(w);
            && Leads(len, Receive, w.trace, due, w'.trace) && Settled(due, w', r)
            && (w.recvs != [] ==> |w.trace| < |w'.trace| && EndsAt(w'.trace, Server, due))
            && (w.recvs == [] ==> w'.trace == w.trace && due == Receive)
    decreases |w.recvs|
  {
    if w.recvs == [] {
      due := Receive;
      LeadsNone(len, due, w.trace);
    } else {
      var n := Moved(w.recvs[0], Min(MAX_LENGTH, |w.fromClient|));
      var e, w1 := Recvd(Returned(w.recvs[0], Min(MAX_LENGTH, |w.fromClient|)), MAX_LENGTH), Read(w, MAX_LENGTH);
      var w' := Relaying(w).0;
      due := Then(e);
      if due == PollServer {
        var w2 := Sending(w1, w.fromClient[..n], 0).0;
        due := SendingCalls(len, w1, w.fromClient[..n], 0);
        if due == Receive {
          due := RelayingCalls(len, w2);
          LeadsOn(len, PollServer, w1.trace, Receive, w2.trace, due, w'.trace);
        }
      } else {
        LeadsNone(len, due, w1.trace);
      }
      LeadsFrom(len, Receive, w.trace, e, due, w'.trace);
    }
  }

  /** Serving the one side or the other. */
  lemma ServingCalls(len: nat, w: World, first: Next) returns (due: Next)
    requires first == Receive || first == Take
    ensures var (w', r) := if first == Receive then Relaying(w) else Splicing(w, len);
            Leads(len, first, w.trace, due, w'.trace) && Settled(due, w', r)
  {
    if first == Receive {
      due := RelayingCalls(len, w);
    } else {
      due := SplicingCalls(w, len);
    }
  }

  lemma {:induction false} TunnellingCalls(w: World, len: nat) returns (due: Next)
    ensures var (w', r) := Tunnelling(w, len);
            && Leads(len, PollEnds, w.trace, due, w'.trace)
            && (if due.Return? then r == Some(due.result) else r == None && Starved(due, w'))
    decreases |w.polls|
  {
    if w.polls == [] {
      due := PollEnds;
      LeadsNone(len, due, w.trace);
    } else {
      var p, w1 := w.polls[0], Waited(w, Ends);
      var (w', r) := Tunnelling(w, len);
      due := Then(Polled(Ends, p));
      if due == PollEnds {
        assert (w', r) == Tunnelling(w1, len);
        due := TunnellingCalls(w1, len);
      } else if due == Receive || due == Take {
        var first := due;
        var (w2, out) := if p.ready then Relaying(w1) else Splicing(w1, len);
        due := ServingCalls(len, w1, first);
        if due == PollEnds {
          assert (w', r) == Tunnelling(w2, len);
          due := TunnellingCalls(w2, len);
          LeadsOn(len, first, w1.trace, PollEnds, w2.trace, due, w'.trace);
        } else {
          assert (w', r) == (w2, out);
        }
      } else {
        assert (w', r) == (w1, Some(-1));
        LeadsNone(len, due, w1.trace);
      }
      LeadsFrom(len, PollEnds, w.trace, Polled(Ends, p), due, w'.trace);
    }
  }

  /** The calls made between two worlds. */
  function Calls(w: World, w': World): seq<Event>
    requires w.trace <= w'.trace
  {
    w'.trace[|w.trace|..]
  }

  /** The whole tunnel makes exactly the calls of the protocol, in its order, whatever
      they return: it returns where the protocol says so and with that result, and stops
      elsewhere only where the script has ended. */
  lemma TunnelFollowsProtocol(w: World, len: nat)
    ensures var (w', r) := Tunnelling(w, len);
            && w.trace <= w'.trace && InOrder(len, PollEnds, Calls(w, w'))
            && (match Due(PollEnds, Calls(w, w'))
                case Return(v) => r == Some(v)
                case due => r == None && Starved(due, w'))
  {
    var due := TunnellingCalls(w, len);
  }

  /** A readable client is received from at once, and a readable server spliced from if
      the client is not readable. */
  lemma ReadableIsServed(w: World, len: nat)
    requires w.polls != [] && w.polls[0].ret > 0
    requires if w.polls[0].ready then w.recvs != [] else w.polls[0].ready2 && w.takes != []
    ensures var trace := Tunnelling(w, len).0.trace;
            && w.trace + [Polled(Ends, w.polls[0])] < trace
            && var second := trace[|w.trace| + 1];
            if w.polls[0].ready then second.Recvd? else second.Took?
  {
    var p, w1 := w.polls[0], Waited(w, Ends);
    var (w2, r) := if p.ready then Relaying(w1) else Splicing(w1, len);
    var due: Next;
    if p.ready {
      due := RelayingCalls(len, w1);
    } else {
      due := SplicingCalls(w1, len);
    }
    if r == Some(1) {
      var end := TunnellingCalls(w2, len);
    }
    assert w2.trace <= Tunnelling(w, len).0.trace;
    assert IsCall(len, w2.trace[|w1.trace|..][0], if p.ready then Receive else Take);
  }

  /** What the last call on a side says. */
  lemma LastCall(e: Event)
    ensures Side(e) == Client ==> (Then(e) == PollEnds <==> e.Took? && e.ret == Error(EAGAIN))
    ensures Side(e) == Client ==> (Then(e) == Return(0) <==> (e.Took? || e.Gave?) && e.ret == Moves(0))
    ensures Side(e) == Server ==> (Then(e) == PollEnds <==> e.Recvd? && e.ret == Error(EAGAIN))
    ensures Side(e) == Server ==> (Then(e) == Return(0) <==> e.Recvd? && e.ret == Moves(0))
    ensures Side(e) == Server ==> (Then(e) == Receive <==> e.Sent? && e.ret.Moves? && e.ret.n >= e.asked)
  {
  }

  /** The result of serving one side, by the last call: 1 exactly when the socket read
      from would block, 0 exactly when a transfer other than a send moved nothing, and -1
      exactly when that call failed. */
  predicate Explained(side: Place, last: Event, w': World, r: Option<int>) {
    && (r == Some(1) <==> (if side == Client then last.Took? else last.Recvd?) && last.ret == Error(EAGAIN))
    && (r == Some(0) <==> (if side == Client then last.Took? || last.Gave? else last.Recvd?) && last.ret == Moves(0))
    && (r == Some(-1) <==> Then(last) == Return(-1))
    && (r == None ==> Starved(Then(last), w'))
  }

  /** The calls of a run for one side are in order, and its result is explained. */
  predicate RanInOrder(len: nat, first: Next, side: Place, before: seq<Event>, w': World, r: Option<int>) {
    && before < w'.trace && InOrder(len, first, w'.trace[|before|..])
    && Explained(side, w'.trace[|w'.trace| - 1], w', r)
  }

  lemma SettledInOrder(len: nat, first: Next, side: Place, before: seq<Event>, due: Next, w': World, r: Option<int>)
    requires side != Ends && EndsAt(w'.trace, side, due) && Settled(due, w', r)
    requires Leads(len, first, before, due, w'.trace) && |before| < |w'.trace|
    ensures RanInOrder(len, first, side, before, w', r)
  {
    LastCall(w'.trace[|w'.trace| - 1]);
  }

  lemma SplicingResult(w: World, len: nat)
    requires w.takes != []
    ensures var (w', r) := Splicing(w, len); RanInOrder(len, Take, Client, w.trace, w', r)
  {
    var due := SplicingCalls(w, len);
    var (w', r) := Splicing(w, len);
    SettledInOrder(len, Take, Client, w.trace, due, w', r);
  }

  lemma RelayingResult(len: nat, w: World)
    requires w.recvs != []
    ensures var (w', r) := Relaying(w); RanInOrder(len, Receive, Server, w.trace, w', r)
  {
    var due := RelayingCalls(len, w);
    var (w', r) := Relaying(w);
    SettledInOrder(len, Receive, Server, w.trace, due, w', r);
  }

  /** And for tcp_send_data_with_poll: -1 exactly when the last poll timed out or failed,
      or the last send failed, other than by an interrupt; a partial send goes on. */
  lemma SendingResult(len: nat, w: World, buf: seq<Byte>)
    requires buf != [] && w.polls != []
    ensures var (w', r) := Sending(w, buf, 0);
            && w.trace < w'.trace && InOrder(len, PollServer, Calls(w, w'))
            && var last := w'.trace[|w'.trace| - 1];
            && (r == Some(-1) <==> Then(last) == Return(-1))
            && (r == Some(|buf|) <==> last.Sent? && last.ret.Moves? && last.ret.n >= last.asked)
            && (r == None ==> Starved(Then(last), w'))
  {
    var due := SendingCalls(len, w, buf, 0);
    var trace := Sending(w, buf, 0).0.trace;
    LastCall(trace[|trace| - 1]);
  }
}
