/**
 The message pump over its own buffer: a fixed array of pending bytes that waits extend and shorten
 in place, and the loops that scan it and dispatch from it.
 */
module ImApi {
  import opened Basics
  import opened ImClient

  class ImConnection {
    var open: bool
    var active: bool
    const pendingBuf: array<Octet>
    var pendingLen: nat
    var input: seq<Read>
    var count: nat               // messages dispatched so far
    const calls: Callbacks
    ghost var torn: bool
    ghost var slipped: bool
    ghost var sent: seq<Sent>
    ghost var received: seq<Message>
    ghost var dispatched: seq<Message>
    ghost var acked: seq<Message>

    ghost predicate Valid()
      reads this
    {
      pendingBuf.Length == CAPACITY && pendingLen <= CAPACITY && count == |dispatched|
    }

    ghost function State(): Client
      requires Valid()
      reads this, pendingBuf
    {
      Client(open, active, pendingBuf[..pendingLen], input, torn, slipped, sent, received, dispatched, acked)
    }

    constructor (input: seq<Read>, calls: Callbacks)
      ensures Valid() && fresh(pendingBuf) && State() == Start(input) && this.calls == calls
    {
      open, active, pendingLen, count := true, false, 0, 0;
      pendingBuf := new Octet[CAPACITY](_ => 0);
      this.input, this.calls := input, calls;
      torn, slipped, sent, received, dispatched, acked := false, false, [], [], [], [];
    }

    // read(imfd, ..., room): no bytes at the end of the stream, an error or a full buffer.
    method Receive(room: nat) returns (data: seq<Octet>, again: bool)
      requires Valid()
      modifies `input, `received, `torn
      ensures Valid() && again == Retries(old(State()), room)
      ensures again ==> State() == Retry(old(State()))
      ensures data != [] <==> Arrives(old(State()), room)
      ensures data != [] ==> State() == Arrive(old(State())) && data == Flatten(old(input)[0].ms) && |data| <= room
      ensures data == [] && !again ==> State().(open := false) == Hangup(old(State()), room)
    {
      data, again := [], false;
      if open && room > 0 && input != [] {
        match input[0]
        case Again =>
          input, again := input[1..], true;
        case Gone =>
        case Got(ms) =>
          var bytes := Flatten(ms);
          if |bytes| > room {
            torn := true;
          } else if bytes != [] {
            data, input, received := bytes, input[1..], received + ms;
          }
      }
    }

    method MsgLen(at: nat) returns (n: nat)
      requires Valid() && at + HEAD_SIZE <= pendingLen
      ensures n == LenAt(pendingBuf[..pendingLen], at)
    {
      var low: int, high: int := pendingBuf[at + 2], pendingBuf[at + 3];
      n := low + 256 * high;
    }

    method MsgKind(at: nat) returns (n: nat)
      requires Valid() && at + HEAD_SIZE <= pendingLen
      ensures n == KindAt(pendingBuf[..pendingLen], at)
    {
      var low: int, high: int := pendingBuf[at], pendingBuf[at + 1];
      n := low + 256 * high;
    }

    // Appends what was read to the pending bytes.
    method Store(data: seq<Octet>)
      requires Valid() && pendingLen + |data| <= CAPACITY
      modifies pendingBuf, `pendingLen
      ensures Valid() && pendingLen == old(pendingLen) + |data|
      ensures pendingBuf[..pendingLen] == old(pendingBuf[..pendingLen]) + data
    {
      forall i | 0 <= i < |data| {
        pendingBuf[pendingLen + i] := data[i];
      }
      pendingLen := pendingLen + |data|;
    }

    // memcpy of the bytes behind the message at `at` onto it.
    method MoveDown(at: nat, n: nat)
      requires Valid() && at + n <= pendingLen
      modifies pendingBuf
      ensures pendingBuf[..pendingLen] == Moved(old(pendingBuf[..pendingLen]), at, n)
    {
      ghost var b := pendingBuf[..pendingLen];
      forall i | at <= i < pendingLen - n {
        pendingBuf[i] := pendingBuf[i + n];
      }
      assert forall i :: 0 <= i < pendingLen ==> pendingBuf[i] == Moved(b, at, n)[i];
    }

    method Shorten(cur: nat, len: nat)
      requires Valid() && cur + len <= pendingLen && cur + HEAD_SIZE <= pendingLen
      requires LenAt(Moved(pendingBuf[..pendingLen], cur, len), cur) <= pendingLen
      modifies pendingBuf, `pendingLen
      ensures Valid() && pendingBuf[..pendingLen] == Kept(old(pendingBuf[..pendingLen]), cur, len)
    {
      ghost var b := pendingBuf[..pendingLen];
      MoveDown(cur, len);
      var cut := MsgLen(cur);
      assert pendingBuf[..pendingLen - cut] == Moved(b, cur, len)[..pendingLen - cut];
      pendingLen := pendingLen - cut;
    }

    // Takes a message out of the pending bytes.
    method TakeOut(cur: nat, len: nat, ghost m: Message, ghost slips: bool)
      requires Valid() && cur + len <= pendingLen && cur + HEAD_SIZE <= pendingLen
      requires LenAt(Moved(pendingBuf[..pendingLen], cur, len), cur) <= pendingLen
      modifies pendingBuf, `pendingLen, `slipped, `acked
      ensures Valid()
      ensures State() == old(State()).(pending := Kept(old(pendingBuf[..pendingLen]), cur, len),
                                       acked := old(acked) + [m], slipped := old(slipped) || slips)
    {
      Shorten(cur, len);
      acked, slipped := acked + [m], slipped || slips;
    }

    // Looks for the awaited message among those just read.
    method Find(start: nat, kind: nat, ghost ms: seq<Message>) returns (found: bool, cur: nat)
      requires Valid() && start <= pendingLen && pendingBuf[..pendingLen] == pendingBuf[..start] + Flatten(ms)
      ensures found == (IndexOf(ms, kind) < |ms|)
      ensures found ==> cur == start + |Flatten(ms[..IndexOf(ms, kind)])| && cur + HEAD_SIZE <= pendingLen
    {
      found, cur := false, start;
      ghost var pre, j := pendingBuf[..start], 0;
      FirstMessage(ms, start, pendingLen);
      while cur < pendingLen
        invariant Cursor(ms, j, cur, start, pendingLen)
        invariant forall i :: 0 <= i < j ==> ms[i].kind != kind
        decreases pendingLen - cur
      {
        NextMessage(pre, ms, j, cur, pendingLen);
        var len := MsgLen(cur);
        if len > pendingLen - cur {
          break;
        }
        var kindHere := MsgKind(cur);
        if kindHere == kind {
          Found(ms, j, kind);
          return true, cur;
        }
        cur := cur + len;
        j := j + 1;
      }
    }

    method Scan(start: nat, kind: nat, ghost ms: seq<Message>) returns (ack: bool)
      requires Valid() && start <= pendingLen && pendingBuf[..pendingLen] == pendingBuf[..start] + Flatten(ms)
      modifies pendingBuf, `pendingLen, `slipped, `acked
      ensures Valid() && ack == (IndexOf(ms, kind) < |ms|)
      ensures !ack ==> State() == old(State())
      ensures ack ==> State() == Consume(old(State()).(pending := old(pendingBuf[..start])), ms, IndexOf(ms, kind))
    {
      var cur;
      ack, cur := Find(start, kind, ms);
      if ack {
        TakeFound(cur, pendingBuf[..start], ms, IndexOf(ms, kind));
      }
    }

    method TakeFound(cur: nat, ghost pre: seq<Octet>, ghost ms: seq<Message>, ghost k: nat)
      requires Valid() && k < |ms| && pendingBuf[..pendingLen] == pre + Flatten(ms)
      requires cur == |pre| + |Flatten(ms[..k])| && cur + HEAD_SIZE <= pendingLen
      modifies pendingBuf, `pendingLen, `slipped, `acked
      ensures Valid() && State() == Consume(old(State()).(pending := pre), ms, k)
    {
      HeaderAt(pre, ms, k);
      CutFits(pre, ms, k);
      CutToKept(State().(pending := pre), ms, k);
      var len := MsgLen(cur);
      TakeOut(cur, len, ms[k], Slips(ms, k));
    }

    method WaitMessage(kind: nat)
      requires Valid() && open
      modifies this, pendingBuf
      ensures Valid() && State() == Wait(old(State()), kind)
    {
      var ack := false;
      ghost var s0 := State();
      while !ack
        invariant Valid()
        invariant !ack ==> open && Wait(State(), kind) == Wait(s0, kind)
        invariant ack ==> Pinged(State()) == Wait(s0, kind)
        decreases |input| + if ack then 0 else 1
      {
        var gone;
        ack, gone := ReadOnce(kind);
        if gone {
          return;
        }
      }
      if pendingLen > 0 {
        sent := sent + [Ping];
      }
    }

    // One round of the wait.
    method ReadOnce(kind: nat) returns (ack: bool, gone: bool)
      requires Valid() && open
      modifies this, pendingBuf
      ensures Valid() && |input| <= |old(input)|
      ensures gone ==> State() == Wait(old(State()), kind)
      ensures !gone && ack ==> Pinged(State()) == Wait(old(State()), kind)
      ensures !gone && !ack ==> open && |input| < |old(input)| && Wait(State(), kind) == Wait(old(State()), kind)
    {
      ghost var s := State();
      var cur := pendingLen;
      var data, again := Receive(CAPACITY - pendingLen);
      if again {
        return false, false;
      } else if data == [] {
        open := false;
        return false, true;
      }
      ghost var ms := s.input[0].ms;
      Store(data);
      assert pendingBuf[..cur] == s.pending;
      ack := Scan(cur, kind, ms);
      gone := false;
    }

    method SetImWindow(id: nat)
      requires Valid()
      modifies this, pendingBuf
      ensures Valid() && State() == SetWindow(old(State()), id)
    {
      if !open || !active || id >= NR_IM_WINS {
        return;
      }
      sent := sent + [SetWin(id)];
      WaitMessage(ACK_WIN);
    }

    method RunCallback(ids: seq<nat>)
      requires Valid()
      modifies this, pendingBuf
      ensures Valid() && State() == SetWindows(old(State()), ids)
    {
      ghost var s0 := State();
      for i := 0 to |ids|
        invariant Valid() && SetWindows(State(), ids[i..]) == SetWindows(s0, ids)
      {
        assert ids[i..][1..] == ids[i + 1..];
        SetImWindow(ids[i]);
      }
    }

    method ProcessMessage(msg: Message) returns (exit: bool)
      requires Valid()
      modifies this, pendingBuf
      ensures Valid() && State() == Dispatch(old(State()), msg, calls)
      ensures exit == (msg.kind == DISCONNECT)
    {
      exit := false;
      var ids := calls(count);
      dispatched, count := dispatched + [msg], count + 1;
      if msg.kind == DISCONNECT {
        open := false;
        exit := true;
      } else if msg.kind == FBTERM_INFO {
        RunCallback(ids);
      } else if msg.kind == ACTIVE {
        active := true;
        RunCallback(ids);
      } else if msg.kind == DEACTIVE {
        RunCallback(ids);
        active := false;
      } else if msg.kind == HIDE_UI {
        if active {
          RunCallback(ids);
        }
        if open {
          sent := sent + [AckHideUI];
        }
      } else if WhenActive(msg.kind) {
        if active {
          RunCallback(ids);
        }
      }
    }

    ghost predicate Holds(s: Client)
      reads this, pendingBuf
    {
      Valid() && State() == s
    }

    method ProcessMessages(buf: seq<Octet>) returns (exit: bool)
      requires Valid() && Clean(buf)
      modifies this, pendingBuf
      ensures Valid() && State() == DispatchAll(old(State()), Parse(buf), calls)
      ensures exit == Disconnects(Parse(buf))
    {
      ghost var ms := Parse(buf);
      ghost var plan := DispatchPlan(State(), ms, calls);
      ParseStart(buf);
      exit := ProcessAlong(buf, ms, plan);
    }

    // The parsing loop, along the states its messages lead through.
    method ProcessAlong(buf: seq<Octet>, ghost ms: seq<Message>, ghost plan: seq<Client>) returns (exit: bool)
      requires Parsed(buf, 0, ms, 0, false) && Along(plan, ms, calls) && Holds(plan[0])
      modifies this, pendingBuf
      ensures Holds(plan[|ms|]) && exit == Disconnects(ms)
    {
      exit := false;
      var cur, end := 0, |buf|;
      ghost var j := 0;
      while cur < end
        invariant j <= |ms| && Holds(plan[j]) && Parsed(buf, cur, ms, j, exit)
        decreases end - cur
      {
        var cutOff;
        cutOff, cur, exit := ProcessAt(buf, cur, ms, plan, j, exit);
        if cutOff {
          return;
        }
        j := j + 1;
      }
      ParseEnd(buf, ms, j, exit);
    }

    // One round of the loop, unless the message at `cur` is cut off.
    method ProcessAt(buf: seq<Octet>, cur: nat, ghost ms: seq<Message>, ghost plan: seq<Client>, ghost j: nat,
                     exit: bool)
      returns (cutOff: bool, next: nat, exit': bool)
      requires Parsed(buf, cur, ms, j, exit) && cur < |buf| && Along(plan, ms, calls) && Holds(plan[j])
      modifies this, pendingBuf
      ensures cutOff ==> j == |ms| && Holds(plan[j]) && exit' == Disconnects(ms)
      ensures !cutOff ==> j < |ms| && cur < next <= |buf| && Holds(plan[j + 1]) && Parsed(buf, next, ms, j + 1, exit')
    {
      ParseStep(buf, cur, ms, j, exit);
      var len := LenAt(buf, cur);
      if len > |buf| - cur {
        return true, cur, exit;
      }
      var quit := ProcessNext(FrameOf(buf[cur..cur + len]), ms, plan, j);
      return false, cur + len, exit || quit;
    }

    method ProcessNext(msg: Message, ghost ms: seq<Message>, ghost plan: seq<Client>, ghost j: nat) returns (quit: bool)
      requires j < |ms| && msg == ms[j] && Along(plan, ms, calls) && Holds(plan[j])
      modifies this, pendingBuf
      ensures Holds(plan[j + 1]) && quit == (ms[j].kind == DISCONNECT)
    {
      assert DispatchesNext(plan, ms, calls, j);
      quit := ProcessMessage(msg);
    }

    method CheckImMessage() returns (more: bool)
      requires Valid() && Clean(State().pending)
      modifies this, pendingBuf
      ensures Valid() && (State(), more) == Check(old(State()), calls)
    {
      if !open {
        return false;
      }
      var exit := false;
      ghost var s := State();
      if pendingLen > 0 {
        var buf := pendingBuf[..pendingLen];
        pendingLen := 0;
        exit := ProcessMessages(buf);
      }
      ghost var t := State();
      assert t == Drain(s, calls) && exit == Disconnects(Parse(s.pending));
      more := ReadAndProcess(exit);
    }

    // The second half: one read, dispatched at once.
    method ReadAndProcess(exit: bool) returns (more: bool)
      requires Valid()
      modifies this, pendingBuf
      ensures Valid() && (State(), more) == ReadTurn(old(State()), exit, calls)
    {
      ghost var t := State();
      var data, again := Receive(CAPACITY);
      if again {
        return true;
      } else if data == [] {
        open := false;
        return false;
      }
      ParseFlatten(t.input[0].ms);
      FlattenClean(t.input[0].ms);
      var quit := ProcessMessages(data);
      return !(exit || quit);
    }
  }

  lemma {:induction false} Found(ms: seq<Message>, j: nat, kind: nat)
    requires j < |ms| && ms[j].kind == kind && forall i :: 0 <= i < j ==> ms[i].kind != kind
    ensures IndexOf(ms, kind) == j
  {
    if j > 0 {
      Found(ms[1..], j - 1, kind);
    }
  }

  // Message `j` of a batch starts at `cur`, if there is one.
  ghost predicate Cursor(ms: seq<Message>, j: nat, cur: nat, start: nat, end: nat) {
    && j <= |ms| && cur == start + |Flatten(ms[..j])|
    && cur <= end && (j < |ms| <==> cur < end)
    && (cur < end ==> cur + HEAD_SIZE <= end)
  }

  lemma FirstMessage(ms: seq<Message>, start: nat, end: nat)
    requires end == start + |Flatten(ms)|
    ensures Cursor(ms, 0, start, start, end)
  {
    assert ms[..0] == [];
  }

  lemma NextMessage(pre: seq<Octet>, ms: seq<Message>, j: nat, cur: nat, end: nat)
    requires j < |ms| && Cursor(ms, j, cur, |pre|, end) && end == |pre + Flatten(ms)|
    ensures Cursor(ms, j + 1, cur + Size(ms[j]), |pre|, end)
    ensures var b := pre + Flatten(ms);
      && cur + Size(ms[j]) <= end
      && LenAt(b, cur) == Size(ms[j]) && KindAt(b, cur) == ms[j].kind
      && b[cur + HEAD_SIZE..cur + Size(ms[j])] == ms[j].body
  {
    HeaderAt(pre, ms, j);
    if j + 1 < |ms| {
      RoomForHead(pre, ms, j + 1);
    } else {
      assert ms[..j + 1] == ms;
    }
  }

  lemma RoomForHead(pre: seq<Octet>, ms: seq<Message>, j: nat)
    requires j < |ms|
    ensures |pre| + |Flatten(ms[..j])| + HEAD_SIZE <= |pre + Flatten(ms)|
  {
    HeaderAt(pre, ms, j);
  }

  // States each of which is the one before with one more message dispatched.
  ghost predicate Along(plan: seq<Client>, ms: seq<Message>, calls: Callbacks) {
    |plan| == |ms| + 1 && forall k :: 0 <= k < |ms| ==> DispatchesNext(plan, ms, calls, k)
  }

  ghost predicate DispatchesNext(plan: seq<Client>, ms: seq<Message>, calls: Callbacks, k: nat)
    requires k < |ms| == |plan| - 1
  {
    plan[k + 1] == Dispatch(plan[k], ms[k], calls)
  }

  ghost function DispatchPlan(s: Client, ms: seq<Message>, calls: Callbacks): (plan: seq<Client>)
    ensures Along(plan, ms, calls) && plan[0] == s && plan[|ms|] == DispatchAll(s, ms, calls)
    decreases |ms|
  {
    if ms == [] then [s]
    else
      var rest := DispatchPlan(Dispatch(s, ms[0], calls), ms[1..], calls);
      var plan := [s] + rest;
      assert forall k :: 0 <= k < |ms| ==> DispatchesNext(plan, ms, calls, k) by {
        forall k | 0 <= k < |ms|
          ensures DispatchesNext(plan, ms, calls, k)
        {
          assert k > 0 ==> DispatchesNext(rest, ms[1..], calls, k - 1);
        }
      }
      plan
  }

  // The parsing loop is at `cur`, behind the first `j` messages; `exit` says whether one disconnected.
  ghost predicate Parsed(buf: seq<Octet>, cur: nat, ms: seq<Message>, j: nat, exit: bool) {
    && cur <= |buf| && Clean(buf[cur..]) && j <= |ms|
    && ms[j..] == Parse(buf[cur..]) && exit == Disconnects(ms[..j])
  }

  function FrameOf(b: seq<Octet>): Message
    requires |b| >= HEAD_SIZE
  {
    var kind, body := KindAt(b, 0), b[HEAD_SIZE..];
    if |b| < 0x1_0000 then Frame(kind, body) else Frame(0, [])
  }

  lemma ParseStart(buf: seq<Octet>)
    requires Clean(buf)
    ensures Parsed(buf, 0, Parse(buf), 0, false)
  {
    assert buf[0..] == buf;
  }

  // What the loop finds at `cur`: a message cut off, or the next one.
  lemma ParseStep(buf: seq<Octet>, cur: nat, ms: seq<Message>, j: nat, exit: bool)
    requires Parsed(buf, cur, ms, j, exit) && cur < |buf|
    ensures cur + HEAD_SIZE <= |buf|
    ensures LenAt(buf, cur) > |buf| - cur ==> j == |ms| && exit == Disconnects(ms)
    ensures LenAt(buf, cur) <= |buf| - cur ==>
      && HEAD_SIZE <= LenAt(buf, cur) && j < |ms| && ms[j] == FrameOf(buf[cur..cur + LenAt(buf, cur)])
      && Parsed(buf, cur + LenAt(buf, cur), ms, j + 1, exit || ms[j].kind == DISCONNECT)
  {
    HeadAt(buf, cur);
    var len := LenAt(buf, cur);
    if len <= |buf| - cur {
      assert ms[j + 1..] == ms[j..][1..];
      OneMore(ms, j);
    } else {
      assert ms[..j] == ms;
    }
  }

  lemma HeadAt(buf: seq<Octet>, cur: nat)
    requires cur < |buf| && Clean(buf[cur..])
    ensures cur + HEAD_SIZE <= |buf|
    ensures LenAt(buf, cur) > |buf| - cur ==> Parse(buf[cur..]) == []
    ensures LenAt(buf, cur) <= |buf| - cur ==>
      && HEAD_SIZE <= LenAt(buf, cur) < 0x1_0000 && Clean(buf[cur + LenAt(buf, cur)..])
      && Parse(buf[cur..]) == [FrameOf(buf[cur..cur + LenAt(buf, cur)])] + Parse(buf[cur + LenAt(buf, cur)..])
  {
    var rest := buf[cur..];
    assert LenAt(rest, 0) == LenAt(buf, cur) && KindAt(rest, 0) == KindAt(buf, cur);
    var len := LenAt(buf, cur);
    if HEAD_SIZE <= len <= |rest| {
      var frame := buf[cur..cur + len];
      assert rest[len..] == buf[cur + len..];
      assert rest[HEAD_SIZE..len] == frame[HEAD_SIZE..];
      assert KindAt(frame, 0) == KindAt(rest, 0);
    }
  }

  lemma OneMore(ms: seq<Message>, j: nat)
    requires j < |ms|
    ensures Disconnects(ms[..j + 1]) == (Disconnects(ms[..j]) || ms[j].kind == DISCONNECT)
  {
    assert ms[..j + 1] == ms[..j] + [ms[j]];
    if Disconnects(ms[..j]) {
      var i :| 0 <= i < j && ms[..j][i].kind == DISCONNECT;
      assert ms[..j + 1][i].kind == DISCONNECT;
    }
    if ms[j].kind == DISCONNECT {
      assert ms[..j + 1][j].kind == DISCONNECT;
    }
  }

  lemma ParseEnd(buf: seq<Octet>, ms: seq<Message>, j: nat, exit: bool)
    requires Parsed(buf, |buf|, ms, j, exit)
    ensures j == |ms| && exit == Disconnects(ms)
  {
    assert ms[..|ms|] == ms;
  }

  // Cutting the pending bytes by the length found at the place of the message taken out.
  ghost predicate CanCut(b: seq<Octet>, at: nat, n: nat) {
    at + n <= |b| && at + HEAD_SIZE <= |b| && LenAt(Moved(b, at, n), at) <= |b|
  }

  lemma CutFits(pre: seq<Octet>, ms: seq<Message>, j: nat)
    requires j < |ms|
    ensures CanCut(pre + Flatten(ms), |pre| + |Flatten(ms[..j])|, Size(ms[j]))
  {
    Around(pre, ms, j);
    KeptExactly(pre + Flatten(ms[..j]), ms[j], ms[j + 1..]);
  }

  lemma CutToKept(s: Client, ms: seq<Message>, j: nat)
    requires j < |ms| && CanCut(s.pending + Flatten(ms), |s.pending| + |Flatten(ms[..j])|, Size(ms[j]))
    ensures Consume(s, ms, j) == s.(
      pending := Kept(s.pending + Flatten(ms), |s.pending| + |Flatten(ms[..j])|, Size(ms[j])),
      acked := s.acked + [ms[j]], slipped := s.slipped || Slips(ms, j))
  {
  }
}
