/**
 The input method client of a frame buffer terminal: a byte stream of framed messages, callbacks
 that wait for an acknowledgement in the middle of a batch, and the queue of messages those waits
 set aside.
 */
module ImClient {
  import opened Basics

  datatype Frame = Frame(kind: nat, body: seq<Octet>)

  // A message as its two 16-bit header fields can describe it; `Size` counts the header.
  type Message = m: Frame | m.kind < 0x1_0000 && Size(m) < 0x1_0000 witness Frame(0, [])

  const HEAD_SIZE: nat := 4
  const CAPACITY: nat := 10240
  const NR_IM_WINS: nat := 10

  const DISCONNECT: nat := 1
  const ACTIVE: nat := 2
  const DEACTIVE: nat := 3
  const SEND_KEY: nat := 4
  const ACK_WIN: nat := 7
  const CURSOR_POSITION: nat := 8
  const FBTERM_INFO: nat := 9
  const TERM_MODE: nat := 10
  const SHOW_UI: nat := 11
  const HIDE_UI: nat := 12

  // ---------------------------------------------------------------- framing

  function Size(m: Frame): nat { HEAD_SIZE + |m.body| }

  function Encode(m: Message): (b: seq<Octet>)
    ensures |b| == Size(m)
  {
    [m.kind % 256, m.kind / 256, Size(m) % 256, Size(m) / 256] + m.body
  }

  function Flatten(ms: seq<Message>): seq<Octet> {
    if ms == [] then [] else Encode(ms[0]) + Flatten(ms[1..])
  }

  // The header fields of the message at `at`, low byte first.
  function KindAt(b: seq<Octet>, at: nat): nat
    requires at + HEAD_SIZE <= |b|
  {
    var low: int, high: int := b[at], b[at + 1];
    low + 256 * high
  }

  function LenAt(b: seq<Octet>, at: nat): nat
    requires at + HEAD_SIZE <= |b|
  {
    var low: int, high: int := b[at + 2], b[at + 3];
    low + 256 * high
  }

  // The messages a stream of bytes holds.
  function Parse(b: seq<Octet>): seq<Message> {
    if |b| < HEAD_SIZE || LenAt(b, 0) < HEAD_SIZE || LenAt(b, 0) > |b| then
      []
    else
      [Frame(KindAt(b, 0), b[HEAD_SIZE..LenAt(b, 0)])] + Parse(b[LenAt(b, 0)..])
  }

  // Bytes the parsing loop makes sense of: what is left at the end is nothing, or a message that is
  // cut off behind its header; and no length is too small for a header.
  predicate Clean(b: seq<Octet>) {
    || b == []
    || (|b| >= HEAD_SIZE && LenAt(b, 0) > |b|)
    || (|b| >= HEAD_SIZE && LenAt(b, 0) >= HEAD_SIZE && Clean(b[LenAt(b, 0)..]))
  }

  ghost predicate Framed(b: seq<Octet>) {
    Flatten(Parse(b)) == b
  }

  lemma HeaderOf(pre: seq<Octet>, m: Message, post: seq<Octet>)
    ensures var b := pre + Encode(m) + post;
      && KindAt(b, |pre|) == m.kind && LenAt(b, |pre|) == Size(m)
      && b[|pre| + HEAD_SIZE..|pre| + Size(m)] == m.body
  {
    var b := pre + Encode(m) + post;
    assert b[|pre|..|pre| + Size(m)] == Encode(m);
    assert b[|pre| + HEAD_SIZE..|pre| + Size(m)] == Encode(m)[HEAD_SIZE..];
  }

  /** Reading back what was framed gives the messages. */
  lemma {:induction false} ParseFlatten(ms: seq<Message>)
    ensures Parse(Flatten(ms)) == ms && Framed(Flatten(ms))
  {
    if ms != [] {
      var b := Flatten(ms);
      HeaderOf([], ms[0], Flatten(ms[1..]));
      assert b == [] + Encode(ms[0]) + Flatten(ms[1..]);
      assert b[Size(ms[0])..] == Flatten(ms[1..]);
      ParseFlatten(ms[1..]);
    }
  }

  lemma {:induction false} FlattenClean(ms: seq<Message>)
    ensures Clean(Flatten(ms))
  {
    if ms != [] {
      var b := Flatten(ms);
      HeaderOf([], ms[0], Flatten(ms[1..]));
      assert b == [] + Encode(ms[0]) + Flatten(ms[1..]);
      assert b[Size(ms[0])..] == Flatten(ms[1..]);
      FlattenClean(ms[1..]);
    }
  }

  lemma {:induction false} FlattenAppend(a: seq<Message>, b: seq<Message>)
    ensures Flatten(a + b) == Flatten(a) + Flatten(b)
  {
    if a == [] {
      assert a + b == b;
    } else {
      assert (a + b)[1..] == a[1..] + b;
      FlattenAppend(a[1..], b);
    }
  }

  // A batch, cut at message `k`.
  lemma FlattenCut(ms: seq<Message>, k: nat)
    requires k < |ms|
    ensures Flatten(ms) == Flatten(ms[..k]) + Encode(ms[k]) + Flatten(ms[k + 1..])
  {
    assert ms == ms[..k] + ms[k..];
    FlattenAppend(ms[..k], ms[k..]);
    assert ms[k..][1..] == ms[k + 1..];
  }

  // ---------------------------------------------------------------- the state

  // What one call of read brings: whole messages, an interruption, or the end.
  datatype Read = Got(ms: seq<Message>) | Again | Gone

  datatype Sent = SetWin(id: nat) | AckHideUI | Ping

  datatype Client = Client(
    open: bool,                  // imfd is not -1
    active: bool,
    pending: seq<Octet>,
    input: seq<Read>,            // what the reads to come will bring
    torn: bool,                  // a read cut a message in two: outside this model
    slipped: bool,               // a wait shortened the queue by the wrong length
    sent: seq<Sent>,
    received: seq<Message>,
    dispatched: seq<Message>,
    acked: seq<Message>)

  // The windows the n-th dispatched message's callback sets.
  type Callbacks = nat -> seq<nat>

  function Room(s: Client): nat {
    if |s.pending| <= CAPACITY then CAPACITY - |s.pending| else 0
  }

  predicate Retries(s: Client, room: nat) {
    s.open && room > 0 && s.input != [] && s.input[0].Again?
  }

  predicate Arrives(s: Client, room: nat) {
    s.open && s.input != [] && s.input[0].Got? && 0 < |Flatten(s.input[0].ms)| <= room
  }

  function Retry(s: Client): Client
    requires s.input != []
  {
    s.(input := s.input[1..])
  }

  function Arrive(s: Client): Client
    requires s.input != [] && s.input[0].Got?
  {
    s.(input := s.input[1..], received := s.received + s.input[0].ms)
  }

  // The read failed, found the end of the stream, or had no room to read into.
  function Hangup(s: Client, room: nat): Client {
    s.(open := false,
       torn := s.torn || (s.open && s.input != [] && s.input[0].Got? && |Flatten(s.input[0].ms)| > room > 0))
  }

  function IndexOf(ms: seq<Message>, kind: nat): (k: nat)
    ensures k <= |ms| && (k < |ms| ==> ms[k].kind == kind)
    ensures forall j :: 0 <= j < k ==> ms[j].kind != kind
  {
    if ms == [] || ms[0].kind == kind then 0 else 1 + IndexOf(ms[1..], kind)
  }

  // memcpy of everything after the message at `at` onto it; the last bytes stay where they are.
  function Moved(b: seq<Octet>, at: nat, n: nat): (r: seq<Octet>)
    requires at + n <= |b|
    ensures |r| == |b|
  {
    b[..at] + b[at + n..] + b[|b| - n..]
  }

  lemma MovedBytes(x: seq<Octet>, a: seq<Octet>, y: seq<Octet>)
    ensures Moved(x + a + y, |x|, |a|) == x + y + (a + y)[|y|..]
  {
    var b := x + a + y;
    assert b[..|x|] == x && b[|x| + |a|..] == y;
    assert b == x + (a + y);
    assert b[|b| - |a|..] == (a + y)[|y|..];
  }

  // The bytes of a queue and a batch, around message `k` of the batch.
  lemma Around(pre: seq<Octet>, ms: seq<Message>, k: nat)
    requires k < |ms|
    ensures pre + Flatten(ms) == (pre + Flatten(ms[..k])) + Encode(ms[k]) + Flatten(ms[k + 1..])
  {
    FlattenCut(ms, k);
    Regroup(pre, Flatten(ms[..k]), Encode(ms[k]), Flatten(ms[k + 1..]));
  }

  lemma Regroup(p: seq<Octet>, a: seq<Octet>, b: seq<Octet>, c: seq<Octet>)
    ensures p + (a + b + c) == (p + a) + b + c && p + (a + b) == p + a + b
  {
  }

  // The length read at the awaited message's place once the bytes have moved.
  function LengthRead(m: Message, rest: seq<Message>): nat {
    if rest == [] then Size(m) else Size(rest[0])
  }

  lemma LengthAfterMove(x: seq<Octet>, m: Message, rest: seq<Message>)
    ensures var b := x + Encode(m) + Flatten(rest);
      && LenAt(Moved(b, |x|, Size(m)), |x|) == LengthRead(m, rest) <= |b| - |x|
  {
    var a, y := Encode(m), Flatten(rest);
    MovedBytes(x, a, y);
    if rest == [] {
      assert (a + y)[|y|..] == a && x + y + a == x + a + [];
      HeaderOf(x, m, []);
    } else {
      HeaderThen(x, rest[0], Flatten(rest[1..]), (a + y)[|y|..]);
    }
  }

  lemma HeaderThen(x: seq<Octet>, m: Message, z: seq<Octet>, t: seq<Octet>)
    ensures LenAt(x + (Encode(m) + z) + t, |x|) == Size(m)
  {
    assert x + (Encode(m) + z) + t == x + Encode(m) + (z + t);
    HeaderOf(x, m, z + t);
  }

  // What the queue is cut to.
  function Kept(b: seq<Octet>, at: nat, n: nat): seq<Octet>
    requires at + n <= |b| && at + HEAD_SIZE <= |b| && LenAt(Moved(b, at, n), at) <= |b|
  {
    Moved(b, at, n)[..|b| - LenAt(Moved(b, at, n), at)]
  }

  lemma KeptExactly(x: seq<Octet>, m: Message, rest: seq<Message>)
    ensures var b := x + Encode(m) + Flatten(rest);
      && LenAt(Moved(b, |x|, Size(m)), |x|) <= |b|
      && (Kept(b, |x|, Size(m)) == x + Flatten(rest) <==> LengthRead(m, rest) == Size(m))
      && |Kept(b, |x|, Size(m))| == |b| - LengthRead(m, rest)
  {
    LengthAfterMove(x, m, rest);
    MovedBytes(x, Encode(m), Flatten(rest));
  }

  // Message `k` of the batch just read is the awaited one.
  function Consume(s: Client, ms: seq<Message>, k: nat): Client
    requires k < |ms|
  {
    Around(s.pending, ms, k);
    KeptExactly(s.pending + Flatten(ms[..k]), ms[k], ms[k + 1..]);
    s.(pending := Kept(s.pending + Flatten(ms), |s.pending| + |Flatten(ms[..k])|, Size(ms[k])),
       acked := s.acked + [ms[k]],
       slipped := s.slipped || Slips(ms, k))
  }

  // Another message of another length follows the awaited one in the same read.
  predicate Slips(ms: seq<Message>, k: nat)
    requires k < |ms|
  {
    k + 1 < |ms| && Size(ms[k + 1]) != Size(ms[k])
  }

  function Pinged(s: Client): Client {
    if s.pending != [] then s.(sent := s.sent + [Ping]) else s
  }

  function Wait(s: Client, kind: nat): Client
    decreases |s.input|
  {
    if Retries(s, Room(s)) then
      Wait(Retry(s), kind)
    else if !Arrives(s, Room(s)) then
      Hangup(s, Room(s))
    else
      var ms := s.input[0].ms;
      var k := IndexOf(ms, kind);
      if k == |ms| then
        Wait(Arrive(s).(pending := s.pending + Flatten(ms)), kind)
      else
        Pinged(Consume(Arrive(s), ms, k))
  }

  function SetWindow(s: Client, id: nat): Client {
    if !s.open || !s.active || id >= NR_IM_WINS then s
    else Wait(s.(sent := s.sent + [SetWin(id)]), ACK_WIN)
  }

  function SetWindows(s: Client, ids: seq<nat>): Client
    decreases |ids|
  {
    if ids == [] then s else SetWindows(SetWindow(s, ids[0]), ids[1..])
  }

  function AnswerHide(s: Client): Client {
    if s.open then s.(sent := s.sent + [AckHideUI]) else s
  }

  predicate WhenActive(kind: nat) {
    kind == SHOW_UI || kind == SEND_KEY || kind == CURSOR_POSITION || kind == TERM_MODE
  }

  // Before the callback.
  function Begin(s: Client, m: Message): Client {
    s.(dispatched := s.dispatched + [m],
       open := s.open && m.kind != DISCONNECT,
       active := s.active || m.kind == ACTIVE)
  }

  // Whether there is a callback to make.
  predicate CallsBack(t: Client, kind: nat) {
    || kind == FBTERM_INFO || kind == ACTIVE || kind == DEACTIVE
    || (t.active && (kind == HIDE_UI || WhenActive(kind)))
  }

  function Callback(t: Client, kind: nat, ids: seq<nat>): Client {
    if CallsBack(t, kind) then SetWindows(t, ids) else t
  }

  // After it.
  function Finish(u: Client, kind: nat): Client {
    if kind == DEACTIVE then u.(active := false)
    else if kind == HIDE_UI then AnswerHide(u)
    else u
  }

  function Dispatch(s: Client, m: Message, calls: Callbacks): Client {
    Finish(Callback(Begin(s, m), m.kind, calls(|s.dispatched|)), m.kind)
  }

  function DispatchAll(s: Client, ms: seq<Message>, calls: Callbacks): Client
    decreases |ms|
  {
    if ms == [] then s else DispatchAll(Dispatch(s, ms[0], calls), ms[1..], calls)
  }

  predicate Disconnects(ms: seq<Message>) {
    exists i :: 0 <= i < |ms| && ms[i].kind == DISCONNECT
  }

  // The first half of check_im_message: what earlier waits set aside.
  function Drain(s: Client, calls: Callbacks): Client {
    DispatchAll(s.(pending := []), Parse(s.pending), calls)
  }

  // The second half: one read, dispatched at once.
  function ReadTurn(t: Client, exit: bool, calls: Callbacks): (Client, bool) {
    if Retries(t, CAPACITY) then (Retry(t), true)
    else if !Arrives(t, CAPACITY) then (Hangup(t, CAPACITY), false)
    else (DispatchAll(Arrive(t), t.input[0].ms, calls), !exit && !Disconnects(t.input[0].ms))
  }

  function Check(s: Client, calls: Callbacks): (Client, bool) {
    if !s.open then (s, false) else ReadTurn(Drain(s, calls), Disconnects(Parse(s.pending)), calls)
  }

  // The client's main loop, for at most `n` turns, while the queue can be parsed.
  function Pump(s: Client, n: nat, calls: Callbacks): Client
    decreases n
  {
    if n == 0 || !Clean(s.pending) then s
    else
      var (t, more) := Check(s, calls);
      if more then Pump(t, n - 1, calls) else t
  }

  // The header of message `j` of a batch, where the code's pointer finds it.
  lemma HeaderAt(pre: seq<Octet>, ms: seq<Message>, j: nat)
    requires j < |ms|
    ensures var b, at := pre + Flatten(ms), |pre| + |Flatten(ms[..j])|;
      && at + Size(ms[j]) <= |b| && KindAt(b, at) == ms[j].kind && LenAt(b, at) == Size(ms[j])
      && b[at + HEAD_SIZE..at + Size(ms[j])] == ms[j].body
    ensures |Flatten(ms[..j + 1])| == |Flatten(ms[..j])| + Size(ms[j])
  {
    Around(pre, ms, j);
    HeaderOf(pre + Flatten(ms[..j]), ms[j], Flatten(ms[j + 1..]));
    FlattenCut(ms[..j + 1], j);
    assert ms[..j + 1][..j] == ms[..j] && ms[..j + 1][j + 1..] == [];
  }

  // ---------------------------------------------------------------- waiting

  // The queue with the messages `got` behind it, all but message `k`.
  function Without(pending: seq<Octet>, got: seq<Message>, k: nat): seq<Octet>
    requires k < |got|
  {
    pending + Flatten(got[..k] + got[k + 1..])
  }

  /** The queue loses exactly the awaited message if and only if nothing of another length follows it. */
  lemma ConsumeExactly(s: Client, ms: seq<Message>, k: nat)
    requires k < |ms|
    ensures Consume(s, ms, k).pending == Without(s.pending, ms, k) <==> !Slips(ms, k)
  {
    Around(s.pending, ms, k);
    KeptExactly(s.pending + Flatten(ms[..k]), ms[k], ms[k + 1..]);
    WithoutIs(s.pending, ms, k);
  }

  lemma WithoutIs(pending: seq<Octet>, ms: seq<Message>, k: nat)
    requires k < |ms|
    ensures Without(pending, ms, k) == pending + Flatten(ms[..k]) + Flatten(ms[k + 1..])
  {
    FlattenAppend(ms[..k], ms[k + 1..]);
    Regroup(pending, Flatten(ms[..k]), Flatten(ms[k + 1..]), []);
  }

  // The messages the reads of a wait bring, up to and including the read with the awaited one.
  function ReadsOf(s: Client, kind: nat): seq<Message>
    decreases |s.input|
  {
    if Retries(s, Room(s)) then ReadsOf(Retry(s), kind)
    else if !Arrives(s, Room(s)) then []
    else
      var ms := s.input[0].ms;
      if IndexOf(ms, kind) == |ms| then
        ms + ReadsOf(Arrive(s).(pending := s.pending + Flatten(ms)), kind)
      else
        ms
  }

  lemma {:induction false} IndexOfAppend(a: seq<Message>, b: seq<Message>, kind: nat)
    requires IndexOf(a, kind) == |a|
    ensures IndexOf(a + b, kind) == |a| + IndexOf(b, kind)
  {
    if a == [] {
      assert a + b == b;
    } else {
      assert (a + b)[1..] == a[1..] + b;
      IndexOfAppend(a[1..], b, kind);
    }
  }

  // From `s` to `t`, message `k` was taken out of the messages `got`; `left` is what must be pending.
  ghost predicate Took(s: Client, t: Client, got: seq<Message>, k: nat, left: seq<Octet>) {
    && k < |got|
    && t.received == s.received + got && t.acked == s.acked + [got[k]]
    && t.dispatched == s.dispatched && t.active == s.active
    && t.sent == (if t.pending == [] then s.sent else s.sent + [Ping])
    && (t.slipped <==> s.slipped || Slips(got, k))
    && (t.pending == left <==> !Slips(got, k))
  }

  /** What a wait that is answered does: it takes the first awaited message out of what it read, and
      nothing else, if and only if that message is not followed, in its read, by one of another length.
      (The read with the awaited message is the last one.) */
  lemma {:induction false} WaitTakesFirst(s: Client, kind: nat)
    requires s.open && Wait(s, kind).open
    ensures var got := ReadsOf(s, kind);
      var k := IndexOf(got, kind);
      k < |got| && Took(s, Wait(s, kind), got, k, Without(s.pending, got, k))
    decreases |s.input|
  {
    if Retries(s, Room(s)) {
      WaitTakesFirst(Retry(s), kind);
    } else if Arrives(s, Room(s)) {
      var ms := s.input[0].ms;
      var k := IndexOf(ms, kind);
      if k == |ms| {
        var r := Arrive(s).(pending := s.pending + Flatten(ms));
        WaitTakesFirst(r, kind);
        WaitLater(s, ms, r, Wait(r, kind), kind, ReadsOf(r, kind));
      } else {
        TookNow(s, Arrive(s), ms, k);
      }
    }
  }

  lemma WaitLater(s: Client, ms: seq<Message>, r: Client, t: Client, kind: nat, more: seq<Message>)
    requires IndexOf(ms, kind) == |ms| && IndexOf(more, kind) < |more|
    requires Took(r, t, more, IndexOf(more, kind), Without(r.pending, more, IndexOf(more, kind)))
    requires r == s.(pending := s.pending + Flatten(ms), received := s.received + ms, input := r.input)
    ensures IndexOf(ms + more, kind) < |ms + more|
    ensures Took(s, t, ms + more, IndexOf(ms + more, kind), Without(s.pending, ms + more, IndexOf(ms + more, kind)))
  {
    var j := IndexOf(more, kind);
    TookLater(s, ms, r, t, more, j, Without(r.pending, more, j));
    WaitMore(s.pending, ms, more, kind);
  }

  lemma TookNow(s: Client, r: Client, ms: seq<Message>, k: nat)
    requires k < |ms| && r == s.(received := s.received + ms, input := r.input)
    ensures Took(s, Pinged(Consume(r, ms, k)), ms, k, Without(s.pending, ms, k))
  {
    ConsumeExactly(r, ms, k);
    var t := Consume(r, ms, k);
    assert t == r.(pending := t.pending, acked := s.acked + [ms[k]], slipped := s.slipped || Slips(ms, k));
  }

  lemma TookLater(s: Client, ms: seq<Message>, r: Client, t: Client, more: seq<Message>, j: nat, left: seq<Octet>)
    requires Took(r, t, more, j, left)
    requires r == s.(pending := r.pending, received := s.received + ms, input := r.input)
    ensures Took(s, t, ms + more, |ms| + j, left)
  {
    assert s.received + ms + more == s.received + (ms + more);
    assert j + 1 < |more| ==> (ms + more)[|ms| + j + 1] == more[j + 1];
  }

  lemma WaitMore(pending: seq<Octet>, ms: seq<Message>, more: seq<Message>, kind: nat)
    requires IndexOf(ms, kind) == |ms| && IndexOf(more, kind) < |more|
    ensures var k, j := IndexOf(ms + more, kind), IndexOf(more, kind);
      && k == |ms| + j && (ms + more)[k] == more[j]
      && Without(pending, ms + more, k) == Without(pending + Flatten(ms), more, j)
  {
    var j := IndexOf(more, kind);
    IndexOfAppend(ms, more, kind);
    CutLater(ms, more, j);
    FlattenAppend(ms, more[..j] + more[j + 1..]);
    Regroup(pending, Flatten(ms), Flatten(more[..j] + more[j + 1..]), []);
  }

  lemma CutLater(ms: seq<Message>, more: seq<Message>, j: nat)
    requires j < |more|
    ensures (ms + more)[..|ms| + j] + (ms + more)[|ms| + j + 1..] == ms + (more[..j] + more[j + 1..])
  {
    assert (ms + more)[..|ms| + j] == ms + more[..j];
    assert (ms + more)[|ms| + j + 1..] == more[j + 1..];
  }

  /** It can fail: an acknowledgement followed by a longer message in one read loses bytes of the latter. */
  lemma WaitCanSlip()
    ensures var s := Start([Got([Frame(ACK_WIN, []), Frame(SEND_KEY, [65, 66])])]);
      && Wait(s, ACK_WIN).pending == [4, 0, 6, 0] != Flatten([Frame(SEND_KEY, [65, 66])])
      && Parse(Wait(s, ACK_WIN).pending) == []
  {
    var ack: Message, key: Message := Frame(ACK_WIN, []), Frame(SEND_KEY, [65, 66]);
    var ms: seq<Message> := [ack, key];
    SlippedBytes(ack, key, ms);
    FirstTaken(Start([Got(ms)]), ms);
  }

  // A wait with an empty queue whose first read starts with the awaited message.
  lemma FirstTaken(s: Client, ms: seq<Message>)
    requires s.open && s.pending == [] && s.input == [Got(ms)] && ms != [] && ms[0].kind == ACK_WIN
    requires 4 < |Flatten(ms)| <= CAPACITY && Size(ms[0]) == 4
    ensures LenAt(Moved(Flatten(ms), 0, 4), 0) <= |Flatten(ms)|
    ensures Wait(s, ACK_WIN).pending == Kept(Flatten(ms), 0, 4)
  {
    assert ms[..0] == [] && Flatten(ms[..0]) == [] && [] + Flatten(ms) == Flatten(ms);
    assert IndexOf(ms, ACK_WIN) == 0 && Arrives(s, Room(s));
    assert Wait(s, ACK_WIN) == Pinged(Consume(Arrive(s), ms, 0));
    Around([], ms, 0);
    KeptExactly([] + Flatten(ms[..0]), ms[0], ms[1..]);
  }

  lemma SlippedBytes(ack: Message, key: Message, ms: seq<Message>)
    requires ack == Frame(ACK_WIN, []) && key == Frame(SEND_KEY, [65, 66]) && ms == [ack, key]
    ensures Flatten(ms) == [7, 0, 4, 0, 4, 0, 6, 0, 65, 66] && Flatten([key]) == [4, 0, 6, 0, 65, 66]
    ensures Moved(Flatten(ms), 0, 4) == [4, 0, 6, 0, 65, 66, 6, 0, 65, 66]
  {
    assert ms[1..] == [key] && [key][1..] == [];
    assert Flatten([key]) == [4, 0, 6, 0, 65, 66];
    assert Flatten(ms) == Encode(ack) + Flatten([key]);
    MovedBytes([], Encode(ack), Flatten([key]));
  }

  // From `s` to `t`, the messages `got` were queued and nothing was taken out.
  ghost predicate QueuedAll(s: Client, t: Client, got: seq<Message>, left: seq<Octet>) {
    && t.pending == left && t.received == s.received + got
    && t.acked == s.acked && t.sent == s.sent && t.slipped == s.slipped
    && t.dispatched == s.dispatched && t.active == s.active
  }

  /** A wait that finds the connection gone keeps everything it read. */
  lemma {:induction false} WaitGivesUp(s: Client, kind: nat)
    requires !Wait(s, kind).open
    ensures QueuedAll(s, Wait(s, kind), ReadsOf(s, kind), s.pending + Flatten(ReadsOf(s, kind)))
    decreases |s.input|
  {
    if Retries(s, Room(s)) {
      WaitGivesUp(Retry(s), kind);
    } else if Arrives(s, Room(s)) {
      var ms := s.input[0].ms;
      assert IndexOf(ms, kind) == |ms|;
      var r := Arrive(s).(pending := s.pending + Flatten(ms));
      WaitGivesUp(r, kind);
      var more := ReadsOf(r, kind);
      KeptLater(s, ms, r, Wait(r, kind), more);
      assert ReadsOf(s, kind) == ms + more && Wait(s, kind) == Wait(r, kind);
    } else {
      assert s.pending + Flatten([]) == s.pending && s.received + [] == s.received;
    }
  }

  lemma KeptLater(s: Client, ms: seq<Message>, r: Client, t: Client, more: seq<Message>)
    requires QueuedAll(r, t, more, r.pending + Flatten(more))
    requires r == s.(pending := s.pending + Flatten(ms), received := s.received + ms, input := r.input)
    ensures QueuedAll(s, t, ms + more, s.pending + Flatten(ms + more))
  {
    FlattenBehind(s.pending, ms, more);
    QueuedLater(s, ms, r, t, more, r.pending + Flatten(more));
  }

  lemma QueuedLater(s: Client, ms: seq<Message>, r: Client, t: Client, more: seq<Message>, left: seq<Octet>)
    requires QueuedAll(r, t, more, left)
    requires r == s.(pending := r.pending, received := s.received + ms, input := r.input)
    ensures QueuedAll(s, t, ms + more, left)
  {
    assert s.received + ms + more == s.received + (ms + more);
  }

  lemma FlattenBehind(x: seq<Octet>, ms: seq<Message>, more: seq<Message>)
    ensures x + Flatten(ms) + Flatten(more) == x + Flatten(ms + more)
  {
    FlattenAppend(ms, more);
    Regroup(x, Flatten(ms), Flatten(more), []);
  }

  lemma ConsumeFits(s: Client, ms: seq<Message>, k: nat)
    requires k < |ms|
    ensures |Consume(s, ms, k).pending| <= |s.pending| + |Flatten(ms)| && Consume(s, ms, k).open == s.open
  {
    Around(s.pending, ms, k);
    KeptExactly(s.pending + Flatten(ms[..k]), ms[k], ms[k + 1..]);
    assert |Consume(s, ms, k).pending| == |s.pending + Flatten(ms)| - LengthRead(ms[k], ms[k + 1..]);
  }

  lemma {:induction false} WaitFits(s: Client, kind: nat)
    requires |s.pending| <= CAPACITY
    ensures |Wait(s, kind).pending| <= CAPACITY && (Wait(s, kind).open ==> s.open)
    decreases |s.input|
  {
    if Retries(s, Room(s)) {
      WaitFits(Retry(s), kind);
    } else if Arrives(s, Room(s)) {
      var ms := s.input[0].ms;
      if IndexOf(ms, kind) == |ms| {
        WaitFits(Arrive(s).(pending := s.pending + Flatten(ms)), kind);
      } else {
        ConsumeFits(Arrive(s), ms, IndexOf(ms, kind));
      }
    }
  }

  // ---------------------------------------------------------------- conservation

  // Every message received was dispatched, consumed by a wait, is queued, or is in the batch still
  // to be dispatched; as long as no wait slipped.
  ghost predicate Accounted(s: Client, batch: multiset<Message>) {
    && |s.pending| <= CAPACITY
    && (s.slipped || (Framed(s.pending) && Balance(s, Parse(s.pending), batch)))
  }

  ghost predicate Balance(s: Client, queued: seq<Message>, batch: multiset<Message>) {
    multiset(s.received) == multiset(s.dispatched) + multiset(s.acked) + multiset(queued) + batch
  }

  lemma Queued(s: Client, queued: seq<Message>, batch: multiset<Message>)
    requires s.pending == Flatten(queued) && |s.pending| <= CAPACITY && Balance(s, queued, batch)
    ensures Accounted(s, batch)
  {
    ParseFlatten(queued);
  }

  lemma WaitAccounts(s: Client, kind: nat, batch: multiset<Message>)
    requires s.open && Accounted(s, batch)
    ensures Accounted(Wait(s, kind), batch)
  {
    var t, got := Wait(s, kind), ReadsOf(s, kind);
    WaitFits(s, kind);
    if t.open {
      WaitTakesFirst(s, kind);
      TookAccounts(s, t, got, IndexOf(got, kind), batch);
    } else {
      WaitGivesUp(s, kind);
      QueuedAccounts(s, t, got, batch);
    }
  }

  lemma TookAccounts(s: Client, t: Client, got: seq<Message>, k: nat, batch: multiset<Message>)
    requires Accounted(s, batch) && |t.pending| <= CAPACITY
    requires k < |got| && Took(s, t, got, k, Without(s.pending, got, k))
    ensures Accounted(t, batch)
  {
    if !t.slipped {
      var q, rest := Parse(s.pending), got[..k] + got[k + 1..];
      FlattenAppend(q, rest);
      TakenOut(got, k);
      assert Balance(t, q + rest, batch);
      Queued(t, q + rest, batch);
    }
  }

  lemma QueuedAccounts(s: Client, t: Client, got: seq<Message>, batch: multiset<Message>)
    requires Accounted(s, batch) && |t.pending| <= CAPACITY
    requires QueuedAll(s, t, got, s.pending + Flatten(got))
    ensures Accounted(t, batch)
  {
    if !t.slipped {
      var q := Parse(s.pending);
      FlattenAppend(q, got);
      assert Balance(t, q + got, batch);
      Queued(t, q + got, batch);
    }
  }

  lemma TakenOut(got: seq<Message>, k: nat)
    requires k < |got|
    ensures multiset(got) == multiset(got[..k] + got[k + 1..]) + multiset{got[k]}
  {
    assert got == got[..k] + [got[k]] + got[k + 1..];
  }

  lemma SetWindowAccounts(s: Client, id: nat, batch: multiset<Message>)
    requires Accounted(s, batch)
    ensures Accounted(SetWindow(s, id), batch)
  {
    if s.open && s.active && id < NR_IM_WINS {
      WaitAccounts(s.(sent := s.sent + [SetWin(id)]), ACK_WIN, batch);
    }
  }

  lemma {:induction false} SetWindowsAccount(s: Client, ids: seq<nat>, batch: multiset<Message>)
    requires Accounted(s, batch)
    ensures Accounted(SetWindows(s, ids), batch)
    decreases |ids|
  {
    if ids != [] {
      SetWindowAccounts(s, ids[0], batch);
      SetWindowsAccount(SetWindow(s, ids[0]), ids[1..], batch);
    }
  }

  // A message leaves the batch when it is handed to its callback.
  lemma BeginAccounts(s: Client, m: Message, batch: multiset<Message>)
    requires Accounted(s, batch + multiset{m})
    ensures Accounted(Begin(s, m), batch)
  {
  }

  lemma FinishAccounts(u: Client, kind: nat, batch: multiset<Message>)
    requires Accounted(u, batch)
    ensures Accounted(Finish(u, kind), batch)
  {
  }

  lemma DispatchAccounts(s: Client, m: Message, calls: Callbacks, batch: multiset<Message>)
    requires Accounted(s, batch + multiset{m})
    ensures Accounted(Dispatch(s, m, calls), batch)
  {
    var ids := calls(|s.dispatched|);
    BeginAccounts(s, m, batch);
    SetWindowsAccount(Begin(s, m), ids, batch);
    FinishAccounts(Callback(Begin(s, m), m.kind, ids), m.kind, batch);
  }

  lemma {:induction false} DispatchAllAccounts(s: Client, ms: seq<Message>, calls: Callbacks, batch: multiset<Message>)
    requires Accounted(s, batch + multiset(ms))
    ensures Accounted(DispatchAll(s, ms, calls), batch)
    decreases |ms|
  {
    if ms != [] {
      assert multiset(ms) == multiset{ms[0]} + multiset(ms[1..]) by { assert ms == [ms[0]] + ms[1..]; }
      DispatchAccounts(s, ms[0], calls, batch + multiset(ms[1..]));
      DispatchAllAccounts(Dispatch(s, ms[0], calls), ms[1..], calls, batch);
    }
  }

  // The queue becomes the batch to dispatch.
  lemma Emptied(s: Client)
    requires Accounted(s, multiset{})
    ensures Accounted(s.(pending := []), multiset(Parse(s.pending)))
  {
    assert Flatten([]) == [];
    if !s.slipped {
      Queued(s.(pending := []), [], multiset(Parse(s.pending)));
    }
  }

  lemma CheckAccounts(s: Client, calls: Callbacks)
    requires Accounted(s, multiset{})
    ensures Accounted(Check(s, calls).0, multiset{})
  {
    if s.open {
      Emptied(s);
      DispatchAllAccounts(s.(pending := []), Parse(s.pending), calls, multiset{});
      ReadTurnAccounts(Drain(s, calls), Disconnects(Parse(s.pending)), calls);
    }
  }

  lemma ReadTurnAccounts(t: Client, exit: bool, calls: Callbacks)
    requires Accounted(t, multiset{})
    ensures Accounted(ReadTurn(t, exit, calls).0, multiset{})
  {
    if Arrives(t, CAPACITY) && !Retries(t, CAPACITY) {
      var ms := t.input[0].ms;
      assert Accounted(Arrive(t), multiset(ms));
      DispatchAllAccounts(Arrive(t), ms, calls, multiset{});
    }
  }

  /** Over every run, whatever the callbacks wait for and whatever the reads bring, until a wait slips. */
  lemma {:induction false} PumpAccounts(s: Client, n: nat, calls: Callbacks)
    requires Accounted(s, multiset{})
    ensures Accounted(Pump(s, n, calls), multiset{})
    decreases n
  {
    if n > 0 && Clean(s.pending) {
      CheckAccounts(s, calls);
      PumpAccounts(Check(s, calls).0, n - 1, calls);
    }
  }

  function Start(input: seq<Read>): Client {
    Client(true, false, [], input, false, false, [], [], [], [])
  }

  // Every message received was dispatched, consumed by a wait, or is queued.
  ghost predicate Conserved(t: Client) {
    Framed(t.pending) && Balance(t, Parse(t.pending), multiset{})
  }

  // A read in which the first acknowledgement, if there is one, is the last message or is followed
  // by one of its own length.  What does not fit the buffer cannot arrive.
  predicate CalmBatch(ms: seq<Message>) {
    |Flatten(ms)| <= CAPACITY && IndexOf(ms, ACK_WIN) < |ms| ==> !Slips(ms, IndexOf(ms, ACK_WIN))
  }

  ghost predicate Calm(input: seq<Read>) {
    forall i :: 0 <= i < |input| && input[i].Got? ==> CalmBatch(input[i].ms)
  }

  /** No message is lost, none is dispatched twice: over every run on calm input, whatever the callbacks
      wait for; and on any input until a wait meets a read that is not calm. */
  lemma NothingLost(input: seq<Read>, n: nat, calls: Callbacks)
    ensures Calm(input) ==> !Pump(Start(input), n, calls).slipped && Conserved(Pump(Start(input), n, calls))
    ensures !Pump(Start(input), n, calls).slipped ==> Conserved(Pump(Start(input), n, calls))
  {
    assert Flatten([]) == [];
    Queued(Start(input), [], multiset{});
    PumpAccounts(Start(input), n, calls);
    PumpCalm(Start(input), n, calls);
  }

  // From calm input, no wait slips.
  ghost predicate StaysCalm(s: Client, t: Client) {
    Calm(s.input) ==> Calm(t.input) && (t.slipped <==> s.slipped)
  }

  lemma {:induction false} WaitCalm(s: Client)
    ensures StaysCalm(s, Wait(s, ACK_WIN))
    decreases |s.input|
  {
    if Retries(s, Room(s)) {
      WaitCalm(Retry(s));
    } else if Arrives(s, Room(s)) {
      var ms := s.input[0].ms;
      if IndexOf(ms, ACK_WIN) == |ms| {
        WaitCalm(Arrive(s).(pending := s.pending + Flatten(ms)));
      }
    }
  }

  lemma {:induction false} SetWindowsCalm(s: Client, ids: seq<nat>)
    ensures StaysCalm(s, SetWindows(s, ids))
    decreases |ids|
  {
    if ids != [] {
      WaitCalm(s.(sent := s.sent + [SetWin(ids[0])]));
      SetWindowsCalm(SetWindow(s, ids[0]), ids[1..]);
    }
  }

  lemma {:induction false} DispatchAllCalm(s: Client, ms: seq<Message>, calls: Callbacks)
    ensures StaysCalm(s, DispatchAll(s, ms, calls))
    decreases |ms|
  {
    if ms != [] {
      SetWindowsCalm(Begin(s, ms[0]), calls(|s.dispatched|));
      assert StaysCalm(s, Dispatch(s, ms[0], calls));
      DispatchAllCalm(Dispatch(s, ms[0], calls), ms[1..], calls);
    }
  }

  lemma CheckCalm(s: Client, calls: Callbacks)
    ensures StaysCalm(s, Check(s, calls).0)
  {
    if s.open {
      DispatchAllCalm(s.(pending := []), Parse(s.pending), calls);
      var t := Drain(s, calls);
      if Arrives(t, CAPACITY) {
        DispatchAllCalm(Arrive(t), t.input[0].ms, calls);
      }
    }
  }

  lemma {:induction false} PumpCalm(s: Client, n: nat, calls: Callbacks)
    ensures StaysCalm(s, Pump(s, n, calls))
    decreases n
  {
    if n > 0 && Clean(s.pending) {
      CheckCalm(s, calls);
      PumpCalm(Check(s, calls).0, n - 1, calls);
    }
  }

  // ---------------------------------------------------------------- and it takes no less

  // Which batches a peer may send in one go.
  type Vocabulary = seq<Message> -> bool

  predicate Drawn(input: seq<Read>, b: Vocabulary) {
    forall i :: 0 <= i < |input| && input[i].Got? ==> b(input[i].ms)
  }

  /** For a peer that can activate the client: no run loses anything if and only if every batch the peer
      may send is calm. */
  lemma LosslessExactly(b: Vocabulary)
    requires b([Frame(ACTIVE, [])])
    ensures (forall input, n, calls :: Drawn(input, b) ==> Conserved(Pump(Start(input), n, calls))) <==>
      (forall ms :: b(ms) ==> CalmBatch(ms))
  {
    if forall ms :: b(ms) ==> CalmBatch(ms) {
      forall input, n, calls | Drawn(input, b)
        ensures Conserved(Pump(Start(input), n, calls))
      {
        DrawnConserves(b, input, n, calls);
      }
    } else {
      var ms :| b(ms) && !CalmBatch(ms);
      SlipLoses(ms);
      assert Drawn(AfterActive(ms), b);
    }
  }

  lemma DrawnConserves(b: Vocabulary, input: seq<Read>, n: nat, calls: Callbacks)
    requires (forall ms :: b(ms) ==> CalmBatch(ms)) && Drawn(input, b)
    ensures Conserved(Pump(Start(input), n, calls))
  {
    assert Calm(input);
    NothingLost(input, n, calls);
  }

  function AfterActive(ms: seq<Message>): seq<Read> { [Got([Frame(ACTIVE, [])]), Got(ms)] }

  // The callback of the first message sets window 0.
  function OneWindow(n: nat): seq<nat> { if n == 0 then [0] else [] }

  /** Any batch that is not calm, arriving while the first window is set, breaks the account. */
  lemma SlipLoses(ms: seq<Message>)
    requires !CalmBatch(ms)
    ensures !Conserved(Pump(Start(AfterActive(ms)), 1, OneWindow))
  {
    var s, a, k := Start(AfterActive(ms)), Frame(ACTIVE, []), IndexOf(ms, ACK_WIN);
    ArriveActive(s, ms);
    FirstTurn(s, Begin(Arrive(s), a), ms);
    SlippedSize(ms, k);
    var t := Pump(s, 1, OneWindow);
    assert Begin(Arrive(s), a).received == [a] && Begin(Arrive(s), a).dispatched == [a];
    if Conserved(t) {
      ConservedSize(t, a, ms, k);
    }
  }

  lemma ConservedSize(t: Client, a: Message, ms: seq<Message>, k: nat)
    requires k < |ms| && Conserved(t)
    requires t.received == [a] + ms && t.dispatched == [a] && t.acked == [ms[k]]
    ensures |t.pending| + Size(ms[k]) == |Flatten(ms)|
  {
    var q := Parse(t.pending);
    assert multiset([a] + ms) == multiset(ms) + multiset{a};
    assert multiset(q + [ms[k]]) == multiset(q) + multiset{ms[k]};
    Cancel(multiset(ms), multiset(q) + multiset{ms[k]}, a);
    SameSize(q + [ms[k]], ms);
    FlattenAppend(q, [ms[k]]);
    FlattenCut([ms[k]], 0);
    assert |Flatten([ms[k]])| == Size(ms[k]);
  }

  // The first turn sets the window and waits through `ms`.
  lemma FirstTurn(s: Client, u: Client, ms: seq<Message>)
    requires s.open && s.pending == [] && Arrives(s, CAPACITY)
    requires DispatchAll(Arrive(s), s.input[0].ms, OneWindow) == SetWindow(u, 0)
    requires u.open && u.active && u.pending == [] && u.input == [Got(ms)] && !CalmBatch(ms)
    ensures WaitedThrough(u, Pump(s, 1, OneWindow), ms, IndexOf(ms, ACK_WIN))
  {
    WaitThrough(u, ms);
    OneTurn(s, OneWindow);
  }

  // One turn with an empty queue and a read that arrives.
  lemma OneTurn(s: Client, calls: Callbacks)
    requires s.open && s.pending == [] && Arrives(s, CAPACITY)
    ensures Pump(s, 1, calls) == DispatchAll(Arrive(s), s.input[0].ms, calls)
  {
    assert Parse([]) == [] && Clean([]);
    assert Drain(s, calls) == s;
    var (t, more) := Check(s, calls);
    assert t == DispatchAll(Arrive(s), s.input[0].ms, calls);
    if more {
      assert Pump(t, 0, calls) == t;
    }
  }

  lemma ArriveActive(s: Client, ms: seq<Message>)
    requires s == Start(AfterActive(ms))
    ensures Arrives(s, CAPACITY)
    ensures DispatchAll(Arrive(s), [Frame(ACTIVE, [])], OneWindow) == SetWindow(Begin(Arrive(s), Frame(ACTIVE, [])), 0)
  {
    var a: Message := Frame(ACTIVE, []);
    assert Flatten([a]) == Encode(a) + Flatten([]);
    assert [a][1..] == [] && [0][1..] == [];
    assert DispatchAll(Arrive(s), [a], OneWindow) == Dispatch(Arrive(s), a, OneWindow);
  }

  // From `u` to `t`, message `k` of the one read was taken, by the code's way of cutting the queue.
  ghost predicate WaitedThrough(u: Client, t: Client, ms: seq<Message>, k: nat) {
    && k < |ms| && t.received == u.received + ms && t.dispatched == u.dispatched && t.acked == u.acked + [ms[k]]
    && t.pending == Consume(Start([]), ms, k).pending
  }

  lemma WaitThrough(u: Client, ms: seq<Message>)
    requires u.open && u.active && u.pending == [] && u.input == [Got(ms)] && !CalmBatch(ms)
    ensures WaitedThrough(u, SetWindow(u, 0), ms, IndexOf(ms, ACK_WIN))
  {
    var k := IndexOf(ms, ACK_WIN);
    FlattenCut(ms, k);
    var w := u.(sent := u.sent + [SetWin(0)]);
    assert Arrives(w, Room(w));
    assert Wait(w, ACK_WIN) == Pinged(Consume(Arrive(w), ms, k));
    SamePending(Arrive(w), Start([]), ms, k);
  }

  lemma SamePending(r: Client, s: Client, ms: seq<Message>, k: nat)
    requires k < |ms| && r.pending == s.pending
    ensures Consume(r, ms, k).pending == Consume(s, ms, k).pending
    ensures Consume(r, ms, k) ==
      r.(pending := Consume(s, ms, k).pending, acked := r.acked + [ms[k]], slipped := r.slipped || Slips(ms, k))
  {
  }

  lemma SlippedSize(ms: seq<Message>, k: nat)
    requires k < |ms| && Slips(ms, k)
    ensures |Consume(Start([]), ms, k).pending| == |Flatten(ms)| - Size(ms[k + 1])
  {
    Around([], ms, k);
    KeptExactly([] + Flatten(ms[..k]), ms[k], ms[k + 1..]);
  }

  lemma Cancel(a: multiset<Message>, b: multiset<Message>, m: Message)
    requires a + multiset{m} == b + multiset{m}
    ensures a == b
  {
    assert a == a + multiset{m} - multiset{m};
    assert b == b + multiset{m} - multiset{m};
  }

  // The bytes of a queue do not depend on its order.
  lemma {:induction false} SameSize(a: seq<Message>, b: seq<Message>)
    requires multiset(a) == multiset(b)
    ensures |Flatten(a)| == |Flatten(b)|
    decreases |a|
  {
    if a == [] {
      assert |multiset(a)| == |multiset(b)| == |b|;
    } else {
      assert a[0] in multiset(b);
      var j :| 0 <= j < |b| && b[j] == a[0];
      TakenOut(b, j);
      assert multiset(a) == multiset{a[0]} + multiset(a[1..]) by { assert a == [a[0]] + a[1..]; }
      Cancel(multiset(a[1..]), multiset(b[..j] + b[j + 1..]), a[0]);
      SameSize(a[1..], b[..j] + b[j + 1..]);
      FlattenCut(b, j);
      FlattenAppend(b[..j], b[j + 1..]);
    }
  }

  // ---------------------------------------------------------------- order and answers

  function Wins(sent: seq<Sent>): nat {
    if sent == [] then 0
    else Wins(sent[..|sent| - 1]) + if sent[|sent| - 1].SetWin? then 1 else 0
  }

  function HidesIn(ms: seq<Message>): nat {
    if ms == [] then 0
    else HidesIn(ms[..|ms| - 1]) + if ms[|ms| - 1].kind == HIDE_UI then 1 else 0
  }

  // Whether the last of the Active and Deactive messages is an Active.
  predicate LastActive(ms: seq<Message>) {
    ms != [] && (ms[|ms| - 1].kind == ACTIVE || (ms[|ms| - 1].kind != DEACTIVE && LastActive(ms[..|ms| - 1])))
  }

  // What setting windows leaves alone: nothing is dispatched, hides stay unanswered, every window
  // sent has had its acknowledgement.
  ghost predicate Aside(s: Client, t: Client) {
    && t.dispatched == s.dispatched && t.active == s.active && (t.open ==> s.open)
    && multiset(t.sent)[AckHideUI] == multiset(s.sent)[AckHideUI]
    && (t.open && |s.acked| == Wins(s.sent) ==> |t.acked| == Wins(t.sent))
  }

  lemma SentOne(sent: seq<Sent>, x: Sent)
    ensures Wins(sent + [x]) == Wins(sent) + if x.SetWin? then 1 else 0
    ensures multiset(sent + [x])[AckHideUI] == multiset(sent)[AckHideUI] + if x == AckHideUI then 1 else 0
  {
    assert (sent + [x])[..|sent|] == sent;
  }

  // A wait takes one acknowledgement and answers nothing.
  lemma WaitAside(r: Client, kind: nat)
    requires r.open
    ensures var t := Wait(r, kind);
      && t.dispatched == r.dispatched && t.active == r.active
      && multiset(t.sent)[AckHideUI] == multiset(r.sent)[AckHideUI]
      && (t.open ==> |t.acked| == |r.acked| + 1 && Wins(t.sent) == Wins(r.sent))
  {
    if Wait(r, kind).open {
      WaitTakesFirst(r, kind);
      SentOne(r.sent, Ping);
    } else {
      WaitGivesUp(r, kind);
    }
  }

  lemma SetWindowAside(s: Client, id: nat)
    ensures Aside(s, SetWindow(s, id))
  {
    if s.open && s.active && id < NR_IM_WINS {
      WaitAside(s.(sent := s.sent + [SetWin(id)]), ACK_WIN);
      SentOne(s.sent, SetWin(id));
    }
  }

  lemma {:induction false} SetWindowsAside(s: Client, ids: seq<nat>)
    ensures Aside(s, SetWindows(s, ids))
    decreases |ids|
  {
    if ids != [] {
      SetWindowAside(s, ids[0]);
      SetWindowsAside(SetWindow(s, ids[0]), ids[1..]);
    }
  }

  // The client is active exactly if the last such message it dispatched says so; while it is
  // connected, every hide has had its answer and every window set its acknowledgement.
  ghost predicate InStep(s: Client) {
    && s.active == LastActive(s.dispatched)
    && (s.open ==> |s.acked| == Wins(s.sent) && multiset(s.sent)[AckHideUI] == HidesIn(s.dispatched))
  }

  lemma DispatchInStep(s: Client, m: Message, calls: Callbacks)
    requires InStep(s)
    ensures InStep(Dispatch(s, m, calls))
    ensures Dispatch(s, m, calls).dispatched == s.dispatched + [m]
  {
    var ids := calls(|s.dispatched|);
    var t := Begin(s, m);
    assert t.dispatched[..|s.dispatched|] == s.dispatched;
    SetWindowsAside(t, ids);
    FinishInStep(s, m, t, Callback(t, m.kind, ids));
  }

  lemma FinishInStep(s: Client, m: Message, t: Client, u: Client)
    requires InStep(s) && t == Begin(s, m) && Aside(t, u) && t.dispatched[..|s.dispatched|] == s.dispatched
    ensures InStep(Finish(u, m.kind)) && Finish(u, m.kind).dispatched == s.dispatched + [m]
  {
    if m.kind == DEACTIVE {
      FinishDeactive(s, m, u);
    } else if m.kind == HIDE_UI {
      FinishHide(s, m, u);
    } else {
      FinishOther(s, m, u);
    }
  }

  lemma FinishDeactive(s: Client, m: Message, u: Client)
    requires InStep(s) && Aside(Begin(s, m), u) && (s.dispatched + [m])[..|s.dispatched|] == s.dispatched
    requires m.kind == DEACTIVE
    ensures InStep(u.(active := false)) && u.dispatched == s.dispatched + [m]
  {
  }

  lemma FinishHide(s: Client, m: Message, u: Client)
    requires InStep(s) && Aside(Begin(s, m), u) && (s.dispatched + [m])[..|s.dispatched|] == s.dispatched
    requires m.kind == HIDE_UI
    ensures InStep(AnswerHide(u)) && AnswerHide(u).dispatched == s.dispatched + [m]
  {
    HideAnswered(u);
  }

  lemma FinishOther(s: Client, m: Message, u: Client)
    requires InStep(s) && Aside(Begin(s, m), u) && (s.dispatched + [m])[..|s.dispatched|] == s.dispatched
    requires m.kind != DEACTIVE && m.kind != HIDE_UI
    ensures InStep(u) && u.dispatched == s.dispatched + [m]
  {
  }

  lemma HideAnswered(u: Client)
    ensures var v := AnswerHide(u);
      && v == u.(sent := v.sent) && Wins(v.sent) == Wins(u.sent)
      && multiset(v.sent)[AckHideUI] == multiset(u.sent)[AckHideUI] + if u.open then 1 else 0
  {
    SentOne(u.sent, AckHideUI);
  }

  /** Batches are dispatched in order, each message once, whatever waits happen in between. */
  lemma {:induction false} DispatchAllInStep(s: Client, ms: seq<Message>, calls: Callbacks)
    requires InStep(s)
    ensures InStep(DispatchAll(s, ms, calls))
    ensures DispatchAll(s, ms, calls).dispatched == s.dispatched + ms
    decreases |ms|
  {
    if ms != [] {
      DispatchInStep(s, ms[0], calls);
      DispatchAllInStep(Dispatch(s, ms[0], calls), ms[1..], calls);
      assert s.dispatched + ms == s.dispatched + [ms[0]] + ms[1..];
    } else {
      assert s.dispatched + ms == s.dispatched;
    }
  }

  lemma DispatchCloses(s: Client, m: Message, calls: Callbacks)
    ensures Dispatch(s, m, calls).open ==> s.open && m.kind != DISCONNECT
  {
    SetWindowsAside(Begin(s, m), calls(|s.dispatched|));
  }

  // A connection once gone stays gone, and a disconnect ends it.
  lemma {:induction false} DispatchAllCloses(s: Client, ms: seq<Message>, calls: Callbacks)
    ensures DispatchAll(s, ms, calls).open ==> s.open && !Disconnects(ms)
    decreases |ms|
  {
    if ms != [] {
      DispatchCloses(s, ms[0], calls);
      DispatchAllCloses(Dispatch(s, ms[0], calls), ms[1..], calls);
      if Disconnects(ms) && ms[0].kind != DISCONNECT {
        var i :| 0 <= i < |ms| && ms[i].kind == DISCONNECT;
        assert ms[1..][i - 1].kind == DISCONNECT;
      }
    }
  }

  /** One turn dispatches what was queued and then what it read. */
  lemma CheckInStep(s: Client, calls: Callbacks)
    requires InStep(s)
    ensures InStep(Check(s, calls).0)
    ensures var t, d := Check(s, calls).0, Drain(s, calls);
      s.open ==> t.dispatched == s.dispatched + Parse(s.pending) + if Arrives(d, CAPACITY) then d.input[0].ms else []
  {
    if s.open {
      DispatchAllInStep(s.(pending := []), Parse(s.pending), calls);
      var d := Drain(s, calls);
      if Arrives(d, CAPACITY) {
        DispatchAllInStep(Arrive(d), d.input[0].ms, calls);
      }
    }
  }

  /** The loop goes on until the connection is gone, and never after a disconnect. */
  lemma CheckEnds(s: Client, calls: Callbacks)
    ensures !Check(s, calls).1 ==> !Check(s, calls).0.open
    ensures Check(s, calls).1 ==> !Disconnects(Parse(s.pending))
    ensures var d := Drain(s, calls);
      Check(s, calls).1 && Arrives(d, CAPACITY) ==> !Disconnects(d.input[0].ms)
  {
    if s.open {
      var d := Drain(s, calls);
      DispatchAllCloses(s.(pending := []), Parse(s.pending), calls);
      if Arrives(d, CAPACITY) {
        DispatchAllCloses(Arrive(d), d.input[0].ms, calls);
      }
    }
  }

  lemma {:induction false} PumpInStep(s: Client, n: nat, calls: Callbacks)
    requires InStep(s)
    ensures InStep(Pump(s, n, calls))
    decreases n
  {
    if n > 0 && Clean(s.pending) {
      CheckInStep(s, calls);
      PumpInStep(Check(s, calls).0, n - 1, calls);
    }
  }

  // ---------------------------------------------------------------- what is sent

  // What a callback that sets these windows sends: the known ones, in order.
  function SetsOf(ids: seq<nat>): seq<Sent> {
    if ids == [] then [] else (if ids[0] < NR_IM_WINS then [SetWin(ids[0])] else []) + SetsOf(ids[1..])
  }

  // What is owed for a message, to a client that was active before it or not; `ids` are the windows its
  // callback sets.
  function Owed(active: bool, kind: nat, ids: seq<nat>): seq<Sent> {
    if kind == ACTIVE then SetsOf(ids)
    else if kind == HIDE_UI then (if active then SetsOf(ids) else []) + [AckHideUI]
    else if active && kind in {SHOW_UI, SEND_KEY, CURSOR_POSITION, TERM_MODE, FBTERM_INFO, DEACTIVE} then SetsOf(ids)
    else []
  }

  // What is owed for messages in a row, the first of them the `first` to be dispatched.
  function OwedAll(active: bool, ms: seq<Message>, first: nat, calls: Callbacks): seq<Sent>
    decreases |ms|
  {
    if ms == [] then []
    else
      Owed(active, ms[0].kind, calls(first)) + OwedAll(Activates(active, ms[0].kind), ms[1..], first + 1, calls)
  }

  // Whether the client is active after a message.
  predicate Activates(active: bool, kind: nat) { kind == ACTIVE || (active && kind != DEACTIVE) }

  // What was sent but pings.
  function Requests(sent: seq<Sent>): seq<Sent> {
    if sent == [] then []
    else Requests(sent[..|sent| - 1]) + if sent[|sent| - 1] == Ping then [] else [sent[|sent| - 1]]
  }

  lemma RequestOne(sent: seq<Sent>, x: Sent)
    ensures Requests(sent + [x]) == Requests(sent) + if x == Ping then [] else [x]
  {
    assert (sent + [x])[..|sent|] == sent;
  }

  // From `s` to `t`, what is owed was sent, in order, and nothing else; if the connection was lost on the
  // way, only the start of it.
  ghost predicate Sends(s: Client, t: Client, owed: seq<Sent>) {
    && Requests(s.sent) <= Requests(t.sent) <= Requests(s.sent) + owed
    && (t.open ==> s.open && Requests(t.sent) == Requests(s.sent) + owed)
    && (!s.open ==> t.sent == s.sent)
  }

  lemma SendsThen(s: Client, u: Client, t: Client, a: seq<Sent>, b: seq<Sent>)
    requires Sends(s, u, a) && Sends(u, t, b)
    ensures Sends(s, t, a + b)
  {
    assert Requests(s.sent) + a + b == Requests(s.sent) + (a + b);
  }

  // A wait sends nothing but a ping.
  lemma WaitSilent(r: Client, kind: nat)
    requires r.open
    ensures var t := Wait(r, kind);
      Requests(t.sent) == Requests(r.sent) && t.active == r.active && t.dispatched == r.dispatched
  {
    RequestOne(r.sent, Ping);
    if Wait(r, kind).open {
      WaitTakesFirst(r, kind);
    } else {
      WaitGivesUp(r, kind);
    }
  }

  lemma SetWindowSends(s: Client, id: nat)
    ensures Sends(s, SetWindow(s, id), if s.active && id < NR_IM_WINS then [SetWin(id)] else [])
    ensures SetWindow(s, id).active == s.active && SetWindow(s, id).dispatched == s.dispatched
  {
    if s.open && s.active && id < NR_IM_WINS {
      RequestOne(s.sent, SetWin(id));
      WaitSilent(s.(sent := s.sent + [SetWin(id)]), ACK_WIN);
    }
  }

  lemma {:induction false} SetWindowsSends(s: Client, ids: seq<nat>)
    ensures Sends(s, SetWindows(s, ids), if s.active then SetsOf(ids) else [])
    ensures SetWindows(s, ids).active == s.active && SetWindows(s, ids).dispatched == s.dispatched
    decreases |ids|
  {
    if ids != [] {
      var u := SetWindow(s, ids[0]);
      SetWindowSends(s, ids[0]);
      SetWindowsSends(u, ids[1..]);
      SendsThen(s, u, SetWindows(s, ids), if s.active && ids[0] < NR_IM_WINS then [SetWin(ids[0])] else [],
                if s.active then SetsOf(ids[1..]) else []);
    }
  }

  lemma HideSends(s: Client, u: Client, owed: seq<Sent>)
    requires Sends(s, u, owed)
    ensures Sends(s, AnswerHide(u), owed + [AckHideUI])
  {
    RequestOne(u.sent, AckHideUI);
    SendsThen(s, u, AnswerHide(u), owed, [AckHideUI]);
  }

  lemma CallbackSends(s: Client, m: Message, ids: seq<nat>)
    ensures var u := Callback(Begin(s, m), m.kind, ids);
      && Sends(s, u, if m.kind == HIDE_UI then (if s.active then SetsOf(ids) else []) else Owed(s.active, m.kind, ids))
      && u.active == (s.active || m.kind == ACTIVE) && u.dispatched == s.dispatched + [m]
  {
    var b := Begin(s, m);
    SetWindowsSends(b, ids);
    assert Requests(b.sent) + [] == Requests(b.sent);
    assert Sends(s, b, []);
    SendsThen(s, b, SetWindows(b, ids), [], if b.active then SetsOf(ids) else []);
  }

  lemma DispatchSends(s: Client, m: Message, calls: Callbacks)
    ensures var t := Dispatch(s, m, calls);
      && Sends(s, t, Owed(s.active, m.kind, calls(|s.dispatched|)))
      && t.active == Activates(s.active, m.kind) && t.dispatched == s.dispatched + [m]
  {
    var ids := calls(|s.dispatched|);
    CallbackSends(s, m, ids);
    if m.kind == HIDE_UI {
      HideSends(s, Callback(Begin(s, m), m.kind, ids), if s.active then SetsOf(ids) else []);
    }
  }

  /** Over a batch, what the callbacks of its messages ask for is sent, and each hide is answered, in the
      order of the messages; and nothing else. */
  lemma {:induction false} DispatchAllSends(s: Client, ms: seq<Message>, calls: Callbacks)
    ensures var t := DispatchAll(s, ms, calls);
      && Sends(s, t, OwedAll(s.active, ms, |s.dispatched|, calls)) && t.dispatched == s.dispatched + ms
      && t.active == ActiveAfter(s.active, ms)
    decreases |ms|
  {
    if ms != [] {
      var u := Dispatch(s, ms[0], calls);
      DispatchSends(s, ms[0], calls);
      DispatchAllSends(u, ms[1..], calls);
      SendsThen(s, u, DispatchAll(s, ms, calls), Owed(s.active, ms[0].kind, calls(|s.dispatched|)),
                OwedAll(u.active, ms[1..], |s.dispatched| + 1, calls));
      assert s.dispatched + [ms[0]] + ms[1..] == s.dispatched + ms;
    } else {
      assert s.dispatched + ms == s.dispatched && Requests(s.sent) + [] == Requests(s.sent);
    }
  }

  predicate ActiveAfter(active: bool, ms: seq<Message>)
    decreases |ms|
  {
    if ms == [] then active else ActiveAfter(Activates(active, ms[0].kind), ms[1..])
  }

  lemma {:induction false} ActiveBoth(active: bool, a: seq<Message>, b: seq<Message>)
    ensures ActiveAfter(active, a + b) == ActiveAfter(ActiveAfter(active, a), b)
    decreases |a|
  {
    if a == [] {
      assert a + b == b;
    } else {
      assert (a + b)[1..] == a[1..] + b;
      ActiveBoth(Activates(active, a[0].kind), a[1..], b);
    }
  }

  lemma {:induction false} OwedBoth(active: bool, a: seq<Message>, b: seq<Message>, first: nat, calls: Callbacks)
    ensures OwedAll(active, a + b, first, calls) ==
      OwedAll(active, a, first, calls) + OwedAll(ActiveAfter(active, a), b, first + |a|, calls)
    decreases |a|
  {
    if a == [] {
      assert a + b == b;
    } else {
      var after, head := Activates(active, a[0].kind), Owed(active, a[0].kind, calls(first));
      assert (a + b)[1..] == a[1..] + b;
      OwedBoth(after, a[1..], b, first + 1, calls);
      Together(head, OwedAll(after, a[1..], first + 1, calls),
               OwedAll(ActiveAfter(active, a), b, first + |a|, calls));
    }
  }

  lemma Together(x: seq<Sent>, y: seq<Sent>, z: seq<Sent>)
    ensures x + (y + z) == x + y + z
  {
  }

  // From `s` to `t` the messages `ms` were dispatched, and what they ask for was sent.
  ghost predicate Serves(s: Client, t: Client, ms: seq<Message>, calls: Callbacks) {
    && t.dispatched == s.dispatched + ms && t.active == ActiveAfter(s.active, ms)
    && Sends(s, t, OwedAll(s.active, ms, |s.dispatched|, calls))
  }

  lemma ServesThen(s: Client, u: Client, t: Client, a: seq<Message>, b: seq<Message>, calls: Callbacks)
    requires Serves(s, u, a, calls) && Serves(u, t, b, calls)
    ensures Serves(s, t, a + b, calls)
  {
    var x, y := OwedAll(s.active, a, |s.dispatched|, calls), OwedAll(u.active, b, |u.dispatched|, calls);
    ActiveBoth(s.active, a, b);
    OwedBoth(s.active, a, b, |s.dispatched|, calls);
    assert OwedAll(s.active, a + b, |s.dispatched|, calls) == x + y;
    SendsThen(s, u, t, x, y);
    assert t.dispatched == s.dispatched + (a + b);
  }

  lemma ServesNothing(s: Client, t: Client, calls: Callbacks)
    requires t.sent == s.sent && t.dispatched == s.dispatched && t.active == s.active && (t.open ==> s.open)
    ensures Serves(s, t, [], calls)
  {
    assert Requests(s.sent) + [] == Requests(s.sent) && s.dispatched + [] == s.dispatched;
  }

  lemma CheckServes(s: Client, calls: Callbacks) returns (ms: seq<Message>)
    ensures Serves(s, Check(s, calls).0, ms, calls)
  {
    ms := [];
    if s.open {
      var s1, d := s.(pending := []), Drain(s, calls);
      DispatchAllSends(s1, Parse(s.pending), calls);
      assert Serves(s, d, Parse(s.pending), calls);
      ms := Parse(s.pending);
      if Arrives(d, CAPACITY) {
        ms := ms + d.input[0].ms;
        DispatchAllSends(Arrive(d), d.input[0].ms, calls);
        assert Serves(d, Check(s, calls).0, d.input[0].ms, calls);
        ServesThen(s, d, Check(s, calls).0, Parse(s.pending), d.input[0].ms, calls);
      } else {
        ServesNothing(d, Check(s, calls).0, calls);
        ServesThen(s, d, Check(s, calls).0, Parse(s.pending), [], calls);
        assert ms + [] == ms;
      }
    } else {
      ServesNothing(s, s, calls);
    }
  }

  lemma {:induction false} PumpServes(s: Client, n: nat, calls: Callbacks) returns (ms: seq<Message>)
    ensures Serves(s, Pump(s, n, calls), ms, calls)
    decreases n
  {
    if n == 0 || !Clean(s.pending) {
      ms := [];
      ServesNothing(s, s, calls);
    } else {
      var (t, more) := Check(s, calls);
      ms := CheckServes(s, calls);
      if more {
        var rest := PumpServes(t, n - 1, calls);
        ServesThen(s, t, Pump(s, n, calls), ms, rest, calls);
        ms := ms + rest;
      }
    }
  }

  /** Over every run: what the client has sent, but for pings, is what the messages it has dispatched ask
      for, in their order; a lost connection cuts off the end. */
  lemma RunSends(input: seq<Read>, n: nat, calls: Callbacks)
    ensures var t := Pump(Start(input), n, calls);
      && Requests(t.sent) <= OwedAll(false, t.dispatched, 0, calls)
      && (t.open ==> Requests(t.sent) == OwedAll(false, t.dispatched, 0, calls))
  {
    var ms := PumpServes(Start(input), n, calls);
    assert [] + ms == ms;
  }

  // ---------------------------------------------------------------- reads that bring nothing

  /** An interrupted read is simply read again, by a wait with room to read ... */
  lemma WaitRetries(s: Client, kind: nat)
    requires s.open && |s.pending| < CAPACITY
    ensures Wait(s.(input := [Again] + s.input), kind) == Wait(s, kind)
  {
    assert ([Again] + s.input)[1..] == s.input;
  }

  /** ... and leaves a turn of the main loop connected; the loop goes on after a turn exactly if its read was
      interrupted, or brought something that does not disconnect. */
  lemma CheckGoesOn(s: Client, calls: Callbacks)
    ensures var d := Drain(s, calls);
      && (Check(s, calls).1 <==>
        && s.open && d.open && d.input != []
        && (d.input[0].Again?
            || (d.input[0].Got? && 0 < |Flatten(d.input[0].ms)| <= CAPACITY && !Disconnects(d.input[0].ms))))
      && (s.open && d.open && d.input != [] && d.input[0].Again? ==> Check(s, calls).0 == d.(input := d.input[1..]))
  {
    if s.open {
      DispatchAllCloses(s.(pending := []), Parse(s.pending), calls);
    }
  }

  /** A wait is answered exactly if one of its reads brings the message it waits for. */
  lemma {:induction false} WaitAnswered(s: Client, kind: nat)
    requires s.open
    ensures Wait(s, kind).open <==> IndexOf(ReadsOf(s, kind), kind) < |ReadsOf(s, kind)|
    decreases |s.input|
  {
    if Retries(s, Room(s)) {
      WaitAnswered(Retry(s), kind);
    } else if Arrives(s, Room(s)) && IndexOf(s.input[0].ms, kind) == |s.input[0].ms| {
      var r := Arrive(s).(pending := s.pending + Flatten(s.input[0].ms));
      WaitAnswered(r, kind);
      IndexOfAppend(s.input[0].ms, ReadsOf(r, kind), kind);
    }
  }
}
