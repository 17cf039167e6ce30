/**
  The bridge between the adapter's byte stream and its SLCAN clients, with
  sockets, goroutines and locks taken away: the line splitter the client
  reader uses, the handling of one client command, the clients' bounded
  outgoing channels, the fan-out of one frame to every open client, and the
  slicing of the adapter stream into 13-byte frames.
*/
module App {
  import opened Wrappers
  import opened Bytes
  import opened EByte
  import opened SlcanFrame
  import opened SlcanCommand

  // ===================== splitting client input into lines =====================

  const CR: byte := 0x0D
  const LF: byte := 0x0A

  predicate IsTerminator(b: byte) {
    b == CR || b == LF
  }

  predicate NoTerminator(s: seq<byte>) {
    forall i :: 0 <= i < |s| ==> !IsTerminator(s[i])
  }

  /** The index of the first `\r` or `\n` in `data`, if there is one. */
  function FirstTerminator(data: seq<byte>): (r: Option<nat>)
    ensures r.Some? ==> r.value < |data| && IsTerminator(data[r.value]) && NoTerminator(data[..r.value])
    ensures r.None? ==> NoTerminator(data)
  {
    if data == [] then
      None
    else if IsTerminator(data[0]) then
      Some(0)
    else
      match FirstTerminator(data[1..])
      case None => None
      case Some(i) =>
        assert data[..i + 1] == [data[0]] + data[1..][..i];
        Some(i + 1)
  }

  /** A terminator with none before it is the one FirstTerminator finds. */
  lemma FirstTerminatorAt(data: seq<byte>, i: nat)
    requires i < |data| && IsTerminator(data[i]) && NoTerminator(data[..i])
    ensures FirstTerminator(data) == Some(i)
  {
  }

  /** The result of splitSLCAN: how many bytes to consume and the token (`None` is Go's nil). */
  datatype Split = Split(advance: nat, token: Option<seq<byte>>)

  /**
    What splitSLCAN returns. With a terminator buffered, the token is the
    terminator-free prefix before it and the terminator is consumed too;
    without one, the rest of a non-empty input is the token at end of
    stream, and otherwise nothing is consumed and more input is requested.
  */
  function SplitLine(data: seq<byte>, atEOF: bool): (r: Split)
    ensures r.advance <= |data|
    ensures r.token.None? <==> NoTerminator(data) && !(atEOF && |data| > 0)
    ensures r.token.None? ==> r.advance == 0
    ensures r.token.Some? ==>
              && NoTerminator(r.token.value)
              && |r.token.value| <= |data|
              && r.token.value == data[..|r.token.value|]
              && (|r.token.value| < |data| ==> r.advance == |r.token.value| + 1 && IsTerminator(data[|r.token.value|]))
              && (|r.token.value| == |data| ==> r.advance == |data| && atEOF)
  {
    match FirstTerminator(data)
    case Some(i) => Split(i + 1, Some(data[..i]))
    case None => if atEOF && |data| > 0 then Split(|data|, Some(data)) else Split(0, None)
  }

  /**
    splitSLCAN: scans for the first `\r` or `\n` and returns early at it,
    as the source's range loop does.
  */
  method SplitSlcan(data: seq<byte>, atEOF: bool) returns (advance: nat, token: Option<seq<byte>>)
    ensures Split(advance, token) == SplitLine(data, atEOF)
  {
    var i := 0;
    while i < |data|
      invariant 0 <= i <= |data|
      invariant NoTerminator(data[..i])
    {
      if data[i] == CR || data[i] == LF {
        FirstTerminatorAt(data, i);
        return i + 1, Some(data[..i]);
      }
      assert data[..i + 1] == data[..i] + [data[i]];
      i := i + 1;
    }
    assert data[..i] == data;
    if atEOF && |data| > 0 {
      return |data|, Some(data);
    }
    return 0, None;
  }

  /** Once a terminator is buffered, the split does not depend on whether the stream has ended. */
  lemma {:induction false} SplitIgnoresEndOfStream(data: seq<byte>)
    requires !NoTerminator(data)
    ensures SplitLine(data, true) == SplitLine(data, false)
    ensures SplitLine(data, true).token.Some?
    ensures FirstTerminator(data).Some? && SplitLine(data, true).advance == FirstTerminator(data).value + 1
  {
  }

  /**
    A split made while only a prefix of the stream is buffered, and the
    stream has not ended, either asks for more input without consuming
    anything or is exactly the split of the whole stream at its end.
  */
  lemma SplitOnPrefix(data: seq<byte>, n: nat)
    requires n <= |data|
    ensures SplitLine(data[..n], false).token.None? ==> SplitLine(data[..n], false).advance == 0
    ensures SplitLine(data[..n], false).token.Some? ==> SplitLine(data[..n], false) == SplitLine(data, true)
  {
    match FirstTerminator(data[..n])
    case None =>
    case Some(i) =>
      assert data[..n][..i] == data[..i];
      FirstTerminatorAt(data, i);
  }

  /**
    The lines a bufio.Scanner driven by splitSLCAN yields over `stream`,
    all of which has arrived and ends at end-of-file.
  */
  function ScanLines(stream: seq<byte>): (lines: seq<seq<byte>>)
    ensures |lines| <= |stream|
    ensures stream != [] ==> lines != []
    decreases |stream|
  {
    var s := SplitLine(stream, true);
    if s.token.None? then [] else [s.token.value] + ScanLines(stream[s.advance..])
  }

  /** No line the scanner yields contains a terminator. */
  lemma {:induction false} ScanLinesTerminatorFree(stream: seq<byte>)
    ensures forall k :: 0 <= k < |ScanLines(stream)| ==> NoTerminator(ScanLines(stream)[k])
    decreases |stream|
  {
    var s := SplitLine(stream, true);
    if s.token.Some? {
      ScanLinesTerminatorFree(stream[s.advance..]);
    }
  }

  /** Lines each followed by a carriage return. */
  function JoinLines(lines: seq<seq<byte>>): seq<byte> {
    if lines == [] then [] else lines[0] + [CR] + JoinLines(lines[1..])
  }

  /**
    Scanning inverts joining: terminated lines come back one by one, and a
    final unterminated tail comes back as one more line unless it is empty.
  */
  lemma {:induction false} ScanJoinedLines(lines: seq<seq<byte>>, tail: seq<byte>)
    requires forall k :: 0 <= k < |lines| ==> NoTerminator(lines[k])
    requires NoTerminator(tail)
    ensures ScanLines(JoinLines(lines) + tail) == lines + (if tail == [] then [] else [tail])
  {
    if lines == [] {
      assert JoinLines(lines) + tail == tail;
      ScanTail(tail);
    } else {
      var more := lines[1..];
      assert forall k :: 0 <= k < |more| ==> more[k] == lines[k + 1];
      ScanJoinedLines(more, tail);
      ScanJoinedStep(lines, tail);
      assert lines == [lines[0]] + more;
    }
  }

  /** The inductive step of ScanJoinedLines: the first line comes out first. */
  lemma ScanJoinedStep(lines: seq<seq<byte>>, tail: seq<byte>)
    requires lines != [] && NoTerminator(lines[0])
    ensures ScanLines(JoinLines(lines) + tail) == [lines[0]] + ScanLines(JoinLines(lines[1..]) + tail)
  {
    var rest := JoinLines(lines[1..]) + tail;
    assert JoinLines(lines) + tail == lines[0] + [CR] + rest;
    ScanFirstLine(lines[0], CR, rest);
  }

  /** A first line ended by `\r` or `\n` is yielded first, and scanning resumes after its terminator. */
  lemma ScanFirstLine(first: seq<byte>, t: byte, rest: seq<byte>)
    requires NoTerminator(first) && IsTerminator(t)
    ensures ScanLines(first + [t] + rest) == [first] + ScanLines(rest)
  {
    var stream := first + [t] + rest;
    assert stream[..|first|] == first;
    FirstTerminatorAt(stream, |first|);
    assert stream[|first| + 1..] == rest;
  }

  /** An unterminated tail is one last line, or nothing if it is empty. */
  lemma ScanTail(tail: seq<byte>)
    requires NoTerminator(tail)
    ensures ScanLines(tail) == if tail == [] then [] else [tail]
  {
    if tail != [] {
      assert tail[|tail|..] == [];
    }
  }

  /** Consecutive terminators yield empty lines: `\r\n` is two empty lines. */
  lemma EmptyLinesExample()
    ensures ScanLines([CR, LF]) == [[], []]
  {
    assert SplitLine([CR, LF], true) == Split(1, Some([]));
    assert [CR, LF][1..] == [LF];
    assert SplitLine([LF], true) == Split(1, Some([]));
    assert [LF][1..] == [];
    assert ScanLines([]) == [];
    assert ScanLines([LF]) == [[]];
  }

  // ===================== client commands =====================

  /** `scanner.Text()`: the token's bytes as characters. */
  function Text(token: seq<byte>): (s: string)
    ensures |s| == |token| && forall i :: 0 <= i < |s| ==> s[i] as int == token[i]
  {
    seq(|token|, i requires 0 <= i < |token| => token[i] as char)
  }

  function Texts(tokens: seq<seq<byte>>): (ss: seq<string>)
    ensures |ss| == |tokens| && forall k :: 0 <= k < |ss| ==> ss[k] == Text(tokens[k])
  {
    seq(|tokens|, k requires 0 <= k < |tokens| => Text(tokens[k]))
  }

  /** The reply for an open or close command. */
  const OK_REPLY: string := "\r"

  /** The reply for any other line: a bell. */
  const BELL_REPLY: string := "\U{7}"

  /**
    The effect of one line on a client: the new bus-open flag and the one
    reply queued. `O...` opens and `C...` closes, both acknowledged with
    `\r`; anything else leaves the flag alone and is answered with a bell.
  */
  function Respond(open: bool, line: string): (r: (bool, string))
    ensures r.1 == (if |line| > 0 && line[0] in {'O', 'C'} then OK_REPLY else BELL_REPLY)
    ensures r.0 == (if |line| > 0 && line[0] == 'O' then true
                    else if |line| > 0 && line[0] == 'C' then false
                    else open)
  {
    match ParseCommand(line).kind
    case CommandOpen => (true, OK_REPLY)
    case CommandClose => (false, OK_REPLY)
    case CommandUnknown => (open, BELL_REPLY)
  }

  /**
    The replies to a sequence of lines, in order, and the final bus-open
    flag: exactly one reply per line.
  */
  function Session(open: bool, lines: seq<string>): (r: (bool, seq<string>))
    ensures |r.1| == |lines|
    ensures forall k :: 0 <= k < |lines| ==>
              r.1[k] == (if |lines[k]| > 0 && lines[k][0] in {'O', 'C'} then OK_REPLY else BELL_REPLY)
    decreases |lines|
  {
    if lines == [] then
      (open, [])
    else
      var step := Respond(open, lines[0]);
      var rest := Session(step.0, lines[1..]);
      (rest.0, [step.1] + rest.1)
  }

  /** Empty lines from consecutive terminators are unknown commands, so each gets a bell. */
  lemma EmptyLinesRingBell(open: bool)
    ensures Session(open, Texts(ScanLines([CR, LF]))) == (open, [BELL_REPLY, BELL_REPLY])
  {
    EmptyLinesExample();
    var lines := Texts(ScanLines([CR, LF]));
    assert Text([]) == "";
    assert lines == ["", ""];
    assert lines[1..] == [""];
    assert Respond(open, "") == (open, BELL_REPLY);
    assert [""][1..] == [];
    assert Session(open, []) == (open, []);
    assert Session(open, [""]).1 == [BELL_REPLY];
    assert Session(open, [""]).0 == open;
    assert Session(open, lines).1 == [BELL_REPLY, BELL_REPLY];
    assert Session(open, lines).0 == open;
  }

  // ===================== outgoing channels =====================

  /** Capacity of each client's outgoing channel (`make(chan string, 16)`). */
  const QUEUE_CAPACITY: nat := 16

  /** A non-blocking send: the message is queued if there is room and dropped otherwise. */
  function Offer(queue: seq<string>, msg: string): seq<string> {
    if |queue| < QUEUE_CAPACITY then queue + [msg] else queue
  }

  /** The broadcast gate: only a client whose bus is open and that is not closed is offered the message. */
  function Deliver(queue: seq<string>, open: bool, closed: bool, msg: string): seq<string> {
    if open && !closed then Offer(queue, msg) else queue
  }

  /** Successive non-blocking sends of `msgs`, in order. */
  function OfferAll(queue: seq<string>, msgs: seq<string>): seq<string> {
    if msgs == [] then queue else Offer(OfferAll(queue, msgs[..|msgs| - 1]), msgs[|msgs| - 1])
  }

  /**
    With nobody draining the channel, successive sends keep the messages
    that fit, in order, and drop every later one: the queue never exceeds
    its capacity and what was queued before is untouched.
  */
  lemma {:induction false} OfferAllKeepsWhatFits(queue: seq<string>, msgs: seq<string>)
    requires |queue| <= QUEUE_CAPACITY
    ensures OfferAll(queue, msgs) == queue + msgs[..Min(|msgs|, QUEUE_CAPACITY - |queue|)]
    ensures |OfferAll(queue, msgs)| <= QUEUE_CAPACITY
  {
    if msgs != [] {
      var n := |msgs| - 1;
      var before := msgs[..n];
      OfferAllKeepsWhatFits(queue, before);
      if n < QUEUE_CAPACITY - |queue| {
        assert before[..n] + [msgs[n]] == msgs[..n + 1];
      } else {
        assert before[..QUEUE_CAPACITY - |queue|] == msgs[..QUEUE_CAPACITY - |queue|];
      }
    }
  }

  /** One connected SLCAN client: its bus-open flag, its closed flag and its outgoing channel. */
  class Client {
    var open: bool
    var closed: bool
    var queue: seq<string>

    ghost predicate Valid()
      reads this
    {
      |queue| <= QUEUE_CAPACITY
    }

    /** A client as acceptClients creates it: bus closed, not closed, empty channel. */
    constructor ()
      ensures Valid() && !open && !closed && queue == []
    {
      open, closed, queue := false, false, [];
    }

    /**
      One line read by handleClientRead: the open flag changes as the command
      says and exactly one reply is queued. The reply is a blocking send, so
      the step completes only when the channel has room. Lines are handled
      only before the reader's deferred close.
    */
    method HandleLine(line: string)
      requires Valid() && !closed && |queue| < QUEUE_CAPACITY
      modifies this
      ensures Valid()
      ensures open == Respond(old(open), line).0
      ensures queue == old(queue) + [Respond(old(open), line).1]
      ensures closed == old(closed)
    {
      var cmd := ParseCommand(line);
      match cmd.kind {
        case CommandOpen =>
          open := true;
          queue := queue + [OK_REPLY];
        case CommandClose =>
          open := false;
          queue := queue + [OK_REPLY];
        case CommandUnknown =>
          queue := queue + [BELL_REPLY];
      }
    }

    /**
      broadcastFrame's `select` with a `default`: queue the message if there
      is room, drop it otherwise. A send on a closed channel panics, so the
      client must not be closed.
    */
    method TrySend(msg: string) returns (sent: bool)
      requires Valid() && !closed
      modifies this`queue
      ensures Valid()
      ensures sent == (|old(queue)| < QUEUE_CAPACITY)
      ensures queue == Offer(old(queue), msg)
    {
      sent := |queue| < QUEUE_CAPACITY;
      if sent {
        queue := queue + [msg];
      }
    }

    /**
      The deferred end of handleClientRead: the client is marked closed (and
      its channel closed). It runs once; closing a closed channel panics.
    */
    method FinishReading()
      requires Valid() && !closed
      modifies this`closed
      ensures Valid() && closed
    {
      closed := true;
    }

    /**
      One receive of handleClientWrite: the oldest queued message, or None
      once the channel is closed and drained. A receive on an empty open
      channel blocks, so the step is taken only in those two cases.
    */
    method Receive() returns (msg: Option<string>)
      requires Valid() && (queue != [] || closed)
      modifies this`queue
      ensures Valid()
      ensures old(queue) != [] ==> msg == Some(old(queue)[0]) && queue == old(queue)[1..]
      ensures old(queue) == [] ==> msg == None && queue == []
    {
      if queue != [] {
        msg := Some(queue[0]);
        queue := queue[1..];
      } else {
        msg := None;
      }
    }
  }

  // ===================== slicing the adapter stream =====================

  /** The consecutive FRAME_SIZE-byte windows at the front of `buf`, in arrival order. */
  function Windows(buf: seq<byte>): (ws: seq<seq<byte>>)
    ensures forall k :: 0 <= k < |ws| ==> |ws[k]| == FRAME_SIZE
    decreases |buf|
  {
    if |buf| < FRAME_SIZE then [] else [buf[..FRAME_SIZE]] + Windows(buf[FRAME_SIZE..])
  }

  /** What remains of `buf` once every complete window is sliced off. */
  function Leftover(buf: seq<byte>): (rest: seq<byte>)
    ensures |rest| < FRAME_SIZE
    decreases |buf|
  {
    if |buf| < FRAME_SIZE then buf else Leftover(buf[FRAME_SIZE..])
  }

  function Concat(ws: seq<seq<byte>>): seq<byte> {
    if ws == [] then [] else ws[0] + Concat(ws[1..])
  }

  /** The windows followed by the leftover are exactly the buffered bytes. */
  lemma {:induction false} WindowsPartition(buf: seq<byte>)
    ensures Concat(Windows(buf)) + Leftover(buf) == buf
    decreases |buf|
  {
    if |buf| >= FRAME_SIZE {
      WindowsPartition(buf[FRAME_SIZE..]);
      var ws := Windows(buf);
      assert ws[1..] == Windows(buf[FRAME_SIZE..]);
      assert buf == buf[..FRAME_SIZE] + buf[FRAME_SIZE..];
    }
  }

  /** Window k is bytes 13k to 13k+13 of the buffer, and there are |buf| / 13 of them. */
  lemma {:induction false} WindowAt(buf: seq<byte>, k: nat)
    ensures |Windows(buf)| == |buf| / FRAME_SIZE
    ensures k < |buf| / FRAME_SIZE ==> Windows(buf)[k] == buf[FRAME_SIZE * k..FRAME_SIZE * k + FRAME_SIZE]
    decreases |buf|
  {
    if |buf| >= FRAME_SIZE {
      var tail := buf[FRAME_SIZE..];
      WindowAt(tail, if k > 0 then k - 1 else 0);
      assert |tail| / FRAME_SIZE == |buf| / FRAME_SIZE - 1;
      if 0 < k < |buf| / FRAME_SIZE {
        assert tail[FRAME_SIZE * (k - 1)..FRAME_SIZE * (k - 1) + FRAME_SIZE]
            == buf[FRAME_SIZE * k..FRAME_SIZE * k + FRAME_SIZE];
      }
    }
  }

  /**
    Frame boundaries do not depend on how the stream is split into reads:
    slicing `b` and then the leftover followed by `c` gives the windows and
    leftover of slicing `b + c` in one go.
  */
  lemma {:induction false} WindowsAcrossReads(b: seq<byte>, c: seq<byte>)
    ensures Windows(b + c) == Windows(b) + Windows(Leftover(b) + c)
    ensures Leftover(b + c) == Leftover(Leftover(b) + c)
    decreases |b|
  {
    if |b| >= FRAME_SIZE {
      assert (b + c)[..FRAME_SIZE] == b[..FRAME_SIZE];
      assert (b + c)[FRAME_SIZE..] == b[FRAME_SIZE..] + c;
      WindowsAcrossReads(b[FRAME_SIZE..], c);
    }
  }

  /** The frames of the windows that decode, in order; a window that fails to decode is skipped. */
  function Decoded(ws: seq<seq<byte>>): (fs: seq<Frame>)
    ensures |fs| <= |ws|
  {
    if ws == [] then
      []
    else
      var last := ws[|ws| - 1];
      Decoded(ws[..|ws| - 1]) + (if ParseFrame(last).Ok? then [ParseFrame(last).value] else [])
  }

  /** Decoding distributes over concatenation: no window is lost, duplicated or reordered. */
  lemma {:induction false} DecodedAppend(a: seq<seq<byte>>, b: seq<seq<byte>>)
    ensures Decoded(a + b) == Decoded(a) + Decoded(b)
  {
    if b != [] {
      var n := |b| - 1;
      assert (a + b)[..|a + b| - 1] == a + b[..n];
      DecodedAppend(a, b[..n]);
    } else {
      assert a + b == a;
    }
  }

  /** Every frame is decoded, in order, when every window is well formed. */
  lemma {:induction false} DecodedAllValid(ws: seq<seq<byte>>)
    requires forall k :: 0 <= k < |ws| ==> ParseFrame(ws[k]).Ok?
    ensures |Decoded(ws)| == |ws|
    ensures forall k :: 0 <= k < |ws| ==> Decoded(ws)[k] == ParseFrame(ws[k]).value
  {
    if ws != [] {
      DecodedAllValid(ws[..|ws| - 1]);
    }
  }

  /** The SLCAN lines of a sequence of frames. */
  function Messages(fs: seq<Frame>): (ms: seq<string>)
    ensures |ms| == |fs| && forall k :: 0 <= k < |fs| ==> ms[k] == Line(fs[k])
  {
    seq(|fs|, k requires 0 <= k < |fs| => Line(fs[k]))
  }

  // ===================== the bridge =====================

  /** The set of connected clients (the source's `map[*client]struct{}`). */
  class Bridge {
    var clients: set<Client>

    ghost predicate Valid()
      reads this, clients
    {
      forall c :: c in clients ==> c.Valid()
    }

    constructor ()
      ensures Valid() && clients == {}
    {
      clients := {};
    }

    /** acceptClients: a new client, bus closed and channel empty, joins the set. */
    method Accept() returns (c: Client)
      requires Valid()
      modifies this
      ensures Valid() && fresh(c)
      ensures clients == old(clients) + {c}
      ensures !c.open && !c.closed && c.queue == []
    {
      c := new Client();
      clients := clients + {c};
    }

    /** runClient's cleanup once both of a client's tasks have ended: the client leaves the set. */
    method Remove(c: Client)
      requires Valid()
      modifies this
      ensures Valid()
      ensures clients == old(clients) - {c}
    {
      clients := clients - {c};
    }

    /**
      broadcastFrame: the frame is encoded once and offered, without
      blocking, to every open client that is not closed; a full channel
      drops it. No flag changes and no other client is touched.
    */
    method Broadcast(frame: Frame)
      requires Valid()
      modifies clients
      ensures Valid()
      ensures forall c :: c in clients ==> c.open == old(c.open) && c.closed == old(c.closed)
      ensures forall c :: c in clients ==> c.queue == Deliver(old(c.queue), c.open, c.closed, Line(frame))
    {
      var msg := EncodeFrame(frame);
      var pending := clients;
      while pending != {}
        invariant pending <= clients
        invariant Valid()
        invariant forall c :: c in clients ==> c.open == old(c.open) && c.closed == old(c.closed)
        invariant forall c :: c in clients && c !in pending ==> c.queue == Deliver(old(c.queue), c.open, c.closed, msg)
        invariant forall c :: c in pending ==> c.queue == old(c.queue)
        decreases pending
      {
        var c :| c in pending;
        if c.open && !c.closed {
          var _ := c.TrySend(msg);
        }
        pending := pending - {c};
      }
    }

    /**
      One step of connectAndServe's frame loop: a window that decodes is
      broadcast, one that does not is skipped.
    */
    method ServeWindow(frameBytes: seq<byte>)
      requires Valid()
      modifies clients
      ensures Valid()
      ensures forall c :: c in clients ==> c.open == old(c.open) && c.closed == old(c.closed)
      ensures forall c :: c in clients ==>
                c.queue == Deliveries(old(c.queue), c.open, c.closed, Messages(Decoded([frameBytes])))
    {
      var parsed := ParseFrame(frameBytes);
      DecodedStep([], frameBytes);
      assert [] + [frameBytes] == [frameBytes];
      if parsed.Ok? {
        var line := Line(parsed.value);
        assert Messages(Decoded([frameBytes])) == [line];
        Broadcast(parsed.value);
        forall c | c in clients
          ensures c.queue == Deliveries(old(c.queue), c.open, c.closed, [line])
        {
          DeliveriesStep(old(c.queue), c.open, c.closed, [], line);
        }
      } else {
        assert Messages(Decoded([frameBytes])) == [];
      }
    }

    /**
      One read of connectAndServe: the chunk is appended to the frame
      buffer, every complete 13-byte window is sliced off in order, each
      window that decodes is broadcast once and each that does not is
      skipped, and the bytes of an incomplete frame are kept for the next read.
    */
    method ServeChunk(frameBuf: seq<byte>, chunk: seq<byte>) returns (rest: seq<byte>)
      requires Valid()
      modifies clients
      ensures Valid()
      ensures rest == Leftover(frameBuf + chunk)
      ensures forall c :: c in clients ==> c.open == old(c.open) && c.closed == old(c.closed)
      ensures forall c :: c in clients ==>
                c.queue == Deliveries(old(c.queue), c.open, c.closed, Messages(Decoded(Windows(frameBuf + chunk))))
    {
      var buf := frameBuf + chunk;
      ghost var done: seq<seq<byte>> := [];
      ghost var sent: seq<string> := [];
      while |buf| >= FRAME_SIZE
        invariant Valid()
        invariant Windows(frameBuf + chunk) == done + Windows(buf)
        invariant Leftover(buf) == Leftover(frameBuf + chunk)
        invariant sent == Messages(Decoded(done))
        invariant forall c :: c in clients ==> c.open == old(c.open) && c.closed == old(c.closed)
        invariant forall c :: c in clients ==> c.queue == Deliveries(old(c.queue), c.open, c.closed, sent)
        decreases |buf|
      {
        var frameBytes := buf[..FRAME_SIZE];
        WindowsStep(buf);
        buf := buf[FRAME_SIZE..];
        ghost var batch := Messages(Decoded([frameBytes]));
        ServeWindow(frameBytes);
        forall c | c in clients
          ensures c.queue == Deliveries(old(c.queue), c.open, c.closed, sent + batch)
        {
          DeliveriesAppend(old(c.queue), c.open, c.closed, sent, batch);
        }
        DecodedAppend(done, [frameBytes]);
        MessagesAppend(Decoded(done), Decoded([frameBytes]));
        done := done + [frameBytes];
        sent := sent + batch;
      }
      WindowsStep(buf);
      assert done + [] == done;
      rest := buf;
    }
  }

  /** One unfolding of Windows and Leftover. */
  lemma WindowsStep(buf: seq<byte>)
    ensures |buf| < FRAME_SIZE ==> Windows(buf) == [] && Leftover(buf) == buf
    ensures |buf| >= FRAME_SIZE ==>
              && Windows(buf) == [buf[..FRAME_SIZE]] + Windows(buf[FRAME_SIZE..])
              && Leftover(buf) == Leftover(buf[FRAME_SIZE..])
  {
  }

  /** The queue of one client after it is offered `msgs` through the broadcast gate. */
  function Deliveries(queue: seq<string>, open: bool, closed: bool, msgs: seq<string>): seq<string> {
    if open && !closed then OfferAll(queue, msgs) else queue
  }

  lemma DecodedStep(ws: seq<seq<byte>>, w: seq<byte>)
    ensures Decoded(ws + [w]) == Decoded(ws) + (if ParseFrame(w).Ok? then [ParseFrame(w).value] else [])
  {
    assert (ws + [w])[..|ws|] == ws;
  }

  lemma MessagesAppend(fs: seq<Frame>, gs: seq<Frame>)
    ensures Messages(fs + gs) == Messages(fs) + Messages(gs)
  {
  }

  /** Offering `a` and then `b` is offering `a + b`. */
  lemma {:induction false} DeliveriesAppend(queue: seq<string>, open: bool, closed: bool, a: seq<string>, b: seq<string>)
    ensures Deliveries(Deliveries(queue, open, closed, a), open, closed, b) == Deliveries(queue, open, closed, a + b)
  {
    if open && !closed {
      OfferAllAppend(queue, a, b);
    }
  }

  lemma {:induction false} OfferAllAppend(queue: seq<string>, a: seq<string>, b: seq<string>)
    ensures OfferAll(OfferAll(queue, a), b) == OfferAll(queue, a + b)
  {
    if b == [] {
      assert a + b == a;
    } else {
      var n := |b| - 1;
      OfferAllAppend(queue, a, b[..n]);
      assert (a + b)[..|a + b| - 1] == a + b[..n];
    }
  }

  lemma DeliveriesStep(queue: seq<string>, open: bool, closed: bool, msgs: seq<string>, m: string)
    ensures Deliver(Deliveries(queue, open, closed, msgs), open, closed, m) == Deliveries(queue, open, closed, msgs + [m])
  {
    assert (msgs + [m])[..|msgs|] == msgs;
  }

  /**
    Over one read, an open client's channel gains the lines of the decoded
    frames that fit, in arrival order, and never exceeds its capacity.
  */
  lemma ServeChunkQueue(queue: seq<string>, frameBuf: seq<byte>, chunk: seq<byte>)
    requires |queue| <= QUEUE_CAPACITY
    ensures var msgs := Messages(Decoded(Windows(frameBuf + chunk)));
      && OfferAll(queue, msgs) == queue + msgs[..Min(|msgs|, QUEUE_CAPACITY - |queue|)]
      && |OfferAll(queue, msgs)| <= QUEUE_CAPACITY
  {
    OfferAllKeepsWhatFits(queue, Messages(Decoded(Windows(frameBuf + chunk))));
  }
}
