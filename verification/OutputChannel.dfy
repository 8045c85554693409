/** The partial-write output queue of one connection: whatever the kernel accepts and when,
    the peer receives the submitted bytes in order, none lost and none repeated. */
module OutputChannel {

  type Byte = x: int | 0 <= x < 256
  type Positive = n: nat | n > 0 witness 1

  /** The kernel's answer to one `send`. */
  datatype Answer = Accepts(most: Positive) | Interrupted | WouldBlock | Fatal

  /** What a blocking-free write loop achieved. */
  datatype Transfer = Transfer(accepted: nat, left: nat, ioOk: bool)

  /** `writeIceData`, for the kernel's answers in order; when they run out it would block. */
  function Push(length: nat, kernel: seq<Answer>, ioOk: bool): (t: Transfer)
    ensures t.accepted + t.left <= length
    ensures t.ioOk ==> t.accepted + t.left == length
    ensures !t.ioOk ==> t.left == 0
    ensures t.ioOk ==> ioOk || length == 0
    decreases |kernel|
  {
    if length == 0 || !ioOk then Transfer(0, 0, ioOk)
    else if kernel == [] then Transfer(0, length, true)
    else
      match kernel[0]
      case Interrupted => Push(length, kernel[1..], true)
      case WouldBlock => Transfer(0, length, true)
      case Fatal => Transfer(0, 0, false)
      case Accepts(most) =>
        var n := if most < length then most else length;
        var rest := Push(length - n, kernel[1..], true);
        rest.(accepted := n + rest.accepted)
  }

  /** What the kernel takes in all. */
  function Capacity(kernel: seq<Answer>): nat {
    if kernel == [] then 0 else (if kernel[0].Accepts? then kernel[0].most else 0) + Capacity(kernel[1..])
  }

  /** The loop reads on to answer `k`: the first that ends it, or the end. */
  ghost predicate EndsAt(kernel: seq<Answer>, k: nat) {
    && k <= |kernel|
    && (forall i :: 0 <= i < k ==> kernel[i].Accepts? || kernel[i].Interrupted?)
    && (k < |kernel| ==> kernel[k].WouldBlock? || kernel[k].Fatal?)
  }

  /** Up to an answer that ends it, the loop sends what the kernel takes; interruptions count for nothing.
      When that is not everything, a fatal error gives up, and otherwise the rest is left. */
  lemma {:induction false} PushMeans(length: nat, kernel: seq<Answer>, k: nat)
    requires EndsAt(kernel, k)
    ensures var taken := Capacity(kernel[..k]);
      Push(length, kernel, true) ==
        if taken >= length then Transfer(length, 0, true)
        else if k < |kernel| && kernel[k].Fatal? then Transfer(taken, 0, false)
        else Transfer(taken, length - taken, true)
    decreases |kernel|
  {
    if k > 0 {
      assert kernel[..k][0] == kernel[0] && kernel[..k][1..] == kernel[1..][..k - 1];
      var n := if kernel[0].Interrupted? then 0 else if kernel[0].most < length then kernel[0].most else length;
      PushMeans(length - n, kernel[1..], k - 1);
    }
  }

  /** A connection that has failed before sends nothing more. */
  lemma FailedSendsNothing(length: nat, kernel: seq<Answer>)
    ensures Push(length, kernel, false) == Transfer(0, 0, false)
  {
  }

  /** `sent` is what the kernel has accepted so far. */
  datatype Channel = Channel(
    sent: seq<Byte>,
    buffer: seq<seq<Byte>>,
    start: nat,
    blocked: bool,
    ioOk: bool)

  const FRESH := Channel([], [], 0, false, true)

  function Concat(chunks: seq<seq<Byte>>): seq<Byte> {
    if chunks == [] then [] else chunks[0] + Concat(chunks[1..])
  }

  ghost predicate Valid(c: Channel) {
    && (c.blocked <==> c.buffer != [])
    && (c.buffer == [] ==> c.start == 0)
    && (c.buffer != [] ==> c.start == 0 || c.start < |c.buffer[0]|)
    && (!c.ioOk ==> !c.blocked)
  }

  /** The bytes still queued, in sending order. */
  ghost function Pending(c: Channel): seq<Byte>
    requires Valid(c)
  {
    if c.buffer == [] then [] else c.buffer[0][c.start..] + Concat(c.buffer[1..])
  }

  ghost function Stream(c: Channel): seq<Byte>
    requires Valid(c)
  {
    c.sent + Pending(c)
  }

  /** `DCOPIceWrite` keeps the whole block and an offset into it; `DCOPIceWriteChar` keeps a
      copy of the part that was not sent. */
  datatype Writer = WholeBlock | RestOnly

  function Write(c: Channel, w: Writer, data: seq<Byte>, kernel: seq<Answer>): Channel {
    if c.blocked then c.(buffer := c.buffer + [data])
    else
      var t := Push(|data|, kernel, c.ioOk);
      var c1 := c.(sent := c.sent + data[..t.accepted], ioOk := t.ioOk);
      if t.left == 0 then c1
      else
        var from := |data| - t.left;
        c1.(blocked := true,
            buffer := c.buffer + [if w.WholeBlock? then data else data[from..]],
            start := if w.WholeBlock? then from else 0)
  }

  /** `slotOutputReady`: one `send` of the rest of the first chunk. A zero-byte `send` that
      does not fail accepts zero bytes. */
  function Ready(c: Channel, a: Answer): Channel
    requires c.buffer != [] && c.start <= |c.buffer[0]|
  {
    if !a.Accepts? then c
    else
      var rest := |c.buffer[0]| - c.start;
      var n := if a.most < rest then a.most else rest;
      var c1 := c.(sent := c.sent + c.buffer[0][c.start..c.start + n], start := c.start + n);
      if c1.start == |c.buffer[0]| then
        c1.(start := 0, buffer := c.buffer[1..], blocked := c.blocked && |c.buffer| > 1)
      else c1
  }

  lemma {:induction false} ConcatAppend(chunks: seq<seq<Byte>>, x: seq<Byte>)
    ensures Concat(chunks + [x]) == Concat(chunks) + x
  {
    if chunks == [] {
      assert chunks + [x] == [x];
      assert Concat([x]) == x + Concat([]);
    } else {
      assert (chunks + [x])[1..] == chunks[1..] + [x];
      ConcatAppend(chunks[1..], x);
    }
  }

  lemma QueuedWrite(c: Channel, w: Writer, data: seq<Byte>, kernel: seq<Answer>)
    requires Valid(c) && c.blocked
    ensures var c' := Write(c, w, data, kernel);
      Valid(c') && c'.sent == c.sent && c'.ioOk && Pending(c') == Pending(c) + data
  {
    assert (c.buffer + [data])[1..] == c.buffer[1..] + [data];
    ConcatAppend(c.buffer[1..], data);
  }

  lemma DirectWrite(c: Channel, w: Writer, data: seq<Byte>, kernel: seq<Answer>)
    requires Valid(c) && !c.blocked
    ensures var c' := Write(c, w, data, kernel);
      var t := Push(|data|, kernel, c.ioOk);
      Valid(c') && c'.sent == c.sent + data[..t.accepted] && c'.ioOk == t.ioOk
      && Pending(c') == data[|data| - t.left..]
  {
  }

  /** A write appends exactly its bytes to the stream; after a fatal error it sends at most a
      prefix of them and queues nothing. */
  lemma WriteAppends(c: Channel, w: Writer, data: seq<Byte>, kernel: seq<Answer>)
    requires Valid(c)
    ensures var c' := Write(c, w, data, kernel);
      && Valid(c') && c.sent <= c'.sent
      && (c'.ioOk ==> Stream(c') == Stream(c) + data)
      && (!c'.ioOk ==> Pending(c') == [] && Stream(c') <= Stream(c) + data)
  {
    if c.blocked {
      QueuedWrite(c, w, data, kernel);
    } else {
      DirectWrite(c, w, data, kernel);
      var t := Push(|data|, kernel, c.ioOk);
      SentInTwoParts(c.sent, data, t.accepted);
      assert Stream(c) == c.sent + [] == c.sent;
    }
  }

  /** From answer `i` on, with `left` bytes to go, the transfer becomes `goal`. */
  ghost predicate Remains(goal: Transfer, length: nat, left: nat, kernel: seq<Answer>, i: nat, ioOk: bool) {
    && left <= length && i <= |kernel|
    && var t := Push(left, kernel[i..], ioOk); goal == t.(accepted := length - left + t.accepted)
  }

  lemma OneAnswer(goal: Transfer, length: nat, left: nat, kernel: seq<Answer>, i: nat)
    requires Remains(goal, length, left, kernel, i, true) && left > 0 && i < |kernel|
    ensures match kernel[i]
      case Interrupted => Remains(goal, length, left, kernel, i + 1, true)
      case WouldBlock => goal == Transfer(length - left, left, true)
      case Fatal => goal == Transfer(length - left, 0, false)
      case Accepts(most) => Remains(goal, length, left - (if most < left then most else left), kernel, i + 1, true)
  {
    assert kernel[i..][1..] == kernel[i + 1..];
  }

  lemma SendMore(sent: seq<Byte>, data: seq<Byte>, from: nat, to: nat)
    requires from <= to <= |data|
    ensures (sent + data[..from]) + data[from..to] == sent + data[..to]
  {
  }

  lemma SentInTwoParts(sent: seq<Byte>, data: seq<Byte>, k: nat)
    requires k <= |data|
    ensures sent <= sent + data[..k] <= sent + data
    ensures (sent + data[..k]) + data[k..] == sent + data
    ensures (sent + data[..k]) + [] == sent + data[..k]
  {
  }

  lemma PartialChunk(c: Channel, most: Positive)
    requires Valid(c) && c.blocked && most < |c.buffer[0]| - c.start
    ensures var c' := Ready(c, Accepts(most));
      Valid(c') && c'.buffer == c.buffer && c'.ioOk == c.ioOk
      && c'.sent == c.sent + c.buffer[0][c.start..c.start + most]
      && Pending(c) == c.buffer[0][c.start..c.start + most] + Pending(c')
  {
    CutChunk(c.buffer[0], c.start, c.start + most, Concat(c.buffer[1..]));
  }

  lemma CutChunk(chunk: seq<Byte>, start: nat, mid: nat, rest: seq<Byte>)
    requires start <= mid <= |chunk|
    ensures chunk[start..] + rest == chunk[start..mid] + (chunk[mid..] + rest)
  {
    assert chunk[start..] == chunk[start..mid] + chunk[mid..];
  }

  lemma WholeChunk(c: Channel, most: Positive)
    requires Valid(c) && c.blocked && most >= |c.buffer[0]| - c.start
    ensures var c' := Ready(c, Accepts(most));
      Valid(c') && c'.buffer == c.buffer[1..] && c'.ioOk == c.ioOk
      && c'.sent == c.sent + c.buffer[0][c.start..]
      && Pending(c) == c.buffer[0][c.start..] + Pending(c')
  {
  }

  /** Sending queued bytes never changes the stream, and every answer that accepts something
      makes the queue strictly smaller: fewer bytes, or the same bytes and fewer chunks. */
  lemma ReadyKeeps(c: Channel, a: Answer)
    requires Valid(c) && c.blocked
    ensures var c' := Ready(c, a);
      && Valid(c') && c.sent <= c'.sent && c'.ioOk == c.ioOk
      && Stream(c') == Stream(c)
      && (a.Accepts? ==> |Pending(c')| + |c'.buffer| < |Pending(c)| + |c.buffer|)
      && (!a.Accepts? ==> c' == c)
  {
    if a.Accepts? {
      if a.most < |c.buffer[0]| - c.start {
        PartialChunk(c, a.most);
      } else {
        WholeChunk(c, a.most);
      }
    }
  }

  // ---------- Runs ----------

  datatype Event = Wrote(w: Writer, data: seq<Byte>, kernel: seq<Answer>) | BecameReady(a: Answer)

  function Step(c: Channel, e: Event): Channel {
    match e
    case Wrote(w, data, kernel) => Write(c, w, data, kernel)
    case BecameReady(a) => if c.buffer != [] && c.start <= |c.buffer[0]| then Ready(c, a) else c
  }

  function After(es: seq<Event>): Channel {
    if es == [] then FRESH else Step(After(es[..|es| - 1]), es[|es| - 1])
  }

  /** Everything submitted along a run. */
  function Submitted(es: seq<Event>): seq<Byte> {
    if es == [] then []
    else Submitted(es[..|es| - 1]) + (if es[|es| - 1].Wrote? then es[|es| - 1].data else [])
  }

  /** In every run, what was sent is a prefix of what was submitted; without a fatal error the
      rest is exactly what is queued, and the channel is blocked exactly while chunks wait. */
  lemma {:induction false} StreamIntact(es: seq<Event>)
    ensures var c := After(es);
      && Valid(c)
      && (c.blocked <==> c.buffer != [])
      && (c.ioOk ==> c.sent + Pending(c) == Submitted(es))
      && c.sent <= Submitted(es)
      && (!c.ioOk ==> c.buffer == [])
  {
    if es != [] {
      var prefix, e := es[..|es| - 1], es[|es| - 1];
      var c := After(prefix);
      StreamIntact(prefix);
      match e
      case Wrote(w, data, kernel) =>
        WriteAppends(c, w, data, kernel);
        PushKeepsFailure(|data|, kernel);
      case BecameReady(a) =>
        if c.blocked { ReadyKeeps(c, a); }
    }
  }

  /** After a fatal error nothing more is accepted. */
  lemma PushKeepsFailure(length: nat, kernel: seq<Answer>)
    ensures Push(length, kernel, false) == Transfer(0, 0, false)
  {
  }

  function ReadyAll(c: Channel, answers: seq<Answer>): Channel
    decreases |answers|
  {
    if answers == [] then c else ReadyAll(Step(c, BecameReady(answers[0])), answers[1..])
  }

  function Acceptances(answers: seq<Answer>): nat {
    if answers == [] then 0 else (if answers[0].Accepts? then 1 else 0) + Acceptances(answers[1..])
  }

  /** Once the kernel has accepted often enough, whatever the sizes and whatever the other
      answers, the queue has drained and the whole stream got through. */
  lemma {:induction false} Drains(c: Channel, answers: seq<Answer>)
    requires Valid(c) && Acceptances(answers) >= |Pending(c)| + |c.buffer|
    ensures var c' := ReadyAll(c, answers);
      Valid(c') && !c'.blocked && c'.sent == Stream(c)
    decreases |answers|
  {
    if c.blocked {
      ReadyKeeps(c, answers[0]);
      Drains(Ready(c, answers[0]), answers[1..]);
    } else {
      Idle(c, answers);
    }
  }

  lemma {:induction false} Idle(c: Channel, answers: seq<Answer>)
    requires c.buffer == []
    ensures ReadyAll(c, answers) == c
    decreases |answers|
  {
    if answers != [] {
      Idle(c, answers[1..]);
    }
  }

  // ---------- The connection object ----------

  class Output {
    var outputBlocked: bool
    var outputBuffer: seq<seq<Byte>>
    var outputBufferStart: nat
    var ioOk: bool
    /** What the kernel has accepted. */
    ghost var sent: seq<Byte>

    ghost function State(): Channel
      reads this
    {
      Channel(sent, outputBuffer, outputBufferStart, outputBlocked, ioOk)
    }

    constructor ()
      ensures State() == FRESH
    {
      outputBlocked, outputBuffer, outputBufferStart, ioOk := false, [], 0, true;
      sent := [];
    }

    /** The `send` loop; returns how many bytes are left. */
    method WriteIceData(data: seq<Byte>, kernel: seq<Answer>) returns (nleft: nat)
      modifies this`ioOk, this`sent
      ensures var t := Push(|data|, kernel, old(ioOk));
        nleft == t.left && ioOk == t.ioOk && sent == old(sent) + data[..t.accepted]
    {
      nleft := |data|;
      var i := 0;
      ghost var goal := Push(|data|, kernel, ioOk);
      while nleft > 0
        invariant nleft <= |data| && i <= |kernel|
        invariant sent == old(sent) + data[..|data| - nleft]
        invariant Remains(goal, |data|, nleft, kernel, i, ioOk)
        decreases |kernel| - i, nleft
      {
        if !ioOk {
          return 0;
        }
        if i == |kernel| {
          return;
        }
        var answer := kernel[i];
        OneAnswer(goal, |data|, nleft, kernel, i);
        i := i + 1;
        match answer {
          case Interrupted =>
          case WouldBlock => return;
          case Fatal =>
            ioOk := false;
            return 0;
          case Accepts(most) =>
            var n := if most < nleft then most else nleft;
            SendMore(old(sent), data, |data| - nleft, |data| - nleft + n);
            sent := sent + data[|data| - nleft..|data| - nleft + n];
            nleft := nleft - n;
        }
      }
    }

    method IceWrite(w: Writer, data: seq<Byte>, kernel: seq<Answer>)
      modifies this
      ensures State() == Write(old(State()), w, data, kernel)
    {
      if outputBlocked {
        outputBuffer := outputBuffer + [data];
        return;
      }
      var nleft := WriteIceData(data, kernel);
      if nleft > 0 {
        if w.WholeBlock? {
          WaitForOutputReady(data, |data| - nleft);
        } else {
          WaitForOutputReady(data[|data| - nleft..], 0);
        }
      }
    }

    method WaitForOutputReady(data: seq<Byte>, start: nat)
      modifies this`outputBlocked, this`outputBuffer, this`outputBufferStart
      ensures State() == old(State()).(blocked := true, buffer := old(outputBuffer) + [data], start := start)
    {
      outputBlocked := true;
      outputBuffer := outputBuffer + [data];
      outputBufferStart := start;
    }

    method SlotOutputReady(answer: Answer)
      requires outputBuffer != [] && outputBufferStart <= |outputBuffer[0]|
      modifies this
      ensures State() == Ready(old(State()), answer)
    {
      var data := outputBuffer[0];
      if !answer.Accepts? {
        return;
      }
      var rest := |data| - outputBufferStart;
      var nwritten := if answer.most < rest then answer.most else rest;
      sent := sent + data[outputBufferStart..outputBufferStart + nwritten];
      outputBufferStart := outputBufferStart + nwritten;
      if outputBufferStart == |data| {
        outputBufferStart := 0;
        outputBuffer := outputBuffer[1..];
        if outputBuffer == [] {
          outputBlocked := false;
        }
      }
    }
  }
}
