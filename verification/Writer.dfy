/**
 The writer task (pajamax/src/response_end.rs, pajamax/src/http2.rs): it turns response jobs, in the
 order they come, into frames. The claim is what a client makes of the octets: a client that cuts
 them into frames and decodes the header blocks by RFC 7541 sees exactly what each job intended.
*/
module Writer {
  import opened Wrappers
  import opened Bits
  import HpackInt
  import opened HpackReference
  import opened HpackFields
  import opened HpackEncoder
  import opened Http2

  datatype Job =
    | Reply(id: nat, msg: seq<byte>)
    | Status(id: nat, code: nat, message: seq<byte>)
    | WindowUpdates(len: nat, lens: seq<(nat, nat)>)
    | Write(buf: seq<byte>)

  // ---------------------------------------------------------------- specification

  function HeadersFrame(id: nat, fs: seq<Field>, end: bool): Frame
    requires AllWritable(fs)
  {
    Frame(Headers, if end then 5 else 4, id, BlockBytes(fs))
  }

  /** A message with the prefix of gRPC: not compressed, and its length. */
  function MessagePayload(msg: seq<byte>): seq<byte> {
    ([0] + BeBytes(|msg|)) + msg
  }

  function MessageFrame(id: nat, msg: seq<byte>): Frame {
    Frame(FrameKind.Data, 0, id, MessagePayload(msg))
  }

  function CreditFrame(id: nat, n: nat): Frame {
    Frame(WindowUpdate, 0, id, BeBytes(n))
  }

  function CreditFrames(lens: seq<(nat, nat)>): seq<Frame> {
    if lens == [] then [] else [CreditFrame(lens[0].0, lens[0].1)] + CreditFrames(lens[1..])
  }

  /** The frames of a job, from the encoder's ranks; a Write carries ready octets. */
  function JobFrames(r: Ranks, job: Job): seq<Frame>
    requires Consistent(r)
  {
    match job
    case Reply(id, msg) =>
      [HeadersFrame(id, OpeningFields(r), false), MessageFrame(id, msg),
        HeadersFrame(id, TrailerFields(AfterContentType(r)), true)]
    case Status(id, code, message) => [HeadersFrame(id, FailureFields(r, code, message), true)]
    case WindowUpdates(len, lens) => if len > 0 then [CreditFrame(0, len)] + CreditFrames(lens) else []
    case Write(buf) => ParseFrames(buf).0
  }

  function JobBytes(r: Ranks, job: Job): seq<byte>
    requires Consistent(r)
  {
    if job.Write? then job.buf else FramesBytes(JobFrames(r, job))
  }

  function AfterJob(r: Ranks, job: Job): (r': Ranks)
    requires Consistent(r)
    ensures Consistent(r')
  {
    match job
    case Reply(_, _) => AfterStatusZero(AfterContentType(r))
    case Status(_, _, _) => AfterContentType(r)
    case _ => r
  }

  function WriterBytes(r: Ranks, jobs: seq<Job>): seq<byte>
    requires Consistent(r)
    decreases |jobs|
  {
    if jobs == [] then [] else JobBytes(r, jobs[0]) + WriterBytes(AfterJob(r, jobs[0]), jobs[1..])
  }

  function WriterFrames(r: Ranks, jobs: seq<Job>): seq<Frame>
    requires Consistent(r)
    decreases |jobs|
  {
    if jobs == [] then [] else JobFrames(r, jobs[0]) + WriterFrames(AfterJob(r, jobs[0]), jobs[1..])
  }

  // ---------------------------------------------------------------- building in place

  /** The header of a frame, written over the octets reserved for it. */
  lemma FillHead(out0: seq<byte>, hole: seq<byte>, payload: seq<byte>, head: seq<byte>)
    requires |hole| == |head|
    ensures Overwrite((out0 + hole) + payload, |out0|, head) == out0 + (head + payload)
  {}

  lemma OneFrame(f: Frame)
    ensures FramesBytes([f]) == FrameBytes(f)
  {
    assert FrameBytes(f) + FramesBytes([]) == FrameBytes(f);
  }

  /** Ends a frame begun with nine octets reserved at `start`. */
  method EndFrame(kind: FrameKind, flags: byte, id: nat, output0: seq<byte>, start: nat, ghost before: seq<byte>,
          ghost payload: seq<byte>)
    returns (output: seq<byte>)
    requires start == |before| && output0 == (before + Zeros(HEAD_SIZE)) + payload
    ensures output == before + FrameBytes(Frame(kind, flags, id, payload))
  {
    FillHead(before, Zeros(HEAD_SIZE), payload, HeadBytes(|payload|, kind, flags, id));
    output := BuildHead(|output0| - start - HEAD_SIZE, kind, flags, id, output0, start);
  }

  method BuildOpening(id: nat, encoder: Encoder, output0: seq<byte>) returns (output: seq<byte>)
    requires Consistent(encoder.Abs())
    modifies encoder
    ensures output == output0 + FrameBytes(HeadersFrame(id, OpeningFields(old(encoder.Abs())), false))
    ensures encoder.Abs() == AfterContentType(old(encoder.Abs()))
  {
    ghost var fs := OpeningFields(encoder.Abs());
    var start := |output0|;
    output := output0 + Zeros(HEAD_SIZE);
    ghost var reserved := output;
    output := encoder.EncodeStatus200(output);
    output := encoder.EncodeContentType(output);
    output := encoder.EncodeGrpcAcceptEncoding(output);
    ThreeFields(reserved, fs);
    output := EndFrame(Headers, END_HEADERS, id, output, start, output0, BlockBytes(fs));
  }

  /** Appending a field and then the block of the rest. */
  lemma NextField(out: seq<byte>, fs: seq<Field>, i: nat)
    requires i < |fs| && AllWritable(fs)
    ensures (out + FieldBytes(fs[i])) + BlockBytes(fs[i + 1..]) == out + BlockBytes(fs[i..])
  {
    assert fs[i..][1..] == fs[i + 1..];
    AppendAssoc(out, FieldBytes(fs[i]), BlockBytes(fs[i + 1..]));
  }

  lemma ThreeFields(out: seq<byte>, fs: seq<Field>)
    requires |fs| == 3 && AllWritable(fs)
    ensures out + FieldBytes(fs[0]) + FieldBytes(fs[1]) + FieldBytes(fs[2]) == out + BlockBytes(fs)
  {
    var out1 := out + FieldBytes(fs[0]);
    var out2 := out1 + FieldBytes(fs[1]);
    NextField(out, fs, 0);
    NextField(out1, fs, 1);
    NextField(out2, fs, 2);
    EmptyBlock(out2 + FieldBytes(fs[2]), fs[3..]);
    assert fs[0..] == fs;
  }

  lemma EmptyBlock(out: seq<byte>, fs: seq<Field>)
    requires fs == []
    ensures out + BlockBytes(fs) == out
  {}

  method BuildMessage(id: nat, msg: seq<byte>, output0: seq<byte>) returns (output: seq<byte>)
    ensures output == output0 + FrameBytes(MessageFrame(id, msg))
  {
    var dataStart := |output0|;
    var payloadStart := dataStart + HEAD_SIZE;
    var msgStart := payloadStart + 5;
    output := output0 + Zeros(HEAD_SIZE + 5);
    output := output + msg;
    var msgLen := |output| - msgStart;
    var payloadLen := msgLen + 5;
    var head := HeadBytes(payloadLen, FrameKind.Data, 0, id);
    output := BuildHead(payloadLen, FrameKind.Data, 0, id, output, dataStart);
    output := CopyInto(output, payloadStart + 1, BeBytes(msgLen));
    MessageInPlace(output0, head, BeBytes(msgLen), msg);
  }

  lemma MessageInPlace(out0: seq<byte>, head: seq<byte>, len: seq<byte>, msg: seq<byte>)
    requires |head| == HEAD_SIZE && |len| == 4
    ensures Overwrite(Overwrite((out0 + Zeros(HEAD_SIZE + 5)) + msg, |out0|, head), |out0| + HEAD_SIZE + 1, len) ==
            out0 + (head + (([0] + len) + msg))
  {
    var a := Overwrite((out0 + Zeros(HEAD_SIZE + 5)) + msg, |out0|, head);
    assert a == (out0 + head) + (Zeros(5) + msg);
    assert a[..|out0| + HEAD_SIZE + 1] == (out0 + head) + [0];
    assert a[|out0| + HEAD_SIZE + 5..] == msg;
  }

  method BuildTrailers(id: nat, encoder: Encoder, output0: seq<byte>) returns (output: seq<byte>)
    requires Consistent(encoder.Abs())
    modifies encoder
    ensures output == output0 + FrameBytes(HeadersFrame(id, TrailerFields(old(encoder.Abs())), true))
    ensures encoder.Abs() == AfterStatusZero(old(encoder.Abs()))
  {
    ghost var fs := TrailerFields(encoder.Abs());
    var start := |output0|;
    output := output0 + Zeros(HEAD_SIZE);
    output := encoder.EncodeGrpcStatusZero(output);
    assert BlockBytes(fs) == FieldBytes(fs[0]) by {
      assert fs[1..] == [];
    }
    output := EndFrame(Headers, END_HEADERS + END_STREAM, id, output, start, output0, BlockBytes(fs));
  }

  method BuildResponse(id: nat, msg: seq<byte>, encoder: Encoder, output0: seq<byte>) returns (output: seq<byte>)
    requires Consistent(encoder.Abs())
    modifies encoder
    ensures output == output0 + JobBytes(old(encoder.Abs()), Reply(id, msg))
    ensures encoder.Abs() == AfterJob(old(encoder.Abs()), Reply(id, msg))
  {
    ghost var fs := JobFrames(encoder.Abs(), Reply(id, msg));
    output := BuildOpening(id, encoder, output0);
    output := BuildMessage(id, msg, output);
    output := BuildTrailers(id, encoder, output);
    ThreeFrames(output0, fs[0], fs[1], fs[2]);
  }

  lemma ThreeFrames(out: seq<byte>, a: Frame, b: Frame, c: Frame)
    ensures out + FrameBytes(a) + FrameBytes(b) + FrameBytes(c) == out + FramesBytes([a, b, c])
  {
    OneFrame(c);
    assert [b, c][1..] == [c] && [a, b, c][1..] == [b, c];
    assert FramesBytes([a, b, c]) == FrameBytes(a) + (FrameBytes(b) + FrameBytes(c));
  }

  method EncodeFailure(code: nat, message: seq<byte>, encoder: Encoder, output0: seq<byte>) returns (output: seq<byte>)
    requires Consistent(encoder.Abs())
    modifies encoder
    ensures output == output0 + BlockBytes(FailureFields(old(encoder.Abs()), code, message))
    ensures encoder.Abs() == AfterContentType(old(encoder.Abs()))
  {
    ghost var r := encoder.Abs();
    output := encoder.EncodeStatus200(output0);
    output := encoder.EncodeContentType(output);
    output := encoder.EncodeGrpcAcceptEncoding(output);
    output := encoder.EncodeGrpcStatusNonzero(code, output);
    output := encoder.EncodeGrpcMessage(message, output);
    FailureBlock(r, code, message, output0);
  }

  /** The fields of a failure, one after another. */
  lemma FailureBlock(r: Ranks, code: nat, message: seq<byte>, out: seq<byte>)
    requires Consistent(r)
    ensures var fs := FailureFields(r, code, message);
            && |fs| == 5 && AllWritable(fs)
            && out + BlockBytes(fs) ==
               out + FieldBytes(fs[0]) + FieldBytes(fs[1]) + FieldBytes(fs[2]) + FieldBytes(fs[3]) + FieldBytes(fs[4])
  {
    FiveFields(out, FailureFields(r, code, message));
  }

  method BuildStatus(id: nat, code: nat, message: seq<byte>, encoder: Encoder, output0: seq<byte>)
    returns (output: seq<byte>)
    requires Consistent(encoder.Abs())
    modifies encoder
    ensures output == output0 + JobBytes(old(encoder.Abs()), Status(id, code, message))
    ensures encoder.Abs() == AfterJob(old(encoder.Abs()), Status(id, code, message))
  {
    ghost var fs := FailureFields(encoder.Abs(), code, message);
    var start := |output0|;
    output := output0 + Zeros(HEAD_SIZE);
    output := EncodeFailure(code, message, encoder, output);
    output := EndFrame(Headers, END_HEADERS + END_STREAM, id, output, start, output0, BlockBytes(fs));
    OneFrame(HeadersFrame(id, fs, true));
  }

  lemma FiveFields(out: seq<byte>, fs: seq<Field>)
    requires |fs| == 5 && AllWritable(fs)
    ensures out + FieldBytes(fs[0]) + FieldBytes(fs[1]) + FieldBytes(fs[2]) + FieldBytes(fs[3]) + FieldBytes(fs[4]) ==
            out + BlockBytes(fs)
  {
    var out1 := out + FieldBytes(fs[0]);
    var out2 := out1 + FieldBytes(fs[1]);
    var out3 := out2 + FieldBytes(fs[2]);
    var out4 := out3 + FieldBytes(fs[3]);
    NextField(out, fs, 0);
    NextField(out1, fs, 1);
    NextField(out2, fs, 2);
    NextField(out3, fs, 3);
    NextField(out4, fs, 4);
    EmptyBlock(out4 + FieldBytes(fs[4]), fs[5..]);
    assert fs[0..] == fs;
  }

  method BuildWindowUpdate(len: nat, id: nat, output0: seq<byte>) returns (output: seq<byte>)
    ensures output == output0 + FrameBytes(CreditFrame(id, len))
  {
    var start := |output0|;
    output := output0 + Zeros(HEAD_SIZE + 4);
    output := BuildHead(4, WindowUpdate, 0, id, output, start);
    output := CopyInto(output, start + HEAD_SIZE, BeBytes(len));
    PayloadInPlace(output0, HeadBytes(4, WindowUpdate, 0, id), BeBytes(len));
  }

  method BuildRstStream(id: nat, errorCode: nat, output0: seq<byte>) returns (output: seq<byte>)
    ensures output == output0 + FrameBytes(Frame(Reset, 0, id, BeBytes(errorCode)))
  {
    var start := |output0|;
    output := output0 + Zeros(HEAD_SIZE + 4);
    output := BuildHead(4, Reset, 0, id, output, start);
    output := CopyInto(output, start + HEAD_SIZE, BeBytes(errorCode));
    PayloadInPlace(output0, HeadBytes(4, Reset, 0, id), BeBytes(errorCode));
  }

  method BuildSettingsAck(output0: seq<byte>) returns (output: seq<byte>)
    ensures output == output0 + FrameBytes(Frame(Settings, ACK, 0, []))
  {
    var start := |output0|;
    output := output0 + Zeros(HEAD_SIZE);
    output := BuildHead(0, Settings, ACK, 0, output, start);
    assert output == output0 + (HeadBytes(0, Settings, ACK, 0) + []);
  }

  method BuildPingAck(payload: seq<byte>, output0: seq<byte>) returns (output: seq<byte>)
    requires |payload| == 8
    ensures output == output0 + FrameBytes(Frame(Ping, ACK, 0, payload))
  {
    var start := |output0|;
    output := output0 + Zeros(HEAD_SIZE + 8);
    output := BuildHead(8, Ping, ACK, 0, output, start);
    output := CopyInto(output, start + HEAD_SIZE, payload);
    PayloadInPlace(output0, HeadBytes(8, Ping, ACK, 0), payload);
  }

  /** A frame of fixed length: its header and then its payload, over zeros. */
  lemma PayloadInPlace(out0: seq<byte>, head: seq<byte>, payload: seq<byte>)
    requires |head| == HEAD_SIZE
    ensures Overwrite(Overwrite(out0 + Zeros(HEAD_SIZE + |payload|), |out0|, head), |out0| + HEAD_SIZE, payload) ==
            out0 + (head + payload)
  {
    OverwriteOn(out0 + Zeros(HEAD_SIZE + |payload|), |out0|, head, payload);
  }

  method BuildJob(job: Job, encoder: Encoder) returns (output: seq<byte>)
    requires Consistent(encoder.Abs())
    modifies encoder
    ensures output == JobBytes(old(encoder.Abs()), job)
    ensures encoder.Abs() == AfterJob(old(encoder.Abs()), job)
  {
    output := [];
    match job {
      case Reply(id, msg) =>
        output := BuildResponse(id, msg, encoder, output);
      case Status(id, code, message) =>
        output := BuildStatus(id, code, message, encoder, output);
      case WindowUpdates(len, lens) =>
        if len > 0 {
          output := BuildWindowUpdates(len, lens, output);
        }
      case Write(buf) =>
        output := output + buf;
    }
  }

  lemma WriterStep(r: Ranks, jobs: seq<Job>, i: nat, written: seq<byte>)
    requires Consistent(r) && i < |jobs|
    ensures written + WriterBytes(r, jobs[i..]) ==
            (written + JobBytes(r, jobs[i])) + WriterBytes(AfterJob(r, jobs[i]), jobs[i + 1..])
    ensures JobBytes(r, jobs[i]) == [] ==> written + JobBytes(r, jobs[i]) == written
  {
    assert jobs[i..][1..] == jobs[i + 1..];
    AppendAssoc(written, JobBytes(r, jobs[i]), WriterBytes(AfterJob(r, jobs[i]), jobs[i + 1..]));
  }

  /** The task: each job is built into an empty buffer and written out at once. */
  method WriterTask(jobs: seq<Job>) returns (written: seq<byte>)
    ensures written == WriterBytes(NO_RANKS, jobs)
  {
    var encoder := new Encoder();
    written := [];
    var i := 0;
    while i < |jobs|
      invariant 0 <= i <= |jobs|
      invariant Consistent(encoder.Abs())
      invariant written + WriterBytes(encoder.Abs(), jobs[i..]) == WriterBytes(NO_RANKS, jobs)
      modifies encoder
    {
      ghost var r := encoder.Abs();
      var output := BuildJob(jobs[i], encoder);
      WriterStep(r, jobs, i, written);
      if output != [] {
        written := written + output;
      }
      i := i + 1;
    }
  }

  method BuildWindowUpdates(len: nat, lens: seq<(nat, nat)>, output0: seq<byte>) returns (output: seq<byte>)
    requires len > 0
    ensures output == output0 + FramesBytes([CreditFrame(0, len)] + CreditFrames(lens))
  {
    output := BuildWindowUpdate(len, 0, output0);
    OneFrame(CreditFrame(0, len));
    ghost var done := [CreditFrame(0, len)];
    var i := 0;
    while i < |lens|
      invariant 0 <= i <= |lens|
      invariant output == output0 + FramesBytes(done)
      invariant done + CreditFrames(lens[i..]) == [CreditFrame(0, len)] + CreditFrames(lens)
    {
      var (id, n) := lens[i];
      output := BuildWindowUpdate(n, id, output);
      OneFrame(CreditFrame(id, n));
      FramesBytesAppend(done, [CreditFrame(id, n)]);
      AppendAssoc(output0, FramesBytes(done), FrameBytes(CreditFrame(id, n)));
      assert lens[i..][1..] == lens[i + 1..];
      AppendAssoc(done, [CreditFrame(id, n)], CreditFrames(lens[i + 1..]));
      done := done + [CreditFrame(id, n)];
      i := i + 1;
    }
    assert done + [] == done;
  }

  // ---------------------------------------------------------------- the client

  /** A client with the standard tables that takes integers of five octets. No Huffman string is written. */
  ghost predicate Client(std: Standard) {
    |std.huffman| == 257 && ValidStatics(std.statics) && std.maxInt >= HpackInt.MAX_BYTES
  }

  /** What a client learns from a frame. */
  datatype Event =
    | HeaderList(id: nat, headers: seq<Header>, end: bool)
    | Message(id: nat, msg: seq<byte>, end: bool)
    | Credit(id: nat, n: nat)
    | Control(frame: Frame)

  /** The message of a DATA payload that holds one whole uncompressed gRPC message. */
  function GrpcMessage(payload: seq<byte>): Option<seq<byte>> {
    if |payload| < 5 || payload[0] != 0 || FromBe(payload[1..5]) != |payload| - 5 then None
    else Some(payload[5..])
  }

  /** One frame, with the state of the client's header decoder. */
  function ReadFrame(std: Standard, p: Peer, f: Frame): Option<(Peer, Event)>
    requires |std.huffman| == 257 && |std.statics| == STATIC_LEN
  {
    match f.kind
    case Headers =>
      if !IsEndHeaders(f.flags) || IsPadded(f.flags) || IsPriority(f.flags) then None
      else (
        match DecodeBlock(std, p, f.payload)
        case Some((p', hs)) => Some((p', HeaderList(f.id, hs, IsEndStream(f.flags))))
        case None => None
      )
    case Data =>
      if IsPadded(f.flags) then None
      else (
        match GrpcMessage(f.payload)
        case Some(msg) => Some((p, Message(f.id, msg, IsEndStream(f.flags))))
        case None => None
      )
    case WindowUpdate =>
      if |f.payload| == 4 then Some((p, Credit(f.id, FromBe(f.payload) % U31))) else None
    case _ => Some((p, Control(f)))
  }

  function ReadFrames(std: Standard, p: Peer, fs: seq<Frame>): Option<(Peer, seq<Event>)>
    requires |std.huffman| == 257 && |std.statics| == STATIC_LEN
    decreases |fs|
  {
    if fs == [] then Some((p, []))
    else
      match ReadFrame(std, p, fs[0])
      case None => None
      case Some((p', e)) =>
        match ReadFrames(std, p', fs[1..])
        case None => None
        case Some((p'', es)) => Some((p'', [e] + es))
  }

  function Credits(lens: seq<(nat, nat)>): seq<Event> {
    if lens == [] then [] else [Credit(lens[0].0, lens[0].1)] + Credits(lens[1..])
  }

  function Controls(fs: seq<Frame>): seq<Event> {
    if fs == [] then [] else [Control(fs[0])] + Controls(fs[1..])
  }

  /** What a job means to the client of its stream. */
  function JobEvents(job: Job): seq<Event> {
    match job
    case Reply(id, msg) =>
      [HeaderList(id, OPENING, false), Message(id, msg, false), HeaderList(id, [STATUS_ZERO], true)]
    case Status(id, code, message) => [HeaderList(id, Failure(code, message), true)]
    case WindowUpdates(len, lens) => if len > 0 then [Credit(0, len)] + Credits(lens) else []
    case Write(buf) => Controls(ParseFrames(buf).0)
  }

  function JobsEvents(jobs: seq<Job>): seq<Event> {
    if jobs == [] then [] else JobEvents(jobs[0]) + JobsEvents(jobs[1..])
  }

  predicate IsControl(f: Frame) {
    f.kind == Reset || f.kind == Settings || f.kind == Ping
  }

  /** A job HTTP/2 has room for: payloads below 2^24 octets, identifiers and credit below 2^31. */
  ghost predicate JobFits(r: Ranks, job: Job)
    requires Consistent(r)
  {
    && (forall i :: 0 <= i < |JobFrames(r, job)| ==> Sound(JobFrames(r, job)[i]))
    && match job
       case WindowUpdates(len, lens) => len < U31 && forall i :: 0 <= i < |lens| ==> lens[i].1 < U31
       case Write(buf) => ParseFrames(buf).1 == [] && FramesBytes(ParseFrames(buf).0) == buf
                          && forall i :: 0 <= i < |ParseFrames(buf).0| ==> IsControl(ParseFrames(buf).0[i])
       case _ => true
  }

  ghost predicate JobsFit(r: Ranks, jobs: seq<Job>)
    requires Consistent(r)
    decreases |jobs|
  {
    jobs != [] ==> JobFits(r, jobs[0]) && JobsFit(AfterJob(r, jobs[0]), jobs[1..])
  }

  lemma {:induction false} ReadAppend(std: Standard, p: Peer, a: seq<Frame>, p1: Peer, es: seq<Event>, b: seq<Frame>,
          p2: Peer, es': seq<Event>)
    requires |std.huffman| == 257 && |std.statics| == STATIC_LEN
    requires ReadFrames(std, p, a) == Some((p1, es)) && ReadFrames(std, p1, b) == Some((p2, es'))
    ensures ReadFrames(std, p, a + b) == Some((p2, es + es'))
    decreases |a|
  {
    if a == [] {
      assert a + b == b && es + es' == es';
    } else {
      var (q, e) := ReadFrame(std, p, a[0]).value;
      var es1 := ReadFrames(std, q, a[1..]).value.1;
      assert (a + b)[1..] == a[1..] + b;
      ReadAppend(std, q, a[1..], p1, es1, b, p2, es');
      AppendAssoc([e], es1, es');
    }
  }

  lemma ReadOne(std: Standard, p: Peer, f: Frame, p1: Peer, e: Event)
    requires |std.huffman| == 257 && |std.statics| == STATIC_LEN
    requires ReadFrame(std, p, f) == Some((p1, e))
    ensures ReadFrames(std, p, [f]) == Some((p1, [e]))
  {
    assert [f][1..] == [];
    assert [e] + [] == [e];
  }

  lemma MessageIsRead(std: Standard, p: Peer, id: nat, msg: seq<byte>)
    requires |std.huffman| == 257 && |std.statics| == STATIC_LEN
    requires Sound(MessageFrame(id, msg))
    ensures ReadFrame(std, p, MessageFrame(id, msg)) == Some((p, Message(id, msg, false)))
  {
    var payload := MessagePayload(msg);
    assert payload[1..5] == BeBytes(|msg|);
    assert payload[5..] == msg;
    BeReadsBack(|msg|);
  }

  lemma {:induction false} FieldInBlock(fs: seq<Field>, i: nat)
    requires AllWritable(fs) && i < |fs|
    ensures |FieldBytes(fs[i])| <= |BlockBytes(fs)|
    decreases |fs|
  {
    if i > 0 {
      FieldInBlock(fs[1..], i - 1);
    }
  }

  lemma FailureIsShort(r: Ranks, code: nat, message: seq<byte>)
    requires Consistent(r) && |BlockBytes(FailureFields(r, code, message))| < U24
    ensures AllShort(FailureFields(r, code, message))
  {
    var fs := FailureFields(r, code, message);
    FieldsAreShort(r);
    FieldInBlock(fs, 3);
    assert Short(fs[3]);
    FieldInBlock(fs, 4);
    assert Short(fs[4]);
  }

  // ---------------------------------------------------------------- what the client reads

  lemma BlockOnWire(std: Standard, p: Peer, id: nat, fs: seq<Field>, end: bool, p1: Peer, hs: seq<Header>)
    requires Client(std) && AllWritable(fs) && AllShort(fs)
    requires ApplyAll(std, p, fs) == Some((p1, hs))
    ensures ReadFrame(std, p, HeadersFrame(id, fs, end)) == Some((p1, HeaderList(id, hs, end)))
  {
    BlockReadsBack(std, p, fs);
    HeadersOnWire(std, p, HeadersFrame(id, fs, end), p1, hs);
  }

  lemma HeadersOnWire(std: Standard, p: Peer, f: Frame, p1: Peer, hs: seq<Header>)
    requires |std.huffman| == 257 && |std.statics| == STATIC_LEN
    requires f.kind == Headers && (f.flags == 4 || f.flags == 5)
    requires DecodeBlock(std, p, f.payload) == Some((p1, hs))
    ensures ReadFrame(std, p, f) == Some((p1, HeaderList(f.id, hs, f.flags == 5)))
  {}

  lemma OpeningOnWire(std: Standard, r: Ranks, p: Peer, id: nat) returns (p1: Peer)
    requires Client(std)
    requires Mirrors(r, p)
    ensures Mirrors(AfterContentType(r), p1)
    ensures ReadFrame(std, p, HeadersFrame(id, OpeningFields(r), false)) == Some((p1, HeaderList(id, OPENING, false)))
  {
    var fs := OpeningFields(r);
    FieldsAreShort(r);
    p1 := ContentTypeIsRead(std, r, p);
    OpeningIsRead(std, r, p, p1, [], p1, []);
    assert fs + [] == fs && OPENING + [] == OPENING;
    BlockOnWire(std, p, id, fs, false, p1, OPENING);
  }

  lemma TrailersOnWire(std: Standard, r: Ranks, p: Peer, id: nat) returns (p1: Peer)
    requires Client(std)
    requires Mirrors(r, p)
    ensures Mirrors(AfterStatusZero(r), p1)
    ensures ReadFrame(std, p, HeadersFrame(id, TrailerFields(r), true)) ==
            Some((p1, HeaderList(id, [STATUS_ZERO], true)))
  {
    var fs := TrailerFields(r);
    FieldsAreShort(r);
    p1 := StatusZeroIsRead(std, r, p);
    ApplyOne(std, p, StatusZeroField(r), STATUS_ZERO, p1, [], p1, []);
    assert [StatusZeroField(r)] + [] == fs && [STATUS_ZERO] + [] == [STATUS_ZERO];
    BlockOnWire(std, p, id, fs, true, p1, [STATUS_ZERO]);
  }

  lemma FailureOnWire(std: Standard, r: Ranks, p: Peer, id: nat, code: nat, message: seq<byte>) returns (p1: Peer)
    requires Client(std)
    requires Mirrors(r, p) && Sound(HeadersFrame(id, FailureFields(r, code, message), true))
    ensures Mirrors(AfterContentType(r), p1)
    ensures ReadFrame(std, p, HeadersFrame(id, FailureFields(r, code, message), true)) ==
            Some((p1, HeaderList(id, Failure(code, message), true)))
  {
    var fs := FailureFields(r, code, message);
    FailureIsShort(r, code, message);
    p1 := ContentTypeIsRead(std, r, p);
    var status, text := Header(GRPC_STATUS, Decimal(code)), Header(GRPC_MESSAGE, message);
    StatusIsRead(std, AfterContentType(r), p1, code);
    ApplyOne(std, p1, PlainField(GRPC_MESSAGE, message), text, p1, [], p1, []);
    ApplyOne(std, p1, StatusField(AfterContentType(r), code), status, p1, [PlainField(GRPC_MESSAGE, message)] + [],
      p1, [text] + []);
    var tail := [StatusField(AfterContentType(r), code), PlainField(GRPC_MESSAGE, message)];
    assert tail == [StatusField(AfterContentType(r), code)] + ([PlainField(GRPC_MESSAGE, message)] + []);
    assert [status, text] == [status] + ([text] + []);
    OpeningIsRead(std, r, p, p1, tail, p1, [status, text]);
    BlockOnWire(std, p, id, fs, true, p1, Failure(code, message));
  }

  lemma CreditIsRead(std: Standard, p: Peer, id: nat, n: nat)
    requires |std.huffman| == 257 && |std.statics| == STATIC_LEN && n < U31
    ensures ReadFrame(std, p, CreditFrame(id, n)) == Some((p, Credit(id, n)))
  {
    var f := CreditFrame(id, n);
    BeReadsBack(n);
    assert FromBe(f.payload) == n;
    assert ReadFrame(std, p, f) == Some((p, Credit(id, FromBe(f.payload) % U31)));
  }

  lemma {:induction false} CreditsAreRead(std: Standard, p: Peer, lens: seq<(nat, nat)>)
    requires |std.huffman| == 257 && |std.statics| == STATIC_LEN
    requires forall i :: 0 <= i < |lens| ==> lens[i].1 < U31
    ensures ReadFrames(std, p, CreditFrames(lens)) == Some((p, Credits(lens)))
    decreases |lens|
  {
    if lens != [] {
      CreditIsRead(std, p, lens[0].0, lens[0].1);
      CreditsAreRead(std, p, lens[1..]);
      assert CreditFrames(lens)[1..] == CreditFrames(lens[1..]);
    }
  }

  lemma {:induction false} ControlsAreRead(std: Standard, p: Peer, fs: seq<Frame>)
    requires |std.huffman| == 257 && |std.statics| == STATIC_LEN
    requires forall i :: 0 <= i < |fs| ==> IsControl(fs[i])
    ensures ReadFrames(std, p, fs) == Some((p, Controls(fs)))
    decreases |fs|
  {
    if fs != [] {
      ControlsAreRead(std, p, fs[1..]);
    }
  }

  lemma ReplyIsRead(std: Standard, r: Ranks, p: Peer, id: nat, msg: seq<byte>) returns (p': Peer)
    requires Client(std)
    requires Mirrors(r, p) && JobFits(r, Reply(id, msg))
    ensures Mirrors(AfterJob(r, Reply(id, msg)), p')
    ensures ReadFrames(std, p, JobFrames(r, Reply(id, msg))) == Some((p', JobEvents(Reply(id, msg))))
  {
    var fs, es := JobFrames(r, Reply(id, msg)), JobEvents(Reply(id, msg));
    var p1 := OpeningOnWire(std, r, p, id);
    assert Sound(fs[1]);
    MessageIsRead(std, p1, id, msg);
    p' := TrailersOnWire(std, AfterContentType(r), p1, id);
    ReadOne(std, p, fs[0], p1, es[0]);
    ReadOne(std, p1, fs[1], p1, es[1]);
    ReadOne(std, p1, fs[2], p', es[2]);
    ReadAppend(std, p1, [fs[1]], p1, [es[1]], [fs[2]], p', [es[2]]);
    ReadAppend(std, p, [fs[0]], p1, [es[0]], [fs[1]] + [fs[2]], p', [es[1]] + [es[2]]);
    assert fs == [fs[0]] + ([fs[1]] + [fs[2]]);
    assert es == [es[0]] + ([es[1]] + [es[2]]);
  }

  lemma JobIsRead(std: Standard, r: Ranks, p: Peer, job: Job) returns (p': Peer)
    requires Client(std)
    requires Mirrors(r, p) && JobFits(r, job)
    ensures Mirrors(AfterJob(r, job), p')
    ensures ReadFrames(std, p, JobFrames(r, job)) == Some((p', JobEvents(job)))
  {
    match job
    case Reply(id, msg) =>
      p' := ReplyIsRead(std, r, p, id, msg);
    case Status(id, code, message) =>
      var f := HeadersFrame(id, FailureFields(r, code, message), true);
      assert Sound(JobFrames(r, job)[0]);
      p' := FailureOnWire(std, r, p, id, code, message);
      ReadOne(std, p, f, p', HeaderList(id, Failure(code, message), true));
    case WindowUpdates(len, lens) =>
      p' := p;
      if len > 0 {
        CreditIsRead(std, p, 0, len);
        ReadOne(std, p, CreditFrame(0, len), p, Credit(0, len));
        CreditsAreRead(std, p, lens);
        ReadAppend(std, p, [CreditFrame(0, len)], p, [Credit(0, len)], CreditFrames(lens), p, Credits(lens));
      }
    case Write(buf) =>
      p' := p;
      ControlsAreRead(std, p, ParseFrames(buf).0);
  }

  lemma {:induction false} JobsAreRead(std: Standard, r: Ranks, p: Peer, jobs: seq<Job>) returns (p': Peer)
    requires Client(std)
    requires Mirrors(r, p) && JobsFit(r, jobs)
    ensures ReadFrames(std, p, WriterFrames(r, jobs)) == Some((p', JobsEvents(jobs)))
    ensures |p'.table| <= 2 && Size(p'.table) <= 104
    decreases |jobs|
  {
    if jobs == [] {
      p' := p;
      TableStaysSmall(r, p);
    } else {
      var r1 := AfterJob(r, jobs[0]);
      var p1 := JobIsRead(std, r, p, jobs[0]);
      p' := JobsAreRead(std, r1, p1, jobs[1..]);
      ReadAppend(std, p, JobFrames(r, jobs[0]), p1, JobEvents(jobs[0]), WriterFrames(r1, jobs[1..]), p',
        JobsEvents(jobs[1..]));
    }
  }

  lemma {:induction false} JobsAreFrames(r: Ranks, jobs: seq<Job>)
    requires Consistent(r) && JobsFit(r, jobs)
    ensures WriterBytes(r, jobs) == FramesBytes(WriterFrames(r, jobs))
    ensures forall i :: 0 <= i < |WriterFrames(r, jobs)| ==> Sound(WriterFrames(r, jobs)[i])
    decreases |jobs|
  {
    if jobs != [] {
      JobsAreFrames(AfterJob(r, jobs[0]), jobs[1..]);
      FramesBytesAppend(JobFrames(r, jobs[0]), WriterFrames(AfterJob(r, jobs[0]), jobs[1..]));
    }
  }

  /** Cut into frames, the writer's octets are the frames of its jobs in order, and no rest. */
  lemma WriterReadsBack(jobs: seq<Job>)
    requires JobsFit(NO_RANKS, jobs)
    ensures ParseFrames(WriterBytes(NO_RANKS, jobs)) == (WriterFrames(NO_RANKS, jobs), [])
  {
    JobsAreFrames(NO_RANKS, jobs);
    var fs := WriterFrames(NO_RANKS, jobs);
    FramesReadBack(fs, []);
    assert FramesBytes(fs) + [] == FramesBytes(fs);
  }

  /**
   For every order of jobs: cut into frames, the writer's octets leave no rest, and a client that
   decodes the header blocks in order, with the default table, reads what the jobs intended and
   nothing else.
  */
  lemma ClientReadsJobs(std: Standard, jobs: seq<Job>) returns (p': Peer)
    requires Client(std)
    requires JobsFit(NO_RANKS, jobs)
    ensures var (fs, rest) := ParseFrames(WriterBytes(NO_RANKS, jobs));
            rest == [] && ReadFrames(std, EMPTY, fs) == Some((p', JobsEvents(jobs)))
    ensures |p'.table| <= 2 && Size(p'.table) <= 104
  {
    p' := JobsAreRead(std, NO_RANKS, EMPTY, jobs);
    WriterReadsBack(jobs);
  }
}
