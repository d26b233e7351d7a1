/**
 Length-prefixed frames: a four-byte big-endian length and a nonempty payload within a bound. Both
 writers go through a sink that takes any part of what it is offered.
 */
module Framing {
  import opened Common

  function Header(n: nat): (h: seq<Byte>)
    requires n <= U32_MAX
    ensures |h| == 4
  {
    [n / 0x100_0000, n / 0x1_0000 % 256, n / 256 % 256, n % 256]
  }

  function Length(h: seq<Byte>): (n: nat)
    requires |h| == 4
    ensures n <= U32_MAX
  {
    h[0] as int * 0x100_0000 + h[1] as int * 0x1_0000 + h[2] as int * 256 + h[3] as int
  }

  lemma LengthOfHeader(n: nat)
    requires n <= U32_MAX
    ensures Length(Header(n)) == n
  {
    var a, b := n / 256, n / 0x1_0000;
    assert a / 256 == b && b / 256 == n / 0x100_0000;
  }

  predicate Sendable(payload: seq<Byte>, limit: nat) {
    0 < |payload| <= limit && |payload| <= U32_MAX
  }

  function Frame(payload: seq<Byte>): seq<Byte>
    requires |payload| <= U32_MAX
  {
    Header(|payload|) + payload
  }

  ghost predicate AllSendable(ps: seq<seq<Byte>>, limit: nat) {
    forall i :: 0 <= i < |ps| ==> Sendable(ps[i], limit)
  }

  ghost function Stream(ps: seq<seq<Byte>>, limit: nat): seq<Byte>
    requires AllSendable(ps, limit)
  {
    if ps == [] then [] else Frame(ps[0]) + Stream(ps[1..], limit)
  }

  datatype FrameError = UnexpectedEof | FrameTooLarge | InvalidJson

  /** What one `read_frame` makes of the bytes that are left: end of stream, a payload, or an error. */
  function ReadOne(data: seq<Byte>, limit: nat): Result<Option<seq<Byte>>, FrameError> {
    if |data| == 0 then Ok(None)
    else if |data| < 4 then Err(UnexpectedEof)
    else
      var n := Length(data[..4]);
      if n == 0 || n > limit then Err(FrameTooLarge)
      else if |data| - 4 < n then Err(UnexpectedEof)
      else Ok(Some(data[4..4 + n]))
  }

  /** What the first four bytes decide, and when what follows is enough. */
  lemma ReadOneExactly(data: seq<Byte>, limit: nat)
    ensures ReadOne(data, limit) == Ok(None) <==> data == []
    ensures 0 < |data| < 4 ==> ReadOne(data, limit) == Err(UnexpectedEof)
    ensures |data| >= 4 ==>
      var n := ((data[0] as int * 256 + data[1] as int) * 256 + data[2] as int) * 256 + data[3] as int;
      && (ReadOne(data, limit) == Err(FrameTooLarge) <==> n == 0 || n > limit)
      && (0 < n <= limit ==>
            ReadOne(data, limit) == if |data| < 4 + n then Err(UnexpectedEof) else Ok(Some(data[4..4 + n])))
  {
  }

  datatype End = Clean | Broken(error: FrameError)

  /** Everything the serving loop reads from a stream, and how it ends. */
  function ReadAll(data: seq<Byte>, limit: nat): (seq<seq<Byte>>, End)
    decreases |data|
  {
    match ReadOne(data, limit)
    case Ok(None) => ([], Clean)
    case Ok(Some(p)) =>
      var rest := ReadAll(data[4 + |p|..], limit);
      ([p] + rest.0, rest.1)
    case Err(e) => ([], Broken(e))
  }

  lemma FrameHead(p: seq<Byte>, tail: seq<Byte>, limit: nat)
    requires Sendable(p, limit)
    ensures ReadOne(Frame(p) + tail, limit) == Ok(Some(p)) && (Frame(p) + tail)[4 + |p|..] == tail
  {
    var data := Frame(p) + tail;
    assert data[..4] == Header(|p|);
    LengthOfHeader(|p|);
    assert data[4..4 + |p|] == p;
  }

  lemma ReadAllStep(p: seq<Byte>, tail: seq<Byte>, limit: nat)
    requires Sendable(p, limit)
    ensures ReadAll(Frame(p) + tail, limit) == ([p] + ReadAll(tail, limit).0, ReadAll(tail, limit).1)
  {
    FrameHead(p, tail, limit);
  }

  /** A stream cut inside its first frame has no frame, and ends cleanly only if nothing is left of it. */
  lemma FrameCut(p: seq<Byte>, tail: seq<Byte>, limit: nat, k: nat)
    requires Sendable(p, limit) && k < |Frame(p)|
    ensures ReadOne((Frame(p) + tail)[..k], limit) == if k == 0 then Ok(None) else Err(UnexpectedEof)
  {
    var data := (Frame(p) + tail)[..k];
    if k >= 4 {
      assert data[..4] == Header(|p|);
      LengthOfHeader(|p|);
    }
  }

  /** Number of whole frames among the first `k` bytes. */
  ghost function Whole(ps: seq<seq<Byte>>, k: nat): (j: nat)
    ensures j <= |ps|
  {
    if ps == [] || k < 4 + |ps[0]| then 0 else 1 + Whole(ps[1..], k - 4 - |ps[0]|)
  }

  ghost predicate ReadsPrefix(ps: seq<seq<Byte>>, limit: nat, k: nat)
    requires AllSendable(ps, limit) && k <= |Stream(ps, limit)|
  {
    var j := Whole(ps, k);
    && AllSendable(ps[..j], limit)
    && ReadAll(Stream(ps, limit)[..k], limit) ==
       (ps[..j], if k == |Stream(ps[..j], limit)| then Clean else Broken(UnexpectedEof))
  }

  lemma CutInFirst(ps: seq<seq<Byte>>, limit: nat, k: nat)
    requires ps != [] && AllSendable(ps, limit) && k < 4 + |ps[0]|
    ensures k <= |Stream(ps, limit)| && ReadsPrefix(ps, limit, k)
  {
    FrameCut(ps[0], Stream(ps[1..], limit), limit, k);
    hide Length;
    assert Stream([], limit) == [];
  }

  lemma CutLater(ps: seq<seq<Byte>>, limit: nat, k: nat)
    requires ps != [] && AllSendable(ps, limit) && 4 + |ps[0]| <= k <= |Stream(ps, limit)|
    requires k - 4 - |ps[0]| <= |Stream(ps[1..], limit)| && ReadsPrefix(ps[1..], limit, k - 4 - |ps[0]|)
    ensures ReadsPrefix(ps, limit, k)
  {
    hide ReadOne, ReadAll, Length;
    var p, tail, k' := ps[0], Stream(ps[1..], limit), k - 4 - |ps[0]|;
    assert Stream(ps, limit)[..k] == Frame(p) + tail[..k'];
    ReadAllStep(p, tail[..k'], limit);
    StreamFront(ps, Whole(ps[1..], k'), limit);
  }

  lemma StreamFront(ps: seq<seq<Byte>>, j: nat, limit: nat)
    requires AllSendable(ps, limit) && j < |ps|
    ensures ps[..j + 1] == [ps[0]] + ps[1..][..j] && AllSendable(ps[..j + 1], limit)
    ensures Stream(ps[..j + 1], limit) == Frame(ps[0]) + Stream(ps[1..][..j], limit)
  {
    assert ps[..j + 1][1..] == ps[1..][..j];
  }

  /**
   However a stream of frames is cut, exactly the whole frames before the cut are read, in order; the
   end is clean exactly when the cut falls between two frames.
   */
  lemma {:induction false} TruncationReadsPrefix(ps: seq<seq<Byte>>, limit: nat, k: nat)
    requires AllSendable(ps, limit) && k <= |Stream(ps, limit)|
    ensures ReadsPrefix(ps, limit, k)
  {
    if ps == [] {
    } else if k < 4 + |ps[0]| {
      hide ReadsPrefix;
      CutInFirst(ps, limit, k);
    } else {
      hide ReadsPrefix;
      TruncationReadsPrefix(ps[1..], limit, k - 4 - |ps[0]|);
      CutLater(ps, limit, k);
    }
  }

  /** What was framed is what is read. */
  lemma RoundTrip(ps: seq<seq<Byte>>, limit: nat)
    requires AllSendable(ps, limit)
    ensures ReadAll(Stream(ps, limit), limit) == (ps, Clean)
  {
    var s := Stream(ps, limit);
    TruncationReadsPrefix(ps, limit, |s|);
    WholeOfAll(ps, limit);
    assert s[..|s|] == s && ps[..|ps|] == ps;
  }

  lemma {:induction false} WholeOfAll(ps: seq<seq<Byte>>, limit: nat)
    requires AllSendable(ps, limit)
    ensures Whole(ps, |Stream(ps, limit)|) == |ps|
  {
    if ps != [] { WholeOfAll(ps[1..], limit); }
  }

  lemma {:induction false} StreamAppend(ps: seq<seq<Byte>>, p: seq<Byte>, limit: nat)
    requires AllSendable(ps, limit) && Sendable(p, limit)
    ensures AllSendable(ps + [p], limit) && Stream(ps + [p], limit) == Stream(ps, limit) + Frame(p)
  {
    if ps == [] {
      assert [p][1..] == [];
    } else {
      StreamAppend(ps[1..], p, limit);
      assert (ps + [p])[1..] == ps[1..] + [p];
    }
  }

  datatype WriteError = OutsideBound | SinkFailed | ShortWrite

  /** A connection being written. The sink takes any part of an offer, including none, and may fail at any time. */
  class Connection {
    var sent: seq<Byte>
    /** The payloads whose frames were written completely, while nothing failed. */
    ghost var payloads: seq<seq<Byte>>
    /** How often the sink failed or took nothing of a nonempty offer. */
    var faults: nat
    const limit: nat

    ghost predicate Valid()
      reads this
    {
      AllSendable(payloads, limit) && sent == Stream(payloads, limit)
    }

    constructor (limit: nat)
      ensures Valid() && sent == [] && payloads == [] && this.limit == limit
    {
      sent, payloads, faults, this.limit := [], [], 0, limit;
    }

    method Write(offer: seq<Byte>) returns (written: nat, failed: bool)
      modifies this`sent, this`faults
      ensures written <= |offer| && sent == old(sent) + offer[..written]
      ensures faults == old(faults) + if failed || written == 0 then 1 else 0
    {
      written :| 0 <= written <= |offer|;
      failed := *;
      if failed || written == 0 { faults := faults + 1; }
      sent := sent + offer[..written];
    }

    method WriteAll(payload: seq<Byte>) returns (r: Result<(), WriteError>)
      modifies this`sent, this`faults
      ensures r.Ok? <==> faults == old(faults)
      ensures r.Ok? ==> sent == old(sent) + payload
      ensures faults >= old(faults)
      ensures r.Err? ==> old(sent) <= sent <= old(sent) + payload && r.error != OutsideBound
    {
      var left := payload;
      ghost var k := 0;
      while |left| > 0
        invariant k <= |payload| && faults == old(faults) && left == payload[k..] && sent == old(sent) + payload[..k]
        decreases |left|
      {
        var written, failed := Write(left);
        assert payload[..k] + left[..written] == payload[..k + written];
        left := left[written..];
        k := k + written;
        if failed { return Err(SinkFailed); }
        if written == 0 { return Err(ShortWrite); }
      }
      assert payload[..k] == payload;
      r := Ok(());
    }

    /** Writes one frame, however the sink splits it. An error says nothing was written or leaves a cut frame. */
    method WriteFrame(payload: seq<Byte>) returns (r: Result<(), WriteError>)
      requires Valid()
      modifies this
      ensures r.Ok? <==> Sendable(payload, limit) && faults == old(faults)
      ensures r.Ok? ==> Valid() && payloads == old(payloads) + [payload]
      ensures r == Err(OutsideBound) <==> !Sendable(payload, limit)
      ensures r == Err(OutsideBound) ==> Valid() && payloads == old(payloads) && sent == old(sent)
      ensures r.Err? && r.error != OutsideBound ==>
        payloads == old(payloads) && old(sent) <= sent <= old(sent) + Frame(payload)
    {
      if |payload| == 0 || |payload| > limit { return Err(OutsideBound); }
      if |payload| > U32_MAX { return Err(OutsideBound); }
      ghost var before := sent;
      assert Frame(payload)[..4] == Header(|payload|);
      r := WriteAll(Header(|payload|));
      if r.Err? {
        assert before + Frame(payload) == before + Header(|payload|) + payload;
        return;
      }
      r := WriteAll(payload);
      assert before + Frame(payload) == before + Header(|payload|) + payload;
      if r.Ok? {
        StreamAppend(payloads, payload, limit);
        payloads := payloads + [payload];
      }
    }
  }

  const HARD_MAX_FRAME: nat := 64 * 1024 * 1024

  /** A whole frame whose payload is no valid message is an error too. */
  function ReadMessage(data: seq<Byte>, limit: nat, valid: seq<Byte> -> bool): Result<Option<seq<Byte>>, FrameError> {
    match ReadOne(data, limit)
    case Ok(Some(p)) => if valid(p) then Ok(Some(p)) else Err(InvalidJson)
    case other => other
  }

  /** The payloads before the first invalid one, and how reading ends then. */
  function Understood(ps: seq<seq<Byte>>, end: End, valid: seq<Byte> -> bool): (seq<seq<Byte>>, End) {
    if ps == [] then ([], end)
    else if !valid(ps[0]) then ([], Broken(InvalidJson))
    else var rest := Understood(ps[1..], end, valid); ([ps[0]] + rest.0, rest.1)
  }

  function Messages(data: seq<Byte>, limit: nat, valid: seq<Byte> -> bool): (seq<seq<Byte>>, End) {
    Understood(ReadAll(data, limit).0, ReadAll(data, limit).1, valid)
  }

  /** The messages read are the longest valid prefix of the frames, and only an invalid frame cuts it short. */
  lemma {:induction false} UnderstoodIsLongest(ps: seq<seq<Byte>>, end: End, valid: seq<Byte> -> bool)
    ensures var (ms, last) := Understood(ps, end, valid);
      && ms <= ps && (forall i :: 0 <= i < |ms| ==> valid(ms[i]))
      && if |ms| < |ps| then !valid(ps[|ms|]) && last == Broken(InvalidJson) else last == end
  {
    if ps != [] && valid(ps[0]) { UnderstoodIsLongest(ps[1..], end, valid); }
  }

  lemma MessagesStep(data: seq<Byte>, limit: nat, valid: seq<Byte> -> bool)
    ensures match ReadMessage(data, limit, valid)
      case Ok(None) => Messages(data, limit, valid) == ([], Clean)
      case Ok(Some(p)) =>
        var rest := Messages(data[4 + |p|..], limit, valid);
        Messages(data, limit, valid) == ([p] + rest.0, rest.1)
      case Err(e) => Messages(data, limit, valid) == ([], Broken(e))
  {
    if ReadOne(data, limit).Ok? && ReadOne(data, limit).value.Some? {
      var p := ReadOne(data, limit).value.value;
      var rest := ReadAll(data[4 + |p|..], limit);
      hide ReadOne;
      assert ([p] + rest.0)[1..] == rest.0;
    }
  }

  datatype ServeEnd = Misconfigured | Finished(end: End) | WriteFailed(error: WriteError)

  function Answers(respond: seq<Byte> -> seq<Byte>, requests: seq<seq<Byte>>): seq<seq<Byte>> {
    seq(|requests|, i requires 0 <= i < |requests| => respond(requests[i]))
  }

  lemma AnswersMore(respond: seq<Byte> -> seq<Byte>, requests: seq<seq<Byte>>, request: seq<Byte>)
    ensures Answers(respond, requests + [request]) == Answers(respond, requests) + [respond(request)]
  {
  }

  /** The other end: `data` is what has not been read yet. */
  class Source {
    var data: seq<Byte>

    constructor (data: seq<Byte>)
      ensures this.data == data
    {
      this.data := data;
    }

    method ReadExact(n: nat) returns (r: Option<seq<Byte>>)
      modifies this
      ensures r.Some? <==> n <= |old(data)|
      ensures r.Some? ==> r.value == old(data)[..n] && data == old(data)[n..]
      ensures r.None? ==> data == []
    {
      if n > |data| {
        data := [];
        return None;
      }
      r := Some(data[..n]);
      data := data[n..];
    }

    method ReadFrame(limit: nat, valid: seq<Byte> -> bool) returns (r: Result<Option<seq<Byte>>, FrameError>)
      modifies this
      ensures r == ReadMessage(old(data), limit, valid)
      ensures r.Ok? && r.value.Some? ==> 4 + |r.value.value| <= |old(data)| && data == old(data)[4 + |r.value.value|..]
    {
      ghost var before := data;
      var first := ReadExact(1);
      if first.None? { return Ok(None); }
      var others := ReadExact(3);
      if others.None? { return Err(UnexpectedEof); }
      assert first.value + others.value == before[..4];
      var n := Length(first.value + others.value);
      if n == 0 || n > limit { return Err(FrameTooLarge); }
      var payload := ReadExact(n);
      if payload.None? { return Err(UnexpectedEof); }
      assert payload.value == before[4..4 + n];
      r := if valid(payload.value) then Ok(Some(payload.value)) else Err(InvalidJson);
    }

    /**
     The serving loop: each request is answered before the next is read. If it finishes, every whole
     request before the first invalid one was answered in order; if writing fails, exactly those before
     the failing one.
     */
    method Serve(limit: nat, valid: seq<Byte> -> bool, respond: seq<Byte> -> seq<Byte>, out: Connection)
      returns (answered: seq<seq<Byte>>, end: ServeEnd)
      requires out.Valid() && out.limit == limit
      modifies this, out
      ensures end.Misconfigured? <==> limit == 0 || limit > HARD_MAX_FRAME
      ensures end.Misconfigured? ==> data == old(data) && answered == [] && out.sent == old(out.sent)
      ensures end.Finished? ==> out.Valid() && (answered, end.end) == Messages(old(data), limit, valid)
      ensures end.WriteFailed? ==> answered < Messages(old(data), limit, valid).0
      ensures out.payloads == old(out.payloads) + Answers(respond, answered)
    {
      answered := [];
      assert out.payloads == old(out.payloads) + Answers(respond, []);
      hide Answers, Stream, AllSendable, ReadMessage, Messages;
      if limit == 0 || limit > HARD_MAX_FRAME { return answered, Misconfigured; }
      while true
        invariant out.Valid() && out.payloads == old(out.payloads) + Answers(respond, answered)
        invariant Messages(old(data), limit, valid).0 == answered + Messages(data, limit, valid).0
        invariant Messages(old(data), limit, valid).1 == Messages(data, limit, valid).1
        decreases |data|
      {
        MessagesStep(data, limit, valid);
        var next := ReadFrame(limit, valid);
        assert answered + [] == answered;
        if next.Err? { return answered, Finished(Broken(next.error)); }
        if next.value.None? { return answered, Finished(Clean); }
        var request := next.value.value;
        ghost var rest := Messages(data, limit, valid).0;
        assert answered + ([request] + rest) == answered + [request] + rest;
        var written := out.WriteFrame(respond(request));
        if written.Err? { return answered, WriteFailed(written.error); }
        AnswersMore(respond, answered, request);
        answered := answered + [request];
      }
    }

    /** The SDK's reader, which reports where the stream ended more coarsely. */
    method ReadResponse(limit: nat) returns (r: Option<seq<Byte>>)
      modifies this
      ensures r == if ReadOne(old(data), limit).Ok? then ReadOne(old(data), limit).value else None
    {
      ghost var before := data;
      var header := ReadExact(4);
      if header.None? { return None; }
      var n := Length(header.value);
      if n == 0 || n > limit { return None; }
      r := ReadExact(n);
      assert r.Some? ==> r.value == before[4..4 + n];
    }
  }
}
