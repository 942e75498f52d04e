/** `AccessToken`: opening a token, and the generic two-phase
    `token_information` query against an abstract OS. */
module Token {
  import opened Wrappers
  import opened Bytes

  /** A Windows HANDLE. Pointers are 32 bits wide throughout the model,
      the width at which the TOKEN_GROUPS layout the decoders read is the
      OS's own. */
  type Handle = bv32

  /** An access token owns one OS handle. */
  datatype AccessToken = AccessToken(handle: Handle)

  // ---------------------------------------------------------------------
  // Opening a token

  /** The two OS entry points for opening a token of the current process or
      thread. `openAsSelf` is the Rust `bool` passed as a C `BOOL` (0 or 1). */
  datatype OpenRequest =
    | OpenProcessToken(desiredAccess: bv32)
    | OpenThreadToken(desiredAccess: bv32, openAsSelf: bv32)

  /** What the OS call returned: its success flag, the handle it wrote, and
      the code `GetLastError` reports after it. */
  datatype OpenReply = OpenReply(ok: bool, handle: Handle, lastError: bv32)

  type OpenOracle = OpenRequest -> OpenReply

  /** The OS reply to a token-opening request as the caller sees it. */
  function TokenOf(reply: OpenReply): (r: Result<AccessToken>)
    ensures r.Err? <==> !reply.ok
    ensures r.Err? ==> r.error == OsError(reply.lastError)
    ensures r.Ok? ==> r.value.handle == reply.handle
  {
    if !reply.ok then Err(OsError(reply.lastError)) else Ok(AccessToken(reply.handle))
  }

  /** `AccessToken::open_process`: asks for the process token with exactly
      the requested rights; a failing call yields the OS error, otherwise the
      token wraps the handle the OS wrote. */
  function OpenProcess(os: OpenOracle, accessLevel: bv32): (r: Result<AccessToken>)
    ensures var reply := os(OpenProcessToken(accessLevel));
      && (r.Err? <==> !reply.ok)
      && (r.Err? ==> r.error.code == reply.lastError)
      && (r.Ok? ==> r.value.handle == reply.handle)
  {
    TokenOf(os(OpenProcessToken(accessLevel)))
  }

  /** `AccessToken::open_thread`: as `OpenProcess`, for the thread token,
      passing `open_as_self` as the C `BOOL` 1 or 0 (`open_as_self as i32`),
      so the two flag values are two different requests. */
  function OpenThread(os: OpenOracle, openAsSelf: bool, accessLevel: bv32): (r: Result<AccessToken>)
    ensures var reply := os(OpenThreadToken(accessLevel, if openAsSelf then 1 else 0));
      && (r.Err? <==> !reply.ok)
      && (r.Err? ==> r.error.code == reply.lastError)
      && (r.Ok? ==> r.value.handle == reply.handle)
  {
    TokenOf(os(OpenThreadToken(accessLevel, if openAsSelf then 1 else 0)))
  }

  // ---------------------------------------------------------------------
  // Information kinds and their decoders

  /** A TOKEN_INFORMATION_CLASS selector. */
  type InfoClass = bv32

  /** What `from_buf` does with a filled buffer. */
  datatype Decoded<+T> = Decoded(value: Option<T>) | Faulted(fault: Fault)

  /** The `TokenInformation` trait: the selector to request (`LEVEL`) and
      the decoder of the filled buffer (`from_buf`). */
  datatype Kind<!T> = Kind(level: InfoClass, fromBuf: seq<bv8> -> Decoded<T>)

  // ---------------------------------------------------------------------
  // The two-phase query

  /** winerror.h: ERROR_BAD_LENGTH and ERROR_INSUFFICIENT_BUFFER. */
  const ERROR_BAD_LENGTH: bv32 := 24
  const ERROR_INSUFFICIENT_BUFFER: bv32 := 122

  /** The two codes that mean "call again with the reported size". */
  predicate IsSizeSignal(code: bv32)
  {
    code == ERROR_BAD_LENGTH || code == ERROR_INSUFFICIENT_BUFFER
  }

  /** One `GetTokenInformation` call: token, selector, whether the buffer
      pointer is null, buffer length. A null buffer of length 0 and a real
      empty buffer are different requests. The DWORD lengths are only passed
      along, never computed with, so they are kept as plain numbers. */
  datatype InfoCall = InfoCall(handle: Handle, level: InfoClass, nullBuffer: bool, bufferLength: nat)

  /** What the call returned: its success flag, the length it wrote back,
      the code `GetLastError` reports after it, and the bytes it wrote into
      the buffer (ignored when the buffer is null). */
  datatype InfoReply = InfoReply(ok: bool, returnLength: nat, lastError: bv32, written: seq<bv8>)

  type InfoOracle = InfoCall -> InfoReply

  /** A run of the query: the OS calls made, in order, the buffer handed
      to the decoder (if it was called), and how it ended: with a value, an
      error, or a decoder fault. */
  datatype Query<+T> = Query(calls: seq<InfoCall>, decoderInput: Option<seq<bv8>>, outcome: Run<Option<T>>)

  /** The buffer the second call fills: `length` zero bytes overwritten by
      the OS. */
  function FilledBuffer(reply: InfoReply, length: nat): (buf: seq<bv8>)
    ensures |buf| == length
  {
    Fill(reply.written, length)
  }

  /** `AccessToken::token_information`: probe with a null buffer; success
      means "no such information" (`Ok(None)`); a size signal leads to one
      call with a buffer of the reported length, any other code is an error;
      a failing second call is an error; otherwise the decoder's output on
      the filled buffer is the answer. */
  function TokenInformation<T>(os: InfoOracle, token: AccessToken, kind: Kind<T>): (q: Query<T>)
    // at most two calls, never a retry loop, both for this token and selector
    ensures 1 <= |q.calls| <= 2
    ensures forall i :: 0 <= i < |q.calls| ==>
      q.calls[i].handle == token.handle && q.calls[i].level == kind.level
    ensures q.calls[0].nullBuffer && q.calls[0].bufferLength == 0
    ensures |q.calls| == 2 ==> !q.calls[1].nullBuffer
    // phase 1: the probe
    ensures var probe := os(q.calls[0]);
      && (probe.ok ==> q.outcome == Done(Ok(None)) && |q.calls| == 1)
      && (!probe.ok && !IsSizeSignal(probe.lastError) ==>
            q.outcome == Done(Err(OsError(probe.lastError))) && |q.calls| == 1)
      && (!probe.ok && IsSizeSignal(probe.lastError) <==> |q.calls| == 2)
      && (|q.calls| == 2 ==> q.calls[1].bufferLength == probe.returnLength)
    // phase 2: the fill
    ensures |q.calls| == 2 ==>
      var fill := os(q.calls[1]);
      && (!fill.ok ==> q.outcome == Done(Err(OsError(fill.lastError))))
      && (fill.ok <==> q.decoderInput.Some?)
    // the decoder sees exactly the filled buffer, and its answer is final
    ensures q.decoderInput.Some? ==>
      && |q.calls| == 2
      && |q.decoderInput.value| == q.calls[1].bufferLength
      && q.decoderInput.value == FilledBuffer(os(q.calls[1]), q.calls[1].bufferLength)
      && match kind.fromBuf(q.decoderInput.value)
         case Decoded(v) => q.outcome == Done(Ok(v))
         case Faulted(f) => q.outcome == Crashed(f)
  {
    var probeCall := InfoCall(token.handle, kind.level, true, 0);
    var probe := os(probeCall);
    if probe.ok then
      Query([probeCall], None, Done(Ok(None)))
    else if !IsSizeSignal(probe.lastError) then
      Query([probeCall], None, Done(Err(OsError(probe.lastError))))
    else
      var length := probe.returnLength;
      var fillCall := InfoCall(token.handle, kind.level, false, length);
      var fill := os(fillCall);
      if !fill.ok then
        Query([probeCall, fillCall], None, Done(Err(OsError(fill.lastError))))
      else
        var buffer := FilledBuffer(fill, length);
        match kind.fromBuf(buffer)
        case Decoded(v) => Query([probeCall, fillCall], Some(buffer), Done(Ok(v)))
        case Faulted(f) => Query([probeCall, fillCall], Some(buffer), Crashed(f))
  }

  /** `Ok(None)` comes only from a successful probe or from a decoder that
      itself answered `None`. */
  lemma OkNoneOrigin<T>(os: InfoOracle, token: AccessToken, kind: Kind<T>)
    ensures var q := TokenInformation(os, token, kind);
      q.outcome == Done(Ok(None)) <==>
        || os(InfoCall(token.handle, kind.level, true, 0)).ok
        || (q.decoderInput.Some? && kind.fromBuf(q.decoderInput.value) == Decoded(None))
  {
  }

  /** Errors are exactly the OS codes the protocol does not absorb: a
      non-size code from the probe, or any code from the fill. */
  lemma ErrorOrigin<T>(os: InfoOracle, token: AccessToken, kind: Kind<T>, code: bv32)
    ensures var q := TokenInformation(os, token, kind);
      var probe := os(InfoCall(token.handle, kind.level, true, 0));
      q.outcome == Done(Err(OsError(code))) <==>
        && !probe.ok
        && if IsSizeSignal(probe.lastError) then
             var fill := os(InfoCall(token.handle, kind.level, false, probe.returnLength));
             !fill.ok && fill.lastError == code
           else
             probe.lastError == code
  {
  }
}
