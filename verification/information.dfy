/** The `TokenInformation` implementations: for each information kind, the
    selector it requests and the decoder of the buffer the OS filled. */
module Information {
  import opened Wrappers
  import opened Bytes
  import opened Security
  import opened Token

  /** TOKEN_INFORMATION_CLASS values from the Windows SDK. */
  const TokenGroups: InfoClass := 2
  const TokenElevationType: InfoClass := 18
  const TokenLinkedToken: InfoClass := 19

  // ---------------------------------------------------------------------
  // TokenElevation

  /** `TokenElevation`, with its declared discriminants. */
  datatype TokenElevation = Unknown | Default | Full | Limited

  function Discriminant(e: TokenElevation): bv32
  {
    match e
    case Unknown => 0
    case Default => 1
    case Full => 2
    case Limited => 3
  }

  /** The match of `from_buf`: 1, 2, 3 name a state, every other word is
      `Unknown`. */
  function ElevationOf(v: bv32): (e: TokenElevation)
    ensures e.Unknown? <==> !(1 <= v <= 3)
  {
    if v == 1 then Default
    else if v == 2 then Full
    else if v == 3 then Limited
    else Unknown
  }

  /** Classification inverts the discriminants: a known state is read back
      from its own discriminant, and a word that names a known state is
      that state's discriminant. */
  lemma ElevationOfDiscriminant(e: TokenElevation, v: bv32)
    ensures e != Unknown ==> ElevationOf(Discriminant(e)) == e
    ensures ElevationOf(v) != Unknown ==> Discriminant(ElevationOf(v)) == v
    ensures ElevationOf(Discriminant(Unknown)) == Unknown
  {
  }

  /** `TokenElevation::from_buf`: the buffer must be exactly one 32-bit word
      (`try_into().unwrap()` panics on any other length); the word is then
      classified and the answer is never `None`. */
  function ElevationFromBuf(buf: seq<bv8>): (r: Decoded<TokenElevation>)
    ensures r == Faulted(Panic) <==> |buf| != 4
    ensures |buf| == 4 ==> r.Decoded? && r.value.Some? && r.value.value == ElevationOf(U32At(buf, 0))
  {
    if |buf| != 4 then Faulted(Panic) else Decoded(Some(ElevationOf(U32At(buf, 0))))
  }

  /** 3 decodes to `Limited`, 99 to `Unknown`. */
  lemma ElevationExamples()
    ensures ElevationFromBuf([3, 0, 0, 0]) == Decoded(Some(Limited))
    ensures ElevationFromBuf([99, 0, 0, 0]) == Decoded(Some(Unknown))
  {
    assert U32At([3, 0, 0, 0], 0) == 3;
    assert U32At([99, 0, 0, 0], 0) == 99;
  }

  // ---------------------------------------------------------------------
  // LinkedToken

  /** Pointer size: a HANDLE occupies the first 4 bytes of the buffer. */
  const HandleSize: nat := 4

  /** `LinkedToken::from_buf` as written: the null test is applied to the
      pointer to the buffer, which is never null, so the stored handle is
      wrapped whatever its value. Fewer than 4 bytes means reading past the
      buffer. */
  function LinkedTokenFromBufAsWritten(buf: seq<bv8>): (r: Decoded<AccessToken>)
    ensures |buf| < HandleSize <==> r == Faulted(OutOfBounds)
    ensures |buf| >= HandleSize ==> r == Decoded(Some(AccessToken(U32At(buf, 0))))
  {
    if |buf| < HandleSize then Faulted(OutOfBounds) else Decoded(Some(AccessToken(U32At(buf, 0))))
  }

  /** The discrepancy: a buffer holding a null handle still yields a token,
      one that wraps the null handle. */
  lemma LinkedTokenAsWrittenWrapsNull()
    ensures LinkedTokenFromBufAsWritten([0, 0, 0, 0]) == Decoded(Some(AccessToken(0)))
  {
    assert U32At([0, 0, 0, 0], 0) == 0;
  }

  /** `LinkedToken::from_buf` with the null test on the stored handle, as
      intended: no token for a null handle, otherwise a token for it. */
  function LinkedTokenFromBuf(buf: seq<bv8>): (r: Decoded<AccessToken>)
    ensures |buf| < HandleSize <==> r == Faulted(OutOfBounds)
    ensures |buf| >= HandleSize ==> r.Decoded? && (r.value.None? <==> U32At(buf, 0) == 0)
    ensures r.Decoded? && r.value.Some? ==> r.value.value.handle == U32At(buf, 0) != 0
  {
    if |buf| < HandleSize then Faulted(OutOfBounds)
    else if U32At(buf, 0) == 0 then Decoded(None)
    else Decoded(Some(AccessToken(U32At(buf, 0))))
  }

  /** The corrected decoder agrees with the one as written on every buffer
      whose stored handle is not null. */
  lemma LinkedTokenAgreesOffNull(buf: seq<bv8>)
    requires |buf| >= HandleSize && U32At(buf, 0) != 0
    ensures LinkedTokenFromBuf(buf) == LinkedTokenFromBufAsWritten(buf)
  {
  }

  // ---------------------------------------------------------------------
  // Groups

  /** One group of the token: its SID and its attribute bits. */
  datatype GroupEntry = GroupEntry(sid: SecurityIdentifier, attributes: bv32)

  /** The TOKEN_GROUPS buffer as `Groups::from_buf` reads it: a 32-bit
      count at byte 0, then from byte 4 one 8-byte SID_AND_ATTRIBUTES record
      per group: a 4-byte reference to the group's SID followed by its 4-byte
      attribute word. The reference is a byte offset into the same buffer,
      where the OS stores the SIDs behind the records. */
  function GroupCount(buf: seq<bv8>): nat
    requires |buf| >= 4
  {
    U32Value(buf, 0)
  }

  function RecordOffset(i: nat): nat
  {
    4 + 8 * i
  }

  function SidReference(buf: seq<bv8>, i: nat): nat
    requires RecordOffset(i) + 8 <= |buf|
  {
    U32Value(buf, RecordOffset(i))
  }

  function AttributesAt(buf: seq<bv8>, i: nat): bv32
    requires RecordOffset(i) + 8 <= |buf|
  {
    U32At(buf, RecordOffset(i) + 4)
  }

  /** Record `i` lies inside the buffer, and so does the whole SID it
      refers to. */
  predicate RecordInBounds(buf: seq<bv8>, i: nat)
  {
    && RecordOffset(i) + 8 <= |buf|
    && SidReference(buf, i) <= |buf|
    && HoldsSid(buf[SidReference(buf, i)..])
  }

  /** Every read `from_buf` performs stays inside the buffer: all records,
      and every SID they refer to. */
  predicate GroupsInBounds(buf: seq<bv8>)
  {
    && |buf| >= 4
    && RecordOffset(GroupCount(buf)) <= |buf|
    && forall i :: 0 <= i < GroupCount(buf) ==> RecordInBounds(buf, i)
  }

  /** Group `i`: the SID its record refers to, with the record's attribute
      bits unchanged (`from_bits_unchecked`). */
  function GroupAt(buf: seq<bv8>, i: nat): GroupEntry
    requires GroupsInBounds(buf) && i < GroupCount(buf)
    ensures RecordInBounds(buf, i)
  {
    assert RecordInBounds(buf, i);
    GroupEntry(FromRaw(buf[SidReference(buf, i)..]), AttributesAt(buf, i))
  }

  /** The loop of `Groups::from_buf`: one entry per record, in record
      order. */
  function Groups(buf: seq<bv8>): (gs: seq<GroupEntry>)
    requires GroupsInBounds(buf)
  {
    seq(GroupCount(buf), i requires 0 <= i < GroupCount(buf) => GroupAt(buf, i))
  }

  /** `Groups::from_buf`: fewer than 4 bytes panics at `buf[0..4]`; a count
      whose records or SIDs lie outside the buffer reads out of bounds;
      otherwise the answer is always `Some` list of one entry per record. */
  function GroupsFromBuf(buf: seq<bv8>): (r: Decoded<seq<GroupEntry>>)
    ensures r == Faulted(Panic) <==> |buf| < 4
    ensures r == Faulted(OutOfBounds) <==> |buf| >= 4 && !GroupsInBounds(buf)
    ensures GroupsInBounds(buf) ==>
      && r.Decoded? && r.value.Some?
      && |r.value.value| == GroupCount(buf)
      && forall i :: 0 <= i < |r.value.value| ==>
           && RecordInBounds(buf, i)
           && r.value.value[i].sid == FromRaw(buf[SidReference(buf, i)..])
           && r.value.value[i].attributes == AttributesAt(buf, i)
  {
    if |buf| < 4 then Faulted(Panic)
    else if !GroupsInBounds(buf) then Faulted(OutOfBounds)
    else Decoded(Some(Groups(buf)))
  }

  /** A zero count yields `Some` empty list, whatever follows it. */
  lemma NoGroups(rest: seq<bv8>)
    ensures GroupsFromBuf([0, 0, 0, 0] + rest) == Decoded(Some([]))
  {
    var buf := [0, 0, 0, 0] + rest;
    assert U32Value(buf, 0) == 0;
  }

  // ---------------------------------------------------------------------
  // The three kinds

  /** The `TokenElevation` kind: its selector and `from_buf`. */
  function ElevationKind(): (k: Kind<TokenElevation>)
    ensures k.level == TokenElevationType
    ensures forall buf :: k.fromBuf(buf) == ElevationFromBuf(buf)
  {
    Kind(TokenElevationType, ElevationFromBuf)
  }

  /** The `LinkedToken` kind as the crate defines it, with the decoder as
      written. */
  function LinkedTokenKind(): (k: Kind<AccessToken>)
    ensures k.level == TokenLinkedToken
    ensures forall buf :: k.fromBuf(buf) == LinkedTokenFromBufAsWritten(buf)
    ensures forall buf :: |buf| >= HandleSize ==>
      k.fromBuf(buf) == Decoded(Some(AccessToken(U32At(buf, 0))))
  {
    Kind(TokenLinkedToken, LinkedTokenFromBufAsWritten)
  }

  /** The same kind with the null test on the stored handle. */
  function CorrectedLinkedTokenKind(): (k: Kind<AccessToken>)
    ensures k.level == TokenLinkedToken
    ensures forall buf :: k.fromBuf(buf) == LinkedTokenFromBuf(buf)
    ensures forall buf :: |buf| >= HandleSize ==>
      (k.fromBuf(buf) == Decoded(None) <==> U32At(buf, 0) == 0)
  {
    Kind(TokenLinkedToken, LinkedTokenFromBuf)
  }

  /** The `Groups` kind: its selector and `from_buf`. */
  function GroupsKind(): (k: Kind<seq<GroupEntry>>)
    ensures k.level == TokenGroups
    ensures forall buf :: k.fromBuf(buf) == GroupsFromBuf(buf)
  {
    Kind(TokenGroups, GroupsFromBuf)
  }

  /** The three kinds ask the OS for three different things. */
  lemma KindsRequestDistinctSelectors()
    ensures ElevationKind().level != LinkedTokenKind().level
    ensures ElevationKind().level != GroupsKind().level
    ensures LinkedTokenKind().level != GroupsKind().level
  {
  }
}
