/** Security identifiers (SIDs): the packet layout of section 2.4.2.2 of
    [MS-DTYP], decoded into a structured value, plus the group attribute
    flags and the well-known SID constructor. */
module Security {
  import opened Wrappers
  import opened Bytes
  import opened Flags

  // ---------------------------------------------------------------------
  // GroupSidAttributes

  const SE_GROUP_MANDATORY: bv32 := 0x0000_0001
  const SE_GROUP_ENABLED_BY_DEFAULT: bv32 := 0x0000_0002
  const SE_GROUP_ENABLED: bv32 := 0x0000_0004
  const SE_GROUP_OWNER: bv32 := 0x0000_0008
  const SE_GROUP_USE_FOR_DENY_ONLY: bv32 := 0x0000_0010
  const SE_GROUP_INTEGRITY: bv32 := 0x0000_0020
  const SE_GROUP_INTEGRITY_ENABLED: bv32 := 0x0000_0040
  const SE_GROUP_LOGON_ID: bv32 := 0xC000_0000
  const SE_GROUP_RESOURCE: bv32 := 0x2000_0000
  const SE_GROUP_VALID_ATTRIBUTES: bv32 := 0xE000_007F

  /** The valid-attributes mask is exactly the union of the nine named
      group flags, and every one of them lies inside it. */
  lemma ValidAttributesIsUnion()
    ensures SE_GROUP_VALID_ATTRIBUTES ==
      SE_GROUP_MANDATORY | SE_GROUP_ENABLED_BY_DEFAULT | SE_GROUP_ENABLED | SE_GROUP_OWNER
      | SE_GROUP_USE_FOR_DENY_ONLY | SE_GROUP_INTEGRITY | SE_GROUP_INTEGRITY_ENABLED
      | SE_GROUP_LOGON_ID | SE_GROUP_RESOURCE
    ensures Contains(SE_GROUP_VALID_ATTRIBUTES, SE_GROUP_ENABLED)
    ensures Contains(SE_GROUP_VALID_ATTRIBUTES, SE_GROUP_LOGON_ID)
  {
  }

  // ---------------------------------------------------------------------
  // SecurityIdentifier

  /** The 6-byte identifier authority, most significant byte first. */
  type Authority = a: seq<bv8> | |a| == 6 witness [0, 0, 0, 0, 0, 0]

  datatype IdentifierAuthority = IdentifierAuthority(value: Authority)

  datatype SecurityIdentifier = SecurityIdentifier(
    revision: bv8,
    identifier: IdentifierAuthority,
    subAuthority: seq<bv32>)

  /** The derived `PartialEq`: field by field. */
  predicate SidEq(a: SecurityIdentifier, b: SecurityIdentifier)
  {
    && a.revision == b.revision
    && a.identifier.value == b.identifier.value
    && |a.subAuthority| == |b.subAuthority|
    && forall i :: 0 <= i < |a.subAuthority| ==> a.subAuthority[i] == b.subAuthority[i]
  }

  /** Field-wise comparison agrees with value equality: two SIDs are equal
      exactly when revision, the authority bytes and the whole sub-authority
      sequence agree. */
  lemma SidEqIsEquality(a: SecurityIdentifier, b: SecurityIdentifier)
    ensures SidEq(a, b) <==> a == b
  {
    if SidEq(a, b) {
      assert a.subAuthority == b.subAuthority;
    }
  }

  /** Byte length of a SID with `count` sub-authorities. */
  function SidLength(count: nat): nat
  {
    8 + 4 * count
  }

  /** `buf` holds a whole SID: the header, and as many sub-authorities as
      its count byte says. */
  predicate HoldsSid(buf: seq<bv8>)
  {
    |buf| >= 8 && SidLength(buf[1] as nat) <= |buf|
  }

  /** The `count` 32-bit words stored from `off` on, in order: the
      sub-authority loop of `from_raw`. */
  function ReadSubAuthorities(buf: seq<bv8>, off: nat, count: nat): (r: seq<bv32>)
    requires off + 4 * count <= |buf|
    ensures |r| == count
    ensures forall i :: 0 <= i < count ==> r[i] == U32At(buf, off + 4 * i)
    decreases count
  {
    if count == 0 then [] else [U32At(buf, off)] + ReadSubAuthorities(buf, off + 4, count - 1)
  }

  /** `SecurityIdentifier::from_raw`: byte 0 is the revision, byte 1 the
      sub-authority count, bytes 2..8 the authority, then the count words. */
  function FromRaw(buf: seq<bv8>): (sid: SecurityIdentifier)
    requires HoldsSid(buf)
    ensures sid.revision == buf[0]
    ensures sid.identifier.value == buf[2..8]
    ensures |sid.subAuthority| == buf[1] as nat
    ensures forall i :: 0 <= i < |sid.subAuthority| ==> sid.subAuthority[i] == U32At(buf, 8 + 4 * i)
  {
    SecurityIdentifier(buf[0], IdentifierAuthority(buf[2..8]), ReadSubAuthorities(buf, 8, buf[1] as nat))
  }

  // ---------------------------------------------------------------------
  // The packet layout written out, the inverse of FromRaw

  /** A SID that the one-byte count field can describe. */
  predicate Encodable(sid: SecurityIdentifier)
  {
    |sid.subAuthority| <= 255
  }

  function EncodeSubAuthorities(xs: seq<bv32>): (b: seq<bv8>)
    ensures |b| == 4 * |xs|
  {
    if xs == [] then [] else LeBytes32(xs[0]) + EncodeSubAuthorities(xs[1..])
  }

  /** The count byte of a SID with `n` sub-authorities. */
  function CountByte(n: nat): (b: bv8)
    requires n <= 255
    ensures b as nat == n
  {
    ByteOf(n)
  }

  lemma CountByteOfByte(b: bv8)
    ensures CountByte(b as nat) == b
  {
  }

  /** The packet representation of a SID. */
  function Encode(sid: SecurityIdentifier): (b: seq<bv8>)
    requires Encodable(sid)
    ensures |b| == SidLength(|sid.subAuthority|)
    ensures b[1] as nat == |sid.subAuthority|
    ensures HoldsSid(b)
  {
    [sid.revision, CountByte(|sid.subAuthority|)] + sid.identifier.value
      + EncodeSubAuthorities(sid.subAuthority)
  }

  /** Word `i` of the encoded sub-authorities is sub-authority `i`. */
  lemma {:induction false} EncodedWord(xs: seq<bv32>, i: nat)
    requires i < |xs|
    ensures U32At(EncodeSubAuthorities(xs), 4 * i) == xs[i]
    decreases i
  {
    var rest := EncodeSubAuthorities(xs[1..]);
    assert EncodeSubAuthorities(xs) == LeBytes32(xs[0]) + rest;
    if i > 0 {
      EncodedWord(xs[1..], i - 1);
      U32AtSlice(EncodeSubAuthorities(xs), 4 * i, 4, 4 * |xs|);
      assert EncodeSubAuthorities(xs)[4..4 * |xs|] == rest;
    }
  }

  /** Encoding the words read from a buffer gives back the bytes read. */
  lemma {:induction false} EncodeReadSubAuthorities(buf: seq<bv8>, off: nat, count: nat)
    requires off + 4 * count <= |buf|
    ensures EncodeSubAuthorities(ReadSubAuthorities(buf, off, count)) == buf[off..off + 4 * count]
    decreases count
  {
    if count > 0 {
      var r := ReadSubAuthorities(buf, off, count);
      assert r[1..] == ReadSubAuthorities(buf, off + 4, count - 1);
      EncodeReadSubAuthorities(buf, off + 4, count - 1);
      LeBytes32OfU32At(buf, off);
      assert buf[off..off + 4 * count] == buf[off..off + 4] + buf[off + 4..off + 4 * count];
    }
  }

  /** Decoding an encoded SID, whatever follows it, gives the SID back. */
  lemma DecodeEncode(sid: SecurityIdentifier, tail: seq<bv8>)
    requires Encodable(sid)
    ensures HoldsSid(Encode(sid) + tail)
    ensures FromRaw(Encode(sid) + tail) == sid
  {
    var enc := EncodeSubAuthorities(sid.subAuthority);
    var buf := Encode(sid) + tail;
    var d := FromRaw(buf);
    assert buf[8..8 + |enc|] == enc;
    forall i | 0 <= i < |sid.subAuthority|
      ensures d.subAuthority[i] == sid.subAuthority[i]
    {
      EncodedWord(sid.subAuthority, i);
      U32AtSlice(buf, 8 + 4 * i, 8, 8 + |enc|);
    }
    assert d.subAuthority == sid.subAuthority;
    assert d.identifier.value == sid.identifier.value;
  }

  /** Two strings that agree on a prefix and on what follows it are
      equal. */
  lemma Glue<T>(head: seq<T>, body: seq<T>, buf: seq<T>, k: nat, n: nat)
    requires k <= n <= |buf|
    requires head == buf[..k] && body == buf[k..n]
    ensures head + body == buf[..n]
  {
  }

  /** The header of the SID decoded from a buffer, written back, is the
      buffer's first 8 bytes. */
  lemma HeaderBack(buf: seq<bv8>)
    requires HoldsSid(buf)
    ensures var sid := FromRaw(buf);
      [sid.revision, CountByte(|sid.subAuthority|)] + sid.identifier.value == buf[..8]
  {
    var sid := FromRaw(buf);
    var head := [sid.revision, CountByte(|sid.subAuthority|)] + sid.identifier.value;
    CountByteOfByte(buf[1]);
    forall k | 0 <= k < 8
      ensures head[k] == buf[k]
    {
      if k >= 2 {
        assert head[k] == sid.identifier.value[k - 2];
      }
    }
  }

  /** Encoding a decoded SID gives back exactly the bytes `from_raw` read:
      the first `8 + 4 * count` bytes of the buffer. */
  lemma EncodeDecode(buf: seq<bv8>)
    requires HoldsSid(buf)
    ensures Encodable(FromRaw(buf))
    ensures Encode(FromRaw(buf)) == buf[..SidLength(buf[1] as nat)]
  {
    var count := buf[1] as nat;
    var sid := FromRaw(buf);
    EncodeReadSubAuthorities(buf, 8, count);
    HeaderBack(buf);
    Glue([sid.revision, CountByte(count)] + sid.identifier.value,
      EncodeSubAuthorities(sid.subAuthority), buf, 8, SidLength(count));
  }

  /** `from_raw` reads nothing past the first `8 + 4 * count` bytes:
      appending bytes never changes the decoded SID. */
  lemma FromRawIgnoresTrailingBytes(buf: seq<bv8>, extra: seq<bv8>)
    requires HoldsSid(buf)
    ensures HoldsSid(buf + extra)
    ensures FromRaw(buf + extra) == FromRaw(buf)
  {
    var n := SidLength(buf[1] as nat);
    EncodeDecode(buf);
    assert buf + extra == Encode(FromRaw(buf)) + (buf[n..] + extra);
    DecodeEncode(FromRaw(buf), buf[n..] + extra);
  }

  /** S-1-5-32-544 (BUILTIN\Administrators) decodes from its 16 bytes, with
      or without padding behind them. */
  lemma AdministratorsPacket(padding: seq<bv8>)
    ensures var buf := [1, 2, 0, 0, 0, 0, 0, 5, 32, 0, 0, 0, 0x20, 2, 0, 0] + padding;
      HoldsSid(buf) && FromRaw(buf) == SecurityIdentifier(1, IdentifierAuthority([0, 0, 0, 0, 0, 5]), [32, 544])
  {
    var sid := SecurityIdentifier(1, IdentifierAuthority([0, 0, 0, 0, 0, 5]), [32, 544]);
    assert Encode(sid) == [1, 2, 0, 0, 0, 0, 0, 5, 32, 0, 0, 0, 0x20, 2, 0, 0];
    DecodeEncode(sid, padding);
  }

  // ---------------------------------------------------------------------
  // Well-known SIDs

  /** A `WellKnownSid` selector: the enumeration's discriminants 0 .. 94.
      Which SID the OS builds for each is the OS's business. */
  type WellKnownSid = k: int | 0 <= k <= 94

  const WinBuiltinAdministratorsSid: WellKnownSid := 26

  /** SID_MAX_SUB_AUTHORITIES. */
  const SidMaxSubAuthorities: nat := 15

  /** The buffer `from_known` hands to the OS: room for the largest SID. */
  const MaxSidSize: nat := SidMaxSubAuthorities * 4 + 1 + 1 + 6

  /** What `CreateWellKnownSid` is asked for: the selector as a DWORD and
      the size of the buffer to fill. */
  datatype CreateSidRequest = CreateSidRequest(selector: nat, bufferSize: nat)

  /** What `CreateWellKnownSid` (and `GetLastError` after it) reported. */
  datatype CreateSidReply = CreateSidReply(ok: bool, written: seq<bv8>, lastError: bv32)

  function CreateSidRequestFor(sel: WellKnownSid): (req: CreateSidRequest)
    ensures req.selector == sel
    ensures req.bufferSize == MaxSidSize == 68
  {
    CreateSidRequest(sel, MaxSidSize)
  }

  /** The zero-initialised buffer after the OS has written its SID. */
  function KnownSidBuffer(reply: CreateSidReply): (buf: seq<bv8>)
    ensures |buf| == MaxSidSize
  {
    Fill(reply.written, MaxSidSize)
  }

  /** `CreateWellKnownSid` as the OS answers it. */
  type SidOracle = CreateSidRequest -> CreateSidReply

  /** `SecurityIdentifier::from_known`: asks the OS for the selector's SID
      in a 68-byte buffer. A failing call yields the OS error; otherwise
      `from_raw` decodes the buffer. A count byte above SID_MAX_SUB_AUTHORITIES
      would make it read past the buffer; otherwise the result is `Ok`, and
      its packet form is the first 8 + 4·count bytes of the zero-filled
      buffer. */
  function FromKnown(sidOs: SidOracle, sel: WellKnownSid): (r: Run<SecurityIdentifier>)
    ensures var reply := sidOs(CreateSidRequest(sel, 68));
      && (!reply.ok ==> r == Done(Err(OsError(reply.lastError))))
      && (reply.ok ==>
            (r == Crashed(OutOfBounds) <==> KnownSidBuffer(reply)[1] as nat > SidMaxSubAuthorities))
      && (reply.ok && KnownSidBuffer(reply)[1] as nat <= SidMaxSubAuthorities ==> r.Done? && r.result.Ok?)
      && (r.Done? && r.result.Ok? ==>
            && reply.ok
            && HoldsSid(KnownSidBuffer(reply))
            && r.result.value == FromRaw(KnownSidBuffer(reply))
            && Encodable(r.result.value)
            && |r.result.value.subAuthority| <= SidMaxSubAuthorities
            && Encode(r.result.value) == KnownSidBuffer(reply)[..SidLength(|r.result.value.subAuthority|)])
  {
    var reply := sidOs(CreateSidRequestFor(sel));
    if !reply.ok then
      Done(Err(OsError(reply.lastError)))
    else
      var buf := KnownSidBuffer(reply);
      if !HoldsSid(buf) then
        Crashed(OutOfBounds)
      else
        EncodeDecode(buf);
        Done(Ok(FromRaw(buf)))
  }

  /** Any SID the OS produces for a selector round-trips through its own
      packet form. */
  lemma FromKnownRoundTrip(sidOs: SidOracle, sel: WellKnownSid)
    requires var reply := sidOs(CreateSidRequestFor(sel));
      reply.ok && KnownSidBuffer(reply)[1] as nat <= SidMaxSubAuthorities
    ensures FromKnown(sidOs, sel).Done? && FromKnown(sidOs, sel).result.Ok?
    ensures var sid := FromKnown(sidOs, sel).result.value;
      FromRaw(Encode(sid)) == sid
  {
    var sid := FromKnown(sidOs, sel).result.value;
    DecodeEncode(sid, []);
    assert Encode(sid) + [] == Encode(sid);
  }
}
