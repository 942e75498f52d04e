/** `TokenAccessLevel`: the access rights requested when a token is opened.
    The composite presets are defined from the single rights, never as
    separate literals. */
module Level {
  import opened Flags

  const AssignPrimary: bv32 := 1
  const Duplicate: bv32 := 2
  const Impersonate: bv32 := 4
  const Query: bv32 := 8
  const QuerySource: bv32 := 16
  const AdjustPrivileges: bv32 := 32
  const AdjustGroups: bv32 := 64
  const AdjustDefault: bv32 := 128
  const AdjustSessionId: bv32 := 256

  /** STANDARD_RIGHTS_READ (= STANDARD_RIGHTS_WRITE = READ_CONTROL). */
  const StandardRightsRead: bv32 := 0x20000
  /** STANDARD_RIGHTS_REQUIRED. */
  const StandardRightsRequired: bv32 := 0xF0000

  const Read: bv32 := StandardRightsRead | Query
  const Write: bv32 := StandardRightsRead | AdjustPrivileges | AdjustGroups | AdjustDefault
  const AllAccess: bv32 :=
    StandardRightsRequired | AssignPrimary | Duplicate | Impersonate | Query | QuerySource
    | AdjustPrivileges | AdjustGroups | AdjustDefault | AdjustSessionId
  const MaximumAllowed: bv32 := 0x2000000

  /** The nine single rights in declaration order. */
  const SingleRights: seq<bv32> :=
    [AssignPrimary, Duplicate, Impersonate, Query, QuerySource,
     AdjustPrivileges, AdjustGroups, AdjustDefault, AdjustSessionId]

  /** The single rights are the powers of two 1 .. 256, one bit each, so no
      two of them share a bit. */
  lemma SingleRightsArePowersOfTwo()
    ensures |SingleRights| == 9
    ensures forall i :: 0 <= i < 9 ==> SingleRights[i] == (1 as bv32) << i
    ensures forall i, j :: 0 <= i < j < 9 ==> (SingleRights[i] & SingleRights[j]) == 0
  {
  }

  /** `Read` is the standard read right plus `Query`. */
  lemma ReadValue()
    ensures Read == 0x20008
    ensures Contains(Read, Query)
  {
  }

  /** `Write` is the standard right plus the three adjust rights, and grants
      no query right. */
  lemma WriteValue()
    ensures Write == 0x200E0
    ensures Contains(Write, AdjustPrivileges | AdjustGroups | AdjustDefault)
    ensures !Contains(Write, Query) && !Contains(Write, QuerySource)
  {
  }

  /** `AllAccess` is the required standard rights plus every single right;
      it grants everything `Read` and `Write` grant. */
  lemma AllAccessValue()
    ensures forall i :: 0 <= i < |SingleRights| ==> Contains(AllAccess, SingleRights[i])
    ensures (AllAccess & !StandardRightsRequired) == 0x1FF
    ensures AllAccess == 0xF01FF
    ensures Contains(AllAccess, Read) && Contains(AllAccess, Write)
  {
  }

  /** `MaximumAllowed` shares no bit with `AllAccess`; `Read` and `Write`
      overlap only in the standard right. */
  lemma PresetOverlaps()
    ensures (MaximumAllowed & AllAccess) == 0
    ensures (Read & Write) == StandardRightsRead
  {
  }
}
