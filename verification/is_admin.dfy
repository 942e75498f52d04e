/** The `is-admin` example: a token is an administrator's when its group
    list holds the enabled administrators group; the program asks about its
    own process token and, when that token is the limited half of a split
    (UAC) token, about the linked full token too. */
module IsAdmin {
  import opened Wrappers
  import opened Bytes
  import opened Flags
  import Level
  import opened Security
  import opened Token
  import opened Information

  // ---------------------------------------------------------------------
  // The membership test

  /** The test in the loop body: the group is the administrators group and
      its attributes contain SE_GROUP_ENABLED. */
  predicate IsEnabledAdmin(g: GroupEntry, admin: SecurityIdentifier)
  {
    SidEq(g.sid, admin) && Contains(g.attributes, SE_GROUP_ENABLED)
  }

  /** Some group of the list is the enabled administrators group. */
  predicate HasEnabledAdmin(gs: seq<GroupEntry>, admin: SecurityIdentifier)
  {
    exists i :: 0 <= i < |gs| && IsEnabledAdmin(gs[i], admin)
  }

  /** The `for` loop of `is_admin_token`: the groups in order, stopping at
      the first enabled administrators group. */
  function ScanGroups(gs: seq<GroupEntry>, admin: SecurityIdentifier): (found: bool)
    ensures found <==> HasEnabledAdmin(gs, admin)
  {
    if gs == [] then
      false
    else if IsEnabledAdmin(gs[0], admin) then
      true
    else
      var found := ScanGroups(gs[1..], admin);
      assert found ==> HasEnabledAdmin(gs, admin) by {
        if found {
          var i :| 0 <= i < |gs[1..]| && IsEnabledAdmin(gs[1..][i], admin);
          assert gs[i + 1] == gs[1..][i];
        }
      }
      assert HasEnabledAdmin(gs, admin) ==> found by {
        if HasEnabledAdmin(gs, admin) {
          var i :| 0 <= i < |gs| && IsEnabledAdmin(gs[i], admin);
          assert i != 0;
          assert gs[1..][i - 1] == gs[i];
        }
      }
      found
  }

  /** `contains(SE_GROUP_ENABLED)` looks at one bit, bit 2, whatever the
      other attribute bits are. */
  lemma EnabledIsOneBit(attributes: bv32)
    ensures Contains(attributes, SE_GROUP_ENABLED) <==> HasBit(attributes, 2)
  {
    ContainsIsBitSubset(attributes, SE_GROUP_ENABLED);
    assert HasBit(SE_GROUP_ENABLED, 2);
    forall i | 0 <= i < 32 && i != 2
      ensures !HasBit(SE_GROUP_ENABLED, i)
    {
    }
  }

  /** The answer depends on which groups the list holds, not on their
      order. */
  lemma OrderIrrelevant(gs: seq<GroupEntry>, hs: seq<GroupEntry>, admin: SecurityIdentifier)
    requires multiset(gs) == multiset(hs)
    ensures ScanGroups(gs, admin) == ScanGroups(hs, admin)
  {
    HasAdminMoves(gs, hs, admin);
    HasAdminMoves(hs, gs, admin);
  }

  lemma HasAdminMoves(gs: seq<GroupEntry>, hs: seq<GroupEntry>, admin: SecurityIdentifier)
    requires multiset(gs) == multiset(hs)
    ensures HasEnabledAdmin(gs, admin) ==> HasEnabledAdmin(hs, admin)
  {
    if HasEnabledAdmin(gs, admin) {
      var i :| 0 <= i < |gs| && IsEnabledAdmin(gs[i], admin);
      assert gs[i] in multiset(hs);
      var j :| 0 <= j < |hs| && hs[j] == gs[i];
    }
  }

  /** An administrators entry without the ENABLED bit (a deny-only group,
      say) changes nothing, wherever it sits in the list. */
  lemma DisabledAdminIgnored(pre: seq<GroupEntry>, g: GroupEntry, post: seq<GroupEntry>, admin: SecurityIdentifier)
    requires !Contains(g.attributes, SE_GROUP_ENABLED)
    ensures ScanGroups(pre + [g] + post, admin) == ScanGroups(pre + post, admin)
  {
    var with := pre + [g] + post;
    var without := pre + post;
    if HasEnabledAdmin(with, admin) {
      var i :| 0 <= i < |with| && IsEnabledAdmin(with[i], admin);
      if i < |pre| {
        assert without[i] == with[i];
      } else {
        assert i > |pre|;
        assert without[i - 1] == with[i];
      }
    }
    if HasEnabledAdmin(without, admin) {
      var i :| 0 <= i < |without| && IsEnabledAdmin(without[i], admin);
      if i < |pre| {
        assert with[i] == without[i];
      } else {
        assert with[i + 1] == without[i];
      }
    }
  }

  /** S-1-5-32-544 (BUILTIN\Administrators) and S-1-5-32-545 (BUILTIN\Users). */
  const Administrators := SecurityIdentifier(1, IdentifierAuthority([0, 0, 0, 0, 0, 5]), [32, 544])
  const Users := SecurityIdentifier(1, IdentifierAuthority([0, 0, 0, 0, 0, 5]), [32, 545])

  /** A full token holds the administrators group enabled; the filtered
      token of a split login holds it for deny only, and is not an
      administrator's. */
  lemma SplitTokenExample()
    ensures var on := SE_GROUP_MANDATORY | SE_GROUP_ENABLED_BY_DEFAULT | SE_GROUP_ENABLED;
      && ScanGroups([GroupEntry(Users, on), GroupEntry(Administrators, on)], Administrators)
      && !ScanGroups([GroupEntry(Users, on), GroupEntry(Administrators, SE_GROUP_USE_FOR_DENY_ONLY)], Administrators)
  {
    var on := SE_GROUP_MANDATORY | SE_GROUP_ENABLED_BY_DEFAULT | SE_GROUP_ENABLED;
    assert !SidEq(Users, Administrators) by {
      assert Users.subAuthority[1] != Administrators.subAuthority[1];
    }
    assert IsEnabledAdmin(GroupEntry(Administrators, on), Administrators);
    assert !Contains(SE_GROUP_USE_FOR_DENY_ONLY, SE_GROUP_ENABLED);
  }

  // ---------------------------------------------------------------------
  // is_admin_token

  /** `from_known(WinBuiltinAdministratorsSid)`. */
  function AdminSid(sidOs: SidOracle): Run<SecurityIdentifier>
  {
    FromKnown(sidOs, WinBuiltinAdministratorsSid)
  }

  /** A run together with the `GetTokenInformation` calls it made. */
  datatype Traced<+T> = Traced(calls: seq<InfoCall>, run: Run<T>)

  /** `is_admin_token`: build the administrators SID, query the groups,
      scan them. A failure building the SID comes first, before any query;
      a query error propagates; no group information means "no". */
  function IsAdminToken(sidOs: SidOracle, os: InfoOracle, token: AccessToken): (t: Traced<bool>)
    ensures var admin := AdminSid(sidOs);
      && (admin.Crashed? ==> t == Traced([], Crashed(admin.fault)))
      && (admin.Done? && admin.result.Err? ==> t == Traced([], Done(Err(admin.result.error))))
      && (admin.Done? && admin.result.Ok? ==>
            var q := TokenInformation(os, token, GroupsKind());
            && t.calls == q.calls
            && (t.run == Done(Ok(true)) <==>
                  q.outcome.Done? && q.outcome.result.Ok? && q.outcome.result.value.Some?
                  && HasEnabledAdmin(q.outcome.result.value.value, admin.result.value))
            && (q.outcome.Done? && q.outcome.result.Ok? && q.outcome.result.value.Some? ==>
                  t.run == Done(Ok(HasEnabledAdmin(q.outcome.result.value.value, admin.result.value))))
            && (q.outcome == Done(Ok(None)) ==> t.run == Done(Ok(false)))
            && (q.outcome.Done? && q.outcome.result.Err? ==> t.run == Done(Err(q.outcome.result.error)))
            && (q.outcome.Crashed? ==> t.run == Crashed(q.outcome.fault)))
  {
    match AdminSid(sidOs)
    case Crashed(f) => Traced([], Crashed(f))
    case Done(Err(e)) => Traced([], Done(Err(e)))
    case Done(Ok(admin)) =>
      var q := TokenInformation(os, token, GroupsKind());
      var run := match q.outcome
        case Crashed(f) => Crashed(f)
        case Done(Err(e)) => Done(Err(e))
        case Done(Ok(None)) => Done(Ok(false))
        case Done(Ok(Some(gs))) => Done(Ok(ScanGroups(gs, admin)));
      Traced(q.calls, run)
  }

  /** Every information call of `is_admin_token` asks for the groups of
      the token it was given. */
  lemma IsAdminTokenAsksForGroups(sidOs: SidOracle, os: InfoOracle, token: AccessToken)
    ensures var calls := IsAdminToken(sidOs, os, token).calls;
      forall i :: 0 <= i < |calls| ==> calls[i].level == TokenGroups && calls[i].handle == token.handle
  {
  }

  // ---------------------------------------------------------------------
  // main

  /** The elevation query of a token. */
  function Elevation(os: InfoOracle, token: AccessToken): Query<TokenElevation>
  {
    TokenInformation(os, token, ElevationKind())
  }

  /** The linked-token query of a token. */
  function Linked(os: InfoOracle, token: AccessToken): Query<AccessToken>
  {
    TokenInformation(os, token, LinkedTokenKind())
  }

  /** Some call of the trace asks for a linked token. */
  predicate AsksLinked(calls: seq<InfoCall>)
  {
    exists i :: 0 <= i < |calls| && calls[i].level == TokenLinkedToken
  }

  lemma AsksLinkedAppend(a: seq<InfoCall>, b: seq<InfoCall>)
    ensures AsksLinked(a + b) <==> AsksLinked(a) || AsksLinked(b)
  {
    var ab := a + b;
    if AsksLinked(ab) {
      var i :| 0 <= i < |ab| && ab[i].level == TokenLinkedToken;
      if i >= |a| {
        assert b[i - |a|] == ab[i];
      }
    }
    if AsksLinked(a) {
      var i :| 0 <= i < |a| && a[i].level == TokenLinkedToken;
      assert ab[i] == a[i];
    }
    if AsksLinked(b) {
      var i :| 0 <= i < |b| && b[i].level == TokenLinkedToken;
      assert ab[|a| + i] == b[i];
    }
  }

  /** The part of `main` after the own token was found not to be an
      administrator's: only a Limited token has its linked token checked.
      Every failing query ends the run with its error or fault; otherwise
      the verdict is "not an admin" unless the linked token is one. */
  function LinkedFallback(sidOs: SidOracle, os: InfoOracle, token: AccessToken): (t: Traced<bool>)
    ensures AsksLinked(t.calls) <==> Elevation(os, token).outcome == Done(Ok(Some(Limited)))
    ensures t.run == Done(Ok(true)) <==>
      && Elevation(os, token).outcome == Done(Ok(Some(Limited)))
      && var linked := Linked(os, token).outcome;
      && linked.Done? && linked.result.Ok? && linked.result.value.Some?
      && IsAdminToken(sidOs, os, linked.result.value.value).run == Done(Ok(true))
    // the elevation query: failures propagate, anything but Limited is "no"
    ensures var elevation := Elevation(os, token).outcome;
      && (elevation.Crashed? ==> t.run == Crashed(elevation.fault))
      && (elevation.Done? && elevation.result.Err? ==> t.run == Done(Err(elevation.result.error)))
      && (elevation.Done? && elevation.result.Ok? && elevation.result.value != Some(Limited) ==>
            t.run == Done(Ok(false)))
    // the linked-token query of a Limited token: failures propagate, no
    // linked token is "no", a linked token decides
    ensures Elevation(os, token).outcome == Done(Ok(Some(Limited))) ==>
      var linked := Linked(os, token).outcome;
      && (linked.Crashed? ==> t.run == Crashed(linked.fault))
      && (linked.Done? && linked.result.Err? ==> t.run == Done(Err(linked.result.error)))
      && (linked == Done(Ok(None)) ==> t.run == Done(Ok(false)))
      && (linked.Done? && linked.result.Ok? && linked.result.value.Some? ==>
            t.run == IsAdminToken(sidOs, os, linked.result.value.value).run)
  {
    var elevation := Elevation(os, token);
    assert !AsksLinked(elevation.calls);
    match elevation.outcome
    case Crashed(f) => Traced(elevation.calls, Crashed(f))
    case Done(Err(e)) => Traced(elevation.calls, Done(Err(e)))
    case Done(Ok(v)) =>
      if v != Some(Limited) then
        Traced(elevation.calls, Done(Ok(false)))
      else
        var linked := Linked(os, token);
        var calls := elevation.calls + linked.calls;
        assert AsksLinked(linked.calls) by {
          assert linked.calls[0].level == TokenLinkedToken;
        }
        AsksLinkedAppend(elevation.calls, linked.calls);
        match linked.outcome
        case Crashed(f) => Traced(calls, Crashed(f))
        case Done(Err(e)) => Traced(calls, Done(Err(e)))
        case Done(Ok(None)) => Traced(calls, Done(Ok(false)))
        case Done(Ok(Some(other))) =>
          var theirs := IsAdminToken(sidOs, os, other);
          AsksLinkedAppend(calls, theirs.calls);
          IsAdminTokenAsksForGroups(sidOs, os, other);
          Traced(calls + theirs.calls, theirs.run)
  }

  /** `main`. The run's value is the verdict printed: `Ok(true)` for "You
      are an admin", `Ok(false)` for "You are not an admin"; an error or
      fault is the program failing with it. */
  function Main(openOs: OpenOracle, sidOs: SidOracle, os: InfoOracle): (t: Traced<bool>)
    // a token that cannot be opened ends the program with the OS error
    ensures var process := OpenProcess(openOs, Level.Query);
      process.Err? ==> t == Traced([], Done(Err(process.error)))
    // an own-token check that does not answer "no" decides the run: "yes",
    // or its error or fault; a "no" hands over to the linked-token fallback
    ensures var process := OpenProcess(openOs, Level.Query);
      process.Ok? ==>
        var own := IsAdminToken(sidOs, os, process.value).run;
        && (own != Done(Ok(false)) ==> t.run == own)
        && (own == Done(Ok(false)) ==> t.run == LinkedFallback(sidOs, os, process.value).run)
    // the linked token is asked for exactly when the own token is not an
    // administrator's and its elevation is Limited
    ensures AsksLinked(t.calls) <==>
      var process := OpenProcess(openOs, Level.Query);
      && process.Ok?
      && IsAdminToken(sidOs, os, process.value).run == Done(Ok(false))
      && Elevation(os, process.value).outcome == Done(Ok(Some(Limited)))
    // the verdict: the own token is an administrator's, or it is Limited and
    // its linked token is an administrator's
    ensures t.run == Done(Ok(true)) <==>
      var process := OpenProcess(openOs, Level.Query);
      && process.Ok?
      && var own := IsAdminToken(sidOs, os, process.value).run;
      || own == Done(Ok(true))
      || (&& own == Done(Ok(false))
          && Elevation(os, process.value).outcome == Done(Ok(Some(Limited)))
          && var linked := Linked(os, process.value).outcome;
          && linked.Done? && linked.result.Ok? && linked.result.value.Some?
          && IsAdminToken(sidOs, os, linked.result.value.value).run == Done(Ok(true)))
    // "You are not an admin": every query answered, the own token is not an
    // administrator's, and it is not Limited, has no linked token, or its
    // linked token is not an administrator's either
    ensures t.run == Done(Ok(false)) <==>
      var process := OpenProcess(openOs, Level.Query);
      && process.Ok?
      && IsAdminToken(sidOs, os, process.value).run == Done(Ok(false))
      && var elevation := Elevation(os, process.value).outcome;
      && elevation.Done? && elevation.result.Ok?
      && (|| elevation.result.value != Some(Limited)
          || var linked := Linked(os, process.value).outcome;
             || linked == Done(Ok(None))
             || (&& linked.Done? && linked.result.Ok? && linked.result.value.Some?
                 && IsAdminToken(sidOs, os, linked.result.value.value).run == Done(Ok(false))))
  {
    var process := OpenProcess(openOs, Level.Query);
    if process.Err? then
      Traced([], Done(Err(process.error)))
    else
      var token := process.value;
      var own := IsAdminToken(sidOs, os, token);
      IsAdminTokenAsksForGroups(sidOs, os, token);
      assert !AsksLinked(own.calls);
      if own.run != Done(Ok(false)) then
        own
      else
        var rest := LinkedFallback(sidOs, os, token);
        AsksLinkedAppend(own.calls, rest.calls);
        Traced(own.calls + rest.calls, rest.run)
  }

  /** With the linked-token decoder as written, a Limited token whose linked
      token query fills in a null handle has `is_admin_token` run on handle
      0, and the run ends however that check ends; with the null test on the
      stored handle the same replies give "no linked token". */
  lemma NullLinkedHandleChecked(sidOs: SidOracle, os: InfoOracle, token: AccessToken)
    requires Elevation(os, token).outcome == Done(Ok(Some(Limited)))
    requires var input := Linked(os, token).decoderInput;
      input.Some? && |input.value| >= HandleSize && U32At(input.value, 0) == 0
    ensures LinkedFallback(sidOs, os, token).run == IsAdminToken(sidOs, os, AccessToken(0)).run
    ensures TokenInformation(os, token, CorrectedLinkedTokenKind()).outcome == Done(Ok(None))
  {
  }
}
