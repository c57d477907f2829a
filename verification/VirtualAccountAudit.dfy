/** The audit of virtual accounts: classification, refusal, deactivation, pooled addresses. */
module VirtualAccountAudit {
  import opened Wrappers
  import opened Text

  // The provider's list is classified against the local one; a run may refuse to work from an empty
  // database, deactivates stale accounts, and looks for addresses that serve several customers.

  /** An absent customer id or address is the empty string. */
  datatype Remote = Remote(id: string, customerId: string, status: string, address: string)
  datatype Local = Local(id: string, providerAccountId: string, status: string)
  datatype Row = Row(bridgeId: string, customerId: string, localStatus: string, address: string, stale: bool)
  datatype Flags = Flags(deactivate: bool, forceEmptyDb: bool, production: bool)

  const ACTIVE := "active"
  const UNKNOWN := "UNKNOWN_TO_SIVAN"

  // ---------------------------------------------------------------- classification

  predicate IsLive(va: Remote) {
    Lower(va.status) == "activated" || Lower(va.status) == "active"
  }

  /** `new Map(local.map(...)).get(id)`: of several records with one provider id, the last. */
  function RecordFor(local: seq<Local>, id: string): Option<Local> {
    if local == [] then None
    else if local[|local| - 1].providerAccountId == id then Some(local[|local| - 1])
    else RecordFor(local[..|local| - 1], id)
  }

  function StatusFor(local: seq<Local>, id: string): string {
    match RecordFor(local, id)
    case None => UNKNOWN
    case Some(record) => record.status
  }

  function Classified(local: seq<Local>, va: Remote): Row {
    var localStatus := StatusFor(local, va.id);
    Row(va.id, va.customerId, localStatus, va.address, IsLive(va) && localStatus != ACTIVE)
  }

  function Rows(local: seq<Local>, accounts: seq<Remote>): (rows: seq<Row>)
    ensures |rows| == |accounts|
  {
    seq(|accounts|, i requires 0 <= i < |accounts| => Classified(local, accounts[i]))
  }

  // ---------------------------------------------------------------- deactivation

  /** A stale row the loop does not skip for its status. */
  predicate Confirmed(row: Row, flags: Flags) {
    row.stale && row.localStatus != ACTIVE && (row.localStatus == UNKNOWN ==> flags.forceEmptyDb)
  }

  predicate IsTarget(row: Row, flags: Flags) {
    Confirmed(row, flags) && row.customerId != ""
  }

  function TargetsOf(rows: seq<Row>, flags: Flags): seq<Row> {
    if rows == [] then [] else
      var front, row := TargetsOf(rows[..|rows| - 1], flags), rows[|rows| - 1];
      if IsTarget(row, flags) then front + [row] else front
  }

  /** How the loop counts: requests that went through, and requests that failed or could not be addressed. */
  function Tally(rows: seq<Row>, flags: Flags, accepts: string -> bool): (nat, nat) {
    if rows == [] then (0, 0) else
      var (done, failed) := Tally(rows[..|rows| - 1], flags, accepts);
      var row := rows[|rows| - 1];
      if !Confirmed(row, flags) then (done, failed)
      else if row.customerId == "" then (done, failed + 1)
      else if accepts(row.bridgeId) then (done + 1, failed)
      else (done, failed + 1)
  }

  function Deactivated(accounts: seq<Remote>, id: string): (r: seq<Remote>)
    ensures |r| == |accounts|
  {
    seq(|accounts|, i requires 0 <= i < |accounts| =>
      if accounts[i].id == id then accounts[i].(status := "deactivated") else accounts[i])
  }

  function AfterTargets(accounts: seq<Remote>, targets: seq<Row>, accepts: string -> bool): (r: seq<Remote>)
    ensures |r| == |accounts|
  {
    if targets == [] then accounts else
      var before, id := AfterTargets(accounts, targets[..|targets| - 1], accepts), targets[|targets| - 1].bridgeId;
      if accepts(id) then Deactivated(before, id) else before
  }

  /** Refused: a production key, accounts at the provider, and an empty local list. */
  predicate Refused(accounts: seq<Remote>, local: seq<Local>, flags: Flags) {
    flags.production && accounts != [] && local == [] && !flags.forceEmptyDb
  }

  function Targets(accounts: seq<Remote>, local: seq<Local>, flags: Flags): seq<Row> {
    if Refused(accounts, local, flags) || !flags.deactivate then [] else TargetsOf(Rows(local, accounts), flags)
  }

  /** The provider: its accounts, and every deactivation it was asked for. */
  class Provider {
    var accounts: seq<Remote>
    var asked: seq<string>

    constructor (accounts: seq<Remote>)
      ensures this.accounts == accounts && asked == []
    {
      this.accounts, asked := accounts, [];
    }

    /** POST .../deactivate, which the provider may refuse. */
    method Deactivate(id: string, accepted: bool)
      modifies this
      ensures asked == old(asked) + [id]
      ensures accounts == if accepted then Deactivated(old(accounts), id) else old(accounts)
    {
      asked := asked + [id];
      if accepted { accounts := Deactivated(accounts, id); }
    }
  }

  function BridgeIds(rows: seq<Row>): seq<string> {
    seq(|rows|, i requires 0 <= i < |rows| => rows[i].bridgeId)
  }

  /** The loop over the stale rows. */
  method DeactivateStale(provider: Provider, rows: seq<Row>, flags: Flags, accepts: string -> bool)
    returns (done: nat, failed: nat)
    modifies provider
    ensures (done, failed) == Tally(rows, flags, accepts)
    ensures provider.asked == old(provider.asked) + BridgeIds(TargetsOf(rows, flags))
    ensures provider.accounts == AfterTargets(old(provider.accounts), TargetsOf(rows, flags), accepts)
  {
    done, failed := 0, 0;
    for i := 0 to |rows|
      invariant (done, failed) == Tally(rows[..i], flags, accepts)
      invariant provider.asked == old(provider.asked) + BridgeIds(TargetsOf(rows[..i], flags))
      invariant provider.accounts == AfterTargets(old(provider.accounts), TargetsOf(rows[..i], flags), accepts)
    {
      var row := rows[i];
      assert rows[..i + 1][..i] == rows[..i];
      if !row.stale { continue; }
      if row.localStatus == ACTIVE { continue; }
      if row.localStatus == UNKNOWN && !flags.forceEmptyDb { continue; }
      if row.customerId == "" {
        failed := failed + 1;
        continue;
      }
      var targets := TargetsOf(rows[..i], flags);
      assert (targets + [row])[..|targets|] == targets;
      provider.Deactivate(row.bridgeId, accepts(row.bridgeId));
      if accepts(row.bridgeId) { done := done + 1; } else { failed := failed + 1; }
    }
    assert rows[..|rows|] == rows;
  }

  /** `main`: None is the refusal. */
  method Audit(provider: Provider, local: seq<Local>, flags: Flags, accepts: string -> bool)
    returns (counts: Option<(nat, nat)>)
    modifies provider
    ensures counts.None? <==>
              flags.production && old(provider.accounts) != [] && local == [] && !flags.forceEmptyDb
    ensures counts.Some? && flags.deactivate ==>
              counts.value == Tally(Rows(local, old(provider.accounts)), flags, accepts)
    ensures counts.Some? && !flags.deactivate ==> counts.value == (0, 0)
    ensures provider.asked == old(provider.asked) + BridgeIds(Targets(old(provider.accounts), local, flags))
    ensures provider.accounts ==
              AfterTargets(old(provider.accounts), Targets(old(provider.accounts), local, flags), accepts)
  {
    if flags.production && |provider.accounts| > 0 && |local| == 0 {
      if !flags.forceEmptyDb { return None; }
    }
    var rows := Rows(local, provider.accounts);
    if !flags.deactivate { return Some((0, 0)); }
    var done, failed := DeactivateStale(provider, rows, flags, accepts);
    counts := Some((done, failed));
  }

  // ---------------------------------------------------------------- what is ever targeted

  predicate UniqueProviderIds(local: seq<Local>) {
    forall i, j :: 0 <= i < j < |local| ==> local[i].providerAccountId != local[j].providerAccountId
  }

  predicate CalledActive(local: seq<Local>, id: string) {
    exists i :: 0 <= i < |local| && local[i].providerAccountId == id && local[i].status == ACTIVE
  }

  predicate Listed(local: seq<Local>, id: string) {
    exists i :: 0 <= i < |local| && local[i].providerAccountId == id
  }

  lemma {:induction false} RecordIsLast(local: seq<Local>, id: string)
    ensures RecordFor(local, id).Some? <==> Listed(local, id)
    ensures RecordFor(local, id).Some? ==>
              exists i :: 0 <= i < |local| && RecordFor(local, id) == Some(local[i]) && local[i].providerAccountId == id
                          && forall j :: i < j < |local| ==> local[j].providerAccountId != id
  {
    if local != [] && local[|local| - 1].providerAccountId != id {
      var front := local[..|local| - 1];
      RecordIsLast(front, id);
      if Listed(local, id) {
        var i :| 0 <= i < |local| && local[i].providerAccountId == id;
        assert front[i].providerAccountId == id;
      }
      if RecordFor(front, id).Some? {
        var i :| 0 <= i < |front| && RecordFor(front, id) == Some(front[i]) && front[i].providerAccountId == id
                 && forall j :: i < j < |front| ==> front[j].providerAccountId != id;
        assert local[i] == front[i];
      }
    }
  }

  lemma {:induction false} TargetsAreRows(rows: seq<Row>, flags: Flags, row: Row)
    ensures row in TargetsOf(rows, flags) <==> row in rows && IsTarget(row, flags)
  {
    if rows != [] {
      var front, last := rows[..|rows| - 1], rows[|rows| - 1];
      TargetsAreRows(front, flags, row);
      assert row in rows <==> row in front || row == last;
    }
  }

  /** Requests are made in the order of the list. */
  lemma {:induction false} TargetsKeepOrder(a: seq<Row>, b: seq<Row>, flags: Flags)
    ensures TargetsOf(a + b, flags) == TargetsOf(a, flags) + TargetsOf(b, flags)
  {
    if b == [] {
      assert a + b == a;
    } else {
      assert (a + b)[..|a + b| - 1] == a + b[..|b| - 1];
      TargetsKeepOrder(a, b[..|b| - 1], flags);
    }
  }

  predicate TargetedAt(accounts: seq<Remote>, local: seq<Local>, flags: Flags, i: nat)
    requires i < |accounts|
  {
    Classified(local, accounts[i]) in Targets(accounts, local, flags)
  }

  lemma {:induction false} TargetedByStatus(accounts: seq<Remote>, local: seq<Local>, flags: Flags, i: nat)
    requires i < |accounts|
    ensures TargetedAt(accounts, local, flags, i) <==>
              && flags.deactivate && !Refused(accounts, local, flags)
              && IsLive(accounts[i]) && accounts[i].customerId != ""
              && StatusFor(local, accounts[i].id) != ACTIVE
              && (StatusFor(local, accounts[i].id) == UNKNOWN ==> flags.forceEmptyDb)
  {
    var rows := Rows(local, accounts);
    TargetsAreRows(rows, flags, Classified(local, accounts[i]));
    assert rows[i] == Classified(local, accounts[i]);
  }

  /** Record j is the last one for the id. */
  predicate LastFor(local: seq<Local>, id: string, j: nat)
    requires j < |local|
  {
    local[j].providerAccountId == id && forall k :: j < k < |local| ==> local[k].providerAccountId != id
  }

  lemma {:induction false} StatusIsTheLast(local: seq<Local>, id: string, j: nat)
    requires j < |local| && LastFor(local, id, j)
    ensures StatusFor(local, id) == local[j].status
  {
    RecordIsLast(local, id);
    assert Listed(local, id);
  }

  /** Live at the provider, in so many words. */
  predicate SaysActive(va: Remote) {
    InAnyCase(va.status, "activated") || InAnyCase(va.status, "active")
  }

  lemma {:induction false} LiveSaysActive(va: Remote)
    ensures IsLive(va) <==> SaysActive(va)
  {
    LowerMeansAnyCase(va.status, "activated");
    LowerMeansAnyCase(va.status, "active");
  }

  /**
   * Exactly what a run targets, in terms of the two lists and the flags: accounts live at the provider and
   * addressable, whose last local record is not active, and, without the force flag, exists under a status
   * that confirms it is closed; and nothing when a production run meets an empty local list without it.
   */
  lemma {:induction false} TargetedIff(accounts: seq<Remote>, local: seq<Local>, flags: Flags, i: nat)
    requires i < |accounts|
    ensures TargetedAt(accounts, local, flags, i) <==>
              && flags.deactivate && !(flags.production && local == [] && !flags.forceEmptyDb)
              && SaysActive(accounts[i]) && accounts[i].customerId != ""
              && (Listed(local, accounts[i].id) || flags.forceEmptyDb)
              && forall j :: 0 <= j < |local| && LastFor(local, accounts[i].id, j) ==>
                   local[j].status != "active" && (local[j].status == "UNKNOWN_TO_SIVAN" ==> flags.forceEmptyDb)
  {
    var id := accounts[i].id;
    TargetedByStatus(accounts, local, flags, i);
    LiveSaysActive(accounts[i]);
    RecordIsLast(local, id);
    if Listed(local, id) {
      var last :| 0 <= last < |local| && RecordFor(local, id) == Some(local[last]) && LastFor(local, id, last);
      forall j | 0 <= j < |local| && LastFor(local, id, j) ensures local[j].status == local[last].status {
        StatusIsTheLast(local, id, j);
      }
    }
  }

  /** Every request of a run is for some account of the list that is targeted. */
  lemma {:induction false} EveryTargetIsAnAccount(accounts: seq<Remote>, local: seq<Local>, flags: Flags, row: Row)
    requires row in Targets(accounts, local, flags)
    ensures exists i :: 0 <= i < |accounts| && row == Classified(local, accounts[i])
                        && TargetedAt(accounts, local, flags, i)
  {
    var rows := Rows(local, accounts);
    TargetsAreRows(rows, flags, row);
    var i :| 0 <= i < |rows| && rows[i] == row;
    assert TargetedAt(accounts, local, flags, i);
  }

  lemma {:induction false} OnlyRecordCounts(local: seq<Local>, id: string)
    requires UniqueProviderIds(local) && CalledActive(local, id)
    ensures StatusFor(local, id) == ACTIVE
  {
    var k :| 0 <= k < |local| && local[k].providerAccountId == id && local[k].status == ACTIVE;
    RecordIsLast(local, id);
    assert Listed(local, id) by { assert local[k].providerAccountId == id; }
    var i :| 0 <= i < |local| && RecordFor(local, id) == Some(local[i]) && local[i].providerAccountId == id
             && forall j :: i < j < |local| ==> local[j].providerAccountId != id;
    assert i == k;
  }

  /**
   * With provider ids unique in the local list, over all inputs and flags: a targeted account is live at
   * the provider, no local record calls it active, without the force flag some local record knows it,
   * and nothing is targeted when a production run meets an empty list without that flag.
   */
  lemma {:induction false} OnlyStaleAccountsAreTargeted(accounts: seq<Remote>, local: seq<Local>, flags: Flags,
                                                        row: Row)
    requires UniqueProviderIds(local)
    requires row in Targets(accounts, local, flags)
    ensures exists i :: 0 <= i < |accounts| && accounts[i].id == row.bridgeId && SaysActive(accounts[i])
    ensures !CalledActive(local, row.bridgeId)
    ensures !flags.forceEmptyDb ==> Listed(local, row.bridgeId)
    ensures flags.deactivate && !(flags.production && local == [] && !flags.forceEmptyDb)
  {
    EveryTargetIsAnAccount(accounts, local, flags, row);
    var i :| 0 <= i < |accounts| && row == Classified(local, accounts[i]) && TargetedAt(accounts, local, flags, i);
    TargetedByStatus(accounts, local, flags, i);
    LiveSaysActive(accounts[i]);
    if CalledActive(local, row.bridgeId) { OnlyRecordCounts(local, row.bridgeId); }
    RecordIsLast(local, row.bridgeId);
  }

  /**
   * Without uniqueness the guard is the last record alone: an account some record calls active is
   * targeted exactly when a later record for it stands under another status that lets it through.
   */
  lemma {:induction false} ActiveIsTargetedIffShadowed(accounts: seq<Remote>, local: seq<Local>, flags: Flags, i: nat)
    requires i < |accounts| && IsLive(accounts[i]) && accounts[i].customerId != "" && flags.deactivate
    requires CalledActive(local, accounts[i].id)
    requires forall record :: record in local ==> record.status != UNKNOWN
    ensures TargetedAt(accounts, local, flags, i) <==>
              exists j :: 0 <= j < |local| && Shadows(local, accounts[i].id, j)
  {
    var id := accounts[i].id;
    TargetedByStatus(accounts, local, flags, i);
    RecordIsLast(local, id);
    assert Listed(local, id) by {
      var k :| 0 <= k < |local| && local[k].providerAccountId == id && local[k].status == ACTIVE;
      assert local[k].providerAccountId == id;
    }
    var last :| 0 <= last < |local| && RecordFor(local, id) == Some(local[last]) && local[last].providerAccountId == id
                && forall j :: last < j < |local| ==> local[j].providerAccountId != id;
    assert local[last] in local;
    assert forall j :: 0 <= j < |local| && Shadows(local, id, j) ==> j == last;
    assert Shadows(local, id, last) <==> local[last].status != ACTIVE;
  }

  /** Record j is the last one for the id, and not active. */
  predicate Shadows(local: seq<Local>, id: string, j: nat)
    requires j < |local|
  {
    && local[j].providerAccountId == id && local[j].status != ACTIVE
    && forall k :: j < k < |local| ==> local[k].providerAccountId != id
  }

  /** It happens: an active account is shadowed by a later record for the same provider id, and targeted. */
  lemma {:induction false} DuplicateShadowsTheActive(va: Remote, first: string, second: string)
    requires IsLive(va) && va.customerId != ""
    ensures var local := [Local(first, va.id, ACTIVE), Local(second, va.id, "closed")];
            CalledActive(local, va.id) && TargetedAt([va], local, Flags(true, false, true), 0)
  {
    var local := [Local(first, va.id, ACTIVE), Local(second, va.id, "closed")];
    assert CalledActive(local, va.id) by { assert local[0].providerAccountId == va.id && local[0].status == ACTIVE; }
    assert Shadows(local, va.id, 1);
    ActiveIsTargetedIffShadowed([va], local, Flags(true, false, true), 0);
  }

  function AcceptedOf(targets: seq<Row>, accepts: string -> bool): seq<Row> {
    if targets == [] then [] else
      var front, row := AcceptedOf(targets[..|targets| - 1], accepts), targets[|targets| - 1];
      if accepts(row.bridgeId) then front + [row] else front
  }

  function Unaddressable(rows: seq<Row>, flags: Flags): nat {
    if rows == [] then 0 else
      Unaddressable(rows[..|rows| - 1], flags)
        + if Confirmed(rows[|rows| - 1], flags) && rows[|rows| - 1].customerId == "" then 1 else 0
  }

  /** The counters: the targets the provider accepted, and the other targets with the rows that cannot be addressed. */
  lemma {:induction false} TallyAddsUp(rows: seq<Row>, flags: Flags, accepts: string -> bool)
    ensures var (done, failed) := Tally(rows, flags, accepts);
            && done == |AcceptedOf(TargetsOf(rows, flags), accepts)|
            && done + failed == |TargetsOf(rows, flags)| + Unaddressable(rows, flags)
  {
    if rows != [] {
      var front, row := rows[..|rows| - 1], rows[|rows| - 1];
      TallyAddsUp(front, flags, accepts);
      var targets := TargetsOf(front, flags);
      assert (targets + [row])[..|targets|] == targets;
    }
  }

  lemma {:induction false} OtherAccountsAreUntouched(accounts: seq<Remote>, targets: seq<Row>,
                                                     accepts: string -> bool, i: nat)
    requires i < |accounts|
    ensures var after := AfterTargets(accounts, targets, accepts)[i];
            if exists k :: 0 <= k < |targets| && targets[k].bridgeId == accounts[i].id && accepts(accounts[i].id)
            then after == accounts[i].(status := "deactivated")
            else after == accounts[i]
  {
    if targets != [] {
      var front, last := targets[..|targets| - 1], targets[|targets| - 1];
      OtherAccountsAreUntouched(accounts, front, accepts, i);
      assert forall k :: 0 <= k < |front| ==> front[k] == targets[k];
    }
  }

  /** So a run, whatever its flags and whichever requests the provider accepts, leaves active accounts as they are. */
  lemma {:induction false} ActiveAccountsSurvive(accounts: seq<Remote>, local: seq<Local>, flags: Flags,
                                                accepts: string -> bool, i: nat)
    requires i < |accounts| && UniqueProviderIds(local) && CalledActive(local, accounts[i].id)
    ensures AfterTargets(accounts, Targets(accounts, local, flags), accepts)[i] == accounts[i]
  {
    var targets := Targets(accounts, local, flags);
    OtherAccountsAreUntouched(accounts, targets, accepts, i);
    forall k | 0 <= k < |targets| ensures targets[k].bridgeId != accounts[i].id {
      OnlyStaleAccountsAreTargeted(accounts, local, flags, targets[k]);
    }
  }

  // ---------------------------------------------------------------- pooled addresses

  /** The customers whose rows settle to an address. */
  function Owners(rows: seq<Row>, address: string): set<string> {
    set row | row in rows && row.address == address && row.customerId != "" :: row.customerId
  }

  predicate Occurs(rows: seq<Row>, address: string) {
    exists row :: row in rows && row.address == address
  }

  lemma {:induction false} OneOwnerMore(rows: seq<Row>, row: Row, address: string)
    ensures Occurs(rows + [row], address) <==> Occurs(rows, address) || row.address == address
    ensures Owners(rows + [row], address) ==
            Owners(rows, address) + if row.address == address && row.customerId != "" then {row.customerId} else {}
  {
    assert forall other :: other in rows + [row] <==> other in rows || other == row;
    if row.address == address { assert row in rows + [row]; }
  }

  /** The loop that fills `addressOwners`. */
  method IndexOwners(rows: seq<Row>) returns (owners: map<string, set<string>>)
    ensures forall address :: address in owners <==> address != "" && Occurs(rows, address)
    ensures forall address :: address in owners ==> owners[address] == Owners(rows, address)
  {
    owners := map[];
    for i := 0 to |rows|
      invariant forall address :: address in owners <==> address != "" && Occurs(rows[..i], address)
      invariant forall address :: address in owners ==> owners[address] == Owners(rows[..i], address)
    {
      var row := rows[i];
      assert rows[..i + 1] == rows[..i] + [row];
      forall address { OneOwnerMore(rows[..i], row, address); }
      assert !Occurs(rows[..i], row.address) ==> Owners(rows[..i], row.address) == {};
      if row.address == "" { continue; }
      var customers := if row.address in owners then owners[row.address] else {};
      if row.customerId != "" { customers := customers + {row.customerId}; }
      owners := owners[row.address := customers];
    }
    assert rows[..|rows|] == rows;
  }

  /** An address is reported as pooled. */
  predicate Pooled(rows: seq<Row>, address: string) {
    address != "" && |Owners(rows, address)| > 1
  }

  lemma {:induction false} MoreThanOne(s: set<string>)
    ensures |s| > 1 <==> exists a, b :: a in s && b in s && a != b
  {
    if |s| > 1 {
      var a :| a in s;
      assert |s - {a}| >= 1;
      var b :| b in s - {a};
      assert a in s && b in s && a != b;
    }
    if exists a, b :: a in s && b in s && a != b {
      var a, b :| a in s && b in s && a != b;
      assert |s - {a}| == |s| - 1 && b in s - {a};
    }
  }

  predicate TwoCustomers(a: Row, b: Row, address: string) {
    a.address == address == b.address && a.customerId != "" && b.customerId != "" && a.customerId != b.customerId
  }

  /** Pooled exactly when two rows share the address and name different customers. */
  lemma {:induction false} PooledIffTwoCustomers(rows: seq<Row>, address: string)
    requires address != ""
    ensures Pooled(rows, address) <==>
              exists i, j :: 0 <= i < |rows| && 0 <= j < |rows| && TwoCustomers(rows[i], rows[j], address)
  {
    var s := Owners(rows, address);
    MoreThanOne(s);
    if Pooled(rows, address) {
      var a, b :| a in s && b in s && a != b;
      var r :| r in rows && r.address == address && r.customerId == a && r.customerId != "";
      var q :| q in rows && q.address == address && q.customerId == b && q.customerId != "";
      var i :| 0 <= i < |rows| && rows[i] == r;
      var j :| 0 <= j < |rows| && rows[j] == q;
      assert TwoCustomers(rows[i], rows[j], address);
    }
    forall i, j | 0 <= i < |rows| && 0 <= j < |rows| && TwoCustomers(rows[i], rows[j], address)
      ensures rows[i].customerId in s && rows[j].customerId in s
    {
    }
  }

  predicate TwoOwners(a: Remote, b: Remote, address: string) {
    a.address == address == b.address && a.customerId != "" && b.customerId != "" && a.customerId != b.customerId
  }

  /** So a run reports an address exactly when two accounts of different customers settle to it. */
  lemma {:induction false} PooledIffTwoOwners(accounts: seq<Remote>, local: seq<Local>, address: string)
    requires address != ""
    ensures Pooled(Rows(local, accounts), address) <==>
              exists i, j :: 0 <= i < |accounts| && 0 <= j < |accounts| && TwoOwners(accounts[i], accounts[j], address)
  {
    var rows := Rows(local, accounts);
    PooledIffTwoCustomers(rows, address);
    forall i, j | 0 <= i < |rows| && 0 <= j < |rows|
      ensures TwoCustomers(rows[i], rows[j], address) <==> TwoOwners(accounts[i], accounts[j], address)
    {}
  }

  /** The order of the rows plays no part. */
  lemma {:induction false} PoolingIgnoresOrder(rows: seq<Row>, others: seq<Row>, address: string)
    requires multiset(rows) == multiset(others)
    ensures Owners(rows, address) == Owners(others, address)
  {
    forall row ensures row in rows <==> row in others {
      assert row in multiset(rows) <==> row in multiset(others);
    }
  }
}
