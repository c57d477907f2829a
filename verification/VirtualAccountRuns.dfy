/** A repair script run alone to its end. */
module VirtualAccountRuns {
  import opened Sequences
  import opened Wrappers
  import opened WalletStub
  import opened VirtualAccounts
  import opened VirtualAccountFleet

  // ---------------------------------------------------------------- one account

  /** Taking up an account ends with it in its own customer's Solana wallet, and touches no other. */
  ghost predicate Repaired(job: Job, r: Remote, va: Account, after: Remote, wallet: string)
    requires Current(r, va)
  {
    && after.accounts == r.accounts[va.id := Replaced(job, va, r.accounts[va.id], wallet)]
    && HasWallet(after.store.created, va.customer, wallet)
    && r.store.created <= after.store.created
  }

  lemma {:induction false} RepairOneWorks(number: Reader, echo: Echo, job: Job, r: Remote, va: Account)
    returns (wallet: string)
    requires Sound(r) && Current(r, va) && job.apply && va.customer != ""
    ensures var p := RepairOne(number, echo, job, r, va);
            !p.aborted && Sound(p.remote) && Repaired(job, r, va, p.remote, wallet)
  {
    FindSolanaFinds(r.store.created, va.customer);
    match FindSolana(ShowAll(WalletsOf(r.store.created, va.customer))) {
      case Some(found) =>
        wallet := found.id;
      case None =>
        CreateKeepsSound(r, va.customer);
        wallet := CreateFor(r, va.customer).1.wallet.id;
    }
  }

  // ---------------------------------------------------------------- a dry run

  /** Without --apply nothing is written, nothing reported and nothing aborted, whatever the remote and the listing. */
  lemma {:induction false} DryRunLeavesRemote(number: Reader, echo: Echo, job: Job, r: Remote, todo: seq<Account>)
    requires !job.apply
    ensures RepairAll(number, echo, job, r, todo) == Progress(r, [], false)
    decreases |todo|
  {
    if todo != [] {
      assert RepairOne(number, echo, job, r, todo[0]) == Progress(r, [], false);
      DryRunLeavesRemote(number, echo, job, r, todo[1..]);
    }
  }

  // ---------------------------------------------------------------- a whole run

  ghost predicate DistinctIds(todo: seq<Account>) {
    forall i, j :: 0 <= i < j < |todo| ==> todo[i].id != todo[j].id
  }

  /** What a completed run leaves of one account it was to take up. */
  ghost predicate Settled(job: Job, va: Account, after: Remote) {
    && va.id in after.accounts
    && if va.customer == "" then after.accounts[va.id] == va
       else exists wallet :: HasWallet(after.store.created, va.customer, wallet)
                             && after.accounts[va.id] == Replaced(job, va, va, wallet)
  }

  ghost predicate AllDone(job: Job, todo: seq<Account>, r: Remote, after: Remote) {
    && after.accounts.Keys == r.accounts.Keys
    && r.store.created <= after.store.created
    && (forall k :: 0 <= k < |todo| ==> Settled(job, todo[k], after))
    && (forall id :: id in r.accounts && (forall k :: 0 <= k < |todo| ==> todo[k].id != id) ==>
          after.accounts[id] == r.accounts[id])
  }

  lemma {:induction false} RepairAllWorks(number: Reader, echo: Echo, job: Job, r: Remote, todo: seq<Account>)
    requires Sound(r) && job.apply && DistinctIds(todo)
    requires forall k :: 0 <= k < |todo| ==> todo[k].id in r.accounts && r.accounts[todo[k].id] == todo[k]
    ensures var p := RepairAll(number, echo, job, r, todo);
            !p.aborted && Sound(p.remote) && AllDone(job, todo, r, p.remote)
    decreases |todo|
  {
    if todo != [] {
      var va, rest := todo[0], todo[1..];
      var one := RepairOne(number, echo, job, r, va).remote;
      if va.customer != "" {
        var wallet := RepairOneWorks(number, echo, job, r, va);
        assert one.accounts[va.id] == Replaced(job, va, va, wallet);
      }
      forall k | 0 <= k < |rest| ensures rest[k].id in one.accounts && one.accounts[rest[k].id] == rest[k] {
        assert rest[k] == todo[k + 1];
      }
      RepairAllWorks(number, echo, job, one, rest);
      DoneWithOneMore(job, todo, r, one, RepairAll(number, echo, job, one, rest).remote);
    }
  }

  lemma {:induction false} DoneWithOneMore(job: Job, todo: seq<Account>, r: Remote, one: Remote, after: Remote)
    requires todo != [] && DistinctIds(todo)
    requires Settled(job, todo[0], one) && r.store.created <= one.store.created
    requires one.accounts.Keys == r.accounts.Keys
    requires forall id :: id in r.accounts && id != todo[0].id ==> one.accounts[id] == r.accounts[id]
    requires AllDone(job, todo[1..], one, after)
    ensures AllDone(job, todo, r, after)
  {
    var va, rest := todo[0], todo[1..];
    forall k | 0 <= k < |rest| ensures rest[k].id != va.id { assert rest[k] == todo[k + 1]; }
    forall k | 0 <= k < |todo| ensures Settled(job, todo[k], after) {
      if k > 0 { assert rest[k - 1] == todo[k]; }
    }
    forall id | id in r.accounts && (forall k :: 0 <= k < |todo| ==> todo[k].id != id)
      ensures after.accounts[id] == r.accounts[id]
    {
      assert id != va.id;
      forall k | 0 <= k < |rest| ensures rest[k].id != id { assert rest[k] == todo[k + 1]; }
    }
  }

  ghost predicate Enumerates(order: seq<string>, accounts: map<string, Account>) {
    && (forall id :: id in order <==> id in accounts)
    && Distinct(order)
  }

  lemma {:induction false} CandidatesAreDistinct(number: Reader, job: Job, accounts: map<string, Account>,
                                                 order: seq<string>)
    requires forall id :: id in order ==> id in accounts
    requires forall id :: id in accounts ==> accounts[id].id == id
    requires Distinct(order)
    ensures DistinctIds(Candidates(number, job, accounts, order))
  {
    if order != [] {
      CandidatesAreDistinct(number, job, accounts, order[1..]);
      CandidatesAreAccounts(number, job, accounts, order[1..]);
      var rest := Candidates(number, job, accounts, order[1..]);
      forall k | 0 <= k < |rest| ensures rest[k].id != order[0] { assert rest[k] in rest; }
    }
  }

  /**
   * A completed --apply run, over every listing order: each candidate with a customer settles in
   * its own customer's Solana wallet, with the fee, currency and bank details the script promises;
   * every other account is byte for byte what it was.
   */
  lemma {:induction false} CompletedRunConverges(number: Reader, echo: Echo, job: Job, r: Remote, order: seq<string>)
    requires Sound(r) && job.apply && Enumerates(order, r.accounts)
    ensures var p := RepairAll(number, echo, job, r, Candidates(number, job, r.accounts, order));
            && !p.aborted && Sound(p.remote) && p.remote.accounts.Keys == r.accounts.Keys
            && forall id :: id in r.accounts ==>
                 if Wants(number, job, r.accounts[id]) then Settled(job, r.accounts[id], p.remote)
                 else p.remote.accounts[id] == r.accounts[id]
  {
    var todo := Candidates(number, job, r.accounts, order);
    CandidatesAreAccounts(number, job, r.accounts, order);
    CandidatesAreDistinct(number, job, r.accounts, order);
    forall k | 0 <= k < |todo| ensures todo[k].id in r.accounts && r.accounts[todo[k].id] == todo[k] {
      assert todo[k] in todo;
    }
    RepairAllWorks(number, echo, job, r, todo);
    var p := RepairAll(number, echo, job, r, todo);
    forall id | id in r.accounts
      ensures if Wants(number, job, r.accounts[id]) then Settled(job, r.accounts[id], p.remote)
              else p.remote.accounts[id] == r.accounts[id]
    {
      if Wants(number, job, r.accounts[id]) {
        assert r.accounts[id] in todo;
      } else {
        forall k | 0 <= k < |todo| ensures todo[k].id != id { assert todo[k] in todo; }
      }
    }
  }

  /** The reprovision script keeps the fee, and the currency when there was one; `usdc` otherwise. */
  lemma {:induction false} ReprovisionCarriesFeeOver(number: Reader, echo: Echo, only: string, r: Remote,
                                                     order: seq<string>, id: string)
    requires Sound(r) && Enumerates(order, r.accounts)
    requires id in r.accounts && Wants(number, Reprovision(true, only), r.accounts[id]) && r.accounts[id].customer != ""
    ensures var job := Reprovision(true, only);
            var p := RepairAll(number, echo, job, r, Candidates(number, job, r.accounts, order));
            var was := r.accounts[id];
            && id in p.remote.accounts
            && p.remote.accounts[id].settles.ToWallet?
            && HasWallet(p.remote.store.created, was.customer, p.remote.accounts[id].settles.id)
            && p.remote.accounts[id] == was.(rail := TARGET_CHAIN, settles := p.remote.accounts[id].settles,
                                             currency := if was.currency == "" then "usdc" else was.currency)
  {
    CompletedRunConverges(number, echo, Reprovision(true, only), r, order);
  }

  /** The fix writes the fee it is given, or 1.25, and changes nothing else but where the money goes. */
  lemma {:induction false} FixWritesTheFee(number: Reader, echo: Echo, feeFlag: string, r: Remote, order: seq<string>,
                                           id: string)
    requires Sound(r) && Enumerates(order, r.accounts)
    requires id in r.accounts && Wants(number, Fix(true, feeFlag), r.accounts[id]) && r.accounts[id].customer != ""
    ensures var job := Fix(true, feeFlag);
            var p := RepairAll(number, echo, job, r, Candidates(number, job, r.accounts, order));
            var was := r.accounts[id];
            && id in p.remote.accounts
            && p.remote.accounts[id].settles.ToWallet?
            && HasWallet(p.remote.store.created, was.customer, p.remote.accounts[id].settles.id)
            && p.remote.accounts[id] == was.(fee := if feeFlag == "" then "1.25" else feeFlag, rail := "solana",
                                             settles := p.remote.accounts[id].settles,
                                             currency := if was.currency == "" then "usdc" else was.currency)
  {
    CompletedRunConverges(number, echo, Fix(true, feeFlag), r, order);
  }

  function WithCustomer(todo: seq<Account>): seq<string> {
    if todo == [] then []
    else (if todo[0].customer == "" then [] else [todo[0].id]) + WithCustomer(todo[1..])
  }

  function AccountsOf(reports: seq<Report>): seq<string> {
    seq(|reports|, i requires 0 <= i < |reports| => reports[i].account)
  }

  lemma {:induction false} AccountsOfConcat(a: seq<Report>, b: seq<Report>)
    ensures AccountsOf(a + b) == AccountsOf(a) + AccountsOf(b)
  {}

  lemma {:induction false} OneReport(number: Reader, echo: Echo, job: Job, r: Remote, va: Account)
    requires job.apply && !RepairOne(number, echo, job, r, va).aborted
    ensures AccountsOf(RepairOne(number, echo, job, r, va).reports) ==
              if job.Fix? && va.customer != "" then [va.id] else []
  {}

  /** A completed fix reports on each candidate with a customer, once and in order; the reprovision script on none. */
  lemma {:induction false} ReportsFollowTodo(number: Reader, echo: Echo, job: Job, r: Remote, todo: seq<Account>)
    requires job.apply && !RepairAll(number, echo, job, r, todo).aborted
    ensures AccountsOf(RepairAll(number, echo, job, r, todo).reports) == if job.Fix? then WithCustomer(todo) else []
    decreases |todo|
  {
    if todo != [] {
      var one := RepairOne(number, echo, job, r, todo[0]);
      OneReport(number, echo, job, r, todo[0]);
      ReportsFollowTodo(number, echo, job, one.remote, todo[1..]);
      AccountsOfConcat(one.reports, RepairAll(number, echo, job, one.remote, todo[1..]).reports);
    }
  }

  /** What the reprovision script is for: after a completed run everyone it was asked to move is on Solana. */
  lemma {:induction false} ReprovisionMovesEveryone(number: Reader, echo: Echo, only: string, r: Remote,
                                                    order: seq<string>, id: string)
    requires Sound(r) && Enumerates(order, r.accounts) && id in r.accounts
    ensures var job := Reprovision(true, only);
            var after := RepairAll(number, echo, job, r, Candidates(number, job, r.accounts, order)).remote;
            var was := r.accounts[id];
            && id in after.accounts
            && (was.customer != "" && (only == "" || was.customer == only) ==> OnSolana(after.accounts[id].rail))
            && (OnSolana(was.rail) || (only != "" && was.customer != only) ==> after.accounts[id] == was)
  {
    CompletedRunConverges(number, echo, Reprovision(true, only), r, order);
  }

  /** What the fix is for: after a completed run with a positive fee no live account with a customer lacks one. */
  lemma {:induction false} FixLeavesNoFeeMissing(number: Reader, echo: Echo, feeFlag: string, r: Remote,
                                                 order: seq<string>, id: string)
    requires Sound(r) && Enumerates(order, r.accounts) && id in r.accounts
    requires number(FeeOf(Fix(true, feeFlag))).Some? && number(FeeOf(Fix(true, feeFlag))).value > 0
    ensures var job := Fix(true, feeFlag);
            var after := RepairAll(number, echo, job, r, Candidates(number, job, r.accounts, order)).remote;
            var was := r.accounts[id];
            && id in after.accounts
            && (Live(was) && was.customer != "" ==> !FeeMissing(number, after.accounts[id]))
            && (!Live(was) || !FeeMissing(number, was) ==> after.accounts[id] == was)
  {
    CompletedRunConverges(number, echo, Fix(true, feeFlag), r, order);
    assert FeeOf(Fix(true, feeFlag)) != "";
  }

  /** The fix was told to write a fee that its own filter calls missing. */
  predicate WritesNoFee(number: Reader, job: Job) {
    job.Fix? && match number(FeeOf(job)) { case None => false case Some(n) => n <= 0 }
  }

  /** An account a completed run has taken up is a candidate again exactly when that run wrote no positive fee. */
  lemma {:induction false} CandidateAgainIffNoFee(number: Reader, echo: Echo, job: Job, r: Remote, order: seq<string>,
                                                  id: string)
    requires Sound(r) && job.apply && Enumerates(order, r.accounts)
    requires id in r.accounts && Wants(number, job, r.accounts[id]) && r.accounts[id].customer != ""
    ensures var p := RepairAll(number, echo, job, r, Candidates(number, job, r.accounts, order));
            id in p.remote.accounts && (Wants(number, job, p.remote.accounts[id]) <==> WritesNoFee(number, job))
  {
    CompletedRunConverges(number, echo, job, r, order);
    assert Settled(job, r.accounts[id],
        RepairAll(number, echo, job, r, Candidates(number, job, r.accounts, order)).remote);
    assert job.Fix? ==> FeeOf(job) != "";
  }

  /** It happens: run with `--fee=0`, the fix writes the fee into the one account there is and lists it again. */
  lemma {:induction false} ZeroFeeRepairsNothing(number: Reader, echo: Echo, va: Account)
    requires number("0") == Some(0)
    requires va.customer != "" && Live(va) && va.fee == ""
    ensures var job, r := Fix(true, "0"), Remote(Store([], map[]), map[va.id := va]);
            var p := RepairAll(number, echo, job, r, Candidates(number, job, r.accounts, [va.id]));
            !p.aborted && va.id in p.remote.accounts && p.remote.accounts[va.id].fee == "0"
            && Candidates(number, job, p.remote.accounts, [va.id]) == [p.remote.accounts[va.id]]
  {
    var job, r := Fix(true, "0"), Remote(Store([], map[]), map[va.id := va]);
    CompletedRunConverges(number, echo, job, r, [va.id]);
    CandidateAgainIffNoFee(number, echo, job, r, [va.id], va.id);
    assert [va.id][1..] == [];
  }

  /** So a second run finds nothing left to do, except accounts without a customer. */
  lemma {:induction false} SecondRunFindsNothing(number: Reader, echo: Echo, job: Job, r: Remote, order: seq<string>,
                                                 order2: seq<string>)
    requires Sound(r) && job.apply && Enumerates(order, r.accounts)
    requires !WritesNoFee(number, job)
    requires forall id :: id in order2 <==> id in r.accounts
    ensures var p := RepairAll(number, echo, job, r, Candidates(number, job, r.accounts, order));
            && (forall id :: id in order2 ==> id in p.remote.accounts)
            && forall va :: va in Candidates(number, job, p.remote.accounts, order2) ==> va.customer == ""
  {
    CompletedRunConverges(number, echo, job, r, order);
    var p := RepairAll(number, echo, job, r, Candidates(number, job, r.accounts, order));
    CandidatesAreAccounts(number, job, p.remote.accounts, order2);
    forall va | va in Candidates(number, job, p.remote.accounts, order2) ensures va.customer == "" {
      var was := r.accounts[va.id];
      if Wants(number, job, was) && was.customer != "" {
        CandidateAgainIffNoFee(number, echo, job, r, order, va.id);
      }
      assert Wants(number, job, was) ==> Settled(job, was, p.remote);
    }
  }
}
