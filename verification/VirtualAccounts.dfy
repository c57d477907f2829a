/**
 * The two virtual account repair scripts against the remote store: find or create the customer's
 * Solana wallet, then repoint the account at it with one replacing PUT.
 */
module VirtualAccounts {
  import opened Sequences
  import opened Wrappers
  import opened Text
  import opened WalletStub

  /** Where deposits into an account really go. */
  datatype Settlement = ToWallet(id: string) | ToAddress(address: string)

  /** A virtual account at Bridge. An absent optional field is the empty string. */
  datatype Account = Account(id: string, customer: string, status: string, bank: string,
                             fee: string, currency: string, rail: string, settles: Settlement)

  datatype Remote = Remote(store: Store, accounts: map<string, Account>)

  /** `Number(text)`, scaled to an integer; None is NaN. */
  type Reader = string -> Option<int>

  /** The two scripts and their flags. */
  datatype Job =
    | Reprovision(apply: bool, only: string)
    | Fix(apply: bool, feeFlag: string)

  function FeeOf(job: Job): string
    requires job.Fix?
  {
    if job.feeFlag == "" then "1.25" else job.feeFlag
  }

  predicate Live(va: Account) {
    Lower(va.status) == "activated" || Lower(va.status) == "active"
  }

  predicate FeeMissing(number: Reader, va: Account) {
    va.fee == "" || match number(va.fee) { case None => false case Some(n) => n <= 0 }
  }

  /** The candidates of a script. */
  predicate Wants(number: Reader, job: Job, va: Account) {
    match job
    case Reprovision(_, only) => (only == "" || va.customer == only) && Lower(va.rail) != TARGET_CHAIN
    case Fix(_, _) => Live(va) && FeeMissing(number, va)
  }

  function Candidates(number: Reader, job: Job, accounts: map<string, Account>, order: seq<string>): seq<Account>
    requires forall id :: id in order ==> id in accounts
  {
    if order == [] then []
    else
      var rest := Candidates(number, job, accounts, order[1..]);
      if Wants(number, job, accounts[order[0]]) then [accounts[order[0]]] + rest else rest
  }

  /** The candidates come in the order of the listing. */
  lemma {:induction false} CandidatesKeepOrder(number: Reader, job: Job, accounts: map<string, Account>,
                                               a: seq<string>, b: seq<string>)
    requires forall id :: id in a || id in b ==> id in accounts
    ensures Candidates(number, job, accounts, a + b) ==
              Candidates(number, job, accounts, a) + Candidates(number, job, accounts, b)
  {
    if a == [] {
      assert a + b == b;
    } else {
      assert (a + b)[0] == a[0] && (a + b)[1..] == a[1..] + b;
      CandidatesKeepOrder(number, job, accounts, a[1..], b);
    }
  }

  predicate OnSolana(chain: string) {
    Lower(chain) == TARGET_CHAIN
  }

  /** What the letter-case tests mean: these words, with any letters as capitals. */
  lemma {:induction false} WordsInAnyCase(va: Account, chain: string)
    ensures Live(va) <==> InAnyCase(va.status, "activated") || InAnyCase(va.status, "active")
    ensures OnSolana(chain) <==> InAnyCase(chain, "solana")
  {
    LowerMeansAnyCase(va.status, "activated");
    LowerMeansAnyCase(va.status, "active");
    LowerMeansAnyCase(chain, "solana");
  }

  /** Which accounts the two scripts take up. */
  lemma {:induction false} WantsIff(number: Reader, va: Account, apply: bool, only: string, fee: string)
    ensures Wants(number, Reprovision(apply, only), va) <==>
              !InAnyCase(va.rail, "solana") && (only != "" ==> va.customer == only)
    ensures Wants(number, Fix(apply, fee), va) <==>
              (InAnyCase(va.status, "activated") || InAnyCase(va.status, "active"))
              && (va.fee != "" ==> number(va.fee).Some? && number(va.fee).value <= 0)
  {
    WordsInAnyCase(va, va.rail);
  }

  /** The first wallet listed that is on the target chain. */
  function FindSolana(wallets: seq<View>): Option<View> {
    if wallets == [] then None
    else if OnSolana(wallets[0].chain) then Some(wallets[0])
    else FindSolana(wallets[1..])
  }

  /** What the PUT of a script leaves of an account: everything it sends is replaced. */
  function Replaced(job: Job, va: Account, current: Account, wallet: string): Account {
    current.(currency := if va.currency == "" then "usdc" else va.currency,
             fee := if job.Fix? then FeeOf(job) else va.fee,
             rail := TARGET_CHAIN,
             settles := ToWallet(wallet))
  }

  /** PUT /customers/{customer}/virtual_accounts/{id}; None when there is no such account. */
  function PutAccount(r: Remote, job: Job, va: Account, wallet: string): Option<Remote> {
    if va.id in r.accounts && r.accounts[va.id].customer == va.customer then
      Some(r.(accounts := r.accounts[va.id := Replaced(job, va, r.accounts[va.id], wallet)]))
    else None
  }

  /**
   * The PUT: refused unless the account is there for the same customer; otherwise that account keeps its
   * identity, status and bank details, takes fee and currency from the listing or the script, and settles
   * on Solana into the wallet named; no other account and no wallet changes.
   */
  lemma {:induction false} PutIff(r: Remote, job: Job, va: Account, wallet: string)
    ensures PutAccount(r, job, va, wallet).Some? <==> va.id in r.accounts && r.accounts[va.id].customer == va.customer
    ensures PutAccount(r, job, va, wallet).Some? ==>
              var was, t := r.accounts[va.id], PutAccount(r, job, va, wallet).value;
              && t.store == r.store && t.accounts.Keys == r.accounts.Keys
              && (forall id :: id in r.accounts && id != va.id ==> t.accounts[id] == r.accounts[id])
              && t.accounts[va.id] ==
                   Account(was.id, was.customer, was.status, was.bank,
                           match job {
                             case Reprovision(_, _) => va.fee
                             case Fix(_, flag) => if flag != "" then flag else "1.25"
                           },
                           if va.currency != "" then va.currency else "usdc", "solana", ToWallet(wallet))
  {}

  /** The remote has this account, for the same customer. */
  predicate Current(r: Remote, va: Account) {
    va.id in r.accounts && r.accounts[va.id].customer == va.customer
  }

  // ---------------------------------------------------------------- one script, run alone

  /** Bridge returns an id or an address, not both. */
  datatype Echo = IdBack | AddressBack

  datatype Shown = Shown(walletId: Option<string>, address: Option<string>)

  function ReadBack(echo: Echo, store: Store, settles: Settlement): Shown {
    match settles
    case ToAddress(a) => Shown(None, Some(a))
    case ToWallet(id) =>
      match echo
      case IdBack => Shown(Some(id), None)
      case AddressBack =>
        match Lookup(store.created, id)
        case None => Shown(None, None)
        case Some(w) => Shown(None, Some(w.address))
  }

  /** `okWallet`. */
  predicate OkWallet(shown: Shown, wallet: View) {
    shown.walletId == Some(wallet.id) || (wallet.address != "" && shown.address == Some(wallet.address))
  }

  datatype Report = Report(account: string, okFee: bool, okWallet: bool, okRail: bool, sameBank: bool)

  function Check(number: Reader, echo: Echo, job: Job, r: Remote, va: Account, wallet: View): Report
    requires job.Fix? && va.id in r.accounts
  {
    var updated := r.accounts[va.id];
    Report(va.id,
           number(updated.fee).Some? && number(updated.fee) == number(FeeOf(job)),
           OkWallet(ReadBack(echo, r.store, updated.settles), wallet),
           Lower(updated.rail) == TARGET_CHAIN,
           updated.bank == va.bank)
  }

  /** What a report tells of the account as it then is. */
  lemma {:induction false} ReportTells(number: Reader, echo: Echo, job: Job, r: Remote, va: Account, wallet: View)
    requires job.Fix? && va.id in r.accounts
    ensures var report, now := Check(number, echo, job, r, va, wallet), r.accounts[va.id];
            && report.account == va.id
            && (report.okFee <==> number(now.fee).Some? && number(now.fee) == number(FeeOf(job)))
            && (report.okRail <==> InAnyCase(now.rail, "solana"))
            && (report.sameBank <==> now.bank == va.bank)
  {
    LowerMeansAnyCase(r.accounts[va.id].rail, "solana");
  }

  datatype Progress = Progress(remote: Remote, reports: seq<Report>, aborted: bool)

  function Repoint(number: Reader, echo: Echo, job: Job, r: Remote, va: Account, wallet: View): Progress {
    match PutAccount(r, job, va, wallet.id)
    case None => Progress(r, [], true)
    case Some(next) => Progress(next, if job.Fix? then [Check(number, echo, job, next, va, wallet)] else [], false)
  }

  function RepairOne(number: Reader, echo: Echo, job: Job, r: Remote, va: Account): Progress {
    if va.customer == "" || !job.apply then Progress(r, [], false)
    else
      match FindSolana(ShowAll(WalletsOf(r.store.created, va.customer)))
      case Some(wallet) => Repoint(number, echo, job, r, va, wallet)
      case None =>
        var (store, response) := PostWallet(r.store, va.customer, KeyFor(va.customer, TARGET_CHAIN), TARGET_CHAIN);
        if response.Created? then Repoint(number, echo, job, r.(store := store), va, response.wallet)
        else Progress(r.(store := store), [], true)
  }

  function RepairAll(number: Reader, echo: Echo, job: Job, r: Remote, todo: seq<Account>): Progress
    decreases |todo|
  {
    if todo == [] then Progress(r, [], false)
    else
      var one := RepairOne(number, echo, job, r, todo[0]);
      if one.aborted then one
      else
        var rest := RepairAll(number, echo, job, one.remote, todo[1..]);
        rest.(reports := one.reports + rest.reports)
  }

  /** A list of accounts is taken up one account at a time. */
  lemma {:induction false} RepairAllFrom(number: Reader, echo: Echo, job: Job, r: Remote, todo: seq<Account>, i: nat)
    requires i < |todo|
    ensures var one := RepairOne(number, echo, job, r, todo[i]);
            var rest := RepairAll(number, echo, job, one.remote, todo[i + 1..]);
            RepairAll(number, echo, job, r, todo[i..]) ==
              if one.aborted then one else rest.(reports := one.reports + rest.reports)
  {
    assert todo[i..][0] == todo[i] && todo[i..][1..] == todo[i + 1..];
  }

  /** The remote store, with the requests the scripts make. */
  class Bridge {
    var store: Store
    var accounts: map<string, Account>

    function Contents(): Remote
      reads this
    {
      Remote(store, accounts)
    }

    constructor (r: Remote)
      ensures Contents() == r
    {
      store, accounts := r.store, r.accounts;
    }

    method ListWallets(customer: string) returns (wallets: seq<View>)
      ensures wallets == ShowAll(WalletsOf(store.created, customer))
    {
      wallets := ShowAll(WalletsOf(store.created, customer));
    }

    method CreateWallet(customer: string, key: string, chain: string) returns (wallet: Option<View>)
      modifies this
      ensures accounts == old(accounts) && store == PostWallet(old(store), customer, key, chain).0
      ensures var response := PostWallet(old(store), customer, key, chain).1;
              wallet == if response.Created? then Some(response.wallet) else None
    {
      var (next, response) := PostWallet(store, customer, key, chain);
      store := next;
      wallet := if response.Created? then Some(response.wallet) else None;
    }

    method Put(job: Job, va: Account, wallet: string) returns (ok: bool)
      modifies this
      ensures ok == PutAccount(old(Contents()), job, va, wallet).Some?
      ensures Contents() == if ok then PutAccount(old(Contents()), job, va, wallet).value else old(Contents())
    {
      ok := va.id in accounts && accounts[va.id].customer == va.customer;
      if ok {
        accounts := accounts[va.id := Replaced(job, va, accounts[va.id], wallet)];
      }
    }

    /** One candidate: its wallet first, and only then the PUT that points at it. */
    method RepairAccount(number: Reader, echo: Echo, job: Job, va: Account)
      returns (reports: seq<Report>, aborted: bool)
      modifies this
      ensures Progress(Contents(), reports, aborted) == RepairOne(number, echo, job, old(Contents()), va)
    {
      reports, aborted := [], false;
      if va.customer == "" || !job.apply {
        return;
      }
      var wallets := ListWallets(va.customer);
      var solana := FindSolana(wallets);
      if solana == None {
        solana := CreateWallet(va.customer, KeyFor(va.customer, TARGET_CHAIN), TARGET_CHAIN);
        if solana == None {
          aborted := true;
          return;
        }
      }
      var ok := Put(job, va, solana.value.id);
      if !ok {
        aborted := true;
      } else if job.Fix? {
        reports := [Check(number, echo, job, Contents(), va, solana.value)];
      }
    }

    /** `main` of either script: the candidates of one listing, each in turn. */
    method Repair(number: Reader, echo: Echo, job: Job, order: seq<string>)
      returns (reports: seq<Report>, aborted: bool)
      requires forall id :: id in order ==> id in accounts
      modifies this
      ensures var todo := Candidates(number, job, old(accounts), order);
              Progress(Contents(), reports, aborted) == RepairAll(number, echo, job, old(Contents()), todo)
    {
      var todo := Candidates(number, job, accounts, order);
      ghost var whole := RepairAll(number, echo, job, Contents(), todo);
      reports, aborted := [], false;
      for i := 0 to |todo|
        invariant !aborted
        invariant var rest := RepairAll(number, echo, job, Contents(), todo[i..]);
                  whole == rest.(reports := reports + rest.reports)
      {
        RepairAllFrom(number, echo, job, Contents(), todo, i);
        ghost var one := RepairOne(number, echo, job, Contents(), todo[i]).remote;
        ghost var rest := RepairAll(number, echo, job, one, todo[i + 1..]);
        var more, failed := RepairAccount(number, echo, job, todo[i]);
        Associate(reports, more, rest.reports);
        reports := reports + more;
        if failed {
          aborted := true;
          return;
        }
      }
    }
  }
}
