/**
 * Any number of repair scripts against one remote, interleaved request by request, each working
 * from its own listing and free to abort between any two requests.
 */
module VirtualAccountFleet {
  import opened Wrappers
  import opened Text
  import opened WalletStub
  import opened VirtualAccounts

  datatype Phase =
    | Idle                    // accounts not listed yet
    | Choosing                // about to take up todo[0]
    | Missing                 // its customer had no Solana wallet when asked
    | Holding(wallet: View)   // the wallet to point it at is known
    | Ended                   // finished, threw, or died

  datatype Script = Script(job: Job, todo: seq<Account>, phase: Phase)

  datatype Fleet = Fleet(remote: Remote, scripts: seq<Script>)

  datatype Action =
    | Start(job: Job)
    | ReadAccounts(i: nat, order: seq<string>)
    | SkipOne(i: nat)
    | Look(i: nat)
    | Create(i: nat)
    | Preview(i: nat)
    | Update(i: nat)
    | End(i: nat)

  function CreateFor(r: Remote, customer: string): (Store, Response) {
    PostWallet(r.store, customer, KeyFor(customer, TARGET_CHAIN), TARGET_CHAIN)
  }

  ghost predicate Enabled(s: Fleet, a: Action) {
    match a
    case Start(_) => true
    case ReadAccounts(i, order) =>
      i < |s.scripts| && s.scripts[i].phase.Idle? && forall id :: id in order <==> id in s.remote.accounts
    case SkipOne(i) =>
      i < |s.scripts| && s.scripts[i].phase.Choosing? && s.scripts[i].todo != [] && s.scripts[i].todo[0].customer == ""
    case Look(i) =>
      i < |s.scripts| && s.scripts[i].phase.Choosing? && s.scripts[i].todo != [] && s.scripts[i].todo[0].customer != ""
    case Create(i) =>
      i < |s.scripts| && s.scripts[i].phase.Missing? && s.scripts[i].todo != [] && s.scripts[i].job.apply
        && CreateFor(s.remote, s.scripts[i].todo[0].customer).1.Created?
    case Preview(i) =>
      i < |s.scripts| && (s.scripts[i].phase.Missing? || s.scripts[i].phase.Holding?)
        && s.scripts[i].todo != [] && !s.scripts[i].job.apply
    case Update(i) =>
      i < |s.scripts| && s.scripts[i].phase.Holding? && s.scripts[i].todo != [] && s.scripts[i].job.apply
        && PutAccount(s.remote, s.scripts[i].job, s.scripts[i].todo[0], s.scripts[i].phase.wallet.id).Some?
    case End(i) => i < |s.scripts| && !s.scripts[i].phase.Ended?
  }

  function Looked(r: Remote, customer: string): Phase {
    match FindSolana(ShowAll(WalletsOf(r.store.created, customer)))
    case None => Missing
    case Some(wallet) => Holding(wallet)
  }

  ghost function Step(number: Reader, s: Fleet, a: Action): Fleet
    requires Enabled(s, a)
  {
    match a
    case Start(job) => s.(scripts := s.scripts + [Script(job, [], Idle)])
    case ReadAccounts(i, order) =>
      var c := s.scripts[i];
      s.(scripts := s.scripts[i := c.(todo := Candidates(number, c.job, s.remote.accounts, order), phase := Choosing)])
    case SkipOne(i) => s.(scripts := s.scripts[i := s.scripts[i].(todo := s.scripts[i].todo[1..])])
    case Look(i) =>
      s.(scripts := s.scripts[i := s.scripts[i].(phase := Looked(s.remote, s.scripts[i].todo[0].customer))])
    case Create(i) =>
      var (store, response) := CreateFor(s.remote, s.scripts[i].todo[0].customer);
      Fleet(s.remote.(store := store), s.scripts[i := s.scripts[i].(phase := Holding(response.wallet))])
    case Preview(i) =>
      s.(scripts := s.scripts[i := s.scripts[i].(todo := s.scripts[i].todo[1..], phase := Choosing)])
    case Update(i) =>
      var c := s.scripts[i];
      Fleet(PutAccount(s.remote, c.job, c.todo[0], c.phase.wallet.id).value,
            s.scripts[i := c.(todo := c.todo[1..], phase := Choosing)])
    case End(i) => s.(scripts := s.scripts[i := s.scripts[i].(phase := Ended)])
  }

  ghost predicate Possible(number: Reader, s: Fleet, run: seq<Action>)
    decreases |run|
  {
    run == [] || (Enabled(s, run[0]) && Possible(number, Step(number, s, run[0]), run[1..]))
  }

  ghost function After(number: Reader, s: Fleet, run: seq<Action>): Fleet
    requires Possible(number, s, run)
    decreases |run|
  {
    if run == [] then s else After(number, Step(number, s, run[0]), run[1..])
  }

  // ---------------------------------------------------------------- wallets of a customer on the target chain

  ghost predicate HasWallet(created: seq<Wallet>, customer: string, id: string) {
    exists i :: 0 <= i < |created| && created[i].id == id && created[i].customer == customer
                && OnSolana(created[i].chain)
  }

  ghost function SolanaOf(created: seq<Wallet>, customer: string): seq<Wallet> {
    if created == [] then []
    else
      var rest := SolanaOf(created[1..], customer);
      if created[0].customer == customer && OnSolana(created[0].chain) then [created[0]] + rest else rest
  }

  lemma {:induction false} SolanaOfAppend(created: seq<Wallet>, w: Wallet, customer: string)
    ensures |SolanaOf(created + [w], customer)| ==
            |SolanaOf(created, customer)| + if w.customer == customer && OnSolana(w.chain) then 1 else 0
  {
    if created != [] {
      assert (created + [w])[1..] == created[1..] + [w];
      SolanaOfAppend(created[1..], w, customer);
    }
  }

  lemma {:induction false} HasWalletMeansSome(created: seq<Wallet>, customer: string, id: string)
    requires HasWallet(created, customer, id)
    ensures SolanaOf(created, customer) != []
  {
    var i :| 0 <= i < |created| && created[i].id == id && created[i].customer == customer && OnSolana(created[i].chain);
    if i > 0 {
      assert created[1..][i - 1] == created[i];
      HasWalletMeansSome(created[1..], customer, id);
    }
  }

  lemma {:induction false} HasWalletSurvives(created: seq<Wallet>, more: seq<Wallet>)
    ensures forall c, id :: HasWallet(created, c, id) ==> HasWallet(created + more, c, id)
  {
    forall c, id | HasWallet(created, c, id) ensures HasWallet(created + more, c, id) {
      var i :| 0 <= i < |created| && created[i].id == id && created[i].customer == c && OnSolana(created[i].chain);
      assert (created + more)[i] == created[i];
    }
  }

  /** The wallet found is the first of the listing on that chain. */
  lemma {:induction false} FindSolanaIsFirst(wallets: seq<View>) returns (i: nat)
    ensures FindSolana(wallets) == None ==> forall k :: 0 <= k < |wallets| ==> !InAnyCase(wallets[k].chain, "solana")
    ensures FindSolana(wallets).Some? ==>
              && i < |wallets| && FindSolana(wallets) == Some(wallets[i]) && InAnyCase(wallets[i].chain, "solana")
              && forall k :: 0 <= k < i ==> !InAnyCase(wallets[k].chain, "solana")
  {
    i := 0;
    if wallets != [] {
      LowerMeansAnyCase(wallets[0].chain, "solana");
      if !OnSolana(wallets[0].chain) {
        i := FindSolanaIsFirst(wallets[1..]);
        assert forall k :: 1 <= k < |wallets| ==> wallets[1..][k - 1] == wallets[k];
        i := i + 1;
      }
    }
  }

  /** Looking through a customer's listing finds one of its own Solana wallets, if it has any. */
  lemma {:induction false} FindSolanaFinds(created: seq<Wallet>, customer: string)
    ensures var found := FindSolana(ShowAll(WalletsOf(created, customer)));
            && (found == None <==> SolanaOf(created, customer) == [])
            && (found.Some? ==> HasWallet(created, customer, found.value.id))
  {
    if created != [] {
      var rest := created[1..];
      FindSolanaFinds(rest, customer);
      forall id | HasWallet(rest, customer, id) ensures HasWallet(created, customer, id) {
      }
      if created[0].customer == customer {
        var all, others := ShowAll(WalletsOf(created, customer)), ShowAll(WalletsOf(rest, customer));
        assert all[1..] == others && all[0] == Show(created[0]);
      }
    }
  }

  // ---------------------------------------------------------------- the invariant

  /** Where a customer's deterministic key was used, it was used for a Solana wallet of that customer. */
  ghost predicate KeysSound(s: Store) {
    forall c :: KeyFor(c, TARGET_CHAIN) in s.keys ==> HasWallet(s.created, c, s.keys[KeyFor(c, TARGET_CHAIN)])
  }

  ghost predicate Sound(r: Remote) {
    && Valid(r.store) && KeysSound(r.store)
    && forall id :: id in r.accounts ==> r.accounts[id].id == id
  }

  /** An account is as it was, or settles on Solana into an existing wallet of its own customer. */
  ghost predicate Intact(r0: Remote, r: Remote) {
    forall id :: id in r.accounts ==>
      (&& id in r0.accounts
       && (|| r.accounts[id] == r0.accounts[id]
           || (&& r.accounts[id].settles.ToWallet? && r.accounts[id].rail == TARGET_CHAIN
               && HasWallet(r.store.created, r.accounts[id].customer, r.accounts[id].settles.id))))
  }

  /** Identity, owner, status and bank details of every account are as they were. */
  ghost predicate SameIdentity(r0: Remote, r: Remote) {
    && r.accounts.Keys == r0.accounts.Keys
    && forall id :: id in r0.accounts ==>
         var a, b := r.accounts[id], r0.accounts[id];
         a.id == b.id && a.customer == b.customer && a.status == b.status && a.bank == b.bank
  }

  /** Solana wallets of a customer: as many as at the start, and if none then at most the keyed one. */
  ghost predicate Counted(s0: Store, s: Store, c: string) {
    var n0, n := |SolanaOf(s0.created, c)|, |SolanaOf(s.created, c)|;
    if n0 > 0 then n == n0 else n == if KeyFor(c, TARGET_CHAIN) in s.keys then 1 else 0
  }

  ghost predicate ScriptInv(r0: Remote, r: Remote, c: Script) {
    && (forall k :: 0 <= k < |c.todo| ==>
          c.todo[k].id in r.accounts && c.todo[k].customer == r.accounts[c.todo[k].id].customer)
    && (c.phase.Missing? || c.phase.Holding? ==> c.todo != [])
    && (c.phase.Missing? ==> SolanaOf(r0.store.created, c.todo[0].customer) == [])
    && (c.phase.Holding? ==> HasWallet(r.store.created, c.todo[0].customer, c.phase.wallet.id))
  }

  ghost predicate RemoteInv(r0: Remote, r: Remote) {
    && Sound(r) && r0.store.created <= r.store.created
    && SameIdentity(r0, r) && Intact(r0, r)
    && forall c :: Counted(r0.store, r.store, c)
  }

  ghost predicate Inv(r0: Remote, s: Fleet) {
    && RemoteInv(r0, s.remote)
    && forall i :: 0 <= i < |s.scripts| ==> ScriptInv(r0, s.remote, s.scripts[i])
  }

  lemma {:induction false} InvInitially(r: Remote)
    requires Sound(r)
    ensures Inv(r, Fleet(r, []))
  {
    forall c ensures Counted(r.store, r.store, c) {
      if KeyFor(c, TARGET_CHAIN) in r.store.keys {
        HasWalletMeansSome(r.store.created, c, r.store.keys[KeyFor(c, TARGET_CHAIN)]);
      }
    }
  }

  lemma {:induction false} TargetIsOnSolana()
    ensures OnSolana(TARGET_CHAIN) && '-' !in TARGET_CHAIN
  {}

  /** A first creation appends one Solana wallet of the customer and binds the customer's key to it. */
  lemma {:induction false} FirstCreate(r: Remote, customer: string)
    requires Sound(r) && !IsReplay(r.store, KeyFor(customer, TARGET_CHAIN))
    ensures var w, key := NewWallet(r.store, customer, TARGET_CHAIN), KeyFor(customer, TARGET_CHAIN);
            && CreateFor(r, customer) == (Store(r.store.created + [w], r.store.keys[key := w.id]), Created(Show(w)))
            && w.customer == customer && OnSolana(w.chain) && Valid(CreateFor(r, customer).0)
  {
    assert KeyFor(customer, TARGET_CHAIN) != "";
    FirstPost(r.store, customer, KeyFor(customer, TARGET_CHAIN), TARGET_CHAIN);
    TargetIsOnSolana();
  }

  /** And any other changes nothing, and answers with a Solana wallet of the customer. */
  lemma {:induction false} RepeatedCreate(r: Remote, customer: string)
    requires Sound(r) && IsReplay(r.store, KeyFor(customer, TARGET_CHAIN))
    ensures var (store, response) := CreateFor(r, customer);
            store == r.store && response.Created? && HasWallet(store.created, customer, response.wallet.id)
  {
    var key := KeyFor(customer, TARGET_CHAIN);
    ReplayedPost(r.store, customer, key, TARGET_CHAIN);
    LookupFinds(r.store.created, r.store.keys[key]);
  }

  lemma {:induction false} OneMoreKey(s: Store, customer: string, w: Wallet)
    requires KeysSound(s) && w.customer == customer && OnSolana(w.chain)
    ensures KeysSound(Store(s.created + [w], s.keys[KeyFor(customer, TARGET_CHAIN) := w.id]))
    ensures HasWallet(s.created + [w], customer, w.id)
  {
    HasWalletSurvives(s.created, [w]);
    assert (s.created + [w])[|s.created|] == w;
    var store := Store(s.created + [w], s.keys[KeyFor(customer, TARGET_CHAIN) := w.id]);
    forall c | KeyFor(c, TARGET_CHAIN) in store.keys
      ensures HasWallet(store.created, c, store.keys[KeyFor(c, TARGET_CHAIN)])
    {
      SameKeySameCustomer(c, customer);
    }
  }

  lemma {:induction false} SameKeySameCustomer(c: string, customer: string)
    ensures KeyFor(c, TARGET_CHAIN) == KeyFor(customer, TARGET_CHAIN) <==> c == customer
  {
    TargetIsOnSolana();
    if KeyFor(c, TARGET_CHAIN) == KeyFor(customer, TARGET_CHAIN) {
      KeyForIsInjective(c, TARGET_CHAIN, customer, TARGET_CHAIN);
    }
  }

  /** What creating a wallet for a customer leaves of the store. */
  lemma {:induction false} CreateKeepsSound(r: Remote, customer: string)
    requires Sound(r)
    ensures var (store, response) := CreateFor(r, customer);
            && Sound(r.(store := store)) && response.Created?
            && r.store.created <= store.created
            && HasWallet(store.created, customer, response.wallet.id)
  {
    if IsReplay(r.store, KeyFor(customer, TARGET_CHAIN)) {
      RepeatedCreate(r, customer);
    } else {
      FirstCreate(r, customer);
      OneMoreKey(r.store, customer, NewWallet(r.store, customer, TARGET_CHAIN));
    }
  }

  /** Creating for a customer that had no Solana wallet at the start never makes a second one. */
  lemma {:induction false} CreateKeepsCount(r0: Remote, r: Remote, customer: string, c: string)
    requires Sound(r) && Counted(r0.store, r.store, c)
    requires SolanaOf(r0.store.created, customer) == []
    ensures Counted(r0.store, CreateFor(r, customer).0, c)
  {
    if IsReplay(r.store, KeyFor(customer, TARGET_CHAIN)) {
      RepeatedCreate(r, customer);
    } else {
      assert KeyFor(customer, TARGET_CHAIN) != "";
      FirstCreate(r, customer);
      SolanaOfAppend(r.store.created, NewWallet(r.store, customer, TARGET_CHAIN), c);
      SameKeySameCustomer(c, customer);
    }
  }

  /** A script's own state stays good when wallets are only added and account owners do not change. */
  lemma {:induction false} ScriptInvSurvives(r0: Remote, r: Remote, t: Remote, c: Script)
    requires ScriptInv(r0, r, c) && r.store.created <= t.store.created
    requires forall id :: id in r.accounts ==> id in t.accounts && t.accounts[id].customer == r.accounts[id].customer
    ensures ScriptInv(r0, t, c)
  {
    assert t.store.created == r.store.created + t.store.created[|r.store.created|..];
    HasWalletSurvives(r.store.created, t.store.created[|r.store.created|..]);
  }

  lemma {:induction false} IntactSurvives(r0: Remote, r: Remote, store: Store)
    requires Intact(r0, r) && r.store.created <= store.created
    ensures Intact(r0, r.(store := store))
  {
    assert store.created == r.store.created + store.created[|r.store.created|..];
    HasWalletSurvives(r.store.created, store.created[|r.store.created|..]);
  }

  lemma {:induction false} InvCreate(number: Reader, r0: Remote, s: Fleet, i: nat)
    requires Inv(r0, s) && Enabled(s, Create(i))
    ensures Inv(r0, Step(number, s, Create(i)))
  {
    var customer := s.scripts[i].todo[0].customer;
    var t := Step(number, s, Create(i));
    assert ScriptInv(r0, s.remote, s.scripts[i]);
    CreateKeepsSound(s.remote, customer);
    IntactSurvives(r0, s.remote, t.remote.store);
    forall c ensures Counted(r0.store, t.remote.store, c) {
      CreateKeepsCount(r0, s.remote, customer, c);
    }
    forall j | 0 <= j < |t.scripts| ensures ScriptInv(r0, t.remote, t.scripts[j]) {
      ScriptInvSurvives(r0, s.remote, t.remote, s.scripts[j]);
    }
  }

  lemma {:induction false} PutKeepsRemote(r0: Remote, r: Remote, job: Job, va: Account, wallet: string)
    requires RemoteInv(r0, r) && PutAccount(r, job, va, wallet).Some?
    requires va.id in r.accounts && HasWallet(r.store.created, r.accounts[va.id].customer, wallet)
    ensures RemoteInv(r0, PutAccount(r, job, va, wallet).value)
    ensures PutAccount(r, job, va, wallet).value.store == r.store
  {
    var t := PutAccount(r, job, va, wallet).value;
    assert t.accounts == r.accounts[va.id := Replaced(job, va, r.accounts[va.id], wallet)];
    forall c ensures Counted(r0.store, t.store, c) {
      assert Counted(r0.store, r.store, c);
    }
  }

  lemma {:induction false} InvUpdate(number: Reader, r0: Remote, s: Fleet, i: nat)
    requires Inv(r0, s) && Enabled(s, Update(i))
    ensures Inv(r0, Step(number, s, Update(i)))
  {
    var t, c := Step(number, s, Update(i)), s.scripts[i];
    assert ScriptInv(r0, s.remote, c);
    PutKeepsRemote(r0, s.remote, c.job, c.todo[0], c.phase.wallet.id);
    forall j | 0 <= j < |t.scripts| ensures ScriptInv(r0, t.remote, t.scripts[j]) {
      ScriptInvSurvives(r0, s.remote, t.remote, s.scripts[j]);
    }
  }

  lemma {:induction false} CandidatesAreAccounts(number: Reader, job: Job, accounts: map<string, Account>,
                                                 order: seq<string>)
    requires forall id :: id in order ==> id in accounts
    requires forall id :: id in accounts ==> accounts[id].id == id
    ensures forall va :: va in Candidates(number, job, accounts, order) <==>
              va.id in order && va == accounts[va.id] && Wants(number, job, va)
  {
    if order != [] {
      CandidatesAreAccounts(number, job, accounts, order[1..]);
      assert forall id :: id in order <==> id == order[0] || id in order[1..];
    }
  }

  lemma {:induction false} InvScript(r0: Remote, s: Fleet, i: nat, c: Script)
    requires Inv(r0, s) && i < |s.scripts| && ScriptInv(r0, s.remote, c)
    ensures Inv(r0, s.(scripts := s.scripts[i := c]))
  {}

  lemma {:induction false} InvStart(r0: Remote, s: Fleet, job: Job)
    requires Inv(r0, s)
    ensures Inv(r0, s.(scripts := s.scripts + [Script(job, [], Idle)]))
  {}

  lemma {:induction false} InvRead(number: Reader, r0: Remote, s: Fleet, i: nat, order: seq<string>)
    requires Inv(r0, s) && Enabled(s, ReadAccounts(i, order))
    ensures Inv(r0, Step(number, s, ReadAccounts(i, order)))
  {
    CandidatesAreAccounts(number, s.scripts[i].job, s.remote.accounts, order);
    InvScript(r0, s, i, Step(number, s, ReadAccounts(i, order)).scripts[i]);
  }

  lemma {:induction false} InvLook(number: Reader, r0: Remote, s: Fleet, i: nat)
    requires Inv(r0, s) && Enabled(s, Look(i))
    ensures Inv(r0, Step(number, s, Look(i)))
  {
    assert ScriptInv(r0, s.remote, s.scripts[i]);
    var c := s.scripts[i].todo[0].customer;
    FindSolanaFinds(s.remote.store.created, c);
    assert Counted(r0.store, s.remote.store, c);
    InvScript(r0, s, i, Step(number, s, Look(i)).scripts[i]);
  }

  /** The steps that only read. */
  lemma {:induction false} InvQuiet(number: Reader, r0: Remote, s: Fleet, a: Action)
    requires Inv(r0, s) && Enabled(s, a) && !a.Create? && !a.Update?
    ensures Inv(r0, Step(number, s, a))
  {
    match a {
      case Start(job) => InvStart(r0, s, job);
      case ReadAccounts(i, order) => InvRead(number, r0, s, i, order);
      case Look(i) => InvLook(number, r0, s, i);
      case SkipOne(i) => InvScript(r0, s, i, Step(number, s, a).scripts[i]);
      case Preview(i) => InvScript(r0, s, i, Step(number, s, a).scripts[i]);
      case End(i) => InvScript(r0, s, i, Step(number, s, a).scripts[i]);
    }
  }

  lemma {:induction false} InvStep(number: Reader, r0: Remote, s: Fleet, a: Action)
    requires Inv(r0, s) && Enabled(s, a)
    ensures Inv(r0, Step(number, s, a))
  {
    match a {
      case Create(i) => InvCreate(number, r0, s, i);
      case Update(i) => InvUpdate(number, r0, s, i);
      case _ => InvQuiet(number, r0, s, a);
    }
  }

  lemma {:induction false} InvRun(number: Reader, r0: Remote, s: Fleet, run: seq<Action>)
    requires Inv(r0, s) && Possible(number, s, run)
    ensures Inv(r0, After(number, s, run))
    decreases |run|
  {
    if run != [] {
      InvStep(number, r0, s, run[0]);
      InvRun(number, r0, Step(number, s, run[0]), run[1..]);
    }
  }

  // ---------------------------------------------------------------- main results

  /**
   * Referential integrity in every intermediate state: an account that any script has written
   * settles on Solana, into a wallet that already exists and belongs to the account's own
   * customer; and no script ever changes an account's identity, owner, status or bank details.
   */
  lemma {:induction false} WrittenAccountsPointAtOwnWallets(number: Reader, r: Remote, run: seq<Action>)
    requires Sound(r) && Possible(number, Fleet(r, []), run)
    ensures var now := After(number, Fleet(r, []), run).remote;
            SameIdentity(r, now) && Intact(r, now) && r.store.created <= now.store.created
  {
    InvInitially(r);
    InvRun(number, r, Fleet(r, []), run);
  }

  /**
   * No second wallet over any interleaving of interrupted and repeated runs: a customer that had
   * a Solana wallet gains none, and one that had none gains at most one.
   */
  lemma {:induction false} NoSecondSolanaWallet(number: Reader, r: Remote, run: seq<Action>, customer: string)
    requires Sound(r) && Possible(number, Fleet(r, []), run)
    ensures var before := |SolanaOf(r.store.created, customer)|;
            var now := |SolanaOf(After(number, Fleet(r, []), run).remote.store.created, customer)|;
            if before > 0 then now == before else now <= 1
  {
    InvInitially(r);
    InvRun(number, r, Fleet(r, []), run);
    assert Counted(r.store, After(number, Fleet(r, []), run).remote.store, customer);
  }

  /** Nothing either script would take up: already on Solana, and not a live account without a fee. */
  predicate Healthy(number: Reader, va: Account) {
    OnSolana(va.rail) && !(Live(va) && FeeMissing(number, va))
  }

  ghost predicate Untouched(r0: Remote, s: Fleet, x: string) {
    && x in r0.accounts && x in s.remote.accounts && s.remote.accounts[x] == r0.accounts[x]
    && (forall i, k :: 0 <= i < |s.scripts| && 0 <= k < |s.scripts[i].todo| ==> s.scripts[i].todo[k].id != x)
    && (forall id :: id in s.remote.accounts ==> s.remote.accounts[id].id == id)
  }

  lemma {:induction false} UntouchedStep(number: Reader, r0: Remote, s: Fleet, a: Action, x: string)
    requires x in r0.accounts && Healthy(number, r0.accounts[x])
    requires Untouched(r0, s, x) && Enabled(s, a)
    ensures Untouched(r0, Step(number, s, a), x)
  {
    if a.ReadAccounts? {
      CandidatesAreAccounts(number, s.scripts[a.i].job, s.remote.accounts, a.order);
    }
  }

  lemma {:induction false} UntouchedRun(number: Reader, r0: Remote, s: Fleet, run: seq<Action>, x: string)
    requires x in r0.accounts && Healthy(number, r0.accounts[x])
    requires Untouched(r0, s, x) && Possible(number, s, run)
    ensures Untouched(r0, After(number, s, run), x)
    decreases |run|
  {
    if run != [] {
      UntouchedStep(number, r0, s, run[0], x);
      UntouchedRun(number, r0, Step(number, s, run[0]), run[1..], x);
    }
  }

  /** A healthy account is byte for byte what it was, whatever the scripts do. */
  lemma {:induction false} HealthyAccountsAreNeverWritten(number: Reader, r: Remote, run: seq<Action>, x: string)
    requires Sound(r) && Possible(number, Fleet(r, []), run)
    requires x in r.accounts && Healthy(number, r.accounts[x])
    ensures var now := After(number, Fleet(r, []), run).remote; x in now.accounts && now.accounts[x] == r.accounts[x]
  {
    UntouchedRun(number, r, Fleet(r, []), run, x);
  }

  ghost predicate AllDry(s: Fleet) {
    forall i :: 0 <= i < |s.scripts| ==> !s.scripts[i].job.apply
  }

  /** Scripts started without --apply leave the remote as it was. */
  lemma {:induction false} DryRunsChangeNothing(number: Reader, s: Fleet, run: seq<Action>)
    requires AllDry(s) && Possible(number, s, run)
    requires forall k :: 0 <= k < |run| && run[k].Start? ==> !run[k].job.apply
    ensures After(number, s, run).remote == s.remote && AllDry(After(number, s, run))
    decreases |run|
  {
    if run != [] {
      var t := Step(number, s, run[0]);
      assert run[0].Start? ==> !run[0].job.apply;
      forall k | 0 <= k < |run[1..]| && run[1..][k].Start? ensures !run[1..][k].job.apply {
        assert run[1..][k] == run[k + 1];
      }
      assert AllDry(t) && t.remote == s.remote;
      DryRunsChangeNothing(number, t, run[1..]);
    }
  }

  // ---------------------------------------------------------------- putting runs together

  lemma {:induction false} One(number: Reader, s: Fleet, a: Action)
    requires Enabled(s, a)
    ensures Possible(number, s, [a]) && After(number, s, [a]) == Step(number, s, a)
  {
    assert [a][1..] == [];
  }

  lemma {:induction false} RunsConcatenate(number: Reader, s: Fleet, a: seq<Action>, b: seq<Action>)
    requires Possible(number, s, a) && Possible(number, After(number, s, a), b)
    ensures Possible(number, s, a + b) && After(number, s, a + b) == After(number, After(number, s, a), b)
    decreases |a|
  {
    if a == [] {
      assert a + b == b;
    } else {
      assert (a + b)[1..] == a[1..] + b;
      RunsConcatenate(number, Step(number, s, a[0]), a[1..], b);
    }
  }

  lemma {:induction false} OneMore(number: Reader, s: Fleet, run: seq<Action>, a: Action)
    requires Possible(number, s, run) && Enabled(After(number, s, run), a)
    ensures Possible(number, s, run + [a]) && After(number, s, run + [a]) == Step(number, After(number, s, run), a)
  {
    One(number, After(number, s, run), a);
    RunsConcatenate(number, s, run, [a]);
  }
}
