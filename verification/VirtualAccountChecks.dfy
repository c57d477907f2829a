/** The read-back checks of the fix: what they tell about where deposits land. */
module VirtualAccountChecks {
  import opened Wrappers
  import opened WalletStub
  import opened VirtualAccounts

  /** The on-chain address deposits land on. */
  function Landing(store: Store, settles: Settlement): Option<string> {
    match settles
    case ToAddress(a) => Some(a)
    case ToWallet(id) =>
      match Lookup(store.created, id)
      case None => None
      case Some(w) => Some(w.address)
  }

  ghost predicate OwnAddresses(created: seq<Wallet>) {
    && (forall i :: 0 <= i < |created| ==> created[i].address != "")
    && (forall i, j :: 0 <= i < j < |created| ==> created[i].address != created[j].address)
  }

  /**
   * With one non-empty address per wallet, and whichever field Bridge echoes, okWallet is true
   * exactly when deposits land in the intended wallet.
   */
  lemma {:induction false} OkWalletIsExact(echo: Echo, store: Store, settles: Settlement, i: nat)
    requires Numbered(store.created) && OwnAddresses(store.created) && i < |store.created|
    requires settles.ToWallet? ==> Stored(store.created, settles.id)
    ensures OkWallet(ReadBack(echo, store, settles), Show(store.created[i])) <==>
            Landing(store, settles) == Some(store.created[i].address)
  {
    if settles.ToWallet? {
      var j :| 0 <= j < |store.created| && store.created[j].id == settles.id;
      LookupIs(store.created, j);
      if store.created[j].id == store.created[i].id {
        SameIdSamePlace(store.created, i, j);
      }
    }
  }

  /**
   * The four checks right after a PUT of the fix: rail and bank always hold, the fee if it reads as a
   * number, and the wallet exactly when its id comes back or it has an address.
   */
  lemma {:induction false} ChecksAfterPut(number: Reader, echo: Echo, job: Job, r: Remote, va: Account, i: nat)
    requires job.Fix? && Current(r, va) && r.accounts[va.id].bank == va.bank
    requires Numbered(r.store.created) && i < |r.store.created|
    ensures var wallet := r.store.created[i];
            var p := Repoint(number, echo, job, r, va, Show(wallet));
            !p.aborted && p.reports ==
              [Report(va.id, number(FeeOf(job)).Some?, echo == IdBack || wallet.address != "", true, true)]
  {
    LookupIs(r.store.created, i);
  }

  /** When only addresses come back, another wallet passes for the intended one exactly if it shares its address. */
  lemma {:induction false} OkWalletFooledIffShared(store: Store, i: nat, j: nat)
    requires Numbered(store.created) && i < |store.created| && j < |store.created| && store.created[i].address != ""
    ensures OkWallet(ReadBack(AddressBack, store, ToWallet(store.created[j].id)), Show(store.created[i])) <==>
            store.created[j].address == store.created[i].address
  {
    LookupIs(store.created, j);
  }

  /** And the intended wallet itself fails the test exactly if its address is empty. */
  lemma {:induction false} OkWalletRejectsOwnIffNoAddress(store: Store, i: nat)
    requires Numbered(store.created) && i < |store.created|
    ensures !OkWallet(ReadBack(AddressBack, store, ToWallet(store.created[i].id)), Show(store.created[i])) <==>
            store.created[i].address == ""
  {
    LookupIs(store.created, i);
  }

  /** The stub gives all wallets of a chain one address, so there the test cannot tell customers apart. */
  lemma {:induction false} StubWalletsShareAddresses(s: Store, customer: string, other: string, chain: string)
    requires Valid(s) && chain != ""
    ensures var s1 := PostWallet(s, customer, "", chain).0;
            var s2 := PostWallet(s1, other, "", chain).0;
            var n := |s.created|;
            && |s2.created| == n + 2 && s2.created[n].customer == customer && s2.created[n + 1].customer == other
            && (AddressOn(chain) != "" ==>
                  OkWallet(ReadBack(AddressBack, s2, ToWallet(s2.created[n + 1].id)), Show(s2.created[n])))
  {
    FirstPost(s, customer, "", chain);
    var s1 := PostWallet(s, customer, "", chain).0;
    FirstPost(s1, other, "", chain);
    var s2 := PostWallet(s1, other, "", chain).0;
    LookupIs(s2.created, |s.created| + 1);
  }
}
