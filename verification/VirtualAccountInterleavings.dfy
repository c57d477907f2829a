/** A repair script run alone is one of the interleavings; and what two of them side by side can do. */
module VirtualAccountInterleavings {
  import opened WalletStub
  import opened VirtualAccounts
  import opened VirtualAccountFleet
  import opened VirtualAccountRuns

  /** The requests that find or create the wallet of an account. */
  lemma {:induction false} WalletAlone(number: Reader, echo: Echo, s: Fleet, i: nat)
    returns (run: seq<Action>, wallet: View)
    requires i < |s.scripts| && s.scripts[i].phase.Choosing? && s.scripts[i].todo != []
    requires Sound(s.remote) && s.scripts[i].todo[0].customer != "" && s.scripts[i].job.apply
    ensures Possible(number, s, run)
    ensures var c, t := s.scripts[i], After(number, s, run);
            && t == Fleet(t.remote, s.scripts[i := c.(phase := Holding(wallet))])
            && t.remote.accounts == s.remote.accounts
            && RepairOne(number, echo, c.job, s.remote, c.todo[0]) ==
                Repoint(number, echo, c.job, t.remote, c.todo[0], wallet)
  {
    var c := s.scripts[i];
    var customer := c.todo[0].customer;
    One(number, s, Look(i));
    run := [Look(i)];
    match FindSolana(ShowAll(WalletsOf(s.remote.store.created, customer))) {
      case Some(found) =>
        wallet := found;
      case None =>
        CreateKeepsSound(s.remote, customer);
        OneMore(number, s, run, Create(i));
        run := run + [Create(i)];
        wallet := CreateFor(s.remote, customer).1.wallet;
        assert s.scripts[i := c.(phase := Missing)][i := c.(phase := Holding(wallet))] ==
            s.scripts[i := c.(phase := Holding(wallet))];
    }
  }

  /** Without --apply: the customer's wallets are looked at, and the account is passed over. */
  lemma {:induction false} PreviewAlone(number: Reader, s: Fleet, i: nat) returns (run: seq<Action>)
    requires i < |s.scripts| && s.scripts[i].phase.Choosing? && s.scripts[i].todo != []
    requires s.scripts[i].todo[0].customer != "" && !s.scripts[i].job.apply
    ensures Possible(number, s, run)
    ensures After(number, s, run) == s.(scripts := s.scripts[i := s.scripts[i].(todo := s.scripts[i].todo[1..])])
  {
    var c := s.scripts[i];
    One(number, s, Look(i));
    var t := Step(number, s, Look(i));
    OneMore(number, s, [Look(i)], Preview(i));
    run := [Look(i)] + [Preview(i)];
    assert t.scripts[i := c.(todo := c.todo[1..], phase := Choosing)] == s.scripts[i := c.(todo := c.todo[1..])];
  }

  /** The requests of one account, made with no other script in between. */
  lemma {:induction false} OneAccountAlone(number: Reader, echo: Echo, s: Fleet, i: nat) returns (run: seq<Action>)
    requires i < |s.scripts| && s.scripts[i].phase.Choosing? && s.scripts[i].todo != []
    requires Sound(s.remote) && Current(s.remote, s.scripts[i].todo[0])
    ensures Possible(number, s, run)
    ensures var c := s.scripts[i];
            After(number, s, run) == Fleet(RepairOne(number, echo, c.job, s.remote, c.todo[0]).remote,
                                           s.scripts[i := c.(todo := c.todo[1..])])
  {
    var c := s.scripts[i];
    if c.todo[0].customer == "" {
      run := [SkipOne(i)];
      One(number, s, SkipOne(i));
    } else if !c.job.apply {
      run := PreviewAlone(number, s, i);
    } else {
      var wallet;
      run, wallet := WalletAlone(number, echo, s, i);
      var t := After(number, s, run);
      OneMore(number, s, run, Update(i));
      run := run + [Update(i)];
      assert t.scripts[i := c.(todo := c.todo[1..], phase := Choosing)] == s.scripts[i := c.(todo := c.todo[1..])];
    }
  }

  lemma {:induction false} TodoAlone(number: Reader, echo: Echo, s: Fleet, i: nat) returns (run: seq<Action>)
    requires i < |s.scripts| && s.scripts[i].phase.Choosing? && Sound(s.remote)
    requires forall k :: 0 <= k < |s.scripts[i].todo| ==> Current(s.remote, s.scripts[i].todo[k])
    ensures Possible(number, s, run)
    ensures After(number, s, run).remote ==
              RepairAll(number, echo, s.scripts[i].job, s.remote, s.scripts[i].todo).remote
    decreases |s.scripts[i].todo|
  {
    var c := s.scripts[i];
    if c.todo == [] {
      run := [];
    } else {
      var va := c.todo[0];
      var first := OneAccountAlone(number, echo, s, i);
      var t := After(number, s, first);
      if va.customer != "" && c.job.apply {
        var wallet := RepairOneWorks(number, echo, c.job, s.remote, va);
      }
      assert t.scripts[i].todo == c.todo[1..];
      forall k | 0 <= k < |t.scripts[i].todo| ensures Current(t.remote, t.scripts[i].todo[k]) {
        assert t.scripts[i].todo[k] == c.todo[k + 1];
      }
      var rest := TodoAlone(number, echo, t, i);
      run := first + rest;
      RunsConcatenate(number, s, first, rest);
    }
  }

  /** A script run alone, with --apply or without, is one of the interleavings: it can be started in any sound state. */
  lemma {:induction false} SoloRunIsAnInterleaving(number: Reader, echo: Echo, s: Fleet, job: Job, order: seq<string>)
    returns (run: seq<Action>)
    requires Sound(s.remote) && (forall id :: id in order <==> id in s.remote.accounts)
    ensures Possible(number, s, run)
    ensures After(number, s, run).remote ==
            RepairAll(number, echo, job, s.remote, Candidates(number, job, s.remote.accounts, order)).remote
  {
    var i := |s.scripts|;
    One(number, s, Start(job));
    var s1 := Step(number, s, Start(job));
    OneMore(number, s, [Start(job)], ReadAccounts(i, order));
    run := [Start(job)] + [ReadAccounts(i, order)];
    var s2 := Step(number, s1, ReadAccounts(i, order));
    CandidatesAreAccounts(number, job, s.remote.accounts, order);
    forall k | 0 <= k < |s2.scripts[i].todo| ensures Current(s2.remote, s2.scripts[i].todo[k]) {
      assert s2.scripts[i].todo[k] in s2.scripts[i].todo;
    }
    var tail := TodoAlone(number, echo, s2, i);
    RunsConcatenate(number, s, run, tail);
    run := run + tail;
  }

  /** The fix takes up the account, then the reprovision script does, from a listing as old. */
  lemma {:induction false} FixThenMove(number: Reader, echo: Echo, s: Fleet, a: Account, fee: string)
    returns (first: seq<Action>, second: seq<Action>)
    requires a.customer != "" && Sound(s.remote) && s.remote.accounts == map[a.id := a]
    requires s.scripts == [Script(Reprovision(true, ""), [a], Choosing), Script(Fix(true, fee), [a], Choosing)]
    ensures Possible(number, s, first) && Possible(number, After(number, s, first), second)
    ensures var mid := After(number, s, first).remote.accounts;
            var end := After(number, After(number, s, first), second).remote.accounts;
            a.id in mid && mid[a.id].fee == FeeOf(Fix(true, fee)) && a.id in end && end[a.id].fee == a.fee
    ensures second != []
  {
    first := OneAccountAlone(number, echo, s, 1);
    var wallet := RepairOneWorks(number, echo, Fix(true, fee), s.remote, a);
    var t := After(number, s, first);
    second := OneAccountAlone(number, echo, t, 0);
    wallet := RepairOneWorks(number, echo, Reprovision(true, ""), t.remote, a);
    assert After(number, t, second) != t;
  }

  /** Both scripts list the account before either takes it up. */
  lemma {:induction false} BothList(number: Reader, start: Fleet, a: Account, fee: string) returns (run: seq<Action>)
    requires start.scripts == [] && start.remote.accounts == map[a.id := a]
    requires Wants(number, Reprovision(true, ""), a) && Wants(number, Fix(true, fee), a)
    ensures Possible(number, start, run)
    ensures After(number, start, run) ==
            Fleet(start.remote, [Script(Reprovision(true, ""), [a], Choosing), Script(Fix(true, fee), [a], Choosing)])
  {
    var fix, move := Fix(true, fee), Reprovision(true, "");
    assert [a.id][1..] == [];
    assert forall job :: Wants(number, job, a) ==> Candidates(number, job, start.remote.accounts, [a.id]) == [a];
    One(number, start, Start(move));
    OneMore(number, start, [Start(move)], ReadAccounts(0, [a.id]));
    run := [Start(move)] + [ReadAccounts(0, [a.id])];
    OneMore(number, start, run, Start(fix));
    run := run + [Start(fix)];
    OneMore(number, start, run, ReadAccounts(1, [a.id]));
    run := run + [ReadAccounts(1, [a.id])];
  }

  /**
   * Run side by side, the two scripts do not keep each other's work: when the reprovision script
   * listed the account before the fix, its PUT afterwards brings the missing fee back.
   */
  lemma {:induction false} StaleListingUndoesTheFee(number: Reader, echo: Echo, a: Account, store: Store, fee: string)
    returns (run: seq<Action>, k: nat)
    requires a.customer != "" && Sound(Remote(store, map[a.id := a]))
    requires Wants(number, Reprovision(true, ""), a) && Wants(number, Fix(true, fee), a)
    ensures k < |run|
    ensures var start := Fleet(Remote(store, map[a.id := a]), []);
            Possible(number, start, run) && Possible(number, start, run[..k]) &&
            var repaired, end :=
              After(number, start, run[..k]).remote.accounts, After(number, start, run).remote.accounts;
            a.id in repaired && repaired[a.id].fee == FeeOf(Fix(true, fee)) && a.id in end && end[a.id].fee == a.fee
  {
    var start := Fleet(Remote(store, map[a.id := a]), []);
    var setup := BothList(number, start, a, fee);
    var first, second := FixThenMove(number, echo, After(number, start, setup), a, fee);
    RunsConcatenate(number, start, setup, first);
    RunsConcatenate(number, start, setup + first, second);
    run, k := setup + first + second, |setup + first|;
    assert run[..k] == setup + first;
  }
}
