/** When a repaired fee lasts: the PUTs still to come from listings made before the repair. */
module VirtualAccountFees {
  import opened VirtualAccounts
  import opened VirtualAccountFleet

  /** The fee a PUT of this script leaves on an account it listed. */
  function WrittenFee(job: Job, va: Account): string {
    if job.Fix? then FeeOf(job) else va.fee
  }

  predicate WritesMissingFee(number: Reader, job: Job, va: Account) {
    FeeMissing(number, va.(fee := WrittenFee(job, va)))
  }

  /** A script that has listed the accounts, writes, and has not ended. */
  predicate Acting(c: Script) {
    c.job.apply && !c.phase.Idle? && !c.phase.Ended?
  }

  /** The k-th entry of the script is this account, and would be written without a fee. */
  predicate StaleEntry(number: Reader, c: Script, k: nat, id: string)
    requires k < |c.todo|
  {
    c.todo[k].id == id && c.todo[k].customer != "" && WritesMissingFee(number, c.job, c.todo[k])
  }

  ghost predicate Threatened(number: Reader, s: Fleet, id: string) {
    exists i, k :: 0 <= i < |s.scripts| && 0 <= k < |s.scripts[i].todo|
      && Acting(s.scripts[i]) && StaleEntry(number, s.scripts[i], k, id)
  }

  ghost predicate FeeStands(number: Reader, s: Fleet, id: string) {
    id in s.remote.accounts && !FeeMissing(number, s.remote.accounts[id])
  }

  /** A script asks for a wallet only for accounts with a customer. */
  ghost predicate Ordered(s: Fleet) {
    forall i :: 0 <= i < |s.scripts| && (s.scripts[i].phase.Missing? || s.scripts[i].phase.Holding?) ==>
      s.scripts[i].todo != [] && s.scripts[i].todo[0].customer != ""
  }

  lemma {:induction false} OrderedStep(number: Reader, s: Fleet, a: Action)
    requires Ordered(s) && Enabled(s, a)
    ensures Ordered(Step(number, s, a))
  {}

  lemma {:induction false} OrderedRun(number: Reader, s: Fleet, run: seq<Action>)
    requires Ordered(s) && Possible(number, s, run)
    ensures Ordered(After(number, s, run))
    decreases |run|
  {
    if run != [] {
      OrderedStep(number, s, run[0]);
      OrderedRun(number, Step(number, s, run[0]), run[1..]);
    }
  }

  // ---------------------------------------------------------------- no stale entry: the fee stays

  /** A fresh listing holds no entry that would take away a fee that is there. */
  lemma {:induction false} FreshListingKeepsFee(number: Reader, s: Fleet, i: nat, order: seq<string>, id: string)
    requires Enabled(s, ReadAccounts(i, order)) && FeeStands(number, s, id)
    requires forall x :: x in s.remote.accounts ==> s.remote.accounts[x].id == x
    ensures var c := Step(number, s, ReadAccounts(i, order)).scripts[i];
            forall k :: 0 <= k < |c.todo| ==> !StaleEntry(number, c, k, id)
  {
    var job, todo := s.scripts[i].job, Candidates(number, s.scripts[i].job, s.remote.accounts, order);
    CandidatesAreAccounts(number, job, s.remote.accounts, order);
    forall k | 0 <= k < |todo| && todo[k].id == id ensures !WritesMissingFee(number, job, todo[k]) {
      assert todo[k] in todo;
      assert todo[k] == s.remote.accounts[id];
      assert todo[k].(fee := todo[k].fee) == todo[k];
    }
  }

  lemma {:induction false} UpdateKeepsFee(number: Reader, s: Fleet, i: nat, id: string)
    requires Ordered(s) && FeeStands(number, s, id) && !Threatened(number, s, id) && Enabled(s, Update(i))
    ensures FeeStands(number, Step(number, s, Update(i)), id)
  {
    var c := s.scripts[i];
    if c.todo[0].id == id {
      assert !StaleEntry(number, c, 0, id);
    }
  }

  lemma {:induction false} NoStaleEntryStep(number: Reader, r0: Remote, s: Fleet, a: Action, id: string)
    requires Inv(r0, s) && Ordered(s) && FeeStands(number, s, id) && !Threatened(number, s, id) && Enabled(s, a)
    ensures FeeStands(number, Step(number, s, a), id) && !Threatened(number, Step(number, s, a), id)
  {
    var t := Step(number, s, a);
    if a.Update? { UpdateKeepsFee(number, s, a.i, id); }
    if a.ReadAccounts? { FreshListingKeepsFee(number, s, a.i, a.order, id); }
    forall i, k | 0 <= i < |t.scripts| && 0 <= k < |t.scripts[i].todo| && Acting(t.scripts[i])
      ensures !StaleEntry(number, t.scripts[i], k, id)
    {
      if i < |s.scripts| && !(a.ReadAccounts? && a.i == i) {
        EntryWasThere(number, s, a, i, k, id);
      }
    }
  }

  /** Every entry a script holds after a step other than its own listing, it held before. */
  lemma {:induction false} EntryWasThere(number: Reader, s: Fleet, a: Action, i: nat, k: nat, id: string)
    requires Enabled(s, a) && i < |s.scripts| && !(a.ReadAccounts? && a.i == i)
    requires i < |Step(number, s, a).scripts| && k < |Step(number, s, a).scripts[i].todo|
    requires Acting(Step(number, s, a).scripts[i]) && !Threatened(number, s, id)
    ensures !StaleEntry(number, Step(number, s, a).scripts[i], k, id)
  {
    var c, d := s.scripts[i], Step(number, s, a).scripts[i];
    assert Acting(c) && d.job == c.job;
    if d.todo == c.todo {
      assert !StaleEntry(number, c, k, id);
    } else {
      assert d.todo == c.todo[1..];
      assert !StaleEntry(number, c, k + 1, id);
    }
  }

  ghost predicate OutOfDanger(number: Reader, r0: Remote, s: Fleet, id: string) {
    Inv(r0, s) && Ordered(s) && FeeStands(number, s, id) && !Threatened(number, s, id)
  }

  lemma {:induction false} OutOfDangerRun(number: Reader, r0: Remote, s: Fleet, run: seq<Action>, id: string)
    requires OutOfDanger(number, r0, s, id) && Possible(number, s, run)
    ensures OutOfDanger(number, r0, After(number, s, run), id)
    decreases |run|
  {
    if run != [] {
      NoStaleEntryStep(number, r0, s, run[0], id);
      InvStep(number, r0, s, run[0]);
      OrderedStep(number, s, run[0]);
      OutOfDangerRun(number, r0, Step(number, s, run[0]), run[1..], id);
    }
  }

  /** Without a stale entry the fee stays through every run, whatever is started later. */
  lemma {:induction false} NoStaleEntryRun(number: Reader, r0: Remote, s: Fleet, run: seq<Action>, id: string)
    requires Inv(r0, s) && Ordered(s) && Possible(number, s, run)
    requires FeeStands(number, s, id) && !Threatened(number, s, id)
    ensures FeeStands(number, After(number, s, run), id)
  {
    OutOfDangerRun(number, r0, s, run, id);
  }

  // ---------------------------------------------------------------- a stale entry: the fee can go

  /** Once its wallet is known, or missing, an account is written next. */
  lemma {:induction false} WriteCurrent(number: Reader, r0: Remote, s: Fleet, i: nat) returns (run: seq<Action>)
    requires Inv(r0, s) && Ordered(s) && i < |s.scripts| && s.scripts[i].job.apply
    requires s.scripts[i].phase.Missing? || s.scripts[i].phase.Holding?
    ensures Possible(number, s, run)
    ensures var c, t := s.scripts[i], After(number, s, run);
            && |t.scripts| == |s.scripts| && t.scripts[i] == c.(todo := c.todo[1..], phase := Choosing)
            && c.todo[0].id in t.remote.accounts
            && t.remote.accounts[c.todo[0].id].fee == WrittenFee(c.job, c.todo[0])
  {
    var c := s.scripts[i];
    run := [];
    if c.phase.Missing? {
      CreateKeepsSound(s.remote, c.todo[0].customer);
      One(number, s, Create(i));
      run := [Create(i)];
    }
    OneMore(number, s, run, Update(i));
    run := run + [Update(i)];
  }

  /** An acting script left alone takes up its next account. */
  lemma {:induction false} TakeUp(number: Reader, r0: Remote, s: Fleet, i: nat) returns (run: seq<Action>)
    requires Inv(r0, s) && Ordered(s) && i < |s.scripts| && Acting(s.scripts[i]) && s.scripts[i].todo != []
    ensures Possible(number, s, run)
    ensures var c, t := s.scripts[i], After(number, s, run);
            && |t.scripts| == |s.scripts| && t.scripts[i] == c.(todo := c.todo[1..], phase := Choosing)
            && (c.todo[0].customer != "" ==>
                  c.todo[0].id in t.remote.accounts
                  && t.remote.accounts[c.todo[0].id].fee == WrittenFee(c.job, c.todo[0]))
  {
    var c := s.scripts[i];
    if !c.phase.Choosing? {
      run := WriteCurrent(number, r0, s, i);
    } else if c.todo[0].customer == "" {
      One(number, s, SkipOne(i));
      run := [SkipOne(i)];
    } else {
      One(number, s, Look(i));
      InvStep(number, r0, s, Look(i));
      var rest := WriteCurrent(number, r0, Step(number, s, Look(i)), i);
      run := [Look(i)] + rest;
      RunsConcatenate(number, s, [Look(i)], rest);
    }
  }

  /** So it can get to any of its entries, and write the fee that entry stands for. */
  lemma {:induction false} EntryIsWritten(number: Reader, r0: Remote, s: Fleet, i: nat, k: nat)
    returns (run: seq<Action>)
    requires Inv(r0, s) && Ordered(s) && i < |s.scripts| && Acting(s.scripts[i])
    requires k < |s.scripts[i].todo| && s.scripts[i].todo[k].customer != ""
    ensures Possible(number, s, run)
    ensures var c, t := s.scripts[i], After(number, s, run);
            c.todo[k].id in t.remote.accounts && t.remote.accounts[c.todo[k].id].fee == WrittenFee(c.job, c.todo[k])
    decreases k
  {
    run := TakeUp(number, r0, s, i);
    if k > 0 {
      InvRun(number, r0, s, run);
      OrderedRun(number, s, run);
      var rest := EntryIsWritten(number, r0, After(number, s, run), i, k - 1);
      RunsConcatenate(number, s, run, rest);
      run := run + rest;
    }
  }

  lemma {:induction false} StaleEntryTakesFeeAway(number: Reader, r0: Remote, s: Fleet, id: string)
    returns (run: seq<Action>)
    requires Inv(r0, s) && Ordered(s) && Threatened(number, s, id)
    ensures Possible(number, s, run) && !FeeStands(number, After(number, s, run), id)
  {
    var i, k :| 0 <= i < |s.scripts| && 0 <= k < |s.scripts[i].todo|
      && Acting(s.scripts[i]) && StaleEntry(number, s.scripts[i], k, id);
    run := EntryIsWritten(number, r0, s, i, k);
    var c := s.scripts[i];
  }

  /**
   * In every reachable state, a fee that is there stays through all that can still happen exactly when no
   * acting script holds an entry for the account that would be written without one.
   */
  lemma {:induction false} FeeStaysIffNoStaleEntry(number: Reader, r: Remote, past: seq<Action>, id: string)
    requires Sound(r) && Possible(number, Fleet(r, []), past)
    requires FeeStands(number, After(number, Fleet(r, []), past), id)
    ensures var s := After(number, Fleet(r, []), past);
            (forall run :: Possible(number, s, run) ==> FeeStands(number, After(number, s, run), id))
            <==> !Threatened(number, s, id)
  {
    var s := After(number, Fleet(r, []), past);
    InvInitially(r);
    InvRun(number, r, Fleet(r, []), past);
    OrderedRun(number, Fleet(r, []), past);
    if Threatened(number, s, id) {
      var run := StaleEntryTakesFeeAway(number, r, s, id);
    } else {
      forall run | Possible(number, s, run) ensures FeeStands(number, After(number, s, run), id) {
        NoStaleEntryRun(number, r, s, run, id);
      }
    }
  }
}
