/** The poller that records deposits, and in which of its histories the phantom classifier is right. */
module DepositPoller {
  import opened Wrappers
  import opened Text
  import opened PhantomDeposits

  // The poller diffs a balance against the last one it saw. It may be told zero by a failing provider, may
  // be refused a balance, and forgets everything at a restart.

  /** One cent, in micro-units. */
  const MIN_DEPOSIT := 10_000

  datatype Reading = Good | ZeroRead | Unreadable
  datatype Event = Poll(inflow: nat, reading: Reading) | Restart

  /** One wallet, chain and asset: what it holds, what the poller remembers, what it has recorded. */
  datatype Poller = Poller(chain: string, asset: string, balance: nat, lastSeen: Option<int>, rows: seq<Row>)

  function Announce(p: Poller, previous: Option<int>, current: int, amount: int): Poller {
    p.(rows := p.rows + [Row(Decimal(|p.rows|), p.chain, p.asset, previous, current, amount)])
  }

  /** The body of `scanForDeposits` once a balance has been read. */
  function Observe(p: Poller, current: int): Poller {
    var q := p.(lastSeen := Some(current));
    match p.lastSeen
    case None =>
      var unrecorded := current - Total(p.rows);
      if current >= MIN_DEPOSIT && unrecorded >= MIN_DEPOSIT then Announce(q, None, current, unrecorded) else q
    case Some(previous) =>
      if current - previous < MIN_DEPOSIT then q else Announce(q, Some(previous), current, current - previous)
  }

  function Step(p: Poller, e: Event): Poller {
    match e
    case Restart => p.(lastSeen := None)
    case Poll(inflow, reading) =>
      var q := p.(balance := p.balance + inflow);
      match reading
      case Unreadable => q
      case Good => Observe(q, q.balance)
      case ZeroRead => Observe(q, 0)
  }

  function Run(chain: string, asset: string, events: seq<Event>): Poller {
    if events == [] then Poller(chain, asset, 0, None, [])
    else Step(Run(chain, asset, events[..|events| - 1]), events[|events| - 1])
  }

  // ---------------------------------------------------------------- what really happened

  datatype Mark = Fresh | Zeroed | Settled

  /**
   * The history without the poller: the money there is, the money there was at the last good reading,
   * what has happened to the memory since, and whether old money has been announced again.
   */
  datatype Truth = Truth(balance: nat, seen: nat, mark: Mark, repeated: bool)

  function Advance(t: Truth, e: Event): Truth {
    match e
    case Restart => t.(mark := Fresh)
    case Poll(inflow, Unreadable) => t.(balance := t.balance + inflow)
    case Poll(inflow, ZeroRead) => t.(balance := t.balance + inflow, mark := Zeroed)
    case Poll(inflow, Good) =>
      Truth(t.balance + inflow, t.balance + inflow, Settled, t.repeated || (t.mark == Zeroed && t.seen > 0))
  }

  function TruthOf(events: seq<Event>): Truth {
    if events == [] then Truth(0, 0, Fresh, false)
    else Advance(TruthOf(events[..|events| - 1]), events[|events| - 1])
  }

  /**
   * A good reading is clean when the new money since the last one is nothing, or at least the minimum
   * deposit and not lost: behind a zero reading no new money may be there at all, and behind a restart
   * only while no old money has been announced again.
   */
  predicate Clean(t: Truth, inflow: nat) {
    var news := t.balance + inflow - t.seen;
    news == 0 || (news >= MIN_DEPOSIT && (t.mark == Zeroed ==> t.seen == 0) && (t.mark == Fresh ==> !t.repeated))
  }

  predicate AllClean(events: seq<Event>) {
    events != [] ==>
      var front, e := events[..|events| - 1], events[|events| - 1];
      AllClean(front) && (e.Poll? && e.reading == Good ==> Clean(TruthOf(front), e.inflow))
  }

  /** After every good reading the classifier's running total is the true balance. */
  predicate AllExact(chain: string, asset: string, events: seq<Event>) {
    events != [] ==>
      var front, e := events[..|events| - 1], events[|events| - 1];
      && AllExact(chain, asset, front)
      && (e.Poll? && e.reading == Good ==>
            var p := Run(chain, asset, events);
            Known(p.rows) == p.balance)
  }

  // ---------------------------------------------------------------- exact if and only if clean

  predicate Linked(p: Poller, t: Truth) {
    && p.balance == t.balance && t.seen <= t.balance
    && (t.seen == 0 || t.seen >= MIN_DEPOSIT)
    && Known(p.rows) == t.seen
    && Total(p.rows) >= t.seen && (t.repeated <==> Total(p.rows) > t.seen)
    && p.lastSeen == match t.mark { case Fresh => None case Zeroed => Some(0) case Settled => Some(t.seen) }
  }

  lemma {:induction false} GoodStep(p: Poller, inflow: nat)
    ensures var current := p.balance + inflow;
            var from := match p.lastSeen { case None => Total(p.rows) case Some(previous) => previous };
            var q := p.(balance := current, lastSeen := Some(current));
            Step(p, Poll(inflow, Good)) ==
              if current - from >= MIN_DEPOSIT && (p.lastSeen == None ==> current >= MIN_DEPOSIT)
              then Announce(q, p.lastSeen, current, current - from) else q
  {}

  /** What a good reading writes, and what that does to the sums. */
  lemma {:induction false} GoodSums(p: Poller, inflow: nat)
    ensures var current := p.balance + inflow;
            var from := match p.lastSeen { case None => Total(p.rows) case Some(previous) => previous };
            var q := Step(p, Poll(inflow, Good));
            var row := Row(Decimal(|p.rows|), p.chain, p.asset, p.lastSeen, current, current - from);
            if current - from >= MIN_DEPOSIT && (p.lastSeen == None ==> current >= MIN_DEPOSIT) then
              && q.rows == p.rows + [row] && Total(q.rows) == Total(p.rows) + row.amount
              && Known(q.rows) == (if IsPhantom(row, Known(p.rows)) then Known(p.rows) else Known(p.rows) + row.amount)
              && Phantoms(q.rows) ==
                  (if IsPhantom(row, Known(p.rows)) then Phantoms(p.rows) + [row] else Phantoms(p.rows))
            else
              q.rows == p.rows
  {
    var current := p.balance + inflow;
    var from := match p.lastSeen { case None => Total(p.rows) case Some(previous) => previous };
    GoodStep(p, inflow);
    OneMore(p.rows, Row(Decimal(|p.rows|), p.chain, p.asset, p.lastSeen, current, current - from));
  }

  lemma {:induction false} GoodReading(p: Poller, t: Truth, inflow: nat)
    requires Linked(p, t)
    ensures var e := Poll(inflow, Good);
            var q := Step(p, e);
            && (Known(q.rows) == q.balance <==> Clean(t, inflow))
            && (Clean(t, inflow) ==> Linked(q, Advance(t, e)))
  {
    GoodSums(p, inflow);
    var q := Step(p, Poll(inflow, Good));
    assert q.balance == p.balance + inflow && q.lastSeen == Some(q.balance);
    match t.mark
    case Fresh =>
    case Zeroed =>
    case Settled =>
  }

  /** In a clean history the running total is the money seen at the last good reading. */
  lemma {:induction false} CleanStaysLinked(chain: string, asset: string, events: seq<Event>)
    requires AllClean(events)
    ensures Linked(Run(chain, asset, events), TruthOf(events))
  {
    if events != [] {
      var front, e := events[..|events| - 1], events[|events| - 1];
      CleanStaysLinked(chain, asset, front);
      var p, t := Run(chain, asset, front), TruthOf(front);
      if e.Poll? && e.reading == Good {
        GoodReading(p, t, e.inflow);
      }
    }
  }

  /** The classifier's running total equals the true balance at every good reading exactly in clean histories. */
  lemma {:induction false} ExactIffClean(chain: string, asset: string, events: seq<Event>)
    ensures AllExact(chain, asset, events) <==> AllClean(events)
  {
    if events != [] {
      var front, e := events[..|events| - 1], events[|events| - 1];
      ExactIffClean(chain, asset, front);
      if AllClean(front) && e.Poll? && e.reading == Good {
        CleanStaysLinked(chain, asset, front);
        GoodReading(Run(chain, asset, front), TruthOf(front), e.inflow);
      }
    }
  }

  // ---------------------------------------------------------------- which rows are flagged

  /** The rows written at polls that found no new money. */
  function Repeats(chain: string, asset: string, events: seq<Event>): seq<Row> {
    if events == [] then [] else
      var front, e := events[..|events| - 1], events[|events| - 1];
      var p, t := Run(chain, asset, front), TruthOf(front);
      var written := NewRows(p, e);
      if e.Poll? && t.balance + e.inflow == t.seen then Repeats(chain, asset, front) + written
      else Repeats(chain, asset, front)
  }

  function NewRows(p: Poller, e: Event): seq<Row> {
    var rows := Step(p, e).rows;
    if |rows| < |p.rows| then [] else rows[|p.rows|..]
  }

  lemma {:induction false} FlaggedByStep(p: Poller, t: Truth, e: Event)
    requires Linked(p, t) && (e.Poll? && e.reading == Good ==> Clean(t, e.inflow))
    ensures Phantoms(Step(p, e).rows)
            == if e.Poll? && t.balance + e.inflow == t.seen then Phantoms(p.rows) + NewRows(p, e) else Phantoms(p.rows)
  {
    if e.Poll? && e.reading == Good {
      GoodSums(p, e.inflow);
      var rows := Step(p, e).rows;
      if |rows| > |p.rows| {
        assert NewRows(p, e) == [rows[|p.rows|]];
      } else {
        assert NewRows(p, e) == [];
      }
    } else {
      assert NewRows(p, e) == [];
    }
  }

  lemma {:induction false} RepeatsOfMore(chain: string, asset: string, events: seq<Event>)
    requires events != []
    ensures var front, e := events[..|events| - 1], events[|events| - 1];
            var p, t := Run(chain, asset, front), TruthOf(front);
            && Run(chain, asset, events) == Step(p, e)
            && Repeats(chain, asset, events) ==
                 if e.Poll? && t.balance + e.inflow == t.seen then Repeats(chain, asset, front) + NewRows(p, e)
                 else Repeats(chain, asset, front)
  {}

  /** In a clean history the rows flagged are exactly those that announce no new money. */
  lemma {:induction false} FlaggedAreTheRepeats(chain: string, asset: string, events: seq<Event>)
    requires AllClean(events)
    ensures Phantoms(Run(chain, asset, events).rows) == Repeats(chain, asset, events)
  {
    if events != [] {
      var front, e := events[..|events| - 1], events[|events| - 1];
      FlaggedAreTheRepeats(chain, asset, front);
      CleanStaysLinked(chain, asset, front);
      FlaggedByStep(Run(chain, asset, front), TruthOf(front), e);
      RepeatsOfMore(chain, asset, events);
    }
  }

  // ---------------------------------------------------------------- the documented criterion

  /** The header's wording: previous is zero, and an earlier row already reported at least this balance. */
  predicate Documented(rows: seq<Row>, i: nat)
    requires i < |rows|
  {
    rows[i].previous == Some(0) && exists j :: 0 <= j < i && rows[j].current >= rows[i].current
  }

  predicate FlaggedAt(rows: seq<Row>, i: nat)
    requires i < |rows|
  {
    IsPhantom(rows[i], Known(rows[..i]))
  }

  predicate Agree(rows: seq<Row>) {
    forall i :: 0 <= i < |rows| ==> (FlaggedAt(rows, i) <==> Documented(rows, i))
  }

  predicate Reported(rows: seq<Row>, seen: nat) {
    && (forall j :: 0 <= j < |rows| ==> rows[j].current <= seen)
    && (seen > 0 ==> exists j :: 0 <= j < |rows| && rows[j].current == seen)
  }

  lemma {:induction false} AgreeOneMore(rows: seq<Row>, row: Row)
    requires Agree(rows)
    requires IsPhantom(row, Known(rows)) <==>
              row.previous == Some(0) && exists j :: 0 <= j < |rows| && rows[j].current >= row.current
    ensures Agree(rows + [row])
  {
    var all := rows + [row];
    forall i | 0 <= i < |all| ensures FlaggedAt(all, i) <==> Documented(all, i) {
      assert all[..i] == rows[..i];
      if i < |rows| {
        assert FlaggedAt(rows, i) <==> Documented(rows, i);
      } else {
        assert rows[..i] == rows;
        assert forall j :: 0 <= j < i ==> all[j] == rows[j];
      }
    }
  }

  lemma {:induction false} AgreeStep(p: Poller, t: Truth, e: Event)
    requires Linked(p, t) && (e.Poll? && e.reading == Good ==> Clean(t, e.inflow))
    requires Agree(p.rows) && Reported(p.rows, t.seen)
    ensures Agree(Step(p, e).rows) && Reported(Step(p, e).rows, Advance(t, e).seen)
  {
    if e.Poll? && e.reading == Good {
      var current := p.balance + e.inflow;
      var rows := Step(p, e).rows;
      if rows != p.rows {
        var row := rows[|p.rows|];
        assert rows == p.rows + [row] && row.current == current;
        AgreeOneMore(p.rows, row);
        assert rows[|p.rows|].current == current;
      }
    }
  }

  /** In a clean history the running total and the documented criterion flag the same rows. */
  lemma {:induction false} DocumentedCriterionAgrees(chain: string, asset: string, events: seq<Event>)
    requires AllClean(events)
    ensures Agree(Run(chain, asset, events).rows) && Reported(Run(chain, asset, events).rows, TruthOf(events).seen)
  {
    if events != [] {
      var front, e := events[..|events| - 1], events[|events| - 1];
      DocumentedCriterionAgrees(chain, asset, front);
      CleanStaysLinked(chain, asset, front);
      AgreeStep(Run(chain, asset, front), TruthOf(front), e);
    }
  }

  // ---------------------------------------------------------------- any history: when a row is flagged

  /** What links poller and truth in every history, clean or not. */
  ghost predicate Tracks(p: Poller, t: Truth) {
    && p.balance == t.balance && t.seen <= t.balance
    && p.lastSeen == (match t.mark { case Fresh => None case Zeroed => Some(0) case Settled => Some(t.seen) })
    && 0 <= Known(p.rows) <= Total(p.rows)
    && (Known(p.rows) > 0 ==> t.seen >= MIN_DEPOSIT)
    && forall j :: 0 <= j < |p.rows| ==> p.rows[j].current <= t.seen
  }

  lemma {:induction false} TracksGood(p: Poller, t: Truth, q: Poller, u: Truth)
    requires Tracks(p, t) && u == Truth(t.balance + (q.balance - p.balance), q.balance, Settled, u.repeated)
    requires q.balance >= p.balance && q.lastSeen == Some(q.balance)
    requires q.rows == p.rows
             || (&& |q.rows| == |p.rows| + 1 && q.rows[..|p.rows|] == p.rows && q.rows[|p.rows|].current == q.balance
                 && 0 <= Known(q.rows) <= Total(q.rows) && q.balance >= MIN_DEPOSIT)
    ensures Tracks(q, u)
  {
    assert forall j :: 0 <= j < |p.rows| && |p.rows| < |q.rows| ==> q.rows[j] == q.rows[..|p.rows|][j];
  }

  lemma {:induction false} TracksOther(p: Poller, t: Truth, e: Event)
    requires Tracks(p, t) && (e.Restart? || e.reading != Good)
    ensures Tracks(Step(p, e), Advance(t, e))
  {}

  lemma {:induction false} TracksRun(chain: string, asset: string, events: seq<Event>)
    ensures Tracks(Run(chain, asset, events), TruthOf(events))
  {
    if events != [] {
      var front, e := events[..|events| - 1], events[|events| - 1];
      TracksRun(chain, asset, front);
      var p, t := Run(chain, asset, front), TruthOf(front);
      if e.Poll? && e.reading == Good {
        GoodSums(p, e.inflow);
        TracksGood(p, t, Step(p, e), Advance(t, e));
      } else {
        TracksOther(p, t, e);
      }
    }
  }

  /** The event has written a row, and the code flags it. */
  predicate WritesFlagged(p: Poller, e: Event) {
    |Step(p, e).rows| > |p.rows| && FlaggedAt(Step(p, e).rows, |p.rows|)
  }

  lemma {:induction false} FlaggedReading(p: Poller, t: Truth, inflow: nat)
    requires Tracks(p, t)
    ensures WritesFlagged(p, Poll(inflow, Good)) <==>
              t.mark == Zeroed && 0 < Known(p.rows) && p.balance + inflow <= Known(p.rows)
  {
    GoodSums(p, inflow);
    var rows := Step(p, Poll(inflow, Good)).rows;
    if |rows| > |p.rows| { assert rows[..|p.rows|] == p.rows; }
  }

  /**
   * In every history: an event's row is flagged exactly when it is a good reading behind a zero reading,
   * with a balance not above a positive running total. So new money is flagged exactly when the total had
   * overshot it; the documented criterion never flags new money.
   */
  lemma {:induction false} FlaggedIffBelowTotal(chain: string, asset: string, events: seq<Event>, e: Event)
    ensures var p, t := Run(chain, asset, events), TruthOf(events);
            && (WritesFlagged(p, e) <==>
                  && e.Poll? && e.reading == Good && t.mark == Zeroed
                  && 0 < Known(p.rows) && t.balance + e.inflow <= Known(p.rows))
            && (e.Poll? && t.balance + e.inflow > t.seen && |Step(p, e).rows| > |p.rows| ==>
                  !Documented(Step(p, e).rows, |p.rows|))
  {
    var p, t := Run(chain, asset, events), TruthOf(events);
    TracksRun(chain, asset, events);
    if e.Poll? && e.reading == Good {
      FlaggedReading(p, t, e.inflow);
      GoodSums(p, e.inflow);
    }
  }

  /**
   * In every history: a row that announces old money alone again goes unflagged exactly when it does not
   * stand behind a zero reading, or the running total has fallen behind the money seen.
   */
  lemma {:induction false} RepeatUnflaggedIff(chain: string, asset: string, events: seq<Event>)
    ensures var p, t := Run(chain, asset, events), TruthOf(events);
            var e := Poll(0, Good);
            t.balance == t.seen && |Step(p, e).rows| > |p.rows| ==>
              (!WritesFlagged(p, e) <==> t.mark != Zeroed || Known(p.rows) < t.seen)
  {
    var p, t := Run(chain, asset, events), TruthOf(events);
    TracksRun(chain, asset, events);
    FlaggedReading(p, t, 0);
    GoodSums(p, 0);
  }

  lemma {:induction false} OutageSteps(p: Poller, inflow: nat)
    requires 0 < Known(p.rows) && MIN_DEPOSIT <= p.balance + inflow && p.lastSeen.Some? && p.lastSeen.value >= 0
    ensures var q := Step(Step(p, Poll(0, ZeroRead)), Poll(inflow, Good));
            && q.balance == p.balance + inflow && q.lastSeen == Some(q.balance)
            && q.rows == p.rows + [Row(Decimal(|p.rows|), p.chain, p.asset, Some(0), q.balance, q.balance)]
            && Known(q.rows) == Known(p.rows) + if q.balance <= Known(p.rows) then 0 else q.balance
  {
    var zeroed := p.(lastSeen := Some(0));
    assert Step(p, Poll(0, ZeroRead)) == zeroed;
    GoodSums(zeroed, inflow);
  }

  /** An outage and the next good reading: the whole balance is announced, from zero. */
  lemma {:induction false} AfterOutage(chain: string, asset: string, events: seq<Event>, inflow: nat)
    requires var p := Run(chain, asset, events);
             0 < Known(p.rows) && MIN_DEPOSIT <= p.balance + inflow && p.lastSeen.Some? && p.lastSeen.value >= 0
    ensures var p, q := Run(chain, asset, events), Run(chain, asset, events + [Poll(0, ZeroRead), Poll(inflow, Good)]);
            && q.balance == p.balance + inflow && q.lastSeen == Some(q.balance)
            && q.rows == p.rows + [Row(Decimal(|p.rows|), chain, asset, Some(0), q.balance, q.balance)]
            && Known(q.rows) == Known(p.rows) + if q.balance <= Known(p.rows) then 0 else q.balance
  {
    RunTwoMore(chain, asset, events, Poll(0, ZeroRead), Poll(inflow, Good));
    RunIsOn(chain, asset, events);
    OutageSteps(Run(chain, asset, events), inflow);
  }

  lemma {:induction false} RunTwoMore(chain: string, asset: string, events: seq<Event>, first: Event, second: Event)
    ensures Run(chain, asset, events + [first, second]) == Step(Step(Run(chain, asset, events), first), second)
  {
    var one, two := events + [first], events + [first, second];
    assert one[..|one| - 1] == events && two[..|two| - 1] == one;
  }

  lemma {:induction false} RunIsOn(chain: string, asset: string, events: seq<Event>)
    ensures Run(chain, asset, events).chain == chain && Run(chain, asset, events).asset == asset
  {
    if events != [] { RunIsOn(chain, asset, events[..|events| - 1]); }
  }

  /**
   * Outside clean histories it can cost real money: two outages that each hide a deposit make the
   * running total overshoot, and the second deposit is flagged although the documented criterion does
   * not call it old and it is not: the balance went up.
   */
  lemma {:induction false} OutagesHideADeposit(chain: string, asset: string)
    ensures var before := [Poll(20_000, Good)] + [Poll(0, ZeroRead), Poll(20_000, Good)];
            var after := before + [Poll(0, ZeroRead), Poll(15_000, Good)];
            var p, q := Run(chain, asset, before), Run(chain, asset, after);
            && |p.rows| == 2 && |q.rows| == 3 && q.balance > p.balance == p.rows[1].current
            && FlaggedAt(q.rows, 2) && !Documented(q.rows, 2)
  {
    var first := [Poll(20_000, Good)];
    var before := first + [Poll(0, ZeroRead), Poll(20_000, Good)];
    var after := before + [Poll(0, ZeroRead), Poll(15_000, Good)];
    assert first[..0] == [];
    GoodSums(Run(chain, asset, []), 20_000);
    AfterOutage(chain, asset, first, 20_000);
    AfterOutage(chain, asset, before, 15_000);
    assert Run(chain, asset, after).rows[..2] == Run(chain, asset, before).rows;
  }
  /**
   * And old money can be counted twice: a deposit below the minimum leaves the running total behind, and
   * the whole balance announced behind an outage is called real.
   */
  lemma {:induction false} OutageCountsMoneyTwice(chain: string, asset: string, a: nat, b: nat)
    requires a >= MIN_DEPOSIT > b > 0
    ensures var before := [Poll(a, Good), Poll(b, Good)];
            var p, q := Run(chain, asset, before), Run(chain, asset, before + [Poll(0, ZeroRead), Poll(0, Good)]);
            && |p.rows| == 1 && |q.rows| == 2 && q.balance == p.balance == TruthOf(before).seen == a + b
            && q.rows[1].amount == a + b && !FlaggedAt(q.rows, 1) && Known(q.rows) == a + (a + b)
  {
    var before := [Poll(a, Good), Poll(b, Good)];
    var after := before + [Poll(0, ZeroRead), Poll(0, Good)];
    SmallDepositUnseen(chain, asset, a, b);
    AfterOutage(chain, asset, before, 0);
    assert Run(chain, asset, after).rows[..1] == Run(chain, asset, before).rows;
  }

  lemma {:induction false} OneEventMore(chain: string, asset: string, events: seq<Event>, e: Event)
    ensures Run(chain, asset, events + [e]) == Step(Run(chain, asset, events), e)
    ensures TruthOf(events + [e]) == Advance(TruthOf(events), e)
  {
    assert (events + [e])[..|events + [e]| - 1] == events;
  }

  /** A first deposit is announced from one cent on. */
  lemma {:induction false} OneCentIsAnnounced(p: Poller, a: nat)
    requires p.balance == 0 && p.lastSeen == None && p.rows == []
    ensures |Step(p, Poll(a, Good)).rows| == if a >= 10_000 then 1 else 0
  {
    assert Total(p.rows) == 0;
    GoodStep(p, a);
  }

  lemma {:induction false} DepositFromNothing(p: Poller, a: nat)
    requires a >= MIN_DEPOSIT && p.balance == 0 && p.lastSeen == None && p.rows == []
    ensures var q := Step(p, Poll(a, Good));
            q.balance == a && q.lastSeen == Some(a) && |q.rows| == 1 && Known(q.rows) == a
  {
    assert Known(p.rows) == 0 && Total(p.rows) == 0;
    GoodStep(p, a);
    GoodSums(p, a);
  }

  lemma {:induction false} FirstDeposit(chain: string, asset: string, a: nat)
    requires a >= MIN_DEPOSIT
    ensures var p := Run(chain, asset, [Poll(a, Good)]);
            p.balance == a && p.lastSeen == Some(a) && |p.rows| == 1 && Known(p.rows) == a
    ensures TruthOf([Poll(a, Good)]) == Truth(a, a, Settled, false)
  {
    OneEventMore(chain, asset, [], Poll(a, Good));
    assert [] + [Poll(a, Good)] == [Poll(a, Good)];
    DepositFromNothing(Run(chain, asset, []), a);
  }

  lemma {:induction false} SmallDepositUnseen(chain: string, asset: string, a: nat, b: nat)
    requires a >= MIN_DEPOSIT > b > 0
    ensures var events := [Poll(a, Good), Poll(b, Good)];
            var p := Run(chain, asset, events);
            && p.balance == a + b && p.lastSeen == Some(a + b) && TruthOf(events).seen == a + b
            && |p.rows| == 1 && Known(p.rows) == a
  {
    FirstDeposit(chain, asset, a);
    OneEventMore(chain, asset, [Poll(a, Good)], Poll(b, Good));
    assert [Poll(a, Good)] + [Poll(b, Good)] == [Poll(a, Good), Poll(b, Good)];
    GoodStep(Run(chain, asset, [Poll(a, Good)]), b);
  }
}
