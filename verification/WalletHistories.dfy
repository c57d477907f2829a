/** Whole request histories of the wallet stub: what lasts, who owns an answer, what the listings show. */
module WalletHistories {
  import opened Sequences
  import opened Wrappers
  import opened WalletStub

  /** One request: a valid store stays valid, wallets are only appended, no key is rebound, nothing crashes. */
  lemma {:induction false} RequestKeepsValid(s: Store, balances: map<string, seq<string>>, r: Request)
    requires Valid(s)
    ensures var (t, response) := Handle(s, balances, r);
            && Valid(t) && response != Crashed && s.created <= t.created
            && forall k :: k in s.keys ==> k in t.keys && t.keys[k] == s.keys[k]
  {
    if r.Post? {
      if IsReplay(s, r.key) {
        ReplayedPost(s, r.customer, r.key, r.chain);
      } else if r.chain != "" {
        FirstPost(s, r.customer, r.key, r.chain);
      }
    }
  }

  lemma {:induction false} LookupSurvives(created: seq<Wallet>, more: seq<Wallet>, id: string)
    requires Stored(created, id)
    ensures Lookup(created + more, id) == Lookup(created, id)
  {
    if created[0].id != id {
      assert (created + more)[1..] == created[1..] + more;
      var i :| 0 <= i < |created| && created[i].id == id;
      assert created[1..][i - 1].id == id;
      LookupSurvives(created[1..], more, id);
    }
  }

  function StoreAfter(s: Store, balances: map<string, seq<string>>, history: seq<Request>): Store
    decreases |history|
  {
    if history == [] then s
    else StoreAfter(Handle(s, balances, history[0]).0, balances, history[1..])
  }

  /** Whatever was asked: the store stays valid, wallets are only appended, and no key is ever rebound. */
  lemma {:induction false} HistoryOnlyGrows(s: Store, balances: map<string, seq<string>>, history: seq<Request>)
    requires Valid(s)
    ensures var t := StoreAfter(s, balances, history);
            && Valid(t) && s.created <= t.created
            && forall k :: k in s.keys ==> k in t.keys && t.keys[k] == s.keys[k]
    decreases |history|
  {
    if history != [] {
      RequestKeepsValid(s, balances, history[0]);
      HistoryOnlyGrows(Handle(s, balances, history[0]).0, balances, history[1..]);
    }
  }

  /** A post that is answered leaves its key bound to the wallet in the answer. */
  lemma {:induction false} BoundAfterPost(s: Store, customer: string, key: string, chain: string)
    requires Valid(s) && key != "" && PostWallet(s, customer, key, chain).1.Created?
    ensures var (t, response) := PostWallet(s, customer, key, chain);
            Valid(t) && key in t.keys && Lookup(t.created, t.keys[key]).Some?
              && response == Created(Show(Lookup(t.created, t.keys[key]).value))
  {
    if IsReplay(s, key) {
      ReplayedPost(s, customer, key, chain);
    } else {
      FirstPost(s, customer, key, chain);
      var t := PostWallet(s, customer, key, chain).0;
      assert t.created[|s.created|] == NewWallet(s, customer, chain);
      LookupIs(t.created, |s.created|);
    }
  }

  lemma {:induction false} AnswersAlike(s1: Store, s2: Store, key: string, customer: string, chain: string)
    requires Valid(s1) && Valid(s2) && s1.created <= s2.created
    requires IsReplay(s1, key) && key in s2.keys && s2.keys[key] == s1.keys[key]
    ensures Lookup(s1.created, s1.keys[key]).Some?
    ensures PostWallet(s2, customer, key, chain) == (s2, Created(Show(Lookup(s1.created, s1.keys[key]).value)))
  {
    LookupFinds(s1.created, s1.keys[key]);
    assert s2.created == s1.created + s2.created[|s1.created|..];
    LookupSurvives(s1.created, s2.created[|s1.created|..], s1.keys[key]);
    ReplayedPost(s2, customer, key, chain);
  }

  /**
   * Two posts with one key, whatever comes between them and whoever makes the second: the same
   * wallet answers and nothing is created.
   */
  lemma {:induction false} SameKeySameWallet(s: Store, balances: map<string, seq<string>>, key: string,
      customer: string, chain: string, between: seq<Request>, customer2: string, chain2: string)
    requires Valid(s) && key != ""
    requires PostWallet(s, customer, key, chain).1.Created?
    ensures var (s1, first) := PostWallet(s, customer, key, chain);
            var s2 := StoreAfter(s1, balances, between);
            PostWallet(s2, customer2, key, chain2) == (s2, first)
  {
    BoundAfterPost(s, customer, key, chain);
    var s1 := PostWallet(s, customer, key, chain).0;
    HistoryOnlyGrows(s1, balances, between);
    AnswersAlike(s1, StoreAfter(s1, balances, between), key, customer2, chain2);
  }

  lemma {:induction false} AnswerIsStored(s: Store, customer: string, key: string, chain: string)
    requires Valid(s) && PostWallet(s, customer, key, chain).1.Created?
    ensures var (s1, first) := PostWallet(s, customer, key, chain);
            var found := Lookup(s1.created, first.wallet.id);
            Valid(s1) && Stored(s1.created, first.wallet.id) && found.Some? && Show(found.value) == first.wallet
  {
    if IsReplay(s, key) {
      ReplayedPost(s, customer, key, chain);
      LookupFinds(s.created, s.keys[key]);
    } else {
      FirstPost(s, customer, key, chain);
      var s1 := PostWallet(s, customer, key, chain).0;
      LookupIs(s1.created, |s.created|);
      LookupFinds(s1.created, s1.created[|s.created|].id);
    }
  }

  lemma {:induction false} LookupEverAfter(s: Store, balances: map<string, seq<string>>, between: seq<Request>,
                                           id: string)
    requires Valid(s) && Stored(s.created, id)
    ensures Lookup(StoreAfter(s, balances, between).created, id) == Lookup(s.created, id)
  {
    HistoryOnlyGrows(s, balances, between);
    var t := StoreAfter(s, balances, between);
    assert t.created == s.created + t.created[|s.created|..];
    LookupSurvives(s.created, t.created[|s.created|..], id);
  }

  /** A wallet once answered can be read under its id ever after, by whoever asks, as it was answered. */
  lemma {:induction false} ReadableEverAfter(s: Store, balances: map<string, seq<string>>, customer: string,
                                             key: string, chain: string, between: seq<Request>, reader: string)
    requires Valid(s) && PostWallet(s, customer, key, chain).1.Created?
    ensures var (s1, first) := PostWallet(s, customer, key, chain);
            var s2 := StoreAfter(s1, balances, between);
            var id := first.wallet.id;
            Handle(s2, balances, Get(reader, id)) ==
              (s2, Detail(first.wallet, if id in balances then balances[id] else []))
  {
    AnswerIsStored(s, customer, key, chain);
    var (s1, first) := PostWallet(s, customer, key, chain);
    LookupEverAfter(s1, balances, between, first.wallet.id);
  }

  /** A key only binds when it is not empty: without one, a repeated post creates another wallet. */
  lemma {:induction false} NoKeyNoReplay(s: Store, customer: string, chain: string)
    requires Valid(s) && chain != ""
    ensures var (s1, first) := PostWallet(s, customer, "", chain);
            var (s2, second) := PostWallet(s1, customer, "", chain);
            first.Created? && second.Created? && first.wallet.id != second.wallet.id && |s2.created| == |s.created| + 2
  {
    FirstPost(s, customer, "", chain);
    var s1 := PostWallet(s, customer, "", chain).0;
    FirstPost(s1, customer, "", chain);
    assert s1.created[|s.created|].id == NextId(s.created);
  }

  // ---------------------------------------------------------------- listings partition the wallets

  lemma {:induction false} ListedExactlyIfOwned(created: seq<Wallet>, customer: string)
    ensures forall w :: w in WalletsOf(created, customer) <==> w in created && w.customer == customer
  {
    if created != [] {
      ListedExactlyIfOwned(created[1..], customer);
      assert forall w :: w in created <==> w == created[0] || w in created[1..];
    }
  }

  function TotalListed(created: seq<Wallet>, customers: seq<string>): nat {
    if customers == [] then 0
    else |WalletsOf(created, customers[0])| + TotalListed(created, customers[1..])
  }

  lemma {:induction false} OneWalletOneListing(w: Wallet, rest: seq<Wallet>, customers: seq<string>)
    requires Distinct(customers)
    ensures TotalListed([w] + rest, customers) ==
              TotalListed(rest, customers) + if w.customer in customers then 1 else 0
  {
    if customers != [] {
      OneWalletOneListing(w, rest, customers[1..]);
      assert ([w] + rest)[1..] == rest;
      assert w.customer in customers <==> w.customer == customers[0] || w.customer in customers[1..];
    }
  }

  /** Where the wallets of a customer stand. */
  function PlacesOf(created: seq<Wallet>, customer: string): (at: seq<nat>)
    ensures forall k :: 0 <= k < |at| ==> at[k] < |created|
  {
    if created == [] then [] else
      var last := |created| - 1;
      PlacesOf(created[..last], customer) + if created[last].customer == customer then [last] else []
  }

  lemma {:induction false} WalletsOfAppend(front: seq<Wallet>, w: Wallet, customer: string)
    ensures WalletsOf(front + [w], customer) == WalletsOf(front, customer) + if w.customer == customer then [w] else []
  {
    if front == [] {
      assert front + [w] == [w] && [w][1..] == [];
    } else {
      assert (front + [w])[0] == front[0] && (front + [w])[1..] == front[1..] + [w];
      WalletsOfAppend(front[1..], w, customer);
    }
  }

  lemma {:induction false} WalletsStandInOrder(created: seq<Wallet>, customer: string)
    ensures var at, ws := PlacesOf(created, customer), WalletsOf(created, customer);
            && |at| == |ws| && (forall k :: 0 <= k < |at| ==> ws[k] == created[at[k]])
            && (forall j, k :: 0 <= j < k < |at| ==> at[j] < at[k])
            && (forall p :: 0 <= p < |created| ==> (p in at <==> created[p].customer == customer))
  {
    if created != [] {
      var front, w := created[..|created| - 1], created[|created| - 1];
      WalletsStandInOrder(front, customer);
      WalletsOfAppend(front, w, customer);
      assert created == front + [w];
    }
  }

  /**
   * What the server answers to a listing: it changes nothing and shows each wallet of that customer once,
   * in the order of creation, and no other.
   */
  lemma {:induction false} ListingAnswers(s: Store, balances: map<string, seq<string>>, customer: string)
    returns (at: seq<nat>)
    ensures var (t, response) := Handle(s, balances, List(customer));
            && t == s && response.Listing? && |response.wallets| == |at|
            && (forall k :: 0 <= k < |at| ==> at[k] < |s.created|)
            && (forall k :: 0 <= k < |at| ==>
                  var w := s.created[at[k]]; response.wallets[k] == View(w.id, w.chain, w.address))
    ensures forall j, k :: 0 <= j < k < |at| ==> at[j] < at[k]
    ensures forall p :: 0 <= p < |s.created| ==> (p in at <==> s.created[p].customer == customer)
  {
    at := PlacesOf(s.created, customer);
    WalletsStandInOrder(s.created, customer);
  }

  /** What it answers to anything but a listing and a post that creates: the wallet of that id, or an error. */
  lemma {:induction false} OtherAnswers(s: Store, balances: map<string, seq<string>>, customer: string, key: string,
                                        id: string)
    requires Valid(s)
    ensures (forall p :: 0 <= p < |s.created| ==> s.created[p].id != id) ==>
              Handle(s, balances, Get(customer, id)) == (s, NotFound)
    ensures forall p :: 0 <= p < |s.created| && s.created[p].id == id ==>
              Handle(s, balances, Get(customer, id)) ==
                (s, Detail(View(id, s.created[p].chain, s.created[p].address),
                           if id in balances then balances[id] else []))
    ensures key == "" || key !in s.keys ==> Handle(s, balances, Post(customer, key, "")) == (s, ChainRequired)
  {
    LookupFinds(s.created, id);
    forall p | 0 <= p < |s.created| && s.created[p].id == id ensures Lookup(s.created, id) == Some(s.created[p]) {
      LookupIs(s.created, p);
    }
  }

  lemma {:induction false} WalletsPartition(created: seq<Wallet>, customers: seq<string>)
    requires Distinct(customers)
    requires forall i :: 0 <= i < |created| ==> created[i].customer in customers
    ensures TotalListed(created, customers) == |created|
    ensures forall c, w :: w in WalletsOf(created, c) <==> w in created && w.customer == c
  {
    forall c ensures forall w :: w in WalletsOf(created, c) <==> w in created && w.customer == c {
      ListedExactlyIfOwned(created, c);
    }
    if created == [] {
      NothingListed(customers);
    } else {
      forall i | 0 <= i < |created[1..]| ensures created[1..][i].customer in customers {
        assert created[1..][i] == created[i + 1];
      }
      WalletsPartition(created[1..], customers);
      assert [created[0]] + created[1..] == created;
      OneWalletOneListing(created[0], created[1..], customers);
    }
  }

  /** How many wallets the answers to these listings show. */
  function TotalShown(s: Store, balances: map<string, seq<string>>, customers: seq<string>): nat {
    if customers == [] then 0 else
      var shown := match Handle(s, balances, List(customers[0])).1 { case Listing(vs) => |vs| case _ => 0 };
      shown + TotalShown(s, balances, customers[1..])
  }

  lemma {:induction false} ShownIsListed(s: Store, balances: map<string, seq<string>>, customers: seq<string>)
    ensures TotalShown(s, balances, customers) == TotalListed(s.created, customers)
  {
    if customers != [] { ShownIsListed(s, balances, customers[1..]); }
  }

  /**
   * The answers to the listings of all owners, each asked once after any history, show every wallet
   * created once: it is in the listing of its own customer and in no other, and the counts add up.
   */
  lemma {:induction false} ListingsPartition(balances: map<string, seq<string>>, history: seq<Request>,
                                             customers: seq<string>)
    requires Distinct(customers)
    requires var created := StoreAfter(Store([], map[]), balances, history).created;
             forall i :: 0 <= i < |created| ==> created[i].customer in customers
    ensures var s := StoreAfter(Store([], map[]), balances, history);
            && TotalShown(s, balances, customers) == |s.created|
            && forall c, p :: 0 <= p < |s.created| ==>
                 (Handle(s, balances, List(c)).1.Listing?
                  && ((exists v :: v in Handle(s, balances, List(c)).1.wallets && v.id == s.created[p].id)
                      <==> s.created[p].customer == c))
  {
    var s := StoreAfter(Store([], map[]), balances, history);
    HistoryOnlyGrows(Store([], map[]), balances, history);
    ShownIsListed(s, balances, customers);
    WalletsPartition(s.created, customers);
    forall c, p | 0 <= p < |s.created|
      ensures (exists v :: v in Handle(s, balances, List(c)).1.wallets && v.id == s.created[p].id)
              <==> s.created[p].customer == c
    {
      ShownIffOwned(s, balances, c, p);
    }
  }

  lemma {:induction false} ShownIffOwned(s: Store, balances: map<string, seq<string>>, c: string, p: nat)
    requires Valid(s) && p < |s.created|
    ensures Handle(s, balances, List(c)).1.Listing?
    ensures (exists v :: v in Handle(s, balances, List(c)).1.wallets && v.id == s.created[p].id)
            <==> s.created[p].customer == c
  {
    var at := ListingAnswers(s, balances, c);
    var shown := Handle(s, balances, List(c)).1.wallets;
    if v :| v in shown && v.id == s.created[p].id {
      var k :| 0 <= k < |shown| && shown[k] == v;
      SameIdSamePlace(s.created, at[k], p);
    }
    if s.created[p].customer == c {
      var k :| 0 <= k < |at| && at[k] == p;
      assert shown[k] in shown;
    }
  }

  lemma {:induction false} NothingListed(customers: seq<string>)
    ensures TotalListed([], customers) == 0
  {
    if customers != [] { NothingListed(customers[1..]); }
  }

  // ---------------------------------------------------------------- whose wallet answers

  /** Every key in use is the one its wallet's owner builds, for a hyphen-free chain. */
  ghost predicate KeysTellOwners(s: Store) {
    forall k, i :: k in s.keys && 0 <= i < |s.created| && s.created[i].id == s.keys[k] ==>
      k == KeyFor(s.created[i].customer, s.created[i].chain) && '-' !in s.created[i].chain
  }

  ghost predicate Disciplined(r: Request) {
    r.Post? ==> r.key == KeyFor(r.customer, r.chain) && '-' !in r.chain
  }

  lemma {:induction false} DisciplinedRequest(s: Store, balances: map<string, seq<string>>, r: Request)
    requires Valid(s) && KeysTellOwners(s) && Disciplined(r)
    ensures KeysTellOwners(Handle(s, balances, r).0)
  {
    if r.Post? {
      if IsReplay(s, r.key) {
        ReplayedPost(s, r.customer, r.key, r.chain);
      } else if r.chain != "" {
        FirstPost(s, r.customer, r.key, r.chain);
        var t, n := Handle(s, balances, r).0, |s.created|;
        forall k, i | k in t.keys && 0 <= i < |t.created| && t.created[i].id == t.keys[k]
          ensures k == KeyFor(t.created[i].customer, t.created[i].chain) && '-' !in t.created[i].chain
        {
          if k == r.key {
            SameIdSamePlace(t.created, i, n);
          } else {
            var j :| 0 <= j < n && s.created[j].id == s.keys[k];
            SameIdSamePlace(t.created, i, j);
          }
        }
      }
    }
  }

  lemma {:induction false} DisciplinedHistory(s: Store, balances: map<string, seq<string>>, history: seq<Request>)
    requires Valid(s) && KeysTellOwners(s)
    requires forall i :: 0 <= i < |history| ==> Disciplined(history[i])
    ensures Valid(StoreAfter(s, balances, history)) && KeysTellOwners(StoreAfter(s, balances, history))
    decreases |history|
  {
    if history != [] {
      DisciplinedRequest(s, balances, history[0]);
      RequestKeepsValid(s, balances, history[0]);
      DisciplinedHistory(Handle(s, balances, history[0]).0, balances, history[1..]);
    }
  }

  ghost predicate Owns(s: Store, customer: string, chain: string, shown: View) {
    exists i :: 0 <= i < |s.created| && Show(s.created[i]) == shown
                && s.created[i].customer == customer && s.created[i].chain == chain
  }

  lemma {:induction false} OwnWallet(s: Store, customer: string, chain: string)
    requires Valid(s) && KeysTellOwners(s) && '-' !in chain && chain != ""
    ensures var (t, response) := PostWallet(s, customer, KeyFor(customer, chain), chain);
            response.Created? && Owns(t, customer, chain, response.wallet)
  {
    var key := KeyFor(customer, chain);
    assert key != "";
    var t := PostWallet(s, customer, key, chain).0;
    if IsReplay(s, key) {
      ReplayedPost(s, customer, key, chain);
      LookupFinds(s.created, s.keys[key]);
      var i :| 0 <= i < |s.created| && s.created[i] == Lookup(s.created, s.keys[key]).value;
      KeyForIsInjective(s.created[i].customer, s.created[i].chain, customer, chain);
    } else {
      FirstPost(s, customer, key, chain);
      assert t.created[|s.created|] == NewWallet(s, customer, chain);
    }
  }

  /**
   * When every post so far carried the deterministic key for a hyphen-free chain, a post answers
   * with a wallet of that very customer on that very chain, replayed or not.
   */
  lemma {:induction false} AnsweredWithOwnWallet(balances: map<string, seq<string>>, history: seq<Request>,
                                                 customer: string, chain: string)
    requires forall i :: 0 <= i < |history| ==> Disciplined(history[i])
    requires '-' !in chain && chain != ""
    ensures var s := StoreAfter(Store([], map[]), balances, history);
            var (t, response) := PostWallet(s, customer, KeyFor(customer, chain), chain);
            response.Created? && Owns(t, customer, chain, response.wallet)
  {
    DisciplinedHistory(Store([], map[]), balances, history);
    OwnWallet(StoreAfter(Store([], map[]), balances, history), customer, chain);
  }

  /** The answer shows a wallet of this customer. */
  ghost predicate Belongs(s: Store, customer: string, shown: View) {
    exists i :: 0 <= i < |s.created| && Show(s.created[i]) == shown && s.created[i].customer == customer
  }

  lemma {:induction false} BelongsIffOwner(s: Store, i: nat, customer: string)
    requires Numbered(s.created) && i < |s.created|
    ensures Belongs(s, customer, Show(s.created[i])) <==> s.created[i].customer == customer
  {
    forall j | 0 <= j < |s.created| && Show(s.created[j]) == Show(s.created[i]) ensures j == i {
      SameIdSamePlace(s.created, i, j);
    }
  }

  /**
   * In general: a post that names a chain is answered with a wallet of the caller exactly when its key is
   * not a replay, or was first used for a wallet of the same customer.
   */
  lemma {:induction false} AnsweredWithOwnWalletIff(s: Store, customer: string, key: string, chain: string)
    requires Valid(s) && chain != ""
    ensures IsReplay(s, key) ==> Lookup(s.created, s.keys[key]).Some?
    ensures var (t, response) := PostWallet(s, customer, key, chain);
            && response.Created?
            && (Belongs(t, customer, response.wallet) <==>
                  !IsReplay(s, key) || Lookup(s.created, s.keys[key]).value.customer == customer)
  {
    if IsReplay(s, key) {
      ReplayedPost(s, customer, key, chain);
      LookupFinds(s.created, s.keys[key]);
      var i :| 0 <= i < |s.created| && s.created[i] == Lookup(s.created, s.keys[key]).value;
      BelongsIffOwner(s, i, customer);
    } else {
      FirstPost(s, customer, key, chain);
      BelongsIffOwner(PostWallet(s, customer, key, chain).0, |s.created|, customer);
    }
  }

  /** For instance: a key first used for one customer answers another with a foreign wallet. */
  lemma {:induction false} SharedKeyLeaksAWallet(key: string, owner: string, other: string, chain: string)
    requires key != "" && owner != other && chain != ""
    ensures var s := PostWallet(Store([], map[]), owner, key, chain).0;
            var (t, response) := PostWallet(s, other, key, chain);
            response.Created? && t == s && |t.created| == 1
              && Show(t.created[0]) == response.wallet && t.created[0].customer == owner
  {
    var empty := Store([], map[]);
    FirstPost(empty, owner, key, chain);
    SameKeySameWallet(empty, map[], key, owner, chain, [], other, chain);
  }
}
