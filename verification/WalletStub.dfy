/** The wallet endpoints of the Bridge stub: create under an idempotency key, list, read one. */
module WalletStub {
  import opened Wrappers
  import opened Text

  datatype Wallet = Wallet(id: string, customer: string, chain: string, address: string)

  /** What a response shows of a wallet. */
  datatype View = View(id: string, chain: string, address: string)

  function Show(w: Wallet): View {
    View(w.id, w.chain, w.address)
  }

  /** `created` in insertion order, and `idempotency`. */
  datatype Store = Store(created: seq<Wallet>, keys: map<string, string>)

  /** An absent header or body field is the empty string: the handler only tests truthiness. */
  datatype Request =
    | Post(customer: string, key: string, chain: string)
    | List(customer: string)
    | Get(customer: string, id: string)

  datatype Response =
    | Created(wallet: View)
    | Listing(wallets: seq<View>)
    | Detail(wallet: View, balances: seq<string>)
    | ChainRequired
    | NotFound
    | Crashed

  function AddressOn(chain: string): string {
    if chain == "solana" then "9kV3ZMehKVyxfHKCcaDLye3P9HHw2MP4jtQa2gKBUmCs"
    else if chain == "base" then "0x7a4f1B2c9E8d3A6b5C4d2E1f0A9b8C7d6E5f4A3b"
    else if chain == "ethereum" then "0x1F2e3D4c5B6a7988776655443322110AaBbCcDd0"
    else "0xdeadbeef"
  }

  /** Known chains have their own address, in the form of that chain; all others share one. */
  lemma {:induction false} AddressForms(chain: string)
    ensures AddressOn(chain) == "0xdeadbeef" <==> chain != "solana" && chain != "base" && chain != "ethereum"
    ensures |AddressOn(chain)| == 42 <==> chain == "base" || chain == "ethereum"
    ensures AddressOn("base") != AddressOn("ethereum")
  {
    assert AddressOn("base")[2] == '7' && AddressOn("ethereum")[2] == '1';
  }

  function NextId(created: seq<Wallet>): string {
    "bw_" + Decimal(|created| + 1)
  }

  function Lookup(created: seq<Wallet>, id: string): Option<Wallet> {
    if created == [] then None
    else if created[0].id == id then Some(created[0])
    else Lookup(created[1..], id)
  }

  /** `Map.set`: a known id keeps its place, a new one goes last. */
  function MapSet(created: seq<Wallet>, w: Wallet): seq<Wallet> {
    if created == [] then [w]
    else if created[0].id == w.id then [w] + created[1..]
    else [created[0]] + MapSet(created[1..], w)
  }

  function WalletsOf(created: seq<Wallet>, customer: string): seq<Wallet> {
    if created == [] then []
    else if created[0].customer == customer then [created[0]] + WalletsOf(created[1..], customer)
    else WalletsOf(created[1..], customer)
  }

  function ShowAll(ws: seq<Wallet>): (vs: seq<View>)
    ensures |vs| == |ws|
    ensures forall i :: 0 <= i < |ws| ==> vs[i] == Show(ws[i])
  {
    seq(|ws|, i requires 0 <= i < |ws| => Show(ws[i]))
  }

  function PostWallet(s: Store, customer: string, key: string, chain: string): (Store, Response) {
    if key != "" && key in s.keys then
      match Lookup(s.created, s.keys[key])
      case None => (s, Crashed)
      case Some(w) => (s, Created(Show(w)))
    else if chain == "" then (s, ChainRequired)
    else
      var w := Wallet(NextId(s.created), customer, chain, AddressOn(chain));
      (Store(MapSet(s.created, w), if key != "" then s.keys[key := w.id] else s.keys), Created(Show(w)))
  }

  function Handle(s: Store, balances: map<string, seq<string>>, r: Request): (Store, Response) {
    match r
    case Post(customer, key, chain) => PostWallet(s, customer, key, chain)
    case List(customer) => (s, Listing(ShowAll(WalletsOf(s.created, customer))))
    case Get(_, id) =>
      match Lookup(s.created, id)
      case None => (s, NotFound)
      case Some(w) => (s, Detail(Show(w), if id in balances then balances[id] else []))
  }

  /** The server: it records every request and updates its maps. */
  class Server {
    var created: seq<Wallet>
    var idempotency: map<string, string>
    var requests: seq<Request>
    const balances: map<string, seq<string>>

    constructor (balances: map<string, seq<string>>)
      ensures Contents() == Store([], map[]) && requests == [] && this.balances == balances
    {
      created, idempotency, requests := [], map[], [];
      this.balances := balances;
    }

    function Contents(): Store
      reads this
    {
      Store(created, idempotency)
    }

    method Serve(r: Request) returns (response: Response)
      modifies this
      ensures (Contents(), response) == Handle(old(Contents()), balances, r)
      ensures requests == old(requests) + [r]
    {
      requests := requests + [r];
      match r {
        case Post(customer, key, chain) =>
          if key != "" && key in idempotency {
            match Lookup(created, idempotency[key]) {
              case None => return Crashed;
              case Some(w) => return Created(Show(w));
            }
          }
          if chain == "" {
            return ChainRequired;
          }
          var w := Wallet(NextId(created), customer, chain, AddressOn(chain));
          created := MapSet(created, w);
          if key != "" {
            idempotency := idempotency[key := w.id];
          }
          return Created(Show(w));
        case List(customer) =>
          return Listing(ShowAll(WalletsOf(created, customer)));
        case Get(_, id) =>
          match Lookup(created, id) {
            case None => return NotFound;
            case Some(w) => return Detail(Show(w), if id in balances then balances[id] else []);
          }
      }
    }
  }

  // ---------------------------------------------------------------- what every request keeps

  ghost predicate Numbered(created: seq<Wallet>) {
    forall i :: 0 <= i < |created| ==> created[i].id == "bw_" + Decimal(i + 1)
  }

  ghost predicate Stored(created: seq<Wallet>, id: string) {
    exists i :: 0 <= i < |created| && created[i].id == id
  }

  ghost predicate Valid(s: Store) {
    && Numbered(s.created)
    && forall k :: k in s.keys ==> k != "" && Stored(s.created, s.keys[k])
  }

  lemma {:induction false} SameIdSamePlace(created: seq<Wallet>, i: nat, j: nat)
    requires Numbered(created) && i < |created| && j < |created| && created[i].id == created[j].id
    ensures i == j
  {
    assert created[i].id[3..] == Decimal(i + 1) && created[j].id[3..] == Decimal(j + 1);
    DecimalIsInjective(i + 1, j + 1);
  }

  /** The id about to be allocated names no wallet yet. */
  lemma {:induction false} NextIdIsFresh(created: seq<Wallet>)
    requires Numbered(created)
    ensures !Stored(created, NextId(created))
  {
    forall i | 0 <= i < |created| ensures created[i].id != NextId(created) {
      if created[i].id == NextId(created) {
        assert created[i].id[3..] == Decimal(i + 1) && NextId(created)[3..] == Decimal(|created| + 1);
        DecimalIsInjective(i + 1, |created| + 1);
      }
    }
  }

  lemma {:induction false} MapSetAppends(created: seq<Wallet>, w: Wallet)
    requires !Stored(created, w.id)
    ensures MapSet(created, w) == created + [w]
  {
    if created != [] {
      assert created[0].id != w.id;
      forall i | 0 <= i < |created[1..]| ensures created[1..][i].id != w.id {
        assert created[1..][i] == created[i + 1];
      }
      MapSetAppends(created[1..], w);
    }
  }

  lemma {:induction false} LookupFinds(created: seq<Wallet>, id: string)
    ensures Lookup(created, id).Some? <==> Stored(created, id)
    ensures Lookup(created, id).Some? ==> Lookup(created, id).value in created && Lookup(created, id).value.id == id
  {
    if created != [] {
      LookupFinds(created[1..], id);
      if i :| 0 <= i < |created| && created[i].id == id {
        assert i > 0 ==> created[1..][i - 1] == created[i];
      }
      if i :| 0 <= i < |created[1..]| && created[1..][i].id == id {
        assert created[i + 1].id == id;
      }
    }
  }

  /** With ids numbered, a stored wallet is the one its id finds. */
  lemma {:induction false} LookupIs(created: seq<Wallet>, i: nat)
    requires Numbered(created) && i < |created|
    ensures Lookup(created, created[i].id) == Some(created[i])
  {
    LookupFinds(created, created[i].id);
    var w := Lookup(created, created[i].id).value;
    var j :| 0 <= j < |created| && created[j] == w;
    SameIdSamePlace(created, i, j);
  }

  predicate IsReplay(s: Store, key: string) {
    key != "" && key in s.keys
  }

  function NewWallet(s: Store, customer: string, chain: string): Wallet {
    Wallet(NextId(s.created), customer, chain, AddressOn(chain))
  }

  /** A replayed post changes nothing and answers with the wallet its key names. */
  lemma {:induction false} ReplayedPost(s: Store, customer: string, key: string, chain: string)
    requires Valid(s) && IsReplay(s, key)
    ensures Lookup(s.created, s.keys[key]).Some?
    ensures PostWallet(s, customer, key, chain) == (s, Created(Show(Lookup(s.created, s.keys[key]).value)))
  {
    LookupFinds(s.created, s.keys[key]);
  }

  /**
   * Any other post that names a chain appends one wallet, owned by the caller on that chain,
   * under an id no wallet had, and binds its key to it.
   */
  lemma {:induction false} FirstPost(s: Store, customer: string, key: string, chain: string)
    requires Valid(s) && !IsReplay(s, key) && chain != ""
    ensures !Stored(s.created, NextId(s.created))
    ensures PostWallet(s, customer, key, chain) ==
            (Store(s.created + [NewWallet(s, customer, chain)],
              if key != "" then s.keys[key := NextId(s.created)] else s.keys),
             Created(Show(NewWallet(s, customer, chain))))
    ensures Valid(PostWallet(s, customer, key, chain).0)
  {
    NextIdIsFresh(s.created);
    MapSetAppends(s.created, NewWallet(s, customer, chain));
    AppendKeepsValid(s, key, NewWallet(s, customer, chain));
  }

  lemma {:induction false} AppendKeepsValid(s: Store, key: string, w: Wallet)
    requires Valid(s) && w.id == NextId(s.created)
    ensures Valid(Store(s.created + [w], if key != "" then s.keys[key := w.id] else s.keys))
  {
    StoredSurvives(s.created, [w]);
    assert (s.created + [w])[|s.created|] == w;
  }

  lemma {:induction false} StoredSurvives(created: seq<Wallet>, more: seq<Wallet>)
    ensures forall id :: Stored(created, id) ==> Stored(created + more, id)
  {
    forall id | Stored(created, id) ensures Stored(created + more, id) {
      var i :| 0 <= i < |created| && created[i].id == id;
      assert (created + more)[i] == created[i];
    }
  }

  // ---------------------------------------------------------------- the deterministic key

  const TARGET_CHAIN := "solana"

  /** The idempotency key the repair scripts build. */
  function KeyFor(customer: string, chain: string): string {
    "sivan-wallet-" + customer + "-" + chain
  }

  lemma {:induction false} LastHyphen(a: string, b: string, c: string, d: string)
    requires a + "-" + b == c + "-" + d && '-' !in b && '-' !in d
    ensures a == c && b == d
  {
    var s, t := a + "-" + b, c + "-" + d;
    assert s[|a|] == '-' && forall i :: |a| < i < |s| ==> s[i] == b[i - |a| - 1];
    assert t[|c|] == '-' && forall i :: |c| < i < |t| ==> t[i] == d[i - |c| - 1];
    assert |a| == |c|;
    assert a == s[..|a|] && c == t[..|a|];
    assert b == s[|a| + 1..] && d == t[|a| + 1..];
  }

  /** On chain names without a hyphen the key determines the customer and the chain. */
  lemma {:induction false} KeyForIsInjective(customer: string, chain: string, customer2: string, chain2: string)
    requires KeyFor(customer, chain) == KeyFor(customer2, chain2) && '-' !in chain && '-' !in chain2
    ensures customer == customer2 && chain == chain2
  {
    assert KeyFor(customer, chain)[13..] == customer + "-" + chain;
    assert KeyFor(customer2, chain2)[13..] == customer2 + "-" + chain2;
    LastHyphen(customer, chain, customer2, chain2);
  }
}
