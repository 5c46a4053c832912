/** The rows the trading backend keeps in its database (the Prisma models
    Wallet, ContractPosition, ContractSessionControl, User and
    VerificationCode) and one object holding all tables. Money is an exact
    decimal, modelled as `real`; time is a millisecond clock, modelled as `int`. */
module Store {
  import opened Common

  datatype Side = BuyUp | BuyDown
  datatype Outcome = Win | Loss
  datatype Status = Open | Closed

  /** The single USDT wallet of a user. */
  datatype Wallet = Wallet(available: real, locked: real)

  /** A binary contract. The last four fields are filled in only when the
      position is settled. */
  datatype Position = Position(
    id: nat,
    userId: nat,
    symbol: string,
    side: Side,
    entryPrice: real,
    amount: real,
    duration: int,
    profitability: Option<real>,
    expectedProfit: real,
    expectedPayout: real,
    status: Status,
    expiresAt: int,
    createdAt: int,
    exitPrice: Option<real>,
    result: Option<Outcome>,
    actualProfit: Option<real>,
    closedAt: Option<int>)

  /** A "session control": an administrator's forced outcome for the next
      settlement. `required` is true while it has not been consumed. */
  datatype Control = Control(id: nat, final: Outcome, required: bool, createdAt: int)

  /** An account; `passwordHash` is the bcrypt hash of the password. */
  datatype User = User(id: nat, email: string, passwordHash: string, uid: string)

  datatype VerificationCode = VerificationCode(email: string, code: string, expiresAt: int, createdAt: int)

  /** The three tables the contract engine reads and writes. */
  datatype Ledger = Ledger(wallets: map<nat, Wallet>, positions: seq<Position>, controls: seq<Control>)

  /** `available` of a user's wallet; a missing wallet is created with 0. */
  function Available(wallets: map<nat, Wallet>, user: nat): real {
    if user in wallets then wallets[user].available else 0.0
  }

  /** The wallet row found by `findUnique`, or the one `create` would insert. */
  function WalletOrNew(wallets: map<nat, Wallet>, user: nat): (w: Wallet)
    ensures w.available == Available(wallets, user)
  {
    if user in wallets then wallets[user] else Wallet(0.0, 0.0)
  }

  /** The tables account registration and the e-mail codes use. */
  datatype Directory = Directory(users: seq<User>, codes: seq<VerificationCode>, wallets: map<nat, Wallet>)

  /** Adds `amount` to a user's `available`, creating the wallet first if absent. */
  function Credit(wallets: map<nat, Wallet>, user: nat, amount: real): (w: map<nat, Wallet>)
    ensures user in w && w.Keys == wallets.Keys + {user}
    ensures Available(w, user) == Available(wallets, user) + amount
    ensures forall u :: u in wallets && u != user ==> w[u] == wallets[u]
  {
    var row := WalletOrNew(wallets, user);
    wallets[user := row.(available := row.available + amount)]
  }

  /** Row ids are their positions in the table. */
  predicate IdsIndexed(db: Ledger) {
    && (forall i :: 0 <= i < |db.positions| ==> db.positions[i].id == i)
    && (forall i :: 0 <= i < |db.controls| ==> db.controls[i].id == i)
  }

  /** Controls are inserted in creation order. */
  predicate ControlsChronological(controls: seq<Control>) {
    forall i, j :: 0 <= i < j < |controls| ==> controls[i].createdAt <= controls[j].createdAt
  }

  predicate HasOpen(positions: seq<Position>, user: nat) {
    exists i :: 0 <= i < |positions| && positions[i].userId == user && positions[i].status == Open
  }

  /** The one-open-position-per-user rule. */
  predicate AtMostOneOpen(positions: seq<Position>) {
    forall i, j :: 0 <= i < j < |positions| && positions[i].status == Open && positions[j].status == Open
      ==> positions[i].userId != positions[j].userId
  }

  /** The database behind all request handlers. */
  class Database {
    var wallets: map<nat, Wallet>
    var positions: seq<Position>
    var controls: seq<Control>
    var users: seq<User>
    var codes: seq<VerificationCode>

    ghost predicate Valid()
      reads this
    {
      && IdsIndexed(Contract())
      && ControlsChronological(controls)
      && (forall i :: 0 <= i < |users| ==> users[i].id == i)
    }

    /** The contract engine's tables. */
    function Contract(): Ledger
      reads this
    {
      Ledger(wallets, positions, controls)
    }

    /** The account tables. */
    function Accounts(): Directory
      reads this
    {
      Directory(users, codes, wallets)
    }

    constructor ()
      ensures Valid()
      ensures wallets == map[] && positions == [] && controls == [] && users == [] && codes == []
    {
      wallets, positions, controls, users, codes := map[], [], [], [], [];
    }
  }
}
