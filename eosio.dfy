/** The slice of the EOSIO platform that the quest contracts rely on.

    A `multi_index` table is a map from (scope, primary key) to a row; a
    transaction names the contract's own account and the accounts that
    authorised it.  The table operations are used with this contract:
      - `emplace` aborts if the primary key is already present in that
        (table, scope);
      - `modify` aborts on a missing row and never changes the primary key;
      - `erase` removes the row.
    A failing `check` (or one of the aborts above) aborts the whole
    transaction, and no write of that transaction survives. */
module Eosio {

  /** `uint64_t`, the type of every id and counter in the tables. */
  type U64 = x: int | 0 <= x < 0x1_0000_0000_0000_0000

  /** `eosio::name`: a 64-bit value the contracts only store and compare. */
  type Name = U64

  /** `time_point` / `time_point_sec`: stored and never inspected. */
  type TimePoint = int

  /** Where a row lives in a `multi_index` table: the scope the table was
      opened with and the row's primary key. */
  datatype Key = Key(scope: Name, id: U64)

  /** The context of one action: `_self`, the contract's own account, and
      the accounts whose authority the action carries. */
  datatype Tx = Tx(self: Name, auth: set<Name>)

  /** `require_auth(a)` passes exactly when `a` authorised the action. */
  predicate RequireAuth(tx: Tx, a: Name) {
    a in tx.auth
  }

  /** The context of an inline action sent with
      `permission_level{account, "active"_n}` to the contract itself: the same
      contract, carrying the authority of `account` alone. */
  function Inline(tx: Tx, account: Name): (t: Tx)
    ensures t.self == tx.self
    ensures forall a :: RequireAuth(t, a) <==> a == account
  {
    Tx(tx.self, {account})
  }

  /** What an action does to the tables: it either commits a new state or
      aborts, and an aborted action has no state to offer. */
  datatype Outcome<D> = Commit(db: D) | Abort

  /** How a transaction settles on the chain: the tables hold the committed
      state when the outcome commits (and the action reports `ok`), and are
      left exactly as they were when it aborts. */
  predicate Transacted<D(==)>(r: Outcome<D>, before: D, ok: bool, after: D) {
    && ok == r.Commit?
    && after == (if ok then r.db else before)
  }
}
