/** The token program: the accounts of one mint and their balances, and sums over finite maps. */
module Ledger {
  import opened Common

  /** A vault belongs to the program and is identified by its side; every other account of the mint,
      a fee account included, is a wallet. */
  datatype Account = Vault(side: Side) | Wallet(id: nat)

  /** The default public key, which stands for no account. */
  const NO_ACCOUNT: Account := Wallet(0)

  type Balances = map<Account, nat>

  // ---------- Sums over maps ----------

  ghost function Total<K(!new)>(m: map<K, nat>): nat
    decreases m.Keys
  {
    if m == map[] then 0
    else
      var k :| k in m;
      m[k] + Total(m - {k})
  }

  /** Any key can be summed first. */
  lemma {:induction false} TotalRemove<K(!new)>(m: map<K, nat>, k: K)
    requires k in m
    ensures Total(m) == m[k] + Total(m - {k})
    decreases m.Keys
  {
    var j :| j in m && Total(m) == m[j] + Total(m - {j});
    if j == k {
    } else {
      TotalRemove(m - {j}, k);
      TotalRemove(m - {k}, j);
      assert m - {j} - {k} == m - {k} - {j};
    }
  }

  lemma TotalUpdate<K(!new)>(m: map<K, nat>, k: K, v: nat)
    requires k in m
    ensures Total(m[k := v]) == Total(m) - m[k] + v
  {
    TotalRemove(m, k);
    TotalRemove(m[k := v], k);
    assert m[k := v] - {k} == m - {k};
  }

  lemma TotalInsert<K(!new)>(m: map<K, nat>, k: K, v: nat)
    requires k !in m
    ensures Total(m[k := v]) == Total(m) + v
  {
    TotalRemove(m[k := v], k);
    assert m[k := v] - {k} == m;
  }

  lemma TotalBounds<K(!new)>(m: map<K, nat>, j: K, k: K)
    requires j in m && k in m && j != k
    ensures m[j] + m[k] <= Total(m)
  {
    TotalRemove(m, j);
    TotalRemove(m - {j}, k);
  }

  lemma {:induction false} ZeroTotal<K(!new)>(m: map<K, nat>)
    requires forall k :: k in m ==> m[k] == 0
    ensures Total(m) == 0
    decreases m.Keys
  {
    if m == map[] {
    } else {
      var k :| k in m;
      TotalRemove(m, k);
      ZeroTotal(m - {k});
    }
  }

  // ---------- Transfers ----------

  function Balance(m: Balances, x: Account): nat {
    if x in m then m[x] else 0
  }

  /** A checked transfer. A transfer from an account to itself only checks the funds. */
  function Transfer(m: Balances, from: Account, to: Account, amount: nat): Result<Balances> {
    var _ :- Require(from in m && to in m, AccountMissing);
    var _ :- Require(amount <= m[from], InsufficientFunds);
    if from == to then Ok(m)
    else
      var credited :- CheckedAdd(m[to], amount, U64_MAX);
      Ok(m[from := m[from] - amount][to := credited])
  }

  /** The program skips transfers of nothing. */
  function TransferIfPositive(m: Balances, from: Account, to: Account, amount: nat): Result<Balances> {
    if amount > 0 then Transfer(m, from, to, amount) else Ok(m)
  }

  /** A transfer moves exactly its amount, touches nothing else and preserves the total. */
  ghost predicate Moved(m: Balances, from: Account, to: Account, amount: nat, m': Balances) {
    && m'.Keys == m.Keys && Total(m') == Total(m)
    && (from == to ==> m' == m)
    && (from != to ==>
          && amount <= Balance(m, from)
          && Balance(m', from) == Balance(m, from) - amount
          && Balance(m', to) == Balance(m, to) + amount)
    && forall x :: x != from && x != to ==> Balance(m', x) == Balance(m, x)
  }

  lemma TransferMoves(m: Balances, from: Account, to: Account, amount: nat)
    ensures Transfer(m, from, to, amount).Ok? ==> Moved(m, from, to, amount, Transfer(m, from, to, amount).value)
  {
    if Transfer(m, from, to, amount).Ok? && from != to {
      TotalUpdate(m, from, m[from] - amount);
      TotalUpdate(m[from := m[from] - amount], to, m[to] + amount);
    }
  }

  lemma OptionalTransferMoves(m: Balances, from: Account, to: Account, amount: nat)
    ensures TransferIfPositive(m, from, to, amount).Ok? ==>
              Moved(m, from, to, amount, TransferIfPositive(m, from, to, amount).value)
  {
    TransferMoves(m, from, to, amount);
  }

  /** What a transfer does to any one balance; to itself, nothing. */
  lemma MovedBalance(m: Balances, from: Account, to: Account, amount: nat, m': Balances, x: Account)
    requires Moved(m, from, to, amount, m')
    ensures Balance(m', x) + (if x == from then amount else 0) == Balance(m, x) + (if x == to then amount else 0)
  {
    hide Total, Balance;
  }

  lemma BalanceBound(m: Balances, x: Account)
    ensures Balance(m, x) <= Total(m)
  {
    if x in m {
      TotalRemove(m, x);
    }
  }

  /** While the mint's supply fits u64 a transfer fails for lack of an account or of funds, and for nothing else. */
  lemma TransferSucceeds(m: Balances, from: Account, to: Account, amount: nat)
    requires Total(m) <= U64_MAX && from in m && to in m
    ensures Transfer(m, from, to, amount).Ok? <==> amount <= m[from]
    ensures amount > m[from] ==> Transfer(m, from, to, amount) == Err(InsufficientFunds)
  {
    if from != to {
      TotalBounds(m, from, to);
    }
  }

  lemma TransferErrors(m: Balances, from: Account, to: Account, amount: nat)
    requires Total(m) <= U64_MAX
    ensures TransferIfPositive(m, from, to, amount).Ok?
            || TransferIfPositive(m, from, to, amount) == Err(AccountMissing)
            || TransferIfPositive(m, from, to, amount) == Err(InsufficientFunds)
    ensures Transfer(m, from, to, amount).Ok?
            || Transfer(m, from, to, amount) == Err(AccountMissing)
            || Transfer(m, from, to, amount) == Err(InsufficientFunds)
  {
    if from in m && to in m {
      TransferSucceeds(m, from, to, amount);
    }
  }

  /** Closing an empty account leaves the total alone. */
  function CloseIfEmpty(m: Balances, x: Account): Balances {
    if Balance(m, x) == 0 then m - {x} else m
  }

  lemma CloseEffect(m: Balances, x: Account)
    ensures Total(CloseIfEmpty(m, x)) == Total(m)
    ensures forall y :: Balance(CloseIfEmpty(m, x), y) == Balance(m, y)
  {
    if x in m {
      TotalRemove(m, x);
    } else {
      assert m - {x} == m;
    }
  }

  /** The accounts of one mint, as the token program keeps them. */
  class Mint {
    var balances: Balances

    constructor (initial: Balances)
      ensures balances == initial
    {
      balances := initial;
    }

    /** `transfer_checked`: on success the balances have moved, on failure nothing has. */
    method TransferChecked(from: Account, to: Account, amount: nat) returns (r: Result<()>)
      modifies this
      ensures match Transfer(old(balances), from, to, amount)
              case Ok(m) => r == Ok(()) && balances == m
              case Err(e) => r == Err(e) && balances == old(balances)
    {
      if from !in balances || to !in balances {
        return Err(AccountMissing);
      }
      if amount > balances[from] {
        return Err(InsufficientFunds);
      }
      if from != to {
        if balances[to] + amount > U64_MAX {
          return Err(MathOverflow);
        }
        balances := balances[from := balances[from] - amount];
        balances := balances[to := balances[to] + amount];
      }
      return Ok(());
    }

    method CloseAccountIfEmpty(x: Account)
      modifies this
      ensures balances == CloseIfEmpty(old(balances), x)
    {
      if x in balances && balances[x] == 0 {
        balances := balances - {x};
      } else {
        assert x !in balances ==> balances - {x} == balances;
      }
    }
  }
}
