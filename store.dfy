/** The in-memory stand-in for the two repositories: each table is a sequence
    of rows in insertion order, keyed by a numeric id. */
module Store {
  import opened Common
  import opened AccountModel
  import opened TransferModel

  // ---------------------------------------------------------------------
  // Tables keyed by a numeric id

  /** No two rows share a key. */
  ghost predicate UniqueKeys<T>(rows: seq<T>, key: T -> nat)
  {
    forall i, j :: 0 <= i < j < |rows| ==> key(rows[i]) != key(rows[j])
  }

  /** `findById`: the row with key `k`, if any. */
  function FindById<T(!new)>(rows: seq<T>, key: T -> nat, k: nat): (r: Option<T>)
    ensures r.Some? ==> r.value in rows && key(r.value) == k
    ensures r.None? <==> forall x :: x in rows ==> key(x) != k
  {
    if rows == [] then None
    else if key(rows[0]) == k then Some(rows[0])
    else FindById(rows[1..], key, k)
  }

  /** `save` of an entity that is already stored: the row with the same key
      is overwritten and every other row is kept where it was. */
  function Replace<T>(rows: seq<T>, key: T -> nat, row: T): (r: seq<T>)
    ensures |r| == |rows|
    ensures forall i :: 0 <= i < |rows| ==> r[i] == if key(rows[i]) == key(row) then row else rows[i]
  {
    if rows == [] then []
    else [if key(rows[0]) == key(row) then row else rows[0]] + Replace(rows[1..], key, row)
  }

  /** `deleteById`: every row with key `k` is dropped, the others keep their order. */
  function Remove<T(!new)>(rows: seq<T>, key: T -> nat, k: nat): (r: seq<T>)
    ensures forall x :: x in r <==> x in rows && key(x) != k
  {
    if rows == [] then []
    else (if key(rows[0]) == k then [] else [rows[0]]) + Remove(rows[1..], key, k)
  }

  /** Under unique keys, `FindById` yields exactly the row that carries the key. */
  lemma FindByIdAt<T(!new)>(rows: seq<T>, key: T -> nat, i: nat)
    requires UniqueKeys(rows, key) && i < |rows|
    ensures FindById(rows, key, key(rows[i])) == Some(rows[i])
  {
    var r := FindById(rows, key, key(rows[i]));
    assert rows[i] in rows;
    var j :| 0 <= j < |rows| && rows[j] == r.value;
    assert i == j;
  }

  /** Under unique keys, saving a row whose key sits at position `i` is the
      point update of position `i`. */
  lemma ReplaceAt<T>(rows: seq<T>, key: T -> nat, i: nat, row: T)
    requires UniqueKeys(rows, key) && i < |rows| && key(rows[i]) == key(row)
    ensures Replace(rows, key, row) == rows[i := row]
  {
  }

  /** A point update that keeps the key keeps the keys unique. */
  lemma UpdateKeepsUniqueKeys<T>(rows: seq<T>, key: T -> nat, i: nat, row: T)
    requires UniqueKeys(rows, key) && i < |rows| && key(row) == key(rows[i])
    ensures UniqueKeys(rows[i := row], key)
  {
    var r := rows[i := row];
    forall p, q | 0 <= p < q < |r| ensures key(r[p]) != key(r[q]) {
      assert key(r[p]) == key(rows[p]) && key(r[q]) == key(rows[q]);
    }
  }

  /** A key no row carries is removed without effect. */
  lemma {:induction false} RemoveAbsent<T(!new)>(rows: seq<T>, key: T -> nat, k: nat)
    requires forall x :: x in rows ==> key(x) != k
    ensures Remove(rows, key, k) == rows
  {
    if rows != [] {
      assert rows[0] in rows;
      assert forall x :: x in rows[1..] ==> x in rows;
      RemoveAbsent(rows[1..], key, k);
      assert rows == [rows[0]] + rows[1..];
    }
  }

  /** Under unique keys, deleting the key at position `i` cuts out exactly that row. */
  lemma {:induction false} RemoveAt<T(!new)>(rows: seq<T>, key: T -> nat, i: nat)
    requires UniqueKeys(rows, key) && i < |rows|
    ensures Remove(rows, key, key(rows[i])) == Cut(rows, i)
  {
    var k := key(rows[i]);
    if i == 0 {
      forall x | x in rows[1..] ensures key(x) != k {
        var j :| 0 <= j < |rows[1..]| && rows[1..][j] == x;
        assert rows[j + 1] == x;
      }
      RemoveAbsent(rows[1..], key, k);
    } else {
      assert UniqueKeys(rows[1..], key) by {
        forall a, b | 0 <= a < b < |rows[1..]| ensures key(rows[1..][a]) != key(rows[1..][b]) {
          assert rows[1..][a] == rows[a + 1] && rows[1..][b] == rows[b + 1];
        }
      }
      assert key(rows[0]) != k;
      assert rows[1..][i - 1] == rows[i];
      RemoveAt(rows[1..], key, i - 1);
      assert rows[..i] == [rows[0]] + rows[1..][..i - 1];
      assert rows[i + 1..] == rows[1..][i..];
    }
  }

  /** A sequence with position `i` cut out. */
  function Cut<T>(rows: seq<T>, i: nat): (r: seq<T>)
    requires i < |rows|
    ensures |r| == |rows| - 1
    ensures forall k :: 0 <= k < i ==> r[k] == rows[k]
    ensures forall k :: i <= k < |r| ==> r[k] == rows[k + 1]
  {
    rows[..i] + rows[i + 1..]
  }

  // ---------------------------------------------------------------------
  // The accounts table

  /** The key of the accounts table. */
  function AccountKey(a: AccountRow): nat
  {
    a.id
  }

  /** Account numbers are unique across the table. */
  ghost predicate UniqueAccountNumbers(rows: seq<AccountRow>)
  {
    forall i, j :: 0 <= i < j < |rows| ==> rows[i].accountNumber != rows[j].accountNumber
  }

  /** `findByAccountNumber`: the first row with that number, if any. */
  function FindByAccountNumber(rows: seq<AccountRow>, number: string): (r: Option<AccountRow>)
    ensures r.Some? ==> r.value in rows && r.value.accountNumber == number
    ensures r.None? <==> forall a :: a in rows ==> a.accountNumber != number
  {
    if rows == [] then None
    else if rows[0].accountNumber == number then Some(rows[0])
    else FindByAccountNumber(rows[1..], number)
  }

  /** Under unique numbers, the lookup by number yields exactly the row carrying it. */
  lemma FindByAccountNumberAt(rows: seq<AccountRow>, i: nat)
    requires UniqueAccountNumbers(rows) && i < |rows|
    ensures FindByAccountNumber(rows, rows[i].accountNumber) == Some(rows[i])
  {
    var r := FindByAccountNumber(rows, rows[i].accountNumber);
    assert rows[i] in rows;
    var j :| 0 <= j < |rows| && rows[j] == r.value;
    assert i == j;
  }

  /** The sum of all balances: the funds the ledger holds. */
  function TotalBalance(rows: seq<AccountRow>): Money
  {
    if rows == [] then 0 else rows[0].balance + TotalBalance(rows[1..])
  }

  /** Overwriting one row changes the total by that row's change of balance. */
  lemma {:induction false} TotalBalanceUpdate(rows: seq<AccountRow>, i: nat, row: AccountRow)
    requires i < |rows|
    ensures TotalBalance(rows[i := row]) == TotalBalance(rows) - rows[i].balance + row.balance
  {
    if i == 0 {
      assert rows[i := row][1..] == rows[1..];
    } else {
      assert rows[i := row][1..] == rows[1..][i - 1 := row];
      TotalBalanceUpdate(rows[1..], i - 1, row);
    }
  }

  // ---------------------------------------------------------------------
  // The transfers table

  /** The key of the transfers table. */
  function TransferKey(t: TransferRow): nat
  {
    t.id
  }

  /** Which account reference a derived query matches on. */
  datatype Side = Source | Destination

  /** The account reference on the given side of a transfer. */
  function AccountOn(t: TransferRow, side: Side): Option<AccountId>
  {
    match side
    case Source => t.sourceAccountId
    case Destination => t.destinationAccountId
  }

  /** `findBySourceAccountId` / `findByDestinationAccountId`: the transfers
      whose reference on `side` is `id`, in table order. */
  function FindByAccount(ts: seq<TransferRow>, side: Side, id: AccountId): (r: seq<TransferRow>)
    ensures |r| <= |ts|
    ensures forall t :: t in r <==> t in ts && AccountOn(t, side) == Some(id)
  {
    if ts == [] then []
    else (if AccountOn(ts[0], side) == Some(id) then [ts[0]] else []) + FindByAccount(ts[1..], side, id)
  }

  /** Transfer ids increase along the table: the store's natural order. */
  ghost predicate AscendingIds(ts: seq<TransferRow>)
  {
    forall i, j :: 0 <= i < j < |ts| ==> ts[i].id < ts[j].id
  }

  /** A derived query keeps the table's order. */
  lemma {:induction false} FindByAccountKeepsOrder(ts: seq<TransferRow>, side: Side, id: AccountId)
    requires AscendingIds(ts)
    ensures AscendingIds(FindByAccount(ts, side, id))
  {
    if ts != [] {
      assert AscendingIds(ts[1..]) by {
        forall a, b | 0 <= a < b < |ts[1..]| ensures ts[1..][a].id < ts[1..][b].id {
          assert ts[1..][a] == ts[a + 1] && ts[1..][b] == ts[b + 1];
        }
      }
      FindByAccountKeepsOrder(ts[1..], side, id);
      var rest := FindByAccount(ts[1..], side, id);
      forall t | t in rest ensures ts[0].id < t.id {
        var j :| 0 <= j < |ts[1..]| && ts[1..][j] == t;
        assert ts[j + 1] == t;
      }
    }
  }
}
