/**
 * A database table as a sequence of rows, with the two things the ORM's
 * `save()` relies on: insert-or-update by primary key, and the unique
 * constraints of columns declared `unique=True`.
 */
module Tables {
  import opened Selection

  /** A write the database refused because it broke a unique column. */
  datatype IntegrityError = UniqueViolation(column: string)

  predicate HasKey<T>(rows: seq<T>, k: nat, key: T -> nat) {
    exists i :: 0 <= i < |rows| && key(rows[i]) == k
  }

  /** No two rows share a primary key. */
  predicate KeysUnique<T>(rows: seq<T>, key: T -> nat) {
    forall i, j :: 0 <= i < j < |rows| ==> key(rows[i]) != key(rows[j])
  }

  /** No two rows share a value in the column `col`. */
  predicate ColumnUnique<T>(rows: seq<T>, col: T -> string) {
    forall i, j :: 0 <= i < j < |rows| ==> col(rows[i]) != col(rows[j])
  }

  /** Writing `x` would give it the same `col` value as another row: the database refuses the write. */
  predicate Clashes<T>(rows: seq<T>, x: T, key: T -> nat, col: T -> string) {
    exists i :: 0 <= i < |rows| && key(rows[i]) != key(x) && col(rows[i]) == col(x)
  }

  /** `save()`: replace the row with the same primary key, or append a new row. */
  function Upsert<T>(rows: seq<T>, x: T, key: T -> nat): (r: seq<T>)
    ensures x in r
    ensures forall y :: y in r ==> y == x || y in rows
    ensures forall y :: y in rows && key(y) != key(x) ==> y in r
    ensures HasKey(rows, key(x), key) ==> |r| == |rows|
    ensures !HasKey(rows, key(x), key) ==> r == rows + [x]
  {
    if rows == [] then [x]
    else if key(rows[0]) == key(x) then
      assert HasKey(rows, key(x), key);
      [x] + rows[1..]
    else
      var r := Upsert(rows[1..], x, key);
      assert HasKey(rows, key(x), key) <==> HasKey(rows[1..], key(x), key) by {
        if HasKey(rows, key(x), key) {
          var i :| 0 <= i < |rows| && key(rows[i]) == key(x);
          assert key(rows[1..][i - 1]) == key(x);
        }
        if HasKey(rows[1..], key(x), key) {
          var i :| 0 <= i < |rows| - 1 && key(rows[1..][i]) == key(x);
          assert key(rows[i + 1]) == key(x);
        }
      }
      [rows[0]] + r
  }

  lemma ConsKeysUnique<T>(y: T, rows: seq<T>, key: T -> nat)
    requires KeysUnique(rows, key)
    requires forall z :: z in rows ==> key(z) != key(y)
    ensures KeysUnique([y] + rows, key)
  {
    var s := [y] + rows;
    forall i, j | 0 <= i < j < |s| ensures key(s[i]) != key(s[j]) {
      assert s[j] == rows[j - 1];
      if i > 0 { assert s[i] == rows[i - 1]; }
    }
  }

  lemma ConsColumnUnique<T>(y: T, rows: seq<T>, col: T -> string)
    requires ColumnUnique(rows, col)
    requires forall z :: z in rows ==> col(z) != col(y)
    ensures ColumnUnique([y] + rows, col)
  {
    var s := [y] + rows;
    forall i, j | 0 <= i < j < |s| ensures col(s[i]) != col(s[j]) {
      assert s[j] == rows[j - 1];
      if i > 0 { assert s[i] == rows[i - 1]; }
    }
  }

  lemma TailKeysUnique<T>(rows: seq<T>, key: T -> nat)
    requires rows != [] && KeysUnique(rows, key)
    ensures KeysUnique(rows[1..], key)
    ensures forall z :: z in rows[1..] ==> key(z) != key(rows[0])
  {
    forall z | z in rows[1..] ensures key(z) != key(rows[0]) {
      var j :| 0 <= j < |rows| - 1 && rows[1..][j] == z;
      assert rows[j + 1] == z;
    }
  }

  lemma TailColumnUnique<T>(rows: seq<T>, col: T -> string)
    requires rows != [] && ColumnUnique(rows, col)
    ensures ColumnUnique(rows[1..], col)
    ensures forall z :: z in rows[1..] ==> col(z) != col(rows[0])
  {
    forall z | z in rows[1..] ensures col(z) != col(rows[0]) {
      var j :| 0 <= j < |rows| - 1 && rows[1..][j] == z;
      assert rows[j + 1] == z;
    }
  }

  /** Upserting keeps primary keys unique, and the written row is the only one with its key. */
  lemma {:induction false} UpsertKeepsKeysUnique<T>(rows: seq<T>, x: T, key: T -> nat)
    requires KeysUnique(rows, key)
    ensures KeysUnique(Upsert(rows, x, key), key)
    ensures forall y :: y in Upsert(rows, x, key) && key(y) == key(x) ==> y == x
  {
    if rows != [] {
      TailKeysUnique(rows, key);
      if key(rows[0]) == key(x) {
        ConsKeysUnique(x, rows[1..], key);
      } else {
        UpsertKeepsKeysUnique(rows[1..], x, key);
        ConsKeysUnique(rows[0], Upsert(rows[1..], x, key), key);
      }
    }
  }

  /** A write that does not clash keeps the column unique. */
  lemma {:induction false} UpsertKeepsColumnUnique<T>(rows: seq<T>, x: T, key: T -> nat, col: T -> string)
    requires KeysUnique(rows, key) && ColumnUnique(rows, col)
    requires !Clashes(rows, x, key, col)
    ensures ColumnUnique(Upsert(rows, x, key), col)
  {
    if rows != [] {
      TailKeysUnique(rows, key);
      TailColumnUnique(rows, col);
      if key(rows[0]) == key(x) {
        forall z | z in rows[1..] ensures col(z) != col(x) {
          var j :| 0 <= j < |rows| - 1 && rows[1..][j] == z;
          assert rows[j + 1] == z;
        }
        ConsColumnUnique(x, rows[1..], col);
      } else {
        UpsertKeepsColumnUnique(rows[1..], x, key, col);
        forall z | z in Upsert(rows[1..], x, key) ensures col(z) != col(rows[0]) {
          if z == x {
            assert key(rows[0]) != key(x);
          }
        }
        ConsColumnUnique(rows[0], Upsert(rows[1..], x, key), col);
      }
    }
  }

  /** `delete()`: remove the row with primary key `k`. */
  function Delete<T>(rows: seq<T>, k: nat, key: T -> nat): (r: seq<T>)
    ensures forall y :: y in r ==> y in rows && key(y) != k
    ensures forall y :: y in rows && key(y) != k ==> y in r
  {
    Select(rows, (y: T) => key(y) != k)
  }
}
