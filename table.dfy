/** A relational table with an auto-increment primary key, as an in-memory sequence of rows. */
module Table {
  import opened Common

  /** One row: its primary key `id` and the rest of its columns. */
  datatype Row<T> = Row(id: int, data: T)

  /** Keys strictly ascend, so no key repeats; every well-keyed table has this. */
  predicate KeysAscending<T>(t: seq<Row<T>>)
  {
    forall i, j :: 0 <= i < j < |t| ==> t[i].id < t[j].id
  }

  /** Rows sit in primary-key order, every key was handed out by the
      auto-increment counter (1 up to `next` - 1), and no key repeats. */
  predicate WellKeyed<T>(t: seq<Row<T>>, next: int)
  {
    && next >= 1
    && (forall i :: 0 <= i < |t| ==> 1 <= t[i].id < next)
    && KeysAscending(t)
  }

  /** `SELECT ... WHERE id = ?` returns a row. */
  predicate HasKey<T>(t: seq<Row<T>>, id: int)
  {
    exists i :: 0 <= i < |t| && t[i].id == id
  }

  /** The position of the first row whose key is `id`, if any. */
  function Find<T>(t: seq<Row<T>>, id: int): (r: Option<nat>)
    ensures r.None? <==> !HasKey(t, id)
    ensures r.Some? ==> r.value < |t| && t[r.value].id == id
    ensures r.Some? ==> forall i :: 0 <= i < r.value ==> t[i].id != id
  {
    if |t| == 0 then None
    else if t[0].id == id then Some(0)
    else match Find(t[1..], id)
      case None => None
      case Some(k) => Some(k + 1)
  }

  /** In a well-keyed table no other row shares the key of row `i`. */
  lemma KeyOnlyAt<T>(t: seq<Row<T>>, next: int, i: nat)
    requires i < |t|
    ensures WellKeyed(t, next) ==> forall k :: 0 <= k < |t| && t[k].id == t[i].id ==> k == i
  {
  }

  /** `DELETE FROM t WHERE id = ?`: every row with key `id` is removed, the others keep their order. */
  function Without<T(==, !new)>(t: seq<Row<T>>, id: int): (r: seq<Row<T>>)
    ensures |r| <= |t|
    ensures forall x :: x in r <==> x in t && x.id != id
    ensures !HasKey(t, id) ==> r == t
    ensures HasKey(t, id) ==> |r| < |t|
  {
    if |t| == 0 then []
    else if t[0].id == id then Without(t[1..], id)
    else [t[0]] + Without(t[1..], id)
  }

  /** Dropping the first row keeps a table well keyed. */
  lemma TailWellKeyed<T>(t: seq<Row<T>>, next: int)
    requires WellKeyed(t, next) && |t| > 0
    ensures WellKeyed(t[1..], next)
  {
    forall i, j | 0 <= i < j < |t[1..]|
      ensures t[1..][i].id < t[1..][j].id
    {
      assert t[1..][i] == t[i + 1] && t[1..][j] == t[j + 1];
    }
  }

  /** A row whose key is below every key of a well-keyed table may be put in front of it. */
  lemma ConsWellKeyed<T>(x: Row<T>, rest: seq<Row<T>>, next: int)
    requires WellKeyed(rest, next) && 1 <= x.id < next
    requires forall j :: 0 <= j < |rest| ==> x.id < rest[j].id
    ensures WellKeyed([x] + rest, next)
  {
    var r := [x] + rest;
    forall i, j | 0 <= i < j < |r|
      ensures r[i].id < r[j].id
    {
      assert r[j] == rest[j - 1];
      if i > 0 {
        assert r[i] == rest[i - 1];
      }
    }
  }

  /** Every row left by `Without` on the rest of a well-keyed table has a key above its first row's. */
  lemma WithoutAboveHead<T(!new)>(t: seq<Row<T>>, id: int, next: int)
    requires WellKeyed(t, next) && |t| > 0
    ensures forall j :: 0 <= j < |Without(t[1..], id)| ==> t[0].id < Without(t[1..], id)[j].id
  {
    var rest := Without(t[1..], id);
    forall j | 0 <= j < |rest|
      ensures t[0].id < rest[j].id
    {
      assert rest[j] in t[1..];
      var k :| 0 <= k < |t[1..]| && t[1..][k] == rest[j];
      assert t[k + 1] == rest[j];
    }
  }

  /** Removing rows keeps a table well keyed. */
  lemma {:induction false} WithoutWellKeyed<T(!new)>(t: seq<Row<T>>, id: int, next: int)
    requires WellKeyed(t, next)
    ensures WellKeyed(Without(t, id), next)
  {
    if |t| > 0 {
      TailWellKeyed(t, next);
      WithoutWellKeyed(t[1..], id, next);
      if t[0].id != id {
        WithoutAboveHead(t, id, next);
        ConsWellKeyed(t[0], Without(t[1..], id), next);
      }
    }
  }
}
