/**
 The two tables the invite routes work on, as values: the InviteCodePool rows
 in storage order, and the query primitives the routes build from the ORM
 (`filter(...)`, `.first()`, `.exists()`, `.values_list("code", flat=True)`).
 */
module InvitePool {

  datatype Option<T> = None | Some(value: T)

  /** One row of InviteCodePool. The foreign keys to UserAddress (`creator_user`,
      `used_user`) are represented by the address string they point at. */
  datatype InviteCode = InviteCode(
    code: string,
    creator: Option<string>,
    creatorType: string,
    isUsed: bool,
    usedUser: Option<string>)

  /** The InviteCodePool table, in storage order. */
  type Pool = seq<InviteCode>

  // ---------------------------------------------------------------------------
  // The keyword filters the routes pass to `InviteCodePool.filter(...)`

  /** `filter(code=c)` */
  function HasCode(c: string): (keep: InviteCode -> bool)
    ensures forall x :: keep(x) <==> x.code == c
  {
    (x: InviteCode) => x.code == c
  }

  /** `filter(code=c, is_used=False)` */
  function UnusedWithCode(c: string): (keep: InviteCode -> bool)
    ensures forall x :: keep(x) <==> x.code == c && !x.isUsed
  {
    (x: InviteCode) => x.code == c && !x.isUsed
  }

  /** `filter(used_user__address=a)` */
  function RedeemedBy(a: string): (keep: InviteCode -> bool)
    ensures forall x :: keep(x) <==> x.usedUser == Some(a)
  {
    (x: InviteCode) => x.usedUser == Some(a)
  }

  /** `filter(creator_user__address=a, is_used=False)` */
  function UnusedCreatedBy(a: string): (keep: InviteCode -> bool)
    ensures forall x :: keep(x) <==> x.creator == Some(a) && !x.isUsed
  {
    (x: InviteCode) => x.creator == Some(a) && !x.isUsed
  }

  // ---------------------------------------------------------------------------
  // Query primitives

  /** The rows that satisfy `keep`, in storage order. */
  function Filter(pool: Pool, keep: InviteCode -> bool): (r: Pool)
    ensures |r| <= |pool|
    ensures forall x :: x in r <==> x in pool && keep(x)
  {
    if pool == [] then []
    else
      assert pool == [pool[0]] + pool[1..];
      if keep(pool[0]) then [pool[0]] + Filter(pool[1..], keep)
      else Filter(pool[1..], keep)
  }

  /** Index i holds the first row (in storage order) that satisfies `keep`. */
  predicate IsFirst(pool: Pool, keep: InviteCode -> bool, i: int) {
    0 <= i < |pool| && keep(pool[i]) && forall j :: 0 <= j < i ==> !keep(pool[j])
  }

  /** `.first()` on a filtered query: the index of the first matching row, if any. */
  function First(pool: Pool, keep: InviteCode -> bool): (r: Option<nat>)
    ensures r.None? <==> forall j :: 0 <= j < |pool| ==> !keep(pool[j])
    ensures r.Some? ==> IsFirst(pool, keep, r.value)
  {
    if pool == [] then None
    else if keep(pool[0]) then Some(0)
    else match First(pool[1..], keep)
      case None => None
      case Some(i) =>
        assert forall j :: 1 <= j <= i ==> pool[j] == pool[1..][j - 1];
        Some(i + 1)
  }

  /** `.values_list("code", flat=True)`: the code of each row, row by row. */
  function Codes(rows: Pool): (codes: seq<string>)
    ensures |codes| == |rows|
    ensures forall k :: 0 <= k < |rows| ==> codes[k] == rows[k].code
  {
    if rows == [] then [] else [rows[0].code] + Codes(rows[1..])
  }

  // ---------------------------------------------------------------------------
  // Table invariants

  /** A row is marked used exactly when it names a redeemer. */
  predicate Consistent(pool: Pool) {
    forall i :: 0 <= i < |pool| ==> (pool[i].isUsed <==> pool[i].usedUser.Some?)
  }

  /** UserAddress holds at most one row per address string. */
  predicate Distinct(addresses: seq<string>) {
    forall i, j :: 0 <= i < j < |addresses| ==> addresses[i] != addresses[j]
  }

  /** Every creator and redeemer a row refers to is a registered address. */
  predicate Referenced(pool: Pool, addresses: seq<string>) {
    forall i :: 0 <= i < |pool| ==>
      (pool[i].creator.Some? ==> pool[i].creator.value in addresses) &&
      (pool[i].usedUser.Some? ==> pool[i].usedUser.value in addresses)
  }

  /** At most one row carries code c (the model does not assume a unique constraint). */
  predicate CodeUnique(pool: Pool, c: string) {
    forall i, j :: 0 <= i < |pool| && 0 <= j < |pool| && pool[i].code == c && pool[j].code == c ==> i == j
  }

  // ---------------------------------------------------------------------------
  // Lemmas about the primitives

  /** Filtering distributes over concatenation: the filter keeps storage order. */
  lemma {:induction false} FilterAppend(a: Pool, b: Pool, keep: InviteCode -> bool)
    ensures Filter(a + b, keep) == Filter(a, keep) + Filter(b, keep)
  {
    if a == [] {
      assert a + b == b;
    } else {
      assert (a + b)[1..] == a[1..] + b;
      FilterAppend(a[1..], b, keep);
    }
  }

  /** A filter every row passes returns the rows unchanged. */
  lemma {:induction false} FilterAll(rows: Pool, keep: InviteCode -> bool)
    requires forall j :: 0 <= j < |rows| ==> keep(rows[j])
    ensures Filter(rows, keep) == rows
  {
    if rows != [] {
      FilterAll(rows[1..], keep);
    }
  }

  /** A filter no row passes returns nothing. */
  lemma {:induction false} FilterNone(rows: Pool, keep: InviteCode -> bool)
    requires forall j :: 0 <= j < |rows| ==> !keep(rows[j])
    ensures Filter(rows, keep) == []
  {
    if rows != [] {
      FilterNone(rows[1..], keep);
    }
  }

  /** `.first()` is the head of the filtered query. */
  lemma {:induction false} FirstIsHeadOfFilter(pool: Pool, keep: InviteCode -> bool)
    requires First(pool, keep).Some?
    ensures |Filter(pool, keep)| > 0
    ensures Filter(pool, keep)[0] == pool[First(pool, keep).value]
  {
    if !keep(pool[0]) {
      FirstIsHeadOfFilter(pool[1..], keep);
    }
  }

  /** `values_list` of a concatenation is the concatenation of the lists. */
  lemma {:induction false} CodesAppend(a: Pool, b: Pool)
    ensures Codes(a + b) == Codes(a) + Codes(b)
  {
    if a == [] {
      assert a + b == b;
    } else {
      assert (a + b)[1..] == a[1..] + b;
      CodesAppend(a[1..], b);
    }
  }
}
