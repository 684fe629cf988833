/** What the store does with the `where`, `orderBy: { createdAt: "desc" }`, `skip` and `take`
    arguments of a `findMany` call. A store keeps its rows in insertion order, so that
    creation times ascend along the sequence; newest first is then the matching rows read
    from the back. */
module Query {
  import opened Wrappers

  function Min(a: int, b: int): int {
    if a <= b then a else b
  }

  /** The rows that satisfy `keep`, newest first. */
  function NewestFirst<T>(rows: seq<T>, keep: T -> bool): (r: seq<T>)
    ensures |r| <= |rows|
    ensures forall x :: x in r ==> x in rows && keep(x)
  {
    if rows == [] then []
    else NewestFirst(rows[1..], keep) + (if keep(rows[0]) then [rows[0]] else [])
  }

  /** Each row that satisfies `keep` is returned as many times as it is stored, and no other
      row is returned: the result is the matching rows, each exactly once. */
  lemma {:induction false} NewestFirstCount<T>(rows: seq<T>, keep: T -> bool)
    ensures forall x :: multiset(NewestFirst(rows, keep))[x] == if keep(x) then multiset(rows)[x] else 0
  {
    if rows != [] {
      NewestFirstCount(rows[1..], keep);
      assert rows == [rows[0]] + rows[1..];
    }
  }

  /** Every row that satisfies `keep` is returned. */
  lemma {:induction false} NewestFirstComplete<T>(rows: seq<T>, keep: T -> bool, x: T)
    requires x in rows && keep(x)
    ensures x in NewestFirst(rows, keep)
  {
    if x != rows[0] {
      NewestFirstComplete(rows[1..], keep, x);
    }
  }

  /** The rows are returned in reverse store order: a row stored later comes earlier. */
  lemma {:induction false} NewestFirstReversesOrder<T>(rows: seq<T>, keep: T -> bool, i: nat, j: nat)
    requires i < j < |rows| && keep(rows[i]) && keep(rows[j])
    ensures exists a, b :: 0 <= a < b < |NewestFirst(rows, keep)|
                           && NewestFirst(rows, keep)[a] == rows[j] && NewestFirst(rows, keep)[b] == rows[i]
  {
    var rest := NewestFirst(rows[1..], keep);
    if i == 0 {
      NewestFirstComplete(rows[1..], keep, rows[j]);
      var a :| 0 <= a < |rest| && rest[a] == rows[j];
      var r := NewestFirst(rows, keep);
      assert r == rest + [rows[0]];
      assert r[a] == rows[j] && r[|rest|] == rows[i];
    } else {
      NewestFirstReversesOrder(rows[1..], keep, i - 1, j - 1);
      var a, b :| 0 <= a < b < |rest| && rest[a] == rows[j] && rest[b] == rows[i];
      var r := NewestFirst(rows, keep);
      assert r[..|rest|] == rest;
      assert r[a] == rows[j] && r[b] == rows[i];
    }
  }

  predicate Ascending<T>(rows: seq<T>, key: T -> int) {
    forall i, j :: 0 <= i < j < |rows| ==> key(rows[i]) <= key(rows[j])
  }

  predicate Descending<T>(rows: seq<T>, key: T -> int) {
    forall i, j :: 0 <= i < j < |rows| ==> key(rows[i]) >= key(rows[j])
  }

  /** When the store's creation times ascend, the result is ordered by creation time, descending. */
  lemma {:induction false} NewestFirstDescending<T>(rows: seq<T>, keep: T -> bool, key: T -> int)
    requires Ascending(rows, key)
    ensures Descending(NewestFirst(rows, keep), key)
  {
    if rows != [] {
      NewestFirstDescending(rows[1..], keep, key);
      var rest := NewestFirst(rows[1..], keep);
      forall x | x in rest
        ensures key(rows[0]) <= key(x)
      {
        var k :| 0 <= k < |rows[1..]| && rows[1..][k] == x;
        assert rows[k + 1] == x;
      }
    }
  }

  predicate StrictlyAscending<T>(rows: seq<T>, key: T -> int) {
    forall i, j :: 0 <= i < j < |rows| ==> key(rows[i]) < key(rows[j])
  }

  predicate StrictlyDescending<T>(rows: seq<T>, key: T -> int) {
    forall i, j :: 0 <= i < j < |rows| ==> key(rows[i]) > key(rows[j])
  }

  /** When no two stored rows share a creation time, the result is strictly descending by
      creation time, which is the only order `orderBy: { createdAt: "desc" }` then allows. */
  lemma {:induction false} NewestFirstStrictlyDescending<T>(rows: seq<T>, keep: T -> bool, key: T -> int)
    requires StrictlyAscending(rows, key)
    ensures StrictlyDescending(NewestFirst(rows, keep), key)
  {
    if rows != [] {
      NewestFirstStrictlyDescending(rows[1..], keep, key);
      var rest := NewestFirst(rows[1..], keep);
      forall x | x in rest
        ensures key(rows[0]) < key(x)
      {
        var k :| 0 <= k < |rows[1..]| && rows[1..][k] == x;
        assert rows[k + 1] == x;
      }
    }
  }

  /** Prisma's `skip` and `take`: the elements of `s` from position `skip` on, at most `take`
      of them. */
  function Window<T>(s: seq<T>, skip: nat, take: nat): (r: seq<T>)
    ensures |r| == if skip >= |s| then 0 else Min(take, |s| - skip)
    ensures forall i :: 0 <= i < |r| ==> r[i] == s[skip + i]
  {
    if skip >= |s| then [] else s[skip..skip + Min(take, |s| - skip)]
  }

  /** Pages 1 to `count` of `size` elements each, one after the other. */
  function Pages<T>(s: seq<T>, size: nat, count: nat): seq<T> {
    if count == 0 then [] else Pages(s, size, count - 1) + Window(s, (count - 1) * size, size)
  }

  /** Reading the pages in turn yields the sequence from its start, without gaps or repeats. */
  lemma {:induction false} PagesArePrefix<T>(s: seq<T>, size: nat, count: nat)
    requires size >= 1
    ensures Pages(s, size, count) == s[..Min(|s|, count * size)]
  {
    if count > 0 {
      PagesArePrefix(s, size, count - 1);
      PageOffsets(count, size);
      NextPage(s, (count - 1) * size, size);
    }
  }

  /** Page `count` starts `size` elements before page `count + 1`. */
  lemma PageOffsets(count: nat, size: nat)
    requires count > 0
    ensures 0 <= (count - 1) * size && count * size == (count - 1) * size + size
  {
  }

  /** The page that starts where the read prefix ends extends that prefix. */
  lemma NextPage<T>(s: seq<T>, done: nat, size: nat)
    ensures s[..Min(|s|, done)] + Window(s, done, size) == s[..Min(|s|, done + size)]
  {
    if done < |s| {
      var e := Min(|s|, done + size);
      assert Window(s, done, size) == s[done..e];
      assert s[..done] + s[done..e] == s[..e];
    }
  }

  /** Enough pages reproduce the whole sequence. */
  lemma PagesCoverAll<T>(s: seq<T>, size: nat, count: nat)
    requires size >= 1 && count * size >= |s|
    ensures Pages(s, size, count) == s
  {
    PagesArePrefix(s, size, count);
  }
  /** The rule every table keeps: ids are positive, below the next id to hand out, and
      strictly ascending along the store, and creation times never decrease along it. */
  ghost predicate Stored<T>(rows: seq<T>, id: T -> int, time: T -> int, nextId: int) {
    && nextId >= 1
    && (forall i :: 0 <= i < |rows| ==> 1 <= id(rows[i]) < nextId)
    && (forall i, j :: 0 <= i < j < |rows| ==> id(rows[i]) < id(rows[j]) && time(rows[i]) <= time(rows[j]))
  }

  /** Inserting a row with the next id, created no earlier than the last row, keeps the rule. */
  lemma StoredAppend<T>(rows: seq<T>, id: T -> int, time: T -> int, nextId: int, row: T)
    requires Stored(rows, id, time, nextId)
    requires id(row) == nextId && (rows == [] || time(rows[|rows| - 1]) <= time(row))
    ensures Stored(rows + [row], id, time, nextId + 1)
  {
    var after := rows + [row];
    forall i, j | 0 <= i < j < |after|
      ensures id(after[i]) < id(after[j]) && time(after[i]) <= time(after[j])
    {
      assert after[i] == rows[i];
      if j < |rows| {
        assert after[j] == rows[j];
      } else if i < |rows| - 1 {
        assert time(rows[i]) <= time(rows[|rows| - 1]);
      }
    }
  }

  /** Overwriting a row by one with the same id and creation time keeps the rule. */
  lemma StoredReplace<T>(rows: seq<T>, id: T -> int, time: T -> int, nextId: int, k: nat, row: T)
    requires Stored(rows, id, time, nextId)
    requires k < |rows| && id(row) == id(rows[k]) && time(row) == time(rows[k])
    ensures Stored(rows[k := row], id, time, nextId)
  {
    var after := rows[k := row];
    forall i | 0 <= i < |after|
      ensures id(after[i]) == id(rows[i]) && time(after[i]) == time(rows[i])
    {
    }
  }

  /** Removing one row keeps the rule. */
  lemma StoredRemove<T>(rows: seq<T>, id: T -> int, time: T -> int, nextId: int, k: nat)
    requires Stored(rows, id, time, nextId)
    requires k < |rows|
    ensures Stored(rows[..k] + rows[k + 1..], id, time, nextId)
  {
    var after := rows[..k] + rows[k + 1..];
    assert forall i :: 0 <= i < |after| ==> after[i] == rows[if i < k then i else i + 1];
  }

  /** Removing the row at `k` removes exactly the row with its id. */
  lemma StoredRemoveMembers<T>(rows: seq<T>, id: T -> int, time: T -> int, nextId: int, k: nat)
    requires Stored(rows, id, time, nextId)
    requires k < |rows|
    ensures forall x :: x in rows[..k] + rows[k + 1..] <==> x in rows && id(x) != id(rows[k])
  {
    var after := rows[..k] + rows[k + 1..];
    forall x
      ensures x in after <==> x in rows && id(x) != id(rows[k])
    {
      if x in rows && id(x) != id(rows[k]) {
        var i :| 0 <= i < |rows| && rows[i] == x;
        assert after[if i < k then i else i - 1] == x;
      }
      if x in after {
        var i :| 0 <= i < |after| && after[i] == x;
        var j := if i < k then i else i + 1;
        assert rows[j] == x && j != k;
      }
    }
  }

  /** The position of the row whose id is `key`, if there is one. */
  function IndexOf<T>(rows: seq<T>, id: T -> int, key: int): (r: Option<nat>)
    ensures r.Some? ==> r.value < |rows| && id(rows[r.value]) == key
    ensures r.None? ==> forall i :: 0 <= i < |rows| ==> id(rows[i]) != key
  {
    if rows == [] then None
    else if id(rows[0]) == key then Some(0)
    else
      match IndexOf(rows[1..], id, key)
      case None =>
        assert forall i :: 1 <= i < |rows| ==> rows[i] == rows[1..][i - 1];
        None
      case Some(k) => Some(k + 1)
  }

  /** Under the table rule, the row found is the only one with that id. */
  lemma IndexOfUnique<T>(rows: seq<T>, id: T -> int, time: T -> int, nextId: int, key: int)
    requires Stored(rows, id, time, nextId)
    ensures forall i :: 0 <= i < |rows| && id(rows[i]) == key ==> IndexOf(rows, id, key) == Some(i)
  {
  }

  /** Two filters that agree on every row select the same rows. */
  lemma {:induction false} NewestFirstAgree<T>(rows: seq<T>, keep: T -> bool, same: T -> bool)
    requires forall x :: x in rows ==> keep(x) == same(x)
    ensures NewestFirst(rows, keep) == NewestFirst(rows, same)
  {
    if rows != [] {
      assert forall x :: x in rows[1..] ==> x in rows;
      NewestFirstAgree(rows[1..], keep, same);
    }
  }
}
