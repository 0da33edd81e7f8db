/**
 * The `memories` table as an in-memory sequence of rows. Every SQL statement
 * of the store becomes a loop over the rows; each loop is proved equal to a
 * specification function on the sequence, and the properties the store
 * promises are lemmas about those functions.
 */
module MemoryStorage {

  import opened Common
  import opened MemoryItems
  import opened MemoryConfig

  // ---------------------------------------------------------------------------
  // Tiers, filters and orders
  // ---------------------------------------------------------------------------

  datatype Tier = ShortTier | LongTier

  /** `WHERE user_id = ? AND hp = 1` (short tier) or `... AND hp > 1` (long tier). */
  predicate Selected(m: MemoryItem, user: UserId, t: Tier) {
    m.userId == user && (if t == ShortTier then m.hp == 1 else m.hp > 1)
  }

  /** The rows a tier query of `user` sees, in table order. */
  function Select(rows: seq<MemoryItem>, user: UserId, t: Tier): seq<MemoryItem> {
    if rows == [] then []
    else
      var last := rows[|rows| - 1];
      Select(rows[..|rows| - 1], user, t) + (if Selected(last, user, t) then [last] else [])
  }

  /** A tier query returns exactly the rows of that user and tier. */
  lemma {:induction false} SelectSpec(rows: seq<MemoryItem>, user: UserId, t: Tier)
    ensures |Select(rows, user, t)| <= |rows|
    ensures forall x | x in Select(rows, user, t) :: x in rows && Selected(x, user, t)
    ensures forall x | x in rows && Selected(x, user, t) :: x in Select(rows, user, t)
  {
    if rows != [] {
      SelectSpec(rows[..|rows| - 1], user, t);
      assert rows == rows[..|rows| - 1] + [rows[|rows| - 1]];
    }
  }

  /** A tier with no qualifying row selects nothing. */
  lemma {:induction false} SelectNone(rows: seq<MemoryItem>, user: UserId, t: Tier)
    requires forall x | x in rows :: !Selected(x, user, t)
    ensures Select(rows, user, t) == []
  {
    if rows != [] {
      assert rows[|rows| - 1] in rows;
      assert forall x | x in rows[..|rows| - 1] :: x in rows;
      SelectNone(rows[..|rows| - 1], user, t);
    }
  }

  /** The three `ORDER BY` clauses of the store. */
  datatype Order =
    | ByRecency        // ORDER BY timestamp DESC
    | ByHpThenRecency  // ORDER BY hp DESC, timestamp DESC
    | ByHp             // ORDER BY hp DESC

  /** `a` may be listed before `b`. */
  predicate Precedes(o: Order, a: MemoryItem, b: MemoryItem) {
    match o
    case ByRecency => a.timestamp >= b.timestamp
    case ByHpThenRecency => a.hp > b.hp || (a.hp == b.hp && a.timestamp >= b.timestamp)
    case ByHp => a.hp >= b.hp
  }

  predicate SortedBy(o: Order, s: seq<MemoryItem>) {
    forall i, j | 0 <= i < j < |s| :: Precedes(o, s[i], s[j])
  }

  function Insert(o: Order, x: MemoryItem, s: seq<MemoryItem>): seq<MemoryItem> {
    if s == [] then [x]
    else if Precedes(o, x, s[0]) then [x] + s
    else [s[0]] + Insert(o, x, s[1..])
  }

  /** The order the database returns rows in; ties are broken by insertion. */
  function Sort(o: Order, s: seq<MemoryItem>): seq<MemoryItem> {
    if s == [] then [] else Insert(o, s[|s| - 1], Sort(o, s[..|s| - 1]))
  }

  /** `LIMIT n` */
  function Take(s: seq<MemoryItem>, n: nat): (r: seq<MemoryItem>)
    ensures |r| == Min(n, |s|) && r == s[..|r|]
  {
    if n < |s| then s[..n] else s
  }

  lemma {:induction false} InsertPermutes(o: Order, x: MemoryItem, s: seq<MemoryItem>)
    ensures multiset(Insert(o, x, s)) == multiset(s) + multiset{x}
  {
    if s != [] && !Precedes(o, x, s[0]) {
      InsertPermutes(o, x, s[1..]);
      assert s == [s[0]] + s[1..];
    }
  }

  /** An element that precedes `x` and every element of `s` precedes everything `Insert` yields. */
  lemma PrecedesInserted(o: Order, y: MemoryItem, x: MemoryItem, s: seq<MemoryItem>)
    requires Precedes(o, y, x)
    requires forall k | 0 <= k < |s| :: Precedes(o, y, s[k])
    ensures forall k | 0 <= k < |Insert(o, x, s)| :: Precedes(o, y, Insert(o, x, s)[k])
  {
    var r := Insert(o, x, s);
    InsertPermutes(o, x, s);
    forall k | 0 <= k < |r| ensures Precedes(o, y, r[k]) {
      assert r[k] in multiset(r);
      if r[k] != x {
        assert r[k] in multiset(s);
        assert r[k] in s;
      }
    }
  }

  lemma {:induction false} InsertSorted(o: Order, x: MemoryItem, s: seq<MemoryItem>)
    requires SortedBy(o, s)
    ensures SortedBy(o, Insert(o, x, s))
    ensures multiset(Insert(o, x, s)) == multiset(s) + multiset{x}
  {
    InsertPermutes(o, x, s);
    if s != [] && !Precedes(o, x, s[0]) {
      var tail := Insert(o, x, s[1..]);
      InsertSorted(o, x, s[1..]);
      assert forall k | 0 <= k < |s[1..]| :: s[1..][k] == s[k + 1];
      PrecedesInserted(o, s[0], x, s[1..]);
      var r := [s[0]] + tail;
      assert forall k | 0 < k < |r| :: r[k] == tail[k - 1];
    }
  }

  lemma {:induction false} SortSpec(o: Order, s: seq<MemoryItem>)
    ensures SortedBy(o, Sort(o, s))
    ensures multiset(Sort(o, s)) == multiset(s)
  {
    SortSorted(o, s);
    SortPermutes(o, s);
  }

  lemma {:induction false} SortSorted(o: Order, s: seq<MemoryItem>)
    ensures SortedBy(o, Sort(o, s))
  {
    if s != [] {
      SortSorted(o, s[..|s| - 1]);
      InsertSorted(o, s[|s| - 1], Sort(o, s[..|s| - 1]));
    }
  }

  lemma {:induction false} SortPermutes(o: Order, s: seq<MemoryItem>)
    ensures multiset(Sort(o, s)) == multiset(s)
  {
    if s != [] {
      var init, last := s[..|s| - 1], s[|s| - 1];
      SortPermutes(o, init);
      InsertPermutes(o, last, Sort(o, init));
      MultisetSnoc(s);
    }
  }

  lemma MultisetSnoc(s: seq<MemoryItem>)
    requires s != []
    ensures multiset(s) == multiset(s[..|s| - 1]) + multiset{s[|s| - 1]}
  {
    assert s == s[..|s| - 1] + [s[|s| - 1]];
  }

  /** `get_short_term_memories(user, limit)` */
  function RecentShortTerm(rows: seq<MemoryItem>, user: UserId, limit: nat): seq<MemoryItem> {
    Take(Sort(ByRecency, Select(rows, user, ShortTier)), limit)
  }

  /** `get_long_term_memories(user, limit)` */
  function TopLongTerm(rows: seq<MemoryItem>, user: UserId, limit: nat): seq<MemoryItem> {
    Take(Sort(ByHpThenRecency, Select(rows, user, LongTier)), limit)
  }

  /** `get_all_long_term_memories(user)` */
  function AllLongTerm(rows: seq<MemoryItem>, user: UserId): seq<MemoryItem> {
    Sort(ByHp, Select(rows, user, LongTier))
  }

  /** `count_short_term_memories(user)` */
  function ShortTermCount(rows: seq<MemoryItem>, user: UserId): nat {
    |Select(rows, user, ShortTier)|
  }

  /**
   * A listing is the best `limit` rows of the tier: it has min(limit, n)
   * rows, is in the query's order, and together with the rows it leaves out
   * forms exactly the tier; every listed row precedes every omitted one.
   */
  lemma {:induction false} ListingIsTopOfTier(rows: seq<MemoryItem>, user: UserId, t: Tier, o: Order, limit: nat)
    ensures var all := Sort(o, Select(rows, user, t));
            var r := Take(all, limit);
            var rest := all[|r|..];
            && |r| == Min(limit, |Select(rows, user, t)|)
            && SortedBy(o, r)
            && multiset(r) + multiset(rest) == multiset(Select(rows, user, t))
            && (forall x | x in r :: Selected(x, user, t))
            && (forall i, j | 0 <= i < |r| && 0 <= j < |rest| :: Precedes(o, r[i], rest[j]))
  {
    var sel := Select(rows, user, t);
    var all := Sort(o, sel);
    SortSpec(o, sel);
    SelectSpec(rows, user, t);
    TakeSplits(o, all, limit);
    var r := Take(all, limit);
    assert |all| == |sel| by { assert |multiset(all)| == |multiset(sel)|; }
    forall x | x in r ensures Selected(x, user, t) {
      assert x in multiset(all);
      assert x in multiset(sel);
    }
  }

  /** Taking a prefix of a sorted list: the prefix is sorted, precedes the rest, and both make up the list. */
  lemma TakeSplits(o: Order, all: seq<MemoryItem>, limit: nat)
    requires SortedBy(o, all)
    ensures var r := Take(all, limit);
            var rest := all[|r|..];
            && SortedBy(o, r)
            && multiset(r) + multiset(rest) == multiset(all)
            && (forall x | x in r :: x in multiset(all))
            && (forall i, j | 0 <= i < |r| && 0 <= j < |rest| :: Precedes(o, r[i], rest[j]))
  {
    var r := Take(all, limit);
    var rest := all[|r|..];
    assert all == r + rest;
    forall i, j | 0 <= i < |r| && 0 <= j < |rest| ensures Precedes(o, r[i], rest[j]) {
      assert all[i] == r[i] && all[|r| + j] == rest[j];
    }
  }

  /** A shorter listing of the same rows is a prefix of a longer one. */
  lemma ListingPrefix(rows: seq<MemoryItem>, user: UserId, a: nat, b: nat)
    requires b <= |RecentShortTerm(rows, user, a)|
    ensures RecentShortTerm(rows, user, a)[..b] == RecentShortTerm(rows, user, b)
    ensures RecentShortTerm(rows, user, b) == RecentShortTerm(rows, user, |RecentShortTerm(rows, user, b)|)
  {
  }

  /** The same for the long-term listing. */
  lemma TopListingPrefix(rows: seq<MemoryItem>, user: UserId, a: nat, b: nat)
    requires b <= |TopLongTerm(rows, user, a)|
    ensures TopLongTerm(rows, user, a)[..b] == TopLongTerm(rows, user, b)
    ensures TopLongTerm(rows, user, b) == TopLongTerm(rows, user, |TopLongTerm(rows, user, b)|)
  {
  }

  /** The full long-term listing holds exactly the user's long-term rows. */
  lemma AllLongTermMembers(rows: seq<MemoryItem>, user: UserId)
    ensures forall x :: x in AllLongTerm(rows, user) <==> x in rows && Selected(x, user, LongTier)
  {
    var sel := Select(rows, user, LongTier);
    SortSpec(ByHp, sel);
    SelectSpec(rows, user, LongTier);
    forall x
      ensures x in AllLongTerm(rows, user) <==> x in sel
    {
      assert x in AllLongTerm(rows, user) <==> x in multiset(sel);
    }
  }

  /** Both tiers of one user are disjoint: no row is listed by both. */
  lemma TierListingsDisjoint(rows: seq<MemoryItem>, user: UserId, a: nat, b: nat)
    ensures forall x | x in RecentShortTerm(rows, user, a) :: x !in TopLongTerm(rows, user, b)
  {
    ListingIsTopOfTier(rows, user, ShortTier, ByRecency, a);
    ListingIsTopOfTier(rows, user, LongTier, ByHpThenRecency, b);
  }

  // ---------------------------------------------------------------------------
  // Oldest short-term row
  // ---------------------------------------------------------------------------

  /**
   * `ORDER BY timestamp ASC LIMIT 1`: the earliest short-term row of the user;
   * among equal timestamps the first in table order.
   */
  function OldestShortTerm(rows: seq<MemoryItem>, user: UserId): Option<MemoryItem> {
    if rows == [] then None
    else
      var prev := OldestShortTerm(rows[..|rows| - 1], user);
      var last := rows[|rows| - 1];
      if !Selected(last, user, ShortTier) then prev
      else if prev.None? || last.timestamp < prev.value.timestamp then Some(last)
      else prev
  }

  /**
   * The oldest lookup finds nothing exactly when the user has no short-term
   * row; otherwise it finds a short-term row of the user with the least timestamp.
   */
  lemma {:induction false} OldestIsMinimal(rows: seq<MemoryItem>, user: UserId)
    ensures var r := OldestShortTerm(rows, user);
            && (r.None? <==> ShortTermCount(rows, user) == 0)
            && (r.Some? ==> r.value in rows && Selected(r.value, user, ShortTier))
            && (r.Some? ==> forall x | x in rows && Selected(x, user, ShortTier) :: r.value.timestamp <= x.timestamp)
  {
    if rows != [] {
      var init := rows[..|rows| - 1];
      var last := rows[|rows| - 1];
      var r := OldestShortTerm(rows, user);
      var prev := OldestShortTerm(init, user);
      OldestIsMinimal(init, user);
      SelectSpec(init, user, ShortTier);
      assert rows == init + [last];
      if r.Some? {
        forall x | x in rows && Selected(x, user, ShortTier) ensures r.value.timestamp <= x.timestamp {
          if x != last {
            assert x in init;
          }
        }
      }
    }
  }

  // ---------------------------------------------------------------------------
  // Writes
  // ---------------------------------------------------------------------------

  predicate UniqueIds(rows: seq<MemoryItem>) {
    forall i, j | 0 <= i < j < |rows| :: rows[i].id != rows[j].id
  }

  predicate HasId(rows: seq<MemoryItem>, id: MemoryId) {
    exists i | 0 <= i < |rows| :: rows[i].id == id
  }

  /** `INSERT OR REPLACE`: the row with the item's id is replaced, or the item is added. */
  function Upsert(rows: seq<MemoryItem>, m: MemoryItem): seq<MemoryItem> {
    if HasId(rows, m.id) then Replaced(rows, m) else rows + [m]
  }

  /** Every row carrying the item's id replaced by the item. */
  function Replaced(rows: seq<MemoryItem>, m: MemoryItem): (r: seq<MemoryItem>)
    ensures |r| == |rows|
    ensures forall i | 0 <= i < |rows| :: r[i] == if rows[i].id == m.id then m else rows[i]
  {
    seq(|rows|, i requires 0 <= i < |rows| => if rows[i].id == m.id then m else rows[i])
  }

  /**
   * After an upsert exactly one row carries the item's id and it is the item;
   * every row with another id is kept, and no other row appears.
   */
  lemma UpsertSpec(rows: seq<MemoryItem>, m: MemoryItem)
    requires UniqueIds(rows)
    ensures var r := Upsert(rows, m);
            && UniqueIds(r)
            && m in r
            && (forall i | 0 <= i < |r| && r[i].id == m.id :: r[i] == m)
            && (forall x | x in rows && x.id != m.id :: x in r)
            && (forall x | x in r && x.id != m.id :: x in rows)
  {
    var r := Upsert(rows, m);
    if HasId(rows, m.id) {
      var k :| 0 <= k < |rows| && rows[k].id == m.id;
      assert r[k] == m;
      forall x | x in rows && x.id != m.id ensures x in r {
        var i :| 0 <= i < |rows| && rows[i] == x;
        assert r[i] == x;
      }
    } else {
      assert r[|rows|] == m;
      forall i | 0 <= i < |rows| ensures rows[i].id != m.id {
        assert !HasId(rows, m.id);
      }
    }
  }

  /** A fresh id (the model of `uuid4`) makes the upsert an append. */
  lemma UpsertFreshAppends(rows: seq<MemoryItem>, m: MemoryItem)
    requires forall x | x in rows :: x.id != m.id
    ensures Upsert(rows, m) == rows + [m]
  {
    forall i | 0 <= i < |rows| ensures rows[i].id != m.id {
      assert rows[i] in rows;
    }
  }

  /** `DELETE FROM memories WHERE id = ?` */
  function RemoveId(rows: seq<MemoryItem>, id: MemoryId): (r: seq<MemoryItem>)
    ensures |r| <= |rows|
    ensures forall i | 0 <= i < |r| :: r[i].id != id
  {
    if rows == [] then []
    else
      var last := rows[|rows| - 1];
      RemoveId(rows[..|rows| - 1], id) + (if last.id != id then [last] else [])
  }

  /** Deleting by id keeps exactly the rows with another id. */
  lemma {:induction false} RemoveIdMembers(rows: seq<MemoryItem>, id: MemoryId)
    ensures forall x :: x in RemoveId(rows, id) <==> x in rows && x.id != id
  {
    if rows != [] {
      var init, last := rows[..|rows| - 1], rows[|rows| - 1];
      RemoveIdMembers(init, id);
      assert rows == init + [last];
    }
  }

  /**
   * `for memory in ms: delete_memory(memory.id)`, the `k`-th delete taking
   * effect when `ok(k)` (a failed delete is logged and skipped).
   */
  function DeleteEach(rows: seq<MemoryItem>, ms: seq<MemoryItem>, ok: nat -> bool): seq<MemoryItem> {
    if ms == [] then rows
    else
      var prev := DeleteEach(rows, ms[..|ms| - 1], ok);
      if ok(|ms| - 1) then RemoveId(prev, ms[|ms| - 1].id) else prev
  }

  /** A row survives the deletes exactly when no successful delete names its id. */
  lemma {:induction false} DeleteEachSpec(rows: seq<MemoryItem>, ms: seq<MemoryItem>, ok: nat -> bool)
    ensures forall x :: x in DeleteEach(rows, ms, ok) <==>
      x in rows && forall k | 0 <= k < |ms| && ok(k) :: x.id != ms[k].id
  {
    if ms != [] {
      DeleteEachSpec(rows, ms[..|ms| - 1], ok);
      RemoveIdMembers(DeleteEach(rows, ms[..|ms| - 1], ok), ms[|ms| - 1].id);
    }
  }

  /** Deletes keep the ids unique. */
  lemma {:induction false} DeleteEachUnique(rows: seq<MemoryItem>, ms: seq<MemoryItem>, ok: nat -> bool)
    requires UniqueIds(rows)
    ensures UniqueIds(DeleteEach(rows, ms, ok))
  {
    if ms != [] {
      DeleteEachUnique(rows, ms[..|ms| - 1], ok);
      RemoveIdUnique(DeleteEach(rows, ms[..|ms| - 1], ok), ms[|ms| - 1].id);
    }
  }

  /** When every delete succeeds, clearing a listing that holds the whole tier leaves the user no row of that tier. */
  lemma {:induction false} ClearedTierEmpty(rows: seq<MemoryItem>, user: UserId, t: Tier, ms: seq<MemoryItem>, deleteOk: nat -> bool)
    requires forall k: nat :: deleteOk(k)
    requires forall x | x in rows && Selected(x, user, t) :: x in ms
    ensures Select(DeleteEach(rows, ms, deleteOk), user, t) == []
  {
    var after := DeleteEach(rows, ms, deleteOk);
    DeleteEachSpec(rows, ms, deleteOk);
    forall x | x in after
      ensures !Selected(x, user, t)
    {
      assert x !in ms by {
        forall k | 0 <= k < |ms|
          ensures ms[k] != x
        {
          assert deleteOk(k);
        }
      }
    }
    SelectNone(after, user, t);
  }

  /** Clearing deletes by id, so under unique ids a row outside the listing survives. */
  lemma {:induction false} ClearKeepsOthers(rows: seq<MemoryItem>, ms: seq<MemoryItem>, deleteOk: nat -> bool, x: MemoryItem)
    requires UniqueIds(rows)
    requires forall y | y in ms :: y in rows
    requires x in rows && x !in ms
    ensures x in DeleteEach(rows, ms, deleteOk)
  {
    DeleteEachSpec(rows, ms, deleteOk);
    forall k | 0 <= k < |ms|
      ensures x.id != ms[k].id
    {
      assert ms[k] in ms;
      var i :| 0 <= i < |rows| && rows[i] == x;
      var j :| 0 <= j < |rows| && rows[j] == ms[k];
      assert i != j;
    }
  }

  // ---------------------------------------------------------------------------
  // How writes move a user's short-term count
  // ---------------------------------------------------------------------------

  lemma {:induction false} SelectConcat(a: seq<MemoryItem>, b: seq<MemoryItem>, user: UserId, t: Tier)
    ensures Select(a + b, user, t) == Select(a, user, t) + Select(b, user, t)
    decreases |b|
  {
    if b == [] {
      assert a + b == a;
    } else {
      var init := b[..|b| - 1];
      assert (a + b)[..|a + b| - 1] == a + init;
      assert (a + b)[|a + b| - 1] == b[|b| - 1];
      SelectConcat(a, init, user, t);
    }
  }

  /** The count of a table, one row at a time from the end. */
  lemma CountSnoc(rows: seq<MemoryItem>, user: UserId)
    requires rows != []
    ensures ShortTermCount(rows, user) ==
              ShortTermCount(rows[..|rows| - 1], user) + (if Selected(rows[|rows| - 1], user, ShortTier) then 1 else 0)
  {
  }

  /** Deleting by id, with the last row split off. */
  lemma RemoveIdSnoc(rows: seq<MemoryItem>, id: MemoryId)
    requires rows != []
    ensures RemoveId(rows, id) ==
              RemoveId(rows[..|rows| - 1], id) + (if rows[|rows| - 1].id != id then [rows[|rows| - 1]] else [])
  {
  }

  /** The count after appending one row. */
  lemma CountAppend(a: seq<MemoryItem>, x: MemoryItem, user: UserId)
    ensures ShortTermCount(a + [x], user) == ShortTermCount(a, user) + (if Selected(x, user, ShortTier) then 1 else 0)
  {
    var w := a + [x];
    assert w[..|w| - 1] == a && w[|w| - 1] == x;
    CountSnoc(w, user);
  }

  /** Deleting by id never raises the count. */
  lemma {:induction false} RemoveIdCount(rows: seq<MemoryItem>, id: MemoryId, user: UserId)
    ensures ShortTermCount(RemoveId(rows, id), user) <= ShortTermCount(rows, user)
  {
    if rows != [] {
      var init, last := rows[..|rows| - 1], rows[|rows| - 1];
      RemoveIdCount(init, id, user);
      RemoveIdSnoc(rows, id);
      CountSnoc(rows, user);
      if last.id != id {
        CountAppend(RemoveId(init, id), last, user);
      } else {
        assert RemoveId(rows, id) == RemoveId(init, id);
      }
    }
  }

  /** ... and lowers it when the id is that of one of the user's short-term rows. */
  lemma {:induction false} RemoveIdCountStrict(rows: seq<MemoryItem>, id: MemoryId, user: UserId, x: MemoryItem)
    requires x in rows && x.id == id && Selected(x, user, ShortTier)
    ensures ShortTermCount(RemoveId(rows, id), user) < ShortTermCount(rows, user)
  {
    var init, last := rows[..|rows| - 1], rows[|rows| - 1];
    RemoveIdSnoc(rows, id);
    CountSnoc(rows, user);
    if last == x {
      RemoveIdCount(init, id, user);
      assert RemoveId(rows, id) == RemoveId(init, id);
    } else {
      assert rows == init + [last];
      assert x in init;
      RemoveIdCountStrict(init, id, user, x);
      if last.id != id {
        CountAppend(RemoveId(init, id), last, user);
      } else {
        assert RemoveId(rows, id) == RemoveId(init, id);
      }
    }
  }

  /** Removing an id no row carries changes nothing. */
  lemma {:induction false} RemoveAbsentId(rows: seq<MemoryItem>, id: MemoryId)
    requires forall i | 0 <= i < |rows| :: rows[i].id != id
    ensures RemoveId(rows, id) == rows
  {
    if rows != [] {
      var init, last := rows[..|rows| - 1], rows[|rows| - 1];
      assert forall i | 0 <= i < |init| :: init[i].id != id by {
        forall i | 0 <= i < |init|
          ensures init[i].id != id
        {
          assert init[i] == rows[i];
        }
      }
      RemoveAbsentId(init, id);
      assert rows == init + [last];
    }
  }

  /** Deleting by id keeps the ids unique. */
  lemma {:induction false} RemoveIdUnique(rows: seq<MemoryItem>, id: MemoryId)
    requires UniqueIds(rows)
    ensures UniqueIds(RemoveId(rows, id))
  {
    if rows != [] {
      var init := rows[..|rows| - 1];
      var last := rows[|rows| - 1];
      var prev := RemoveId(init, id);
      assert UniqueIds(init);
      RemoveIdUnique(init, id);
      RemoveIdMembers(init, id);
      forall i | 0 <= i < |prev|
        ensures prev[i].id != last.id
      {
        assert prev[i] in init;
        var j :| 0 <= j < |init| && init[j] == prev[i];
        assert rows[j] == init[j];
      }
    }
  }

  /** Dropping the last row keeps the ids unique, and no earlier row has the last row's id. */
  lemma UniqueInit(rows: seq<MemoryItem>, init: seq<MemoryItem>)
    requires UniqueIds(rows) && rows != [] && init == rows[..|rows| - 1]
    ensures UniqueIds(init)
    ensures forall i | 0 <= i < |init| :: init[i].id != rows[|rows| - 1].id
  {
    forall i | 0 <= i < |init|
      ensures init[i] == rows[i]
    {
    }
  }

  /** Under unique ids, deleting by id lowers the count by at most one. */
  lemma {:induction false} RemoveIdCountAtLeast(rows: seq<MemoryItem>, id: MemoryId, user: UserId)
    requires UniqueIds(rows)
    ensures ShortTermCount(RemoveId(rows, id), user) + 1 >= ShortTermCount(rows, user)
  {
    if rows != [] {
      var init, last := rows[..|rows| - 1], rows[|rows| - 1];
      UniqueInit(rows, init);
      RemoveIdCountAtLeast(init, id, user);
      RemoveIdSnoc(rows, id);
      CountSnoc(rows, user);
      if last.id == id {
        RemoveAbsentId(init, id);
        assert RemoveId(rows, id) == init;
      } else {
        CountAppend(RemoveId(init, id), last, user);
      }
    }
  }

  lemma {:induction false} ReplacedCount(rows: seq<MemoryItem>, m: MemoryItem, user: UserId)
    requires !Selected(m, user, ShortTier)
    ensures ShortTermCount(Replaced(rows, m), user) <= ShortTermCount(rows, user)
    ensures (exists x | x in rows :: x.id == m.id && Selected(x, user, ShortTier)) ==>
              ShortTermCount(Replaced(rows, m), user) < ShortTermCount(rows, user)
  {
    if rows != [] {
      var init := rows[..|rows| - 1];
      var last := rows[|rows| - 1];
      var repl := if last.id == m.id then m else last;
      ReplacedCount(init, m, user);
      assert Replaced(rows, m) == Replaced(init, m) + [repl];
      SelectConcat(Replaced(init, m), [repl], user, ShortTier);
      assert [repl][..0] == [];
      assert rows == init + [last];
      if exists x | x in rows :: x.id == m.id && Selected(x, user, ShortTier) {
        if !(last.id == m.id && Selected(last, user, ShortTier)) {
          var x :| x in rows && x.id == m.id && Selected(x, user, ShortTier);
          assert x in init;
        }
      }
    }
  }

  /**
   * Saving an item that is not a short-term row of the user never raises
   * the user's count, and lowers it when it overwrites one of them.
   */
  lemma UpsertCount(rows: seq<MemoryItem>, m: MemoryItem, user: UserId)
    requires !Selected(m, user, ShortTier)
    ensures ShortTermCount(Upsert(rows, m), user) <= ShortTermCount(rows, user)
    ensures (exists x | x in rows && Selected(x, user, ShortTier) :: x !in Upsert(rows, m)) ==>
              ShortTermCount(Upsert(rows, m), user) < ShortTermCount(rows, user)
  {
    ReplacedCount(rows, m, user);
    SelectConcat(rows, [m], user, ShortTier);
    assert [m][..0] == [];
    if HasId(rows, m.id) {
      if exists x | x in rows && Selected(x, user, ShortTier) :: x !in Upsert(rows, m) {
        var x :| x in rows && Selected(x, user, ShortTier) && x !in Upsert(rows, m);
        var i :| 0 <= i < |rows| && rows[i] == x;
        assert Replaced(rows, m)[i] != x;
      }
    }
  }

  /** Saving a fresh short-term row of the user appends it and raises the count by one. */
  lemma UpsertFreshCount(rows: seq<MemoryItem>, m: MemoryItem, user: UserId)
    requires forall x | x in rows :: x.id != m.id
    requires Selected(m, user, ShortTier)
    ensures Upsert(rows, m) == rows + [m]
    ensures ShortTermCount(Upsert(rows, m), user) == ShortTermCount(rows, user) + 1
  {
    UpsertFreshAppends(rows, m);
    SelectConcat(rows, [m], user, ShortTier);
    assert [m][..0] == [];
  }

  function AdjustHp(m: MemoryItem, id: MemoryId, delta: int): MemoryItem {
    if m.id == id then m.(hp := Max(0, m.hp + delta)) else m
  }

  /** `UPDATE memories SET hp = MAX(0, hp + ?) WHERE id = ?` */
  function HpAdjusted(rows: seq<MemoryItem>, id: MemoryId, delta: int): (r: seq<MemoryItem>)
    ensures |r| == |rows|
  {
    seq(|rows|, i requires 0 <= i < |rows| => AdjustHp(rows[i], id, delta))
  }

  /**
   * The HP update touches only the row with that id, never drives hp below 0,
   * and changes nothing for an unknown id.
   */
  lemma HpAdjustedSpec(rows: seq<MemoryItem>, id: MemoryId, delta: int)
    ensures var r := HpAdjusted(rows, id, delta);
            && (forall i | 0 <= i < |rows| && rows[i].id != id :: r[i] == rows[i])
            && (forall i | 0 <= i < |rows| && rows[i].id == id ::
                  r[i] == rows[i].(hp := Max(0, rows[i].hp + delta)) && r[i].hp >= 0)
            && (!HasId(rows, id) ==> r == rows)
  {
  }

  /** `CAST(hp * (1 - rate) AS INTEGER)` on exact rationals: truncation toward zero. */
  function DecayedHp(hp: int, rate: Rational): int
    requires rate.den > 0
  {
    var scaled := hp * (rate.den - rate.num);
    if scaled >= 0 then scaled / rate.den else -((-scaled) / rate.den)
  }

  function DecayRow(m: MemoryItem, user: UserId, rate: Rational): MemoryItem
    requires rate.den > 0
  {
    if Selected(m, user, LongTier) then m.(hp := DecayedHp(m.hp, rate)) else m
  }

  /** `UPDATE memories SET hp = CAST(hp * (1 - ?) AS INTEGER) WHERE user_id = ? AND hp > 1` */
  function Decayed(rows: seq<MemoryItem>, user: UserId, rate: Rational): (r: seq<MemoryItem>)
    requires rate.den > 0
    ensures |r| == |rows|
  {
    seq(|rows|, i requires 0 <= i < |rows| => DecayRow(rows[i], user, rate))
  }

  /**
   * Decay rewrites only the user's long-term rows: short-term rows and other
   * users' rows stay as they are, and every row keeps its id and content.
   */
  lemma DecaySelective(rows: seq<MemoryItem>, user: UserId, rate: Rational)
    requires rate.den > 0
    ensures var r := Decayed(rows, user, rate);
            && (forall i | 0 <= i < |rows| && !Selected(rows[i], user, LongTier) :: r[i] == rows[i])
            && (forall i | 0 <= i < |rows| :: r[i] == rows[i].(hp := r[i].hp))
  {
  }

  /** With a rate in [0, 1], decay keeps hp between 0 and its old value. */
  lemma {:induction false} DecayBounds(hp: int, rate: Rational)
    requires rate.den > 0 && 0 <= rate.num <= rate.den && hp >= 0
    ensures 0 <= DecayedHp(hp, rate) <= hp
  {
    var scaled := hp * (rate.den - rate.num);
    MulMonotone(hp, rate.den - rate.num, rate.den);
    MulMonotone(hp, 0, rate.den - rate.num);
    DivAtMost(scaled, rate.den, hp);
  }

  lemma MulMonotone(a: int, b: int, c: int)
    requires a >= 0 && b <= c
    ensures a * b <= a * c
  {
    assert a * c - a * b == a * (c - b);
  }

  /** A non-negative value at most `bound * den` divides by `den` into [0, bound]. */
  lemma DivAtMost(x: int, den: int, bound: int)
    requires den > 0 && bound >= 0 && 0 <= x <= bound * den
    ensures 0 <= x / den <= bound
  {
    var q := x / den;
    assert q * den <= x;
    assert den * (bound + 1) == bound * den + den;
    if q > bound {
      MulMonotone(den, bound + 1, q);
    }
  }

  /** With the shipped rate 0.1, hp 10 decays to 9 and hp 2 decays to 1: a long-term row can turn short-term. */
  lemma DecayExamples()
    ensures DecayedHp(10, Rational(1, 10)) == 9
    ensures DecayedHp(2, Rational(1, 10)) == 1
    ensures DecayedHp(3, Rational(1, 10)) == 2
  {
  }

  /** `DELETE FROM memories WHERE hp <= 0` keeps these rows. */
  function Alive(rows: seq<MemoryItem>): seq<MemoryItem> {
    if rows == [] then []
    else
      var last := rows[|rows| - 1];
      Alive(rows[..|rows| - 1]) + (if last.hp > 0 then [last] else [])
  }

  /** The rows that cleanup deletes. */
  function Expired(rows: seq<MemoryItem>): seq<MemoryItem> {
    if rows == [] then []
    else
      var last := rows[|rows| - 1];
      Expired(rows[..|rows| - 1]) + (if last.hp <= 0 then [last] else [])
  }

  /**
   * Cleanup is selective: it keeps exactly the rows with hp > 0 (of every user),
   * deletes exactly those with hp <= 0, and the two parts make up the table.
   */
  lemma {:induction false} CleanupSelective(rows: seq<MemoryItem>)
    ensures forall x | x in Alive(rows) :: x in rows && x.hp > 0
    ensures forall x | x in rows && x.hp > 0 :: x in Alive(rows)
    ensures forall x | x in Expired(rows) :: x in rows && x.hp <= 0
    ensures forall x | x in rows && x.hp <= 0 :: x in Expired(rows)
    ensures multiset(Alive(rows)) + multiset(Expired(rows)) == multiset(rows)
    ensures |rows| - |Alive(rows)| == |Expired(rows)|
  {
    var alive, expired := Alive(rows), Expired(rows);
    AliveExpiredSplit(rows);
    forall x | x in alive
      ensures x in rows && x.hp > 0
    {
      var i :| 0 <= i < |alive| && alive[i] == x;
      assert x in multiset(alive);
      assert x in multiset(rows);
    }
    forall x | x in expired
      ensures x in rows && x.hp <= 0
    {
      var i :| 0 <= i < |expired| && expired[i] == x;
      assert x in multiset(expired);
      assert x in multiset(rows);
    }
    forall x | x in rows
      ensures x.hp > 0 ==> x in alive
      ensures x.hp <= 0 ==> x in expired
    {
      assert x in multiset(rows);
      if x.hp > 0 {
        assert x !in expired;
      } else {
        assert x !in alive;
      }
    }
    assert |multiset(rows)| == |multiset(alive)| + |multiset(expired)|;
  }

  /** The kept and the deleted rows split the table, each side by its hp test. */
  lemma AliveExpiredSplit(rows: seq<MemoryItem>)
    ensures multiset(Alive(rows)) + multiset(Expired(rows)) == multiset(rows)
    ensures forall i | 0 <= i < |Alive(rows)| :: Alive(rows)[i].hp > 0
    ensures forall i | 0 <= i < |Expired(rows)| :: Expired(rows)[i].hp <= 0
  {
    AliveExpiredMultiset(rows);
    AlivePositive(rows);
    ExpiredNonPositive(rows);
  }

  lemma {:induction false} AliveExpiredMultiset(rows: seq<MemoryItem>)
    ensures multiset(Alive(rows)) + multiset(Expired(rows)) == multiset(rows)
  {
    if rows != [] {
      var init, last := rows[..|rows| - 1], rows[|rows| - 1];
      AliveExpiredMultiset(init);
      MultisetSnoc(rows);
      var a, e := Alive(init), Expired(init);
      if last.hp > 0 {
        assert Alive(rows) == a + [last] && Expired(rows) == e + [];
        assert multiset(a + [last]) == multiset(a) + multiset{last};
        assert e + [] == e;
      } else {
        assert Alive(rows) == a + [] && Expired(rows) == e + [last];
        assert multiset(e + [last]) == multiset(e) + multiset{last};
        assert a + [] == a;
      }
    }
  }

  lemma {:induction false} AlivePositive(rows: seq<MemoryItem>)
    ensures forall i | 0 <= i < |Alive(rows)| :: Alive(rows)[i].hp > 0
  {
    if rows != [] {
      var init, last := rows[..|rows| - 1], rows[|rows| - 1];
      AlivePositive(init);
      var a := Alive(init);
      var tail: seq<MemoryItem> := if last.hp > 0 then [last] else [];
      assert Alive(rows) == a + tail;
      forall i | 0 <= i < |a + tail|
        ensures (a + tail)[i].hp > 0
      {
        if i >= |a| {
          assert (a + tail)[i] == tail[i - |a|];
        }
      }
    }
  }

  lemma {:induction false} ExpiredNonPositive(rows: seq<MemoryItem>)
    ensures forall i | 0 <= i < |Expired(rows)| :: Expired(rows)[i].hp <= 0
  {
    if rows != [] {
      var init, last := rows[..|rows| - 1], rows[|rows| - 1];
      ExpiredNonPositive(init);
      var e := Expired(init);
      var tail: seq<MemoryItem> := if last.hp <= 0 then [last] else [];
      assert Expired(rows) == e + tail;
      forall i | 0 <= i < |e + tail|
        ensures (e + tail)[i].hp <= 0
      {
        if i >= |e| {
          assert (e + tail)[i] == tail[i - |e|];
        }
      }
    }
  }

  // ---------------------------------------------------------------------------
  // Row encoding
  // ---------------------------------------------------------------------------

  /** A stored row: the embedding column is NULL for an empty vector. */
  datatype StoredRow = StoredRow(
    id: MemoryId, content: string, embedding: Option<seq<real>>, timestamp: int, hp: int, userId: UserId)

  /** Every component of an embedding converted by `toF32`. */
  function Rounded(v: seq<real>, toF32: real -> real): seq<real> {
    seq(|v|, i requires 0 <= i < |v| => toF32(v[i]))
  }

  /**
   * `save_memory`'s row: the embedding is written as float32 bytes, so each
   * component goes through `toF32`, the conversion to the nearest float32
   * that `np.array(..., dtype=np.float32)` performs.
   */
  function ToRow(m: MemoryItem, toF32: real -> real): StoredRow {
    StoredRow(m.id, m.content, if m.embedding == [] then None else Some(Rounded(m.embedding, toF32)),
              m.timestamp, m.hp, m.userId)
  }

  /** `_row_to_memory_item`: a NULL blob reads back as the empty vector; float32 values widen exactly. */
  function FromRow(r: StoredRow): MemoryItem {
    MemoryItem(r.id, r.content, if r.embedding.None? then [] else r.embedding.value, r.timestamp, r.hp, r.userId)
  }

  /**
   * A stored item reads back with every field as it was except the
   * embedding, which comes back rounded to float32; an embedding already made
   * of float32 values reads back unchanged, and so does an item that has
   * been through the table once.
   */
  lemma RowRoundTrip(m: MemoryItem, toF32: real -> real)
    requires forall x :: toF32(toF32(x)) == toF32(x)
    ensures FromRow(ToRow(m, toF32)) == m.(embedding := Rounded(m.embedding, toF32))
    ensures ToRow(m, toF32).embedding.None? <==> m.embedding == []
    ensures (forall i | 0 <= i < |m.embedding| :: toF32(m.embedding[i]) == m.embedding[i]) ==> FromRow(ToRow(m, toF32)) == m
    ensures var once := FromRow(ToRow(m, toF32));
            FromRow(ToRow(once, toF32)) == once
  {
    if forall i | 0 <= i < |m.embedding| :: toF32(m.embedding[i]) == m.embedding[i] {
      assert Rounded(m.embedding, toF32) == m.embedding;
    }
    var once := FromRow(ToRow(m, toF32));
    var v := Rounded(m.embedding, toF32);
    forall i | 0 <= i < |v|
      ensures Rounded(v, toF32)[i] == v[i]
    {
      var x := m.embedding[i];
      assert v[i] == toF32(x);
      assert toF32(toF32(x)) == toF32(x);
    }
    assert Rounded(v, toF32) == v;
  }

  // ---------------------------------------------------------------------------
  // The store
  // ---------------------------------------------------------------------------

  class MemoryStore {
    var rows: seq<MemoryItem>

    /** `id` is the table's primary key. */
    ghost predicate Valid()
      reads this
    {
      UniqueIds(rows)
    }

    constructor ()
      ensures Valid() && rows == []
    {
      rows := [];
    }

    /** `save_memory`; `writeOk` is whether the database accepted the statement. */
    method SaveMemory(m: MemoryItem, writeOk: bool) returns (ok: bool)
      requires Valid()
      modifies this
      ensures Valid()
      ensures ok == writeOk
      ensures rows == if ok then Upsert(old(rows), m) else old(rows)
    {
      if !writeOk {
        return false;
      }
      var i := 0;
      while i < |rows| && rows[i].id != m.id
        invariant 0 <= i <= |rows|
        invariant forall k | 0 <= k < i :: rows[k].id != m.id
      {
        i := i + 1;
      }
      UpsertSpec(rows, m);
      if i < |rows| {
        assert HasId(rows, m.id);
        rows := rows[i := m];
      } else {
        rows := rows + [m];
      }
      ok := true;
    }

    /** The selected rows of one tier in the given order, by one pass of insertions. */
    method SortedSelection(user: UserId, t: Tier, o: Order) returns (s: seq<MemoryItem>)
      ensures s == Sort(o, Select(rows, user, t))
    {
      s := [];
      for i := 0 to |rows|
        invariant s == Sort(o, Select(rows[..i], user, t))
      {
        assert rows[..i + 1][..i] == rows[..i];
        var sel := Select(rows[..i], user, t);
        if Selected(rows[i], user, t) {
          assert Select(rows[..i + 1], user, t) == sel + [rows[i]];
          assert (sel + [rows[i]])[..|sel|] == sel;
          s := Insert(o, rows[i], s);
        } else {
          assert Select(rows[..i + 1], user, t) == sel;
        }
      }
      assert rows[..|rows|] == rows;
    }

    method GetShortTermMemories(user: UserId, limit: nat) returns (r: seq<MemoryItem>)
      ensures r == RecentShortTerm(rows, user, limit)
    {
      var all := SortedSelection(user, ShortTier, ByRecency);
      r := Take(all, limit);
    }

    method GetLongTermMemories(user: UserId, limit: nat) returns (r: seq<MemoryItem>)
      ensures r == TopLongTerm(rows, user, limit)
    {
      var all := SortedSelection(user, LongTier, ByHpThenRecency);
      r := Take(all, limit);
    }

    method GetAllLongTermMemories(user: UserId) returns (r: seq<MemoryItem>)
      ensures r == AllLongTerm(rows, user)
    {
      r := SortedSelection(user, LongTier, ByHp);
    }

    /** `get_oldest_short_term_memory`: None exactly when the user has no short-term row. */
    method GetOldestShortTermMemory(user: UserId) returns (r: Option<MemoryItem>)
      ensures r == OldestShortTerm(rows, user)
      ensures r.None? <==> ShortTermCount(rows, user) == 0
      ensures r.Some? ==> Selected(r.value, user, ShortTier) && r.value in rows
      ensures r.Some? ==> forall x | x in rows && Selected(x, user, ShortTier) :: r.value.timestamp <= x.timestamp
    {
      OldestIsMinimal(rows, user);
      r := None;
      for i := 0 to |rows|
        invariant r == OldestShortTerm(rows[..i], user)
      {
        assert rows[..i + 1][..i] == rows[..i];
        assert rows[..i + 1][i] == rows[i];
        if Selected(rows[i], user, ShortTier) && (r.None? || rows[i].timestamp < r.value.timestamp) {
          r := Some(rows[i]);
        }
      }
      assert rows[..|rows|] == rows;
    }

    /** `delete_memory`; `writeOk` is whether the database accepted the statement. */
    method DeleteMemory(id: MemoryId, writeOk: bool) returns (ok: bool)
      requires Valid()
      modifies this
      ensures Valid()
      ensures ok == writeOk
      ensures rows == if ok then RemoveId(old(rows), id) else old(rows)
    {
      if !writeOk {
        return false;
      }
      var kept: seq<MemoryItem> := [];
      for i := 0 to |rows|
        invariant kept == RemoveId(rows[..i], id)
        invariant UniqueIds(kept)
        invariant forall x | x in kept :: x in rows[..i]
      {
        assert rows[..i + 1][..i] == rows[..i];
        if rows[i].id != id {
          forall x | x in kept ensures x.id != rows[i].id {
            var k :| 0 <= k < i && rows[k] == x;
          }
          kept := kept + [rows[i]];
        }
      }
      assert rows[..|rows|] == rows;
      rows := kept;
      ok := true;
    }

    /**
     * `update_memory_hp`: hp := max(0, hp + delta) on the row with that id.
     * A failed UPDATE (`writeOk` false) is swallowed and changes nothing.
     */
    method UpdateMemoryHp(id: MemoryId, delta: int, writeOk: bool)
      requires Valid()
      modifies this
      ensures Valid()
      ensures rows == if writeOk then HpAdjusted(old(rows), id, delta) else old(rows)
    {
      if !writeOk {
        return;
      }
      ghost var before := rows;
      for i := 0 to |rows|
        invariant |rows| == |before|
        invariant forall k | 0 <= k < i :: rows[k] == AdjustHp(before[k], id, delta)
        invariant forall k | i <= k < |rows| :: rows[k] == before[k]
        invariant forall k | 0 <= k < |rows| :: rows[k].id == before[k].id
      {
        if rows[i].id == id {
          rows := rows[i := rows[i].(hp := Max(0, rows[i].hp + delta))];
        }
      }
    }

    /**
     * `cleanup_expired_memories`: deletes every row with hp <= 0 and returns
     * how many. The statement is not guarded: `ok` false stands for the
     * exception it raises, with the table as it was.
     */
    method CleanupExpiredMemories(writeOk: bool) returns (deleted: nat, ok: bool)
      requires Valid()
      modifies this
      ensures Valid()
      ensures ok == writeOk
      ensures rows == if ok then Alive(old(rows)) else old(rows)
      ensures deleted == if ok then |Expired(old(rows))| else 0
    {
      if !writeOk {
        return 0, false;
      }
      var kept: seq<MemoryItem> := [];
      for i := 0 to |rows|
        invariant kept == Alive(rows[..i])
        invariant UniqueIds(kept)
        invariant forall x | x in kept :: x in rows[..i]
      {
        assert rows[..i + 1][..i] == rows[..i];
        if rows[i].hp > 0 {
          forall x | x in kept ensures x.id != rows[i].id {
            var k :| 0 <= k < i && rows[k] == x;
          }
          kept := kept + [rows[i]];
        }
      }
      assert rows[..|rows|] == rows;
      CleanupSelective(rows);
      deleted := |rows| - |kept|;
      rows := kept;
      ok := true;
    }

    /**
     * `decay_all_hp(user, rate)`: geometric decay of the user's long-term
     * rows; `ok` false stands for the exception a failed UPDATE raises.
     */
    method DecayAllHp(user: UserId, rate: Rational, writeOk: bool) returns (ok: bool)
      requires Valid() && rate.den > 0
      modifies this
      ensures Valid()
      ensures ok == writeOk
      ensures rows == if ok then Decayed(old(rows), user, rate) else old(rows)
    {
      ok := writeOk;
      if !ok {
        return;
      }
      ghost var before := rows;
      for i := 0 to |rows|
        invariant |rows| == |before|
        invariant forall k | 0 <= k < i :: rows[k] == DecayRow(before[k], user, rate)
        invariant forall k | i <= k < |rows| :: rows[k] == before[k]
        invariant forall k | 0 <= k < |rows| :: rows[k].id == before[k].id
      {
        if Selected(rows[i], user, LongTier) {
          rows := rows[i := rows[i].(hp := DecayedHp(rows[i].hp, rate))];
        }
      }
    }

    /** `count_short_term_memories(user)` */
    method CountShortTermMemories(user: UserId) returns (n: nat)
      ensures n == ShortTermCount(rows, user)
    {
      n := 0;
      for i := 0 to |rows|
        invariant n == |Select(rows[..i], user, ShortTier)|
      {
        assert rows[..i + 1][..i] == rows[..i];
        if Selected(rows[i], user, ShortTier) {
          n := n + 1;
        }
      }
      assert rows[..|rows|] == rows;
    }
  }
}
