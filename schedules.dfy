/**
 * The `schedules` and `users` tables and the meaning of the SQL statements
 * the store issues against them (app/backend/tools/db_op.py). Each statement
 * is a single filter, insert or delete; the tables are sequences of rows in
 * storage order.
 */
module Schedules {
  import opened Wrappers

  /** A row of `schedules(id, user_id, title, description, date, time)`. */
  datatype Row = Row(id: int, userId: int, title: string, description: Option<string>, date: string, time: Option<string>)

  /** A column value as the database driver hands it back. */
  datatype Value = VInt(i: int) | VStr(s: string) | VNull

  /** A result row: the driver returns each row as a tuple of column values. */
  type Tuple = seq<Value>

  /** A row of `users`: its `id`, then its other columns. */
  datatype User = User(id: int, columns: seq<Value>)

  /** The schedules table together with the next auto-increment id. */
  datatype Tables = Tables(schedules: seq<Row>, nextId: int)

  function OptValue(o: Option<string>): Value {
    match o
    case Some(s) => VStr(s)
    case None => VNull
  }

  /** `SELECT *` column order. */
  function AsTuple(r: Row): (t: Tuple)
    ensures |t| == 6 && t[0] == VInt(r.id) && t[1] == VInt(r.userId)
  {
    [VInt(r.id), VInt(r.userId), VStr(r.title), OptValue(r.description), VStr(r.date), OptValue(r.time)]
  }

  function OptString(v: Value): Option<string> {
    if v.VStr? then Some(v.s) else None
  }

  /** Reads a `SELECT *` tuple back as a row; `None` when it does not have the row's shape. */
  function RowOfTuple(x: Tuple): (r: Option<Row>)
    ensures r.Some? ==> AsTuple(r.value) == x
  {
    if |x| == 6 && x[0].VInt? && x[1].VInt? && x[2].VStr? && x[4].VStr? && !x[3].VInt? && !x[5].VInt? then
      Some(Row(x[0].i, x[1].i, x[2].s, OptString(x[3]), x[4].s, OptString(x[5])))
    else None
  }

  /** A row read back from its tuple is the row itself, so `AsTuple` loses nothing. */
  lemma RowOfTupleAsTuple(r: Row)
    ensures RowOfTuple(AsTuple(r)) == Some(r)
  {
  }

  /** The WHERE clauses used on `schedules`; each names the owning user. */
  datatype Cond =
    | UserIs(userId: int)                      // user_id = %s
    | UserOnDate(userId: int, date: string)    // user_id = %s AND date = %s
    | UserAndId(userId: int, id: int)          // user_id = %s AND id = %s

  predicate Matches(c: Cond, r: Row) {
    match c
    case UserIs(u) => r.userId == u
    case UserOnDate(u, d) => r.userId == u && r.date == d
    case UserAndId(u, i) => r.userId == u && r.id == i
  }

  /** The rows of `t`, in order, for which `c` holds (`want`) or fails (`!want`). */
  function Keep(t: seq<Row>, c: Cond, want: bool): (r: seq<Row>)
    ensures |r| <= |t|
  {
    if t == [] then []
    else (if Matches(c, t[0]) == want then [t[0]] else []) + Keep(t[1..], c, want)
  }

  /** A row survives the filter exactly when it is in the table and the condition's answer is `want`. */
  lemma {:induction false} KeepMembers(t: seq<Row>, c: Cond, want: bool)
    ensures forall x :: x in Keep(t, c, want) <==> x in t && Matches(c, x) == want
  {
    if t != [] {
      KeepMembers(t[1..], c, want);
      assert t == [t[0]] + t[1..];
    }
  }

  /** Every row the store ever holds has a distinct id below the counter. */
  predicate WellKeyed(db: Tables) {
    && (forall i :: 0 <= i < |db.schedules| ==> db.schedules[i].id < db.nextId)
    && UniqueIds(db.schedules)
  }

  predicate UniqueIds(t: seq<Row>) {
    forall i, j :: 0 <= i < j < |t| ==> t[i].id != t[j].id
  }

  /** The SQL statements the store issues. */
  datatype Statement =
    | SelectWhere(cond: Cond)          // SELECT * FROM schedules WHERE ...
    | SelectIdsWhere(cond: Cond)       // SELECT id FROM schedules WHERE ...
    | Insert(userId: int, date: string, title: string, time: Option<string>, description: Option<string>)
    | DeleteWhere(cond: Cond)          // DELETE FROM schedules WHERE ...
    | SelectUser(userId: int)          // SELECT * FROM users WHERE id = %s

  /** What executing a statement leaves behind and what `fetchall()` then returns. */
  datatype Executed = Executed(after: Tables, rows: seq<Tuple>)

  function Project(t: seq<Row>): (r: seq<Tuple>)
    ensures |r| == |t|
  {
    seq(|t|, i requires 0 <= i < |t| => AsTuple(t[i]))
  }

  function IdTuples(t: seq<Row>): (r: seq<Tuple>)
    ensures |r| == |t|
  {
    seq(|t|, i requires 0 <= i < |t| => [VInt(t[i].id)])
  }

  function UserTuples(users: seq<User>, id: int): seq<Tuple> {
    if users == [] then []
    else (if users[0].id == id then [[VInt(users[0].id)] + users[0].columns] else []) + UserTuples(users[1..], id)
  }

  /** The row an INSERT creates: the next id, then the given columns. */
  function NewRow(db: Tables, s: Statement): Row
    requires s.Insert?
  {
    Row(db.nextId, s.userId, s.title, s.description, s.date, s.time)
  }

  function Run(s: Statement, db: Tables, users: seq<User>): Executed {
    match s
    case SelectWhere(c) => Executed(db, Project(Keep(db.schedules, c, true)))
    case SelectIdsWhere(c) => Executed(db, IdTuples(Keep(db.schedules, c, true)))
    case Insert(_, _, _, _, _) => Executed(Tables(db.schedules + [NewRow(db, s)], db.nextId + 1), [])
    case DeleteWhere(c) => Executed(db.(schedules := Keep(db.schedules, c, false)), [])
    case SelectUser(u) => Executed(db, UserTuples(users, u))
  }

  /** Rows with distinct ids give distinct `SELECT *` tuples. */
  lemma ProjectDistinct(t: seq<Row>)
    requires UniqueIds(t)
    ensures forall i, j :: 0 <= i < j < |Project(t)| ==> Project(t)[i] != Project(t)[j]
  {
    forall i, j | 0 <= i < j < |Project(t)| ensures Project(t)[i] != Project(t)[j] {
      assert Project(t)[i][0] == VInt(t[i].id) && Project(t)[j][0] == VInt(t[j].id);
    }
  }

  /** Rows are never duplicated by filtering, so filtering keeps ids distinct. */
  lemma {:induction false} KeepUniqueIds(t: seq<Row>, c: Cond, want: bool)
    requires UniqueIds(t)
    ensures UniqueIds(Keep(t, c, want))
  {
    if t != [] {
      KeepUniqueIds(t[1..], c, want);
      KeepMembers(t[1..], c, want);
      var rest := Keep(t[1..], c, want);
      forall x | x in rest ensures x.id != t[0].id {
        var k :| 0 <= k < |t[1..]| && t[1..][k] == x;
        assert t[k + 1] == x;
      }
    }
  }

  /** Every statement keeps ids distinct and below the counter. */
  lemma RunWellKeyed(s: Statement, db: Tables, users: seq<User>)
    requires WellKeyed(db)
    ensures WellKeyed(Run(s, db, users).after)
    ensures Run(s, db, users).after.nextId >= db.nextId
  {
    if s.DeleteWhere? {
      KeepUniqueIds(db.schedules, s.cond, false);
      KeepMembers(db.schedules, s.cond, false);
      var k := Keep(db.schedules, s.cond, false);
      forall i | 0 <= i < |k| ensures k[i].id < db.nextId {
        assert k[i] in db.schedules;
      }
    }
  }

  /** Filtering splits the table: the matching and the other rows together are the whole table. */
  lemma {:induction false} KeepPartition(t: seq<Row>, c: Cond)
    ensures multiset(Keep(t, c, true)) + multiset(Keep(t, c, false)) == multiset(t)
  {
    if t != [] {
      KeepPartition(t[1..], c);
      var head := [t[0]];
      assert t == head + t[1..];
      if Matches(c, t[0]) {
        assert Keep(t, c, true) == head + Keep(t[1..], c, true);
        assert Keep(t, c, false) == Keep(t[1..], c, false);
      } else {
        assert Keep(t, c, true) == Keep(t[1..], c, true);
        assert Keep(t, c, false) == head + Keep(t[1..], c, false);
      }
    }
  }

  /** Deleting by a condition a second time deletes nothing more. */
  lemma {:induction false} KeepIdempotent(t: seq<Row>, c: Cond, want: bool)
    ensures Keep(Keep(t, c, want), c, want) == Keep(t, c, want)
  {
    if t != [] {
      KeepIdempotent(t[1..], c, want);
      var rest := Keep(t[1..], c, want);
      if Matches(c, t[0]) == want {
        var k := [t[0]] + rest;
        assert Keep(t, c, want) == k;
        assert k[0] == t[0] && k[1..] == rest;
        assert Keep(k, c, want) == [t[0]] + Keep(rest, c, want);
      } else {
        assert Keep(t, c, want) == rest;
      }
    }
  }

  /** A condition about user `c.userId` never touches another user's rows: the rows of
      every other user are exactly the same, in the same order, after the delete. */
  lemma {:induction false} DeleteKeepsOthers(t: seq<Row>, c: Cond)
    ensures Keep(Keep(t, c, false), UserIs(c.userId), false) == Keep(t, UserIs(c.userId), false)
  {
    if t != [] {
      DeleteKeepsOthers(t[1..], c);
      var rest := Keep(t[1..], c, false);
      var own := UserIs(c.userId);
      if !Matches(c, t[0]) {
        var k := [t[0]] + rest;
        assert Keep(t, c, false) == k;
        assert k[0] == t[0] && k[1..] == rest;
        assert Keep(k, own, false) == (if Matches(own, t[0]) then [] else [t[0]]) + Keep(rest, own, false);
      } else {
        assert Keep(t, c, false) == rest;
        assert Matches(own, t[0]);
      }
    }
  }

  /** Keep distributes over concatenation. */
  lemma KeepCons(x: Row, rest: seq<Row>, c: Cond, want: bool)
    ensures Keep([x] + rest, c, want) == (if Matches(c, x) == want then [x] else []) + Keep(rest, c, want)
  {
    var t := [x] + rest;
    assert t[0] == x && t[1..] == rest;
  }

  lemma AppendAssoc(a: seq<Row>, b: seq<Row>, c: seq<Row>)
    ensures a + (b + c) == (a + b) + c
  {
  }

  lemma {:induction false} KeepAppend(t: seq<Row>, u: seq<Row>, c: Cond, want: bool)
    ensures Keep(t + u, c, want) == Keep(t, c, want) + Keep(u, c, want)
  {
    if t == [] {
      assert t + u == u;
    } else {
      var x, rest := t[0], t[1..];
      var h := if Matches(c, x) == want then [x] else [];
      assert t == [x] + rest;
      AppendAssoc([x], rest, u);
      KeepCons(x, rest + u, c, want);
      KeepCons(x, rest, c, want);
      KeepAppend(rest, u, c, want);
      AppendAssoc(h, Keep(rest, c, want), Keep(u, c, want));
    }
  }

  /** When no row qualifies, filtering yields nothing. */
  lemma {:induction false} KeepNone(t: seq<Row>, c: Cond, want: bool)
    requires forall x | x in t :: Matches(c, x) != want
    ensures Keep(t, c, want) == []
  {
    if t != [] {
      assert t[0] in t;
      forall x | x in t[1..] ensures Matches(c, x) != want {
        assert x in t;
      }
      KeepNone(t[1..], c, want);
    }
  }

  /** With distinct ids, a point condition matches at most one row. */
  lemma {:induction false} PointMatchesAtMostOne(t: seq<Row>, u: int, id: int)
    requires UniqueIds(t)
    ensures |Keep(t, UserAndId(u, id), true)| <= 1
  {
    if t != [] {
      var c := UserAndId(u, id);
      assert UniqueIds(t[1..]);
      PointMatchesAtMostOne(t[1..], u, id);
      if Matches(c, t[0]) {
        forall x | x in t[1..] ensures x.id != id {
          var k :| 0 <= k < |t[1..]| && t[1..][k] == x;
          assert t[k + 1] == x;
        }
        KeepNone(t[1..], c, true);
      }
    }
  }

  /** The projected result holds the tuple of a row exactly when the row was selected,
      and every tuple in it reads back as a selected row. */
  lemma ProjectMembers(rs: seq<Row>)
    ensures forall r :: AsTuple(r) in Project(rs) <==> r in rs
    ensures forall x :: x in Project(rs) ==> RowOfTuple(x).Some? && RowOfTuple(x).value in rs
  {
    forall r | AsTuple(r) in Project(rs) ensures r in rs {
      var i :| 0 <= i < |rs| && Project(rs)[i] == AsTuple(r);
      RowOfTupleAsTuple(r);
      RowOfTupleAsTuple(rs[i]);
    }
    forall r | r in rs ensures AsTuple(r) in Project(rs) {
      var i :| 0 <= i < |rs| && rs[i] == r;
      assert Project(rs)[i] == AsTuple(r);
    }
    forall x | x in Project(rs) ensures RowOfTuple(x).Some? && RowOfTuple(x).value in rs {
      var i :| 0 <= i < |rs| && Project(rs)[i] == x;
      RowOfTupleAsTuple(rs[i]);
    }
  }

  lemma ProjectAppend(a: seq<Row>, b: seq<Row>)
    ensures Project(a + b) == Project(a) + Project(b)
  {
    assert forall i :: 0 <= i < |a + b| ==> Project(a + b)[i] == (Project(a) + Project(b))[i];
  }

  /** `(id,)` is among the selected ids exactly when a selected row has that id. */
  lemma IdTuplesMembers(rs: seq<Row>, id: int)
    ensures [VInt(id)] in IdTuples(rs) <==> exists r :: r in rs && r.id == id
  {
    if [VInt(id)] in IdTuples(rs) {
      var i :| 0 <= i < |rs| && IdTuples(rs)[i] == [VInt(id)];
      assert IdTuples(rs)[i][0] == VInt(id);
      assert rs[i] in rs;
    }
    if r :| r in rs && r.id == id {
      var i :| 0 <= i < |rs| && rs[i] == r;
      assert IdTuples(rs)[i] == [VInt(id)];
    }
  }

  /** A delete whose condition names user `c.userId` leaves the rows of any other user `v`
      exactly as they were, in the same order. */
  lemma {:induction false} DeleteSparesOtherUser(t: seq<Row>, c: Cond, v: int)
    requires v != c.userId
    ensures Keep(Keep(t, c, false), UserIs(v), true) == Keep(t, UserIs(v), true)
  {
    if t != [] {
      var x, rest := t[0], t[1..];
      assert t == [x] + rest;
      DeleteSparesOtherUser(rest, c, v);
      KeepCons(x, rest, c, false);
      KeepCons(x, rest, UserIs(v), true);
      if !Matches(c, x) {
        assert Keep(t, c, false) == [x] + Keep(rest, c, false);
        KeepCons(x, Keep(rest, c, false), UserIs(v), true);
      } else {
        assert x.userId == c.userId;
        assert Keep(t, c, false) == Keep(rest, c, false);
        assert Keep(t, UserIs(v), true) == [] + Keep(rest, UserIs(v), true);
      }
    }
  }

  /** `SELECT * FROM users WHERE id = %s` returns exactly the matching rows: each returned row
      has the id in its first column, every user with that id is returned, and a missing user
      gives nothing. */
  lemma {:induction false} UserTuplesMatch(users: seq<User>, id: int)
    ensures forall x :: x in UserTuples(users, id) ==> |x| > 0 && x[0] == VInt(id)
    ensures forall u :: u in users && u.id == id ==> [VInt(u.id)] + u.columns in UserTuples(users, id)
    ensures (forall u :: u in users ==> u.id != id) ==> UserTuples(users, id) == []
  {
    if users != [] {
      UserTuplesMatch(users[1..], id);
      var head := if users[0].id == id then [[VInt(users[0].id)] + users[0].columns] else [];
      assert UserTuples(users, id) == head + UserTuples(users[1..], id);
      forall x | x in UserTuples(users, id) ensures |x| > 0 && x[0] == VInt(id) {
        if x in head {
          assert x == [VInt(users[0].id)] + users[0].columns;
        }
      }
      forall u | u in users && u.id == id ensures [VInt(u.id)] + u.columns in UserTuples(users, id) {
        if u != users[0] {
          assert u in users[1..];
        }
      }
      if forall u :: u in users ==> u.id != id {
        assert users[0] in users;
        forall u | u in users[1..] ensures u.id != id {
          assert u in users;
        }
      }
    }
  }

  /** After deleting the rows a condition matches, selecting by it finds none. */
  lemma DeleteThenSelectEmpty(t: seq<Row>, c: Cond)
    ensures Keep(Keep(t, c, false), c, true) == []
  {
    KeepMembers(t, c, false);
    KeepNone(Keep(t, c, false), c, true);
  }

  /** With distinct ids, deleting by a point condition that some row meets removes exactly one row. */
  lemma PointDeleteRemovesOne(t: seq<Row>, u: int, id: int)
    requires UniqueIds(t)
    requires exists r :: r in t && r.id == id && r.userId == u
    ensures |Keep(t, UserAndId(u, id), false)| == |t| - 1
  {
    var point := UserAndId(u, id);
    KeepMembers(t, point, true);
    KeepPartition(t, point);
    PointMatchesAtMostOne(t, u, id);
    var r :| r in t && r.id == id && r.userId == u;
    assert r in Keep(t, point, true);
    assert |multiset(Keep(t, point, true))| + |multiset(Keep(t, point, false))| == |multiset(t)|;
  }
}
