/**
 * seed.py: loading the CSV export into the database. The file holds one row
 * per visited place; a user is added the first time its `user_id` shows up
 * and a location is added for every row.
 *
 * The CSV reader is the input sequence of rows (every field still a string,
 * as `csv.DictReader` yields it), and the database session is the sequence
 * of objects handed to `db.session.add`, in the order they are handed over.
 */
module Seed {

  /** One CSV row. */
  datatype Row = Row(
    userId: string,
    userName: string,
    userAge: string,
    userGender: string,
    lastLocation: string,
    lat: string,
    long: string)

  /** The `User(...)` built from a row. */
  datatype NewUser = NewUser(id: string, name: string, age: string, gender: string)

  /** The `Location(...)` built from a row; `lat` and `long` go to `ll_to_earth`. */
  datatype NewLocation = NewLocation(userId: string, name: string, lat: string, long: string)

  /** One `db.session.add(...)`. */
  datatype Added = AddUser(user: NewUser) | AddLocation(location: NewLocation)

  function UserFrom(row: Row): NewUser {
    NewUser(row.userId, row.userName, row.userAge, row.userGender)
  }

  function LocationFrom(row: Row): NewLocation {
    NewLocation(row.userId, row.lastLocation, row.lat, row.long)
  }

  /** The `user_id` values of some rows. */
  function IdsOf(rows: seq<Row>): set<string> {
    set r | r in rows :: r.userId
  }

  lemma IdsOfSnoc(rows: seq<Row>, row: Row)
    ensures IdsOf(rows + [row]) == IdsOf(rows) + {row.userId}
  {
  }

  /** The position of the first row with the given `user_id`. */
  function FirstIndex(rows: seq<Row>, id: string): (i: nat)
    requires id in IdsOf(rows)
    ensures i < |rows| && rows[i].userId == id && id !in IdsOf(rows[..i])
  {
    if rows[0].userId == id then 0
    else
      assert rows == [rows[0]] + rows[1..];
      assert id in IdsOf(rows[1..]);
      var k := FirstIndex(rows[1..], id);
      assert rows[..k + 1] == [rows[0]] + rows[1..][..k];
      k + 1
  }

  /** Only the first row with an id has no earlier row with that id. */
  lemma FirstIndexUnique(rows: seq<Row>, i: nat)
    requires i < |rows| && rows[i].userId !in IdsOf(rows[..i])
    ensures FirstIndex(rows, rows[i].userId) == i
  {
  }

  /** Rows added after the first row with an id do not move it. */
  lemma FirstIndexOfPrefix(rows: seq<Row>, n: nat, id: string)
    requires n <= |rows| && id in IdsOf(rows[..n])
    ensures id in IdsOf(rows) && FirstIndex(rows, id) == FirstIndex(rows[..n], id)
  {
  }

  /** What one loop iteration hands to the session, given the ids already
      seen: the user when its id is new, then the location. */
  function RowSession(row: Row, seen: set<string>): seq<Added> {
    (if row.userId !in seen then [AddUser(UserFrom(row))] else []) + [AddLocation(LocationFrom(row))]
  }

  /** Everything the loop hands to the session for `rows`, in order. */
  function Session(rows: seq<Row>): seq<Added> {
    if rows == [] then []
    else
      var front := rows[..|rows| - 1];
      Session(front) + RowSession(rows[|rows| - 1], IdsOf(front))
  }

  /** The users among what was added, in order. */
  function UsersAdded(session: seq<Added>): seq<NewUser> {
    if session == [] then []
    else
      var last := session[|session| - 1];
      UsersAdded(session[..|session| - 1]) + (if last.AddUser? then [last.user] else [])
  }

  /** The locations among what was added, in order. */
  function LocationsAdded(session: seq<Added>): seq<NewLocation> {
    if session == [] then []
    else
      var last := session[|session| - 1];
      LocationsAdded(session[..|session| - 1]) + (if last.AddLocation? then [last.location] else [])
  }

  lemma SessionSnoc(rows: seq<Row>, row: Row)
    ensures Session(rows + [row]) == Session(rows) + RowSession(row, IdsOf(rows))
  {
  }

  /** The seeding loop: one pass over the rows with the set of ids added so far. */
  method Seed(rows: seq<Row>) returns (session: seq<Added>)
    ensures session == Session(rows)
  {
    var userIds: set<string> := {};
    session := [];
    for i := 0 to |rows|
      invariant userIds == IdsOf(rows[..i])
      invariant session == Session(rows[..i])
    {
      var row := rows[i];
      assert rows[..i + 1] == rows[..i] + [row];
      SessionSnoc(rows[..i], row);
      IdsOfSnoc(rows[..i], row);
      ghost var done := session;
      if row.userId !in userIds {
        session := session + [AddUser(UserFrom(row))];
        userIds := userIds + {row.userId};
      }
      session := session + [AddLocation(LocationFrom(row))];
      assert session == done + RowSession(row, IdsOf(rows[..i]));
    }
    assert rows[..|rows|] == rows;
  }

  // ---------------------------------------------------------------------
  // What the session holds
  // ---------------------------------------------------------------------

  lemma {:induction false} UsersAddedAppend(a: seq<Added>, b: seq<Added>)
    ensures UsersAdded(a + b) == UsersAdded(a) + UsersAdded(b)
    decreases |b|
  {
    if b != [] {
      var front := b[..|b| - 1];
      assert (a + b)[..|a + b| - 1] == a + front;
      UsersAddedAppend(a, front);
    } else {
      assert a + b == a;
    }
  }

  lemma {:induction false} LocationsAddedAppend(a: seq<Added>, b: seq<Added>)
    ensures LocationsAdded(a + b) == LocationsAdded(a) + LocationsAdded(b)
    decreases |b|
  {
    if b != [] {
      var front := b[..|b| - 1];
      assert (a + b)[..|a + b| - 1] == a + front;
      LocationsAddedAppend(a, front);
    } else {
      assert a + b == a;
    }
  }

  /** The users seeded from `rows`. */
  function SeededUsers(rows: seq<Row>): seq<NewUser> {
    UsersAdded(Session(rows))
  }

  /** A row adds its user exactly when no earlier row had its id. */
  lemma SeededUsersSnoc(rows: seq<Row>, row: Row)
    ensures SeededUsers(rows + [row])
         == SeededUsers(rows) + (if row.userId !in IdsOf(rows) then [UserFrom(row)] else [])
  {
    var all := rows + [row];
    assert all[..|all| - 1] == rows;
    var step := RowSession(row, IdsOf(rows));
    UsersAddedAppend(Session(rows), step);
    var user := if row.userId !in IdsOf(rows) then [AddUser(UserFrom(row))] else [];
    UsersAddedAppend(user, [AddLocation(LocationFrom(row))]);
    assert UsersAdded([AddLocation(LocationFrom(row))]) == [];
    if row.userId !in IdsOf(rows) {
      assert UsersAdded(user) == [UserFrom(row)];
    }
  }

  /** The ids of some seeded users. */
  function UserIds(users: seq<NewUser>): set<string> {
    set u | u in users :: u.id
  }

  /** One user is seeded for each distinct `user_id` of the CSV. */
  lemma {:induction false} SeededIds(rows: seq<Row>)
    ensures UserIds(SeededUsers(rows)) == IdsOf(rows)
    decreases |rows|
  {
    if rows != [] {
      var front, row := rows[..|rows| - 1], rows[|rows| - 1];
      assert rows == front + [row];
      SeededIds(front);
      SeededUsersSnoc(front, row);
      IdsOfSnoc(front, row);
      var added := if row.userId !in IdsOf(front) then [UserFrom(row)] else [];
      assert forall u :: u in SeededUsers(rows) <==> u in SeededUsers(front) || u in added;
    }
  }

  /** No two seeded users share an id. */
  lemma {:induction false} SeededDistinct(rows: seq<Row>)
    ensures var users := SeededUsers(rows);
      forall a, b :: 0 <= a < b < |users| ==> users[a].id != users[b].id
    decreases |rows|
  {
    if rows != [] {
      var front, row := rows[..|rows| - 1], rows[|rows| - 1];
      assert rows == front + [row];
      SeededDistinct(front);
      SeededUsersSnoc(front, row);
      SeededIds(front);
      var before := SeededUsers(front);
      var users := SeededUsers(rows);
      forall a, b | 0 <= a < b < |users| ensures users[a].id != users[b].id {
        if b == |before| {
          assert users[a] == before[a];
          assert before[a] in before;
        } else {
          assert users[a] == before[a] && users[b] == before[b];
        }
      }
    }
  }

  /** A row whose id was seen before does not change the user: every seeded
      user carries the name, age and gender of the first row with its id. */
  lemma {:induction false} SeededFromFirstRow(rows: seq<Row>, k: nat)
    requires k < |SeededUsers(rows)|
    ensures var u := SeededUsers(rows)[k];
      u.id in IdsOf(rows) && u == UserFrom(rows[FirstIndex(rows, u.id)])
    decreases |rows|
  {
    var front, row := rows[..|rows| - 1], rows[|rows| - 1];
    assert rows == front + [row];
    SeededUsersSnoc(front, row);
    IdsOfSnoc(front, row);
    var u := SeededUsers(rows)[k];
    if k < |SeededUsers(front)| {
      SeededFromFirstRow(front, k);
      assert u == SeededUsers(front)[k];
      var i := FirstIndex(front, u.id);
      assert rows[..i] == front[..i];
      FirstIndexUnique(rows, i);
    } else {
      assert u == UserFrom(row);
      assert rows[..|front|] == front;
      FirstIndexUnique(rows, |front|);
    }
  }

  /** Users are seeded in the order in which their ids first appear. */
  lemma {:induction false} SeededInFirstAppearanceOrder(rows: seq<Row>, a: nat, b: nat)
    requires a < b < |SeededUsers(rows)|
    ensures var users := SeededUsers(rows);
      users[a].id in IdsOf(rows) && users[b].id in IdsOf(rows) &&
      FirstIndex(rows, users[a].id) < FirstIndex(rows, users[b].id)
    decreases |rows|
  {
    var front, row := rows[..|rows| - 1], rows[|rows| - 1];
    assert rows == front + [row];
    SeededUsersSnoc(front, row);
    IdsOfSnoc(front, row);
    var before := SeededUsers(front);
    var users := SeededUsers(rows);
    assert users[a] == before[a];
    SeededFromFirstRow(front, a);
    FirstIndexOfPrefix(rows, |front|, users[a].id);
    if b < |before| {
      assert users[b] == before[b];
      SeededInFirstAppearanceOrder(front, a, b);
      FirstIndexOfPrefix(rows, |front|, users[b].id);
    } else {
      FirstIndexUnique(rows, |front|);
    }
  }

  /** One location is seeded per row, duplicates included, in row order. */
  lemma {:induction false} SeededLocations(rows: seq<Row>)
    ensures var locations := LocationsAdded(Session(rows));
      |locations| == |rows| &&
      forall i :: 0 <= i < |rows| ==> locations[i] == LocationFrom(rows[i])
    decreases |rows|
  {
    if rows != [] {
      var front, row := rows[..|rows| - 1], rows[|rows| - 1];
      assert rows == front + [row];
      SeededLocations(front);
      var user := if row.userId !in IdsOf(front) then [AddUser(UserFrom(row))] else [];
      var location := [AddLocation(LocationFrom(row))];
      LocationsAddedAppend(Session(front), user + location);
      LocationsAddedAppend(user, location);
      assert LocationsAdded(user) == [];
      assert LocationsAdded(location) == [LocationFrom(row)];
    }
  }

  /** The session never holds a location before a user with its `user_id`:
      each row's user is added before its location. */
  lemma {:induction false} UserBeforeLocation(rows: seq<Row>, k: nat)
    requires k < |Session(rows)| && Session(rows)[k].AddLocation?
    ensures var session := Session(rows);
      exists j :: 0 <= j < k && session[j].AddUser? && session[j].user.id == session[k].location.userId
    decreases |rows|
  {
    var front, row := rows[..|rows| - 1], rows[|rows| - 1];
    var before := Session(front);
    var session := Session(rows);
    var step := RowSession(row, IdsOf(front));
    assert session == before + step;
    if k < |before| {
      UserBeforeLocation(front, k);
      var j :| 0 <= j < k && before[j].AddUser? && before[j].user.id == before[k].location.userId;
      assert session[j] == before[j];
    } else if row.userId !in IdsOf(front) {
      assert session[|before|] == AddUser(UserFrom(row));
    } else {
      SeededIds(front);
      var u :| u in SeededUsers(front) && u.id == row.userId;
      var m :| 0 <= m < |SeededUsers(front)| && SeededUsers(front)[m] == u;
      AddedUserPosition(before, m);
      var j :| 0 <= j < |before| && before[j] == AddUser(u);
      assert session[j] == before[j];
    }
  }

  /** Each user among what was added sits at some position of the session. */
  lemma {:induction false} AddedUserPosition(session: seq<Added>, m: nat)
    requires m < |UsersAdded(session)|
    ensures exists j :: 0 <= j < |session| && session[j] == AddUser(UsersAdded(session)[m])
    decreases |session|
  {
    var front, last := session[..|session| - 1], session[|session| - 1];
    if m < |UsersAdded(front)| {
      AddedUserPosition(front, m);
      var j :| 0 <= j < |front| && front[j] == AddUser(UsersAdded(front)[m]);
      assert session[j] == front[j];
    } else {
      assert session[|session| - 1] == AddUser(UsersAdded(session)[m]);
    }
  }

  /** Within one run, further rows whose ids earlier rows already had add
      no user: the users depend only on the first row of each id. */
  lemma {:induction false} RepeatedIdsAddNoUser(rows: seq<Row>, more: seq<Row>)
    requires IdsOf(more) <= IdsOf(rows)
    ensures SeededUsers(rows + more) == SeededUsers(rows)
    decreases |more|
  {
    if more == [] {
      assert rows + more == rows;
    } else {
      var front, row := more[..|more| - 1], more[|more| - 1];
      assert more == front + [row];
      IdsOfSnoc(front, row);
      RepeatedIdsAddNoUser(rows, front);
      assert rows + more == (rows + front) + [row];
      SeededUsersSnoc(rows + front, row);
      assert row in more;
      assert IdsOf(rows) <= IdsOf(rows + front) by {
        forall r | r in rows ensures r in rows + front { }
      }
    }
  }
}
