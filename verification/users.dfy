/**
 * The user table as sign.cpp sees it: the rows of
 * `select username, passwd from user`, folded into a `std::map<string, string>`.
 */
module Users {
  import opened CStrings

  /** One fetched row: `row[0]` is the user name, `row[1]` the password. */
  datatype Row = Row(username: CString, passwd: CString)

  /** The in-memory table `users`, keyed by user name. */
  type UserMap = map<string, string>

  /** Every user name that occurs in some row. */
  function Usernames(rows: seq<Row>): set<string> {
    set i | 0 <= i < |rows| :: rows[i].username
  }

  /** Row `i` is the last row whose user name is `k`. */
  ghost predicate LastRowFor(rows: seq<Row>, k: string, i: int) {
    && 0 <= i < |rows|
    && rows[i].username == k
    && forall j | i < j < |rows| :: rows[j].username != k
  }

  /**
   * The map after the fetch loop has stored the rows in order, each with
   * `users[username] = passwd`: later rows overwrite earlier ones.
   */
  function LoadRows(rows: seq<Row>): (users: UserMap)
    ensures users.Keys == Usernames(rows)
    decreases |rows|
  {
    if rows == [] then map[]
    else
      var last := rows[|rows| - 1];
      var before := LoadRows(rows[..|rows| - 1]);
      assert Usernames(rows) == Usernames(rows[..|rows| - 1]) + {last.username} by {
        assert forall i | 0 <= i < |rows| - 1 :: rows[..|rows| - 1][i] == rows[i];
      }
      before[last.username := last.passwd]
  }

  /**
   * Independent description of the fold's values: a name that is a key maps
   * to the password of the last row carrying it.
   */
  lemma {:induction false} LoadRowsLastWins(rows: seq<Row>, k: string)
    ensures k in LoadRows(rows) ==>
      exists i :: LastRowFor(rows, k, i) && LoadRows(rows)[k] == rows[i].passwd
    decreases |rows|
  {
    if rows != [] {
      var n := |rows| - 1;
      var front := rows[..n];
      assert forall i | 0 <= i < n :: front[i] == rows[i];
      if rows[n].username == k {
        assert LastRowFor(rows, k, n);
      } else {
        LoadRowsLastWins(front, k);
        if k in LoadRows(rows) {
          var i :| LastRowFor(front, k, i) && LoadRows(front)[k] == front[i].passwd;
          assert LastRowFor(rows, k, i);
        }
      }
    }
  }

  /** The last row for a name is unique, so the fold's value is determined by it. */
  lemma LastRowUnique(rows: seq<Row>, k: string, i: int, j: int)
    requires LastRowFor(rows, k, i) && LastRowFor(rows, k, j)
    ensures i == j
  {
  }

  /**
   * The fetch loop itself: `while (row = mysql_fetch_row(result))
   * users[row[0]] = row[1];`, starting from an empty map.
   */
  method LoadUsers(rows: seq<Row>) returns (users: UserMap)
    ensures users.Keys == Usernames(rows)
    ensures forall i | 0 <= i < |rows| ::
      (forall j | i < j < |rows| :: rows[j].username != rows[i].username) ==>
        users[rows[i].username] == rows[i].passwd
  {
    users := map[];
    var n := 0;
    while n < |rows|
      invariant 0 <= n <= |rows|
      invariant users == LoadRows(rows[..n])
    {
      assert rows[..n + 1][..n] == rows[..n];
      users := users[rows[n].username := rows[n].passwd];
      n := n + 1;
    }
    assert rows[..n] == rows;
    forall i | 0 <= i < |rows| &&
      (forall j | i < j < |rows| :: rows[j].username != rows[i].username)
      ensures users[rows[i].username] == rows[i].passwd
    {
      var k := rows[i].username;
      LoadRowsLastWins(rows, k);
      var i' :| LastRowFor(rows, k, i') && users[k] == rows[i'].passwd;
      assert LastRowFor(rows, k, i);
      LastRowUnique(rows, k, i, i');
    }
  }

  /**
   * `std::map::operator[]`: returns the value stored for `k`, and when `k` is
   * missing first inserts it with an empty (default-constructed) value.
   */
  function Subscript(users: UserMap, k: string): (r: (string, UserMap))
    ensures k in r.1 && r.0 == r.1[k]
    ensures r.1.Keys == users.Keys + {k}
    ensures forall x | x in users && x != k :: r.1[x] == users[x]
    ensures k in users ==> r.1 == users
    ensures k !in users ==> r.0 == ""
  {
    if k in users then (users[k], users) else ("", users[k := ""])
  }
}
