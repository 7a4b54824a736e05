/**
 * What one run of sign.cpp promises, stated over its inputs: the fetched rows,
 * the flag, the two arguments and the insert status.
 */
module SignProperties {
  import opened Wrappers
  import opened CStrings
  import opened Users
  import opened Effects
  import opened Sign

  /** A run whose select succeeded and whose statement fits its buffer. */
  predicate Defined(inv: Invocation) {
    inv.selected.Some? && |inv.name| + |inv.passwd| <= 150
  }

  /**
   * Login prints "1" exactly when the last row carrying the name has the
   * given password, and otherwise "0"; it issues no query and leaves the
   * table as fetched.
   */
  lemma LoginVerdict(inv: Invocation)
    requires Defined(inv) && inv.flag == '2'
    ensures Run(inv).Finished?
    ensures Run(inv).users == LoadRows(inv.selected.value)
    ensures Queries(Run(inv).trace) == []
    ensures Printed(Run(inv).trace) == [Accept] <==>
      exists i :: LastRowFor(inv.selected.value, inv.name, i) && inv.selected.value[i].passwd == inv.passwd
    ensures Printed(Run(inv).trace) != [Accept] ==> Printed(Run(inv).trace) == [Reject]
  {
    var rows := inv.selected.value;
    var users := LoadRows(rows);
    var r := Run(inv);
    var line := if inv.name in users && users[inv.name] == inv.passwd then Accept else Reject;
    assert r.trace == [Print(line)];
    assert r.trace[1..] == [];
    LoadRowsLastWins(rows, inv.name);
    if exists i :: LastRowFor(rows, inv.name, i) && rows[i].passwd == inv.passwd {
      var i :| LastRowFor(rows, inv.name, i) && rows[i].passwd == inv.passwd;
      var j :| LastRowFor(rows, inv.name, j) && users[inv.name] == rows[j].passwd;
      LastRowUnique(rows, inv.name, i, j);
    }
  }

  /** Registering a name some row already carries prints "0" and inserts nothing. */
  lemma RegisterDuplicate(inv: Invocation)
    requires Defined(inv) && inv.flag == '3'
    requires exists i :: 0 <= i < |inv.selected.value| && inv.selected.value[i].username == inv.name
    ensures Run(inv).Finished?
    ensures Run(inv).trace == [Print(Reject)]
    ensures Queries(Run(inv).trace) == []
  {
  }

  /**
   * Registering a new name issues exactly one query, the insert statement for
   * the two arguments, between taking and releasing the lock, and prints "1"
   * exactly when that query returned 0.
   */
  lemma RegisterNew(inv: Invocation)
    requires Defined(inv) && inv.flag == '3'
    requires forall i | 0 <= i < |inv.selected.value| :: inv.selected.value[i].username != inv.name
    ensures Run(inv).Finished?
    ensures Queries(Run(inv).trace) == [InsertSql(inv.name, inv.passwd)]
    ensures Run(inv).trace[..3] == [Lock, Query(InsertSql(inv.name, inv.passwd)), Unlock]
    ensures Printed(Run(inv).trace) == [Accept] <==> inv.insertStatus == 0
    ensures Printed(Run(inv).trace) == [Accept] || Printed(Run(inv).trace) == [Reject]
  {
  }

  /** Any flag other than '2' and '3' prints "0" and does nothing else. */
  lemma OtherFlagRefused(inv: Invocation)
    requires Defined(inv) && inv.flag != '2' && inv.flag != '3'
    ensures Run(inv) == Finished(LoadRows(inv.selected.value), [Print(Reject)])
  {
  }

  /**
   * On every defined run the locks and unlocks balance, the table is the one
   * fetched, at most one query is issued, and it is the insert statement.
   */
  lemma LockBalanced(inv: Invocation)
    requires Defined(inv)
    ensures Run(inv).Finished?
    ensures LockCount(Run(inv).trace) == UnlockCount(Run(inv).trace)
    ensures Queries(Run(inv).trace) == [] || Queries(Run(inv).trace) == [InsertSql(inv.name, inv.passwd)]
  {
    var t := Run(inv).trace;
    ReplayBalances(Free, t, Free);
    if inv.flag != '3' {
      assert |t| == 1 && t[0].Print? && t[1..] == [];
    }
  }

  // ---------------------------------------------------------------------------
  // Concrete scenarios with the table {"alice": "pw1"}
  // ---------------------------------------------------------------------------

  function AliceRows(): (rows: seq<Row>)
    ensures LoadRows(rows) == map["alice" := "pw1"]
  {
    [Row("alice", "pw1")]
  }

  lemma AliceScenarios(status: int)
    ensures Printed(Run(Invocation(Some(AliceRows()), '2', "alice", "pw1", status)).trace) == [Accept]
    ensures Printed(Run(Invocation(Some(AliceRows()), '2', "alice", "wrong", status)).trace) == [Reject]
    ensures Run(Invocation(Some(AliceRows()), '3', "alice", "pw2", status)).trace == [Print(Reject)]
    ensures Queries(Run(Invocation(Some(AliceRows()), '3', "bob", "pw2", 0)).trace) == [InsertSql("bob", "pw2")]
    ensures Printed(Run(Invocation(Some(AliceRows()), '3', "bob", "pw2", 0)).trace) == [Accept]
  {
  }
}
