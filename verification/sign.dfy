/**
 * The decision sign.cpp takes once the user table has been fetched: fold the
 * rows into a map, build the insert statement in a 200-byte buffer, then
 * register (flag '3'), log in (flag '2') or refuse (any other flag), printing
 * one verdict line. The database is abstract: the fetched rows and the status
 * the insert query returns are inputs.
 */
module Sign {
  import opened Wrappers
  import opened CStrings
  import opened Users
  import opened Effects

  /** The verdict lines `printf("1\n")` and `printf("0\n")`. */
  const Accept: string := "1\n"
  const Reject: string := "0\n"

  /** Size of the `malloc`ed statement buffer. */
  const BufferSize: nat := 200

  const InsertHead: CString := "insert into user(username, passwd) values("

  /** Everything one invocation depends on. */
  datatype Invocation = Invocation(
    selected: Option<seq<Row>>, // rows of the select, or None when the select failed
    flag: char,                 // *argv[0]: the first character of the program name
    name: CString,              // argv[1]
    passwd: CString,            // argv[2]
    insertStatus: int           // what mysql_query returns for the insert (0 = success)
  )

  datatype Outcome =
    | QueryFailed    // the select failed: an error is printed and main returns -1
    | BufferOverrun  // the statement does not fit its buffer: behaviour is undefined
    | Finished(users: UserMap, trace: seq<Effect>)

  // ---------------------------------------------------------------------------
  // The insert statement
  // ---------------------------------------------------------------------------

  /** The statement text the program means to send, independent of any buffer. */
  function InsertSql(name: CString, passwd: CString): (sql: CString)
    ensures |sql| == 49 + |name| + |passwd|
    ensures sql[..43] == InsertHead + "'" && sql[|sql| - 2..] == "')"
    ensures sql[43..43 + |name|] == name
    ensures sql[43 + |name|..47 + |name|] == "', '"
    ensures sql[47 + |name|..47 + |name| + |passwd|] == passwd
  {
    InsertHead + "'" + name + "', '" + passwd + "')"
  }

  /**
   * As written: `strcpy` then five `strcat`s into the 200-byte buffer, with
   * no length check. The text is always the intended statement, but it only
   * stays inside the allocation when the two arguments total at most 150 bytes.
   */
  function BuildAsWritten(name: CString, passwd: CString): (b: Buffer)
    ensures b.cap == BufferSize
    ensures b.text == InsertSql(name, passwd)
    ensures Fits(b) <==> |name| + |passwd| <= 150
  {
    var b0 := Buffer(BufferSize, "");
    var b1 := Strcpy(b0, InsertHead);
    var b2 := Strcat(b1, "'");
    var b3 := Strcat(b2, name);
    var b4 := Strcat(b3, "', '");
    var b5 := Strcat(b4, passwd);
    Strcat(b5, "')")
  }

  /** A 151-byte user name makes the as-written build write past the buffer. */
  lemma OverrunWitness()
    ensures var name: CString := seq(151, _ => 'a');
      !Fits(BuildAsWritten(name, ""))
  {
  }

  /**
   * Corrected: the same copies, each refused when it would not fit. It
   * succeeds exactly when the as-written build stays in bounds, and then
   * yields the same text.
   */
  function BuildChecked(name: CString, passwd: CString): (r: Option<Buffer>)
    ensures r.Some? <==> |name| + |passwd| <= 150
    ensures r.Some? ==> r.value == BuildAsWritten(name, passwd) && Fits(r.value)
  {
    // The constant 43-byte prefix always fits; only the arguments can overrun.
    var b2 := Strcat(Strcpy(Buffer(BufferSize, ""), InsertHead), "'");
    var b3 :- CheckedStrcat(b2, name);
    var b4 :- CheckedStrcat(b3, "', '");
    var b5 :- CheckedStrcat(b4, passwd);
    CheckedStrcat(b5, "')")
  }

  /** With the name's length known, the statement determines both arguments. */
  lemma InsertSqlInjective(n1: CString, p1: CString, n2: CString, p2: CString)
    requires |n1| == |n2|
    requires InsertSql(n1, p1) == InsertSql(n2, p2)
    ensures n1 == n2 && p1 == p2
  {
  }

  /**
   * Without it, the statement is ambiguous: the quotes are not escaped, so a
   * name carrying `', '` and a password carrying it yield the same text.
   */
  lemma InsertSqlAmbiguous(a: CString, b: CString, c: CString)
    ensures var sep: CString := "', '";
      InsertSql(a + sep + b, c) == InsertSql(a, b + sep + c)
  {
  }

  // ---------------------------------------------------------------------------
  // The dispatch on the flag
  // ---------------------------------------------------------------------------

  /**
   * Flag '3': a name already in the table is refused; otherwise the insert is
   * issued under the lock and its status decides the verdict.
   */
  function Register(users: UserMap, name: CString, sql: string, status: int): (trace: seq<Effect>)
    ensures Printed(trace) == [if name !in users && status == 0 then Accept else Reject]
    ensures Queries(trace) == (if name in users then [] else [sql])
    ensures Disciplined(trace)
  {
    if name !in users then
      var section := [Lock, Query(sql), Unlock];
      var verdict := [Print(if status == 0 then Accept else Reject)];
      CriticalSectionDisciplined(sql, verdict);
      PrintedAppend(section, verdict);
      QueriesAppend(section, verdict);
      assert section[1..] == [Query(sql), Unlock] && section[1..][1..] == [Unlock];
      assert section[1..][1..][1..] == [] && verdict[1..] == [];
      assert Printed(section[1..][1..]) == Queries(section[1..][1..]) == [];
      section + verdict
    else
      PrintsOnlyDisciplined([Print(Reject)]);
      [Print(Reject)]
  }

  /**
   * Flag '2': `users.find(name) != users.end() && users[name] == passwd`.
   * The subscript, which would insert a missing key, is evaluated only after
   * the lookup has found the name, so the table comes back unchanged.
   */
  function Login(users: UserMap, name: CString, passwd: CString): (r: (UserMap, seq<Effect>))
    ensures r.0 == users
    ensures r.1 == [Print(if name in users && users[name] == passwd then Accept else Reject)]
  {
    if name in users then
      var (stored, after) := Subscript(users, name);
      (after, [Print(if stored == passwd then Accept else Reject)])
    else
      (users, [Print(Reject)])
  }

  /** The `if / else if / else` on the flag. */
  function Dispatch(users: UserMap, flag: char, name: CString, passwd: CString, sql: string, status: int)
    : (r: (UserMap, seq<Effect>))
    ensures r.0 == users
    ensures |Printed(r.1)| == 1 && Printed(r.1)[0] in {Accept, Reject}
    ensures Disciplined(r.1)
    ensures |Queries(r.1)| <= 1
    ensures |Queries(r.1)| == 1 <==> flag == '3' && name !in users
  {
    if flag == '3' then
      (users, Register(users, name, sql, status))
    else if flag == '2' then
      var r := Login(users, name, passwd);
      PrintsOnlyDisciplined(r.1);
      r
    else
      var trace := [Print(Reject)];
      PrintsOnlyDisciplined(trace);
      (users, trace)
  }

  /** One invocation of the program, from the select onwards. */
  function Run(inv: Invocation): (r: Outcome)
    ensures r.QueryFailed? <==> inv.selected.None?
    ensures r.BufferOverrun? <==> inv.selected.Some? && |inv.name| + |inv.passwd| > 150
    ensures r.Finished? ==> r.users == LoadRows(inv.selected.value)
    ensures r.Finished? ==> |Printed(r.trace)| == 1 && Printed(r.trace)[0] in {Accept, Reject}
    ensures r.Finished? ==> Disciplined(r.trace)
  {
    match inv.selected
    case None => QueryFailed
    case Some(rows) =>
      var users := LoadRows(rows);
      match BuildChecked(inv.name, inv.passwd)
      case None => BufferOverrun
      case Some(buffer) =>
        var (after, trace) := Dispatch(users, inv.flag, inv.name, inv.passwd, buffer.text, inv.insertStatus);
        Finished(after, trace)
  }
}
