# sign: the credential decision of the WebServer CGI helper

`CGImysql/sign.cpp` is a small program that a web server runs to register or
log in a user. It reads the whole `user` table (`username`, `passwd`) through a
pooled MySQL connection and folds it into a `std::map`. It then builds an
`insert` statement for the given name and password in a 200-byte `malloc`ed
buffer. Finally it dispatches on a flag character:

- `'3'` registers: a name already in the table prints `0`; otherwise the insert
  runs under a mutex, and its status decides between `1` and `0`.
- `'2'` logs in: it prints `1` exactly when the name is in the table with that
  password.
- Any other flag prints `0`.

This project models that decision as pure functions. The database is abstract:
the fetched rows and the status of the insert query are inputs. The observable
result is a trace of effects: lock, unlock, query and printed line.

Modules:

- `Wrappers`: `Option`.
- `CStrings`: C strings (bytes 1–255, no terminator inside) and the
  fixed-capacity buffer written by `strcpy`/`strcat`, as written and
  bounds-checked.
- `Users`: the fetched rows, the fold into the `users` map, and
  `std::map::operator[]`.
- `Effects`: the effect trace, the mutex reduced to held/free, and lock
  discipline.
- `Sign`: the insert statement, register, login, the flag dispatch and `Run`.
- `SignProperties`: what a whole run promises, stated over the raw inputs.

The flag is taken from `*argv[0]`, the first character of the program's own
name, and not from one of the arguments. The model keeps this: the flag is an
opaque `char` input, separate from `name` (`argv[1]`) and `passwd` (`argv[2]`).

## Model

| member | source | states |
|---|---|---|
| Users.LoadRows | CGImysql/sign.cpp:37-41 | the folded map's keys are exactly the user names occurring in the fetched rows |
| Users.LoadRowsLastWins | CGImysql/sign.cpp:37-41 | every key of the folded map is bound to the password of the last row carrying that name: later rows overwrite earlier ones |
| Users.LoadUsers | CGImysql/sign.cpp:37-41 | the fetch loop yields a map whose keys are the rows' user names and which maps the name of each row not overwritten later to that row's password |
| Users.Subscript | CGImysql/sign.cpp:81 | `operator[]` returns the stored value and leaves the map alone when the key is present; a missing key is inserted with an empty value and every other entry is unchanged |
| Sign.InsertSql | CGImysql/sign.cpp:52-57 | the statement is 49 + name + password bytes long, made of the fixed head, the quoted name, the separator `', '`, the password and `')` at fixed offsets |
| Sign.BuildAsWritten | CGImysql/sign.cpp:51-57 | the six copies into the 200-byte buffer produce exactly the statement text, which stays inside the buffer iff name and password total at most 150 bytes |
| Sign.OverrunWitness | CGImysql/sign.cpp:51-57 | a 151-byte name with an empty password writes past the 200-byte buffer |
| Sign.BuildChecked | CGImysql/sign.cpp:51-57 | the bounds-checked build succeeds iff name and password total at most 150 bytes, and then equals the as-written buffer |
| Sign.InsertSqlInjective | CGImysql/sign.cpp:52-57 | with the name's length fixed, the statement text determines both the name and the password |
| Sign.InsertSqlAmbiguous | CGImysql/sign.cpp:52-57 | without escaping, a name ending in `', '` + b and a password starting with b + `', '` give the same statement |
| Sign.Register | CGImysql/sign.cpp:59-76 | register prints `1` iff the name is absent and the insert status is 0, else `0`; it queries the statement iff the name is absent; the mutex is free at the end with the query under it |
| Sign.Login | CGImysql/sign.cpp:80-88 | login prints `1` iff the name is a key mapped to the given password, else `0`, and returns the map unchanged although it uses `operator[]` |
| Sign.Dispatch | CGImysql/sign.cpp:59-89 | every flag leaves the map unchanged, prints exactly one verdict, keeps lock discipline, and issues a query iff the flag is `'3'` and the name is absent |
| Sign.Run | CGImysql/sign.cpp:25-89 | a failed select aborts; an over-long statement is an overrun; otherwise the table is the folded rows, exactly one verdict is printed and the mutex is free at the end with every query under it |
| Effects.ReplayBalances | CGImysql/sign.cpp:61-63 | a trace that replays from free to free has as many locks as unlocks |
| Effects.PrintedAppend | CGImysql/sign.cpp:59-89 | the lines a trace prints are the lines its first part prints followed by those of the rest |
| Effects.QueriesAppend | CGImysql/sign.cpp:59-89 | the queries a trace issues are those of its first part followed by those of the rest |
| Effects.LockCountAppend | CGImysql/sign.cpp:61 | the locks of a trace are the locks of its two parts added together |
| Effects.UnlockCountAppend | CGImysql/sign.cpp:63 | the unlocks of a trace are the unlocks of its two parts added together |
| Effects.CriticalSectionDisciplined | CGImysql/sign.cpp:61-63 | lock, query, unlock followed by prints starts and ends free with the query under the lock |
| SignProperties.LoginVerdict | CGImysql/sign.cpp:80-88 | login prints `1` iff the last row carrying the name has the given password, and otherwise `0`; no query, table unchanged |
| SignProperties.RegisterDuplicate | CGImysql/sign.cpp:59-74 | registering a name some row carries prints `0` and issues no query |
| SignProperties.RegisterNew | CGImysql/sign.cpp:60-69 | registering a new name issues exactly the insert statement, between lock and unlock, and prints `1` iff its status is 0 |
| SignProperties.OtherFlagRefused | CGImysql/sign.cpp:89 | any flag other than `'2'` or `'3'` prints `0` and does nothing else |
| SignProperties.LockBalanced | CGImysql/sign.cpp:59-89 | on every defined run locks and unlocks balance, and the only query ever issued is the insert statement |
| SignProperties.AliceScenarios | CGImysql/sign.cpp:59-88 | with table {alice: pw1}: alice/pw1 logs in, alice/wrong does not, registering alice is refused, registering bob inserts and succeeds |

## Left out

- `lock/locker.h` (`sem`, `locker`, `cond`) is not part of this model. Those classes only forward to POSIX semaphore, mutex and condition-variable calls. Their behaviour is operating-system concurrency, not logic of this repository.
- Threads: the mutex in `sign.cpp` is local to one single-threaded process. It is modelled as a held/free flag, and the return codes of `pthread_mutex_*`, which the program ignores, are not modelled.
- The MySQL client and the connection pool (`GetInstance`, `GetConnection`, `mysql_query`, `mysql_store_result`, `mysql_fetch_row`, `mysql_free_result`, `DestroyPool`) are external I/O. They become the `selected` rows and the `insertStatus` input.
- The select-failure path (lines 25-28) is the opaque `QueryFailed` outcome. The error text from `mysql_error` and the exit code -1 are not modelled.
- `mysql_num_fields` and `mysql_fetch_fields` compute values that are never used.
- `NULL` column values and a missing `argv[1]`/`argv[2]` are undefined behaviour in the program, which does not check for them. Rows and arguments are modelled as C strings.
- A failed `malloc` is not checked by the program and is not modelled. The unfreed buffer is not modelled either.
- Sign.Run: when the statement does not fit the buffer, the program's behaviour is undefined. The model reports `BufferOverrun` instead of predicting what happens.
- Output formatting: verdicts are the literal lines `"1\n"` and `"0\n"`, and stream buffering between `cout` and `printf` is not modelled.

## Findings

| source | as written | input that shows it | evidently intended | confidence | as-written member | corrected member |
|---|---|---|---|---|---|---|
| CGImysql/sign.cpp:51-57 | the statement is built with `strcpy`/`strcat` into a 200-byte buffer with no length check | name of 151 bytes, empty password: 200 characters plus the terminator, 201 bytes | the statement never writes past its buffer; inputs that do not fit are refused | high; not executed | Sign.OverrunWitness | Sign.BuildChecked |
