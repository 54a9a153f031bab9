/** Command usage rows, one per command and user, with usernames that change and move between users. */
module UsageStats {
  import opened Wrappers
  import opened Decimal
  import opened Text
  import opened Keys
  import DocStore

  const RETIRED := "stock_dividend"

  datatype Entry = Entry(cmd: string, uid: int, username: string, n: int, deleted: bool)
  datatype User = User(id: int, name: string)
  type Rows = map<string, Entry>

  /** The bare command for senders without a username, else the command and the user id. */
  function UsageKey(cmd: string, uid: int): string { if uid == 0 then cmd else cmd + ":" + Itoa(uid) }

  /** Command names are lower-case letters, digits and underscores; only these reach the store. */
  predicate IsCommand(cmd: string) {
    cmd != "" && forall i :: 0 <= i < |cmd| ==> 'a' <= cmd[i] <= 'z' || IsDigit(cmd[i]) || cmd[i] == '_'
  }

  /** The command is what comes before the first colon, if there is one. */
  lemma CommandPart(cmd: string, uid: int)
    requires IsCommand(cmd)
    ensures Find(UsageKey(cmd, uid), ':') == |cmd| && UsageKey(cmd, uid)[..|cmd|] == cmd
    ensures uid != 0 ==> |UsageKey(cmd, uid)| > |cmd| && UsageKey(cmd, uid)[|cmd| + 1..] == Itoa(uid)
  {
    var k := UsageKey(cmd, uid);
    assert uid != 0 ==> k[|cmd|] == ':';
    assert forall i :: 0 <= i < |cmd| ==> k[i] == cmd[i];
  }

  lemma {:induction false} UsageKeyInjective(c: string, u: int, d: string, v: int)
    requires IsCommand(c) && IsCommand(d) && UsageKey(c, u) == UsageKey(d, v)
    ensures c == d && u == v
  {
    CommandPart(c, u);
    CommandPart(d, v);
    if u != 0 && v != 0 {
      ItoaInjective(u, v);
    }
  }

  // ----- One increment -----

  function EntryAt(rows: Rows, key: string): Entry { if key in rows then rows[key] else Entry("", 0, "", 0, false) }

  function Counted(rows: Rows, cmd: string, user: Option<User>): Rows {
    var uid := if user.Some? then user.value.id else 0;
    var key := UsageKey(cmd, uid);
    rows[key := Entry(cmd, uid, if user.Some? then user.value.name else "", EntryAt(rows, key).n + 1, false)]
  }

  /** The user's rows take the new name; anyone else's rows lose it. */
  function Renamed(e: Entry, user: User): Entry {
    if e.uid == user.id then e.(username := user.name)
    else if user.name != "" && e.username == user.name then e.(username := "")
    else e
  }

  function Refreshed(rows: Rows, user: User): Rows { map k | k in rows :: Renamed(rows[k], user) }

  function Incremented(rows: Rows, cmd: string, user: Option<User>): Rows {
    if cmd == RETIRED || !ValidKey(UsageKey(cmd, if user.Some? then user.value.id else 0)) then rows
    else if user.Some? then Refreshed(Counted(rows, cmd, user), user.value)
    else Counted(rows, cmd, user)
  }

  ghost predicate KeysOk(rows: Rows) {
    forall k :: k in rows ==> IsCommand(rows[k].cmd) && k == UsageKey(rows[k].cmd, rows[k].uid)
  }

  class DocUsageStore {
    var rows: Rows

    constructor ()
      ensures rows == map[]
    {
      rows := map[];
    }

    method Increment(cmd: string, user: Option<User>) returns (ok: bool)
      requires KeysOk(rows) && IsCommand(cmd)
      modifies this
      ensures rows == Incremented(old(rows), cmd, user) && KeysOk(rows)
      ensures ok <==> cmd == RETIRED || ValidKey(UsageKey(cmd, if user.Some? then user.value.id else 0))
    {
      hide KeysOk, ValidKey, Refreshed, UsageKey;
      CountedKeys(rows, cmd, user);
      if cmd == RETIRED {
        return true;
      }
      var userID := 0;
      if user.Some? {
        userID := user.value.id;
      }
      var key := UsageKey(cmd, userID);
      if !ValidKey(key) {
        return false;
      }
      var entry := EntryAt(rows, key);
      entry := entry.(cmd := cmd, n := entry.n + 1, deleted := false);
      if user.Some? {
        entry := entry.(uid := user.value.id, username := user.value.name);
      } else {
        entry := entry.(uid := 0, username := "");
      }
      rows := rows[key := entry];
      if user.Some? {
        RefreshUsername(user.value);
      }
      return true;
    }

    /** Reads every row, then puts back those whose username changes, each under its own key. */
    method RefreshUsername(user: User)
      requires KeysOk(rows)
      modifies this
      ensures rows == Refreshed(old(rows), user) && KeysOk(rows)
    {
      hide UsageKey, IsCommand;
      var was := rows;
      var keys := DocStore.Collect(rows.Keys, k => true);
      for i := 0 to |keys|
        invariant rows.Keys == was.Keys
        invariant forall k :: k in was ==> rows[k] == (if k in keys[..i] then Renamed(was[k], user) else was[k])
      {
        assert keys[..i + 1] == keys[..i] + [keys[i]];
        assert keys[i] in keys && keys[i] in was;
        var e := was[keys[i]];
        if e.uid == user.id && e.username != user.name {
          rows := rows[UsageKey(e.cmd, e.uid) := e.(username := user.name)];
        } else if e.uid != user.id && user.name != "" && e.username == user.name {
          rows := rows[UsageKey(e.cmd, e.uid) := e.(username := "")];
        }
      }
      assert keys[..|keys|] == keys;
    }
  }

  lemma CountedKeys(rows: Rows, cmd: string, user: Option<User>)
    requires KeysOk(rows) && IsCommand(cmd)
    ensures KeysOk(Counted(rows, cmd, user)) && KeysOk(Incremented(rows, cmd, user))
  {
    var r := Counted(rows, cmd, user);
    assert KeysOk(r);
    if user.Some? {
      var f := Refreshed(r, user.value);
      forall k | k in f ensures IsCommand(f[k].cmd) && k == UsageKey(f[k].cmd, f[k].uid) {
        assert k in r;
      }
    }
  }

  // ----- Runs -----

  /** A counted command; the hook reports a user only with a username, and user ids are not 0. */
  datatype Use = Use(cmd: string, user: Option<User>)

  predicate IsUse(u: Use) {
    IsCommand(u.cmd) && (u.user.Some? ==> u.user.value.id != 0 && u.user.value.name != "")
  }

  ghost predicate AllUses(uses: seq<Use>) { forall i :: 0 <= i < |uses| ==> IsUse(uses[i]) }

  function Run(uses: seq<Use>): Rows {
    if uses == [] then map[]
    else Incremented(Run(uses[..|uses| - 1]), uses[|uses| - 1].cmd, uses[|uses| - 1].user)
  }

  /** Rows of a user agree on the name, and a name belongs to one user. */
  ghost predicate NamesOk(rows: Rows) {
    && (forall k, l :: k in rows && l in rows && rows[k].uid == rows[l].uid ==> rows[k].username == rows[l].username)
    && (forall k, l :: k in rows && l in rows && rows[k].username == rows[l].username != "" ==>
        rows[k].uid == rows[l].uid)
    && (forall k :: k in rows ==> (rows[k].uid == 0 ==> rows[k].username == "") && !rows[k].deleted)
  }

  /** The same among the rows of everyone but one user. */
  ghost predicate OthersOk(rows: Rows, id: int) {
    && (forall k, l :: k in rows && l in rows && rows[k].uid == rows[l].uid != id ==>
        rows[k].username == rows[l].username)
    && (forall k, l :: k in rows && l in rows && rows[k].username == rows[l].username != "" ==>
          rows[k].uid == id || rows[l].uid == id || rows[k].uid == rows[l].uid)
    && (forall k :: k in rows ==> (rows[k].uid == 0 ==> rows[k].username == "") && !rows[k].deleted)
  }

  lemma RenamedPair(rows: Rows, user: User, k: string, l: string)
    requires OthersOk(rows, user.id) && user.id != 0 && user.name != "" && k in rows && l in rows
    ensures var e, f := Renamed(rows[k], user), Renamed(rows[l], user);
            && (e.uid == f.uid ==> e.username == f.username)
            && (e.username == f.username != "" ==> e.uid == f.uid)
            && (e.uid == 0 ==> e.username == "") && !e.deleted
  {
  }

  lemma RefreshedNames(rows: Rows, user: User)
    requires OthersOk(rows, user.id) && user.id != 0 && user.name != ""
    ensures NamesOk(Refreshed(rows, user))
  {
    hide OthersOk, Renamed;
    var f := Refreshed(rows, user);
    assert forall k :: k in f ==> f[k] == Renamed(rows[k], user);
    forall k, l | k in f && l in f && f[k].uid == f[l].uid ensures f[k].username == f[l].username {
      RenamedPair(rows, user, k, l);
    }
    forall k, l | k in f && l in f && f[k].username == f[l].username != "" ensures f[k].uid == f[l].uid {
      RenamedPair(rows, user, k, l);
    }
    forall k | k in f ensures (f[k].uid == 0 ==> f[k].username == "") && !f[k].deleted {
      RenamedPair(rows, user, k, k);
    }
  }

  lemma CountedAnonymous(rows: Rows, cmd: string)
    requires NamesOk(rows)
    ensures NamesOk(Counted(rows, cmd, None))
  {
    hide UsageKey, EntryAt;
    var r, key := Counted(rows, cmd, None), UsageKey(cmd, 0);
    assert forall k :: k in r && k != key ==> k in rows && r[k] == rows[k];
  }

  lemma CountedUser(rows: Rows, cmd: string, user: User)
    requires NamesOk(rows) && user.id != 0
    ensures OthersOk(Counted(rows, cmd, Some(user)), user.id)
  {
    hide UsageKey, EntryAt;
    var r, key := Counted(rows, cmd, Some(user)), UsageKey(cmd, user.id);
    assert forall k :: k in r && k != key ==> k in rows && r[k] == rows[k];
    assert r[key].uid == user.id;
  }

  lemma NamesKept(rows: Rows, use: Use)
    requires NamesOk(rows) && IsUse(use)
    ensures NamesOk(Incremented(rows, use.cmd, use.user))
  {
    hide NamesOk, OthersOk, Refreshed, Counted, UsageKey, ValidKey;
    if use.user.None? {
      CountedAnonymous(rows, use.cmd);
    } else {
      CountedUser(rows, use.cmd, use.user.value);
      RefreshedNames(Counted(rows, use.cmd, use.user), use.user.value);
    }
  }

  /** How many of the uses count for a command. */
  function CountUses(uses: seq<Use>, cmd: string): int {
    if uses == [] then 0
    else
      var u := uses[|uses| - 1];
      CountUses(uses[..|uses| - 1], cmd)
        + (if u.cmd == cmd && u.cmd != RETIRED
            && ValidKey(UsageKey(u.cmd, if u.user.Some? then u.user.value.id else 0)) then 1 else 0)
  }

  function Share(e: Entry, cmd: string): int { if e.cmd == cmd then e.n else 0 }

  ghost function Total(rows: Rows, cmd: string): int {
    if rows == map[] then 0
    else var k :| k in rows; Share(rows[k], cmd) + Total(rows - {k}, cmd)
  }

  lemma TotalWithout(rows: Rows, cmd: string, k: string)
    requires k in rows
    ensures Total(rows, cmd) == Share(rows[k], cmd) + Total(rows - {k}, cmd)
    decreases |rows|
  {
    var j :| j in rows && Total(rows, cmd) == Share(rows[j], cmd) + Total(rows - {j}, cmd);
    if j != k {
      TotalWithout(rows - {j}, cmd, k);
      TotalWithout(rows - {k}, cmd, j);
      assert rows - {j} - {k} == rows - {k} - {j};
    }
  }

  lemma TotalSame(a: Rows, b: Rows, cmd: string)
    requires a.Keys == b.Keys && forall k :: k in a ==> Share(a[k], cmd) == Share(b[k], cmd)
    ensures Total(a, cmd) == Total(b, cmd)
    decreases |a|
  {
    if a == map[] {
      assert b == map[];
    } else {
      var k :| k in a;
      TotalWithout(a, cmd, k);
      TotalWithout(b, cmd, k);
      TotalSame(a - {k}, b - {k}, cmd);
    }
  }

  lemma TotalCounted(rows: Rows, use: Use, cmd: string)
    requires KeysOk(rows) && IsUse(use)
    ensures Total(Counted(rows, use.cmd, use.user), cmd) == Total(rows, cmd) + (if use.cmd == cmd then 1 else 0)
  {
    var uid := if use.user.Some? then use.user.value.id else 0;
    var key := UsageKey(use.cmd, uid);
    var r := Counted(rows, use.cmd, use.user);
    if key in rows {
      UsageKeyInjective(use.cmd, uid, rows[key].cmd, rows[key].uid);
      TotalWithout(rows, cmd, key);
    } else {
      assert rows - {key} == rows;
    }
    hide UsageKey, IsCommand;
    TotalWithout(r, cmd, key);
    assert r - {key} == rows - {key};
  }

  lemma TotalIncremented(rows: Rows, use: Use, cmd: string)
    requires KeysOk(rows) && IsUse(use)
    ensures Total(Incremented(rows, use.cmd, use.user), cmd) ==
              Total(rows, cmd) + CountUses([use], cmd)
  {
    hide KeysOk, IsUse;
    assert [use][..0] == [];
    var r := Counted(rows, use.cmd, use.user);
    TotalCounted(rows, use, cmd);
    if use.user.Some? {
      TotalSame(r, Refreshed(r, use.user.value), cmd);
    }
  }

  /** Over every run: each row sits under its own key, rows of a user carry one name and a name belongs
      to one user, and the rows of a command add up to the uses counted for it. */
  lemma {:induction false} UsageInvariant(uses: seq<Use>, cmd: string)
    requires AllUses(uses)
    ensures KeysOk(Run(uses)) && NamesOk(Run(uses)) && Total(Run(uses), cmd) == CountUses(uses, cmd)
  {
    if uses != [] {
      var before, use := uses[..|uses| - 1], uses[|uses| - 1];
      hide Incremented, KeysOk, NamesOk, IsUse, Total;
      UsageInvariant(before, cmd);
      UsedKeys(Run(before), use);
      NamesKept(Run(before), use);
      TotalIncremented(Run(before), use, cmd);
      assert [use][..0] == [];
    }
  }

  lemma UsedKeys(rows: Rows, use: Use)
    requires KeysOk(rows) && IsUse(use)
    ensures KeysOk(Incremented(rows, use.cmd, use.user))
  {
    CountedKeys(rows, use.cmd, use.user);
  }

  // ----- Commands by user -----

  predicate Shown(e: Entry) { !e.deleted && e.cmd != RETIRED }

  /** The user of the first matching row, in scan order. */
  function FirstUser(entries: seq<Entry>, username: string): Option<int> {
    if entries == [] then None
    else if Shown(entries[0]) && entries[0].uid != 0 && entries[0].username == username then Some(entries[0].uid)
    else FirstUser(entries[1..], username)
  }

  datatype Row = Row(cmd: string, n: int)

  function RowOf(e: Entry, uid: int): multiset<Row> {
    if Shown(e) && e.uid == uid then multiset{Row(e.cmd, e.n)} else multiset{}
  }

  /** A user's rows, each as often as it was scanned. */
  function RowsOf(entries: seq<Entry>, uid: int): multiset<Row> {
    if entries == [] then multiset{}
    else RowsOf(entries[..|entries| - 1], uid) + RowOf(entries[|entries| - 1], uid)
  }

  /** The view's order: more uses first, then by command. */
  predicate RowBefore(a: Row, b: Row) { a.n > b.n || (a.n == b.n && Less(a.cmd, b.cmd)) }

  /** Counts never rise down the view, and equal counts go by command. */
  ghost predicate InOrder(rows: seq<Row>) {
    forall i, j :: 0 <= i < j < |rows| ==>
      rows[i].n > rows[j].n || (rows[i].n == rows[j].n && AtMost(rows[i].cmd, rows[j].cmd))
  }

  ghost predicate Arranged(rows: seq<Row>) { forall i, j :: 0 <= i < j < |rows| ==> !RowBefore(rows[j], rows[i]) }

  lemma InOrderByRows(rows: seq<Row>)
    ensures InOrder(rows) <==> Arranged(rows)
  {
    forall i, j | 0 <= i < j < |rows|
      ensures !RowBefore(rows[j], rows[i]) <==>
                rows[i].n > rows[j].n || (rows[i].n == rows[j].n && AtMost(rows[i].cmd, rows[j].cmd))
    {
      NotBefore(rows[i], rows[j]);
    }
  }

  lemma NotBefore(a: Row, b: Row)
    ensures !RowBefore(b, a) <==> a.n > b.n || (a.n == b.n && AtMost(a.cmd, b.cmd))
  {
  }

  function WithRow(r: Row, rows: seq<Row>): seq<Row> {
    if rows == [] || RowBefore(r, rows[0]) then [r] + rows else [rows[0]] + WithRow(r, rows[1..])
  }

  function SortedRows(rows: seq<Row>): seq<Row> {
    if rows == [] then [] else WithRow(rows[0], SortedRows(rows[1..]))
  }

  lemma BeforeTransitive(a: Row, b: Row, c: Row)
    requires RowBefore(a, b) && RowBefore(b, c)
    ensures RowBefore(a, c)
  {
    if a.n == b.n == c.n {
      LessTransitive(a.cmd, b.cmd, c.cmd);
    }
  }

  lemma BeforeOneWay(a: Row, b: Row)
    requires RowBefore(a, b)
    ensures !RowBefore(b, a)
  {
    LessTotal(a.cmd, b.cmd);
  }

  lemma WithRowAdds(r: Row, rows: seq<Row>)
    ensures multiset(WithRow(r, rows)) == multiset(rows) + multiset{r}
  {
    if rows != [] && !RowBefore(r, rows[0]) {
      WithRowAdds(r, rows[1..]);
      assert rows == [rows[0]] + rows[1..];
    }
  }

  lemma WithRowArranged(r: Row, rows: seq<Row>)
    requires Arranged(rows)
    ensures Arranged(WithRow(r, rows))
  {
    hide RowBefore;
    if rows != [] {
      if RowBefore(r, rows[0]) {
        forall j | 0 <= j < |rows| ensures !RowBefore(rows[j], r) {
          if RowBefore(rows[j], r) {
            BeforeTransitive(rows[j], r, rows[0]);
            if j == 0 {
              BeforeOneWay(r, rows[0]);
            }
          }
        }
      } else {
        WithRowArranged(r, rows[1..]);
        WithRowAdds(r, rows[1..]);
        var rest := WithRow(r, rows[1..]);
        forall e | e in rest ensures !RowBefore(e, rows[0]) {
          assert e in multiset(rest);
          assert e in multiset(rows[1..]) || e == r;
        }
      }
    }
  }

  lemma SortedRowsArranged(rows: seq<Row>)
    ensures multiset(SortedRows(rows)) == multiset(rows) && Arranged(SortedRows(rows))
  {
    hide RowBefore;
    if rows != [] {
      SortedRowsArranged(rows[1..]);
      WithRowAdds(rows[0], SortedRows(rows[1..]));
      WithRowArranged(rows[0], SortedRows(rows[1..]));
      assert rows == [rows[0]] + rows[1..];
    }
  }

  function Limited(rows: seq<Row>, limit: int): seq<Row> {
    if limit <= 0 || |rows| <= limit then rows else rows[..limit]
  }

  method CollectRows(entries: seq<Entry>, uid: int) returns (rows: seq<Row>)
    ensures multiset(rows) == RowsOf(entries, uid)
  {
    rows := [];
    for i := 0 to |entries|
      invariant multiset(rows) == RowsOf(entries[..i], uid)
    {
      var e := entries[i];
      assert entries[..i + 1][..i] == entries[..i];
      if Shown(e) && e.uid == uid {
        rows := rows + [Row(e.cmd, e.n)];
      }
    }
    assert entries[..|entries|] == entries;
  }

  lemma LimitedExactly(rows: seq<Row>, limit: int)
    ensures Limited(rows, limit) <= rows && |Limited(rows, limit)| == if 0 < limit < |rows| then limit else |rows|
  {
  }

  /** The sorted rows of the user found, cut at the limit; the whole view is returned for the record. */
  method CommandsByUser(entries: seq<Entry>, username: string, limit: int)
    returns (found: bool, rows: seq<Row>, ghost view: seq<Row>)
    ensures found <==> FirstUser(entries, username).Some?
    ensures !found ==> rows == []
    ensures rows <= view && |rows| == if 0 < limit < |view| then limit else |view|
    ensures found ==> InOrder(view)
                      && multiset(view) == RowsOf(entries, FirstUser(entries, username).value)
  {
    hide RowsOf, InOrder, Arranged, SortedRows, Limited;
    view := [];
    var userID := 0;
    found, rows := false, [];
    for i := 0 to |entries|
      invariant !found && FirstUser(entries, username) == FirstUser(entries[i..], username)
    {
      var e := entries[i];
      assert entries[i..][1..] == entries[i + 1..];
      if Shown(e) && e.uid != 0 && e.username == username {
        userID, found := e.uid, true;
        break;
      }
    }
    if !found {
      return;
    }
    rows := CollectRows(entries, userID);
    SortedRowsArranged(rows);
    InOrderByRows(SortedRows(rows));
    view := SortedRows(rows);
    LimitedExactly(SortedRows(rows), limit);
    rows := Limited(SortedRows(rows), limit);
  }

  lemma FirstUserFound(entries: seq<Entry>, username: string)
    ensures FirstUser(entries, username).Some? <==>
              exists e :: e in entries && Shown(e) && e.uid != 0 && e.username == username
    ensures FirstUser(entries, username).Some? ==>
              exists e :: e in entries && e.username == username && e.uid == FirstUser(entries, username).value
  {
    if entries != [] {
      assert entries == [entries[0]] + entries[1..];
      FirstUserFound(entries[1..], username);
      assert entries[0] in entries;
    }
  }

  lemma {:induction false} RowsOfWithout(b: seq<Entry>, i: nat, uid: int)
    requires i < |b|
    ensures RowsOf(b, uid) == RowsOf(b[..i] + b[i + 1..], uid) + RowOf(b[i], uid)
  {
    hide RowOf;
    var n := |b| - 1;
    if i == n {
      assert b[..i] + b[i + 1..] == b[..n];
    } else {
      var rest := b[..i] + b[i + 1..];
      assert rest[..n - 1] == b[..n][..i] + b[..n][i + 1..] && rest[n - 1] == b[n];
      RowsOfWithout(b[..n], i, uid);
    }
  }

  lemma {:induction false} RowsOfPermuted(a: seq<Entry>, b: seq<Entry>, uid: int)
    requires multiset(a) == multiset(b)
    ensures RowsOf(a, uid) == RowsOf(b, uid)
  {
    hide RowOf;
    if a == [] {
      assert |multiset(b)| == 0;
    } else {
      var n := |a| - 1;
      assert a == a[..n] + [a[n]];
      assert a[n] in multiset(b);
      var i :| 0 <= i < |b| && b[i] == a[n];
      assert b == b[..i] + [b[i]] + b[i + 1..];
      var rest := b[..i] + b[i + 1..];
      assert multiset(rest) == multiset(b) - multiset{b[i]};
      assert multiset(a[..n]) == multiset(a) - multiset{a[n]};
      RowsOfPermuted(a[..n], rest, uid);
      RowsOfWithout(b, i, uid);
    }
  }

  /** However the rows are scanned, a username leads to the same user and the same commands. */
  lemma {:induction false} ScanOrderFree(rows: Rows, a: seq<Entry>, b: seq<Entry>, username: string)
    requires NamesOk(rows) && username != ""
    requires multiset(a) == multiset(b) && forall e :: e in a ==> e in rows.Values
    ensures FirstUser(a, username) == FirstUser(b, username)
    ensures forall uid :: RowsOf(a, uid) == RowsOf(b, uid)
  {
    forall uid ensures RowsOf(a, uid) == RowsOf(b, uid) {
      RowsOfPermuted(a, b, uid);
    }
    FirstUserFound(a, username);
    FirstUserFound(b, username);
    assert forall e :: e in a <==> e in multiset(a);
    assert forall e :: e in b <==> e in multiset(b);
    if FirstUser(a, username).Some? {
      var e :| e in a && e.username == username && e.uid == FirstUser(a, username).value;
      var f :| f in b && f.username == username && f.uid == FirstUser(b, username).value;
      var k :| k in rows && rows[k] == e;
      var l :| l in rows && rows[l] == f;
    }
  }

  lemma FirstAgree(a: seq<Row>, b: seq<Row>)
    requires InOrder(a) && InOrder(b) && multiset(a) == multiset(b) && a != [] && b != []
    ensures a[0] == b[0]
  {
    hide Less;
    assert a[0] in multiset(b) && b[0] in multiset(a);
    var i :| 0 <= i < |b| && b[i] == a[0];
    var j :| 0 <= j < |a| && a[j] == b[0];
    LessTotal(a[0].cmd, b[0].cmd);
  }

  lemma RestAgree(a: seq<Row>, b: seq<Row>)
    requires multiset(a) == multiset(b) && a != [] && b != [] && a[0] == b[0]
    ensures multiset(a[1..]) == multiset(b[1..])
  {
    assert a == [a[0]] + a[1..] && b == [b[0]] + b[1..];
    assert multiset(a[1..]) == multiset(a) - multiset{a[0]};
  }

  /** The sorted view is therefore the same too. */
  lemma {:induction false} ViewUnique(a: seq<Row>, b: seq<Row>)
    requires InOrder(a) && InOrder(b) && multiset(a) == multiset(b)
    ensures a == b
  {
    hide RowBefore;
    assert |a| == |multiset(a)| == |b|;
    if a != [] {
      FirstAgree(a, b);
      RestAgree(a, b);
      ViewUnique(a[1..], b[1..]);
    }
  }
}
