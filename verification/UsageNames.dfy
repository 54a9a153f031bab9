/** What the usage rows hold after any run: every count, and under which name each user is found. */
module UsageNames {
  import opened Wrappers
  import opened Keys
  import opened UsageStats

  // ----- Reading the run -----

  function IdOf(use: Use): int { if use.user.Some? then use.user.value.id else 0 }

  /** The use reaches the store: not of a retired command, and under a key it accepts. */
  predicate Stored(use: Use) { use.cmd != RETIRED && ValidKey(UsageKey(use.cmd, IdOf(use))) }

  predicate StoredBy(use: Use, uid: int) { Stored(use) && use.user.Some? && use.user.value.id == uid }

  function TimesUsed(uses: seq<Use>, cmd: string, uid: int): nat {
    if uses == [] then 0
    else
      var use := uses[|uses| - 1];
      TimesUsed(uses[..|uses| - 1], cmd, uid) + (if Stored(use) && use.cmd == cmd && IdOf(use) == uid then 1 else 0)
  }

  /** The i-th use is the last stored one of its user. */
  ghost predicate IsLastUse(uses: seq<Use>, uid: int, i: int) {
    0 <= i < |uses| && StoredBy(uses[i], uid) && forall j :: i < j < |uses| ==> !StoredBy(uses[j], uid)
  }

  /** A stored use after the i-th, of somebody else, came with the same name. */
  ghost predicate TakenAfter(uses: seq<Use>, uid: int, i: int)
    requires 0 <= i < |uses| && uses[i].user.Some?
  {
    exists j :: i < j < |uses| && Stored(uses[j]) && uses[j].user.Some?
      && uses[j].user.value.id != uid && uses[j].user.value.name == uses[i].user.value.name
  }

  /** The name in the user's last stored use, unless somebody else has used it since. */
  ghost predicate HasName(uses: seq<Use>, uid: int, name: string) {
    exists i :: IsLastUse(uses, uid, i) && name == (if TakenAfter(uses, uid, i) then "" else uses[i].user.value.name)
  }

  ghost predicate RowOk(uses: seq<Use>, cmd: string, uid: int) {
    var key := UsageKey(cmd, uid);
    var n := TimesUsed(uses, cmd, uid);
    && (key in Run(uses) <==> n > 0)
    && (key in Run(uses) ==>
          var e := Run(uses)[key];
          && e == Entry(cmd, uid, e.username, n, false)
          && (if uid == 0 then e.username == "" else HasName(uses, uid, e.username)))
  }

  // ----- One more use -----

  lemma HasNameOwn(uses: seq<Use>, use: Use)
    requires Stored(use) && use.user.Some?
    ensures HasName(uses + [use], use.user.value.id, use.user.value.name)
  {
    var all := uses + [use];
    assert IsLastUse(all, use.user.value.id, |uses|);
    assert !TakenAfter(all, use.user.value.id, |uses|);
  }

  lemma HasNameOther(uses: seq<Use>, use: Use, uid: int, name: string)
    requires HasName(uses, uid, name) && !StoredBy(use, uid)
    ensures HasName(uses + [use], uid,
              if Stored(use) && use.user.Some? && use.user.value.name == name then "" else name)
  {
    hide Stored;
    var all := uses + [use];
    var i :| IsLastUse(uses, uid, i) && name == (if TakenAfter(uses, uid, i) then "" else uses[i].user.value.name);
    assert all[i] == uses[i];
    forall j | i < j < |all| ensures !StoredBy(all[j], uid) {
      assert j < |uses| ==> all[j] == uses[j];
    }
    assert IsLastUse(all, uid, i);
    if TakenAfter(uses, uid, i) {
      var j :| i < j < |uses| && Stored(uses[j]) && uses[j].user.Some?
        && uses[j].user.value.id != uid && uses[j].user.value.name == uses[i].user.value.name;
      assert all[j] == uses[j];
      assert TakenAfter(all, uid, i);
    } else if Stored(use) && use.user.Some? && use.user.value.name == name {
      assert all[|uses|] == use;
      assert TakenAfter(all, uid, i);
    } else {
      assert !TakenAfter(all, uid, i) by {
        forall j | i < j < |all| && Stored(all[j]) && all[j].user.Some? && all[j].user.value.id != uid
          ensures all[j].user.value.name != all[i].user.value.name
        {
          assert j < |uses| ==> all[j] == uses[j];
        }
      }
    }
  }

  lemma TimesUsedLast(uses: seq<Use>, use: Use, cmd: string, uid: int)
    ensures TimesUsed(uses + [use], cmd, uid) ==
              TimesUsed(uses, cmd, uid) + (if Stored(use) && use.cmd == cmd && IdOf(use) == uid then 1 else 0)
  {
    assert (uses + [use])[..|uses|] == uses;
  }

  lemma RunLast(uses: seq<Use>, use: Use)
    ensures Run(uses + [use]) == Incremented(Run(uses), use.cmd, use.user)
  {
    assert (uses + [use])[..|uses|] == uses;
  }

  /** What one stored use does to the row of a key. */
  lemma RowAfter(rows: Rows, use: Use, cmd: string, uid: int)
    requires IsUse(use) && IsCommand(cmd) && Stored(use)
    ensures var key, after := UsageKey(cmd, uid), Incremented(rows, use.cmd, use.user);
            var own := use.cmd == cmd && IdOf(use) == uid;
            var name := if use.user.Some? then use.user.value.name else "";
            && (key in after <==> own || key in rows)
            && (own ==> after[key] == Entry(cmd, uid, name, EntryAt(rows, key).n + 1, false))
            && (!own && key in rows ==>
                  after[key] == if use.user.Some? then Renamed(rows[key], use.user.value) else rows[key])
  {
    hide ValidKey, UsageKey, IsCommand;
    if UsageKey(use.cmd, IdOf(use)) == UsageKey(cmd, uid) {
      UsageKeyInjective(use.cmd, IdOf(use), cmd, uid);
    }
  }

  lemma RowStep(uses: seq<Use>, use: Use, cmd: string, uid: int)
    requires IsUse(use) && IsCommand(cmd) && RowOk(uses, cmd, uid)
    ensures RowOk(uses + [use], cmd, uid)
  {
    hide UsageKey, HasName, IsCommand, ValidKey, Stored;
    var key := UsageKey(cmd, uid);
    RunLast(uses, use);
    TimesUsedLast(uses, use, cmd, uid);
    if !Stored(use) {
      NotStored(Run(uses), use);
      if key in Run(uses) && uid != 0 {
        HasNameOther(uses, use, uid, Run(uses)[key].username);
      }
    } else {
      RowAfter(Run(uses), use, cmd, uid);
      if use.user.Some? && use.user.value.id == uid {
        HasNameOwn(uses, use);
      } else if key in Run(uses) && uid != 0 {
        HasNameOther(uses, use, uid, Run(uses)[key].username);
      }
    }
  }

  lemma NotStored(rows: Rows, use: Use)
    requires !Stored(use)
    ensures Incremented(rows, use.cmd, use.user) == rows
  {
  }

  // ----- Main results -----

  /** Over every run: a command and a user have a row exactly when a use of theirs was stored; it counts
      those uses, and carries the name of the user's last stored use, of whatever command, unless somebody
      else has used that name since. */
  lemma {:induction false} RowsExactly(uses: seq<Use>, cmd: string, uid: int)
    requires AllUses(uses) && IsCommand(cmd)
    ensures RowOk(uses, cmd, uid)
  {
    hide IsCommand, UsageKey;
    if uses != [] {
      hide RowOk, IsUse;
      var before, use := uses[..|uses| - 1], uses[|uses| - 1];
      assert uses == before + [use];
      RowsExactly(before, cmd, uid);
      RowStep(before, use, cmd, uid);
    }
  }

  /** Right after a stored use, its name leads to its user, however the rows are scanned. */
  lemma {:induction false} FoundAfterUse(uses: seq<Use>, use: Use, entries: seq<Entry>)
    requires AllUses(uses + [use]) && Stored(use) && use.user.Some?
    requires forall e :: e in entries <==> e in Run(uses + [use]).Values
    ensures FirstUser(entries, use.user.value.name) == Some(use.user.value.id)
  {
    hide UsageKey, HasName, IsCommand, ValidKey;
    var all, user := uses + [use], use.user.value;
    assert all[|uses|] == use;
    var key := UsageKey(use.cmd, user.id);
    UsageInvariant(all, use.cmd);
    RunLast(uses, use);
    RowAfter(Run(uses), use, use.cmd, user.id);
    var row := Run(all)[key];
    assert row in Run(all).Values;
    FirstUserFound(entries, user.name);
    var e :| e in entries && e.username == user.name && e.uid == FirstUser(entries, user.name).value;
    var k :| k in Run(all) && Run(all)[k] == e;
  }
}
