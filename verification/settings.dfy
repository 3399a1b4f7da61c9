/** The settings page (settings.js): the account statistics, the password change, the data
    export and import, and the account deletion, over the accounts of Auth, the stored
    subscription list and the reminder preferences object. Confirmation dialogs are taken
    as accepted, the clock is a parameter and so is the reading of a date string. */
module Settings {
  import opened Js
  import opened Seqs
  import opened Calendar
  import opened Billing
  import opened Subscriptions
  import opened Auth
  import Text

  /** Everything the page reads and writes. */
  datatype SettingsState = SettingsState(auth: AuthState, subscriptions: seq<Record>, userSettings: Record)

  /** The preferences used when none are stored, and after an account is deleted. */
  const DefaultUserSettings: Record := map["emailReminders" := Bool(true), "reminderDays" := Num(Fin(7.0))]

  // ---------------------------------------------------------------------------
  // getUserStats
  // ---------------------------------------------------------------------------

  /** The reduce of getUserStats, left to right: each 'Active' record adds its amount as
      parseFloat reads it, whatever its billing cycle. */
  function ActiveCost(subs: seq<Record>): Number
  {
    if |subs| == 0 then Fin(0.0)
    else
      var sum := ActiveCost(subs[..|subs| - 1]);
      var last := subs[|subs| - 1];
      if MarkedActive(last) then Add(sum, ParseFloat(Get(last, "amount"))) else sum
  }

  /** The cost of a list is the sum of the costs of its parts. */
  lemma {:induction false} ActiveCostAppend(a: seq<Record>, b: seq<Record>)
    ensures ActiveCost(a + b) == Add(ActiveCost(a), ActiveCost(b))
  {
    if |b| == 0 {
      assert a + b == a;
    } else {
      var front := b[..|b| - 1];
      var last := b[|b| - 1];
      assert (a + b)[..|a + b| - 1] == a + front;
      assert (a + b)[|a + b| - 1] == last;
      ActiveCostAppend(a, front);
      if MarkedActive(last) {
        AddAssociates(ActiveCost(a), ActiveCost(front), ParseFloat(Get(last, "amount")));
      }
    }
  }

  /** Only 'Active' records cost anything: inserting any other record changes nothing. */
  lemma InactiveCostsNothing(a: seq<Record>, sub: Record, b: seq<Record>)
    requires !MarkedActive(sub)
    ensures ActiveCost(a + [sub] + b) == ActiveCost(a + b)
  {
    ActiveCostAppend(a + [sub], b);
    ActiveCostAppend(a, [sub]);
    ActiveCostAppend(a, b);
    assert ActiveCost([sub]) == Fin(0.0) by { assert [sub][..0] == []; }
  }

  /** The statistics cost is the raw amount, not the monthly equivalent the budget and
      analytics pages use: a yearly record counts in full. */
  lemma CostIgnoresCycle(sub: Record, x: real)
    requires MarkedActive(sub) && Get(sub, "amount") == Some(Num(Fin(x)))
    requires Get(sub, "billingCycle") == Some(Str("yearly"))
    ensures ActiveCost([sub]) == Fin(x)
    ensures MonthlyEquivalent(sub) == Fin(x / 12.0)
  {
    assert [sub][..0] == [];
  }

  datatype UserStats = UserStats(daysSinceJoined: Option<int>, totalSubscriptions: nat, activeSubscriptions: nat, totalMonthlyCost: Number)

  /** getUserStats: null when nobody is logged in; otherwise whole days since the account
      was created (None for NaN when createdAt does not parse), the number of records, the
      number marked 'Active', and their summed raw amounts. */
  function GetUserStats(st: SettingsState, now: int, instant: Option<Value> -> Option<int>): (r: Option<UserStats>)
    ensures r.None? <==> st.auth.current.None?
    ensures r.Some? ==> r.value.totalSubscriptions == |st.subscriptions|
    ensures r.Some? ==> r.value.activeSubscriptions == |Filter(st.subscriptions, MarkedActive)|
    ensures r.Some? ==> r.value.activeSubscriptions <= r.value.totalSubscriptions
    ensures r.Some? ==> r.value.totalMonthlyCost == ActiveCost(st.subscriptions)
    ensures r.Some? ==> (r.value.daysSinceJoined.Some?
                         <==> instant(Get(st.auth.current.value, "createdAt")).Some?)
    ensures r.Some? && r.value.daysSinceJoined.Some? ==>
      var joined := instant(Get(st.auth.current.value, "createdAt")).value;
      r.value.daysSinceJoined.value * MsPerDay <= now - joined < (r.value.daysSinceJoined.value + 1) * MsPerDay
  {
    match st.auth.current
    case None => None
    case Some(user) =>
      var joined := instant(Get(user, "createdAt"));
      Some(UserStats(
        if joined.Some? then Some(FloorDiv(now - joined.value, MsPerDay)) else None,
        |st.subscriptions|,
        |Filter(st.subscriptions, MarkedActive)|,
        ActiveCost(st.subscriptions)))
  }

  // ---------------------------------------------------------------------------
  // handlePasswordUpdate
  // ---------------------------------------------------------------------------

  /** handlePasswordUpdate: after the form validator, nobody logged in is refused, then a
      wrong current password, then a new password that differs from its confirmation; only
      then is the password merged into the profile. */
  function PasswordUpdate(st: AuthState, formValid: bool, currentPassword: Value, newPassword: Value, confirmNewPassword: Value): (r: (AuthState, Reply))
    ensures r.1 != Accepted ==> r.0 == st
    ensures !formValid ==> r.1 == Invalid
    ensures formValid && st.current.None? ==> r.1 == Refused("User not found")
    ensures (formValid && st.current.Some?
             && !StrictEq(Get(st.current.value, "password"), Some(currentPassword))) ==>
      r.1 == Refused("Current password is incorrect")
    ensures (formValid && st.current.Some? && StrictEq(Get(st.current.value, "password"), Some(currentPassword))
             && !StrictEq(Some(newPassword), Some(confirmNewPassword))) ==>
      r.1 == Refused("New passwords do not match")
    ensures r.1 == Accepted <==> (formValid && st.current.Some?
      && StrictEq(Get(st.current.value, "password"), Some(currentPassword))
      && StrictEq(Some(newPassword), Some(confirmNewPassword))
      && UpdateUserProfile(st, map["password" := newPassword]).1)
    ensures r.1 == Accepted ==> r.0 == UpdateUserProfile(st, map["password" := newPassword]).0
  {
    if !formValid then (st, Invalid)
    else if st.current.None? then (st, Refused("User not found"))
    else if !StrictEq(Get(st.current.value, "password"), Some(currentPassword)) then
      (st, Refused("Current password is incorrect"))
    else if !StrictEq(Some(newPassword), Some(confirmNewPassword)) then
      (st, Refused("New passwords do not match"))
    else
      var u := UpdateUserProfile(st, map["password" := newPassword]);
      if u.1 then (u.0, Accepted) else (st, Refused("Failed to update password"))
  }

  /** After a password change the current user logs in with the new password and no longer
      with the old one, when ids and emails are unique and the current user is stored. */
  lemma PasswordChangeTakesEffect(st: AuthState, oldPassword: Value, newPassword: Value, email: Value)
    requires newPassword.Str? && oldPassword.Str? && oldPassword != newPassword && email.Str?
    requires CurrentIsStored(st) && IdsUnique(st.users) && EmailsUnique(st.users)
    requires st.current.Some? && Get(st.current.value, "email") == Some(email)
    requires Get(st.current.value, "password") == Some(oldPassword)
    ensures PasswordUpdate(st, true, oldPassword, newPassword, newPassword).1 == Accepted
    ensures var after := PasswordUpdate(st, true, oldPassword, newPassword, newPassword).0;
      Login(after, email, newPassword, true).1 == Accepted
      && Login(after, email, oldPassword, true) == (after, Refused("Incorrect password"))
  {
    var cur := st.current.value;
    CurrentFoundById(st);
    var m := FindIndex(st.users, SameId(cur));
    var merged := cur + map["password" := newPassword];
    var after := PasswordUpdate(st, true, oldPassword, newPassword, newPassword).0;
    assert after.users == st.users[m := merged];
    assert EmailIs(email)(after.users[m]);
    forall j | 0 <= j < m
      ensures !EmailIs(email)(after.users[j])
    {
      assert after.users[j] == st.users[j];
      assert !StrictEq(Get(st.users[j], "email"), Get(st.users[m], "email"));
    }
    assert FindIndex(after.users, EmailIs(email)) == m;
  }

  // ---------------------------------------------------------------------------
  // exportData and importData
  // ---------------------------------------------------------------------------

  /** A property of a parsed import file: a list of records, an object, or a plain value. */
  datatype Part = Items(records: seq<Record>) | Fields(entries: Record) | Plain(v: Value)

  /** A parsed import file: a bare list, an object of parts, or a plain value (null, a
      number, a string, a boolean). */
  datatype Imported = ImportedList(records: seq<Record>) | ImportedObject(parts: map<string, Part>) | ImportedPlain(v: Value)

  /** JavaScript truthiness of a part: lists and objects are always truthy. */
  predicate PartTruthy(p: Part) {
    !p.Plain? || Truthy(Some(p.v))
  }

  /** Spreading a string into an object: one key per character, its index written in
      decimal, holding that one-character string. */
  function SpreadString(s: string): Record {
    if |s| == 0 then map[] else SpreadString(s[..|s| - 1])[Text.NatToString(|s| - 1) := Str([s[|s| - 1]])]
  }

  /** Every character of the string is under its own index. */
  lemma {:induction false} SpreadStringIndices(s: string)
    ensures forall i :: 0 <= i < |s| ==>
      Text.NatToString(i) in SpreadString(s) && SpreadString(s)[Text.NatToString(i)] == Str([s[i]])
  {
    if |s| > 0 {
      var n := |s| - 1;
      SpreadStringIndices(s[..n]);
      IndexKeysDistinct(n);
      assert forall i :: 0 <= i < n ==> s[..n][i] == s[i];
    }
  }

  /** k is the decimal text of an index below n. */
  predicate IsIndexKey(k: string, n: nat) {
    exists i :: 0 <= i < n && k == Text.NatToString(i)
  }

  /** The spread brings no key other than the indices. */
  lemma {:induction false} SpreadStringOnlyIndices(s: string)
    ensures forall k :: k in SpreadString(s) ==> IsIndexKey(k, |s|)
  {
    if |s| > 0 {
      var n := |s| - 1;
      SpreadStringOnlyIndices(s[..n]);
      var front := SpreadString(s[..n]);
      assert SpreadString(s) == front[Text.NatToString(n) := Str([s[n]])];
      forall k | k in SpreadString(s)
        ensures IsIndexKey(k, |s|)
      {
        if k != Text.NatToString(n) {
          assert IsIndexKey(k, n);
        } else {
          assert 0 <= n < |s| && k == Text.NatToString(n);
        }
      }
    }
  }

  /** The decimal keys below n all differ from the key of n. */
  lemma IndexKeysDistinct(n: nat)
    ensures forall i :: 0 <= i < n ==> Text.NatToString(i) != Text.NatToString(n)
  {
    forall i | 0 <= i < n
      ensures Text.NatToString(i) != Text.NatToString(n)
    {
      if Text.NatToString(i) == Text.NatToString(n) {
        Text.NatToStringInjective(i, n);
      }
    }
  }

  /** The own keys a part brings to an object spread: an object's entries, a string's
      indexed characters, and nothing from a number, a boolean or null. An array of records
      would bring index keys holding objects, which a settings value cannot hold, so it is
      taken to bring nothing. */
  function SpreadOf(p: Part): Record {
    match p
    case Fields(entries) => entries
    case Plain(Str(s)) => SpreadString(s)
    case _ => map[]
  }

  /** `{ ...userSettings, ...imported }`: the imported part's own keys win over the stored
      preferences, and every other stored preference stays. */
  function MergeSettings(settings: Record, p: Part): (r: Record)
    ensures r.Keys == settings.Keys + SpreadOf(p).Keys
    ensures forall k :: k in SpreadOf(p) ==> r[k] == SpreadOf(p)[k]
    ensures forall k :: k in settings && k !in SpreadOf(p) ==> r[k] == settings[k]
  {
    settings + SpreadOf(p)
  }

  /** A truthy string as userSettings adds its characters under index keys. */
  lemma StringSettingsSpreadIndices(settings: Record, s: string)
    ensures forall i :: 0 <= i < |s| ==>
      Text.NatToString(i) in MergeSettings(settings, Plain(Str(s)))
      && MergeSettings(settings, Plain(Str(s)))[Text.NatToString(i)] == Str([s[i]])
  {
    SpreadStringIndices(s);
  }

  /** exportData: the list, the preferences, the export time and the format version. */
  function ExportData(st: SettingsState, nowIso: string): (r: Imported)
    ensures r.ImportedObject? && "subscriptions" in r.parts && "userSettings" in r.parts
    ensures r.parts["subscriptions"] == Items(st.subscriptions)
    ensures r.parts["userSettings"] == Fields(st.userSettings)
  {
    ImportedObject(map[
      "subscriptions" := Items(st.subscriptions),
      "userSettings" := Fields(st.userSettings),
      "exportDate" := Plain(Str(nowIso)),
      "version" := Plain(Str("1.0"))])
  }

  /** importData: an object whose subscriptions property is a list takes precedence, and
      its truthy userSettings are merged over the preferences; a bare list replaces the
      subscriptions alone; anything else is refused and nothing changes. Reading a
      property of null throws, which the page reports the same way. */
  function ImportData(st: SettingsState, data: Imported): (r: (SettingsState, Reply))
    ensures r.1 != Accepted ==> r.0 == st
    ensures r.0.auth == st.auth
    ensures r.1 == Accepted <==> (data.ImportedList?
      || (data.ImportedObject? && "subscriptions" in data.parts && data.parts["subscriptions"].Items?))
    ensures (data.ImportedObject? && "subscriptions" in data.parts && data.parts["subscriptions"].Items?) ==>
      r.0.subscriptions == data.parts["subscriptions"].records
      && r.0.userSettings == (if "userSettings" in data.parts && PartTruthy(data.parts["userSettings"])
                              then MergeSettings(st.userSettings, data.parts["userSettings"])
                              else st.userSettings)
    ensures data.ImportedList? ==> r.0 == SettingsState(st.auth, data.records, st.userSettings)
  {
    match data
    case ImportedPlain(Null) => (st, Refused("Error reading file"))
    case ImportedPlain(_) => (st, Refused("Invalid file format"))
    case ImportedList(records) => (SettingsState(st.auth, records, st.userSettings), Accepted)
    case ImportedObject(parts) =>
      if "subscriptions" in parts && parts["subscriptions"].Items? then
        var settings :=
          if "userSettings" in parts && PartTruthy(parts["userSettings"])
          then MergeSettings(st.userSettings, parts["userSettings"])
          else st.userSettings;
        (SettingsState(st.auth, parts["subscriptions"].records, settings), Accepted)
      else (st, Refused("Invalid file format"))
  }

  /** Importing an export brings back the subscriptions and the preferences unchanged. */
  lemma ExportThenImport(st: SettingsState, nowIso: string)
    ensures ImportData(st, ExportData(st, nowIso)) == (st, Accepted)
  {
    assert st.userSettings + st.userSettings == st.userSettings;
  }

  /** An import never touches the accounts, and a refused one touches nothing. Importing
      the same file twice is the same as importing it once. */
  lemma ImportIdempotent(st: SettingsState, data: Imported)
    ensures ImportData(ImportData(st, data).0, data).0 == ImportData(st, data).0
  {
    var once := ImportData(st, data).0;
    if data.ImportedObject? && "subscriptions" in data.parts && data.parts["subscriptions"].Items?
       && "userSettings" in data.parts {
      var e := SpreadOf(data.parts["userSettings"]);
      assert st.userSettings + e + e == st.userSettings + e;
    }
  }

  // ---------------------------------------------------------------------------
  // deleteAccount
  // ---------------------------------------------------------------------------

  /** deleteAccount (both confirmations accepted): the first user with the current user's
      id is spliced out, nobody is logged in, the subscriptions are emptied and the
      preferences are back to their defaults. */
  function DeleteAccount(st: SettingsState): (r: SettingsState)
    ensures r.auth.current.None? && r.subscriptions == [] && r.userSettings == DefaultUserSettings
    ensures st.auth.current.None? ==> r.auth.users == st.auth.users
    ensures st.auth.current.Some? ==>
      var k := FindIndex(st.auth.users, SameId(st.auth.current.value));
      (k == -1 ==> r.auth.users == st.auth.users)
      && (k != -1 ==> r.auth.users == st.auth.users[..k] + st.auth.users[k + 1..])
  {
    var users :=
      match st.auth.current
      case None => st.auth.users
      case Some(cur) =>
        var k := FindIndex(st.auth.users, SameId(cur));
        if k == -1 then st.auth.users else RemoveAt(st.auth.users, k);
    SettingsState(AuthState(users, None), [], DefaultUserSettings)
  }

  /** After deleting the account, its email no longer logs in, and every other user is
      still there. */
  lemma DeletedAccountCannotLogIn(st: SettingsState, email: Value, password: Value)
    requires CurrentIsStored(st.auth) && IdsUnique(st.auth.users) && EmailsUnique(st.auth.users)
    requires st.auth.current.Some? && Get(st.auth.current.value, "email") == Some(email)
    ensures Login(DeleteAccount(st).auth, email, password, true).1 == Refused("No account found with this email address")
    ensures forall u :: u in st.auth.users && u != st.auth.current.value ==> u in DeleteAccount(st).auth.users
  {
    var cur := st.auth.current.value;
    CurrentFoundById(st.auth);
    var m := FindIndex(st.auth.users, SameId(cur));
    var users := st.auth.users;
    var after := DeleteAccount(st).auth.users;
    assert after == users[..m] + users[m + 1..];
    forall j | 0 <= j < |after|
      ensures !EmailIs(email)(after[j])
    {
      if j < m {
        assert after[j] == users[j];
        assert !StrictEq(Get(users[j], "email"), Get(users[m], "email"));
      } else {
        assert after[j] == users[j + 1];
        assert !StrictEq(Get(users[m], "email"), Get(users[j + 1], "email"));
        StrictEqSymmetric(Get(users[m], "email"), Get(users[j + 1], "email"));
      }
    }
    forall u | u in users && u != cur
      ensures u in after
    {
      var i :| 0 <= i < |users| && users[i] == u;
      if i < m { assert after[i] == u; } else { assert i > m; assert after[i - 1] == u; }
    }
  }

  lemma StrictEqSymmetric(a: Option<Value>, b: Option<Value>)
    ensures StrictEq(a, b) == StrictEq(b, a)
  {}
}
