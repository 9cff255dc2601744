/** Landing one scraped window in the ledger: one transaction, all or nothing. */
module Ingest {
  import opened Prelude
  import opened DedupHash

  /** The columns the bank owns. */
  datatype BankDetails = BankDetails(maskedNumber: string, kind: string, class_: string, currency: string,
                                     productCode: string, guessedType: bool)

  /** ownerNotes stands for the columns only the owner writes. */
  datatype Account = Account(bank: BankDetails, ownerNotes: string, watermark: Option<int>)

  /** A declared account; a balance carries its reading time, None when unparsable. */
  datatype AccountIn = AccountIn(name: string, bank: BankDetails, balance: Option<(real, Option<int>)>)

  datatype PendingIn = PendingIn(account: string, date: Option<int>, amount: real, description: string)

  /** account is "" for every scanned account; to is None when absent, Some(None) when unparsable. */
  datatype SyncedWindow = SyncedWindow(account: string, to: Option<Option<int>>)

  datatype Payload = Payload(source: string, accounts: seq<AccountIn>, posted: seq<PostedIn>,
                             expectedPosted: Option<int>, pending: seq<PendingIn>, window: Option<SyncedWindow>,
                             dryRun: bool)

  type AccountKey = (string, string)

  datatype PostedRow = PostedRow(account: AccountKey, day: int, row: PostedIn)

  datatype Db = Db(accounts: map<AccountKey, Account>, snapshots: map<(AccountKey, int), real>,
                   posted: map<string, PostedRow>, pending: map<AccountKey, seq<PendingIn>>)

  datatype Summary = Summary(accountsUpserted: nat, snapshotsInserted: nat, postedInserted: nat, duplicatesSkipped: nat,
                             pendingAccountsReplaced: nat, pendingRowsInserted: nat,
                             received: nat, expected: Option<int>, dryRun: bool,
                             discrepancies: seq<Discrepancy>, reconciled: bool)

  /** Why a run does not reconcile: the counts differ, or a row's hash was seen before in the payload. */
  datatype Discrepancy = CountMismatch(expected: int, received: nat) | Collision(row: PostedIn)

  datatype IngestError = BadDate | Unreconciled(summary: Summary)

  // ----- (1) accounts and (2) snapshots -----

  /** A currency the source leaves out is Australian dollars. */
  function Normal(bank: BankDetails): BankDetails {
    if bank.currency == "" then bank.(currency := "AUD") else bank
  }

  const PLACEHOLDER: BankDetails := BankDetails("", "everyday", "asset", "AUD", "", true)

  /** Only bank-owned columns are written on conflict; the watermark and the owner's stay. */
  function UpsertAccount(accounts: map<AccountKey, Account>, source: string, a: AccountIn): map<AccountKey, Account> {
    var key := (source, a.name);
    accounts[key := if key in accounts then accounts[key].(bank := Normal(a.bank))
             else Account(Normal(a.bank), "", None)]
  }

  function UpsertAll(accounts: map<AccountKey, Account>, source: string, decls: seq<AccountIn>)
    : map<AccountKey, Account>
  {
    if decls == [] then accounts
    else UpsertAccount(UpsertAll(accounts, source, decls[..|decls| - 1]), source, decls[|decls| - 1])
  }

  /** Get-or-create: a name nobody declared becomes a placeholder flagged for review. */
  function Resolve(accounts: map<AccountKey, Account>, source: string, name: string): map<AccountKey, Account> {
    if (source, name) in accounts then accounts else accounts[(source, name) := Account(PLACEHOLDER, "", None)]
  }

  function ResolveAll(accounts: map<AccountKey, Account>, source: string, names: seq<string>)
    : map<AccountKey, Account>
  {
    if names == [] then accounts
    else Resolve(ResolveAll(accounts, source, names[..|names| - 1]), source, names[|names| - 1])
  }

  function AddSnapshot(snapshots: map<(AccountKey, int), real>, source: string, a: AccountIn)
    : map<(AccountKey, int), real>
  {
    if a.balance.None? || a.balance.value.1.None? then snapshots
    else
      var key := ((source, a.name), a.balance.value.1.value);
      if key in snapshots then snapshots else snapshots[key := a.balance.value.0]
  }

  function AddSnapshots(snapshots: map<(AccountKey, int), real>, source: string,
                        decls: seq<AccountIn>): map<(AccountKey, int), real> {
    if decls == [] then snapshots
    else AddSnapshot(AddSnapshots(snapshots, source, decls[..|decls| - 1]), source, decls[|decls| - 1])
  }

  // ----- (3) posted rows -----

  function InsertPosted(posted: map<string, PostedRow>, source: string, rows: seq<PostedIn>): map<string, PostedRow> {
    if rows == [] then posted
    else
      var n := |rows| - 1;
      var rest, hash := InsertPosted(posted, source, rows[..n]), HashOf(rows, n);
      if hash in rest then rest
      else rest[hash := Posted(source, rows[n])]
  }

  function Posted(source: string, row: PostedIn): PostedRow {
    PostedRow((source, row.account), row.day.GetOr(0), row)
  }

  function PostedNames(rows: seq<PostedIn>): seq<string> {
    seq(|rows|, i requires 0 <= i < |rows| => rows[i].account)
  }

  // ----- (4) pending replace-set -----

  function PendingOf(rows: seq<PendingIn>, name: string): seq<PendingIn> {
    if rows == [] then []
    else
      var n := |rows| - 1;
      PendingOf(rows[..n], name) + if rows[n].account == name then [rows[n]] else []
  }

  function FirstAppearances(rows: seq<PendingIn>): seq<string> {
    if rows == [] then []
    else
      var n := |rows| - 1;
      var names := FirstAppearances(rows[..n]);
      if rows[n].account in names then names else names + [rows[n].account]
  }

  ghost predicate Names(rows: seq<PendingIn>, name: string) {
    exists i :: 0 <= i < |rows| && rows[i].account == name
  }

  lemma NamesLast(rows: seq<PendingIn>, name: string)
    requires rows != []
    ensures Names(rows, name) <==> Names(rows[..|rows| - 1], name) || rows[|rows| - 1].account == name
  {
    var n := |rows| - 1;
    assert forall i :: 0 <= i < n ==> rows[..n][i] == rows[i];
    if Names(rows[..n], name) {
      var i :| 0 <= i < n && rows[..n][i].account == name;
      assert rows[i].account == name;
    }
  }

  lemma {:induction false} AppearsExactly(rows: seq<PendingIn>, name: string)
    ensures name in FirstAppearances(rows) <==> Names(rows, name)
  {
    if rows != [] {
      hide Names;
      AppearsExactly(rows[..|rows| - 1], name);
      NamesLast(rows, name);
    } else {
      assert !Names(rows, name);
    }
  }

  function ReplacePending(pending: map<AccountKey, seq<PendingIn>>, source: string, rows: seq<PendingIn>,
                          names: seq<string>)
    : map<AccountKey, seq<PendingIn>>
  {
    if names == [] then pending
    else
      var n := |names| - 1;
      ReplacePending(pending, source, rows, names[..n])[(source, names[n]) := PendingOf(rows, names[n])]
  }

  // ----- (6) the watermark -----

  /** Monotone: only ever forward. */
  function Advance(a: Account, to: int): Account {
    if a.watermark.Some? && to <= a.watermark.value then a else a.(watermark := Some(to))
  }

  function AdvanceAll(accounts: map<AccountKey, Account>, source: string, names: set<string>, to: int)
    : map<AccountKey, Account>
  {
    map k | k in accounts :: if k.0 == source && k.1 in names then Advance(accounts[k], to) else accounts[k]
  }

  /** The accounts whose posted history the run scanned: declared, or named by a posted row. */
  function Scanned(p: Payload): set<string> {
    (set i | 0 <= i < |p.accounts| :: p.accounts[i].name) + (set i | 0 <= i < |p.posted| :: p.posted[i].account)
  }

  /** Accounts after every row has resolved its own, before the watermark. */
  function AccountsTouched(accounts: map<AccountKey, Account>, p: Payload): map<AccountKey, Account> {
    ResolveAll(ResolveAll(UpsertAll(accounts, p.source, p.accounts), p.source, PostedNames(p.posted)),
               p.source, FirstAppearances(p.pending))
  }

  function AdvanceWatermarks(accounts: map<AccountKey, Account>, p: Payload, today: int): map<AccountKey, Account> {
    if p.window.None? || p.window.value.to.None? then accounts
    else
      var to, name := Min(p.window.value.to.value.GetOr(0), today), p.window.value.account;
      if name != "" then AdvanceAll(Resolve(accounts, p.source, name), p.source, {name}, to)
      else AdvanceAll(accounts, p.source, Scanned(p), to)
  }

  // ----- the transaction -----

  predicate DatesParse(p: Payload) {
    && (forall i :: 0 <= i < |p.accounts| ==> p.accounts[i].balance.Some? ==> p.accounts[i].balance.value.1.Some?)
    && DatedThrough(p.posted, |p.posted|)
    && (forall i :: 0 <= i < |p.pending| ==> p.pending[i].date.Some?)
  }

  predicate WindowParses(p: Payload) {
    p.window.Some? && p.window.value.to.Some? ==> p.window.value.to.value.Some?
  }

  function CountCheck(p: Payload): seq<Discrepancy> {
    if p.expectedPosted.Some? && p.expectedPosted.value != |p.posted|
    then [CountMismatch(p.expectedPosted.value, |p.posted|)] else []
  }

  predicate Reconciles(p: Payload) {
    p.expectedPosted.Some? ==> p.expectedPosted.value == |p.posted|
  }

  /** The payloads whose run lands; every other leaves the database as it was. */
  predicate Commits(p: Payload) {
    DatesParse(p) && !p.dryRun && Reconciles(p) && WindowParses(p)
  }

  function Landed(db: Db, p: Payload, today: int): Db {
    Db(AdvanceWatermarks(AccountsTouched(db.accounts, p), p, today),
       AddSnapshots(db.snapshots, p.source, p.accounts),
       InsertPosted(db.posted, p.source, p.posted),
       ReplacePending(db.pending, p.source, p.pending, FirstAppearances(p.pending)))
  }

  /** What a run reports of itself, landed or not. */
  predicate Reports(sum: Summary, db: Db, p: Payload) {
    && sum.accountsUpserted == |p.accounts|
    && sum.snapshotsInserted + |db.snapshots| == |AddSnapshots(db.snapshots, p.source, p.accounts)|
    && sum.postedInserted + |db.posted| == |InsertPosted(db.posted, p.source, p.posted)|
    && sum.postedInserted + sum.duplicatesSkipped == |p.posted| == sum.received
    && sum.pendingAccountsReplaced == |FirstAppearances(p.pending)|
    && sum.pendingRowsInserted == |p.pending|
    && sum.expected == p.expectedPosted && sum.dryRun == p.dryRun
    && sum.discrepancies == (if p.expectedPosted.Some? && p.expectedPosted.value != |p.posted|
                             then [CountMismatch(p.expectedPosted.value, |p.posted|)] else [])
    && (sum.reconciled <==> p.expectedPosted.None? || p.expectedPosted.value == |p.posted|)
  }

  function AfterIngest(db: Db, p: Payload, today: int): Db {
    if Commits(p) then Landed(db, p, today) else db
  }

  class Store {
    var db: Db

    constructor ()
      ensures db == Db(map[], map[], map[], map[])
    {
      db := Db(map[], map[], map[], map[]);
    }

    /** Ingest on a working copy that replaces the stored state only at the commit. */
    method Ingest(p: Payload, today: int) returns (r: Result<Summary, IngestError>)
      modifies this
      ensures db == AfterIngest(old(db), p, today)
      ensures !DatesParse(p) ==> r == Err(BadDate)
      ensures DatesParse(p) && p.dryRun ==> r.Ok? && Reports(r.value, old(db), p)
      ensures DatesParse(p) && !p.dryRun && !Reconciles(p) ==>
        r.Err? && r.error.Unreconciled? && Reports(r.error.summary, old(db), p)
      ensures DatesParse(p) && !p.dryRun && Reconciles(p) && !WindowParses(p) ==> r == Err(BadDate)
      ensures Commits(p) ==> r.Ok? && Reports(r.value, old(db), p)
    {
      hide UpsertAll, AddSnapshots, ResolveAll, InsertPosted, ReplacePending, FirstAppearances, AdvanceAll, HashOf;
      var tx := db;
      var sum := Summary(|p.accounts|, 0, 0, 0, 0, 0, |p.posted|, p.expectedPosted, p.dryRun, [], false);
      var accounts := UpsertDeclared(tx.accounts, p.source, p.accounts);
      var ok, snapshots, inserted := InsertSnapshots(tx.snapshots, p.source, p.accounts);
      if !ok {
        return Err(BadDate);
      }
      sum := sum.(snapshotsInserted := inserted);
      var collisions, skipped, posted;
      ok, accounts, posted, inserted, skipped, collisions := UpsertPosted(accounts, tx.posted, p.source, p.posted);
      if !ok {
        return Err(BadDate);
      }
      sum := sum.(postedInserted := inserted, duplicatesSkipped := skipped);
      var pending;
      ok, accounts, pending, sum := ReplacePendingSets(accounts, tx.pending, p.source, p.pending, sum);
      if !ok {
        return Err(BadDate);
      }
      sum := sum.(discrepancies := CountCheck(p) + collisions);
      sum := sum.(reconciled := sum.discrepancies == []);
      if p.dryRun {
        return Ok(sum);
      }
      if !sum.reconciled {
        return Err(Unreconciled(sum));
      }
      if p.window.Some? && p.window.value.to.Some? {
        if p.window.value.to.value.None? {
          return Err(BadDate);
        }
        var to, targets := Min(p.window.value.to.value.value, today), Scanned(p);
        if p.window.value.account != "" {
          accounts := Resolve(accounts, p.source, p.window.value.account);
          targets := {p.window.value.account};
        }
        accounts := AdvanceTargets(accounts, p.source, targets, to);
      }
      db := Db(accounts, snapshots, posted, pending);
      return Ok(sum);
    }
  }

  method UpsertDeclared(accounts: map<AccountKey, Account>, source: string, decls: seq<AccountIn>)
    returns (out: map<AccountKey, Account>)
    ensures out == UpsertAll(accounts, source, decls)
  {
    out := accounts;
    for i := 0 to |decls|
      invariant out == UpsertAll(accounts, source, decls[..i])
    {
      assert decls[..i + 1][..i] == decls[..i];
      out := UpsertAccount(out, source, decls[i]);
    }
    assert decls[..|decls|] == decls;
  }

  method InsertSnapshots(snapshots: map<(AccountKey, int), real>, source: string, decls: seq<AccountIn>)
    returns (ok: bool, out: map<(AccountKey, int), real>, inserted: nat)
    ensures ok == forall i :: 0 <= i < |decls| ==> decls[i].balance.Some? ==> decls[i].balance.value.1.Some?
    ensures ok ==> out == AddSnapshots(snapshots, source, decls) && inserted + |snapshots| == |out|
  {
    out, inserted := snapshots, 0;
    for i := 0 to |decls|
      invariant out == AddSnapshots(snapshots, source, decls[..i]) && inserted + |snapshots| == |out|
      invariant forall k :: 0 <= k < i ==> decls[k].balance.Some? ==> decls[k].balance.value.1.Some?
    {
      assert decls[..i + 1][..i] == decls[..i];
      var a := decls[i];
      if a.balance.None? {
        continue;
      }
      if a.balance.value.1.None? {
        return false, snapshots, 0;
      }
      var key := ((source, a.name), a.balance.value.1.value);
      if key !in out {
        out, inserted := out[key := a.balance.value.0], inserted + 1;
      }
    }
    assert decls[..|decls|] == decls;
    ok := true;
  }

  /** The first n rows all have a date. */
  predicate DatedThrough(rows: seq<PostedIn>, n: nat)
    requires n <= |rows|
  {
    forall k :: 0 <= k < n ==> rows[k].day.Some?
  }

  lemma DatedNext(rows: seq<PostedIn>, i: nat)
    requires i < |rows| && DatedThrough(rows, i)
    ensures DatedThrough(rows, i + 1) <==> rows[i].day.Some?
    ensures rows[i].day.None? ==> !DatedThrough(rows, |rows|)
  {
  }

  /** The loop's tables and counters after the first n rows. */
  ghost predicate UpsertedTo(n: nat, accounts: map<AccountKey, Account>, posted: map<string, PostedRow>, source: string,
                             rows: seq<PostedIn>, accounts': map<AccountKey, Account>, posted': map<string, PostedRow>,
                             occurrence: map<string, nat>, seen: set<string>)
    requires n <= |rows|
  {
    && accounts' == ResolveAll(accounts, source, PostedNames(rows[..n]))
    && posted' == InsertPosted(posted, source, rows[..n])
    && DatedThrough(rows, n) && Counts(occurrence, rows[..n]) && Remembers(seen, rows, n)
  }

  /** The ordinal the next row of a key gets. */
  function NextOrdinal(occurrence: map<string, nat>, key: string): nat {
    if key in occurrence then occurrence[key] else 0
  }

  lemma UpsertNone(accounts: map<AccountKey, Account>, posted: map<string, PostedRow>, source: string,
                   rows: seq<PostedIn>)
    ensures UpsertedTo(0, accounts, posted, source, rows, accounts, posted, map[], {})
  {
    assert rows[..0] == [];
    CountsNothing(map[], rows[..0]);
  }

  lemma UpsertOne(i: nat, accounts: map<AccountKey, Account>, posted: map<string, PostedRow>, source: string,
                  rows: seq<PostedIn>, accounts': map<AccountKey, Account>, posted': map<string, PostedRow>,
                  occurrence: map<string, nat>, seen: set<string>)
    requires i < |rows| && UpsertedTo(i, accounts, posted, source, rows, accounts', posted', occurrence, seen)
    ensures rows[i].day.None? ==> !DatedThrough(rows, |rows|)
    ensures var row, key := rows[i], CanonicalFields(rows[i]);
            var hash := Hash(key, NextOrdinal(occurrence, key));
            && hash !in seen
            && (row.day.Some? ==>
                 UpsertedTo(i + 1, accounts, posted, source, rows, Resolve(accounts', source, row.account),
                            if hash in posted' then posted' else posted'[hash := Posted(source, row)],
                            occurrence[key := NextOrdinal(occurrence, key) + 1], seen + {hash}))
  {
    hide Resolve, CanonicalFields, Hash, InsertPosted, ResolveAll, HashOf, PostedNames, Counts, Remembers, DatedThrough,
         Posted;
    CountsNext(occurrence, rows, i);
    PostedStep(accounts, posted, source, rows, i);
    DatedNext(rows, i);
    FreshHash(rows, i, seen);
  }

  lemma UpsertAllRows(accounts: map<AccountKey, Account>, posted: map<string, PostedRow>, source: string,
                      rows: seq<PostedIn>, accounts': map<AccountKey, Account>, posted': map<string, PostedRow>,
                      occurrence: map<string, nat>, seen: set<string>)
    requires UpsertedTo(|rows|, accounts, posted, source, rows, accounts', posted', occurrence, seen)
    ensures accounts' == ResolveAll(accounts, source, PostedNames(rows))
    ensures posted' == InsertPosted(posted, source, rows) && DatedThrough(rows, |rows|)
  {
    assert rows[..|rows|] == rows;
  }

  /** Insert if absent by hash; ordinals count up per key, and a repeated hash trips the canary. */
  method UpsertPosted(accounts: map<AccountKey, Account>, posted: map<string, PostedRow>, source: string,
                      rows: seq<PostedIn>)
    returns (ok: bool, accounts': map<AccountKey, Account>, posted': map<string, PostedRow>, inserted: nat,
             skipped: nat, collisions: seq<Discrepancy>)
    ensures ok == DatedThrough(rows, |rows|)
    ensures ok ==> accounts' == ResolveAll(accounts, source, PostedNames(rows))
    ensures ok ==> posted' == InsertPosted(posted, source, rows)
    ensures ok ==> collisions == []
    ensures ok ==> inserted == |posted'| - |posted| && inserted + skipped == |rows|
  {
    hide *;
    accounts', posted', inserted, skipped, collisions := accounts, posted, 0, 0, [];
    var occurrence: map<string, nat> := map[];
    var seen: set<string> := {};
    UpsertNone(accounts, posted, source, rows);
    for i := 0 to |rows|
      invariant UpsertedTo(i, accounts, posted, source, rows, accounts', posted', occurrence, seen)
      invariant collisions == []
      invariant inserted == |posted'| - |posted| && inserted + skipped == i
    {
      var row := rows[i];
      UpsertOne(i, accounts, posted, source, rows, accounts', posted', occurrence, seen);
      accounts' := Resolve(accounts', source, row.account);
      if row.day.None? {
        return false, accounts, posted, 0, 0, [];
      }
      var key := CanonicalFields(row);
      var occ := NextOrdinal(occurrence, key);
      occurrence := occurrence[key := occ + 1];
      var hash := Hash(key, occ);
      if hash in seen {
        collisions := collisions + [Collision(row)];
      }
      seen := seen + {hash};
      if hash in posted' {
        skipped := skipped + 1;
      } else {
        posted' := posted'[hash := Posted(source, row)];
        inserted := inserted + 1;
      }
    }
    UpsertAllRows(accounts, posted, source, rows, accounts', posted', occurrence, seen);
    ok := true;
  }

  /** The ordinal counter holds each key's multiplicity so far. */
  ghost predicate Counts(occurrence: map<string, nat>, rows: seq<PostedIn>) {
    forall key :: NextOrdinal(occurrence, key) == Multiplicity(rows, key)
  }

  lemma CountsNext(occurrence: map<string, nat>, rows: seq<PostedIn>, i: nat)
    requires i < |rows| && Counts(occurrence, rows[..i])
    ensures var key := CanonicalFields(rows[i]);
            var occ := NextOrdinal(occurrence, key);
            Counts(occurrence[key := occ + 1], rows[..i + 1]) && HashOf(rows, i) == Hash(key, occ)
  {
    hide CanonicalFields, Hash;
    assert rows[..i + 1][..i] == rows[..i];
    var key := CanonicalFields(rows[i]);
    assert NextOrdinal(occurrence, key) == Multiplicity(rows[..i], key);
    var next := occurrence[key := NextOrdinal(occurrence, key) + 1];
    forall other ensures NextOrdinal(next, other) == Multiplicity(rows[..i + 1], other) {
      assert NextOrdinal(occurrence, other) == Multiplicity(rows[..i], other);
    }
  }

  lemma CountsNothing(occurrence: map<string, nat>, rows: seq<PostedIn>)
    requires occurrence == map[] && rows == []
    ensures Counts(occurrence, rows)
  {
  }

  lemma PostedStep(accounts: map<AccountKey, Account>, posted: map<string, PostedRow>, source: string,
                   rows: seq<PostedIn>, i: nat)
    requires i < |rows|
    ensures ResolveAll(accounts, source, PostedNames(rows[..i + 1]))
            == Resolve(ResolveAll(accounts, source, PostedNames(rows[..i])), source, rows[i].account)
    ensures InsertPosted(posted, source, rows[..i + 1])
            == var rest, hash := InsertPosted(posted, source, rows[..i]), HashOf(rows, i);
               if hash in rest then rest
               else rest[hash := Posted(source, rows[i])]
  {
    hide CanonicalFields, Hash, Resolve;
    assert rows[..i + 1][..i] == rows[..i];
    assert PostedNames(rows[..i + 1])[..i] == PostedNames(rows[..i]);
    assert HashOf(rows[..i + 1], i) == HashOf(rows, i);
  }

  /** seen holds the hashes of the first n rows. */
  ghost predicate Remembers(seen: set<string>, rows: seq<PostedIn>, n: nat)
    requires n <= |rows|
  {
    seen == set k | 0 <= k < n :: HashOf(rows, k)
  }

  lemma FreshHash(rows: seq<PostedIn>, i: nat, seen: set<string>)
    requires i < |rows| && Remembers(seen, rows, i)
    ensures HashOf(rows, i) !in seen
    ensures Remembers(seen + {HashOf(rows, i)}, rows, i + 1)
  {
    hide HashOf;
    forall k | 0 <= k < i ensures HashOf(rows, k) != HashOf(rows, i) {
      HashesDistinct(rows, k, i);
    }
  }

  /** One account's pending rows give way to the current set. */
  method ReplaceSet(pending: map<AccountKey, seq<PendingIn>>, key: AccountKey, rows: seq<PendingIn>)
    returns (ok: bool, out: map<AccountKey, seq<PendingIn>>, inserted: nat)
    ensures ok == forall r :: r in rows ==> r.date.Some?
    ensures ok ==> out == pending[key := rows] && inserted == |rows|
  {
    out, inserted := pending[key := []], 0;
    for k := 0 to |rows|
      invariant out == pending[key := rows[..k]] && inserted == k
      invariant forall r :: r in rows[..k] ==> r.date.Some?
    {
      assert rows[..k + 1] == rows[..k] + [rows[k]];
      if rows[k].date.None? {
        return false, pending, 0;
      }
      out, inserted := out[key := out[key] + [rows[k]]], inserted + 1;
    }
    assert rows[..|rows|] == rows;
    ok := true;
  }

  /** The loop's tables and counters after the named accounts. */
  ghost predicate ReplacedTo(names: seq<string>, accounts: map<AccountKey, Account>,
                             pending: map<AccountKey, seq<PendingIn>>, source: string, rows: seq<PendingIn>,
                             accounts': map<AccountKey, Account>, pending': map<AccountKey, seq<PendingIn>>,
                             inserted: nat)
  {
    && accounts' == ResolveAll(accounts, source, names)
    && pending' == ReplacePending(pending, source, rows, names)
    && SetsDated(rows, names) && inserted == PendingRows(rows, names)
  }

  lemma ReplacedNone(accounts: map<AccountKey, Account>, pending: map<AccountKey, seq<PendingIn>>, source: string,
                     rows: seq<PendingIn>)
    ensures ReplacedTo([], accounts, pending, source, rows, accounts, pending, 0)
  {
  }

  lemma ReplacedOne(names: seq<string>, name: string, accounts: map<AccountKey, Account>,
                    pending: map<AccountKey, seq<PendingIn>>, source: string, rows: seq<PendingIn>,
                    accounts': map<AccountKey, Account>, pending': map<AccountKey, seq<PendingIn>>, inserted: nat)
    requires ReplacedTo(names, accounts, pending, source, rows, accounts', pending', inserted)
    ensures var mine := PendingOf(rows, name);
            if forall r :: r in mine ==> r.date.Some? then
              ReplacedTo(names + [name], accounts, pending, source, rows, Resolve(accounts', source, name),
                         pending'[(source, name) := mine], inserted + |mine|)
            else !forall i :: 0 <= i < |rows| ==> rows[i].date.Some?
  {
    hide Resolve, PendingOf, SetsDated;
    assert (names + [name])[..|names|] == names;
    OneMoreDated(rows, names, name);
  }

  lemma ReplacedAll(accounts: map<AccountKey, Account>, pending: map<AccountKey, seq<PendingIn>>, source: string,
                    rows: seq<PendingIn>, accounts': map<AccountKey, Account>,
                    pending': map<AccountKey, seq<PendingIn>>, inserted: nat)
    requires ReplacedTo(FirstAppearances(rows), accounts, pending, source, rows, accounts', pending', inserted)
    ensures forall i :: 0 <= i < |rows| ==> rows[i].date.Some?
    ensures accounts' == ResolveAll(accounts, source, FirstAppearances(rows))
    ensures pending' == ReplacePending(pending, source, rows, FirstAppearances(rows))
    ensures inserted == |rows|
  {
    hide ResolveAll, ReplacePending, FirstAppearances, SetsDated, PendingRows;
    EveryPendingRowCounted(rows);
    AllSetsDated(rows);
  }

  /** For each account the payload names, its pending rows are dropped and the current set inserted. */
  method ReplacePendingSets(accounts: map<AccountKey, Account>, pending: map<AccountKey, seq<PendingIn>>,
                            source: string, rows: seq<PendingIn>, sum: Summary)
    returns (ok: bool, accounts': map<AccountKey, Account>, pending': map<AccountKey, seq<PendingIn>>, sum': Summary)
    ensures ok == forall i :: 0 <= i < |rows| ==> rows[i].date.Some?
    ensures ok ==> accounts' == ResolveAll(accounts, source, FirstAppearances(rows))
    ensures ok ==> pending' == ReplacePending(pending, source, rows, FirstAppearances(rows))
    ensures ok ==> sum' == sum.(pendingAccountsReplaced := sum.pendingAccountsReplaced + |FirstAppearances(rows)|,
                                pendingRowsInserted := sum.pendingRowsInserted + |rows|)
  {
    hide *;
    accounts', pending', sum' := accounts, pending, sum;
    var names := FirstAppearances(rows);
    ghost var total := 0;
    ReplacedNone(accounts, pending, source, rows);
    for i := 0 to |names|
      invariant ReplacedTo(names[..i], accounts, pending, source, rows, accounts', pending', total)
      invariant sum' == sum.(pendingAccountsReplaced := sum.pendingAccountsReplaced + i,
                             pendingRowsInserted := sum.pendingRowsInserted + total)
    {
      assert names[..i + 1] == names[..i] + [names[i]];
      var key, mine := (source, names[i]), PendingOf(rows, names[i]);
      ReplacedOne(names[..i], names[i], accounts, pending, source, rows, accounts', pending', total);
      accounts' := Resolve(accounts', source, names[i]);
      var dated, inserted;
      dated, pending', inserted := ReplaceSet(pending', key, mine);
      if !dated {
        return false, accounts, pending, sum;
      }
      sum' := sum'.(pendingAccountsReplaced := sum'.pendingAccountsReplaced + 1,
                    pendingRowsInserted := sum'.pendingRowsInserted + inserted);
      total := total + inserted;
    }
    assert names[..|names|] == names;
    ReplacedAll(accounts, pending, source, rows, accounts', pending', total);
    ok := true;
  }

  /** Every row of the named accounts' sets has a date. */
  ghost predicate SetsDated(rows: seq<PendingIn>, names: seq<string>) {
    forall name, r :: name in names && r in PendingOf(rows, name) ==> r.date.Some?
  }

  lemma OneMoreDated(rows: seq<PendingIn>, names: seq<string>, name: string)
    requires SetsDated(rows, names)
    ensures SetsDated(rows, names + [name]) <==> forall r :: r in PendingOf(rows, name) ==> r.date.Some?
    ensures !SetsDated(rows, names + [name]) ==> !forall i :: 0 <= i < |rows| ==> rows[i].date.Some?
  {
    PendingCovers(rows, name);
    assert name in names + [name];
    assert forall n :: n in names + [name] <==> n in names || n == name;
  }

  lemma AllSetsDated(rows: seq<PendingIn>)
    requires SetsDated(rows, FirstAppearances(rows))
    ensures forall i :: 0 <= i < |rows| ==> rows[i].date.Some?
  {
    hide FirstAppearances, PendingOf;
    forall i | 0 <= i < |rows| ensures rows[i].date.Some? {
      AppearsExactly(rows, rows[i].account);
      PendingCovers(rows, rows[i].account);
      assert rows[i] in PendingOf(rows, rows[i].account);
    }
  }

  /** How many rows the named accounts' sets hold together. */
  function PendingRows(rows: seq<PendingIn>, names: seq<string>): nat {
    if names == [] then 0 else PendingRows(rows, names[..|names| - 1]) + |PendingOf(rows, names[|names| - 1])|
  }

  ghost predicate Distinct(names: seq<string>) {
    forall i, j :: 0 <= i < j < |names| ==> names[i] != names[j]
  }

  lemma {:induction false} OneMorePendingRow(rows: seq<PendingIn>, r: PendingIn, names: seq<string>)
    requires Distinct(names)
    ensures PendingRows(rows + [r], names) == PendingRows(rows, names) + if r.account in names then 1 else 0
  {
    if names != [] {
      var n := |names| - 1;
      OneMorePendingRow(rows, r, names[..n]);
      assert (rows + [r])[..|rows|] == rows;
      assert names == names[..n] + [names[n]];
    }
  }

  /** Grouping by account neither loses nor repeats a row. */
  lemma {:induction false} EveryPendingRowCounted(rows: seq<PendingIn>)
    ensures PendingRows(rows, FirstAppearances(rows)) == |rows| && Distinct(FirstAppearances(rows))
  {
    hide PendingRows, FirstAppearances, Distinct;
    if rows == [] {
      NothingPending();
    } else {
      var n := |rows| - 1;
      EveryPendingRowCounted(rows[..n]);
      GroupsOneMore(rows[..n], rows[n]);
      LastPending(rows);
    }
  }

  lemma NothingPending()
    ensures PendingRows([], FirstAppearances([])) == 0 && Distinct(FirstAppearances([]))
  {
  }

  lemma LastPending(rows: seq<PendingIn>)
    requires rows != []
    ensures rows == rows[..|rows| - 1] + [rows[|rows| - 1]]
  {
  }

  lemma GroupsOneMore(rows: seq<PendingIn>, r: PendingIn)
    requires PendingRows(rows, FirstAppearances(rows)) == |rows| && Distinct(FirstAppearances(rows))
    ensures PendingRows(rows + [r], FirstAppearances(rows + [r])) == |rows| + 1
    ensures Distinct(FirstAppearances(rows + [r]))
  {
    hide PendingOf, PendingRows, FirstAppearances, Distinct;
    var names := FirstAppearances(rows);
    NextAppearance(rows, r);
    OneMorePendingRow(rows, r, names);
    if r.account !in names {
      FirstPendingRow(rows, r, names);
      OneMoreName(names, r.account);
    }
  }

  lemma NextAppearance(rows: seq<PendingIn>, r: PendingIn)
    ensures var names := FirstAppearances(rows);
            && FirstAppearances(rows + [r]) == (if r.account in names then names else names + [r.account])
            && (r.account !in names ==> forall i :: 0 <= i < |rows| ==> rows[i].account != r.account)
  {
    assert (rows + [r])[..|rows|] == rows;
    AppearsExactly(rows, r.account);
  }

  lemma OneMoreName(names: seq<string>, name: string)
    requires Distinct(names) && name !in names
    ensures Distinct(names + [name])
  {
  }

  lemma FirstPendingRow(rows: seq<PendingIn>, r: PendingIn, names: seq<string>)
    requires forall i :: 0 <= i < |rows| ==> rows[i].account != r.account
    ensures PendingRows(rows + [r], names + [r.account]) == PendingRows(rows + [r], names) + 1
  {
    NoPendingOf(rows, r.account);
    assert (rows + [r])[..|rows|] == rows && (names + [r.account])[..|names|] == names;
  }

  lemma {:induction false} NoPendingOf(rows: seq<PendingIn>, name: string)
    requires forall i :: 0 <= i < |rows| ==> rows[i].account != name
    ensures PendingOf(rows, name) == []
  {
    if rows != [] {
      NoPendingOf(rows[..|rows| - 1], name);
    }
  }

  lemma {:induction false} PendingCovers(rows: seq<PendingIn>, name: string)
    ensures forall r :: r in PendingOf(rows, name) <==> r in rows && r.account == name
  {
    if rows != [] {
      var n := |rows| - 1;
      PendingCovers(rows[..n], name);
      assert rows == rows[..n] + [rows[n]];
    }
  }

  method AdvanceTargets(accounts: map<AccountKey, Account>, source: string, targets: set<string>, to: int)
    returns (out: map<AccountKey, Account>)
    ensures out == AdvanceAll(accounts, source, targets, to)
  {
    out := accounts;
    var todo := targets;
    while todo != {}
      invariant todo <= targets
      invariant out == AdvanceAll(accounts, source, targets - todo, to)
      decreases |todo|
    {
      var name :| name in todo;
      var key := (source, name);
      if key in out && !(out[key].watermark.Some? && to <= out[key].watermark.value) {
        out := out[key := out[key].(watermark := Some(to))];
      }
      todo := todo - {name};
    }
    assert targets - {} == targets;
  }
}
