/**
  What a landed ingest leaves in each table, row by row and from the payload alone: balance readings, accounts,
  posted rows and watermarks.
 */
module IngestTables {
  import opened Prelude
  import opened DedupHash
  import opened Ingest
  import opened IngestProperties
  import opened Watermarks

  // ----- which runs land -----

  /** Dates all parse, the run is real, the rows are as many as announced, and so is the window's end if it has one. */
  ghost predicate Lands(p: Payload) {
    && (forall a :: a in p.accounts && a.balance.Some? ==> a.balance.value.1.Some?)
    && (forall r :: r in p.posted ==> r.day.Some?)
    && (forall r :: r in p.pending ==> r.date.Some?)
    && !p.dryRun
    && (p.expectedPosted.None? || p.expectedPosted.value == |p.posted|)
    && (p.window.None? || p.window.value.to.None? || p.window.value.to.value.Some?)
  }

  lemma LandsExactly(p: Payload)
    ensures Commits(p) <==> Lands(p)
  {
    assert forall i :: 0 <= i < |p.accounts| ==> p.accounts[i] in p.accounts;
    assert forall i :: 0 <= i < |p.posted| ==> p.posted[i] in p.posted;
    assert forall i :: 0 <= i < |p.pending| ==> p.pending[i] in p.pending;
  }

  lemma OthersChangeNothing(db: Db, p: Payload, today: int)
    requires !Lands(p)
    ensures AfterIngest(db, p, today) == db
  {
    LandsExactly(p);
  }

  // ----- balance readings -----

  /** The payload's n-th declared account carries this reading. */
  predicate Carried(source: string, decls: seq<AccountIn>, n: int, key: (AccountKey, int), balance: real) {
    0 <= n < |decls| && key.0 == (source, decls[n].name) && decls[n].balance == Some((balance, Some(key.1)))
  }

  /** It does, and no earlier one carries another for the same account and time. */
  ghost predicate FirstCarried(source: string, decls: seq<AccountIn>, n: int, key: (AccountKey, int), balance: real) {
    Carried(source, decls, n, key, balance) && forall m, other :: m < n ==> !Carried(source, decls, m, key, other)
  }

  lemma CarriedEarlier(source: string, decls: seq<AccountIn>, n: int, key: (AccountKey, int), balance: real)
    requires decls != [] && n < |decls| - 1
    ensures Carried(source, decls[..|decls| - 1], n, key, balance) <==> Carried(source, decls, n, key, balance)
  {
  }

  /** A reading once stored keeps its value; a new one is the first the payload carries for its account and time. */
  lemma {:induction false} ReadingStored(snapshots: map<(AccountKey, int), real>, source: string, decls: seq<AccountIn>,
                                         key: (AccountKey, int)) returns (n: int, balance: real)
    requires key in AddSnapshots(snapshots, source, decls)
    ensures key in snapshots ==> AddSnapshots(snapshots, source, decls)[key] == snapshots[key]
    ensures key !in snapshots ==>
              FirstCarried(source, decls, n, key, balance) && AddSnapshots(snapshots, source, decls)[key] == balance
  {
    n, balance := 0, 0.0;
    if decls != [] {
      var m := |decls| - 1;
      if key in snapshots {
        StoredStays(snapshots, source, decls[..m], key);
      }
      if key in AddSnapshots(snapshots, source, decls[..m]) {
        n, balance := ReadingStored(snapshots, source, decls[..m], key);
        if key !in snapshots {
          FirstEarlier(source, decls, n, key, balance);
        }
      } else {
        n, balance := m, decls[m].balance.value.0;
        forall k, other | k < m ensures !Carried(source, decls, k, key, other) {
          if Carried(source, decls, k, key, other) {
            CarriedIsStored(snapshots, source, decls[..m], key, k, other);
          }
        }
      }
    }
  }

  lemma FirstEarlier(source: string, decls: seq<AccountIn>, n: int, key: (AccountKey, int), balance: real)
    requires decls != [] && FirstCarried(source, decls[..|decls| - 1], n, key, balance)
    ensures FirstCarried(source, decls, n, key, balance)
  {
    forall m, other | m < n ensures !Carried(source, decls, m, key, other) {
      CarriedEarlier(source, decls, m, key, other);
    }
  }

  lemma {:induction false} StoredStays(snapshots: map<(AccountKey, int), real>, source: string, decls: seq<AccountIn>,
                                       key: (AccountKey, int))
    requires key in snapshots
    ensures key in AddSnapshots(snapshots, source, decls)
  {
    if decls != [] {
      StoredStays(snapshots, source, decls[..|decls| - 1], key);
    }
  }

  lemma {:induction false} CarriedIsStored(snapshots: map<(AccountKey, int), real>, source: string,
                                           decls: seq<AccountIn>, key: (AccountKey, int), n: int, balance: real)
    requires Carried(source, decls, n, key, balance)
    ensures key in AddSnapshots(snapshots, source, decls)
  {
    if n < |decls| - 1 {
      CarriedIsStored(snapshots, source, decls[..|decls| - 1], key, n, balance);
    }
  }

  /**
    The readings after a landed ingest: those there before, as they were, and for every other account and time
    some declared account was read at, the first such account's balance. Nothing else.
   */
  lemma ReadingsExactly(db: Db, p: Payload, today: int, key: (AccountKey, int), balance: real)
    requires Lands(p)
    ensures var out := AfterIngest(db, p, today).snapshots;
            (key in out && out[key] == balance) <==>
              if key in db.snapshots then db.snapshots[key] == balance
              else exists n :: FirstCarried(p.source, p.accounts, n, key, balance)
  {
    LandsExactly(p);
    hide AddSnapshots, AccountsTouched, AdvanceWatermarks, InsertPosted, ReplacePending, FirstAppearances, Commits,
         Lands, Carried, FirstCarried;
    var out := AddSnapshots(db.snapshots, p.source, p.accounts);
    if key in db.snapshots {
      StoredStays(db.snapshots, p.source, p.accounts, key);
      var n, stored := ReadingStored(db.snapshots, p.source, p.accounts, key);
    } else if key in out {
      var n, stored := ReadingStored(db.snapshots, p.source, p.accounts, key);
      forall m, other | FirstCarried(p.source, p.accounts, m, key, other) ensures other == stored {
        OneFirst(p.source, p.accounts, key, n, stored, m, other);
      }
    } else {
      forall n ensures !FirstCarried(p.source, p.accounts, n, key, balance) {
        if FirstCarried(p.source, p.accounts, n, key, balance) {
          FirstIsCarried(p.source, p.accounts, n, key, balance);
          CarriedIsStored(db.snapshots, p.source, p.accounts, key, n, balance);
        }
      }
    }
  }

  lemma FirstIsCarried(source: string, decls: seq<AccountIn>, n: int, key: (AccountKey, int), balance: real)
    requires FirstCarried(source, decls, n, key, balance)
    ensures Carried(source, decls, n, key, balance)
  {
  }

  lemma OneFirst(source: string, decls: seq<AccountIn>, key: (AccountKey, int), n: int, x: real, m: int, y: real)
    requires FirstCarried(source, decls, n, key, x) && FirstCarried(source, decls, m, key, y)
    ensures x == y
  {
    assert n < m ==> !Carried(source, decls, n, key, x);
    assert m < n ==> !Carried(source, decls, m, key, y);
  }

  /** Posting the same declarations again stores no reading and changes none. */
  lemma RepostReadsNothing(snapshots: map<(AccountKey, int), real>, source: string, decls: seq<AccountIn>)
    ensures var once := AddSnapshots(snapshots, source, decls); AddSnapshots(once, source, decls) == once
  {
    hide AddSnapshots, Carried, FirstCarried;
    var once := AddSnapshots(snapshots, source, decls);
    var twice := AddSnapshots(once, source, decls);
    forall key ensures key in twice <==> key in once {
      if key in once {
        StoredStays(once, source, decls, key);
      }
      if key in twice && key !in once {
        var n, balance := ReadingStored(once, source, decls, key);
        FirstIsCarried(source, decls, n, key, balance);
        CarriedIsStored(snapshots, source, decls, key, n, balance);
      }
    }
    forall key | key in once ensures twice[key] == once[key] {
      var n, balance := ReadingStored(once, source, decls, key);
    }
    assert twice == once;
  }

  // ----- accounts -----

  ghost predicate Declares(decls: seq<AccountIn>, name: string) {
    exists i :: 0 <= i < |decls| && decls[i].name == name
  }

  /** The last declaration of a name. */
  ghost predicate LastDeclared(decls: seq<AccountIn>, i: int, name: string) {
    0 <= i < |decls| && decls[i].name == name && forall j :: i < j < |decls| ==> decls[j].name != name
  }

  ghost predicate PostsTo(rows: seq<PostedIn>, name: string) {
    exists i :: 0 <= i < |rows| && rows[i].account == name
  }

  /** The account named by a window that carries an end. */
  predicate Windowed(p: Payload, name: string) {
    p.window.Some? && p.window.value.to.Some? && name != "" && p.window.value.account == name
  }

  lemma {:induction false} UpsertedAccount(accounts: map<AccountKey, Account>, source: string, decls: seq<AccountIn>,
                                           k: AccountKey) returns (i: int)
    ensures var out := UpsertAll(accounts, source, decls);
            && (k in out <==> k in accounts || (k.0 == source && Declares(decls, k.1)))
            && (k.0 == source && Declares(decls, k.1) ==>
                  LastDeclared(decls, i, k.1) && out[k].bank == Normal(decls[i].bank))
            && (k in accounts && !(k.0 == source && Declares(decls, k.1)) ==> out[k] == accounts[k])
            && (k in out ==> out[k].ownerNotes == if k in accounts then accounts[k].ownerNotes else "")
  {
    i := -1;
    if decls != [] {
      hide Normal;
      var n := |decls| - 1;
      i := UpsertedAccount(accounts, source, decls[..n], k);
      DeclaresLast(decls, k.1);
      if k == (source, decls[n].name) {
        i := n;
      } else if k.0 == source && Declares(decls[..n], k.1) {
        assert forall j :: i < j < n ==> decls[..n][j] == decls[j];
      }
    }
  }

  lemma DeclaresLast(decls: seq<AccountIn>, name: string)
    requires decls != []
    ensures Declares(decls, name) <==> Declares(decls[..|decls| - 1], name) || decls[|decls| - 1].name == name
  {
    var n := |decls| - 1;
    if Declares(decls, name) && decls[n].name != name {
      var i :| 0 <= i < |decls| && decls[i].name == name;
      assert decls[..n][i].name == name;
    }
    if Declares(decls[..n], name) {
      var i :| 0 <= i < n && decls[..n][i].name == name;
      assert decls[i].name == name;
    }
  }

  lemma {:induction false} ResolvedAccount(accounts: map<AccountKey, Account>, source: string, names: seq<string>,
                                           k: AccountKey)
    ensures var out := ResolveAll(accounts, source, names);
            && (k in out <==> k in accounts || (k.0 == source && k.1 in names))
            && (k in accounts ==> out[k] == accounts[k])
            && (k in out && k !in accounts ==> out[k] == Account(PLACEHOLDER, "", None))
  {
    if names != [] {
      ResolvedAccount(accounts, source, names[..|names| - 1], k);
      LastOrEarlier(names, k.1);
    }
  }

  lemma PostedNamesAre(rows: seq<PostedIn>, name: string)
    ensures name in PostedNames(rows) <==> PostsTo(rows, name)
  {
    if PostsTo(rows, name) {
      var i :| 0 <= i < |rows| && rows[i].account == name;
      assert PostedNames(rows)[i] == name;
    }
  }

  lemma AdvancedAccount(accounts: map<AccountKey, Account>, p: Payload, today: int, k: AccountKey)
    ensures var out := AdvanceWatermarks(accounts, p, today);
            && (k in out <==> k in accounts || (k.0 == p.source && Windowed(p, k.1)))
            && (k in accounts ==> out[k].bank == accounts[k].bank && out[k].ownerNotes == accounts[k].ownerNotes)
            && (k in out && k !in accounts ==> out[k].bank == PLACEHOLDER && out[k].ownerNotes == "")
  {
    hide Scanned;
  }

  /** The columns the bank owns, as stored: what it sent, in Australian dollars unless it says otherwise. */
  ghost predicate StoredAs(sent: BankDetails, stored: BankDetails) {
    stored == sent.(currency := stored.currency)
      && stored.currency == if sent.currency == "" then "AUD" else sent.currency
  }

  /**
    The accounts after a landed ingest. An account is there if it was, or the payload declares it, posts or holds
    a row of it, or names it in its window. A declared one has the bank columns of its last declaration, any
    other old one keeps its own, any other new one is a placeholder to review. The owner's columns never change.
   */
  lemma AccountsExactly(db: Db, p: Payload, today: int, k: AccountKey) returns (i: int)
    requires Lands(p)
    ensures var out := AfterIngest(db, p, today).accounts;
            && (k in out <==>
                  || k in db.accounts
                  || (k.0 == p.source && (|| Declares(p.accounts, k.1) || PostsTo(p.posted, k.1)
                                          || Names(p.pending, k.1) || Windowed(p, k.1))))
            && (k.0 == p.source && Declares(p.accounts, k.1) ==>
                  LastDeclared(p.accounts, i, k.1) && StoredAs(p.accounts[i].bank, out[k].bank))
            && (k in out && !(k.0 == p.source && Declares(p.accounts, k.1)) ==>
                  out[k].bank == if k in db.accounts then db.accounts[k].bank
                                 else BankDetails("", "everyday", "asset", "AUD", "", true))
            && (k in out ==> out[k].ownerNotes == if k in db.accounts then db.accounts[k].ownerNotes else "")
  {
    LandsExactly(p);
    hide AddSnapshots, InsertPosted, ReplacePending, Commits, Lands, UpsertAll, ResolveAll, AdvanceWatermarks,
         PostedNames, FirstAppearances, Declares, PostsTo, LastDeclared, Windowed;
    var upserted := UpsertAll(db.accounts, p.source, p.accounts);
    i := UpsertedAccount(db.accounts, p.source, p.accounts, k);
    PostedNamesAre(p.posted, k.1);
    ResolvedAccount(upserted, p.source, PostedNames(p.posted), k);
    var resolved := ResolveAll(upserted, p.source, PostedNames(p.posted));
    AppearsExactly(p.pending, k.1);
    ResolvedAccount(resolved, p.source, FirstAppearances(p.pending), k);
    AdvancedAccount(AccountsTouched(db.accounts, p), p, today, k);
  }

  // ----- posted rows -----

  /** A stored row is of the payload's source and the row's account and day, and keeps the row as it was sent. */
  lemma {:induction false} PostedExactly(posted: map<string, PostedRow>, source: string, rows: seq<PostedIn>, h: string)
      returns (i: nat)
    requires h in InsertPosted(posted, source, rows) && h !in posted
    requires forall k :: 0 <= k < |rows| ==> rows[k].day.Some?
    ensures i < |rows| && HashOf(rows, i) == h
    ensures InsertPosted(posted, source, rows)[h] == PostedRow((source, rows[i].account), rows[i].day.value, rows[i])
  {
    hide HashOf;
    var n := |rows| - 1;
    if h in InsertPosted(posted, source, rows[..n]) {
      i := PostedExactly(posted, source, rows[..n], h);
      HashOfPrefix(rows, n, i);
    } else {
      i := n;
    }
  }

  /** An account's pending rows are taken from the payload one by one, in order. */
  lemma {:induction false} PendingInOrder(rows: seq<PendingIn>, more: seq<PendingIn>, name: string)
    ensures PendingOf(rows + more, name) == PendingOf(rows, name) + PendingOf(more, name)
  {
    if more == [] {
      assert rows + more == rows;
    } else {
      var n := |more| - 1;
      PendingInOrder(rows, more[..n], name);
      PendingLast(rows + more, name);
      PendingLast(more, name);
      hide PendingOf;
      assert (rows + more)[..|rows| + n] == rows + more[..n];
    }
  }

  lemma PendingLast(rows: seq<PendingIn>, name: string)
    requires rows != []
    ensures var n := |rows| - 1;
            PendingOf(rows, name) == PendingOf(rows[..n], name) + if rows[n].account == name then [rows[n]] else []
  {
  }

  lemma PendingOne(r: PendingIn, name: string)
    ensures PendingOf([r], name) == if r.account == name then [r] else []
  {
    assert [r][..0] == [];
  }

  // ----- watermarks -----

  /** The accounts whose watermark a landed run is about: the one its window names, or all it scanned. */
  ghost predicate About(p: Payload, name: string)
    requires p.window.Some?
  {
    if p.window.value.account != "" then name == p.window.value.account
    else Declares(p.accounts, name) || PostsTo(p.posted, name)
  }

  /**
    One ingest moves a watermark exactly when it lands, its window has an end, and the account is of its source
    and declared, posted to or named by the window; then to the end or today, whichever is earlier, if that is later.
   */
  lemma WatermarkExactly(db: Db, p: Payload, today: int, k: AccountKey)
    requires p.window.Some?
    ensures var before, after := WatermarkOf(db, k), WatermarkOf(AfterIngest(db, p, today), k);
            if Lands(p) && p.window.value.to.Some? && k.0 == p.source && About(p, k.1) then
              var end := p.window.value.to.value.value;
              var day := if end <= today then end else today;
              after == if before.Some? && day <= before.value then before else Some(day)
            else after == before
  {
    hide AfterIngest;
    LandsExactly(p);
    WatermarkStep(db, p, today, k);
    ScannedExactly(p, k.1);
    hide Scanned, Lands, Commits, Declares, PostsTo;
  }

  lemma ScannedExactly(p: Payload, name: string)
    ensures name in Scanned(p) <==> Declares(p.accounts, name) || PostsTo(p.posted, name)
  {
  }

  lemma NoWindowNoMove(db: Db, p: Payload, today: int, k: AccountKey)
    requires p.window.None?
    ensures WatermarkOf(AfterIngest(db, p, today), k) == WatermarkOf(db, k)
  {
    hide AfterIngest;
    WatermarkStep(db, p, today, k);
  }
}
