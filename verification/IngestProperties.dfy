/** What the ledger holds after any run of ingests, whatever their order, overlap or outcome. */
module IngestProperties {
  import opened Prelude
  import opened DedupHash
  import opened Ingest

  const EMPTY_DB := Db(map[], map[], map[], map[])

  /** One ingest of a run: what was posted, and on which day. */
  datatype Attempt = Attempt(p: Payload, today: int)

  function Run(db: Db, attempts: seq<Attempt>): Db {
    if attempts == [] then db
    else AfterIngest(Run(db, attempts[..|attempts| - 1]), attempts[|attempts| - 1].p, attempts[|attempts| - 1].today)
  }

  /** The largest multiplicity of a key in any one payload that landed. */
  function MaxMultiplicity(attempts: seq<Attempt>, key: string): nat {
    if attempts == [] then 0
    else
      var rest, p := MaxMultiplicity(attempts[..|attempts| - 1], key), attempts[|attempts| - 1].p;
      if Commits(p) then Max(rest, Multiplicity(p.posted, key)) else rest
  }

  // ----- the ledger is a max of multiplicities -----

  lemma {:induction false} InsertedHashes(posted: map<string, PostedRow>, source: string, rows: seq<PostedIn>,
                                          h: string)
    ensures h in InsertPosted(posted, source, rows) <==> h in posted || Carries(rows, h)
    ensures h in posted ==> InsertPosted(posted, source, rows)[h] == posted[h]
  {
    if rows != [] {
      hide HashOf, Carries;
      InsertedHashes(posted, source, rows[..|rows| - 1], h);
      CarriesLast(rows, h);
    } else {
      assert !Carries(rows, h);
    }
  }

  /** An inserted row is the payload's own row of that hash. */
  lemma {:induction false} InsertedRow(posted: map<string, PostedRow>, source: string, rows: seq<PostedIn>, h: string)
    returns (i: nat)
    requires h in InsertPosted(posted, source, rows) && h !in posted
    ensures i < |rows| && HashOf(rows, i) == h && InsertPosted(posted, source, rows)[h].row == rows[i]
  {
    hide HashOf;
    var n := |rows| - 1;
    if h in InsertPosted(posted, source, rows[..n]) {
      i := InsertedRow(posted, source, rows[..n], h);
      HashOfPrefix(rows, n, i);
    } else {
      i := n;
    }
  }

  /** Stored ordinals of a key form a prefix, as long as the key's largest multiplicity. */
  lemma {:induction false} LedgerIsMaxOfMultiplicities(attempts: seq<Attempt>, key: string, n: nat)
    ensures Hash(key, n) in Run(EMPTY_DB, attempts).posted <==> n < MaxMultiplicity(attempts, key)
  {
    if attempts != [] {
      var m := |attempts| - 1;
      LedgerIsMaxOfMultiplicities(attempts[..m], key, n);
      var p := attempts[m].p;
      InsertedHashes(Run(EMPTY_DB, attempts[..m]).posted, p.source, p.posted, Hash(key, n));
      HashesArePrefix(p.posted, key, n);
    }
  }

  /** A stored row sits under a hash of its own canonical key. */
  lemma {:induction false} StoredUnderOwnKey(attempts: seq<Attempt>, h: string) returns (n: nat)
    requires h in Run(EMPTY_DB, attempts).posted
    ensures h == Hash(CanonicalFields(Run(EMPTY_DB, attempts).posted[h].row), n)
  {
    var m := |attempts| - 1;
    var before, p := Run(EMPTY_DB, attempts[..m]), attempts[m].p;
    InsertedHashes(before.posted, p.source, p.posted, h);
    if h in before.posted {
      n := StoredUnderOwnKey(attempts[..m], h);
    } else {
      var i := InsertedRow(before.posted, p.source, p.posted, h);
      n := OccurrenceOf(p.posted, i);
    }
  }

  /** The stored rows of one canonical key. */
  ghost function StoredRows(posted: map<string, PostedRow>, key: string): set<string> {
    set h | h in posted && CanonicalFields(posted[h].row) == key
  }

  /** The hashes of a key's first m ordinals. */
  ghost predicate FirstHashes(s: set<string>, key: string, m: nat) {
    forall h :: h in s <==> exists n: nat :: n < m && h == Hash(key, n)
  }

  lemma OneMoreHash(s: set<string>, key: string, m: nat)
    requires FirstHashes(s, key, m)
    ensures Hash(key, m) !in s && FirstHashes(s + {Hash(key, m)}, key, m + 1)
  {
    forall n: nat | n < m ensures Hash(key, n) != Hash(key, m) {
      if Hash(key, n) == Hash(key, m) {
        HashInjective(key, n, key, m);
      }
    }
    hide Hash;
    forall h ensures h in s + {Hash(key, m)} <==> exists n: nat :: n < m + 1 && h == Hash(key, n) {
      if n: nat :| n < m + 1 && h == Hash(key, n) {
        assert n < m ==> h in s;
      }
    }
  }

  lemma {:induction false} PrefixSize(key: string, m: nat) returns (s: set<string>)
    ensures |s| == m && FirstHashes(s, key, m)
  {
    if m == 0 {
      s := {};
    } else {
      hide FirstHashes;
      var rest := PrefixSize(key, m - 1);
      OneMoreHash(rest, key, m - 1);
      s := rest + {Hash(key, m - 1)};
    }
  }

  /** The row count of a key is its largest multiplicity in any one landed payload. */
  lemma RowCountIsMax(attempts: seq<Attempt>, key: string)
    ensures |StoredRows(Run(EMPTY_DB, attempts).posted, key)| == MaxMultiplicity(attempts, key)
  {
    hide Run, Hash, CanonicalFields;
    var posted, m := Run(EMPTY_DB, attempts).posted, MaxMultiplicity(attempts, key);
    var s := PrefixSize(key, m);
    forall h ensures h in s <==> h in StoredRows(posted, key) {
      if h in s {
        var n: nat :| n < m && h == Hash(key, n);
        LedgerIsMaxOfMultiplicities(attempts, key, n);
        var n' := StoredUnderOwnKey(attempts, h);
        HashInjective(key, n, CanonicalFields(posted[h].row), n');
      }
      if h in StoredRows(posted, key) {
        var n := StoredUnderOwnKey(attempts, h);
        LedgerIsMaxOfMultiplicities(attempts, key, n);
      }
    }
    assert s == StoredRows(posted, key);
  }

  // ----- order does not matter -----

  lemma {:induction false} MultiplicityWithout(rows: seq<PostedIn>, j: nat, key: string)
    requires j < |rows|
    ensures Multiplicity(rows, key)
            == Multiplicity(rows[..j] + rows[j + 1..], key) + if CanonicalFields(rows[j]) == key then 1 else 0
  {
    hide CanonicalFields;
    var n := |rows| - 1;
    if j < n {
      MultiplicityWithout(rows[..n], j, key);
      assert (rows[..j] + rows[j + 1..])[..n - 1] == rows[..n][..j] + rows[..n][j + 1..];
    } else {
      assert rows[..j] + rows[j + 1..] == rows[..n];
    }
  }

  lemma RemoveOne(rows: seq<PostedIn>, j: nat)
    requires j < |rows|
    ensures multiset(rows[..j] + rows[j + 1..]) == multiset(rows) - multiset{rows[j]}
  {
    var before, after := rows[..j], rows[j + 1..];
    assert rows == (before + [rows[j]]) + after;
    assert multiset(rows) == multiset(before) + multiset{rows[j]} + multiset(after);
    assert multiset(before + after) == multiset(before) + multiset(after);
  }

  /** Reordering a payload's rows changes no multiplicity. */
  lemma {:induction false} RowOrderIrrelevant(rows: seq<PostedIn>, rows': seq<PostedIn>, key: string)
    requires multiset(rows) == multiset(rows')
    ensures Multiplicity(rows, key) == Multiplicity(rows', key)
  {
    hide CanonicalFields;
    if rows == [] {
      assert |multiset(rows')| == |rows'|;
      assert |multiset(rows)| == 0;
    } else {
      var n := |rows| - 1;
      assert rows == rows[..n] + [rows[n]];
      assert rows[n] in multiset(rows);
      assert rows[n] in multiset(rows');
      var j :| 0 <= j < |rows'| && rows'[j] == rows[n];
      var rest := rows'[..j] + rows'[j + 1..];
      RemoveOne(rows, n);
      RemoveOne(rows', j);
      assert rows[..n] + rows[n + 1..] == rows[..n];
      RowOrderIrrelevant(rows[..n], rest, key);
      MultiplicityWithout(rows', j, key);
    }
  }

  /** Every payload landed in one run also lands, rows in some order, in the other. */
  ghost predicate LandedIn(attempts: seq<Attempt>, attempts': seq<Attempt>) {
    forall i :: 0 <= i < |attempts| && Commits(attempts[i].p) ==>
      exists j :: 0 <= j < |attempts'| && Commits(attempts'[j].p)
        && multiset(attempts[i].p.posted) == multiset(attempts'[j].p.posted)
  }

  lemma {:induction false} MaxBounds(attempts: seq<Attempt>, key: string, i: nat)
    requires i < |attempts| && Commits(attempts[i].p)
    ensures Multiplicity(attempts[i].p.posted, key) <= MaxMultiplicity(attempts, key)
  {
    var m := |attempts| - 1;
    if i < m {
      MaxBounds(attempts[..m], key, i);
    }
  }

  lemma {:induction false} MaxAttained(attempts: seq<Attempt>, key: string) returns (i: nat)
    requires MaxMultiplicity(attempts, key) > 0
    ensures i < |attempts| && Commits(attempts[i].p)
            && Multiplicity(attempts[i].p.posted, key) == MaxMultiplicity(attempts, key)
  {
    var m := |attempts| - 1;
    if Commits(attempts[m].p) && Multiplicity(attempts[m].p.posted, key) == MaxMultiplicity(attempts, key) {
      i := m;
    } else {
      i := MaxAttained(attempts[..m], key);
    }
  }

  lemma MaxRespectsLanding(attempts: seq<Attempt>, attempts': seq<Attempt>, key: string)
    requires LandedIn(attempts, attempts')
    ensures MaxMultiplicity(attempts, key) <= MaxMultiplicity(attempts', key)
  {
    if MaxMultiplicity(attempts, key) > 0 {
      var i := MaxAttained(attempts, key);
      var j :| 0 <= j < |attempts'| && Commits(attempts'[j].p)
        && multiset(attempts[i].p.posted) == multiset(attempts'[j].p.posted);
      RowOrderIrrelevant(attempts[i].p.posted, attempts'[j].p.posted, key);
      MaxBounds(attempts', key, j);
    }
  }

  /**
    Two runs that land the same payloads store the same hashes, whatever the order of payloads, the
    order of rows inside each, the number of repeats, and the failed attempts in between.
   */
  lemma OrderIrrelevant(attempts: seq<Attempt>, attempts': seq<Attempt>)
    requires LandedIn(attempts, attempts') && LandedIn(attempts', attempts)
    ensures Run(EMPTY_DB, attempts).posted.Keys == Run(EMPTY_DB, attempts').posted.Keys
  {
    SameHashes(attempts, attempts');
    SameHashes(attempts', attempts);
  }

  lemma SameHashes(attempts: seq<Attempt>, attempts': seq<Attempt>)
    requires LandedIn(attempts, attempts')
    ensures Run(EMPTY_DB, attempts).posted.Keys <= Run(EMPTY_DB, attempts').posted.Keys
  {
    hide Run, LandedIn;
    forall h | h in Run(EMPTY_DB, attempts).posted ensures h in Run(EMPTY_DB, attempts').posted {
      var n := StoredUnderOwnKey(attempts, h);
      var key := CanonicalFields(Run(EMPTY_DB, attempts).posted[h].row);
      LedgerIsMaxOfMultiplicities(attempts, key, n);
      MaxRespectsLanding(attempts, attempts', key);
      LedgerIsMaxOfMultiplicities(attempts', key, n);
    }
  }

  /** Re-posting a landed payload, its rows in any order, inserts nothing and alters nothing. */
  lemma {:induction false} RepostInsertsNothing(attempts: seq<Attempt>, i: nat, source: string, rows: seq<PostedIn>)
    requires i < |attempts| && Commits(attempts[i].p)
    requires multiset(rows) == multiset(attempts[i].p.posted)
    ensures InsertPosted(Run(EMPTY_DB, attempts).posted, source, rows) == Run(EMPTY_DB, attempts).posted
  {
    hide Run;
    var posted := Run(EMPTY_DB, attempts).posted;
    forall k | 0 <= k < |rows| ensures HashOf(rows, k) in posted {
      var key, n := CanonicalFields(rows[k]), OccurrenceOf(rows, k);
      MultiplicityGrows(rows, k, |rows|, key);
      assert rows[..|rows|] == rows;
      RowOrderIrrelevant(rows, attempts[i].p.posted, key);
      MaxBounds(attempts, key, i);
      LedgerIsMaxOfMultiplicities(attempts, key, n);
    }
    forall h ensures h in InsertPosted(posted, source, rows) <==> h in posted {
      InsertedHashes(posted, source, rows, h);
      if Carries(rows, h) {
        var k :| 0 <= k < |rows| && HashOf(rows, k) == h;
      }
    }
    forall h | h in posted ensures InsertPosted(posted, source, rows)[h] == posted[h] {
      InsertedHashes(posted, source, rows, h);
    }
    assert InsertPosted(posted, source, rows) == posted;
  }

  /** Landed by an ingest of its own, the row that shares another's key is taken for a duplicate and dropped. */
  lemma ConfusedRowIsDropped(source: string)
    ensures var once := InsertPosted(map[], source, [PLAIN_NAME]);
            PLAIN_NAME.account != NAME_WITH_BARS.account && InsertPosted(once, source, [NAME_WITH_BARS]) == once
  {
    hide Hash, CanonicalFields;
    BarInNameConfuses();
    assert [PLAIN_NAME][..0] == [] && [NAME_WITH_BARS][..0] == [];
    assert HashOf([PLAIN_NAME], 0) == HashOf([NAME_WITH_BARS], 0);
  }

  /** Posted rows are append-only: no attempt removes or alters one. */
  lemma PostedIsAppendOnly(db: Db, p: Payload, today: int, h: string)
    requires h in db.posted
    ensures h in AfterIngest(db, p, today).posted && AfterIngest(db, p, today).posted[h] == db.posted[h]
  {
    InsertedHashes(db.posted, p.source, p.posted, h);
  }

  // ----- pending rows and owner-authored columns -----

  lemma {:induction false} ReplacedSets(pending: map<AccountKey, seq<PendingIn>>, source: string, rows: seq<PendingIn>,
                                        names: seq<string>, k: AccountKey)
    ensures var out := ReplacePending(pending, source, rows, names);
            if k.0 == source && k.1 in names then k in out && out[k] == PendingOf(rows, k.1)
            else (k in out <==> k in pending) && (k in pending ==> out[k] == pending[k])
  {
    hide PendingOf;
    if names != [] {
      var n := |names| - 1;
      ReplacedSets(pending, source, rows, names[..n], k);
      LastOrEarlier(names, k.1);
    }
  }

  /** A landed payload's pending rows replace those of the accounts it names, and no others. */
  lemma PendingReplaced(db: Db, p: Payload, today: int, k: AccountKey)
    requires Commits(p)
    ensures var out := AfterIngest(db, p, today).pending;
            if k.0 == p.source && Names(p.pending, k.1)
            then k in out && out[k] == PendingOf(p.pending, k.1)
            else (k in out <==> k in db.pending) && (k in db.pending ==> out[k] == db.pending[k])
  {
    hide FirstAppearances, ReplacePending, AccountsTouched, AdvanceWatermarks, InsertPosted, AddSnapshots, Commits,
         PendingOf;
    ReplacedSets(db.pending, p.source, p.pending, FirstAppearances(p.pending), k);
    AppearsExactly(p.pending, k.1);
  }

  // ----- accounts through one ingest -----

  lemma {:induction false} UpsertKeeps(accounts: map<AccountKey, Account>, source: string, decls: seq<AccountIn>,
                                       k: AccountKey)
    ensures var out := UpsertAll(accounts, source, decls);
            && (k in accounts ==>
                k in out && out[k].ownerNotes == accounts[k].ownerNotes && out[k].watermark == accounts[k].watermark)
            && (k !in accounts && k in out ==> out[k].watermark.None?)
            && (forall i :: 0 <= i < |decls| ==> (source, decls[i].name) in out)
  {
    if decls != [] {
      UpsertKeeps(accounts, source, decls[..|decls| - 1], k);
    }
  }

  lemma {:induction false} ResolveKeeps(accounts: map<AccountKey, Account>, source: string, names: seq<string>,
                                        k: AccountKey)
    ensures var out := ResolveAll(accounts, source, names);
            && (k in accounts ==> k in out && out[k] == accounts[k])
            && (k !in accounts && k in out ==> out[k].watermark.None?)
            && (k.0 == source && k.1 in names ==> k in out)
  {
    if names != [] {
      var n := |names| - 1;
      ResolveKeeps(accounts, source, names[..n], k);
      LastOrEarlier(names, k.1);
    }
  }

  lemma TouchedKeeps(accounts: map<AccountKey, Account>, p: Payload, k: AccountKey)
    ensures var out := AccountsTouched(accounts, p);
            && (k in accounts ==>
                k in out && out[k].ownerNotes == accounts[k].ownerNotes && out[k].watermark == accounts[k].watermark)
            && (k !in accounts && k in out ==> out[k].watermark.None?)
            && (k.0 == p.source && k.1 in Scanned(p) ==> k in out)
  {
    var upserted := UpsertAll(accounts, p.source, p.accounts);
    UpsertKeeps(accounts, p.source, p.accounts, k);
    var resolved := ResolveAll(upserted, p.source, PostedNames(p.posted));
    ResolveKeeps(upserted, p.source, PostedNames(p.posted), k);
    ResolveKeeps(resolved, p.source, FirstAppearances(p.pending), k);
    if k.0 == p.source && k.1 in Scanned(p) {
      if i :| 0 <= i < |p.posted| && p.posted[i].account == k.1 {
        assert PostedNames(p.posted)[i] == k.1;
      }
    }
  }

  /** No ingest writes an owner-authored column of an existing account. */
  lemma OwnerColumnsKept(db: Db, p: Payload, today: int, k: AccountKey)
    requires k in db.accounts
    ensures var out := AfterIngest(db, p, today).accounts;
            k in out && out[k].ownerNotes == db.accounts[k].ownerNotes
  {
    hide AccountsTouched, Scanned, AddSnapshots, InsertPosted, ReplacePending, Commits;
    TouchedKeeps(db.accounts, p, k);
  }
}
