/**
  Redemptions and rotations interleaved. Each request runs as separate steps: an unlocked read, a
  claim or a family lock with a re-read, then writes that become visible at its commit. Section
  4.14.2 of RFC 9700 asks what the invariants here establish.
 */
module RefreshRotation {
  import opened Prelude
  import opened OAuthTokens

  /** Where a request in flight stands. A Locked one holds its family's lock. */
  datatype Request =
    | Checked(code: nat)
    | Claimed(code: nat)
    | Located(row: nat, client: int)
    | Locked(row: nat, client: int, snapshot: map<int, Token>)

  /**
    started, rotations and swept are history: the (code, family) each issue began, the rows
    rotated, the families swept.
   */
  datatype State = State(tokens: seq<Token>, codes: map<nat, Code>, requests: map<nat, Request>,
                         nextSecret: nat, nextFamily: nat,
                         started: seq<(nat, nat)>, rotations: seq<nat>, swept: set<nat>)

  datatype Event =
    | Mint(grant: Grant, now: int)
    | Check(id: nat, code: nat, client: int, redirect: int, resource: Option<int>, challenge: int, now: int)
    | Claim(id: nat, now: int)
    | Issue(id: nat, now: int)
    | Locate(id: nat, row: nat, client: int)
    | Lock(id: nat)
    | Commit(id: nat, now: int)
    | Abandon(id: nat)

  const INITIAL := State([], map[], map[], 0, 0, [], [], {})

  // ----- the steps -----

  /** What FOR UPDATE returns: the committed rows of the family. */
  function ReadFamily(tokens: seq<Token>, family: nat): map<int, Token> {
    map i | 0 <= i < |tokens| && tokens[i].family == family :: tokens[i]
  }

  predicate HoldsLock(s: State, id: nat, family: nat) {
    id in s.requests && s.requests[id].Locked? && s.requests[id].row < |s.tokens|
      && s.tokens[s.requests[id].row].family == family
  }

  predicate LockFree(s: State, family: nat) {
    forall id :: id in s.requests ==> !HoldsLock(s, id, family)
  }

  predicate Enabled(s: State, e: Event) {
    match e
    case Mint(_, _) => true
    case Check(id, code, client, redirect, resource, challenge, now) =>
      id !in s.requests && code in s.codes && Redeemable(s.codes[code], client, redirect, resource, challenge, now)
    case Claim(id, _) => id in s.requests && s.requests[id].Checked? && s.requests[id].code in s.codes
    case Issue(id, _) => id in s.requests && s.requests[id].Claimed? && s.requests[id].code in s.codes
    case Locate(id, row, _) => id !in s.requests && row < |s.tokens| && s.tokens[row].refresh.Some?
    case Lock(id) =>
      && id in s.requests && s.requests[id].Located? && s.requests[id].row < |s.tokens|
      && LockFree(s, s.tokens[s.requests[id].row].family)
    case Commit(id, _) => id in s.requests && s.requests[id].Locked? && s.requests[id].row < |s.tokens|
    case Abandon(id) => id in s.requests
  }

  function Drop(s: State, id: nat): State {
    s.(requests := s.requests - {id})
  }

  /** The decision of a locked request, taken from the rows it read under the lock. */
  function Decide(r: Request, now: int): Outcome
    requires r.Locked?
  {
    if r.row in r.snapshot then Judge(r.snapshot[r.row], r.client, now) else Refused
  }

  function Apply(s: State, e: Event): State
    requires Enabled(s, e)
  {
    match e
    case Mint(grant, now) =>
      s.(codes := s.codes[s.nextSecret := Code(grant, now + AUTH_CODE_TTL, None, true)], nextSecret := s.nextSecret + 1)
    case Check(id, code, _, _, _, _, _) => s.(requests := s.requests[id := Checked(code)])
    case Claim(id, now) =>
      // A conditional update: whoever finds used_at null sets it and goes on, anyone else is refused.
      var code := s.requests[id].code;
      if s.codes[code].usedAt.Some? then Drop(s, id)
      else s.(codes := s.codes[code := s.codes[code].(usedAt := Some(now))],
              requests := s.requests[id := Claimed(code)])
    case Issue(id, now) =>
      var code := s.requests[id].code;
      Drop(s, id).(tokens := s.tokens + [Issued(s.nextSecret, s.nextFamily, s.codes[code].grant, now)],
                   nextSecret := s.nextSecret + 2, nextFamily := s.nextFamily + 1,
                   started := s.started + [(code, s.nextFamily)])
    case Locate(id, row, client) => s.(requests := s.requests[id := Located(row, client)])
    case Lock(id) =>
      var r := s.requests[id];
      s.(requests := s.requests[id := Locked(r.row, r.client, ReadFamily(s.tokens, s.tokens[r.row].family))])
    case Commit(id, now) =>
      var r := s.requests[id];
      var outcome := Decide(r, now);
      var out := Drop(s, id).(tokens := Enact(s.tokens, r.row, outcome, now, s.nextSecret));
      (match outcome
       case Refused => out
       case Swept => out.(swept := s.swept + {s.tokens[r.row].family})
       case Rotated => out.(nextSecret := s.nextSecret + 2, rotations := s.rotations + [r.row]))
    case Abandon(id) => Drop(s, id)
  }

  /** The state after a run; an event that is not enabled does nothing. */
  function Run(s: State, events: seq<Event>): State {
    if events == [] then s
    else
      var before, e := Run(s, events[..|events| - 1]), events[|events| - 1];
      if Enabled(before, e) then Apply(before, e) else before
  }

  // ----- the invariant -----

  predicate LiveRow(tokens: seq<Token>, family: nat, i: int) {
    0 <= i < |tokens| && tokens[i].family == family && tokens[i].rotatedAt.None?
  }

  ghost predicate HasLiveRow(tokens: seq<Token>, family: nat) {
    exists i :: LiveRow(tokens, family, i)
  }

  /** Exactly one row of every family is not rotated. */
  ghost predicate OneLiveRow(tokens: seq<Token>, families: nat) {
    && (forall i, j :: 0 <= i < j < |tokens| && tokens[i].family == tokens[j].family ==>
          tokens[i].rotatedAt.Some? || tokens[j].rotatedAt.Some?)
    && (forall f: nat :: f < families ==> HasLiveRow(tokens, f))
    && (forall i :: 0 <= i < |tokens| ==> tokens[i].family < families)
  }

  /** The rotation history lists exactly the rotated rows, each once. */
  ghost predicate RotationsOnce(tokens: seq<Token>, rotations: seq<nat>) {
    && (forall i, j :: 0 <= i < j < |rotations| ==> rotations[i] != rotations[j])
    && (forall k :: k in rotations ==> k < |tokens| && tokens[k].rotatedAt.Some?)
    && (forall k: nat :: k < |tokens| && tokens[k].rotatedAt.Some? ==> k in rotations)
  }

  /** A row is revoked exactly when its family has been swept: nothing else revokes. */
  ghost predicate SweptAreDead(tokens: seq<Token>, swept: set<nat>, families: nat) {
    && (forall f :: f in swept ==> f < families)
    && (forall i :: 0 <= i < |tokens| ==> (tokens[i].revokedAt.Some? <==> tokens[i].family in swept))
  }

  /** A family's lock has one holder, and what it read is still what is stored. */
  ghost predicate LocksHold(tokens: seq<Token>, requests: map<nat, Request>) {
    && (forall id :: id in requests && requests[id].Locked? ==>
          && requests[id].row < |tokens|
          && requests[id].snapshot == ReadFamily(tokens, tokens[requests[id].row].family))
    && (forall id, id' :: id in requests && id' in requests && id != id'
                          && requests[id].Locked? && requests[id'].Locked?
                          && requests[id].row < |tokens| && requests[id'].row < |tokens| ==>
          tokens[requests[id].row].family != tokens[requests[id'].row].family)
    && (forall id :: id in requests && requests[id].Located? ==> requests[id].row < |tokens|)
  }

  /** A code is claimed by one request at most, starts one family at most, and never both. */
  ghost predicate CodesOnce(codes: map<nat, Code>, requests: map<nat, Request>, started: seq<(nat, nat)>,
                            nextSecret: nat) {
    && (forall id :: id in requests && requests[id].Claimed? ==>
          requests[id].code in codes && codes[requests[id].code].usedAt.Some?)
    && (forall id, id' :: id in requests && id' in requests && id != id'
                          && requests[id].Claimed? && requests[id'].Claimed? ==>
          requests[id].code != requests[id'].code)
    && (forall p :: p in started ==> p.0 in codes && codes[p.0].usedAt.Some?)
    && (forall i, j :: 0 <= i < j < |started| ==> started[i].0 != started[j].0)
    && (forall id, p :: id in requests && requests[id].Claimed? && p in started ==> p.0 != requests[id].code)
    && (forall code :: code in codes ==> code < nextSecret)
  }

  ghost predicate TokensInv(tokens: seq<Token>, nextSecret: nat, nextFamily: nat, rotations: seq<nat>,
                            swept: set<nat>) {
    && OneLiveRow(tokens, nextFamily)
    && RotationsOnce(tokens, rotations)
    && SweptAreDead(tokens, swept, nextFamily)
    && SecretsFresh(tokens, nextSecret)
  }

  ghost predicate Inv(s: State) {
    && TokensInv(s.tokens, s.nextSecret, s.nextFamily, s.rotations, s.swept)
    && LocksHold(s.tokens, s.requests)
    && CodesOnce(s.codes, s.requests, s.started, s.nextSecret)
  }

  lemma InitialInv()
    ensures Inv(INITIAL)
  {
  }

  /** A request waits for its lock only behind another one that holds the same family's. */
  lemma LockWaitsForFamilyOnly(s: State, id: nat)
    requires id in s.requests && s.requests[id].Located? && s.requests[id].row < |s.tokens|
    requires LocksHold(s.tokens, s.requests)
    ensures Enabled(s, Lock(id)) <==>
              forall other :: other in s.requests && s.requests[other].Locked? ==>
                s.tokens[s.requests[other].row].family != s.tokens[s.requests[id].row].family
  {
    hide ReadFamily;
    var family := s.tokens[s.requests[id].row].family;
    assert Enabled(s, Lock(id)) <==> LockFree(s, family);
    assert forall other :: other in s.requests && s.requests[other].Locked? ==>
             (HoldsLock(s, other, family) <==> s.tokens[s.requests[other].row].family == family);
  }

  // ----- the lock makes a commit atomic -----

  /** Under the lock the decision read from the snapshot is the one the stored row calls for. */
  lemma DecisionIsCurrent(s: State, id: nat, now: int)
    requires LocksHold(s.tokens, s.requests) && Enabled(s, Commit(id, now))
    ensures var r := s.requests[id]; Decide(r, now) == Judge(s.tokens[r.row], r.client, now)
  {
  }

  /**
    Linearisation: however reads, locks and other commits interleave with it, a rotation request takes
    effect as one indivisible Rotate at the moment it commits.
   */
  lemma CommitIsAtomic(s: State, id: nat, now: int)
    requires LocksHold(s.tokens, s.requests) && Enabled(s, Commit(id, now))
    ensures var r := s.requests[id];
            Apply(s, Commit(id, now)).tokens == Rotate(s.tokens, r.row, r.client, now, s.nextSecret)
  {
    DecisionIsCurrent(s, id, now);
  }

  // ----- token rows -----

  lemma IssueKeepsTokens(tokens: seq<Token>, nextSecret: nat, nextFamily: nat, rotations: seq<nat>, swept: set<nat>,
                         grant: Grant, now: int)
    requires TokensInv(tokens, nextSecret, nextFamily, rotations, swept)
    ensures TokensInv(tokens + [Issued(nextSecret, nextFamily, grant, now)], nextSecret + 2, nextFamily + 1, rotations,
                      swept)
  {
    var grown := tokens + [Issued(nextSecret, nextFamily, grant, now)];
    forall f: nat | f < nextFamily + 1 ensures HasLiveRow(grown, f) {
      if f < nextFamily {
        assert HasLiveRow(tokens, f);
        var i :| LiveRow(tokens, f, i);
        assert LiveRow(grown, f, i);
      } else {
        assert LiveRow(grown, f, |tokens|);
      }
    }
    assert nextFamily !in swept;
  }

  lemma SweepKeepsLiveRows(tokens: seq<Token>, nextSecret: nat, families: nat, i: nat, now: int)
    requires OneLiveRow(tokens, families) && i < |tokens|
    ensures OneLiveRow(Enact(tokens, i, Swept, now, nextSecret), families)
  {
    var out := Enact(tokens, i, Swept, now, nextSecret);
    forall f: nat | f < families ensures HasLiveRow(out, f) {
      assert HasLiveRow(tokens, f);
      var k :| LiveRow(tokens, f, k);
      assert LiveRow(out, f, k);
    }
  }

  lemma SweepKeepsTokens(tokens: seq<Token>, nextSecret: nat, nextFamily: nat, rotations: seq<nat>, swept: set<nat>,
                         i: nat, now: int)
    requires TokensInv(tokens, nextSecret, nextFamily, rotations, swept) && i < |tokens|
    ensures TokensInv(Enact(tokens, i, Swept, now, nextSecret), nextSecret, nextFamily, rotations,
                      swept + {tokens[i].family})
  {
    var out := Enact(tokens, i, Swept, now, nextSecret);
    SweepKeepsLiveRows(tokens, nextSecret, nextFamily, i, now);
    assert tokens[i].family < nextFamily;
    hide OneLiveRow;
    assert SweptAreDead(out, swept + {tokens[i].family}, nextFamily);
    hide SweptAreDead;
    assert RotationsOnce(out, rotations);
    hide RotationsOnce;
    assert SecretsFresh(out, nextSecret);
  }

  lemma RotateKeepsLiveRows(tokens: seq<Token>, nextSecret: nat, families: nat, i: nat, now: int)
    requires OneLiveRow(tokens, families) && i < |tokens| && tokens[i].rotatedAt.None?
    ensures OneLiveRow(Enact(tokens, i, Rotated, now, nextSecret), families)
  {
    var out, family := Enact(tokens, i, Rotated, now, nextSecret), tokens[i].family;
    forall f: nat | f < families ensures HasLiveRow(out, f) {
      assert HasLiveRow(tokens, f);
      var k :| LiveRow(tokens, f, k);
      assert LiveRow(out, f, if f == family then |tokens| else k);
    }
    forall a, b | 0 <= a < b < |out| && out[a].family == out[b].family
      ensures out[a].rotatedAt.Some? || out[b].rotatedAt.Some?
    {
      if b == |tokens| && a != i {
        assert tokens[a].family == tokens[i].family;
      } else if b < |tokens| {
        assert tokens[a].family == tokens[b].family;
      }
    }
  }

  lemma RotateKeepsHistory(tokens: seq<Token>, nextSecret: nat, rotations: seq<nat>, i: nat, now: int)
    requires RotationsOnce(tokens, rotations) && i < |tokens| && tokens[i].rotatedAt.None?
    ensures RotationsOnce(Enact(tokens, i, Rotated, now, nextSecret), rotations + [i])
  {
    var out, more := Enact(tokens, i, Rotated, now, nextSecret), rotations + [i];
    assert |out| == |tokens| + 1 && out[|tokens|].rotatedAt.None?;
    assert forall k :: 0 <= k < |tokens| ==> (out[k].rotatedAt.Some? <==> k == i || tokens[k].rotatedAt.Some?);
    assert forall k :: k in more <==> k in rotations || k == i;
    assert i !in rotations;
  }

  lemma RotateKeepsSecrets(tokens: seq<Token>, nextSecret: nat, i: nat, now: int)
    requires SecretsFresh(tokens, nextSecret) && i < |tokens|
    ensures SecretsFresh(Enact(tokens, i, Rotated, now, nextSecret), nextSecret + 2)
  {
    EnactKeepsSecrets(tokens, i, Rotated, now, nextSecret);
  }

  lemma RotateKeepsTokens(tokens: seq<Token>, nextSecret: nat, nextFamily: nat, rotations: seq<nat>, swept: set<nat>,
                          i: nat, now: int)
    requires TokensInv(tokens, nextSecret, nextFamily, rotations, swept) && i < |tokens|
    requires tokens[i].rotatedAt.None? && tokens[i].revokedAt.None?
    ensures TokensInv(Enact(tokens, i, Rotated, now, nextSecret), nextSecret + 2, nextFamily, rotations + [i], swept)
  {
    RotateKeepsLiveRows(tokens, nextSecret, nextFamily, i, now);
    RotateKeepsHistory(tokens, nextSecret, rotations, i, now);
    RotateKeepsSecrets(tokens, nextSecret, i, now);
    hide OneLiveRow, RotationsOnce, SecretsFresh;
    assert SweptAreDead(Enact(tokens, i, Rotated, now, nextSecret), swept, nextFamily);
  }

  // ----- locks -----

  /** Writes confined to one family leave every lock held on another family's rows valid. */
  lemma LocksSurviveOthersWrites(tokens: seq<Token>, tokens': seq<Token>, requests: map<nat, Request>, family: nat)
    requires LocksHold(tokens, requests)
    requires |tokens| <= |tokens'|
    requires forall i :: 0 <= i < |tokens| ==>
             tokens'[i].family == tokens[i].family && (tokens[i].family != family ==> tokens'[i] == tokens[i])
    requires forall i :: |tokens| <= i < |tokens'| ==> tokens'[i].family == family
    requires forall id :: id in requests && requests[id].Locked? ==> tokens[requests[id].row].family != family
    ensures LocksHold(tokens', requests)
  {
    forall id | id in requests && requests[id].Locked?
      ensures requests[id].snapshot == ReadFamily(tokens', tokens'[requests[id].row].family)
    {
      var f := tokens[requests[id].row].family;
      assert ReadFamily(tokens', f) == ReadFamily(tokens, f);
    }
  }

  lemma FewerRequestsKeepLocks(tokens: seq<Token>, requests: map<nat, Request>, id: nat)
    requires LocksHold(tokens, requests)
    ensures LocksHold(tokens, requests - {id})
  {
    hide ReadFamily;
  }

  lemma PlainRequestKeepsLocks(tokens: seq<Token>, requests: map<nat, Request>, id: nat, r: Request)
    requires LocksHold(tokens, requests)
    requires r.Checked? || r.Claimed? || (r.Located? && r.row < |tokens|)
    ensures LocksHold(tokens, requests[id := r])
  {
    hide ReadFamily;
  }

  lemma LockKeepsLocks(s: State, id: nat)
    requires LocksHold(s.tokens, s.requests) && Enabled(s, Lock(id))
    ensures LocksHold(s.tokens, Apply(s, Lock(id)).requests)
  {
    hide ReadFamily;
    var r := s.requests[id];
    var family := s.tokens[r.row].family;
    assert forall id' :: id' in s.requests ==> !HoldsLock(s, id', family);
  }

  // ----- codes -----

  lemma FewerRequestsKeepCodes(codes: map<nat, Code>, requests: map<nat, Request>, started: seq<(nat, nat)>,
                               nextSecret: nat, more: nat, id: nat)
    requires CodesOnce(codes, requests, started, nextSecret) && nextSecret <= more
    ensures CodesOnce(codes, requests - {id}, started, more)
  {
  }

  lemma OtherRequestKeepsCodes(codes: map<nat, Code>, requests: map<nat, Request>, started: seq<(nat, nat)>,
                               nextSecret: nat, id: nat, r: Request)
    requires CodesOnce(codes, requests, started, nextSecret) && !r.Claimed?
    ensures CodesOnce(codes, requests[id := r], started, nextSecret)
  {
  }

  lemma IssueKeepsCodes(codes: map<nat, Code>, requests: map<nat, Request>, started: seq<(nat, nat)>, nextSecret: nat,
                        id: nat, family: nat)
    requires CodesOnce(codes, requests, started, nextSecret) && id in requests && requests[id].Claimed?
    ensures CodesOnce(codes, requests - {id}, started + [(requests[id].code, family)], nextSecret + 2)
  {
    var more := started + [(requests[id].code, family)];
    assert forall p :: p in more <==> p in started || p == (requests[id].code, family);
    assert forall i :: 0 <= i < |started| ==> started[i] in started;
  }

  lemma ClaimKeepsCodes(codes: map<nat, Code>, requests: map<nat, Request>, started: seq<(nat, nat)>, nextSecret: nat,
                        id: nat, code: nat, now: int)
    requires CodesOnce(codes, requests, started, nextSecret) && code in codes && codes[code].usedAt.None?
    requires id in requests && requests[id].Checked?
    ensures CodesOnce(codes[code := codes[code].(usedAt := Some(now))], requests[id := Claimed(code)], started,
                      nextSecret)
  {
  }

  // ----- every step keeps the invariant -----

  /** What a commit writes to the rows keeps their invariant, whichever way it decides. */
  lemma CommitKeepsTokens(s: State, id: nat, now: int)
    requires Inv(s) && Enabled(s, Commit(id, now))
    ensures var t := Apply(s, Commit(id, now)); TokensInv(t.tokens, t.nextSecret, t.nextFamily, t.rotations, t.swept)
  {
    hide TokensInv, CodesOnce, Rotatable;
    var r := s.requests[id];
    DecisionIsCurrent(s, id, now);
    hide LocksHold, ReadFamily;
    match Decide(r, now) {
      case Refused =>
      case Swept => SweepKeepsTokens(s.tokens, s.nextSecret, s.nextFamily, s.rotations, s.swept, r.row, now);
      case Rotated =>
        assert s.tokens[r.row].revokedAt.None? by { RotatedWasGood(s.tokens[r.row], r.client, now); }
        RotateKeepsTokens(s.tokens, s.nextSecret, s.nextFamily, s.rotations, s.swept, r.row, now);
    }
  }

  lemma CommitKeepsLocks(s: State, id: nat, now: int)
    requires LocksHold(s.tokens, s.requests) && Enabled(s, Commit(id, now))
    ensures var t := Apply(s, Commit(id, now)); LocksHold(t.tokens, t.requests)
  {
    hide ReadFamily;
    var r, t := s.requests[id], Apply(s, Commit(id, now));
    var rest, family := s.requests - {id}, s.tokens[r.row].family;
    FewerRequestsKeepLocks(s.tokens, s.requests, id);
    assert forall id' :: id' in rest && rest[id'].Locked? ==> s.tokens[rest[id'].row].family != family;
    hide LocksHold, Decide;
    LocksSurviveOthersWrites(s.tokens, t.tokens, rest, family);
  }

  lemma CommitKeepsInv(s: State, id: nat, now: int)
    requires Inv(s) && Enabled(s, Commit(id, now))
    ensures Inv(Apply(s, Commit(id, now)))
  {
    hide TokensInv, CodesOnce, LocksHold, ReadFamily, Decide, Enact;
    CommitKeepsTokens(s, id, now);
    CommitKeepsLocks(s, id, now);
    FewerRequestsKeepCodes(s.codes, s.requests, s.started, s.nextSecret, Apply(s, Commit(id, now)).nextSecret, id);
  }

  lemma RotatedWasGood(t: Token, client: int, now: int)
    requires Judge(t, client, now) == Rotated
    ensures t.revokedAt.None? && t.rotatedAt.None?
  {
  }

  lemma IssueKeepsInv(s: State, id: nat, now: int)
    requires Inv(s) && Enabled(s, Issue(id, now))
    ensures Inv(Apply(s, Issue(id, now)))
  {
    hide TokensInv, CodesOnce;
    var code, t := s.requests[id].code, Apply(s, Issue(id, now));
    FamiliesBounded(s);
    FewerRequestsKeepLocks(s.tokens, s.requests, id);
    LocksSurviveOthersWrites(s.tokens, t.tokens, s.requests - {id}, s.nextFamily);
    IssueKeepsTokens(s.tokens, s.nextSecret, s.nextFamily, s.rotations, s.swept, s.codes[code].grant, now);
    IssueKeepsCodes(s.codes, s.requests, s.started, s.nextSecret, id, s.nextFamily);
  }

  lemma FamiliesBounded(s: State)
    requires Inv(s)
    ensures forall i :: 0 <= i < |s.tokens| ==> s.tokens[i].family < s.nextFamily
  {
  }

  lemma MoreSecretsKeepTokens(tokens: seq<Token>, nextSecret: nat, nextFamily: nat, rotations: seq<nat>,
                              swept: set<nat>)
    requires TokensInv(tokens, nextSecret, nextFamily, rotations, swept)
    ensures TokensInv(tokens, nextSecret + 1, nextFamily, rotations, swept)
  {
  }

  lemma InvKept(s: State, e: Event)
    requires Inv(s) && Enabled(s, e)
    ensures Inv(Apply(s, e))
  {
    match e {
      case Mint(_, _) =>
        hide TokensInv, LocksHold;
        MoreSecretsKeepTokens(s.tokens, s.nextSecret, s.nextFamily, s.rotations, s.swept);
      case Check(id, code, _, _, _, _, _) =>
        hide TokensInv, LocksHold, CodesOnce;
        PlainRequestKeepsLocks(s.tokens, s.requests, id, Checked(code));
        OtherRequestKeepsCodes(s.codes, s.requests, s.started, s.nextSecret, id, Checked(code));
      case Claim(id, now) =>
        hide TokensInv, LocksHold, CodesOnce;
        var code := s.requests[id].code;
        FewerRequestsKeepLocks(s.tokens, s.requests, id);
        PlainRequestKeepsLocks(s.tokens, s.requests, id, Claimed(code));
        if s.codes[code].usedAt.Some? {
          FewerRequestsKeepCodes(s.codes, s.requests, s.started, s.nextSecret, s.nextSecret, id);
        } else {
          ClaimKeepsCodes(s.codes, s.requests, s.started, s.nextSecret, id, code, now);
        }
      case Issue(id, now) => IssueKeepsInv(s, id, now);
      case Locate(id, row, client) =>
        hide TokensInv, LocksHold, CodesOnce;
        PlainRequestKeepsLocks(s.tokens, s.requests, id, Located(row, client));
        OtherRequestKeepsCodes(s.codes, s.requests, s.started, s.nextSecret, id, Located(row, client));
      case Lock(id) =>
        hide TokensInv, LocksHold, CodesOnce;
        LockKeepsLocks(s, id);
        OtherRequestKeepsCodes(s.codes, s.requests, s.started, s.nextSecret, id, Apply(s, e).requests[id]);
      case Commit(id, now) => CommitKeepsInv(s, id, now);
      case Abandon(id) =>
        hide TokensInv, LocksHold, CodesOnce;
        FewerRequestsKeepLocks(s.tokens, s.requests, id);
        FewerRequestsKeepCodes(s.codes, s.requests, s.started, s.nextSecret, s.nextSecret, id);
    }
  }

  lemma {:induction false} RunKeepsInv(s: State, events: seq<Event>)
    requires Inv(s)
    ensures Inv(Run(s, events))
  {
    hide Inv, Enabled, Apply;
    if events != [] {
      var n := |events| - 1;
      RunKeepsInv(s, events[..n]);
      var before := Run(s, events[..n]);
      if Enabled(before, events[n]) {
        InvKept(before, events[n]);
      }
    }
  }

  // ----- what every interleaving guarantees -----

  /** One authorization code starts at most one family. */
  lemma OneFamilyPerCode(events: seq<Event>, i: nat, j: nat)
    ensures var s := Run(INITIAL, events);
            i < j < |s.started| ==> s.started[i].0 != s.started[j].0
  {
    InitialInv();
    RunKeepsInv(INITIAL, events);
  }

  /** In every reachable state a family has one un-rotated row, no more and no fewer. */
  lemma FamilyHasOneLiveRow(events: seq<Event>, family: nat) returns (i: int)
    requires family < Run(INITIAL, events).nextFamily
    ensures var tokens := Run(INITIAL, events).tokens;
            LiveRow(tokens, family, i) && forall j :: LiveRow(tokens, family, j) ==> j == i
  {
    InitialInv();
    RunKeepsInv(INITIAL, events);
    var tokens := Run(INITIAL, events).tokens;
    assert HasLiveRow(tokens, family);
    i :| LiveRow(tokens, family, i);
  }

  /** A refresh token rotates successfully at most once over a whole run. */
  lemma RotatesAtMostOnce(events: seq<Event>, i: nat, j: nat)
    ensures var s := Run(INITIAL, events);
            i < j < |s.rotations| ==>
              && s.rotations[i] != s.rotations[j] && s.rotations[i] < |s.tokens| && s.rotations[j] < |s.tokens|
              && (s.tokens[s.rotations[i]].refresh.Some? ==>
                  s.tokens[s.rotations[i]].refresh != s.tokens[s.rotations[j]].refresh)
  {
    InitialInv();
    RunKeepsInv(INITIAL, events);
    var s := Run(INITIAL, events);
    if i < j < |s.rotations| {
      assert s.rotations[i] in s.rotations && s.rotations[j] in s.rotations;
    }
  }

  /** Committing a replay of a rotated token revokes every row of its family. */
  lemma ReplaySweepsFamily(events: seq<Event>, id: nat, now: int)
    requires var s := Run(INITIAL, events);
             Enabled(s, Commit(id, now)) && s.tokens[s.requests[id].row].rotatedAt.Some?
    ensures var s := Run(INITIAL, events);
            var t, family := Apply(s, Commit(id, now)), s.tokens[s.requests[id].row].family;
            && family in t.swept
            && forall k :: 0 <= k < |t.tokens| && t.tokens[k].family == family ==> t.tokens[k].revokedAt.Some?
  {
    InitialInv();
    RunKeepsInv(INITIAL, events);
    DecisionIsCurrent(Run(INITIAL, events), id, now);
  }

  /**
    What an access token is good for, over every run: it depends on the sweep of its family and on its
    own expiry, audience and scope, and on nothing else. Rotating its row does not end it.
   */
  lemma AccessExactly(events: seq<Event>, k: nat, audience: int, later: int)
    requires k < |Run(INITIAL, events).tokens|
    ensures var s := Run(INITIAL, events);
            var t := s.tokens[k];
            AccessLive(t, audience, later) <==>
              t.family !in s.swept && later < t.accessExpiresAt && t.grant.resource == audience && t.grant.financeRead
  {
    hide Run;
    InitialInv();
    RunKeepsInv(INITIAL, events);
    var s := Run(INITIAL, events);
    assert SweptAreDead(s.tokens, s.swept, s.nextFamily);
  }

  /** A family is swept only by a replay: the one step that adds to the swept families. */
  lemma OnlyAReplaySweeps(s: State, e: Event, family: nat)
    requires Inv(s) && Enabled(s, e) && family !in s.swept
    ensures family in Apply(s, e).swept <==>
              && e.Commit?
              && s.tokens[s.requests[e.id].row].family == family
              && s.tokens[s.requests[e.id].row].rotatedAt.Some?
  {
    if e.Commit? {
      DecisionIsCurrent(s, e.id, e.now);
    }
    hide Inv, Rotatable;
  }

  /** Nothing un-revokes a row, moves it to another family, or removes it. */
  lemma StepKeepsRevoked(s: State, e: Event, k: nat)
    requires Enabled(s, e) && k < |s.tokens|
    ensures var t := Apply(s, e);
            && k < |t.tokens| && t.tokens[k].family == s.tokens[k].family && t.tokens[k].access == s.tokens[k].access
            && (s.tokens[k].revokedAt.Some? ==> t.tokens[k].revokedAt.Some?)
  {
  }

  /** After the sweep no step adds a row to the family: no later rotation of it succeeds. */
  lemma SweptFamilyStaysDead(s: State, e: Event, family: nat)
    requires Inv(s) && Enabled(s, e) && family in s.swept
    ensures var t := Apply(s, e);
            && family in t.swept
            && (forall k :: |s.tokens| <= k < |t.tokens| ==> t.tokens[k].family != family)
            && (forall k :: 0 <= k < |s.rotations| ==> t.rotations[k] == s.rotations[k])
            && (forall k :: |s.rotations| <= k < |t.rotations| ==> t.tokens[t.rotations[k]].family != family)
  {
    match e {
      case Commit(id, now) =>
        DecisionIsCurrent(s, id, now);
        assert SweptAreDead(s.tokens, s.swept, s.nextFamily);
        if Decide(s.requests[id], now) == Rotated {
          RotatedWasGood(s.tokens[s.requests[id].row], s.requests[id].client, now);
        }
        hide Inv, Decide, Rotatable, SweptAreDead;
      case Issue(id, now) =>
        FamiliesBounded(s);
        assert SweptAreDead(s.tokens, s.swept, s.nextFamily);
        hide Inv;
      case _ =>
    }
  }

  /** Family dead, and unchanged in size since it had `size` rows on file: none live, none added. */
  ghost predicate DeadSince(t: State, family: nat, size: nat) {
    && family in t.swept && size <= |t.tokens|
    && (forall k :: size <= k < |t.tokens| ==> t.tokens[k].family != family)
    && (forall k :: 0 <= k < |t.tokens| && t.tokens[k].family == family ==> t.tokens[k].revokedAt.Some?)
  }

  lemma StaysDeadSince(s: State, e: Event, family: nat, size: nat)
    requires Inv(s) && Enabled(s, e) && DeadSince(s, family, size)
    ensures DeadSince(Apply(s, e), family, size)
  {
    var t := Apply(s, e);
    SweptFamilyStaysDead(s, e, family);
    forall k | 0 <= k < |s.tokens|
      ensures k < |t.tokens| && t.tokens[k].family == s.tokens[k].family
              && (s.tokens[k].revokedAt.Some? ==> t.tokens[k].revokedAt.Some?)
    {
      StepKeepsRevoked(s, e, k);
    }
    hide Inv, Enabled, Apply;
  }

  /** From a sweep on, whatever runs next, the family gains no row and none of its tokens gives access. */
  lemma {:induction false} SweptForever(s: State, events: seq<Event>, family: nat)
    requires Inv(s) && family in s.swept
    ensures DeadSince(Run(s, events), family, |s.tokens|)
  {
    if events == [] {
      assert SweptAreDead(s.tokens, s.swept, s.nextFamily);
    } else {
      hide Inv, Enabled, Apply, DeadSince;
      var n := |events| - 1;
      SweptForever(s, events[..n], family);
      RunKeepsInv(s, events[..n]);
      var before := Run(s, events[..n]);
      if Enabled(before, events[n]) {
        StaysDeadSince(before, events[n], family, |s.tokens|);
      }
    }
  }

  // ----- where every row comes from -----

  /** A request for the code passed every check of its own terms, before it expired. */
  ghost predicate PassedCheck(codes: map<nat, Code>, e: Event, code: nat) {
    && e.Check? && e.code == code && code in codes
    && var c := codes[code];
    && e.client == c.grant.client && e.redirect == c.grant.redirect && e.challenge == c.grant.challenge
    && (e.resource == None || e.resource == Some(c.grant.resource))
    && e.now < c.expiresAt && c.hasOwner
  }

  ghost predicate CheckedIn(codes: map<nat, Code>, events: seq<Event>, code: nat) {
    exists e :: e in events && PassedCheck(codes, e, code)
  }

  /** The family was started by a code with this grant. */
  ghost predicate FromCode(codes: map<nat, Code>, started: seq<(nat, nat)>, family: nat, grant: Grant) {
    exists p :: p in started && p.1 == family && p.0 in codes && codes[p.0].grant == grant
  }

  ghost predicate Provenance(s: State, events: seq<Event>) {
    && (forall id :: id in s.requests && (s.requests[id].Checked? || s.requests[id].Claimed?) ==>
          CheckedIn(s.codes, events, s.requests[id].code))
    && (forall p :: p in s.started ==> CheckedIn(s.codes, events, p.0))
    && (forall k :: 0 <= k < |s.tokens| ==> FromCode(s.codes, s.started, s.tokens[k].family, s.tokens[k].grant))
  }

  /** A later table has every code, on the same terms. */
  ghost predicate SameTerms(codes: map<nat, Code>, codes': map<nat, Code>) {
    forall code :: code in codes ==> code in codes' && codes'[code].(usedAt := None) == codes[code].(usedAt := None)
  }

  lemma StepKeepsTerms(s: State, e: Event)
    requires CodesOnce(s.codes, s.requests, s.started, s.nextSecret) && Enabled(s, e)
    ensures SameTerms(s.codes, Apply(s, e).codes)
  {
    hide Decide, Enact, ReadFamily;
  }

  lemma CheckedStays(codes: map<nat, Code>, codes': map<nat, Code>, events: seq<Event>, e: Event, code: nat)
    requires SameTerms(codes, codes') && CheckedIn(codes, events, code)
    ensures CheckedIn(codes', events + [e], code)
  {
    var c :| c in events && PassedCheck(codes, c, code);
    assert c in events + [e] && PassedCheck(codes', c, code);
  }

  lemma FromCodeStays(codes: map<nat, Code>, codes': map<nat, Code>, started: seq<(nat, nat)>,
                      started': seq<(nat, nat)>, family: nat, grant: Grant)
    requires SameTerms(codes, codes') && started <= started' && FromCode(codes, started, family, grant)
    ensures FromCode(codes', started', family, grant)
  {
    var p :| p in started && p.1 == family && p.0 in codes && codes[p.0].grant == grant;
    assert p in started';
  }

  /** A claim or a pass in flight was in flight before, or the step is the check itself. */
  lemma RequestStep(s: State, e: Event, id: nat)
    requires Enabled(s, e)
    requires var t := Apply(s, e); id in t.requests && (t.requests[id].Checked? || t.requests[id].Claimed?)
    ensures var t := Apply(s, e);
            || (id in s.requests && (s.requests[id].Checked? || s.requests[id].Claimed?)
                && s.requests[id].code == t.requests[id].code)
            || (e.Check? && t.codes == s.codes && t.requests[id].code == e.code && e.code in s.codes
                && Redeemable(s.codes[e.code], e.client, e.redirect, e.resource, e.challenge, e.now))
  {
    hide Decide, Enact, ReadFamily, Redeemable;
  }

  lemma RequestsStayChecked(s: State, e: Event, events: seq<Event>, id: nat)
    requires Inv(s) && Enabled(s, e) && Provenance(s, events)
    requires var t := Apply(s, e); id in t.requests && (t.requests[id].Checked? || t.requests[id].Claimed?)
    ensures var t := Apply(s, e); CheckedIn(t.codes, events + [e], t.requests[id].code)
  {
    StepKeepsTerms(s, e);
    RequestStep(s, e, id);
    hide Inv, Enabled, Apply;
    var t := Apply(s, e);
    if id in s.requests && (s.requests[id].Checked? || s.requests[id].Claimed?)
      && s.requests[id].code == t.requests[id].code {
      CheckedStays(s.codes, t.codes, events, e, s.requests[id].code);
    } else {
      assert e in events + [e] && PassedCheck(t.codes, e, e.code);
    }
  }

  lemma StartsStayChecked(s: State, e: Event, events: seq<Event>, p: (nat, nat))
    requires Inv(s) && Enabled(s, e) && Provenance(s, events) && p in Apply(s, e).started
    ensures CheckedIn(Apply(s, e).codes, events + [e], p.0)
  {
    StepKeepsTerms(s, e);
    if p in s.started {
      CheckedStays(s.codes, Apply(s, e).codes, events, e, p.0);
    } else {
      assert e.Issue? && p.0 == s.requests[e.id].code;
      CheckedStays(s.codes, Apply(s, e).codes, events, e, p.0);
    }
  }

  /** Rows keep family and grant; a new one has those of the code it is issued for or the row it replaces. */
  lemma RowStep(s: State, e: Event, k: nat)
    requires Enabled(s, e) && k < |Apply(s, e).tokens|
    ensures var t := Apply(s, e);
            && s.started <= t.started
            && if k < |s.tokens| then t.tokens[k].family == s.tokens[k].family && t.tokens[k].grant == s.tokens[k].grant
               else if e.Issue? then
                 && s.requests[e.id].code in s.codes
                 && (s.requests[e.id].code, t.tokens[k].family) in t.started
                 && t.tokens[k].grant == s.codes[s.requests[e.id].code].grant
               else
                 exists row :: && 0 <= row < |s.tokens| && t.tokens[k].family == s.tokens[row].family
                               && t.tokens[k].grant == s.tokens[row].grant
  {
    hide Decide, ReadFamily;
    if k >= |s.tokens| && e.Issue? {
      assert Apply(s, e).started[|s.started|] == (s.requests[e.id].code, s.nextFamily);
    }
    if k >= |s.tokens| && e.Commit? {
      var row := s.requests[e.id].row;
      assert Apply(s, e).tokens[k].family == s.tokens[row].family;
    }
  }

  lemma RowsStayFromCodes(s: State, e: Event, events: seq<Event>, k: nat)
    requires Inv(s) && Enabled(s, e) && Provenance(s, events) && k < |Apply(s, e).tokens|
    ensures var t := Apply(s, e); FromCode(t.codes, t.started, t.tokens[k].family, t.tokens[k].grant)
  {
    StepKeepsTerms(s, e);
    RowStep(s, e, k);
    hide Inv, Enabled, Apply, CheckedIn;
    var t := Apply(s, e);
    if k < |s.tokens| {
      FromCodeStays(s.codes, t.codes, s.started, t.started, s.tokens[k].family, s.tokens[k].grant);
    } else if !e.Issue? {
      var row :| && 0 <= row < |s.tokens| && t.tokens[k].family == s.tokens[row].family
                 && t.tokens[k].grant == s.tokens[row].grant;
      FromCodeStays(s.codes, t.codes, s.started, t.started, s.tokens[row].family, s.tokens[row].grant);
    }
  }

  lemma {:induction false} RunHasProvenance(events: seq<Event>)
    ensures Provenance(Run(INITIAL, events), events)
  {
    if events != [] {
      var n := |events| - 1;
      var s, e := Run(INITIAL, events[..n]), events[n];
      RunHasProvenance(events[..n]);
      InitialInv();
      RunKeepsInv(INITIAL, events[..n]);
      assert events == events[..n] + [e];
      hide Inv, Enabled, Apply;
      StepHasProvenance(s, e, events[..n]);
    }
  }

  lemma StepHasProvenance(s: State, e: Event, events: seq<Event>)
    requires Inv(s) && Provenance(s, events)
    ensures Provenance(if Enabled(s, e) then Apply(s, e) else s, events + [e])
  {
    hide Inv, Enabled, Apply, CheckedIn, FromCode;
    if Enabled(s, e) {
      var t := Apply(s, e);
      forall id | id in t.requests && (t.requests[id].Checked? || t.requests[id].Claimed?)
        ensures CheckedIn(t.codes, events + [e], t.requests[id].code)
      {
        RequestsStayChecked(s, e, events, id);
      }
      forall p | p in t.started ensures CheckedIn(t.codes, events + [e], p.0) {
        StartsStayChecked(s, e, events, p);
      }
      forall k | 0 <= k < |t.tokens| ensures FromCode(t.codes, t.started, t.tokens[k].family, t.tokens[k].grant) {
        RowsStayFromCodes(s, e, events, k);
      }
    } else {
      forall code | CheckedIn(s.codes, events, code) ensures CheckedIn(s.codes, events + [e], code) {
        CheckedStays(s.codes, s.codes, events, e, code);
      }
    }
  }

  /**
    Over every run, a family exists only because a request for its code passed every check of the code's own
    client, redirect, audience and challenge, before the code expired.
   */
  lemma StartedWasChecked(events: seq<Event>, p: (nat, nat)) returns (e: Event)
    requires p in Run(INITIAL, events).started
    ensures var codes := Run(INITIAL, events).codes;
            && e in events && e.Check? && e.code == p.0 && p.0 in codes
            && var c := codes[p.0];
            && e.client == c.grant.client && e.redirect == c.grant.redirect && e.challenge == c.grant.challenge
            && (e.resource == None || e.resource == Some(c.grant.resource))
            && e.now < c.expiresAt
  {
    RunHasProvenance(events);
    var codes := Run(INITIAL, events).codes;
    assert CheckedIn(codes, events, p.0);
    e :| e in events && PassedCheck(codes, e, p.0);
  }

  /** Over every run, every row has the grant of the code its family was started by: rotation widens nothing. */
  lemma GrantIsTheCodes(events: seq<Event>, k: nat) returns (p: (nat, nat))
    requires k < |Run(INITIAL, events).tokens|
    ensures var s := Run(INITIAL, events);
            p in s.started && p.1 == s.tokens[k].family && p.0 in s.codes && s.tokens[k].grant == s.codes[p.0].grant
  {
    RunHasProvenance(events);
    var s := Run(INITIAL, events);
    assert FromCode(s.codes, s.started, s.tokens[k].family, s.tokens[k].grant);
    p :| p in s.started && p.1 == s.tokens[k].family && p.0 in s.codes && s.codes[p.0].grant == s.tokens[k].grant;
  }

  /**
    A commit rotates its row exactly when the row is neither rotated nor revoked, its owner is there, its own
    client presents it, and its ninety days are not over; and then issues one row for the same family.
   */
  lemma RotatesExactly(s: State, id: nat, now: int)
    requires Inv(s) && Enabled(s, Commit(id, now))
    ensures var r, t := s.requests[id], Apply(s, Commit(id, now));
            var row := s.tokens[r.row];
            && (t.rotations != s.rotations <==>
                  && row.rotatedAt.None? && row.revokedAt.None? && row.hasOwner && r.client == row.grant.client
                  && row.refreshExpiresAt.Some? && now < row.refreshExpiresAt.value)
            && (t.rotations != s.rotations ==>
                  && t.rotations == s.rotations + [r.row]
                  && |t.tokens| == |s.tokens| + 1 && IssuedFor(t.tokens[|s.tokens|], row.grant, row.family, now)
                  && t.tokens[r.row] == row.(rotatedAt := Some(now)))
  {
    DecisionIsCurrent(s, id, now);
    hide Inv, ReadFamily;
  }

  // ----- it does happen -----

  const OFFLINE: Grant := Grant(1, 2, 3, 4, 5, true, true)

  function Next(s: State, e: Event): State {
    if Enabled(s, e) then Apply(s, e) else s
  }

  lemma RunNext(events: seq<Event>, e: Event)
    ensures Run(INITIAL, events + [e]) == Next(Run(INITIAL, events), e)
  {
    hide Enabled, Apply;
    assert (events + [e])[..|events|] == events;
  }

  /** The code, minted at 0 and checked at 10, and its family's first row. */
  function Started(): State {
    State([Issued(1, 0, OFFLINE, 12)], map[0 := Code(OFFLINE, 60, Some(11), true)], map[], 3, 1, [(0, 0)], [], {})
  }

  lemma CodeIsRedeemed(s: State)
    requires s == INITIAL
    ensures var checked := Next(Next(s, Mint(OFFLINE, 0)), Check(7, 0, 2, 3, Some(5), 4, 10));
            Next(Next(checked, Claim(7, 11)), Issue(7, 12)) == Started()
  {
    var minted := Next(s, Mint(OFFLINE, 0));
    assert minted == State([], map[0 := Code(OFFLINE, 60, None, true)], map[], 1, 0, [], [], {});
    var checked := Next(minted, Check(7, 0, 2, 3, Some(5), 4, 10));
    assert checked == minted.(requests := map[7 := Checked(0)]);
    var claimed := Next(checked, Claim(7, 11));
    assert claimed.requests[7] == Claimed(0) && claimed.codes == map[0 := Code(OFFLINE, 60, Some(11), true)];
    assert claimed.requests - {7} == map[];
  }

  /** The first row rotated at 20. */
  function RotatedOnce(): State {
    Started().(tokens := [Issued(1, 0, OFFLINE, 12).(rotatedAt := Some(20)), Issued(3, 0, OFFLINE, 20)],
               nextSecret := 5, rotations := [0])
  }

  lemma RowIsRotated(s: State)
    requires s == Started()
    ensures Next(Next(Next(s, Locate(8, 0, 2)), Lock(8)), Commit(8, 20)) == RotatedOnce()
  {
    var located := Next(s, Locate(8, 0, 2));
    assert located == s.(requests := map[8 := Located(0, 2)]);
    var locked := Next(located, Lock(8));
    assert locked.requests[8] == Locked(0, 2, ReadFamily(s.tokens, 0)) && 0 in ReadFamily(s.tokens, 0);
    assert locked.requests - {8} == map[];
    assert Decide(locked.requests[8], 20) == Rotated;
    assert Enact(s.tokens, 0, Rotated, 20, 3) == RotatedOnce().tokens;
  }

  lemma ReplayIsCaught(s: State)
    requires s == RotatedOnce()
    ensures var t := Next(Next(Next(s, Locate(9, 0, 99)), Lock(9)), Commit(9, 30));
            && t.swept == {0} && t.rotations == [0] && |t.tokens| == 2
            && t.tokens[0].revokedAt == t.tokens[1].revokedAt == Some(30)
  {
    var located := Next(s, Locate(9, 0, 99));
    assert located == s.(requests := map[9 := Located(0, 99)]);
    var locked := Next(located, Lock(9));
    assert locked.requests[9] == Locked(0, 99, ReadFamily(s.tokens, 0)) && 0 in ReadFamily(s.tokens, 0);
    assert Decide(locked.requests[9], 30) == Swept;
  }

  /** One run in which a code is redeemed, its refresh token rotated, and the old token's replay kills both rows. */
  lemma ReplayedTokenKillsFamily() returns (events: seq<Event>)
    ensures var s := Run(INITIAL, events);
            && s.started == [(0, 0)] && s.rotations == [0] && s.swept == {0}
            && |s.tokens| == 2 && s.tokens[0].revokedAt.Some? && s.tokens[1].revokedAt.Some?
  {
    hide Run, Next, Started, RotatedOnce;
    var redeem := [Mint(OFFLINE, 0)] + [Check(7, 0, 2, 3, Some(5), 4, 10)] + [Claim(7, 11)] + [Issue(7, 12)];
    var rotate := redeem + [Locate(8, 0, 2)] + [Lock(8)] + [Commit(8, 20)];
    NothingRun();
    assert [] + [Mint(OFFLINE, 0)] == [Mint(OFFLINE, 0)];
    RunNext([], Mint(OFFLINE, 0));
    RunNext([Mint(OFFLINE, 0)], Check(7, 0, 2, 3, Some(5), 4, 10));
    RunNext([Mint(OFFLINE, 0)] + [Check(7, 0, 2, 3, Some(5), 4, 10)], Claim(7, 11));
    RunNext([Mint(OFFLINE, 0)] + [Check(7, 0, 2, 3, Some(5), 4, 10)] + [Claim(7, 11)], Issue(7, 12));
    CodeIsRedeemed(INITIAL);
    RunNext(redeem, Locate(8, 0, 2));
    RunNext(redeem + [Locate(8, 0, 2)], Lock(8));
    RunNext(redeem + [Locate(8, 0, 2)] + [Lock(8)], Commit(8, 20));
    RowIsRotated(Started());
    RunNext(rotate, Locate(9, 0, 99));
    RunNext(rotate + [Locate(9, 0, 99)], Lock(9));
    RunNext(rotate + [Locate(9, 0, 99)] + [Lock(9)], Commit(9, 30));
    ReplayIsCaught(RotatedOnce());
    events := rotate + [Locate(9, 0, 99)] + [Lock(9)] + [Commit(9, 30)];
    assert RotatedOnce().started == [(0, 0)] by { FirstStart(); }
    ReplayKeepsStarts(RotatedOnce());
  }

  lemma NothingRun()
    ensures Run(INITIAL, []) == INITIAL
  {
  }

  lemma FirstStart()
    ensures RotatedOnce().started == [(0, 0)]
  {
  }

  lemma ReplayKeepsStarts(s: State)
    ensures Next(Next(Next(s, Locate(9, 0, 99)), Lock(9)), Commit(9, 30)).started == s.started
  {
  }
}
