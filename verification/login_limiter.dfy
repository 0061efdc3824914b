/** The login limiter, and what it guarantees over every serialised run of logins. */
module LoginLimiter {

  datatype Key = Account(email: string) | Ip(address: string)

  /** Times are seconds after the zero time; the clock never shows the zero time itself. */
  datatype Attempt = Attempt(failures: nat, blockedUntil: int, updatedAt: int)

  const CAPACITY := 10_000
  const BLOCK := 300
  const FORGET := 900

  function Threshold(key: Key): nat {
    if key.Account? then 5 else 25
  }

  // ----- The history of a limiter -----

  datatype Entry =
    | Failed(key: Key, at: int)
    | Succeeded(key: Key, at: int)
    | Evicted(key: Key, at: int)
    | Expired(key: Key, at: int)

  /** The failures of a key since its entry was last dropped. */
  function FailuresSince(log: seq<Entry>, key: Key): nat {
    if log == [] then 0 else
      var init, last := log[..|log| - 1], log[|log| - 1];
      if last.key != key then FailuresSince(init, key)
      else if last.Failed? then FailuresSince(init, key) + 1
      else 0
  }

  /** When the key last failed; the zero time if it never did. */
  function LastFailure(log: seq<Entry>, key: Key): int {
    if log == [] then 0 else
      var last := log[|log| - 1];
      if last.Failed? && last.key == key then last.at else LastFailure(log[..|log| - 1], key)
  }

  ghost predicate InOrder(log: seq<Entry>) {
    && (forall i :: 0 <= i < |log| ==> log[i].at > 0)
    && (forall i, j :: 0 <= i < j < |log| ==> log[i].at <= log[j].at)
  }

  /** What may be added to a log: failures only of keys that are not blocked, expiry only of idle keys. */
  ghost predicate Permitted(log: seq<Entry>, entry: Entry) {
    match entry
    case Failed(key, at) => FailuresSince(log, key) >= Threshold(key) ==> at >= LastFailure(log, key) + BLOCK
    case Expired(key, at) => FailuresSince(log, key) > 0 && at >= LastFailure(log, key) + FORGET
    case _ => true
  }

  ghost predicate Lawful(log: seq<Entry>) {
    InOrder(log) && forall i :: 0 <= i < |log| ==> Permitted(log[..i], log[i])
  }

  lemma LawfulSnoc(log: seq<Entry>, entry: Entry)
    requires Lawful(log) && Permitted(log, entry) && entry.at > 0
    requires forall i :: 0 <= i < |log| ==> log[i].at <= entry.at
    ensures Lawful(log + [entry])
  {
    var all := log + [entry];
    forall i | 0 <= i < |all| ensures Permitted(all[..i], all[i]) {
      assert all[..i] == if i < |log| then log[..i] else log;
    }
  }

  /** The entry that the table holds for a key is what the log says about it. */
  ghost predicate Follows(attempts: map<Key, Attempt>, log: seq<Entry>, key: Key) {
    && (key in attempts <==> FailuresSince(log, key) > 0)
    && (key in attempts ==>
          && attempts[key].failures == FailuresSince(log, key)
          && attempts[key].updatedAt == LastFailure(log, key) > 0
          && attempts[key].blockedUntil ==
             if attempts[key].failures >= Threshold(key) then attempts[key].updatedAt + BLOCK else 0)
  }

  ghost predicate Consistent(attempts: map<Key, Attempt>, log: seq<Entry>) {
    Lawful(log) && forall key :: Follows(attempts, log, key)
  }

  lemma DropFollows(attempts: map<Key, Attempt>, log: seq<Entry>, entry: Entry)
    requires Consistent(attempts, log) && !entry.Failed? && Permitted(log, entry) && entry.at > 0
    requires forall i :: 0 <= i < |log| ==> log[i].at <= entry.at
    ensures Consistent(attempts - {entry.key}, log + [entry])
  {
    LawfulSnoc(log, entry);
    assert (log + [entry])[..|log|] == log;
    forall key ensures Follows(attempts - {entry.key}, log + [entry], key) {
      assert Follows(attempts, log, key);
    }
  }

  function Bump(attempts: map<Key, Attempt>, key: Key, now: int): Attempt {
    var failures := (if key in attempts then attempts[key].failures else 0) + 1;
    var blockedUntil := if key in attempts then attempts[key].blockedUntil else 0;
    Attempt(failures, if failures >= Threshold(key) then now + BLOCK else blockedUntil, now)
  }

  lemma FailFollows(attempts: map<Key, Attempt>, log: seq<Entry>, key: Key, now: int)
    requires Consistent(attempts, log) && Permitted(log, Failed(key, now)) && now > 0
    requires forall i :: 0 <= i < |log| ==> log[i].at <= now
    ensures Consistent(attempts[key := Bump(attempts, key, now)], log + [Failed(key, now)])
  {
    LawfulSnoc(log, Failed(key, now));
    assert (log + [Failed(key, now)])[..|log|] == log;
    var attempts', log' := attempts[key := Bump(attempts, key, now)], log + [Failed(key, now)];
    forall k ensures Follows(attempts', log', k) {
      assert Follows(attempts, log, k) && Follows(attempts, log, key);
    }
  }

  ghost predicate BlockedAt(log: seq<Entry>, key: Key, now: int) {
    FailuresSince(log, key) >= Threshold(key) && now < LastFailure(log, key) + BLOCK
  }

  /** From now on the key may fail: it is not blocked. */
  ghost predicate MayFail(log: seq<Entry>, key: Key, now: int) {
    forall later {:trigger Permitted(log, Failed(key, later))} :: later >= now ==> Permitted(log, Failed(key, later))
  }

  /** Entries of other keys, and dropping the key's own, do not block it. */
  lemma MayStillFail(log: seq<Entry>, entry: Entry, key: Key, now: int)
    requires entry.key != key || !entry.Failed?
    ensures MayFail(log, key, now) ==> MayFail(log + [entry], key, now)
    ensures entry.key != key ==> (BlockedAt(log + [entry], key, now) <==> BlockedAt(log, key, now))
  {
    assert (log + [entry])[..|log|] == log;
    if MayFail(log, key, now) {
      forall later | later >= now ensures Permitted(log + [entry], Failed(key, later)) {
        assert Permitted(log, Failed(key, later));
      }
    }
  }

  lemma StillPermitted(log: seq<Entry>, evicted: Key, key: Key, now: int)
    requires Permitted(log, Failed(key, now))
    ensures Permitted(log + [Evicted(evicted, now)], Failed(key, now))
  {
    assert (log + [Evicted(evicted, now)])[..|log|] == log;
  }

  datatype LoginResult = RateLimited | InvalidCredentials | LoggedIn

  /** One failure of a key, and in front of it the eviction that made room, if there was one. */
  ghost predicate OneFailure(added: seq<Entry>, key: Key, at: int) {
    added == [Failed(key, at)] || exists k :: added == [Evicted(k, at), Failed(key, at)]
  }

  ghost predicate FailuresAdded(added: seq<Entry>, account: Key, ip: Key, clock: seq<int>)
    requires |clock| == 4
  {
    exists n :: 0 <= n <= |added| && OneFailure(added[..n], account, clock[2]) && OneFailure(added[n..], ip, clock[3])
  }

  ghost predicate OnlyExpiries(added: seq<Entry>) {
    forall i :: 0 <= i < |added| ==> added[i].Expired?
  }

  /** What a login adds to the log, after entries that have expired. */
  ghost predicate Recorded(added: seq<Entry>, result: LoginResult, email: string, address: string, clock: seq<int>)
    requires |clock| == 4
  {
    exists n :: 0 <= n <= |added| && OnlyExpiries(added[..n]) &&
                match result
                case RateLimited => n == |added|
                case LoggedIn => added[n..] == [Succeeded(Account(email), clock[3])]
                case InvalidCredentials => FailuresAdded(added[n..], Account(email), Ip(address), clock)
  }

  lemma Adding(before: seq<Entry>, allowed: seq<Entry>, after: seq<Entry>, result: LoginResult, email: string,
               address: string, clock: seq<int>)
    requires |clock| == 4 && before <= allowed <= after && OnlyExpiries(allowed[|before|..])
    requires match result
             case RateLimited => after == allowed
             case LoggedIn => after == allowed + [Succeeded(Account(email), clock[3])]
             case InvalidCredentials => FailuresAdded(after[|allowed|..], Account(email), Ip(address), clock)
    ensures Recorded(after[|before|..], result, email, address, clock)
  {
    hide OnlyExpiries, FailuresAdded;
    var added, n := after[|before|..], |allowed| - |before|;
    assert added[..n] == allowed[|before|..] && added[n..] == after[|allowed|..];
  }

  lemma NothingExpires(log: seq<Entry>)
    ensures OnlyExpiries(log[|log|..])
  {
  }

  /** Allowing a key adds nothing but the expiry of its own entry. */
  lemma ExpiriesAdd(before: seq<Entry>, allowed: seq<Entry>, more: seq<Entry>, key: Key, now: int)
    requires before <= allowed && OnlyExpiries(allowed[|before|..])
    requires more == allowed || more == allowed + [Expired(key, now)]
    ensures before <= more && OnlyExpiries(more[|before|..])
  {
  }

  lemma BothAdded(before: seq<Entry>, between: seq<Entry>, after: seq<Entry>, account: Key, ip: Key, clock: seq<int>)
    requires |clock| == 4 && before <= between <= after
    requires OneFailure(between[|before|..], account, clock[2]) && OneFailure(after[|between|..], ip, clock[3])
    ensures FailuresAdded(after[|before|..], account, ip, clock)
  {
    hide OneFailure;
    var added, n := after[|before|..], |between| - |before|;
    assert added[..n] == between[|before|..] && added[n..] == after[|between|..];
  }

  class Limiter {
    var attempts: map<Key, Attempt>
    ghost var log: seq<Entry>

    constructor ()
      ensures Valid() && attempts == map[] && log == []
    {
      attempts, log := map[], [];
    }

    ghost predicate Valid()
      reads this
    {
      Consistent(attempts, log) && |attempts| <= CAPACITY
    }

    /** The clock has not run backwards. */
    ghost predicate NotBefore(now: int)
      reads this
    {
      now > 0 && forall i :: 0 <= i < |log| ==> log[i].at <= now
    }

    method Allow(key: Key, now: int) returns (allowed: bool)
      requires Valid() && NotBefore(now)
      modifies this
      ensures Valid() && NotBefore(now)
      ensures log == old(log) || log == old(log) + [Expired(key, now)]
      ensures allowed <==> !BlockedAt(old(log), key, now)
      ensures allowed ==> MayFail(log, key, now)
      ensures FailuresSince(old(log), key) > 0 && now - LastFailure(old(log), key) >= 900 ==>
                allowed && FailuresSince(log, key) == 0
    {
      assert Follows(attempts, log, key);
      if key in attempts && now - attempts[key].updatedAt >= FORGET {
        DropFollows(attempts, log, Expired(key, now));
        assert (log + [Expired(key, now)])[..|log|] == log;
        attempts := attempts - {key};
        log := log + [Expired(key, now)];
        return true;
      }
      return if key in attempts then now >= attempts[key].blockedUntil else true;
    }

    /** Drops an entry that no other entry is older than; entries are looked at in any order. */
    method EvictOldest(ghost now: int) returns (evicted: Key)
      requires Valid() && NotBefore(now) && attempts != map[]
      modifies this
      ensures Valid() && NotBefore(now)
      ensures evicted in old(attempts) && attempts == old(attempts) - {evicted}
      ensures forall k :: k in old(attempts) ==> old(attempts)[evicted].updatedAt <= old(attempts)[k].updatedAt
      ensures log == old(log) + [Evicted(evicted, now)]
    {
      evicted :| evicted in attempts;
      var rest := attempts.Keys - {evicted};
      while rest != {}
        invariant evicted in attempts && rest <= attempts.Keys
        invariant forall k :: k in attempts && k !in rest ==> attempts[evicted].updatedAt <= attempts[k].updatedAt
        invariant attempts == old(attempts) && log == old(log)
        decreases |rest|
      {
        var candidate :| candidate in rest;
        rest := rest - {candidate};
        if attempts[candidate].updatedAt < attempts[evicted].updatedAt {
          evicted := candidate;
        }
      }
      DropFollows(attempts, log, Evicted(evicted, now));
      attempts := attempts - {evicted};
      log := log + [Evicted(evicted, now)];
    }

    method Fail(key: Key, now: int)
      requires Valid() && NotBefore(now) && Permitted(log, Failed(key, now))
      modifies this
      ensures Valid() && NotBefore(now)
      ensures key in attempts && attempts[key].updatedAt == now
      ensures old(log) <= log && OneFailure(log[|old(log)|..], key, now)
      ensures if |old(attempts)| < 10_000 then log == old(log) + [Failed(key, now)]
              else exists k :: (k in old(attempts) && log == old(log) + [Evicted(k, now), Failed(key, now)] &&
                                forall other :: other in old(attempts) ==>
                                  old(attempts)[k].updatedAt <= old(attempts)[other].updatedAt)
    {
      hide Consistent, Permitted, FailuresSince, LastFailure;
      if |attempts| >= CAPACITY {
        var evicted := EvictOldest(now);
        StillPermitted(old(log), evicted, key, now);
        assert old(log) + [Evicted(evicted, now)] + [Failed(key, now)] ==
               old(log) + [Evicted(evicted, now), Failed(key, now)];
      }
      ghost var roomy := log;
      FailFollows(attempts, log, key, now);
      attempts := attempts[key := Bump(attempts, key, now)];
      log := log + [Failed(key, now)];
      assert log[|old(log)|..] == roomy[|old(log)|..] + [Failed(key, now)];
    }

    method Success(key: Key, ghost now: int)
      requires Valid() && NotBefore(now)
      modifies this
      ensures Valid() && NotBefore(now)
      ensures attempts == old(attempts) - {key} && log == old(log) + [Succeeded(key, now)]
    {
      DropFollows(attempts, log, Succeeded(key, now));
      attempts := attempts - {key};
      log := log + [Succeeded(key, now)];
    }

    /** Login reads the clock before each use of the limiter; valid is what verifying the password gives. */
    method Login(email: string, address: string, valid: bool, clock: seq<int>) returns (result: LoginResult)
      requires Valid() && |clock| == 4 && NotBefore(clock[0])
      requires clock[0] <= clock[1] <= clock[2] <= clock[3]
      modifies this
      ensures Valid() && NotBefore(clock[3])
      ensures old(log) <= log
      ensures result == LoggedIn ==> valid && Account(email) !in attempts
      ensures result == InvalidCredentials ==> !valid && Ip(address) in attempts
      ensures Recorded(log[|old(log)|..], result, email, address, clock)
      ensures !BlockedAt(old(log), Account(email), clock[0]) && !BlockedAt(old(log), Ip(address), clock[1]) <==>
              result != RateLimited
    {
      hide Consistent, MayFail, BlockedAt, Permitted, OnlyExpiries, FailuresAdded, Recorded;
      var account, ip := Account(email), Ip(address);
      assert OnlyExpiries(log[|log|..]) by { NothingExpires(log); }
      var accountAllowed := Allow(account, clock[0]);
      ExpiriesAdd(old(log), old(log), log, account, clock[0]);
      MayStillFail(old(log), Expired(account, clock[0]), ip, clock[1]);
      if !accountAllowed {
        Adding(old(log), log, log, RateLimited, email, address, clock);
        return RateLimited;
      }
      ghost var before := log;
      var ipAllowed := Allow(ip, clock[1]);
      ExpiriesAdd(old(log), before, log, ip, clock[1]);
      MayStillFail(before, Expired(ip, clock[1]), account, clock[0]);
      if !ipAllowed {
        Adding(old(log), log, log, RateLimited, email, address, clock);
        return RateLimited;
      }
      ghost var allowed := log;
      if valid {
        Success(account, clock[3]);
        Adding(old(log), allowed, log, LoggedIn, email, address, clock);
        return LoggedIn;
      }
      FailBoth(account, ip, clock);
      Adding(old(log), allowed, log, InvalidCredentials, email, address, clock);
      return InvalidCredentials;
    }

    method FailBoth(account: Key, ip: Key, clock: seq<int>)
      requires Valid() && |clock| == 4 && NotBefore(clock[1]) && clock[0] <= clock[1] <= clock[2] <= clock[3]
      requires account != ip && MayFail(log, account, clock[0]) && MayFail(log, ip, clock[1])
      modifies this
      ensures Valid() && NotBefore(clock[3]) && old(log) <= log && ip in attempts
      ensures FailuresAdded(log[|old(log)|..], account, ip, clock)
    {
      hide Consistent, BlockedAt;
      ghost var before := log;
      Fail(account, clock[2]);
      FailKeepsOthers(before, log, account, ip, clock[1], clock[2]);
      ghost var between := log;
      Fail(ip, clock[3]);
      BothAdded(before, between, log, account, ip, clock);
    }
  }

  lemma FailKeepsOthers(before: seq<Entry>, after: seq<Entry>, failed: Key, other: Key, now: int, at: int)
    requires failed != other && MayFail(before, other, now)
    requires after == before + [Failed(failed, at)] ||
             exists k :: after == before + [Evicted(k, at), Failed(failed, at)]
    ensures MayFail(after, other, now)
  {
    hide MayFail, BlockedAt;
    if after == before + [Failed(failed, at)] {
      MayStillFail(before, Failed(failed, at), other, now);
    } else {
      var k :| after == before + [Evicted(k, at), Failed(failed, at)];
      MayStillFail(before, Evicted(k, at), other, now);
      MayStillFail(before + [Evicted(k, at)], Failed(failed, at), other, now);
      assert after == before + [Evicted(k, at)] + [Failed(failed, at)];
    }
  }

  // ----- Safety over whole runs -----

  function FailuresBetween(log: seq<Entry>, key: Key, from: nat, to: nat): nat
    requires from <= to <= |log|
  {
    if from == to then 0 else
      (if log[to - 1].Failed? && log[to - 1].key == key then 1 else 0) + FailuresBetween(log, key, from, to - 1)
  }

  /** From position i on, the key neither succeeded nor was evicted before position j. */
  ghost predicate Uninterrupted(log: seq<Entry>, key: Key, i: nat, j: nat)
    requires i <= j <= |log|
  {
    forall k :: i <= k < j && log[k].key == key ==> log[k].Failed? || log[k].Expired?
  }

  /** The last failure before j is no earlier than any failure before j. */
  lemma {:induction false} LastIsLatest(log: seq<Entry>, key: Key, i: nat, j: nat)
    requires InOrder(log) && i < j <= |log| && log[i] == Failed(key, log[i].at)
    ensures log[i].at <= LastFailure(log[..j], key)
  {
    var last := log[..j][j - 1];
    assert log[..j][..j - 1] == log[..j - 1];
    if !(last.Failed? && last.key == key) {
      LastIsLatest(log, key, i, j - 1);
    }
  }

  lemma OneMoreEntry(log: seq<Entry>, key: Key, j: nat)
    requires j < |log|
    ensures FailuresSince(log[..j + 1], key) ==
            if log[j].key != key then FailuresSince(log[..j], key)
            else if log[j].Failed? then FailuresSince(log[..j], key) + 1
            else 0
  {
    assert log[..j + 1][..j] == log[..j];
  }

  /** Either the key sat idle for the forgetting time since i, or the failures since i all still count. */
  lemma {:induction false} CountedOrIdle(log: seq<Entry>, key: Key, i: nat, j: nat)
    requires Lawful(log) && i < j <= |log| && log[i] == Failed(key, log[i].at) && Uninterrupted(log, key, i, j)
    ensures FailuresSince(log[..j], key) >= FailuresBetween(log, key, i, j) ||
            exists e :: i < e < j && log[e].at >= log[i].at + FORGET
  {
    hide FailuresSince, LastFailure;
    OneMoreEntry(log, key, j - 1);
    if j == i + 1 {
      assert FailuresBetween(log, key, i, i) == 0;
    } else {
      CountedOrIdle(log, key, i, j - 1);
      if log[j - 1].key == key && log[j - 1].Expired? {
        assert Permitted(log[..j - 1], log[j - 1]);
        LastIsLatest(log, key, i, j - 1);
        assert log[j - 1].at >= log[i].at + FORGET;
      }
    }
  }

  /**
   * Between two failures of a key less than five minutes apart there are at most threshold failures in all,
   * unless a success or an eviction of its entry falls between them: five for an account, 25 for an address.
   */
  lemma FailuresAreThrottled(log: seq<Entry>, key: Key, i: nat, j: nat)
    requires Lawful(log) && i < j < |log| && log[i] == Failed(key, log[i].at) && log[j] == Failed(key, log[j].at)
    requires Uninterrupted(log, key, i, j)
    requires log[j].at < log[i].at + BLOCK
    ensures FailuresBetween(log, key, i, j + 1) <= Threshold(key)
  {
    CountedOrIdle(log, key, i, j);
    LastIsLatest(log, key, i, j);
    assert Permitted(log[..j], log[j]);
  }

  /** A limiter only ever holds lawful logs, so the bound holds of every run of logins on it. */
  lemma AccountsAreThrottled(limiter: Limiter, email: string, i: nat, j: nat)
    requires limiter.Valid()
    requires i < j < |limiter.log| && Uninterrupted(limiter.log, Account(email), i, j)
    requires limiter.log[i] == Failed(Account(email), limiter.log[i].at)
    requires limiter.log[j] == Failed(Account(email), limiter.log[j].at)
    requires limiter.log[j].at < limiter.log[i].at + 300
    ensures FailuresBetween(limiter.log, Account(email), i, j + 1) <= 5
  {
    FailuresAreThrottled(limiter.log, Account(email), i, j);
  }

  // ----- When an account is locked out -----

  ghost predicate FailsAt(log: seq<Entry>, key: Key, k: nat) {
    k < |log| && log[k].Failed? && log[k].key == key
  }

  /** The key fails at b, and from a on not before that. */
  ghost predicate FailsNextAt(log: seq<Entry>, key: Key, a: nat, b: nat) {
    a < b && FailsAt(log, key, b) && forall k :: a < k < b ==> !FailsAt(log, key, k)
  }

  /** From position i on, each failure of the key follows the one before it by less than a quarter of an hour. */
  ghost predicate Pressing(log: seq<Entry>, key: Key, i: nat) {
    forall a: nat, b: nat :: i <= a && FailsAt(log, key, a) && FailsNextAt(log, key, a, b) ==>
      log[b].at < log[a].at + 900
  }

  lemma {:induction false} LatestFailure(log: seq<Entry>, key: Key, i: nat, j: nat) returns (a: nat)
    requires i < j <= |log| && FailsAt(log, key, i)
    ensures i <= a < j && FailsAt(log, key, a) && LastFailure(log[..j], key) == log[a].at
    ensures forall k :: a < k < j ==> !FailsAt(log, key, k)
  {
    assert log[..j][..j - 1] == log[..j - 1] && log[..j][j - 1] == log[j - 1];
    if FailsAt(log, key, j - 1) {
      a := j - 1;
    } else {
      a := LatestFailure(log, key, i, j - 1);
    }
  }

  lemma {:induction false} NextFailure(log: seq<Entry>, key: Key, e: nat, n: nat) returns (b: nat)
    requires e < n && FailsAt(log, key, n)
    ensures b <= n && FailsNextAt(log, key, e, b)
  {
    if k :| e < k < n && FailsAt(log, key, k) {
      b := NextFailure(log, key, e, k);
    } else {
      b := n;
    }
  }

  lemma SkipNonFailures(log: seq<Entry>, key: Key, a: nat, e: nat, b: nat)
    requires a <= e && FailsNextAt(log, key, e, b) && forall k :: a < k <= e ==> !FailsAt(log, key, k)
    ensures FailsNextAt(log, key, a, b)
  {
  }

  /** An entry that expires does so a quarter of an hour after its last failure, and nothing of it follows soon. */
  lemma NotForgotten(log: seq<Entry>, key: Key, i: nat, e: nat, now: int)
    requires Lawful(log) && i < e < |log| && FailsAt(log, key, i) && Pressing(log, key, i)
    requires (forall k :: 0 <= k < |log| ==> log[k].at <= now) && now < LastFailure(log, key) + 900
    ensures log[e] != Expired(key, log[e].at)
  {
    hide FailuresSince, LastFailure, FailsAt, FailsNextAt, Pressing;
    var a := LatestFailure(log, key, i, e);
    assert Permitted(log[..e], log[e]);
    if log[e] == Expired(key, log[e].at) {
      ExpiryIsNoFailure(log, key, e);
      PressedUntil(log, key, i, a, e, now);
    }
  }

  lemma PressedUntil(log: seq<Entry>, key: Key, i: nat, a: nat, e: nat, now: int)
    requires InOrder(log) && Pressing(log, key, i) && i <= a < e < |log| && FailsAt(log, key, a)
    requires forall k :: a < k <= e ==> !FailsAt(log, key, k)
    requires (forall k :: 0 <= k < |log| ==> log[k].at <= now) && now < LastFailure(log, key) + 900
    ensures log[e].at < log[a].at + 900
  {
    hide LastFailure, FailsAt, FailsNextAt, Pressing;
    if n :| e < n < |log| && FailsAt(log, key, n) {
      PressedAgain(log, key, i, a, e, n);
    } else {
      var last := LatestFailure(log, key, a, |log|);
      assert log[..|log|] == log && last <= a;
    }
  }

  lemma ExpiryIsNoFailure(log: seq<Entry>, key: Key, e: nat)
    requires e < |log| && log[e] == Expired(key, log[e].at)
    ensures !FailsAt(log, key, e)
  {
  }

  lemma PressedAgain(log: seq<Entry>, key: Key, i: nat, a: nat, e: nat, n: nat)
    requires InOrder(log) && Pressing(log, key, i) && i <= a < e < n && FailsAt(log, key, a) && FailsAt(log, key, n)
    requires forall k :: a < k <= e ==> !FailsAt(log, key, k)
    ensures log[e].at < log[a].at + 900
  {
    hide FailsAt, FailsNextAt;
    var b := NextFailure(log, key, e, n);
    SkipNonFailures(log, key, a, e, b);
    NextIsLater(log, key, e, b);
  }

  lemma NextIsLater(log: seq<Entry>, key: Key, e: nat, b: nat)
    requires InOrder(log) && FailsNextAt(log, key, e, b)
    ensures b < |log| && e < b && log[e].at <= log[b].at
  {
  }

  /** Without expiry all failures since i count. */
  lemma {:induction false} AllCount(log: seq<Entry>, key: Key, i: nat, j: nat)
    requires i < j <= |log| && FailsAt(log, key, i) && Uninterrupted(log, key, i, j)
    requires forall e :: i < e < j ==> log[e] != Expired(key, log[e].at)
    ensures FailuresSince(log[..j], key) >= FailuresBetween(log, key, i, j)
  {
    hide FailuresSince;
    OneMoreEntry(log, key, j - 1);
    if j == i + 1 {
      assert FailuresBetween(log, key, i, i) == 0;
    } else {
      AllCount(log, key, i, j - 1);
    }
  }

  /**
   * Five failures of an account, each less than fifteen minutes after the one before and with no success or eviction
   * among them, lock it out for five minutes after the last; twenty-five do so for an address. By the contract of Login
   * every login in that time is rate limited.
   */
  lemma PressingLocksOut(limiter: Limiter, key: Key, i: nat, now: int)
    requires limiter.Valid() && limiter.NotBefore(now)
    requires FailsAt(limiter.log, key, i) && Uninterrupted(limiter.log, key, i, |limiter.log|)
    requires Pressing(limiter.log, key, i)
    requires FailuresBetween(limiter.log, key, i, |limiter.log|) >= if key.Account? then 5 else 25
    requires now < LastFailure(limiter.log, key) + 300
    ensures BlockedAt(limiter.log, key, now)
  {
    hide FailuresSince, LastFailure;
    var log := limiter.log;
    forall e | i < e < |log| ensures log[e] != Expired(key, log[e].at) {
      NotForgotten(log, key, i, e, now);
    }
    AllCount(log, key, i, |log|);
    assert log[..|log|] == log;
  }

  /** Nothing else locks a key out: not fewer failures that count, and not five minutes after the last. */
  lemma OnlyThatLocksOut(log: seq<Entry>, key: Key, now: int)
    ensures BlockedAt(log, key, now) ==>
              FailuresSince(log, key) >= (if key.Account? then 5 else 25) && now < LastFailure(log, key) + 300
  {
  }

  /** The failures that count are among those since the last success or eviction, whatever came before. */
  lemma {:induction false} SuccessForgives(log: seq<Entry>, key: Key, i: nat)
    requires i < |log| && log[i].key == key && !log[i].Failed?
    ensures FailuresSince(log, key) <= FailuresBetween(log, key, i, |log|)
  {
    var n := |log| - 1;
    if i < n {
      SuccessForgives(log[..n], key, i);
      SameBetween(log, log[..n], key, i, n);
    } else {
      assert FailuresSince(log, key) == 0;
    }
  }

  lemma {:induction false} SameBetween(log: seq<Entry>, init: seq<Entry>, key: Key, i: nat, j: nat)
    requires i <= j <= |init| <= |log| && init == log[..|init|]
    ensures FailuresBetween(log, key, i, j) == FailuresBetween(init, key, i, j)
  {
    if i < j {
      SameBetween(log, init, key, i, j - 1);
    }
  }
}
