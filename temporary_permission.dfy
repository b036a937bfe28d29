/** A permission granted to one user until a deadline, optionally scoped by
    conditions that the request context must match. Times are seconds. */
module TemporaryPermissions {
  import opened Common
  import opened Php

  datatype TemporaryPermission = TemporaryPermission(
    userId: int,
    permission: string,
    /** A stored null and an empty JSON object are both "no conditions". */
    conditions: map<string, Scalar>,
    expiresAt: int,
    grantedBy: Option<string>,
    reason: Option<string>)

  /** `isExpired`: the deadline lies strictly in the past. */
  predicate IsExpired(t: TemporaryPermission, now: int) {
    t.expiresAt < now
  }

  /** The query filter `expires_at > now` used when looking grants up. */
  predicate IsActive(t: TemporaryPermission, now: int) {
    t.expiresAt > now
  }

  /** No instant is both active and expired; exactly at the deadline a grant is
      neither, so it is already unusable although `isExpired` still says no. */
  lemma ExpiryBoundary(t: TemporaryPermission, now: int)
    ensures !(IsActive(t, now) && IsExpired(t, now))
    ensures IsActive(t, now) || IsExpired(t, now) <==> now != t.expiresAt
  {
  }

  /** `isset($check[$key])`: present and not null. */
  predicate IsSet(check: map<string, Scalar>, key: string) {
    key in check && check[key] != Null
  }

  /** One stored condition holds in the context. */
  predicate Holds(conditions: map<string, Scalar>, check: map<string, Scalar>, key: string)
    requires key in conditions
  {
    IsSet(check, key) && LooseEq(check[key], conditions[key])
  }

  /** What `conditionsMatch` decides: an unscoped grant matches every context;
      a scoped grant never matches an empty context; otherwise every stored
      condition must be set in the context and loosely equal to it. */
  predicate Matches(conditions: map<string, Scalar>, check: map<string, Scalar>) {
    |conditions| == 0 ||
    (|check| != 0 && forall k :: k in conditions ==> Holds(conditions, check, k))
  }

  /** `conditionsMatch`, visiting the stored conditions one by one and stopping
      at the first that fails. */
  method ConditionsMatch(t: TemporaryPermission, check: map<string, Scalar>) returns (r: bool)
    ensures r == Matches(t.conditions, check)
  {
    if |t.conditions| == 0 {
      return true;
    }
    if |check| == 0 {
      return false;
    }
    var keys := t.conditions.Keys;
    while keys != {}
      invariant keys <= t.conditions.Keys
      invariant forall k :: k in t.conditions && k !in keys ==> Holds(t.conditions, check, k)
      decreases |keys|
    {
      var k :| k in keys;
      if !IsSet(check, k) || !LooseEq(check[k], t.conditions[k]) {
        return false;
      }
      keys := keys - {k};
    }
    return true;
  }

  /** The separate empty-context test never changes the outcome: matching is
      exactly "every stored condition holds". */
  lemma MatchesMeaning(conditions: map<string, Scalar>, check: map<string, Scalar>)
    ensures Matches(conditions, check) <==> forall k :: k in conditions ==> Holds(conditions, check, k)
  {
    if |conditions| != 0 && |check| == 0 {
      var k :| k in conditions;
      assert !Holds(conditions, check, k);
    }
  }

  /** A grant scoped by conditions is useless where no context is passed. */
  lemma ScopedGrantNeedsContext(conditions: map<string, Scalar>)
    requires |conditions| > 0
    ensures !Matches(conditions, map[])
  {
  }

  /** Passing more context never withdraws a match. */
  lemma MatchesMonotone(conditions: map<string, Scalar>, check: map<string, Scalar>, more: map<string, Scalar>)
    requires forall k :: k in check ==> k in more && more[k] == check[k]
    requires Matches(conditions, check)
    ensures Matches(conditions, more)
  {
    MatchesMeaning(conditions, check);
    MatchesMeaning(conditions, more);
  }
}
