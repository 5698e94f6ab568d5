/** Updating a namespace: its resource quota (PUT) and the users of its role binding (PATCH). */
module Namespaces {
  import opened Prelude

  type Resources = map<string, nat>

  /** hard is what the quota allows, used what the quota controller reports for the resources it tracks. */
  datatype Quota = Quota(hard: Resources, used: Resources)

  function Limit(hard: Resources, name: string): nat {
    if name in hard then hard[name] else 0
  }

  /** A resource of the old quota is lowered, or dropped, below its use. */
  predicate Blocks(existing: Quota, hard: Resources, name: string) {
    && name in existing.hard && name in existing.used
    && (name in hard ==> hard[name] < existing.hard[name])
    && existing.used[name] > Limit(hard, name)
  }

  /** The loop over existing.Spec.Hard, which is a Go map. */
  method CanUpdateQuota(existing: Quota, hard: Resources) returns (blockedBy: Option<string>)
    ensures blockedBy.None? <==> forall name | name in existing.hard :: !Blocks(existing, hard, name)
    ensures blockedBy.Some? ==> Blocks(existing, hard, blockedBy.value)
  {
    var rest := existing.hard;
    while rest != map[]
      invariant rest.Keys <= existing.hard.Keys
      invariant forall name | name in existing.hard && name !in rest :: !Blocks(existing, hard, name)
      decreases |rest|
    {
      var name :| name in rest;
      rest := rest - {name};
      var newQty := 0;
      if name in hard {
        newQty := hard[name];
        if newQty >= existing.hard[name] {
          continue;
        }
      }
      if name in existing.used && existing.used[name] > newQty {
        return Some(name);
      }
    }
    return None;
  }

  datatype Step =
    | Put(hard: Resources, works: bool)
    | Use(name: string, amount: nat)
    | Untrack(name: string)

  /** Usage changes stay within the limit; what is not limited is not tracked. */
  function Next(q: Quota, step: Step): Quota {
    match step
    case Put(hard, works) => if works && Accepted(q, hard) then q.(hard := hard) else q
    case Use(name, amount) => if name in q.hard && amount <= q.hard[name] then q.(used := q.used[name := amount]) else q
    case Untrack(name) => if name !in q.hard then q.(used := q.used - {name}) else q
  }

  predicate Accepted(q: Quota, hard: Resources) {
    forall name | name in q.hard :: !Blocks(q, hard, name)
  }

  function Run(q: Quota, steps: seq<Step>): Quota {
    if steps == [] then q else Next(Run(q, steps[..|steps| - 1]), steps[|steps| - 1])
  }

  predicate WithinLimits(q: Quota) {
    forall name | name in q.used :: q.used[name] <= Limit(q.hard, name)
  }

  /** Within limits, a PUT is refused iff the use of some tracked resource exceeds its new, or missing, limit. */
  lemma RefusedExactly(q: Quota, hard: Resources)
    requires WithinLimits(q)
    ensures Accepted(q, hard) <==> WithinLimits(Quota(hard, q.used))
  {
    forall name | name in q.used && Accepted(q, hard)
      ensures q.used[name] <= Limit(hard, name)
    {
      assert name in q.hard ==> !Blocks(q, hard, name);
    }
  }

  /** A PUT that raises or keeps every limit is accepted, however much is used already; lowering one is refused iff its use exceeds it. */
  lemma RaisingIsAccepted(q: Quota, hard: Resources, name: string, limit: nat)
    requires forall other | other in q.hard :: other in hard && hard[other] >= q.hard[other]
    ensures Accepted(q, hard)
    ensures name in q.hard && limit < q.hard[name] ==> (Accepted(q, hard[name := limit]) <==> name in q.used ==> q.used[name] <= limit)
    ensures name in q.hard && q.hard[name] > 0 ==> (Accepted(q, hard - {name}) <==> name in q.used ==> q.used[name] == 0)
  {
    if name in q.hard && name in q.used {
      assert q.used[name] > limit && limit < q.hard[name] ==> Blocks(q, hard[name := limit], name);
      assert q.used[name] > 0 ==> Blocks(q, hard - {name}, name);
    }
  }

  /** Over any PUTs and usage changes no tracked resource is ever used beyond its limit. */
  lemma {:induction false} NeverBeyondLimits(q: Quota, steps: seq<Step>)
    requires WithinLimits(q)
    ensures WithinLimits(Run(q, steps))
  {
    if steps != [] {
      var before, step := Run(q, steps[..|steps| - 1]), steps[|steps| - 1];
      NeverBeyondLimits(q, steps[..|steps| - 1]);
      if step.Put? {
        RefusedExactly(before, step.hard);
      }
    }
  }

  // ---- Users ---------------------------------------------------------------

  datatype Subject = Subject(kind: string, name: string)

  const USER := "User"

  /** The users of the request that no existing subject names, in request order. */
  function Missing(existing: seq<Subject>, users: seq<string>): seq<Subject> {
    if users == [] then []
    else
      var user := Subject(USER, users[|users| - 1]);
      Missing(existing, users[..|users| - 1]) + if user in existing then [] else [user]
  }

  class RoleBinding {
    var subjects: seq<Subject>

    method Patch(users: seq<string>)
      modifies this
      ensures subjects == old(subjects) + Missing(old(subjects), users)
    {
      var existingSubjects := subjects;
      var newSubjects := existingSubjects;
      for i := 0 to |users|
        invariant newSubjects == existingSubjects + Missing(existingSubjects, users[..i])
        invariant subjects == existingSubjects
      {
        var found := false;
        for j := 0 to |existingSubjects|
          invariant !found && forall k | 0 <= k < j :: existingSubjects[k] != Subject(USER, users[i])
        {
          if existingSubjects[j].kind == USER && existingSubjects[j].name == users[i] {
            found := true;
            break;
          }
        }
        assert found <==> Subject(USER, users[i]) in existingSubjects;
        if !found {
          newSubjects := newSubjects + [Subject(USER, users[i])];
        }
        assert users[..i + 1][..i] == users[..i];
      }
      assert users[..|users|] == users;
      subjects := newSubjects;
    }
  }

  lemma {:induction false} MissingExact(existing: seq<Subject>, users: seq<string>)
    ensures forall s :: s in Missing(existing, users) <==> s.kind == USER && s.name in users && s !in existing
  {
    if users != [] {
      var front, last := users[..|users| - 1], users[|users| - 1];
      assert users == front + [last];
      MissingExact(existing, front);
    }
  }

  /** User by user, in request order: each is added unless an existing subject names it. */
  lemma {:induction false} MissingInOrder(existing: seq<Subject>, a: seq<string>, b: seq<string>, user: string)
    ensures Missing(existing, a + b) == Missing(existing, a) + Missing(existing, b)
    ensures Missing(existing, [user]) == if Subject(USER, user) in existing then [] else [Subject(USER, user)]
    decreases |b|
  {
    assert [user][..0] == [];
    assert Missing(existing, [user][..0]) == [];
    if b == [] {
      assert a + b == a;
    } else {
      assert (a + b)[..|a + b| - 1] == a + b[..|b| - 1];
      MissingInOrder(existing, a, b[..|b| - 1], user);
    }
  }

  lemma {:induction false} NoneMissing(existing: seq<Subject>, users: seq<string>)
    requires forall i | 0 <= i < |users| :: Subject(USER, users[i]) in existing
    ensures Missing(existing, users) == []
  {
    if users != [] {
      NoneMissing(existing, users[..|users| - 1]);
    }
  }

  /** A patch keeps the subjects there are as a prefix, yields exactly the union of the users, and done again adds nothing. */
  lemma PatchIsUnion(existing: seq<Subject>, users: seq<string>)
    ensures var patched := existing + Missing(existing, users);
      && (forall s :: s in patched <==> s in existing || (s.kind == USER && s.name in users))
      && Missing(patched, users) == []
  {
    var patched := existing + Missing(existing, users);
    MissingExact(existing, users);
    forall i | 0 <= i < |users|
      ensures Subject(USER, users[i]) in patched
    {
      assert Subject(USER, users[i]) in existing || Subject(USER, users[i]) in Missing(existing, users);
    }
    NoneMissing(patched, users);
  }
}
