/**
 * The in-memory policy store of the policy backend: a map from policy id to
 * policy. Policies are held as values here; see the policy service for how
 * updates are written back.
 */
module PolicyStore {
  import opened Wrappers
  import opened Policies

  /** The ids of a list of policies, in list order. */
  function IdsOf(policies: seq<PolicyData>): (ids: seq<string>)
    ensures |ids| == |policies|
    ensures forall i :: 0 <= i < |policies| ==> ids[i] == policies[i].id
  {
    if policies == [] then [] else [policies[0].id] + IdsOf(policies[1..])
  }

  /** No id occurs twice in the list. */
  predicate DistinctIds(policies: seq<PolicyData>) {
    forall i, j :: 0 <= i < j < |policies| ==> policies[i].id != policies[j].id
  }

  /**
   * `listing` holds exactly the policies of `storage` that `keep` accepts,
   * each once: every listed policy is stored under its id, no id repeats,
   * and every accepted stored policy is listed.
   */
  ghost predicate ListsExactly(storage: map<string, PolicyData>, listing: seq<PolicyData>, keep: PolicyData -> bool) {
    && (forall i :: 0 <= i < |listing| ==> listing[i].id in storage && storage[listing[i].id] == listing[i] && keep(listing[i]))
    && DistinctIds(listing)
    && (forall id :: id in storage && keep(storage[id]) ==> id in IdsOf(listing))
  }

  /** Accepts every policy. */
  function Any(): PolicyData -> bool {
    (p: PolicyData) => true
  }

  /** Accepts the policies with the given status. */
  function WithStatus(status: PolicyStatus): PolicyData -> bool {
    (p: PolicyData) => p.status == status
  }

  /** Every policy is stored under its own id. */
  ghost predicate KeyedById(storage: map<string, PolicyData>) {
    forall id :: id in storage ==> storage[id].id == id
  }

  /** A listing of the stored policies is exactly as long as the number of stored ids it covers. */
  lemma {:induction false} ListingSize(storage: map<string, PolicyData>, listing: seq<PolicyData>)
    requires ListsExactly(storage, listing, Any())
    ensures |listing| == |storage|
  {
    var ids := set i | 0 <= i < |listing| :: listing[i].id;
    assert ids == storage.Keys by {
      forall id | id in storage
        ensures id in ids
      {
        assert id in IdsOf(listing);
        var i :| 0 <= i < |listing| && IdsOf(listing)[i] == id;
      }
    }
    DistinctCard(listing);
  }

  lemma {:induction false} DistinctCard(listing: seq<PolicyData>)
    requires DistinctIds(listing)
    ensures |set i | 0 <= i < |listing| :: listing[i].id| == |listing|
  {
    if listing != [] {
      var last := |listing| - 1;
      var init := listing[..last];
      DistinctCard(init);
      var before := set i | 0 <= i < |init| :: init[i].id;
      var after := set i | 0 <= i < |listing| :: listing[i].id;
      assert after == before + {listing[last].id};
      assert listing[last].id !in before;
    }
  }

  class PolicyRepository {
    var storage: map<string, PolicyData>

    /** Every policy is stored under its own id, as `save` keys them. */
    ghost predicate Valid()
      reads this
    {
      KeyedById(storage)
    }

    constructor ()
      ensures Valid() && storage == map[]
    {
      storage := map[];
    }

    /** `put(policy.getId(), policy)`: stores or replaces the entry for the policy's id. */
    method Save(policy: PolicyData) returns (saved: PolicyData)
      requires Valid()
      modifies this
      ensures Valid()
      ensures storage == old(storage)[policy.id := policy]
      ensures saved == policy
    {
      storage := storage[policy.id := policy];
      saved := policy;
    }

    /** The policy stored under `id`, if any. */
    method FindById(id: string) returns (found: Option<PolicyData>)
      ensures found.Some? <==> id in storage
      ensures found.Some? ==> found.value == storage[id]
    {
      if id in storage {
        found := Some(storage[id]);
      } else {
        found := None;
      }
    }

    /** Removes the entry for `id`; an absent id is ignored. */
    method Delete(id: string)
      requires Valid()
      modifies this
      ensures Valid()
      ensures storage == old(storage) - {id}
    {
      storage := storage - {id};
    }

    /** Every stored policy, each exactly once, in the map's iteration order. */
    method FindAll() returns (all: seq<PolicyData>)
      requires Valid()
      ensures ListsExactly(storage, all, Any())
    {
      all := [];
      var pending := storage.Keys;
      while pending != {}
        invariant pending <= storage.Keys
        invariant forall i :: 0 <= i < |all| ==> all[i].id in storage.Keys - pending && storage[all[i].id] == all[i]
        invariant DistinctIds(all)
        invariant forall id :: id in storage.Keys - pending ==> id in IdsOf(all)
        decreases pending
      {
        var id :| id in pending;
        assert id !in IdsOf(all);
        all := Append(all, storage[id]);
        pending := pending - {id};
      }
    }

    /** The stored policies whose status is `status`, each exactly once. */
    method FindByStatus(status: PolicyStatus) returns (found: seq<PolicyData>)
      requires Valid()
      ensures ListsExactly(storage, found, WithStatus(status))
    {
      found := [];
      var pending := storage.Keys;
      while pending != {}
        invariant pending <= storage.Keys
        invariant forall i :: 0 <= i < |found| ==> found[i].id in storage.Keys - pending && storage[found[i].id] == found[i] && found[i].status == status
        invariant DistinctIds(found)
        invariant forall id :: id in storage.Keys - pending && storage[id].status == status ==> id in IdsOf(found)
        decreases pending
      {
        var id :| id in pending;
        if storage[id].status == status {
          assert id !in IdsOf(found);
          found := Append(found, storage[id]);
        }
        pending := pending - {id};
      }
    }
  }

  /** Appends one policy; its id is then listed and the earlier ids stay. */
  function Append(policies: seq<PolicyData>, p: PolicyData): (r: seq<PolicyData>)
    ensures r == policies + [p]
    ensures IdsOf(r) == IdsOf(policies) + [p.id]
  {
    policies + [p]
  }
}
