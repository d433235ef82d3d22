/**
 * The policy service of the policy backend: create, read, update and delete
 * over the repository, plus the two status transitions (approve, publish).
 */
module PolicyServices {
  import opened Wrappers
  import opened Policies
  import opened PolicyStore

  /**
   * What `update` leaves in a stored policy: name, level, priority and
   * patterns come from the update, id and status stay.
   */
  function Revised(existing: PolicyData, updated: PolicyData): (r: PolicyData)
    ensures r.id == existing.id && r.status == existing.status
    ensures r.name == updated.name && r.level == updated.level
    ensures r.priority == updated.priority && r.patterns == updated.patterns
  {
    existing.(name := updated.name, level := updated.level,
              priority := updated.priority, patterns := updated.patterns)
  }

  /** The ids of the stored policies that are PUBLISHED, the ones served as rules. */
  function PublishedIds(storage: map<string, PolicyData>): set<string> {
    set id | id in storage && storage[id].status == Published
  }

  /** An update never changes which policies are published. */
  lemma UpdateKeepsPublished(storage: map<string, PolicyData>, id: string, updated: PolicyData)
    requires id in storage
    ensures PublishedIds(storage[id := Revised(storage[id], updated)]) == PublishedIds(storage)
  {
  }

  /** Publishing a stored policy adds exactly its id to the published ones. */
  lemma PublishAddsOnlyItself(storage: map<string, PolicyData>, id: string)
    requires id in storage
    ensures PublishedIds(storage[id := storage[id].(status := Published)]) == PublishedIds(storage) + {id}
  {
  }

  /** Approving (or any status other than PUBLISHED) withdraws exactly that policy. */
  lemma UnpublishRemovesOnlyItself(storage: map<string, PolicyData>, id: string, status: PolicyStatus)
    requires id in storage && status != Published
    ensures PublishedIds(storage[id := storage[id].(status := status)]) == PublishedIds(storage) - {id}
  {
  }

  /** Deleting a policy withdraws it and nothing else. */
  lemma DeleteRemovesOnlyItself(storage: map<string, PolicyData>, id: string)
    ensures PublishedIds(storage - {id}) == PublishedIds(storage) - {id}
  {
  }

  /** A second identical update changes nothing. */
  lemma ReviseIdempotent(existing: PolicyData, updated: PolicyData)
    ensures Revised(Revised(existing, updated), updated) == Revised(existing, updated)
  {
  }

  class PolicyService {
    const repository: PolicyRepository

    ghost predicate Valid()
      reads this, repository
    {
      repository.Valid()
    }

    /** The service owns a fresh, empty repository. */
    constructor ()
      ensures Valid() && fresh(repository) && repository.storage == map[]
    {
      repository := new PolicyRepository();
    }

    /** Stores the policy under its id, replacing any policy with that id. */
    method Create(policy: PolicyData) returns (created: PolicyData)
      requires Valid()
      modifies repository
      ensures Valid()
      ensures repository.storage == old(repository.storage)[policy.id := policy]
      ensures created == policy
    {
      created := repository.Save(policy);
    }

    method Get(id: string) returns (found: Option<PolicyData>)
      ensures found.Some? <==> id in repository.storage
      ensures found.Some? ==> found.value == repository.storage[id]
    {
      found := repository.FindById(id);
    }

    method List() returns (all: seq<PolicyData>)
      requires Valid()
      ensures ListsExactly(repository.storage, all, Any())
    {
      all := repository.FindAll();
    }

    /**
     * Replaces name, level, priority and patterns of the stored policy `id`;
     * a missing id gives None and changes nothing.
     */
    method Update(id: string, updated: PolicyData) returns (result: Option<PolicyData>)
      requires Valid()
      modifies repository
      ensures Valid()
      ensures id !in old(repository.storage) ==> result == None && repository.storage == old(repository.storage)
      ensures id in old(repository.storage) ==>
        && result == Some(Revised(old(repository.storage)[id], updated))
        && repository.storage == old(repository.storage)[id := result.value]
    {
      var existing := repository.FindById(id);
      match existing
      case None =>
        result := None;
      case Some(policy) =>
        var saved := repository.Save(Revised(policy, updated));
        result := Some(saved);
    }

    /** Removes `id` and reports whether it was stored. */
    method Delete(id: string) returns (existed: bool)
      requires Valid()
      modifies repository
      ensures Valid()
      ensures existed <==> id in old(repository.storage)
      ensures repository.storage == old(repository.storage) - {id}
    {
      var found := repository.FindById(id);
      existed := found.Some?;
      repository.Delete(id);
    }

    /** Sets APPROVED, from any status. */
    method Approve(id: string) returns (result: Option<PolicyData>)
      requires Valid()
      modifies repository
      ensures Valid()
      ensures id !in old(repository.storage) ==> result == None && repository.storage == old(repository.storage)
      ensures id in old(repository.storage) ==>
        && result == Some(old(repository.storage)[id].(status := Approved))
        && repository.storage == old(repository.storage)[id := result.value]
    {
      result := UpdateStatus(id, Approved);
    }

    /** Sets PUBLISHED, from any status. */
    method Publish(id: string) returns (result: Option<PolicyData>)
      requires Valid()
      modifies repository
      ensures Valid()
      ensures id !in old(repository.storage) ==> result == None && repository.storage == old(repository.storage)
      ensures id in old(repository.storage) ==>
        && result == Some(old(repository.storage)[id].(status := Published))
        && repository.storage == old(repository.storage)[id := result.value]
    {
      result := UpdateStatus(id, Published);
    }

    /** Exactly the stored policies whose status is PUBLISHED. */
    method ListPublished() returns (published: seq<PolicyData>)
      requires Valid()
      ensures ListsExactly(repository.storage, published, WithStatus(Published))
    {
      published := repository.FindByStatus(Published);
    }

    /** Sets the status of a stored policy; there is no check on the transition. */
    method UpdateStatus(id: string, status: PolicyStatus) returns (result: Option<PolicyData>)
      requires Valid()
      modifies repository
      ensures Valid()
      ensures id !in old(repository.storage) ==> result == None && repository.storage == old(repository.storage)
      ensures id in old(repository.storage) ==>
        && result == Some(old(repository.storage)[id].(status := status))
        && repository.storage == old(repository.storage)[id := result.value]
    {
      var existing := repository.FindById(id);
      match existing
      case None =>
        result := None;
      case Some(policy) =>
        var saved := repository.Save(policy.(status := status));
        result := Some(saved);
    }
  }
}
