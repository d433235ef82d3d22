/**
 * The policy entity of the policy backend: a mutable record whose pattern
 * list is never null and whose status starts as DRAFT.
 */
module Policies {
  import opened Wrappers

  /** The review state of a policy; only PUBLISHED policies are served as rules. */
  datatype PolicyStatus = Draft | Approved | Published

  /** A snapshot of a policy's fields. */
  datatype PolicyData = PolicyData(
    id: string,
    name: string,
    level: string,
    priority: int,
    patterns: seq<string>,
    status: PolicyStatus)

  /** The pattern list a setter or constructor stores: a null list becomes an empty one. */
  function PatternsOrEmpty(patterns: Option<seq<string>>): (stored: seq<string>)
    ensures patterns.None? ==> stored == []
    ensures patterns.Some? ==> stored == patterns.value
  {
    patterns.GetOr([])
  }

  /** The status the full constructor stores: a null status becomes DRAFT. */
  function StatusOrDraft(status: Option<PolicyStatus>): (stored: PolicyStatus)
    ensures status.None? ==> stored == Draft
    ensures status.Some? ==> stored == status.value
  {
    status.GetOr(Draft)
  }

  class Policy {
    var id: string
    var name: string
    var level: string
    var priority: int
    var patterns: seq<string>
    var status: PolicyStatus

    /**
     * The no-argument constructor: a random UUID (supplied by the caller),
     * no patterns, DRAFT; name, level and priority are left unset.
     */
    constructor Fresh(uuid: string)
      ensures id == uuid && patterns == [] && status == Draft
    {
      id := uuid;
      patterns := [];
      status := Draft;
    }

    /** The full constructor, which replaces a null pattern list and a null status. */
    constructor (id: string, name: string, level: string, priority: int,
                 patterns: Option<seq<string>>, status: Option<PolicyStatus>)
      ensures Data() == PolicyData(id, name, level, priority, PatternsOrEmpty(patterns), StatusOrDraft(status))
    {
      this.id := id;
      this.name := name;
      this.level := level;
      this.priority := priority;
      this.patterns := PatternsOrEmpty(patterns);
      this.status := StatusOrDraft(status);
    }

    /** The values the getters return. */
    function Data(): PolicyData
      reads this
    {
      PolicyData(id, name, level, priority, patterns, status)
    }

    method SetId(id: string)
      modifies this
      ensures Data() == old(Data()).(id := id)
    {
      this.id := id;
    }

    method SetName(name: string)
      modifies this
      ensures Data() == old(Data()).(name := name)
    {
      this.name := name;
    }

    method SetLevel(level: string)
      modifies this
      ensures Data() == old(Data()).(level := level)
    {
      this.level := level;
    }

    method SetPriority(priority: int)
      modifies this
      ensures Data() == old(Data()).(priority := priority)
    {
      this.priority := priority;
    }

    /** `setPatterns(null)` stores an empty list, so the patterns are never null. */
    method SetPatterns(patterns: Option<seq<string>>)
      modifies this
      ensures Data() == old(Data()).(patterns := PatternsOrEmpty(patterns))
    {
      this.patterns := PatternsOrEmpty(patterns);
    }

    method SetStatus(status: PolicyStatus)
      modifies this
      ensures Data() == old(Data()).(status := status)
    {
      this.status := status;
    }
  }
}
