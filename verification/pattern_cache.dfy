/**
 * The compiled-pattern cache of the detection engine: an access-ordered map
 * of at most 100 entries that drops its least recently accessed entry when
 * an insertion takes it past that size.
 */
module PatternCache {
  import opened Wrappers
  import opened Regex
  import Lists

  /** The size above which the eldest entry is removed. */
  const Capacity: nat := 100

  /** No key occurs twice. */
  predicate Distinct(order: seq<string>) {
    forall i, j :: 0 <= i < j < |order| ==> order[i] != order[j]
  }

  /** `order` without `key`, the other keys keeping their relative order. */
  function Without(order: seq<string>, key: string): seq<string> {
    Lists.Filter(order, k => k != key)
  }

  /** The recency order after an access to the present `key`: it becomes the most recent. */
  function Touch(order: seq<string>, key: string): seq<string> {
    Without(order, key) + [key]
  }

  /**
   * The recency order after inserting the absent `key`: it is appended as the
   * most recent, and if the map then holds more than `Capacity` entries the
   * eldest one is removed.
   */
  function Admit(order: seq<string>, key: string): seq<string> {
    var grown := order + [key];
    if |grown| > Capacity then grown[1..] else grown
  }

  lemma {:induction false} WithoutDistinct(order: seq<string>, key: string)
    requires Distinct(order)
    ensures Distinct(Without(order, key))
    ensures key in order ==> |Without(order, key)| == |order| - 1
    ensures key !in order ==> Without(order, key) == order
  {
    if order != [] {
      WithoutDistinct(order[1..], key);
      var rest := Without(order[1..], key);
      if order[0] != key {
        assert Without(order, key) == [order[0]] + rest;
        assert forall i :: 0 <= i < |rest| ==> rest[i] in order[1..];
      } else {
        assert key !in order[1..];
      }
    }
  }

  /**
   * An access keeps exactly the cached keys and the size, and makes the
   * accessed key the most recent one.
   */
  lemma TouchMostRecent(order: seq<string>, key: string)
    requires Distinct(order) && key in order
    ensures var t := Touch(order, key);
      && |t| == |order| && Distinct(t) && t[|t| - 1] == key
      && (forall k :: k in t <==> k in order)
  {
    WithoutDistinct(order, key);
  }

  /** An insertion never takes the cache past its capacity. */
  lemma AdmitBounded(order: seq<string>, key: string)
    requires |order| <= Capacity
    ensures |Admit(order, key)| <= Capacity
    ensures Admit(order, key)[|Admit(order, key)| - 1] == key
  {
  }

  /**
   * Inserting a new key into a full cache removes exactly the least recently
   * accessed key, the head of the recency order, and keeps all others.
   */
  lemma AdmitEvictsLeastRecent(order: seq<string>, key: string)
    requires Distinct(order) && key !in order && |order| == Capacity
    ensures Admit(order, key) == order[1..] + [key]
    ensures order[0] !in Admit(order, key)
    ensures Distinct(Admit(order, key))
  {
    var grown := order + [key];
    assert grown[1..] == order[1..] + [key];
  }

  /** Inserting into a cache that is not full evicts nothing. */
  lemma AdmitBelowCapacity(order: seq<string>, key: string)
    requires |order| < Capacity
    ensures Admit(order, key) == order + [key]
  {
  }

  /**
   * Eviction is by recency of access, not by insertion: in a full cache whose
   * eldest key `a` is accessed again, the next insertion evicts the key after
   * `a`, and `a` stays.
   */
  lemma EvictionIgnoresInsertionOrder(a: string, rest: seq<string>, key: string)
    requires Distinct([a] + rest) && |[a] + rest| == Capacity
    requires key !in [a] + rest
    ensures var after := Admit(Touch([a] + rest, a), key);
      a in after && rest[0] !in after && key in after
  {
    var order := [a] + rest;
    assert order[1..] == rest;
    WithoutDistinct(order, a);
    assert Without(order, a) == Without(rest, a);
    WithoutDistinct(rest, a);
    assert Without(rest, a) == rest;
    var touched := Touch(order, a);
    assert touched == rest + [a];
    assert Admit(touched, key) == rest[1..] + [a] + [key];
    assert rest[0] !in rest[1..] by {
      assert Distinct(rest);
    }
  }

  /**
   * The cache map. `order` lists the keys from least to most recently
   * accessed (the linked list of an access-ordered `LinkedHashMap`); `table`
   * maps each key to its compiled pattern.
   */
  class LruCache {
    const lib: RegexLib
    var order: seq<string>
    var table: map<string, Pattern>

    ghost predicate Valid()
      reads this
    {
      && |order| <= Capacity
      && Distinct(order)
      && (forall k :: k in table <==> k in order)
      && (forall k :: k in table ==> table[k] == Pattern(k) && lib.compiles(k))
    }

    constructor (lib: RegexLib)
      ensures Valid() && this.lib == lib
      ensures order == [] && table == map[]
    {
      this.lib := lib;
      order := [];
      table := map[];
    }

    /**
     * `computeIfAbsent(source, Pattern::compile)`. The answer is the one a
     * fresh compilation gives, whatever the cache held; a hit only refreshes
     * recency, a miss compiles and inserts (possibly evicting the eldest
     * entry), and a source that fails to compile leaves the cache unchanged.
     */
    method ComputeIfAbsent(source: string) returns (r: Result<Pattern, PatternSyntaxError>)
      requires Valid()
      modifies this
      ensures Valid()
      ensures r == Compile(lib, source)
      ensures old(source in table) ==> table == old(table) && order == Touch(old(order), source)
      ensures old(source !in table) && r.Ok? ==>
        && order == Admit(old(order), source)
        && (forall k :: k in table <==> k in order)
        && (forall k :: k in table ==> k == source || table[k] == old(table)[k])
      ensures r.Err? ==> table == old(table) && order == old(order)
    {
      if source in table {
        TouchMostRecent(order, source);
        order := Touch(order, source);
        r := Ok(table[source]);
        return;
      }
      r := Compile(lib, source);
      if r.Err? {
        return;
      }
      var grown := order + [source];
      assert Distinct(grown);
      table := table[source := r.value];
      if |grown| > Capacity {
        assert forall k :: k in grown[1..] <==> k in grown && k != grown[0];
        table := table - {grown[0]};
        grown := grown[1..];
      }
      order := grown;
    }
  }
}
