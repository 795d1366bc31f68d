/**
 * Cache entries. An entry fixes its key, its value and its expiration time when it is
 * created; its identity is the reference itself, which is what the cache's conditional
 * removals compare. The abstract `ObjectRef` and its only subclass `SimpleObjectRef`
 * are one class here.
 */
module ObjectRefs {
  import opened JavaLang

  class SimpleObjectRef<K, V> {
    /** The time (in milliseconds) from which the entry is expired. */
    const expirationTime: int
    /** The cache key of the entry. */
    const name: K
    /** The cached value. */
    const obj: V

    constructor (expirationTime: int, name: K, obj: V)
      ensures this.expirationTime == expirationTime
      ensures this.name == name
      ensures this.obj == obj
    {
      this.expirationTime := expirationTime;
      this.name := name;
      this.obj := obj;
    }

    /** The expiration time given at construction. */
    function GetExpireTime(): int {
      expirationTime
    }

    /** The value given at construction. */
    function GetObject(): V {
      obj
    }

    /** The same value as `GetObject`. */
    function Get(): (v: V)
      ensures v == GetObject()
    {
      GetObject()
    }

    /** An entry is valid strictly before its expiration time; the clock is the parameter `now`. */
    predicate IsValid(now: int) {
      now < expirationTime
    }
  }

  /** Once an entry is invalid it stays invalid as the clock advances. */
  lemma ValidityMonotone<K, V>(e: SimpleObjectRef<K, V>, t1: int, t2: int)
    requires t1 <= t2 && !e.IsValid(t1)
    ensures !e.IsValid(t2)
  {
  }

  /** An entry put with an unlimited live time (expiration Long.MAX_VALUE) is valid at every earlier long clock value. */
  lemma UnlimitedEntryValid<K, V>(e: SimpleObjectRef<K, V>, now: int)
    requires e.expirationTime == LONG_MAX && IsLong(now) && now != LONG_MAX
    ensures e.IsValid(now)
  {
  }

  /** The comparison is strict: at its expiration time an entry is already invalid. */
  lemma ExpiredAtDeadline<K, V>(e: SimpleObjectRef<K, V>)
    ensures !e.IsValid(e.GetExpireTime())
  {
  }
}
