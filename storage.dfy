/**
  The persisted record in the browser's synced key-value storage, shared by
  the popup and every content script. Each key can be missing, hold `null`,
  or hold a value; reads apply the `??` defaults.
 */
module Storage {
  import opened Text

  const AllowedKey: String := "allowedDomains"
  const BlockingKey: String := "isBlocking"
  /** The storage area whose change notifications the content script reacts to. */
  const SyncArea: String := "sync"

  /** What a storage read returns for one key. */
  datatype Slot<T> = Absent | Null | Present(value: T)

  /** The two keys as the storage holds them. */
  datatype Record = Record(allowedDomains: Slot<seq<String>>, isBlocking: Slot<bool>)

  /** The two keys after defaulting. */
  datatype State = State(allowedDomains: seq<String>, isBlocking: bool)

  /** JavaScript's `v ?? fallback`: the fallback replaces only a missing or `null` value. */
  function OrDefault<T>(v: Slot<T>, fallback: T): (r: T)
    ensures v.Present? ==> r == v.value
    ensures v.Absent? || v.Null? ==> r == fallback
  {
    if v.Present? then v.value else fallback
  }

  /**
    The read that both the popup and the content script perform: a missing
    or `null` list reads as `[]`, a missing or `null` flag as `false`, and a
    present value passes through as stored.
   */
  function ReadState(rec: Record): (s: State)
    ensures rec.allowedDomains.Present? ==> s.allowedDomains == rec.allowedDomains.value
    ensures !rec.allowedDomains.Present? ==> s.allowedDomains == []
    ensures rec.isBlocking.Present? ==> s.isBlocking == rec.isBlocking.value
    ensures !rec.isBlocking.Present? ==> !s.isBlocking
  {
    State(OrDefault(rec.allowedDomains, []), OrDefault(rec.isBlocking, false))
  }

  /** The synced storage area: one record, replaced key by key. */
  class SyncStore {
    var allowedDomains: Slot<seq<String>>
    var isBlocking: Slot<bool>

    /** A store that has never been written: both keys missing. */
    constructor ()
      ensures allowedDomains == Absent && isBlocking == Absent
    {
      allowedDomains := Absent;
      isBlocking := Absent;
    }

    function Contents(): Record
      reads this
    {
      Record(allowedDomains, isBlocking)
    }

    /** `set({allowedDomains: domains})`: replaces the list and leaves the flag alone. */
    method SetAllowed(domains: seq<String>)
      modifies this
      ensures allowedDomains == Present(domains)
      ensures isBlocking == old(isBlocking)
    {
      allowedDomains := Present(domains);
    }

    /** `set({isBlocking: flag})`: replaces the flag and leaves the list alone. */
    method SetBlocking(flag: bool)
      modifies this
      ensures isBlocking == Present(flag)
      ensures allowedDomains == old(allowedDomains)
    {
      isBlocking := Present(flag);
    }
  }
}
