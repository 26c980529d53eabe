/**
 * The process-wide memoised loads `get_parcels` and `get_dbi_data`: a module
 * global that is `None` until the first call, which reads the file; every
 * later call returns the stored object.  Reading the file is not modelled: what
 * it yields is a field of the cache, fixed when the cache is created.
 */
module Caching {
  import opened Wrappers

  class Cache<T> {
    /** What reading the source file yields. */
    const onDisk: T
    /** The module global (`ALLPARCELS`, `DBIPERMITS`). */
    var value: Option<T>

    constructor (onDisk: T)
      ensures this.onDisk == onDisk && value == None
    {
      this.onDisk := onDisk;
      value := None;
    }

    /** What the next `Get` returns. */
    function Current(): T
      reads this
    {
      if value.Some? then value.value else onDisk
    }

    /** Read the file if the global is unset, store it, and return the stored value. */
    method Get() returns (v: T)
      modifies this
      ensures old(value).Some? ==> v == old(value).value
      ensures old(value).None? ==> v == onDisk
      ensures v == old(Current()) && value == Some(v)
    {
      if value.None? {
        value := Some(onDisk);
      }
      v := value.value;
    }
  }
}
