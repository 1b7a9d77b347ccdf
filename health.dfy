/** The health registry that a top-level store registers with. What a store
    does when it registers is not part of this model: registering appends
    the store to the registry's list. */
module HealthUtils {
  import opened Stores

  class HealthRegistryBuilder {
    /** The stores registered so far, oldest first. */
    var registered: seq<Store>

    constructor ()
      ensures registered == []
    {
      registered := [];
    }

    method RegisterHealth(store: Store)
      modifies this
      ensures registered == old(registered) + [store]
    {
      registered := registered + [store];
    }
  }
}
