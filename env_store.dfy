/**
 The process-wide sender credential override (app/api/env/store.ts): a
 module-level object of type `SenderEnv` that an upload merges into, that
 the dispatch route copies at the start of a run, and that a clear resets.
 */
module EnvStore {

  const SenderEmail := "SENDER_EMAIL"
  const SenderAppPassword := "SENDER_APP_PASSWORD"
  const SenderName := "SENDER_NAME"

  /** The fields of `SenderEnv`, in the order the upload route lists them. */
  const Keys: seq<string> := [SenderEmail, SenderAppPassword, SenderName]

  /** A value of type `SenderEnv`: only the three sender fields. */
  predicate IsSenderEnv(v: map<string, string>) {
    forall k :: k in v ==> k in Keys
  }

  class OverrideStore {
    /** The module-level `override` object. */
    var values: map<string, string>

    ghost predicate Valid()
      reads this
    {
      IsSenderEnv(values)
    }

    /** `let override: SenderEnv = {}` */
    constructor ()
      ensures Valid() && values == map[]
    {
      values := map[];
    }

    /** `setOverrideEnv(v)`: `override = { ...override, ...v }`. */
    method Set(v: map<string, string>)
      requires Valid() && IsSenderEnv(v)
      modifies this
      ensures Valid() && values == old(values) + v
      ensures forall k :: k in v ==> k in values && values[k] == v[k]
      ensures forall k :: k !in v ==> (k in values <==> k in old(values))
      ensures forall k :: k !in v && k in values ==> values[k] == old(values)[k]
    {
      values := values + v;
    }

    /** `getOverrideEnv()`: a copy, so what the caller does with it never
        reaches the store, and reading changes nothing. */
    method Get() returns (snapshot: map<string, string>)
      ensures snapshot == values
    {
      snapshot := values;
    }

    /** `clearOverrideEnv()`: `override = {}`. */
    method Clear()
      modifies this
      ensures Valid() && values == map[]
    {
      values := map[];
    }
  }

  /** Merging an empty object changes nothing. */
  method SetEmptyIsNoop(store: OverrideStore)
    requires store.Valid()
    modifies store
    ensures store.values == old(store.values)
  {
    store.Set(map[]);
  }
}
