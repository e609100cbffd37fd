/** DataSourceImpl: the per-country store every data source fills, and its
    read-only getters. */
module DataSourceImpl {
  import opened Wrappers
  import opened DataSource

  class DataSourceImpl {
    const source: string
    var store: map<string, CountryData>

    constructor(source: string)
      ensures this.source == source && store == map[]
    {
      this.source := source;
      store := map[];
    }

    /** getStoreEntries: every key paired with its stored value (iteration order is not modelled). */
    function GetStoreEntries(): (entries: set<(string, CountryData)>)
      reads this
      ensures forall k, v :: (k, v) in entries <==> k in store && store[k] == v
    {
      set k | k in store :: (k, store[k])
    }

    /** getCountryKeys: the keys of the store. */
    function GetCountryKeys(): (keys: set<string>)
      reads this
      ensures forall k :: k in keys <==> k in store
    {
      store.Keys
    }

    /** getCountryData: the value stored under the key, or undefined (None) when there is none. */
    function GetCountryData(countryKey: string): (data: Option<CountryData>)
      reads this
      ensures data.None? <==> countryKey !in store
      ensures data.Some? ==> data.value == store[countryKey]
    {
      if countryKey in store then Some(store[countryKey]) else None
    }

    /** The three getters describe one store: a key is listed exactly when it has data, and an
        entry is listed exactly when getCountryData returns its value. */
    lemma GettersAgree(k: string, v: CountryData)
      ensures k in GetCountryKeys() <==> GetCountryData(k).Some?
      ensures (k, v) in GetStoreEntries() <==> GetCountryData(k) == Some(v)
    {
    }
  }
}
