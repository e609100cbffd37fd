/** MultipleSource (src/data/MultipleSource.ts): a data source whose store is filled from several
    other sources, loaded one after the other, later sources overwriting earlier ones key by key. */
module MultipleSource {
  import opened DataSource
  import opened DataSourceImpl

  /** The store after copying every entry of the first n loaded stores, in order, over prior. */
  function Merge(prior: map<string, CountryData>, stores: seq<map<string, CountryData>>, n: nat): map<string, CountryData>
    requires n <= |stores|
  {
    if n == 0 then prior else Merge(prior, stores, n - 1) + stores[n - 1]
  }

  /** Some of the first n stores holds key k. */
  ghost predicate InSome(stores: seq<map<string, CountryData>>, n: nat, k: string)
    requires n <= |stores|
  {
    exists j :: 0 <= j < n && k in stores[j]
  }

  /** After the merge the keys are the prior keys and every key of a merged store. */
  lemma {:induction false} MergeKeys(prior: map<string, CountryData>, stores: seq<map<string, CountryData>>, n: nat, k: string)
    requires n <= |stores|
    ensures k in Merge(prior, stores, n) <==> k in prior || InSome(stores, n, k)
  {
    if n > 0 {
      MergeKeys(prior, stores, n - 1, k);
      if InSome(stores, n, k) && k !in stores[n - 1] {
        var j :| 0 <= j < n && k in stores[j];
        assert InSome(stores, n - 1, k);
      }
    }
  }

  /** A key's value comes from the last merged store that holds it. */
  lemma {:induction false} MergeLastWins(prior: map<string, CountryData>, stores: seq<map<string, CountryData>>, n: nat, j: nat, k: string)
    requires j < n <= |stores|
    requires k in stores[j]
    requires forall j' :: j < j' < n ==> k !in stores[j']
    ensures k in Merge(prior, stores, n) && Merge(prior, stores, n)[k] == stores[j][k]
  {
    if j < n - 1 {
      MergeLastWins(prior, stores, n - 1, j, k);
    }
  }

  /** A key held by no merged store keeps whatever the store had before. */
  lemma {:induction false} MergeUntouched(prior: map<string, CountryData>, stores: seq<map<string, CountryData>>, n: nat, k: string)
    requires n <= |stores|
    requires !InSome(stores, n, k)
    ensures k in Merge(prior, stores, n) <==> k in prior
    ensures k in prior ==> Merge(prior, stores, n)[k] == prior[k]
  {
    if n > 0 {
      assert k !in stores[n - 1];
      assert !InSome(stores, n - 1, k);
      MergeUntouched(prior, stores, n - 1, k);
    }
  }

  class MultipleSource {
    const base: DataSourceImpl
    const sources: seq<DataSourceImpl>

    /** The combined store is not one of the sources it reads from. */
    predicate Valid()
      reads this
    {
      base !in sources
    }

    constructor(sources: seq<DataSourceImpl>)
      ensures Valid() && fresh(base)
      ensures base.source == "Multiple Sources" && base.store == map[]
      ensures this.sources == sources
    {
      base := new DataSourceImpl("Multiple Sources");
      this.sources := sources;
    }

    /** load: each source loads (its store becomes the corresponding element of loaded, the
        network fetch being out of this model) and then every one of its entries is set into this
        store. */
    method Load(loaded: seq<map<string, CountryData>>)
      requires Valid()
      requires |loaded| == |sources|
      modifies base, set s | s in sources
      ensures base.store == Merge(old(base.store), loaded, |loaded|)
      ensures forall j :: 0 <= j < |sources| && (forall j' :: j < j' < |sources| ==> sources[j'] != sources[j]) ==>
        sources[j].store == loaded[j]
    {
      var j := 0;
      while j < |sources|
        invariant 0 <= j <= |sources|
        invariant base.store == Merge(old(base.store), loaded, j)
        invariant forall i :: 0 <= i < j && (forall i' :: i < i' < j ==> sources[i'] != sources[i]) ==>
          sources[i].store == loaded[i]
      {
        var source := sources[j];
        source.store := loaded[j];
        var entries := source.store;
        var todo := entries.Keys;
        ghost var before := base.store;
        while todo != {}
          invariant todo <= entries.Keys
          invariant base.store == before + map k | k in entries.Keys - todo :: entries[k]
          modifies base
          decreases todo
        {
          var key :| key in todo;
          base.store := base.store[key := entries[key]];
          todo := todo - {key};
        }
        assert (map k | k in entries.Keys - todo :: entries[k]) == entries;
        j := j + 1;
      }
    }
  }
}
