/** `GET /v1/models`: the native model list, refreshed once when it is
    empty, served as distinct ids in ascending order with fixed metadata.
    The caller-key dependency in front of it is not part of this model. */
module ModelsApi {
  import opened Wrappers
  import opened Json
  import Strings
  import Seqs
  import ModelLoader

  /** Ascending by code point with no repeats. */
  predicate StrictlySorted(xs: seq<string>) {
    forall i, j :: 0 <= i < j < |xs| ==> Strings.Less(xs[i], xs[j])
  }

  /** Everything after the head of a sorted list is above the head. */
  lemma {:induction false} BelowAll(x: string, xs: seq<string>)
    requires StrictlySorted(xs) && |xs| > 0
    requires Strings.Less(x, xs[0])
    ensures forall j :: 0 <= j < |xs| ==> Strings.Less(x, xs[j])
  {
    forall j | 0 < j < |xs|
      ensures Strings.Less(x, xs[j])
    {
      Strings.LessTransitive(x, xs[0], xs[j]);
    }
  }

  /** A sorted list has no repeats. */
  lemma {:induction false} StrictlySortedNoDuplicates(xs: seq<string>)
    requires StrictlySorted(xs)
    ensures Seqs.NoDuplicates(xs)
  {
    forall j, k | 0 <= j < k < |xs|
      ensures xs[j] != xs[k]
    {
      if xs[j] == xs[k] {
        Strings.LessIrreflexive(xs[j]);
      }
    }
  }

  /** `x` put into its place in a sorted list, unless already there. */
  function Insert(x: string, xs: seq<string>): (r: seq<string>)
    requires StrictlySorted(xs)
    ensures StrictlySorted(r)
    ensures forall y :: y in r <==> y == x || y in xs
    decreases |xs|
  {
    if |xs| == 0 then [x]
    else if x == xs[0] then xs
    else if Strings.Less(x, xs[0]) then
      BelowAll(x, xs);
      [x] + xs
    else
      Strings.LessTotal(x, xs[0]);
      var rest := Insert(x, xs[1..]);
      assert forall y :: y in xs[1..] ==> Strings.Less(xs[0], y) by {
        forall y | y in xs[1..]
          ensures Strings.Less(xs[0], y)
        {
          var k :| 0 <= k < |xs[1..]| && xs[1..][k] == y;
          assert xs[k + 1] == y;
        }
      }
      assert forall k :: 0 <= k < |rest| ==> rest[k] in rest;
      [xs[0]] + rest
  }

  /** `sorted(set(xs))` */
  function SortedUnique(xs: seq<string>): (r: seq<string>)
    ensures StrictlySorted(r)
    ensures forall y :: y in r <==> y in xs
    decreases |xs|
  {
    if |xs| == 0 then []
    else
      var rest := SortedUnique(xs[1..]);
      assert forall y :: y in xs <==> y == xs[0] || y in xs[1..];
      Insert(xs[0], rest)
  }

  /** A set has one sorted listing: two sorted lists with the same
      elements are the same list. */
  lemma {:induction false} SortedListingIsUnique(a: seq<string>, b: seq<string>)
    requires StrictlySorted(a) && StrictlySorted(b)
    requires forall y :: y in a <==> y in b
    ensures a == b
    decreases |a|
  {
    if |a| > 0 {
      assert a[0] in b;
      assert |b| > 0;
      var k :| 0 <= k < |b| && b[k] == a[0];
      assert b[0] in a;
      var m :| 0 <= m < |a| && a[m] == b[0];
      if k > 0 {
        if m > 0 {
          Strings.LessAsymmetric(a[0], b[0]);
        } else {
          Strings.LessIrreflexive(a[0]);
        }
      }
      assert a[0] == b[0];
      forall y
        ensures y in a[1..] <==> y in b[1..]
      {
        if y in a[1..] {
          var i :| 0 <= i < |a[1..]| && a[1..][i] == y;
          assert Strings.Less(a[0], a[i + 1]);
          Strings.LessIrreflexive(y);
          assert y in b;
          var j :| 0 <= j < |b| && b[j] == y;
          assert j != 0;
          assert b[1..][j - 1] == y;
        }
        if y in b[1..] {
          var i :| 0 <= i < |b[1..]| && b[1..][i] == y;
          assert Strings.Less(b[0], b[i + 1]);
          Strings.LessIrreflexive(y);
          assert y in a;
          var j :| 0 <= j < |a| && a[j] == y;
          assert j != 0;
          assert a[1..][j - 1] == y;
        }
      }
      SortedListingIsUnique(a[1..], b[1..]);
      assert a == [a[0]] + a[1..];
      assert b == [b[0]] + b[1..];
    } else {
      Seqs.HeadIsMember(b);
    }
  }

  /** The listing depends only on which names there are, not on their
      order or repeats, so the set's iteration order cannot show. */
  lemma ListingIgnoresOrder(xs: seq<string>, ys: seq<string>)
    requires forall y :: y in xs <==> y in ys
    ensures SortedUnique(xs) == SortedUnique(ys)
  {
    SortedListingIsUnique(SortedUnique(xs), SortedUnique(ys));
  }

  /** One entry of the listing. */
  datatype ModelEntry = ModelEntry(id: string, created: int) {
    function ToJson(): (r: Json)
      ensures Serializable(r)
      ensures r.JObj? && Keys(r.fields) == ["id", "object", "created", "owned_by", "permission", "root", "parent"]
      // every entry is its own root, has no parent, is a "model" owned by
      // "google" and carries the listing's timestamp
      ensures r.fields[0].1 == r.fields[5].1 == JStr(id)
      ensures r.fields[2].1 == JInt(created)
      ensures r.fields[1].1 == JStr("model") && r.fields[3].1 == JStr("google")
      ensures r.fields[4].1 == JList([]) && r.fields[6].1 == JNull
    {
      JObj([
        ("id", JStr(id)),
        ("object", JStr("model")),
        ("created", JInt(created)),
        ("owned_by", JStr("google")),
        ("permission", JList([])),
        ("root", JStr(id)),
        ("parent", JNull)])
    }
  }

  datatype ModelList = ModelList(data: seq<ModelEntry>) {
    /** The ids of the entries, in order. */
    function Ids(): (r: seq<string>)
      ensures |r| == |data|
      ensures forall i :: 0 <= i < |data| ==> r[i] == data[i].id
    {
      seq(|data|, i requires 0 <= i < |data| => data[i].id)
    }

    function ToJson(): (r: Json)
      ensures Serializable(r)
      ensures r.JObj? && |r.fields| == 2 && r.fields[0] == ("object", JStr("list")) && r.fields[1].0 == "data"
      ensures r.fields[1].1.JList? && |r.fields[1].1.items| == |data|
      // one object per entry, in the listing's order
      ensures forall i :: 0 <= i < |data| ==> r.fields[1].1.items[i] == data[i].ToJson()
    {
      var items := seq(|data|, i requires 0 <= i < |data| => data[i].ToJson());
      JObj([("object", JStr("list")), ("data", JList(items))])
    }
  }

  /** The native list the handler lists: the cached or freshly fetched one
      when it is non-empty; otherwise the cache is refreshed from the second
      source and read again. */
  function NativeForListing(st: ModelLoader.CatalogState, first: ModelLoader.NativeSource, second: ModelLoader.NativeSource): (r: ModelLoader.Step<seq<string>>)
    ensures r.state.nativeCache == Some(r.value)
    ensures r.state.modelCache == st.modelCache
    ensures st.nativeCache.Some? && |st.nativeCache.value| > 0 ==> r.value == st.nativeCache.value
    ensures st.nativeCache.None? && |ModelLoader.FetchNativeModels(first)| > 0 ==>
      r.value == ModelLoader.FetchNativeModels(first)
    ensures |ModelLoader.GetNativeModels(st, first).value| > 0 ==> r == ModelLoader.GetNativeModels(st, first)
    ensures (st.nativeCache.Some? && |st.nativeCache.value| == 0)
            || (st.nativeCache.None? && |ModelLoader.FetchNativeModels(first)| == 0) ==>
      r.value == ModelLoader.FetchNativeModels(second)
  {
    var read := ModelLoader.GetNativeModels(st, first);
    if |read.value| > 0 then read
    else
      var refreshed := ModelLoader.RefreshNativeModels(read.state, second);
      ModelLoader.GetNativeModels(refreshed.state, second)
  }

  /** The entries for a list of names: one per distinct name, ids
      ascending, all created at `now`. */
  function ListingOf(names: seq<string>, now: int): (r: ModelList)
    ensures StrictlySorted(r.Ids())
    ensures forall m :: m in r.Ids() <==> m in names
    ensures forall i :: 0 <= i < |r.data| ==> r.data[i].created == now
  {
    var ids := SortedUnique(names);
    var list := ModelList(seq(|ids|, i requires 0 <= i < |ids| => ModelEntry(ids[i], now)));
    assert list.Ids() == ids;
    list
  }

  /** `list_models`: the listing of the native names, with `now` read from
      the clock (`int(time.time())`). */
  function ListModels(st: ModelLoader.CatalogState, first: ModelLoader.NativeSource, second: ModelLoader.NativeSource, now: int): (r: ModelLoader.Step<ModelList>)
    ensures r.state == NativeForListing(st, first, second).state
    ensures StrictlySorted(r.value.Ids())
    ensures forall m :: m in r.value.Ids() <==> m in NativeForListing(st, first, second).value
    ensures forall i :: 0 <= i < |r.value.data| ==> r.value.data[i].created == now
  {
    var native := NativeForListing(st, first, second);
    ModelLoader.Step(native.state, ListingOf(native.value, now))
  }

  /** Without a working listing the handler lists exactly the built-in
      defaults. */
  lemma ListingFallsBackToDefaults(first: ModelLoader.NativeSource, second: ModelLoader.NativeSource, now: int, m: string)
    requires !ModelLoader.ListingSucceeds(first)
    ensures var r := ListModels(ModelLoader.InitialState, first, second, now);
      m in r.value.Ids() <==> m in ModelLoader.DefaultGeminiModels
  {
    assert ModelLoader.DefaultGeminiModels[0] in ModelLoader.DefaultGeminiModels;
  }
}
