/**
 * `get_app_store_data`: one row per (wallet, platform) whose store lookup
 * succeeded, Android registry first, then iOS.  The Play Store scraper, the
 * iTunes lookup endpoint and the local-time date rendering are inputs.
 */
module AppStore {
  import opened Wrappers

  datatype Platform = Android | IOS

  /** A key of a scraped dict or JSON object: absent, present with null, or present with a value. */
  datatype Field<T> = Missing | Null | Present(value: T)

  /** One row of the app table. */
  datatype AppEntry = AppEntry(
    wallet: string, platform: Platform, installs: Option<string>, score: Option<real>,
    ratings: Option<int>, lastUpdated: string, description: string)

  /** What the Play Store scraper returns for one package (`updated` is a Unix timestamp). */
  datatype AndroidDetails = AndroidDetails(
    installs: Option<string>, score: Option<real>, ratings: Option<int>,
    updated: Option<int>, description: Field<string>)

  /** One element of the iTunes lookup's `results` array. */
  datatype IosRecord = IosRecord(
    averageUserRating: Option<real>, userRatingCount: Option<int>,
    currentVersionReleaseDate: Field<string>, description: Field<string>)

  /** The iTunes lookup: failed (network, JSON or missing `results`) or the `results` array. */
  datatype IosLookup = LookupFailed | Results(records: seq<IosRecord>)

  /** Wallet display name to store identifier, in the dict's insertion order. */
  type Registry = seq<(string, string)>

  const DescriptionLimit := 200

  const WalletAppsAndroid: Registry := [
    ("Wafa Cash (Jibi Pro)", "com.b3g.wafacash.jibivpro"), ("Chaabi Pay", "com.wallet.m2t"),
    ("Cash Plus", "com.cashplus.mobileapp"), ("Damane Pay", "co.ma.damanecash.android"),
    ("Al Barid Pay", "ma.baridcash.saphir.baridpay"), ("JIBI", "com.b3g.wafacash.jibi"),
    ("Ora", "com.oracash"), ("Kenzup", "com.kenzup.app.prod"), ("Lana Cash", "com.b3g.cih.wepay"),
    ("Yassir", "com.yatechnologies.yassir_rider"), ("Glovo", "com.glovo")
  ]

  const WalletAppsIos: Registry := [
    ("Wafa Cash (Jibi Pro)", "1371478054"), ("Chaabi Pay", "1504267861"), ("Cash Plus", "1479205181"),
    ("Damane Pay", "1506971587"), ("Al Barid Pay", "720775151"), ("JIBI", "1200782472"),
    ("Ora", "6670762251"), ("Kenzup", "1518977114"), ("Lana Cash", "1618148242"),
    ("Yassir", "1239926325"), ("Glovo", "951812684")
  ]

  /** A dict's keys are distinct. */
  predicate DistinctKeys(registry: Registry)
  {
    forall i, j :: 0 <= i < j < |registry| ==> registry[i].0 != registry[j].0
  }

  /** `s[:n]`: the prefix of length `n`, or all of `s` when it is shorter. */
  function Truncate(s: string, n: nat): (r: string)
    ensures r <= s
    ensures |r| == if |s| <= n then |s| else n
  {
    if |s| <= n then s else s[..n]
  }

  /** `d.get('description', '')[:200]`: `None` when the key holds null, since slicing `None` raises. */
  function DescriptionOf(field: Field<string>): Option<string>
  {
    match field
    case Missing => Some("")
    case Null => None
    case Present(d) => Some(Truncate(d, DescriptionLimit))
  }

  /** `d.get(key, '')` for a key that does not hold null: its value, or "" when it is absent. */
  function FieldText(field: Field<string>): string
  {
    if field.Present? then field.value else ""
  }

  /** `s.split("T")[0]`: the part of `s` before its first 'T', or all of `s` when it has none. */
  function DatePart(s: string): (r: string)
    ensures r <= s && 'T' !in r
    ensures |r| < |s| ==> s[|r|] == 'T'
  {
    if s == [] || s[0] == 'T' then [] else [s[0]] + DatePart(s[1..])
  }

  /** `d.get("currentVersionReleaseDate", "").split("T")[0]`: `None` when the key holds null. */
  function ReleaseDateOf(field: Field<string>): Option<string>
  {
    match field
    case Missing => Some("")
    case Null => None
    case Present(s) => Some(DatePart(s))
  }

  /**
   * The body of the Android loop's `try`: `None` when the scraper raised or a
   * field could not be rendered (no timestamp, a timestamp the date rendering
   * rejects, a null description); the row otherwise.
   */
  function AndroidEntry(name: string, lookup: Option<AndroidDetails>, localDate: int -> Option<string>): (r: Option<AppEntry>)
    ensures r.Some? <==>
      && lookup.Some? && lookup.value.updated.Some?
      && localDate(lookup.value.updated.value).Some? && !lookup.value.description.Null?
    ensures r.Some? ==>
      var d, e := lookup.value, r.value;
      && e.wallet == name && e.platform == Android
      && e.installs == d.installs && e.score == d.score && e.ratings == d.ratings
      && e.lastUpdated == localDate(d.updated.value).value
      && |e.description| <= DescriptionLimit
      && (d.description.Missing? ==> e.description == "")
      && (d.description.Present? ==>
            && e.description == Truncate(d.description.value, DescriptionLimit)
            && e.description <= d.description.value
            && (|d.description.value| <= DescriptionLimit ==> e.description == d.description.value))
  {
    if lookup.None? || lookup.value.updated.None? then None
    else
      var d := lookup.value;
      var date := localDate(d.updated.value);
      var description := DescriptionOf(d.description);
      if date.None? || description.None? then None
      else Some(AppEntry(name, Android, d.installs, d.score, d.ratings, date.value, description.value))
  }

  /**
   * The body of the iOS loop's `try`: `None` when the lookup failed, returned no
   * results, or holds null where a string is sliced or split; otherwise the row
   * of the first result, with installs "N/A".
   */
  function IosEntry(name: string, lookup: IosLookup): (r: Option<AppEntry>)
    ensures r.Some? <==>
      && lookup.Results? && |lookup.records| > 0
      && !lookup.records[0].currentVersionReleaseDate.Null? && !lookup.records[0].description.Null?
    ensures r.Some? ==>
      var d, e := lookup.records[0], r.value;
      && e.wallet == name && e.platform == IOS && e.installs == Some("N/A")
      && e.score == d.averageUserRating && e.ratings == d.userRatingCount
      && 'T' !in e.lastUpdated
      && (d.currentVersionReleaseDate.Missing? ==> e.lastUpdated == "")
      && (d.currentVersionReleaseDate.Present? ==>
            && e.lastUpdated == DatePart(d.currentVersionReleaseDate.value)
            && e.lastUpdated <= d.currentVersionReleaseDate.value)
      && |e.description| <= DescriptionLimit
      && (d.description.Missing? ==> e.description == "")
      && (d.description.Present? ==>
            && e.description == Truncate(d.description.value, DescriptionLimit)
            && e.description <= d.description.value
            && (|d.description.value| <= DescriptionLimit ==> e.description == d.description.value))
  {
    if lookup.LookupFailed? || |lookup.records| == 0 then None
    else
      var d := lookup.records[0];
      var date := ReleaseDateOf(d.currentVersionReleaseDate);
      var description := DescriptionOf(d.description);
      if date.None? || description.None? then None
      else Some(AppEntry(name, IOS, Some("N/A"), d.averageUserRating, d.userRatingCount, date.value, description.value))
  }

  function Found(entry: Option<AppEntry>): seq<AppEntry>
  {
    if entry.Some? then [entry.value] else []
  }

  /** The rows a loop over `registry` collects: each successful entry, in registry order. */
  function Collect(registry: Registry, entry: ((string, string)) -> Option<AppEntry>): seq<AppEntry>
  {
    if registry == [] then []
    else Collect(registry[..|registry| - 1], entry) + Found(entry(registry[|registry| - 1]))
  }

  /** The Android loop body as a function of a registry item. */
  function AndroidStep(playStore: string -> Option<AndroidDetails>, localDate: int -> Option<string>): ((string, string)) -> Option<AppEntry>
  {
    (p: (string, string)) => AndroidEntry(p.0, playStore(p.1), localDate)
  }

  /** The iOS loop body as a function of a registry item. */
  function IosStep(itunes: string -> IosLookup): ((string, string)) -> Option<AppEntry>
  {
    (p: (string, string)) => IosEntry(p.0, itunes(p.1))
  }

  function AndroidRows(registry: Registry, playStore: string -> Option<AndroidDetails>, localDate: int -> Option<string>): seq<AppEntry>
  {
    Collect(registry, AndroidStep(playStore, localDate))
  }

  function IosRows(registry: Registry, itunes: string -> IosLookup): seq<AppEntry>
  {
    Collect(registry, IosStep(itunes))
  }

  /** The scraper: the Android loop, then the iOS loop, each skipping an app whose lookup fails. */
  method GetAppStoreData(
    android: Registry, ios: Registry,
    playStore: string -> Option<AndroidDetails>, localDate: int -> Option<string>, itunes: string -> IosLookup)
    returns (apps: seq<AppEntry>)
    ensures apps == AndroidRows(android, playStore, localDate) + IosRows(ios, itunes)
    ensures forall i :: 0 <= i < |apps| ==>
      (apps[i].platform == Android <==> i < |AndroidRows(android, playStore, localDate)|)
  {
    var dataAndroid := [];
    for i := 0 to |android|
      invariant dataAndroid == AndroidRows(android[..i], playStore, localDate)
    {
      assert android[..i + 1][..i] == android[..i];
      var (name, appId) := android[i];
      var row := AndroidEntry(name, playStore(appId), localDate);
      if row.None? {
        continue;
      }
      dataAndroid := dataAndroid + [row.value];
    }
    assert android[..|android|] == android;
    var dataIos := [];
    for i := 0 to |ios|
      invariant dataIos == IosRows(ios[..i], itunes)
    {
      assert ios[..i + 1][..i] == ios[..i];
      var (name, appId) := ios[i];
      var row := IosEntry(name, itunes(appId));
      if row.None? {
        continue;
      }
      dataIos := dataIos + [row.value];
    }
    assert ios[..|ios|] == ios;
    apps := dataAndroid + dataIos;
    AndroidRowsAreAndroid(android, playStore, localDate);
    IosRowsAreIos(ios, itunes);
  }

  /** Every collected row is the successful entry of some registry item. */
  lemma {:induction false} CollectFromRegistry(registry: Registry, entry: ((string, string)) -> Option<AppEntry>)
    ensures forall i :: 0 <= i < |Collect(registry, entry)| ==>
      exists k :: 0 <= k < |registry| && entry(registry[k]) == Some(Collect(registry, entry)[i])
  {
    if registry != [] {
      var init := registry[..|registry| - 1];
      CollectFromRegistry(init, entry);
      var rows, before := Collect(registry, entry), Collect(init, entry);
      var last := entry(registry[|registry| - 1]);
      assert rows == before + Found(last);
      forall i | 0 <= i < |rows|
        ensures exists k :: 0 <= k < |registry| && entry(registry[k]) == Some(rows[i])
      {
        if i < |before| {
          var k :| 0 <= k < |init| && entry(init[k]) == Some(before[i]);
          assert init[k] == registry[k] && rows[i] == before[i];
        } else {
          assert rows[i] == Found(last)[i - |before|] == last.value;
          assert entry(registry[|registry| - 1]) == Some(rows[i]);
        }
      }
    } else {
      assert Collect(registry, entry) == [];
    }
  }

  lemma {:induction false} AndroidRowsAreAndroid(registry: Registry, playStore: string -> Option<AndroidDetails>, localDate: int -> Option<string>)
    ensures forall r: AppEntry :: r in AndroidRows(registry, playStore, localDate) ==> r.platform == Android
  {
    var step := AndroidStep(playStore, localDate);
    CollectFromRegistry(registry, step);
    var rows := AndroidRows(registry, playStore, localDate);
    forall r | r in rows ensures r.platform == Android {
      var i :| 0 <= i < |rows| && rows[i] == r;
      var k :| 0 <= k < |registry| && step(registry[k]) == Some(rows[i]);
      assert step(registry[k]) == AndroidEntry(registry[k].0, playStore(registry[k].1), localDate);
    }
  }

  lemma {:induction false} IosRowsAreIos(registry: Registry, itunes: string -> IosLookup)
    ensures forall r :: r in IosRows(registry, itunes) ==> r.platform == IOS
  {
    var step := IosStep(itunes);
    CollectFromRegistry(registry, step);
    var rows := IosRows(registry, itunes);
    forall r | r in rows ensures r.platform == IOS {
      var i :| 0 <= i < |rows| && rows[i] == r;
      var k :| 0 <= k < |registry| && step(registry[k]) == Some(rows[i]);
      assert step(registry[k]) == IosEntry(registry[k].0, itunes(registry[k].1));
    }
  }

  /** Each registry item's successful entry carries the item's wallet name. */
  predicate WalletsMatch(registry: Registry, entry: ((string, string)) -> Option<AppEntry>)
  {
    forall k :: 0 <= k < |registry| && entry(registry[k]).Some? ==> entry(registry[k]).value.wallet == registry[k].0
  }

  /** The number of rows for wallet `w`. */
  function CountWallet(rows: seq<AppEntry>, w: string): nat
  {
    if rows == [] then 0 else (if rows[0].wallet == w then 1 else 0) + CountWallet(rows[1..], w)
  }

  lemma {:induction false} CountWalletAppend(a: seq<AppEntry>, b: seq<AppEntry>, w: string)
    ensures CountWallet(a + b, w) == CountWallet(a, w) + CountWallet(b, w)
    decreases |a|
  {
    if a == [] {
      assert a + b == b;
    } else {
      assert (a + b)[0] == a[0] && (a + b)[1..] == a[1..] + b;
      CountWalletAppend(a[1..], b, w);
    }
  }

  lemma {:induction false} CollectCountAbsent(registry: Registry, entry: ((string, string)) -> Option<AppEntry>, w: string)
    requires WalletsMatch(registry, entry)
    requires forall k :: 0 <= k < |registry| ==> registry[k].0 != w
    ensures CountWallet(Collect(registry, entry), w) == 0
  {
    if registry != [] {
      var init, last := registry[..|registry| - 1], registry[|registry| - 1];
      assert forall k :: 0 <= k < |init| ==> init[k] == registry[k];
      CollectCountAbsent(init, entry, w);
      assert Collect(registry, entry) == Collect(init, entry) + Found(entry(last));
      CountWalletAppend(Collect(init, entry), Found(entry(last)), w);
      CountWalletFound(entry(last), w);
    }
  }

  /** The rows one lookup adds for wallet `w`: one when it succeeded for `w`, none otherwise. */
  lemma CountWalletFound(e: Option<AppEntry>, w: string)
    ensures CountWallet(Found(e), w) == if e.Some? && e.value.wallet == w then 1 else 0
  {
    if e.Some? {
      assert Found(e)[1..] == [];
    }
  }

  /** Dropping the last registry item keeps the keys distinct and the entries' wallets matching. */
  lemma DropLastKeepsKeys(registry: Registry, entry: ((string, string)) -> Option<AppEntry>)
    requires registry != [] && DistinctKeys(registry) && WalletsMatch(registry, entry)
    ensures var init := registry[..|registry| - 1];
      DistinctKeys(init) && WalletsMatch(init, entry)
      && forall j :: 0 <= j < |init| ==> init[j] == registry[j] && init[j].0 != registry[|registry| - 1].0
  {
  }

  /**
   * Per-app isolation: with distinct wallet names, an app contributes exactly
   * one row when its lookup succeeds and none when it fails, whatever happens
   * to the other apps.
   */
  lemma {:induction false} CollectCount(registry: Registry, entry: ((string, string)) -> Option<AppEntry>, k: nat)
    requires DistinctKeys(registry) && WalletsMatch(registry, entry)
    requires k < |registry|
    ensures CountWallet(Collect(registry, entry), registry[k].0) == if entry(registry[k]).Some? then 1 else 0
  {
    var n := |registry|;
    var init, last, w := registry[..n - 1], registry[n - 1], registry[k].0;
    DropLastKeepsKeys(registry, entry);
    assert Collect(registry, entry) == Collect(init, entry) + Found(entry(last));
    CountWalletAppend(Collect(init, entry), Found(entry(last)), w);
    CountWalletFound(entry(last), w);
    if k == n - 1 {
      CollectCountAbsent(init, entry, w);
    } else {
      assert init[k] == registry[k];
      assert last.0 != w;
      CollectCount(init, entry, k);
    }
  }

  /** The registry item a collected row comes from. */
  lemma {:induction false} RowSource(registry: Registry, entry: ((string, string)) -> Option<AppEntry>, i: nat)
    returns (k: nat)
    requires i < |Collect(registry, entry)|
    ensures k < |registry| && entry(registry[k]) == Some(Collect(registry, entry)[i])
  {
    var n := |registry|;
    var init, last := registry[..n - 1], registry[n - 1];
    var before := Collect(init, entry);
    assert Collect(registry, entry) == before + Found(entry(last));
    if i < |before| {
      k := RowSource(init, entry, i);
      assert init[k] == registry[k];
    } else {
      k := n - 1;
    }
  }

  /** Two rows, in order, and the registry items their wallets name: the items are in the same order. */
  lemma {:induction false} RowsInRegistryOrder(
    registry: Registry, entry: ((string, string)) -> Option<AppEntry>, i: nat, j: nat, k: nat, l: nat)
    requires DistinctKeys(registry) && WalletsMatch(registry, entry)
    requires i < j < |Collect(registry, entry)| && k < |registry| && l < |registry|
    requires Collect(registry, entry)[i].wallet == registry[k].0
    requires Collect(registry, entry)[j].wallet == registry[l].0
    ensures k < l
  {
    var n := |registry|;
    var init, last := registry[..n - 1], registry[n - 1];
    var rows, before := Collect(registry, entry), Collect(init, entry);
    DropLastKeepsKeys(registry, entry);
    assert rows == before + Found(entry(last));
    assert rows[i] == before[i];
    var ki := RowSource(init, entry, i);
    assert registry[ki].0 == registry[k].0;
    if j < |before| {
      assert rows[j] == before[j];
      var kj := RowSource(init, entry, j);
      assert registry[kj].0 == registry[l].0;
      RowsInRegistryOrder(init, entry, i, j, k, l);
    } else {
      assert rows[j] == entry(last).value;
    }
  }

  /**
   * Registry order: with distinct wallet names, a row that comes before
   * another belongs to a registry item that comes before the other's.
   */
  lemma CollectOrder(registry: Registry, entry: ((string, string)) -> Option<AppEntry>)
    requires DistinctKeys(registry) && WalletsMatch(registry, entry)
    ensures forall i, j, k, l ::
      (0 <= i < j < |Collect(registry, entry)| && 0 <= k < |registry| && 0 <= l < |registry|
       && Collect(registry, entry)[i].wallet == registry[k].0
       && Collect(registry, entry)[j].wallet == registry[l].0) ==> k < l
  {
    forall i, j, k, l |
      0 <= i < j < |Collect(registry, entry)| && 0 <= k < |registry| && 0 <= l < |registry|
      && Collect(registry, entry)[i].wallet == registry[k].0
      && Collect(registry, entry)[j].wallet == registry[l].0
      ensures k < l
    {
      RowsInRegistryOrder(registry, entry, i, j, k, l);
    }
  }

  lemma {:induction false} AndroidWalletsMatch(registry: Registry, playStore: string -> Option<AndroidDetails>, localDate: int -> Option<string>)
    ensures WalletsMatch(registry, AndroidStep(playStore, localDate))
  {
    var step := AndroidStep(playStore, localDate);
    forall k | 0 <= k < |registry| && step(registry[k]).Some?
      ensures step(registry[k]).value.wallet == registry[k].0
    {
      assert step(registry[k]) == AndroidEntry(registry[k].0, playStore(registry[k].1), localDate);
    }
  }

  lemma {:induction false} IosWalletsMatch(registry: Registry, itunes: string -> IosLookup)
    ensures WalletsMatch(registry, IosStep(itunes))
  {
    var step := IosStep(itunes);
    forall k | 0 <= k < |registry| && step(registry[k]).Some?
      ensures step(registry[k]).value.wallet == registry[k].0
    {
      assert step(registry[k]) == IosEntry(registry[k].0, itunes(registry[k].1));
    }
  }

  /**
   * No cross-platform merge: a wallet listed in both registries gets one row
   * per platform whose lookup succeeded, two when both did, never one merged row.
   */
  lemma {:induction false} NoCrossPlatformMerge(
    android: Registry, ios: Registry,
    playStore: string -> Option<AndroidDetails>, localDate: int -> Option<string>, itunes: string -> IosLookup,
    k: nat, l: nat)
    requires DistinctKeys(android) && DistinctKeys(ios)
    requires k < |android| && l < |ios| && android[k].0 == ios[l].0
    ensures var w := android[k].0;
      var androidRows, iosRows := AndroidRows(android, playStore, localDate), IosRows(ios, itunes);
      && CountWallet(androidRows, w) == (if AndroidEntry(w, playStore(android[k].1), localDate).Some? then 1 else 0)
      && CountWallet(iosRows, w) == (if IosEntry(w, itunes(ios[l].1)).Some? then 1 else 0)
      && CountWallet(androidRows + iosRows, w) == CountWallet(androidRows, w) + CountWallet(iosRows, w)
  {
    var a, i := AndroidStep(playStore, localDate), IosStep(itunes);
    AndroidWalletsMatch(android, playStore, localDate);
    IosWalletsMatch(ios, itunes);
    CollectCount(android, a, k);
    CollectCount(ios, i, l);
    assert a(android[k]) == AndroidEntry(android[k].0, playStore(android[k].1), localDate);
    assert i(ios[l]) == IosEntry(ios[l].0, itunes(ios[l].1));
    CountWalletAppend(AndroidRows(android, playStore, localDate), IosRows(ios, itunes), android[k].0);
  }

  /** An Android row's text fields are those of the successful lookup of a registry item. */
  predicate AndroidRowFrom(r: AppEntry, item: (string, string), playStore: string -> Option<AndroidDetails>)
  {
    && r.wallet == item.0 && playStore(item.1).Some?
    && r.description == Truncate(FieldText(playStore(item.1).value.description), DescriptionLimit)
  }

  /** An iOS row's text fields are those of the first lookup result for a registry item. */
  predicate IosRowFrom(r: AppEntry, item: (string, string), itunes: string -> IosLookup)
  {
    && r.wallet == item.0 && itunes(item.1).Results? && |itunes(item.1).records| > 0
    && r.description == Truncate(FieldText(itunes(item.1).records[0].description), DescriptionLimit)
    && r.lastUpdated == DatePart(FieldText(itunes(item.1).records[0].currentVersionReleaseDate))
  }

  /**
   * Field normalisation over the whole table: every description has at most
   * 200 characters and is the first 200 characters of the description the
   * store returned for that row's wallet; every iOS row has installs "N/A" and
   * as date the part before the first 'T' of the returned release date.
   */
  lemma {:induction false} RowsNormalised(
    android: Registry, ios: Registry,
    playStore: string -> Option<AndroidDetails>, localDate: int -> Option<string>, itunes: string -> IosLookup)
    ensures forall r: AppEntry :: r in AndroidRows(android, playStore, localDate) + IosRows(ios, itunes) ==>
      |r.description| <= DescriptionLimit
      && (r.platform == IOS ==> r.installs == Some("N/A") && 'T' !in r.lastUpdated)
    ensures forall r: AppEntry :: r in AndroidRows(android, playStore, localDate) ==>
      exists k :: 0 <= k < |android| && AndroidRowFrom(r, android[k], playStore)
    ensures forall r: AppEntry :: r in IosRows(ios, itunes) ==>
      exists k :: 0 <= k < |ios| && IosRowFrom(r, ios[k], itunes)
  {
    var a, i := AndroidStep(playStore, localDate), IosStep(itunes);
    CollectFromRegistry(android, a);
    CollectFromRegistry(ios, i);
    var ar, ir := AndroidRows(android, playStore, localDate), IosRows(ios, itunes);
    forall r: AppEntry | r in ar
      ensures |r.description| <= DescriptionLimit
      ensures exists k :: 0 <= k < |android| && AndroidRowFrom(r, android[k], playStore)
    {
      var x :| 0 <= x < |ar| && ar[x] == r;
      var k :| 0 <= k < |android| && a(android[k]) == Some(ar[x]);
      assert a(android[k]) == AndroidEntry(android[k].0, playStore(android[k].1), localDate);
      assert AndroidRowFrom(r, android[k], playStore);
    }
    forall r: AppEntry | r in ir
      ensures |r.description| <= DescriptionLimit && r.installs == Some("N/A") && 'T' !in r.lastUpdated
      ensures exists k :: 0 <= k < |ios| && IosRowFrom(r, ios[k], itunes)
    {
      var x :| 0 <= x < |ir| && ir[x] == r;
      var k :| 0 <= k < |ios| && i(ios[k]) == Some(ir[x]);
      assert i(ios[k]) == IosEntry(ios[k].0, itunes(ios[k].1));
      assert IosRowFrom(r, ios[k], itunes);
    }
    AndroidRowsAreAndroid(android, playStore, localDate);
  }

  lemma AndroidRegistryDistinct()
    ensures DistinctKeys(WalletAppsAndroid)
  {
  }

  /** The dashboard's two registries list the same eleven wallets, in the same order, each once. */
  lemma RegistriesWellFormed()
    ensures DistinctKeys(WalletAppsAndroid) && DistinctKeys(WalletAppsIos)
    ensures |WalletAppsAndroid| == |WalletAppsIos| == 11
    ensures forall k :: 0 <= k < 11 ==> WalletAppsAndroid[k].0 == WalletAppsIos[k].0
  {
    AndroidRegistryDistinct();
    SameNamesDistinct(WalletAppsAndroid, WalletAppsIos);
  }

  lemma SameNamesDistinct(a: Registry, b: Registry)
    requires |a| == |b| && DistinctKeys(a)
    requires forall k :: 0 <= k < |a| ==> a[k].0 == b[k].0
    ensures DistinctKeys(b)
  {
  }
}
