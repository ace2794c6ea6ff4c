/** The Rite Aid checker: a cache of nearby stores rebuilt from several
    store-finder searches, and a per-store slot check with a postponement
    window after each store that reports availability. */
module RiteAid {
  import opened Wrappers
  import opened Json
  import opened StdText
  import opened FinderTargets

  /** `std::chrono::hours(24)`, in seconds. */
  const Day: int := 24 * 60 * 60
  /** A store that reports availability is not checked again for this many
      check periods. */
  const PostponePeriods: nat := 10
  const HomeState := "PA"
  const Philadelphia := "Philadelphia"

  const FindStoresPrefix := "https://www.riteaid.com/services/ext/v2/stores/getStores?address="
  const FindStoresSuffix := "&attrFilter=PREF-112&fetchMechanismVersion=2&radius=50"
  const StatusCheckPrefix := "https://www.riteaid.com/services/ext/v2/vaccine/checkSlots?storeNumber="

  /** One store of the cache. A freshly parsed store is not postponed, and
      its `postponedUntil` is the clock's epoch. */
  datatype Location = Location(
    storeNumber: nat,
    address: string,
    city: string,
    state: string,
    zip: string,
    postponeChecking: bool,
    postponedUntil: int)

  // ---------------------------------------------------------------------------
  // URL builders

  function GetFindStoresURL(location: string): string
  {
    FindStoresPrefix + location + FindStoresSuffix
  }

  /** Different search locations query different URLs. */
  lemma FindStoresURLInjective(a: string, b: string)
    requires GetFindStoresURL(a) == GetFindStoresURL(b)
    ensures a == b
  {
    var u, v := GetFindStoresURL(a), GetFindStoresURL(b);
    assert |a| == |b|;
    forall k | 0 <= k < |a|
      ensures a[k] == b[k]
    {
      assert u[|FindStoresPrefix| + k] == a[k];
      assert v[|FindStoresPrefix| + k] == b[k];
    }
  }

  function GetStatusCheckURL(storeNumber: nat): string
  {
    StatusCheckPrefix + DecimalString(storeNumber)
  }

  /** Different stores query different URLs. */
  lemma StatusCheckURLInjective(m: nat, n: nat)
    requires GetStatusCheckURL(m) == GetStatusCheckURL(n)
    ensures m == n
  {
    var u, v := GetStatusCheckURL(m), GetStatusCheckURL(n);
    assert DecimalString(m) == u[|StatusCheckPrefix|..];
    assert DecimalString(n) == v[|StatusCheckPrefix|..];
    DecimalStringInjective(m, n);
  }

  // ---------------------------------------------------------------------------
  // ParseLocations

  /** The five fields of one store object, all of which must be readable. */
  function ReadLocation(item: Json): (r: Option<Location>)
    ensures r.Some? ==> !r.value.postponeChecking && r.value.postponedUntil == 0
  {
    match (ReadNat(item, "storeNumber"), ReadString(item, "address"), ReadString(item, "city"),
           ReadString(item, "state"), ReadString(item, "zipcode"))
    case (Some(n), Some(address), Some(city), Some(state), Some(zip)) =>
      Some(Location(n, address, city, state, zip, false, 0))
    case _ => None
  }

  /** Philadelphia mode keeps only Philadelphia; otherwise Philadelphia is
      left out. */
  predicate InPhillyScope(loc: Location, phillyMode: bool)
  {
    (phillyMode && loc.city == Philadelphia) || (!phillyMode && loc.city != Philadelphia)
  }

  /** The stores a store array yields: None when a store before the first
      out-of-state one has an unreadable field; parsing ends, successfully, at
      the first store outside the home state. */
  function ReadStores(items: seq<Json>, phillyMode: bool): Option<seq<Location>>
  {
    if |items| == 0 then Some([]) else StoreThen(ReadLocation(items[0]), phillyMode, ReadStores(items[1..], phillyMode))
  }

  /** One store followed by what the rest of the array yields; the rest is
      ignored when the store is unreadable or out of state. */
  function StoreThen(loc: Option<Location>, phillyMode: bool, rest: Option<seq<Location>>): Option<seq<Location>>
  {
    match loc
    case None => None
    case Some(l) =>
      if l.state != HomeState then Some([])
      else
        match rest
        case None => None
        case Some(stores) => Some(if InPhillyScope(l, phillyMode) then [l] + stores else stores)
  }

  /** The stores of a store-finder document, or None when it is unusable. */
  function StoresFromResponse(root: Option<Json>, phillyMode: bool): Option<seq<Location>>
  {
    match Field(Field(root, "Data"), "stores")
    case None => None
    case Some(storeArray) => ReadStores(Children(storeArray), phillyMode)
  }

  function Prepend(data: seq<Location>, r: Option<seq<Location>>): Option<seq<Location>>
  {
    if r.Some? then Some(data + r.value) else None
  }

  /** Walks the store array, pushing each in-scope store onto `data`. */
  method ParseLocations(root: Option<Json>, phillyMode: bool) returns (ok: bool, data: seq<Location>)
    ensures ok <==> StoresFromResponse(root, phillyMode).Some?
    ensures ok ==> data == StoresFromResponse(root, phillyMode).value
  {
    ok := false;
    data := [];
    if root.None? {
      return;
    }
    var dataObject := GetObjectItem(root.value, "Data");
    if dataObject.None? {
      return;
    }
    var storeArray := GetObjectItem(dataObject.value, "stores");
    if storeArray.None? {
      return;
    }
    var items := Children(storeArray.value);
    assert StoresFromResponse(root, phillyMode) == ReadStores(items, phillyMode);
    assert items[0..] == items;
    if ReadStores(items, phillyMode).Some? {
      assert [] + ReadStores(items, phillyMode).value == ReadStores(items, phillyMode).value;
    }
    var i := 0;
    while i < |items|
      invariant 0 <= i <= |items|
      invariant ReadStores(items, phillyMode) == Prepend(data, ReadStores(items[i..], phillyMode))
    {
      ReadStoresStep(items, i, phillyMode, data);
      var loc := ReadLocation(items[i]);
      if loc.None? {
        return;
      }
      if loc.value.state != HomeState {
        ok := true;
        return;
      }
      if InPhillyScope(loc.value, phillyMode) {
        data := data + [loc.value];
      }
      i := i + 1;
    }
    assert items[i..] == [];
    assert data + [] == data;
    ok := true;
  }

  /** The store array from item `i` on, unfolded by one item, behind the
      stores `data` already kept. */
  lemma ReadStoresStep(items: seq<Json>, i: nat, phillyMode: bool, data: seq<Location>)
    requires i < |items|
    ensures var loc := ReadLocation(items[i]);
      var rest := ReadStores(items[i + 1..], phillyMode);
      Prepend(data, ReadStores(items[i..], phillyMode))
      == if loc.None? then None
         else if loc.value.state != HomeState then Some(data)
         else if InPhillyScope(loc.value, phillyMode) then Prepend(data + [loc.value], rest)
         else Prepend(data, rest)
  {
    assert items[i..][0] == items[i] && items[i..][1..] == items[i + 1..];
    var loc := ReadLocation(items[i]);
    var rest := ReadStores(items[i + 1..], phillyMode);
    assert data + [] == data;
    if loc.Some? && rest.Some? {
      assert data + ([loc.value] + rest.value) == (data + [loc.value]) + rest.value;
    }
  }

  /** Every parsed store is in the home state, in scope for the mode, not
      postponed, and read from some item of the array. */
  lemma {:induction false} ParsedStoresInScope(items: seq<Json>, phillyMode: bool, loc: Location)
    requires ReadStores(items, phillyMode).Some? && loc in ReadStores(items, phillyMode).value
    ensures loc.state == HomeState && InPhillyScope(loc, phillyMode) && !loc.postponeChecking
    ensures exists j :: 0 <= j < |items| && ReadLocation(items[j]) == Some(loc)
  {
    var first := ReadLocation(items[0]).value;
    if loc != first || !InPhillyScope(first, phillyMode) {
      ParsedStoresInScope(items[1..], phillyMode, loc);
      var j :| 0 <= j < |items[1..]| && ReadLocation(items[1..][j]) == Some(loc);
      assert items[1..][j] == items[j + 1];
    }
  }

  /** The first store outside the home state ends parsing: it and everything
      after it are dropped, whatever they hold. */
  lemma {:induction false} OutOfStateStoreEndsParsing(pre: seq<Json>, item: Json, rest: seq<Json>, phillyMode: bool)
    requires ReadLocation(item).Some? && ReadLocation(item).value.state != HomeState
    ensures ReadStores(pre + [item] + rest, phillyMode) == ReadStores(pre + [item], phillyMode)
    decreases |pre|
  {
    var a, b := pre + [item] + rest, pre + [item];
    if |pre| == 0 {
      assert a[0] == item && b[0] == item;
    } else {
      assert a[0] == pre[0] && b[0] == pre[0];
      assert a[1..] == pre[1..] + [item] + rest;
      assert b[1..] == pre[1..] + [item];
      OutOfStateStoreEndsParsing(pre[1..], item, rest, phillyMode);
      assert ReadStores(a[1..], phillyMode) == ReadStores(b[1..], phillyMode);
    }
  }

  /** A store with an unreadable field fails the whole array, unless an
      out-of-state store came before it. */
  lemma {:induction false} UnreadableStoreFailsParsing(pre: seq<Json>, item: Json, rest: seq<Json>, phillyMode: bool)
    requires AllReadableInState(pre)
    requires ReadLocation(item).None?
    ensures ReadStores(pre + [item] + rest, phillyMode) == None
    decreases |pre|
  {
    var a := pre + [item] + rest;
    if |pre| == 0 {
      assert a[0] == item && a[1..] == rest;
    } else {
      assert a[0] == pre[0];
      assert a[1..] == pre[1..] + [item] + rest;
      assert AllReadableInState(pre[1..]) by {
        assert forall j :: 0 <= j < |pre| - 1 ==> pre[1..][j] == pre[j + 1];
      }
      var first := ReadLocation(pre[0]);
      assert first.Some? && first.value.state == HomeState;
      UnreadableStoreFailsParsing(pre[1..], item, rest, phillyMode);
      assert ReadStores(a, phillyMode) == StoreThen(first, phillyMode, None);
    }
  }

  /** Conversely, a readable home-state store that matches the mode and is
      reached before any out-of-state store is kept whenever parsing
      succeeds. */
  lemma {:induction false} InScopeStoreKept(items: seq<Json>, phillyMode: bool, j: nat, loc: Location)
    requires j < |items| && AllReadableInState(items[..j])
    requires ReadLocation(items[j]) == Some(loc) && loc.state == HomeState && InPhillyScope(loc, phillyMode)
    requires ReadStores(items, phillyMode).Some?
    ensures loc in ReadStores(items, phillyMode).value
  {
    var rest := ReadStores(items[1..], phillyMode);
    if j == 0 {
      StoreThenKeeps(loc, phillyMode, rest);
    } else {
      ReadableTail(items, j);
      StoreThenKeeps(ReadLocation(items[0]).value, phillyMode, rest);
      assert items[1..][j - 1] == items[j];
      InScopeStoreKept(items[1..], phillyMode, j - 1, loc);
    }
  }

  /** Dropping the first of a readable home-state prefix leaves a readable
      home-state prefix, and that first store is readable and in the state. */
  lemma ReadableTail(items: seq<Json>, j: nat)
    requires 0 < j <= |items| && AllReadableInState(items[..j])
    ensures ReadLocation(items[0]).Some? && ReadLocation(items[0]).value.state == HomeState
    ensures AllReadableInState(items[1..][..j - 1])
  {
    assert items[..j][0] == items[0];
    assert items[1..][..j - 1] == items[..j][1..];
  }

  /** A home-state store followed by the rest of the array: the result keeps
      the rest's stores, and the store itself when it is in scope. */
  lemma StoreThenKeeps(loc: Location, phillyMode: bool, rest: Option<seq<Location>>)
    requires loc.state == HomeState && StoreThen(Some(loc), phillyMode, rest).Some?
    ensures rest.Some?
    ensures forall x :: x in rest.value ==> x in StoreThen(Some(loc), phillyMode, rest).value
    ensures InPhillyScope(loc, phillyMode) ==> loc in StoreThen(Some(loc), phillyMode, rest).value
  {
  }

  /** An array of readable home-state stores always parses. */
  lemma {:induction false} AllReadableParses(items: seq<Json>, phillyMode: bool)
    requires AllReadableInState(items)
    ensures ReadStores(items, phillyMode).Some?
  {
    if |items| > 0 {
      assert AllReadableInState(items[1..]) by {
        assert forall k :: 0 <= k < |items| - 1 ==> items[1..][k] == items[k + 1];
      }
      AllReadableParses(items[1..], phillyMode);
      assert ReadLocation(items[0]).Some? && ReadLocation(items[0]).value.state == HomeState;
    }
  }

  /** On an array of readable home-state stores, parsing keeps exactly the
      stores that match the mode. */
  lemma {:induction false} ReadableStoresExactly(items: seq<Json>, phillyMode: bool, loc: Location)
    requires AllReadableInState(items)
    ensures ReadStores(items, phillyMode).Some?
    ensures loc in ReadStores(items, phillyMode).value <==>
      (exists j :: 0 <= j < |items| && ReadLocation(items[j]) == Some(loc)) && InPhillyScope(loc, phillyMode)
  {
    AllReadableParses(items, phillyMode);
    if loc in ReadStores(items, phillyMode).value {
      ParsedStoresInScope(items, phillyMode, loc);
    }
    if exists j :: 0 <= j < |items| && ReadLocation(items[j]) == Some(loc) {
      var j :| 0 <= j < |items| && ReadLocation(items[j]) == Some(loc);
      if InPhillyScope(loc, phillyMode) {
        assert AllReadableInState(items[..j]) by {
          assert forall k :: 0 <= k < j ==> items[..j][k] == items[k];
        }
        InScopeStoreKept(items, phillyMode, j, loc);
      }
    }
  }

  /** Every store of `items` is readable and in the home state. */
  predicate AllReadableInState(items: seq<Json>)
  {
    forall j :: 0 <= j < |items| ==> ReadLocation(items[j]).Some? && ReadLocation(items[j]).value.state == HomeState
  }

  // ---------------------------------------------------------------------------
  // ParseStatus

  /** The slot flag `slot` of a status document: `Data.slots.<slot>`. */
  function SlotFlag(root: Option<Json>, slot: string): Option<bool>
  {
    match Field(Field(root, "Data"), "slots")
    case None => None
    case Some(slots) => ReadBool(slots, slot)
  }

  /** The store's availability: readable only when both slot flags are, and
      then true when either is. */
  function ParseStatus(root: Option<Json>): (available: Option<bool>)
    ensures available.Some? <==> SlotFlag(root, "1").Some? && SlotFlag(root, "2").Some?
    ensures available.Some? ==>
      (available.value <==> SlotFlag(root, "1") == Some(true) || SlotFlag(root, "2") == Some(true))
  {
    if root.None? then None
    else
      match GetObjectItem(root.value, "Data")
      case None => None
      case Some(dataObject) =>
        match GetObjectItem(dataObject, "slots")
        case None => None
        case Some(slots) =>
          match (ReadBool(slots, "1"), ReadBool(slots, "2"))
          case (Some(one), Some(two)) => Some(one || two)
          case _ => None
  }

  function SlotsDocument(one: bool, two: bool): Json
  {
    JObject([("Data", JObject([("slots", JObject([("1", JBool(one)), ("2", JBool(two))]))]))])
  }

  /** `{"Data":{"slots":{"1":a,"2":b}}}` reads as available exactly when a or
      b is true. */
  lemma SlotsExample(one: bool, two: bool)
    ensures ParseStatus(Some(SlotsDocument(one, two))) == Some(one || two)
  {
    var m := [("1", JBool(one)), ("2", JBool(two))];
    assert m[0].0 != "2";
    assert m[1..] == [("2", JBool(two))];
    assert Lookup(m[1..], "2") == Some(JBool(two));
    assert Lookup(m, "2") == Lookup(m[1..], "2");
    assert ReadBool(JObject(m), "1") == Some(one);
    assert ReadBool(JObject(m), "2") == Some(two);
  }

  // ---------------------------------------------------------------------------
  // The location cache

  predicate IsCached(cache: seq<Location>, storeNumber: nat)
  {
    exists k :: 0 <= k < |cache| && cache[k].storeNumber == storeNumber
  }

  predicate NoDuplicateStores(cache: seq<Location>)
  {
    forall i, j :: 0 <= i < j < |cache| ==> cache[i].storeNumber != cache[j].storeNumber
  }

  /** The cache after the stores of one search are merged into it, one by
      one, each appended unless its store number is already cached. */
  function Merge(cache: seq<Location>, data: seq<Location>): seq<Location>
  {
    if |data| == 0 then cache
    else
      var merged := Merge(cache, data[..|data| - 1]);
      var loc := data[|data| - 1];
      if IsCached(merged, loc.storeNumber) then merged else merged + [loc]
  }

  /** Merging keeps every cached entry where it was. */
  lemma {:induction false} MergeExtends(cache: seq<Location>, data: seq<Location>)
    ensures |cache| <= |Merge(cache, data)| && Merge(cache, data)[..|cache|] == cache
  {
    if |data| > 0 {
      MergeExtends(cache, data[..|data| - 1]);
    }
  }

  /** After merging, every store number of the search is cached. */
  lemma {:induction false} MergeCovers(cache: seq<Location>, data: seq<Location>, j: nat)
    requires j < |data|
    ensures IsCached(Merge(cache, data), data[j].storeNumber)
  {
    var init := data[..|data| - 1];
    var merged := Merge(cache, init);
    MergeExtends(merged, [data[|data| - 1]]);
    if j < |data| - 1 {
      MergeCovers(cache, init, j);
      assert init[j] == data[j];
      var k :| 0 <= k < |merged| && merged[k].storeNumber == data[j].storeNumber;
      assert Merge(cache, data)[k] == merged[k];
    } else if !IsCached(merged, data[j].storeNumber) {
      assert Merge(cache, data)[|merged|] == data[j];
    }
  }

  /** Merging into a cache without duplicates gives a cache without
      duplicates. */
  lemma {:induction false} MergeNoDuplicates(cache: seq<Location>, data: seq<Location>)
    requires NoDuplicateStores(cache)
    ensures NoDuplicateStores(Merge(cache, data))
  {
    if |data| > 0 {
      MergeNoDuplicates(cache, data[..|data| - 1]);
    }
  }

  /** First occurrence wins: every entry a merge appends is a store of the
      search whose number was neither cached before nor held by an earlier
      store of the same search. */
  lemma {:induction false} MergeFirstOccurrenceWins(cache: seq<Location>, data: seq<Location>, k: nat)
    requires |cache| <= k < |Merge(cache, data)|
    ensures exists j :: (0 <= j < |data| && Merge(cache, data)[k] == data[j]
      && !IsCached(cache, data[j].storeNumber)
      && forall j' :: 0 <= j' < j ==> data[j'].storeNumber != data[j].storeNumber)
  {
    var init := data[..|data| - 1];
    var merged := Merge(cache, init);
    var last := data[|data| - 1];
    MergeExtends(cache, init);
    if k < |merged| {
      MergeFirstOccurrenceWins(cache, init, k);
      var j :| 0 <= j < |init| && merged[k] == init[j]
        && !IsCached(cache, init[j].storeNumber)
        && forall j' :: 0 <= j' < j ==> init[j'].storeNumber != init[j].storeNumber;
      assert Merge(cache, data)[k] == merged[k];
      assert init[j] == data[j];
      assert forall j' :: 0 <= j' < j ==> init[j'] == data[j'];
    } else {
      assert !IsCached(merged, last.storeNumber) && Merge(cache, data)[k] == last;
      forall j' | 0 <= j' < |data| - 1
        ensures data[j'].storeNumber != last.storeNumber
      {
        MergeCovers(cache, init, j');
        assert init[j'] == data[j'];
      }
    }
  }

  /** The outcome of rebuilding the cache: `ok` is false when a store-finder
      GET failed, and `stores` holds what was merged until then. */
  datatype Rebuild = Rebuild(ok: bool, stores: seq<Location>)

  /** The cache rebuilt from the search locations, in order: a failed GET
      ends the rebuild; a response that does not parse is skipped. */
  function RebuildCache(locations: seq<string>, phillyMode: bool, get: Fetch, parse: Parser): Rebuild
  {
    if |locations| == 0 then Rebuild(true, [])
    else
      var previous := RebuildCache(locations[..|locations| - 1], phillyMode, get, parse);
      if !previous.ok then previous
      else
        match get(GetFindStoresURL(locations[|locations| - 1]))
        case None => Rebuild(false, previous.stores)
        case Some(body) =>
          match StoresFromResponse(parse(body), phillyMode)
          case None => previous
          case Some(data) => Rebuild(true, Merge(previous.stores, data))
  }

  /** Once a store-finder GET has failed, the later search locations are not
      queried: the rebuild ends with what it had. */
  lemma {:induction false} RebuildFailureEnds(locations: seq<string>, n: nat, phillyMode: bool, get: Fetch, parse: Parser)
    requires n <= |locations| && !RebuildCache(locations[..n], phillyMode, get, parse).ok
    ensures RebuildCache(locations, phillyMode, get, parse) == RebuildCache(locations[..n], phillyMode, get, parse)
  {
    if n == |locations| {
      assert locations[..n] == locations;
    } else {
      var init := locations[..|locations| - 1];
      assert init[..n] == locations[..n];
      RebuildFailureEnds(init, n, phillyMode, get, parse);
    }
  }

  /** A rebuilt cache, complete or not, never holds two entries for one store. */
  lemma {:induction false} RebuildNoDuplicates(locations: seq<string>, phillyMode: bool, get: Fetch, parse: Parser)
    ensures NoDuplicateStores(RebuildCache(locations, phillyMode, get, parse).stores)
  {
    if |locations| > 0 {
      var previous := RebuildCache(locations[..|locations| - 1], phillyMode, get, parse);
      RebuildNoDuplicates(locations[..|locations| - 1], phillyMode, get, parse);
      if previous.ok {
        var body := get(GetFindStoresURL(locations[|locations| - 1]));
        if body.Some? && StoresFromResponse(parse(body.value), phillyMode).Some? {
          MergeNoDuplicates(previous.stores, StoresFromResponse(parse(body.value), phillyMode).value);
        }
      }
    }
  }

  /** The cache test as written: rebuild when the cache is empty or when the
      last update time plus a day is still ahead of now. */
  predicate NeedsRebuild(cache: seq<Location>, cacheUpdatedTime: int, now: int)
  {
    |cache| == 0 || cacheUpdatedTime + Day > now
  }

  /** With the update time never assigned (it stays at the epoch), any time
      more than a day past the epoch rebuilds only an empty cache. */
  lemma NeverStaleAfterFirstDay(cache: seq<Location>, now: int)
    requires now >= Day
    ensures NeedsRebuild(cache, 0, now) <==> |cache| == 0
  {
  }

  // ---------------------------------------------------------------------------
  // The per-store check

  function InfoLine(store: Location): string
  {
    "Rite Aid Location Info:  " + store.address + ", " + store.city + ", " + store.state + " " + store.zip + "\n"
  }

  /** What happened to one cached store in a check. */
  datatype StoreCheck =
    | Postponed             // still inside its postponement window: skipped
    | Failed                // the status GET failed: the whole check ends
    | Unreadable            // the status document did not parse: skipped
    | Checked(available: bool)

  datatype StoreStep = StoreStep(store: Location, check: StoreCheck)

  /** One store of the check loop: a store whose window has passed is
      released first; an available store is postponed for ten periods. */
  function CheckStore(store: Location, now: int, checkPeriod: nat, get: Fetch, parse: Parser): StoreStep
  {
    if store.postponeChecking && !(now > store.postponedUntil) then StoreStep(store, Postponed)
    else
      var released := store.(postponeChecking := false);
      match get(GetStatusCheckURL(store.storeNumber))
      case None => StoreStep(released, Failed)
      case Some(body) =>
        match ParseStatus(parse(body))
        case None => StoreStep(released, Unreadable)
        case Some(available) =>
          if available then
            StoreStep(released.(postponeChecking := true, postponedUntil := now + PostponePeriods * checkPeriod),
                      Checked(true))
          else StoreStep(released, Checked(false))
  }

  /** A store keeps its identity through a check; only its postponement
      fields change. */
  predicate SameStore(a: Location, b: Location)
  {
    a.storeNumber == b.storeNumber && a.address == b.address && a.city == b.city
    && a.state == b.state && a.zip == b.zip
  }

  /** A store found available at time `now` is skipped, unchanged, at every
      time up to and including the end of its window, and is checked again at
      any later time. */
  lemma PostponementWindow(store: Location, now: int, later: int, checkPeriod: nat, get: Fetch, parse: Parser)
    requires CheckStore(store, now, checkPeriod, get, parse).check == Checked(true)
    ensures var marked := CheckStore(store, now, checkPeriod, get, parse).store;
      && marked.postponeChecking && marked.postponedUntil == now + PostponePeriods * checkPeriod
      && (later <= now + PostponePeriods * checkPeriod ==>
            CheckStore(marked, later, checkPeriod, get, parse) == StoreStep(marked, Postponed))
      && (later > now + PostponePeriods * checkPeriod ==>
            CheckStore(marked, later, checkPeriod, get, parse).check != Postponed)
  {
  }

  /** Each store's check, in cache order. */
  function Checks(stores: seq<Location>, now: int, checkPeriod: nat, get: Fetch, parse: Parser): (steps: seq<StoreStep>)
    ensures |steps| == |stores|
    ensures forall i :: 0 <= i < |stores| ==> steps[i] == CheckStore(stores[i], now, checkPeriod, get, parse)
  {
    if |stores| == 0 then []
    else [CheckStore(stores[0], now, checkPeriod, get, parse)] + Checks(stores[1..], now, checkPeriod, get, parse)
  }

  /** A check keeps each store's identity. */
  lemma CheckKeepsStore(store: Location, now: int, checkPeriod: nat, get: Fetch, parse: Parser)
    ensures SameStore(CheckStore(store, now, checkPeriod, get, parse).store, store)
  {
  }

  /** The result of the check loop over the cache: the updated stores, false
      `ok` when a status GET failed, whether a store was available before
      that, and one info line per available store. */
  datatype Sweep = Sweep(stores: seq<Location>, ok: bool, available: bool, message: string)

  /** The check loop over `stores`, given the outcome of each store's check. */
  function SweepOf(stores: seq<Location>, steps: seq<StoreStep>): Sweep
    requires |steps| == |stores|
  {
    if |stores| == 0 then Sweep([], true, false, "")
    else StepThen(steps[0], stores[1..], SweepOf(stores[1..], steps[1..]))
  }

  /** One store's check followed by the loop over `later`, whose result is
      `rest`: a failed GET leaves the later stores untouched. */
  function StepThen(step: StoreStep, later: seq<Location>, rest: Sweep): Sweep
  {
    if step.check.Failed? then Sweep([step.store] + later, false, false, "")
    else
      Sweep([step.store] + rest.stores, rest.ok, step.check == Checked(true) || rest.available,
            LineOf(step) + rest.message)
  }

  /** The info line a check adds to the message: one for an available store. */
  function LineOf(step: StoreStep): string
  {
    if step.check == Checked(true) then InfoLine(step.store) else ""
  }

  /** The check loop of `AppointmentsAvailable` over the cached stores. */
  function SweepStores(stores: seq<Location>, now: int, checkPeriod: nat, get: Fetch, parse: Parser): Sweep
  {
    SweepOf(stores, Checks(stores, now, checkPeriod, get, parse))
  }

  /** The check loop after stores with results `prefix`, `available` and
      `message` were handled, continued with `rest`. */
  function Resume(prefix: seq<Location>, available: bool, message: string, rest: Sweep): Sweep
  {
    Sweep(prefix + rest.stores, rest.ok, available || rest.available, message + rest.message)
  }

  /** The loop completes exactly when no status GET fails, and then it reports
      availability exactly when some store was checked available. */
  lemma {:induction false} SweepOfAvailableIff(stores: seq<Location>, steps: seq<StoreStep>)
    requires |steps| == |stores|
    ensures SweepOf(stores, steps).ok <==> forall i :: 0 <= i < |steps| ==> !steps[i].check.Failed?
    ensures SweepOf(stores, steps).ok ==>
      (SweepOf(stores, steps).available <==> exists i :: 0 <= i < |steps| && steps[i].check == Checked(true))
  {
    if |stores| > 0 {
      SweepOfAvailableIff(stores[1..], steps[1..]);
      assert forall i :: 1 <= i < |steps| ==> steps[1..][i - 1] == steps[i];
    }
  }

  /** The message is empty exactly when nothing was available. */
  lemma {:induction false} SweepOfMessageIffAvailable(stores: seq<Location>, steps: seq<StoreStep>)
    requires |steps| == |stores|
    ensures SweepOf(stores, steps).message == "" <==> !SweepOf(stores, steps).available
  {
    if |stores| > 0 {
      SweepOfMessageIffAvailable(stores[1..], steps[1..]);
      if steps[0].check == Checked(true) {
        assert |InfoLine(steps[0].store)| > 0;
      }
    }
  }

  /** Store by store: every store up to and including the first whose status
      GET failed holds the outcome of its own check (postponements made
      before the failure stay); the stores after it are untouched. */
  lemma {:induction false} SweepOfPointwise(stores: seq<Location>, steps: seq<StoreStep>, i: nat)
    requires |steps| == |stores| && i < |stores|
    ensures |SweepOf(stores, steps).stores| == |stores|
    ensures (forall j :: 0 <= j < i ==> !steps[j].check.Failed?) ==> SweepOf(stores, steps).stores[i] == steps[i].store
    ensures (exists j :: 0 <= j < i && steps[j].check.Failed?) ==> SweepOf(stores, steps).stores[i] == stores[i]
  {
    var rest := SweepOf(stores[1..], steps[1..]);
    var s := SweepOf(stores, steps);
    if |stores| > 1 {
      SweepOfPointwise(stores[1..], steps[1..], if i > 0 then i - 1 else 0);
    }
    if i > 0 {
      assert stores[1..][i - 1] == stores[i] && steps[1..][i - 1] == steps[i];
      assert forall j :: 0 < j < i ==> steps[1..][j - 1] == steps[j];
      if steps[0].check.Failed? {
        assert s.stores[i] == stores[1..][i - 1];
      } else {
        assert s.stores[i] == rest.stores[i - 1];
        if exists j :: 0 <= j < i && steps[j].check.Failed? {
          var j :| 0 <= j < i && steps[j].check.Failed?;
          assert steps[1..][j - 1].check.Failed?;
        }
      }
    }
  }

  /** A loop whose every step keeps its store's identity keeps every store's
      identity. */
  lemma {:induction false} SweepOfKeepsStores(stores: seq<Location>, steps: seq<StoreStep>)
    requires |steps| == |stores|
    requires forall i :: 0 <= i < |stores| ==> SameStore(steps[i].store, stores[i])
    ensures |SweepOf(stores, steps).stores| == |stores|
    ensures forall i :: 0 <= i < |stores| ==> SameStore(SweepOf(stores, steps).stores[i], stores[i])
  {
    if |stores| > 0 {
      var rest := SweepOf(stores[1..], steps[1..]);
      var s := SweepOf(stores, steps);
      assert forall i :: 1 <= i < |stores| ==> stores[1..][i - 1] == stores[i] && steps[1..][i - 1] == steps[i];
      SweepOfKeepsStores(stores[1..], steps[1..]);
      forall i | 1 <= i < |stores|
        ensures SameStore(s.stores[i], stores[i])
      {
        if !steps[0].check.Failed? {
          assert s.stores[i] == rest.stores[i - 1];
        }
      }
    }
  }

  /** The check loop completes exactly when no status GET fails, and then the
      target is available exactly when some store was checked available; the
      message is empty exactly when none was. */
  lemma SweepAvailableIff(stores: seq<Location>, now: int, checkPeriod: nat, get: Fetch, parse: Parser)
    ensures SweepStores(stores, now, checkPeriod, get, parse).ok <==>
      forall i :: 0 <= i < |stores| ==> !CheckStore(stores[i], now, checkPeriod, get, parse).check.Failed?
    ensures SweepStores(stores, now, checkPeriod, get, parse).ok ==>
      (SweepStores(stores, now, checkPeriod, get, parse).available <==>
        exists i :: 0 <= i < |stores| && CheckStore(stores[i], now, checkPeriod, get, parse).check == Checked(true))
    ensures SweepStores(stores, now, checkPeriod, get, parse).message == "" <==>
      !SweepStores(stores, now, checkPeriod, get, parse).available
  {
    var steps := Checks(stores, now, checkPeriod, get, parse);
    SweepOfAvailableIff(stores, steps);
    SweepOfMessageIffAvailable(stores, steps);
  }

  /** Store by store, the cache after the check loop (see SweepOfPointwise). */
  lemma SweepPointwise(stores: seq<Location>, now: int, checkPeriod: nat, get: Fetch, parse: Parser, i: nat)
    requires i < |stores|
    ensures |SweepStores(stores, now, checkPeriod, get, parse).stores| == |stores|
    ensures (forall j :: 0 <= j < i ==> !CheckStore(stores[j], now, checkPeriod, get, parse).check.Failed?) ==>
      SweepStores(stores, now, checkPeriod, get, parse).stores[i] == CheckStore(stores[i], now, checkPeriod, get, parse).store
    ensures (exists j :: 0 <= j < i && CheckStore(stores[j], now, checkPeriod, get, parse).check.Failed?) ==>
      SweepStores(stores, now, checkPeriod, get, parse).stores[i] == stores[i]
  {
    SweepOfPointwise(stores, Checks(stores, now, checkPeriod, get, parse), i);
  }

  /** A check changes no store's identity, so it keeps the cache free of
      duplicates. */
  lemma SweepKeepsNoDuplicates(stores: seq<Location>, now: int, checkPeriod: nat, get: Fetch, parse: Parser)
    requires NoDuplicateStores(stores)
    ensures NoDuplicateStores(SweepStores(stores, now, checkPeriod, get, parse).stores)
  {
    var steps := Checks(stores, now, checkPeriod, get, parse);
    forall i | 0 <= i < |stores|
      ensures SameStore(steps[i].store, stores[i])
    {
      CheckKeepsStore(stores[i], now, checkPeriod, get, parse);
    }
    SweepOfKeepsStores(stores, steps);
  }

  /** The body of the check loop for one store: release it if its window
      has passed, query its status, and postpone it when it is available. */
  method CheckStatus(store: Location, now: int, checkPeriod: nat, get: Fetch, parse: Parser)
    returns (updated: Location, check: StoreCheck)
    ensures StoreStep(updated, check) == CheckStore(store, now, checkPeriod, get, parse)
  {
    updated := store;
    if updated.postponeChecking {
      if now > updated.postponedUntil {
        updated := updated.(postponeChecking := false);
      } else {
        return updated, Postponed;
      }
    }
    var response := get(GetStatusCheckURL(updated.storeNumber));
    if response.None? {
      return updated, Failed;
    }
    var status := ParseStatus(parse(response.value));
    if status.None? {
      return updated, Unreadable;
    }
    if status.value {
      updated := updated.(postponeChecking := true, postponedUntil := now + checkPeriod * PostponePeriods);
    }
    check := Checked(status.value);
  }

  // ---------------------------------------------------------------------------
  // The target

  class RiteAidTarget {
    const base: FinderTarget
    /** The operator's search locations, fixed at construction. */
    const locations: seq<string>
    const phillyMode: bool
    var cachedLocations: seq<Location>
    var cacheUpdatedTime: int

    ghost predicate Valid()
      reads this
    {
      && base.name == "Rite Aid Checker"
      && base.foundAppointmentState == NormalCheck
      && NoDuplicateStores(cachedLocations)
    }

    constructor (url: string, locations: seq<string>, checkPeriod: nat, phillyMode: bool)
      ensures Valid() && fresh(base)
      ensures base.url == url && base.checkPeriod == checkPeriod
      ensures this.locations == locations && this.phillyMode == phillyMode
      ensures cachedLocations == [] && cacheUpdatedTime == 0
      ensures base.state == NormalCheck && !base.stop
      ensures base.history == [BeginMessage("Rite Aid Checker")] && base.notifications == []
    {
      base := new FinderTarget(url, checkPeriod, "Rite Aid Checker", NormalCheck);
      this.locations := locations;
      this.phillyMode := phillyMode;
      cachedLocations := [];
      cacheUpdatedTime := 0;
    }

    /** Clears the cache and rebuilds it from the search locations. */
    method UpdateCachedLocations(get: Fetch, parse: Parser) returns (ok: bool)
      modifies this`cachedLocations, base`history
      ensures Rebuild(ok, cachedLocations) == RebuildCache(locations, phillyMode, get, parse)
      ensures base.history == old(base.history) + (if ok then [] else ["Rite Aid get stores failed"])
    {
      cachedLocations := [];
      var i := 0;
      while i < |locations|
        invariant 0 <= i <= |locations|
        invariant RebuildCache(locations[..i], phillyMode, get, parse) == Rebuild(true, cachedLocations)
        invariant base.history == old(base.history)
      {
        assert locations[..i + 1][..i] == locations[..i];
        var response := get(GetFindStoresURL(locations[i]));
        if response.None? {
          base.SendLogMessage("Rite Aid get stores failed");
          assert locations[..i + 1][..i] == locations[..i];
          RebuildFailureEnds(locations, i + 1, phillyMode, get, parse);
          return false;
        }
        var parsed, data := ParseLocations(parse(response.value), phillyMode);
        if parsed {
          MergeIntoCache(data);
        }
        i := i + 1;
      }
      assert locations[..i] == locations;
      ok := true;
    }

    /** Appends each store of `data` whose number is not cached yet. */
    method MergeIntoCache(data: seq<Location>)
      modifies this`cachedLocations
      ensures cachedLocations == Merge(old(cachedLocations), data)
    {
      var j := 0;
      while j < |data|
        invariant 0 <= j <= |data|
        invariant cachedLocations == Merge(old(cachedLocations), data[..j])
      {
        assert data[..j + 1][..j] == data[..j];
        var alreadyCached := false;
        var k := 0;
        while k < |cachedLocations|
          invariant 0 <= k <= |cachedLocations|
          invariant !alreadyCached
          invariant forall m :: 0 <= m < k ==> cachedLocations[m].storeNumber != data[j].storeNumber
        {
          if cachedLocations[k].storeNumber == data[j].storeNumber {
            alreadyCached := true;
            break;
          }
          k := k + 1;
        }
        if !alreadyCached {
          cachedLocations := cachedLocations + [data[j]];
        }
        j := j + 1;
      }
      assert data[..j] == data;
    }

    /** The check loop over the cached stores. */
    method CheckStores(get: Fetch, parse: Parser, now: int) returns (ok: bool, available: bool, message: string)
      modifies this`cachedLocations, base`history
      ensures Sweep(cachedLocations, ok, available, message)
              == SweepStores(old(cachedLocations), now, base.checkPeriod, get, parse)
      ensures base.history == old(base.history) + (if ok then [] else ["Rite Aid check status failed"])
    {
      ghost var start := cachedLocations;
      ghost var steps := Checks(start, now, base.checkPeriod, get, parse);
      ok, available, message := true, false, "";
      assert start[0..] == start && steps[0..] == steps;
      assert [] + SweepOf(start, steps).stores == SweepOf(start, steps).stores;
      assert "" + SweepOf(start, steps).message == SweepOf(start, steps).message;
      var i := 0;
      while i < |cachedLocations|
        invariant 0 <= i <= |cachedLocations| == |start|
        invariant cachedLocations[i..] == start[i..]
        invariant SweepOf(start, steps) == Resume(cachedLocations[..i], available, message, SweepOf(start[i..], steps[i..]))
        invariant ok && base.history == old(base.history)
      {
        ghost var before := cachedLocations;
        assert before[i] == start[i] by {
          assert before[i..][0] == start[i..][0];
        }
        var store, check := CheckStatus(cachedLocations[i], now, base.checkPeriod, get, parse);
        assert StoreStep(store, check) == steps[i];
        cachedLocations := cachedLocations[i := store];
        ReplaceAt(before, start, i, store);
        if check.Failed? {
          base.SendLogMessage("Rite Aid check status failed");
          SweepFail(start, steps, i, before[..i], available, message);
          ok := false;
          return;
        }
        SweepAdvance(start, steps, i, before[..i], available, message);
        if check == Checked(true) {
          available := true;
          message := message + InfoLine(store);
        } else {
          assert message + "" == message;
        }
        i := i + 1;
      }
      assert start[i..] == [] && steps[i..] == [] && cachedLocations[..i] == cachedLocations;
      assert cachedLocations + [] == cachedLocations && message + "" == message;
    }

    /** The cache a check sweeps: rebuilt from the store locator when the
        cache is empty or due, otherwise `cache` as it stands. */
    function CacheToSweep(cache: seq<Location>, get: Fetch, parse: Parser, now: int): Rebuild
      reads this
    {
      if NeedsRebuild(cache, cacheUpdatedTime, now)
      then RebuildCache(locations, phillyMode, get, parse)
      else Rebuild(true, cache)
    }

    /** One check: refresh cookies with the base page, rebuild the cache when
        the test says so, then check the stores. */
    method AppointmentsAvailable(get: Fetch, parse: Parser, now: int, message: string)
      returns (available: bool, newMessage: string)
      requires Valid()
      modifies this`cachedLocations, base`history
      ensures Valid()
      ensures get(base.url).None? ==>
        && !available && newMessage == message && cachedLocations == old(cachedLocations)
        && base.history == old(base.history) + ["Rite Aid get failed"]
      ensures get(base.url).Some? ==>
        var rebuilt := CacheToSweep(old(cachedLocations), get, parse, now);
        && (!rebuilt.ok ==>
              && !available && newMessage == message && cachedLocations == rebuilt.stores
              && base.history == old(base.history) + ["Rite Aid get stores failed"])
        && (rebuilt.ok ==>
              var sweep := SweepStores(rebuilt.stores, now, base.checkPeriod, get, parse);
              && cachedLocations == sweep.stores
              && available == (sweep.ok && sweep.available)
              && newMessage == (if sweep.ok then sweep.message else message)
              && base.history == old(base.history) + (if sweep.ok then [] else ["Rite Aid check status failed"]))
    {
      var response := get(base.url);
      if response.None? {
        base.SendLogMessage("Rite Aid get failed");
        return false, message;
      }
      if |cachedLocations| == 0 || cacheUpdatedTime + Day > now {
        var updated := UpdateCachedLocations(get, parse);
        RebuildNoDuplicates(locations, phillyMode, get, parse);
        if !updated {
          return false, message;
        }
      }
      ghost var rebuilt := cachedLocations;
      var ok, anyAvailable, lines := CheckStores(get, parse, now);
      SweepKeepsNoDuplicates(rebuilt, now, base.checkPeriod, get, parse);
      if !ok {
        return false, message;
      }
      newMessage := lines;
      available := anyAvailable;
    }

    /** One iteration of the check loop, or nothing once a stop was asked. A
        success always returns to `NormalCheck`, so a Rite Aid target never
        takes the four-fold pause. */
    method Cycle(get: Fetch, parse: Parser, now: int) returns (ran: bool, sleep: nat)
      requires Valid()
      modifies this`cachedLocations, base`state, base`history, base`notifications
      ensures Valid()
      ensures ran == !base.stop
      ensures !ran ==> cachedLocations == old(cachedLocations) && base.state == old(base.state)
      ensures !ran ==> base.history == old(base.history) && base.notifications == old(base.notifications)
      ensures ran ==> base.state == NormalCheck && sleep == base.checkPeriod
      ensures ran ==>
        var rebuilt := CacheToSweep(old(cachedLocations), get, parse, now);
        var sweep := SweepStores(rebuilt.stores, now, base.checkPeriod, get, parse);
        var found := get(base.url).Some? && rebuilt.ok && sweep.ok && sweep.available;
        && (found ==> base.notifications == old(base.notifications) + [AppointmentInfo(base.url, sweep.message)])
        && (!found ==> base.notifications == old(base.notifications))
        && cachedLocations == (if get(base.url).None? then old(cachedLocations)
                               else if rebuilt.ok then sweep.stores else rebuilt.stores)
        && base.history == old(base.history) +
             (if get(base.url).None? then ["Rite Aid get failed"]
              else if !rebuilt.ok then ["Rite Aid get stores failed"]
              else if !sweep.ok then ["Rite Aid check status failed"]
              else if sweep.available then [FoundMessage, AppointmentInfo(base.url, sweep.message)]
              else [])
    {
      if base.stop {
        return false, 0;
      }
      var message := base.BeginCycle();
      var available;
      available, message := AppointmentsAvailable(get, parse, now, message);
      sleep := base.FinishCycle(available, message);
      ran := true;
    }
  }

  /** Writing the checked store back into the cache in place. */
  lemma ReplaceAt(cache: seq<Location>, start: seq<Location>, i: nat, store: Location)
    requires i < |cache| == |start| && cache[i..] == start[i..]
    ensures cache[i := store] == cache[..i] + [store] + start[i + 1..]
    ensures cache[i := store][..i + 1] == cache[..i] + [store]
    ensures cache[i := store][i + 1..] == start[i + 1..]
  {
    assert cache[i + 1..] == cache[i..][1..];
  }

  /** The loop at store `i`, unfolded by one store. */
  lemma SweepOfAt(stores: seq<Location>, steps: seq<StoreStep>, i: nat)
    requires |steps| == |stores| && i < |stores|
    ensures SweepOf(stores[i..], steps[i..]) == StepThen(steps[i], stores[i + 1..], SweepOf(stores[i + 1..], steps[i + 1..]))
  {
    assert stores[i..][0] == stores[i] && stores[i..][1..] == stores[i + 1..];
    assert steps[i..][0] == steps[i] && steps[i..][1..] == steps[i + 1..];
  }

  /** Resuming after a store that did not fail: its outcome joins the
      handled prefix. */
  lemma ResumeThen(prefix: seq<Location>, available: bool, message: string,
                   step: StoreStep, later: seq<Location>, rest: Sweep)
    requires !step.check.Failed?
    ensures Resume(prefix, available, message, StepThen(step, later, rest))
            == Resume(prefix + [step.store], available || step.check == Checked(true), message + LineOf(step), rest)
  {
    assert prefix + ([step.store] + rest.stores) == (prefix + [step.store]) + rest.stores;
    assert message + (LineOf(step) + rest.message) == (message + LineOf(step)) + rest.message;
  }

  /** The loop after a store that did not fail. */
  lemma SweepAdvance(stores: seq<Location>, steps: seq<StoreStep>, i: nat, prefix: seq<Location>,
                     available: bool, message: string)
    requires |steps| == |stores| && i < |stores| && !steps[i].check.Failed?
    ensures Resume(prefix, available, message, SweepOf(stores[i..], steps[i..]))
            == Resume(prefix + [steps[i].store], available || steps[i].check == Checked(true),
                      message + LineOf(steps[i]), SweepOf(stores[i + 1..], steps[i + 1..]))
  {
    SweepOfAt(stores, steps, i);
    ResumeThen(prefix, available, message, steps[i], stores[i + 1..], SweepOf(stores[i + 1..], steps[i + 1..]));
  }

  /** The loop at a store whose status GET failed: it ends there. */
  lemma SweepFail(stores: seq<Location>, steps: seq<StoreStep>, i: nat, prefix: seq<Location>,
                  available: bool, message: string)
    requires |steps| == |stores| && i < |stores| && steps[i].check.Failed?
    ensures Resume(prefix, available, message, SweepOf(stores[i..], steps[i..]))
            == Sweep(prefix + [steps[i].store] + stores[i + 1..], false, available, message)
  {
    SweepOfAt(stores, steps, i);
    assert prefix + ([steps[i].store] + stores[i + 1..]) == prefix + [steps[i].store] + stores[i + 1..];
    assert message + "" == message;
  }
}
