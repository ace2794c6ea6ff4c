/** The CVS checker: fetch the base page (cookies), fetch the Pennsylvania
    status document, and evaluate its `PA` array against the upper-cased
    exclude list. */
module Cvs {
  import opened Wrappers
  import opened Json
  import opened StdText
  import opened FinderTargets

  const StatusUrl := "https://www.cvs.com/immunizations/covid-19-vaccine.vaccine-status.PA.json?vaccineinfo"
  const FullyBooked := "Fully Booked"

  /** Upper-cases every entry of a copy of the list, in place. */
  method MakeListAllCaps(list: seq<string>) returns (ucList: seq<string>)
    ensures |ucList| == |list|
    ensures forall i :: 0 <= i < |list| ==> ucList[i] == ToUpper(list[i])
  {
    ucList := list;
    var i := 0;
    while i < |ucList|
      invariant 0 <= i <= |ucList| == |list|
      invariant forall k :: 0 <= k < i ==> ucList[k] == ToUpper(list[k])
      invariant forall k :: i <= k < |ucList| ==> ucList[k] == list[k]
    {
      ucList := ucList[i := ToUpper(ucList[i])];
      i := i + 1;
    }
  }

  /** What the status document says before its entries are looked at. */
  datatype Payload =
    | Malformed                   // a required node is missing or unreadable
    | BookingCompleted            // booking is closed: no availability, no error
    | Open(entries: seq<Json>)    // the children of `data.PA`

  function ReadPayload(root: Option<Json>): Payload
  {
    match Field(root, "responsePayloadData")
    case None => Malformed
    case Some(payload) =>
      match ReadBool(payload, "isBookingCompleted")
      case None => Malformed
      case Some(true) => BookingCompleted
      case Some(false) =>
        match GetObjectItem(payload, "data")
        case None => Malformed
        case Some(data) =>
          match GetObjectItem(data, "PA")
          case None => Malformed
          case Some(pa) => Open(Children(pa))
  }

  /** The city a PA entry contributes, or None when the entry is skipped:
      its status is unreadable or exactly "Fully Booked", or its city is
      unreadable. Any other status counts as open. */
  function EntryCity(entry: Json): Option<string>
  {
    match ReadString(entry, "status")
    case None => None
    case Some(status) => if status == FullyBooked then None else ReadString(entry, "city")
  }

  /** The cities of the entries that are not skipped, in array order. */
  function Discovered(entries: seq<Json>): seq<string>
  {
    if |entries| == 0 then []
    else
      var last := EntryCity(entries[|entries| - 1]);
      Discovered(entries[..|entries| - 1]) + (if last.Some? then [last.value] else [])
  }

  /** The discovered cities that are not in the exclude list, in array order. */
  function Reported(entries: seq<Json>, exclude: seq<string>): seq<string>
  {
    if |entries| == 0 then []
    else
      var last := EntryCity(entries[|entries| - 1]);
      Reported(entries[..|entries| - 1], exclude)
        + (if last.Some? && last.value !in exclude then [last.value] else [])
  }

  /** One line per city. */
  function CityLines(cities: seq<string>): string
  {
    if |cities| == 0 then "" else CityLines(cities[..|cities| - 1]) + cities[|cities| - 1] + "\n"
  }

  /** Evaluates a status document. `ok` is false when a required node is
      missing; when booking is completed nothing is added or posted;
      otherwise every open entry's city is collected and posted, and each one
      not excluded makes the target available and adds a line. */
  method ParseResponse(root: Option<Json>, excludeLocations: seq<string>, message: string)
    returns (ok: bool, appointmentsAvailable: bool, newMessage: string, posted: Option<seq<string>>)
    ensures ok <==> !ReadPayload(root).Malformed?
    ensures !ReadPayload(root).Open? ==>
      !appointmentsAvailable && newMessage == message && posted == None
    ensures ReadPayload(root).Open? ==>
      var entries := ReadPayload(root).entries;
      && posted == Some(Discovered(entries))
      && appointmentsAvailable == (Reported(entries, excludeLocations) != [])
      && newMessage == message + CityLines(Reported(entries, excludeLocations))
  {
    appointmentsAvailable := false;
    newMessage := message;
    posted := None;
    ok := false;
    if root.None? {
      return;
    }
    var payload := GetObjectItem(root.value, "responsePayloadData");
    if payload.None? {
      return;
    }
    var bookingComplete := ReadBool(payload.value, "isBookingCompleted");
    if bookingComplete.None? {
      return;
    }
    if bookingComplete.value {
      ok := true;
      return;
    }
    var data := GetObjectItem(payload.value, "data");
    if data.None? {
      return;
    }
    var paLocations := GetObjectItem(data.value, "PA");
    if paLocations.None? {
      return;
    }

    var entries := Children(paLocations.value);
    assert ReadPayload(root) == Open(entries);
    var locations;
    appointmentsAvailable, newMessage, locations := EvaluateEntries(entries, excludeLocations, message);
    posted := Some(locations);
    ok := true;
  }

  /** The loop over the `PA` entries of `ParseResponse`: skips the entries
      without a city to count, collects the others' cities, and adds a line
      for each one not excluded. */
  method EvaluateEntries(entries: seq<Json>, excludeLocations: seq<string>, message: string)
    returns (appointmentsAvailable: bool, newMessage: string, locations: seq<string>)
    ensures locations == Discovered(entries)
    ensures appointmentsAvailable == (Reported(entries, excludeLocations) != [])
    ensures newMessage == message + CityLines(Reported(entries, excludeLocations))
  {
    appointmentsAvailable := false;
    newMessage := message;
    locations := [];
    var i := 0;
    while i < |entries|
      invariant 0 <= i <= |entries|
      invariant locations == Discovered(entries[..i])
      invariant appointmentsAvailable == (Reported(entries[..i], excludeLocations) != [])
      invariant newMessage == message + CityLines(Reported(entries[..i], excludeLocations))
    {
      var status := ReadString(entries[i], "status");
      var city := ReadString(entries[i], "city");
      EntriesStep(entries, i, excludeLocations);
      if status.Some? && status.value != FullyBooked && city.Some? {
        locations := locations + [city.value];
        if city.value !in excludeLocations {
          CityLinesStep(Reported(entries[..i], excludeLocations), city.value);
          AppendAssociative(message, CityLines(Reported(entries[..i], excludeLocations)), city.value + "\n");
          appointmentsAvailable := true;
          newMessage := newMessage + (city.value + "\n");
        }
      }
      i := i + 1;
    }
    assert entries[..i] == entries;
  }

  /** How one more entry extends the folds. */
  lemma EntriesStep(entries: seq<Json>, i: nat, exclude: seq<string>)
    requires i < |entries|
    ensures EntryCity(entries[i]).Some? ==>
      Discovered(entries[..i + 1]) == Discovered(entries[..i]) + [EntryCity(entries[i]).value]
    ensures EntryCity(entries[i]).None? ==> Discovered(entries[..i + 1]) == Discovered(entries[..i])
    ensures EntryCity(entries[i]).Some? && EntryCity(entries[i]).value !in exclude ==>
      Reported(entries[..i + 1], exclude) == Reported(entries[..i], exclude) + [EntryCity(entries[i]).value]
    ensures EntryCity(entries[i]).None? || EntryCity(entries[i]).value in exclude ==>
      Reported(entries[..i + 1], exclude) == Reported(entries[..i], exclude)
  {
    var prefix := entries[..i + 1];
    assert prefix[..|prefix| - 1] == entries[..i];
    assert prefix[|prefix| - 1] == entries[i];
    var d := Discovered(entries[..i]);
    var r := Reported(entries[..i], exclude);
    assert d + [] == d;
    assert r + [] == r;
  }

  lemma AppendAssociative(a: string, b: string, c: string)
    ensures (a + b) + c == a + (b + c)
  {
  }

  lemma CityLinesStep(cities: seq<string>, city: string)
    ensures CityLines(cities + [city]) == CityLines(cities) + (city + "\n")
  {
    var c := cities + [city];
    assert c[..|c| - 1] == cities;
  }

  // ---------------------------------------------------------------------------
  // Properties of the evaluation

  /** The discovered cities of an array with one more entry. */
  lemma DiscoveredSnoc(init: seq<Json>, entry: Json)
    ensures Discovered(init + [entry]) == Discovered(init) + (if EntryCity(entry).Some? then [EntryCity(entry).value] else [])
  {
    assert (init + [entry])[..|init|] == init;
  }

  /** The reported cities of an array with one more entry. */
  lemma ReportedSnoc(init: seq<Json>, entry: Json, exclude: seq<string>)
    ensures Reported(init + [entry], exclude) == Reported(init, exclude)
      + (if EntryCity(entry).Some? && EntryCity(entry).value !in exclude then [EntryCity(entry).value] else [])
  {
    assert (init + [entry])[..|init|] == init;
  }

  lemma {:induction false} DiscoveredAppend(a: seq<Json>, b: seq<Json>)
    ensures Discovered(a + b) == Discovered(a) + Discovered(b)
    decreases |b|
  {
    if |b| > 0 {
      var init, entry := b[..|b| - 1], b[|b| - 1];
      assert b == init + [entry];
      assert a + b == (a + init) + [entry];
      DiscoveredSnoc(a + init, entry);
      DiscoveredSnoc(init, entry);
      DiscoveredAppend(a, init);
    } else {
      assert a + b == a;
    }
  }

  lemma {:induction false} ReportedAppend(a: seq<Json>, b: seq<Json>, exclude: seq<string>)
    ensures Reported(a + b, exclude) == Reported(a, exclude) + Reported(b, exclude)
    decreases |b|
  {
    if |b| > 0 {
      var init, entry := b[..|b| - 1], b[|b| - 1];
      assert b == init + [entry];
      assert a + b == (a + init) + [entry];
      ReportedSnoc(a + init, entry, exclude);
      ReportedSnoc(init, entry, exclude);
      ReportedAppend(a, init, exclude);
    } else {
      assert a + b == a;
    }
  }

  /** A "Fully Booked" entry contributes neither a discovered city, nor a
      reported one: the result is that of the array without it. */
  lemma FullyBookedEntryIgnored(pre: seq<Json>, entry: Json, post: seq<Json>, exclude: seq<string>)
    requires ReadString(entry, "status") == Some(FullyBooked)
    ensures Discovered(pre + [entry] + post) == Discovered(pre + post)
    ensures Reported(pre + [entry] + post, exclude) == Reported(pre + post, exclude)
  {
    DiscoveredDropsSkipped(pre, entry, post);
    ReportedDropsSkipped(pre, entry, post, exclude);
  }

  /** An entry without a city to count can be dropped from the array. */
  lemma DiscoveredDropsSkipped(pre: seq<Json>, entry: Json, post: seq<Json>)
    requires EntryCity(entry).None?
    ensures Discovered(pre + [entry] + post) == Discovered(pre + post)
  {
    var withSkipped := pre + [entry];
    assert withSkipped[..|withSkipped| - 1] == pre;
    assert Discovered(withSkipped) == Discovered(pre) + [];
    assert Discovered(pre) + [] == Discovered(pre);
    DiscoveredAppend(withSkipped, post);
    DiscoveredAppend(pre, post);
  }

  lemma ReportedDropsSkipped(pre: seq<Json>, entry: Json, post: seq<Json>, exclude: seq<string>)
    requires EntryCity(entry).None?
    ensures Reported(pre + [entry] + post, exclude) == Reported(pre + post, exclude)
  {
    var withSkipped := pre + [entry];
    assert withSkipped[..|withSkipped| - 1] == pre;
    assert Reported(withSkipped, exclude) == Reported(pre, exclude) + [];
    assert Reported(pre, exclude) + [] == Reported(pre, exclude);
    ReportedAppend(withSkipped, post, exclude);
    ReportedAppend(pre, post, exclude);
  }

  /** Some entry of the array contributes `city`. */
  predicate Contributes(entries: seq<Json>, city: string)
  {
    exists i :: 0 <= i < |entries| && EntryCity(entries[i]) == Some(city)
  }

  lemma ContributesStep(init: seq<Json>, entry: Json, city: string)
    ensures Contributes(init + [entry], city) <==> Contributes(init, city) || EntryCity(entry) == Some(city)
  {
    var entries := init + [entry];
    if Contributes(init, city) {
      var i :| 0 <= i < |init| && EntryCity(init[i]) == Some(city);
      assert entries[i] == init[i];
    }
    if EntryCity(entry) == Some(city) {
      assert entries[|init|] == entry;
    }
    if Contributes(entries, city) && EntryCity(entry) != Some(city) {
      var i :| 0 <= i < |entries| && EntryCity(entries[i]) == Some(city);
      assert i < |init| && init[i] == entries[i];
    }
  }

  /** A city is discovered exactly when some entry contributes it. */
  lemma {:induction false} DiscoveredMembership(entries: seq<Json>, city: string)
    ensures city in Discovered(entries) <==> Contributes(entries, city)
  {
    if |entries| > 0 {
      var init := entries[..|entries| - 1];
      var last := EntryCity(entries[|entries| - 1]);
      var tail := if last.Some? then [last.value] else [];
      assert Discovered(entries) == Discovered(init) + tail;
      DiscoveredMembership(init, city);
      assert entries == init + [entries[|entries| - 1]];
      ContributesStep(init, entries[|entries| - 1], city);
    }
  }

  /** A city is reported exactly when some entry contributes it and it is not
      in the exclude list. */
  lemma {:induction false} ReportedMembership(entries: seq<Json>, exclude: seq<string>, city: string)
    ensures city in Reported(entries, exclude) <==> city !in exclude && Contributes(entries, city)
  {
    if |entries| > 0 {
      var init := entries[..|entries| - 1];
      var last := EntryCity(entries[|entries| - 1]);
      var tail := if last.Some? && last.value !in exclude then [last.value] else [];
      assert Reported(entries, exclude) == Reported(init, exclude) + tail;
      ReportedMembership(init, exclude, city);
      assert entries == init + [entries[|entries| - 1]];
      ContributesStep(init, entries[|entries| - 1], city);
    }
  }

  /** The target is available exactly when some entry contributes a city that
      is not excluded. */
  lemma {:induction false} AvailableIffOpenCity(entries: seq<Json>, exclude: seq<string>)
    ensures Reported(entries, exclude) != [] <==>
      exists i :: 0 <= i < |entries| && EntryCity(entries[i]).Some? && EntryCity(entries[i]).value !in exclude
  {
    if |entries| > 0 {
      var init := entries[..|entries| - 1];
      AvailableIffOpenCity(init, exclude);
      assert forall i :: 0 <= i < |init| ==> init[i] == entries[i];
    }
  }

  /** Any readable status other than "Fully Booked", however unfamiliar,
      makes the entry's city count: a not-excluded city is reported, and the
      city is discovered whether excluded or not. */
  lemma UnknownStatusCounts(entries: seq<Json>, i: nat, exclude: seq<string>, status: string, city: string)
    requires i < |entries|
    requires ReadString(entries[i], "status") == Some(status) && status != FullyBooked
    requires ReadString(entries[i], "city") == Some(city)
    ensures city in Discovered(entries)
    ensures city !in exclude ==> city in Reported(entries, exclude)
  {
    DiscoveredMembership(entries, city);
    ReportedMembership(entries, exclude, city);
  }

  /** Exclusion compares the city, as received, with the upper-cased exclude
      entries: a city is excluded exactly when it equals the upper-casing of
      some entry the operator gave. */
  lemma ExcludedIffUpperCasedEntry(city: string, list: seq<string>, ucList: seq<string>)
    requires |ucList| == |list|
    requires forall i :: 0 <= i < |list| ==> ucList[i] == ToUpper(list[i])
    ensures city in ucList <==> exists i :: 0 <= i < |list| && ToUpper(list[i]) == city
  {
  }

  /** So a city holding a lower-case letter is never excluded, whatever the
      operator typed. */
  lemma MixedCaseCityNeverExcluded(city: string, k: nat, list: seq<string>, ucList: seq<string>)
    requires |ucList| == |list|
    requires forall i :: 0 <= i < |list| ==> ucList[i] == ToUpper(list[i])
    requires k < |city| && 'a' <= city[k] <= 'z'
    ensures city !in ucList
  {
  }

  // ---------------------------------------------------------------------------
  // The worked example: one fully booked and one open Pennsylvania entry

  function ExampleEntry(status: string, city: string): Json
  {
    JObject([("status", JString(status)), ("city", JString(city))])
  }

  const ExampleEntries := [ExampleEntry("Fully Booked", "PITTSBURGH"), ExampleEntry("Available", "PHILADELPHIA")]

  function ExampleDocument(): Json
  {
    JObject([("responsePayloadData", JObject([
      ("isBookingCompleted", JBool(false)),
      ("data", JObject([("PA", JArray(ExampleEntries))]))]))])
  }

  lemma ExampleEntryReads(status: string, city: string)
    ensures ReadString(ExampleEntry(status, city), "status") == Some(status)
    ensures ReadString(ExampleEntry(status, city), "city") == Some(city)
  {
    var m := [("status", JString(status)), ("city", JString(city))];
    assert m[0].0 != "city";
    assert m[1..] == [("city", JString(city))];
    assert Lookup(m[1..], "city") == Some(JString(city));
    assert Lookup(m, "city") == Lookup(m[1..], "city");
  }

  lemma ExampleDocumentIsOpen()
    ensures ReadPayload(Some(ExampleDocument())) == Open(ExampleEntries)
  {
    var data := JObject([("PA", JArray(ExampleEntries))]);
    var payloadMembers := [("isBookingCompleted", JBool(false)), ("data", data)];
    assert GetObjectItem(ExampleDocument(), "responsePayloadData") == Some(JObject(payloadMembers));
    assert payloadMembers[0].0 != "data";
    assert payloadMembers[1..] == [("data", data)];
    assert Lookup(payloadMembers[1..], "data") == Some(data);
    assert Lookup(payloadMembers, "data") == Lookup(payloadMembers[1..], "data");
    assert GetObjectItem(JObject(payloadMembers), "data") == Some(data);
    assert GetObjectItem(data, "PA") == Some(JArray(ExampleEntries));
  }

  lemma ExampleCities()
    ensures EntryCity(ExampleEntries[0]) == None
    ensures EntryCity(ExampleEntries[1]) == Some("PHILADELPHIA")
  {
    ExampleEntryReads("Fully Booked", "PITTSBURGH");
    ExampleEntryReads("Available", "PHILADELPHIA");
    assert "Available" != FullyBooked;
  }

  /** A skipped entry followed by an open one: only the open city is
      discovered, and it is reported unless excluded. */
  lemma SkippedThenOpen(skipped: Json, open: Json, city: string, exclude: seq<string>)
    requires EntryCity(skipped).None? && EntryCity(open) == Some(city)
    ensures Discovered([skipped, open]) == [city]
    ensures Reported([skipped, open], exclude) == if city in exclude then [] else [city]
  {
    var entries := [skipped, open];
    assert entries[..1] == [skipped] && entries[..1][..0] == [];
    assert Discovered(entries[..1]) == [];
    assert Reported(entries[..1], exclude) == [];
  }

  /** With no exclusions the open city is reported and is the only one
      discovered: the fully booked city is skipped before its name is read. */
  lemma ExampleWithoutExclusions()
    ensures Discovered(ExampleEntries) == ["PHILADELPHIA"]
    ensures Reported(ExampleEntries, []) == ["PHILADELPHIA"]
    ensures CityLines(Reported(ExampleEntries, [])) == "PHILADELPHIA\n"
  {
    ExampleCities();
    SkippedThenOpen(ExampleEntries[0], ExampleEntries[1], "PHILADELPHIA", []);
    assert [ExampleEntries[0], ExampleEntries[1]] == ExampleEntries;
    CityLinesStep([], "PHILADELPHIA");
    assert [] + ["PHILADELPHIA"] == ["PHILADELPHIA"];
  }

  /** The operator's "Philadelphia" as the target stores it. */
  lemma PhiladelphiaUpperCased(entry: string)
    requires entry == "Philadelphia"
    ensures ToUpper(entry) == "PHILADELPHIA"
  {
    var caps := ToUpper(entry);
    assert caps[0] == UpperChar('P') == 'P';
    assert caps[1] == UpperChar('h') == 'H';
    assert caps[2] == UpperChar('i') == 'I';
    assert caps[3] == UpperChar('l') == 'L';
    assert caps[4] == UpperChar('a') == 'A';
    assert caps[5] == UpperChar('d') == 'D';
    assert caps[6] == UpperChar('e') == 'E';
    assert caps[7] == UpperChar('l') == 'L';
    assert caps[8] == UpperChar('p') == 'P';
    assert caps[9] == UpperChar('h') == 'H';
    assert caps[10] == UpperChar('i') == 'I';
    assert caps[11] == UpperChar('a') == 'A';
  }

  /** Excluding "Philadelphia", which the target stores upper-cased as
      "PHILADELPHIA" (PhiladelphiaUpperCased), leaves nothing to report, while
      the discovered list is unchanged. */
  lemma ExampleWithPhiladelphiaExcluded()
    ensures Discovered(ExampleEntries) == ["PHILADELPHIA"]
    ensures Reported(ExampleEntries, ["PHILADELPHIA"]) == []
  {
    ExampleCities();
    var exclude := ["PHILADELPHIA"];
    assert "PHILADELPHIA" in exclude;
    SkippedThenOpen(ExampleEntries[0], ExampleEntries[1], "PHILADELPHIA", exclude);
    assert [ExampleEntries[0], ExampleEntries[1]] == ExampleEntries;
  }

  /** A document with booking completed reports nothing, whatever its data. */
  lemma BookingCompletedIgnoresData(data: Json)
    ensures ReadPayload(Some(JObject([("responsePayloadData", JObject([
      ("isBookingCompleted", JBool(true)), ("data", data)]))]))) == BookingCompleted
  {
  }

  // ---------------------------------------------------------------------------
  // The target

  class CvsTarget {
    const base: FinderTarget
    /** The operator's exclude list, upper-cased once at construction. */
    const excludeLocations: seq<string>
    /** The city lists sent to the locations sink, oldest first. */
    ghost var postedLocations: seq<seq<string>>

    ghost predicate Valid()
    {
      base.name == "CVS" && base.foundAppointmentState == DefaultFoundAppointmentState
    }

    constructor (url: string, checkPeriod: nat, excludeLocations: seq<string>)
      ensures Valid() && fresh(base)
      ensures base.url == url && base.checkPeriod == checkPeriod
      ensures |this.excludeLocations| == |excludeLocations|
      ensures forall i :: 0 <= i < |excludeLocations| ==> this.excludeLocations[i] == ToUpper(excludeLocations[i])
      ensures base.state == NormalCheck && !base.stop
      ensures base.history == [BeginMessage("CVS")] && base.notifications == []
      ensures postedLocations == []
    {
      var ucList := MakeListAllCaps(excludeLocations);
      base := new FinderTarget(url, checkPeriod, "CVS", DefaultFoundAppointmentState);
      this.excludeLocations := ucList;
      postedLocations := [];
    }

    /** One check: two GETs, each logged and reported false on failure, then
        the status document decides. */
    method AppointmentsAvailable(get: Fetch, parse: Parser, message: string)
      returns (available: bool, newMessage: string)
      modifies base`history, this`postedLocations
      ensures get(base.url).None? ==>
        && !available && newMessage == message
        && base.history == old(base.history) + ["CVS base get failed"]
        && postedLocations == old(postedLocations)
      ensures get(base.url).Some? && get(StatusUrl).None? ==>
        && !available && newMessage == message
        && base.history == old(base.history) + ["CVS get status failed"]
        && postedLocations == old(postedLocations)
      ensures get(base.url).Some? && get(StatusUrl).Some? ==>
        var payload := ReadPayload(parse(get(StatusUrl).value));
        && base.history == old(base.history)
        && (!payload.Open? ==>
              !available && newMessage == message && postedLocations == old(postedLocations))
        && (payload.Open? ==>
              && available == (Reported(payload.entries, excludeLocations) != [])
              && newMessage == message + CityLines(Reported(payload.entries, excludeLocations))
              && postedLocations == old(postedLocations) + [Discovered(payload.entries)])
    {
      var response := get(base.url);
      if response.None? {
        base.SendLogMessage("CVS base get failed");
        return false, message;
      }
      response := get(StatusUrl);
      if response.None? {
        base.SendLogMessage("CVS get status failed");
        return false, message;
      }
      var ok, appointmentsAvailable, posted;
      ok, appointmentsAvailable, newMessage, posted := ParseResponse(parse(response.value), excludeLocations, message);
      if posted.Some? {
        postedLocations := postedLocations + [posted.value];
      }
      available := ok && appointmentsAvailable;
    }

    /** One iteration of the check loop, or nothing once a stop was asked. A
        success takes the default four-fold pause. */
    method Cycle(get: Fetch, parse: Parser) returns (ran: bool, sleep: nat)
      requires Valid()
      modifies base`state, base`history, base`notifications, this`postedLocations
      ensures Valid()
      ensures ran == !base.stop
      ensures !ran ==> base.state == old(base.state) && postedLocations == old(postedLocations)
      ensures !ran ==> base.history == old(base.history) && base.notifications == old(base.notifications)
      ensures ran ==>
        var open := get(base.url).Some? && get(StatusUrl).Some? && ReadPayload(parse(get(StatusUrl).value)).Open?;
        var entries := if open then ReadPayload(parse(get(StatusUrl).value)).entries else [];
        var reported := Reported(entries, excludeLocations);
        && (reported != [] ==>
              base.notifications == old(base.notifications) + [AppointmentInfo(base.url, CityLines(reported))])
        && (reported == [] ==> base.notifications == old(base.notifications))
        && postedLocations == old(postedLocations) + (if open then [Discovered(entries)] else [])
        && base.history == old(base.history) +
             (if get(base.url).None? then ["CVS base get failed"]
              else if get(StatusUrl).None? then ["CVS get status failed"]
              else if reported != [] then [FoundMessage, AppointmentInfo(base.url, CityLines(reported))]
              else [])
      ensures ran ==> (base.state == FoundAppointmentDelay <==> |base.notifications| == |old(base.notifications)| + 1)
      ensures ran ==> sleep == if base.state == NormalCheck then base.checkPeriod
                               else FoundAppointmentDelayFactor * base.checkPeriod
    {
      if base.stop {
        return false, 0;
      }
      var message := base.BeginCycle();
      var available;
      available, message := AppointmentsAvailable(get, parse, message);
      ghost var open := get(base.url).Some? && get(StatusUrl).Some? && ReadPayload(parse(get(StatusUrl).value)).Open?;
      ghost var entries := if open then ReadPayload(parse(get(StatusUrl).value)).entries else [];
      ghost var reported := Reported(entries, excludeLocations);
      if !open {
        assert reported == [];
      }
      assert available == (reported != []) && (available ==> message == CityLines(reported));
      sleep := base.FinishCycle(available, message);
      ran := true;
    }
  }
}
