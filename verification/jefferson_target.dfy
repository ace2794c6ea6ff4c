/** The Jefferson Health checker: fetch the clinic page and count the
    "registration is full" statements on it. */
module Jefferson {
  import opened Wrappers
  import opened StdText
  import opened FinderTargets

  const RegistrationFull := "Registration is currently full at this location."

  /** The page lists several registration blocks; fewer "full" statements
      than this means at least one block is open. */
  const FullStatementLimit: nat := 3

  /** The count the checker compares with the limit: occurrences of the
      phrase starting at index 1 or later (the first search starts one past
      index 0). */
  function CountedStatements(html: string): nat
  {
    CountFrom(html, RegistrationFull, 1)
  }

  /** Counts the phrase with repeated searches, each starting one past the
      previous match, and reports whether fewer than three were found. */
  method DoesNotHaveThreeRegistrationFullStatements(html: string) returns (r: bool)
    ensures r <==> CountFrom(html, RegistrationFull, 1) < FullStatementLimit
  {
    var position: nat := 0;
    var count: nat := 0;
    var searching := true;
    while searching
      invariant position <= |html|
      invariant searching ==> count + CountFrom(html, RegistrationFull, position + 1) == CountFrom(html, RegistrationFull, 1)
      invariant !searching ==> count == CountFrom(html, RegistrationFull, 1)
      decreases searching, |html| - position
    {
      FindAdvancesCount(html, RegistrationFull, position + 1);
      var found := Find(html, RegistrationFull, position + 1);
      if found.Some? {
        count := count + 1;
        position := found.value;
      } else {
        searching := false;
      }
    }
    r := count < FullStatementLimit;
  }

  /** An occurrence at index 0 is never counted. */
  lemma StatementAtStartNotCounted(html: string)
    ensures CountFrom(html, RegistrationFull, 0)
            == CountedStatements(html) + (if OccursAt(html, RegistrationFull, 0) then 1 else 0)
  {
  }

  /** A page that is nothing but the phrase has one statement, at index 0,
      and so counts none. */
  lemma PageOfOnlyThePhrase()
    ensures OccursAt(RegistrationFull, RegistrationFull, 0)
    ensures CountedStatements(RegistrationFull) == 0
  {
  }

  /** A page without the phrase counts zero statements. */
  lemma {:induction false} NoStatementMeansAvailable(html: string)
    requires forall k: nat :: !OccursAt(html, RegistrationFull, k)
    ensures CountedStatements(html) == 0
  {
    CountFromNone(html, RegistrationFull, 1);
  }

  predicate NoDot(s: string)
  {
    forall k :: 0 <= k < |s| ==> s[k] != '.'
  }

  lemma NoDotSplit(s: string, m: nat)
    requires m <= |s| && NoDot(s[..m]) && NoDot(s[m..])
    ensures NoDot(s)
  {
    forall k | 0 <= k < |s|
      ensures s[k] != '.'
    {
      if k < m {
        assert s[k] == s[..m][k];
      } else {
        assert s[k] == s[m..][k - m];
      }
    }
  }

  lemma ChunksHaveNoDot()
    ensures NoDot("Registration ") && NoDot("is currently ")
    ensures NoDot("full at this ") && NoDot("location")
  {
  }

  /** The phrase's only full stop is its last character. */
  lemma FullStopOnlyAtEnd(k: nat)
    requires k < |RegistrationFull| - 1
    ensures RegistrationFull[k] != '.'
  {
    var body := RegistrationFull[..|RegistrationFull| - 1];
    assert body == "Registration is currently full at this location";
    var upToLocation := body[..39];
    var upToFull := upToLocation[..26];
    assert body[39..] == "location";
    assert upToLocation == "Registration is currently full at this ";
    assert upToLocation[26..] == "full at this ";
    assert upToFull == "Registration is currently ";
    assert upToFull[13..] == "is currently ";
    assert upToFull[..13] == "Registration ";
    ChunksHaveNoDot();
    NoDotSplit(upToFull, 13);
    NoDotSplit(upToLocation, 26);
    NoDotSplit(body, 39);
    assert RegistrationFull[k] == body[k];
  }

  /** Two occurrences of the phrase never overlap, so counting every start
      index, as the checker does, is counting non-overlapping occurrences. */
  lemma OccurrencesDoNotOverlap(text: string, i: nat, j: nat)
    requires OccursAt(text, RegistrationFull, i) && OccursAt(text, RegistrationFull, j)
    requires i < j
    ensures j - i >= |RegistrationFull|
  {
    var n := |RegistrationFull|;
    if j - i < n {
      var last := i + n - 1;
      assert text[last] == text[i..i + n][n - 1] == '.';
      assert text[last] == text[j..j + n][last - j];
      FullStopOnlyAtEnd(last - j);
      assert false;
    }
  }

  /** The outcome of a Jefferson check on the fetched page. */
  function PageReportsAvailability(page: Option<string>): bool
  {
    page.Some? && CountedStatements(page.value) < FullStatementLimit
  }

  class JeffersonTarget {
    const base: FinderTarget

    ghost predicate Valid()
    {
      base.name == "Jefferson" && base.foundAppointmentState == DefaultFoundAppointmentState
    }

    constructor (url: string, checkPeriod: nat)
      ensures Valid() && fresh(base)
      ensures base.url == url && base.checkPeriod == checkPeriod
      ensures base.state == NormalCheck && !base.stop
      ensures base.history == [BeginMessage("Jefferson")] && base.notifications == []
    {
      base := new FinderTarget(url, checkPeriod, "Jefferson", DefaultFoundAppointmentState);
    }

    /** One check: a failed GET is logged and reports false; otherwise the
        page decides. The message buffer is never written. */
    method AppointmentsAvailable(get: Fetch) returns (available: bool)
      modifies base`history
      ensures available == PageReportsAvailability(get(base.url))
      ensures get(base.url).None? ==> base.history == old(base.history) + ["Jefferson check failed"]
      ensures get(base.url).Some? ==> base.history == old(base.history)
    {
      var response := get(base.url);
      if response.None? {
        base.SendLogMessage("Jefferson check failed");
        return false;
      }
      available := DoesNotHaveThreeRegistrationFullStatements(response.value);
    }

    /** One iteration of the check loop, or nothing once a stop was asked. */
    method Cycle(get: Fetch) returns (ran: bool, sleep: nat)
      requires Valid()
      modifies base`state, base`history, base`notifications
      ensures Valid()
      ensures ran == !base.stop
      ensures !ran ==> base.state == old(base.state)
      ensures !ran ==> base.history == old(base.history) && base.notifications == old(base.notifications)
      ensures ran && PageReportsAvailability(get(base.url)) ==>
        && base.state == FoundAppointmentDelay
        && sleep == FoundAppointmentDelayFactor * base.checkPeriod
        && base.notifications == old(base.notifications) + [AppointmentInfo(base.url, "")]
      ensures ran && !PageReportsAvailability(get(base.url)) ==>
        && base.state == NormalCheck
        && sleep == base.checkPeriod
        && base.notifications == old(base.notifications)
      ensures ran ==> (base.history == old(base.history) +
                        (if get(base.url).None? then ["Jefferson check failed"]
                         else if PageReportsAvailability(get(base.url)) then [FoundMessage, AppointmentInfo(base.url, "")]
                         else []))
    {
      if base.stop {
        return false, 0;
      }
      var message := base.BeginCycle();
      var available := AppointmentsAvailable(get);
      sleep := base.FinishCycle(available, message);
      ran := true;
    }
  }
}
