/** The state of the `LeadGenerator` component
    (src/components/LeadGenerator.js) and its four handlers: search,
    delete, blacklist and status change. The component's state hooks are
    the fields of a class; the blacklist kept in the browser's storage is
    a field too. Leads are objects, so removal compares identities. */
module LeadList {
  import opened Js
  import opened Api

  /** One lead object in the list. */
  class LeadObject {
    const fields: Lead

    constructor (fields: Lead)
      ensures this.fields == fields
    {
      this.fields := fields;
    }
  }

  /** How the awaited search for the selected source ends. */
  datatype SearchOutcome = Completed(results: seq<Lead>) | Threw

  const NotScheduled := "not-scheduled"
  const EmptyQueryError := "Bitte geben Sie einen Suchbegriff ein"
  const SearchFailedError := "Fehler bei der Suche. Bitte versuchen Sie es sp\U{E4}ter erneut."

  /** `{...lead, status: 'not-scheduled'}`. */
  function Scheduled(lead: Lead): (r: Lead)
    ensures r.status == Some(NotScheduled)
    ensures r.(status := lead.status) == lead
  {
    lead.(status := Some(NotScheduled))
  }

  /** The search the component awaits: Google or Instagram by source, and
      no search (an empty result) for any other source. */
  function Selected(source: string, google: SearchOutcome, instagram: SearchOutcome): SearchOutcome {
    if source == "google" then google
    else if source == "instagram" then instagram
    else Completed([])
  }

  /** `leads.filter(lead => lead !== x)`. */
  function Without(leads: seq<LeadObject>, x: LeadObject): (r: seq<LeadObject>)
    ensures forall k :: 0 <= k < |r| ==> r[k] in leads && r[k] != x
    ensures forall k :: 0 <= k < |leads| && leads[k] != x ==> leads[k] in r
    ensures IsSubsequence(r, leads)
  {
    if leads == [] then []
    else if leads[0] != x then [leads[0]] + Without(leads[1..], x)
    else Without(leads[1..], x)
  }

  /** Removing a lead that is not in the list changes nothing. */
  lemma {:induction false} WithoutAbsent(leads: seq<LeadObject>, x: LeadObject)
    requires x !in leads
    ensures Without(leads, x) == leads
  {
    if leads != [] {
      assert leads[0] != x;
      WithoutAbsent(leads[1..], x);
    }
  }

  /** Deleting twice is deleting once. */
  lemma WithoutIdempotent(leads: seq<LeadObject>, x: LeadObject)
    ensures Without(Without(leads, x), x) == Without(leads, x)
  {
    WithoutAbsent(Without(leads, x), x);
  }

  /** Deleting leaves every other lead, in its order: exactly the entries
      of `leads` that are not `x`, and one fewer entry per copy of `x`. */
  lemma {:induction false} WithoutCount(leads: seq<LeadObject>, x: LeadObject)
    ensures |Without(leads, x)| == |leads| - multiset(leads)[x]
  {
    if leads != [] {
      WithoutCount(leads[1..], x);
      assert leads == [leads[0]] + leads[1..];
      assert multiset(leads) == multiset{leads[0]} + multiset(leads[1..]);
    }
  }

  /** `results.map(lead => ({...lead, status: 'not-scheduled'}))`: one new
      lead object per result, in order. */
  method ScheduleAll(results: seq<Lead>) returns (created: seq<LeadObject>)
    ensures |created| == |results|
    ensures forall k :: 0 <= k < |created| ==> fresh(created[k]) && created[k].fields == Scheduled(results[k])
  {
    created := [];
    var i := 0;
    while i < |results|
      invariant 0 <= i <= |results| && |created| == i
      invariant forall k :: 0 <= k < i ==> fresh(created[k]) && created[k].fields == Scheduled(results[k])
    {
      var lead := new LeadObject(Scheduled(results[i]));
      created := created + [lead];
      i := i + 1;
    }
  }

  class LeadGenerator {
    var query: string
    var source: string
    var numResults: int
    var leads: seq<LeadObject>
    var loading: bool
    var error: string
    var blacklist: seq<Lead>

    /** The initial state: source `google`, ten results, nothing loaded;
        the blacklist is whatever storage holds. */
    constructor (storedBlacklist: seq<Lead>)
      ensures query == "" && source == "google" && numResults == 10
      ensures leads == [] && !loading && error == ""
      ensures blacklist == storedBlacklist
    {
      query := "";
      source := "google";
      numResults := 10;
      leads := [];
      loading := false;
      error := "";
      blacklist := storedBlacklist;
    }

    /** `handleSearch`. A blank query only sets the error. Otherwise the
        search for the selected source runs; its leads replace the list,
        each with status `not-scheduled`, or its failure sets the error and
        keeps the list. Loading is off at the end either way. `searched`
        says whether a search was made. */
    method HandleSearch(google: SearchOutcome, instagram: SearchOutcome) returns (searched: bool)
      modifies this
      ensures query == old(query) && source == old(source) && numResults == old(numResults)
      ensures blacklist == old(blacklist)
      ensures searched <==> Trim(query) != "" && (source == "google" || source == "instagram")
      ensures Trim(query) == "" ==>
        error == EmptyQueryError && leads == old(leads) && loading == old(loading)
      ensures Trim(query) != "" ==> !loading
      ensures Trim(query) != "" && Selected(source, google, instagram).Threw? ==>
        error == SearchFailedError && leads == old(leads)
      ensures Trim(query) != "" && Selected(source, google, instagram).Completed? ==>
        var results := Selected(source, google, instagram).results;
        && error == ""
        && |leads| == |results|
        && forall k :: 0 <= k < |leads| ==> fresh(leads[k]) && leads[k].fields == Scheduled(results[k])
    {
      if Trim(query) == "" {
        error := EmptyQueryError;
        return false;
      }
      loading := true;
      error := "";
      searched := source == "google" || source == "instagram";
      var outcome := Selected(source, google, instagram);
      match outcome {
        case Threw =>
          error := SearchFailedError;
        case Completed(results) =>
          leads := ScheduleAll(results);
      }
      loading := false;
    }

    /** `handleDelete`: every entry that is `x` itself goes, the others stay
        in order. */
    method HandleDelete(x: LeadObject)
      modifies this
      ensures leads == Without(old(leads), x)
      ensures query == old(query) && source == old(source) && numResults == old(numResults)
      ensures loading == old(loading) && error == old(error) && blacklist == old(blacklist)
    {
      leads := Without(leads, x);
    }

    /** `handleBlacklist`: `x` is appended to the stored blacklist, then
        deleted from the list. */
    method HandleBlacklist(x: LeadObject)
      modifies this
      ensures blacklist == old(blacklist) + [x.fields]
      ensures leads == Without(old(leads), x)
      ensures query == old(query) && source == old(source) && numResults == old(numResults)
      ensures loading == old(loading) && error == old(error)
    {
      blacklist := blacklist + [x.fields];
      HandleDelete(x);
    }

    /** `handleStatusChange`: a copy of the list whose entry `index` is a
        new object, equal to the old one but for its status. */
    method HandleStatusChange(index: int, newStatus: string)
      requires 0 <= index < |leads|
      modifies this
      ensures |leads| == |old(leads)|
      ensures fresh(leads[index])
      ensures leads[index].fields == old(leads[index].fields).(status := Some(newStatus))
      ensures forall k :: 0 <= k < |leads| && k != index ==> leads[k] == old(leads[k])
      ensures query == old(query) && source == old(source) && numResults == old(numResults)
      ensures loading == old(loading) && error == old(error) && blacklist == old(blacklist)
    {
      var updated := leads;
      var changed := new LeadObject(updated[index].fields.(status := Some(newStatus)));
      updated := updated[index := changed];
      leads := updated;
    }
  }

  /** Once a lead is blacklisted, a LinkedIn search made with the updated
      blacklist never returns a lead of the same company. */
  lemma BlacklistedNotFoundAgain(results: seq<LinkedInResult>, count: int, blacklist: seq<Lead>, x: Lead)
    ensures var r := SearchLinkedIn(Found(results), count, blacklist + [x]);
      r.Ok? ==> forall k :: 0 <= k < |r.value| ==> r.value[k].companyName != x.companyName
  {
    var bl := blacklist + [x];
    LinkedInSkipsBlacklisted(results, count, bl);
    assert bl[|blacklist|] == x;
  }
}
