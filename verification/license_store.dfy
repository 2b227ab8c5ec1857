/** The license store: the loaded licenses, a search term and two filters,
    and the filtered view the license page shows. */
module LicenseStore {
  import opened Base
  import opened Text
  import opened Lists

  /** The columns of a license row the store filters on. */
  datatype License = License(id: string, name: string, key: string, vendor: string,
                             status: string, licenseType: string)

  /** The search term occurs, ignoring case, in the name, the key or the
      vendor. The empty term finds every license, and so does a license's
      own key in any case. */
  function MatchesSearch(l: License, term: string): (found: bool)
    ensures term == "" ==> found
    ensures ToLower(term) == ToLower(l.key) ==> found
  {
    EmptyTermMatches(l.name);
    assert OccursAt(ToLower(l.key), ToLower(l.key), 0);
    MatchesIgnoringCase(l.name, term) || MatchesIgnoringCase(l.key, term)
    || MatchesIgnoringCase(l.vendor, term)
  }

  /** The whole test `getFilteredLicenses` applies to one license: with no
      term and both filters at 'all' every license shows, and a filter
      other than 'all' shows only its own status or type. */
  function Shown(l: License, term: string, statusFilter: string, typeFilter: string): (shown: bool)
    ensures term == "" && statusFilter == "all" && typeFilter == "all" ==> shown
    ensures shown && statusFilter != "all" ==> l.status == statusFilter
    ensures shown && typeFilter != "all" ==> l.licenseType == typeFilter
    ensures shown ==> MatchesSearch(l, term)
  {
    && MatchesSearch(l, term)
    && (statusFilter == "all" || l.status == statusFilter)
    && (typeFilter == "all" || l.licenseType == typeFilter)
  }

  /** `getFilteredLicenses`: the licenses shown, in their stored order. */
  function FilteredLicenses(licenses: seq<License>, term: string, statusFilter: string, typeFilter: string)
    : (shown: seq<License>)
    ensures IsSubsequence(shown, licenses)
    ensures forall l :: l in shown <==> l in licenses && Shown(l, term, statusFilter, typeFilter)
  {
    Filter((l: License) => Shown(l, term, statusFilter, typeFilter), licenses)
  }

  /** With no search term and both filters at 'all', every license shows. */
  lemma NoFilterShowsAll(licenses: seq<License>)
    ensures FilteredLicenses(licenses, "", "all", "all") == licenses
  {
    FilterKeepsAll((l: License) => Shown(l, "", "all", "all"), licenses);
  }

  /** A status filter other than 'all' shows only licenses with that
      status, and each such license that matches the search and type. */
  lemma StatusFilterExact(licenses: seq<License>, term: string, status: string, typeFilter: string)
    requires status != "all"
    ensures forall l :: l in FilteredLicenses(licenses, term, status, typeFilter) ==> l.status == status
    ensures forall l :: l in licenses && l.status == status && MatchesSearch(l, term)
                        && (typeFilter == "all" || l.licenseType == typeFilter)
                        ==> l in FilteredLicenses(licenses, term, status, typeFilter)
  {
  }

  class LicenseStoreState {
    var licenses: seq<License>
    var isLoading: bool
    var error: Option<string>
    var searchTerm: string
    var statusFilter: string
    var typeFilter: string

    constructor()
      ensures licenses == [] && !isLoading && error == None
      ensures searchTerm == "" && statusFilter == "all" && typeFilter == "all"
    {
      licenses := [];
      isLoading := false;
      error := None;
      searchTerm := "";
      statusFilter := "all";
      typeFilter := "all";
    }

    method SetSearchTerm(term: string)
      modifies this
      ensures searchTerm == term
      ensures licenses == old(licenses) && isLoading == old(isLoading) && error == old(error)
      ensures statusFilter == old(statusFilter) && typeFilter == old(typeFilter)
    {
      searchTerm := term;
    }

    method SetStatusFilter(status: string)
      modifies this
      ensures statusFilter == status
      ensures licenses == old(licenses) && isLoading == old(isLoading) && error == old(error)
      ensures searchTerm == old(searchTerm) && typeFilter == old(typeFilter)
    {
      statusFilter := status;
    }

    method SetTypeFilter(t: string)
      modifies this
      ensures typeFilter == t
      ensures licenses == old(licenses) && isLoading == old(isLoading) && error == old(error)
      ensures searchTerm == old(searchTerm) && statusFilter == old(statusFilter)
    {
      typeFilter := t;
    }

    /** `getFilteredLicenses` on the current state. */
    function GetFilteredLicenses(): (shown: seq<License>)
      reads this
      ensures IsSubsequence(shown, licenses)
      ensures forall l :: l in shown <==> l in licenses && Shown(l, searchTerm, statusFilter, typeFilter)
    {
      FilteredLicenses(licenses, searchTerm, statusFilter, typeFilter)
    }
  }
}
