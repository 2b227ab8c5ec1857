/** The vendor store: the loaded vendors, a search term and a category
    filter, and the filtered view the vendor settings show. */
module VendorStore {
  import opened Base
  import opened Text
  import opened Lists

  /** The columns of a vendor the store filters on. */
  datatype Vendor = Vendor(id: string, name: string, category: string, contactName: string, email: string)

  /** The search term occurs, ignoring case, in the name, the contact name
      or the e-mail address. The empty term finds every vendor, and so
      does a vendor's own name in any case. */
  function MatchesSearch(v: Vendor, term: string): (found: bool)
    ensures term == "" ==> found
    ensures ToLower(term) == ToLower(v.name) ==> found
  {
    EmptyTermMatches(v.name);
    assert OccursAt(ToLower(v.name), ToLower(v.name), 0);
    MatchesIgnoringCase(v.name, term) || MatchesIgnoringCase(v.contactName, term)
    || MatchesIgnoringCase(v.email, term)
  }

  /** The test `getFilteredVendors` applies to one vendor: with no term and
      the category at 'all' every vendor shows, and a category filter
      other than 'all' shows only that category. */
  function Shown(v: Vendor, term: string, categoryFilter: string): (shown: bool)
    ensures term == "" && categoryFilter == "all" ==> shown
    ensures shown && categoryFilter != "all" ==> v.category == categoryFilter
    ensures shown ==> MatchesSearch(v, term)
  {
    MatchesSearch(v, term) && (categoryFilter == "all" || v.category == categoryFilter)
  }

  /** `getFilteredVendors`: the vendors shown, in their stored order. */
  function FilteredVendors(vendors: seq<Vendor>, term: string, categoryFilter: string): (shown: seq<Vendor>)
    ensures IsSubsequence(shown, vendors)
    ensures forall v :: v in shown <==> v in vendors && Shown(v, term, categoryFilter)
  {
    Filter((v: Vendor) => Shown(v, term, categoryFilter), vendors)
  }

  /** With no search term and the category at 'all', every vendor shows. */
  lemma NoFilterShowsAll(vendors: seq<Vendor>)
    ensures FilteredVendors(vendors, "", "all") == vendors
  {
    FilterKeepsAll((v: Vendor) => Shown(v, "", "all"), vendors);
  }

  class VendorStoreState {
    var vendors: seq<Vendor>
    var isLoading: bool
    var error: Option<string>
    var searchTerm: string
    var categoryFilter: string

    constructor()
      ensures vendors == [] && !isLoading && error == None
      ensures searchTerm == "" && categoryFilter == "all"
    {
      vendors := [];
      isLoading := false;
      error := None;
      searchTerm := "";
      categoryFilter := "all";
    }

    method SetSearchTerm(term: string)
      modifies this
      ensures searchTerm == term
      ensures vendors == old(vendors) && isLoading == old(isLoading) && error == old(error)
      ensures categoryFilter == old(categoryFilter)
    {
      searchTerm := term;
    }

    method SetCategoryFilter(category: string)
      modifies this
      ensures categoryFilter == category
      ensures vendors == old(vendors) && isLoading == old(isLoading) && error == old(error)
      ensures searchTerm == old(searchTerm)
    {
      categoryFilter := category;
    }

    /** `getFilteredVendors` on the current state. */
    function GetFilteredVendors(): (shown: seq<Vendor>)
      reads this
      ensures IsSubsequence(shown, vendors)
      ensures forall v :: v in shown <==> v in vendors && Shown(v, searchTerm, categoryFilter)
    {
      FilteredVendors(vendors, searchTerm, categoryFilter)
    }
  }
}
