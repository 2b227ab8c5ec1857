/** The device store: the loaded devices, a search term and a status
    filter, and the filtered view the device page shows. */
module DeviceStore {
  import opened Base
  import opened Text
  import opened Lists

  /** The columns of a device row the store filters on. */
  datatype Device = Device(id: string, brand: string, model: string, serialNumber: string, status: string)

  /** The search term occurs, ignoring case, in the brand, the model or the
      serial number. The empty term finds every device, and so does a
      device's own serial number in any case. */
  function MatchesSearch(d: Device, term: string): (found: bool)
    ensures term == "" ==> found
    ensures ToLower(term) == ToLower(d.serialNumber) ==> found
  {
    EmptyTermMatches(d.brand);
    assert OccursAt(ToLower(d.serialNumber), ToLower(d.serialNumber), 0);
    MatchesIgnoringCase(d.brand, term) || MatchesIgnoringCase(d.model, term)
    || MatchesIgnoringCase(d.serialNumber, term)
  }

  /** The test `getFilteredDevices` applies to one device: with no term and
      the status at 'all' every device shows, and a status filter other
      than 'all' shows only that status. */
  function Shown(d: Device, term: string, statusFilter: string): (shown: bool)
    ensures term == "" && statusFilter == "all" ==> shown
    ensures shown && statusFilter != "all" ==> d.status == statusFilter
    ensures shown ==> MatchesSearch(d, term)
  {
    MatchesSearch(d, term) && (statusFilter == "all" || d.status == statusFilter)
  }

  /** `getFilteredDevices`: the devices shown, in their stored order. */
  function FilteredDevices(devices: seq<Device>, term: string, statusFilter: string): (shown: seq<Device>)
    ensures IsSubsequence(shown, devices)
    ensures forall d :: d in shown <==> d in devices && Shown(d, term, statusFilter)
  {
    Filter((d: Device) => Shown(d, term, statusFilter), devices)
  }

  /** With no search term and the filter at 'all', every device shows. */
  lemma NoFilterShowsAll(devices: seq<Device>)
    ensures FilteredDevices(devices, "", "all") == devices
  {
    FilterKeepsAll((d: Device) => Shown(d, "", "all"), devices);
  }

  class DeviceStoreState {
    var devices: seq<Device>
    var isLoading: bool
    var error: Option<string>
    var searchTerm: string
    var statusFilter: string

    constructor()
      ensures devices == [] && !isLoading && error == None
      ensures searchTerm == "" && statusFilter == "all"
    {
      devices := [];
      isLoading := false;
      error := None;
      searchTerm := "";
      statusFilter := "all";
    }

    method SetSearchTerm(term: string)
      modifies this
      ensures searchTerm == term
      ensures devices == old(devices) && isLoading == old(isLoading) && error == old(error)
      ensures statusFilter == old(statusFilter)
    {
      searchTerm := term;
    }

    method SetStatusFilter(status: string)
      modifies this
      ensures statusFilter == status
      ensures devices == old(devices) && isLoading == old(isLoading) && error == old(error)
      ensures searchTerm == old(searchTerm)
    {
      statusFilter := status;
    }

    /** `getFilteredDevices` on the current state. */
    function GetFilteredDevices(): (shown: seq<Device>)
      reads this
      ensures IsSubsequence(shown, devices)
      ensures forall d :: d in shown <==> d in devices && Shown(d, searchTerm, statusFilter)
    {
      FilteredDevices(devices, searchTerm, statusFilter)
    }
  }
}
