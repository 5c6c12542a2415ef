/**
 * The facility records of the care finder: the `Location` record, its two
 * closed enumerations, the string each enumeration value is written as, and
 * the fixed demonstration directory the page works on.
 */
module Locations {
  import opened Wrappers

  /** The three kinds of facility; the record field is called `type` in the source. */
  datatype LocationType = UrgentCare | EmergencyRoom | WalkInClinic

  /** The wait category, assigned per record and not derived from the wait time. */
  datatype WaitCategory = Low | Medium | Long

  /** The string literal each facility kind is, as the page displays and searches it. */
  function TypeName(t: LocationType): (name: string)
    ensures KindOfName(name) == Some(t)
  {
    match t
    case UrgentCare => "Urgent Care"
    case EmergencyRoom => "Emergency Room"
    case WalkInClinic => "Walk-in Clinic"
  }

  /** The facility kind a string literal of the `type` union stands for, if any. */
  function KindOfName(name: string): Option<LocationType> {
    if name == "Urgent Care" then Some(UrgentCare)
    else if name == "Emergency Room" then Some(EmergencyRoom)
    else if name == "Walk-in Clinic" then Some(WalkInClinic)
    else None
  }

  /** The string literal each wait category is, as handed to the colour mapping. */
  function CategoryName(c: WaitCategory): (name: string)
    ensures CategoryOfName(name) == Some(c)
  {
    match c
    case Low => "low"
    case Medium => "medium"
    case Long => "long"
  }

  /** The wait category a string literal of the `waitCategory` union stands for, if any. */
  function CategoryOfName(name: string): Option<WaitCategory> {
    if name == "low" then Some(Low)
    else if name == "medium" then Some(Medium)
    else if name == "long" then Some(Long)
    else None
  }

  datatype Location = Location(
    id: string,
    name: string,
    kind: LocationType,
    distance: real,
    waitTime: nat,
    waitCategory: WaitCategory,
    address: string,
    phone: string,
    isOpen: bool)

  /** Identifiers are unique (the list renders each record under its `id` key) and distances are non-negative. */
  predicate ValidDirectory(dir: seq<Location>) {
    && (forall i :: 0 <= i < |dir| ==> dir[i].distance >= 0.0)
    && (forall i, j :: 0 <= i < j < |dir| ==> dir[i].id != dir[j].id)
  }

  /** The demonstration directory the page is built on. */
  const MockLocations: seq<Location> := [
    Location("1", "City Emergency Medical Center", EmergencyRoom, 0.8, 15, Low,
             "123 Medical Drive, Downtown", "(555) 123-4567", true),
    Location("2", "QuickCare Urgent Center", UrgentCare, 1.2, 45, Medium,
             "456 Health Street, Midtown", "(555) 234-5678", true),
    Location("3", "Metro General Hospital ER", EmergencyRoom, 2.1, 120, Long,
             "789 Hospital Boulevard, Uptown", "(555) 345-6789", true),
    Location("4", "FastTrack Medical Clinic", WalkInClinic, 0.6, 25, Low,
             "321 Wellness Avenue, Central", "(555) 456-7890", true),
    Location("5", "Northwest Emergency Care", UrgentCare, 3.4, 75, Medium,
             "654 Care Circle, Northwest", "(555) 567-8901", false)
  ]

  lemma MockLocationsValid()
    ensures ValidDirectory(MockLocations)
  {
  }
}
