/** The appointments page: the status filter with its `all` sentinel, and the empty-state message. */
module AppointmentsPage {
  import opened Seqs
  import opened HealthcareTypes

  /** A selectable filter: `all`, or one appointment status. */
  datatype FilterStatus = All | Only(status: AppointmentStatus)

  /** The filter buttons, in display order. */
  const Filters: seq<FilterStatus> := [All, Only(Pending), Only(Approved), Only(Completed), Only(Cancelled)]

  /** The five buttons offer every filter, each once. */
  lemma FiltersAreEverySelection()
    ensures |Filters| == 5 && NoDuplicates(Filters)
    ensures forall f: FilterStatus :: f in Filters
  {
    forall f: FilterStatus
      ensures f in Filters
    {
      match f
      case All => assert Filters[0] == f;
      case Only(Pending) => assert Filters[1] == f;
      case Only(Approved) => assert Filters[2] == f;
      case Only(Completed) => assert Filters[3] == f;
      case Only(Cancelled) => assert Filters[4] == f;
    }
  }

  /** The appointments listed under filter `f`. */
  function FilteredAppointments(appts: seq<Appointment>, f: FilterStatus): (r: seq<Appointment>)
    ensures f.All? ==> r == appts
    ensures f.Only? ==> forall a :: a in r <==> a in appts && a.status == f.status
  {
    if f.All? then appts else Filter(appts, (a: Appointment) => a.status == f.status)
  }

  /** A status filter keeps every appointment with that status, in list order. */
  lemma StatusFilterInOrder(appts: seq<Appointment>, s: AppointmentStatus)
    ensures SubsequenceOf(FilteredAppointments(appts, Only(s)), appts)
    ensures forall a ::
      multiset(FilteredAppointments(appts, Only(s)))[a] == (if a.status == s then multiset(appts)[a] else 0)
  {
    FilterIsSubsequence(appts, (a: Appointment) => a.status == s);
    FilterCounts(appts, (a: Appointment) => a.status == s);
  }

  /** Whether "No appointments found." is shown. */
  predicate ShowsNoAppointments(appts: seq<Appointment>, f: FilterStatus)
  {
    |FilteredAppointments(appts, f)| == 0
  }

  /** The message shows exactly when no appointment passes the filter. */
  lemma NoAppointmentsMessage(appts: seq<Appointment>, f: FilterStatus)
    ensures ShowsNoAppointments(appts, f) <==>
      forall a :: a in appts ==> f.Only? && a.status != f.status
  {
    var r := FilteredAppointments(appts, f);
    if f.All? {
      if appts != [] {
        assert appts[0] in appts;
      }
    } else if forall a :: a in appts ==> a.status != f.status {
      FilterNone(appts, (a: Appointment) => a.status == f.status);
    } else {
      var a :| a in appts && a.status == f.status;
      assert a in r;
    }
  }
}
