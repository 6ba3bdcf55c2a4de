/**
 * The sidebar's navigation table and its role filter: a signed-in account sees
 * exactly the items that list its role, in table order.
 */
module Sidebar {
  import opened Wrappers
  import opened Seqs
  import opened HealthcareTypes
  import Auth

  /** A navigation entry (its icon is presentation only). */
  datatype NavItem = NavItem(title: string, url: string, roles: seq<Role>)

  const NavItems: seq<NavItem> := [
    NavItem("Dashboard", "/dashboard", [Admin, Doctor, Patient, Nurse]),
    NavItem("Patients", "/patients", [Admin, Doctor, Nurse]),
    NavItem("Appointments", "/appointments", [Admin, Doctor, Patient, Nurse]),
    NavItem("Messages", "/messages", [Admin, Doctor, Patient]),
    NavItem("Records", "/records", [Doctor, Patient]),
    NavItem("Audit Logs", "/audit-logs", [Admin])
  ]

  /** Whether `item` is offered to the signed-in `user` (nobody signed in: nothing is). */
  predicate Offered(user: Option<Account>, item: NavItem)
  {
    user.Some? && user.value.role in item.roles
  }

  /** The items the sidebar shows. */
  function FilteredItems(user: Option<Account>): (r: seq<NavItem>)
    ensures user.None? ==> r == []
    ensures forall item :: item in r <==> item in NavItems && user.Some? && user.value.role in item.roles
  {
    Filter(NavItems, item => Offered(user, item))
  }

  /** Shown items keep the order of the table. */
  lemma FilteredItemsInTableOrder(user: Option<Account>)
    ensures SubsequenceOf(FilteredItems(user), NavItems)
  {
    FilterIsSubsequence(NavItems, item => Offered(user, item));
  }

  /** Whether the sidebar of `user` shows an item titled `title`. */
  predicate Shows(user: Option<Account>, title: string)
  {
    exists item :: item in FilteredItems(user) && item.title == title
  }

  /** The table entry titled `title`, when there is one. */
  lemma TitledItem(item: NavItem)
    requires item in NavItems
    ensures item.title == "Dashboard" ==> item == NavItems[0]
    ensures item.title == "Appointments" ==> item == NavItems[2]
    ensures item.title == "Records" ==> item == NavItems[4]
    ensures item.title == "Audit Logs" ==> item == NavItems[5]
  {
    var i :| 0 <= i < |NavItems| && NavItems[i] == item;
    assert i in {0, 1, 2, 3, 4, 5};
  }

  /** An entry listing the account's role is shown. */
  lemma ShownWhenListed(a: Account, k: nat)
    requires k < |NavItems| && a.role in NavItems[k].roles
    ensures Shows(Some(a), NavItems[k].title)
  {
    assert NavItems[k] in FilteredItems(Some(a));
  }

  /** Dashboard and Appointments are shown to every role. */
  lemma SharedItemsForEveryRole(a: Account)
    ensures Shows(Some(a), "Dashboard") && Shows(Some(a), "Appointments")
  {
    var everyone := [Admin, Doctor, Patient, Nurse];
    assert NavItems[0].roles == everyone && NavItems[2].roles == everyone;
    match a.role {
      case Admin => assert everyone[0] == a.role;
      case Doctor => assert everyone[1] == a.role;
      case Patient => assert everyone[2] == a.role;
      case Nurse => assert everyone[3] == a.role;
    }
    ShownWhenListed(a, 0);
    ShownWhenListed(a, 2);
  }

  /** Records are shown only to doctors and patients. */
  lemma RecordsOnlyForDoctorsAndPatients(a: Account)
    ensures Shows(Some(a), "Records") <==> a.role == Doctor || a.role == Patient
  {
    if Shows(Some(a), "Records") {
      var item :| item in FilteredItems(Some(a)) && item.title == "Records";
      TitledItem(item);
    }
    if a.role == Doctor || a.role == Patient {
      assert NavItems[4].roles == [Doctor, Patient];
      ShownWhenListed(a, 4);
    }
  }

  /** Audit Logs are shown only to admins. */
  lemma AuditLogsOnlyForAdmins(a: Account)
    ensures Shows(Some(a), "Audit Logs") <==> a.role == Admin
  {
    if Shows(Some(a), "Audit Logs") {
      var item :| item in FilteredItems(Some(a)) && item.title == "Audit Logs";
      TitledItem(item);
    }
    if a.role == Admin {
      assert NavItems[5].roles == [Admin];
      ShownWhenListed(a, 5);
    }
  }

  /** Signing in as `role` shows exactly the items that list `role`. */
  lemma SignInShowsRoleItems(role: Role)
    ensures FilteredItems(Some(Auth.AccountFor(role))) == Filter(NavItems, (item: NavItem) => role in item.roles)
  {
    var user := Some(Auth.AccountFor(role));
    FilterSamePredicate(NavItems, item => Offered(user, item), (item: NavItem) => role in item.roles);
  }
}
