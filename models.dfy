/** The stored records of the expense engine: users, groups with their member
    sets, and expenses with their payer and the set of users they are split
    among; with how each record renders as text and what deleting a group or
    a user removes. */
module Models {
  import opened Wrappers
  import opened Money

  /** A user, referenced (never owned) by groups and expenses. */
  datatype User = User(id: nat, username: string, email: string)

  /** A group and the set of its members; the description may be absent. */
  datatype Group = Group(id: nat, name: string, description: Option<string>, members: set<User>)

  /** An expense of a group (held by the group's id), paid by one user and
      split among a set of users. */
  datatype Expense = Expense(
    id: nat,
    group: nat,
    description: string,
    amount: Amount,
    paidBy: User,
    splitAmong: set<User>)

  /** Every expense refers to a stored group (the foreign key holds). */
  ghost predicate Consistent(groups: map<nat, Group>, expenses: seq<Expense>)
  {
    forall i :: 0 <= i < |expenses| ==> expenses[i].group in groups
  }

  /** The ids of the groups `u` belongs to: those whose member set holds `u`. */
  function GroupsOf(groups: map<nat, Group>, u: User): (ids: set<nat>)
    ensures forall gid :: gid in ids <==> gid in groups && u in groups[gid].members
  {
    set gid | gid in groups && u in groups[gid].members
  }

  /** A group renders as its name. */
  function GroupText(g: Group): string
  {
    g.name
  }

  /** A group's text is its name alone: neither its optional description nor
      its members change it. */
  lemma GroupTextIsName(g: Group, d: Option<string>, m: set<User>)
    ensures GroupText(g.(description := d, members := m)) == g.name
  {
  }

  /** An expense renders as its description, " - ", and its amount with two
      decimal places. */
  function ExpenseText(e: Expense): (s: string)
  {
    e.description + " - " + FormatCents(e.amount)
  }

  /** The text of an expense starts with its description and the amount can
      be read back from what follows the separator. */
  lemma ExpenseTextShowsAmount(e: Expense)
    ensures |ExpenseText(e)| >= |e.description| + 7
    ensures ExpenseText(e)[..|e.description|] == e.description
    ensures ExpenseText(e)[|e.description|..|e.description| + 3] == " - "
    ensures ParseCents(ExpenseText(e)[|e.description| + 3..]) == Some(e.amount as int)
  {
    var s := ExpenseText(e);
    assert s[|e.description| + 3..] == FormatCents(e.amount);
    FormatCentsRoundTrip(e.amount);
  }

  // ---------------------------------------------------------------------
  // Deletion: a group owns its expenses; a user owns the expenses they paid.

  /** The expenses of `expenses` that satisfy `keep`, in ledger order. */
  function Filter(expenses: seq<Expense>, keep: Expense -> bool): (r: seq<Expense>)
    ensures |r| <= |expenses|
    ensures forall e :: e in r <==> e in expenses && keep(e)
    ensures (forall e :: e in expenses ==> !keep(e)) ==> r == []
  {
    if expenses == [] then []
    else (if keep(expenses[0]) then [expenses[0]] else []) + Filter(expenses[1..], keep)
  }

  /** Filtering keeps ledger order: filtering a concatenation concatenates
      the filtered parts. */
  lemma {:induction false} FilterConcat(a: seq<Expense>, b: seq<Expense>, keep: Expense -> bool)
    ensures Filter(a + b, keep) == Filter(a, keep) + Filter(b, keep)
  {
    if a == [] {
      assert a + b == b;
    } else {
      assert (a + b)[0] == a[0];
      assert (a + b)[1..] == a[1..] + b;
      FilterConcat(a[1..], b, keep);
    }
  }

  /** Whether an expense survives deleting group `gid`. */
  function NotOfGroup(gid: nat): Expense -> bool
  {
    (e: Expense) => e.group != gid
  }

  /** Whether an expense survives deleting user `u`. */
  function NotPaidBy(u: User): Expense -> bool
  {
    (e: Expense) => e.paidBy != u
  }

  /** Deleting group `gid` deletes every expense of that group and no other. */
  function DeleteGroup(groups: map<nat, Group>, expenses: seq<Expense>, gid: nat)
    : (r: (map<nat, Group>, seq<Expense>))
    ensures r.0.Keys == groups.Keys - {gid}
    ensures forall g :: g in r.0 ==> r.0[g] == groups[g]
    ensures forall e :: e in r.1 <==> e in expenses && e.group != gid
    ensures Consistent(groups, expenses) ==> Consistent(r.0, r.1)
  {
    var kept := Filter(expenses, NotOfGroup(gid));
    assert forall i :: 0 <= i < |kept| ==> kept[i] in kept;
    (groups - {gid}, kept)
  }

  /** The groups with `u` taken out of every member set. */
  function WithoutMember(groups: map<nat, Group>, u: User): (r: map<nat, Group>)
    ensures r.Keys == groups.Keys
    ensures GroupsOf(r, u) == {}
    ensures forall v :: v != u ==> GroupsOf(r, v) == GroupsOf(groups, v)
    ensures forall g :: g in r ==> r[g] == groups[g].(members := groups[g].members - {u})
  {
    map gid | gid in groups :: groups[gid].(members := groups[gid].members - {u})
  }

  /** The expenses, in order, with `u` taken out of every split. */
  function WithoutSplitter(expenses: seq<Expense>, u: User): (r: seq<Expense>)
    ensures |r| == |expenses|
    ensures forall i :: 0 <= i < |r| ==> r[i] == expenses[i].(splitAmong := expenses[i].splitAmong - {u})
  {
    if expenses == [] then []
    else [expenses[0].(splitAmong := expenses[0].splitAmong - {u})] + WithoutSplitter(expenses[1..], u)
  }

  /** The expenses `u` did not pay, in order, with `u` out of their splits. */
  function Survivors(expenses: seq<Expense>, u: User): seq<Expense>
  {
    WithoutSplitter(Filter(expenses, NotPaidBy(u)), u)
  }

  /** Deleting user `u` deletes the expenses `u` paid, and removes `u` from
      every group's members and every remaining expense's split. */
  function DeleteUser(groups: map<nat, Group>, expenses: seq<Expense>, u: User)
    : (r: (map<nat, Group>, seq<Expense>))
    ensures r.0.Keys == groups.Keys
    ensures forall g :: g in r.0 ==> r.0[g] == groups[g].(members := groups[g].members - {u})
    ensures GroupsOf(r.0, u) == {}
    ensures forall v :: v != u ==> GroupsOf(r.0, v) == GroupsOf(groups, v)
    ensures forall e :: e in r.1 ==> e.paidBy != u && u !in e.splitAmong
    ensures forall e :: e in expenses && e.paidBy != u ==> e.(splitAmong := e.splitAmong - {u}) in r.1
    ensures forall e' :: e' in r.1 ==> exists e :: e in expenses && e' == e.(splitAmong := e.splitAmong - {u})
    ensures Consistent(groups, expenses) ==> Consistent(r.0, r.1)
    ensures r.1 == Survivors(expenses, u)
  {
    var kept := Filter(expenses, NotPaidBy(u));
    var expenses' := Survivors(expenses, u);
    assert forall i :: 0 <= i < |kept| ==> kept[i] in kept;
    forall e | e in expenses && e.paidBy != u
      ensures e.(splitAmong := e.splitAmong - {u}) in expenses'
    {
      var i :| 0 <= i < |kept| && kept[i] == e;
      assert expenses'[i] == e.(splitAmong := e.splitAmong - {u});
    }
    (WithoutMember(groups, u), expenses')
  }

  /** Deleting a group keeps the surviving expenses once each, in ledger
      order: a further ledger entry survives, at the end, exactly when it
      belongs to another group. */
  lemma DeleteGroupAppend(groups: map<nat, Group>, expenses: seq<Expense>, e: Expense, gid: nat)
    ensures DeleteGroup(groups, expenses + [e], gid).1 ==
      DeleteGroup(groups, expenses, gid).1 + (if e.group != gid then [e] else [])
  {
    FilterConcat(expenses, [e], NotOfGroup(gid));
    assert [e][1..] == [];
  }

  /** Deleting a user keeps the surviving expenses once each, in ledger
      order: a further ledger entry survives, at the end and without the
      user in its split, exactly when the user did not pay it. */
  lemma DeleteUserAppend(groups: map<nat, Group>, expenses: seq<Expense>, e: Expense, u: User)
    ensures DeleteUser(groups, expenses + [e], u).1 ==
      DeleteUser(groups, expenses, u).1 + (if e.paidBy != u then [e.(splitAmong := e.splitAmong - {u})] else [])
  {
    SurvivorsAppend(expenses, e, u);
  }

  lemma SurvivorsAppend(expenses: seq<Expense>, e: Expense, u: User)
    ensures Survivors(expenses + [e], u) ==
      Survivors(expenses, u) + (if e.paidBy != u then [e.(splitAmong := e.splitAmong - {u})] else [])
  {
    FilterConcat(expenses, [e], NotPaidBy(u));
    assert [e][1..] == [];
    WithoutSplitterConcat(Filter(expenses, NotPaidBy(u)), Filter([e], NotPaidBy(u)), u);
  }

  lemma {:induction false} WithoutSplitterConcat(a: seq<Expense>, b: seq<Expense>, u: User)
    ensures WithoutSplitter(a + b, u) == WithoutSplitter(a, u) + WithoutSplitter(b, u)
  {
    if a == [] {
      assert a + b == b;
    } else {
      assert (a + b)[0] == a[0];
      assert (a + b)[1..] == a[1..] + b;
      WithoutSplitterConcat(a[1..], b, u);
    }
  }
}
